/**
 The workers' encoders: one pass adds up the size of a reply, the next writes
 it through a cursor into a zeroed block of exactly that size.
 */
module NscdMarshal {
  import opened Bytes
  import opened NscdModel
  import opened NscdLayout
  import opened NscdPipes

  /** The block holds what was written so far, and zeros after that. */
  ghost predicate Filled(b: seq<byte>, done: seq<byte>) {
    |done| <= |b| && b == done + Zeros(|b| - |done|)
  }

  lemma FilledMore(b: seq<byte>, done: seq<byte>, piece: seq<byte>, c: seq<byte>)
    requires Filled(b, done) && |done| + |piece| <= |b|
    requires c == b[..|done|] + piece + b[|done| + |piece|..]
    ensures Filled(c, done + piece)
  {
    assert b[..|done|] == done;
    assert c == (done + piece) + Zeros(|c| - |done + piece|);
  }

  lemma AllFilled(b: seq<byte>, done: seq<byte>)
    requires Filled(b, done) && |b| == |done|
    ensures b == done
  {
  }

  /** memcpy() to an offset of the block. */
  method MemCpy(a: array<byte>, p: nat, piece: seq<byte>)
    requires p + |piece| <= a.Length
    modifies a
    ensures a[..] == old(a[..])[..p] + piece + old(a[..])[p + |piece|..]
  {
    var k := 0;
    while k < |piece|
      invariant k <= |piece|
      invariant forall j :: 0 <= j < a.Length ==> a[j] == if p <= j < p + k then piece[j - p] else old(a[j])
    {
      a[p + k] := piece[k];
      k := k + 1;
    }
  }

  /** Writes at the cursor. */
  method Put(a: array<byte>, p: nat, piece: seq<byte>, ghost done: seq<byte>) returns (q: nat)
    requires Filled(a[..], done) && p == |done| && p + |piece| <= a.Length
    modifies a
    ensures Filled(a[..], done + piece) && q == p + |piece| == |done + piece|
  {
    ghost var b := a[..];
    MemCpy(a, p, piece);
    FilledMore(b, done, piece, a[..]);
    q := p + |piece|;
  }

  method PutWords(a: array<byte>, p: nat, ws: seq<word>, ghost done: seq<byte>) returns (q: nat)
    requires Filled(a[..], done) && p == |done| && p + 4 * |ws| <= a.Length
    modifies a
    ensures Filled(a[..], done + Words(ws)) && q == p + 4 * |ws|
  {
    var k := 0;
    q := p;
    assert done + Words(ws[..0]) == done;
    while k < |ws|
      invariant k <= |ws| && q == p + 4 * k
      invariant Filled(a[..], done + Words(ws[..k]))
    {
      ghost var sofar := done + Words(ws[..k]);
      q := Put(a, q, Le32(ws[k]), sofar);
      WordsLast(ws, k);
      assert sofar + Le32(ws[k]) == done + Words(ws[..k + 1]);
      k := k + 1;
    }
    assert ws[..k] == ws;
  }

  lemma WordsLast(ws: seq<word>, k: nat)
    requires k < |ws|
    ensures Words(ws[..k + 1]) == Words(ws[..k]) + Le32(ws[k])
  {
    assert ws[..k + 1] == ws[..k] + [ws[k]];
    WordsOfConcat(ws[..k], [ws[k]]);
    assert Words([ws[k]]) == Le32(ws[k]) + Words([]);
  }

  /** A row of strings, each with its terminating zero. */
  method PutStrs(a: array<byte>, p: nat, ss: seq<cstring>, ghost done: seq<byte>) returns (q: nat)
    requires Filled(a[..], done) && p == |done| && p + |Strs(ss)| <= a.Length
    modifies a
    ensures Filled(a[..], done + Strs(ss)) && q == p + |Strs(ss)|
  {
    var k := 0;
    q := p;
    assert done + Strs(ss[..0]) == done;
    while k < |ss|
      invariant k <= |ss| && q == p + |Strs(ss[..k])|
      invariant Filled(a[..], done + Strs(ss[..k]))
    {
      ghost var sofar := done + Strs(ss[..k]);
      StrsLast(ss, k);
      StrsPrefix(ss, k + 1);
      q := Put(a, q, Z(ss[k]), sofar);
      assert sofar + Z(ss[k]) == done + Strs(ss[..k + 1]);
      k := k + 1;
    }
    assert ss[..k] == ss;
  }

  lemma StrsLast(ss: seq<cstring>, k: nat)
    requires k < |ss|
    ensures Strs(ss[..k + 1]) == Strs(ss[..k]) + Z(ss[k])
  {
    assert ss[..k + 1] == ss[..k] + [ss[k]];
    StrsOfConcat(ss[..k], [ss[k]]);
    assert Strs([ss[k]]) == Z(ss[k]) + Strs([]);
  }

  lemma StrsPrefix(ss: seq<cstring>, k: nat)
    requires k <= |ss|
    ensures |Strs(ss[..k])| <= |Strs(ss)|
  {
    assert ss == ss[..k] + ss[k..];
    StrsOfConcat(ss[..k], ss[k..]);
  }

  /** The loop that adds up the sizes of a NULL-terminated row of strings. */
  method SumStrSizes(ss: seq<cstring>) returns (sz: nat, cnt: nat)
    ensures sz == |Strs(ss)| && cnt == |ss|
  {
    sz, cnt := 0, 0;
    while cnt < |ss|
      invariant cnt <= |ss| && sz == |Strs(ss[..cnt])|
    {
      StrsLast(ss, cnt);
      sz := sz + |ss[cnt]| + 1;
      cnt := cnt + 1;
    }
    assert ss[..cnt] == ss;
  }

  /** The loop that stores those sizes. */
  method PutSizes(a: array<byte>, p: nat, ss: seq<cstring>, ghost done: seq<byte>) returns (q: nat)
    requires Filled(a[..], done) && p == |done| && p + 4 * |ss| <= a.Length && |Strs(ss)| < TWO32
    modifies a
    ensures Filled(a[..], done + Words(SizeWords(ss))) && q == p + 4 * |ss|
  {
    StrsSizes(ss);
    q := PutWords(a, p, SizeWords(ss), done);
  }

  method XZAlloc(sz: nat) returns (a: array<byte>)
    ensures fresh(a) && a.Length == sz && Filled(a[..], [])
  {
    a := new byte[sz](_ => 0);
    assert a[..] == [] + Zeros(sz);
  }

  // ------------------------------------------------------------------ passwd

  method MarshalPasswd(l: Option<Passwd>) returns (resp: array<byte>)
    requires l.Some? ==> PasswdSize(l.value) < TWO32
    ensures fresh(resp) && resp[..] == PasswdLayout(l)
  {
    if l == None {
      resp := XZAlloc(36);
      var _ := PutWords(resp, 0, [36], []);
      assert [] + Words([36]) == Words([36]);
      return;
    }
    var pw := l.value;
    ghost var ss := PasswdStrs(pw);
    FiveStrs(pw);
    var sz := 36 + (|pw.name| + 1) + (|pw.passwd| + 1) + (|pw.gecos| + 1) + (|pw.dir| + 1) + (|pw.shell| + 1);
    resp := XZAlloc(sz);
    var p := PutWords(resp, 0, PasswdWords(pw, sz), []);
    ghost var head := Words(PasswdWords(pw, sz));
    assert [] + head == head;
    p := Put(resp, p, Z(pw.name), head);
    p := Put(resp, p, Z(pw.passwd), head + Z(pw.name));
    p := Put(resp, p, Z(pw.gecos), head + Z(pw.name) + Z(pw.passwd));
    p := Put(resp, p, Z(pw.dir), head + Z(pw.name) + Z(pw.passwd) + Z(pw.gecos));
    p := Put(resp, p, Z(pw.shell), head + Z(pw.name) + Z(pw.passwd) + Z(pw.gecos) + Z(pw.dir));
    assert p == sz;
    Reassociate(head, pw);
    AllFilled(resp[..], head + Strs(ss));
  }

  lemma FiveStrs(pw: Passwd)
    ensures Strs(PasswdStrs(pw)) == Z(pw.name) + (Z(pw.passwd) + (Z(pw.gecos) + (Z(pw.dir) + Z(pw.shell))))
  {
    var ss := PasswdStrs(pw);
    assert ss[1..] == [pw.passwd, pw.gecos, pw.dir, pw.shell];
    assert ss[1..][1..] == [pw.gecos, pw.dir, pw.shell];
    assert ss[1..][1..][1..] == [pw.dir, pw.shell];
    TwoStrs(pw.dir, pw.shell);
    assert Strs([pw.gecos, pw.dir, pw.shell]) == Z(pw.gecos) + Strs([pw.dir, pw.shell]);
    assert Strs(ss[1..]) == Z(pw.passwd) + Strs([pw.gecos, pw.dir, pw.shell]);
  }

  lemma Reassociate(head: seq<byte>, pw: Passwd)
    ensures head + Z(pw.name) + Z(pw.passwd) + Z(pw.gecos) + Z(pw.dir) + Z(pw.shell) == head + Strs(PasswdStrs(pw))
  {
    FiveStrs(pw);
  }

  // ------------------------------------------------------------------- group

  /** The strings of a group, one after the other. */
  method PutNames(a: array<byte>, p: nat, gr: Group, ghost done: seq<byte>) returns (q: nat)
    requires Filled(a[..], done) && p == |done|
    requires p + (|gr.name| + 1) + (|gr.passwd| + 1) + |Strs(gr.mem)| <= a.Length
    modifies a
    ensures Filled(a[..], done + Strs(GroupStrs(gr)))
    ensures q == p + (|gr.name| + 1) + (|gr.passwd| + 1) + |Strs(gr.mem)|
  {
    q := Put(a, p, Z(gr.name), done);
    q := Put(a, q, Z(gr.passwd), done + Z(gr.name));
    q := PutStrs(a, q, gr.mem, done + Z(gr.name) + Z(gr.passwd));
    GroupWhole(done, gr);
  }

  method MarshalGroup(l: Option<Group>) returns (resp: array<byte>)
    requires l.Some? ==> GroupSize(l.value) < TWO32
    ensures fresh(resp) && resp[..] == GroupLayout(l)
  {
    if l == None {
      resp := XZAlloc(24);
      var _ := PutWords(resp, 0, [24], []);
      assert [] + Words([24]) == Words([24]);
      return;
    }
    var gr := l.value;
    ghost var sizes := MemberSizes(gr);
    StrsOfConcat([gr.name, gr.passwd], gr.mem);
    TwoStrs(gr.name, gr.passwd);
    var sz := 24 + (|gr.name| + 1) + (|gr.passwd| + 1);
    var memSz, cnt := SumStrSizes(gr.mem);
    sz := sz + memSz + 4 * cnt;
    resp := XZAlloc(sz);
    ghost var head := Words(GroupWords(gr, sz));
    var p := PutWords(resp, 0, GroupWords(gr, sz), []);
    assert [] + head == head;
    p := PutSizes(resp, p, gr.mem, head);
    ghost var done := head + Words(sizes);
    p := PutNames(resp, p, gr, done);
    assert p == sz;
    WordsOfConcat(GroupWords(gr, sz), sizes);
    AllFilled(resp[..], done + Strs(GroupStrs(gr)));
  }

  lemma TwoStrs(a: cstring, b: cstring)
    ensures Strs([a, b]) == Z(a) + Z(b)
  {
    assert [a, b][1..] == [b];
    assert Strs([b]) == Z(b) + Strs([]);
  }

  lemma GroupWhole(done: seq<byte>, gr: Group)
    ensures done + Z(gr.name) + Z(gr.passwd) + Strs(gr.mem) == done + Strs(GroupStrs(gr))
  {
    StrsOfConcat([gr.name, gr.passwd], gr.mem);
    TwoStrs(gr.name, gr.passwd);
  }

  // ----------------------------------------------------------------- hostent

  /** memcpy() of each address in turn. */
  method PutPieces(a: array<byte>, p: nat, pieces: seq<seq<byte>>, ghost done: seq<byte>) returns (q: nat)
    requires Filled(a[..], done) && p == |done| && p + |Joined(pieces)| <= a.Length
    modifies a
    ensures Filled(a[..], done + Joined(pieces)) && q == p + |Joined(pieces)|
  {
    var k := 0;
    q := p;
    assert done + Joined(pieces[..0]) == done;
    while k < |pieces|
      invariant k <= |pieces| && q == p + |Joined(pieces[..k])|
      invariant Filled(a[..], done + Joined(pieces[..k]))
    {
      ghost var sofar := done + Joined(pieces[..k]);
      JoinedLast(pieces, k);
      JoinedPrefix(pieces, k + 1);
      q := Put(a, q, pieces[k], sofar);
      assert sofar + pieces[k] == done + Joined(pieces[..k + 1]);
      k := k + 1;
    }
    assert pieces[..k] == pieces;
  }

  lemma JoinedPrefix(pieces: seq<seq<byte>>, k: nat)
    requires k <= |pieces|
    ensures |Joined(pieces[..k])| <= |Joined(pieces)|
  {
    assert pieces == pieces[..k] + pieces[k..];
    JoinedOfConcat(pieces[..k], pieces[k..]);
  }

  /** strcpy() and a jump of the aligned size: the gap stays zero. */
  method PutPadded(a: array<byte>, p: nat, s: cstring, ghost done: seq<byte>) returns (q: nat)
    requires Filled(a[..], done) && p == |done| && p + Aligned(s) <= a.Length
    modifies a
    ensures Filled(a[..], done + Padded(s)) && q == p + Aligned(s)
  {
    var _ := Put(a, p, Z(s), done);
    q := p + Aligned(s);
    assert done + Z(s) + Zeros(a.Length - |done + Z(s)|) == done + Padded(s) + Zeros(a.Length - |done + Padded(s)|);
  }

  /** The size pass over a host entry. */
  method HostentSizePass(h: Hostent) returns (sz: nat)
    requires HostentOk(h)
    ensures sz == HostentSize(h)
  {
    sz := 32 + Aligned(h.name);
    var addrs := 0;
    while addrs < |h.addrs|
      invariant addrs <= |h.addrs|
    {
      addrs := addrs + 1;
    }
    JoinedLength(h.addrs, h.length);
    sz := sz + addrs * h.length;
    var aliasSz, aliases := SumStrSizes(h.aliases);
    sz := sz + aliasSz + 4 * aliases;
  }

  method MarshalHostent(l: Option<Hostent>) returns (resp: array<byte>)
    requires l.Some? ==> HostentOk(l.value) && HostentSize(l.value) < TWO32 && |l.value.addrs| < TWO32
    ensures fresh(resp) && resp[..] == HostentLayout(l)
  {
    if l == None {
      resp := XZAlloc(32);
      var _ := PutWords(resp, 0, [32, 0, 0, 0, 0, 0, 0, HOST_NOT_FOUND], []);
      AllFilled(resp[..], [] + HostentLayout(None));
      assert [] + HostentLayout(None) == HostentLayout(None);
      return;
    }
    var h := l.value;
    var sz := HostentSizePass(h);
    resp := XZAlloc(sz);
    ghost var head := Words(HostentWords(h, sz));
    var p := PutWords(resp, 0, HostentWords(h, sz), []);
    assert [] + head == head;
    p := PutPadded(resp, p, h.name, head);
    ghost var done1 := head + Padded(h.name);
    p := PutSizes(resp, p, h.aliases, done1);
    ghost var done2 := done1 + Words(SizeWords(h.aliases));
    p := PutPieces(resp, p, h.addrs, done2);
    ghost var done3 := done2 + Joined(h.addrs);
    p := PutStrs(resp, p, h.aliases, done3);
    assert p == sz;
    FourParts(head, Padded(h.name), Words(SizeWords(h.aliases)), Joined(h.addrs), Strs(h.aliases));
    AllFilled(resp[..], head + HostentBody(h));
  }

  lemma FourParts(head: seq<byte>, a: seq<byte>, b: seq<byte>, c: seq<byte>, d: seq<byte>)
    ensures head + a + b + c + d == head + (a + (b + (c + d)))
  {
  }

  // ---------------------------------------------------------------- addrinfo

  /** Two cursors: addresses fill the first n octets after the header, families
      follow them, and neither has run into what the other writes. */
  ghost predicate TwoFilled(b: seq<byte>, head: seq<byte>, n: nat, octets: seq<byte>, families: seq<byte>) {
    && |octets| <= n && |head| + n + |families| <= |b|
    && b == head + octets + Zeros(n - |octets|) + families + Zeros(|b| - |head| - n - |families|)
  }

  lemma OctetsMore(b: seq<byte>, head: seq<byte>, n: nat, octets: seq<byte>, families: seq<byte>, piece: seq<byte>,
                   c: seq<byte>)
    requires TwoFilled(b, head, n, octets, families) && |octets| + |piece| <= n
    requires var p := |head| + |octets|; c == b[..p] + piece + b[p + |piece|..]
    ensures TwoFilled(c, head, n, octets + piece, families)
  {
    var p := |head| + |octets|;
    assert b[..p] == head + octets;
    assert b[p + |piece|..] == Zeros(n - |octets| - |piece|) + families + Zeros(|b| - |head| - n - |families|);
  }

  lemma FamiliesMore(b: seq<byte>, head: seq<byte>, n: nat, octets: seq<byte>, families: seq<byte>, piece: seq<byte>,
                     c: seq<byte>)
    requires TwoFilled(b, head, n, octets, families) && |head| + n + |families| + |piece| <= |b|
    requires var p := |head| + n + |families|; c == b[..p] + piece + b[p + |piece|..]
    ensures TwoFilled(c, head, n, octets, families + piece)
  {
    var p := |head| + n + |families|;
    assert b[..p] == head + octets + Zeros(n - |octets|) + families;
    assert b[p + |piece|..] == Zeros(|b| - p - |piece|);
    assert c == head + octets + Zeros(n - |octets|) + (families + piece) + Zeros(|b| - p - |piece|);
  }

  /** One turn of the writing loop: a family octet and an address. */
  method PutAddr(a: array<byte>, addr: Addr, p: nat, family: nat,
                 ghost head: seq<byte>, ghost n: nat, ghost octets: seq<byte>, ghost families: seq<byte>)
    requires TwoFilled(a[..], head, n, octets, families)
    requires p == |head| + |octets| && family == |head| + n + |families|
    requires |octets| + |addr.octets| <= n && family + 1 <= a.Length
    modifies a
    ensures TwoFilled(a[..], head, n, octets + addr.octets, families + [addr.family])
  {
    PutFamily(a, addr.family, family, head, n, octets, families);
    PutOctets(a, addr.octets, p, head, n, octets, families + [addr.family]);
  }

  method PutFamily(a: array<byte>, f: byte, family: nat, ghost head: seq<byte>, ghost n: nat, ghost octets: seq<byte>,
                   ghost families: seq<byte>)
    requires TwoFilled(a[..], head, n, octets, families) && family == |head| + n + |families| < a.Length
    modifies a
    ensures TwoFilled(a[..], head, n, octets, families + [f])
  {
    ghost var b := a[..];
    MemCpy(a, family, [f]);
    FamiliesMore(b, head, n, octets, families, [f], a[..]);
  }

  method PutOctets(a: array<byte>, o: seq<byte>, p: nat, ghost head: seq<byte>, ghost n: nat, ghost octets: seq<byte>,
                   ghost families: seq<byte>)
    requires TwoFilled(a[..], head, n, octets, families) && p == |head| + |octets| && |octets| + |o| <= n
    modifies a
    ensures TwoFilled(a[..], head, n, octets + o, families)
  {
    ghost var b := a[..];
    MemCpy(a, p, o);
    OctetsMore(b, head, n, octets, families, o, a[..]);
  }

  /** The first loop: how many addresses, and how many octets in all. */
  method CountAddrs(addrs: seq<Addr>) returns (naddrs: nat, addrslen: nat)
    requires forall k :: 0 <= k < |addrs| ==> |addrs[k].octets| == AddrLen(addrs[k].family)
    ensures naddrs == |addrs| && addrslen == |Joined(Octets(addrs))|
  {
    naddrs, addrslen := 0, 0;
    while naddrs < |addrs|
      invariant naddrs <= |addrs| && addrslen == |Joined(Octets(addrs)[..naddrs])|
    {
      JoinedLast(Octets(addrs), naddrs);
      addrslen := addrslen + if addrs[naddrs].family == AF_INET then 4 else 16;
      naddrs := naddrs + 1;
    }
    assert Octets(addrs)[..naddrs] == Octets(addrs);
  }

  /** The second loop. */
  method PutAddrs(a: array<byte>, addrs: seq<Addr>, addrslen: nat, ghost head: seq<byte>) returns (family: nat)
    requires |head| == 24 && addrslen == |Joined(Octets(addrs))| && 24 + addrslen + |addrs| <= a.Length
    requires TwoFilled(a[..], head, addrslen, [], [])
    modifies a
    ensures TwoFilled(a[..], head, addrslen, Joined(Octets(addrs)), Families(addrs))
    ensures family == 24 + addrslen + |addrs|
  {
    ghost var os, fs := Octets(addrs), Families(addrs);
    var p := 24;
    family := p + addrslen;
    var k := 0;
    while k < |addrs|
      invariant k <= |addrs| && p == 24 + |Joined(os[..k])| && family == 24 + addrslen + k
      invariant TwoFilled(a[..], head, addrslen, Joined(os[..k]), fs[..k])
    {
      JoinedLast(os, k);
      JoinedPrefix(os, k + 1);
      PutAddr(a, addrs[k], p, family, head, addrslen, Joined(os[..k]), fs[..k]);
      assert fs[..k + 1] == fs[..k] + [addrs[k].family];
      p := p + |addrs[k].octets|;
      family := family + 1;
      k := k + 1;
    }
    assert os[..k] == os && fs[..k] == fs;
  }

  /** obtain_addrinfo(), given what getaddrinfo() returned. */
  method MarshalAddrInfo(r: AddrReply) returns (resp: array<byte>)
    requires r.Addrs? ==> AddrInfoOk(r.ai) && AddrInfoSize(r.ai) < TWO32
    ensures fresh(resp) && resp[..] == AddrInfoLayout(r)
  {
    match r
    case NoAddrs(error) =>
      resp := MarshalNoAddrs(error);
    case Addrs(ai) =>
      resp := MarshalAddrs(ai);
  }

  method MarshalNoAddrs(error: word) returns (resp: array<byte>)
    ensures fresh(resp) && resp[..] == AddrInfoLayout(NoAddrs(error))
  {
    ghost var layout := AddrInfoLayout(NoAddrs(error));
    resp := XZAlloc(24);
    var _ := PutWords(resp, 0, [24, 0, 0, 0, 0, error], []);
    AllFilled(resp[..], [] + layout);
    assert [] + layout == layout;
  }

  method MarshalAddrs(ai: AddrInfo) returns (resp: array<byte>)
    requires AddrInfoOk(ai) && AddrInfoSize(ai) < TWO32
    ensures fresh(resp) && resp[..] == AddrInfoLayout(Addrs(ai))
  {
    var canonlen := if ai.canonname.Some? then |ai.canonname.value| + 1 else 0;
    var naddrs, addrslen := CountAddrs(ai.addrs);
    var sz := 24 + canonlen + naddrs + addrslen;
    resp := XZAlloc(sz);
    var words := AddrInfoWords(ai, sz);
    ghost var head, octets, families := Words(words), Joined(Octets(ai.addrs)), Families(ai.addrs);
    var canon := Canon(ai);
    var _ := PutWords(resp, 0, words, []);
    NothingYet(resp[..], head, addrslen);
    var family := PutAddrs(resp, ai.addrs, addrslen, head);
    ghost var b := resp[..];
    MemCpy(resp, family, canon);
    FamiliesMore(b, head, addrslen, octets, families, canon, resp[..]);
    AllThree(resp[..], head, addrslen, octets, families, canon);
  }

  lemma NothingYet(b: seq<byte>, head: seq<byte>, n: nat)
    requires Filled(b, [] + head) && |head| + n <= |b|
    ensures TwoFilled(b, head, n, [], [])
  {
    assert [] + head == head;
    assert b == head + [] + Zeros(n) + [] + Zeros(|b| - |head| - n);
  }

  lemma AllThree(b: seq<byte>, head: seq<byte>, n: nat, octets: seq<byte>, families: seq<byte>, canon: seq<byte>)
    requires TwoFilled(b, head, n, octets, families + canon) && |octets| == n
             && |b| == |head| + n + |families| + |canon|
    ensures b == head + (octets + (families + canon))
  {
  }

  // ------------------------------------------------------------- the worker

  /** The end of worker(): what goes down the pipe to the daemon.  Where a write
      fails the worker dies with an error, and only a part has gone out. */
  method SendReply(resp: array<byte>, pipe: Stream) returns (ok: bool)
    requires resp.Length >= 8 && U32(resp[..], 0) == resp.Length
    modifies pipe
    ensures ok <==> pipe.refused == old(pipe.refused)
    ensures ok ==> pipe.pending == old(pipe.pending) + Output(resp[..])
    ensures !ok ==> old(pipe.pending) <= pipe.pending < old(pipe.pending) + Output(resp[..])
  {
    var n := if U32(resp[..], 4) == 0 then 8 else U32(resp[..], 0);
    assert resp[..n] == Output(resp[..]);
    var total := pipe.FullWrite(resp[..n]);
    ok := n == total;
  }
}
