/**
 The replies of the workers: the layout each kind is documented to have, the
 reading of it on the client's side, and the proof that what a client is sent
 reads back as what the worker looked up.
 */
module NscdLayout {
  import opened Bytes
  import opened NscdModel

  /** The contents of a C string, up to its terminating zero. */
  type cstring = s: seq<byte> | 0 !in s

  type word = n: nat | n < TWO32

  const AF_INET: word := 2
  const HOST_NOT_FOUND: word := 1

  datatype Passwd = Passwd(name: cstring, passwd: cstring, uid: word, gid: word, gecos: cstring, dir: cstring,
      shell: cstring)
  datatype Group = Group(name: cstring, passwd: cstring, gid: word, mem: seq<cstring>)
  datatype Hostent = Hostent(name: cstring, aliases: seq<cstring>, addrtype: word, length: word, addrs: seq<seq<byte>>)
  datatype Addr = Addr(family: byte, octets: seq<byte>)
  datatype AddrInfo = AddrInfo(addrs: seq<Addr>, canonname: Option<cstring>)

  // ------------------------------------------------------------------ pieces

  function Words(ws: seq<word>): (r: seq<byte>)
    ensures |r| == 4 * |ws|
  {
    if ws == [] then [] else Le32(ws[0]) + Words(ws[1..])
  }

  function Z(s: cstring): (r: seq<byte>)
    ensures |r| == |s| + 1
  {
    s + [0]
  }

  function Strs(ss: seq<cstring>): seq<byte> {
    if ss == [] then [] else Z(ss[0]) + Strs(ss[1..])
  }

  function Sizes(ss: seq<cstring>): (r: seq<nat>)
    ensures |r| == |ss|
    ensures forall k :: 0 <= k < |ss| ==> r[k] == |ss[k]| + 1
  {
    seq(|ss|, k requires 0 <= k < |ss| => |ss[k]| + 1)
  }

  /** strsize_aligned4() */
  function Aligned(s: cstring): (n: nat)
    ensures |s| < n <= |s| + 4 && n % 4 == 0
  {
    (|s| + 4) / 4 * 4
  }

  function Padded(s: cstring): (r: seq<byte>)
    ensures |r| == Aligned(s)
  {
    s + Zeros(Aligned(s) - |s|)
  }

  function UpToNul(b: seq<byte>): (s: cstring)
    ensures |s| <= |b|
  {
    if b == [] || b[0] == 0 then []
    else
      var rest := UpToNul(b[1..]);
      [b[0]] + rest
  }

  lemma {:induction false} UpToNulBack(s: cstring, n: nat)
    requires n > 0
    ensures UpToNul(s + Zeros(n)) == s
  {
    var b := s + Zeros(n);
    if s != [] {
      var rest: cstring := s[1..];
      assert b[1..] == rest + Zeros(n);
      UpToNulBack(rest, n);
      assert b[0] == s[0] && s[0] in s;
    }
  }

  // ----------------------------------------------------------------- reading

  function ReadWords(b: seq<byte>, off: nat, n: nat): (r: Option<seq<word>>)
    ensures r.Some? ==> |r.value| == n && off + 4 * n <= |b|
    decreases n
  {
    if off + 4 * n > |b| then None
    else if n == 0 then Some([])
    else
      var rest := ReadWords(b, off + 4, n - 1);
      if rest == None then None else Some([U32(b, off) as word] + rest.value)
  }

  function ReadStrs(b: seq<byte>, off: nat, sizes: seq<nat>): Option<seq<cstring>>
    decreases |sizes|
  {
    if sizes == [] then Some([])
    else if off + sizes[0] > |b| then None
    else
      var rest := ReadStrs(b, off + sizes[0], sizes[1..]);
      if rest == None then None else Some([UpToNul(b[off..off + sizes[0]])] + rest.value)
  }

  function ReadPieces(b: seq<byte>, off: nat, sizes: seq<nat>): Option<seq<seq<byte>>>
    decreases |sizes|
  {
    if sizes == [] then Some([])
    else if off + sizes[0] > |b| then None
    else
      var rest := ReadPieces(b, off + sizes[0], sizes[1..]);
      if rest == None then None else Some([b[off..off + sizes[0]]] + rest.value)
  }

  lemma HoldsWord(b: seq<byte>, off: nat, n: word)
    requires Holds(b, off, Le32(n))
    ensures U32(b, off) == n
  {
    assert b == b[..off] + Le32(n) + b[off + 4..];
    U32OfLe32(n, b[..off], b[off + 4..]);
  }

  lemma {:induction false} WordsBack(b: seq<byte>, off: nat, ws: seq<word>)
    requires Holds(b, off, Words(ws))
    ensures ReadWords(b, off, |ws|) == Some(ws)
    decreases |ws|
  {
    if ws != [] {
      HoldsParts(b, off, Le32(ws[0]), Words(ws[1..]));
      HoldsWord(b, off, ws[0]);
      WordsBack(b, off + 4, ws[1..]);
      assert [ws[0]] + ws[1..] == ws;
    }
  }

  lemma {:induction false} StrsBack(b: seq<byte>, off: nat, ss: seq<cstring>)
    requires Holds(b, off, Strs(ss))
    ensures ReadStrs(b, off, Sizes(ss)) == Some(ss)
    decreases |ss|
  {
    if ss != [] {
      HoldsParts(b, off, Z(ss[0]), Strs(ss[1..]));
      assert Z(ss[0]) == ss[0] + Zeros(1);
      UpToNulBack(ss[0], 1);
      StrsBack(b, off + |ss[0]| + 1, ss[1..]);
      assert Sizes(ss)[1..] == Sizes(ss[1..]);
      assert [ss[0]] + ss[1..] == ss;
    }
  }

  function Lengths(pieces: seq<seq<byte>>): (r: seq<nat>)
    ensures |r| == |pieces|
    ensures forall k :: 0 <= k < |pieces| ==> r[k] == |pieces[k]|
  {
    seq(|pieces|, k requires 0 <= k < |pieces| => |pieces[k]|)
  }

  lemma {:induction false} PiecesBack(b: seq<byte>, off: nat, pieces: seq<seq<byte>>)
    requires Holds(b, off, Joined(pieces))
    ensures ReadPieces(b, off, Lengths(pieces)) == Some(pieces)
    decreases |pieces|
  {
    if pieces != [] {
      HoldsParts(b, off, pieces[0], Joined(pieces[1..]));
      PiecesBack(b, off + |pieces[0]|, pieces[1..]);
      assert Lengths(pieces)[1..] == Lengths(pieces[1..]);
      assert [pieces[0]] + pieces[1..] == pieces;
    }
  }

  // ------------------------------------------------------ a worker's output

  /** A reply begins with its own size and with whether anything was found. */
  predicate Framed(resp: seq<byte>, found: word) {
    && 8 <= |resp| <= MAX_REPLY_SIZE
    && resp[..4] == Le32(|resp|) && resp[4..8] == Le32(found)
  }

  /** The end of worker(): eight octets if nothing was found, else everything. */
  function Output(resp: seq<byte>): seq<byte> {
    if |resp| >= 8 && U32(resp, 4) == 0 then resp[..8] else resp
  }

  /** What a client gets to see of a worker's reply. */
  function Seen(resp: seq<byte>): seq<byte> {
    if ValidReply(Output(resp)) then Wire(ReplyBytes(Output(resp))) else []
  }

  lemma FrameWords(resp: seq<byte>, found: word)
    requires Framed(resp, found)
    ensures U32(resp, 0) == |resp| && U32(resp, 4) == found
    ensures U32(resp[..8], 0) == |resp| && U32(resp[..8], 4) == found
  {
    HoldsWord(resp, 0, |resp|);
    HoldsWord(resp, 4, found);
  }

  /** A reply that found something reaches the client whole, up to the version
      in front; of one that did not, all but the first eight octets are zeroed. */
  lemma ReplySurvives(resp: seq<byte>, found: word)
    requires Framed(resp, found)
    ensures ValidReply(Output(resp))
    ensures Seen(resp) == if found != 0 then Le32(NSCD_VERSION) + resp[4..]
                          else Le32(NSCD_VERSION) + Le32(0) + Zeros(|resp| - 8)
  {
    FrameWords(resp, found);
    var out := Output(resp);
    if found != 0 {
      assert resp[..|resp|] == resp;
      assert |resp| <= FIRST_READ_SIZE ==> out[..|resp|] + Zeros(0) == resp;
      assert ReplyBytes(out) == resp;
    } else {
      assert ReplyBytes(out) == resp[..8] + Zeros(|resp| - 8);
      assert ReplyBytes(out)[4..] == Le32(0) + Zeros(|resp| - 8);
    }
  }

  // ------------------------------------------------------------------ passwd

  function PasswdStrs(pw: Passwd): seq<cstring> {
    [pw.name, pw.passwd, pw.gecos, pw.dir, pw.shell]
  }

  function PasswdSize(pw: Passwd): nat {
    36 + |Strs(PasswdStrs(pw))|
  }

  function PasswdWords(pw: Passwd, first: word): (ws: seq<word>)
    requires PasswdSize(pw) < TWO32
  {
    StrsSizes(PasswdStrs(pw));
    var ss := PasswdStrs(pw);
    [first, 1, |ss[0]| + 1, |ss[1]| + 1, pw.uid, pw.gid, |ss[2]| + 1, |ss[3]| + 1, |ss[4]| + 1]
  }

  function PasswdLayout(l: Option<Passwd>): seq<byte>
    requires l.Some? ==> PasswdSize(l.value) < TWO32
  {
    match l
    case None => Words([36]) + Zeros(32)
    case Some(pw) =>
      Words(PasswdWords(pw, PasswdSize(pw))) + Strs(PasswdStrs(pw))
  }

  lemma {:induction false} StrsSizes(ss: seq<cstring>)
    ensures forall k :: 0 <= k < |ss| ==> |ss[k]| + 1 <= |Strs(ss)|
  {
    if ss != [] {
      StrsSizes(ss[1..]);
      forall k | 0 <= k < |ss| ensures |ss[k]| + 1 <= |Strs(ss)| {
        assert k > 0 ==> ss[k] == ss[1..][k - 1];
      }
    }
  }

  /** A client reads what it was sent; None is a reply it cannot read. */
  function ReadPasswd(b: seq<byte>): Option<Option<Passwd>> {
    var w := ReadWords(b, 0, 9);
    if w == None || w.value[0] != NSCD_VERSION then None
    else if w.value[1] == 0 then Some(None)
    else
      var h := w.value;
      var ss := ReadStrs(b, 36, [h[2], h[3], h[6], h[7], h[8]]);
      if ss == None || |ss.value| != 5 then None
      else Some(Some(Passwd(ss.value[0], ss.value[1], h[4], h[5], ss.value[2], ss.value[3], ss.value[4])))
  }

  lemma WordsCons(w: word, ws: seq<word>)
    ensures Words([w] + ws) == Le32(w) + Words(ws)
  {
    assert ([w] + ws)[1..] == ws;
  }

  lemma HeadReplaced(seen: seq<byte>, resp: seq<byte>, x: seq<byte>, v: seq<byte>, y: seq<byte>, body: seq<byte>)
    requires |x| == |v| == 4 && resp == (x + y) + body && seen == v + resp[4..]
    ensures Holds(seen, 0, v + y) && Holds(seen, 4 + |y|, body) && |seen| == |resp|
  {
    assert resp == x + (y + body);
    assert seen == (v + y) + body;
    var n := 4 + |y|;
    assert seen[..n] == v + y;
  }

  lemma TwoHeads(x: seq<byte>, y: seq<byte>, z: seq<byte>, body: seq<byte>)
    requires |x| == |y| == 4
    ensures var all := (x + (y + z)) + body; all[..4] == x && all[4..8] == y
  {
    assert (x + (y + z)) + body == x + (y + (z + body));
  }

  lemma FrameOf(w0: word, found: word, ws: seq<word>, body: seq<byte>)
    requires w0 == 8 + 4 * |ws| + |body| <= MAX_REPLY_SIZE
    ensures Framed(Words([w0] + ([found] + ws)) + body, found)
  {
    var tail := [found] + ws;
    var all := [w0] + tail;
    WordsCons(w0, tail);
    WordsCons(found, ws);
    var b := Words(all) + body;
    assert |b| == w0;
    TwoHeads(Le32(w0), Le32(found), Words(ws), body);
  }

  lemma SeenHolds(seen: seq<byte>, resp: seq<byte>, x: seq<byte>, v: seq<byte>, y: seq<byte>, body: seq<byte>,
                  all: seq<byte>, now: seq<byte>)
    requires all == x + y && now == v + y && |x| == |v| == 4
    requires resp == all + body && seen == v + resp[4..]
    ensures Holds(seen, 0, now) && Holds(seen, 4 + |y|, body) && |seen| == |resp|
  {
    HeadReplaced(seen, resp, x, v, y, body);
  }

  /** What a client sees of a reply that found something. */
  lemma FoundHolds(size: word, ws: seq<word>, body: seq<byte>)
    requires size == 8 + 4 * |ws| + |body| <= MAX_REPLY_SIZE
    ensures var resp := Words([size] + ([1] + ws)) + body;
            && Framed(resp, 1)
            && Holds(Seen(resp), 0, Words([NSCD_VERSION] + ([1] + ws))) && Holds(Seen(resp), 8 + 4 * |ws|, body)
            && |Seen(resp)| == size
  {
    var tail := [1] + ws;
    var all, now := Words([size] + tail), Words([NSCD_VERSION] + tail);
    var resp := all + body;
    FrameOf(size, 1, ws, body);
    ReplySurvives(resp, 1);
    WordsCons(size, tail);
    WordsCons(NSCD_VERSION, tail);
    SeenHolds(Seen(resp), resp, Le32(size), Le32(NSCD_VERSION), Words(tail), body, all, now);
  }

  /** Not found: all the client reads is that nothing was found. */
  lemma NothingSeen(resp: seq<byte>, n: nat)
    requires Framed(resp, 0) && 2 <= n && 4 * n <= |resp|
    ensures var w := ReadWords(Seen(resp), 0, n); w.Some? && w.value[0] == NSCD_VERSION && w.value[1] == 0
  {
    ReplySurvives(resp, 0);
    var seen := Seen(resp);
    assert Holds(seen, 0, Le32(NSCD_VERSION)) && Holds(seen, 4, Le32(0));
    HoldsWord(seen, 0, NSCD_VERSION);
    HoldsWord(seen, 4, 0);
    WordsReadable(seen, 8, n - 2);
    var rest := ReadWords(seen, 8, n - 2);
    assert ReadWords(seen, 4, n - 1) == Some([0 as word] + rest.value);
  }

  lemma {:induction false} WordsReadable(b: seq<byte>, off: nat, n: nat)
    requires off + 4 * n <= |b|
    ensures ReadWords(b, off, n).Some?
    decreases n
  {
    if n > 0 { WordsReadable(b, off + 4, n - 1); }
  }

  lemma PasswdReadBack(seen: seq<byte>, pw: Passwd)
    requires PasswdSize(pw) < TWO32
    requires Holds(seen, 0, Words(PasswdWords(pw, NSCD_VERSION))) && Holds(seen, 36, Strs(PasswdStrs(pw)))
    ensures ReadPasswd(seen) == Some(Some(pw))
  {
    var ss := PasswdStrs(pw);
    WordsBack(seen, 0, PasswdWords(pw, NSCD_VERSION));
    assert Sizes(ss) == [|ss[0]| + 1, |ss[1]| + 1, |ss[2]| + 1, |ss[3]| + 1, |ss[4]| + 1];
    StrsBack(seen, 36, ss);
  }

  lemma PasswdRoundTrip(pw: Passwd)
    requires PasswdSize(pw) <= MAX_REPLY_SIZE
    ensures ReadPasswd(Seen(PasswdLayout(Some(pw)))) == Some(Some(pw))
  {
    var size := PasswdSize(pw);
    var ws := PasswdWords(pw, size)[2..];
    FoundHolds(size, ws, Strs(PasswdStrs(pw)));
    assert PasswdWords(pw, size) == [size as word] + ([1] + ws);
    assert PasswdWords(pw, NSCD_VERSION) == [NSCD_VERSION as word] + ([1] + ws);
    PasswdReadBack(Seen(PasswdLayout(Some(pw))), pw);
  }

  lemma PasswdNotFound()
    ensures ReadPasswd(Seen(PasswdLayout(None))) == Some(None)
  {
    var resp := PasswdLayout(None);
    assert Words([36]) == Le32(36) + Words([]);
    assert resp == Le32(36) + Zeros(32);
    assert resp[4..8] == Le32(0);
    NothingSeen(resp, 9);
  }

  // ------------------------------------------------------------------- group

  function SizeWords(ss: seq<cstring>): (r: seq<word>)
    requires |Strs(ss)| < TWO32
    ensures r == Sizes(ss)
  {
    StrsSizes(ss);
    seq(|ss|, k requires 0 <= k < |ss| => |ss[k]| + 1)
  }

  function GroupStrs(gr: Group): seq<cstring> {
    [gr.name, gr.passwd] + gr.mem
  }

  function GroupSize(gr: Group): nat {
    24 + 4 * |gr.mem| + |Strs(GroupStrs(gr))|
  }

  lemma {:induction false} StrsOfConcat(a: seq<cstring>, b: seq<cstring>)
    ensures Strs(a + b) == Strs(a) + Strs(b)
  {
    if a == [] {
      assert a + b == b;
    } else {
      assert (a + b)[1..] == a[1..] + b;
      StrsOfConcat(a[1..], b);
    }
  }

  function GroupWords(gr: Group, first: word): (ws: seq<word>)
    requires GroupSize(gr) < TWO32
  {
    StrsSizes(GroupStrs(gr));
    var ss := GroupStrs(gr);
    assert |ss[0]| + 1 < TWO32 && |ss[1]| + 1 < TWO32;
    [first, 1, |gr.name| + 1, |gr.passwd| + 1, gr.gid, |gr.mem|]
  }

  function MemberSizes(gr: Group): (ws: seq<word>)
    requires GroupSize(gr) < TWO32
    ensures ws == Sizes(gr.mem)
  {
    StrsOfConcat([gr.name, gr.passwd], gr.mem);
    SizeWords(gr.mem)
  }

  function GroupLayout(l: Option<Group>): seq<byte>
    requires l.Some? ==> GroupSize(l.value) < TWO32
  {
    match l
    case None => Words([24]) + Zeros(20)
    case Some(gr) => Words(GroupWords(gr, GroupSize(gr)) + MemberSizes(gr)) + Strs(GroupStrs(gr))
  }

  function ReadGroup(b: seq<byte>): Option<Option<Group>> {
    var w := ReadWords(b, 0, 6);
    if w == None || w.value[0] != NSCD_VERSION then None
    else if w.value[1] == 0 then Some(None)
    else
      var h := w.value;
      var cnt: nat := h[5];
      var sizes := ReadWords(b, 24, cnt);
      if sizes == None then None
      else
        var ss := ReadStrs(b, 24 + 4 * cnt, [h[2], h[3]] + sizes.value);
        if ss == None || |ss.value| < 2 then None
        else Some(Some(Group(ss.value[0], ss.value[1], h[4], ss.value[2..])))
  }

  lemma {:induction false} WordsOfConcat(a: seq<word>, b: seq<word>)
    ensures Words(a + b) == Words(a) + Words(b)
  {
    if a == [] {
      assert a + b == b;
    } else {
      assert (a + b)[1..] == a[1..] + b;
      WordsOfConcat(a[1..], b);
    }
  }

  lemma GroupPieces(seen: seq<byte>, gr: Group)
    requires GroupSize(gr) < TWO32
    requires Holds(seen, 0, Words(GroupWords(gr, NSCD_VERSION) + MemberSizes(gr)))
    requires Holds(seen, 24 + 4 * |gr.mem|, Strs(GroupStrs(gr)))
    ensures ReadWords(seen, 0, 6) == Some(GroupWords(gr, NSCD_VERSION))
    ensures ReadWords(seen, 24, |gr.mem|) == Some(MemberSizes(gr))
    ensures ReadStrs(seen, 24 + 4 * |gr.mem|, Sizes(GroupStrs(gr))) == Some(GroupStrs(gr))
  {
    var head, sizes := GroupWords(gr, NSCD_VERSION), MemberSizes(gr);
    WordsOfConcat(head, sizes);
    HoldsParts(seen, 0, Words(head), Words(sizes));
    WordsBack(seen, 0, head);
    WordsBack(seen, 24, sizes);
    StrsBack(seen, 24 + 4 * |gr.mem|, GroupStrs(gr));
  }

  /** The parts of a reply, at their offsets, are the entry. */
  lemma GroupReadBack(seen: seq<byte>, gr: Group, hdr: seq<word>, sizes: seq<word>, ss: seq<cstring>)
    requires ReadWords(seen, 0, 6) == Some(hdr) && |hdr| == 6
    requires hdr[0] == NSCD_VERSION && hdr[1] == 1 && hdr[4] == gr.gid && hdr[5] == |gr.mem|
    requires ReadWords(seen, 24, |gr.mem|) == Some(sizes)
    requires ReadStrs(seen, 24 + 4 * |gr.mem|, [hdr[2], hdr[3]] + sizes) == Some(ss)
    requires |ss| >= 2 && ss[0] == gr.name && ss[1] == gr.passwd && ss[2..] == gr.mem
    ensures ReadGroup(seen) == Some(Some(gr))
  {
  }

  /** What the header says of the strings. */
  lemma GroupParts(gr: Group, hdr: seq<word>, sizes: seq<word>, ss: seq<cstring>)
    requires GroupSize(gr) < TWO32 && hdr == GroupWords(gr, NSCD_VERSION) && sizes == MemberSizes(gr)
             && ss == GroupStrs(gr)
    ensures |hdr| == 6 && hdr[0] == NSCD_VERSION && hdr[1] == 1 && hdr[4] == gr.gid && hdr[5] == |gr.mem|
    ensures Sizes(ss) == [hdr[2], hdr[3]] + sizes
    ensures |ss| >= 2 && ss[0] == gr.name && ss[1] == gr.passwd && ss[2..] == gr.mem
  {
    assert ss[2..] == gr.mem;
  }

  lemma GroupFound(seen: seq<byte>, gr: Group, hdr: seq<word>, sizes: seq<word>)
    requires GroupSize(gr) < TWO32 && hdr == GroupWords(gr, NSCD_VERSION) && sizes == MemberSizes(gr)
    requires Holds(seen, 0, Words(hdr + sizes)) && Holds(seen, 24 + 4 * |gr.mem|, Strs(GroupStrs(gr)))
    ensures ReadGroup(seen) == Some(Some(gr))
  {
    var ss := GroupStrs(gr);
    GroupPieces(seen, gr);
    GroupParts(gr, hdr, sizes, ss);
    GroupReadBack(seen, gr, hdr, sizes, ss);
  }

  lemma FirstOnly(hdr: seq<word>, other: seq<word>)
    requires |hdr| >= 2 && |other| == |hdr| && other[1..] == hdr[1..]
    ensures other == [other[0]] + ([hdr[1]] + hdr[2..]) && hdr == [hdr[0]] + ([hdr[1]] + hdr[2..])
  {
  }

  lemma FirstReplaced(hdr: seq<word>, other: seq<word>, sizes: seq<word>)
    requires |hdr| >= 2 && |other| == |hdr| && other[1..] == hdr[1..]
    ensures other + sizes == [other[0]] + ([hdr[1]] + (hdr[2..] + sizes))
    ensures hdr + sizes == [hdr[0]] + ([hdr[1]] + (hdr[2..] + sizes))
  {
    assert hdr == [hdr[0]] + ([hdr[1]] + hdr[2..]);
    assert other == [other[0]] + hdr[1..] && hdr[1..] == [hdr[1]] + hdr[2..];
  }

  /** The words of the reply as the worker and as the client have them. */
  lemma GroupHeaders(gr: Group, size: word, hdr: seq<word>, other: seq<word>, sizes: seq<word>, ws: seq<word>)
    requires GroupSize(gr) < TWO32 && hdr == GroupWords(gr, NSCD_VERSION) && other == GroupWords(gr, size)
    requires |hdr| == 6 && ws == hdr[2..] + sizes
    ensures other + sizes == [size] + ([1] + ws) && hdr + sizes == [NSCD_VERSION as word] + ([1] + ws)
  {
    FirstReplaced(hdr, other, sizes);
  }

  lemma GroupRoundTrip(gr: Group)
    requires GroupSize(gr) <= MAX_REPLY_SIZE
    ensures ReadGroup(Seen(GroupLayout(Some(gr)))) == Some(Some(gr))
  {
    var size, sizes, hdr := GroupSize(gr), MemberSizes(gr), GroupWords(gr, NSCD_VERSION);
    var ws := hdr[2..] + sizes;
    FoundHolds(size, ws, Strs(GroupStrs(gr)));
    GroupHeaders(gr, size, hdr, GroupWords(gr, size), sizes, ws);
    GroupFound(Seen(GroupLayout(Some(gr))), gr, hdr, sizes);
  }

  lemma GroupNotFound()
    ensures ReadGroup(Seen(GroupLayout(None))) == Some(None)
  {
    var resp := GroupLayout(None);
    assert Words([24]) == Le32(24) + Words([]);
    assert resp == Le32(24) + Zeros(20);
    assert resp[4..8] == Le32(0);
    NothingSeen(resp, 6);
  }

  // ----------------------------------------------------------------- hostent

  /** Every address has the length the entry says. */
  predicate HostentOk(h: Hostent) {
    forall k :: 0 <= k < |h.addrs| ==> |h.addrs[k]| == h.length
  }

  function HostentBody(h: Hostent): seq<byte>
    requires |Strs(h.aliases)| < TWO32
  {
    Padded(h.name) + (Words(SizeWords(h.aliases)) + (Joined(h.addrs) + Strs(h.aliases)))
  }

  function HostentSize(h: Hostent): nat {
    32 + Aligned(h.name) + 4 * |h.aliases| + |Joined(h.addrs)| + |Strs(h.aliases)|
  }

  function HostentWords(h: Hostent, first: word): seq<word>
    requires HostentSize(h) < TWO32 && |h.addrs| < TWO32
  {
    [first, 1, Aligned(h.name), |h.aliases|, h.addrtype, h.length, |h.addrs|, 0]
  }

  function HostentLayout(l: Option<Hostent>): seq<byte>
    requires l.Some? ==> HostentSize(l.value) < TWO32 && |l.value.addrs| < TWO32
  {
    match l
    case None => Words([32, 0, 0, 0, 0, 0, 0, HOST_NOT_FOUND])
    case Some(h) => Words(HostentWords(h, HostentSize(h))) + HostentBody(h)
  }

  datatype HostReply = Host(h: Hostent) | NoHost(error: word)

  function ReadHostent(b: seq<byte>): Option<HostReply> {
    var w := ReadWords(b, 0, 8);
    if w == None || w.value[0] != NSCD_VERSION then None
    else if w.value[1] == 0 then Some(NoHost(w.value[7]))
    else
      var h := w.value;
      ReadHostBody(b, h[2], h[3], h[4], h[5], h[6])
  }

  function ReadHostBody(b: seq<byte>, nameLen: nat, aliases: nat, addrtype: word, length: word,
                        cnt: nat): Option<HostReply>
  {
    var o1 := 32 + nameLen;
    var o2 := o1 + 4 * aliases;
    var addrs := ReadPieces(b, o2, Repeated(length, cnt));
    var sizes := ReadWords(b, o1, aliases);
    if o1 > |b| || addrs == None || sizes == None then None
    else
      var ss := ReadStrs(b, o2 + |Joined(addrs.value)|, sizes.value);
      if ss == None then None
      else Some(Host(Hostent(UpToNul(b[32..o1]), ss.value, addrtype, length, addrs.value)))
  }

  function Repeated(v: nat, n: nat): (r: seq<nat>)
    ensures |r| == n && forall k :: 0 <= k < n ==> r[k] == v
  {
    seq(n, _ => v)
  }

  lemma {:induction false} JoinedLength(pieces: seq<seq<byte>>, n: nat)
    requires forall k :: 0 <= k < |pieces| ==> |pieces[k]| == n
    ensures |Joined(pieces)| == n * |pieces|
  {
    if pieces != [] {
      JoinedLength(pieces[1..], n);
      assert n * |pieces| == n + n * (|pieces| - 1);
    }
  }

  lemma HostentParts(seen: seq<byte>, h: Hostent)
    requires HostentSize(h) < TWO32 && Holds(seen, 32, HostentBody(h))
    ensures var o1 := 32 + Aligned(h.name);
            var o2 := o1 + 4 * |h.aliases|;
            && Holds(seen, 32, Padded(h.name)) && Holds(seen, o1, Words(SizeWords(h.aliases)))
            && Holds(seen, o2, Joined(h.addrs)) && Holds(seen, o2 + |Joined(h.addrs)|, Strs(h.aliases))
  {
    var sizes := Words(SizeWords(h.aliases));
    var o1 := 32 + Aligned(h.name);
    HoldsParts(seen, 32, Padded(h.name), sizes + (Joined(h.addrs) + Strs(h.aliases)));
    HoldsParts(seen, o1, sizes, Joined(h.addrs) + Strs(h.aliases));
    HoldsParts(seen, o1 + |sizes|, Joined(h.addrs), Strs(h.aliases));
  }

  lemma NameBack(seen: seq<byte>, name: cstring, len: nat)
    requires Holds(seen, 32, Padded(name)) && len == Aligned(name)
    ensures 32 + len <= |seen| && UpToNul(seen[32..32 + len]) == name
  {
    UpToNulBack(name, len - |name|);
  }

  lemma AddrsBack(seen: seq<byte>, off: nat, addrs: seq<seq<byte>>, n: nat)
    requires Holds(seen, off, Joined(addrs)) && forall k :: 0 <= k < |addrs| ==> |addrs[k]| == n
    ensures ReadPieces(seen, off, Repeated(n, |addrs|)) == Some(addrs)
  {
    assert Lengths(addrs) == Repeated(n, |addrs|);
    PiecesBack(seen, off, addrs);
  }

  /** The parts of a reply, at their offsets, are the entry. */
  lemma HostBodyBack(seen: seq<byte>, h: Hostent, len: nat, sizes: seq<word>, o1: nat, o2: nat, o3: nat)
    requires o1 == 32 + len && o2 == o1 + 4 * |h.aliases| && o3 == o2 + |Joined(h.addrs)|
    requires o1 <= |seen| && UpToNul(seen[32..o1]) == h.name
    requires ReadPieces(seen, o2, Repeated(h.length, |h.addrs|)) == Some(h.addrs)
    requires ReadWords(seen, o1, |h.aliases|) == Some(sizes) && ReadStrs(seen, o3, sizes) == Some(h.aliases)
    ensures ReadHostBody(seen, len, |h.aliases|, h.addrtype, h.length, |h.addrs|) == Some(Host(h))
  {
  }

  lemma HostentRoundTrip(h: Hostent)
    requires HostentOk(h) && HostentSize(h) <= MAX_REPLY_SIZE && |h.addrs| < TWO32
    ensures ReadHostent(Seen(HostentLayout(Some(h)))) == Some(Host(h))
  {
    var size := HostentSize(h);
    var hdr := HostentWords(h, NSCD_VERSION);
    FoundHolds(size, hdr[2..], HostentBody(h));
    FirstOnly(hdr, HostentWords(h, size));
    HostentSeen(Seen(HostentLayout(Some(h))), h, hdr);
  }

  lemma HostentSeen(seen: seq<byte>, h: Hostent, hdr: seq<word>)
    requires HostentOk(h) && HostentSize(h) < TWO32 && |h.addrs| < TWO32 && hdr == HostentWords(h, NSCD_VERSION)
    requires Holds(seen, 0, Words(hdr)) && Holds(seen, 32, HostentBody(h))
    ensures ReadHostent(seen) == Some(Host(h))
  {
    HostBodySeen(seen, h, Aligned(h.name));
    WordsBack(seen, 0, hdr);
    HostentFound(seen, h, hdr);
  }

  lemma HostBodySeen(seen: seq<byte>, h: Hostent, len: nat)
    requires HostentOk(h) && HostentSize(h) < TWO32 && len == Aligned(h.name) && Holds(seen, 32, HostentBody(h))
    ensures ReadHostBody(seen, len, |h.aliases|, h.addrtype, h.length, |h.addrs|) == Some(Host(h))
  {
    HostentParts(seen, h);
    HostBodyFound(seen, h, SizeWords(h.aliases), len);
  }

  lemma HostentFound(seen: seq<byte>, h: Hostent, hdr: seq<word>)
    requires ReadWords(seen, 0, 8) == Some(hdr) && |hdr| == 8 && hdr[0] == NSCD_VERSION && hdr[1] == 1
    requires ReadHostBody(seen, hdr[2], hdr[3], hdr[4], hdr[5], hdr[6]) == Some(Host(h))
    ensures ReadHostent(seen) == Some(Host(h))
  {
  }

  lemma HostBodyFound(seen: seq<byte>, h: Hostent, sizes: seq<word>, len: nat)
    requires HostentOk(h) && |Strs(h.aliases)| < TWO32 && len == Aligned(h.name) && sizes == SizeWords(h.aliases)
    requires var o1 := 32 + len;
             var o2 := o1 + 4 * |h.aliases|;
             && Holds(seen, 32, Padded(h.name)) && Holds(seen, o1, Words(sizes))
             && Holds(seen, o2, Joined(h.addrs)) && Holds(seen, o2 + |Joined(h.addrs)|, Strs(h.aliases))
    ensures ReadHostBody(seen, len, |h.aliases|, h.addrtype, h.length, |h.addrs|) == Some(Host(h))
  {
    var o1 := 32 + len;
    var o2 := o1 + 4 * |h.aliases|;
    var o3 := o2 + |Joined(h.addrs)|;
    NameBack(seen, h.name, len);
    WordsBack(seen, o1, sizes);
    AddrsBack(seen, o2, h.addrs, h.length);
    StrsBack(seen, o3, h.aliases);
    HostBodyBack(seen, h, len, sizes, o1, o2, o3);
  }

  lemma ZeroWord(seen: seq<byte>, n: nat, k: nat)
    requires ReadWords(seen, 0, n).Some? && 2 <= k < n && 4 * n <= |seen|
    requires forall j :: 8 <= j < |seen| ==> seen[j] == 0
    ensures ReadWords(seen, 0, n).value[k] == 0
  {
    WordAt(seen, 0, n, k);
  }

  /** The worker says why it found nothing, but only eight octets of that reach
      the daemon: whatever the error was, the client reads zero. */
  lemma ErrorIsLost(resp: seq<byte>, n: nat, k: nat)
    requires Framed(resp, 0) && 2 <= k < n && 4 * n <= |resp|
    ensures var w := ReadWords(Seen(resp), 0, n);
            w.Some? && w.value[0] == NSCD_VERSION && w.value[1] == 0 && w.value[k] == 0
  {
    ReplySurvives(resp, 0);
    NothingSeen(resp, n);
    ZeroWord(Seen(resp), n, k);
  }

  lemma {:induction false} WordAt(b: seq<byte>, off: nat, n: nat, k: nat)
    requires ReadWords(b, off, n).Some? && k < n
    ensures ReadWords(b, off, n).value[k] == U32(b, off + 4 * k)
    decreases n
  {
    if k > 0 { WordAt(b, off + 4, n - 1, k - 1); }
  }

  lemma HostErrorLost()
    ensures ReadHostent(Seen(HostentLayout(None))) == Some(NoHost(0)) != Some(NoHost(HOST_NOT_FOUND))
  {
    var ws: seq<word> := [0, 0, 0, 0, 0, HOST_NOT_FOUND];
    assert [32 as word, 0, 0, 0, 0, 0, 0, HOST_NOT_FOUND] == [32 as word] + ([0 as word] + ws);
    FrameOf(32, 0, ws, []);
    assert HostentLayout(None) == Words([32 as word] + ([0 as word] + ws)) + [];
    ErrorIsLost(HostentLayout(None), 8, 7);
  }

  // ---------------------------------------------------------------- addrinfo

  function AddrLen(family: byte): nat {
    if family == AF_INET then 4 else 16
  }

  predicate AddrInfoOk(ai: AddrInfo) {
    forall k :: 0 <= k < |ai.addrs| ==> |ai.addrs[k].octets| == AddrLen(ai.addrs[k].family)
  }

  function Octets(addrs: seq<Addr>): (r: seq<seq<byte>>)
    ensures |r| == |addrs| && forall k :: 0 <= k < |addrs| ==> r[k] == addrs[k].octets
  {
    seq(|addrs|, k requires 0 <= k < |addrs| => addrs[k].octets)
  }

  function Families(addrs: seq<Addr>): (r: seq<byte>)
    ensures |r| == |addrs| && forall k :: 0 <= k < |addrs| ==> r[k] == addrs[k].family
  {
    seq(|addrs|, k requires 0 <= k < |addrs| => addrs[k].family)
  }

  function Canon(ai: AddrInfo): seq<byte> {
    if ai.canonname.Some? then Z(ai.canonname.value) else []
  }

  function AddrInfoBody(ai: AddrInfo): seq<byte> {
    Joined(Octets(ai.addrs)) + (Families(ai.addrs) + Canon(ai))
  }

  function AddrInfoSize(ai: AddrInfo): nat {
    24 + |AddrInfoBody(ai)|
  }

  function AddrInfoWords(ai: AddrInfo, first: word): seq<word>
    requires AddrInfoSize(ai) < TWO32
  {
    [first, 1, |ai.addrs|, |Joined(Octets(ai.addrs))|, |Canon(ai)|, 0]
  }

  datatype AddrReply = Addrs(ai: AddrInfo) | NoAddrs(error: word)

  function AddrInfoLayout(r: AddrReply): seq<byte>
    requires r.Addrs? ==> AddrInfoSize(r.ai) < TWO32
  {
    match r
    case NoAddrs(err) => Words([24, 0, 0, 0, 0, err])
    case Addrs(ai) => Words(AddrInfoWords(ai, AddrInfoSize(ai))) + AddrInfoBody(ai)
  }

  function AddrSizes(families: seq<byte>): (r: seq<nat>)
    ensures |r| == |families|
  {
    seq(|families|, k requires 0 <= k < |families| => AddrLen(families[k]))
  }

  function Zipped(families: seq<byte>, octets: seq<seq<byte>>): (r: seq<Addr>)
    requires |families| == |octets|
    ensures |r| == |families| && forall k :: 0 <= k < |families| ==> r[k] == Addr(families[k], octets[k])
  {
    seq(|families|, k requires 0 <= k < |families| => Addr(families[k], octets[k]))
  }

  function ReadAddrInfo(b: seq<byte>): Option<AddrReply> {
    var w := ReadWords(b, 0, 6);
    if w == None || w.value[0] != NSCD_VERSION then None
    else if w.value[1] == 0 then Some(NoAddrs(w.value[5]))
    else
      var h := w.value;
      ReadAddrBody(b, h[2], h[3], h[4])
  }

  function ReadAddrBody(b: seq<byte>, cnt: nat, octetsLen: nat, canonLen: nat): Option<AddrReply> {
    var o1 := 24 + octetsLen;
    var o2 := o1 + cnt;
    var o3 := o2 + canonLen;
    if o3 > |b| then None
    else
      var families := b[o1..o2];
      var octets := ReadPieces(b, 24, AddrSizes(families));
      if octets == None || |octets.value| != cnt then None
      else
        var canon := if canonLen == 0 then None else Some(UpToNul(b[o2..o3]));
        Some(Addrs(AddrInfo(Zipped(families, octets.value), canon)))
  }

  lemma CanonBack(ai: AddrInfo)
    ensures ai.canonname == if |Canon(ai)| == 0 then None else Some(UpToNul(Canon(ai)))
  {
    if ai.canonname.Some? {
      assert Z(ai.canonname.value) == ai.canonname.value + Zeros(1);
      UpToNulBack(ai.canonname.value, 1);
    }
  }

  /** The parts of a reply, at their offsets, are the list of addresses. */
  lemma AddrBodyBack(seen: seq<byte>, ai: AddrInfo, octetsLen: nat, families: seq<byte>, octets: seq<seq<byte>>,
                     canon: seq<byte>)
    requires |families| == |octets|
    requires Holds(seen, 24 + octetsLen, families) && Holds(seen, 24 + octetsLen + |families|, canon)
    requires ReadPieces(seen, 24, AddrSizes(families)) == Some(octets)
    requires Zipped(families, octets) == ai.addrs
    requires ai.canonname == if |canon| == 0 then None else Some(UpToNul(canon))
    ensures ReadAddrBody(seen, |families|, octetsLen, |canon|) == Some(Addrs(ai))
  {
  }

  lemma AddrInfoFound(seen: seq<byte>, ai: AddrInfo, hdr: seq<word>)
    requires AddrInfoOk(ai) && AddrInfoSize(ai) < TWO32 && hdr == AddrInfoWords(ai, NSCD_VERSION)
    requires Holds(seen, 0, Words(hdr)) && Holds(seen, 24, AddrInfoBody(ai))
    ensures ReadAddrInfo(seen) == Some(Addrs(ai))
  {
    var octets, families, canon := Octets(ai.addrs), Families(ai.addrs), Canon(ai);
    var o1 := 24 + |Joined(octets)|;
    WordsBack(seen, 0, hdr);
    HoldsParts(seen, 24, Joined(octets), families + canon);
    HoldsParts(seen, o1, families, canon);
    assert AddrSizes(families) == Lengths(octets);
    PiecesBack(seen, 24, octets);
    CanonBack(ai);
    assert Zipped(families, octets) == ai.addrs;
    AddrBodyBack(seen, ai, |Joined(octets)|, families, octets, canon);
  }

  lemma AddrInfoRoundTrip(ai: AddrInfo)
    requires AddrInfoOk(ai) && AddrInfoSize(ai) <= MAX_REPLY_SIZE
    ensures ReadAddrInfo(Seen(AddrInfoLayout(Addrs(ai)))) == Some(Addrs(ai))
  {
    var size := AddrInfoSize(ai);
    var ws := AddrInfoWords(ai, size)[2..];
    FoundHolds(size, ws, AddrInfoBody(ai));
    assert AddrInfoWords(ai, size) == [size as word] + ([1] + ws);
    assert AddrInfoWords(ai, NSCD_VERSION) == [NSCD_VERSION as word] + ([1] + ws);
    AddrInfoFound(Seen(AddrInfoLayout(Addrs(ai))), ai, AddrInfoWords(ai, NSCD_VERSION));
  }

  lemma AddrErrorLost(err: word)
    ensures ReadAddrInfo(Seen(AddrInfoLayout(NoAddrs(err)))) == Some(NoAddrs(0))
  {
    var ws: seq<word> := [0, 0, 0, err];
    assert [24 as word, 0, 0, 0, 0, err] == [24 as word] + ([0 as word] + ws);
    FrameOf(24, 0, ws, []);
    assert AddrInfoLayout(NoAddrs(err)) == Words([24 as word] + ([0 as word] + ws)) + [];
    ErrorIsLost(AddrInfoLayout(NoAddrs(err)), 6, 5);
  }

  // ---------------------------------------------------- the words by their offsets

  lemma {:induction false} WordIn(b: seq<byte>, off: nat, ws: seq<word>, k: nat)
    requires Holds(b, off, Words(ws)) && k < |ws|
    ensures off + 4 * k + 4 <= |b| && U32(b, off + 4 * k) == ws[k]
    decreases |ws|
  {
    HoldsParts(b, off, Le32(ws[0]), Words(ws[1..]));
    if k == 0 { HoldsWord(b, off, ws[0]); } else { WordIn(b, off + 4, ws[1..], k - 1); }
  }

  /** The words in front of a reply, each at its place. */
  ghost predicate WordsAt(b: seq<byte>, ws: seq<word>) {
    4 * |ws| <= |b| && forall k: nat {:trigger ws[k]} :: k < |ws| ==> U32(b, 4 * k) == ws[k]
  }

  lemma WordsInFront(ws: seq<word>, body: seq<byte>)
    ensures WordsAt(Words(ws) + body, ws)
  {
    var b := Words(ws) + body;
    forall k: nat {:trigger ws[k]} | k < |ws| ensures U32(b, 4 * k) == ws[k] { WordIn(b, 0, ws, k); }
  }

  lemma FiveStrs(a: cstring, b: cstring, c: cstring, d: cstring, e: cstring)
    ensures Strs([a, b, c, d, e]) == Z(a) + (Z(b) + (Z(c) + (Z(d) + Z(e))))
  {
    assert [a, b, c, d, e][1..] == [b, c, d, e] && [b, c, d, e][1..] == [c, d, e];
    assert [c, d, e][1..] == [d, e] && [d, e][1..] == [e];
    assert Strs([e]) == Z(e) + Strs([]);
    assert Strs([d, e]) == Z(d) + Strs([e]);
    assert Strs([c, d, e]) == Z(c) + Strs([d, e]);
    assert Strs([b, c, d, e]) == Z(b) + Strs([c, d, e]);
  }

  /** Where the fields of pw_response_header and the strings behind it are. */
  lemma PasswdOffsets(pw: Passwd)
    requires PasswdSize(pw) < TWO32
    ensures var b := PasswdLayout(Some(pw));
            && |b| >= 36 && U32(b, 0) == |b| && U32(b, 4) == 1
            && U32(b, 8) == |pw.name| + 1 && U32(b, 12) == |pw.passwd| + 1
            && U32(b, 16) == pw.uid && U32(b, 20) == pw.gid
            && U32(b, 24) == |pw.gecos| + 1 && U32(b, 28) == |pw.dir| + 1 && U32(b, 32) == |pw.shell| + 1
            && b[36..] == Z(pw.name) + (Z(pw.passwd) + (Z(pw.gecos) + (Z(pw.dir) + Z(pw.shell))))
  {
    var ws, ss := PasswdWords(pw, PasswdSize(pw)), PasswdStrs(pw);
    WordsInFront(ws, Strs(ss));
    assert ws[0] == PasswdSize(pw) && ws[1] == 1 && ws[2] == |pw.name| + 1 && ws[3] == |pw.passwd| + 1;
    assert ws[4] == pw.uid && ws[5] == pw.gid && ws[6] == |pw.gecos| + 1;
    assert ws[7] == |pw.dir| + 1 && ws[8] == |pw.shell| + 1;
    FiveStrs(pw.name, pw.passwd, pw.gecos, pw.dir, pw.shell);
    assert (Words(ws) + Strs(ss))[36..] == Strs(ss);
  }

  lemma SixWords(b: seq<byte>, ws: seq<word>)
    requires WordsAt(b, ws) && |ws| >= 6
    ensures U32(b, 0) == ws[0] && U32(b, 4) == ws[1] && U32(b, 8) == ws[2]
    ensures U32(b, 12) == ws[3] && U32(b, 16) == ws[4] && U32(b, 20) == ws[5]
  {
  }

  lemma WordsJoined(head: seq<word>, sizes: seq<word>, k: nat)
    requires |head| == 6
    ensures forall j :: 0 <= j < 6 ==> (head + sizes)[j] == head[j]
    ensures k < |sizes| ==> (head + sizes)[6 + k] == sizes[k]
  {
  }

  /** Those of gr_response_header and the lengths of the members. */
  lemma GroupOffsets(gr: Group, k: nat)
    requires GroupSize(gr) < TWO32
    ensures var b := GroupLayout(Some(gr));
            && |b| >= 24 + 4 * |gr.mem| && U32(b, 0) == |b| && U32(b, 4) == 1
            && U32(b, 8) == |gr.name| + 1 && U32(b, 12) == |gr.passwd| + 1
            && U32(b, 16) == gr.gid && U32(b, 20) == |gr.mem|
            && (k < |gr.mem| ==> U32(b, 24 + 4 * k) == |gr.mem[k]| + 1)
  {
    var head, sizes, body := GroupWords(gr, GroupSize(gr)), MemberSizes(gr), Strs(GroupStrs(gr));
    GroupOffsetsOf(gr, head, sizes, Words(head + sizes) + body, body, k);
  }

  lemma GroupOffsetsOf(gr: Group, head: seq<word>, sizes: seq<word>, b: seq<byte>, body: seq<byte>, k: nat)
    requires |head| == 6 && sizes == Sizes(gr.mem) && b == Words(head + sizes) + body
    ensures |b| >= 24 + 4 * |gr.mem|
    ensures U32(b, 0) == head[0] && U32(b, 4) == head[1] && U32(b, 8) == head[2]
    ensures U32(b, 12) == head[3] && U32(b, 16) == head[4] && U32(b, 20) == head[5]
    ensures k < |gr.mem| ==> U32(b, 24 + 4 * k) == |gr.mem[k]| + 1
  {
    var ws := head + sizes;
    WordsInFront(ws, body);
    SixWords(b, ws);
    WordsJoined(head, sizes, k);
    if k < |gr.mem| { assert U32(b, 4 * (6 + k)) == ws[6 + k]; }
  }

  /** Those of hst_response_header. */
  lemma HostentOffsets(h: Hostent)
    requires HostentSize(h) < TWO32 && |h.addrs| < TWO32
    ensures var b := HostentLayout(Some(h));
            && |b| >= 32 && U32(b, 0) == |b| && U32(b, 4) == 1
            && |h.name| < U32(b, 8) <= |h.name| + 4 && U32(b, 8) % 4 == 0
            && U32(b, 12) == |h.aliases| && U32(b, 16) == h.addrtype && U32(b, 20) == h.length
            && U32(b, 24) == |h.addrs| && U32(b, 28) == 0
  {
    var ws := HostentWords(h, HostentSize(h));
    WordsInFront(ws, HostentBody(h));
    assert ws[0] == HostentSize(h) && ws[1] == 1 && ws[2] == Aligned(h.name) && ws[3] == |h.aliases|;
    assert ws[4] == h.addrtype && ws[5] == h.length && ws[6] == |h.addrs| && ws[7] == 0;
  }

  /** Those of ai_response_header. */
  lemma AddrInfoOffsets(ai: AddrInfo)
    requires AddrInfoSize(ai) < TWO32
    ensures var b := AddrInfoLayout(Addrs(ai));
            && |b| >= 24 && U32(b, 0) == |b| && U32(b, 4) == 1
            && U32(b, 8) == |ai.addrs| && U32(b, 12) == |Joined(Octets(ai.addrs))|
            && U32(b, 16) == |Canon(ai)| && U32(b, 20) == 0
  {
    var ws := AddrInfoWords(ai, AddrInfoSize(ai));
    WordsInFront(ws, AddrInfoBody(ai));
    assert ws[0] == AddrInfoSize(ai) && ws[1] == 1 && ws[2] == |ai.addrs|;
    assert ws[3] == |Joined(Octets(ai.addrs))| && ws[4] == |Canon(ai)| && ws[5] == 0;
  }
}
