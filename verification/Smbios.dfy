/**
 The SMBIOS structure table (DSP0134, sections 6.1.2 and 6.1.3): a header of
 four octets and the rest of the formatted area, then the text strings, each
 with a terminating zero, and one zero more; two zeros if there is none.
 `z` gives the octets past the end of the table, which a table that is not well
 formed makes the walk look at.
 */
module Smbios {
  import opened Bytes

  const END_OF_TABLE: byte := 127

  /** A text string of a structure: neither empty nor with a zero in it. */
  type text = s: seq<byte> | s != [] && 0 !in s witness [1]

  datatype Structure = Structure(typ: byte, handle: nat, area: seq<byte>, strings: seq<text>)

  predicate StructureOk(s: Structure) {
    |s.area| + 4 < 256 && s.handle < 0x1_0000
  }

  function HeaderLength(s: Structure): nat {
    |s.area| + 4
  }

  // ---------------------------------------------------------------- encoding

  function Texts(ts: seq<text>): seq<byte> {
    if ts == [] then [] else ts[0] + [0] + Texts(ts[1..])
  }

  function StringSet(ts: seq<text>): (b: seq<byte>)
    ensures |b| >= 2
  {
    if ts == [] then [0, 0] else Texts(ts) + [0]
  }

  function Formatted(s: Structure): (b: seq<byte>)
    requires StructureOk(s)
    ensures |b| == HeaderLength(s)
  {
    [s.typ, HeaderLength(s), s.handle % 256, s.handle / 256] + s.area
  }

  function Encode(s: Structure): seq<byte>
    requires StructureOk(s)
  {
    Formatted(s) + StringSet(s.strings)
  }

  ghost predicate AllOk(ss: seq<Structure>) {
    forall k :: 0 <= k < |ss| ==> StructureOk(ss[k])
  }

  function Encodings(ss: seq<Structure>): (codes: seq<seq<byte>>)
    requires forall k :: 0 <= k < |ss| ==> StructureOk(ss[k])
    ensures |codes| == |ss| && forall k :: 0 <= k < |ss| ==> codes[k] == Encode(ss[k])
  {
    seq(|ss|, k requires 0 <= k < |ss| => Encode(ss[k]))
  }

  /** The table. */
  function EncodeAll(ss: seq<Structure>): seq<byte>
    requires forall k :: 0 <= k < |ss| ==> StructureOk(ss[k])
  {
    Joined(Encodings(ss))
  }

  // ----------------------------------------------------------------- walking

  /** The octet k places into the buffer; past the end of the table, whatever
      lies there. */
  function ByteAt(b: seq<byte>, z: nat -> byte, k: nat): byte {
    if k < |b| then b[k] else z(k - |b|)
  }

  datatype Header = Header(typ: byte, length: nat, handle: nat, pos: nat)

  /** to_dmi_header() */
  function ToHeader(b: seq<byte>, z: nat -> byte, pos: nat): Header {
    Header(ByteAt(b, z, pos), ByteAt(b, z, pos + 1),
        ByteAt(b, z, pos + 2) as int + 256 * ByteAt(b, z, pos + 3) as int, pos)
  }

  /** Where the search for two zeros ends. */
  function StringsEnd(b: seq<byte>, z: nat -> byte, pos: nat): (p: nat)
    ensures p >= pos
    decreases |b| - pos
  {
    if (ByteAt(b, z, pos) != 0 || ByteAt(b, z, pos + 1) != 0) && pos < |b| then StringsEnd(b, z, pos + 1) else pos
  }

  datatype Walked = Walked(visited: seq<Header>, i: nat, broken: bool)

  /** The loop of dmi_table() from structure i at pos on. */
  function Walk(b: seq<byte>, z: nat -> byte, count: nat, i: nat, pos: nat): Walked
    decreases |b| - pos
  {
    var hdr := ToHeader(b, z, pos);
    if (count != 0 && i > count) || pos >= |b| then Walked([], i, false)
    else if hdr.length < 4 then Walked([], i, true)
    else if count == 0 && hdr.typ == END_OF_TABLE then Walked([], i, false)
    else
      var rest := Walk(b, z, count, i + 1, StringsEnd(b, z, pos + hdr.length) + 2);
      Resumed([hdr], rest)
  }

  /** What dmi_table() returns. */
  function Status(w: Walked, count: nat): int {
    if w.broken || (count != 0 && w.i != count) then -1 else 0
  }

  /** Headers visited already, and what the rest of the walk adds. */
  function Resumed(visited: seq<Header>, rest: Walked): Walked {
    Walked(visited + rest.visited, rest.i, rest.broken)
  }

  lemma ResumedTwice(first: seq<Header>, more: seq<Header>, rest: Walked)
    ensures Resumed(first, Resumed(more, rest)) == Resumed(first + more, rest)
  {
    assert first + (more + rest.visited) == (first + more) + rest.visited;
  }

  /** The inner loop of dmi_table(). */
  method SkipStrings(b: seq<byte>, z: nat -> byte, from: nat) returns (pos: nat)
    ensures pos == StringsEnd(b, z, from)
  {
    pos := from;
    while (ByteAt(b, z, pos) != 0 || ByteAt(b, z, pos + 1) != 0) && pos < |b|
      invariant StringsEnd(b, z, from) == StringsEnd(b, z, pos)
      decreases |b| - pos
    {
      pos := pos + 1;
    }
  }

  /** dmi_table() on what was read of the table, whatever lies behind it; each
      header visited is handed to dmi_decode(), which is not part of this model. */
  method DmiTable(b: seq<byte>, z: nat -> byte, count: nat) returns (rc: int, visited: seq<Header>)
    ensures visited == Walk(b, z, count, 0, 0).visited && rc == Status(Walk(b, z, count, 0, 0), count)
  {
    var pos, i := 0, 0;
    var broken := false;
    visited := [];
    ghost var all := Walk(b, z, count, 0, 0);
    while (count == 0 || i <= count) && pos < |b|
      invariant !broken
      invariant all == Resumed(visited, Walk(b, z, count, i, pos))
      decreases |b| - pos
    {
      var hdr := ToHeader(b, z, pos);
      if hdr.length < 4 {
        broken := true;
        break;
      }
      if count == 0 && hdr.typ == END_OF_TABLE {
        break;
      }
      pos := SkipStrings(b, z, pos + hdr.length);
      pos := pos + 2;
      i := i + 1;
      ResumedTwice(visited, [hdr], Walk(b, z, count, i, pos));
      visited := visited + [hdr];
    }
    rc := if broken || (count != 0 && i != count) then -1 else 0;
  }

  // ----------------------------------------------- the walk inverts the encoding

  /** Past a string that is not empty, and its zero. */
  lemma {:induction false} PastText(b: seq<byte>, z: nat -> byte, pos: nat, t: seq<byte>)
    requires 0 !in t && Holds(b, pos, t + [0]) && (t == [] ==> ByteAt(b, z, pos + 1) != 0)
    requires ByteAt(b, z, pos + |t| + 1) != 0
    ensures StringsEnd(b, z, pos) == StringsEnd(b, z, pos + |t| + 1)
    decreases |t|
  {
    assert b[pos] == (t + [0])[0];
    if t != [] {
      assert t[0] in t;
      assert (t + [0])[1..] == t[1..] + [0];
      HoldsParts(b, pos, [t[0]], t[1..] + [0]);
      PastText(b, z, pos + 1, t[1..]);
    }
  }

  lemma {:induction false} LastText(b: seq<byte>, z: nat -> byte, pos: nat, t: seq<byte>)
    requires 0 !in t && Holds(b, pos, t + [0, 0])
    ensures StringsEnd(b, z, pos) == pos + |t|
    decreases |t|
  {
    assert b[pos] == (t + [0, 0])[0] && b[pos + 1] == (t + [0, 0])[1];
    if t != [] {
      assert t[0] in t;
      assert t + [0, 0] == [t[0]] + (t[1..] + [0, 0]);
      HoldsParts(b, pos, [t[0]], t[1..] + [0, 0]);
      LastText(b, z, pos + 1, t[1..]);
    }
  }

  lemma NoTexts(b: seq<byte>, z: nat -> byte, pos: nat)
    requires Holds(b, pos, [0, 0])
    ensures StringsEnd(b, z, pos) == pos
  {
    assert b[pos] == b[pos..pos + 2][0] && b[pos + 1] == b[pos..pos + 2][1];
  }

  lemma OneText(b: seq<byte>, z: nat -> byte, pos: nat, t: text)
    requires Holds(b, pos, StringSet([t]))
    ensures StringsEnd(b, z, pos) + 2 == pos + |StringSet([t])|
  {
    assert [t][1..] == [] && Texts([t]) == t + [0] + Texts([]);
    assert StringSet([t]) == t + [0, 0];
    LastText(b, z, pos, t);
  }

  /** The first of several strings does not end the search. */
  lemma FirstText(b: seq<byte>, z: nat -> byte, pos: nat, ts: seq<text>)
    requires |ts| > 1 && Holds(b, pos, StringSet(ts))
    ensures var next := pos + |ts[0]| + 1;
            && Holds(b, next, StringSet(ts[1..])) && StringsEnd(b, z, pos) == StringsEnd(b, z, next)
            && next + |StringSet(ts[1..])| == pos + |StringSet(ts)|
  {
    var t, rest, next := ts[0], ts[1..], pos + |ts[0]| + 1;
    assert Texts(rest) == rest[0] + [0] + Texts(rest[1..]);
    assert StringSet(ts) == (t + [0]) + StringSet(rest);
    HoldsParts(b, pos, t + [0], StringSet(rest));
    assert b[next] == b[next..next + |StringSet(rest)|][0] == rest[0][0];
    assert rest[0][0] in rest[0];
    PastText(b, z, pos, t);
  }

  /** The search stops at the two zeros that end the strings, not before. */
  lemma {:induction false} StringsEndBack(b: seq<byte>, z: nat -> byte, pos: nat, ts: seq<text>)
    requires Holds(b, pos, StringSet(ts))
    ensures StringsEnd(b, z, pos) + 2 == pos + |StringSet(ts)|
    decreases |ts|
  {
    if ts == [] {
      NoTexts(b, z, pos);
    } else if |ts| == 1 {
      assert ts == [ts[0]];
      OneText(b, z, pos, ts[0]);
    } else {
      FirstText(b, z, pos, ts);
      StringsEndBack(b, z, pos + |ts[0]| + 1, ts[1..]);
    }
  }

  function HeaderOf(s: Structure, pos: nat): Header {
    Header(s.typ, HeaderLength(s), s.handle, pos)
  }

  lemma HeaderBack(b: seq<byte>, z: nat -> byte, pos: nat, s: Structure)
    requires StructureOk(s) && Holds(b, pos, Formatted(s))
    ensures pos + 4 <= |b| && ToHeader(b, z, pos) == HeaderOf(s, pos)
  {
    var f := Formatted(s);
    assert b[pos..pos + |f|][0] == f[0] && b[pos..pos + |f|][1] == f[1];
    assert b[pos..pos + |f|][2] == f[2] && b[pos..pos + |f|][3] == f[3];
  }

  lemma StructureParts(b: seq<byte>, pos: nat, s: Structure)
    requires StructureOk(s) && Holds(b, pos, Encode(s))
    ensures Holds(b, pos, Formatted(s)) && Holds(b, pos + HeaderLength(s), StringSet(s.strings))
    ensures |Encode(s)| == HeaderLength(s) + |StringSet(s.strings)|
  {
    HoldsParts(b, pos, Formatted(s), StringSet(s.strings));
  }

  lemma HeaderThere(b: seq<byte>, z: nat -> byte, pos: nat, s: Structure)
    requires StructureOk(s) && Holds(b, pos, Encode(s))
    ensures pos + 6 <= |b| && ToHeader(b, z, pos) == HeaderOf(s, pos)
  {
    StructureParts(b, pos, s);
    HeaderBack(b, z, pos, s);
  }

  lemma StringsThere(b: seq<byte>, z: nat -> byte, pos: nat, s: Structure, at: nat)
    requires StructureOk(s) && Holds(b, pos, Encode(s)) && at == pos + HeaderLength(s)
    ensures StringsEnd(b, z, at) + 2 == pos + |Encode(s)|
  {
    StructureParts(b, pos, s);
    StringsEndBack(b, z, at, s.strings);
  }

  /** One structure: its header is read, and the search ends where it ends. */
  lemma StructureBack(b: seq<byte>, z: nat -> byte, pos: nat, s: Structure)
    requires StructureOk(s) && Holds(b, pos, Encode(s))
    ensures pos + 6 <= |b| && ToHeader(b, z, pos) == HeaderOf(s, pos)
    ensures StringsEnd(b, z, pos + HeaderLength(s)) + 2 == pos + |Encode(s)|
  {
    HeaderThere(b, z, pos, s);
    StringsThere(b, z, pos, s, pos + HeaderLength(s));
  }

  /** Where structure k is in the table. */
  function Offset(ss: seq<Structure>, k: nat): nat
    requires k <= |ss| && forall j :: 0 <= j < |ss| ==> StructureOk(ss[j])
  {
    |Joined(Encodings(ss)[..k])|
  }

  /** The headers of the first n structures, as the walk should visit them. */
  function HeadersOf(ss: seq<Structure>, n: nat): (hs: seq<Header>)
    requires n <= |ss| && forall k :: 0 <= k < |ss| ==> StructureOk(ss[k])
    ensures |hs| == n && forall k :: 0 <= k < n ==> hs[k] == HeaderOf(ss[k], Offset(ss, k))
  {
    seq(n, k requires 0 <= k < n => HeaderOf(ss[k], Offset(ss, k)))
  }

  /** One turn of the walk takes it from one mark to the next. */
  ghost predicate StepAt(b: seq<byte>, z: nat -> byte, count: nat, hs: seq<Header>, marks: seq<nat>, k: nat) {
    k < |hs| && |hs| < |marks| ==>
      Walk(b, z, count, k, marks[k]) == Resumed([hs[k]], Walk(b, z, count, k + 1, marks[k + 1]))
  }

  lemma {:induction false} StepsTogether(b: seq<byte>, z: nat -> byte, count: nat, hs: seq<Header>, marks: seq<nat>,
                                         k: nat, rest: Walked)
    requires k <= |hs| < |marks| && rest == Walk(b, z, count, |hs|, marks[|hs|])
    requires forall j: nat :: StepAt(b, z, count, hs, marks, j)
    ensures Walk(b, z, count, k, marks[k]) == Resumed(hs[k..], rest)
    decreases |hs| - k
  {
    var next := k + 1;
    if k == |hs| {
      assert hs[k..] + rest.visited == rest.visited;
    } else {
      StepsTogether(b, z, count, hs, marks, next, rest);
      assert StepAt(b, z, count, hs, marks, k);
      ResumedTwice([hs[k]], hs[next..], rest);
      assert [hs[k]] + hs[next..] == hs[k..];
    }
  }

  lemma TableHolds(b: seq<byte>, ss: seq<Structure>, rest: seq<byte>, k: nat)
    requires AllOk(ss) && b == EncodeAll(ss) + rest && k < |ss|
    ensures Holds(b, Offset(ss, k), Encode(ss[k])) && Offset(ss, k + 1) == Offset(ss, k) + |Encode(ss[k])|
  {
    var codes, table := Encodings(ss), EncodeAll(ss);
    PieceAt(codes, k);
    var lo, hi := Offset(ss, k), Offset(ss, k) + |codes[k]|;
    assert b[lo..hi] == table[lo..hi];
  }

  /** One turn of the walk, at a structure. */
  lemma WalkStep(b: seq<byte>, z: nat -> byte, count: nat, i: nat, pos: nat, s: Structure, next: nat)
    requires StructureOk(s) && Holds(b, pos, Encode(s)) && next == pos + |Encode(s)|
    requires if count == 0 then s.typ != END_OF_TABLE else i <= count
    ensures Walk(b, z, count, i, pos) == Resumed([HeaderOf(s, pos)], Walk(b, z, count, i + 1, next))
  {
    StructureBack(b, z, pos, s);
  }

  /** The steps through the first n structures of a table. */
  lemma TableStep(b: seq<byte>, z: nat -> byte, ss: seq<Structure>, rest: seq<byte>, count: nat, n: nat, k: nat,
                  hs: seq<Header>, marks: seq<nat>)
    requires AllOk(ss) && b == EncodeAll(ss) + rest && n <= |ss| && (if count == 0 then NoEnd(ss) else n <= count + 1)
    requires |hs| == n && forall j :: 0 <= j < n ==> hs[j] == HeaderOf(ss[j], Offset(ss, j))
    requires |marks| == n + 1 && forall j :: 0 <= j <= n ==> marks[j] == Offset(ss, j)
    ensures StepAt(b, z, count, hs, marks, k)
  {
    if k < n {
      TableHolds(b, ss, rest, k);
      WalkStep(b, z, count, k, marks[k], ss[k], marks[k + 1]);
    }
  }

  /** The walk through the first n structures. */
  lemma TableWalk(b: seq<byte>, z: nat -> byte, ss: seq<Structure>, rest: seq<byte>, count: nat, n: nat)
    requires AllOk(ss) && b == EncodeAll(ss) + rest && n <= |ss| && (if count == 0 then NoEnd(ss) else n <= count + 1)
    ensures Walk(b, z, count, 0, 0) == Resumed(HeadersOf(ss, n), Walk(b, z, count, n, Offset(ss, n)))
  {
    var marks := seq(n + 1, k requires 0 <= k <= n => Offset(ss, k));
    var hs := HeadersOf(ss, n);
    forall k: nat ensures StepAt(b, z, count, hs, marks, k) { TableStep(b, z, ss, rest, count, n, k, hs, marks); }
    assert Encodings(ss)[..0] == [];
    StepsTogether(b, z, count, hs, marks, 0, Walk(b, z, count, n, Offset(ss, n)));
    assert hs[0..] == hs;
  }

  lemma WholeTable(ss: seq<Structure>)
    requires AllOk(ss)
    ensures Offset(ss, |ss|) == |EncodeAll(ss)|
  {
    assert Encodings(ss)[..|ss|] == Encodings(ss);
  }

  lemma ResumedEnd(visited: seq<Header>, i: nat)
    ensures Resumed(visited, Walked([], i, false)) == Walked(visited, i, false)
  {
    assert visited + [] == visited;
  }

  /** A table of structures is read in order, one more than announced at most,
      and accepted exactly if there are as many as announced. */
  lemma CountedTable(ss: seq<Structure>, b: seq<byte>, z: nat -> byte, count: nat, w: Walked)
    requires AllOk(ss) && b == EncodeAll(ss) && 0 < count && w == Walk(b, z, count, 0, 0)
    ensures Status(w, count) == 0 <==> |ss| == count
    ensures w.visited == HeadersOf(ss, Min(|ss|, count + 1))
  {
    var n := Min(|ss|, count + 1);
    assert b == EncodeAll(ss) + [];
    TableWalk(b, z, ss, [], count, n);
    WholeTable(ss);
    assert Walk(b, z, count, n, Offset(ss, n)) == Walked([], n, false);
    ResumedEnd(HeadersOf(ss, n), n);
  }

  /** What may follow the last structure: nothing, or an end-of-table structure
      and whatever comes after it. */
  predicate EndsHere(rest: seq<byte>) {
    rest == [] || (|rest| >= 2 && rest[0] == END_OF_TABLE && rest[1] >= 4)
  }

  ghost predicate NoEnd(ss: seq<Structure>) {
    forall k :: 0 <= k < |ss| ==> ss[k].typ != END_OF_TABLE
  }

  /** Without a count, the structures before the end-of-table structure are
      visited, each once and in order, and nothing after it matters. */
  lemma UncountedTable(ss: seq<Structure>, rest: seq<byte>, z: nat -> byte)
    requires AllOk(ss) && NoEnd(ss) && EndsHere(rest)
    ensures var w := Walk(EncodeAll(ss) + rest, z, 0, 0, 0);
            Status(w, 0) == 0 && w.visited == HeadersOf(ss, |ss|)
  {
    var b, n := EncodeAll(ss) + rest, |EncodeAll(ss)|;
    TableWalk(b, z, ss, rest, 0, |ss|);
    WholeTable(ss);
    assert rest != [] ==> b[n] == rest[0] && b[n + 1] == rest[1];
    assert Walk(b, z, 0, |ss|, n) == Walked([], |ss|, false);
    ResumedEnd(HeadersOf(ss, |ss|), |ss|);
  }

  /** A header shorter than four octets ends the walk with an error, after the
      structures before it, with or without a count that has not run out. */
  lemma ShortHeader(ss: seq<Structure>, rest: seq<byte>, z: nat -> byte, count: nat)
    requires AllOk(ss) && (if count == 0 then NoEnd(ss) else |ss| <= count)
    requires rest != [] && ByteAt(rest, z, 1) < 4
    ensures var w := Walk(EncodeAll(ss) + rest, z, count, 0, 0);
            Status(w, count) == -1 && w.visited == HeadersOf(ss, |ss|)
  {
    var b, n := EncodeAll(ss) + rest, |EncodeAll(ss)|;
    TableWalk(b, z, ss, rest, count, |ss|);
    WholeTable(ss);
    assert ByteAt(b, z, n + 1) == ByteAt(rest, z, 1);
    assert Walk(b, z, count, |ss|, n) == Walked([], |ss|, true);
    assert HeadersOf(ss, |ss|) + [] == HeadersOf(ss, |ss|);
  }

  /** The structure whose header was visited is where the header says. */
  lemma VisitedHolds(ss: seq<Structure>, k: nat)
    requires AllOk(ss) && k < |ss|
    ensures Holds(EncodeAll(ss), HeadersOf(ss, |ss|)[k].pos, Encode(ss[k]))
  {
    PieceAt(Encodings(ss), k);
  }

  // ------------------------------------------------------------- dmi_string()

  datatype Answer = NotSpecified | Error | Text(t: seq<byte>)

  /** What string `id` of a structure is. */
  function StringOf(ts: seq<text>, id: nat): Answer {
    if id == 0 then NotSpecified else if id <= |ts| then Text(ts[id - 1]) else Error
  }

  /** The walk through the strings has come to the one numbered id. */
  ghost predicate Reached(b: seq<byte>, p: nat, ts: seq<text>, id: nat) {
    && p < |b| && id >= 1
    && if ts == [] then b[p] == 0 else Holds(b, p, Texts(ts) + [0])
  }

  lemma ReachedFirst(b: seq<byte>, p: nat, ts: seq<text>, id: nat)
    requires Holds(b, p, StringSet(ts)) && id >= 1
    ensures Reached(b, p, ts, id)
  {
    if ts == [] { assert b[p] == b[p..p + 2][0]; }
  }

  lemma TextHere(b: seq<byte>, p: nat, ts: seq<text>, id: nat)
    requires Reached(b, p, ts, id) && ts != []
    ensures Holds(b, p, ts[0] + [0]) && b[p] != 0 && Reached(b, p + |ts[0]| + 1, ts[1..], id)
  {
    var t, rest := ts[0], ts[1..];
    assert Texts(ts) + [0] == (t + [0]) + (Texts(rest) + [0]);
    HoldsParts(b, p, t + [0], Texts(rest) + [0]);
    assert b[p] == b[p..p + |t| + 1][0] == t[0];
    assert t[0] in t;
    if rest == [] { assert b[p + |t| + 1] == b[p + |t| + 1..p + |t| + 2][0]; }
  }

  /** strlen() */
  method StrLen(b: seq<byte>, p: nat, ghost t: seq<byte>) returns (n: nat)
    requires 0 !in t && Holds(b, p, t + [0])
    ensures n == |t| && b[p..p + n] == t
  {
    n := 0;
    ghost var all := b[p..p + |t| + 1];
    forall j | 0 <= j < |t| ensures t[j] != 0 { assert t[j] in t; }
    while b[p + n] != 0
      invariant n <= |t|
      decreases |t| - n
    {
      assert b[p + n] == all[n];
      n := n + 1;
    }
    assert b[p + n] == all[n];
    assert b[p..p + n] == all[..n];
  }

  /** dmi_string() on a structure of the table: string k for k from 1 to n,
      "ERR" beyond, "Not Specified" for zero. */
  method DmiString(b: seq<byte>, hdr: Header, id: nat, ghost s: Structure) returns (a: Answer)
    requires StructureOk(s) && Holds(b, hdr.pos, Encode(s)) && hdr == HeaderOf(s, hdr.pos) && id < 256
    ensures a == StringOf(s.strings, id)
  {
    if id == 0 {
      return NotSpecified;
    }
    var str: nat := hdr.pos + hdr.length;
    HoldsParts(b, hdr.pos, Formatted(s), StringSet(s.strings));
    ReachedFirst(b, str, s.strings, id);
    ghost var left := s.strings;
    var k: nat := id;
    while k > 1 && b[str] != 0
      invariant Reached(b, str, left, k)
      invariant StringOf(s.strings, id) == StringOf(left, k)
    {
      str := NextText(b, str, left, k);
      k := k - 1;
      left := left[1..];
    }
    a := TextAt(b, str, left, k);
  }

  method NextText(b: seq<byte>, str: nat, ghost left: seq<text>, ghost k: nat) returns (next: nat)
    requires Reached(b, str, left, k) && k > 1 && b[str] != 0
    ensures left != [] && Reached(b, next, left[1..], k - 1) && StringOf(left[1..], k - 1) == StringOf(left, k)
  {
    TextHere(b, str, left, k);
    var n := StrLen(b, str, left[0]);
    next := str + n + 1;
  }

  method TextAt(b: seq<byte>, str: nat, ghost left: seq<text>, ghost k: nat) returns (a: Answer)
    requires Reached(b, str, left, k) && (k == 1 || b[str] == 0)
    ensures a == StringOf(left, k)
  {
    if left != [] {
      TextHere(b, str, left, k);
    }
    if b[str] == 0 {
      return Error;
    }
    var n := StrLen(b, str, left[0]);
    a := Text(b[str..str + n]);
  }
}
