/**
 How the uid and the groups of the user to run as are handed on through the
 environment: the printer, the parser, and the proof that the second undoes
 the first.  A string is a sequence of characters without the final NUL.
 */
module NscdEnv {
  import opened Bytes

  const NUL: char := '\0'

  type id = n: nat | n < TWO32

  // ---------------------------------------------------------------- strtoul()

  predicate IsSpace(c: char) {
    c == ' ' || 9 as char <= c <= 13 as char
  }

  predicate IsHex(c: char) {
    '0' <= c <= '9' || 'a' <= c <= 'f' || 'A' <= c <= 'F'
  }

  function HexDigit(c: char): (d: nat)
    ensures d < 16
  {
    if '0' <= c <= '9' then c as int - '0' as int
    else if 'a' <= c <= 'f' then c as int - 'a' as int + 10
    else if 'A' <= c <= 'F' then c as int - 'A' as int + 10
    else 0
  }

  function CharAt(s: string, k: nat): char {
    if k < |s| then s[k] else NUL
  }

  function SkipSpace(s: string, k: nat): (j: nat)
    requires k <= |s|
    ensures k <= j <= |s|
    decreases |s| - k
  {
    if k < |s| && IsSpace(s[k]) then SkipSpace(s, k + 1) else k
  }

  function HexEnd(s: string, k: nat): (j: nat)
    requires k <= |s|
    ensures k <= j <= |s|
    decreases |s| - k
  {
    if k < |s| && IsHex(s[k]) then HexEnd(s, k + 1) else k
  }

  function HexValue(s: string): nat {
    if s == [] then 0 else 16 * HexValue(s[..|s| - 1]) + HexDigit(s[|s| - 1])
  }

  datatype Parsed = Parsed(value: nat, next: nat, overflow: bool)

  /** strtoul(s + k, &next, 16) */
  function StrToUL(s: string, k: nat): (p: Parsed)
    requires k <= |s|
    ensures k <= p.next <= |s|
  {
    var j := SkipSpace(s, k);
    var signed := if CharAt(s, j) == '-' || CharAt(s, j) == '+' then j + 1 else j;
    var prefixed := CharAt(s, signed) == '0' && (CharAt(s, signed + 1) == 'x' || CharAt(s, signed + 1) == 'X')
                    && IsHex(CharAt(s, signed + 2));
    var from := if prefixed then signed + 2 else signed;
    var to := HexEnd(s, from);
    if to == from then Parsed(0, k, false)
    else
      var v := HexValue(s[from..to]);
      if v >= U64 then Parsed(U64 - 1, to, true)
      else if CharAt(s, j) == '-' then Parsed(if v == 0 then 0 else U64 - v, to, false)
      else Parsed(v, to, false)
  }

  lemma {:induction false} NoCommaSkipped(s: string, k: nat, l: nat)
    requires k <= |s| && k <= l < SkipSpace(s, k)
    ensures s[l] != ','
    decreases |s| - k
  {
    if l > k { NoCommaSkipped(s, k + 1, l); }
  }

  lemma {:induction false} NoCommaInHex(s: string, k: nat, l: nat)
    requires k <= |s| && k <= l < HexEnd(s, k)
    ensures s[l] != ','
    decreases |s| - k
  {
    if l > k { NoCommaInHex(s, k + 1, l); }
  }

  /** strtoul() never reads past a comma. */
  lemma NoCommaRead(s: string, k: nat, l: nat)
    requires k <= |s| && k <= l < StrToUL(s, k).next
    ensures s[l] != ','
  {
    var j := SkipSpace(s, k);
    if l < j {
      NoCommaSkipped(s, k, l);
    } else {
      var signed := if CharAt(s, j) == '-' || CharAt(s, j) == '+' then j + 1 else j;
      var prefixed := CharAt(s, signed) == '0' && (CharAt(s, signed + 1) == 'x' || CharAt(s, signed + 1) == 'X')
                      && IsHex(CharAt(s, signed + 2));
      var from := if prefixed then signed + 2 else signed;
      if l >= from { NoCommaInHex(s, from, l); }
    }
  }

  // ------------------------------------------------------------------ parsing

  /** What the parser makes of the string from k on; None is "internal error". */
  function ParseIds(s: string, k: nat): Option<seq<id>>
    requires k <= |s|
    decreases |s| - k
  {
    var p := StrToUL(s, k);
    if p.overflow || (p.next < |s| && s[p.next] != ',') then None
    else
      var head: id := p.value % TWO32;
      if p.next == |s| then Some([head])
      else
        After([head], ParseIds(s, p.next + 1))
  }

  function Commas(s: string): nat {
    if s == [] then 0 else Commas(s[..|s| - 1]) + if s[|s| - 1] == ',' then 1 else 0
  }

  lemma {:induction false} CommasOfConcat(a: string, b: string)
    ensures Commas(a + b) == Commas(a) + Commas(b)
  {
    if b == [] {
      assert a + b == a;
    } else {
      assert (a + b)[..|a + b| - 1] == a + b[..|b| - 1];
      CommasOfConcat(a, b[..|b| - 1]);
    }
  }

  lemma {:induction false} NoCommas(s: string)
    requires forall l :: 0 <= l < |s| ==> s[l] != ','
    ensures Commas(s) == 0
  {
    if s != [] { NoCommas(s[..|s| - 1]); }
  }

  /** One number and the comma after it. */
  lemma CommaPassed(s: string, k: nat, next: nat)
    requires k <= next < |s| && s[next] == ',' && forall l :: k <= l < next ==> s[l] != ','
    ensures Commas(s[..next + 1]) == Commas(s[..k]) + 1
  {
    NoCommas(s[k..next]);
    CommasOfConcat(s[..k], s[k..next]);
    assert s[..next] == s[..k] + s[k..next];
    assert s[..next + 1][..next] == s[..next];
  }

  lemma CommasBefore(s: string, k: nat)
    requires k <= |s|
    ensures Commas(s[..k]) <= Commas(s)
  {
    CommasOfConcat(s[..k], s[k..]);
    assert s == s[..k] + s[k..];
  }

  /** Ids read already, and what the rest of the string gives. */
  function After(ids: seq<id>, rest: Option<seq<id>>): Option<seq<id>> {
    if rest == None then None else Some(ids + rest.value)
  }

  lemma AfterNothing(rest: Option<seq<id>>)
    ensures After([], rest) == rest
  {
    if rest.Some? { assert [] + rest.value == rest.value; }
  }

  lemma AfterOne(ids: seq<id>, n: id, rest: Option<seq<id>>)
    ensures After(ids, After([n], rest)) == After(ids + [n], rest)
  {
    if rest.Some? { assert ids + ([n] + rest.value) == (ids + [n]) + rest.value; }
  }

  /** What one turn of the loop comes to. */
  datatype Turn = Bad | Last | More(next: nat)

  lemma BadParsed(str: string, sp: nat, p: Parsed)
    requires sp <= |str| && p == StrToUL(str, sp) && (p.overflow || (p.next < |str| && str[p.next] != ','))
    ensures ParseIds(str, sp) == None
  {
  }

  lemma WholeParsed(str: string, sp: nat, p: Parsed)
    requires sp <= |str| && p == StrToUL(str, sp) && !p.overflow && p.next == |str|
    ensures ParseIds(str, sp) == Some([p.value % TWO32])
  {
  }

  lemma MoreParsed(str: string, sp: nat, p: Parsed)
    requires sp <= |str| && p == StrToUL(str, sp) && !p.overflow && p.next < |str| && str[p.next] == ','
    ensures ParseIds(str, sp) == After([p.value % TWO32], ParseIds(str, p.next + 1))
  {
  }

  lemma CommaRead(str: string, sp: nat, next: nat)
    requires sp <= |str| && next == StrToUL(str, sp).next && next < |str| && str[next] == ','
    ensures sp <= next && Commas(str[..next + 1]) == Commas(str[..sp]) + 1
  {
    forall l | sp <= l < next ensures str[l] != ',' { NoCommaRead(str, sp, l); }
    CommaPassed(str, sp, next);
  }

  /** One turn: a number is read and stored. */
  method ParseOne(str: string, sp: nat, ug: array<id>, n: nat) returns (t: Turn)
    requires sp <= |str| && n == Commas(str[..sp]) && ug.Length == Commas(str) + 1
    modifies ug
    ensures n < ug.Length && ug[..n] == old(ug[..n])
    ensures t == Bad ==> ParseIds(str, sp) == None
    ensures t == Last ==> ParseIds(str, sp) == Some([ug[n]])
    ensures t.More? ==> sp < t.next <= |str| && Commas(str[..t.next]) == n + 1
    ensures t.More? ==> ParseIds(str, sp) == After([ug[n]], ParseIds(str, t.next))
  {
    CommasBefore(str, sp);
    var p := StrToUL(str, sp);
    ug[n] := p.value % TWO32;
    if p.overflow || (p.next < |str| && str[p.next] != ',') {
      BadParsed(str, sp, p);
      return Bad;
    }
    if p.next == |str| {
      WholeParsed(str, sp, p);
      return Last;
    }
    MoreParsed(str, sp, p);
    CommaRead(str, sp, p.next);
    t := More(p.next + 1);
  }

  /** env_U_to_uid_and_gids(): as many cells as the string has commas, and one
      more, are enough for whatever the string holds. */
  method EnvUToUidAndGids(str: string) returns (r: Option<seq<id>>)
    ensures r == ParseIds(str, 0)
  {
    var ng := CountCells(str);
    var ug := new id[ng](_ => 0);
    var n, sp := 0, 0;
    AfterNothing(ParseIds(str, 0));
    while true
      invariant sp <= |str| && n == Commas(str[..sp]) && n <= ug.Length && ug.Length == Commas(str) + 1
      invariant ParseIds(str, 0) == After(ug[..n], ParseIds(str, sp))
      decreases |str| - sp
    {
      ghost var ids := ug[..n];
      var t := ParseOne(str, sp, ug, n);
      n := n + 1;
      assert ug[..n] == ids + [ug[n - 1]];
      match t
      case Bad => return None;
      case Last => return Some(ug[..n]);
      case More(next) =>
        AfterOne(ids, ug[n - 1], ParseIds(str, next));
        CommasBefore(str, next);
        sp := next;
    }
  }

  method CountCells(str: string) returns (ng: nat)
    ensures ng == Commas(str) + 1
  {
    ng := 1;
    var sp := 0;
    while sp < |str|
      invariant sp <= |str| && ng == Commas(str[..sp]) + 1
    {
      assert str[..sp + 1][..sp] == str[..sp];
      if str[sp] == ',' {
        ng := ng + 1;
      }
      sp := sp + 1;
    }
    assert str[..sp] == str;
  }

  // ----------------------------------------------------------------- printing

  function DigitChar(d: nat): (c: char)
    requires d < 16
    ensures IsHex(c) && HexDigit(c) == d && c != 'x' && c != 'X'
  {
    if d < 10 then ('0' as int + d) as char else ('a' as int + d - 10) as char
  }

  /** "%lx" */
  function Hex(n: nat): (s: string)
    ensures s != [] && forall l :: 0 <= l < |s| ==> IsHex(s[l]) && s[l] != 'x' && s[l] != 'X'
  {
    if n < 16 then [DigitChar(n)] else Hex(n / 16) + [DigitChar(n % 16)]
  }

  lemma {:induction false} HexBack(n: nat)
    ensures HexValue(Hex(n)) == n
  {
    if n >= 16 {
      HexBack(n / 16);
      assert Hex(n)[..|Hex(n)| - 1] == Hex(n / 16);
    } else {
      assert Hex(n)[..0] == [];
    }
  }

  lemma HexShort(n: id)
    ensures |Hex(n)| <= 8
  {
    HexLength(n, 8);
  }

  lemma {:induction false} HexLength(n: nat, d: nat)
    requires d >= 1 && n < Power16(d)
    ensures |Hex(n)| <= d
  {
    if n >= 16 {
      if d > 1 { HexLength(n / 16, d - 1); }
    }
  }

  function Power16(d: nat): nat {
    if d == 0 then 1 else 16 * Power16(d - 1)
  }

  /** The list as it is printed, a comma after every number. */
  function Printed(ug: seq<id>): string {
    if ug == [] then "" else Printed(ug[..|ug| - 1]) + Hex(ug[|ug| - 1]) + ","
  }

  /** The value of the variable: the last comma gives way to the final NUL. */
  function EnvValue(ug: seq<id>): string
    requires ug != []
  {
    Printed(ug)[..|Printed(ug)| - 1]
  }

  /** user_to_env_U() on a list of ids, the uid first: the text and its NUL fit
      the block, whose size assumes longs of `longSize` octets. */
  method UserToEnvU(ug: seq<id>, longSize: nat) returns (str: array<char>, len: nat)
    requires ug != [] && longSize >= 4
    ensures len < str.Length && str[len] == NUL && str[..len] == "U=" + EnvValue(ug)
  {
    var ng := |ug|;
    var size := (longSize + 1) * 2 * ng + 3;
    Enough(longSize, ng);
    str := new char[size](_ => NUL);
    str[0] := 'U';
    str[1] := '=';
    var sp, k := 2, 0;
    while k < ng
      invariant k <= ng && str.Length == size >= 10 * ng + 3 && sp == 2 + |Printed(ug[..k])| <= 2 + 9 * k
      invariant str[..sp] == "U=" + Printed(ug[..k])
    {
      HexShort(ug[k]);
      PrintedStep(ug, k);
      sp := SPrintf(str, sp, Hex(ug[k]) + ",");
      k := k + 1;
    }
    assert ug[..k] == ug && Printed(ug) != [];
    ghost var text := str[..sp];
    len := sp - 1;
    str[len] := NUL;
    LastDropped(ug, text, len);
    assert str[..len] == text[..len];
  }

  lemma LastDropped(ug: seq<id>, text: string, len: nat)
    requires ug != [] && text == "U=" + Printed(ug) && len == |text| - 1
    ensures text[..len] == "U=" + EnvValue(ug)
  {
  }

  lemma PrintedStep(ug: seq<id>, k: nat)
    requires k < |ug|
    ensures Printed(ug[..k + 1]) == Printed(ug[..k]) + (Hex(ug[k]) + ",")
    ensures "U=" + Printed(ug[..k + 1]) == "U=" + Printed(ug[..k]) + (Hex(ug[k]) + ",")
  {
    assert ug[..k + 1][..k] == ug[..k];
  }

  lemma Enough(longSize: nat, ng: nat)
    requires longSize >= 4
    ensures (longSize + 1) * 2 * ng >= 10 * ng
  {
  }

  /** Writes text and a NUL at sp. */
  method SPrintf(a: array<char>, sp: nat, text: string) returns (next: nat)
    requires sp + |text| < a.Length
    modifies a
    ensures next == sp + |text| && a[..next] == old(a[..sp]) + text
  {
    var k := 0;
    while k < |text|
      invariant k <= |text|
      invariant a[..sp] == old(a[..sp]) && a[sp..sp + k] == text[..k]
    {
      a[sp + k] := text[k];
      k := k + 1;
    }
    next := sp + k;
    a[next] := NUL;
    assert a[..next] == a[..sp] + a[sp..next];
  }

  // --------------------------------------------------------------- round trip

  /** A printed number in front of a comma or the end is read as itself. */
  lemma NumberBack(s: string, k: nat, n: id)
    requires k + |Hex(n)| <= |s| && s[k..k + |Hex(n)|] == Hex(n)
    requires CharAt(s, k + |Hex(n)|) == ',' || k + |Hex(n)| == |s|
    ensures StrToUL(s, k) == Parsed(n, k + |Hex(n)|, false)
  {
    var h := Hex(n);
    var to := k + |h|;
    assert forall l :: k <= l < to ==> s[l] == h[l - k];
    HexRun(s, k, to);
    HexBack(n);
    assert SkipSpace(s, k) == k;
    assert |h| > 1 ==> CharAt(s, k + 1) == h[1];
  }

  lemma {:induction false} HexRun(s: string, k: nat, to: nat)
    requires k <= to <= |s| && (forall l :: k <= l < to ==> IsHex(s[l])) && (to < |s| ==> !IsHex(s[to]))
    ensures HexEnd(s, k) == to
    decreases |s| - k
  {
    if k < to { HexRun(s, k + 1, to); }
  }

  lemma {:induction false} PrintedConcat(a: seq<id>, b: seq<id>)
    ensures Printed(a + b) == Printed(a) + Printed(b)
  {
    if b == [] {
      assert a + b == a;
    } else {
      assert (a + b)[..|a + b| - 1] == a + b[..|b| - 1];
      PrintedConcat(a, b[..|b| - 1]);
    }
  }

  /** Number k stands at the end of what is printed before it. */
  lemma NumberPlace(ug: seq<id>, k: nat)
    requires k < |ug|
    ensures var s, at, h := EnvValue(ug), |Printed(ug[..k])|, Hex(ug[k]);
            && at + |h| <= |s| && s[at..at + |h|] == h
            && (if k + 1 == |ug| then |s| == at + |h| else at + |h| < |s| && s[at + |h|] == ',')
            && |Printed(ug[..k + 1])| == at + |h| + 1
  {
    var next := k + 1;
    assert ug[..next][..k] == ug[..k];
    assert ug == ug[..next] + ug[next..];
    PrintedConcat(ug[..next], ug[next..]);
    Piece(Printed(ug[..k]), Hex(ug[k]), Printed(ug[next..]), EnvValue(ug), next == |ug|);
  }

  /** Number k is read from its mark up to the one before the next. */
  ghost predicate NumberAt(s: string, ug: seq<id>, marks: seq<nat>, k: nat) {
    k < |ug| && |ug| < |marks| ==>
      && marks[k] < marks[k + 1] <= |s| + 1
      && StrToUL(s, marks[k]) == Parsed(ug[k], marks[k + 1] - 1, false)
      && (if k + 1 == |ug| then marks[k + 1] == |s| + 1 else marks[k + 1] <= |s| && s[marks[k + 1] - 1] == ',')
  }

  lemma NumberRead(ug: seq<id>, marks: seq<nat>, k: nat)
    requires |marks| == |ug| + 1 && forall j :: 0 <= j <= |ug| ==> marks[j] == |Printed(ug[..j])|
    requires ug != []
    ensures NumberAt(EnvValue(ug), ug, marks, k)
  {
    if k < |ug| {
      NumberPlace(ug, k);
      NumberBack(EnvValue(ug), |Printed(ug[..k])|, ug[k]);
    }
  }

  lemma LastParsed(s: string, at: nat, n: id)
    requires at <= |s| && StrToUL(s, at) == Parsed(n, |s|, false)
    ensures ParseIds(s, at) == Some([n])
  {
  }

  lemma OneParsed(s: string, at: nat, n: id, to: nat, rest: seq<id>)
    requires at <= to < |s| && StrToUL(s, at) == Parsed(n, to, false) && s[to] == ','
    requires ParseIds(s, to + 1) == Some(rest)
    ensures ParseIds(s, at) == Some([n] + rest)
  {
  }

  /** From number k on, the parser reads the numbers from k on. */
  lemma {:induction false} IdsBack(s: string, ug: seq<id>, marks: seq<nat>, k: nat)
    requires k < |ug| < |marks| && forall j: nat :: NumberAt(s, ug, marks, j)
    ensures marks[k] <= |s| && ParseIds(s, marks[k]) == Some(ug[k..])
    decreases |ug| - k
  {
    var next := k + 1;
    assert NumberAt(s, ug, marks, k);
    if next < |ug| {
      IdsBack(s, ug, marks, next);
      OneParsed(s, marks[k], ug[k], marks[next] - 1, ug[next..]);
      assert ug[k..] == [ug[k]] + ug[next..];
    } else {
      LastParsed(s, marks[k], ug[k]);
      assert ug[k..] == [ug[k]];
    }
  }

  lemma Piece(a: string, h: string, b: string, s: string, last: bool)
    requires s == (a + h + "," + b)[..|a| + |h| + |b|] && (last <==> b == [])
    requires h != []
    ensures |a| + |h| <= |s| && s[|a|..|a| + |h|] == h
    ensures if last then |s| == |a| + |h| else |a| + |h| < |s| && s[|a| + |h|] == ','
  {
  }

  /** The parser undoes the printer: same ids, same order, same number. */
  lemma EnvRoundTrip(ug: seq<id>)
    requires ug != []
    ensures ParseIds(EnvValue(ug), 0) == Some(ug)
  {
    var marks := seq(|ug| + 1, k requires 0 <= k <= |ug| => |Printed(ug[..k])|);
    forall k: nat ensures NumberAt(EnvValue(ug), ug, marks, k) { NumberRead(ug, marks, k); }
    assert ug[..0] == [] && ug[0..] == ug;
    IdsBack(EnvValue(ug), ug, marks, 0);
  }
}
