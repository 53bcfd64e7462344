/** Octets, little-endian words and the 32-bit arithmetic the C sources rely on. */
module Bytes {

  datatype Option<+T> = None | Some(value: T) {
    function GetOr(default: T): T {
      if Some? then value else default
    }
  }

  type byte = x: int | 0 <= x < 256

  const U16: nat := 0x1_0000
  const TWO32: nat := 0x1_0000_0000
  const U48: nat := 0x1_0000_0000_0000
  const U64: nat := 0x1_0000_0000_0000_0000

  function Min(a: nat, b: nat): nat { if a < b then a else b }

  /** Unsigned 32-bit subtraction. */
  function Sub32(a: int, b: int): (r: nat)
    ensures r < TWO32
  {
    (a - b) % TWO32
  }

  /** The four octets of a 32-bit word, least significant first. */
  function Le32(n: nat): (r: seq<byte>)
    ensures |r| == 4
  {
    [n % 256, n / 256 % 256, n / 0x1_0000 % 256, n / 0x100_0000 % 256]
  }

  /** The 32-bit word stored at an offset. */
  function U32(b: seq<byte>, off: nat): (r: nat)
    requires off + 4 <= |b|
    ensures r < TWO32
  {
    b[off] as int + 0x100 * (b[off + 1] as int) + 0x1_0000 * (b[off + 2] as int) + 0x100_0000 * (b[off + 3] as int)
  }

  function Zeros(n: nat): (r: seq<byte>)
    ensures |r| == n
    ensures forall k :: 0 <= k < n ==> r[k] == 0
  {
    seq(n, _ => 0)
  }

  lemma U32OfLe32(n: nat, pre: seq<byte>, post: seq<byte>)
    requires n < TWO32
    ensures U32(pre + Le32(n) + post, |pre|) == n
  {
    var b := pre + Le32(n) + post;
    assert b[|pre|] == n % 256;
    assert b[|pre| + 1] == n / 256 % 256;
    assert b[|pre| + 2] == n / 0x1_0000 % 256;
    assert b[|pre| + 3] == n / 0x100_0000 % 256;
    Digits(n);
  }

  lemma Digits(n: nat)
    requires n < TWO32
    ensures n == n % 256 + 0x100 * (n / 256 % 256) + 0x1_0000 * (n / 0x1_0000 % 256)
            + 0x100_0000 * (n / 0x100_0000 % 256)
  {
    var a := n / 256;
    var b := a / 256;
    var c := b / 256;
    assert n == n % 256 + 256 * a && a == a % 256 + 256 * b && b == b % 256 + 256 * c;
    assert n / 0x1_0000 == b && n / 0x100_0000 == c && c < 256;
  }

  /** b holds the piece at an offset. */
  predicate Holds(b: seq<byte>, off: nat, piece: seq<byte>) {
    off + |piece| <= |b| && b[off..off + |piece|] == piece
  }

  lemma HoldsParts(b: seq<byte>, off: nat, x: seq<byte>, y: seq<byte>)
    requires Holds(b, off, x + y)
    ensures Holds(b, off, x) && Holds(b, off + |x|, y)
  {
    var all := b[off..off + |x + y|];
    assert b[off..off + |x|] == all[..|x|];
    assert b[off + |x|..off + |x| + |y|] == all[|x|..];
  }

  function Joined(pieces: seq<seq<byte>>): seq<byte> {
    if pieces == [] then [] else pieces[0] + Joined(pieces[1..])
  }

  lemma {:induction false} JoinedOfConcat(a: seq<seq<byte>>, b: seq<seq<byte>>)
    ensures Joined(a + b) == Joined(a) + Joined(b)
  {
    if a == [] {
      assert a + b == b;
    } else {
      assert (a + b)[1..] == a[1..] + b;
      JoinedOfConcat(a[1..], b);
    }
  }

  lemma JoinedLast(pieces: seq<seq<byte>>, k: nat)
    requires k < |pieces|
    ensures Joined(pieces[..k + 1]) == Joined(pieces[..k]) + pieces[k]
  {
    assert pieces[..k + 1] == pieces[..k] + [pieces[k]];
    JoinedOfConcat(pieces[..k], [pieces[k]]);
    assert Joined([pieces[k]]) == pieces[k] + Joined([]);
  }

  /** Where piece k is. */
  lemma PieceAt(pieces: seq<seq<byte>>, k: nat)
    requires k < |pieces|
    ensures Holds(Joined(pieces), |Joined(pieces[..k])|, pieces[k])
    ensures |Joined(pieces[..k + 1])| == |Joined(pieces[..k])| + |pieces[k]|
  {
    var a, c := pieces[..k + 1], pieces[k + 1..];
    assert pieces == a + c;
    JoinedOfConcat(a, c);
    JoinedLast(pieces, k);
    var x, y, z := Joined(pieces[..k]), pieces[k], Joined(c);
    assert Joined(pieces) == (x + y) + z;
  }

  /** Bitwise exclusive or of two naturals. */
  function Xor(a: nat, b: nat): nat
    decreases a + b
  {
    if a == 0 && b == 0 then 0
    else (if a % 2 == b % 2 then 0 else 1) + 2 * Xor(a / 2, b / 2)
  }
}
