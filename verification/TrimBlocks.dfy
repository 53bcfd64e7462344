/**
 The payloads of the two commands that tell a drive which LBAs it may forget:
 the ATA DATA SET MANAGEMENT ranges of ACS-3 (64 entries of a 48-bit LBA and a
 16-bit count, least significant octet first, a zero count standing for no
 entry) and the UNMAP parameter list of SBC-3, section 5.28 (one descriptor of
 a 64-bit LBA and a 32-bit count after an 8-octet header, most significant
 octet first).
 */
module TrimBlocks {
  import opened Bytes

  // ------------------------------------------------------------------ ATA

  type block = b: seq<byte> | |b| == 512 witness Zeros(512)

  function EntryLba(b: block, k: nat): nat
    requires k < 64
  {
    U32(b, 8 * k) + TWO32 * (b[8 * k + 4] as int + 0x100 * (b[8 * k + 5] as int))
  }

  function EntryCount(b: block, k: nat): nat
    requires k < 64
  {
    b[8 * k + 6] as int + 0x100 * (b[8 * k + 7] as int)
  }

  predicate InEntry(b: block, k: nat, x: nat)
    requires k < 64
  {
    EntryLba(b, k) <= x < EntryLba(b, k) + EntryCount(b, k)
  }

  /** Entry k names this LBA. */
  predicate Names(b: block, k: nat, x: nat) {
    k < 64 && InEntry(b, k, x)
  }

  ghost predicate InBlock(b: block, x: nat) {
    exists k: nat :: Names(b, k, x)
  }

  ghost predicate InBlocks(bs: seq<block>, x: nat) {
    exists i :: 0 <= i < |bs| && InBlock(bs[i], x)
  }

  /** The eight octets of an entry. */
  function Entry(pos: nat, n: nat): (e: seq<byte>)
    ensures |e| == 8
  {
    Le32(pos) + [pos / TWO32 % 256, pos / 0x100_0000_0000 % 256, n % 256, n / 256 % 256]
  }

  lemma Le32Back(b: seq<byte>, off: nat, n: nat)
    requires off + 4 <= |b| && b[off..off + 4] == Le32(n)
    ensures U32(b, off) == n % TWO32
  {
    var m := n % TWO32;
    assert b[off] == b[off..off + 4][0] && b[off + 1] == b[off..off + 4][1];
    assert b[off + 2] == b[off..off + 4][2] && b[off + 3] == b[off..off + 4][3];
    Le32Low(n, m);
    Digits(m);
  }

  lemma Mod256(n: nat, m: nat, t: nat)
    requires n == m + 256 * t
    ensures n % 256 == m % 256
  {
  }

  lemma Le32Low(n: nat, m: nat)
    requires m == n % TWO32
    ensures n % 256 == m % 256 && n / 256 % 256 == m / 256 % 256
    ensures n / 0x1_0000 % 256 == m / 0x1_0000 % 256 && n / 0x100_0000 % 256 == m / 0x100_0000 % 256
  {
    var h := n / TWO32;
    assert n == m + TWO32 * h;
    Mod256(n, m, 0x100_0000 * h);
    assert n / 256 == m / 256 + 0x100_0000 * h;
    Mod256(n / 256, m / 256, 0x1_0000 * h);
    assert n / 0x1_0000 == m / 0x1_0000 + 0x1_0000 * h;
    Mod256(n / 0x1_0000, m / 0x1_0000, 0x100 * h);
    assert n / 0x100_0000 == m / 0x100_0000 + 0x100 * h;
    Mod256(n / 0x100_0000, m / 0x100_0000, h);
  }

  lemma Low48(n: nat)
    ensures n % U48 == n % TWO32 + TWO32 * (n / TWO32 % 256 + 0x100 * (n / 0x100_0000_0000 % 256))
  {
    var h := n / TWO32;
    assert n / 0x100_0000_0000 == h / 256;
    assert n == n % TWO32 + TWO32 * h;
    assert h % U16 == h % 256 + 0x100 * (h / 256 % 256);
    var q := h / U16;
    assert h == h % U16 + U16 * q;
    assert n == (n % TWO32 + TWO32 * (h % U16)) + U48 * q;
  }

  /** An entry keeps the low 48 bits of its LBA. */
  lemma EntryBack(b: block, k: nat, pos: nat, n: nat)
    requires k < 64 && n < U16 && b[8 * k..8 * k + 8] == Entry(pos, n)
    ensures EntryLba(b, k) == pos % U48 && EntryCount(b, k) == n
  {
    var e := Entry(pos, n);
    var o := 8 * k;
    assert b[o..o + 4] == e[..4] == Le32(pos);
    Le32Back(b, o, pos);
    Low48(pos);
    assert b[o + 4] == e[4] && b[o + 5] == e[5] && b[o + 6] == e[6] && b[o + 7] == e[7];
  }

  // ----------------------------------------------------------------- SCSI

  /** A big-endian number. */
  function Be(b: seq<byte>): nat {
    if b == [] then 0 else 256 * Be(b[..|b| - 1]) + b[|b| - 1] as int
  }

  /** The octets of a number, most significant first. */
  function BeOctets(n: nat, width: nat): (b: seq<byte>)
    ensures |b| == width
  {
    if width == 0 then [] else BeOctets(n / 256, width - 1) + [n % 256]
  }

  function Power256(w: nat): nat {
    if w == 0 then 1 else 256 * Power256(w - 1)
  }

  lemma {:induction false} BeBack(n: nat, width: nat)
    requires n < Power256(width)
    ensures Be(BeOctets(n, width)) == n
  {
    if width > 0 {
      BeBack(n / 256, width - 1);
      assert BeOctets(n, width)[..width - 1] == BeOctets(n / 256, width - 1);
    }
  }

  /** A parameter list as SBC-3 wants it, with one descriptor. */
  predicate Unmaps(data: seq<byte>, lba: nat, count: nat) {
    && |data| == 24
    && Be(data[0..2]) == |data| - 2
    && Be(data[2..4]) == |data| - 8
    && Be(data[8..16]) == lba
    && Be(data[16..20]) == count
  }
}
