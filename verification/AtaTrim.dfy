/**
 The TRIM command for ATA drives: a range of LBAs cut into entries of at most
 0xFFFF LBAs, 63 to a block.  The block is zeroed once only, so the entries
 that the last block does not fill are left from the block before it.
 */
module AtaTrim {
  import opened Bytes
  import opened TrimBlocks

  const MAX_ENTRY: nat := 0xFFFF
  const PER_BLOCK: nat := 63

  class Drive {
    const lbaCount: nat
    var issued: seq<block>
    /** How many commands the drive has refused. */
    var refused: nat

    constructor (count: nat)
      ensures lbaCount == count && issued == [] && refused == 0
    {
      lbaCount := count;
      issued := [];
      refused := 0;
    }

    /** exec_cmd_ata() with CMD_ATA_TRIM. */
    method Command(b: block) returns (rc: int)
      modifies this
      ensures issued == if rc == 0 then old(issued) + [b] else old(issued)
      ensures refused == if rc == 0 then old(refused) else old(refused) + 1
    {
      rc := *;
      if rc == 0 {
        issued := issued + [b];
      } else {
        refused := refused + 1;
      }
    }
  }

  // ------------------------------------------------------- what goes to the drive

  function ChunkLba(start: nat, k: nat): nat {
    start + MAX_ENTRY * k
  }

  function ChunkCount(length: nat, k: nat): nat
    requires MAX_ENTRY * k < length
  {
    if length - MAX_ENTRY * k < MAX_ENTRY then length - MAX_ENTRY * k else MAX_ENTRY
  }

  /** Chunk k, as the 48 bits of an entry give it, has this LBA. */
  predicate InChunk(start: nat, length: nat, k: nat, x: nat) {
    && MAX_ENTRY * k < length
    && ChunkLba(start, k) % U48 <= x < ChunkLba(start, k) % U48 + ChunkCount(length, k)
  }

  ghost predicate InChunks(start: nat, length: nat, x: nat) {
    exists k: nat :: InChunk(start, length, k, x)
  }

  ghost predicate Exact(start: nat, length: nat) {
    forall x: nat :: InChunks(start, length, x) <==> start <= x < start + length
  }

  /** The last entry begins within 48 bits. */
  predicate Addressable(start: nat, length: nat)
    requires length > 0
  {
    ChunkLba(start, (length - 1) / MAX_ENTRY) < U48
  }

  /** Exactly the range is trimmed if and only if its last entry begins at an
      LBA of 48 bits. */
  lemma ExactIffAddressable(start: nat, length: nat)
    requires length > 0
    ensures Exact(start, length) <==> Addressable(start, length)
  {
    var last := (length - 1) / MAX_ENTRY;
    if Addressable(start, length) {
      forall x: nat ensures InChunks(start, length, x) <==> start <= x < start + length {
        ChunkOf(start, length, x);
      }
    } else {
      var x := ChunkLba(start, last);
      forall k: nat ensures !InChunk(start, length, k, x) { NotReached(start, length, last, k); }
      assert start <= x < start + length && !InChunks(start, length, x);
    }
  }

  lemma ChunkOf(start: nat, length: nat, x: nat)
    requires length > 0 && Addressable(start, length)
    ensures InChunks(start, length, x) <==> start <= x < start + length
  {
    forall k: nat | MAX_ENTRY * k < length ensures ChunkLba(start, k) < U48 { }
    if start <= x < start + length {
      assert InChunk(start, length, (x - start) / MAX_ENTRY, x);
    }
  }

  lemma NotReached(start: nat, length: nat, last: nat, k: nat)
    requires length > 0 && last == (length - 1) / MAX_ENTRY && ChunkLba(start, last) >= U48
    ensures !InChunk(start, length, k, ChunkLba(start, last))
  {
    if MAX_ENTRY * k < length {
      var p, x := ChunkLba(start, k), ChunkLba(start, last);
      assert k <= last;
      if k < last && p < U48 {
        assert p + MAX_ENTRY <= x;
      } else {
        Wrapped(p, x);
      }
    }
  }

  lemma Wrapped(p: nat, x: nat)
    requires U48 <= p <= x
    ensures p % U48 + MAX_ENTRY <= x
  {
    assert p % U48 <= p - U48;
  }

  // ----------------------------------------------------------------- the entries

  predicate EntryIs(start: nat, length: nat, b: block, e: nat, k: nat) {
    && e < 64 && MAX_ENTRY * k < length
    && EntryLba(b, e) == ChunkLba(start, k) % U48 && EntryCount(b, e) == ChunkCount(length, k)
  }

  /** Entry e is empty or one of the first j chunks, maybe an old one. */
  ghost predicate Known(start: nat, length: nat, b: block, e: nat, j: nat) {
    e < 64 ==> EntryCount(b, e) == 0 || exists k: nat :: k < j && EntryIs(start, length, b, e, k)
  }

  ghost predicate AllKnown(start: nat, length: nat, b: block, j: nat) {
    forall e: nat :: Known(start, length, b, e, j)
  }

  ghost predicate BlocksKnown(start: nat, length: nat, bs: seq<block>, j: nat) {
    forall i :: 0 <= i < |bs| ==> AllKnown(start, length, bs[i], j)
  }

  /** The first j0 chunks are in the blocks, 63 to each. */
  ghost predicate Placed(start: nat, length: nat, bs: seq<block>, j0: nat) {
    forall k: nat :: k < j0 ==> k / PER_BLOCK < |bs| && EntryIs(start, length, bs[k / PER_BLOCK], k % PER_BLOCK, k)
  }

  /** The block at hand: n new entries, chunks j0 and on. */
  ghost predicate Filling(start: nat, length: nat, b: block, j0: nat, n: nat) {
    forall e: nat :: FilledAt(start, length, b, j0, n, e)
  }

  ghost predicate FilledAt(start: nat, length: nat, b: block, j0: nat, n: nat, e: nat) {
    e < n ==> EntryIs(start, length, b, e, j0 + e)
  }

  lemma KnownLater(start: nat, length: nat, b: block, j: nat, j1: nat)
    requires AllKnown(start, length, b, j) && j <= j1
    ensures AllKnown(start, length, b, j1)
  {
    forall e: nat ensures Known(start, length, b, e, j1) {
      assert Known(start, length, b, e, j);
      if e < 64 && EntryCount(b, e) != 0 {
        var k: nat :| k < j && EntryIs(start, length, b, e, k);
        assert k < j1 && EntryIs(start, length, b, e, k);
      }
    }
  }

  lemma ZerosKnown(start: nat, length: nat)
    ensures AllKnown(start, length, Zeros(512), 0)
  {
    forall e: nat ensures Known(start, length, Zeros(512), e, 0) { }
  }

  /** Entry n of the block becomes chunk j = j0 + n. */
  lemma EntryPut(start: nat, length: nat, b: block, c: block, j0: nat, n: nat, j: nat)
    requires n < PER_BLOCK && j == j0 + n && MAX_ENTRY * j < length
    requires Filling(start, length, b, j0, n) && AllKnown(start, length, b, j)
    requires c == b[..8 * n] + Entry(ChunkLba(start, j), ChunkCount(length, j)) + b[8 * n + 8..]
    ensures Filling(start, length, c, j0, n + 1) && AllKnown(start, length, c, j + 1)
  {
    NewEntry(start, length, b, c, j, n);
    var n1, j1 := n + 1, j + 1;
    forall e: nat ensures FilledAt(start, length, c, j0, n1, e) {
      assert FilledAt(start, length, b, j0, n, e);
      if e < n { assert SameAt(b, c, n, e); }
    }
    forall e: nat ensures Known(start, length, c, e, j1) {
      assert Known(start, length, b, e, j) && SameAt(b, c, n, e);
      if e < 64 && e != n && EntryCount(c, e) != 0 {
        var k: nat :| k < j && EntryIs(start, length, b, e, k);
        assert EntryIs(start, length, c, e, k);
      }
    }
  }

  ghost predicate SameAt(b: block, c: block, n: nat, e: nat) {
    e < 64 && e != n ==> EntryLba(c, e) == EntryLba(b, e) && EntryCount(c, e) == EntryCount(b, e)
  }

  lemma NewEntry(start: nat, length: nat, b: block, c: block, k: nat, n: nat)
    requires n < PER_BLOCK && MAX_ENTRY * k < length
    requires c == b[..8 * n] + Entry(ChunkLba(start, k), ChunkCount(length, k)) + b[8 * n + 8..]
    ensures EntryIs(start, length, c, n, k)
    ensures forall e: nat :: SameAt(b, c, n, e)
  {
    var pos, cnt := ChunkLba(start, k), ChunkCount(length, k);
    PutApart(b, c, n, Entry(pos, cnt));
    EntryBack(c, n, pos, cnt);
    forall e: nat ensures SameAt(b, c, n, e) {
      if e < 64 && e != n { SameEntry(b, c, n, e); }
    }
  }

  lemma PutApart(b: block, c: block, n: nat, entry: seq<byte>)
    requires n < 64 && |entry| == 8 && c == b[..8 * n] + entry + b[8 * n + 8..]
    ensures c[8 * n..8 * n + 8] == entry
    ensures forall j :: 0 <= j < 512 && !(8 * n <= j < 8 * n + 8) ==> c[j] == b[j]
  {
  }

  lemma SameEntry(b: block, c: block, n: nat, e: nat)
    requires n < 64 && e < 64 && e != n
    requires forall j :: 0 <= j < 512 && !(8 * n <= j < 8 * n + 8) ==> c[j] == b[j]
    ensures EntryLba(c, e) == EntryLba(b, e) && EntryCount(c, e) == EntryCount(b, e)
  {
  }

  /** A block is issued: the chunks it was filled with are now placed. */
  lemma Issue(start: nat, length: nat, bs: seq<block>, b: block, j0: nat, n: nat)
    requires j0 == PER_BLOCK * |bs| && n <= PER_BLOCK
    requires Placed(start, length, bs, j0) && BlocksKnown(start, length, bs, j0)
    requires Filling(start, length, b, j0, n) && AllKnown(start, length, b, j0 + n)
    ensures Placed(start, length, bs + [b], j0 + n) && BlocksKnown(start, length, bs + [b], j0 + n)
  {
    var all := bs + [b];
    forall i | 0 <= i < |all| ensures AllKnown(start, length, all[i], j0 + n) {
      if i < |bs| { KnownLater(start, length, bs[i], j0, j0 + n); }
    }
    forall k: nat | k < j0 + n
      ensures k / PER_BLOCK < |all| && EntryIs(start, length, all[k / PER_BLOCK], k % PER_BLOCK, k)
    {
      if k >= j0 {
        assert k / PER_BLOCK == |bs| && k % PER_BLOCK == k - j0;
        assert FilledAt(start, length, b, j0, n, k - j0);
      }
    }
  }

  /** The blocks name exactly the LBAs of the chunks. */
  ghost predicate NamesChunks(bs: seq<block>, start: nat, length: nat) {
    forall x: nat :: InBlocks(bs, x) <==> InChunks(start, length, x)
  }

  lemma AllNamed(start: nat, length: nat, bs: seq<block>, j: nat)
    requires Placed(start, length, bs, j) && BlocksKnown(start, length, bs, j) && MAX_ENTRY * j >= length
    ensures NamesChunks(bs, start, length)
  {
    forall x: nat ensures InBlocks(bs, x) <==> InChunks(start, length, x) { BlocksAreChunks(start, length, bs, j, x); }
  }

  /** When every chunk is placed and every entry known, the blocks name exactly
      the LBAs of the chunks. */
  lemma BlocksAreChunks(start: nat, length: nat, bs: seq<block>, j: nat, x: nat)
    requires Placed(start, length, bs, j) && BlocksKnown(start, length, bs, j) && MAX_ENTRY * j >= length
    ensures InBlocks(bs, x) <==> InChunks(start, length, x)
  {
    if InBlocks(bs, x) {
      var i :| 0 <= i < |bs| && InBlock(bs[i], x);
      var e: nat :| Names(bs[i], e, x);
      assert Known(start, length, bs[i], e, j);
      var k: nat :| k < j && EntryIs(start, length, bs[i], e, k);
      assert InChunk(start, length, k, x);
    }
    if InChunks(start, length, x) {
      var k: nat :| InChunk(start, length, k, x);
      assert EntryIs(start, length, bs[k / PER_BLOCK], k % PER_BLOCK, k);
      assert Names(bs[k / PER_BLOCK], k % PER_BLOCK, x);
      assert InBlock(bs[k / PER_BLOCK], x);
    }
  }

  // ------------------------------------------------------------------ the command

  /** tdata[ i++ ] = ..., eight times. */
  method PutEntry(tdata: array<byte>, i: nat, pos: nat, n: nat)
    requires i + 8 <= tdata.Length
    modifies tdata
    ensures tdata[..] == old(tdata[..i]) + Entry(pos, n) + old(tdata[i + 8..])
  {
    var entry := Entry(pos, n);
    var k := 0;
    while k < 8
      invariant k <= 8
      invariant forall j :: 0 <= j < tdata.Length ==> tdata[j] == if i <= j < i + k then entry[j - i] else old(tdata[j])
    {
      tdata[i + k] := entry[k];
      k := k + 1;
    }
  }

  /** One turn of the inner loop: entry n becomes chunk j0 + n. */
  method PutChunk(tdata: array<byte>, ghost start: nat, ghost total: nat, ghost j0: nat, ghost n: nat, i: nat, pos: nat,
                  length: nat)
    requires tdata.Length == 512 && i == 8 * n && n < PER_BLOCK && length > 0
    requires pos == ChunkLba(start, j0 + n) && length == total - MAX_ENTRY * (j0 + n)
    requires Filling(start, total, tdata[..], j0, n) && AllKnown(start, total, tdata[..], j0 + n)
    modifies tdata
    ensures Filling(start, total, tdata[..], j0, n + 1) && AllKnown(start, total, tdata[..], j0 + n + 1)
  {
    var tmp := if length < MAX_ENTRY then length else MAX_ENTRY;
    ghost var b: block := tdata[..];
    assert tdata[..i] == b[..i] && tdata[i + 8..] == b[i + 8..];
    PutEntry(tdata, i, pos, tmp);
    EntryPut(start, total, b, tdata[..], j0, n, j0 + n);
  }

  /** The inner loop: fills the block, from chunk j0 on. */
  method FillBlock(tdata: array<byte>, ghost start: nat, ghost total: nat, ghost j0: nat, pos0: nat, length0: nat)
    returns (pos: nat, length: nat, ghost n: nat)
    requires tdata.Length == 512 && pos0 == ChunkLba(start, j0) && length0 == total - MAX_ENTRY * j0 && length0 > 0
    requires AllKnown(start, total, tdata[..], j0)
    modifies tdata
    ensures 0 < n <= PER_BLOCK && Filling(start, total, tdata[..], j0, n) && AllKnown(start, total, tdata[..], j0 + n)
    ensures length == 0 ==> MAX_ENTRY * (j0 + n) >= total
    ensures length > 0 ==> n == PER_BLOCK && pos == ChunkLba(start, j0 + n) && length == total - MAX_ENTRY * (j0 + n)
    ensures length < length0
  {
    pos, length, n := pos0, length0, 0;
    var i := 0;
    while i + 8 < 512
      invariant i == 8 * n && n <= PER_BLOCK && length > 0 && length <= length0 && (n > 0 ==> length < length0)
      invariant pos == ChunkLba(start, j0 + n) && length == total - MAX_ENTRY * (j0 + n)
      invariant Filling(start, total, tdata[..], j0, n) && AllKnown(start, total, tdata[..], j0 + n)
    {
      PutChunk(tdata, start, total, j0, n, i, pos, length);
      i := i + 8;
      n := n + 1;
      if length <= MAX_ENTRY {
        length := 0;
        return;
      }
      length := length - MAX_ENTRY;
      pos := pos + MAX_ENTRY;
    }
  }

  /** CMD_TRIM; a count of zero stands for the rest of the drive.  The blocks
      issued name exactly the LBAs of the chunks, unless the drive refused one:
      then none is issued after it. */
  method Trim(drive: Drive, start: nat, count: nat) returns (rc: int)
    modifies drive
    ensures old(drive.issued) <= drive.issued
    ensures if rc == 0 then drive.refused == old(drive.refused) else rc == -1 && drive.refused == old(drive.refused) + 1
    ensures rc == 0 ==> NamesChunks(drive.issued[|old(drive.issued)|..], start,
                                    if count > 0 then count else (drive.lbaCount - start) % U64)
  {
    rc := TrimRange(drive, start, if count == 0 then (drive.lbaCount - start) % U64 else count);
  }

  /** The first j chunks have gone out in these blocks. */
  ghost predicate Sent(start: nat, total: nat, bs: seq<block>, j: nat) {
    Placed(start, total, bs, j) && BlocksKnown(start, total, bs, j)
  }

  /** One turn of the outer loop. */
  method TrimBlock(drive: Drive, tdata: array<byte>, ghost start: nat, ghost total: nat, ghost bs: seq<block>,
                   ghost j: nat, pos0: nat, length0: nat)
    returns (rc: int, pos: nat, length: nat, ghost n: nat, ghost b: block)
    requires tdata.Length == 512 && j == PER_BLOCK * |bs| && pos0 == ChunkLba(start, j)
    requires length0 == total - MAX_ENTRY * j && length0 > 0
    requires Sent(start, total, bs, j) && AllKnown(start, total, tdata[..], j)
    modifies drive, tdata
    ensures drive.issued == if rc == 0 then old(drive.issued) + [b] else old(drive.issued)
    ensures drive.refused == if rc == 0 then old(drive.refused) else old(drive.refused) + 1
    ensures Sent(start, total, bs + [b], j + n) && AllKnown(start, total, tdata[..], j + n)
    ensures length == 0 ==> MAX_ENTRY * (j + n) >= total
    ensures length > 0 ==> n == PER_BLOCK && pos == ChunkLba(start, j + n) && length == total - MAX_ENTRY * (j + n)
    ensures length < length0
  {
    pos, length, n := FillBlock(tdata, start, total, j, pos0, length0);
    var data: block := tdata[..];
    b := data;
    Issue(start, total, bs, b, j, n);
    rc := drive.Command(data);
  }

  lemma NothingSent(start: nat, total: nat)
    ensures Sent(start, total, [], 0) && AllKnown(start, total, Zeros(512), 0)
  {
    ZerosKnown(start, total);
  }

  /** The loop over the blocks. */
  method TrimRange(drive: Drive, start: nat, total: nat) returns (rc: int)
    modifies drive
    ensures old(drive.issued) <= drive.issued
    ensures if rc == 0 then drive.refused == old(drive.refused) else rc == -1 && drive.refused == old(drive.refused) + 1
    ensures rc == 0 ==> NamesChunks(drive.issued[|old(drive.issued)|..], start, total)
  {
    var tdata := new byte[512](_ => 0);
    assert tdata[..] == Zeros(512);
    NothingSent(start, total);
    var length, pos := total, start;
    ghost var j, bs: seq<block>, was := 0, [], drive.issued;
    while length > 0
      invariant drive.issued == was + bs && drive.refused == old(drive.refused) && tdata.Length == 512 && fresh(tdata)
      invariant length > 0 ==> j == PER_BLOCK * |bs| && pos == ChunkLba(start, j) && length == total - MAX_ENTRY * j
      invariant length == 0 ==> MAX_ENTRY * j >= total
      invariant Sent(start, total, bs, j) && AllKnown(start, total, tdata[..], j)
      decreases length
    {
      ghost var n, b;
      rc, pos, length, n, b := TrimBlock(drive, tdata, start, total, bs, j, pos, length);
      if rc != 0 {
        return -1;
      }
      j, bs := j + n, bs + [b];
    }
    rc := 0;
    assert drive.issued[|was|..] == bs;
    AllNamed(start, total, bs, j);
  }
}
