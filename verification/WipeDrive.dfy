/**
 The loops of wipedrive.c that work through a range of LBAs in chunks, down to
 the blocks and descriptors a drive is sent.
 */
module WipeDrive {
  import opened Bytes
  import opened BlockList
  import opened TrimBlocks
  import A = AtaTrim
  import S = ScsiUnmap

  const GENERAL_ERROR: int := -1

  // ------------------------------------------------------------------ trimming

  /** A drive that is trimmed in one of the two ways. */
  class Drive {
    const isAta: bool
    const ata: A.Drive
    const scsi: S.Drive
    const supportsTrim: bool

    constructor (byAta: bool, a: A.Drive, s: S.Drive, supported: bool)
      ensures isAta == byAta && ata == a && scsi == s && supportsTrim == supported
    {
      isAta := byAta;
      ata := a;
      scsi := s;
      supportsTrim := supported;
    }

    /** A SCSI drive is taken to support trimming only with a maximum above 0. */
    ghost predicate Valid() {
      && ata.lbaCount == scsi.lbaCount < U64
      && (isAta ==> ata.lbaCount <= U48)
      && (!isAta && supportsTrim ==> 0 < scsi.maxUnmapLBACount < TWO32)
    }

    /** Some command the drive was sent names this LBA. */
    ghost predicate Trimmed(x: nat)
      reads ata, scsi
    {
      if isAta then InBlocks(ata.issued, x) else S.InCommands(scsi.issued, x)
    }

    /** The range has LBAs that the commands can name; zero stands for the rest
        of the drive. */
    ghost predicate Named(start: nat, count: nat) {
      if count == 0 then start <= ata.lbaCount else start + count <= if isAta then U48 else U64
    }

    /** How many commands the drive has refused. */
    ghost function Refused(): nat
      reads ata, scsi
    {
      if isAta then ata.refused else scsi.refused
    }

    method TrimAta(start: nat, count: nat) returns (rc: int)
      requires Valid() && isAta && Named(start, count)
      modifies ata
      ensures if rc == 0 then Refused() == old(Refused()) else rc == -1 && Refused() == old(Refused()) + 1
      ensures rc == 0 ==> forall x: nat :: InBlocks(ata.issued, x) <==>
              old(InBlocks(ata.issued, x)) || start <= x < if count == 0 then ata.lbaCount else start + count
    {
      ghost var was := ata.issued;
      rc := A.Trim(ata, start, count);
      if rc == 0 {
        ghost var sent, length := ata.issued[|was|..], if count == 0 then ata.lbaCount - start else count;
        assert ata.issued == was + sent;
        forall x: nat ensures InBlocks(ata.issued, x) <==> InBlocks(was, x) || start <= x < start + length {
          BlocksConcat(was, sent, x);
          ChunksExact(start, length, x);
        }
      }
    }

    method TrimScsi(start: nat, count: nat) returns (rc: int)
      requires Valid() && !isAta && supportsTrim && Named(start, count)
      modifies scsi
      ensures if rc == 0 then Refused() == old(Refused()) else rc == -1 && Refused() == old(Refused()) + 1
      ensures rc == 0 ==> forall x: nat ::
                S.InCommands(scsi.issued, x) <==> old(S.InCommands(scsi.issued, x))
                                                  || start <= x < if count == 0 then ata.lbaCount else start + count
    {
      ghost var was := scsi.issued;
      rc := S.Trim(scsi, start, count);
      if rc == 0 {
        ghost var sent, end := scsi.issued[|was|..], if count == 0 then ata.lbaCount else start + count;
        assert scsi.issued == was + sent;
        forall x: nat ensures S.InCommands(scsi.issued, x) <==> S.InCommands(was, x) || start <= x < end {
          CommandsConcat(was, sent, x);
          S.TilesCover(sent, start, end, scsi.maxUnmapLBACount, x);
        }
      }
    }

    /** trim() */
    method Trim(start: nat, count: nat) returns (rc: int)
      requires Valid() && Named(start, count)
      modifies ata, scsi
      ensures rc == 0 || rc == -1
      ensures Refused() == if rc == 0 || !supportsTrim then old(Refused()) else old(Refused()) + 1
      ensures rc == 0 ==> supportsTrim
      ensures rc == 0 ==> forall x: nat :: Trimmed(x) <==>
              old(Trimmed(x)) || start <= x < if count == 0 then ata.lbaCount else start + count
    {
      if !supportsTrim {
        return -1;
      }
      if isAta {
        rc := TrimAta(start, count);
      } else {
        rc := TrimScsi(start, count);
      }
    }
  }

  lemma ChunksExact(start: nat, length: nat, x: nat)
    requires start + length <= U48
    ensures A.InChunks(start, length, x) <==> start <= x < start + length
  {
    if length > 0 { A.ChunkOf(start, length, x); }
  }

  lemma BlocksConcat(a: seq<block>, b: seq<block>, x: nat)
    ensures InBlocks(a + b, x) <==> InBlocks(a, x) || InBlocks(b, x)
  {
    var all := a + b;
    if InBlocks(a, x) {
      var i :| 0 <= i < |a| && InBlock(a[i], x);
      assert InBlock(all[i], x);
    }
    if InBlocks(b, x) {
      var i :| 0 <= i < |b| && InBlock(b[i], x);
      assert InBlock(all[|a| + i], x);
    }
    if InBlocks(all, x) {
      var i :| 0 <= i < |all| && InBlock(all[i], x);
      assert if i < |a| then InBlock(a[i], x) else InBlock(b[i - |a|], x);
    }
  }

  lemma CommandsConcat(a: seq<seq<byte>>, b: seq<seq<byte>>, x: nat)
    ensures S.InCommands(a + b, x) <==> S.InCommands(a, x) || S.InCommands(b, x)
  {
    var all := a + b;
    if S.InCommands(a, x) {
      var i :| 0 <= i < |a| && S.InCommand(a[i], x);
      assert S.InCommand(all[i], x);
    }
    if S.InCommands(b, x) {
      var i :| 0 <= i < |b| && S.InCommand(b[i], x);
      assert S.InCommand(all[|a| + i], x);
    }
    if S.InCommands(all, x) {
      var i :| 0 <= i < |all| && S.InCommand(all[i], x);
      assert if i < |a| then S.InCommand(a[i], x) else S.InCommand(b[i - |a|], x);
    }
  }

  /** doTrimWipe(): whatever the chunk size, the LBAs trimmed are those of the
      range; a count of zero stands for the rest of the drive.  It fails only
      where the drive refuses a command or does not support them. */
  method DoTrimWipe(drive: Drive, start: nat, count: nat, chunkSize: nat) returns (rc: int)
    requires drive.Valid() && drive.Named(start, count)
    modifies drive.ata, drive.scsi
    ensures rc == 0 || rc == GENERAL_ERROR
    ensures drive.Refused() == if rc == 0 || !drive.supportsTrim then old(drive.Refused()) else old(drive.Refused()) + 1
    ensures rc == 0 ==> drive.supportsTrim || (count == 0 && start == drive.ata.lbaCount)
    ensures rc == 0 ==> forall x: nat :: drive.Trimmed(x) <==>
            old(drive.Trimmed(x)) || start <= x < if count == 0 then drive.ata.lbaCount else start + count
  {
    if chunkSize == 0 {
      rc := drive.Trim(start, count);
      return if rc != 0 then GENERAL_ERROR else 0;
    }
    var endingLBA := if count == 0 then drive.ata.lbaCount else start + count;
    var curLBA, chunk := start, chunkSize;
    while curLBA < endingLBA
      invariant start <= curLBA <= endingLBA && chunk > 0 && (curLBA > start ==> drive.supportsTrim)
      invariant drive.Refused() == old(drive.Refused())
      invariant forall x: nat :: drive.Trimmed(x) <==> old(drive.Trimmed(x)) || start <= x < curLBA
    {
      if curLBA + chunk > endingLBA {
        chunk := endingLBA - curLBA;
      }
      rc := drive.Trim(curLBA, chunk);
      if rc != 0 {
        return GENERAL_ERROR;
      }
      curLBA := curLBA + chunk;
    }
    rc := 0;
  }

  // -------------------------------------------------------------------- wiping

  /** A drive that can be told to write one pattern over a range. */
  class ScsiDisk {
    const lbaCount: nat
    var wiped: seq<Range>
    /** The ranges it has refused to write, one after the other. */
    var refused: seq<Range>

    constructor (count: nat)
      ensures lbaCount == count && wiped == [] && refused == []
    {
      lbaCount := count;
      wiped := [];
      refused := [];
    }

    /** writeSame() */
    method WriteSame(lba: nat, count: nat) returns (rc: int)
      modifies this
      ensures wiped == if rc == 0 then old(wiped) + [Range(lba, count)] else old(wiped)
      ensures refused == if rc == 0 then old(refused) else old(refused) + [Range(lba, count)]
    {
      rc := *;
      if rc == 0 {
        wiped := wiped + [Range(lba, count)];
      } else {
        refused := refused + [Range(lba, count)];
      }
    }
  }

  /** Ranges that follow each other from lo to hi, none of them empty. */
  ghost predicate Consecutive(ranges: seq<Range>, lo: nat, hi: nat) {
    if ranges == [] then lo == hi
    else
      var last := ranges[|ranges| - 1];
      last.count > 0 && lo <= last.lba && last.lba + last.count == hi
          && Consecutive(ranges[..|ranges| - 1], lo, last.lba)
  }

  lemma {:induction false} ConsecutiveCovers(ranges: seq<Range>, lo: nat, hi: nat, x: nat)
    requires Consecutive(ranges, lo, hi)
    ensures Listed(ranges, x) <==> lo <= x < hi
  {
    if ranges != [] {
      var front, last := ranges[..|ranges| - 1], ranges[|ranges| - 1];
      ConsecutiveCovers(front, lo, last.lba, x);
      if Listed(front, x) {
        var k :| 0 <= k < |front| && InRange(front[k], x);
        assert InRange(ranges[k], x);
      }
      if InRange(last, x) { assert InRange(ranges[|ranges| - 1], x); }
      if Listed(ranges, x) && !InRange(last, x) {
        var k :| 0 <= k < |ranges| && InRange(ranges[k], x);
        assert InRange(front[k], x);
      }
    }
  }

  lemma ConsecutiveMore(ranges: seq<Range>, lo: nat, hi: nat, n: nat)
    requires Consecutive(ranges, lo, hi) && lo <= hi && n > 0
    ensures Consecutive(ranges + [Range(hi, n)], lo, hi + n)
  {
    assert (ranges + [Range(hi, n)])[..|ranges|] == ranges;
  }

  /** The last chunk: up to the end and, where that is the end of the disk and
      the disk will not have it so, a whole chunk that runs past it. */
  method WipeEnd(drive: ScsiDisk, curLBA: nat, endingLBA: nat, chunkSize: nat) returns (rc: int, n: nat)
    requires curLBA < endingLBA < curLBA + chunkSize
    modifies drive
    ensures drive.wiped == if rc == 0 then old(drive.wiped) + [Range(curLBA, n)] else old(drive.wiped)
    ensures rc == 0 ==> n == endingLBA - curLBA || (n == chunkSize && endingLBA == drive.lbaCount)
    ensures rc == 0 && n == endingLBA - curLBA ==> drive.refused == old(drive.refused)
    ensures rc == 0 && n != endingLBA - curLBA ==>
            drive.refused == old(drive.refused) + [Range(curLBA, endingLBA - curLBA)]
    ensures rc != 0 ==> |drive.refused| > |old(drive.refused)|
  {
    n := endingLBA - curLBA;
    rc := drive.WriteSame(curLBA, n);
    if rc != 0 {
      if endingLBA == drive.lbaCount {
        n := chunkSize;
        rc := drive.WriteSame(curLBA, n);
      }
    }
  }

  /** What a wipe of [start, end) leaves behind when it succeeds. */
  ghost predicate Wiped(start: nat, end: nat, chunkSize: nat, lbaCount: nat, ranges: seq<Range>, reached: nat,
                        refusals: int) {
    && start <= reached && Consecutive(ranges, start, reached)
    && (start <= end ==>
          if refusals == 0 then reached == end
          else refusals == 1 && end == lbaCount && end < reached < end + chunkSize)
    && (start > end ==> ranges == [] && refusals == 0)
  }

  /** The LBAs that such a wipe has written. */
  lemma WipedCovers(start: nat, end: nat, chunkSize: nat, lbaCount: nat, ranges: seq<Range>, reached: nat,
                    refusals: int, x: nat)
    requires Wiped(start, end, chunkSize, lbaCount, ranges, reached, refusals)
    ensures start <= x < end ==> Listed(ranges, x)
    ensures Listed(ranges, x) ==> start <= x < end || (x >= end == lbaCount && refusals == 1)
  {
    ConsecutiveCovers(ranges, start, reached, x);
  }

  /** doSCSIWipe(): with a chunk size every LBA from the start on is written, up
      to the end of the disk for a count of zero, else as many as are asked for.
      The writes that succeed follow each other.  They pass the end only where it
      is that of the disk and the disk refused a last write that ends there; any
      other refusal ends in an error. */
  method DoSCSIWipe(drive: ScsiDisk, start: nat, count: nat, chunkSize: nat) returns (rc: int, ghost reached: nat)
    modifies drive
    ensures rc == 0 || (rc == GENERAL_ERROR && |drive.refused| > |old(drive.refused)|)
    ensures old(drive.wiped) <= drive.wiped
    ensures chunkSize == 0 && rc == 0 ==>
              drive.wiped == old(drive.wiped) + [Range(start, count)] && drive.refused == old(drive.refused)
    ensures chunkSize > 0 && rc == 0 && count == 0 ==>
              forall x: nat :: start <= x < drive.lbaCount ==> Listed(drive.wiped[|old(drive.wiped)|..], x)
    ensures chunkSize > 0 && rc == 0 && count > 0 ==>
              forall x: nat :: start <= x < start + count ==> Listed(drive.wiped[|old(drive.wiped)|..], x)
    ensures chunkSize > 0 && rc == 0 && (count == 0 || start + count == drive.lbaCount) ==>
              forall x: nat :: Listed(drive.wiped[|old(drive.wiped)|..], x) ==>
                start <= x < drive.lbaCount || (x >= drive.lbaCount && |drive.refused| == |old(drive.refused)| + 1)
    ensures chunkSize > 0 && rc == 0 && count > 0 && start + count != drive.lbaCount ==>
              forall x: nat :: Listed(drive.wiped[|old(drive.wiped)|..], x) ==> start <= x < start + count
    ensures chunkSize > 0 && rc == 0 ==>
              Wiped(start, if count == 0 then drive.lbaCount else start + count, chunkSize, drive.lbaCount,
                    drive.wiped[|old(drive.wiped)|..], reached, |drive.refused| - |old(drive.refused)|)
  {
    reached := start;
    if chunkSize == 0 {
      rc := drive.WriteSame(start, count);
      return if rc != 0 then GENERAL_ERROR else 0, start;
    }
    var endingLBA := if count == 0 then drive.lbaCount else start + count;
    rc, reached := WipeChunks(drive, start, endingLBA, chunkSize);
    if rc == 0 {
      ghost var ranges, refusals := drive.wiped[|old(drive.wiped)|..], |drive.refused| - |old(drive.refused)|;
      forall x: nat
        ensures start <= x < endingLBA ==> Listed(ranges, x)
        ensures Listed(ranges, x) ==> start <= x < endingLBA || (x >= endingLBA == drive.lbaCount && refusals == 1)
      {
        WipedCovers(start, endingLBA, chunkSize, drive.lbaCount, ranges, reached, refusals, x);
      }
    }
  }

  /** The loop over the chunks. */
  method WipeChunks(drive: ScsiDisk, start: nat, endingLBA: nat, chunkSize: nat)
    returns (rc: int, ghost reached: nat)
    requires chunkSize > 0
    modifies drive
    ensures rc == 0 || (rc == GENERAL_ERROR && |drive.refused| > |old(drive.refused)|)
    ensures old(drive.wiped) <= drive.wiped
    ensures rc == 0 ==>
              Wiped(start, endingLBA, chunkSize, drive.lbaCount, drive.wiped[|old(drive.wiped)|..], reached,
                    |drive.refused| - |old(drive.refused)|)
  {
    reached := start;
    var curLBA := start;
    ghost var was := drive.wiped;
    ghost var ranges: seq<Range> := [];
    rc := 0;
    while curLBA < endingLBA
      invariant drive.wiped == was + ranges && rc == 0
      invariant curLBA < endingLBA ==> reached == curLBA && drive.refused == old(drive.refused)
      invariant Wiped(start, if curLBA < endingLBA then curLBA else endingLBA, chunkSize, drive.lbaCount, ranges,
                      reached, |drive.refused| - |old(drive.refused)|)
      decreases if curLBA < endingLBA then endingLBA - curLBA else 0
    {
      var n := chunkSize;
      if curLBA + chunkSize > endingLBA {
        rc, n := WipeEnd(drive, curLBA, endingLBA, chunkSize);
      } else {
        rc := drive.WriteSame(curLBA, chunkSize);
      }
      if rc != 0 {
        return GENERAL_ERROR, reached;
      }
      ConsecutiveMore(ranges, start, curLBA, n);
      ranges := ranges + [Range(curLBA, n)];
      reached := curLBA + n;
      curLBA := curLBA + chunkSize;
    }
    assert drive.wiped[|was|..] == ranges;
  }
}
