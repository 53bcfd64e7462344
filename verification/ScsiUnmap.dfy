/**
 The TRIM command for SCSI drives: a range of LBAs unmapped in descriptors of
 at most the drive's maximum, one to a command.
 */
module ScsiUnmap {
  import opened Bytes
  import opened TrimBlocks

  class Drive {
    const lbaCount: nat
    const maxUnmapLBACount: nat
    var issued: seq<seq<byte>>
    /** How many commands the drive has refused. */
    var refused: nat

    constructor (count: nat, max: nat)
      ensures lbaCount == count && maxUnmapLBACount == max && issued == [] && refused == 0
    {
      lbaCount := count;
      maxUnmapLBACount := max;
      issued := [];
      refused := 0;
    }

    /** exec_cmd_scsi() with CMD_SCSI_TRIM. */
    method Command(data: seq<byte>) returns (rc: int)
      modifies this
      ensures issued == if rc == 0 then old(issued) + [data] else old(issued)
      ensures refused == if rc == 0 then old(refused) else old(refused) + 1
    {
      rc := *;
      if rc == 0 {
        issued := issued + [data];
      } else {
        refused := refused + 1;
      }
    }
  }

  function LbaOf(data: seq<byte>): nat
    requires |data| >= 16
  {
    Be(data[8..16])
  }

  function CountOf(data: seq<byte>): nat
    requires |data| >= 20
  {
    Be(data[16..20])
  }

  predicate InCommand(data: seq<byte>, x: nat) {
    |data| >= 20 && LbaOf(data) <= x < LbaOf(data) + CountOf(data)
  }

  ghost predicate InCommands(cmds: seq<seq<byte>>, x: nat) {
    exists i :: 0 <= i < |cmds| && InCommand(cmds[i], x)
  }

  /** The commands, each well formed and none empty or longer than the maximum,
      follow each other from start to end. */
  ghost predicate Tiles(cmds: seq<seq<byte>>, start: nat, end: nat, max: nat) {
    if cmds == [] then start == end
    else
      var last := cmds[|cmds| - 1];
      && |last| >= 20
      && 0 < CountOf(last) <= max && start + CountOf(last) <= end
      && Unmaps(last, end - CountOf(last), CountOf(last))
      && Tiles(cmds[..|cmds| - 1], start, end - CountOf(last), max)
  }

  /** So they cover exactly the LBAs from start to end. */
  lemma {:induction false} TilesCover(cmds: seq<seq<byte>>, start: nat, end: nat, max: nat, x: nat)
    requires Tiles(cmds, start, end, max)
    ensures InCommands(cmds, x) <==> start <= x < end
  {
    if cmds != [] {
      var front, last := cmds[..|cmds| - 1], cmds[|cmds| - 1];
      TilesCover(front, start, end - CountOf(last), max, x);
      if InCommands(front, x) {
        var i :| 0 <= i < |front| && InCommand(front[i], x);
        assert InCommand(cmds[i], x);
      }
      if InCommand(last, x) { assert InCommand(cmds[|cmds| - 1], x); }
      if InCommands(cmds, x) && !InCommand(last, x) {
        var i :| 0 <= i < |cmds| && InCommand(cmds[i], x);
        assert InCommand(front[i], x);
      }
    }
  }

  /** And no LBA is in two of them. */
  lemma {:induction false} TilesDisjoint(cmds: seq<seq<byte>>, start: nat, end: nat, max: nat, i: nat, j: nat, x: nat)
    requires Tiles(cmds, start, end, max) && i < j < |cmds|
    ensures !(InCommand(cmds[i], x) && InCommand(cmds[j], x))
  {
    var front, last := cmds[..|cmds| - 1], cmds[|cmds| - 1];
    if j < |front| {
      TilesDisjoint(front, start, end - CountOf(last), max, i, j, x);
    } else {
      TilesCover(front, start, end - CountOf(last), max, x);
      if InCommand(cmds[i], x) { assert InCommand(front[i], x); }
    }
  }

  lemma TilesMore(cmds: seq<seq<byte>>, start: nat, end: nat, max: nat, data: seq<byte>, n: nat)
    requires Tiles(cmds, start, end, max) && start <= end && 0 < n <= max && Unmaps(data, end, n)
    ensures Tiles(cmds + [data], start, end + n, max)
  {
    assert (cmds + [data])[..|cmds|] == cmds;
  }

  // ------------------------------------------------------------------ the command

  /** A number, most significant octet first. */
  method PutBe(tdata: array<byte>, i: nat, n: nat, width: nat)
    requires i + width <= tdata.Length
    modifies tdata
    ensures tdata[i..i + width] == BeOctets(n, width)
    ensures forall j :: 0 <= j < tdata.Length && !(i <= j < i + width) ==> tdata[j] == old(tdata[j])
  {
    var octets := BeOctets(n, width);
    var k := 0;
    while k < width
      invariant k <= width
      invariant forall j :: 0 <= j < tdata.Length ==>
                tdata[j] == if i <= j < i + k then octets[j - i] else old(tdata[j])
    {
      tdata[i + k] := octets[k];
      k := k + 1;
    }
  }

  lemma Widths()
    ensures Power256(2) == 0x1_0000 && Power256(4) == TWO32 && Power256(8) == U64
  {
    assert Power256(2) == 256 * Power256(1);
    assert Power256(4) == 256 * (256 * Power256(2));
    assert Power256(8) == 256 * (256 * (256 * (256 * Power256(4))));
  }

  /** The inner loop: descriptors from octet 8 on, but no more than one. */
  method PutDescriptors(tdata: array<byte>, pos0: nat, length0: nat, max: nat) returns (i: nat, pos: nat, length: nat)
    requires tdata.Length == 512 && 0 < length0 && 0 < max < TWO32 && pos0 < U64
    modifies tdata
    ensures i == 24 && tdata[8..16] == BeOctets(pos0, 8)
    ensures var n := if length0 < max then length0 else max;
            tdata[16..20] == BeOctets(n, 4) && length == length0 - n && (length > 0 ==> pos == pos0 + n)
  {
    var j := 0;
    i, pos, length := 8, pos0, length0;
    while j < 1 && i + 16 < 512
      invariant if j == 0 then i == 8 && pos == pos0 && length == length0
                else
                  && j == 1 && i == 24 && length0 > max && length == length0 - max && pos == pos0 + max
                  && tdata[8..16] == BeOctets(pos0, 8) && tdata[16..20] == BeOctets(max, 4)
      decreases 1 - j
    {
      var tmp := if length < max then length else max;
      PutBe(tdata, i, pos, 8);
      PutBe(tdata, i + 8, tmp, 4);
      assert tdata[8..16] == BeOctets(pos0, 8);
      i := i + 16;
      if length <= max {
        length := 0;
        break;
      }
      length := length - max;
      pos := pos + max;
      j := j + 1;
    }
  }

  lemma WellFormed(data: seq<byte>, lba: nat, n: nat)
    requires |data| == 24 && lba < U64 && n < TWO32
    requires data[0..2] == BeOctets(22, 2) && data[2..4] == BeOctets(16, 2)
    requires data[8..16] == BeOctets(lba, 8) && data[16..20] == BeOctets(n, 4)
    ensures Unmaps(data, lba, n) && CountOf(data) == n
  {
    Widths();
    BeBack(22, 2);
    BeBack(16, 2);
    BeBack(lba, 8);
    BeBack(n, 4);
  }

  /** One turn of the outer loop up to the command: its parameter list. */
  method MakeList(tdata: array<byte>, pos0: nat, length0: nat, max: nat) returns (data: seq<byte>, pos: nat,
                  length: nat)
    requires tdata.Length == 512 && 0 < length0 && 0 < max < TWO32 && pos0 < U64
    modifies tdata
    ensures var n := if length0 < max then length0 else max;
            Unmaps(data, pos0, n) && CountOf(data) == n && length == length0 - n && (length > 0 ==> pos == pos0 + n)
  {
    var i;
    i, pos, length := PutDescriptors(tdata, pos0, length0, max);
    ghost var lba, n := tdata[8..16], tdata[16..20];
    PutBe(tdata, 0, i - 2, 2);
    ghost var head := tdata[0..2];
    PutBe(tdata, 2, i - 8, 2);
    assert tdata[0..2] == head && tdata[8..16] == lba && tdata[16..20] == n;
    data := tdata[..i];
    assert data[0..2] == tdata[0..2] && data[2..4] == tdata[2..4] && data[8..16] == tdata[8..16]
        && data[16..20] == tdata[16..20];
    WellFormed(data, pos0, if length0 < max then length0 else max);
  }

  /** One turn of the outer loop. */
  method UnmapOne(drive: Drive, tdata: array<byte>, pos0: nat, length0: nat, max: nat)
    returns (rc: int, pos: nat, length: nat, ghost data: seq<byte>)
    requires tdata.Length == 512 && 0 < length0 && 0 < max < TWO32 && pos0 < U64
    modifies drive, tdata
    ensures drive.issued == if rc == 0 then old(drive.issued) + [data] else old(drive.issued)
    ensures drive.refused == if rc == 0 then old(drive.refused) else old(drive.refused) + 1
    ensures var n := if length0 < max then length0 else max;
            Unmaps(data, pos0, n) && CountOf(data) == n && length == length0 - n && (length > 0 ==> pos == pos0 + n)
  {
    var list;
    list, pos, length := MakeList(tdata, pos0, length0, max);
    data := list;
    rc := drive.Command(list);
  }

  /** CMD_TRIM: the commands issued tile the range; a count of zero stands for
      the rest of the drive. */
  method Trim(drive: Drive, start: nat, count: nat) returns (rc: int)
    requires 0 < drive.maxUnmapLBACount < TWO32
    requires start + (if count > 0 then count else (drive.lbaCount - start) % U64) <= U64
    modifies drive
    ensures old(drive.issued) <= drive.issued
    ensures if rc == 0 then drive.refused == old(drive.refused) else rc == -1 && drive.refused == old(drive.refused) + 1
    ensures rc == 0 ==>
            Tiles(drive.issued[|old(drive.issued)|..], start,
                  start + (if count > 0 then count else (drive.lbaCount - start) % U64), drive.maxUnmapLBACount)
  {
    var length: nat := if count == 0 then (drive.lbaCount - start) % U64 else count;
    rc := UnmapRange(drive, start, length, start + length);
  }

  method UnmapRange(drive: Drive, start: nat, total: nat, ghost end: nat) returns (rc: int)
    requires 0 < drive.maxUnmapLBACount < TWO32 && end == start + total <= U64
    modifies drive
    ensures old(drive.issued) <= drive.issued
    ensures if rc == 0 then drive.refused == old(drive.refused) else rc == -1 && drive.refused == old(drive.refused) + 1
    ensures rc == 0 ==> Tiles(drive.issued[|old(drive.issued)|..], start, end, drive.maxUnmapLBACount)
  {
    var tdata := new byte[512](_ => 0);
    var length, pos, max := total, start, drive.maxUnmapLBACount;
    ghost var was := drive.issued;
    ghost var cmds: seq<seq<byte>> := [];
    while length > 0
      invariant drive.issued == was + cmds && drive.refused == old(drive.refused) && fresh(tdata) && tdata.Length == 512
      invariant start <= end - length && (length > 0 ==> pos == end - length)
      invariant Tiles(cmds, start, end - length, max)
      decreases length
    {
      ghost var pos0, n := pos, if length < max then length else max;
      ghost var data;
      rc, pos, length, data := UnmapOne(drive, tdata, pos, length, max);
      if rc != 0 {
        return -1;
      }
      TilesMore(cmds, start, pos0, max, data, n);
      cmds := cmds + [data];
    }
    rc := 0;
    assert drive.issued[|was|..] == cmds;
  }
}
