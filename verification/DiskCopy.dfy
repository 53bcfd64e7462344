/**
 The two-pass copier of diskcopy.c.  A drive is an array of sectors; a read or
 a write may fail at any time, and fails outside the drive.  LBAs are 64-bit
 and chunk sizes 16-bit, with the wrap-around of the C types written out.
 */
module DiskCopy {
  import opened Bytes
  import opened BlockList

  type Sector = seq<byte>

  /** Drives are addressed with 48 bits at most. */
  const MAX_LBAS: nat := U48

  // -------------------------------------------------------------- what is asked

  /** wrkLBA when the loop of the first pass ends. */
  function LoopEnd(count: nat, start: nat, end: nat): (l: nat)
    requires count > 0
    ensures start <= l
  {
    if start + count < end then start + (end - start - 1) / count * count else start
  }

  function TailStart(count: nat, start: nat, end: nat): nat
    requires count > 0
  {
    (LoopEnd(count, start, end) - count) % U64
  }

  function TailCount(count: nat, start: nat, end: nat): nat
    requires count > 0
  {
    (end - TailStart(count, start, end)) % U64 % U16
  }

  /** The LBAs the first pass goes for: whole chunks, and the chunk for what
      remains, which goes back over the last whole one. */
  predicate Attempted(count: nat, start: nat, end: nat, x: nat)
    requires count > 0
  {
    || start <= x < LoopEnd(count, start, end)
    || TailStart(count, start, end) <= x < TailStart(count, start, end) + TailCount(count, start, end)
  }

  ghost predicate AttemptsRange(count: nat, start: nat, end: nat)
    requires count > 0
  {
    forall x: nat :: Attempted(count, start, end, x) <==> start <= x < end
  }

  /** At least one whole chunk, and a remainder whose size fits 16 bits. */
  predicate Fits(count: nat, start: nat, end: nat)
    requires count > 0
  {
    start + count < end && (end - start - 1) % count + 1 + count < U16
  }

  lemma TailLength(count: nat, start: nat, end: nat)
    requires count > 0 && start + count < end
    ensures start + count <= LoopEnd(count, start, end) < end
    ensures end - (LoopEnd(count, start, end) - count) == (end - start - 1) % count + 1 + count
  {
    var d := end - start - 1;
    var q := d / count;
    assert q * count == d - d % count;
    assert q >= 1;
    assert q * count >= count;
  }

  /** What remains of a range that fits ends where the range does. */
  lemma FittingTail(count: nat, start: nat, end: nat)
    requires 0 < count < U16 && end <= MAX_LBAS && Fits(count, start, end)
    ensures start + count <= LoopEnd(count, start, end) < end
    ensures TailStart(count, start, end) == LoopEnd(count, start, end) - count
    ensures TailStart(count, start, end) + TailCount(count, start, end) == end
  {
    var l := LoopEnd(count, start, end);
    TailLength(count, start, end);
    assert TailStart(count, start, end) == l - count;
    assert TailCount(count, start, end) == end - (l - count);
  }

  lemma AttemptedFits(count: nat, start: nat, end: nat)
    requires 0 < count < U16 && end <= MAX_LBAS && Fits(count, start, end)
    ensures AttemptsRange(count, start, end)
  {
    FittingTail(count, start, end);
  }

  /** A remainder that is cut to 16 bits does not reach the end. */
  lemma AttemptedCut(count: nat, start: nat, end: nat)
    requires 0 < count < U16 && start + count < end <= MAX_LBAS && !Fits(count, start, end)
    ensures !Attempted(count, start, end, end - 1)
  {
    var l := LoopEnd(count, start, end);
    TailLength(count, start, end);
    var t := l - count;
    assert TailStart(count, start, end) == t;
    Truncated(end - t);
    assert TailCount(count, start, end) == (end - t) % U16;
  }

  lemma Truncated(n: nat)
    requires U16 <= n < U64
    ensures n % U64 % U16 == n % U16 < n
  {
  }

  /** A range no longer than a chunk is taken to begin a chunk before its start. */
  lemma AttemptedShort(count: nat, start: nat, end: nat)
    requires 0 < count < U16 && start < end <= start + count && end <= MAX_LBAS
    ensures !AttemptsRange(count, start, end)
  {
    var t := TailStart(count, start, end);
    if TailCount(count, start, end) == 0 {
      assert !Attempted(count, start, end, start);
    } else {
      assert t == (start - count) % U64 && !(start <= t < end);
      assert Attempted(count, start, end, t);
    }
  }

  /** So the chunk before such a range is copied with it, where the disk has one. */
  lemma ChunkBefore(count: nat, start: nat, end: nat, x: nat)
    requires 0 < count <= start < end <= start + count && end - start + count < U16 && end <= MAX_LBAS
    ensures Attempted(count, start, end, x) <==> start - count <= x < end
    ensures TailStart(count, start, end) + TailCount(count, start, end) == end
  {
    assert TailStart(count, start, end) == start - count;
    assert TailCount(count, start, end) == end - start + count;
  }

  /** The first pass goes for exactly the range it was given if and only if the
      range is longer than a chunk and its remainder is not cut to 16 bits. */
  lemma ExactlyWhenFits(count: nat, start: nat, end: nat)
    requires 0 < count < U16 && start < end <= MAX_LBAS
    ensures (forall x: nat :: Attempted(count, start, end, x) <==> start <= x < end) <==>
            start + count < end && (end - start - 1) % count + 1 + count < U16
  {
    if Fits(count, start, end) {
      AttemptedFits(count, start, end);
    } else if start + count < end {
      AttemptedCut(count, start, end);
    } else {
      AttemptedShort(count, start, end);
    }
  }

  // -------------------------------------------------------------------- drives

  /** What went wrong outside: the reads that failed, in order, and how many
      writes did. */
  class Faults {
    var unread: seq<Range>
    var unwritten: nat

    constructor ()
      ensures unread == [] && unwritten == 0
    {
      unread, unwritten := [], 0;
    }
  }

  method ReadLBA(drive: array<Sector>, lba: nat, count: nat, faults: Faults) returns (rc: int, buff: seq<Sector>)
    modifies faults`unread
    ensures faults.unread == if rc == 0 then old(faults.unread) else old(faults.unread) + [Range(lba, count)]
    ensures rc == 0 ==> lba + count <= drive.Length && buff == drive[lba..lba + count]
    ensures lba + count > drive.Length ==> rc != 0
  {
    buff := [];
    rc := *;
    if lba + count > drive.Length {
      rc := -1;
    }
    if rc == 0 {
      buff := drive[lba..lba + count];
    } else {
      faults.unread := faults.unread + [Range(lba, count)];
    }
  }

  /** A write that fails may have left anything in the sectors it was for. */
  method WriteLBA(drive: array<Sector>, lba: nat, buff: seq<Sector>, faults: Faults) returns (rc: int)
    modifies drive, faults`unwritten
    ensures faults.unwritten == if rc == 0 then old(faults.unwritten) else old(faults.unwritten) + 1
    ensures forall x :: 0 <= x < drive.Length && !(lba <= x < lba + |buff|) ==> drive[x] == old(drive[x])
    ensures rc == 0 ==> lba + |buff| <= drive.Length && drive[lba..lba + |buff|] == buff
  {
    rc := *;
    if lba + |buff| > drive.Length {
      rc := -1;
    }
    var k := 0;
    while k < |buff| && lba + k < drive.Length
      invariant faults.unwritten == old(faults.unwritten)
      invariant k <= |buff| && (rc == 0 ==> lba + |buff| <= drive.Length)
      invariant forall x :: 0 <= x < drive.Length && !(lba <= x < lba + |buff|) ==> drive[x] == old(drive[x])
      invariant rc == 0 ==> forall j :: 0 <= j < k ==> drive[lba + j] == buff[j]
    {
      var garbage: Sector := *;
      drive[lba + k] := if rc == 0 then buff[k] else garbage;
      k := k + 1;
    }
    if rc != 0 {
      faults.unwritten := faults.unwritten + 1;
    }
  }

  ghost predicate Same(source: array<Sector>, target: array<Sector>, x: nat)
    reads source, target
  {
    x < source.Length && x < target.Length && target[x] == source[x]
  }

  /** Either copied or on the list. */
  ghost predicate Settled(source: array<Sector>, target: array<Sector>, ranges: seq<Range>, x: nat)
    reads source, target
  {
    Same(source, target, x) || Listed(ranges, x)
  }

  datatype Outcome = Copied | Skipped | Broken

  /** The COPY macro: Skipped is its `continue`, Broken its `break`.  `prior` is
      what had failed to be read before the list was begun. */
  method Copy(source: array<Sector>, target: array<Sector>, lba: nat, count: nat, list: List, faults: Faults,
              ghost prior: seq<Range>)
    returns (r: Outcome)
    requires source != target && list.Valid() && faults.unread == prior + list.Ranges()
    modifies target, list, list.nodes, faults
    ensures faults.unread == prior + list.Ranges()
    ensures faults.unwritten == if r == Broken then old(faults.unwritten) + 1 else old(faults.unwritten)
    ensures list.Valid() && fresh(set n | n in list.nodes && n !in old(list.nodes))
    ensures list.Ranges() == if r == Skipped then old(list.Ranges()) + [Range(lba, count)] else old(list.Ranges())
    ensures forall x :: 0 <= x < target.Length && !(lba <= x < lba + count) ==> target[x] == old(target[x])
    ensures r == Skipped ==> target[..] == old(target[..])
    ensures lba + count > source.Length ==> r == Skipped
    ensures r == Copied ==> forall x :: lba <= x < lba + count ==> Same(source, target, x)
  {
    var rc, buff := ReadLBA(source, lba, count, faults);
    if rc != 0 {
      assert prior + old(list.Ranges()) + [Range(lba, count)] == prior + (old(list.Ranges()) + [Range(lba, count)]);
      list.Add(Range(lba, count));
      return Skipped;
    }
    rc := WriteLBA(target, lba, buff, faults);
    if rc != 0 {
      return Broken;
    }
    r := Copied;
    forall x | lba <= x < lba + count ensures Same(source, target, x) {
      assert target[lba..lba + count][x - lba] == buff[x - lba];
    }
  }

  // ------------------------------------------------------------------ pass one

  /** Where chunk k starts. */
  function Grid(count: nat, start: nat, k: nat): (l: nat)
    ensures l >= start
  {
    if k == 0 then start else Grid(count, start, k - 1) + count
  }

  lemma {:induction false} GridIs(count: nat, start: nat, k: nat)
    ensures Grid(count, start, k) == start + k * count
  {
    if k > 0 {
      GridIs(count, start, k - 1);
      assert k * count == (k - 1) * count + count;
    }
  }

  /** As many whole chunks as fit below d, and no more. */
  lemma ChunksBelow(count: nat, k: nat, q: int, d: nat, r: nat)
    requires count > 0 && d == q * count + r && r < count
    ensures k * count <= d - count ==> k * count + count <= q * count
    ensures d - count < k * count <= d ==> k * count == q * count
  {
    var x := k - q;
    assert x * count == k * count - q * count;
    if x >= 1 { assert x * count >= count; }
    if x <= -1 { assert x * count + count <= 0; }
  }

  lemma ChunksReach(count: nat, start: nat, end: nat, k: nat, at: nat)
    requires count > 0 && start + count < end && at == Grid(count, start, k)
    ensures at + count < end ==> at + count <= LoopEnd(count, start, end)
    ensures at < end <= at + count ==> at == LoopEnd(count, start, end)
  {
    var d: nat := end - start - 1;
    var q, r: nat := d / count, d % count;
    GridIs(count, start, k);
    assert d == q * count + r;
    ChunksBelow(count, k, q, d, r);
  }

  lemma ListedMore(ranges: seq<Range>, r: Range, x: nat)
    ensures Listed(ranges + [r], x) <==> Listed(ranges, x) || InRange(r, x)
  {
    var all := ranges + [r];
    assert all[|ranges|] == r;
    if Listed(ranges, x) {
      var k :| 0 <= k < |ranges| && InRange(ranges[k], x);
      assert InRange(all[k], x);
    }
    if InRange(r, x) { assert InRange(all[|ranges|], x); }
    if Listed(all, x) && !InRange(r, x) {
      var k :| 0 <= k < |all| && InRange(all[k], x);
      assert InRange(ranges[k], x);
    }
  }

  /** Every range of the list lies in [lo, hi). */
  ghost predicate Within(ranges: seq<Range>, lo: nat, hi: nat) {
    forall k :: 0 <= k < |ranges| ==>
        lo <= ranges[k].lba && ranges[k].lba + ranges[k].count <= hi && ranges[k].count < U16
  }

  ghost predicate AllSettled(source: array<Sector>, target: array<Sector>, ranges: seq<Range>, lo: nat, hi: nat)
    reads source, target
  {
    forall x :: lo <= x < hi ==> Settled(source, target, ranges, x)
  }

  /** One chunk more: everything from `lo` on has been tried. */
  method NextChunk(source: array<Sector>, target: array<Sector>, lo: nat, lba: nat, count: nat, missed: List,
                   faults: Faults, ghost prior: seq<Range>)
    returns (r: Outcome)
    requires source != target && missed.Valid() && lo <= lba && count < U16 && faults.unread == prior + missed.Ranges()
    requires AllSettled(source, target, missed.Ranges(), lo, lba) && Within(missed.Ranges(), lo, lba)
    modifies target, missed, missed.nodes, faults
    ensures faults.unread == prior + missed.Ranges()
    ensures faults.unwritten == if r == Broken then old(faults.unwritten) + 1 else old(faults.unwritten)
    ensures missed.Valid() && fresh(set n | n in missed.nodes && n !in old(missed.nodes))
    ensures Within(missed.Ranges(), lo, lba + count)
    ensures r != Broken ==> AllSettled(source, target, missed.Ranges(), lo, lba + count)
    ensures forall x :: 0 <= x < target.Length && !(lba <= x < lba + count) ==> target[x] == old(target[x])
  {
    ghost var ranges := missed.Ranges();
    r := Copy(source, target, lba, count, missed, faults, prior);
    if r != Broken {
      forall x | lo <= x < lba + count ensures Settled(source, target, missed.Ranges(), x) {
        ListedMore(ranges, Range(lba, count), x);
        assert x < lba ==> old(Settled(source, target, ranges, x));
      }
    }
  }

  lemma WithinWider(ranges: seq<Range>, lo: nat, hi: nat, more: nat)
    requires Within(ranges, lo, hi) && hi <= more
    ensures Within(ranges, lo, more)
  {
  }

  /** Where the loop is after k chunks, and where it ends. */
  ghost predicate Reaches(count: nat, start: nat, end: nat, last: nat, k: nat) {
    var at := Grid(count, start, k);
    && (at + count < end ==> at + count <= last)
    && (at < end <= at + count ==> at == last)
  }

  ghost predicate EndsAt(count: nat, start: nat, end: nat, last: nat) {
    && start <= last
    && if start + count < end then forall k: nat :: Reaches(count, start, end, last, k) else last == start
  }

  lemma LoopEndsAt(count: nat, start: nat, end: nat)
    requires count > 0
    ensures EndsAt(count, start, end, LoopEnd(count, start, end))
  {
    if start + count < end {
      forall k: nat ensures Reaches(count, start, end, LoopEnd(count, start, end), k) {
        ChunksReach(count, start, end, k, Grid(count, start, k));
      }
    }
  }

  method WholeChunks(source: array<Sector>, target: array<Sector>, count: nat, start: nat, end: nat, missed: List,
                     faults: Faults, ghost last: nat)
    returns (rc: int, wrkLBA: nat)
    requires 0 < count < U16 && start < U64 / 2 && end <= MAX_LBAS && EndsAt(count, start, end, last)
    requires source != target && missed.Valid() && missed.nodes == []
    modifies target, missed, faults
    ensures faults.unread == old(faults.unread) + missed.Ranges()
    ensures if rc == 0 then faults.unwritten == old(faults.unwritten)
            else rc == 1 && faults.unwritten == old(faults.unwritten) + 1
    ensures missed.Valid() && fresh(set n | n in missed.nodes)
    ensures Within(missed.Ranges(), start, last)
    ensures forall x :: 0 <= x < target.Length && !(start <= x < last) ==> target[x] == old(target[x])
    ensures rc == 0 ==> wrkLBA == last && AllSettled(source, target, missed.Ranges(), start, wrkLBA)
    ensures start + count >= end ==> rc == 0 && missed.Ranges() == [] && target[..] == old(target[..])
  {
    rc, wrkLBA := 0, start;
    ghost var k: nat := 0;
    while (wrkLBA + count) % U64 < end
      invariant faults.unread == old(faults.unread) + missed.Ranges() && faults.unwritten == old(faults.unwritten)
      invariant rc == 0 && wrkLBA == Grid(count, start, k) <= last && (k > 0 ==> wrkLBA < end && start + count < end)
      invariant k == 0 ==> wrkLBA == start && missed.Ranges() == [] && target[..] == old(target[..])
      invariant missed.Valid() && fresh(set n | n in missed.nodes) && Within(missed.Ranges(), start, wrkLBA)
      invariant forall x :: 0 <= x < target.Length && !(start <= x < wrkLBA) ==> target[x] == old(target[x])
      invariant AllSettled(source, target, missed.Ranges(), start, wrkLBA)
      decreases end - wrkLBA
    {
      assert Reaches(count, start, end, last, k);
      var r := NextChunk(source, target, start, wrkLBA, count, missed, faults, old(faults.unread));
      WithinWider(missed.Ranges(), start, wrkLBA + count, last);
      if r == Broken {
        rc := 1;
        return;
      }
      wrkLBA := wrkLBA + count;
      k := k + 1;
    }
    assert k > 0 ==> Reaches(count, start, end, last, k);
  }

  // ------------------------------------------------------------------ pass two

  /** Every range is a single LBA. */
  ghost predicate Singles(ranges: seq<Range>) {
    forall k :: 0 <= k < |ranges| ==> ranges[k].count == 1
  }

  /** One LBA of a range that was missed. */
  method RetryOne(source: array<Sector>, target: array<Sector>, lba: nat, wrkLBA: nat, failed: List, faults: Faults,
                  ghost prior: seq<Range>)
    returns (r: Outcome)
    requires faults.unread == prior + failed.Ranges()
    requires source != target && failed.Valid() && Singles(failed.Ranges()) && lba <= wrkLBA
    requires AllSettled(source, target, failed.Ranges(), lba, wrkLBA)
    modifies target, failed, failed.nodes, faults
    ensures faults.unread == prior + failed.Ranges()
    ensures faults.unwritten == if r == Broken then old(faults.unwritten) + 1 else old(faults.unwritten)
    ensures failed.Valid() && fresh(set n | n in failed.nodes && n !in old(failed.nodes))
    ensures Singles(failed.Ranges()) && old(failed.Ranges()) <= failed.Ranges()
    ensures forall x :: 0 <= x < target.Length && x != wrkLBA ==> target[x] == old(target[x])
    ensures failed.Ranges() == old(failed.Ranges()) || failed.Ranges() == old(failed.Ranges()) + [Range(wrkLBA, 1)]
    ensures r == Broken ==> failed.Ranges() == old(failed.Ranges())
    ensures r != Broken ==> AllSettled(source, target, failed.Ranges(), lba, wrkLBA + 1)
    ensures r != Broken ==> forall x: nat :: old(Same(source, target, x)) ==> Same(source, target, x)
  {
    ghost var ranges := failed.Ranges();
    r := Copy(source, target, wrkLBA, 1, failed, faults, prior);
    if r != Broken {
      forall x | lba <= x < wrkLBA + 1 ensures Settled(source, target, failed.Ranges(), x) {
        ListedMore(ranges, Range(wrkLBA, 1), x);
        assert x < wrkLBA ==> old(Settled(source, target, ranges, x));
      }
    }
  }

  /** What a list has gained lies in r. */
  ghost predicate GainedIn(was: seq<Range>, now: seq<Range>, r: Range) {
    forall j :: |was| <= j < |now| ==> InRange(r, now[j].lba)
  }

  /** Only LBAs of these ranges are on the list. */
  ghost predicate OnlyFrom(ranges: seq<Range>, all: seq<Range>) {
    forall j :: 0 <= j < |ranges| ==> Listed(all, ranges[j].lba)
  }

  method RetryRange(source: array<Sector>, target: array<Sector>, r: Range, failed: List, faults: Faults,
                    ghost prior: seq<Range>)
    returns (broken: bool)
    requires faults.unread == prior + failed.Ranges()
    requires source != target && failed.Valid() && Singles(failed.Ranges()) && r.lba < U64 && r.count < U16
    modifies target, failed, failed.nodes, faults
    ensures faults.unread == prior + failed.Ranges()
    ensures faults.unwritten == if broken then old(faults.unwritten) + 1 else old(faults.unwritten)
    ensures failed.Valid() && fresh(set n | n in failed.nodes && n !in old(failed.nodes))
    ensures Singles(failed.Ranges()) && old(failed.Ranges()) <= failed.Ranges()
            && GainedIn(old(failed.Ranges()), failed.Ranges(), r)
    ensures forall x :: 0 <= x < target.Length && !InRange(r, x) ==> target[x] == old(target[x])
    ensures !broken && r.lba + r.count < U64 ==> AllSettled(source, target, failed.Ranges(), r.lba, r.lba + r.count)
    ensures !broken ==> forall x: nat :: old(Same(source, target, x)) ==> Same(source, target, x)
    ensures r.lba + r.count >= U64 ==>
            !broken && failed.Ranges() == old(failed.Ranges()) && target[..] == old(target[..])
  {
    var wrkLBA := r.lba;
    var bound := (r.lba + r.count) % U64;
    broken := false;
    assert if r.lba + r.count < U64 then bound == r.lba + r.count else bound < r.lba;
    while wrkLBA < bound
      invariant faults.unread == prior + failed.Ranges() && faults.unwritten == old(faults.unwritten)
      invariant r.lba <= wrkLBA && (r.lba + r.count < U64 ==> wrkLBA <= r.lba + r.count)
      invariant failed.Valid() && fresh(set n | n in failed.nodes && n !in old(failed.nodes))
      invariant Singles(failed.Ranges()) && old(failed.Ranges()) <= failed.Ranges()
                && GainedIn(old(failed.Ranges()), failed.Ranges(), r)
      invariant forall x :: 0 <= x < target.Length && !InRange(r, x) ==> target[x] == old(target[x])
      invariant AllSettled(source, target, failed.Ranges(), r.lba, wrkLBA)
      invariant forall x: nat :: old(Same(source, target, x)) ==> Same(source, target, x)
      invariant bound < r.lba ==>
                wrkLBA == r.lba && failed.Ranges() == old(failed.Ranges()) && target[..] == old(target[..])
    {
      var o := RetryOne(source, target, r.lba, wrkLBA, failed, faults, prior);
      if o == Broken {
        broken := true;
        break;
      }
      wrkLBA := wrkLBA + 1;
    }
  }

  /** A range settled so far stays settled. */
  ghost predicate RangeSettled(source: array<Sector>, target: array<Sector>, ranges: seq<Range>, r: Range)
    reads source, target
  {
    r.lba + r.count < U64 ==> AllSettled(source, target, ranges, r.lba, r.lba + r.count)
  }

  ghost predicate SettledUpTo(source: array<Sector>, target: array<Sector>, ranges: seq<Range>, all: seq<Range>, k: nat)
    reads source, target
  {
    forall j :: 0 <= j < k && j < |all| ==> RangeSettled(source, target, ranges, all[j])
  }

  /** The first k ranges stay settled while range k is. */
  method RetryNext(source: array<Sector>, target: array<Sector>, ghost all: seq<Range>, ghost k: nat, r: Range,
                   failed: List,
                   faults: Faults, ghost prior: seq<Range>)
    returns (broken: bool)
    requires faults.unread == prior + failed.Ranges()
    requires source != target && failed.Valid() && Singles(failed.Ranges()) && r.lba < U64 && r.count < U16
    requires k < |all| && all[k] == r && OnlyFrom(failed.Ranges(), all)
    modifies target, failed, failed.nodes, faults
    ensures faults.unread == prior + failed.Ranges()
    ensures faults.unwritten == if broken then old(faults.unwritten) + 1 else old(faults.unwritten)
    ensures failed.Valid() && fresh(set n | n in failed.nodes && n !in old(failed.nodes)) && Singles(failed.Ranges())
    ensures OnlyFrom(failed.Ranges(), all)
    ensures forall x :: 0 <= x < target.Length && !Listed(all, x) ==> target[x] == old(target[x])
    ensures !broken && old(SettledUpTo(source, target, failed.Ranges(), all, k)) ==>
            SettledUpTo(source, target, failed.Ranges(), all, k + 1)
    ensures !broken ==> forall x: nat :: old(Same(source, target, x)) ==> Same(source, target, x)
    ensures r.lba + r.count >= U64 ==>
            !broken && failed.Ranges() == old(failed.Ranges()) && target[..] == old(target[..])
  {
    ghost var was := failed.Ranges();
    broken := RetryRange(source, target, r, failed, faults, prior);
    forall j | 0 <= j < |failed.Ranges()| ensures Listed(all, failed.Ranges()[j].lba) {
      if j >= |was| { assert InRange(all[k], failed.Ranges()[j].lba); }
    }
    if !broken && old(SettledUpTo(source, target, was, all, k)) {
      forall j | 0 <= j < k ensures RangeSettled(source, target, failed.Ranges(), all[j]) {
        assert old(RangeSettled(source, target, was, all[j]));
        forall x | InRange(all[j], x) && all[j].lba + all[j].count < U64
          ensures Settled(source, target, failed.Ranges(), x)
        {
          assert old(Settled(source, target, was, x));
          if Listed(was, x) {
            var l :| 0 <= l < |was| && InRange(was[l], x);
            assert InRange(failed.Ranges()[l], x);
          }
        }
      }
    }
    forall x | 0 <= x < target.Length && !Listed(all, x) ensures target[x] == old(target[x]) {
      assert !InRange(all[k], x);
    }
  }

  ghost predicate NoneWraps(all: seq<Range>) {
    forall j :: 0 <= j < |all| ==> all[j].lba + all[j].count < U64
  }

  ghost predicate AllWrap(all: seq<Range>) {
    forall j :: 0 <= j < |all| ==> all[j].lba + all[j].count >= U64
  }

  /** The ranges that were missed, one LBA at a time.  A write error ends only
      the range it is in, but it stays the result. */
  method Retry(source: array<Sector>, target: array<Sector>, missed: List, failed: List, faults: Faults)
    returns (rc: int)
    requires source != target && missed != failed && missed.Valid() && failed.Valid() && failed.nodes == []
    requires forall k :: 0 <= k < |missed.Ranges()| ==> missed.Ranges()[k].lba < U64 && missed.Ranges()[k].count < U16
    modifies target, failed, faults
    ensures faults.unread == old(faults.unread) + failed.Ranges()
    ensures if rc == 0 then faults.unwritten == old(faults.unwritten)
            else rc == 1 && faults.unwritten > old(faults.unwritten)
    ensures failed.Valid() && fresh(set n | n in failed.nodes) && Singles(failed.Ranges())
            && OnlyFrom(failed.Ranges(), old(missed.Ranges()))
    ensures forall x :: 0 <= x < target.Length && !Listed(old(missed.Ranges()), x) ==> target[x] == old(target[x])
    ensures rc == 0 ==> forall x: nat :: old(Same(source, target, x)) ==> Same(source, target, x)
    ensures rc == 0 ==> SettledUpTo(source, target, failed.Ranges(), old(missed.Ranges()), |old(missed.Ranges())|)
    ensures AllWrap(old(missed.Ranges())) ==> rc == 0 && failed.Ranges() == [] && target[..] == old(target[..])
  {
    ghost var all := missed.Ranges();
    ghost var nodes := missed.nodes;
    rc := 0;
    var iter := missed.head;
    ghost var k: nat := 0;
    while iter != null
      invariant faults.unread == old(faults.unread) + failed.Ranges()
      invariant if rc == 0 then faults.unwritten == old(faults.unwritten)
                else rc == 1 && faults.unwritten > old(faults.unwritten)
      invariant k <= |nodes| && missed.nodes == nodes && missed.Valid() && iter == missed.At(k)
                && missed.Ranges() == all
      invariant failed.Valid() && fresh(set n | n in failed.nodes) && Singles(failed.Ranges())
                && OnlyFrom(failed.Ranges(), all)
      invariant forall x :: 0 <= x < target.Length && !Listed(all, x) ==> target[x] == old(target[x])
      invariant rc == 0 ==> forall x: nat :: old(Same(source, target, x)) ==> Same(source, target, x)
      invariant rc == 0 ==> SettledUpTo(source, target, failed.Ranges(), all, k)
      invariant AllWrap(all) ==> rc == 0 && failed.Ranges() == [] && target[..] == old(target[..])
      decreases |nodes| - k
    {
      assert iter.range == all[k];
      var broken := RetryNext(source, target, all, k, iter.range, failed, faults, old(faults.unread));
      if broken {
        rc := 1;
      }
      iter := iter.next;
      k := k + 1;
    }
  }

  // -------------------------------------------------------------------- the copy

  function Ones(lbas: seq<nat>): seq<Range> {
    seq(|lbas|, k requires 0 <= k < |lbas| => Range(lbas[k], 1))
  }

  /** The report of the LBAs that did not copy. */
  method Report(failed: List) returns (lbas: seq<nat>)
    requires failed.Valid() && Singles(failed.Ranges())
    ensures failed.Ranges() == Ones(lbas)
    ensures forall x: nat :: x in lbas <==> Listed(failed.Ranges(), x)
  {
    lbas := [];
    var iter := failed.head;
    ghost var k: nat := 0;
    while iter != null
      invariant k <= |failed.nodes| && iter == failed.At(k)
      invariant |lbas| == k && forall j :: 0 <= j < k ==> lbas[j] == failed.Ranges()[j].lba
      decreases |failed.nodes| - k
    {
      lbas := lbas + [iter.range.lba];
      iter := iter.next;
      k := k + 1;
    }
    forall x: nat ensures x in lbas <==> Listed(failed.Ranges(), x) {
      if x in lbas {
        var j :| 0 <= j < |lbas| && lbas[j] == x;
        assert InRange(failed.Ranges()[j], x);
      }
      if Listed(failed.Ranges(), x) {
        var j :| 0 <= j < |failed.Ranges()| && InRange(failed.Ranges()[j], x);
        assert lbas[j] == x;
      }
    }
  }

  /** Copied, or reported. */
  ghost predicate Accounted(source: array<Sector>, target: array<Sector>, lbas: seq<nat>, x: nat)
    reads source, target
  {
    Same(source, target, x) || x in lbas
  }

  /** The plan of the first pass in numbers: up to `last` in whole chunks, and
      `cnt` LBAs from `tail` on. */
  ghost predicate Planned(count: nat, start: nat, end: nat, last: nat, tail: nat, cnt: nat)
    requires count > 0
  {
    last == LoopEnd(count, start, end) && tail == TailStart(count, start, end) && cnt == TailCount(count, start, end)
  }

  /** The first pass, and what it lists as missed. */
  method PassOne(source: array<Sector>, target: array<Sector>, count: nat, start: nat, end: nat, missed: List,
                 faults: Faults, ghost last: nat, ghost tail: nat, ghost cnt: nat)
    returns (rc: int)
    requires 0 < count < U16 && start < U64 / 2 && end <= MAX_LBAS && EndsAt(count, start, end, last)
    requires tail == (last - count) % U64 && cnt == (end - tail) % U64 % U16
    requires source != target && missed.Valid() && missed.nodes == []
    modifies target, missed, faults
    ensures faults.unread == old(faults.unread) + missed.Ranges()
    ensures if rc == 0 then faults.unwritten == old(faults.unwritten)
            else rc == 1 && faults.unwritten == old(faults.unwritten) + 1
    ensures missed.Valid() && fresh(set n | n in missed.nodes)
    ensures forall x :: 0 <= x < target.Length && !(start <= x < last) && !(tail <= x < tail + cnt) ==>
            target[x] == old(target[x])
    ensures rc == 0 ==> AllSettled(source, target, missed.Ranges(), start, last)
    ensures rc == 0 ==> AllSettled(source, target, missed.Ranges(), tail, tail + cnt)
    ensures forall k :: 0 <= k < |missed.Ranges()| ==> PlannedRange(missed.Ranges()[k], start, last, tail, cnt)
    ensures start + count >= end && tail + cnt > source.Length ==>
              rc == 0 && missed.Ranges() == [Range(tail, cnt)] && target[..] == old(target[..])
  {
    var wrkLBA;
    rc, wrkLBA := WholeChunks(source, target, count, start, end, missed, faults, last);
    if rc != 0 {
      return;
    }
    wrkLBA := (wrkLBA - count) % U64;
    var n := (end - wrkLBA) % U64 % U16;
    ghost var ranges := missed.Ranges();
    label before:
    var r := Copy(source, target, wrkLBA, n, missed, faults, old(faults.unread));
    if r == Broken {
      rc := 1;
      return;
    }
    forall x: nat
      ensures Listed(missed.Ranges(), x) <==> Listed(ranges, x) || (r == Skipped && tail <= x < tail + cnt)
    {
      ListedMore(ranges, Range(tail, cnt), x);
    }
    forall x | start <= x < last ensures Settled(source, target, missed.Ranges(), x) {
      assert old@before(Settled(source, target, ranges, x));
    }
  }

  ghost predicate PlannedRange(r: Range, start: nat, last: nat, tail: nat, cnt: nat) {
    (start <= r.lba && r.lba + r.count <= last && r.count < U16) || r == Range(tail, cnt)
  }

  lemma PlanSizes(count: nat, start: nat, end: nat, last: nat, tail: nat, cnt: nat)
    requires 0 < count < U16 && start < U64 / 2 && end <= MAX_LBAS && Planned(count, start, end, last, tail, cnt)
    ensures EndsAt(count, start, end, last) && tail == (last - count) % U64 && cnt == (end - tail) % U64 % U16
    ensures cnt < U16 && tail < U64 && last < U64
  {
    LoopEndsAt(count, start, end);
    if start + count < end { TailLength(count, start, end); }
  }

  lemma PlanFits(count: nat, start: nat, end: nat, last: nat, tail: nat, cnt: nat)
    requires 0 < count < U16 && start < U64 / 2 && end <= MAX_LBAS && Planned(count, start, end, last, tail, cnt)
    requires Fits(count, start, end)
    ensures start <= tail && tail + cnt == end && last < end && tail <= last
  {
    FittingTail(count, start, end);
  }

  lemma PlanWraps(count: nat, start: nat, end: nat, last: nat, tail: nat, cnt: nat)
    requires 0 < count < U16 && Planned(count, start, end, last, tail, cnt)
    requires start < count && end <= start + count && end + count - start < U16
    ensures tail + cnt == U64 + end && start + count >= end
  {
    assert last == start && tail == U64 + start - count;
    assert end - tail == (end + count - start) - U64;
  }

  /** All that was missed is settled, so all that was attempted is accounted for. */
  lemma AllAccounted(source: array<Sector>, target: array<Sector>, missed: seq<Range>, failed: seq<Range>,
                     lbas: seq<nat>, x: nat)
    requires SettledUpTo(source, target, failed, missed, |missed|)
    requires NoneWraps(missed)
    requires Same(source, target, x) || Listed(missed, x)
    requires forall y: nat :: y in lbas <==> Listed(failed, y)
    ensures Accounted(source, target, lbas, x)
  {
    if Listed(missed, x) {
      var k :| 0 <= k < |missed| && InRange(missed[k], x);
      assert RangeSettled(source, target, failed, missed[k]);
      assert Settled(source, target, failed, x);
    }
  }

  /** The second pass, if the first one missed anything, and its report. */
  method PassTwo(source: array<Sector>, target: array<Sector>, missed: List, faults: Faults)
    returns (rc: int, lbas: seq<nat>)
    requires source != target && missed.Valid()
    requires forall k :: 0 <= k < |missed.Ranges()| ==> missed.Ranges()[k].lba < U64 && missed.Ranges()[k].count < U16
    modifies target, missed, faults
    ensures if rc == 0 then faults.unwritten == old(faults.unwritten)
            else rc == 1 && faults.unwritten > old(faults.unwritten)
    ensures rc == 0 ==> faults.unread == old(faults.unread) + Ones(lbas)
    ensures forall x :: x in lbas ==> Listed(old(missed.Ranges()), x)
    ensures forall x :: 0 <= x < target.Length && !Listed(old(missed.Ranges()), x) ==> target[x] == old(target[x])
    ensures rc == 0 && NoneWraps(old(missed.Ranges())) ==>
              forall x: nat :: old(Settled(source, target, missed.Ranges(), x)) ==> Accounted(source, target, lbas, x)
    ensures AllWrap(old(missed.Ranges())) ==> rc == 0 && lbas == [] && target[..] == old(target[..])
  {
    rc, lbas := 0, [];
    if missed.head == null {
      assert missed.Ranges() == [];
      assert Ones(lbas) == [];
      return;
    }
    ghost var ranges := missed.Ranges();
    var failed := new List();
    rc := Retry(source, target, missed, failed, faults);
    if rc == 0 {
      lbas := Report(failed);
      forall x | x in lbas ensures Listed(ranges, x) {
        var j :| 0 <= j < |lbas| && lbas[j] == x;
        assert failed.Ranges()[j].lba == x;
      }
      if NoneWraps(ranges) {
        forall x: nat | old(Settled(source, target, missed.Ranges(), x)) ensures Accounted(source, target, lbas, x) {
          AllAccounted(source, target, ranges, failed.Ranges(), lbas, x);
        }
      }
    }
    missed.Clean();
    failed.Clean();
  }

  /** doCopy().  main() has cut `end` to the smaller of the two drives, and the
      starting LBA it reads is not negative.  If the range fits, a result of
      zero means that every LBA of it is equal on both drives or reported, and
      nothing outside the range is written, whichever reads and writes fail.
      For any range at all whose plan does not run past 2^64 it means so of what
      the plan attempts, and that may begin a chunk before the range (see
      ChunkBefore); a plan that does run past it copies nothing.
      The result is an error exactly if a write failed; reported are exactly
      the LBAs whose own read failed after the first pass, and all of them lie
      in chunks that could not be read in it. */
  method DoCopy(source: array<Sector>, target: array<Sector>, count: nat, start: nat, end: nat, faults: Faults)
    returns (rc: int, lbas: seq<nat>, ghost missed: seq<Range>)
    requires source != target && 0 < count < U16 && start < U64 / 2
    requires end <= source.Length <= MAX_LBAS && end <= target.Length <= MAX_LBAS
    modifies target, faults
    ensures if rc == 0 then faults.unwritten == old(faults.unwritten)
            else rc == 1 && faults.unwritten > old(faults.unwritten)
    ensures rc == 0 ==> faults.unread == old(faults.unread) + missed + Ones(lbas)
    ensures forall x :: x in lbas ==> Listed(missed, x) && Attempted(count, start, end, x)
    ensures forall x :: 0 <= x < target.Length && !Attempted(count, start, end, x) ==> target[x] == old(target[x])
    ensures rc == 0 && TailStart(count, start, end) + TailCount(count, start, end) < U64 ==>
              forall x: nat :: Attempted(count, start, end, x) ==> Accounted(source, target, lbas, x)
    ensures start + count < end && (end - start - 1) % count + 1 + count < U16 && rc == 0 ==>
              forall x: nat :: start <= x < end ==> Accounted(source, target, lbas, x)
    ensures start + count < end && (end - start - 1) % count + 1 + count < U16 ==>
              forall x :: 0 <= x < target.Length && !(start <= x < end) ==> target[x] == old(target[x])
    ensures start < count && end <= start + count && end + count - start < U16 ==>
              rc == 0 && lbas == [] && target[..] == old(target[..])
  {
    ghost var last, tail, cnt := LoopEnd(count, start, end), TailStart(count, start, end), TailCount(count, start, end);
    PlanSizes(count, start, end, last, tail, cnt);
    if Fits(count, start, end) { PlanFits(count, start, end, last, tail, cnt); }
    if start < count && end <= start + count && end + count - start < U16 {
      PlanWraps(count, start, end, last, tail, cnt);
    }
    rc, lbas, missed := CopyAsPlanned(source, target, count, start, end, faults, last, tail, cnt);
  }

  method CopyAsPlanned(source: array<Sector>, target: array<Sector>, count: nat, start: nat, end: nat, faults: Faults,
                       ghost last: nat, ghost tail: nat, ghost cnt: nat)
    returns (rc: int, lbas: seq<nat>, ghost ranges: seq<Range>)
    requires source != target && 0 < count < U16 && start < U64 / 2 && EndsAt(count, start, end, last)
    requires tail == (last - count) % U64 && cnt == (end - tail) % U64 % U16 && cnt < U16 && tail < U64 && last < U64
    requires end <= source.Length <= MAX_LBAS && end <= target.Length <= MAX_LBAS
    modifies target, faults
    ensures if rc == 0 then faults.unwritten == old(faults.unwritten)
            else rc == 1 && faults.unwritten > old(faults.unwritten)
    ensures rc == 0 ==> faults.unread == old(faults.unread) + ranges + Ones(lbas)
    ensures forall x :: x in lbas ==> Listed(ranges, x) && (start <= x < last || tail <= x < tail + cnt)
    ensures forall x :: 0 <= x < target.Length && !(start <= x < last) && !(tail <= x < tail + cnt) ==>
            target[x] == old(target[x])
    ensures rc == 0 && tail + cnt < U64 ==>
              forall x: nat :: start <= x < last || tail <= x < tail + cnt ==> Accounted(source, target, lbas, x)
    ensures start + count >= end && tail + cnt >= U64 ==> rc == 0 && lbas == [] && target[..] == old(target[..])
  {
    lbas := [];
    var missed := new List();
    rc := PassOne(source, target, count, start, end, missed, faults, last, tail, cnt);
    ranges := missed.Ranges();
    if rc != 0 {
      missed.Clean();
      return;
    }
    label passed:
    forall k | 0 <= k < |ranges| ensures ranges[k].lba < U64 && ranges[k].count < U16 {
      assert PlannedRange(ranges[k], start, last, tail, cnt);
    }
    forall x: nat | Listed(ranges, x) ensures start <= x < last || tail <= x < tail + cnt {
      var k :| 0 <= k < |ranges| && InRange(ranges[k], x);
      assert PlannedRange(ranges[k], start, last, tail, cnt);
    }
    rc, lbas := PassTwo(source, target, missed, faults);
    if rc == 0 && tail + cnt < U64 {
      assert NoneWraps(ranges) by {
        forall k | 0 <= k < |ranges| ensures ranges[k].lba + ranges[k].count < U64 {
          assert PlannedRange(ranges[k], start, last, tail, cnt);
        }
      }
      forall x: nat | start <= x < last || tail <= x < tail + cnt ensures Accounted(source, target, lbas, x) {
        assert old@passed(Settled(source, target, ranges, x));
      }
    }
  }
}
