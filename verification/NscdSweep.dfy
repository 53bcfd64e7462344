/** Dropping completed entries from the cache: eviction and age_cache(). */
module NscdSweep {
  import opened Bytes
  import opened NscdModel
  import opened NscdInvariant
  import opened NscdFrame

  ghost predicate SameTables(s: State, r: State) {
    && r.cfg == s.cfg && r.accepting == s.accepting && r.bufs == s.bufs && r.nextBuf == s.nextBuf && r.now == s.now
    && r.clients == s.clients && r.busy == s.busy && r.fds == s.fds && r.nextFd == s.nextFd
    && r.nextId == s.nextId && r.answers == s.answers && r.served == s.served && r.exited == s.exited
  }

  /** Slot k gives up its completed entry b. */
  ghost predicate Evicts(s: State, k: nat, b: nat, r: State) {
    && k < |s.cache| && s.cache[k] == Done(b) && r.cache == s.cache[k := Empty]
    && SameTables(s, r)
    && b in s.heap
    && k in SlotsOf(s, b)
    && (if s.heap[b].refcount == 0 then
          r.heap == s.heap - {b} && SlotsOf(s, b) == {k} && HoldersOf(s, b) == {}
        else
          r.heap == s.heap[b := s.heap[b].(refcount := s.heap[b].refcount - 1)])
  }

  lemma EvictEffect(s: State, k: nat)
    requires Tables(s) && Refs(s) && SlotAt(s, k).Done?
    ensures Evicts(s, k, SlotAt(s, k).blk, FreeSlot(s, k))
  {
    var b := SlotAt(s, k).blk;
    assert SlotOk(s, k) && RefOk(s, b);
    assert k in SlotsOf(s, b);
    if s.heap[b].refcount == 0 {
      assert |SlotsOf(s, b) - {k}| == |SlotsOf(s, b)| - 1;
      assert SlotsOf(s, b) - {k} == {} && HoldersOf(s, b) == {};
    }
  }

  lemma EvictKeepsBlock(s: State, k: nat, b: nat, r: State, x: nat)
    requires Evicts(s, k, b, r)
    requires HoldersOf(s, x) != {} || SlotsOf(s, x) - {k} != {}
    ensures SameBlock(s, r, x)
    ensures Blk(s, x).refcount == 0 ==> Blk(r, x) == Blk(s, x)
  {
  }

  lemma EvictKeepsSlot(s: State, k: nat, b: nat, r: State, j: nat)
    requires Evicts(s, k, b, r) && Tables(s) && j != k
    ensures SameSlot(s, r, j) && SlotAt(r, j) == SlotAt(s, j)
    ensures SlotAt(s, j).Done? ==> SlotAt(s, j).blk in r.heap
  {
    assert SlotOk(s, j);
    if SlotAt(s, j).Done? {
      assert j in SlotsOf(s, s.cache[j].blk) - {k};
      EvictKeepsBlock(s, k, b, r, s.cache[j].blk);
    }
  }

  lemma EvictKeepsClient(s: State, k: nat, b: nat, r: State, i: nat)
    requires Evicts(s, k, b, r) && Tables(s) && i < |s.clients| && s.clients[i].fd != 0
    ensures ClientOk(r, s.clients[i])
  {
    var c := s.clients[i];
    assert EntryOk(s, i);
    if c.resptr.Some? {
      assert i in HoldersOf(s, c.resptr.value);
      EvictKeepsBlock(s, k, b, r, c.resptr.value);
    }
    if c.cachePp.At? { EvictKeepsSlot(s, k, b, r, c.cachePp.slot); }
    ClientFrame(s, r, c);
  }

  lemma EvictTables(s: State, k: nat, b: nat, r: State)
    requires Evicts(s, k, b, r) && Tables(s)
    ensures Tables(r)
  {
    forall i: nat ensures EntryOk(r, i) {
      assert EntryOk(s, i);
      if i < |r.clients| && s.clients[i].fd != 0 { EvictKeepsClient(s, k, b, r, i); }
    }
    forall j: nat ensures SlotOk(r, j) {
      EvictSlot(s, k, b, r, j);
    }
    forall j: nat, l: nat ensures KeysDiffer(r, j, l) {
      if j != k { EvictKeepsSlot(s, k, b, r, j); }
      if l != k { EvictKeepsSlot(s, k, b, r, l); }
      assert KeysDiffer(s, j, l);
    }
    forall j: nat, l: nat ensures BufsDiffer(r, j, l) {
      assert BufsDiffer(s, j, l);
    }
    forall u: nat ensures BufOwned(r, u) {
      assert BufOwned(s, u);
      if u < |r.busy| && r.busy[u] {
        var j: nat :| UsesBuf(s, j, u);
        assert UsesBuf(r, j, u);
      }
    }
  }

  lemma EvictSlot(s: State, k: nat, b: nat, r: State, j: nat)
    requires Evicts(s, k, b, r) && Tables(s)
    ensures SlotOk(r, j)
  {
    assert SlotOk(s, j);
    if j != k {
      EvictKeepsSlot(s, k, b, r, j);
      if SlotAt(s, j).Future? {
        var i: nat :| OwnsSlot(s, i, j);
        assert OwnsSlot(r, i, j);
      }
    }
  }

  lemma EvictRefs(s: State, k: nat, b: nat, r: State)
    requires Evicts(s, k, b, r) && Refs(s)
    ensures Refs(r)
  {
    forall x: nat ensures RefOk(r, x) {
      assert RefOk(s, x);
      assert SlotsOf(r, x) == SlotsOf(s, x) - {k};
      assert HoldersOf(r, x) == HoldersOf(s, x);
    }
  }

  lemma EvictFds(s: State, k: nat, b: nat, r: State)
    requires Evicts(s, k, b, r) && Fds(s)
    ensures Fds(r)
  {
    forall fd: int ensures FdOwned(r, fd) {
      assert FdOwned(s, fd);
      if fd in r.fds {
        var j: nat :| UsesFd(s, j, fd);
        assert UsesFd(r, j, fd);
      }
    }
    forall j: nat, l: nat ensures FdsDiffer(r, j, l) {
      assert FdsDiffer(s, j, l);
    }
  }

  /** Blocks may go and counts may change; nothing else does. */
  ghost predicate Subheap(s: State, r: State) {
    forall b: nat :: b in r.heap ==>
      (b in s.heap && r.heap[b].key == s.heap[b].key && r.heap[b].resp == s.heap[b].resp
          && r.heap[b].ts24 == s.heap[b].ts24)
  }

  /** A step that adds no block keeps History. */
  lemma HistoryFrame(s: State, r: State)
    requires History(s) && r.nextId == s.nextId && r.answers == s.answers
    requires Subheap(s, r)
    requires forall e :: e in r.served ==> ServedOk(s, e)
    ensures History(r)
  {
    forall b: nat ensures BlockOk(r, b) {
      assert BlockOk(s, b);
      if b in r.heap {
        var a :| Answers(s, a, s.heap[b].key, s.heap[b].resp);
        assert Answers(r, a, r.heap[b].key, r.heap[b].resp);
      }
    }
    forall e | e in r.served ensures ServedOk(r, e) {
      assert ServedOk(s, e);
    }
  }

  lemma EvictHistory(s: State, k: nat, b: nat, r: State)
    requires Evicts(s, k, b, r) && History(s)
    ensures History(r)
  {
    HistoryFrame(s, r);
  }

  /** The invariant up to the sleep condition, which a sweep gives up and
      re-establishes. */
  ghost predicate Core(s: State) {
    Tables(s) && Refs(s) && Fds(s) && History(s)
  }

  lemma EvictCore(s: State, k: nat)
    requires Core(s) && SlotAt(s, k).Done?
    ensures Core(FreeSlot(s, k))
    ensures Evicts(s, k, SlotAt(s, k).blk, FreeSlot(s, k))
  {
    var b := SlotAt(s, k).blk;
    var r := FreeSlot(s, k);
    EvictEffect(s, k);
    EvictTables(s, k, b, r);
    EvictRefs(s, k, b, r);
    EvictFds(s, k, b, r);
    EvictHistory(s, k, b, r);
  }

  /** Clocks, counters and flags are no part of the core. */
  lemma CoreFrame(s: State, r: State)
    requires Core(s) && SameTables(s.(now := r.now, exited := r.exited, served := r.served), r) && r.now < TWO32
    requires forall e :: e in r.served ==> ServedOk(s, e)
    requires r.cache == s.cache && r.heap == s.heap
    ensures Core(r)
  {
    forall i: nat ensures EntryOk(r, i) {
      assert EntryOk(s, i);
      if i < |r.clients| && s.clients[i].fd != 0 { ClientFrame(s, r, s.clients[i]); }
    }
    forall k: nat ensures SlotOk(r, k) { SlotFrame(s, r, k); }
    forall j: nat, l: nat ensures KeysDiffer(r, j, l) { assert KeysDiffer(s, j, l); }
    forall j: nat, l: nat ensures BufsDiffer(r, j, l) { assert BufsDiffer(s, j, l); }
    forall u: nat ensures BufOwned(r, u) {
      assert BufOwned(s, u);
      if u < |r.busy| && r.busy[u] {
        var j: nat :| UsesBuf(s, j, u);
        assert UsesBuf(r, j, u);
      }
    }
    forall b: nat ensures RefOk(r, b) {
      assert RefOk(s, b);
      assert SlotsOf(r, b) == SlotsOf(s, b) && HoldersOf(r, b) == HoldersOf(s, b);
    }
    FdsFrame(s, r);
    HistoryFrame(s, r);
  }

  lemma FdsFrame(s: State, r: State)
    requires Fds(s) && r.fds == s.fds && r.nextFd == s.nextFd && r.clients == s.clients
    ensures Fds(r)
  {
    forall fd: int ensures FdOwned(r, fd) {
      assert FdOwned(s, fd);
      if fd in r.fds {
        var j: nat :| UsesFd(s, j, fd);
        assert UsesFd(r, j, fd);
      }
    }
    forall j: nat, l: nat ensures FdsDiffer(r, j, l) { assert FdsDiffer(s, j, l); }
  }

  lemma SlotFrame(s: State, r: State, k: nat)
    requires SlotOk(s, k) && r.cache == s.cache && r.heap == s.heap && r.bufs == s.bufs && r.clients == s.clients
             && r.cfg == s.cfg
    ensures SlotOk(r, k)
  {
    if SlotAt(s, k).Future? {
      var i: nat :| OwnsSlot(s, i, k);
      assert OwnsSlot(r, i, k);
    }
  }

  // ------------------------------------------------------------- age_cache

  /** What a slot holds, for which request, its age and the time it has left. */
  datatype View = View(slot: Slot, key: seq<byte>, age: nat, left: int)

  const EMPTY_VIEW := View(Empty, [], 0, 0)

  ghost function ViewOf(s: State, k: nat): View {
    if SlotAt(s, k) == Empty then EMPTY_VIEW
    else View(SlotAt(s, k), SlotKey(s, k), SlotAge(s, k),
              if SlotAt(s, k).Done? then Ttl(s.cfg, Blk(s, SlotAt(s, k).blk)) - SlotAge(s, k) else 0)
  }

  /** Whether the sweep is to empty a slot: a completed entry that is due. */
  ghost predicate Due(v: View, f: Flush) {
    v.slot.Done?
    && match f
       case All => true
       case Service(srv) => KeySrv(v.key) == srv
       case Expired => v.left <= 0
  }

  lemma DueIsDoomed(s: State, k: nat, f: Flush)
    requires SlotAt(s, k).Done?
    ensures Due(ViewOf(s, k), f) <==> Doomed(s, SlotAt(s, k).blk, f)
  {
  }

  ghost function SweptView(v: View, f: Flush): View {
    if Due(v, f) then EMPTY_VIEW else v
  }

  /** The first k slots have been swept. */
  ghost predicate Swept(s: State, k: nat, f: Flush, r: State) {
    && SameTables(s, r)
    && |r.cache| == |s.cache|
    && Subheap(s, r)
    && (forall j: nat :: ViewOf(r, j) == if j < k then SweptView(ViewOf(s, j), f) else ViewOf(s, j))
    && SameCounters(s, r)
  }

  ghost predicate SameCounters(s: State, r: State) {
    && r.accessCnt == s.accessCnt && r.hitCnt == s.hitCnt && r.failedFills == s.failedFills && r.lastAge == s.lastAge
    && r.minAgingMs == s.minAgingMs && r.cntClosed == s.cntClosed && r.minClosed == s.minClosed
  }

  lemma ModularPred(c: nat, n: nat, f: nat)
    requires n >= 1 && c == (n + f) % TWO32
    ensures (c + TWO32 - 1) % TWO32 == (n - 1 + f) % TWO32
  {
  }

  /** Emptying a slot in a sweep. */
  lemma SweepOne(s: State, k: nat, f: Flush)
    requires Core(s) && Counts(s) && SlotAt(s, k).Done? && Doomed(s, SlotAt(s, k).blk, f)
    ensures Core(AgeSlot(s, k, f)) && Counts(AgeSlot(s, k, f))
    ensures Evicts(s, k, SlotAt(s, k).blk, FreeSlot(s, k))
    ensures AgeSlot(s, k, f) == FreeSlot(s, k).(cachedCnt := AgeSlot(s, k, f).cachedCnt)
  {
    var t := FreeSlot(s, k);
    var r := AgeSlot(s, k, f);
    EvictCore(s, k);
    CoreFrame(t, r);
    assert ClosedSet(r) == ClosedSet(s);
    assert k in Occupied(s) && Occupied(r) == Occupied(s) - {k};
    ModularPred(s.cachedCnt, |Occupied(s)|, s.failedFills);
  }

  lemma AgeSlotCore(s: State, k: nat, f: Flush)
    requires Core(s) && Counts(s)
    ensures Core(AgeSlot(s, k, f)) && Counts(AgeSlot(s, k, f))
  {
    if SlotAt(s, k).Done? && Doomed(s, SlotAt(s, k).blk, f) {
      SweepOne(s, k, f);
    } else {
      var r := AgeSlot(s, k, f);
      CoreFrame(s, r);
      assert ClosedSet(r) == ClosedSet(s) && Occupied(r) == Occupied(s);
    }
  }

  lemma AgeSlotView(s: State, k: nat, f: Flush, j: nat)
    requires Core(s) && Counts(s)
    ensures ViewOf(AgeSlot(s, k, f), j) == if j == k then SweptView(ViewOf(s, k), f) else ViewOf(s, j)
  {
    if SlotAt(s, k).Done? { DueIsDoomed(s, k, f); }
    if SlotAt(s, k).Done? && Doomed(s, SlotAt(s, k).blk, f) {
      SweptOutView(s, k, f, j);
    } else {
      KeptView(s, k, f, j);
    }
  }

  lemma KeptView(s: State, k: nat, f: Flush, j: nat)
    requires !(SlotAt(s, k).Done? && Doomed(s, SlotAt(s, k).blk, f))
    ensures ViewOf(AgeSlot(s, k, f), j) == ViewOf(s, j)
  {
  }

  lemma SweptOutView(s: State, k: nat, f: Flush, j: nat)
    requires Core(s) && Counts(s) && SlotAt(s, k).Done? && Doomed(s, SlotAt(s, k).blk, f)
    ensures ViewOf(AgeSlot(s, k, f), j) == if j == k then EMPTY_VIEW else ViewOf(s, j)
  {
    var t := FreeSlot(s, k);
    SweepOne(s, k, f);
    if j != k { EvictKeepsView(s, k, t, j); }
  }

  lemma EvictKeepsView(s: State, k: nat, r: State, j: nat)
    requires SlotAt(s, k).Done? && Evicts(s, k, SlotAt(s, k).blk, r) && Tables(s) && j != k
    ensures ViewOf(r, j) == ViewOf(s, j)
  {
    EvictKeepsSlot(s, k, SlotAt(s, k).blk, r, j);
    assert SlotOk(s, j);
  }

  lemma AgeSlotRest(s: State, k: nat, f: Flush)
    ensures SameTables(s, AgeSlot(s, k, f)) && SameCounters(s, AgeSlot(s, k, f))
    ensures |AgeSlot(s, k, f).cache| == |s.cache|
  {
  }

  lemma AgeSlotHeap(s: State, k: nat, f: Flush)
    ensures Subheap(s, AgeSlot(s, k, f))
  {
  }

  lemma SweepStep(s: State, k: nat, f: Flush, p: State)
    requires Core(p) && Counts(p) && Swept(s, k, f, p)
    ensures var r := AgeSlot(p, k, f); Core(r) && Counts(r) && Swept(s, k + 1, f, r)
  {
    var r, n := AgeSlot(p, k, f), k + 1;
    AgeSlotCore(p, k, f);
    AgeSlotRest(p, k, f);
    AgeSlotHeap(p, k, f);
    forall j: nat ensures ViewOf(r, j) == if j < n then SweptView(ViewOf(s, j), f) else ViewOf(s, j) {
      AgeSlotView(p, k, f, j);
    }
  }

  lemma {:induction false} SweepAll(s: State, k: nat, f: Flush)
    requires Core(s) && Counts(s)
    ensures Core(AgeSlots(s, k, f)) && Counts(AgeSlots(s, k, f)) && Swept(s, k, f, AgeSlots(s, k, f))
  {
    if k > 0 {
      SweepAll(s, k - 1, f);
      SweepStep(s, k - 1, f, AgeSlots(s, k - 1, f));
    }
  }

  /** aging_interval_ms after the first k slots have been swept. */
  ghost predicate AgingFits(s: State, k: nat, f: Flush, aging: nat) {
    && aging <= s.agingMs
    && (forall j: nat :: j < k && Remains(s, j, f) ==> aging <= ViewOf(s, j).left)
    && (aging == s.agingMs || exists j: nat :: j < k && Remains(s, j, f) && aging == ViewOf(s, j).left)
  }

  ghost predicate Remains(s: State, j: nat, f: Flush) {
    SlotAt(s, j).Done? && !Due(ViewOf(s, j), f)
  }

  lemma AgingStep(s: State, k: nat, aging: nat, next: nat)
    requires AgingFits(s, k, Expired, aging)
    requires next == if Remains(s, k, Expired) then Min(aging, ViewOf(s, k).left) else aging
    ensures AgingFits(s, k + 1, Expired, next)
  {
  }

  /** Whether an entry remains can be told from its view. */
  lemma RemainsByView(s: State, r: State, k: nat, f: Flush)
    requires ViewOf(r, k) == ViewOf(s, k)
    ensures Remains(r, k, f) == Remains(s, k, f)
  {
  }

  lemma NotYetSwept(s: State, k: nat, f: Flush)
    requires Core(s) && Counts(s)
    ensures ViewOf(AgeSlots(s, k, f), k) == ViewOf(s, k)
  {
    SweepAll(s, k, f);
  }

  lemma {:induction false} SweepAging(s: State, k: nat, f: Flush)
    requires Core(s) && Counts(s)
    ensures f == Expired ==> AgingFits(s, k, f, AgeSlots(s, k, f).agingMs)
    ensures f != Expired ==> AgeSlots(s, k, f).agingMs == s.agingMs
  {
    if k > 0 {
      var q := k - 1;
      var p := AgeSlots(s, q, f);
      SweepAging(s, q, f);
      NotYetSwept(s, q, f);
      RemainsByView(s, p, q, f);
      AgeSlotAging(p, q, f);
      if f == Expired { AgingStep(s, q, p.agingMs, AgeSlot(p, q, f).agingMs); }
    }
  }

  lemma AgeSlotAging(s: State, k: nat, f: Flush)
    ensures AgeSlot(s, k, f).agingMs ==
            if f == Expired && Remains(s, k, f) then Min(s.agingMs, ViewOf(s, k).left) else s.agingMs
  {
    if SlotAt(s, k).Done? { DueIsDoomed(s, k, f); }
  }

  /** The sweep begins by setting the interval, which nothing else depends on. */
  lemma IntervalFrame(s: State, s1: State)
    requires Core(s) && Counts(s) && s1 == s.(agingMs := INT_MAX)
    ensures Core(s1) && Counts(s1)
  {
    CoreFrame(s, s1);
    assert ClosedSet(s1) == ClosedSet(s) && Occupied(s1) == Occupied(s);
  }

  lemma IntervalViews(s: State, s1: State, k: nat, f: Flush, r: State)
    requires s1 == s.(agingMs := INT_MAX) && Swept(s1, k, f, r)
    ensures Swept(s, k, f, r)
  {
    forall j: nat ensures ViewOf(s1, j) == ViewOf(s, j) { }
  }

  lemma SweptCache(s: State, f: Flush)
    requires Core(s) && Counts(s)
    ensures var r := AgeCache(s, f); Core(r) && Counts(r) && Swept(s, |s.cache|, f, r)
  {
    var s1 := s.(agingMs := INT_MAX);
    IntervalFrame(s, s1);
    SweepAll(s1, |s.cache|, f);
    IntervalViews(s, s1, |s.cache|, f, AgeCache(s, f));
  }

  /** After age_cache(0, -1) the interval is the least time left to any entry
      that remains, or INT_MAX; any other sweep leaves it at INT_MAX. */
  lemma SweptInterval(s: State, f: Flush)
    requires Core(s) && Counts(s)
    ensures f == Expired ==> AgingFits(s.(agingMs := INT_MAX), |s.cache|, f, AgeCache(s, f).agingMs)
    ensures f != Expired ==> AgeCache(s, f).agingMs == INT_MAX
  {
    var s1 := s.(agingMs := INT_MAX);
    IntervalFrame(s, s1);
    SweepAging(s1, |s.cache|, f);
  }
}
