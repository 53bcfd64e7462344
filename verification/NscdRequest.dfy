/** The requests of clients: reading them and deciding what to do. */
module NscdRequest {
  import opened Bytes
  import opened NscdModel
  import opened NscdInvariant
  import opened NscdSweep
  import opened NscdServe
  import opened NscdClose
  import opened NscdTransfer

  /** Client i may send this many octets more. */
  ghost predicate CanReceive(s: State, i: nat, data: seq<byte>) {
    && i < |s.clients|
    && IsReading(s.clients[i])
    && |BufAt(s, s.clients[i].bufidx)| + |data| <= MAX_USER_REQ_SIZE
  }

  lemma OwnersBuffer(s: State, i: nat, k: nat)
    requires Tables(s) && i < |s.clients| && IsReading(s.clients[i]) && SlotAt(s, k).Future?
    ensures SlotAt(s, k).buf != s.clients[i].bufidx
  {
    assert SlotOk(s, k);
    var j: nat :| OwnsSlot(s, j, k);
    assert BufsDiffer(s, i, j);
  }

  lemma ReceiveTables(s: State, i: nat, data: seq<byte>)
    requires Core(s) && CanReceive(s, i, data)
    ensures Tables(Received(s, i, data))
  {
    var r := Received(s, i, data);
    var c := s.clients[i];
    assert EntryOk(s, i);
    forall k: nat ensures SlotKey(r, k) == SlotKey(s, k) {
      if SlotAt(s, k).Future? { OwnersBuffer(s, i, k); }
    }
    assert StepsClient(s, i, c, r);
    assert ClientOk(r, c);
    SameCacheSlots(s, r);
    StepTables(s, i, c, r);
  }

  lemma ReceiveInv(s: State, i: nat, data: seq<byte>)
    requires Inv(s) && CanReceive(s, i, data)
    ensures Inv(Received(s, i, data))
  {
    var r := Received(s, i, data);
    ReceiveTables(s, i, data);
    forall b: nat ensures RefOk(r, b) {
      assert RefOk(s, b);
      assert SlotsOf(r, b) == SlotsOf(s, b) && HoldersOf(r, b) == HoldersOf(s, b);
    }
    FdsFrame(s, r);
    forall e | e in r.served ensures ServedOk(s, e) { }
    HistoryFrame(s, r);
    CachedFrame(s, r);
    ClosedFrame(s, r);
    SleepFrame(s, r);
  }

  // ----------------------------------------------------------------- flushes

  lemma ClientsAfterSweep(s: State, f: Flush)
    requires Core(s) && Counts(s)
    ensures var r := AgeCache(s, f);
            r.clients == s.clients && r.bufs == s.bufs && r.fds == s.fds && r.nextFd == s.nextFd
  {
    SweptCache(s, f);
  }

  lemma SlotAfterSweep(s: State, f: Flush, k: nat)
    requires Core(s) && Counts(s)
    ensures ViewOf(AgeCache(s, f), k) == SweptView(ViewOf(s, k), f)
  {
    SweptCache(s, f);
    if k >= |s.cache| {
      assert ViewOf(AgeCache(s, f), k) == EMPTY_VIEW;
    }
  }

  /** age_cache() for all services keeps the invariant. */
  lemma SweepInv(s: State, f: Flush)
    requires Inv(s) && (f == Expired || f == All)
    ensures Inv(AgeCache(s, f))
  {
    var r := AgeCache(s, f);
    SweptCache(s, f);
    SweptInterval(s, f);
    forall k: nat | SlotAt(r, k).Done? ensures f == Expired && r.agingMs < INT_MAX {
      SlotAfterSweep(s, f, k);
      TimeLeftBounded(s, k);
      assert ViewOf(s.(agingMs := INT_MAX), k) == ViewOf(s, k);
      assert f == Expired ==> Remains(s.(agingMs := INT_MAX), k, f);
    }
    assert forall k: nat :: k < |r.cache| ==> SlotAt(r, k) == r.cache[k];
  }

  lemma TimeLeftBounded(s: State, k: nat)
    requires Sizes(s)
    ensures ViewOf(s, k).left < INT_MAX
  {
  }

  // ------------------------------------------------------------ handle_client

  /** After a flush of one service no completed entry of that service is left,
      so the request at hand either finds a worker outstanding or starts one. */
  lemma NoAnswerAfterFlush(s: State, i: nat)
    requires Core(s) && Counts(s) && i < |s.clients|
    ensures !HasAnswer(AgeCache(s, Service(KeySrv(AskedKey(s, i)))), i)
  {
    var f := Service(KeySrv(AskedKey(s, i)));
    var r := AgeCache(s, f);
    ClientsAfterSweep(s, f);
    if HasAnswer(r, i) {
      var k: nat :| SlotAt(r, k).Done? && SlotKey(r, k) == AskedKey(r, i);
      SlotAfterSweep(s, f, k);
    }
  }

  ghost predicate SameClocks(s: State, r: State) {
    r.agingMs == s.agingMs && r.minAgingMs == s.minAgingMs && r.exited == s.exited
  }

  lemma LookupClocks(s: State, u: nat)
    ensures SameClocks(s, Lookup(s, u).0)
  {
    assert SameClocks(s, CountAccess(s));
  }

  lemma ServeAtClocks(s: State, i: nat, pp: CachePtr)
    ensures SameClocks(s, ServeAt(s, i, pp).0)
  {
  }

  lemma ServeClocks(s: State, i: nat)
    ensures SameClocks(s, Serve(s, i).0)
  {
    var u := ClientAt(s, i).bufidx;
    LookupClocks(s, u);
    ServeAtClocks(Lookup(s, u).0, i, Lookup(s, u).1);
  }

  lemma AnswerSleep(s: State, i: nat, r: State)
    requires Sleep(s) && GivenAnswer(s, i, r) && SameClocks(s, r) && IsReading(s.clients[i])
    ensures Sleep(r)
  {
    SleepFrame(s, r);
  }

  /** A complete request, in the middle of handle_client(). */
  lemma ServeInv(s: State, i: nat, flush: bool)
    requires Inv(s) && Asking(s, i)
    ensures var s1 := if flush then AgeCache(s, Service(KeySrv(AskedKey(s, i)))) else s;
            var (r, ready) := Serve(s1, i);
            Inv(r) && (ready ==> CanSend(r, i, 0)) && !r.exited == !s.exited
  {
    var f := Service(KeySrv(AskedKey(s, i)));
    if flush {
      var s1 := AgeCache(s, f);
      SweptCache(s, f);
      SweptInterval(s, f);
      NoAnswerAfterFlush(s, i);
      ServeKeeps(s1, i);
      ServeClocks(s1, i);
    } else {
      var (r, ready) := Serve(s, i);
      ServeKeeps(s, i);
      ServeClocks(s, i);
      if ready {
        AnswerSleep(s, i, r);
        assert EntryOk(r, i);
      }
    }
  }

  /** A change of the clock or of the exit flag. */
  lemma FlagsInv(s: State, r: State)
    requires Inv(s) && r == s.(now := r.now, lastAge := r.lastAge, exited := r.exited) && r.now < TWO32
    ensures Inv(r)
  {
    CoreFrame(s, r);
    CachedFrame(s, r);
    ClosedFrame(s, r);
    SleepFrame(s, r);
  }

  lemma FlushedClose(s: State, i: nat)
    requires Inv(s) && i < |s.clients| && IsReading(s.clients[i])
    ensures Inv(CloseClient(AgeCache(s, All), i))
  {
    SweepInv(s, All);
    ClientsAfterSweep(s, All);
    CloseInv(AgeCache(s, All), i);
  }

  lemma HandleClientInv(s: State, i: nat, ev: Event)
    requires Inv(s) && i < |s.clients| && IsReading(s.clients[i])
    ensures var (r, ready) := HandleClient(s, i, ev); Inv(r) && (ready ==> CanSend(r, i, 0))
  {
    match Judge(s.cfg, BufAt(s, s.clients[i].bufidx), ev)
    case Drop => CloseInv(s, i);
    case ReadMore =>
    case Exit => FlagsInv(s, s.(exited := true));
    case FlushAll => FlushedClose(s, i);
    case Query(flush) => ServeInv(s, i, flush);
  }

  lemma ReadRequestInv(s: State, i: nat, ev: Event)
    requires Inv(s) && i < |s.clients| && IsReading(s.clients[i])
    ensures Inv(ReadRequest(s, i, ev))
  {
    CloseInv(s, i);
    if ev.read.Got? {
      var data := ReadData(s, i, ev.read.data);
      assert EntryOk(s, i);
      if data != [] {
        var s1 := Received(s, i, data);
        ReceiveInv(s, i, data);
        HandleClientInv(s1, i, ev);
        var (s2, ready) := HandleClient(s1, i, ev);
        if ready { WriteOutInv(s2, i, ev.write); }
      }
    }
  }
}
