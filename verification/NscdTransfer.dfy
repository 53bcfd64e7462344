/** Octets in and out: reading requests and writing answers. */
module NscdTransfer {
  import opened Bytes
  import opened NscdModel
  import opened NscdInvariant
  import opened NscdSweep
  import opened NscdServe
  import opened NscdClose

  /** Client i has n or more octets of its answer to go. */
  ghost predicate CanSend(s: State, i: nat, n: nat) {
    && i < |s.clients|
    && IsWriting(s.clients[i])
    && s.clients[i].resptr.Some?
    && s.clients[i].respos + n <= |Blk(s, s.clients[i].resptr.value).resp|
  }

  lemma ProgressEffect(s: State, i: nat, n: nat)
    requires Core(s) && CanSend(s, i, n)
    ensures var r := Progress(s, i, n);
            var c := s.clients[i];
            var resp := Blk(s, c.resptr.value).resp;
            && r.heap == s.heap && r.cache == s.cache && r.bufs == s.bufs
            && r.fds == s.fds[c.fd := Sock(Wire(resp)[..c.respos + n])]
            && r.clients == s.clients[i := c.(respos := c.respos + n)]
            && r == s.(fds := r.fds, clients := r.clients)
  {
    var c := s.clients[i];
    var resp := Blk(s, c.resptr.value).resp;
    assert EntryOk(s, i);
    assert Wire(resp)[..c.respos] + Wire(resp)[c.respos..c.respos + n] == Wire(resp)[..c.respos + n];
  }

  lemma ProgressCore(s: State, i: nat, n: nat)
    requires Core(s) && CanSend(s, i, n)
    ensures Core(Progress(s, i, n))
  {
    var r := Progress(s, i, n);
    var c := s.clients[i].(respos := s.clients[i].respos + n);
    ProgressEffect(s, i, n);
    ProgressTables(s, i, n, r);
    assert EntryOk(s, i);
    AllFdsOpen(s);
    assert FdOwned(s, s.clients[i].fd) && FdOwned(s, SockFd(s.clients[i]));
    FdsStep(s, i, c, r);
    forall b: nat ensures RefOk(r, b) {
      assert RefOk(s, b);
      assert HoldersOf(r, b) == HoldersOf(s, b);
      assert SlotsOf(r, b) == SlotsOf(s, b);
    }
    HistoryFrame(s, r);
  }

  lemma ProgressTables(s: State, i: nat, n: nat, r: State)
    requires Core(s) && CanSend(s, i, n) && r == Progress(s, i, n)
    ensures Tables(r)
  {
    var c := s.clients[i].(respos := s.clients[i].respos + n);
    ProgressEffect(s, i, n);
    assert EntryOk(s, i);
    assert StepsClient(s, i, c, r);
    assert ClientOk(r, c);
    SameCacheSlots(s, r);
    StepTables(s, i, c, r);
  }

  /** The slots after a step that leaves the cache, the blocks, the buffers of
      owners and the owners alone. */
  lemma SameCacheSlots(s: State, r: State)
    requires Tables(s) && r.cache == s.cache && r.heap == s.heap && r.cfg == s.cfg && |r.bufs| == |s.bufs|
    requires forall k: nat :: SlotAt(s, k) != Empty ==> SlotKey(r, k) == SlotKey(s, k)
    requires |r.clients| >= |s.clients|
    requires forall j: nat :: j < |s.clients| && IsOwner(s.clients[j]) ==> r.clients[j] == s.clients[j]
    ensures SlotsOk(r) && DistinctKeys(r)
  {
    forall k: nat ensures SlotOk(r, k) {
      assert SlotOk(s, k);
      if SlotAt(s, k).Future? {
        var j: nat :| OwnsSlot(s, j, k);
        assert OwnsSlot(r, j, k);
      }
    }
    forall j: nat, l: nat ensures KeysDiffer(r, j, l) { assert KeysDiffer(s, j, l); }
  }

  lemma ProgressInv(s: State, i: nat, n: nat)
    requires Inv(s) && CanSend(s, i, n)
    ensures Inv(Progress(s, i, n)) && CanSend(Progress(s, i, n), i, 0)
  {
    var r := Progress(s, i, n);
    ProgressCore(s, i, n);
    ProgressEffect(s, i, n);
    ProgressCounts(s, i, n, r);
    SleepFrame(s, r);
  }

  lemma ProgressCounts(s: State, i: nat, n: nat, r: State)
    requires Counts(s) && CanSend(s, i, n)
    requires r == s.(fds := r.fds, clients := s.clients[i := s.clients[i].(respos := s.clients[i].respos + n)])
    ensures Counts(r)
  {
    CachedFrame(s, r);
    ClosedFrame(s, r);
  }

  lemma SleepFrame(s: State, r: State)
    requires Sleep(s) && r.agingMs == s.agingMs && r.minAgingMs == s.minAgingMs
    requires HasCompleted(r) ==> HasCompleted(s)
    requires |r.clients| >= |s.clients|
             && (forall j: nat :: j < |s.clients| && IsOwner(s.clients[j]) ==> IsOwner(r.clients[j]))
    ensures Sleep(r)
  {
    if WorkerOutstanding(s) {
      var j: nat :| 0 <= j < |s.clients| && IsOwner(s.clients[j]);
      assert IsOwner(r.clients[j]);
    }
  }

  /** Noting that client i has got its whole answer. */
  lemma ServedInv(s: State, i: nat, e: Served)
    requires Inv(s) && CanSend(s, i, 0)
    requires s.clients[i].respos == |Blk(s, s.clients[i].resptr.value).resp|
    requires e == Served(s.clients[i].fd, BufAt(s, s.clients[i].bufidx), FdSent(s, s.clients[i].fd))
    ensures Inv(s.(served := s.served + [e]))
  {
    var r := s.(served := s.served + [e]);
    var c := s.clients[i];
    var b := c.resptr.value;
    assert EntryOk(s, i) && BlockOk(s, b);
    assert Wire(s.heap[b].resp)[..c.respos] == Wire(s.heap[b].resp);
    var a :| Answers(s, a, s.heap[b].key, s.heap[b].resp);
    assert ServedOk(s, e);
    CoreFrame(s, r);
    CachedFrame(s, r);
    ClosedFrame(s, r);
    SleepFrame(s, r);
  }

  // ------------------------------------------------------------- write_out

  lemma WriteOutInv(s: State, i: nat, w: WriteResult)
    requires Inv(s) && CanSend(s, i, 0)
    ensures Inv(WriteOut(s, i, w))
  {
    var c := s.clients[i];
    match w
    case WriteAgain =>
    case WriteFailed => CloseInv(s, i);
    case Took(most) =>
      var n := Min(most, Remaining(s, i));
      if n == 0 {
        CloseInv(s, i);
      } else {
        ProgressInv(s, i, n);
        ProgressEffect(s, i, n);
        var s1 := Progress(s, i, n);
        if n == Remaining(s, i) {
          var e := Served(c.fd, BufAt(s, c.bufidx), FdSent(s1, c.fd));
          ServedInv(s1, i, e);
          CloseInv(s1.(served := s1.served + [e]), i);
        }
      }
  }
}
