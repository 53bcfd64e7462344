/** close_client() keeps the invariant, and frees a block exactly when its last
    holder goes. */
module NscdClose {
  import opened Bytes
  import opened NscdModel
  import opened NscdInvariant
  import opened NscdFrame

  ghost predicate MayClose(s: State, i: nat) {
    i < |s.clients| && s.clients[i].fd != 0 && !IsOwner(s.clients[i])
  }

  /** What one close changes. */
  ghost predicate Closes(s: State, i: nat, r: State) {
    && MayClose(s, i)
    && r.cfg == s.cfg && r.accepting == s.accepting && r.bufs == s.bufs && r.nextBuf == s.nextBuf && r.now == s.now
       && r.nextFd == s.nextFd
    && r.cache == s.cache
    && r.busy == Put(s.busy, s.clients[i].bufidx, false)
    && r.fds == s.fds - {s.clients[i].fd, SockFd(s.clients[i])}
    && |r.clients| == |s.clients|
    && (forall j :: 0 <= j < |s.clients| && j != i ==> r.clients[j] == s.clients[j])
    && r.clients[i].fd == 0 && ClosedEntryOk(r.clients[i])
    && (match s.clients[i].resptr
        case None => r.heap == s.heap
        case Some(b) => Drops(s, i, b, r))
  }

  /** The block goes if nobody else holds it; otherwise its count goes down. */
  ghost predicate Drops(s: State, i: nat, b: nat, r: State) {
    && b in s.heap
    && i in HoldersOf(s, b)
    && (if s.heap[b].refcount == 0 then
          r.heap == s.heap - {b} && SlotsOf(s, b) == {} && HoldersOf(s, b) == {i}
        else
          r.heap == s.heap[b := s.heap[b].(refcount := s.heap[b].refcount - 1)] && s.clients[i].cachePp == Taken)
  }

  lemma CloseEffect(s: State, i: nat)
    requires Tables(s) && Refs(s) && Fds(s) && MayClose(s, i)
    ensures Closes(s, i, CloseClient(s, i))
  {
    var r := CloseClient(s, i);
    assert EntryOk(s, i);
    assert FdOwned(s, 0);
    if s.clients[i].resptr.Some? { SoleHolder(s, i); }
    assert s.fds - {s.clients[i].fd, s.clients[i].clientFd} == s.fds - {s.clients[i].fd, SockFd(s.clients[i])};
  }

  /** A block held by anyone else stays. */
  lemma CloseKeepsBlock(s: State, i: nat, r: State, b: nat)
    requires Closes(s, i, r)
    requires SlotsOf(s, b) != {} || HoldersOf(s, b) - {i} != {}
    ensures SameBlock(s, r, b)
    ensures Blk(s, b).refcount == 0 ==> Blk(r, b) == Blk(s, b)
  {
  }

  lemma CloseKeepsSlot(s: State, i: nat, r: State, k: nat)
    requires Closes(s, i, r) && Tables(s)
    ensures SameSlot(s, r, k)
    ensures SlotAt(s, k).Done? ==> SlotAt(s, k).blk in r.heap
  {
    assert SlotOk(s, k);
    if SlotAt(s, k).Done? {
      assert k in SlotsOf(s, s.cache[k].blk);
      CloseKeepsBlock(s, i, r, s.cache[k].blk);
    }
  }

  lemma CloseKeepsOthers(s: State, i: nat, r: State, j: nat)
    requires Closes(s, i, r) && Tables(s) && Fds(s) && j < |s.clients| && j != i && s.clients[j].fd != 0
    ensures ClientOk(r, s.clients[j])
  {
    var d := s.clients[j];
    assert EntryOk(s, j);
    Apart(s, i, j);
    if d.resptr.Some? {
      assert j in HoldersOf(s, d.resptr.value) - {i};
      CloseKeepsBlock(s, i, r, d.resptr.value);
    }
    if d.cachePp.At? { CloseKeepsSlot(s, i, r, d.cachePp.slot); }
    ClientFrame(s, r, d);
  }

  lemma CloseTables(s: State, i: nat, r: State)
    requires Closes(s, i, r) && Tables(s) && Fds(s)
    ensures Tables(r)
  {
    forall j: nat ensures EntryOk(r, j) {
      assert EntryOk(s, j);
      if j < |r.clients| && j != i && s.clients[j].fd != 0 { CloseKeepsOthers(s, i, r, j); }
    }
    forall k: nat ensures SlotOk(r, k) {
      CloseSlot(s, i, r, k);
    }
    forall k: nat, j: nat ensures KeysDiffer(r, k, j) {
      CloseKeepsSlot(s, i, r, k);
      CloseKeepsSlot(s, i, r, j);
      assert KeysDiffer(s, k, j);
    }
    forall j: nat, l: nat ensures BufsDiffer(r, j, l) {
      assert BufsDiffer(s, j, l);
    }
    forall u: nat ensures BufOwned(r, u) {
      CloseBuf(s, i, r, u);
    }
  }

  lemma CloseSlot(s: State, i: nat, r: State, k: nat)
    requires Closes(s, i, r) && Tables(s)
    ensures SlotOk(r, k)
  {
    assert SlotOk(s, k);
    CloseKeepsSlot(s, i, r, k);
    if SlotAt(s, k).Future? {
      var j: nat :| OwnsSlot(s, j, k);
      assert OwnsSlot(r, j, k);
    }
  }

  lemma CloseBuf(s: State, i: nat, r: State, u: nat)
    requires Closes(s, i, r) && Tables(s)
    ensures BufOwned(r, u)
  {
    assert BufOwned(s, u) && EntryOk(s, i);
    if u < |r.busy| && r.busy[u] {
      var j: nat :| UsesBuf(s, j, u);
      assert UsesBuf(r, j, u);
    }
  }

  lemma CloseRefs(s: State, i: nat, r: State)
    requires Closes(s, i, r) && Refs(s)
    ensures Refs(r)
  {
    forall b: nat ensures RefOk(r, b) {
      assert RefOk(s, b);
      assert SlotsOf(r, b) == SlotsOf(s, b);
      assert HoldersOf(r, b) == HoldersOf(s, b) - {i};
    }
  }

  lemma CloseFds(s: State, i: nat, r: State)
    requires Closes(s, i, r) && Fds(s)
    ensures Fds(r)
  {
    forall fd: int ensures FdOwned(r, fd) {
      assert FdOwned(s, fd);
      if fd in r.fds {
        var j: nat :| UsesFd(s, j, fd);
        assert UsesFd(r, j, fd);
      }
    }
    forall j: nat, l: nat ensures FdsDiffer(r, j, l) {
      assert FdsDiffer(s, j, l);
    }
  }

  /** What one close leaves alone besides the tables. */
  ghost predicate ClosesRest(s: State, i: nat, r: State) {
    && r.nextId == s.nextId && r.answers == s.answers && r.served == s.served && r.failedFills == s.failedFills
    && r.cntClosed == s.cntClosed + 1 && r.minClosed == Min(s.minClosed, i + 2)
    && r.cachedCnt == s.cachedCnt && r.accessCnt == s.accessCnt && r.hitCnt == s.hitCnt
    && r.agingMs == s.agingMs && r.minAgingMs == s.minAgingMs && r.lastAge == s.lastAge && r.exited == s.exited
  }

  lemma CloseRestEffect(s: State, i: nat)
    requires MayClose(s, i)
    ensures ClosesRest(s, i, CloseClient(s, i))
  {
  }

  lemma CloseHistory(s: State, i: nat, r: State)
    requires Closes(s, i, r) && ClosesRest(s, i, r) && History(s)
    ensures History(r)
  {
    forall b: nat ensures BlockOk(r, b) {
      assert BlockOk(s, b);
      if b in r.heap {
        var a :| Answers(s, a, s.heap[b].key, s.heap[b].resp);
        assert Answers(r, a, r.heap[b].key, r.heap[b].resp);
      }
    }
    forall e | e in r.served ensures ServedOk(r, e) {
      assert ServedOk(s, e);
    }
  }

  lemma CloseCounts(s: State, i: nat, r: State)
    requires Closes(s, i, r) && ClosesRest(s, i, r) && Counts(s) && Sizes(s)
    ensures Counts(r)
  {
    assert ClosedSet(r) == ClosedSet(s) + {i};
    assert Occupied(r) == Occupied(s);
  }

  lemma CloseSleep(s: State, i: nat, r: State)
    requires Closes(s, i, r) && ClosesRest(s, i, r) && Sleep(s)
    ensures Sleep(r)
  {
    if WorkerOutstanding(s) {
      var j: nat :| 0 <= j < |s.clients| && IsOwner(s.clients[j]);
      assert IsOwner(r.clients[j]);
    }
    assert HasCompleted(r) ==> HasCompleted(s);
  }

  /** close_client() keeps the invariant when the client does not own a worker. */
  lemma CloseInv(s: State, i: nat)
    requires Inv(s) && MayClose(s, i)
    ensures Inv(CloseClient(s, i))
    ensures CloseClient(s, i).clients[i].fd == 0
  {
    var r := CloseClient(s, i);
    CloseEffect(s, i);
    CloseRestEffect(s, i);
    CloseTables(s, i, r);
    CloseRefs(s, i, r);
    CloseFds(s, i, r);
    CloseHistory(s, i, r);
    CloseCounts(s, i, r);
    CloseSleep(s, i, r);
  }

  /** A close frees the block the client writes from exactly when neither a
      cache slot nor another open client has it. */
  lemma FreedWithLastHolder(s: State, i: nat)
    requires Inv(s) && MayClose(s, i) && s.clients[i].resptr.Some?
    ensures var b := s.clients[i].resptr.value;
            b in s.heap
            && (b !in CloseClient(s, i).heap <==> SlotsOf(s, b) == {} && HoldersOf(s, b) == {i})
  {
    var b := s.clients[i].resptr.value;
    CloseEffect(s, i);
    assert RefOk(s, b);
  }
}
