/** handle_worker_response(): one worker result moves its owner and everybody
    who waits for it on to writing. */
module NscdReply {
  import opened Bytes
  import opened NscdModel
  import opened NscdInvariant
  import opened NscdFrame
  import opened NscdSweep
  import opened NscdServe

  /** A closed entry of the table that the wake-up loop would take for a waiter:
      close_client() leaves cache_pp as it was. */
  ghost predicate StaleWaiter(s: State, i: nat, j: nat) {
    && j < |s.clients| && s.clients[j].fd == 0
    && ClientAt(s, i).cachePp.At? && s.clients[j].cachePp == ClientAt(s, i).cachePp
    && SharedSlot(s, ClientAt(s, i).cachePp.slot)
  }

  ghost predicate WakeSafe(s: State, i: nat) {
    forall j: nat :: !StaleWaiter(s, i, j)
  }

  ghost predicate Owning(s: State, i: nat) {
    i < |s.clients| && IsOwner(s.clients[i])
  }

  /** What the arrival of a reply, good or not, changes. */
  ghost predicate Delivers(s: State, i: nat, out: seq<byte>, r: State) {
    var c := ClientAt(s, i);
    var ok := ValidReply(out);
    var resp := if ok then Some(s.nextId) else None;
    && Owning(s, i)
    && r.cfg == s.cfg && r.accepting == s.accepting && r.bufs == s.bufs && r.busy == s.busy && r.nextBuf == s.nextBuf
       && r.now == s.now && r.nextFd == s.nextFd
    && r.fds == s.fds - {c.fd}
    && |r.clients| == |s.clients|
    && (forall j: nat :: j < |s.clients| ==>
          r.clients[j] == if j in WakeSet(s, i) then Prepared(Unmatched(s.clients[j]), resp, s.now) else s.clients[j])
    && (if c.cachePp.At? then c.cachePp.slot < |s.cache|
       && r.cache == s.cache[c.cachePp.slot := if ok then Done(s.nextId) else Empty]
        else r.cache == s.cache)
    && (if ok then
          && r.heap == s.heap[s.nextId := Block(KeyOf(BufAt(s, c.bufidx)), ReplyBytes(out),
                                                if c.cachePp.At? then |WakeSet(s, i)| else 0, s.now / 256)]
          && r.nextId == s.nextId + 1
          && r.answers == s.answers + {Answer(KeyOf(BufAt(s, c.bufidx)), out)}
        else
          r.heap == s.heap && r.nextId == s.nextId && r.answers == s.answers)
  }

  lemma DeliverEffect(s: State, i: nat, out: seq<byte>)
    requires Core(s) && Owning(s, i)
    ensures Delivers(s, i, out, HandleWorkerResponse(s, i, out))
  {
    assert EntryOk(s, i);
  }

  /** The clients woken are the owner and its waiters, all of them open and all
      of them asking for the same thing. */
  lemma WakeSetOk(s: State, i: nat)
    requires Core(s) && Owning(s, i) && WakeSafe(s, i)
    ensures i in WakeSet(s, i)
    ensures forall j: nat :: j in WakeSet(s, i) ==>
      && j < |s.clients| && s.clients[j].fd != 0 && !IsWriting(s.clients[j]) && !IsReading(s.clients[j])
      && s.clients[j].cachePp == s.clients[i].cachePp
      && AskedKey(s, j) == AskedKey(s, i)
      && (j == i || IsWaiter(s.clients[j]))
    ensures forall j: nat ::
      j < |s.clients| && s.clients[j].fd != 0 && j !in WakeSet(s, i) && s.clients[j].cachePp.At? ==>
        s.clients[j].cachePp != s.clients[i].cachePp
  {
    assert EntryOk(s, i);
    forall j: nat | j in WakeSet(s, i)
      ensures && j < |s.clients| && s.clients[j].fd != 0 && !IsWriting(s.clients[j]) && !IsReading(s.clients[j])
              && s.clients[j].cachePp == s.clients[i].cachePp
              && AskedKey(s, j) == AskedKey(s, i)
              && (j == i || IsWaiter(s.clients[j]))
    {
      assert EntryOk(s, j) && !StaleWaiter(s, i, j) && BufsDiffer(s, i, j);
    }
    forall j: nat | j < |s.clients| && s.clients[j].fd != 0 && j !in WakeSet(s, i) && s.clients[j].cachePp.At?
      ensures s.clients[j].cachePp != s.clients[i].cachePp
    {
      assert EntryOk(s, j) && BufsDiffer(s, i, j);
    }
  }

  lemma OldBlocksStay(s: State, i: nat, out: seq<byte>, r: State, b: nat)
    requires Delivers(s, i, out, r) && History(s)
    ensures b in s.heap ==> b in r.heap && r.heap[b] == s.heap[b]
  {
    assert BlockOk(s, b);
  }

  lemma WokenOk(s: State, i: nat, out: seq<byte>, r: State, j: nat)
    requires Core(s) && Delivers(s, i, out, r) && WakeSafe(s, i) && j in WakeSet(s, i)
    ensures j < |s.clients| && IsWriting(r.clients[j]) && ClientOk(r, r.clients[j])
  {
    WakeSetOk(s, i);
    assert EntryOk(s, j) && EntryOk(s, i);
    if j != i { Apart(s, i, j); }
  }

  lemma UnwokenOk(s: State, i: nat, out: seq<byte>, r: State, j: nat)
    requires Core(s) && Delivers(s, i, out, r) && WakeSafe(s, i)
    requires j < |s.clients| && s.clients[j].fd != 0 && j !in WakeSet(s, i)
    ensures ClientOk(r, s.clients[j])
  {
    var d := s.clients[j];
    WakeSetOk(s, i);
    assert EntryOk(s, j) && EntryOk(s, i);
    Apart(s, i, j);
    if d.resptr.Some? { OldBlocksStay(s, i, out, r, d.resptr.value); }
    if d.cachePp.At? { OtherSlotStays(s, i, out, r, d.cachePp.slot); }
    ClientFrame(s, r, d);
  }

  lemma OtherSlotStays(s: State, i: nat, out: seq<byte>, r: State, k: nat)
    requires Core(s) && Delivers(s, i, out, r) && s.clients[i].cachePp != At(k)
    ensures SameSlot(s, r, k) && SlotAt(r, k) == SlotAt(s, k)
    ensures SlotAt(s, k).Done? ==> SlotAt(s, k).blk in r.heap
  {
    assert SlotOk(s, k);
    if SlotAt(s, k).Done? { OldBlocksStay(s, i, out, r, SlotAt(s, k).blk); }
  }

  lemma DeliverSlot(s: State, i: nat, out: seq<byte>, r: State, k: nat)
    requires Core(s) && Delivers(s, i, out, r) && WakeSafe(s, i)
    ensures SlotOk(r, k)
    ensures SlotAt(r, k) != Empty ==> SlotAt(s, k) != Empty && SlotKey(r, k) == SlotKey(s, k)
  {
    assert SlotOk(s, k) && EntryOk(s, i);
    if s.clients[i].cachePp != At(k) {
      OtherSlotStays(s, i, out, r, k);
      if SlotAt(s, k).Future? {
        var j: nat :| OwnsSlot(s, j, k);
        OwnerStays(s, i, out, r, j, k);
      }
    }
  }

  lemma OwnerStays(s: State, i: nat, out: seq<byte>, r: State, j: nat, k: nat)
    requires Core(s) && Delivers(s, i, out, r) && WakeSafe(s, i) && OwnsSlot(s, j, k) && s.clients[i].cachePp != At(k)
    ensures OwnsSlot(r, j, k)
  {
    WakeSetOk(s, i);
  }

  lemma DeliverTables(s: State, i: nat, out: seq<byte>, r: State)
    requires Core(s) && Delivers(s, i, out, r) && WakeSafe(s, i)
    ensures Tables(r)
  {
    forall j: nat ensures EntryOk(r, j) {
      assert EntryOk(s, j);
      if j < |s.clients| {
        if j in WakeSet(s, i) { WokenOk(s, i, out, r, j); }
        else if s.clients[j].fd != 0 { UnwokenOk(s, i, out, r, j); }
      }
    }
    forall k: nat ensures SlotOk(r, k) { DeliverSlot(s, i, out, r, k); }
    forall j: nat, l: nat ensures KeysDiffer(r, j, l) {
      DeliverSlot(s, i, out, r, j);
      DeliverSlot(s, i, out, r, l);
      assert KeysDiffer(s, j, l);
    }
    WakeSetOk(s, i);
    forall j: nat, l: nat ensures BufsDiffer(r, j, l) { assert BufsDiffer(s, j, l); }
    forall u: nat ensures BufOwned(r, u) {
      assert BufOwned(s, u);
      if u < |r.busy| && r.busy[u] {
        var j: nat :| UsesBuf(s, j, u);
        assert UsesBuf(r, j, u) by { if j in WakeSet(s, i) { WokenOk(s, i, out, r, j); } }
      }
    }
  }

  lemma DeliverRefs(s: State, i: nat, out: seq<byte>, r: State)
    requires Core(s) && Delivers(s, i, out, r) && WakeSafe(s, i)
    ensures Refs(r)
  {
    WakeSetOk(s, i);
    NoPointerYet(s);
    forall b: nat ensures RefOk(r, b) {
      assert RefOk(s, b);
      DeliverHolders(s, i, out, r, b);
    }
  }

  lemma NoPointerYet(s: State)
    requires Core(s)
    ensures SlotsOf(s, s.nextId) == {} && HoldersOf(s, s.nextId) == {}
  {
    assert BlockOk(s, s.nextId);
    forall k: nat ensures SlotAt(s, k) != Done(s.nextId) { assert SlotOk(s, k); }
    forall j: nat ensures j !in HoldersOf(s, s.nextId) { assert EntryOk(s, j); }
    assert forall k: nat :: k < |s.cache| ==> SlotAt(s, k) == s.cache[k];
  }

  lemma DeliverHolders(s: State, i: nat, out: seq<byte>, r: State, b: nat)
    requires Core(s) && Delivers(s, i, out, r) && WakeSafe(s, i)
    requires SlotsOf(s, s.nextId) == {} && HoldersOf(s, s.nextId) == {}
    ensures if ValidReply(out) && b == s.nextId then
              HoldersOf(r, b) == WakeSet(s, i)
              && SlotsOf(r, b) == (if s.clients[i].cachePp.At? then {s.clients[i].cachePp.slot} else {})
            else
              HoldersOf(r, b) == HoldersOf(s, b) && SlotsOf(r, b) == SlotsOf(s, b)
  {
    WakeSetOk(s, i);
    assert EntryOk(s, i);
    var made := ValidReply(out) && b == s.nextId;
    forall j: nat ensures j in HoldersOf(r, b) <==> if made then j in WakeSet(s, i) else j in HoldersOf(s, b) {
      if j < |s.clients| {
        assert EntryOk(s, j);
        assert j in HoldersOf(s, b) ==> b != s.nextId;
      }
    }
    forall k: nat ensures k in SlotsOf(r, b) <==> if made then s.clients[i].cachePp == At(k) else k in SlotsOf(s, b) {
      if k < |s.cache| { assert s.cache[k] == Done(b) ==> k in SlotsOf(s, b); }
    }
  }

  lemma DeliverFds(s: State, i: nat, out: seq<byte>, r: State)
    requires Core(s) && Delivers(s, i, out, r) && WakeSafe(s, i)
    ensures Fds(r)
  {
    WakeSetOk(s, i);
    forall j: nat | j < |s.clients|
      ensures (r.clients[j].fd == 0 <==> s.clients[j].fd == 0)
      ensures s.clients[j].fd != 0 ==> SockFd(r.clients[j]) == SockFd(s.clients[j])
      ensures s.clients[j].fd != 0 ==> r.clients[j].fd == s.clients[j].fd || r.clients[j].fd == SockFd(s.clients[j])
      ensures j != i && s.clients[j].fd != 0 ==> r.clients[j].fd == s.clients[j].fd
    {
      assert EntryOk(s, j);
    }
    forall fd: int ensures FdOwned(r, fd) {
      assert FdOwned(s, fd);
      if fd in r.fds {
        var j: nat :| UsesFd(s, j, fd);
        assert UsesFd(r, j, fd);
      }
    }
    forall j: nat, l: nat ensures FdsDiffer(r, j, l) { assert FdsDiffer(s, j, l); }
  }

  lemma DeliverHistory(s: State, i: nat, out: seq<byte>, r: State)
    requires Core(s) && Delivers(s, i, out, r) && r.served == s.served
    ensures History(r)
  {
    forall b: nat ensures BlockOk(r, b) {
      assert BlockOk(s, b);
      if b in r.heap {
        if b in s.heap {
          OldBlocksStay(s, i, out, r, b);
          var a :| Answers(s, a, s.heap[b].key, s.heap[b].resp);
          assert Answers(r, a, r.heap[b].key, r.heap[b].resp);
        } else {
          assert EntryOk(s, i);
          assert Answers(r, Answer(AskedKey(s, i), out), r.heap[b].key, r.heap[b].resp);
          SizeWord(out);
        }
      }
    }
    forall e | e in r.served ensures ServedOk(r, e) {
      assert ServedOk(s, e);
    }
  }

  /** The size word of a kept reply is its length. */
  lemma SizeWord(out: seq<byte>)
    requires ValidReply(out)
    ensures U32(ReplyBytes(out), 0) == |ReplyBytes(out)|
  {
    assert forall j :: 0 <= j < 4 ==> ReplyBytes(out)[j] == ReplyBytes(out)[..8][j] == out[..8][j] == out[j];
  }

  /** The counters after a reply. */
  ghost predicate DeliversRest(s: State, i: nat, out: seq<byte>, r: State) {
    && r.served == s.served && r.exited == s.exited && r.lastAge == s.lastAge
    && r.cntClosed == s.cntClosed && r.minClosed == s.minClosed
    && r.cachedCnt == s.cachedCnt && r.accessCnt == s.accessCnt && r.hitCnt == s.hitCnt
    && r.failedFills == (if ClientAt(s, i).cachePp.At? && !ValidReply(out) then s.failedFills + 1 else s.failedFills)
    && r.agingMs == s.minAgingMs && r.minAgingMs == s.minAgingMs
  }

  lemma DeliverRestEffect(s: State, i: nat, out: seq<byte>)
    ensures DeliversRest(s, i, out, HandleWorkerResponse(s, i, out))
  {
  }

  lemma DeliverClosed(s: State, i: nat, out: seq<byte>, r: State)
    requires Core(s) && ClosedOk(s) && Delivers(s, i, out, r) && DeliversRest(s, i, out, r) && WakeSafe(s, i)
    ensures ClosedOk(r)
  {
    forall j: nat | j < |s.clients| ensures r.clients[j].fd == 0 <==> s.clients[j].fd == 0 {
      if j in WakeSet(s, i) { WokenOk(s, i, out, r, j); WakeSetOk(s, i); }
    }
    ClosedFrame(s, r);
  }

  lemma DeliverCached(s: State, i: nat, out: seq<byte>, r: State)
    requires Core(s) && CachedOk(s) && Delivers(s, i, out, r) && DeliversRest(s, i, out, r)
    ensures CachedOk(r)
  {
    DeliverOccupied(s, i, out, r);
  }

  lemma DeliverOccupied(s: State, i: nat, out: seq<byte>, r: State)
    requires Core(s) && Delivers(s, i, out, r)
    ensures |Occupied(r)| == |Occupied(s)| - if s.clients[i].cachePp.At? && !ValidReply(out) then 1 else 0
  {
    assert EntryOk(s, i);
    if s.clients[i].cachePp.At? {
      var k := s.clients[i].cachePp.slot;
      assert k in Occupied(s);
      assert Occupied(r) == if ValidReply(out) then Occupied(s) else Occupied(s) - {k};
    } else {
      assert Occupied(r) == Occupied(s);
    }
  }

  /** A reply keeps the invariant when no closed entry waits for it. */
  lemma DeliverInv(s: State, i: nat, out: seq<byte>)
    requires Inv(s) && Owning(s, i) && WakeSafe(s, i)
    ensures Inv(HandleWorkerResponse(s, i, out))
  {
    var r := HandleWorkerResponse(s, i, out);
    DeliverEffect(s, i, out);
    DeliverRestEffect(s, i, out);
    DeliverTables(s, i, out, r);
    DeliverRefs(s, i, out, r);
    DeliverFds(s, i, out, r);
    DeliverHistory(s, i, out, r);
    DeliverClosed(s, i, out, r);
    DeliverCached(s, i, out, r);
  }

  /** With a stale waiter a closed entry is opened again while cnt_closed
      still counts it. */
  lemma StaleWaiterReopens(s: State, i: nat, out: seq<byte>, j: nat)
    requires Core(s) && ClosedOk(s) && Owning(s, i) && StaleWaiter(s, i, j)
    ensures var r := HandleWorkerResponse(s, i, out); r.clients[j].fd != 0 && !ClosedOk(r)
  {
    var r := HandleWorkerResponse(s, i, out);
    DeliverEffect(s, i, out);
    DeliverRestEffect(s, i, out);
    assert EntryOk(s, j);
    assert j in ClosedSet(s) && j !in ClosedSet(r);
    forall l: nat ensures l in ClosedSet(r) ==> l in ClosedSet(s) {
      assert EntryOk(s, l);
    }
    SmallerSet(ClosedSet(r), ClosedSet(s) - {j});
  }

  /** Exactly when handling a worker's result keeps the invariant. */
  lemma ReplyKeepsInvariantIff(s: State, i: nat, out: seq<byte>)
    requires Inv(s) && Owning(s, i)
    ensures Inv(HandleWorkerResponse(s, i, out)) <==> WakeSafe(s, i)
  {
    if WakeSafe(s, i) {
      DeliverInv(s, i, out);
    } else {
      var j: nat :| StaleWaiter(s, i, j);
      StaleWaiterReopens(s, i, out, j);
    }
  }

  /** One result, good or bad, moves the owner and every open client that waits
      at its slot to writing, and nobody else. */
  lemma NoLostWakeUp(s: State, i: nat, out: seq<byte>, j: nat)
    requires Inv(s) && Owning(s, i) && WakeSafe(s, i) && j < |s.clients| && s.clients[j].fd != 0
    ensures var r := HandleWorkerResponse(s, i, out);
            if j == i || (IsWaiter(s.clients[j]) && s.clients[j].cachePp == s.clients[i].cachePp)
            then IsWriting(r.clients[j]) && (r.clients[j].resptr == if ValidReply(out) then Some(s.nextId) else None)
            else r.clients[j] == s.clients[j]
  {
    DeliverEffect(s, i, out);
    WakeSetOk(s, i);
    assert EntryOk(s, i) && EntryOk(s, j);
  }

  lemma {:induction false} SmallerSet(a: set<nat>, b: set<nat>)
    requires a <= b
    ensures |a| <= |b|
  {
    if a != {} {
      var x :| x in a;
      SmallerSet(a - {x}, b - {x});
    }
  }
}
