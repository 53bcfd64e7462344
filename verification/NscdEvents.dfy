/** The loop over the polled descriptors. */
module NscdEvents {
  import opened Bytes
  import opened NscdModel
  import opened NscdInvariant
  import opened NscdSweep
  import opened NscdServe
  import opened NscdClose
  import opened NscdReply
  import opened NscdTransfer
  import opened NscdRequest

  /** What poll() may report of a client.  The pipe of a worker shows only
      POLLIN and POLLHUP. */
  ghost predicate PollOffers(c: Client, ev: Event) {
    && (ev.revents.pin ==> c.events.pin)
    && (ev.revents.pout ==> c.events.pout)
    && (IsOwner(c) ==> !ev.revents.pout && !ev.revents.perr)
  }

  /** Where the pipe of a worker shows POLLIN, a whole reply is on its way. */
  ghost predicate GoodReply(c: Client, ev: Event) {
    IsOwner(c) && ev.revents.pin ==> ValidReply(ev.out)
  }

  ghost predicate PollOk(c: Client, ev: Event) {
    PollOffers(c, ev) && GoodReply(c, ev)
  }

  // -------------------------------------------- what a turn does to others

  ghost predicate OnlyClient(s: State, i: nat, r: State) {
    && |r.clients| == |s.clients|
    && (forall j: nat :: j < |s.clients| && j != i ==> r.clients[j] == s.clients[j])
  }

  lemma {:induction false} SweepClients(s: State, k: nat, f: Flush)
    ensures AgeSlots(s, k, f).clients == s.clients
  {
    if k > 0 {
      SweepClients(s, k - 1, f);
      AgeSlotRest(AgeSlots(s, k - 1, f), k - 1, f);
    }
  }

  lemma ServeOnly(s: State, i: nat)
    ensures OnlyClient(s, i, Serve(s, i).0)
  {
    var u := ClientAt(s, i).bufidx;
    LookupOnly(s, u);
    ServeAtOnly(Lookup(s, u).0, i, Lookup(s, u).1);
  }

  lemma LookupOnly(s: State, u: nat)
    ensures Lookup(s, u).0.clients == s.clients
  {
  }

  lemma ServeAtOnly(s: State, i: nat, pp: CachePtr)
    ensures OnlyClient(s, i, ServeAt(s, i, pp).0)
  {
  }

  lemma CloseOnly(s: State, i: nat)
    ensures OnlyClient(s, i, CloseClient(s, i))
    ensures i < |s.clients| ==> CloseClient(s, i).clients[i].cachePp == s.clients[i].cachePp
  {
  }

  lemma HandleClientOnly(s: State, i: nat, ev: Event)
    ensures OnlyClient(s, i, HandleClient(s, i, ev).0)
  {
    match Judge(s.cfg, BufAt(s, ClientAt(s, i).bufidx), ev)
    case Drop => CloseOnly(s, i);
    case ReadMore =>
    case Exit =>
    case FlushAll =>
      SweepClients(s.(agingMs := INT_MAX), |s.cache|, All);
      CloseOnly(AgeCache(s, All), i);
    case Query(flush) =>
      var f := Service(KeySrv(AskedKey(s, i)));
      SweepClients(s.(agingMs := INT_MAX), |s.cache|, f);
      ServeOnly(if flush then AgeCache(s, f) else s, i);
  }

  lemma WriteOutOnly(s: State, i: nat, w: WriteResult)
    ensures OnlyClient(s, i, WriteOut(s, i, w))
    ensures i < |s.clients| ==> WriteOut(s, i, w).clients[i].cachePp == s.clients[i].cachePp
  {
    CloseOnly(s, i);
    if w.Took? {
      var c := ClientAt(s, i);
      var s1 := Progress(s, i, Min(w.n, Remaining(s, i)));
      CloseOnly(s1.(served := s1.served + [Served(c.fd, BufAt(s, c.bufidx), FdSent(s1, c.fd))]), i);
    }
  }

  lemma ReadRequestOnly(s: State, i: nat, ev: Event)
    ensures OnlyClient(s, i, ReadRequest(s, i, ev))
  {
    CloseOnly(s, i);
    if ev.read.Got? {
      var s1 := Received(s, i, ReadData(s, i, ev.read.data));
      HandleClientOnly(s1, i, ev);
      WriteOutOnly(HandleClient(s1, i, ev).0, i, ev.write);
    }
  }

  // ------------------------------------------------------------ one turn

  /** Everybody else stays or, having waited, is woken. */
  ghost predicate OthersStayOrWake(s: State, i: nat, r: State) {
    && |r.clients| == |s.clients|
    && (forall j: nat :: j < |s.clients| && j != i ==> StaysOrWakes(s.clients[j], r.clients[j]))
  }

  ghost predicate StaysOrWakes(c: Client, d: Client) {
    d == c || (IsWaiter(c) && IsWriting(d))
  }

  /** An entry that a turn leaves closed with the address of a cache slot. */
  ghost predicate LeftStale(s: State, i: nat, r: State) {
    && i < |s.clients| && i < |r.clients|
    && r.clients[i].fd == 0 && r.clients[i].cachePp.At?
  }

  ghost predicate TurnOk(s: State, i: nat, ev: Event, r: State) {
    && Inv(r)
    && OthersStayOrWake(s, i, r)
    && (LeftStale(s, i, r) ==>
          IsWaiter(s.clients[i]) && r.clients[i].cachePp == s.clients[i].cachePp && ev.revents != NO_EVENTS)
  }

  lemma OwnerReply(s: State, i: nat, out: seq<byte>, r: State)
    requires Inv(s) && Owning(s, i) && WakeSafe(s, i) && r == HandleWorkerResponse(s, i, out)
    ensures Inv(r) && OthersStayOrWake(s, i, r)
    ensures IsWriting(r.clients[i]) && !r.clients[i].cachePp.At?
    ensures ValidReply(out) ==> CanSend(r, i, 0)
  {
    DeliverEffect(s, i, out);
    DeliverInv(s, i, out);
    WakeSetOk(s, i);
    assert EntryOk(s, i) && EntryOk(r, i);
    forall j: nat | j < |s.clients| && j != i ensures StaysOrWakes(s.clients[j], r.clients[j]) {
      if j in WakeSet(s, i) { assert EntryOk(s, j); }
    }
  }

  lemma OwnerTurn(s: State, i: nat, ev: Event)
    requires Inv(s) && Owning(s, i) && WakeSafe(s, i) && PollOk(s.clients[i], ev) && !s.exited
    ensures TurnOk(s, i, ev, HandleEvent(s, i, ev))
  {
    var t := HandleWorkerResponse(s, i, ev.out);
    OwnerReply(s, i, ev.out, t);
    if ev.revents.pin { OwnerWrites(s, i, ev, t); }
  }

  lemma OwnerWrites(s: State, i: nat, ev: Event, t: State)
    requires Inv(t) && OthersStayOrWake(s, i, t) && CanSend(t, i, 0) && !t.clients[i].cachePp.At?
    ensures TurnOk(s, i, ev, WriteOut(t, i, ev.write))
  {
    WriteOutInv(t, i, ev.write);
    WriteOutOnly(t, i, ev.write);
  }

  lemma ClientTurn(s: State, i: nat, ev: Event)
    requires Inv(s) && i < |s.clients| && s.clients[i].fd != 0 && !IsOwner(s.clients[i])
    requires PollOk(s.clients[i], ev) && !s.exited
    ensures TurnOk(s, i, ev, HandleEvent(s, i, ev))
  {
    var c := s.clients[i];
    assert EntryOk(s, i);
    if ev.revents == POLLOUT && c.resptr.Some? {
      WriteOutInv(s, i, ev.write);
      WriteOutOnly(s, i, ev.write);
    } else if ev.revents == POLLIN {
      ReadRequestInv(s, i, ev);
      ReadRequestOnly(s, i, ev);
      assert EntryOk(ReadRequest(s, i, ev), i);
      ReadNeverStale(s, i, ev);
    } else if ev.revents != NO_EVENTS {
      CloseInv(s, i);
      CloseOnly(s, i);
    }
  }

  /** A client closed while it is read from had no cache slot. */
  lemma ReadNeverStale(s: State, i: nat, ev: Event)
    requires Inv(s) && i < |s.clients| && IsReading(s.clients[i])
    ensures !LeftStale(s, i, ReadRequest(s, i, ev))
  {
    assert EntryOk(s, i);
    CloseOnly(s, i);
    if ev.read.Got? {
      var data := ReadData(s, i, ev.read.data);
      var s1 := Received(s, i, data);
      if data != [] {
        ReceiveInv(s, i, data);
        HandleNeverStale(s1, i, ev);
        var (s2, ready) := HandleClient(s1, i, ev);
        if ready {
          HandleClientInv(s1, i, ev);
          assert EntryOk(s2, i);
          WriteOutOnly(s2, i, ev.write);
        }
      }
    }
  }

  lemma HandleNeverStale(s: State, i: nat, ev: Event)
    requires Inv(s) && i < |s.clients| && IsReading(s.clients[i])
    ensures !LeftStale(s, i, HandleClient(s, i, ev).0)
  {
    assert EntryOk(s, i);
    match Judge(s.cfg, BufAt(s, s.clients[i].bufidx), ev)
    case Drop => CloseOnly(s, i);
    case ReadMore =>
    case Exit =>
    case FlushAll =>
      ClientsAfterSweep(s, All);
      CloseOnly(AgeCache(s, All), i);
    case Query(flush) =>
      var f := Service(KeySrv(AskedKey(s, i)));
      ClientsAfterSweep(s, f);
      ServeStaysOpen(if flush then AgeCache(s, f) else s, i);
  }

  lemma ServeStaysOpen(s: State, i: nat)
    requires i < |s.clients| && s.clients[i].fd != 0 && s.nextFd != 0
    ensures ClientAt(Serve(s, i).0, i).fd != 0
  {
    var u := ClientAt(s, i).bufidx;
    LookupOnly(s, u);
    LookupNextFd(s, u);
    ServeAtStaysOpen(Lookup(s, u).0, i, Lookup(s, u).1);
  }

  lemma LookupNextFd(s: State, u: nat)
    ensures Lookup(s, u).0.nextFd == s.nextFd
  {
  }

  lemma ServeAtStaysOpen(s: State, i: nat, pp: CachePtr)
    requires i < |s.clients| && s.clients[i].fd != 0 && s.nextFd != 0
    ensures ClientAt(ServeAt(s, i, pp).0, i).fd != 0
  {
  }
}
