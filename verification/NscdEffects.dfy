/** What the steps of the daemon come to for a client: said of the state before
    and the state after, not of the functions that lead from one to the other. */
module NscdEffects {
  import opened Bytes
  import opened NscdModel
  import opened NscdInvariant
  import opened NscdSweep
  import opened NscdServe
  import opened NscdClose
  import opened NscdReply
  import opened NscdTransfer
  import opened NscdRequest
  import opened NscdEvents
  import opened NscdAccept
  import opened NscdTheorems
  import opened NscdClock
  import opened NscdVerdict
  import opened NscdProgress
  import opened NscdReading

  // ------------------------------------------------------------ handle_client()

  /** A request to shut down, and one to flush the cache, that are obeyed. */
  ghost predicate ShutdownOk(req: seq<byte>, ev: Event) {
    ev.callerIsRoot && HeaderOk(req) && Complete(req) && U32(req, 4) == 8
  }

  ghost predicate InvalidateOk(req: seq<byte>, ev: Event) {
    && ev.callerIsRoot && HeaderOk(req) && Complete(req) && U32(req, 4) == 10
    && |req| > USER_HDR_SIZE && KeyTerminated(req)
  }

  /** INVALIDATE from root empties the cache but for the futures, closes the
      client, and does nothing to the others. */
  lemma InvalidateEmpties(s: State, i: nat, ev: Event, k: nat)
    requires Inv(s) && i < |s.clients| && IsReading(s.clients[i]) && InvalidateOk(Request(s, i), ev)
    ensures var (r, ready) := HandleClient(s, i, ev);
            && !ready && Closed(s, i, r)
            && SlotAt(r, k) == if SlotAt(s, k).Done? then Empty else SlotAt(s, k)
  {
    var m := AgeCache(s, All);
    FlushAllIsExact(s, k);
    SweepInv(s, All);
    SweptCache(s, All);
    CloseDrops(m, i);
  }

  /** What is not a query and not INVALIDATE: the client is left to go on, the
      daemon is to exit, or the client is closed with the cache as it was. */
  lemma OtherRequests(s: State, i: nat, ev: Event)
    requires Inv(s) && i < |s.clients| && IsReading(s.clients[i])
    ensures var req := Request(s, i);
            var (r, ready) := HandleClient(s, i, ev);
            && (|req| < USER_HDR_SIZE || |req| < Needed(req) ==> !ready && r == s)
            && (ShutdownOk(req, ev) ==> !ready && r == s.(exited := true))
            && (|req| >= USER_HDR_SIZE && |req| >= Needed(req)
                && !ShutdownOk(req, ev) && !InvalidateOk(req, ev) && !QueryOk(s.cfg, req) ==>
                  !ready && Dropped(s, i, r))
  {
    var req := Request(s, i);
    RootOnly(s.cfg, req, ev);
    if |req| >= USER_HDR_SIZE {
      PrefixVerdict(s.cfg, req, ev, |req|);
      assert req[..|req|] == req;
    }
    QueryIff(s.cfg, req, ev, true);
    QueryIff(s.cfg, req, ev, false);
    CloseDrops(s, i);
  }

  // ---------------------------------------------------------------- a query

  /** Client i writes from the beginning of this reply to its own request. */
  ghost predicate HasReply(s: State, i: nat, key: seq<byte>, resp: seq<byte>) {
    && i < |s.clients| && IsWriting(s.clients[i]) && s.clients[i].respos == 0
    && s.clients[i].resptr.Some?
    && Blk(s, s.clients[i].resptr.value).key == key && Blk(s, s.clients[i].resptr.value).resp == resp
    && IsSock(s, s.clients[i].fd, [])
  }

  /** Client i waits, at the shared slot of its request, for somebody else's worker. */
  ghost predicate WaitsForOther(s: State, i: nat, key: seq<byte>) {
    && i < |s.clients| && IsWaiter(s.clients[i]) && s.clients[i].cachePp.At?
    && SharedSlot(s, s.clients[i].cachePp.slot) && SlotKey(s, s.clients[i].cachePp.slot) == key
  }

  /** A worker was fed the request of client i and is waited for in its stead. */
  ghost predicate WaitsForOwn(s: State, i: nat, r: State) {
    && i < |s.clients| && i < |r.clients| && IsOwner(r.clients[i])
    && r.clients[i].clientFd == s.clients[i].fd && r.clients[i].fd !in s.fds
    && r.fds == s.fds[r.clients[i].fd := Pipe(Request(s, i))]
  }

  lemma HitOutcome(s: State, i: nat, k: nat, b: nat)
    requires Core(s) && Hits(s, i, k, b)
    ensures var r := Retain(s, i, b);
            HasReply(r, i, AskedKey(s, i), Blk(s, b).resp) && r.cache == s.cache && r.served == s.served
  {
    assert EntryOk(s, i);
  }

  lemma FoundOutcome(s: State, i: nat, k: nat)
    requires Core(s) && Counts(s) && Asking(s, i) && ScanLine(CountAccess(s), AskedKey(s, i)) == Found(k)
    ensures var (r, ready) := Serve(s, i);
            && MapOf(s, AskedKey(s, i)) == Some(EntryAt(s, k))
            && match EntryAt(s, k)
               case Have(resp) =>
                 ready && HasReply(r, i, AskedKey(s, i), resp) && r.cache == s.cache && r.served == s.served
               case Pending => !ready && WaitsForOther(r, i, AskedKey(s, i)) && r.fds == s.fds
  {
    ServeFound(s, i, k);
    MapAt(s, k);
    if SlotAt(s, k).Done? { HitOutcome(HitCounted(s), i, k, SlotAt(s, k).blk); }
  }

  /** The worker's result is to go to a slot set aside, or to nobody else where
      the line has no room. */
  ghost predicate Missed(s: State, i: nat, r: State) {
    && WaitsForOwn(s, i, r)
    && match r.clients[i].cachePp
       case At(k) => SlotAt(r, k) == Future(s.clients[i].bufidx, false)
       case Null => LineTooYoung(s, AskedKey(s, i))
       case Taken => false
  }

  lemma ClaimedOutcome(s: State, i: nat, k: nat)
    requires Core(s) && Claims(s, i, k)
    ensures Missed(s, i, Claim(s, i, k))
  {
    ClaimEffect(s, i, k);
    NewFd(s);
    assert EntryOk(s, i) && FdOwned(s, s.clients[i].fd);
  }

  /** Counters and evictions make no difference. */
  lemma MissedFrame(s: State, s1: State, i: nat, r: State)
    requires Missed(s1, i, r) && r.clients[i].cachePp.At?
    requires s1.clients == s.clients && s1.fds == s.fds && s1.bufs == s.bufs
    ensures Missed(s, i, r)
  {
  }

  lemma FreeOutcome(s: State, i: nat, f: nat)
    requires Core(s) && Counts(s) && Asking(s, i) && ScanLine(CountAccess(s), AskedKey(s, i)) == Free(f)
    ensures !Serve(s, i).1 && Missed(s, i, Serve(s, i).0)
  {
    ServeFree(s, i, f);
    ClaimedOutcome(FreeCounted(s), i, f);
    ClaimEffect(FreeCounted(s), i, f);
    MissedFrame(s, FreeCounted(s), i, Claim(FreeCounted(s), i, f));
  }

  lemma EvictOutcome(s: State, i: nat, o: nat)
    requires Core(s) && Counts(s) && Asking(s, i) && ScanLine(CountAccess(s), AskedKey(s, i)) == Evict(o)
    ensures !Serve(s, i).1 && Missed(s, i, Serve(s, i).0)
  {
    var s2 := FreeSlot(CountAccess(s), o);
    ServeEvict(s, i, o);
    ClaimedOutcome(s2, i, o);
    ClaimEffect(s2, i, o);
    MissedFrame(s, s2, i, Claim(s2, i, o));
  }

  lemma NoRoomOutcome(s: State, i: nat)
    requires Core(s) && Asking(s, i) && ScanLine(CountAccess(s), AskedKey(s, i)) == NoRoom
    ensures !Serve(s, i).1 && Missed(s, i, Serve(s, i).0)
  {
    ServeNoRoom(s, i);
    NoRoomMeans(s, AskedKey(s, i));
    NewFd(s);
    assert EntryOk(s, i) && FdOwned(s, s.clients[i].fd);
  }

  /** What a query comes to, by what the cache has for it: a reply, which the
      client is ready to be written; another's worker, which it waits for; or
      nothing, and a worker is fed the request, with a slot set aside for the
      result unless the line has no room. */
  lemma QueryOutcome(s: State, i: nat)
    requires Core(s) && Counts(s) && Asking(s, i)
    ensures var (r, ready) := Serve(s, i);
            var key := AskedKey(s, i);
            match MapOf(s, key)
            case Some(Have(resp)) => ready && HasReply(r, i, key, resp) && r.cache == s.cache && r.served == s.served
            case Some(Pending) => !ready && WaitsForOther(r, i, key) && r.fds == s.fds
            case None => !ready && Missed(s, i, r)
  {
    var found := ScanLine(CountAccess(s), AskedKey(s, i));
    if !found.Found? { MissIsAbsent(s, AskedKey(s, i)); }
    match found
    case Found(k) => FoundOutcome(s, i, k);
    case Free(f) => FreeOutcome(s, i, f);
    case Evict(o) => EvictOutcome(s, i, o);
    case NoRoom => NoRoomOutcome(s, i);
  }

  // ------------------------------------------------------------ a worker's result

  lemma OtherEntryStays(s: State, i: nat, out: seq<byte>, r: State, k: nat, j: nat)
    requires Core(s) && Delivers(s, i, out, r) && s.clients[i].cachePp == At(k)
    ensures AgreeBut(s, r, k, j)
  {
    if j != k {
      OtherSlotStays(s, i, out, r, j);
      assert SlotOk(s, j);
      if SlotAt(s, j).Done? { OldBlocksStay(s, i, out, r, SlotAt(s, j).blk); }
    }
  }

  /** A good result turns the pending entry for the request into one with the
      reply, stamped with the time; a bad one takes it out of the cache.  No
      other entry changes. */
  lemma ResultInMap(s: State, i: nat, out: seq<byte>, k: nat, t: nat, x: seq<byte>)
    requires Inv(s) && Owning(s, i) && WakeSafe(s, i) && s.clients[i].cachePp == At(k) && s.now == ClockAt(t)
    ensures var r := HandleWorkerResponse(s, i, out);
            && MapOf(s, AskedKey(s, i)) == Some(Pending)
            && (ValidReply(out) ==> StampedAt(r, k, t, t))
            && MapOf(r, x) == if x != AskedKey(s, i) then MapOf(s, x)
                              else if ValidReply(out) then Some(Have(ReplyBytes(out))) else None
  {
    var r, key := HandleWorkerResponse(s, i, out), AskedKey(s, i);
    DeliverEffect(s, i, out);
    DeliverInv(s, i, out);
    assert EntryOk(s, i);
    MapAt(s, k);
    forall j: nat ensures AgreeBut(s, r, k, j) { OtherEntryStays(s, i, out, r, k, j); }
    if x != key {
      MapChange(s, r, k, x);
    } else if ValidReply(out) {
      MapAt(r, k);
    } else {
      forall j: nat ensures Lacks(r, j, x) { assert KeysDiffer(s, j, k) && AgreeBut(s, r, k, j); }
      MapAbsent(r, x);
    }
  }

  /** Whoever is woken has the reply to its request to write from the start, if
      it is a good one, and its 100 ms begin anew. */
  lemma WokenHasReply(s: State, i: nat, out: seq<byte>, j: nat)
    requires Inv(s) && Owning(s, i) && WakeSafe(s, i) && j in WakeSet(s, i)
    ensures var r := HandleWorkerResponse(s, i, out);
            && j < |r.clients| && IsWriting(r.clients[j]) && r.clients[j].startedMs == s.now
            && r.clients[j].fd == SockFd(s.clients[j])
            && (if ValidReply(out) then HasReply(r, j, AskedKey(s, j), ReplyBytes(out))
                else r.clients[j].resptr == None)
  {
    var r := HandleWorkerResponse(s, i, out);
    DeliverEffect(s, i, out);
    DeliverInv(s, i, out);
    WakeSetOk(s, i);
    assert EntryOk(s, j) && EntryOk(s, i) && EntryOk(r, j);
  }

  /** A reply that found something is taken whole, and not at all if its worker
      dies before the last octet. */
  lemma WholeOrNotAtAll(full: seq<byte>, n: nat)
    requires 8 <= |full| == U32(full, 0) <= MAX_REPLY_SIZE && U32(full, 4) != 0 && n < |full|
    ensures ValidReply(full) && ReplyBytes(full) == full
    ensures !ValidReply(full[..n])
  {
    if n >= 8 { assert U32(full[..n], 0) == U32(full, 0) && U32(full[..n], 4) == U32(full, 4); }
    if |full| <= FIRST_READ_SIZE { assert full + Zeros(0) == full; } else { assert full[..|full|] == full; }
  }

  // ------------------------------------------------------------- whole turns

  /** Client i of s has got this reply to this request, on its own socket, and was
      closed; nobody else was served. */
  ghost predicate ServedNow(s: State, i: nat, r: State, req: seq<byte>, resp: seq<byte>) {
    && i < |s.clients| && i < |r.clients|
    && r.clients[i].fd == 0 && SockFd(s.clients[i]) !in r.fds
    && r.served == s.served + [Served(SockFd(s.clients[i]), req, Wire(resp))]
  }

  /** Having the reply in hand, a client that takes all of it is served. */
  lemma ReplyGoesOut(s: State, i: nat, n: nat, resp: seq<byte>)
    requires Inv(s) && HasReply(s, i, AskedKey(s, i), resp) && n >= |resp|
    ensures ServedNow(s, i, WriteOut(s, i, Took(n)), Request(s, i), resp)
  {
    assert EntryOk(s, i) && BlockOk(s, s.clients[i].resptr.value);
    WriteOutcome(s, i, n);
  }

  lemma SameMapBySlots(s: State, r: State, x: seq<byte>)
    requires |r.cache| == |s.cache|
    requires forall m: nat :: SlotAt(r, m) == SlotAt(s, m) && SlotKey(r, m) == SlotKey(s, m)
                              && EntryAt(r, m) == EntryAt(s, m)
    ensures MapOf(r, x) == MapOf(s, x)
  {
    var j := FindKey(s, x, 0, |s.cache|);
    var l := FindKey(r, x, 0, |s.cache|);
    assert j <= l;
    assert l <= j;
  }

  lemma MapAfterRead(s: State, i: nat, data: seq<byte>, x: seq<byte>)
    requires Inv(s) && CanReceive(s, i, data)
    ensures MapOf(Received(s, i, data), x) == MapOf(s, x)
  {
    var r := Received(s, i, data);
    forall m: nat ensures SlotAt(r, m) == SlotAt(s, m) && SlotKey(r, m) == SlotKey(s, m)
                          && EntryAt(r, m) == EntryAt(s, m)
    {
      if SlotAt(s, m).Future? { OwnersBuffer(s, i, m); }
    }
    SameMapBySlots(s, r, x);
  }

  /** The client has sent a query that is in order and needs no flush. */
  ghost predicate QueryArrived(s: State, i: nat, ev: Event) {
    && i < |s.clients| && IsReading(s.clients[i])
    && QueryOk(s.cfg, Request(s, i)) && !(Setting(s.cfg.checkFiles, U32(Request(s, i), 4)) && ev.filesChanged)
  }

  lemma HitHandled(s: State, i: nat, ev: Event, resp: seq<byte>)
    requires Inv(s) && QueryArrived(s, i, ev) && MapOf(s, AskedKey(s, i)) == Some(Have(resp))
    ensures var (r, ready) := HandleClient(s, i, ev);
            && ready && Inv(r) && HasReply(r, i, AskedKey(s, i), resp) && r.served == s.served
            && r.bufs == s.bufs && r.clients[i].fd == s.clients[i].fd && r.clients[i].bufidx == s.clients[i].bufidx
  {
    QueryIff(s.cfg, Request(s, i), ev, false);
    HandleClientInv(s, i, ev);
    QueryOutcome(s, i);
    ServeSameClient(s, i);
  }

  lemma ServeSameClient(s: State, i: nat)
    requires i < |s.clients|
    ensures var (r, ready) := Serve(s, i);
            && r.bufs == s.bufs && |r.clients| == |s.clients|
            && r.clients[i].bufidx == s.clients[i].bufidx
            && (ready ==> r.clients[i].fd == s.clients[i].fd)
  {
    var u := ClientAt(s, i).bufidx;
    LookupOnly(s, u);
    LookupSameBufs(s, u);
    ServeAtSameClient(Lookup(s, u).0, i, Lookup(s, u).1);
  }

  lemma LookupSameBufs(s: State, u: nat)
    ensures Lookup(s, u).0.bufs == s.bufs
  {
  }

  lemma ServeAtSameClient(s: State, i: nat, pp: CachePtr)
    requires i < |s.clients|
    ensures var (r, ready) := ServeAt(s, i, pp);
            && r.bufs == s.bufs && |r.clients| == |s.clients|
            && r.clients[i].bufidx == s.clients[i].bufidx
            && (ready ==> r.clients[i].fd == s.clients[i].fd)
  {
  }

  lemma ReadAndHandled(s: State, i: nat, ev: Event, data: seq<byte>)
    requires CanReceive(s, i, data) && data != [] && !s.exited && ev.revents == POLLIN && ev.read == Got(data)
    ensures var (r, ready) := HandleClient(Received(s, i, data), i, ev);
            ready ==> HandleEvent(s, i, ev) == WriteOut(r, i, ev.write)
  {
    assert ReadData(s, i, data) == data;
  }

  lemma RequestAfterRead(s: State, i: nat, data: seq<byte>)
    requires Inv(s) && CanReceive(s, i, data)
    ensures Request(Received(s, i, data), i) == Request(s, i) + data
  {
    assert EntryOk(s, i);
  }

  /** The last octets of a query whose answer is in the cache: the client has it
      in the very same turn, if its socket takes it all. */
  lemma HitServedAtOnce(s: State, i: nat, ev: Event, data: seq<byte>, n: nat, resp: seq<byte>)
    requires Inv(s) && CanReceive(s, i, data) && data != [] && !s.exited
    requires ev.revents == POLLIN && ev.read == Got(data) && ev.write == Took(n) && n >= |resp|
    requires QueryArrived(Received(s, i, data), i, ev)
    requires MapOf(s, KeyOf(Request(s, i) + data)) == Some(Have(resp))
    ensures ServedNow(s, i, HandleEvent(s, i, ev), Request(s, i) + data, resp)
  {
    var s1 := Received(s, i, data);
    RequestAfterRead(s, i, data);
    ReadAndHandled(s, i, ev, data);
    ReceiveInv(s, i, data);
    MapAfterRead(s, i, data, KeyOf(Request(s, i) + data));
    HitHandled(s1, i, ev, resp);
    ReplyGoesOut(HandleClient(s1, i, ev).0, i, n, resp);
  }

  /** A worker's good reply goes to the client it was started for in the very
      same turn, if its socket takes it all. */
  lemma ReplyServedAtOnce(s: State, i: nat, ev: Event, n: nat)
    requires Inv(s) && Owning(s, i) && WakeSafe(s, i) && !s.exited
    requires ev.revents.pin && ValidReply(ev.out)
    requires ev.write == Took(n) && n >= |ReplyBytes(ev.out)|
    ensures ServedNow(s, i, HandleEvent(s, i, ev), Request(s, i), ReplyBytes(ev.out))
  {
    var t := HandleWorkerResponse(s, i, ev.out);
    WakeSetOk(s, i);
    WokenHasReply(s, i, ev.out, i);
    DeliverInv(s, i, ev.out);
    DeliverEffect(s, i, ev.out);
    DeliverRestEffect(s, i, ev.out);
    ReplyGoesOut(t, i, n, ReplyBytes(ev.out));
  }

  ghost predicate OddEvents(c: Client, ev: Event) {
    PollOffers(c, ev) && ev.revents !in {NO_EVENTS, POLLIN, POLLOUT}
  }

  /** Turns in which nothing is read or written: without an event, and after the
      order to exit, nothing happens; on a hang-up, an error or any odd mixture of
      bits, and where the answer did not come, the client is closed. */
  lemma OtherTurns(s: State, i: nat, ev: Event)
    requires Inv(s) && i < |s.clients| && s.clients[i].fd != 0
    ensures s.exited || ev.revents == NO_EVENTS ==> HandleEvent(s, i, ev) == s
    ensures !s.exited && !IsOwner(s.clients[i]) && OddEvents(s.clients[i], ev) ==> Dropped(s, i, HandleEvent(s, i, ev))
    ensures !s.exited && IsWriting(s.clients[i]) && ev.revents == POLLOUT && s.clients[i].resptr == None ==>
      Dropped(s, i, HandleEvent(s, i, ev))
  {
    assert EntryOk(s, i);
    if !IsOwner(s.clients[i]) { CloseDrops(s, i); }
  }

  // --------------------------------------------------------------- connections

  /** A client that has just been accepted. */
  ghost predicate JustAccepted(s: State, i: nat) {
    && i < |s.clients| && IsReading(s.clients[i]) && s.clients[i].startedMs == s.now
    && s.clients[i].respos == 0 && s.clients[i].resptr == None && s.clients[i].cachePp == Null
    && Request(s, i) == [] && IsSock(s, s.clients[i].fd, [])
  }

  /** n more clients, at the end of the table, and nothing else. */
  ghost predicate Grew(s: State, n: nat, r: State) {
    && Inv(r) && |r.clients| == |s.clients| + n && r.clients[..|s.clients|] == s.clients
    && r.cache == s.cache && r.served == s.served && r.exited == s.exited && r.cfg == s.cfg
    && (forall j: nat :: JustAccepted(s, j) ==> JustAccepted(r, j))
    && (forall j: nat :: |s.clients| <= j < |r.clients| ==> JustAccepted(r, j))
  }

  lemma OneAccepted(s: State)
    requires Inv(s) && |s.clients| + 2 < s.cfg.maxReq
    ensures Grew(s, 1, Accept(s))
  {
    var r := Accept(s);
    AcceptInv(s);
    var u: nat :| Accepts(s, u, r);
    NewFd(s);
    forall j: nat | JustAccepted(s, j) ensures JustAccepted(r, j) {
      assert EntryOk(s, j);
    }
  }

  lemma GrewOn(s: State, m: State, r: State)
    requires Grew(s, 1, m) && Grew(m, 1, r)
    ensures Grew(s, 2, r)
  {
    assert r.clients[..|s.clients|] == m.clients[..|s.clients|];
    forall j: nat | |s.clients| <= j < |r.clients| ensures JustAccepted(r, j) {
      if j < |m.clients| { assert JustAccepted(m, j); }
    }
  }

  /** Of the connections that come in on the two listeners as many are taken as
      the table has room for, each with an empty buffer and the full time. */
  lemma BothListeners(s: State, a: bool, b: bool)
    requires Inv(s) && (a || b ==> s.accepting) && !s.exited
    ensures var came := (if a then 1 else 0) + (if b then 1 else 0);
            Grew(s, Min(came, s.cfg.maxReq - 2 - |s.clients|), AcceptBoth(s, a, b))
  {
    var m := Accept(s);
    if s.accepting { OneAccepted(s); }
    if a && b && |m.clients| + 2 < s.cfg.maxReq {
      OneAccepted(m);
      GrewOn(s, m, Accept(m));
    }
  }
}
