/** Runs in which workers fail, as often as one likes, and what they do to the
    count of cached entries. */
module NscdFills {
  import opened Bytes
  import opened NscdModel
  import opened NscdInvariant
  import opened NscdSweep
  import opened NscdServe
  import opened NscdReply
  import opened NscdEvents
  import opened NscdRun
  import opened NscdTheorems
  import opened NscdRace

  /** Nobody is there and nothing is cached. */
  ghost predicate Rested(s: State) {
    Idle(s) && !s.exited && s.clients == [] && (forall k: nat :: SlotAt(s, k) == Empty) && AtStart(s)
  }

  /** One client, for whose query a worker has been started at slot k. */
  ghost predicate Awaited(s: State, k: nat) {
    && Idle(s) && !s.exited && |s.clients| == 1 && AtStart(s)
    && IsOwner(s.clients[0]) && s.clients[0].cachePp == At(k) && s.clients[0].startedMs == 0
    && k < |s.cache| && (forall j: nat :: j != k ==> SlotAt(s, j) == Empty)
  }

  /** One client that is to be told that nothing came. */
  ghost predicate Refused(s: State) {
    && Idle(s) && !s.exited && |s.clients| == 1 && AtStart(s)
    && IsWriting(s.clients[0]) && s.clients[0].resptr == None && s.clients[0].startedMs == 0
    && (forall k: nat :: SlotAt(s, k) == Empty)
  }

  function Asks(query: seq<byte>): Poll {
    Ready(0, true, false, [Reads(query)])
  }

  const WORKER_DIES := Ready(0, false, false, [HANGS_UP])

  const CLIENT_WRITABLE := Ready(0, false, false, [QUIET.(revents := POLLOUT)])

  function WorkerReplies(out: seq<byte>): Poll {
    Ready(0, false, false, [Replies(out)])
  }

  lemma OneTurn(s: State, ev: Event)
    ensures HandleEvents(s, [ev], 1) == HandleEvent(s, 0, ev)
  {
    assert HandleEvents(s, [ev], 0) == s;
  }

  /** A round with one event and nothing to accept. */
  lemma OneEvent(s: State, ev: Event)
    requires !s.exited && |s.clients| == 1 && s.now == 0
    ensures Round(s, Ready(0, false, false, [ev])) == Tail(HandleEvent(s, 0, ev))
  {
    QuietRound(s, [ev]);
    assert ForcedIn([ev], 1) == [ev];
    OneTurn(s, ev);
  }

  /** At the end of a round in which the one client has only just begun. */
  lemma NothingDue(q: State)
    requires !q.exited && |q.clients| == 1 && AtStart(q) && q.clients[0].startedMs == 0
    ensures Tail(q) == q
  {
    assert AgeIfDue(q) == q;
    assert Timeouts(q, 0) == q && Timeouts(q, 1) == q;
  }

  lemma LastGone(q: State)
    requires !q.exited && |q.clients| == 1 && q.clients[0].fd == 0 && q.cntClosed == 1 && q.minClosed == 2
    requires q.now == 0 && q.lastAge == 0 && q.agingMs > 0
    ensures Tail(q) == q.(clients := [], minClosed := INT_MAX, cntClosed := 0, accepting := true)
  {
    assert AgeIfDue(q) == q;
    assert Timeouts(q, 0) == q && Timeouts(q, 1) == q;
    assert q.clients[..0] == [];
  }

  // ------------------------------------------------------------- a query comes

  lemma AskFits(s: State, query: seq<byte>)
    requires Rested(s)
    ensures PollFits(s, Asks(query)) && |Accept(s).clients| == 1 && AcceptBoth(s, true, false) == Accept(s)
    ensures s.(now := 0) == s
  {
    Connects(s);
    forall j: nat ensures Reported(s, [Reads(query)], j) { }
    forall j: nat, i: nat ensures !Races(s, [Reads(query)], j, i) { }
  }

  lemma AwaitedClaim(s: State, k: nat, r: State)
    requires Core(s) && Claims(s, 0, k) && r == Claim(s, 0, k) && Inv(r) && |s.clients| == 1
    requires (forall j: nat :: SlotAt(s, j) == Empty) && AtStart(s) && s.clients[0].startedMs == 0 && !s.exited
    ensures Awaited(r, k) && r.cfg == s.cfg && r.failedFills == s.failedFills
  {
    ClaimFields(s, 0, k, r);
    forall j: nat ensures j != k ==> SlotAt(r, j) == Empty { assert SlotAt(s, j) == Empty; }
  }

  /** The only client there is, before it asks. */
  ghost predicate Silent(s: State) {
    && Inv(s) && !s.exited && |s.clients| == 1 && IsReading(s.clients[0]) && BufAt(s, s.clients[0].bufidx) == []
    && (forall k: nat :: SlotAt(s, k) == Empty) && AtStart(s) && s.clients[0].startedMs == 0
  }

  /** The slot its query is given, and what becomes of the state. */
  lemma QueryServed(s: State, query: seq<byte>, s1: State) returns (k: nat)
    requires Silent(s) && Answerable(s.cfg, query) && s1 == Received(s, 0, query)
    ensures var s2 := FreeCounted(s1);
            && Core(s2) && Claims(s2, 0, k) && Inv(Claim(s2, 0, k))
            && HandleEvent(s, 0, Reads(query)) == Claim(s2, 0, k)
  {
    SendsQuery(s, 0, query, s1);
    forall j: nat ensures SlotAt(s1, j) == Empty { assert SlotAt(s, j) == Empty; }
    EmptyScan(s1, KeyOf(query));
    k := BaseOf(s1, KeyOf(query));
    NewServed(s1, 0, k);
    SentQuery(s, 0, query, s1, Claim(FreeCounted(s1), 0, k));
  }

  lemma QueryAwaited(s: State, query: seq<byte>, r: State) returns (k: nat)
    requires Silent(s) && Answerable(s.cfg, query) && r == HandleEvent(s, 0, Reads(query))
    ensures Awaited(r, k) && r.cfg == s.cfg && r.failedFills == s.failedFills
  {
    var s1 := Received(s, 0, query);
    k := QueryServed(s, query, s1);
    forall j: nat ensures SlotAt(FreeCounted(s1), j) == Empty { assert SlotAt(s, j) == Empty; }
    AwaitedClaim(FreeCounted(s1), k, r);
  }

  lemma NewlySilent(s: State)
    requires Rested(s)
    ensures Silent(Accept(s)) && Accept(s).cfg == s.cfg && Accept(s).failedFills == s.failedFills
  {
    Connects(s);
    forall k: nat ensures SlotAt(Accept(s), k) == Empty { assert SlotAt(s, k) == Empty; }
  }

  lemma AskRound(s: State, query: seq<byte>, t: State)
    requires Rested(s) && t == HandleEvent(Accept(s), 0, Reads(query))
    ensures Round(s, Asks(query)) == Tail(t)
  {
    AskFits(s, query);
    assert ForcedIn([Reads(query)], 0) == [Reads(query)];
    OneTurn(Accept(s), Reads(query));
  }

  lemma AskAwaited(s: State, query: seq<byte>) returns (k: nat)
    requires Rested(s) && Answerable(s.cfg, query)
    ensures var r := Round(s, Asks(query)); Awaited(r, k) && r.cfg == s.cfg && r.failedFills == s.failedFills
  {
    var t := HandleEvent(Accept(s), 0, Reads(query));
    NewlySilent(s);
    k := QueryAwaited(Accept(s), query, t);
    AskRound(s, query, t);
    NothingDue(t);
  }

  // -------------------------------------------------------- and its worker fails

  lemma OwnerReported(s: State, k: nat, ev: Event)
    requires Awaited(s, k) && PollOk(s.clients[0], ev)
    ensures PollFits(s, Ready(0, false, false, [ev])) && WakeSafe(s, 0)
  {
    assert s.(now := 0) == s && AcceptBoth(s, false, false) == s;
    forall j: nat ensures Reported(s, [ev], j) { }
    forall j: nat, i: nat ensures !Races(s, [ev], j, i) { }
    forall j: nat ensures !StaleWaiter(s, 0, j) { }
  }

  /** What the end of the worker comes to for a client that is alone. */
  lemma DeliveredAlone(s: State, k: nat, out: seq<byte>, t: State)
    requires Awaited(s, k) && WakeSafe(s, 0) && t == HandleWorkerResponse(s, 0, out)
    ensures |t.clients| == 1 && IsWriting(t.clients[0]) && t.clients[0].cachePp == Taken && t.clients[0].respos == 0
    ensures t.clients[0].startedMs == 0 && t.clients[0].resptr == if ValidReply(out) then Some(s.nextId) else None
    ensures k < |t.cache| && t.cache[k] == (if ValidReply(out) then Done(s.nextId) else Empty)
    ensures forall j: nat :: j != k ==> SlotAt(t, j) == Empty
    ensures AtStart(t) && t.minClosed == s.minClosed && !t.exited && t.cfg == s.cfg
    ensures t.failedFills == s.failedFills + if ValidReply(out) then 0 else 1
    ensures ValidReply(out) ==>
            s.nextId in t.heap && t.heap[s.nextId].refcount == 1 && t.heap[s.nextId].resp == ReplyBytes(out)
  {
    DeliverEffect(s, 0, out);
    DeliverRestEffect(s, 0, out);
    WakeSetOk(s, 0);
    assert EntryOk(s, 0);
    assert WakeSet(s, 0) == {0};
    forall j: nat ensures j != k ==> SlotAt(t, j) == Empty { assert j != k ==> SlotAt(s, j) == Empty; }
  }

  lemma WorkerFails(s: State, k: nat, r: State)
    requires Awaited(s, k) && r == Round(s, WORKER_DIES)
    ensures PollFits(s, WORKER_DIES) && Refused(r) && r.cfg == s.cfg && r.failedFills == s.failedFills + 1
  {
    var t := HandleWorkerResponse(s, 0, []);
    OwnerReported(s, k, HANGS_UP);
    RoundInv(s, WORKER_DIES);
    DeliveredAlone(s, k, [], t);
    OneEvent(s, HANGS_UP);
    NothingDue(t);
    forall j: nat ensures SlotAt(t, j) == Empty { }
  }

  lemma ClientLeaves(s: State, r: State)
    requires Refused(s) && r == Round(s, CLIENT_WRITABLE)
    ensures PollFits(s, CLIENT_WRITABLE) && Rested(r) && r.cfg == s.cfg && r.failedFills == s.failedFills
  {
    var ev := QUIET.(revents := POLLOUT);
    assert s.(now := 0) == s && AcceptBoth(s, false, false) == s;
    forall j: nat ensures Reported(s, [ev], j) { }
    forall j: nat, i: nat ensures !Races(s, [ev], j, i) { }
    RoundInv(s, CLIENT_WRITABLE);
    assert ClosedSet(s) == {};
    OneEvent(s, ev);
    LastGone(CloseClient(s, 0));
    forall k: nat ensures SlotAt(r, k) == Empty { assert SlotAt(s, k) == Empty; }
  }

  // ------------------------------------------------------------ again and again

  lemma RunMore(s: State, polls: seq<Poll>, p: Poll)
    ensures Run(s, polls + [p]) == Round(Run(s, polls), p)
    ensures RunFits(s, polls) && PollFits(Run(s, polls), p) ==> RunFits(s, polls + [p])
  {
    assert (polls + [p])[..|polls|] == polls;
  }

  /** One more failure from rest to rest. */
  lemma FailsOnceMore(s: State, polls: seq<Poll>, query: seq<byte>) returns (more: seq<Poll>)
    requires RunFits(s, polls) && Rested(Run(s, polls)) && Answerable(Run(s, polls).cfg, query)
    ensures RunFits(s, more) && Rested(Run(s, more)) && Run(s, more).cfg == Run(s, polls).cfg
    ensures Run(s, more).failedFills == Run(s, polls).failedFills + 1
  {
    var s0 := Run(s, polls);
    var p1 := polls + [Asks(query)];
    AskFits(s0, query);
    var k := AskAwaited(s0, query);
    RunMore(s, polls, Asks(query));
    var p2 := p1 + [WORKER_DIES];
    WorkerFails(Run(s, p1), k, Round(Run(s, p1), WORKER_DIES));
    RunMore(s, p1, WORKER_DIES);
    more := p2 + [CLIENT_WRITABLE];
    ClientLeaves(Run(s, p2), Round(Run(s, p2), CLIENT_WRITABLE));
    RunMore(s, p2, CLIENT_WRITABLE);
  }

  lemma InitRested(cfg: Config)
    requires ConfigOk(cfg)
    ensures Rested(Init(cfg, 0)) && Init(cfg, 0).cfg == cfg && Init(cfg, 0).failedFills == 0
  {
    InitIdle(cfg, 0);
  }

  lemma {:induction false} FailsOften(cfg: Config, query: seq<byte>, n: nat) returns (polls: seq<Poll>)
    requires ConfigOk(cfg) && Answerable(cfg, query)
    ensures var s := Init(cfg, 0);
            RunFits(s, polls) && Rested(Run(s, polls)) && Run(s, polls).cfg == cfg && Run(s, polls).failedFills == n
  {
    if n == 0 {
      polls := [];
      InitRested(cfg);
      assert RunFits(Init(cfg, 0), []);
    } else {
      var before := FailsOften(cfg, query, n - 1);
      polls := FailsOnceMore(Init(cfg, 0), before, query);
    }
  }

  lemma IsReachable(cfg: Config, polls: seq<Poll>)
    requires ConfigOk(cfg) && RunFits(Init(cfg, 0), polls)
    ensures Reachable(Run(Init(cfg, 0), polls))
  {
    assert ReachedBy(cfg, 0, polls, Run(Init(cfg, 0), polls));
  }

  /** Whatever the configuration and the query, failures come in any number. */
  lemma AnyNumberOfFills(cfg: Config, query: seq<byte>, n: nat)
    requires ConfigOk(cfg) && Answerable(cfg, query)
    ensures exists s :: Reachable(s) && s.failedFills == n && s.clients == []
  {
    var polls := FailsOften(cfg, query, n);
    IsReachable(cfg, polls);
  }

  // ------------------------------------------------------- asleep on an entry

  /** A good reply is kept, and its client is served and gone in the same round. */
  lemma WorkerSucceeds(s: State, k: nat, out: seq<byte>, r: State)
    requires Awaited(s, k) && ValidReply(out) && r == Round(s, WorkerReplies(out))
    ensures PollFits(s, WorkerReplies(out)) && Idle(r) && r.clients == [] && r.failedFills == s.failedFills
    ensures k < |r.cache| && r.cache[k].Done? && (forall j: nat :: j != k ==> SlotAt(r, j) == Empty)
  {
    var t := HandleWorkerResponse(s, 0, out);
    OwnerFits(s, k, out);
    RoundInv(s, WorkerReplies(out));
    DeliveredAlone(s, k, out, t);
    assert ClosedSet(s) == {};
    AllWritten(t, s.nextId, out);
    OneEvent(s, Replies(out));
    LastGone(WriteOut(t, 0, Took(|ReplyBytes(out)|)));
    forall j: nat ensures j != k ==> SlotAt(r, j) == Empty { assert j != k ==> SlotAt(t, j) == Empty; }
  }

  lemma OwnerFits(s: State, k: nat, out: seq<byte>)
    requires Awaited(s, k) && ValidReply(out)
    ensures PollFits(s, WorkerReplies(out)) && WakeSafe(s, 0)
  {
    assert EntryOk(s, 0);
    OwnerReported(s, k, Replies(out));
  }

  lemma AllWritten(t: State, id: nat, out: seq<byte>)
    requires ValidReply(out) && |t.clients| == 1
    requires IsWriting(t.clients[0]) && t.clients[0].resptr == Some(id) && t.clients[0].cachePp == Taken
             && t.clients[0].respos == 0
    requires id in t.heap && t.heap[id].refcount == 1 && t.heap[id].resp == ReplyBytes(out)
    ensures var q := WriteOut(t, 0, Took(|ReplyBytes(out)|));
            && q.cache == t.cache && |q.clients| == 1 && q.clients[0].fd == 0
            && q.cntClosed == t.cntClosed + 1 && q.minClosed == Min(t.minClosed, 2) && q.failedFills == t.failedFills
            && q.agingMs == t.agingMs && q.lastAge == t.lastAge && q.now == t.now && q.exited == t.exited
  {
    assert Remaining(t, 0) == |ReplyBytes(out)|;
  }

  /** After 2^32 - 1 failures and one success the daemon is ready to sleep for
      ever although it has an entry, which nothing ages until somebody connects. */
  lemma AsleepOnEntry(cfg: Config, query: seq<byte>, out: seq<byte>)
    requires ConfigOk(cfg) && Answerable(cfg, query) && ValidReply(out)
    ensures exists s :: Reachable(s) && PollTimeout(s) == None && HasCompleted(s)
  {
    var s0 := Init(cfg, 0);
    var polls := FailsOften(cfg, query, TWO32 - 1);
    var s1 := Run(s0, polls);
    var p1 := polls + [Asks(query)];
    AskFits(s1, query);
    var k := AskAwaited(s1, query);
    RunMore(s0, polls, Asks(query));
    var p2 := p1 + [WorkerReplies(out)];
    var s2 := Run(s0, p2);
    RunMore(s0, p1, WorkerReplies(out));
    WorkerSucceeds(Run(s0, p1), k, out, s2);
    IsReachable(cfg, p2);
    OneOccupied(s2, k);
    SleepsForEverIff(s2);
  }

  lemma OneOccupied(s: State, k: nat)
    requires k < |s.cache| && s.cache[k].Done? && (forall j: nat :: j != k ==> SlotAt(s, j) == Empty)
    ensures |Occupied(s)| == 1 && HasCompleted(s)
  {
    forall j: nat ensures j in Occupied(s) <==> j == k { assert j != k ==> SlotAt(s, j) == Empty; }
    assert Occupied(s) == {k};
  }
}
