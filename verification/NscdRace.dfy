/** A run that loses a client: a waiter hangs up in the poll that reports the
    reply it waits for, and comes before the owner in the table. */
module NscdRace {
  import opened Bytes
  import opened NscdModel
  import opened NscdInvariant
  import opened NscdSweep
  import opened NscdServe
  import opened NscdClose
  import opened NscdReply
  import opened NscdRequest
  import opened NscdCompact
  import opened NscdRun
  import opened NscdTheorems
  import opened NscdAccept

  const QUIET := Event(NO_EVENTS, ReadAgain, WriteAgain, [], false, false)

  function Reads(data: seq<byte>): Event {
    QUIET.(revents := POLLIN, read := Got(data))
  }

  const HANGS_UP := QUIET.(revents := PollSet(false, false, false, true))

  /** The reply is there and the client takes all of it at once. */
  function Replies(out: seq<byte>): Event {
    QUIET.(revents := POLLIN, out := out, write := Took(|ReplyLength(out)|))
  }

  function ReplyLength(out: seq<byte>): seq<byte> {
    if ValidReply(out) then ReplyBytes(out) else []
  }

  // ---------------------------------------------------------- the last round

  /** Two clients, the first waiting for the worker of the second. */
  ghost predicate Pair(s: State, k: nat) {
    && Inv(s) && !s.exited && |s.clients| == 2
    && IsWaiter(s.clients[0]) && IsOwner(s.clients[1])
    && s.clients[0].cachePp == At(k) == s.clients[1].cachePp
  }

  lemma HangUp(s: State, k: nat)
    requires Pair(s, k)
    ensures var t := HandleEvent(s, 0, HANGS_UP);
            && t == CloseClient(s, 0) && Inv(t) && |t.clients| == 2
            && t.clients[0].fd == 0 && t.clients[0].cachePp == At(k) && t.clients[0].clientFd != 0
            && t.clients[1] == s.clients[1] && t.cache == s.cache && t.nextId == s.nextId && t.now == s.now
            && t.cntClosed == s.cntClosed + 1 && t.minClosed == Min(s.minClosed, 2)
            && t.minAgingMs == s.minAgingMs && t.lastAge == s.lastAge && !t.exited
  {
    CloseInv(s, 0);
    assert EntryOk(s, 0);
  }

  /** The first closed with the address of a shared slot, the second owning it. */
  ghost predicate Trap(t: State, k: nat) {
    && Inv(t) && |t.clients| == 2 && !t.exited
    && SharedSlot(t, k) && IsOwner(t.clients[1]) && t.clients[1].cachePp == At(k)
    && t.clients[0].fd == 0 && t.clients[0].cachePp == At(k) && t.clients[0].clientFd != 0
  }

  lemma BothWoken(t: State, k: nat)
    requires Trap(t, k)
    ensures WakeSet(t, 1) == {0, 1} && |WakeSet(t, 1)| == 2
  {
  }

  lemma Reopens(t: State, k: nat, out: seq<byte>, r: State)
    requires Trap(t, k) && ValidReply(out) && Delivers(t, 1, out, r) && WakeSet(t, 1) == {0, 1}
    ensures |r.clients| == 2 && r.clients[0].fd != 0 && r.clients[0].startedMs == t.now
    ensures IsWriting(r.clients[1]) && r.clients[1].resptr == Some(t.nextId) && r.clients[1].cachePp == Taken
            && r.clients[1].respos == 0
    ensures k < |t.cache| && r.cache == t.cache[k := Done(t.nextId)]
    ensures t.nextId in r.heap && r.heap[t.nextId].refcount == 2 && r.heap[t.nextId].resp == ReplyBytes(out)
  {
    assert EntryOk(t, 1);
  }

  lemma WritesAllAndCloses(r: State, id: nat, out: seq<byte>)
    requires ValidReply(out) && |r.clients| == 2
    requires IsWriting(r.clients[1]) && r.clients[1].resptr == Some(id) && r.clients[1].cachePp == Taken
             && r.clients[1].respos == 0
    requires id in r.heap && r.heap[id].refcount == 2 && r.heap[id].resp == ReplyBytes(out)
    ensures var q := WriteOut(r, 1, Took(|ReplyBytes(out)|));
            && q.cache == r.cache && id in q.heap && q.heap[id].refcount == 1
            && |q.clients| == 2 && q.cntClosed == r.cntClosed + 1 && q.minClosed == Min(r.minClosed, 3)
            && q.clients[1].fd == 0 && q.clients[0] == r.clients[0]
            && q.agingMs == r.agingMs && q.lastAge == r.lastAge && q.now == r.now && q.exited == r.exited
  {
    var n := |ReplyBytes(out)|;
    assert Remaining(r, 1) == n;
  }

  /** The handling of the two descriptors in that round. */
  lemma BothTurns(s: State, k: nat, out: seq<byte>)
    requires Pair(s, k) && ValidReply(out)
    ensures var q := HandleEvents(s, [HANGS_UP, Replies(out)], 2);
            && k < |s.cache| && q.cache == s.cache[k := Done(s.nextId)]
            && s.nextId in q.heap && q.heap[s.nextId].refcount == 1
            && |q.clients| == 2 && q.clients[0].fd != 0 && q.clients[0].startedMs == s.now && q.clients[1].fd == 0
            && q.cntClosed == s.cntClosed + 2 && q.minClosed == Min(s.minClosed, 2)
            && q.agingMs == s.minAgingMs && q.lastAge == s.lastAge && q.now == s.now && !q.exited
  {
    var evs := [HANGS_UP, Replies(out)];
    var t := HandleEvent(s, 0, evs[0]);
    HangUp(s, k);
    assert EntryOk(s, 0);
    SecondTurn(t, k, out);
    TwoTurns(s, evs);
  }

  /** The turn of the owner, after its waiter has gone. */
  lemma SecondTurn(t: State, k: nat, out: seq<byte>)
    requires Trap(t, k) && ValidReply(out)
    ensures var q := HandleEvent(t, 1, Replies(out));
            && k < |t.cache| && q.cache == t.cache[k := Done(t.nextId)]
            && t.nextId in q.heap && q.heap[t.nextId].refcount == 1
            && |q.clients| == 2 && q.clients[0].fd != 0 && q.clients[0].startedMs == t.now && q.clients[1].fd == 0
            && q.cntClosed == t.cntClosed + 1 && q.minClosed == Min(t.minClosed, 3)
            && q.agingMs == t.minAgingMs && q.lastAge == t.lastAge && q.now == t.now && !q.exited
  {
    var r := HandleWorkerResponse(t, 1, out);
    BothWoken(t, k);
    DeliverEffect(t, 1, out);
    DeliverRestEffect(t, 1, out);
    Reopens(t, k, out, r);
    WritesAllAndCloses(r, t.nextId, out);
  }

  /** Nothing times out, and compaction believes cnt_closed. */
  lemma EndOfRound(q: State)
    requires !q.exited && Sub32(q.now, q.lastAge) < q.agingMs && q.now < TWO32
    requires |q.clients| == 2 && q.clients[0].startedMs == q.now && q.clients[1].fd == 0
    requires q.cntClosed == 2 && q.minClosed == 2
    ensures Tail(q).clients == [] && Tail(q).cache == q.cache && Tail(q).heap == q.heap
  {
    assert AgeIfDue(q) == q;
    assert Sub32(q.now, q.now) == 0;
    assert Timeouts(q, 0) == q;
    assert Timeouts(q, 1) == q;
    assert Timeouts(q, 2) == q;
  }

  lemma NoHolderLeft(r: State, k: nat, b: nat)
    requires r.clients == [] && k < |r.cache| && r.cache[k] == Done(b) && b in r.heap && r.heap[b].refcount == 1
    ensures !Inv(r)
  {
    assert HoldersOf(r, b) == {};
    if Tables(r) {
      OneSlotPerBlock(r, b);
      assert !RefOk(r, b);
    }
  }

  lemma QuietRound(s: State, evs: seq<Event>)
    requires !s.exited
    ensures Round(s, Ready(s.now, false, false, evs)) == Tail(HandleEvents(s, ForcedIn(evs, |s.clients|), |s.clients|))
  {
    assert s.(now := s.now) == s && AcceptBoth(s, false, false) == s;
  }

  /** Nobody is left in the table, and the block in the cache still counts a
      reader: it can never be freed. */
  lemma ReaderLost(s: State, k: nat, out: seq<byte>, r: State)
    requires Pair(s, k) && NoneClosed(s) && ValidReply(out)
    requires Sub32(s.now, s.lastAge) < s.minAgingMs
    requires r == Round(s, Ready(s.now, false, false, [HANGS_UP, Replies(out)]))
    ensures r.clients == [] && k < |r.cache| && r.cache[k] == Done(s.nextId)
    ensures s.nextId in r.heap && r.heap[s.nextId].refcount == 1
    ensures !Inv(r)
  {
    var evs := [HANGS_UP, Replies(out)];
    var q := HandleEvents(s, evs, 2);
    BothTurns(s, k, out);
    QuietRound(s, evs);
    assert ForcedIn(evs, 2) == evs;
    assert ClosedSet(s) == {};
    EndOfRound(q);
    NoHolderLeft(r, k, s.nextId);
  }

  // ------------------------------------------------------ the two before it

  /** A query of whatever kind the daemon is configured to answer. */
  ghost predicate Answerable(cfg: Config, query: seq<byte>) {
    |query| <= MAX_USER_REQ_SIZE && Judge(cfg, query, Reads(query)) == Query(false)
  }

  /** A round in which nothing ages, times out or is closed. */
  lemma NothingEnds(q: State)
    requires !q.exited && Sub32(q.now, q.lastAge) < q.agingMs && q.cntClosed == 0 && q.now < TWO32
    requires |q.clients| == 2 && q.clients[0].startedMs == q.now && q.clients[1].startedMs == q.now
    ensures Tail(q) == q
  {
    assert AgeIfDue(q) == q;
    assert Sub32(q.now, q.now) == 0;
    assert Timeouts(q, 0) == q;
    assert Timeouts(q, 1) == q;
    assert Timeouts(q, 2) == q;
  }

  lemma ReadsWhole(s: State, i: nat, query: seq<byte>)
    requires !s.exited && i < |s.clients| && IsReading(s.clients[i]) && BufAt(s, s.clients[i].bufidx) == []
             && 0 < |query| <= MAX_USER_REQ_SIZE
    ensures !HandleClient(Received(s, i, query), i, Reads(query)).1 ==>
      HandleEvent(s, i, Reads(query)) == HandleClient(Received(s, i, query), i, Reads(query)).0
  {
    assert ReadData(s, i, query) == query;
    assert HandleEvent(s, i, Reads(query)) == ReadRequest(s, i, Reads(query));
  }

  lemma QueryIsServed(s1: State, i: nat, query: seq<byte>)
    requires BufAt(s1, ClientAt(s1, i).bufidx) == query && Answerable(s1.cfg, query)
    ensures HandleClient(s1, i, Reads(query)) == Serve(s1, i)
  {
  }

  /** Client i sends the whole query at once. */
  lemma SendsQuery(s: State, i: nat, query: seq<byte>, s1: State)
    requires Inv(s) && i < |s.clients| && IsReading(s.clients[i]) && BufAt(s, s.clients[i].bufidx) == [] && !s.exited
    requires Answerable(s.cfg, query) && s1 == Received(s, i, query)
    ensures Inv(s1) && Asking(s1, i) && AskedKey(s1, i) == KeyOf(query)
    ensures BufAt(s1, s1.clients[i].bufidx) == query && query != []
  {
    assert EntryOk(s, i);
    ReceiveInv(s, i, query);
    assert [] + query == query;
  }

  /** What handling the query does, if the answer is not there at once. */
  lemma SentQuery(s: State, i: nat, query: seq<byte>, s1: State, r: State)
    requires Inv(s) && i < |s.clients| && IsReading(s.clients[i]) && BufAt(s, s.clients[i].bufidx) == [] && !s.exited
    requires Answerable(s.cfg, query) && s1 == Received(s, i, query) && Serve(s1, i) == (r, false)
    ensures HandleEvent(s, i, Reads(query)) == r
  {
    SendsQuery(s, i, query, s1);
    QueryIsServed(s1, i, query);
    ReadsWhole(s, i, query);
  }

  /** The two connections of the first round. */
  ghost predicate TwoNew(s: State) {
    && Inv(s) && !s.exited && |s.clients| == 2 && NoneClosed(s)
    && (forall i :: 0 <= i < 2 ==>
       IsReading(s.clients[i]) && BufAt(s, s.clients[i].bufidx) == [] && s.clients[i].startedMs == s.now)
    && (forall k: nat :: SlotAt(s, k) == Empty)
    && s.cntClosed == 0 && s.now == 0 && s.lastAge == 0 && s.agingMs > 0 && s.minAgingMs > 0
  }

  lemma Connects(s: State)
    requires Inv(s) && |s.clients| + 2 < s.cfg.maxReq
    ensures var r := Accept(s);
            && Inv(r) && |r.clients| == |s.clients| + 1 && s.clients < r.clients
            && IsReading(r.clients[|s.clients|]) && r.clients[|s.clients|].startedMs == s.now
            && BufAt(r, r.clients[|s.clients|].bufidx) == []
            && (forall u: nat :: BufAt(s, u) == [] ==> BufAt(r, u) == [])
            && r == s.(clients := r.clients, fds := r.fds, nextFd := r.nextFd, bufs := r.bufs, busy := r.busy,
               nextBuf := r.nextBuf, accepting := r.accepting)
  {
    AcceptInv(s);
    NewFd(s);
  }

  lemma BothConnect(cfg: Config)
    requires ConfigOk(cfg)
    ensures TwoNew(AcceptBoth(Init(cfg, 0), true, true)) && AcceptBoth(Init(cfg, 0), true, true).cfg == cfg
  {
    var s0 := Init(cfg, 0);
    InitIdle(cfg, 0);
    Connects(s0);
    Connects(Accept(s0));
    assert forall u: nat :: BufAt(s0, u) == [];
  }

  /** The first connection is silent, the second waits for its worker at slot k. */
  ghost predicate Middle(s: State, query: seq<byte>, k: nat) {
    && Inv(s) && !s.exited && |s.clients| == 2
    && IsReading(s.clients[0]) && BufAt(s, s.clients[0].bufidx) == [] && s.clients[0].startedMs == 0
    && IsOwner(s.clients[1]) && s.clients[1].cachePp == At(k) && s.clients[1].startedMs == 0
    && SlotAt(s, k).Future? && SlotKey(s, k) == KeyOf(query) && SlotAt(s, k).buf == s.clients[1].bufidx
    && AtStart(s)
  }

  /** Nothing closed, nothing due. */
  ghost predicate AtStart(s: State) {
    s.cntClosed == 0 && s.now == 0 && s.lastAge == 0 && s.agingMs > 0 && s.minAgingMs > 0
  }

  lemma EmptyScan(s: State, key: seq<byte>)
    requires Sizes(s) && (forall k: nat :: SlotAt(s, k) == Empty)
    ensures ScanLine(CountAccess(s), key) == Free(BaseOf(s, key))
  {
    var c := CountAccess(s);
    var base := BaseOf(c, key);
    forall j: nat ensures SlotAt(c, j) == Empty { assert SlotAt(s, j) == Empty; }
    assert FindKey(c, key, base, base + 8) == base + 8;
    assert FindFree(c, base, base + 8) == base;
  }

  lemma ClaimFields(s: State, i: nat, k: nat, r: State)
    requires Core(s) && Claims(s, i, k) && r == Claim(s, i, k)
    ensures |r.clients| == |s.clients| && (forall j: nat :: j < |s.clients| && j != i ==> r.clients[j] == s.clients[j])
    ensures IsOwner(r.clients[i]) && r.clients[i].cachePp == At(k) && r.clients[i].startedMs == s.clients[i].startedMs
    ensures SlotAt(r, k) == Future(s.clients[i].bufidx, false) && r.clients[i].bufidx == s.clients[i].bufidx
    ensures r.bufs == s.bufs && SlotKey(r, k) == AskedKey(s, i)
    ensures r.cntClosed == s.cntClosed && r.now == s.now && r.lastAge == s.lastAge && r.agingMs == s.agingMs
    ensures r.minAgingMs == s.minAgingMs && r.exited == s.exited && r.cfg == s.cfg
  {
    ClaimEffect(s, i, k);
    NewFd(s);
    assert EntryOk(s, i);
  }

  /** A client whose query is new is served by a worker at slot k. */
  lemma NewServed(s: State, i: nat, k: nat)
    requires Inv(s) && Asking(s, i) && ScanLine(CountAccess(s), AskedKey(s, i)) == Free(k)
    ensures var s2 := FreeCounted(s);
            && Core(s2) && HitsOk(s2) && ClosedOk(s2) && Claims(s2, i, k) && Serve(s, i) == (Claim(s2, i, k), false)
            && Inv(Claim(s2, i, k))
  {
    ServeFree(s, i, k);
    ServeInv(s, i, false);
  }

  /** The second connection sends a query and gets a worker. */
  lemma SecondAsks(s: State, query: seq<byte>) returns (k: nat)
    requires TwoNew(s) && Answerable(s.cfg, query)
    ensures Middle(HandleEvent(s, 1, Reads(query)), query, k)
    ensures HandleEvent(s, 1, Reads(query)).cfg == s.cfg
  {
    var s1 := Received(s, 1, query);
    SendsQuery(s, 1, query, s1);
    forall j: nat ensures SlotAt(s1, j) == Empty { assert SlotAt(s, j) == Empty; }
    EmptyScan(s1, KeyOf(query));
    k := BaseOf(s1, KeyOf(query));
    NewServed(s1, 1, k);
    var r := Claim(FreeCounted(s1), 1, k);
    SentQuery(s, 1, query, s1, r);
    SecondMiddle(s, query, s1, k, r);
  }

  lemma SecondMiddle(s: State, query: seq<byte>, s1: State, k: nat, r: State)
    requires TwoNew(s) && s1 == Received(s, 1, query) && AskedKey(s1, 1) == KeyOf(query)
    requires Core(FreeCounted(s1)) && Claims(FreeCounted(s1), 1, k) && r == Claim(FreeCounted(s1), 1, k) && Inv(r)
    ensures Middle(r, query, k) && r.cfg == s.cfg
  {
    ClaimFields(FreeCounted(s1), 1, k, r);
    assert BufsDiffer(s, 0, 1);
  }

  lemma JoinFields(s: State, i: nat, k: nat, u: nat, r: State)
    requires Core(s) && Joins(s, i, k, u) && r == JoinWaiters(s, i, k, u)
    ensures |r.clients| == |s.clients| && (forall j: nat :: j < |s.clients| && j != i ==> r.clients[j] == s.clients[j])
    ensures IsWaiter(r.clients[i]) && r.clients[i].cachePp == At(k) && r.clients[i].startedMs == s.clients[i].startedMs
    ensures r.cntClosed == s.cntClosed && r.now == s.now && r.lastAge == s.lastAge && r.agingMs == s.agingMs
    ensures r.minAgingMs == s.minAgingMs && r.exited == s.exited
  {
  }

  /** The first connection sends the same query and is made to wait. */
  lemma FirstAsks(s: State, query: seq<byte>, k: nat)
    requires Middle(s, query, k) && Answerable(s.cfg, query)
    ensures var r := HandleEvent(s, 0, Reads(query));
            Pair(r, k) && AtStart(r) && r.clients[0].startedMs == r.clients[1].startedMs == 0
  {
    var s1 := Received(s, 0, query);
    SendsQuery(s, 0, query, s1);
    assert EntryOk(s, 1) && BufsDiffer(s, 0, 1);
    FoundAt(s1, query, k);
    ServeFound(s1, 0, k);
    var r := JoinWaiters(HitCounted(s1), 0, k, s.clients[1].bufidx);
    JoinFields(HitCounted(s1), 0, k, s.clients[1].bufidx, r);
    ServeInv(s1, 0, false);
    SentQuery(s, 0, query, s1, r);
  }

  lemma FoundAt(s1: State, query: seq<byte>, k: nat)
    requires Core(s1) && SlotAt(s1, k) != Empty && SlotKey(s1, k) == KeyOf(query)
    ensures ScanLine(CountAccess(s1), KeyOf(query)) == Found(k)
  {
    var c1 := CountAccess(s1);
    CoreFrame(s1, c1);
    var base := BaseOf(c1, KeyOf(query));
    InItsLine(c1, k, KeyOf(query));
    var f := FindKey(c1, KeyOf(query), base, base + 8);
    assert KeysDiffer(c1, f, k);
  }

  lemma TwoTurns(s: State, evs: seq<Event>)
    requires |evs| == 2
    ensures HandleEvents(s, evs, 2) == HandleEvent(HandleEvent(s, 0, evs[0]), 1, evs[1])
  {
    assert HandleEvents(s, evs, 1) == HandleEvent(HandleEvents(s, evs, 0), 0, evs[0]);
  }

  /** A turn with nothing reported, or with nothing to read after all. */
  lemma IdleTurn(s: State, i: nat)
    ensures HandleEvent(s, i, QUIET) == s
    ensures ClientAt(s, i).clientFd == 0 ==> HandleEvent(s, i, QUIET.(revents := POLLIN)) == s
  {
  }

  /** The three polls of the run. */
  function Polls(query: seq<byte>, out: seq<byte>): seq<Poll> {
    [Ready(0, true, true, [QUIET, Reads(query)]),
     Ready(0, false, false, [Reads(query), QUIET]),
     Ready(0, false, false, [HANGS_UP, Replies(out)])]
  }

  lemma FirstRound(cfg: Config, query: seq<byte>) returns (k: nat)
    requires ConfigOk(cfg) && Answerable(cfg, query)
    ensures Middle(Round(Init(cfg, 0), Polls(query, [])[0]), query, k)
    ensures Round(Init(cfg, 0), Polls(query, [])[0]).cfg == cfg
  {
    var s0 := Init(cfg, 0);
    var s := AcceptBoth(s0, true, true);
    BothConnect(cfg);
    k := SecondAsks(s, query);
    var t := HandleEvent(s, 1, Reads(query));
    var forced := ForcedIn([QUIET, Reads(query)], 0);
    TwoTurns(s, forced);
    IdleTurn(s, 0);
    NothingEnds(t);
    assert s0.(now := 0) == s0;
    assert Round(s0, Polls(query, [])[0]) == t;
  }

  lemma SecondRound(s: State, query: seq<byte>, k: nat, r: State)
    requires Middle(s, query, k) && Answerable(s.cfg, query)
    requires r == Round(s, Ready(0, false, false, [Reads(query), QUIET]))
    ensures Pair(r, k) && AtStart(r)
  {
    var evs := [Reads(query), QUIET];
    var t := HandleEvent(s, 0, Reads(query));
    FirstAsks(s, query, k);
    QuietRound(s, evs);
    assert ForcedIn(evs, 2) == evs;
    TwoTurns(s, evs);
    IdleTurn(t, 1);
    NothingEnds(t);
  }

  lemma PairOpen(s: State, k: nat)
    requires Pair(s, k)
    ensures NoneClosed(s)
  {
  }

  lemma FirstFits(cfg: Config, query: seq<byte>)
    requires ConfigOk(cfg)
    ensures PollFits(Init(cfg, 0), Polls(query, [])[0])
  {
    var s0, evs := Init(cfg, 0), [QUIET, Reads(query)];
    BothConnect(cfg);
    assert s0.(now := 0) == s0;
    forall j: nat ensures Reported(s0, evs, j) { }
    forall j: nat, i: nat ensures !Races(s0, evs, j, i) { }
  }

  lemma SecondFits(s: State, query: seq<byte>, k: nat)
    requires Middle(s, query, k)
    ensures PollFits(s, Ready(0, false, false, [Reads(query), QUIET]))
  {
    var evs := [Reads(query), QUIET];
    forall j: nat ensures Reported(s, evs, j) { }
    forall j: nat, i: nat ensures !Races(s, evs, j, i) { }
  }

  lemma LastReported(s: State, k: nat, out: seq<byte>)
    requires Pair(s, k) && ValidReply(out)
    ensures AllReported(s, [HANGS_UP, Replies(out)])
  {
    var evs := [HANGS_UP, Replies(out)];
    forall j: nat ensures Reported(s, evs, j) { assert EntryOk(s, j); }
  }

  lemma RunOfTwo(s: State, p: Poll, q: Poll)
    ensures Run(s, [p, q]) == Round(Round(s, p), q)
    ensures PollFits(s, p) && PollFits(Round(s, p), q) ==> RunFits(s, [p, q])
  {
    assert [p, q][..1] == [p] && [p][..0] == [];
    assert Run(s, []) == s && RunFits(s, []);
    assert Run(s, [p]) == Round(s, p);
    assert PollFits(s, p) ==> RunFits(s, [p]);
  }

  lemma SecondFromMiddle(s: State, query: seq<byte>, k: nat, p: Poll, q: Poll)
    requires PollFits(s, p) && Middle(Round(s, p), query, k) && Answerable(Round(s, p).cfg, query)
    requires q == Ready(0, false, false, [Reads(query), QUIET])
    ensures RunFits(s, [p, q]) && Pair(Run(s, [p, q]), k) && AtStart(Run(s, [p, q]))
  {
    var s1 := Round(s, p);
    SecondRound(s1, query, k, Round(s1, q));
    SecondFits(s1, query, k);
    RunOfTwo(s, p, q);
  }

  lemma TwoRounds(cfg: Config, query: seq<byte>, s: State, p: Poll, q: Poll) returns (k: nat)
    requires ConfigOk(cfg) && Answerable(cfg, query) && s == Init(cfg, 0) && p == Polls(query, [])[0]
    requires q == Ready(0, false, false, [Reads(query), QUIET])
    ensures RunFits(s, [p, q]) && Pair(Run(s, [p, q]), k) && AtStart(Run(s, [p, q]))
  {
    k := FirstRound(cfg, query);
    FirstFits(cfg, query);
    SecondFromMiddle(s, query, k, p, q);
  }

  /** Without the assumption of PollFits on hang-ups the invariant fails, for
      every configuration, every query it answers and every good reply to it:
      the first two polls of the run fit, and the third has the right number of
      events, each of them one that PollOk admits. */
  lemma RaceBreaksInvariant(cfg: Config, query: seq<byte>, out: seq<byte>)
    requires ConfigOk(cfg) && Answerable(cfg, query) && ValidReply(out)
    ensures RunFits(Init(cfg, 0), Polls(query, out)[..2])
    ensures var s := Run(Init(cfg, 0), Polls(query, out)[..2]);
            Idle(s) && !s.exited && |s.clients| == 2 && AllReported(s, [HANGS_UP, Replies(out)])
    ensures !Inv(Run(Init(cfg, 0), Polls(query, out)))
  {
    var ps := Polls(query, out);
    var before := ps[..2];
    assert before == [ps[0], ps[1]];
    var s := Run(Init(cfg, 0), before);
    var k := TwoRounds(cfg, query, Init(cfg, 0), ps[0], ps[1]);
    PairOpen(s, k);
    LastReported(s, k, out);
    ReaderLost(s, k, out, Round(s, ps[2]));
    assert Run(Init(cfg, 0), ps) == Round(s, ps[2]);
  }
}
