/** Rounds of the main loop and whole runs of the daemon. */
module NscdRun {
  import opened Bytes
  import opened NscdModel
  import opened NscdInvariant
  import opened NscdServe
  import opened NscdClose
  import opened NscdReply
  import opened NscdRequest
  import opened NscdEvents
  import opened NscdCompact
  import opened NscdAccept

  // ------------------------------------------------------- what poll() gives

  /** Entry j waits for the worker of entry i, comes before it, and both are
      reported at once. */
  ghost predicate Races(s: State, evs: seq<Event>, j: nat, i: nat) {
    && j < i < |s.clients| && i < |evs|
    && IsWaiter(s.clients[j]) && IsOwner(s.clients[i])
    && s.clients[j].cachePp == s.clients[i].cachePp
    && evs[j].revents != NO_EVENTS && evs[i].revents != NO_EVENTS
  }

  ghost predicate NoRace(s: State, evs: seq<Event>) {
    forall j: nat, i: nat :: !Races(s, evs, j, i)
  }

  ghost predicate Reported(s: State, evs: seq<Event>, j: nat) {
    j < |s.clients| ==> j < |evs| && PollOk(s.clients[j], evs[j])
  }

  ghost predicate AllReported(s: State, evs: seq<Event>) {
    forall j: nat :: Reported(s, evs, j)
  }

  // ----------------------------------------------------- all the descriptors

  ghost predicate Later(s: State, t: State, p: nat, j: nat) {
    p <= j < |s.clients| && j < |t.clients| ==> StaysOrWakes(s.clients[j], t.clients[j])
  }

  ghost predicate StaleKnown(s: State, evs: seq<Event>, t: State, p: nat, j: nat) {
    j < p && j < |s.clients| && j < |t.clients| && j < |evs| && t.clients[j].fd == 0 && t.clients[j].cachePp.At? ==>
      && IsWaiter(s.clients[j])
      && t.clients[j].cachePp == s.clients[j].cachePp
      && evs[j].revents != NO_EVENTS
  }

  /** After p turns that started from s. */
  ghost predicate After(s: State, evs: seq<Event>, p: nat, t: State) {
    && Inv(t)
    && |t.clients| == |s.clients|
    && (forall j: nat :: Later(s, t, p, j))
    && (forall j: nat :: StaleKnown(s, evs, t, p, j))
  }

  lemma SafeAtTurn(s: State, evs: seq<Event>, p: nat, t: State)
    requires NoneClosed(s) && NoRace(s, evs) && After(s, evs, p, t) && |evs| == |s.clients|
    requires Owning(t, p) && evs[p].revents != NO_EVENTS
    ensures WakeSafe(t, p)
  {
    assert Later(s, t, p, p);
    forall j: nat ensures !StaleWaiter(t, p, j) {
      assert Later(s, t, p, j) && StaleKnown(s, evs, t, p, j) && !Races(s, evs, j, p);
    }
  }

  lemma PollStillOk(c: Client, d: Client, ev: Event, s: State)
    requires PollOk(c, ev) && StaysOrWakes(c, d) && ClientOk(s, c)
    ensures PollOk(d, ev)
  {
  }

  lemma Turn(s: State, evs: seq<Event>, p: nat, t: State)
    requires Inv(s) && NoneClosed(s) && NoRace(s, evs) && Reported(s, evs, p) && |evs| == |s.clients|
    requires After(s, evs, p, t) && p < |s.clients|
    ensures TurnOk(t, p, evs[p], HandleEvent(t, p, evs[p]))
  {
    assert Later(s, t, p, p) && EntryOk(s, p);
    PollStillOk(s.clients[p], t.clients[p], evs[p], s);
    if !t.exited && evs[p].revents != NO_EVENTS {
      if IsOwner(t.clients[p]) {
        SafeAtTurn(s, evs, p, t);
        OwnerTurn(t, p, evs[p]);
      } else {
        ClientTurn(t, p, evs[p]);
      }
    }
  }

  lemma AfterTurn(s: State, evs: seq<Event>, p: nat, t: State, r: State)
    requires NoneClosed(s) && |evs| == |s.clients| && p < |s.clients|
    requires After(s, evs, p, t) && TurnOk(t, p, evs[p], r)
    ensures After(s, evs, p + 1, r)
  {
    var q := p + 1;
    assert Later(s, t, p, p);
    forall j: nat ensures Later(s, r, q, j) {
      assert Later(s, t, p, j);
      if p < j < |s.clients| { assert StaysOrWakes(t.clients[j], r.clients[j]); }
    }
    forall j: nat ensures StaleKnown(s, evs, r, q, j) {
      assert StaleKnown(s, evs, t, p, j);
      if j < p { assert StaysOrWakes(t.clients[j], r.clients[j]); }
    }
  }

  lemma EventsStep(s: State, evs: seq<Event>, p: nat, t: State)
    requires Inv(s) && NoneClosed(s) && NoRace(s, evs) && Reported(s, evs, p) && |evs| == |s.clients|
    requires After(s, evs, p, t) && p < |s.clients|
    ensures After(s, evs, p + 1, HandleEvent(t, p, evs[p]))
  {
    Turn(s, evs, p, t);
    AfterTurn(s, evs, p, t, HandleEvent(t, p, evs[p]));
  }

  lemma {:induction false} EventsInv(s: State, evs: seq<Event>, p: nat)
    requires Inv(s) && NoneClosed(s) && NoRace(s, evs) && AllReported(s, evs) && |evs| == |s.clients| && p <= |evs|
    ensures After(s, evs, p, HandleEvents(s, evs, p))
  {
    if p == 0 {
      assert After(s, evs, 0, s);
    } else {
      var t := HandleEvents(s, evs, p - 1);
      EventsInv(s, evs, p - 1);
      assert Reported(s, evs, p - 1);
      EventsStep(s, evs, p - 1, t);
    }
  }

  // ----------------------------------------------------------- end of a round

  lemma AgeInv(s: State)
    requires Inv(s)
    ensures Inv(AgeIfDue(s))
  {
    FlagsInv(s, s.(lastAge := s.now));
    SweepInv(s.(lastAge := s.now), Expired);
  }

  lemma {:induction false} TimeoutsInv(s: State, p: nat)
    requires Inv(s)
    ensures Inv(Timeouts(s, p))
  {
    if p > 0 {
      TimeoutsInv(s, p - 1);
      if TimedOut(Timeouts(s, p - 1), p - 1) { CloseInv(Timeouts(s, p - 1), p - 1); }
    }
  }

  lemma TailInv(s: State)
    requires Inv(s)
    ensures Inv(Tail(s)) && (s.exited || NoneClosed(Tail(s)))
  {
    if !s.exited {
      var s1 := AgeIfDue(s);
      AgeInv(s);
      TimeoutsInv(s1, |s1.clients|);
      CoalesceInv(Timeouts(s1, |s1.clients|));
    }
  }

  // --------------------------------------------------------------- one round

  /** Between rounds: the invariant, and only open clients in the table. */
  ghost predicate Idle(s: State) {
    Inv(s) && (s.exited || NoneClosed(s))
  }

  /** What is assumed of poll() and accept() in a round that starts in s.  The
      listeners are reported only while they are polled, the clients as PollOk
      says; and no waiter hangs up in the very poll that reports its worker. */
  ghost predicate PollFits(s: State, p: Poll) {
    match p
    case Interrupted => true
    case NothingReady(now) => now < TWO32
    case Ready(now, a, b, evs) =>
      && now < TWO32
      && (a || b ==> s.accepting)
      && |evs| == |AcceptBoth(s.(now := now), a, b).clients|
      && AllReported(s, evs)
      && NoRace(s, evs)
  }

  lemma AcceptedMore(s: State, r: State)
    requires Inv(s) && NoneClosed(s) && |s.clients| + 2 < s.cfg.maxReq && r == Accept(s)
    ensures Inv(r) && NoneClosed(r) && s.clients < r.clients && r.exited == s.exited && r.cfg == s.cfg
    ensures IsReading(r.clients[|s.clients|])
    ensures |r.clients| == |s.clients| + 1
  {
    AcceptInv(s);
    NewFd(s);
  }

  ghost predicate GrownBy(s: State, r: State) {
    && s.clients <= r.clients
    && (forall j: nat :: |s.clients| <= j < |r.clients| ==> IsReading(r.clients[j]))
  }

  lemma AcceptBothInv(s: State, a: bool, b: bool)
    requires Inv(s) && NoneClosed(s) && (a || b ==> s.accepting)
    ensures var r := AcceptBoth(s, a, b); Inv(r) && NoneClosed(r) && GrownBy(s, r) && r.exited == s.exited
  {
    var s1 := if a then Accept(s) else s;
    if a { AcceptedMore(s, s1); }
    if b && |s1.clients| + 2 < s.cfg.maxReq { AcceptedMore(s1, Accept(s1)); }
  }

  lemma ReportedAfterAccept(s: State, r: State, evs: seq<Event>)
    requires Inv(s) && GrownBy(s, r) && |evs| == |r.clients| && AllReported(s, evs) && NoRace(s, evs)
    ensures AllReported(r, ForcedIn(evs, |s.clients|)) && NoRace(r, ForcedIn(evs, |s.clients|))
  {
    var forced := ForcedIn(evs, |s.clients|);
    forall j: nat ensures Reported(r, forced, j) {
      assert Reported(s, evs, j);
      if j < |s.clients| { assert r.clients[j] == s.clients[j]; }
    }
    NoRaceAfterAccept(s, r, evs);
  }

  lemma NoRaceAfterAccept(s: State, r: State, evs: seq<Event>)
    requires GrownBy(s, r) && |evs| == |r.clients| && NoRace(s, evs)
    ensures NoRace(r, ForcedIn(evs, |s.clients|))
  {
    var forced := ForcedIn(evs, |s.clients|);
    forall j: nat, i: nat ensures !Races(r, forced, j, i) {
      assert !Races(s, evs, j, i);
      if i < |s.clients| && j < i { assert r.clients[j] == s.clients[j] && r.clients[i] == s.clients[i]; }
    }
  }

  /** The state of a round after the turns over the descriptors. */
  function Midway(s: State, p: Poll): State {
    match p
    case Interrupted => s
    case NothingReady(now) => s.(now := now)
    case Ready(now, a, b, evs) =>
      var s1 := AcceptBoth(s.(now := now), a, b);
      HandleEvents(s1, ForcedIn(evs, |s.clients|), |s1.clients|)
  }

  lemma MidwayInv(s: State, p: Poll)
    requires Idle(s) && PollFits(s, p) && !s.exited
    ensures Inv(Midway(s, p))
  {
    match p
    case Interrupted =>
    case NothingReady(now) => FlagsInv(s, s.(now := now));
    case Ready(now, a, b, evs) => ReadyInv(s, now, a, b, evs);
  }

  /** The turns of a round, with those who were accepted in it. */
  lemma TurnsFit(s: State, now: nat, a: bool, b: bool, evs: seq<Event>)
    requires Inv(s) && NoneClosed(s) && PollFits(s, Ready(now, a, b, evs))
    ensures var s1 := AcceptBoth(s.(now := now), a, b);
            var forced := ForcedIn(evs, |s.clients|);
            && Inv(s1) && NoneClosed(s1) && GrownBy(s, s1) && s1.exited == s.exited
            && NoRace(s1, forced) && AllReported(s1, forced) && |forced| == |s1.clients|
  {
    var s0 := s.(now := now);
    FlagsInv(s, s0);
    AcceptBothInv(s0, a, b);
    forall j: nat ensures Reported(s0, evs, j) { assert Reported(s, evs, j); }
    forall j: nat, i: nat ensures !Races(s0, evs, j, i) { assert !Races(s, evs, j, i); }
    ReportedAfterAccept(s0, AcceptBoth(s0, a, b), evs);
  }

  lemma ReadyInv(s: State, now: nat, a: bool, b: bool, evs: seq<Event>)
    requires Inv(s) && NoneClosed(s) && PollFits(s, Ready(now, a, b, evs))
    ensures Inv(Midway(s, Ready(now, a, b, evs)))
  {
    var forced := ForcedIn(evs, |s.clients|);
    TurnsFit(s, now, a, b, evs);
    EventsInv(AcceptBoth(s.(now := now), a, b), forced, |forced|);
  }

  lemma RoundInv(s: State, p: Poll)
    requires Idle(s) && PollFits(s, p)
    ensures Idle(Round(s, p))
  {
    if !s.exited && !p.Interrupted? {
      MidwayInv(s, p);
      TailInv(Midway(s, p));
    }
  }

  // -------------------------------------------------------------- whole runs

  lemma InitIdle(cfg: Config, now: nat)
    requires ConfigOk(cfg) && now < TWO32
    ensures Idle(Init(cfg, now))
  {
    var s := Init(cfg, now);
    assert ClosedSet(s) == {} && Occupied(s) == {};
    forall k: nat ensures SlotOk(s, k) { assert SlotAt(s, k) == Empty; }
    forall j: nat, l: nat ensures KeysDiffer(s, j, l) { assert SlotAt(s, j) == Empty; }
    forall u: nat ensures BufOwned(s, u) { }
    forall j: nat ensures EntryOk(s, j) { }
    forall j: nat, l: nat ensures BufsDiffer(s, j, l) { }
    forall b: nat ensures RefOk(s, b) { }
    forall fd: int ensures FdOwned(s, fd) { }
    forall j: nat, l: nat ensures FdsDiffer(s, j, l) { }
    forall b: nat ensures BlockOk(s, b) { }
    assert cfg.nttl.Of(0) < INT_MAX && cfg.nttl.Of(1) < INT_MAX && cfg.nttl.Of(2) < INT_MAX;
  }

  /** Every poll of the run is one the kernel can give at that point. */
  ghost predicate RunFits(s: State, polls: seq<Poll>) {
    polls != [] ==>
      && RunFits(s, polls[..|polls| - 1])
      && PollFits(Run(s, polls[..|polls| - 1]), polls[|polls| - 1])
  }

  /** The invariant holds after every run. */
  lemma {:induction false} EveryRunKeepsInvariant(s: State, polls: seq<Poll>)
    requires Idle(s) && RunFits(s, polls)
    ensures Idle(Run(s, polls))
  {
    if polls != [] {
      var before := polls[..|polls| - 1];
      EveryRunKeepsInvariant(s, before);
      RoundInv(Run(s, before), polls[|polls| - 1]);
    }
  }
}
