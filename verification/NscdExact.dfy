/** Which runs the daemon survives, exactly, where the reply a worker gives when
    its pipe shows POLLIN may be anything. */
module NscdExact {
  import opened Bytes
  import opened NscdModel
  import opened NscdInvariant
  import opened NscdEvents
  import opened NscdCompact
  import opened NscdRequest
  import opened NscdRun
  import opened NscdDaemon
  import opened NscdRace
  import M = NscdModel

  // ------------------------------------------------------------ what may come

  ghost predicate Offered(s: State, evs: seq<Event>, j: nat) {
    j < |s.clients| ==> j < |evs| && PollOffers(s.clients[j], evs[j])
  }

  ghost predicate AllOffered(s: State, evs: seq<Event>) {
    forall j: nat :: Offered(s, evs, j)
  }

  /** What PollFits assumes of a round, but for the replies of the workers. */
  ghost predicate RoundOffers(s: State, p: Poll) {
    !s.exited ==>
      match p
      case Interrupted => true
      case NothingReady(now) => now < TWO32
      case Ready(now, a, b, evs) =>
        && now < TWO32
        && (a || b ==> s.accepting)
        && |evs| == |AcceptBoth(s.(now := now), a, b).clients|
        && AllOffered(s, evs)
        && NoRace(s, evs)
  }

  /** The reply read in turn j is valid, unless the daemon was shut down before. */
  ghost predicate GoodAt(s: State, evs: seq<Event>, j: nat) {
    j < |s.clients| && j < |evs| && !M.HandleEvents(s, evs, j).exited ==> GoodReply(s.clients[j], evs[j])
  }

  ghost predicate TurnsGood(s: State, evs: seq<Event>) {
    forall j: nat :: GoodAt(s, evs, j)
  }

  /** Every worker whose pipe shows POLLIN in this round gives a valid reply. */
  ghost predicate RepliesGood(s: State, p: Poll) {
    !s.exited && p.Ready? ==>
        TurnsGood(AcceptBoth(s.(now := p.now), p.first, p.second), ForcedIn(p.events, |s.clients|))
  }

  // ------------------------------------------------------ all the descriptors

  /** What all of this is about: a table of open clients, and its events. */
  ghost predicate Polled(s: State, evs: seq<Event>) {
    Inv(s) && NoneClosed(s) && NoRace(s, evs) && AllOffered(s, evs) && |evs| == |s.clients|
  }

  lemma AtFirst(s: State, evs: seq<Event>)
    requires Polled(s, evs)
    ensures After(s, evs, 0, M.HandleEvents(s, evs, 0))
  {
  }

  lemma AfterNothing(s: State, evs: seq<Event>, p: nat, t: State)
    requires NoneClosed(s) && |evs| == |s.clients| && p < |s.clients| && After(s, evs, p, t)
    ensures After(s, evs, p + 1, t)
  {
    var q := p + 1;
    assert Later(s, t, p, p);
    forall j: nat ensures Later(s, t, q, j) { assert Later(s, t, p, j); }
    forall j: nat ensures StaleKnown(s, evs, t, q, j) { assert StaleKnown(s, evs, t, p, j); }
  }

  lemma GoodStep(s: State, evs: seq<Event>, p: nat, t: State)
    requires Polled(s, evs) && p < |evs| && After(s, evs, p, t) && t == M.HandleEvents(s, evs, p) && GoodAt(s, evs, p)
    ensures After(s, evs, p + 1, HandleEvent(t, p, evs[p]))
  {
    assert Offered(s, evs, p);
    if t.exited {
      AfterNothing(s, evs, p, t);
    } else {
      assert Reported(s, evs, p);
      EventsStep(s, evs, p, t);
    }
  }

  lemma GoodNext(s: State, evs: seq<Event>, p: nat, t: State, r: State)
    requires Polled(s, evs) && TurnsGood(s, evs) && p < |evs|
    requires t == M.HandleEvents(s, evs, p) && r == M.HandleEvents(s, evs, p + 1) && After(s, evs, p, t)
    ensures After(s, evs, p + 1, r)
  {
    assert GoodAt(s, evs, p);
    assert r == HandleEvent(t, p, evs[p]);
    GoodStep(s, evs, p, t);
  }

  lemma {:induction false} GoodTurnsInv(s: State, evs: seq<Event>, p: nat)
    requires Polled(s, evs) && TurnsGood(s, evs) && p <= |evs|
    ensures After(s, evs, p, M.HandleEvents(s, evs, p))
  {
    if p == 0 {
      AtFirst(s, evs);
    } else {
      var q := p - 1;
      GoodTurnsInv(s, evs, q);
      GoodNext(s, evs, q, M.HandleEvents(s, evs, q), M.HandleEvents(s, evs, p));
    }
  }

  lemma GoodTurnsAreSafe(s: State, evs: seq<Event>)
    requires Polled(s, evs) && TurnsGood(s, evs)
    ensures TurnsSafe(s, evs)
  {
    forall p: nat ensures TurnSafeAt(s, evs, p) {
      if p < |evs| {
        var t := M.HandleEvents(s, evs, p);
        GoodTurnsInv(s, evs, p);
        GoodTurnsInv(s, evs, p + 1);
        assert GoodAt(s, evs, p) && Offered(s, evs, p);
        if !t.exited {
          assert Reported(s, evs, p);
          TurnIsSafe(s, evs, p, t);
        }
      }
    }
  }

  /** A turn that is safe has read a good reply, if any. */
  lemma SafeTurnIsGood(s: State, evs: seq<Event>, p: nat, t: State)
    requires Polled(s, evs) && p < |evs| && t == M.HandleEvents(s, evs, p)
    requires After(s, evs, p, t) && TurnSafe(t, p, evs[p])
    ensures GoodAt(s, evs, p)
  {
    if IsOwner(s.clients[p]) && evs[p].revents.pin && !t.exited { SafeReplyIsGood(s, evs, p, t, evs[p]); }
  }

  lemma SafeReplyIsGood(s: State, evs: seq<Event>, p: nat, t: State, ev: Event)
    requires Polled(s, evs) && p < |evs| && ev == evs[p] && After(s, evs, p, t) && TurnSafe(t, p, ev)
    requires IsOwner(s.clients[p]) && ev.revents.pin && !t.exited
    ensures ValidReply(ev.out)
  {
    assert Later(s, t, p, p) && Offered(s, evs, p);
    SafeAtTurn(s, evs, p, t);
    AnswerSafeIff(t, p, ev);
  }

  lemma SafeNext(s: State, evs: seq<Event>, p: nat, t: State, r: State)
    requires Polled(s, evs) && TurnsSafe(s, evs) && p < |evs|
    requires t == M.HandleEvents(s, evs, p) && r == M.HandleEvents(s, evs, p + 1) && After(s, evs, p, t)
    ensures GoodAt(s, evs, p) && After(s, evs, p + 1, r)
  {
    assert TurnSafeAt(s, evs, p);
    assert r == HandleEvent(t, p, evs[p]);
    SafeTurnIsGood(s, evs, p, t);
    GoodStep(s, evs, p, t);
  }

  lemma {:induction false} SafeTurnsInv(s: State, evs: seq<Event>, p: nat)
    requires Polled(s, evs) && TurnsSafe(s, evs) && p <= |evs|
    ensures After(s, evs, p, M.HandleEvents(s, evs, p))
  {
    if p == 0 {
      AtFirst(s, evs);
    } else {
      var q := p - 1;
      SafeTurnsInv(s, evs, q);
      SafeNext(s, evs, q, M.HandleEvents(s, evs, q), M.HandleEvents(s, evs, p));
    }
  }

  lemma SafeTurnsAreGood(s: State, evs: seq<Event>)
    requires Polled(s, evs) && TurnsSafe(s, evs)
    ensures TurnsGood(s, evs)
  {
    forall p: nat ensures GoodAt(s, evs, p) {
      if p < |evs| {
        SafeTurnsInv(s, evs, p);
        SafeNext(s, evs, p, M.HandleEvents(s, evs, p), M.HandleEvents(s, evs, p + 1));
      }
    }
  }

  // ---------------------------------------------------------------- one round

  /** What a round comes to before its turns. */
  lemma ReadyPolled(s: State, now: nat, a: bool, b: bool, evs: seq<Event>)
    requires Idle(s) && !s.exited && RoundOffers(s, Ready(now, a, b, evs))
    ensures var s0 := s.(now := now); Inv(s0) && AcceptsSafe(s0, a, b)
    ensures Polled(AcceptBoth(s.(now := now), a, b), ForcedIn(evs, |s.clients|))
  {
    var s0 := s.(now := now);
    var s1 := AcceptBoth(s0, a, b);
    FlagsInv(s, s0);
    AcceptsAreSafe(s0, a, b);
    AcceptBothInv(s0, a, b);
    OfferedAfterAccept(s, s1, evs);
    NoRaceAfterAccept(s, s1, evs);
  }

  lemma OfferedAfterAccept(s: State, r: State, evs: seq<Event>)
    requires GrownBy(s, r) && |evs| == |r.clients| && AllOffered(s, evs)
    ensures AllOffered(r, ForcedIn(evs, |s.clients|))
  {
    var forced := ForcedIn(evs, |s.clients|);
    forall j: nat ensures Offered(r, forced, j) {
      assert Offered(s, evs, j);
      if j < |s.clients| { assert r.clients[j] == s.clients[j]; }
    }
  }

  lemma ReadySafeIff(s: State, now: nat, a: bool, b: bool, evs: seq<Event>)
    requires Idle(s) && !s.exited && RoundOffers(s, Ready(now, a, b, evs))
    ensures RoundSafe(s, Ready(now, a, b, evs)) <==> RepliesGood(s, Ready(now, a, b, evs))
    ensures RepliesGood(s, Ready(now, a, b, evs)) ==> Idle(Round(s, Ready(now, a, b, evs)))
  {
    var s1, forced := AcceptBoth(s.(now := now), a, b), ForcedIn(evs, |s.clients|);
    ReadyPolled(s, now, a, b, evs);
    if TurnsGood(s1, forced) {
      GoodTurnsAreSafe(s1, forced);
      GoodTurnsInv(s1, forced, |forced|);
      TailIsSafe(M.HandleEvents(s1, forced, |forced|));
      TailInv(M.HandleEvents(s1, forced, |forced|));
    }
    if TurnsSafe(s1, forced) {
      SafeTurnsAreGood(s1, forced);
    }
  }

  /** A round is safe if and only if every worker whose pipe shows POLLIN gives a
      valid reply; and then the invariant is kept. */
  lemma RoundSafeIff(s: State, p: Poll)
    requires Idle(s) && RoundOffers(s, p)
    ensures RoundSafe(s, p) <==> RepliesGood(s, p)
    ensures RepliesGood(s, p) ==> Idle(Round(s, p))
  {
    if !s.exited {
      if p.Ready? {
        ReadySafeIff(s, p.now, p.first, p.second, p.events);
      } else {
        RoundIsSafe(s, p);
        RoundInv(s, p);
      }
    }
  }

  // --------------------------------------------------------------- whole runs

  ghost predicate OffersAt(s: State, polls: seq<Poll>, n: nat) {
    n < |polls| ==> RoundOffers(Run(s, polls[..n]), polls[n])
  }

  ghost predicate RunOffers(s: State, polls: seq<Poll>) {
    forall n: nat :: OffersAt(s, polls, n)
  }

  ghost predicate RepliesGoodAt(s: State, polls: seq<Poll>, n: nat) {
    n < |polls| ==> RepliesGood(Run(s, polls[..n]), polls[n])
  }

  ghost predicate AllRepliesGood(s: State, polls: seq<Poll>) {
    forall n: nat :: RepliesGoodAt(s, polls, n)
  }

  lemma NextRound(s: State, polls: seq<Poll>, n: nat)
    requires n < |polls|
    ensures Run(s, polls[..n + 1]) == Round(Run(s, polls[..n]), polls[n])
  {
    var q := n + 1;
    assert polls[..q][..n] == polls[..n];
  }

  /** On the way through such a run the invariant holds. */
  lemma {:induction false} IdleSoFar(s: State, polls: seq<Poll>, n: nat)
    requires Idle(s) && RunOffers(s, polls) && n <= |polls|
    requires RunSafe(s, polls) || AllRepliesGood(s, polls)
    ensures Idle(Run(s, polls[..n]))
  {
    if n == 0 {
      assert polls[..0] == [];
    } else {
      var m := n - 1;
      IdleSoFar(s, polls, m);
      NextRound(s, polls, m);
      assert OffersAt(s, polls, m) && (RunSafe(s, polls) ==> RunSafeAt(s, polls, m));
      assert AllRepliesGood(s, polls) ==> RepliesGoodAt(s, polls, m);
      RoundSafeIff(Run(s, polls[..m]), polls[m]);
    }
  }

  /** The daemon comes through a run without fault if and only if no worker's
      pipe shows POLLIN without a valid reply. */
  lemma RunSafeIff(s: State, polls: seq<Poll>)
    requires Idle(s) && RunOffers(s, polls)
    ensures RunSafe(s, polls) <==> AllRepliesGood(s, polls)
    ensures AllRepliesGood(s, polls) ==> Idle(Run(s, polls))
  {
    if RunSafe(s, polls) || AllRepliesGood(s, polls) {
      assert polls[..|polls|] == polls;
      IdleSoFar(s, polls, |polls|);
      forall n: nat ensures RunSafeAt(s, polls, n) <==> RepliesGoodAt(s, polls, n) {
        if n < |polls| {
          IdleSoFar(s, polls, n);
          assert OffersAt(s, polls, n);
          RoundSafeIff(Run(s, polls[..n]), polls[n]);
        }
      }
      if RunSafe(s, polls) {
        forall n: nat ensures RepliesGoodAt(s, polls, n) { assert RunSafeAt(s, polls, n); }
      }
      if AllRepliesGood(s, polls) {
        forall n: nat ensures RunSafeAt(s, polls, n) { assert RepliesGoodAt(s, polls, n); }
      }
    }
  }

  // --------------------------------------------------------- a run that fails

  /** A query is answered by a worker that dies in the middle of its reply. */
  function CutShort(query: seq<byte>, out: seq<byte>): seq<Poll> {
    [Ready(0, true, true, [QUIET, Reads(query)]),
        Ready(0, false, false, [QUIET, QUIET.(revents := POLLIN, out := out)])]
  }

  lemma BadReplyFaults(s: State, query: seq<byte>, k: nat, out: seq<byte>)
    requires Middle(s, query, k) && !ValidReply(out)
    ensures var p := CutShort(query, out)[1]; RoundOffers(s, p) && !RepliesGood(s, p)
  {
    var evs := CutShort(query, out)[1].events;
    forall j: nat ensures Offered(s, evs, j) { assert EntryOk(s, j); }
    forall j: nat, i: nat ensures !Races(s, evs, j, i) { }
    assert s.(now := 0) == s && AcceptBoth(s, false, false) == s && ForcedIn(evs, 2) == evs;
    assert M.HandleEvents(s, evs, 1) == HandleEvent(M.HandleEvents(s, evs, 0), 0, QUIET);
    assert !GoodAt(s, evs, 1);
  }

  lemma SecondPollFaults(s: State, p: Poll, q: Poll)
    requires Idle(s) && RoundOffers(s, p) && RoundOffers(Round(s, p), q) && !RepliesGood(Round(s, p), q)
    ensures RunOffers(s, [p, q]) && !RunSafe(s, [p, q])
  {
    var ps := [p, q];
    assert ps[..0] == [] && Run(s, []) == s;
    NextRound(s, ps, 0);
    forall n: nat ensures OffersAt(s, ps, n) { }
    assert !RepliesGoodAt(s, ps, 1);
    RunSafeIff(s, ps);
  }

  /** Every configuration, every query it answers and every bad reply have a run
      of two polls, both of them such as a kernel can give, that goes wrong. */
  lemma BadReplyIsUnsafe(cfg: Config, query: seq<byte>, out: seq<byte>)
    requires ConfigOk(cfg) && Answerable(cfg, query) && !ValidReply(out)
    ensures RunOffers(Init(cfg, 0), CutShort(query, out)) && !RunSafe(Init(cfg, 0), CutShort(query, out))
  {
    var s0, p := Init(cfg, 0), Polls(query, [])[0];
    InitIdle(cfg, 0);
    FirstFits(cfg, query);
    FitsOffers(s0, p);
    var k := FirstRound(cfg, query);
    BadReplyFaults(Round(s0, p), query, k, out);
    SecondPollFaults(s0, p, CutShort(query, out)[1]);
  }

  lemma FitsOffers(s: State, p: Poll)
    requires PollFits(s, p)
    ensures RoundOffers(s, p)
  {
    if p.Ready? {
      forall j: nat ensures Offered(s, p.events, j) { assert Reported(s, p.events, j); }
    }
  }
}
