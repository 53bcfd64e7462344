/** What a round does besides the descriptors, in true time: ageing, time-outs,
    compaction, and the time poll() may sleep before the next one. */
module NscdTiming {
  import opened Bytes
  import opened NscdModel
  import opened NscdInvariant
  import opened NscdSweep
  import opened NscdRequest
  import opened NscdCompact
  import opened NscdRun
  import opened NscdClock

  // ---------------------------------------------------------------- time-outs

  /** Entry i after the time-out loop has looked at it. */
  function LookedAt(s: State, i: nat): Client {
    if TimedOut(s, i) then ClientAt(CloseClient(s, i), i) else ClientAt(s, i)
  }

  ghost predicate TimeoutsDone(s: State, p: nat, r: State) {
    && |r.clients| == |s.clients|
    && r.now == s.now && r.cache == s.cache && r.served == s.served && r.exited == s.exited
    && r.lastAge == s.lastAge && r.agingMs == s.agingMs
    && (forall j: nat :: j < |s.clients| ==> r.clients[j] == if j < p then LookedAt(s, j) else s.clients[j])
  }

  lemma TimeoutsStep(s: State, p: nat, t: State, r: State)
    requires p < |s.clients| && TimeoutsDone(s, p, t)
    requires r == if TimedOut(t, p) then CloseClient(t, p) else t
    ensures TimeoutsDone(s, p + 1, r)
  {
    assert t.clients[p] == s.clients[p];
  }

  lemma {:induction false} TimeoutsEffect(s: State, p: nat)
    requires p <= |s.clients|
    ensures TimeoutsDone(s, p, Timeouts(s, p))
  {
    if p > 0 {
      TimeoutsEffect(s, p - 1);
      TimeoutsStep(s, p - 1, Timeouts(s, p - 1), Timeouts(s, p));
    }
  }

  /** Client i began to be waited for at true time t0; it is t now. */
  ghost predicate WaitedSince(s: State, i: nat, t0: nat, t: nat) {
    && i < |s.clients| && s.clients[i].fd != 0
    && s.clients[i].startedMs == ClockAt(t0) && s.now == ClockAt(t)
    && t0 <= t < t0 + TWO32
  }

  /** The time-out loop closes an open client exactly if it is the client that is
      waited for, and for more than 100 ms of true time; it leaves all others as
      they were. */
  lemma TimesOutExactly(s: State, i: nat, t0: nat, t: nat)
    requires WaitedSince(s, i, t0, t)
    ensures var r := Timeouts(s, |s.clients|);
            && |r.clients| == |s.clients|
            && (r.clients[i].fd == 0 <==> s.clients[i].clientFd == 0 && t - t0 > 100)
            && (r.clients[i].fd != 0 ==> r.clients[i] == s.clients[i])
  {
    WrapOnce(t0, t);
    TimeoutsEffect(s, |s.clients|);
  }

  // ------------------------------------------------------- the end of a round

  /** The last sweep was at true time t0; it is t now. */
  ghost predicate SweptAt(s: State, t0: nat, t: nat) {
    s.lastAge == ClockAt(t0) && s.now == ClockAt(t) && t0 <= t < t0 + TWO32
  }

  /** Slot k after the ageing of a round: future entries stay, and completed ones
      go by their lifetimes. */
  ghost predicate Aged(s: State, r: State, k: nat, t: nat) {
    && (!SlotAt(s, k).Done? ==> SlotAt(r, k) == SlotAt(s, k))
    && (forall t0 :: StampedAt(s, k, t0, t) ==>
          var blk := Blk(s, SlotAt(s, k).blk);
          |blk.key| >= 8 && |blk.resp| >= 8 && AgedOut(s, r, k, t - t0, Lifetime(s.cfg, blk)))
  }

  lemma AgeCacheAges(s: State, k: nat, t: nat)
    requires Core(s) && Counts(s)
    ensures Aged(s, AgeCache(s, Expired), k, t)
  {
    SlotAfterSweep(s, Expired, k);
    forall t0 | StampedAt(s, k, t0, t)
      ensures var blk := Blk(s, SlotAt(s, k).blk);
              |blk.key| >= 8 && |blk.resp| >= 8
              && AgedOut(s, AgeCache(s, Expired), k, t - t0, Lifetime(s.cfg, blk))
    {
      CompletedWords(s, k);
      SweepByLifetime(s, k, t0, t);
    }
  }

  lemma AgeIfDueEffect(s: State, t0: nat, t: nat, k: nat)
    requires Inv(s) && SweptAt(s, t0, t)
    ensures var r := AgeIfDue(s);
            && r.clients == s.clients && r.now == s.now
            && (if t - t0 >= s.agingMs then r.lastAge == s.now && Aged(s, r, k, t) else r == s)
  {
    WrapOnce(t0, t);
    var s1 := s.(lastAge := s.now);
    FlagsInv(s, s1);
    ClientsAfterSweep(s1, Expired);
    SweptCache(s1, Expired);
    AgeCacheAges(s1, k, t);
    AgedFrame(s, s1, AgeCache(s1, Expired), k, t);
  }

  lemma AgedFrame(s: State, s1: State, r: State, k: nat, t: nat)
    requires s1 == s.(lastAge := s1.lastAge) && Aged(s1, r, k, t)
    ensures Aged(s, r, k, t)
  {
    forall t0 | StampedAt(s, k, t0, t)
      ensures var blk := Blk(s, SlotAt(s, k).blk);
              |blk.key| >= 8 && |blk.resp| >= 8 && AgedOut(s, r, k, t - t0, Lifetime(s.cfg, blk))
    {
      assert StampedAt(s1, k, t0, t);
    }
  }

  /** The entries that wait for a worker, or have not been waited for too long. */
  function Patient(clients: seq<Client>, since: seq<nat>, t: nat): seq<Client>
    requires |since| == |clients|
  {
    if clients == [] then []
    else
      var n := |clients| - 1;
      Patient(clients[..n], since[..n], t)
      + if clients[n].fd != 0 && (clients[n].clientFd != 0 || t <= since[n] + 100) then [clients[n]] else []
  }

  lemma {:induction false} PatientIsOpen(a: seq<Client>, clients: seq<Client>, since: seq<nat>, t: nat)
    requires |a| == |clients| == |since|
    requires forall j :: 0 <= j < |a| ==>
             if clients[j].fd != 0 && (clients[j].clientFd != 0 || t <= since[j] + 100) then a[j] == clients[j]
             else a[j].fd == 0
    ensures OpenOnly(a) == Patient(clients, since, t)
  {
    if a != [] {
      var n := |a| - 1;
      PatientIsOpen(a[..n], clients[..n], since[..n], t);
    }
  }

  /** Since when, in true time, each of the open clients has been waited for. */
  ghost predicate AllWaitedSince(s: State, since: seq<nat>, t: nat) {
    && |since| == |s.clients|
    && (forall j: nat :: j < |s.clients| && s.clients[j].fd != 0 ==> WaitedSince(s, j, since[j], t))
  }

  lemma TimeoutsLeave(s: State, since: seq<nat>, t: nat)
    requires AllWaitedSince(s, since, t)
    ensures OpenOnly(Timeouts(s, |s.clients|).clients) == Patient(s.clients, since, t)
  {
    var r := Timeouts(s, |s.clients|);
    TimeoutsEffect(s, |s.clients|);
    forall j | 0 <= j < |s.clients|
      ensures if s.clients[j].fd != 0 && (s.clients[j].clientFd != 0 || t <= since[j] + 100)
              then r.clients[j] == s.clients[j] else r.clients[j].fd == 0
    {
      if s.clients[j].fd != 0 { TimesOutExactly(s, j, since[j], t); }
    }
    PatientIsOpen(r.clients, s.clients, since, t);
  }

  lemma CoalesceLeaves(s: State)
    requires Inv(s)
    ensures var r := Coalesce(s);
            r.clients == OpenOnly(s.clients) && r == s.(clients := r.clients, minClosed := r.minClosed,
                                                        cntClosed := r.cntClosed, accepting := r.accepting)
  {
    if s.cntClosed == 0 {
      assert ClosedIn(s.clients) == ClosedSet(s) == {};
      OpenOnlyOfOpen(s.clients);
    } else {
      CoalesceEffect(s);
    }
  }

  lemma AgedSlot(s: State, m: State, r: State, k: nat, t: nat)
    requires Aged(s, m, k, t) && SlotAt(r, k) == SlotAt(m, k)
    ensures Aged(s, r, k, t)
  {
    forall t0 | StampedAt(s, k, t0, t)
      ensures var blk := Blk(s, SlotAt(s, k).blk);
              |blk.key| >= 8 && |blk.resp| >= 8 && AgedOut(s, r, k, t - t0, Lifetime(s.cfg, blk))
    {
      assert AgedOut(s, m, k, t - t0, Lifetime(s.cfg, Blk(s, SlotAt(s, k).blk)));
    }
  }

  /** Time-outs and compaction leave the cache and its clocks alone. */
  lemma TailAfterAgeing(s: State)
    requires Inv(s) && !s.exited
    ensures var (m, r) := (AgeIfDue(s), Tail(s));
            && r.cache == m.cache && r.lastAge == m.lastAge && r.agingMs == m.agingMs
            && r.clients == OpenOnly(Timeouts(m, |m.clients|).clients)
  {
    var m := AgeIfDue(s);
    AgeInv(s);
    TimeoutsEffect(m, |m.clients|);
    TimeoutsInv(m, |m.clients|);
    CoalesceLeaves(Timeouts(m, |m.clients|));
  }

  lemma TailEnds(s: State, t0: nat, t: nat, since: seq<nat>, k: nat)
    requires Inv(s) && !s.exited && SweptAt(s, t0, t) && AllWaitedSince(s, since, t)
    ensures var r := Tail(s);
            && (if t - t0 >= s.agingMs then r.lastAge == s.now && Aged(s, r, k, t)
                else r.lastAge == s.lastAge && r.agingMs == s.agingMs && SlotAt(r, k) == SlotAt(s, k))
            && r.clients == Patient(s.clients, since, t)
  {
    var m := AgeIfDue(s);
    AgeIfDueEffect(s, t0, t, k);
    TailAfterAgeing(s);
    assert AllWaitedSince(m, since, t) by {
      forall j: nat | j < |m.clients| && m.clients[j].fd != 0 ensures WaitedSince(m, j, since[j], t) {
        assert WaitedSince(s, j, since[j], t);
      }
    }
    TimeoutsLeave(m, since, t);
    if t - t0 >= s.agingMs { AgedSlot(s, m, Tail(s), k, t); }
  }

  /** What every round ends with, from the state m after its turns: the cache is
      aged if the interval is over since the last sweep, by true time, and left
      as it is otherwise; and of the clients those stay, in their order, that
      are open and have not kept the daemon waiting for more than 100 ms. */
  lemma RoundEnds(s: State, p: Poll, m: State, t0: nat, t: nat, since: seq<nat>, k: nat)
    requires Idle(s) && PollFits(s, p) && !s.exited && !p.Interrupted?
    requires m == Midway(s, p) && !m.exited && SweptAt(m, t0, t) && AllWaitedSince(m, since, t)
    ensures var r := Round(s, p);
            && (if t - t0 >= m.agingMs then r.lastAge == m.now && Aged(m, r, k, t)
                else r.lastAge == m.lastAge && r.agingMs == m.agingMs && SlotAt(r, k) == SlotAt(m, k))
            && r.clients == Patient(m.clients, since, t)
  {
    MidwayInv(s, p);
    TailEnds(m, t0, t, since, k);
  }

  // --------------------------------------------------------- the sleep of poll()

  lemma {:induction false} Unhurried(clients: seq<Client>, since: seq<nat>, t: nat, j: nat)
    requires |since| == |clients| && (forall i :: 0 <= i < |clients| ==> since[i] + 100 < t)
    requires j < |Patient(clients, since, t)|
    ensures Patient(clients, since, t)[j].clientFd != 0
  {
    var n := |clients| - 1;
    if j < |Patient(clients[..n], since[..n], t)| { Unhurried(clients[..n], since[..n], t, j); }
  }

  /** The true times behind a state that is left to itself until time t. */
  ghost predicate KnownTimes(s: State, t0: nat, since: seq<nat>, t: nat) {
    && s.lastAge == ClockAt(t0) && t0 <= t < t0 + TWO32
    && |since| == |s.clients|
    && (forall i: nat :: i < |since| ==>
          s.clients[i].startedMs == ClockAt(since[i]) && since[i] <= t < since[i] + TWO32)
  }

  lemma QuietRound(s: State, t0: nat, since: seq<nat>, t: nat, k: nat)
    requires Idle(s) && !s.exited && KnownTimes(s, t0, since, t)
    ensures var r := Round(s, NothingReady(ClockAt(t)));
            && (t - t0 >= s.agingMs ==> Aged(s.(now := ClockAt(t)), r, k, t))
            && r.clients == Patient(s.clients, since, t)
  {
    var m := s.(now := ClockAt(t));
    forall i: nat | i < |m.clients| && m.clients[i].fd != 0 ensures WaitedSince(m, i, since[i], t) { }
    RoundEnds(s, NothingReady(ClockAt(t)), m, t0, t, since, k);
  }

  /** A poll that runs to the end of its timeout is followed by what it was to
      wake the daemon for: with room in the table, a sweep; with a full table,
      which takes no connections, the close of every client that is waited for. */
  lemma WakesInTime(s: State, t0: nat, since: seq<nat>, t: nat, sleep: nat, j: nat, k: nat)
    requires Idle(s) && !s.exited && PollTimeout(s) == Some(sleep)
    requires KnownTimes(s, t0, since, t) && KnownTimes(s, t0, since, t + sleep)
    ensures var r := Round(s, NothingReady(ClockAt(t + sleep)));
            if |s.clients| + 2 < s.cfg.maxReq then
              sleep == s.agingMs && Aged(s.(now := ClockAt(t + sleep)), r, k, t + sleep)
            else
              sleep == 200 && (j < |r.clients| ==> r.clients[j].clientFd != 0)
  {
    QuietRound(s, t0, since, t + sleep, k);
    if |s.clients| + 2 >= s.cfg.maxReq && j < |Patient(s.clients, since, t + sleep)| {
      Unhurried(s.clients, since, t + sleep, j);
    }
  }

  /** The interval the daemon starts with, and goes back to with every result: half
      of the shortest time a "not found" lives, made odd so as not to be zero. */
  lemma HalfTheShortest(cfg: Config, now: nat, least: nat)
    requires least in {cfg.nttl.passwd, cfg.nttl.group, cfg.nttl.hosts}
    requires least <= cfg.nttl.passwd && least <= cfg.nttl.group && least <= cfg.nttl.hosts
    ensures var s := Init(cfg, now);
            && s.agingMs == s.minAgingMs && s.minAgingMs % 2 == 1
            && least - 1 <= 2 * s.minAgingMs <= least + 2
            && s.lastAge == 0
  {
  }
}
