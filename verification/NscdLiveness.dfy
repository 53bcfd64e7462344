/** A client that keeps taking octets is served, whatever the others do. */
module NscdLiveness {
  import opened Bytes
  import opened NscdModel
  import opened NscdInvariant
  import opened NscdSweep
  import opened NscdServe
  import opened NscdClose
  import opened NscdReply
  import opened NscdTransfer
  import opened NscdRequest
  import opened NscdEvents
  import opened NscdCompact
  import opened NscdAccept
  import opened NscdRun
  import opened NscdProgress
  import opened NscdTiming

  // -------------------------------------------------- what no step takes back

  /** A block keeps its key, its reply and its time stamp until it is freed, and
      its identifier is not used again. */
  ghost predicate KeepsBlock(s: State, r: State, b: nat) {
    b < s.nextId && b in r.heap ==>
      && b in s.heap
      && r.heap[b].key == s.heap[b].key && r.heap[b].resp == s.heap[b].resp && r.heap[b].ts24 == s.heap[b].ts24
  }

  ghost predicate Keeps(s: State, r: State) {
    && r.now == s.now
    && s.nextId <= r.nextId
    && s.served <= r.served
    && (s.exited ==> r.exited)
    && (forall b: nat :: KeepsBlock(s, r, b))
  }

  lemma KeepsOn(s: State, m: State, r: State)
    requires Keeps(s, m) && Keeps(m, r)
    ensures Keeps(s, r)
  {
    forall b: nat ensures KeepsBlock(s, r, b) { assert KeepsBlock(s, m, b) && KeepsBlock(m, r, b); }
  }

  lemma CloseKeeps(s: State, i: nat)
    ensures Keeps(s, CloseClient(s, i))
  {
  }

  lemma AgeSlotKeeps(s: State, k: nat, f: Flush)
    ensures Keeps(s, AgeSlot(s, k, f))
  {
  }

  lemma {:induction false} SweepKeeps(s: State, k: nat, f: Flush)
    ensures Keeps(s, AgeSlots(s, k, f))
  {
    if k > 0 {
      SweepKeeps(s, k - 1, f);
      AgeSlotKeeps(AgeSlots(s, k - 1, f), k - 1, f);
      KeepsOn(s, AgeSlots(s, k - 1, f), AgeSlots(s, k, f));
    }
  }

  lemma AgeCacheKeeps(s: State, f: Flush)
    ensures Keeps(s, AgeCache(s, f))
  {
    SweepKeeps(s.(agingMs := INT_MAX), |s.cache|, f);
    KeepsOn(s, s.(agingMs := INT_MAX), AgeCache(s, f));
  }

  lemma OutcomeKeeps(s: State, u: nat, found: Outcome)
    ensures Keeps(s, LookupOutcome(s, u, found).0)
  {
  }

  lemma LookupKeeps(s: State, u: nat)
    ensures Keeps(s, Lookup(s, u).0)
  {
    var s1 := CountAccess(s);
    var found := ScanLine(s1, KeyOf(BufAt(s, u)));
    OutcomeKeeps(s1, u, found);
    KeepsOn(s, s1, LookupOutcome(s1, u, found).0);
  }

  lemma LookupGivesBlock(s: State, u: nat)
    requires SlotsOk(s)
    ensures var (r, pp) := Lookup(s, u);
            pp.At? && SlotAt(r, pp.slot).Done? ==> SlotAt(r, pp.slot).blk in r.heap
  {
    var found := ScanLine(CountAccess(s), KeyOf(BufAt(s, u)));
    if found.Found? { assert SlotOk(s, found.k); }
  }

  lemma ServeAtKeeps(s: State, i: nat, pp: CachePtr)
    requires pp.At? && SlotAt(s, pp.slot).Done? ==> SlotAt(s, pp.slot).blk in s.heap
    ensures Keeps(s, ServeAt(s, i, pp).0)
  {
  }

  lemma ServeKeepsBlocks(s: State, i: nat)
    requires SlotsOk(s)
    ensures Keeps(s, Serve(s, i).0)
  {
    var u := ClientAt(s, i).bufidx;
    var (s1, pp) := Lookup(s, u);
    LookupKeeps(s, u);
    LookupGivesBlock(s, u);
    ServeAtKeeps(s1, i, pp);
    KeepsOn(s, s1, Serve(s, i).0);
  }

  lemma HandleClientKeeps(s: State, i: nat, ev: Event)
    requires Inv(s)
    ensures Keeps(s, HandleClient(s, i, ev).0)
  {
    match Judge(s.cfg, BufAt(s, ClientAt(s, i).bufidx), ev)
    case Drop => CloseKeeps(s, i);
    case ReadMore =>
    case Exit =>
    case FlushAll =>
      AgeCacheKeeps(s, All);
      CloseKeeps(AgeCache(s, All), i);
      KeepsOn(s, AgeCache(s, All), CloseClient(AgeCache(s, All), i));
    case Query(flush) =>
      var f := Service(KeySrv(AskedKey(s, i)));
      var s1 := if flush then AgeCache(s, f) else s;
      AgeCacheKeeps(s, f);
      SweptCache(s, f);
      ServeKeepsBlocks(s1, i);
      KeepsOn(s, s1, Serve(s1, i).0);
  }

  lemma WriteOutKeeps(s: State, i: nat, w: WriteResult)
    ensures Keeps(s, WriteOut(s, i, w))
  {
    CloseKeeps(s, i);
    if w.Took? {
      var n := Min(w.n, Remaining(s, i));
      var s2 := Noted(s, i, n);
      CloseKeeps(s2, i);
      KeepsOn(s, s2, CloseClient(s2, i));
    }
  }

  lemma ReadRequestKeeps(s: State, i: nat, ev: Event)
    requires Inv(s) && i < |s.clients| && IsReading(s.clients[i])
    ensures Keeps(s, ReadRequest(s, i, ev))
  {
    CloseKeeps(s, i);
    if ev.read.Got? {
      var data := ReadData(s, i, ev.read.data);
      assert EntryOk(s, i);
      if data != [] {
        var s1 := Received(s, i, data);
        ReceiveInv(s, i, data);
        HandleClientKeeps(s1, i, ev);
        var (s2, ready) := HandleClient(s1, i, ev);
        WriteOutKeeps(s2, i, ev.write);
        KeepsOn(s, s1, s2);
        KeepsOn(s, s2, WriteOut(s2, i, ev.write));
      }
    }
  }

  lemma ReplyKeeps(s: State, i: nat, out: seq<byte>)
    ensures Keeps(s, HandleWorkerResponse(s, i, out))
  {
  }

  lemma OwnerTurnKeeps(s: State, i: nat, ev: Event)
    requires i < |s.clients| && IsOwner(s.clients[i]) && PollOffers(s.clients[i], ev)
    ensures Keeps(s, HandleEvent(s, i, ev))
  {
    var t := HandleWorkerResponse(s, i, ev.out);
    ReplyKeeps(s, i, ev.out);
    WriteOutKeeps(t, i, ev.write);
    KeepsOn(s, t, WriteOut(t, i, ev.write));
  }

  lemma ClientTurnKeeps(s: State, i: nat, ev: Event)
    requires Inv(s) && i < |s.clients| && s.clients[i].fd != 0 && !IsOwner(s.clients[i])
    requires PollOffers(s.clients[i], ev)
    ensures Keeps(s, HandleEvent(s, i, ev))
  {
    assert EntryOk(s, i);
    CloseKeeps(s, i);
    WriteOutKeeps(s, i, ev.write);
    if IsReading(s.clients[i]) { ReadRequestKeeps(s, i, ev); }
  }

  lemma {:induction false} TimeoutsKeep(s: State, p: nat)
    ensures Keeps(s, Timeouts(s, p))
  {
    if p > 0 {
      var t := Timeouts(s, p - 1);
      TimeoutsKeep(s, p - 1);
      CloseKeeps(t, p - 1);
      KeepsOn(s, t, Timeouts(s, p));
    }
  }

  lemma AgeIfDueKeeps(s: State)
    ensures Keeps(s, AgeIfDue(s))
  {
    var s1 := s.(lastAge := s.now);
    AgeCacheKeeps(s1, Expired);
    KeepsOn(s, s1, AgeCache(s1, Expired));
  }

  lemma TailKeeps(s: State)
    ensures Keeps(s, Tail(s))
  {
    if !s.exited {
      var s1 := AgeIfDue(s);
      var s2 := Timeouts(s1, |s1.clients|);
      AgeIfDueKeeps(s);
      TimeoutsKeep(s1, |s1.clients|);
      KeepsOn(s, s1, s2);
      KeepsOn(s, s2, Coalesce(s2));
    }
  }

  // ------------------------------------------------------------ one job in a round

  /** An answer on its way: the descriptor it goes to, the block it comes from, the
      request, the reply, since when the client is waited for, and how many
      clients had been served when that was noted. */
  datatype Job = Job(fd: int, blk: nat, key: seq<byte>, resp: seq<byte>, since: nat, before: nat)

  /** Entry i is at the job, with pos octets written and some to go. */
  ghost predicate JobAt(s: State, i: nat, job: Job, pos: nat) {
    && i < |s.clients| && IsWriting(s.clients[i])
    && s.clients[i].fd == job.fd && s.clients[i].resptr == Some(job.blk)
    && s.clients[i].respos == pos < |job.resp| && s.clients[i].startedMs == job.since
    && job.blk < s.nextId && job.blk in s.heap
    && s.heap[job.blk].key == job.key && s.heap[job.blk].resp == job.resp
    && job.before <= |s.served|
  }

  ghost predicate ServesJob(e: Served, job: Job) {
    e.fd == job.fd && KeyOf(e.request) == job.key && e.sent == Wire(job.resp)
  }

  /** Since then the client got all of the answer, on its own descriptor. */
  ghost predicate JobDone(s: State, job: Job) {
    exists k: nat :: job.before <= k < |s.served| && ServesJob(s.served[k], job)
  }

  /** The job is done or has got on. */
  ghost predicate Further(s: State, i: nat, job: Job, pos: nat) {
    JobDone(s, job) || exists p :: pos < p && JobAt(s, i, job, p)
  }

  lemma DoneStays(s: State, r: State, job: Job)
    requires JobDone(s, job) && Keeps(s, r)
    ensures JobDone(r, job)
  {
    var k: nat :| job.before <= k < |s.served| && ServesJob(s.served[k], job);
    assert r.served[k] == s.served[k];
  }

  lemma JobStays(s: State, r: State, i: nat, j: nat, job: Job, pos: nat)
    requires JobAt(s, i, job, pos) && Keeps(s, r) && Tables(r) && j < |r.clients| && r.clients[j] == s.clients[i]
    ensures JobAt(r, j, job, pos)
  {
    assert EntryOk(r, j) && KeepsBlock(s, r, job.blk);
  }

  lemma FurtherStays(s: State, r: State, i: nat, j: nat, job: Job, pos: nat)
    requires Further(s, i, job, pos) && Keeps(s, r) && Tables(r)
    requires i < |s.clients| && IsWriting(s.clients[i]) && s.clients[i].startedMs == job.since ==>
             j < |r.clients| && r.clients[j] == s.clients[i]
    ensures Further(r, j, job, pos)
  {
    if JobDone(s, job) {
      DoneStays(s, r, job);
    } else {
      var p :| pos < p && JobAt(s, i, job, p);
      JobStays(s, r, i, j, job, p);
    }
  }

  /** The client's own turn: at least one octet is taken. */
  lemma JobTurn(s: State, i: nat, ev: Event, job: Job, pos: nat)
    requires Inv(s) && !s.exited && JobAt(s, i, job, pos)
    requires ev.revents == POLLOUT && ev.write.Took? && ev.write.n > 0
    ensures Further(HandleEvent(s, i, ev), i, job, pos)
  {
    var r := HandleEvent(s, i, ev);
    assert EntryOk(s, i);
    WriteOutcome(s, i, ev.write.n);
    WriteOutKeeps(s, i, ev.write);
    WriteOutInv(s, i, ev.write);
    if JobAt(s, i, job, pos) && ev.write.n < |job.resp| - pos {
      JobMoved(s, r, i, job, pos, ev.write.n);
    } else {
      assert ServesJob(r.served[|s.served|], job);
    }
  }

  lemma JobMoved(s: State, r: State, i: nat, job: Job, pos: nat, n: nat)
    requires JobAt(s, i, job, pos) && SentMore(s, i, n, r) && IsWriting(r.clients[i]) && Keeps(s, r) && Tables(r)
    requires 0 < n < |job.resp| - pos
    ensures JobAt(r, i, job, pos + n)
  {
    assert EntryOk(r, i) && KeepsBlock(s, r, job.blk);
  }

  // ------------------------------------------------------- the turns of a round

  /** What is taken for granted of the turns of a round. */
  ghost predicate TurnsOk(s: State, evs: seq<Event>) {
    Inv(s) && NoneClosed(s) && NoRace(s, evs) && AllReported(s, evs) && |evs| == |s.clients|
  }

  lemma TurnsKeep(s: State, evs: seq<Event>, p: nat)
    requires TurnsOk(s, evs) && p < |evs|
    ensures var t := HandleEvents(s, evs, p); TurnOk(t, p, evs[p], HandleEvent(t, p, evs[p]))
    ensures Keeps(HandleEvents(s, evs, p), HandleEvents(s, evs, p + 1))
  {
    var t := HandleEvents(s, evs, p);
    EventsInv(s, evs, p);
    assert Reported(s, evs, p) && Later(s, t, p, p) && EntryOk(s, p);
    Turn(s, evs, p, t);
    PollStillOk(s.clients[p], t.clients[p], evs[p], s);
    if IsOwner(t.clients[p]) { OwnerTurnKeeps(t, p, evs[p]); } else { ClientTurnKeeps(t, p, evs[p]); }
  }

  /** One turn, as those who are not concerned see it. */
  ghost predicate Between(t: State, i: nat, r: State) {
    && Inv(r) && Keeps(t, r)
    && |r.clients| == |t.clients|
    && (i < |t.clients| ==> StaysOrWakes(t.clients[i], r.clients[i]))
  }

  lemma OthersTurn(s: State, evs: seq<Event>, p: nat, i: nat)
    requires TurnsOk(s, evs) && p < |evs| && i != p
    ensures Between(HandleEvents(s, evs, p), i, HandleEvents(s, evs, p + 1))
  {
    TurnsKeep(s, evs, p);
  }

  lemma WriterStays(t: State, i: nat, r: State, job: Job, pos: nat)
    requires JobAt(t, i, job, pos) && Between(t, i, r)
    ensures JobAt(r, i, job, pos)
  {
    JobStays(t, r, i, i, job, pos);
  }

  lemma JobWaitsOn(s: State, evs: seq<Event>, p: nat, i: nat, job: Job, pos: nat)
    requires TurnsOk(s, evs) && p < i && p < |evs| && JobAt(HandleEvents(s, evs, p), i, job, pos)
    ensures JobAt(HandleEvents(s, evs, p + 1), i, job, pos)
  {
    OthersTurn(s, evs, p, i);
    WriterStays(HandleEvents(s, evs, p), i, HandleEvents(s, evs, p + 1), job, pos);
  }

  /** Until its turn comes the job is as it was. */
  lemma {:induction false} JobWaits(s: State, evs: seq<Event>, p: nat, i: nat, job: Job, pos: nat)
    requires TurnsOk(s, evs) && JobAt(s, i, job, pos) && p <= i < |evs|
    ensures JobAt(HandleEvents(s, evs, p), i, job, pos)
  {
    if p > 0 {
      var q := p - 1;
      JobWaits(s, evs, q, i, job, pos);
      JobWaitsOn(s, evs, q, i, job, pos);
      assert q + 1 == p;
    }
  }

  /** The client is reported ready to be written to, and takes an octet or more. */
  ghost predicate Takes(ev: Event) {
    ev.revents == POLLOUT && ev.write.Took? && ev.write.n > 0
  }

  /** Its own turn. */
  lemma JobTurnAt(s: State, evs: seq<Event>, i: nat, job: Job, pos: nat)
    requires TurnsOk(s, evs) && JobAt(s, i, job, pos) && i < |evs| && Takes(evs[i])
    ensures var r := HandleEvents(s, evs, i + 1); r.exited || Further(r, i, job, pos)
  {
    var t := HandleEvents(s, evs, i);
    EventsInv(s, evs, i);
    JobWaits(s, evs, i, i, job, pos);
    if !t.exited { JobTurn(t, i, evs[i], job, pos); }
  }

  lemma WriterFurther(t: State, i: nat, r: State, job: Job, pos: nat)
    requires t.exited || Further(t, i, job, pos)
    requires Between(t, i, r)
    ensures r.exited || Further(r, i, job, pos)
  {
    if !t.exited { FurtherStays(t, r, i, i, job, pos); }
  }

  lemma JobGetsOnMore(s: State, evs: seq<Event>, p: nat, i: nat, job: Job, pos: nat)
    requires TurnsOk(s, evs) && i < p < |evs|
    requires var t := HandleEvents(s, evs, p); t.exited || Further(t, i, job, pos)
    ensures var r := HandleEvents(s, evs, p + 1); r.exited || Further(r, i, job, pos)
  {
    OthersTurn(s, evs, p, i);
    WriterFurther(HandleEvents(s, evs, p), i, HandleEvents(s, evs, p + 1), job, pos);
  }

  lemma {:induction false} JobGetsOn(s: State, evs: seq<Event>, p: nat, i: nat, job: Job, pos: nat)
    requires TurnsOk(s, evs) && JobAt(s, i, job, pos) && i < p <= |evs| && Takes(evs[i])
    ensures var r := HandleEvents(s, evs, p); r.exited || Further(r, i, job, pos)
  {
    if p == i + 1 {
      JobTurnAt(s, evs, i, job, pos);
    } else {
      var q := p - 1;
      JobGetsOn(s, evs, q, i, job, pos);
      JobGetsOnMore(s, evs, q, i, job, pos);
      assert q + 1 == p;
    }
  }

  // -------------------------------------------------------------- the whole round

  lemma AgeIfDueClients(s: State)
    ensures AgeIfDue(s).clients == s.clients && AgeIfDue(s).now == s.now
  {
    var s1 := s.(lastAge := s.now, agingMs := INT_MAX);
    SweepRest(s1, |s1.cache|, Expired);
  }

  lemma {:induction false} SweepRest(s: State, k: nat, f: Flush)
    ensures SameTables(s, AgeSlots(s, k, f))
  {
    if k > 0 {
      SweepRest(s, k - 1, f);
      AgeSlotRest(AgeSlots(s, k - 1, f), k - 1, f);
    }
  }

  lemma InTimeStays(s: State, i: nat)
    requires i < |s.clients| && Sub32(s.now, s.clients[i].startedMs) <= CLIENT_TIMEOUT_MS
    ensures var r := Timeouts(s, |s.clients|); |r.clients| == |s.clients| && r.clients[i] == s.clients[i]
  {
    TimeoutsEffect(s, |s.clients|);
  }

  /** A client that is not timed out is still in the table after the round. */
  lemma TailKeepsClient(s: State, i: nat) returns (j: nat)
    requires Inv(s) && !s.exited && i < |s.clients| && s.clients[i].fd != 0
    requires Sub32(s.now, s.clients[i].startedMs) <= CLIENT_TIMEOUT_MS
    ensures j < |Tail(s).clients| && Tail(s).clients[j] == s.clients[i]
  {
    var m := AgeIfDue(s);
    AgeIfDueClients(s);
    InTimeStays(m, i);
    TailAfterAgeing(s);
    j := OpenClientStays(Timeouts(m, |m.clients|).clients, i);
  }

  lemma AcceptBothKeeps(s: State, a: bool, b: bool)
    ensures Keeps(s, AcceptBoth(s, a, b))
  {
  }

  lemma JobAfterAccept(s: State, now: nat, a: bool, b: bool, evs: seq<Event>, i: nat, job: Job, pos: nat)
    requires Idle(s) && PollFits(s, Ready(now, a, b, evs)) && !s.exited && JobAt(s, i, job, pos)
    ensures var s1 := AcceptBoth(s.(now := now), a, b);
            var forced := ForcedIn(evs, |s.clients|);
            TurnsOk(s1, forced) && JobAt(s1, i, job, pos) && s1.now == now && i < |forced| && forced[i] == evs[i]
  {
    var s0 := s.(now := now);
    TurnsFit(s, now, a, b, evs);
    AcceptBothKeeps(s0, a, b);
    JobStays(s0, AcceptBoth(s0, a, b), i, i, job, pos);
  }

  lemma {:induction false} TurnsKeepAll(s: State, evs: seq<Event>, p: nat)
    requires TurnsOk(s, evs) && p <= |evs|
    ensures Keeps(s, HandleEvents(s, evs, p))
  {
    if p > 0 {
      var q := p - 1;
      TurnsKeepAll(s, evs, q);
      TurnsKeep(s, evs, q);
      KeepsOn(s, HandleEvents(s, evs, q), HandleEvents(s, evs, q + 1));
      assert q + 1 == p;
    }
  }

  lemma TailGetsOn(s: State, i: nat, job: Job, pos: nat)
    requires Inv(s) && !s.exited && Further(s, i, job, pos) && Sub32(s.now, job.since) <= CLIENT_TIMEOUT_MS
    ensures exists j: nat :: Further(Tail(s), j, job, pos)
  {
    var r := Tail(s);
    TailKeeps(s);
    TailInv(s);
    if JobDone(s, job) {
      DoneStays(s, r, job);
      assert Further(r, 0, job, pos);
    } else {
      var p :| pos < p && JobAt(s, i, job, p);
      var j := TailKeepsClient(s, i);
      JobStays(s, r, i, j, job, p);
      assert Further(r, j, job, pos);
    }
  }

  /** A round in which the client takes an octet or more, within its 100 ms, gets
      it on or serves it, whatever else happens, unless the daemon is shut down. */
  lemma RoundGetsOn(s: State, p: Poll, i: nat, job: Job, pos: nat)
    requires Idle(s) && PollFits(s, p) && !s.exited && p.Ready? && JobAt(s, i, job, pos)
    requires i < |p.events| && Takes(p.events[i]) && Sub32(p.now, job.since) <= CLIENT_TIMEOUT_MS
    ensures var r := Round(s, p); r.exited || exists j: nat :: Further(r, j, job, pos)
  {
    var s1 := AcceptBoth(s.(now := p.now), p.first, p.second);
    var forced := ForcedIn(p.events, |s.clients|);
    JobAfterAccept(s, p.now, p.first, p.second, p.events, i, job, pos);
    JobGetsOn(s1, forced, |forced|, i, job, pos);
    TurnsKeepAll(s1, forced, |forced|);
    MidwayInv(s, p);
    var m := Midway(s, p);
    if !m.exited { TailGetsOn(m, i, job, pos); }
  }

  /** The client on this descriptor takes an octet or more, within its 100 ms. */
  ghost predicate Willing(s: State, fd: int, p: Poll) {
    p.Ready? && forall i: nat :: i < |s.clients| && s.clients[i].fd == fd ==>
      i < |p.events| && Takes(p.events[i]) && Sub32(p.now, s.clients[i].startedMs) <= CLIENT_TIMEOUT_MS
  }

  ghost predicate AlwaysWilling(s: State, fd: int, polls: seq<Poll>) {
    polls != [] ==>
      && AlwaysWilling(s, fd, polls[..|polls| - 1])
      && Willing(Run(s, polls[..|polls| - 1]), fd, polls[|polls| - 1])
  }

  /** Done, or that much further. */
  ghost predicate DoneOrAt(s: State, job: Job, least: nat) {
    JobDone(s, job) || exists i: nat, p: nat :: least <= p && JobAt(s, i, job, p)
  }

  lemma RoundStep(s: State, p: Poll, job: Job, least: nat)
    requires Idle(s) && PollFits(s, p) && Willing(s, job.fd, p) && (s.exited || DoneOrAt(s, job, least))
    ensures var r := Round(s, p); r.exited || DoneOrAt(r, job, least + 1)
  {
    if !s.exited {
      if JobDone(s, job) {
        RoundKeepsServed(s, p);
      } else {
        var i: nat, q: nat :| least <= q && JobAt(s, i, job, q);
        RoundGetsOn(s, p, i, job, q);
        var r := Round(s, p);
        if !r.exited {
          var j: nat :| Further(r, j, job, q);
        }
      }
    }
  }

  lemma RoundKeepsServed(s: State, p: Poll)
    requires Idle(s) && PollFits(s, p) && !s.exited && p.Ready?
    ensures s.served <= Round(s, p).served
  {
    var s0 := s.(now := p.now);
    var s1 := AcceptBoth(s0, p.first, p.second);
    var forced := ForcedIn(p.events, |s.clients|);
    TurnsFit(s, p.now, p.first, p.second, p.events);
    AcceptBothKeeps(s0, p.first, p.second);
    TurnsKeepAll(s1, forced, |forced|);
    TailKeeps(Midway(s, p));
  }

  lemma {:induction false} RunGetsOn(s: State, polls: seq<Poll>, job: Job, least: nat)
    requires Idle(s) && RunFits(s, polls) && AlwaysWilling(s, job.fd, polls) && DoneOrAt(s, job, least)
    ensures var r := Run(s, polls); r.exited || DoneOrAt(r, job, least + |polls|)
  {
    if polls != [] {
      var before := polls[..|polls| - 1];
      RunGetsOn(s, before, job, least);
      EveryRunKeepsInvariant(s, before);
      RoundStep(Run(s, before), polls[|polls| - 1], job, least + |before|);
    }
  }

  /** Every client that is being written to, and takes an octet or more of each
      round within its 100 ms, has got its whole answer after as many rounds as
      there are octets left, whatever the other clients and the workers do,
      unless root shuts the daemon down. */
  lemma EveryWriterIsServed(s: State, polls: seq<Poll>, i: nat, job: Job, pos: nat)
    requires Idle(s) && RunFits(s, polls) && AlwaysWilling(s, job.fd, polls) && JobAt(s, i, job, pos)
    requires |polls| >= |job.resp| - pos
    ensures var r := Run(s, polls); r.exited || JobDone(r, job)
  {
    RunGetsOn(s, polls, job, pos);
  }
}
