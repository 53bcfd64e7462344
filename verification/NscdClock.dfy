/** The 32-bit millisecond clock against true time. */
module NscdClock {
  import opened Bytes
  import opened NscdModel
  import opened NscdInvariant
  import opened NscdSweep
  import opened NscdRequest

  /** g_now_ms at true time t. */
  function ClockAt(t: nat): nat { t % TWO32 }

  /** The 24-bit time stamp taken at true time t. */
  function StampAt(t: nat): nat { ClockAt(t) / 256 }

  lemma WrapOnce(a: nat, b: nat)
    requires a <= b < a + TWO32
    ensures Sub32(b % TWO32, a % TWO32) == b - a
  {
    var (qa, qb) := (a / TWO32, b / TWO32);
    assert a == qa * TWO32 + a % TWO32 && b == qb * TWO32 + b % TWO32;
    assert qb == qa || qb == qa + 1;
  }

  lemma RoundedDown(t: nat)
    ensures StampAt(t) * 256 == (t - t % 256) % TWO32
    ensures StampAt(t) < 0x100_0000
  {
    var q := t / TWO32;
    var m := t % TWO32;
    assert t == q * TWO32 + m;
    assert t % 256 == m % 256;
    assert t - t % 256 == q * TWO32 + (m - m % 256);
    assert (q * TWO32 + (m - m % 256)) % TWO32 == m - m % 256;
  }

  /** For less than 2^32 - 255 ms cache_age() is the time elapsed since the stamp
      plus what the stamp lost of its low eight bits, across any wrap. */
  lemma AgeIsElapsed(t0: nat, t: nat)
    requires t0 <= t && t - t0 + 255 < TWO32
    ensures Sub32(ClockAt(t), StampAt(t0) * 256) == t - t0 + t0 % 256
  {
    RoundedDown(t0);
    WrapOnce(t0 - t0 % 256, t);
  }

  /** The entry in slot k was stamped at true time t0; it is t now. */
  ghost predicate StampedAt(s: State, k: nat, t0: nat, t: nat) {
    && SlotAt(s, k).Done?
    && Blk(s, SlotAt(s, k).blk).ts24 == StampAt(t0)
    && s.now == ClockAt(t)
    && t0 <= t && t - t0 + 255 < TWO32
  }

  // ------------------------------------------------ the services by their types

  /** A setting for requests of a type, by the numbers of the protocol:
      GETGRBYNAME, GETGRBYGID and INITGROUPS are for groups, the GETHOST types
      and GETAI for hosts, the rest for users. */
  function Setting<T>(p: PerService<T>, typ: nat): T {
    if typ in {2, 3, 15} then p.group else if typ in {4, 5, 6, 7, 14} then p.hosts else p.passwd
  }

  const SERVICES := PerService(SRV_PASSWD, SRV_GROUP, SRV_HOSTS)

  lemma SettingOf<T>(p: PerService<T>, typ: nat)
    ensures p.Of(SrvOf(typ)) == Setting(p, typ)
  {
  }

  lemma CompletedWords(s: State, k: nat)
    requires Core(s) && SlotAt(s, k).Done?
    ensures |Blk(s, SlotAt(s, k).blk).key| >= 8 && |Blk(s, SlotAt(s, k).blk).resp| >= 8
  {
    assert SlotOk(s, k) && BlockOk(s, SlotAt(s, k).blk);
  }

  /** How long an entry lives: by what it is for and whether it was found. */
  function Lifetime(cfg: Config, blk: Block): nat
    requires |blk.key| >= 4 && |blk.resp| >= 8
  {
    Setting(if U32(blk.resp, 4) != 0 then cfg.pttl else cfg.nttl, U32(blk.key, 0))
  }

  lemma TtlIsLifetime(cfg: Config, blk: Block)
    requires |blk.key| >= 8 && |blk.resp| >= 8
    ensures Ttl(cfg, blk) == Lifetime(cfg, blk)
  {
    SettingOf(if U32(blk.resp, 4) != 0 then cfg.pttl else cfg.nttl, U32(blk.key, 0));
  }

  // ------------------------------------------------------------------- sweeps

  /** The entry is still there only if it is truly younger than its time to live,
      and gone only if it is at most 255 ms short of that. */
  ghost predicate AgedOut(s: State, r: State, k: nat, age: nat, ttl: nat) {
    if SlotAt(r, k) == Empty then age + 255 >= ttl
    else SlotAt(r, k) == SlotAt(s, k) && age < ttl
  }

  /** A sweep goes by the lifetimes of the entries in true time: those that were
      found live as long as pttl says for their service, "not found" as long as
      nttl says. */
  lemma SweepIsTruthful(s: State, k: nat, t0: nat, t: nat)
    requires Core(s) && Counts(s) && StampedAt(s, k, t0, t)
    ensures var blk := Blk(s, SlotAt(s, k).blk);
            var r := AgeCache(s, Expired);
            |blk.key| >= 8 && |blk.resp| >= 8
            && var (typ, found) := (U32(blk.key, 0), U32(blk.resp, 4) != 0);
            && (typ in {2, 3, 15} && found ==> AgedOut(s, r, k, t - t0, s.cfg.pttl.group))
            && (typ in {2, 3, 15} && !found ==> AgedOut(s, r, k, t - t0, s.cfg.nttl.group))
            && (typ in {4, 5, 6, 7, 14} && found ==> AgedOut(s, r, k, t - t0, s.cfg.pttl.hosts))
            && (typ in {4, 5, 6, 7, 14} && !found ==> AgedOut(s, r, k, t - t0, s.cfg.nttl.hosts))
            && (typ !in {2, 3, 4, 5, 6, 7, 14, 15} && found ==> AgedOut(s, r, k, t - t0, s.cfg.pttl.passwd))
            && (typ !in {2, 3, 4, 5, 6, 7, 14, 15} && !found ==> AgedOut(s, r, k, t - t0, s.cfg.nttl.passwd))
  {
    CompletedWords(s, k);
    SweepByLifetime(s, k, t0, t);
  }

  lemma SweepByLifetime(s: State, k: nat, t0: nat, t: nat)
    requires Core(s) && Counts(s) && StampedAt(s, k, t0, t)
    requires |Blk(s, SlotAt(s, k).blk).key| >= 8 && |Blk(s, SlotAt(s, k).blk).resp| >= 8
    ensures AgedOut(s, AgeCache(s, Expired), k, t - t0, Lifetime(s.cfg, Blk(s, SlotAt(s, k).blk)))
  {
    TtlIsLifetime(s.cfg, Blk(s, SlotAt(s, k).blk));
    AgeIsElapsed(t0, t);
    SlotAfterSweep(s, Expired, k);
    DueIsDoomed(s, k, Expired);
  }

  /** The entry in slot k has this much of its lifetime left on the daemon's clock. */
  ghost predicate HasLeft(s: State, k: nat, left: int) {
    && SlotAt(s, k).Done?
    && var blk := Blk(s, SlotAt(s, k).blk);
    |blk.key| >= 8 && |blk.resp| >= 8 && left == Lifetime(s.cfg, blk) - Sub32(s.now, blk.ts24 * 256)
  }

  lemma LeftIsLeft(s: State, k: nat)
    requires Core(s) && SlotAt(s, k).Done?
    ensures HasLeft(s, k, ViewOf(s, k).left)
  {
    CompletedWords(s, k);
    TtlIsLifetime(s.cfg, Blk(s, SlotAt(s, k).blk));
  }

  /** After age_cache(0, -1) the interval is INT_MAX with nothing left to age, or
      the time the first remaining entry still has. */
  lemma IntervalIsLeastTimeLeft(s: State, k: nat)
    requires Inv(s)
    ensures var r := AgeCache(s, Expired);
            && (SlotAt(r, k).Done? ==> exists left :: HasLeft(r, k, left) && r.agingMs <= left)
            && (if r.agingMs == INT_MAX then !SlotAt(r, k).Done? else exists j: nat :: HasLeft(r, j, r.agingMs))
  {
    var r := AgeCache(s, Expired);
    SweptInterval(s, Expired);
    IntervalByView(s, k);
    SweptCache(s, Expired);
    if SlotAt(r, k).Done? {
      LeftIsLeft(r, k);
      TimeLeftBounded(r, k);
    }
    if r.agingMs != INT_MAX {
      var j: nat :| SlotAt(r, j).Done? && r.agingMs == ViewOf(r, j).left;
      LeftIsLeft(r, j);
    }
  }

  lemma IntervalByView(s: State, k: nat)
    requires Inv(s)
    ensures var r := AgeCache(s, Expired);
            && (SlotAt(r, k).Done? ==> r.agingMs <= ViewOf(r, k).left)
            && (r.agingMs == INT_MAX || exists j: nat :: SlotAt(r, j).Done? && r.agingMs == ViewOf(r, j).left)
  {
    var r := AgeCache(s, Expired);
    var s1 := s.(agingMs := INT_MAX);
    SweptInterval(s, Expired);
    forall j: nat ensures ViewOf(s1, j) == ViewOf(s, j) && ViewOf(r, j) == SweptView(ViewOf(s, j), Expired) {
      SlotAfterSweep(s, Expired, j);
    }
    SlotAfterSweep(s, Expired, k);
    if SlotAt(r, k).Done? { assert ViewOf(s1, k) == ViewOf(s, k) && Remains(s1, k, Expired); }
    if r.agingMs != INT_MAX {
      var j: nat :| j < |s.cache| && Remains(s1, j, Expired) && r.agingMs == ViewOf(s1, j).left;
      assert ViewOf(r, j) == ViewOf(s, j);
    }
  }

  /** age_cache(1, srv) removes exactly the completed entries of that service. */
  lemma FlushIsExact(s: State, srv: nat, k: nat)
    requires Core(s) && Counts(s)
    ensures var r := AgeCache(s, Service(srv));
            if SlotAt(s, k).Done? then
              && |SlotKey(s, k)| >= 8
              && SlotAt(r, k) == if Setting(SERVICES, U32(SlotKey(s, k), 0)) == srv then Empty else SlotAt(s, k)
            else SlotAt(r, k) == SlotAt(s, k)
  {
    SlotAfterSweep(s, Service(srv), k);
    if SlotAt(s, k).Done? {
      CompletedWords(s, k);
      SettingOf(SERVICES, U32(SlotKey(s, k), 0));
    }
  }

  /** And age_cache(1, -1) removes all of them. */
  lemma FlushAllIsExact(s: State, k: nat)
    requires Core(s) && Counts(s)
    ensures SlotAt(AgeCache(s, All), k) == if SlotAt(s, k).Done? then Empty else SlotAt(s, k)
  {
    SlotAfterSweep(s, All, k);
  }
}
