/** What the invariant comes to for the users of the daemon, after any run. */
module NscdTheorems {
  import opened Bytes
  import opened NscdModel
  import opened NscdInvariant
  import opened NscdFrame
  import opened NscdSweep
  import opened NscdServe
  import opened NscdRequest
  import opened NscdCompact
  import opened NscdRun

  /** A state some run of the daemon leads to. */
  ghost predicate Reachable(s: State) {
    exists cfg, now, polls :: ReachedBy(cfg, now, polls, s)
  }

  ghost predicate ReachedBy(cfg: Config, now: nat, polls: seq<Poll>, s: State) {
    ConfigOk(cfg) && now < TWO32 && RunFits(Init(cfg, now), polls) && s == Run(Init(cfg, now), polls)
  }

  lemma ReachableIdle(s: State)
    requires Reachable(s)
    ensures Idle(s)
  {
    var cfg, now, polls :| ReachedBy(cfg, now, polls, s);
    InitIdle(cfg, now);
    EveryRunKeepsInvariant(Init(cfg, now), polls);
  }

  // ------------------------------------------------------------------ memory

  /** In every reachable state the count of a block is one less than the number
      of its holders, every pointer the daemon may follow leads to an allocated
      block, and no allocated block is without a holder. */
  lemma NoLeakNoDangling(s: State)
    requires Reachable(s)
    ensures forall b :: b in s.heap ==>
      s.heap[b].refcount + 1 == |SlotsOf(s, b)| + |HoldersOf(s, b)| && (SlotsOf(s, b) != {} || HoldersOf(s, b) != {})
    ensures forall k: nat :: SlotAt(s, k).Done? ==> SlotAt(s, k).blk in s.heap
    ensures forall i: nat :: i < |s.clients| && s.clients[i].fd != 0 && s.clients[i].resptr.Some? ==>
            s.clients[i].resptr.value in s.heap
  {
    ReachableIdle(s);
    forall b: nat | b in s.heap
      ensures s.heap[b].refcount + 1 == |SlotsOf(s, b)| + |HoldersOf(s, b)|
              && (SlotsOf(s, b) != {} || HoldersOf(s, b) != {})
    {
      assert RefOk(s, b);
    }
    forall k: nat | SlotAt(s, k).Done? ensures SlotAt(s, k).blk in s.heap { assert SlotOk(s, k); }
    forall i: nat | i < |s.clients| && s.clients[i].fd != 0 && s.clients[i].resptr.Some?
      ensures s.clients[i].resptr.value in s.heap
    {
      assert EntryOk(s, i);
    }
  }

  lemma OneSlotPerBlock(s: State, b: nat)
    requires Tables(s)
    ensures |SlotsOf(s, b)| <= 1
  {
    if SlotsOf(s, b) != {} {
      var k :| k in SlotsOf(s, b);
      forall j: nat ensures j in SlotsOf(s, b) ==> j == k { assert KeysDiffer(s, k, j); }
      assert SlotsOf(s, b) == {k};
    }
  }

  /** The reference count fits its eight bits with room for one more: the
      "rolled over" exit is never taken. */
  lemma RefcountFits(s: State, b: nat)
    requires Inv(s) && b in s.heap
    ensures s.heap[b].refcount < 254
  {
    assert RefOk(s, b);
    OneSlotPerBlock(s, b);
    HoldersBound(s.clients, b);
    assert HoldersOf(s, b) == HoldersIn(s.clients, b);
  }

  lemma {:induction false} HoldersBound(clients: seq<Client>, b: nat)
    ensures |HoldersIn(clients, b)| <= |clients|
  {
    HoldersCounted(clients, b);
    CountBound(clients, b);
  }

  lemma {:induction false} CountBound(clients: seq<Client>, b: nat)
    ensures CountHolders(clients, b) <= |clients|
  {
    if clients != [] { CountBound(clients[..|clients| - 1], b); }
  }

  // ----------------------------------------------------------------- answers

  /** Every client that was served got, octet by octet, the reply a worker gave
      to exactly its own request, with the version word in front. */
  lemma RightAnswers(s: State, e: Served)
    requires Reachable(s) && e in s.served
    ensures exists a :: a in s.answers && a.key == KeyOf(e.request) && ValidReply(a.out) &&
                        e.sent == Wire(ReplyBytes(a.out))
  {
    ReachableIdle(s);
    assert ServedOk(s, e);
  }

  /** And a client still being served has got a prefix of such a reply. */
  lemma RightSoFar(s: State, i: nat)
    requires Reachable(s) && i < |s.clients| && IsWriting(s.clients[i]) && s.clients[i].resptr.Some?
    ensures exists a :: a in s.answers && a.key == AskedKey(s, i) && ValidReply(a.out)
                        && s.clients[i].respos <= |ReplyBytes(a.out)|
                        && FdSent(s, s.clients[i].fd) == Wire(ReplyBytes(a.out))[..s.clients[i].respos]
  {
    ReachableIdle(s);
    assert EntryOk(s, i);
    var b := s.clients[i].resptr.value;
    assert BlockOk(s, b);
    var a :| Answers(s, a, s.heap[b].key, s.heap[b].resp);
    assert a in s.answers && a.key == AskedKey(s, i);
  }

  // ----------------------------------------------------------- waiting clients

  /** Every future entry has exactly one owner, and whoever else waits for it
      asks for the same thing and has marked it shared; so each waiting client
      is woken by the one worker that is outstanding for its request. */
  lemma NobodyForgotten(s: State, i: nat)
    requires Inv(s) && i < |s.clients| && IsWaiter(s.clients[i])
    ensures s.clients[i].cachePp.At?
    ensures exists o: nat :: OwnsSlot(s, o, s.clients[i].cachePp.slot)
                             && AskedKey(s, o) == AskedKey(s, i) && SharedSlot(s, s.clients[i].cachePp.slot)
  {
    assert EntryOk(s, i);
    var k := s.clients[i].cachePp.slot;
    assert SlotOk(s, k);
    var o: nat :| OwnsSlot(s, o, k);
    assert AskedKey(s, o) == AskedKey(s, i);
  }

  lemma OneOwnerEach(s: State, k: nat)
    requires Inv(s) && SlotAt(s, k).Future?
    ensures exists o: nat :: OwnsSlot(s, o, k) && forall j: nat :: OwnsSlot(s, j, k) ==> j == o
  {
    assert SlotOk(s, k);
    var o: nat :| OwnsSlot(s, o, k);
    forall j: nat | OwnsSlot(s, j, k) ensures j == o { OneOwner(s, j, o, k); }
  }

  /** A sweep, whatever it is for, leaves every future entry where it is. */
  lemma FutureNeverAged(s: State, f: Flush, k: nat)
    requires Core(s) && Counts(s) && SlotAt(s, k).Future?
    ensures SlotAt(AgeCache(s, f), k) == SlotAt(s, k)
  {
    SlotAfterSweep(s, f, k);
  }

  // -------------------------------------------------------------------- sleep

  /** The daemon sleeps for ever with something in its cache exactly when
      2^32 divides the number of occupied slots plus the number of times a
      worker failed on a cached slot; before 2^32 of those, never. */
  lemma SleepsForEverIff(s: State)
    requires Inv(s)
    ensures PollTimeout(s) == None <==> s.clients == [] && (|Occupied(s)| + s.failedFills) % TWO32 == 0
    ensures |Occupied(s)| + s.failedFills < TWO32 ==>
      s.cachedCnt >= |Occupied(s)| && (PollTimeout(s) == None ==> s.clients == [] && Occupied(s) == {})
  {
  }

  /** With the ageing interval at its maximum and something to age, a worker is
      outstanding whose result will reset the interval. */
  lemma AgeingResumes(s: State, i: nat, out: seq<byte>)
    requires Reachable(s) && s.agingMs == INT_MAX && HasCompleted(s)
    ensures WorkerOutstanding(s)
    ensures HandleWorkerResponse(s, i, out).agingMs < INT_MAX
  {
    ReachableIdle(s);
  }

  // --------------------------------------------------------- the cache is a map

  datatype Entry = Have(resp: seq<byte>) | Pending

  function EntryAt(s: State, k: nat): Entry {
    match SlotAt(s, k)
    case Done(b) => Have(Blk(s, b).resp)
    case _ => Pending
  }

  /** The cache as a finite map from requests to entries. */
  function MapOf(s: State, key: seq<byte>): Option<Entry> {
    var k := FindKey(s, key, 0, |s.cache|);
    if k < |s.cache| then Some(EntryAt(s, k)) else None
  }

  lemma MapAt(s: State, k: nat)
    requires DistinctKeys(s) && SlotAt(s, k) != Empty
    ensures MapOf(s, SlotKey(s, k)) == Some(EntryAt(s, k))
  {
    var j := FindKey(s, SlotKey(s, k), 0, |s.cache|);
    assert j < |s.cache| ==> KeysDiffer(s, j, k);
  }

  lemma MapAbsent(s: State, key: seq<byte>)
    ensures MapOf(s, key) == None <==> Absent(s, key)
  {
    var j := FindKey(s, key, 0, |s.cache|);
    if j < |s.cache| {
      assert !Lacks(s, j, key);
    } else {
      forall l: nat ensures Lacks(s, l, key) { }
    }
  }

  /** Two states whose slots agree outside slot k. */
  ghost predicate AgreeBut(s: State, r: State, k: nat, j: nat) {
    j != k ==> SlotAt(r, j) == SlotAt(s, j) && SlotKey(r, j) == SlotKey(s, j) && EntryAt(r, j) == EntryAt(s, j)
  }

  lemma MapChange(s: State, r: State, k: nat, x: seq<byte>)
    requires DistinctKeys(s) && DistinctKeys(r)
    requires forall j: nat :: AgreeBut(s, r, k, j)
    requires SlotAt(s, k) != Empty ==> SlotKey(s, k) != x
    requires SlotAt(r, k) != Empty ==> SlotKey(r, k) != x
    ensures MapOf(r, x) == MapOf(s, x)
  {
    MapAbsent(s, x);
    MapAbsent(r, x);
    if !Absent(s, x) {
      var j: nat :| !Lacks(s, j, x);
      assert AgreeBut(s, r, k, j);
      MapAt(s, j);
      MapAt(r, j);
    } else {
      forall j: nat ensures Lacks(r, j, x) { assert Lacks(s, j, x) && AgreeBut(s, r, k, j); }
    }
  }

  /** The line of a key and the entries in it. */
  ghost predicate OldestInLine(s: State, key: seq<byte>, o: nat) {
    var base := BaseOf(s, key);
    && base <= o < base + 8
    && SlotAt(s, o).Done?
    && SlotAge(s, o) > 0
    && (forall j :: base <= j < base + 8 ==> SlotAt(s, j) != Empty && SlotAge(s, j) <= SlotAge(s, o))
  }

  lemma FoundRefines(s: State, u: nat, k: nat, x: seq<byte>)
    requires Core(s) && ScanLine(CountAccess(s), KeyOf(BufAt(s, u))) == Found(k)
    ensures var (r, pp) := Lookup(s, u);
            var key := KeyOf(BufAt(s, u));
            && pp == At(k) && MapOf(s, key) == Some(EntryAt(s, k)) && SlotKey(r, k) == key
            && MapOf(r, x) == MapOf(s, x)
  {
    var r := Lookup(s, u).0;
    MapAt(s, k);
    SameMap(s, r, x);
  }

  lemma SameMap(s: State, r: State, x: seq<byte>)
    requires DistinctKeys(s) && r.cache == s.cache && r.heap == s.heap && r.bufs == s.bufs
    ensures MapOf(r, x) == MapOf(s, x)
  {
    forall m: nat ensures SlotAt(r, m) == SlotAt(s, m) && SlotKey(r, m) == SlotKey(s, m) { }
    var j := FindKey(s, x, 0, |s.cache|);
    var l := FindKey(r, x, 0, |s.cache|);
    assert j <= l;
    assert l <= j;
  }

  lemma MissIsAbsent(s: State, key: seq<byte>)
    requires Core(s) && !ScanLine(CountAccess(s), key).Found?
    ensures Core(CountAccess(s)) && Absent(CountAccess(s), key) && MapOf(s, key) == None
  {
    var s1 := CountAccess(s);
    CoreFrame(s, s1);
    ScanDecides(s1, key);
    AbsentFrame(s1, s, key);
    MapAbsent(s, key);
  }

  ghost predicate LineTooYoung(s: State, key: seq<byte>) {
    forall j :: BaseOf(s, key) <= j < BaseOf(s, key) + 8 ==> SlotAt(s, j) != Empty && SlotAge(s, j) == 0
  }

  lemma NoRoomMeans(s: State, key: seq<byte>)
    requires ScanLine(CountAccess(s), key) == NoRoom
    ensures LineTooYoung(s, key)
  {
    var s1 := CountAccess(s);
    forall j: nat ensures SlotAge(s1, j) == SlotAge(s, j) && SlotAt(s1, j) == SlotAt(s, j) { }
  }

  lemma NoRoomRefines(s: State, u: nat, x: seq<byte>)
    requires Core(s) && ScanLine(CountAccess(s), KeyOf(BufAt(s, u))) == NoRoom
    ensures var (r, pp) := Lookup(s, u);
            var key := KeyOf(BufAt(s, u));
            pp == Null && MapOf(s, key) == None && MapOf(r, x) == MapOf(s, x) && LineTooYoung(s, key)
  {
    var key := KeyOf(BufAt(s, u));
    SameMap(s, CountAccess(s), x);
    MissIsAbsent(s, key);
    NoRoomMeans(s, key);
  }

  /** A reservation adds a pending entry for its key and nothing else. */
  lemma ReserveRefines(s: State, k: nat, u: nat, x: seq<byte>)
    requires Tables(s) && k < |s.cache| && s.cache[k] == Empty && Absent(s, KeyOf(BufAt(s, u)))
    ensures var r := Reserve(s, k, u);
            MapOf(r, x) == if x == KeyOf(BufAt(s, u)) then Some(Pending) else MapOf(s, x)
  {
    var r := Reserve(s, k, u);
    var key := KeyOf(BufAt(s, u));
    forall j: nat, l: nat ensures KeysDiffer(r, j, l) {
      assert KeysDiffer(s, j, l) && Lacks(s, j, key) && Lacks(s, l, key);
    }
    forall j: nat ensures AgreeBut(s, r, k, j) { }
    assert SlotKey(r, k) == key;
    if x == key { MapAt(r, k); } else { MapChange(s, r, k, x); }
  }

  lemma FreeLookup(s: State, u: nat, f: nat)
    requires ScanLine(CountAccess(s), KeyOf(BufAt(s, u))) == Free(f)
    ensures Lookup(s, u) == (Reserve(FreeCounted(s), f, u), At(f))
  {
  }

  lemma FreeRefines(s: State, u: nat, f: nat, x: seq<byte>)
    requires Core(s) && ScanLine(CountAccess(s), KeyOf(BufAt(s, u))) == Free(f)
    ensures var (r, pp) := Lookup(s, u);
            var key := KeyOf(BufAt(s, u));
            && pp == At(f) && MapOf(s, key) == None
            && MapOf(r, x) == if x == key then Some(Pending) else MapOf(s, x)
  {
    var s2 := FreeCounted(s);
    var key := KeyOf(BufAt(s, u));
    MissIsAbsent(s, key);
    CoreFrame(s, s2);
    LineBounds(s, key);
    AbsentFrame(CountAccess(s), s2, key);
    FreeLookup(s, u, f);
    ReserveRefines(s2, f, u, x);
    SameMap(s, s2, x);
  }

  lemma EvictionRefines(s: State, o: nat, x: seq<byte>)
    requires Core(s) && SlotAt(s, o).Done?
    ensures var r := FreeSlot(s, o); MapOf(r, x) == if x == SlotKey(s, o) then None else MapOf(s, x)
  {
    var r := FreeSlot(s, o);
    EvictCore(s, o);
    forall j: nat ensures AgreeBut(s, r, o, j) {
      if j != o { EvictKeepsSlot(s, o, SlotAt(s, o).blk, r, j); }
    }
    if x == SlotKey(s, o) {
      forall j: nat ensures Lacks(r, j, x) {
        assert KeysDiffer(s, j, o) && AgreeBut(s, r, o, j);
      }
      MapAbsent(r, x);
    } else {
      MapChange(s, r, o, x);
    }
  }

  lemma EvictMeans(s: State, key: seq<byte>, o: nat)
    requires ScanLine(CountAccess(s), key) == Evict(o)
    ensures OldestInLine(s, key, o)
  {
    var s1 := CountAccess(s);
    forall j: nat ensures SlotAge(s1, j) == SlotAge(s, j) && SlotAt(s1, j) == SlotAt(s, j) { }
  }

  lemma EvictedMap(s1: State, u: nat, o: nat, x: seq<byte>)
    requires Core(s1) && SlotAt(s1, o).Done? && Absent(s1, KeyOf(BufAt(s1, u)))
    ensures MapOf(Reserve(FreeSlot(s1, o), o, u), x) ==
            if x == KeyOf(BufAt(s1, u)) then Some(Pending) else if x == SlotKey(s1, o) then None else MapOf(s1, x)
  {
    var s2 := FreeSlot(s1, o);
    EvictCore(s1, o);
    AbsentAfterEvict(s1, o, SlotAt(s1, o).blk, s2, KeyOf(BufAt(s1, u)));
    ReserveRefines(s2, o, u, x);
    EvictionRefines(s1, o, x);
  }

  lemma EvictRefines(s: State, u: nat, o: nat, x: seq<byte>)
    requires Core(s) && ScanLine(CountAccess(s), KeyOf(BufAt(s, u))) == Evict(o)
    ensures var (r, pp) := Lookup(s, u);
            var key := KeyOf(BufAt(s, u));
            && pp == At(o) && MapOf(s, key) == None && OldestInLine(s, key, o)
            && MapOf(r, x) == if x == key then Some(Pending) else if x == SlotKey(s, o) then None else MapOf(s, x)
  {
    var key := KeyOf(BufAt(s, u));
    MissIsAbsent(s, key);
    EvictMeans(s, key, o);
    EvictedMap(CountAccess(s), u, o, x);
    SameMap(s, CountAccess(s), x);
  }

  lemma FreeMeans(s: State, key: seq<byte>, f: nat)
    requires ScanLine(CountAccess(s), key) == Free(f)
    ensures BaseOf(s, key) <= f < BaseOf(s, key) + 8 && SlotAt(s, f) == Empty
  {
    assert SlotAt(CountAccess(s), f) == SlotAt(s, f);
  }

  /** What an addition to the map costs: nothing where the slot was empty, else
      the completed entry in it, an oldest of a full line. */
  ghost predicate AddsAt(s: State, key: seq<byte>, k: nat, r: State, x: seq<byte>) {
    && BaseOf(s, key) <= k < BaseOf(s, key) + 8
    && (SlotAt(s, k) == Empty || OldestInLine(s, key, k))
    && MapOf(r, x) == if x == key then Some(Pending)
                      else if SlotAt(s, k) != Empty && x == SlotKey(s, k) then None
                      else MapOf(s, x)
  }

  /** lookup_in_cache() refines a finite map: it returns the slot of the key
      exactly when the key is there; otherwise it adds a pending entry, at the
      price of at most one completed entry, an oldest of its line, or gives up
      exactly when the line is full and every age in it is zero. */
  lemma LookupRefinesMap(s: State, u: nat, x: seq<byte>)
    requires Core(s)
    ensures var (r, pp) := Lookup(s, u);
            var key := KeyOf(BufAt(s, u));
            && (pp == Null <==> MapOf(s, key) == None && LineTooYoung(s, key))
            && (pp.At? && SlotAt(s, pp.slot) != Empty && SlotKey(s, pp.slot) == key <==> MapOf(s, key) != None)
            && (pp.At? && MapOf(s, key) != None ==> MapOf(s, key) == Some(EntryAt(s, pp.slot)))
            && (pp.At? && MapOf(s, key) == None ==> AddsAt(s, key, pp.slot, r, x))
            && (pp == Null || MapOf(s, key) != None ==> MapOf(r, x) == MapOf(s, x))
            && pp != Taken
  {
    var key := KeyOf(BufAt(s, u));
    match ScanLine(CountAccess(s), key)
    case Found(k) => LookupFinds(s, u, k, x);
    case Free(f) => LookupTakes(s, u, f, x);
    case Evict(o) => LookupEvicts(s, u, o, x);
    case NoRoom => NoRoomRefines(s, u, x);
  }

  lemma LookupFinds(s: State, u: nat, k: nat, x: seq<byte>)
    requires Core(s) && ScanLine(CountAccess(s), KeyOf(BufAt(s, u))) == Found(k)
    ensures var (r, pp) := Lookup(s, u);
            var key := KeyOf(BufAt(s, u));
            && pp == At(k) && SlotAt(s, k) != Empty && SlotKey(s, k) == key
            && MapOf(s, key) == Some(EntryAt(s, k)) && MapOf(r, x) == MapOf(s, x)
  {
    FoundRefines(s, u, k, x);
    assert SlotAt(CountAccess(s), k) == SlotAt(s, k) && SlotKey(CountAccess(s), k) == SlotKey(s, k);
  }

  lemma LookupTakes(s: State, u: nat, f: nat, x: seq<byte>)
    requires Core(s) && ScanLine(CountAccess(s), KeyOf(BufAt(s, u))) == Free(f)
    ensures var (r, pp) := Lookup(s, u);
            var key := KeyOf(BufAt(s, u));
            pp == At(f) && MapOf(s, key) == None && SlotAt(s, f) == Empty && !LineTooYoung(s, key)
                && AddsAt(s, key, f, r, x)
  {
    FreeRefines(s, u, f, x);
    FreeMeans(s, KeyOf(BufAt(s, u)), f);
  }

  lemma LookupEvicts(s: State, u: nat, o: nat, x: seq<byte>)
    requires Core(s) && ScanLine(CountAccess(s), KeyOf(BufAt(s, u))) == Evict(o)
    ensures var (r, pp) := Lookup(s, u);
            var key := KeyOf(BufAt(s, u));
            && pp == At(o) && MapOf(s, key) == None && SlotKey(s, o) != key
            && !LineTooYoung(s, key) && AddsAt(s, key, o, r, x)
  {
    var key := KeyOf(BufAt(s, u));
    EvictRefines(s, u, o, x);
    MapAbsent(s, key);
    assert Lacks(s, o, key);
  }

  /** The two counters behind the hit ratio: a lookup is an access, and a hit
      exactly if the key is in the map; both are halved at the last moment before
      the access count would be negative as an int. */
  lemma LookupCounts(s: State, u: nat)
    requires Core(s) && HitsOk(s)
    ensures var r := Lookup(s, u).0;
            var hit := if MapOf(s, KeyOf(BufAt(s, u))) != None then 1 else 0;
            if s.accessCnt < 0x7fff_ffff then r.accessCnt == s.accessCnt + 1 && r.hitCnt == s.hitCnt + hit
            else r.accessCnt == 0x4000_0001 && r.hitCnt == s.hitCnt / 2 + 1 + hit
  {
    var found := ScanLine(CountAccess(s), KeyOf(BufAt(s, u)));
    if found.Found? { MapAt(s, found.k); } else { MissIsAbsent(s, KeyOf(BufAt(s, u))); }
  }
}
