/** lookup_in_cache() and the ways a complete request is served. */
module NscdServe {
  import opened Bytes
  import opened NscdModel
  import opened NscdInvariant
  import opened NscdFrame
  import opened NscdSweep

  /** Only client i, its buffer, its descriptors and its slot take part. */
  ghost predicate StepsClient(s: State, i: nat, c: Client, r: State) {
    && i < |s.clients| && s.clients[i].fd != 0
    && c.fd != 0 && c.bufidx == s.clients[i].bufidx
    && r.clients == s.clients[i := c]
    && r.cfg == s.cfg && r.accepting == s.accepting && r.nextBuf == s.nextBuf && r.busy == s.busy && r.now == s.now
    && |r.bufs| == |s.bufs|
    && |r.cache| == |s.cache|
    && (forall u: nat :: u != c.bufidx ==> BufAt(r, u) == BufAt(s, u))
    && (forall k: nat :: SlotAt(s, k) != Empty ==> SameSlot(s, r, k))
    && (forall b: nat :: SameBlock(s, r, b))
    && (forall b: nat :: SlotsOf(s, b) == {} ==> Blk(r, b) == Blk(s, b))
    && (forall fd: int :: fd != s.clients[i].fd && fd != SockFd(s.clients[i]) ==> SameFd(s, r, fd))
  }

  lemma OthersKept(s: State, i: nat, c: Client, r: State, j: nat)
    requires Core(s) && StepsClient(s, i, c, r) && j != i && j < |s.clients| && s.clients[j].fd != 0
    ensures ClientOk(r, s.clients[j])
  {
    var d := s.clients[j];
    assert EntryOk(s, j);
    Apart(s, i, j);
    if d.resptr.Some? {
      SoleHolder(s, j);
    }
    if d.cachePp.At? {
      assert SlotAt(s, d.cachePp.slot) != Empty;
      assert SameSlot(s, r, d.cachePp.slot);
    }
    ClientFrame(s, r, d);
  }

  lemma StepTables(s: State, i: nat, c: Client, r: State)
    requires Core(s) && StepsClient(s, i, c, r) && ClientOk(r, c)
    requires SlotsOk(r) && DistinctKeys(r)
    ensures Tables(r)
  {
    forall j: nat ensures EntryOk(r, j) {
      assert EntryOk(s, j);
      if j < |r.clients| && j != i && s.clients[j].fd != 0 { OthersKept(s, i, c, r, j); }
    }
    forall j: nat, l: nat ensures BufsDiffer(r, j, l) { assert BufsDiffer(s, j, l); }
    forall u: nat ensures BufOwned(r, u) {
      assert BufOwned(s, u);
      if u < |r.busy| && r.busy[u] {
        var j: nat :| UsesBuf(s, j, u);
        assert UsesBuf(r, j, u);
      }
    }
  }

  /** Client i has sent a complete request and waits to have it handled. */
  ghost predicate Asking(s: State, i: nat) {
    && i < |s.clients|
    && IsReading(s.clients[i])
    && Complete(BufAt(s, s.clients[i].bufidx))
  }

  ghost function AskedKey(s: State, i: nat): seq<byte> {
    KeyOf(BufAt(s, ClientAt(s, i).bufidx))
  }

  // ------------------------------------------------------------ cache hit

  ghost predicate Hits(s: State, i: nat, k: nat, b: nat) {
    Asking(s, i) && SlotAt(s, k) == Done(b) && SlotKey(s, k) == AskedKey(s, i)
  }

  lemma RetainEffect(s: State, i: nat, k: nat, b: nat)
    requires Core(s) && Hits(s, i, k, b)
    ensures var r := Retain(s, i, b);
            && b in s.heap && r.heap == s.heap[b := s.heap[b].(refcount := s.heap[b].refcount + 1)]
            && StepsClient(s, i, s.clients[i].(events := POLLOUT, resptr := Some(b), cachePp := Taken), r)
            && r.cache == s.cache && r.bufs == s.bufs && r.fds == s.fds && r.nextFd == s.nextFd
  {
    assert SlotOk(s, k);
    assert k in SlotsOf(s, b);
  }

  lemma RetainTables(s: State, i: nat, k: nat, b: nat)
    requires Core(s) && Hits(s, i, k, b)
    ensures Tables(Retain(s, i, b))
  {
    var r := Retain(s, i, b);
    var c := s.clients[i].(events := POLLOUT, resptr := Some(b), cachePp := Taken);
    RetainEffect(s, i, k, b);
    assert EntryOk(s, i) && BlockOk(s, b);
    assert ClientOk(r, c);
    forall j: nat ensures SlotOk(r, j) {
      assert SlotOk(s, j);
      if SlotAt(s, j).Future? {
        var l: nat :| OwnsSlot(s, l, j);
        assert OwnsSlot(r, l, j);
      }
    }
    forall j: nat, l: nat ensures KeysDiffer(r, j, l) { assert KeysDiffer(s, j, l); }
    StepTables(s, i, c, r);
  }

  lemma RetainRefs(s: State, i: nat, k: nat, b: nat)
    requires Core(s) && Hits(s, i, k, b)
    ensures Refs(Retain(s, i, b))
  {
    var r := Retain(s, i, b);
    RetainEffect(s, i, k, b);
    assert EntryOk(s, i);
    forall x: nat ensures RefOk(r, x) {
      assert RefOk(s, x);
      assert SlotsOf(r, x) == SlotsOf(s, x);
      assert HoldersOf(r, x) == if x == b then HoldersOf(s, x) + {i} else HoldersOf(s, x);
    }
  }

  lemma RetainFds(s: State, i: nat, b: nat)
    requires Fds(s) && i < |s.clients| && s.clients[i].fd != 0
    ensures Fds(Retain(s, i, b))
  {
    var r := Retain(s, i, b);
    forall fd: int ensures FdOwned(r, fd) {
      assert FdOwned(s, fd);
      if fd in r.fds {
        var j: nat :| UsesFd(s, j, fd);
        assert UsesFd(r, j, fd);
      }
    }
    forall j: nat, l: nat ensures FdsDiffer(r, j, l) { assert FdsDiffer(s, j, l); }
  }

  lemma RetainCore(s: State, i: nat, k: nat, b: nat)
    requires Core(s) && Hits(s, i, k, b)
    ensures Core(Retain(s, i, b))
  {
    RetainTables(s, i, k, b);
    RetainEffect(s, i, k, b);
    RetainRefs(s, i, k, b);
    RetainFds(s, i, b);
    HistoryFrame(s, Retain(s, i, b));
  }

  // ------------------------------------------- waiting for another's worker

  lemma FdsStep(s: State, i: nat, c: Client, r: State)
    requires Fds(s) && i < |s.clients| && s.clients[i].fd != 0 && c.fd != 0
    requires r.clients == s.clients[i := c]
    requires s.nextFd <= r.nextFd && 0 < c.fd < r.nextFd && 0 < SockFd(c) < r.nextFd
    requires r.fds.Keys == s.fds.Keys - {s.clients[i].fd, SockFd(s.clients[i])} + {c.fd, SockFd(c)}
    requires c.fd == s.clients[i].fd || c.fd !in s.fds || c.fd == SockFd(s.clients[i])
    requires SockFd(c) == s.clients[i].fd || SockFd(c) !in s.fds || SockFd(c) == SockFd(s.clients[i])
    requires forall j: nat :: j < |s.clients| && s.clients[j].fd != 0 ==>
             s.clients[j].fd in s.fds && SockFd(s.clients[j]) in s.fds
    ensures Fds(r)
  {
    forall fd: int ensures FdOwned(r, fd) {
      assert FdOwned(s, fd);
      if fd in r.fds && fd != c.fd && fd != SockFd(c) {
        var j: nat :| UsesFd(s, j, fd);
        assert UsesFd(r, j, fd);
      } else if fd in r.fds {
        assert UsesFd(r, i, fd);
      }
    }
    forall j: nat, l: nat ensures FdsDiffer(r, j, l) {
      assert FdsDiffer(s, j, l);
    }
  }

  lemma AllFdsOpen(s: State)
    requires Tables(s)
    ensures forall j: nat :: j < |s.clients| && s.clients[j].fd != 0 ==>
            s.clients[j].fd in s.fds && SockFd(s.clients[j]) in s.fds
  {
    forall j: nat | j < |s.clients| && s.clients[j].fd != 0
      ensures s.clients[j].fd in s.fds && SockFd(s.clients[j]) in s.fds
    {
      assert EntryOk(s, j);
    }
  }

  /** A step that changes no reference changes no count. */
  lemma RefsStep(s: State, i: nat, c: Client, r: State)
    requires Refs(s) && i < |s.clients| && r.clients == s.clients[i := c] && r.heap == s.heap
    requires s.clients[i].resptr == None && c.resptr == None
    requires forall b: nat :: SlotsOf(r, b) == SlotsOf(s, b)
    ensures Refs(r)
  {
    forall b: nat ensures RefOk(r, b) {
      assert RefOk(s, b);
      assert HoldersOf(r, b) == HoldersOf(s, b);
    }
  }

  ghost predicate Joins(s: State, i: nat, k: nat, u: nat) {
    && Asking(s, i)
    && SlotAt(s, k).Future? && SlotAt(s, k).buf == u != s.clients[i].bufidx
    && SlotKey(s, k) == AskedKey(s, i)
  }

  function Joined(c: Client, k: nat): Client {
    c.(cachePp := At(k), clientFd := c.fd, events := NO_EVENTS)
  }

  lemma JoinEffect(s: State, i: nat, k: nat, u: nat)
    requires Core(s) && Joins(s, i, k, u)
    ensures var r := JoinWaiters(s, i, k, u);
            StepsClient(s, i, Joined(s.clients[i], k), r)
            && r.heap == s.heap && r.bufs == s.bufs && r.fds == s.fds && r.nextFd == s.nextFd && k < |s.cache|
               && r.cache == s.cache[k := Future(u, true)]
  {
  }

  lemma JoinTables(s: State, i: nat, k: nat, u: nat)
    requires Core(s) && Joins(s, i, k, u)
    ensures Tables(JoinWaiters(s, i, k, u))
  {
    var r := JoinWaiters(s, i, k, u);
    var c := Joined(s.clients[i], k);
    JoinEffect(s, i, k, u);
    assert EntryOk(s, i);
    assert ClientOk(r, c);
    forall j: nat ensures SlotOk(r, j) {
      assert SlotOk(s, j);
      if SlotAt(s, j).Future? {
        var l: nat :| OwnsSlot(s, l, j);
        assert OwnsSlot(r, l, j);
      }
    }
    forall j: nat, l: nat ensures KeysDiffer(r, j, l) { assert KeysDiffer(s, j, l); }
    StepTables(s, i, c, r);
  }

  lemma JoinCore(s: State, i: nat, k: nat, u: nat)
    requires Core(s) && Joins(s, i, k, u)
    ensures Core(JoinWaiters(s, i, k, u))
  {
    var r := JoinWaiters(s, i, k, u);
    JoinTables(s, i, k, u);
    JoinEffect(s, i, k, u);
    assert EntryOk(s, i);
    AllFdsOpen(s);
    NewFd(s);
    assert FdOwned(s, s.clients[i].fd) && FdOwned(s, SockFd(s.clients[i]));
    FdsStep(s, i, Joined(s.clients[i], k), r);
    forall b: nat ensures SlotsOf(r, b) == SlotsOf(s, b) { }
    RefsStep(s, i, Joined(s.clients[i], k), r);
    HistoryFrame(s, r);
  }

  // -------------------------------------------------- starting a worker

  lemma NewFd(s: State)
    requires Fds(s)
    ensures s.nextFd !in s.fds && 0 !in s.fds && s.nextFd > 0
  {
    assert FdOwned(s, s.nextFd) && FdOwned(s, 0);
  }

  ghost predicate Lacks(s: State, j: nat, key: seq<byte>) {
    SlotAt(s, j) != Empty ==> SlotKey(s, j) != key
  }

  /** No slot is occupied by an entry for this key. */
  ghost predicate Absent(s: State, key: seq<byte>) {
    forall j: nat :: Lacks(s, j, key)
  }

  function Started(c: Client, pp: CachePtr, wfd: int): Client {
    c.(cachePp := pp, clientFd := c.fd, fd := wfd)
  }

  /** Slot k is set aside for the request of client i, whose worker is started. */
  function Claim(s: State, i: nat, k: nat): State {
    StartWorker(Reserve(s, k, ClientAt(s, i).bufidx), i, At(k))
  }

  ghost predicate Claims(s: State, i: nat, k: nat) {
    && Asking(s, i)
    && k < |s.cache| && s.cache[k] == Empty
    && Absent(s, AskedKey(s, i))
    && BaseOf(s, AskedKey(s, i)) == k - k % 8
  }

  lemma ClaimEffect(s: State, i: nat, k: nat)
    requires Core(s) && Claims(s, i, k)
    ensures var r := Claim(s, i, k);
            && r.clients == s.clients[i := Started(s.clients[i], At(k), s.nextFd)]
            && r.heap == s.heap && r.bufs == s.bufs
            && r.nextFd == s.nextFd + 1 && r.fds == s.fds[s.nextFd := Pipe(BufAt(s, s.clients[i].bufidx))]
            && r.cache == s.cache[k := Future(s.clients[i].bufidx, false)]
            && r == s.(clients := r.clients, nextFd := r.nextFd, fds := r.fds, cache := r.cache)
  {
  }

  lemma ClaimSteps(s: State, i: nat, k: nat, r: State)
    requires Core(s) && Claims(s, i, k) && r == Claim(s, i, k)
    ensures StepsClient(s, i, Started(s.clients[i], At(k), s.nextFd), r)
  {
    ClaimEffect(s, i, k);
    NewFd(s);
  }

  lemma ClaimTables(s: State, i: nat, k: nat)
    requires Core(s) && Claims(s, i, k)
    ensures Tables(Claim(s, i, k))
  {
    var r := Claim(s, i, k);
    var c := Started(s.clients[i], At(k), s.nextFd);
    ClaimEffect(s, i, k);
    ClaimSteps(s, i, k, r);
    NewFd(s);
    assert EntryOk(s, i);
    assert ClientOk(r, c);
    forall j: nat ensures SlotOk(r, j) {
      assert SlotOk(s, j);
      if j == k {
        assert OwnsSlot(r, i, k);
      } else if SlotAt(s, j).Future? {
        var l: nat :| OwnsSlot(s, l, j);
        assert OwnsSlot(r, l, j);
      }
    }
    forall j: nat, l: nat ensures KeysDiffer(r, j, l) {
      assert KeysDiffer(s, j, l);
      assert Lacks(s, j, AskedKey(s, i)) && Lacks(s, l, AskedKey(s, i));
    }
    StepTables(s, i, c, r);
  }

  lemma ClaimCore(s: State, i: nat, k: nat)
    requires Core(s) && Claims(s, i, k)
    ensures Core(Claim(s, i, k))
  {
    var r := Claim(s, i, k);
    var c := Started(s.clients[i], At(k), s.nextFd);
    ClaimTables(s, i, k);
    ClaimEffect(s, i, k);
    assert EntryOk(s, i);
    AllFdsOpen(s);
    NewFd(s);
    assert FdOwned(s, s.clients[i].fd) && FdOwned(s, SockFd(s.clients[i]));
    FdsStep(s, i, c, r);
    forall b: nat ensures SlotsOf(r, b) == SlotsOf(s, b) { }
    RefsStep(s, i, c, r);
    HistoryFrame(s, r);
  }

  lemma FakeTables(s: State, i: nat)
    requires Core(s) && Asking(s, i)
    ensures Tables(StartWorker(s, i, Null))
  {
    var r := StartWorker(s, i, Null);
    var c := Started(s.clients[i], Null, s.nextFd);
    NewFd(s);
    assert EntryOk(s, i);
    assert StepsClient(s, i, c, r);
    assert ClientOk(r, c);
    forall j: nat ensures SlotOk(r, j) {
      assert SlotOk(s, j);
      if SlotAt(s, j).Future? {
        var l: nat :| OwnsSlot(s, l, j);
        assert OwnsSlot(r, l, j);
      }
    }
    forall j: nat, l: nat ensures KeysDiffer(r, j, l) { assert KeysDiffer(s, j, l); }
    StepTables(s, i, c, r);
  }

  lemma FakeCore(s: State, i: nat)
    requires Core(s) && Asking(s, i)
    ensures Core(StartWorker(s, i, Null))
  {
    var r := StartWorker(s, i, Null);
    var c := Started(s.clients[i], Null, s.nextFd);
    FakeTables(s, i);
    assert EntryOk(s, i);
    AllFdsOpen(s);
    NewFd(s);
    assert FdOwned(s, s.clients[i].fd) && FdOwned(s, SockFd(s.clients[i]));
    FdsStep(s, i, c, r);
    forall b: nat ensures SlotsOf(r, b) == SlotsOf(s, b) { }
    RefsStep(s, i, c, r);
    HistoryFrame(s, r);
  }

  // ----------------------------------------------------- lookup_in_cache

  lemma InItsLine(s: State, j: nat, key: seq<byte>)
    requires Tables(s) && SlotAt(s, j) != Empty && SlotKey(s, j) == key
    ensures BaseOf(s, key) <= j < BaseOf(s, key) + 8
  {
    assert SlotOk(s, j);
  }

  lemma LineBounds(s: State, key: seq<byte>)
    requires Sizes(s)
    ensures BaseOf(s, key) % 8 == 0 && BaseOf(s, key) + 8 <= |s.cache|
    ensures forall k :: BaseOf(s, key) <= k < BaseOf(s, key) + 8 ==> k - k % 8 == BaseOf(s, key)
  {
    var line := LineOf(key, s.cfg.cacheSize);
    assert line + 1 <= s.cfg.cacheSize;
  }

  /** The scan of one line decides whether the key is anywhere in the cache. */
  lemma ScanDecides(s: State, key: seq<byte>)
    requires Tables(s)
    ensures var base := BaseOf(s, key);
            FindKey(s, key, base, base + 8) == base + 8 <==> Absent(s, key)
  {
    var base := BaseOf(s, key);
    var k := FindKey(s, key, base, base + 8);
    LineBounds(s, key);
    if k == base + 8 {
      forall j: nat ensures Lacks(s, j, key) {
        if SlotAt(s, j) != Empty && SlotKey(s, j) == key { InItsLine(s, j, key); }
      }
    } else {
      assert !Lacks(s, k, key);
    }
  }

  lemma AccessCounted(s: State)
    requires Core(s) && HitsOk(s)
    ensures Core(CountAccess(s)) && HitsOk(CountAccess(s)) && CountAccess(s).hitCnt < CountAccess(s).accessCnt
  {
    CoreFrame(s, CountAccess(s));
  }

  lemma ClosedFrame(s: State, r: State)
    requires ClosedOk(s) && r.cntClosed == s.cntClosed && r.minClosed == s.minClosed
    requires |r.clients| == |s.clients|
    requires forall j :: 0 <= j < |s.clients| ==> (r.clients[j].fd == 0 <==> s.clients[j].fd == 0)
    ensures ClosedOk(r)
  {
    assert ClosedSet(r) == ClosedSet(s);
  }

  lemma CachedFrame(s: State, r: State)
    requires CachedOk(s) && r.cachedCnt == s.cachedCnt && r.failedFills == s.failedFills
    requires |r.cache| == |s.cache|
    requires forall k :: 0 <= k < |s.cache| ==> (r.cache[k] == Empty <==> s.cache[k] == Empty)
    ensures CachedOk(r)
  {
    assert Occupied(r) == Occupied(s);
  }

  /** The state after a lookup that found an entry. */
  function HitCounted(s: State): State {
    var s1 := CountAccess(s);
    s1.(hitCnt := s1.hitCnt + 1)
  }

  lemma HitCountedCore(s: State)
    requires Core(s) && Counts(s)
    ensures Core(HitCounted(s)) && Counts(HitCounted(s))
  {
    AccessCounted(s);
    CoreFrame(CountAccess(s), HitCounted(s));
    CachedFrame(s, HitCounted(s));
    ClosedFrame(s, HitCounted(s));
  }

  lemma ServeFound(s: State, i: nat, k: nat)
    requires Core(s) && Counts(s) && Asking(s, i)
    requires ScanLine(CountAccess(s), AskedKey(s, i)) == Found(k)
    ensures var s2 := HitCounted(s);
            && Core(s2) && Counts(s2) && SlotAt(s2, k) != Empty && SlotKey(s2, k) == AskedKey(s2, i) == AskedKey(s, i)
            && (match SlotAt(s2, k)
                case Done(b) => Hits(s2, i, k, b) && Serve(s, i) == (Retain(s2, i, b), true)
                case Future(u, _) => Joins(s2, i, k, u) && Serve(s, i) == (JoinWaiters(s2, i, k, u), false)
                case Empty => false)
  {
    var s2 := HitCounted(s);
    HitCountedCore(s);
    if SlotAt(s2, k).Future? {
      assert SlotOk(s2, k);
      var j: nat :| OwnsSlot(s2, j, k);
      assert BufsDiffer(s2, i, j);
    }
  }

  lemma RetainCounts(s: State, i: nat, k: nat, b: nat)
    requires Core(s) && Counts(s) && Hits(s, i, k, b)
    ensures Counts(Retain(s, i, b))
  {
    var r := Retain(s, i, b);
    CachedFrame(s, r);
    ClosedFrame(s, r);
  }

  lemma JoinCounts(s: State, i: nat, k: nat, u: nat)
    requires Core(s) && Counts(s) && Joins(s, i, k, u)
    ensures Counts(JoinWaiters(s, i, k, u))
  {
    var r := JoinWaiters(s, i, k, u);
    CachedFrame(s, r);
    ClosedFrame(s, r);
  }

  lemma AbsentFrame(s: State, r: State, key: seq<byte>)
    requires Absent(s, key) && r.cache == s.cache && r.heap == s.heap && r.bufs == s.bufs
    ensures Absent(r, key)
  {
    forall j: nat ensures Lacks(r, j, key) { assert Lacks(s, j, key); }
  }

  /** The state in which an empty slot is set aside. */
  function FreeCounted(s: State): State {
    var s1 := CountAccess(s);
    s1.(cachedCnt := (s1.cachedCnt + 1) % TWO32)
  }

  lemma FreeIsClaimed(s: State, i: nat, f: nat)
    requires i < |s.clients| && f < |s.cache| && ScanLine(CountAccess(s), AskedKey(s, i)) == Free(f)
    ensures Serve(s, i) == (Claim(FreeCounted(s), i, f), false)
  {
  }

  lemma ServeFree(s: State, i: nat, f: nat)
    requires Core(s) && Counts(s) && Asking(s, i)
    requires ScanLine(CountAccess(s), AskedKey(s, i)) == Free(f)
    ensures var s2 := FreeCounted(s);
            Core(s2) && HitsOk(s2) && ClosedOk(s2) && Claims(s2, i, f) && Serve(s, i) == (Claim(s2, i, f), false)
  {
    var s1 := CountAccess(s);
    var s2 := FreeCounted(s);
    AccessCounted(s);
    ScanDecides(s1, AskedKey(s, i));
    LineBounds(s, AskedKey(s, i));
    FreeIsClaimed(s, i, f);
    CoreFrame(s1, s2);
    ClosedFrame(s, s2);
    AbsentFrame(s1, s2, AskedKey(s, i));
  }

  lemma ModularSucc(c: nat, n: nat, f: nat)
    requires c == (n + f) % TWO32
    ensures (c + 1) % TWO32 == (n + 1 + f) % TWO32
  {
  }

  /** What setting a slot aside and starting the worker comes to. */
  lemma ClaimResult(s: State, i: nat, k: nat)
    requires Core(s) && HitsOk(s) && ClosedOk(s) && Claims(s, i, k)
    ensures var r := Claim(s, i, k);
            && Core(r) && HitsOk(r) && ClosedOk(r) && WorkerOutstanding(r)
            && r.cachedCnt == s.cachedCnt && r.failedFills == s.failedFills
            && Occupied(r) == Occupied(s) + {k} && k !in Occupied(s)
  {
    var r := Claim(s, i, k);
    ClaimCore(s, i, k);
    ClosedFrame(s, r);
    assert IsOwner(r.clients[i]) by { assert EntryOk(s, i); NewFd(s); }
  }

  lemma FreeResult(s: State, i: nat, f: nat, r: State)
    requires Core(s) && Counts(s)
    requires var s2 := FreeCounted(s);
             Core(s2) && HitsOk(s2) && ClosedOk(s2) && Claims(s2, i, f) && r == Claim(s2, i, f)
    ensures Core(r) && Counts(r) && WorkerOutstanding(r)
  {
    var s2 := FreeCounted(s);
    ClaimResult(s2, i, f);
    OneMoreCached(s, s2, f, r);
  }

  lemma OneMoreCached(s: State, s2: State, f: nat, r: State)
    requires CachedOk(s) && s2 == FreeCounted(s)
    requires r.cachedCnt == s2.cachedCnt && r.failedFills == s2.failedFills
    requires Occupied(r) == Occupied(s2) + {f} && f !in Occupied(s2)
    ensures CachedOk(r)
  {
    assert Occupied(s2) == Occupied(s);
    ModularSucc(s.cachedCnt, |Occupied(s)|, s.failedFills);
  }

  lemma AbsentAfterEvict(s: State, k: nat, b: nat, r: State, key: seq<byte>)
    requires Tables(s) && Evicts(s, k, b, r) && Absent(s, key)
    ensures Absent(r, key)
  {
    forall j: nat ensures Lacks(r, j, key) {
      assert Lacks(s, j, key);
      if j != k { EvictKeepsSlot(s, k, b, r, j); }
    }
  }

  lemma ServeEvict(s: State, i: nat, o: nat)
    requires Core(s) && Counts(s) && Asking(s, i)
    requires ScanLine(CountAccess(s), AskedKey(s, i)) == Evict(o)
    ensures var s1 := CountAccess(s);
            var s2 := FreeSlot(s1, o);
            && Core(s1) && HitsOk(s1)
            && SlotAt(s1, o).Done? && Evicts(s1, o, SlotAt(s1, o).blk, s2)
            && Core(s2) && Claims(s2, i, o) && Serve(s, i) == (Claim(s2, i, o), false)
  {
    var s1 := CountAccess(s);
    AccessCounted(s);
    ScanDecides(s1, AskedKey(s, i));
    LineBounds(s, AskedKey(s, i));
    EvictCore(s1, o);
    AbsentAfterEvict(s1, o, SlotAt(s1, o).blk, FreeSlot(s1, o), AskedKey(s, i));
  }

  lemma EvictResult(s: State, i: nat, o: nat, r: State)
    requires Core(s) && Counts(s) && SlotAt(s, o).Done?
    requires var s2 := FreeSlot(CountAccess(s), o);
             Core(s2) && Claims(s2, i, o) && r == Claim(s2, i, o)
    ensures Core(r) && Counts(r) && WorkerOutstanding(r)
  {
    var s2 := FreeSlot(CountAccess(s), o);
    EvictCounters(s, o, s2);
    ClaimResult(s2, i, o);
    AsManyCached(s, s2, o, r);
  }

  lemma AsManyCached(s: State, s2: State, o: nat, r: State)
    requires CachedOk(s) && SlotAt(s, o).Done? && s2.cache == s.cache[o := Empty]
    requires r.cachedCnt == s.cachedCnt && r.failedFills == s.failedFills && Occupied(r) == Occupied(s2) + {o}
    ensures CachedOk(r)
  {
    assert Occupied(s2) + {o} == Occupied(s);
  }

  lemma EvictCounters(s: State, o: nat, r: State)
    requires Counts(s) && SlotAt(s, o).Done? && r == FreeSlot(CountAccess(s), o)
    ensures HitsOk(r) && ClosedOk(r) && r.cachedCnt == s.cachedCnt && r.failedFills == s.failedFills
    ensures r.cache == s.cache[o := Empty]
  {
    ClosedFrame(s, r);
  }

  lemma FakeResult(s: State, i: nat)
    requires Core(s) && Counts(s) && Asking(s, i)
    ensures var r := StartWorker(s, i, Null);
            Core(r) && Counts(r) && WorkerOutstanding(r)
  {
    var r := StartWorker(s, i, Null);
    FakeCore(s, i);
    ClosedFrame(s, r);
    CachedFrame(s, r);
    assert IsOwner(r.clients[i]) by { assert EntryOk(s, i); NewFd(s); }
  }

  lemma NoRoomResult(s: State, i: nat, r: State)
    requires Core(s) && Counts(s) && Asking(s, i)
    requires r == StartWorker(CountAccess(s), i, Null)
    ensures Core(r) && Counts(r) && WorkerOutstanding(r)
  {
    var s1 := CountAccess(s);
    AccessCounted(s);
    ClosedFrame(s, s1);
    CachedFrame(s, s1);
    FakeResult(s1, i);
  }

  lemma ServeNoRoom(s: State, i: nat)
    requires ScanLine(CountAccess(s), AskedKey(s, i)) == NoRoom
    ensures Serve(s, i) == (StartWorker(CountAccess(s), i, Null), false)
  {
  }

  /** Whether a completed entry answers the request of client i. */
  ghost predicate HasAnswer(s: State, i: nat) {
    exists k: nat :: SlotAt(s, k).Done? && SlotKey(s, k) == AskedKey(s, i)
  }

  /** Client i was given a completed entry to write from. */
  ghost predicate GivenAnswer(s: State, i: nat, r: State) {
    && r.cache == s.cache
    && i < |s.clients| && |r.clients| == |s.clients|
    && (forall j: nat :: j < |s.clients| && j != i ==> r.clients[j] == s.clients[j])
    && IsWriting(r.clients[i]) && r.clients[i].resptr.Some? && r.clients[i].respos == 0
  }

  /** handle_client() from the lookup on keeps everything but the sleep
      condition; and unless the answer was there, a worker is outstanding. */
  lemma ServeKeeps(s: State, i: nat)
    requires Core(s) && Counts(s) && Asking(s, i)
    ensures var (r, ready) := Serve(s, i);
            && Core(r) && Counts(r)
            && (!ready ==> WorkerOutstanding(r))
            && (ready ==> HasAnswer(s, i) && GivenAnswer(s, i, r))
  {
    match ScanLine(CountAccess(s), AskedKey(s, i))
    case Found(k) =>
      ServeFound(s, i, k);
      FoundKeeps(s, i, k);
    case Free(f) =>
      ServeFree(s, i, f);
      FreeResult(s, i, f, Claim(FreeCounted(s), i, f));
    case Evict(o) =>
      ServeEvict(s, i, o);
      EvictResult(s, i, o, Claim(FreeSlot(CountAccess(s), o), i, o));
    case NoRoom =>
      ServeNoRoom(s, i);
      NoRoomResult(s, i, StartWorker(CountAccess(s), i, Null));
  }

  lemma FoundKeeps(s: State, i: nat, k: nat)
    requires Core(s) && Asking(s, i)
    requires var s2 := HitCounted(s);
            && Core(s2) && Counts(s2)
            && (match SlotAt(s2, k)
                case Done(b) => Hits(s2, i, k, b)
                case Future(u, _) => Joins(s2, i, k, u)
                case Empty => false)
    ensures var s2 := HitCounted(s);
            match SlotAt(s2, k)
            case Done(b) => Core(Retain(s2, i, b)) && Counts(Retain(s2, i, b)) && HasAnswer(s, i)
                && GivenAnswer(s, i, Retain(s2, i, b))
            case Future(u, _) => Core(JoinWaiters(s2, i, k, u)) && Counts(JoinWaiters(s2, i, k, u))
                && WorkerOutstanding(JoinWaiters(s2, i, k, u))
            case Empty => true
  {
    var s2 := HitCounted(s);
    match SlotAt(s2, k)
    case Done(b) =>
      RetainCore(s2, i, k, b);
      RetainCounts(s2, i, k, b);
      assert EntryOk(s, i);
      assert SlotAt(s, k).Done? && SlotKey(s, k) == AskedKey(s, i);
    case Future(u, _) =>
      JoinCore(s2, i, k, u);
      JoinCounts(s2, i, k, u);
      assert SlotOk(s2, k);
      var j: nat :| OwnsSlot(s2, j, k);
      assert BufsDiffer(s2, i, j);
      assert IsOwner(JoinWaiters(s2, i, k, u).clients[j]);
  }
}
