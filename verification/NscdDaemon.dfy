/**
 The daemon as the C program has it: tables that are updated in place.  The
 ghost function Model gives the value the specification functions of NscdModel
 speak of, and every method is proved to change it as its function says.

 Entry i of `table` is pfd[i] together with cinfo[i]; entries 0 and 1 are the
 listening sockets, so entry i is client i - 2 of the specification.  What the
 kernel keeps for the daemon, the open descriptors, is ghost.
 */
module NscdDaemon {
  import opened Bytes
  import opened NscdModel
  import opened NscdInvariant
  import opened NscdSweep
  import opened NscdServe
  import opened NscdClose
  import opened NscdReply
  import opened NscdTransfer
  import opened NscdRequest
  import opened NscdEvents
  import opened NscdCompact
  import opened NscdAccept
  import opened NscdRun
  import opened NscdTheorems
  import opened NscdPipes
  import M = NscdModel

  class Daemon {
    const cfg: Config
    const table: array<Client>
    const clientBuf: array<seq<byte>>
    const busyCbuf: array<bool>
    const cache: array<Slot>
    var numClients: nat
    var accepting: bool
    var nextBuf: nat
    var heap: map<nat, Block>
    var nextId: nat
    var cntClosed: nat
    var minClosed: nat
    var cachedCnt: nat
    var cacheAccessCnt: nat
    var cacheHitCnt: nat
    var gNowMs: nat
    var lastAgeTime: nat
    var agingIntervalMs: nat
    var minAgingIntervalMs: nat
    var exited: bool
    ghost var fds: map<int, FdObj>
    var nextFd: int
    ghost var answers: set<Answer>
    ghost var served: seq<Served>
    ghost var failedFills: nat

    ghost predicate Valid()
      reads this
    {
      && 2 <= numClients <= table.Length
      && table.Length == clientBuf.Length == busyCbuf.Length == cfg.maxReq
      && cache.Length == 8 * cfg.cacheSize
    }

    ghost function Model(): State
      requires Valid()
      reads this, table, clientBuf, busyCbuf, cache
    {
      State(cfg, table[2..numClients], accepting, clientBuf[..], busyCbuf[..], nextBuf, cache[..], heap, nextId,
            fds, nextFd, cntClosed, minClosed, cachedCnt, cacheAccessCnt, cacheHitCnt, gNowMs, lastAgeTime,
            agingIntervalMs, minAgingIntervalMs, exited, answers, served, failedFills)
    }

    /** Entry i is a client. */
    ghost predicate InTable(i: nat)
      reads this
    {
      2 <= i < numClients
    }

    // ---------------------------------------------------------- single writes

    /** pfd[i] and cinfo[i] are set. */
    method PutEntry(i: nat, c: Client)
      requires Valid() && InTable(i)
      modifies this, table, clientBuf, busyCbuf, cache
      ensures Valid() && Model() == old(Model()).(clients := old(Model()).clients[i - 2 := c])
    {
      table[i] := c;
      assert table[2..numClients] == old(table[2..numClients])[i - 2 := c];
    }

    method PutBusy(u: nat, b: bool)
      requires Valid() && u < busyCbuf.Length
      modifies this, table, clientBuf, busyCbuf, cache
      ensures Valid() && Model() == old(Model()).(busy := old(Model()).busy[u := b])
    {
      busyCbuf[u] := b;
      assert busyCbuf[..] == old(busyCbuf[..])[u := b];
    }

    method PutSlot(k: nat, slot: Slot)
      requires Valid() && k < cache.Length
      modifies this, table, clientBuf, busyCbuf, cache
      ensures Valid() && Model() == old(Model()).(cache := old(Model()).cache[k := slot])
    {
      cache[k] := slot;
      assert cache[..] == old(cache[..])[k := slot];
    }

    method PutBlock(b: nat, blk: Block)
      requires Valid()
      modifies this, table, clientBuf, busyCbuf, cache
      ensures Valid() && Model() == old(Model()).(heap := old(heap)[b := blk])
    {
      heap := heap[b := blk];
    }

    method FreeBlock(b: nat)
      requires Valid()
      modifies this, table, clientBuf, busyCbuf, cache
      ensures Valid() && Model() == old(Model()).(heap := old(heap) - {b})
    {
      heap := heap - {b};
    }

    /** free_refcounted_ureq() on the address of an untagged pointer. */
    method FreeRefcountedUreq(b: nat)
      requires Valid() && b in heap
      modifies this, table, clientBuf, busyCbuf, cache
      ensures Valid() && Model() == old(Model()).(heap := Released(old(heap), b))
    {
      if heap[b].refcount > 0 {
        PutBlock(b, heap[b].(refcount := heap[b].refcount - 1));
      } else {
        FreeBlock(b);
      }
    }

    // ------------------------------------------------------------ close_client

    /** The end of a client's hold on its response. */
    method GiveUp(c: Client)
      requires Valid()
      requires c.resptr.Some? ==> c.resptr.value in heap
      modifies this, table, clientBuf, busyCbuf, cache
      ensures Valid() && Model() == old(Model()).(heap := GivenUp(old(heap), c))
    {
      if c.resptr.Some? {
        if c.cachePp == Null {
          FreeBlock(c.resptr.value);
        } else {
          FreeRefcountedUreq(c.resptr.value);
        }
      }
    }

    method NoteClosed(i: nat)
      requires Valid()
      modifies this, table, clientBuf, busyCbuf, cache
      ensures Valid() && Model() == old(Model()).(cntClosed := old(cntClosed) + 1, minClosed := Min(old(minClosed), i))
    {
      cntClosed := cntClosed + 1;
      if i < minClosed {
        minClosed := i;
      }
    }

    /** close() on both descriptors of a client. */
    method CloseFds(c: Client)
      requires Valid()
      modifies this, table, clientBuf, busyCbuf, cache
      ensures Valid() && Model() == old(Model()).(fds := old(fds) - {c.fd, c.clientFd})
    {
      fds := fds - {c.fd, c.clientFd};
    }

    method CloseClient(i: nat)
      requires Valid() && InTable(i) && Closable(Model(), i - 2)
      modifies this, table, clientBuf, busyCbuf, cache
      ensures Valid() && Model() == M.CloseClient(old(Model()), i - 2)
    {
      var c := table[i];
      assert ClientAt(Model(), i - 2) == c;
      if c.fd != 0 {
        CloseFds(c);
        PutBusy(c.bufidx, false);
        PutEntry(i, c.(fd := 0, resptr := if c.cachePp == Null then c.resptr else None));
        GiveUp(c);
        NoteClosed(i);
      }
    }

    /** The next idle request buffer, going round. */
    method AllocBufNo() returns (cur: nat)
      requires Valid() && nextBuf < busyCbuf.Length
      requires IdleFrom(busyCbuf[..], nextBuf, busyCbuf.Length) < busyCbuf.Length
      modifies this, table, clientBuf, busyCbuf, cache
      ensures Valid() && cur == IdleFrom(old(busyCbuf[..]), old(nextBuf), busyCbuf.Length) < busyCbuf.Length
      ensures Model() == old(Model()).(busy := old(busyCbuf[..])[cur := true], nextBuf := NextBuf(cur, busyCbuf.Length))
    {
      cur := FindIdle();
      PutBusy(cur, true);
      nextBuf := NextBuf(cur, busyCbuf.Length);
    }

    /** The loop of alloc_buf_no(). */
    method FindIdle() returns (cur: nat)
      requires Valid() && nextBuf < busyCbuf.Length
      requires IdleFrom(busyCbuf[..], nextBuf, busyCbuf.Length) < busyCbuf.Length
      ensures cur == IdleFrom(busyCbuf[..], nextBuf, busyCbuf.Length)
    {
      var next: nat := nextBuf;
      var first := true;
      ghost var left: nat := busyCbuf.Length;
      while first || next != nextBuf
        invariant next < busyCbuf.Length
        invariant IdleFrom(busyCbuf[..], next, left) == IdleFrom(busyCbuf[..], nextBuf, busyCbuf.Length)
        invariant left <= busyCbuf.Length && (first <==> left == busyCbuf.Length)
        invariant next + left == nextBuf + busyCbuf.Length || next + left == nextBuf
        decreases left
      {
        cur := next;
        next := if next + 1 == busyCbuf.Length then 0 else next + 1;
        if !busyCbuf[cur] {
          return;
        }
        first := false;
        assert left > 0;
        left := left - 1;
      }
      assert false;
    }

    // ------------------------------------------------------ lookup_in_cache

    method CountAccess()
      requires Valid() && 1 <= cacheHitCnt <= cacheAccessCnt
      modifies this, table, clientBuf, busyCbuf, cache
      ensures Valid() && Model() == M.CountAccess(old(Model()))
    {
      cacheAccessCnt := cacheAccessCnt + 1;
      if cacheAccessCnt > INT_MAX {
        cacheAccessCnt := cacheAccessCnt / 2 + 1;
        cacheHitCnt := cacheHitCnt / 2 + 1;
      }
    }

    /** The request behind a slot. */
    method KeyAt(k: nat) returns (key: seq<byte>)
      requires Valid() && Scannable(Model()) && k < cache.Length
      ensures key == SlotKey(Model(), k)
    {
      assert SlotSafe(Model(), k);
      match cache[k]
      case Empty => key := [];
      case Done(b) => key := heap[b].key;
      case Future(u, _) => key := KeyOf(clientBuf[u]);
    }

    method CacheAge(k: nat) returns (age: nat)
      requires Valid() && Scannable(Model()) && k < cache.Length
      ensures age == SlotAge(Model(), k)
    {
      assert SlotSafe(Model(), k);
      if cache[k].Done? {
        age := Sub32(gNowMs, heap[cache[k].blk].ts24 * 256);
      } else {
        age := 0;
      }
    }

    /** The first loop of lookup_in_cache(). */
    method FindInLine(key: seq<byte>, base: nat) returns (k: nat, f: nat)
      requires Valid() && Scannable(Model()) && base + 8 <= cache.Length
      ensures k == FindKey(Model(), key, base, base + 8)
      ensures k == base + 8 ==> f == FindFree(Model(), base, base + 8)
    {
      ghost var s := Model();
      k := base;
      f := base + 8;
      while k < base + 8
        invariant base <= k <= base + 8 && Model() == s
        invariant FindKey(s, key, base, base + 8) == FindKey(s, key, k, base + 8)
        invariant FindFree(s, base, base + 8) == if f < base + 8 then f else FindFree(s, k, base + 8)
        invariant base <= f <= base + 8
      {
        if cache[k] == Empty {
          if f == base + 8 {
            f := k;
          }
        } else {
          var cached := KeyAt(k);
          if cached == key {
            return;
          }
        }
        k := k + 1;
      }
    }

    /** The second loop of lookup_in_cache(). */
    method OldestInLine(base: nat) returns (o: nat, age: nat)
      requires Valid() && Scannable(Model()) && base + 8 <= cache.Length
      ensures o == Oldest(Model(), base, 8) && age == SlotAge(Model(), o)
    {
      ghost var s := Model();
      o, age := base, 0;
      var n := 0;
      while n < 8
        invariant n <= 8 && Model() == s
        invariant if n == 0 then o == base && age == 0 else o == Oldest(s, base, n) && age == SlotAge(s, o)
      {
        var a := CacheAge(base + n);
        if a > age {
          o, age := base + n, a;
        }
        n := n + 1;
      }
    }

    /** free_refcounted_ureq() on the address of a cache slot. */
    method FreeSlot(k: nat)
      requires Valid() && k < cache.Length
      requires cache[k].Done? ==> cache[k].blk in heap
      modifies this, table, clientBuf, busyCbuf, cache
      ensures Valid() && Model() == M.FreeSlot(old(Model()), k)
    {
      if cache[k].Done? {
        FreeRefcountedUreq(cache[k].blk);
        PutSlot(k, Empty);
      }
    }

    /** Both loops of lookup_in_cache(). */
    method ScanCacheLine(key: seq<byte>) returns (found: Outcome)
      requires Valid() && Scannable(Model())
      ensures found == ScanLine(Model(), key)
    {
      LineInCache(Model(), key);
      var base := 8 * LineOf(key, cfg.cacheSize);
      var k, f := FindInLine(key, base);
      if k < base + 8 {
        return Found(k);
      }
      if f < base + 8 {
        return Free(f);
      }
      var o, age := OldestInLine(base);
      found := if age == 0 then NoRoom else Evict(o);
    }

    /** What lookup_in_cache() does about the outcome. */
    method Settle(u: nat, found: Outcome) returns (pp: CachePtr)
      requires Valid()
      requires found.Free? ==> found.f < cache.Length
      requires found.Evict? ==> found.o < cache.Length && cache[found.o].Done? && cache[found.o].blk in heap
      modifies this, table, clientBuf, busyCbuf, cache
      ensures Valid() && (Model(), pp) == LookupOutcome(old(Model()), u, found)
    {
      match found
      case Found(k) =>
        cacheHitCnt := cacheHitCnt + 1;
        pp := At(k);
      case Free(f) =>
        cachedCnt := (cachedCnt + 1) % TWO32;
        PutSlot(f, Future(u, false));
        pp := At(f);
      case Evict(o) =>
        FreeSlot(o);
        PutSlot(o, Future(u, false));
        pp := At(o);
      case NoRoom =>
        pp := Null;
    }

    method LookupInCache(u: nat) returns (pp: CachePtr)
      requires Valid() && Scannable(Model()) && u < clientBuf.Length
      modifies this, table, clientBuf, busyCbuf, cache
      ensures Valid() && (Model(), pp) == Lookup(old(Model()), u)
    {
      var key := KeyOf(clientBuf[u]);
      StillScannable(Model());
      CountAccess();
      var found := ScanCacheLine(key);
      OutcomeSafe(Model(), key);
      pp := Settle(u, found);
    }

    // ---------------------------------------------------------- age_cache

    method SetAging(ms: nat)
      requires Valid()
      modifies this, table, clientBuf, busyCbuf, cache
      ensures Valid() && Model() == old(Model()).(agingMs := ms)
    {
      agingIntervalMs := ms;
    }

    /** The body of the loop in age_cache(). */
    method AgeOne(k: nat, f: Flush)
      requires Valid() && k < cache.Length
      requires cache[k].Done? ==> cache[k].blk in heap
      modifies this, table, clientBuf, busyCbuf, cache
      ensures Valid() && Model() == AgeSlot(old(Model()), k, f)
    {
      if !cache[k].Done? {
        return;
      }
      var b := cache[k].blk;
      var blk := heap[b];
      var csrv := KeySrv(blk.key);
      var age := Sub32(gNowMs, blk.ts24 * 256);
      var ttl := Ttl(cfg, blk);
      if (match f case All => true case Service(srv) => srv == csrv case Expired => age >= ttl) {
        cachedCnt := (cachedCnt + TWO32 - 1) % TWO32;
        FreeSlot(k);
      } else if f == Expired && agingIntervalMs > ttl - age {
        SetAging(ttl - age);
      }
    }

    /** The loop of age_cache(). */
    method Sweep(f: Flush)
      requires Valid() && SafeSweep(Model(), f)
      modifies this, table, clientBuf, busyCbuf, cache
      ensures Valid() && Model() == AgeSlots(old(Model()), cache.Length, f)
    {
      ghost var s := Model();
      var k := 0;
      while k < cache.Length
        invariant Valid() && k <= cache.Length && Model() == AgeSlots(s, k, f)
      {
        assert SafeAt(s, k, f);
        AgeOne(k, f);
        k := k + 1;
      }
    }

    method AgeCache(f: Flush)
      requires Valid() && SafeSweep(Model().(agingMs := INT_MAX), f)
      modifies this, table, clientBuf, busyCbuf, cache
      ensures Valid() && Model() == M.AgeCache(old(Model()), f)
    {
      SetAging(INT_MAX);
      Sweep(f);
    }

    // --------------------------------------------- handle_worker_response

    method PrepareForWriteout(i: nat, cached: Option<nat>)
      requires Valid() && InTable(i)
      modifies table
      ensures table[..] == old(table[..])[i := Prepared(old(table[i]), cached, gNowMs)]
    {
      if table[i].clientFd != 0 {
        table[i] := table[i].(fd := table[i].clientFd, clientFd := 0);
      }
      table[i] := table[i].(events := POLLOUT, resptr := cached, startedMs := gNowMs);
    }

    /** A waiter is made ready to write, and forgets the slot it waited at. */
    method Rouse(j: nat, cached: Option<nat>)
      requires Valid() && InTable(j) && table[j].cachePp.At?
      modifies table
      ensures var now := old(table[2..numClients]);
              table[2..numClients] == now[j - 2 := Prepared(Unmatched(now[j - 2]), cached, gNowMs)]
    {
      table[j] := table[j].(cachePp := Taken);
      PrepareForWriteout(j, cached);
    }

    /** The wake-up loop: every entry with the address of slot k. */
    method WakeWaiters(k: nat, cached: Option<nat>) returns (ref: nat)
      requires Valid()
      modifies table
      ensures ref == |Matching(old(table[2..numClients]), k)|
      ensures var was := old(table[2..numClients]);
              table[2..numClients] == Woken(was, Matching(was, k), cached, gNowMs)
    {
      ghost var was := table[2..numClients];
      var j := 2;
      ref := 0;
      while j < numClients
        invariant 2 <= j <= numClients && ref == |Matching(was[..j - 2], k)|
        invariant WokenUpTo(was, k, j - 2, cached, gNowMs, table[2..numClients])
      {
        ghost var now, p := table[2..numClients], j - 2;
        MatchingStep(was, k, p);
        assert table[j] == now[p];
        if table[j].cachePp == At(k) {
          ref := ref + 1;
          Rouse(j, cached);
        }
        WokenMore(was, k, p, cached, gNowMs, now, table[2..numClients]);
        j := j + 1;
      }
      AllWoken(was, k, j - 2, cached, gNowMs, table[2..numClients]);
    }

    /** Only the client whose worker it was. */
    method WakeOwner(i: nat, cached: Option<nat>)
      requires Valid() && InTable(i)
      modifies table
      ensures table[2..numClients] == Woken(old(table[2..numClients]), {i - 2}, cached, gNowMs)
    {
      if table[i].cachePp.At? {
        table[i] := table[i].(cachePp := Taken);
      }
      PrepareForWriteout(i, cached);
    }

    /** Those the result is for, and how many of them share it through the cache. */
    method Wake(i: nat, shared: bool, cached: Option<nat>) returns (ref: nat)
      requires Valid() && InTable(i)
      requires shared ==> table[i].cachePp.At?
      modifies this, table, clientBuf, busyCbuf, cache
      ensures Valid()
      ensures var s, c := old(Model()), old(table[i]);
              var who := if shared then Matching(s.clients, c.cachePp.slot) else {i - 2};
              && ref == (if c.cachePp.At? then |who| else 0)
              && Model() == s.(clients := Woken(s.clients, who, cached, s.now))
    {
      var pp := table[i].cachePp;
      if shared {
        ref := WakeWaiters(pp.slot, cached);
      } else {
        ref := if pp.At? then 1 else 0;
        WakeOwner(i, cached);
      }
    }

    /** The slot gets the reply, or is emptied when there is none. */
    method FillSlot(k: nat, cached: Option<nat>)
      requires Valid() && k < cache.Length
      modifies this, table, clientBuf, busyCbuf, cache
      ensures Valid()
      ensures Model() == old(Model()).(cache := old(cache[..])[k := if cached.Some? then Done(cached.value) else Empty],
                                       failedFills := if cached.Some? then old(failedFills) else old(failedFills) + 1)
    {
      PutSlot(k, if cached.Some? then Done(cached.value) else Empty);
      failedFills := if cached.Some? then failedFills else failedFills + 1;
    }

    /** Was the client's slot marked shared?  Then it gets the result. */
    method TakeSlot(i: nat, cached: Option<nat>) returns (shared: bool)
      requires Valid() && InTable(i) && Awaiting(Model(), i - 2)
      modifies this, table, clientBuf, busyCbuf, cache
      ensures Valid() && Model() == Filled(old(Model()), i - 2, cached)
      ensures shared == SharedAt(old(Model()), i - 2)
    {
      var pp := table[i].cachePp;
      assert ClientAt(Model(), i - 2) == table[i];
      shared := false;
      if pp.At? {
        var was := cache[pp.slot];
        shared := was.Future? && was.shared;
        FillSlot(pp.slot, cached);
      }
    }

    /** The result goes to the slot and to those it is for. */
    method HandOut(i: nat, cached: Option<nat>) returns (ref: nat)
      requires Valid() && InTable(i) && Awaiting(Model(), i - 2)
      modifies this, table, clientBuf, busyCbuf, cache
      ensures Valid()
      ensures ref == RefsOf(old(Model()), i - 2) && Model() == HandedOut(old(Model()), i - 2, cached)
    {
      HandOutSteps(Model(), i - 2, cached, Filled(Model(), i - 2, cached));
      var shared := TakeSlot(i, cached);
      ref := Wake(i, shared, cached);
    }

    /** A new block for what was read. */
    method NewEntry(i: nat, resp: seq<byte>) returns (b: nat)
      requires Valid() && InTable(i) && table[i].bufidx < clientBuf.Length
      modifies this, table, clientBuf, busyCbuf, cache
      ensures Valid() && b == old(nextId)
      ensures Model() == Entered(old(Model()), i - 2, resp)
    {
      b := nextId;
      PutBlock(b, Block(KeyOf(clientBuf[table[i].bufidx]), resp, 0, gNowMs / 256));
      nextId := nextId + 1;
    }

    /** The worker's descriptor is closed, and the ageing clock set again. */
    method CloseWorker(i: nat)
      requires Valid() && InTable(i)
      modifies this, table, clientBuf, busyCbuf, cache
      ensures Valid() && Model() == WorkerClosed(old(Model()), i - 2)
    {
      fds := fds - {table[i].fd};
      agingIntervalMs := minAgingIntervalMs;
    }

    /** A good reply is kept and counted. */
    method StoreReply(i: nat, resp: seq<byte>)
      requires Valid() && InTable(i) && Awaiting(Model(), i - 2)
      modifies this, table, clientBuf, busyCbuf, cache
      ensures Valid() && Model() == Stored(old(Model()), i - 2, resp)
    {
      var b := NewEntry(i, resp);
      var ref := HandOut(i, Some(b));
      PutBlock(b, heap[b].(refcount := ref));
    }

    method HandOutNothing(i: nat)
      requires Valid() && InTable(i) && Awaiting(Model(), i - 2)
      modifies this, table, clientBuf, busyCbuf, cache
      ensures Valid() && Model() == NothingHandedOut(old(Model()), i - 2)
    {
      var _ := HandOut(i, None);
    }

    /** A worker that gave no good reply is done with. */
    method TakeNothing(i: nat, out: seq<byte>)
      requires Valid() && InTable(i) && Awaiting(Model(), i - 2) && !ValidReply(out)
      modifies this, table, clientBuf, busyCbuf, cache
      ensures Valid() && Model() == M.HandleWorkerResponse(old(Model()), i - 2, out)
    {
      BadReplyHandled(Model(), i - 2, out);
      CloseWorker(i);
      HandOutNothing(i);
    }

    method StoreHeard(i: nat, resp: seq<byte>, ghost heard: set<Answer>)
      requires Valid() && InTable(i) && Awaiting(Model(), i - 2)
      modifies this, table, clientBuf, busyCbuf, cache
      ensures Valid() && Model() == StoredHeard(old(Model()), i - 2, resp, heard)
    {
      StoreReply(i, resp);
      answers := answers + heard;
    }

    /** A good reply is kept, and its worker done with. */
    method TakeReply(i: nat, ghost out: seq<byte>, resp: seq<byte>, ghost heard: set<Answer>)
      requires Valid() && InTable(i) && Awaiting(Model(), i - 2) && ValidReply(out) && resp == ReplyBytes(out)
      requires heard == HeardFrom(Model(), i - 2, out)
      modifies this, table, clientBuf, busyCbuf, cache
      ensures Valid() && Model() == M.HandleWorkerResponse(old(Model()), i - 2, out)
    {
      GoodReplyHandled(Model(), i - 2, out, resp, heard);
      CloseWorker(i);
      StoreHeard(i, resp, heard);
    }

    method HandleWorkerResponse(i: nat, out: seq<byte>)
      requires Valid() && InTable(i) && Awaiting(Model(), i - 2)
      modifies this, table, clientBuf, busyCbuf, cache
      ensures Valid() && Model() == M.HandleWorkerResponse(old(Model()), i - 2, out)
    {
      var ok, resp := ReadReply(out);
      if ok {
        TakeReply(i, out, resp, HeardFrom(Model(), i - 2, out));
      } else {
        TakeNothing(i, out);
      }
    }

    // ------------------------------------------------------------ handle_client

    /** Starts a worker on the request of client i, which will be found at pp. */
    method StartWorker(i: nat, pp: CachePtr)
      requires Valid() && InTable(i) && table[i].bufidx < clientBuf.Length
      modifies this, table, clientBuf, busyCbuf, cache
      ensures Valid() && Model() == M.StartWorker(old(Model()), i - 2, pp)
    {
      var c := table[i];
      assert ClientAt(Model(), i - 2) == c;
      var worker := CreateAndFeedWorker(c.bufidx);
      PutEntry(i, c.(cachePp := pp, clientFd := c.fd, fd := worker));
    }

    /** A descriptor nobody has had before, with the request behind it. */
    method CreateAndFeedWorker(u: nat) returns (fd: int)
      requires Valid() && u < clientBuf.Length
      modifies this, table, clientBuf, busyCbuf, cache
      ensures Valid() && fd == old(nextFd)
      ensures Model() == old(Model()).(fds := old(fds)[fd := Pipe(old(clientBuf[u]))], nextFd := fd + 1)
    {
      fd := nextFd;
      fds := fds[nextFd := Pipe(clientBuf[u])];
      nextFd := nextFd + 1;
    }

    method JoinWaiters(i: nat, k: nat, owner: nat)
      requires Valid() && InTable(i) && k < cache.Length
      modifies this, table, clientBuf, busyCbuf, cache
      ensures Valid() && Model() == M.JoinWaiters(old(Model()), i - 2, k, owner)
    {
      var c := table[i];
      assert ClientAt(Model(), i - 2) == c;
      PutSlot(k, Future(owner, true));
      PutEntry(i, c.(cachePp := At(k), clientFd := c.fd, events := NO_EVENTS));
    }

    method Retain(i: nat, b: nat)
      requires Valid() && InTable(i) && b in heap
      modifies this, table, clientBuf, busyCbuf, cache
      ensures Valid() && Model() == M.Retain(old(Model()), i - 2, b)
    {
      var c := table[i];
      assert ClientAt(Model(), i - 2) == c;
      PutBlock(b, heap[b].(refcount := heap[b].refcount + 1));
      PutEntry(i, c.(events := POLLOUT, resptr := Some(b), cachePp := Taken));
    }

    method ServeAt(i: nat, pp: CachePtr) returns (ready: bool)
      requires Valid() && InTable(i) && table[i].bufidx < clientBuf.Length && PointerSafe(Model(), pp)
      modifies this, table, clientBuf, busyCbuf, cache
      ensures Valid() && (Model(), ready) == M.ServeAt(old(Model()), i - 2, pp)
    {
      assert ClientAt(Model(), i - 2) == table[i];
      ready := false;
      if pp.At? {
        var slot := cache[pp.slot];
        if slot.Done? {
          Retain(i, slot.blk);
          return true;
        }
        if slot.Future? && slot.buf != table[i].bufidx {
          JoinWaiters(i, pp.slot, slot.buf);
          return;
        }
      }
      StartWorker(i, pp);
    }

    method Serve(i: nat) returns (ready: bool)
      requires Valid() && Scannable(Model()) && InTable(i) && table[i].bufidx < clientBuf.Length
      modifies this, table, clientBuf, busyCbuf, cache
      ensures Valid() && (Model(), ready) == M.Serve(old(Model()), i - 2)
    {
      assert ClientAt(Model(), i - 2) == table[i];
      LookupSafe(Model(), table[i].bufidx);
      var pp := LookupInCache(table[i].bufidx);
      ready := ServeAt(i, pp);
    }

    method HandleClient(i: nat, ev: Event) returns (ready: bool)
      requires Valid() && InTable(i) && ReaderSafe(Model(), i - 2)
      modifies this, table, clientBuf, busyCbuf, cache
      ensures Valid() && (Model(), ready) == M.HandleClient(old(Model()), i - 2, ev)
    {
      ghost var s := Model();
      assert ClientAt(s, i - 2) == table[i];
      var req := clientBuf[table[i].bufidx];
      var verdict := Examine(cfg, req, ev);
      ready := false;
      match verdict
      case Drop =>
        CloseClient(i);
      case ReadMore =>
      case Exit =>
        exited := true;
      case FlushAll =>
        Invalidate(i);
      case Query(flush) =>
        ready := Answer(i, flush);
    }

    method Invalidate(i: nat)
      requires Valid() && InTable(i) && ReaderSafe(Model(), i - 2)
      modifies this, table, clientBuf, busyCbuf, cache
      ensures Valid() && Model() == M.CloseClient(M.AgeCache(old(Model()), All), i - 2)
    {
      AgeCache(All);
      CloseClient(i);
    }

    method Answer(i: nat, flush: bool) returns (ready: bool)
      requires Valid() && InTable(i) && ReaderSafe(Model(), i - 2)
      modifies this, table, clientBuf, busyCbuf, cache
      ensures var s := old(Model());
              var f := Service(KeySrv(KeyOf(BufAt(s, ClientAt(s, i - 2).bufidx))));
              Valid() && (Model(), ready) == M.Serve(if flush then M.AgeCache(s, f) else s, i - 2)
    {
      assert ClientAt(Model(), i - 2) == table[i];
      if flush {
        AgeCache(Service(KeySrv(KeyOf(clientBuf[table[i].bufidx]))));
      }
      ready := Serve(i);
    }

    // -------------------------------------------------------------- main_loop

    /** One write of what is left of an answer.  The version goes where the size
        of the reply is kept, and the size back in its place afterwards. */
    method SendRest(i: nat, w: WriteResult) returns (n: nat)
      requires Valid() && InTable(i) && Sendable(Model(), i - 2)
      modifies this, table, clientBuf, busyCbuf, cache
      ensures Valid()
      ensures n == if w.Took? then Min(w.n, Remaining(old(Model()), i - 2)) else 0
      ensures Model() == if n == 0 then old(Model()) else PieceSent(old(Model()), i - 2, n)
    {
      ghost var s := Model();
      var c := table[i];
      assert ClientAt(s, i - 2) == c;
      var b := c.resptr.value;
      var blk := heap[b];
      var size := U32(blk.resp, 0);
      PutBlock(b, blk.(resp := Le32(NSCD_VERSION) + blk.resp[4..]));
      n := if w.Took? then Min(w.n, size - c.respos) else 0;
      if n > 0 {
        PutSent(c.fd, heap[b].resp[c.respos..c.respos + n]);
      }
      PutBlock(b, heap[b].(resp := Le32(size) + heap[b].resp[4..]));
      SizeRestored(s.heap, b);
    }

    /** write() on the socket of a client. */
    method PutSent(fd: int, ghost piece: seq<byte>)
      requires Valid()
      modifies this, table, clientBuf, busyCbuf, cache
      ensures Valid() && Model() == old(Model()).(fds := old(fds)[fd := Sock(FdSent(old(Model()), fd) + piece)])
    {
      fds := fds[fd := Sock(FdSent(Model(), fd) + piece)];
    }

    /** The answer is out: the client has been served and is closed. */
    method FinishAnswer(i: nat)
      requires Valid() && InTable(i) && Closable(Model(), i - 2)
      modifies this, table, clientBuf, busyCbuf, cache
      ensures Valid() && Model() == M.CloseClient(NotedServed(old(Model()), i - 2), i - 2)
    {
      ghost var s := Model();
      served := served + [Served(table[i].fd, BufAt(s, table[i].bufidx), FdSent(s, table[i].fd))];
      assert Model() == NotedServed(s, i - 2);
      CloseClient(i);
    }

    method AdvanceRespos(i: nat, n: nat, ghost s: State)
      requires Valid() && InTable(i) && i - 2 < |s.clients| && Model() == PieceSent(s, i - 2, n)
      modifies this, table, clientBuf, busyCbuf, cache
      ensures Valid() && Model() == Progress(s, i - 2, n)
    {
      assert table[i] == s.clients[i - 2];
      PutEntry(i, table[i].(respos := table[i].respos + n));
    }

    method WriteOut(i: nat, w: WriteResult)
      requires Valid() && InTable(i) && Sendable(Model(), i - 2)
      modifies this, table, clientBuf, busyCbuf, cache
      ensures Valid() && Model() == M.WriteOut(old(Model()), i - 2, w)
    {
      ghost var s := Model();
      var c := table[i];
      assert ClientAt(s, i - 2) == c;
      var size := U32(heap[c.resptr.value].resp, 0);
      var n := SendRest(i, w);
      if w == WriteAgain {
        return;
      }
      if n == 0 {
        CloseClient(i);
        return;
      }
      AdvanceRespos(i, n, s);
      if c.respos + n >= size {
        FinishAnswer(i);
      }
    }

    /** read() on the socket of a client, to the end of its buffer. */
    method Receive(i: nat, data: seq<byte>)
      requires Valid() && InTable(i) && table[i].bufidx < clientBuf.Length
      modifies this, table, clientBuf, busyCbuf, cache
      ensures Valid() && Model() == Received(old(Model()), i - 2, data)
    {
      assert ClientAt(Model(), i - 2) == table[i];
      var u := table[i].bufidx;
      clientBuf[u] := clientBuf[u] + data;
      assert clientBuf[..] == old(clientBuf[..])[u := old(clientBuf[u]) + data];
    }

    /** Octets of a request are there to be read. */
    method ReadRequest(i: nat, ev: Event)
      requires Valid() && InTable(i) && RequestSafe(Model(), i - 2, ev)
      modifies this, table, clientBuf, busyCbuf, cache
      ensures Valid() && Model() == M.ReadRequest(old(Model()), i - 2, ev)
    {
      ghost var s := Model();
      assert ClientAt(s, i - 2) == table[i];
      match ev.read
      case ReadAgain =>
      case ReadFailed =>
        CloseClient(i);
      case Got(all) =>
        var have := |clientBuf[table[i].bufidx]|;
        var data := all[..Min(|all|, MAX_USER_REQ_SIZE - have)];
        assert data == ReadData(s, i - 2, all);
        if data == [] {
          CloseClient(i);
          return;
        }
        Receive(i, data);
        if have + |data| >= USER_HDR_SIZE {
          var ready := HandleClient(i, ev);
          if ready {
            WriteOut(i, ev.write);
          }
        }
    }

    /** Reads what the worker of client i has to say and starts on the answer. */
    method ReplyAndWrite(i: nat, ev: Event)
      requires Valid() && InTable(i) && Awaiting(Model(), i - 2)
      requires Sendable(M.HandleWorkerResponse(Model(), i - 2, ev.out), i - 2)
      modifies this, table, clientBuf, busyCbuf, cache
      ensures Valid() && Model() == M.WriteOut(M.HandleWorkerResponse(old(Model()), i - 2, ev.out), i - 2, ev.write)
    {
      HandleWorkerResponse(i, ev.out);
      WriteOut(i, ev.write);
    }

    /** One turn of the loop over the polled descriptors. */
    method HandleEvent(i: nat, ev: Event)
      requires Valid() && InTable(i) && TurnSafe(Model(), i - 2, ev)
      modifies this, table, clientBuf, busyCbuf, cache
      ensures Valid() && Model() == M.HandleEvent(old(Model()), i - 2, ev)
    {
      var c := table[i];
      var re := ev.revents;
      assert ClientAt(Model(), i - 2) == c;
      if exited || re == NO_EVENTS {
        return;
      }
      if re == POLLOUT {
        if c.resptr == None {
          CloseClient(i);
        } else {
          WriteOut(i, ev.write);
        }
      } else if re.pin && c.clientFd != 0 {
        ReplyAndWrite(i, ev);
      } else if re.phup && !re.pin {
        var isClient := c.clientFd == 0 || c.clientFd == c.fd;
        if isClient {
          CloseClient(i);
        } else {
          HandleWorkerResponse(i, ev.out);
        }
      } else if re != POLLIN {
        CloseClient(i);
      } else {
        ReadRequest(i, ev);
      }
    }

    /** One turn for every client that was polled or has just come. */
    method HandleEvents(evs: seq<Event>)
      requires Valid() && |evs| == numClients - 2 && TurnsSafe(Model(), evs)
      modifies this, table, clientBuf, busyCbuf, cache
      ensures Valid() && Model() == M.HandleEvents(old(Model()), evs, |evs|)
    {
      ghost var s := Model();
      var i := 2;
      while i < numClients
        invariant Valid() && 2 <= i <= numClients && |evs| == numClients - 2
        invariant Model() == M.HandleEvents(s, evs, i - 2)
      {
        assert TurnSafeAt(s, evs, i - 2);
        NextTurn(i, evs, s);
        i := i + 1;
      }
    }

    method NextTurn(i: nat, evs: seq<Event>, ghost s: State)
      requires Valid() && InTable(i) && i - 2 < |evs| == |s.clients|
      requires Model() == M.HandleEvents(s, evs, i - 2) && TurnSafeAt(s, evs, i - 2)
      modifies this, table, clientBuf, busyCbuf, cache
      ensures Valid() && Model() == M.HandleEvents(s, evs, i - 1) && |Model().clients| == |s.clients|
    {
      HandleEvent(i, evs[i - 2]);
    }

    // -------------------------------------------------------------- accepting

    /** x[num_clients] is the next free element. */
    method AddEntry(c: Client)
      requires Valid() && numClients < table.Length
      modifies this, table, clientBuf, busyCbuf, cache
      ensures Valid() && Model() == old(Model()).(clients := old(Model()).clients + [c])
    {
      table[numClients] := c;
      numClients := numClients + 1;
      assert table[2..numClients] == old(table[2..numClients]) + [c];
    }

    /** bytecnt becomes zero. */
    method ClearBuf(u: nat)
      requires Valid() && u < clientBuf.Length
      modifies this, table, clientBuf, busyCbuf, cache
      ensures Valid() && Model() == old(Model()).(bufs := old(Model()).bufs[u := []])
    {
      clientBuf[u] := [];
      assert clientBuf[..] == old(clientBuf[..])[u := []];
    }

    /** accept(): a descriptor nobody has had before. */
    method NewSocket() returns (cfd: int)
      requires Valid()
      modifies this, table, clientBuf, busyCbuf, cache
      ensures Valid() && cfd == old(nextFd)
      ensures Model() == old(Model()).(fds := old(fds)[cfd := Sock([])], nextFd := cfd + 1)
    {
      cfd := nextFd;
      fds := fds[nextFd := Sock([])];
      nextFd := nextFd + 1;
    }

    method Accept()
      requires Valid() && numClients < table.Length && nextBuf < busyCbuf.Length
      requires IdleFrom(busyCbuf[..], nextBuf, busyCbuf.Length) < busyCbuf.Length
      modifies this, table, clientBuf, busyCbuf, cache
      ensures Valid() && Model() == M.Accept(old(Model()))
    {
      var cfd := NewSocket();
      var u := AllocBufNo();
      ClearBuf(u);
      AddEntry(Client(cfd, POLLIN, 0, u, gNowMs, 0, None, Null));
      StopIfFull();
      AcceptSteps(old(Model()), u, Model());
    }

    /** A full table stops the listeners. */
    method StopIfFull()
      requires Valid()
      modifies this, table, clientBuf, busyCbuf, cache
      ensures Valid()
              && Model() == old(Model()).(accepting := old(accepting) && |old(Model()).clients| + 2 < cfg.maxReq)
    {
      if numClients >= cfg.maxReq {
        accepting := false;
      }
    }

    /** Both listening sockets: whether accept() gives a connection on each. */
    method AcceptBoth(a: bool, b: bool)
      requires Valid() && !exited && AcceptsSafe(Model(), a, b)
      modifies this, table, clientBuf, busyCbuf, cache
      ensures Valid() && Model() == M.AcceptBoth(old(Model()), a, b)
    {
      if a {
        Accept();
      }
      if b && numClients < cfg.maxReq {
        Accept();
      }
    }

    // ------------------------------------------------------- end of the round

    method AgeIfDue()
      requires Valid() && SafeSweep(Model().(lastAge := gNowMs, agingMs := INT_MAX), Expired)
      modifies this, table, clientBuf, busyCbuf, cache
      ensures Valid() && Model() == M.AgeIfDue(old(Model()))
    {
      if Sub32(gNowMs, lastAgeTime) >= agingIntervalMs {
        lastAgeTime := gNowMs;
        AgeCache(Expired);
      }
    }

    /** Closes the clients that timed out. */
    method Timeouts()
      requires Valid() && TimeoutsSafe(Model())
      modifies this, table, clientBuf, busyCbuf, cache
      ensures Valid() && Model() == M.Timeouts(old(Model()), |old(Model()).clients|)
    {
      ghost var s := Model();
      var i := 2;
      while i < numClients
        invariant Valid() && 2 <= i <= numClients == |s.clients| + 2
        invariant Model() == M.Timeouts(s, i - 2)
      {
        assert TimeoutSafe(s, i - 2);
        assert ClientAt(Model(), i - 2) == table[i];
        if table[i].fd != 0 && table[i].clientFd == 0 && Sub32(gNowMs, table[i].startedMs) > CLIENT_TIMEOUT_MS {
          CloseClient(i);
        }
        i := i + 1;
      }
    }

    /** The inner loop: the next open client at or after entry i. */
    method NextOpen(i: nat, ghost was: seq<Client>, ghost m: nat, ghost p: nat) returns (k: nat)
      requires Valid() && InTable(i) && ShiftedSoFar(was, m, table[2..numClients], p, i - 2)
      ensures i <= k <= numClients && (k < numClients ==> table[k].fd != 0)
      ensures ShiftedSoFar(was, m, table[2..numClients], p, k - 2)
    {
      k := i;
      while table[k].fd == 0
        invariant i <= k < numClients && ShiftedSoFar(was, m, table[2..numClients], p, k - 2)
        decreases numClients - k
      {
        SkipClosed(was, m, table[2..numClients], p, k - 2);
        k := k + 1;
        if k >= numClients {
          return;
        }
      }
    }

    /** One turn of the outer loop: the next open client is moved to entry j. */
    method ShiftOne(j: nat, i: nat, ghost was: seq<Client>, ghost m: nat) returns (j1: nat, i1: nat)
      requires Valid() && InTable(j) && InTable(i) && j < i
      requires ShiftedSoFar(was, m, table[2..numClients], j - 2, i - 2)
      modifies table
      ensures 2 <= j1 < i1 <= numClients && i1 > i
      ensures ShiftedSoFar(was, m, table[2..numClients], j1 - 2, i1 - 2)
    {
      ghost var now, p := table[2..numClients], j - 2;
      j1 := j;
      i1 := NextOpen(i, was, m, p);
      if i1 < numClients {
        ghost var q := i1 - 2;
        MoveEntry(j, i1);
        MoveDown(was, m, now, p, q, table[2..numClients]);
        j1, i1 := j + 1, i1 + 1;
      }
    }

    /** The nested loops that move the open clients down over the closed ones. */
    method ShiftDown()
      requires Valid() && 2 <= minClosed < numClients && minClosed + cntClosed < numClients
      modifies table
      ensures table[2..numClients] == Shifted(old(table[2..numClients]), minClosed - 2)
    {
      ghost var was, m := table[2..numClients], minClosed - 2;
      var j, i := minClosed, minClosed + 1;
      NothingShifted(was, m);
      while i < numClients
        invariant 2 <= j < i <= numClients
        invariant ShiftedSoFar(was, m, table[2..numClients], j - 2, i - 2)
      {
        j, i := ShiftOne(j, i, was, m);
      }
      AllShifted(was, m, table[2..numClients], j - 2, i - 2);
    }

    method MoveEntry(j: nat, i: nat)
      requires Valid() && InTable(j) && InTable(i)
      modifies table
      ensures table[2..numClients] == old(table[2..numClients])[j - 2 := old(table[2..numClients])[i - 2]]
    {
      table[j] := table[i];
    }

    /** The closed entries, now at the end, are cut off. */
    method CutOff()
      requires Valid() && cntClosed <= numClients - 2
      modifies this, table, clientBuf, busyCbuf, cache
      ensures Valid() && Model() == EndCut(old(Model()))
    {
      CutTable(numClients - cntClosed);
      ForgetClosed();
    }

    method CutTable(n: nat)
      requires Valid() && 2 <= n <= numClients
      modifies this, table, clientBuf, busyCbuf, cache
      ensures Valid() && Model() == old(Model()).(clients := old(Model()).clients[..n - 2])
    {
      numClients := n;
      assert table[2..numClients] == old(table[2..numClients])[..n - 2];
    }

    method ForgetClosed()
      requires Valid()
      modifies this, table, clientBuf, busyCbuf, cache
      ensures Valid() && Model() == old(Model()).(minClosed := INT_MAX, cntClosed := 0, accepting := true)
    {
      minClosed := INT_MAX;
      cntClosed := 0;
      accepting := true;
    }

    method MoveOpen()
      requires Valid() && 2 <= minClosed < numClients
      modifies this, table, clientBuf, busyCbuf, cache
      ensures Valid() && Model() == OpenMoved(old(Model()))
    {
      if minClosed + cntClosed < numClients {
        ShiftDown();
      }
    }

    method Coalesce()
      requires Valid() && CoalesceSafe(Model())
      modifies this, table, clientBuf, busyCbuf, cache
      ensures Valid() && Model() == M.Coalesce(old(Model()))
    {
      CoalescedIs(Model());
      if cntClosed != 0 {
        MoveOpen();
        CutOff();
      }
    }

    // ------------------------------------------------------------- main_loop

    method Tail()
      requires Valid() && !exited && TailSafe(Model())
      modifies this, table, clientBuf, busyCbuf, cache
      ensures Valid() && Model() == M.Tail(old(Model()))
    {
      AgeIfDue();
      Timeouts();
      Coalesce();
    }

    method SetNow(now: nat)
      requires Valid()
      modifies this, table, clientBuf, busyCbuf, cache
      ensures Valid() && Model() == old(Model()).(now := now)
    {
      gNowMs := now;
    }

    /** Accepts and looks at every descriptor. */
    method CheckFds(a: bool, b: bool, evs: seq<Event>)
      requires Valid() && !exited && FdsSafe(Model(), a, b, evs)
      modifies this, table, clientBuf, busyCbuf, cache
      ensures Valid()
      ensures var s := old(Model());
              var s1 := M.AcceptBoth(s, a, b);
              Model() == M.HandleEvents(s1, ForcedIn(evs, |s.clients|), |s1.clients|)
    {
      ghost var s := Model();
      ghost var s1 := M.AcceptBoth(s, a, b);
      var forced := ForcedIn(evs, numClients - 2);
      FdsParts(s, a, b, evs, s1, forced);
      AcceptBoth(a, b);
      HandleEvents(forced);
    }

    /** One round: what poll() and accept() give, and what follows. */
    method Round(p: Poll)
      requires Valid() && RoundSafe(Model(), p)
      modifies this, table, clientBuf, busyCbuf, cache
      ensures Valid() && Model() == M.Round(old(Model()), p)
    {
      if exited {
        return;
      }
      match p
      case Interrupted =>
      case NothingReady(now) =>
        SetNow(now);
        Tail();
      case Ready(now, a, b, evs) =>
        SetNow(now);
        CheckFds(a, b, evs);
        if !exited {
          Tail();
        }
    }

    method PollTimeoutMs() returns (r: Option<nat>)
      requires Valid()
      ensures r == PollTimeout(Model())
    {
      r := Some(SMALL_POLL_TIMEOUT_MS);
      if numClients <= 2 && cachedCnt == 0 {
        r := None;
      } else if numClients < cfg.maxReq {
        r := Some(agingIntervalMs);
      }
    }

    /** The loop, for as long as these polls last. */
    method MainLoop(polls: seq<Poll>)
      requires Valid() && RunSafe(Model(), polls)
      modifies this, table, clientBuf, busyCbuf, cache
      ensures Valid() && Model() == Run(old(Model()), polls)
    {
      ghost var s := Model();
      var n := 0;
      while n < |polls|
        invariant Valid() && n <= |polls| && Model() == Run(s, polls[..n])
      {
        assert RunSafeAt(s, polls, n);
        Round(polls[n]);
        assert polls[..n + 1][..n] == polls[..n];
        n := n + 1;
      }
      assert polls[..n] == polls;
    }

    /** main() up to the loop. */
    constructor (config: Config, now: nat)
      requires ConfigOk(config)
      ensures Valid() && Model() == Init(config, now)
      ensures fresh(table) && fresh(clientBuf) && fresh(busyCbuf) && fresh(cache)
    {
      cfg := config;
      table := new Client[config.maxReq](_ => NO_CLIENT);
      clientBuf := new seq<byte>[config.maxReq](_ => []);
      busyCbuf := new bool[config.maxReq](_ => false);
      cache := new Slot[8 * config.cacheSize](_ => Empty);
      numClients, accepting, nextBuf := 2, true, 0;
      heap, nextId, fds, nextFd := map[], 0, map[], 1;
      cntClosed, minClosed, cachedCnt, cacheAccessCnt, cacheHitCnt := 0, INT_MAX, 0, 1, 1;
      gNowMs, lastAgeTime, exited := now, 0, false;
      answers, served, failedFills := {}, [], 0;
      var least := config.nttl.passwd;
      if least > config.nttl.group {
        least := config.nttl.group;
      }
      if least > config.nttl.hosts {
        least := config.nttl.hosts;
      }
      minAgingIntervalMs := if least / 2 % 2 == 0 then least / 2 + 1 else least / 2;
      agingIntervalMs := minAgingIntervalMs;
    }
  }

  /** The first read decides, but for the length of what is still to come. */
  lemma HeadDecides(out: seq<byte>, head: seq<byte>, rest: seq<byte>, sz: nat, n: nat)
    requires out == head + rest && sz == |head| == (if |out| < FIRST_READ_SIZE then |out| else FIRST_READ_SIZE)
    requires sz >= 8 && n == U32(head, 0)
    ensures ValidReply(out) <==> sz <= n <= MAX_REPLY_SIZE && (U32(head, 4) != 0 && n > sz ==> n - sz <= |rest|)
    ensures ValidReply(out) && U32(head, 4) != 0 && n > sz ==> ReplyBytes(out) == head + rest[..n - sz]
    ensures ValidReply(out) && !(U32(head, 4) != 0 && n > sz) ==> ReplyBytes(out) == head + Zeros(n - sz)
  {
    assert U32(out, 0) == n && U32(out, 4) == U32(head, 4) && out[..sz] == head;
    if sz <= n <= |out| { assert out[..n] == head + rest[..n - sz]; }
  }

  /** Both reads from the worker, in whatever pieces its output comes. */
  method ReadReply(out: seq<byte>) returns (ok: bool, resp: seq<byte>)
    ensures ok == ValidReply(out)
    ensures ok ==> resp == ReplyBytes(out)
  {
    var worker := new Stream(out, false);
    ok, resp := false, [];
    var sz, head := worker.FullRead(FIRST_READ_SIZE);
    if sz < 8 {
      return;
    }
    var respSz := U32(head, 0);
    ghost var rest := worker.pending;
    HeadDecides(out, head, rest, sz, respSz);
    if respSz < sz || respSz > MAX_REPLY_SIZE {
      return;
    }
    resp := head + Zeros(respSz - sz);
    if U32(head, 4) != 0 && respSz > sz {
      var got, body := worker.FullRead(respSz - sz);
      if got != respSz - sz {
        return;
      }
      assert body == rest[..got];
      resp := head + body;
    }
    ok := true;
  }

  function RefsOf(s: State, i: nat): nat {
    if ClientAt(s, i).cachePp.At? then |WakeSet(s, i)| else 0
  }

  /** The slot and the clients waiting for it get the result. */
  function HandedOut(s: State, i: nat, cached: Option<nat>): State {
    var c := ClientAt(s, i);
    s.(cache := if c.cachePp.At? then Put(s.cache, c.cachePp.slot, if cached.Some? then Done(cached.value) else Empty)
        else s.cache,
       failedFills := if c.cachePp.At? && cached == None then s.failedFills + 1 else s.failedFills,
       clients := Woken(s.clients, WakeSet(s, i), cached, s.now))
  }

  predicate SharedAt(s: State, i: nat) {
    ClientAt(s, i).cachePp.At? && SharedSlot(s, ClientAt(s, i).cachePp.slot)
  }

  /** The slot of client i gets the result. */
  function Filled(s: State, i: nat, cached: Option<nat>): State {
    var pp := ClientAt(s, i).cachePp;
    if pp.At? then
      s.(cache := Put(s.cache, pp.slot, if cached.Some? then Done(cached.value) else Empty),
         failedFills := if cached.Some? then s.failedFills else s.failedFills + 1)
    else s
  }

  lemma HandOutSteps(s: State, i: nat, cached: Option<nat>, r: State)
    requires r == Filled(s, i, cached)
    ensures WakeSet(s, i) == if SharedAt(s, i) then Matching(r.clients, ClientAt(r, i).cachePp.slot) else {i}
    ensures r.(clients := Woken(r.clients, WakeSet(s, i), cached, r.now)) == HandedOut(s, i, cached)
  {
  }

  function Entered(s: State, i: nat, resp: seq<byte>): State {
    s.(heap := s.heap[s.nextId := Block(KeyOf(BufAt(s, ClientAt(s, i).bufidx)), resp, 0, s.now / 256)],
        nextId := s.nextId + 1)
  }

  function WorkerClosed(s: State, i: nat): State {
    s.(fds := s.fds - {ClientAt(s, i).fd}, agingMs := s.minAgingMs)
  }

  function NothingHandedOut(s: State, i: nat): State {
    HandedOut(s, i, None)
  }

  function HeardFrom(s: State, i: nat, out: seq<byte>): set<Answer> {
    {Answer(KeyOf(FedTo(s, ClientAt(s, i).fd)), out)}
  }

  function Stored(s: State, i: nat, resp: seq<byte>): State {
    var s1 := Entered(s, i, resp);
    var s2 := HandedOut(s1, i, Some(s.nextId));
    s2.(heap := s2.heap[s.nextId := Blk(s2, s.nextId).(refcount := RefsOf(s1, i))])
  }

  lemma SameWakeSet(s: State, r: State, i: nat)
    requires r.clients == s.clients && r.cache == s.cache
    ensures WakeSet(r, i) == WakeSet(s, i)
  {
  }

  /** Entering, handing out and counting a block, whatever is handed out. */
  lemma BlockStored(s: State, i: nat, resp: seq<byte>, r: State, ref: nat)
    requires r == HandedOut(Entered(s, i, resp), i, Some(s.nextId))
    ensures r.heap[s.nextId := Blk(r, s.nextId).(refcount := ref)] ==
            s.heap[s.nextId := Block(KeyOf(BufAt(s, ClientAt(s, i).bufidx)), resp, ref, s.now / 256)]
  {
  }

  function StoredHeard(s: State, i: nat, resp: seq<byte>, heard: set<Answer>): State {
    Stored(s, i, resp).(answers := s.answers + heard)
  }

  /** The steps of handle_worker_response(), put together. */
  lemma BadReplyHandled(s: State, i: nat, out: seq<byte>)
    requires !ValidReply(out) && Awaiting(s, i)
    ensures Awaiting(WorkerClosed(s, i), i)
    ensures NothingHandedOut(WorkerClosed(s, i), i) == M.HandleWorkerResponse(s, i, out)
  {
    SameWakeSet(s, WorkerClosed(s, i), i);
  }

  lemma GoodReplyHandled(s: State, i: nat, out: seq<byte>, resp: seq<byte>, heard: set<Answer>)
    requires ValidReply(out) && resp == ReplyBytes(out) && heard == HeardFrom(s, i, out) && Awaiting(s, i)
    ensures Awaiting(WorkerClosed(s, i), i)
    ensures StoredHeard(WorkerClosed(s, i), i, resp, heard) == M.HandleWorkerResponse(s, i, out)
  {
    var s1 := WorkerClosed(s, i);
    var s2 := Entered(s1, i, resp);
    SameWakeSet(s, s1, i);
    SameWakeSet(s, s2, i);
    BlockStored(s1, i, resp, HandedOut(s2, i, Some(s1.nextId)), RefsOf(s2, i));
  }

  /** The first j entries have been looked at by the wake-up loop. */
  ghost predicate WokenUpTo(was: seq<Client>, k: nat, j: nat, cached: Option<nat>, t: nat, now: seq<Client>) {
    && |now| == |was|
    && forall m :: 0 <= m < |was| ==>
         now[m] == if m < j && was[m].cachePp == At(k) then Prepared(Unmatched(was[m]), cached, t) else was[m]
  }

  lemma WokenMore(was: seq<Client>, k: nat, j: nat, cached: Option<nat>, t: nat, now: seq<Client>, next: seq<Client>)
    requires WokenUpTo(was, k, j, cached, t, now) && j < |was|
    requires next == if now[j].cachePp == At(k) then now[j := Prepared(Unmatched(now[j]), cached, t)] else now
    ensures WokenUpTo(was, k, j + 1, cached, t, next)
  {
  }

  lemma AllWoken(was: seq<Client>, k: nat, j: nat, cached: Option<nat>, t: nat, now: seq<Client>)
    requires WokenUpTo(was, k, j, cached, t, now) && j == |was|
    ensures was[..j] == was && now == Woken(was, Matching(was, k), cached, t)
  {
  }

  lemma MatchingStep(clients: seq<Client>, k: nat, n: nat)
    requires n < |clients|
    ensures |Matching(clients[..n + 1], k)| == |Matching(clients[..n], k)| +
            if clients[n].cachePp == At(k) then 1 else 0
  {
    var all, less := Matching(clients[..n + 1], k), Matching(clients[..n], k);
    assert all == if clients[n].cachePp == At(k) then less + {n} else less;
  }

  /** The checks of handle_client() up to the cache lookup. */
  method Examine(cfg: Config, req: seq<byte>, ev: Event) returns (v: Verdict)
    ensures v == Judge(cfg, req, ev)
  {
    if |req| < USER_HDR_SIZE {
      return ReadMore;
    }
    var version, t, keyLen := U32(req, 0), U32(req, 4), U32(req, 8);
    if version != NSCD_VERSION {
      return Drop;
    }
    if keyLen > MAX_KEY_LEN {
      return Drop;
    }
    if |req| < USER_HDR_SIZE + keyLen {
      return ReadMore;
    }
    if |req| > USER_HDR_SIZE + keyLen {
      return Drop;
    }
    if UnsupportedType(t) {
      return Drop;
    }
    if t == SHUTDOWN || t == INVALIDATE {
      if !ev.callerIsRoot {
        return Drop;
      }
      if t == SHUTDOWN {
        return Exit;
      }
      if keyLen == 0 || req[USER_HDR_SIZE + keyLen - 1] != 0 {
        return Drop;
      }
      return FlushAll;
    }
    var srv := SrvOf(t);
    if !cfg.srvEnable.Of(srv) {
      return Drop;
    }
    if t != GETHOSTBYADDR && t != GETHOSTBYADDRv6 {
      if keyLen != 0 && req[USER_HDR_SIZE + keyLen - 1] != 0 {
        return Drop;
      }
    }
    v := Query(cfg.checkFiles.Of(srv) && ev.filesChanged);
  }

  ghost predicate PointerSafe(s: State, pp: CachePtr) {
    pp.At? ==> pp.slot < |s.cache| && (s.cache[pp.slot].Done? ==> s.cache[pp.slot].blk in s.heap)
  }

  lemma LookupSafe(s: State, u: nat)
    requires Scannable(s)
    ensures PointerSafe(Lookup(s, u).0, Lookup(s, u).1)
  {
    var s1 := CountAccess(s);
    var key := KeyOf(BufAt(s, u));
    StillScannable(s);
    LineInCache(s1, key);
    OutcomeSafe(s1, key);
    if ScanLine(s1, key).Found? { assert SlotSafe(s1, ScanLine(s1, key).k); }
  }

  ghost predicate Closable(s: State, j: nat) {
    j < |s.clients| && s.clients[j].fd != 0 ==>
      && s.clients[j].bufidx < |s.busy|
      && (s.clients[j].resptr.Some? ==> s.clients[j].resptr.value in s.heap)
  }

  /** What a slot leads to is there. */
  ghost predicate SlotSafe(s: State, k: nat) {
    && (SlotAt(s, k).Done? ==> SlotAt(s, k).blk in s.heap)
    && (SlotAt(s, k).Future? ==> SlotAt(s, k).buf < |s.bufs|)
  }

  /** lookup_in_cache() runs safely. */
  ghost predicate Scannable(s: State) {
    && 0 < s.cfg.cacheSize && |s.cache| == 8 * s.cfg.cacheSize
    && 1 <= s.hitCnt <= s.accessCnt
    && forall k: nat :: SlotSafe(s, k)
  }

  lemma StillScannable(s: State)
    requires Scannable(s)
    ensures Scannable(CountAccess(s))
  {
    forall k: nat ensures SlotSafe(CountAccess(s), k) { assert SlotSafe(s, k); }
  }

  lemma CoreScannable(s: State)
    requires Core(s) && HitsOk(s)
    ensures Scannable(s)
  {
    forall k: nat ensures SlotSafe(s, k) { assert SlotOk(s, k); }
  }

  lemma LineInCache(s: State, key: seq<byte>)
    requires Scannable(s)
    ensures BaseOf(s, key) + 8 <= |s.cache|
  {
    assert LineOf(key, s.cfg.cacheSize) + 1 <= s.cfg.cacheSize;
  }

  lemma OutcomeSafe(s: State, key: seq<byte>)
    requires Scannable(s)
    ensures match ScanLine(s, key)
            case Free(f) => f < |s.cache|
            case Evict(o) => o < |s.cache| && s.cache[o].Done? && s.cache[o].blk in s.heap
            case _ => true
  {
    LineInCache(s, key);
    if ScanLine(s, key).Evict? { assert SlotSafe(s, ScanLine(s, key).o); }
  }

  /** handle_client() runs safely for client i. */
  ghost predicate ReaderSafe(s: State, i: nat) {
    && i < |s.clients| && s.clients[i].bufidx < |s.bufs| && Closable(s, i) && s.clients[i].resptr == None
    && SafeSweep(s.(agingMs := INT_MAX), All)
    && M.AgeCache(s, All).clients == s.clients
    && Scannable(s)
    && var f := Service(KeySrv(KeyOf(BufAt(s, s.clients[i].bufidx))));
       && SafeSweep(s.(agingMs := INT_MAX), f)
       && M.AgeCache(s, f).clients == s.clients
       && Scannable(M.AgeCache(s, f))
  }

  lemma ReadersAreSafe(s: State, i: nat)
    requires Inv(s) && i < |s.clients| && IsReading(s.clients[i])
    ensures ReaderSafe(s, i)
  {
    var f := Service(KeySrv(AskedKey(s, i)));
    assert EntryOk(s, i);
    SweepIsSafe(s, All);
    SweepIsSafe(s, f);
    ClientsAfterSweep(s, All);
    ClientsAfterSweep(s, f);
    SweptCache(s, f);
    CoreScannable(s);
    CoreScannable(M.AgeCache(s, f));
  }

  /** The slot the sweep comes to holds no freed block. */
  ghost predicate SafeAt(s: State, k: nat, f: Flush) {
    SlotAt(AgeSlots(s, k, f), k).Done? ==> SlotAt(AgeSlots(s, k, f), k).blk in AgeSlots(s, k, f).heap
  }

  ghost predicate SafeSweep(s: State, f: Flush) {
    forall k: nat :: SafeAt(s, k, f)
  }

  lemma SweepIsSafe(s: State, f: Flush)
    requires Core(s) && Counts(s)
    ensures SafeSweep(s.(agingMs := INT_MAX), f)
  {
    var r := s.(agingMs := INT_MAX);
    CoreFrame(s, r);
    CachedFrame(s, r);
    ClosedFrame(s, r);
    forall k: nat ensures SafeAt(r, k, f) {
      SweepAll(r, k, f);
      assert SlotOk(AgeSlots(r, k, f), k);
    }
  }

  // ------------------------------------------------------------ safe writes

  /** The octets of a piece of the answer go out. */
  function PieceSent(s: State, i: nat, n: nat): State {
    var c := ClientAt(s, i);
    var resp := Blk(s, c.resptr.GetOr(0)).resp;
    var piece := if c.respos + n <= |resp| then Wire(resp)[c.respos..c.respos + n] else [];
    s.(fds := s.fds[c.fd := Sock(FdSent(s, c.fd) + piece)])
  }

  function NotedServed(s: State, i: nat): State {
    var c := ClientAt(s, i);
    s.(served := s.served + [Served(c.fd, BufAt(s, c.bufidx), FdSent(s, c.fd))])
  }

  /** Client i has an answer, with its size in front, to be written to it. */
  ghost predicate Sendable(s: State, i: nat) {
    && i < |s.clients|
    && var c := s.clients[i];
       && c.fd != 0 && c.bufidx < |s.busy| && c.bufidx < |s.bufs|
       && c.resptr.Some? && c.resptr.value in s.heap
       && var resp := s.heap[c.resptr.value].resp;
          |resp| >= 8 && U32(resp, 0) == |resp| && c.respos <= |resp|
  }

  lemma SendersAreSafe(s: State, i: nat)
    requires Inv(s) && CanSend(s, i, 0)
    ensures Sendable(s, i)
  {
    assert EntryOk(s, i) && BlockOk(s, s.clients[i].resptr.value);
  }

  lemma LowOctet(n: nat, m: nat, d: byte)
    requires n == 256 * m + d
    ensures n % 256 == d && n / 256 == m
  {
  }

  /** A 32-bit word is made of its octets. */
  lemma Le32OfU32(b: seq<byte>)
    requires |b| >= 4
    ensures Le32(U32(b, 0)) == b[..4]
  {
    var n := U32(b, 0);
    var m3: nat := b[3] as int;
    var m2: nat := b[2] as int + 256 * m3;
    var m1: nat := b[1] as int + 256 * m2;
    LowOctet(n, m1, b[0]);
    LowOctet(m1, m2, b[1]);
    LowOctet(m2, m3, b[2]);
    assert n / 0x1_0000 == n / 256 / 256 && n / 0x100_0000 == n / 256 / 256 / 256;
  }

  lemma SizeRestored(heap: map<nat, Block>, b: nat)
    requires b in heap && |heap[b].resp| >= 4
    ensures var size := U32(heap[b].resp, 0);
            var lent := heap[b].(resp := Le32(NSCD_VERSION) + heap[b].resp[4..]);
            heap[b := lent][b := lent.(resp := Le32(size) + lent.resp[4..])] == heap
  {
    var resp := heap[b].resp;
    Le32OfU32(resp);
    assert (Le32(NSCD_VERSION) + resp[4..])[4..] == resp[4..];
    assert resp == resp[..4] + resp[4..];
  }

  /** The steps of a turn that reads from client i run safely. */
  ghost predicate RequestSafe(s: State, i: nat, ev: Event) {
    && i < |s.clients| && s.clients[i].bufidx < |s.bufs| && |BufAt(s, s.clients[i].bufidx)| <= MAX_USER_REQ_SIZE
    && Closable(s, i)
    && (ev.read.Got? ==>
          var s1 := Received(s, i, ReadData(s, i, ev.read.data));
          var (s2, ready) := M.HandleClient(s1, i, ev);
          ReaderSafe(s1, i) && |s2.clients| == |s1.clients| && (ready ==> Sendable(s2, i)))
  }

  lemma RequestsAreSafe(s: State, i: nat, ev: Event)
    requires Inv(s) && i < |s.clients| && IsReading(s.clients[i])
    ensures RequestSafe(s, i, ev)
  {
    assert EntryOk(s, i);
    if ev.read.Got? {
      var data := ReadData(s, i, ev.read.data);
      var s1 := Received(s, i, data);
      ReceiveInv(s, i, data);
      ReadersAreSafe(s1, i);
      HandleClientInv(s1, i, ev);
      HandleClientOnly(s1, i, ev);
      var (s2, ready) := M.HandleClient(s1, i, ev);
      if ready { SendersAreSafe(s2, i); }
    }
  }

  // -------------------------------------------------------------- safe turns

  /** Client i waits for a worker of its own. */
  ghost predicate Awaiting(s: State, i: nat) {
    && i < |s.clients|
    && var c := s.clients[i];
       && c.cachePp != Taken && c.bufidx < |s.bufs|
       && (c.cachePp.At? ==> c.cachePp.slot < |s.cache|)
  }

  ghost predicate TurnSafe(s: State, i: nat, ev: Event) {
    && i < |s.clients|
    && var c, re := s.clients[i], ev.revents;
       var answers := re != POLLOUT && re.pin && c.clientFd != 0;
       var hungUp := re.phup && !re.pin && c.clientFd != 0 && c.clientFd != c.fd;
       !s.exited && re != NO_EVENTS ==>
         && Closable(s, i)
         && (re == POLLOUT && c.resptr.Some? ==> Sendable(s, i))
         && (answers || hungUp ==> Awaiting(s, i))
         && (answers ==> Sendable(M.HandleWorkerResponse(s, i, ev.out), i))
         && (re == POLLIN && c.clientFd == 0 ==> RequestSafe(s, i, ev))
  }

  lemma OwnersAreSafe(s: State, i: nat, ev: Event)
    requires Inv(s) && Owning(s, i) && WakeSafe(s, i) && PollOk(s.clients[i], ev)
    ensures TurnSafe(s, i, ev)
  {
    assert EntryOk(s, i);
    if ev.revents.pin {
      OwnerReply(s, i, ev.out, M.HandleWorkerResponse(s, i, ev.out));
      SendersAreSafe(M.HandleWorkerResponse(s, i, ev.out), i);
    }
  }

  /** A turn on a worker's pipe that shows POLLIN is safe if and only if a valid
      reply is what comes out of it: otherwise the code goes on to write an
      answer that is not there. */
  lemma AnswerSafeIff(s: State, i: nat, ev: Event)
    requires Inv(s) && Owning(s, i) && WakeSafe(s, i) && !s.exited
    requires PollOffers(s.clients[i], ev) && ev.revents.pin
    ensures TurnSafe(s, i, ev) <==> ValidReply(ev.out)
  {
    assert EntryOk(s, i);
    if ValidReply(ev.out) {
      OwnersAreSafe(s, i, ev);
    } else {
      DeliverEffect(s, i, ev.out);
      WakeSetOk(s, i);
    }
  }

  lemma ClientsAreSafe(s: State, i: nat, ev: Event)
    requires Inv(s) && i < |s.clients| && s.clients[i].fd != 0 && !IsOwner(s.clients[i]) && PollOk(s.clients[i], ev)
    ensures TurnSafe(s, i, ev)
  {
    assert EntryOk(s, i);
    if ev.revents == POLLOUT && s.clients[i].resptr.Some? { SendersAreSafe(s, i); }
    if ev.revents == POLLIN { RequestsAreSafe(s, i, ev); }
  }

  ghost predicate TurnSafeAt(s: State, evs: seq<Event>, p: nat) {
    p < |evs| ==>
      TurnSafe(M.HandleEvents(s, evs, p), p, evs[p]) && |M.HandleEvents(s, evs, p + 1).clients| == |s.clients|
  }

  ghost predicate TurnsSafe(s: State, evs: seq<Event>) {
    forall p: nat :: TurnSafeAt(s, evs, p)
  }

  lemma TurnsAreSafe(s: State, evs: seq<Event>)
    requires Inv(s) && NoneClosed(s) && NoRace(s, evs) && AllReported(s, evs) && |evs| == |s.clients|
    ensures TurnsSafe(s, evs)
  {
    forall p: nat ensures TurnSafeAt(s, evs, p) {
      if p < |evs| { OneTurnIsSafe(s, evs, p, p + 1); }
    }
  }

  lemma OneTurnIsSafe(s: State, evs: seq<Event>, p: nat, q: nat)
    requires Inv(s) && NoneClosed(s) && NoRace(s, evs) && AllReported(s, evs) && |evs| == |s.clients|
    requires p < |evs| && q == p + 1
    ensures TurnSafe(M.HandleEvents(s, evs, p), p, evs[p]) && |M.HandleEvents(s, evs, q).clients| == |s.clients|
  {
    EventsInv(s, evs, p);
    EventsInv(s, evs, q);
    assert Reported(s, evs, p);
    TurnIsSafe(s, evs, p, M.HandleEvents(s, evs, p));
  }

  lemma TurnIsSafe(s: State, evs: seq<Event>, p: nat, t: State)
    requires Inv(s) && NoneClosed(s) && NoRace(s, evs) && Reported(s, evs, p) && |evs| == |s.clients|
    requires After(s, evs, p, t) && p < |s.clients|
    ensures TurnSafe(t, p, evs[p])
  {
    assert Later(s, t, p, p) && EntryOk(s, p);
    PollStillOk(s.clients[p], t.clients[p], evs[p], s);
    if !t.exited && evs[p].revents != NO_EVENTS {
      if IsOwner(t.clients[p]) {
        SafeAtTurn(s, evs, p, t);
        OwnersAreSafe(t, p, evs[p]);
      } else {
        ClientsAreSafe(t, p, evs[p]);
      }
    }
  }

  // -------------------------------------------------- safe ends of the round

  ghost predicate AcceptSafe(s: State) {
    && |s.clients| + 2 < s.cfg.maxReq && s.nextBuf < |s.busy|
    && IdleFrom(s.busy, s.nextBuf, |s.busy|) < |s.busy|
  }

  ghost predicate AcceptsSafe(s: State, a: bool, b: bool) {
    var s1 := if a then M.Accept(s) else s;
    (a ==> AcceptSafe(s)) && !s1.exited && (b && |s1.clients| + 2 < s.cfg.maxReq ==> AcceptSafe(s1))
  }

  lemma AcceptsAreSafe(s: State, a: bool, b: bool)
    requires Inv(s) && NoneClosed(s) && !s.exited && (a || b ==> s.accepting)
    ensures AcceptsSafe(s, a, b)
  {
    var s1 := if a then M.Accept(s) else s;
    if a {
      BufferAvailable(s);
      AcceptedMore(s, s1);
    }
    if b && |s1.clients| + 2 < s.cfg.maxReq { BufferAvailable(s1); }
  }

  lemma AcceptSteps(s: State, u: nat, r: State)
    requires u == IdleFrom(s.busy, s.nextBuf, |s.busy|) < |s.busy| == |s.bufs|
    requires r == s.(clients := s.clients + [Client(s.nextFd, POLLIN, 0, u, s.now, 0, None, Null)],
                     fds := s.fds[s.nextFd := Sock([])], nextFd := s.nextFd + 1, bufs := s.bufs[u := []],
                     busy := s.busy[u := true], nextBuf := NextBuf(u, |s.busy|),
                     accepting := s.accepting && |s.clients| + 3 < s.cfg.maxReq)
    ensures r == M.Accept(s)
  {
  }

  ghost predicate TimeoutSafe(s: State, p: nat) {
    p < |s.clients| ==> Closable(M.Timeouts(s, p), p) && |M.Timeouts(s, p + 1).clients| == |s.clients|
  }

  ghost predicate TimeoutsSafe(s: State) {
    forall p: nat :: TimeoutSafe(s, p)
  }

  lemma {:induction false} TimeoutsKeepSize(s: State, p: nat)
    ensures |M.Timeouts(s, p).clients| == |s.clients|
  {
    if p > 0 { TimeoutsKeepSize(s, p - 1); }
  }

  lemma TimeoutsAreSafe(s: State)
    requires Inv(s)
    ensures TimeoutsSafe(s)
  {
    forall p: nat ensures TimeoutSafe(s, p) {
      TimeoutsInv(s, p);
      TimeoutsKeepSize(s, p);
      TimeoutsKeepSize(s, p + 1);
      assert EntryOk(M.Timeouts(s, p), p);
    }
  }

  /** The counters describe closed entries that are in the table. */
  ghost predicate CoalesceSafe(s: State) {
    s.cntClosed != 0 ==> 2 <= s.minClosed && s.minClosed - 2 < |s.clients| && s.cntClosed <= |s.clients|
  }

  lemma CoalesceIsSafe(s: State)
    requires Inv(s)
    ensures CoalesceSafe(s)
  {
    if s.cntClosed != 0 {
      assert ClosedSet(s) != {};
      assert ClosedSet(s) == ClosedIn(s.clients);
      OpenOnlyLength(s.clients);
    }
  }

  /** The table after the loops, before it is cut. */
  function Shifted(clients: seq<Client>, m: nat): (r: seq<Client>)
    requires m < |clients|
    ensures |r| == |clients|
  {
    var kept := clients[..m] + OpenOnly(clients[m + 1..]);
    kept + clients[|kept|..]
  }

  /** The entries below i have been looked at, and those of them that are open
      are at or below j. */
  ghost predicate ShiftedSoFar(was: seq<Client>, m: nat, now: seq<Client>, j: nat, i: nat) {
    && m <= j < i <= |was| == |now| && m + 1 <= i
    && now[..j] == was[..m] + OpenOnly(was[m + 1..i])
    && now[j..] == was[j..]
  }

  lemma NothingShifted(was: seq<Client>, m: nat)
    requires m < |was|
    ensures ShiftedSoFar(was, m, was, m, m + 1)
  {
    assert was[m + 1..m + 1] == [];
  }

  lemma SkipClosed(was: seq<Client>, m: nat, now: seq<Client>, j: nat, i: nat)
    requires ShiftedSoFar(was, m, now, j, i) && i < |was| && now[i].fd == 0
    ensures ShiftedSoFar(was, m, now, j, i + 1)
  {
    assert now[j..][i - j] == was[j..][i - j];
    OpenOnlyStep(was, m + 1, i);
  }

  lemma MoveDown(was: seq<Client>, m: nat, now: seq<Client>, j: nat, i: nat, next: seq<Client>)
    requires ShiftedSoFar(was, m, now, j, i) && i < |was| && now[i].fd != 0 && next == now[j := now[i]]
    ensures ShiftedSoFar(was, m, next, j + 1, i + 1)
  {
    assert now[j..][i - j] == was[j..][i - j];
    OpenOnlyStep(was, m + 1, i);
    assert next[..j + 1] == now[..j] + [now[i]];
    assert next[j + 1..] == now[j..][1..];
  }

  lemma AllShifted(was: seq<Client>, m: nat, now: seq<Client>, j: nat, i: nat)
    requires ShiftedSoFar(was, m, now, j, i) && i == |was|
    ensures now == Shifted(was, m)
  {
    assert was[m + 1..i] == was[m + 1..];
    assert now == now[..j] + now[j..];
  }

  lemma OpenOnlyStep(clients: seq<Client>, from: nat, n: nat)
    requires from <= n < |clients|
    ensures OpenOnly(clients[from..n + 1]) == OpenOnly(clients[from..n]) +
            if clients[n].fd != 0 then [clients[n]] else []
  {
    assert clients[from..n + 1][..n - from] == clients[from..n];
  }

  /** The open entries are moved down, unless the closed ones are the last. */
  function OpenMoved(s: State): State
    requires 2 <= s.minClosed < |s.clients| + 2
  {
    if s.minClosed + s.cntClosed < |s.clients| + 2 then s.(clients := Shifted(s.clients, s.minClosed - 2)) else s
  }

  /** As many entries as were closed are cut off. */
  function EndCut(s: State): State
    requires s.cntClosed <= |s.clients|
  {
    s.(clients := s.clients[..|s.clients| - s.cntClosed], minClosed := INT_MAX, cntClosed := 0, accepting := true)
  }

  lemma CoalescedIs(s: State)
    requires CoalesceSafe(s)
    ensures s.cntClosed == 0 ==> M.Coalesce(s) == s
    ensures s.cntClosed != 0 ==> |OpenMoved(s).clients| == |s.clients| && EndCut(OpenMoved(s)) == M.Coalesce(s)
  {
  }

  // -------------------------------------------------------------- safe runs

  ghost predicate TailSafe(s: State) {
    var s1 := M.AgeIfDue(s);
    && SafeSweep(s.(lastAge := s.now, agingMs := INT_MAX), Expired)
    && TimeoutsSafe(s1)
    && CoalesceSafe(M.Timeouts(s1, |s1.clients|))
  }

  lemma TailIsSafe(s: State)
    requires Inv(s)
    ensures TailSafe(s)
  {
    var s1 := M.AgeIfDue(s);
    FlagsInv(s, s.(lastAge := s.now));
    SweepIsSafe(s.(lastAge := s.now), Expired);
    AgeInv(s);
    TimeoutsAreSafe(s1);
    TimeoutsInv(s1, |s1.clients|);
    CoalesceIsSafe(M.Timeouts(s1, |s1.clients|));
  }

  ghost predicate FdsSafe(s: State, a: bool, b: bool, evs: seq<Event>) {
    var s1 := M.AcceptBoth(s, a, b);
    AcceptsSafe(s, a, b) && |evs| == |s1.clients| && TurnsSafe(s1, ForcedIn(evs, |s.clients|))
  }

  lemma FdsParts(s: State, a: bool, b: bool, evs: seq<Event>, s1: State, forced: seq<Event>)
    requires FdsSafe(s, a, b, evs) && s1 == M.AcceptBoth(s, a, b) && forced == ForcedIn(evs, |s.clients|)
    ensures AcceptsSafe(s, a, b) && |forced| == |s1.clients| && TurnsSafe(s1, forced)
  {
  }

  ghost predicate RoundSafe(s: State, p: Poll) {
    !s.exited ==>
      match p
      case Interrupted => true
      case NothingReady(now) => TailSafe(s.(now := now))
      case Ready(now, a, b, evs) =>
        var s0 := s.(now := now);
        var s1 := M.AcceptBoth(s0, a, b);
        FdsSafe(s0, a, b, evs) && TailSafe(M.HandleEvents(s1, ForcedIn(evs, |s.clients|), |s1.clients|))
  }

  /** Whatever fits poll() is handled without a bad index, a freed block or a
      missing buffer. */
  lemma RoundIsSafe(s: State, p: Poll)
    requires Idle(s) && PollFits(s, p)
    ensures RoundSafe(s, p)
  {
    if !s.exited {
      match p
      case Interrupted =>
      case NothingReady(now) =>
        FlagsInv(s, s.(now := now));
        TailIsSafe(s.(now := now));
      case Ready(now, a, b, evs) =>
        FlagsInv(s, s.(now := now));
        ReadyIsSafe(s, s.(now := now), a, b, evs);
    }
  }

  lemma ReadyIsSafe(s: State, s0: State, a: bool, b: bool, evs: seq<Event>)
    requires Inv(s0) && NoneClosed(s0) && !s0.exited && PollFits(s, Ready(s0.now, a, b, evs)) && s0 == s.(now := s0.now)
    ensures FdsSafe(s0, a, b, evs)
    ensures var s1 := M.AcceptBoth(s0, a, b); TailSafe(M.HandleEvents(s1, ForcedIn(evs, |s.clients|), |s1.clients|))
  {
    AcceptsAreSafe(s0, a, b);
    AcceptBothInv(s0, a, b);
    var s1 := M.AcceptBoth(s0, a, b);
    forall j: nat ensures Reported(s0, evs, j) { assert Reported(s, evs, j); }
    forall j: nat, i: nat ensures !Races(s0, evs, j, i) { assert !Races(s, evs, j, i); }
    ReportedAfterAccept(s0, s1, evs);
    var forced := ForcedIn(evs, |s.clients|);
    TurnsAreSafe(s1, forced);
    EventsInv(s1, forced, |forced|);
    TailIsSafe(M.HandleEvents(s1, forced, |s1.clients|));
  }

  ghost predicate RunSafeAt(s: State, polls: seq<Poll>, n: nat) {
    n < |polls| ==> RoundSafe(Run(s, polls[..n]), polls[n])
  }

  ghost predicate RunSafe(s: State, polls: seq<Poll>) {
    forall n: nat :: RunSafeAt(s, polls, n)
  }

  lemma {:induction false} PrefixFits(s: State, polls: seq<Poll>, n: nat)
    requires RunFits(s, polls) && n <= |polls|
    ensures RunFits(s, polls[..n])
  {
    if n < |polls| {
      PrefixFits(s, polls[..|polls| - 1], n);
      assert polls[..|polls| - 1][..n] == polls[..n];
    } else {
      assert polls[..n] == polls;
    }
  }

  /** The daemon runs without fault on every run that fits: no index outside a
      table, no access to a freed block, and alloc_buf_no() finds a buffer. */
  lemma EveryRunIsSafe(s: State, polls: seq<Poll>)
    requires Idle(s) && RunFits(s, polls)
    ensures RunSafe(s, polls)
  {
    forall n: nat ensures RunSafeAt(s, polls, n) {
      if n < |polls| {
        var q := n + 1;
        PrefixFits(s, polls, n);
        PrefixFits(s, polls, q);
        assert polls[..q][..n] == polls[..n];
        EveryRunKeepsInvariant(s, polls[..n]);
        RoundIsSafe(Run(s, polls[..n]), polls[n]);
      }
    }
  }

  /** A daemon started and run through any polls that fit is in a state in which
      the invariant holds. */
  method Serve(cfg: Config, now: nat, polls: seq<Poll>) returns (d: Daemon)
    requires ConfigOk(cfg) && now < TWO32 && RunFits(Init(cfg, now), polls)
    ensures d.Valid() && ReachedBy(cfg, now, polls, d.Model()) && Idle(d.Model())
  {
    d := new Daemon(cfg, now);
    InitIdle(cfg, now);
    EveryRunIsSafe(Init(cfg, now), polls);
    EveryRunKeepsInvariant(Init(cfg, now), polls);
    d.MainLoop(polls);
  }
}
