/** New connections: there is always a request buffer for one. */
module NscdAccept {
  import opened Bytes
  import opened NscdModel
  import opened NscdInvariant
  import opened NscdFrame
  import opened NscdSweep
  import opened NscdServe
  import opened NscdTransfer
  import opened NscdReply

  // ------------------------------------------------------------ alloc_buf_no

  /** How far u is ahead of n, going round. */
  function Ahead(n: nat, u: nat, m: nat): nat
    requires n < m && u < m
  {
    if u >= n then u - n else u + m - n
  }

  /** Going round the buffers misses none. */
  lemma {:induction false} IdleFinds(busy: seq<bool>, n: nat, left: nat, u: nat)
    requires n < |busy| && u < |busy| && !busy[u] && Ahead(n, u, |busy|) < left
    ensures IdleFrom(busy, n, left) < |busy|
    decreases left
  {
    if busy[n] {
      IdleFinds(busy, NextBuf(n, |busy|), left - 1, u);
    }
  }

  ghost function BufsUsed(s: State): set<nat> {
    set i: nat | i < |s.clients| :: s.clients[i].bufidx
  }

  lemma {:induction false} ImageSize(clients: seq<Client>, used: set<nat>)
    requires used == set i: nat | i < |clients| :: clients[i].bufidx
    ensures |used| <= |clients|
  {
    if clients != [] {
      var front := clients[..|clients| - 1];
      var rest := set i: nat | i < |front| :: front[i].bufidx;
      ImageSize(front, rest);
      assert forall i: nat :: i < |front| ==> front[i] == clients[i];
      assert used == rest + {clients[|clients| - 1].bufidx};
    }
  }

  function Upto(n: nat): (r: set<nat>)
    ensures |r| == n
    ensures forall u: nat :: u in r <==> u < n
  {
    if n == 0 then {} else Upto(n - 1) + {n - 1}
  }

  /** While the table has room there is an idle request buffer, so the "no free
      bufs" exit is never taken. */
  lemma BufferAvailable(s: State)
    requires Tables(s) && |s.clients| + 2 < s.cfg.maxReq
    ensures IdleFrom(s.busy, s.nextBuf, |s.busy|) < |s.busy|
  {
    var n := |s.busy|;
    if forall u: nat :: u < n ==> s.busy[u] {
      forall u: nat | u in Upto(n) ensures u in BufsUsed(s) {
        assert BufOwned(s, u);
        var i: nat :| UsesBuf(s, i, u);
      }
      ImageSize(s.clients, BufsUsed(s));
      SmallerSet(Upto(n), BufsUsed(s));
    }
    var u: nat :| u < n && !s.busy[u];
    IdleFinds(s.busy, s.nextBuf, n, u);
  }

  // ------------------------------------------------------------------ accept

  ghost predicate Accepts(s: State, u: nat, r: State) {
    && u < |s.busy| && !s.busy[u] && |s.bufs| == |s.busy|
    && r.clients == s.clients + [Client(s.nextFd, POLLIN, 0, u, s.now, 0, None, Null)]
    && r.fds == s.fds[s.nextFd := Sock([])] && r.nextFd == s.nextFd + 1
    && r.bufs == s.bufs[u := []] && r.busy == s.busy[u := true] && r.nextBuf < |s.busy|
    && r.accepting == (s.accepting && |s.clients| + 3 < s.cfg.maxReq)
    && r == s.(clients := r.clients, fds := r.fds, nextFd := r.nextFd, bufs := r.bufs, busy := r.busy,
               nextBuf := r.nextBuf, accepting := r.accepting)
  }

  lemma AcceptEffect(s: State)
    requires Tables(s) && |s.clients| + 2 < s.cfg.maxReq
    ensures Accepts(s, IdleFrom(s.busy, s.nextBuf, |s.busy|), Accept(s))
  {
    BufferAvailable(s);
  }

  lemma AcceptKeeps(s: State, u: nat, r: State, j: nat)
    requires Core(s) && Accepts(s, u, r) && j < |s.clients| && s.clients[j].fd != 0
    ensures ClientOk(r, s.clients[j])
  {
    assert EntryOk(s, j);
    NewFd(s);
    if s.clients[j].cachePp.At? { AcceptSlotKey(s, u, r, s.clients[j].cachePp.slot); }
    ClientFrame(s, r, s.clients[j]);
  }

  lemma AcceptSlotKey(s: State, u: nat, r: State, k: nat)
    requires Tables(s) && Accepts(s, u, r)
    ensures SlotKey(r, k) == SlotKey(s, k)
  {
    if SlotAt(s, k).Future? {
      assert SlotOk(s, k);
      var j: nat :| OwnsSlot(s, j, k);
      assert EntryOk(s, j);
    }
  }

  lemma AcceptTables(s: State, u: nat, r: State)
    requires Core(s) && Accepts(s, u, r) && |s.clients| + 2 < s.cfg.maxReq
    ensures Tables(r)
  {
    NewFd(s);
    forall j: nat ensures EntryOk(r, j) {
      assert EntryOk(s, j);
      if j < |s.clients| && s.clients[j].fd != 0 { AcceptKeeps(s, u, r, j); }
    }
    forall k: nat ensures SlotKey(r, k) == SlotKey(s, k) { AcceptSlotKey(s, u, r, k); }
    SameCacheSlots(s, r);
    forall j: nat, l: nat ensures BufsDiffer(r, j, l) {
      assert BufsDiffer(s, j, l) && EntryOk(s, j) && EntryOk(s, l);
    }
    forall v: nat ensures BufOwned(r, v) {
      assert BufOwned(s, v);
      if v == u {
        assert UsesBuf(r, |s.clients|, u);
      } else if v < |r.busy| && r.busy[v] {
        var j: nat :| UsesBuf(s, j, v);
        assert UsesBuf(r, j, v);
      }
    }
  }

  lemma AcceptFds(s: State, u: nat, r: State)
    requires Core(s) && Accepts(s, u, r)
    ensures Fds(r)
  {
    NewFd(s);
    AllFdsOpen(s);
    forall fd: int ensures FdOwned(r, fd) {
      assert FdOwned(s, fd);
      if fd == s.nextFd {
        assert UsesFd(r, |s.clients|, fd);
      } else if fd in r.fds {
        var j: nat :| UsesFd(s, j, fd);
        assert UsesFd(r, j, fd);
      }
    }
    forall j: nat, l: nat ensures FdsDiffer(r, j, l) { assert FdsDiffer(s, j, l); }
  }

  /** A new connection keeps the invariant while the table has room. */
  lemma AcceptInv(s: State)
    requires Inv(s) && |s.clients| + 2 < s.cfg.maxReq
    ensures var r := Accept(s);
            && Inv(r)
            && (exists u :: Accepts(s, u, r))
  {
    var u := IdleFrom(s.busy, s.nextBuf, |s.busy|);
    var r := Accept(s);
    AcceptEffect(s);
    AcceptTables(s, u, r);
    AcceptFds(s, u, r);
    forall b: nat ensures RefOk(r, b) {
      assert RefOk(s, b);
      assert SlotsOf(r, b) == SlotsOf(s, b) && HoldersOf(r, b) == HoldersOf(s, b);
    }
    AcceptRest(s, u, r);
  }

  lemma AcceptRest(s: State, u: nat, r: State)
    requires Inv(s) && Accepts(s, u, r)
    ensures History(r) && Counts(r) && Sleep(r)
  {
    HistoryFrame(s, r);
    CachedFrame(s, r);
    NewFd(s);
    assert ClosedSet(r) == ClosedSet(s);
    SleepFrame(s, r);
  }
}
