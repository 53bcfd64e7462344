/** What holds of the daemon between any two steps of its main loop. */
module NscdInvariant {
  import opened Bytes
  import opened NscdModel

  // ---------------------------------------------------------- client phases

  predicate IsReading(c: Client) { c.fd != 0 && c.clientFd == 0 && c.events == POLLIN }

  /** Waits for its own worker, on the worker's descriptor. */
  predicate IsOwner(c: Client) { c.fd != 0 && c.clientFd != 0 && c.clientFd != c.fd }

  /** Waits for the worker of another client. */
  predicate IsWaiter(c: Client) { c.fd != 0 && c.clientFd == c.fd }

  predicate IsWriting(c: Client) { c.fd != 0 && c.clientFd == 0 && c.events == POLLOUT }

  function SockFd(c: Client): int {
    if c.clientFd != 0 then c.clientFd else c.fd
  }

  // ----------------------------------------------------------------- tables

  ghost predicate IsSock(s: State, fd: int, sent: seq<byte>) {
    fd in s.fds && s.fds[fd] == Sock(sent)
  }

  ghost predicate WaitsOk(s: State, c: Client) {
    && c.resptr == None
    && c.respos == 0
    && IsSock(s, SockFd(c), [])
    && (IsReading(c) ==> c.cachePp == Null && |BufAt(s, c.bufidx)| <= MAX_USER_REQ_SIZE)
    && (!IsReading(c) ==> Complete(BufAt(s, c.bufidx)))
    && (IsOwner(c) ==>
          && c.events == POLLIN
          && c.fd in s.fds && s.fds[c.fd] == Pipe(BufAt(s, c.bufidx))
          && c.cachePp != Taken
          && (c.cachePp.At? ==>
                c.cachePp.slot < |s.cache| && s.cache[c.cachePp.slot].Future?
                    && s.cache[c.cachePp.slot].buf == c.bufidx))
    && (IsWaiter(c) ==>
          && c.events == NO_EVENTS
          && c.cachePp.At?
          && c.cachePp.slot < |s.cache|
          && s.cache[c.cachePp.slot].Future? && s.cache[c.cachePp.slot].shared
          && s.cache[c.cachePp.slot].buf != c.bufidx
          && SlotKey(s, c.cachePp.slot) == KeyOf(BufAt(s, c.bufidx)))
  }

  ghost predicate WritesOk(s: State, c: Client) {
    && Complete(BufAt(s, c.bufidx))
    && !c.cachePp.At?
    && (match c.resptr
        case None => c.respos == 0 && IsSock(s, c.fd, [])
        case Some(b) =>
          && b in s.heap
          && s.heap[b].key == KeyOf(BufAt(s, c.bufidx))
          && (c.cachePp == Null ==> s.heap[b].refcount == 0)
          && c.respos <= |s.heap[b].resp|
          && IsSock(s, c.fd, Wire(s.heap[b].resp)[..c.respos]))
  }

  /** An open client is in one of the four phases, and its entry says so. */
  ghost predicate ClientOk(s: State, c: Client) {
    c.fd != 0 ==>
      && c.bufidx < |s.bufs| && c.bufidx < |s.busy| && s.busy[c.bufidx]
      && (IsReading(c) || IsOwner(c) || IsWaiter(c) || IsWriting(c))
      && (if IsWriting(c) then WritesOk(s, c) else WaitsOk(s, c))
  }

  /** Closing leaves the saved descriptor of a waiter in its entry. */
  ghost predicate ClosedEntryOk(c: Client) {
    c.fd == 0 && c.cachePp.At? ==> c.clientFd != 0
  }

  ghost predicate EntryOk(s: State, i: nat) {
    i < |s.clients| ==> ClientOk(s, s.clients[i]) && ClosedEntryOk(s.clients[i])
  }

  ghost predicate OwnsSlot(s: State, i: nat, k: nat) {
    && i < |s.clients| && k < |s.cache|
    && IsOwner(s.clients[i])
    && s.clients[i].cachePp == At(k)
    && s.cache[k].Future? && s.cache[k].buf == s.clients[i].bufidx
  }

  ghost predicate HasOwner(s: State, k: nat) {
    exists i: nat :: OwnsSlot(s, i, k)
  }

  ghost predicate SlotOk(s: State, k: nat) {
    match SlotAt(s, k)
    case Empty => true
    case Done(b) => b in s.heap && BaseOf(s, SlotKey(s, k)) == k - k % 8
    case Future(u, _) => u < |s.bufs| && BaseOf(s, SlotKey(s, k)) == k - k % 8 && HasOwner(s, k)
  }

  ghost predicate KeysDiffer(s: State, k: nat, j: nat) {
    k != j && SlotAt(s, k) != Empty && SlotAt(s, j) != Empty ==> SlotKey(s, k) != SlotKey(s, j)
  }

  /** No two occupied slots are for the same request. */
  ghost predicate DistinctKeys(s: State) {
    forall k: nat, j: nat :: KeysDiffer(s, k, j)
  }

  ghost predicate BufsDiffer(s: State, i: nat, j: nat) {
    i != j && ClientAt(s, i).fd != 0 && ClientAt(s, j).fd != 0 ==> ClientAt(s, i).bufidx != ClientAt(s, j).bufidx
  }

  ghost predicate DistinctBufs(s: State) {
    forall i: nat, j: nat :: BufsDiffer(s, i, j)
  }

  ghost predicate UsesBuf(s: State, i: nat, u: nat) {
    i < |s.clients| && s.clients[i].fd != 0 && s.clients[i].bufidx == u
  }

  ghost predicate BufOwned(s: State, u: nat) {
    u < |s.busy| && s.busy[u] ==> exists i: nat :: UsesBuf(s, i, u)
  }

  ghost predicate BusyOwned(s: State) {
    forall u: nat :: BufOwned(s, u)
  }

  ghost predicate Sizes(s: State) {
    && ConfigOk(s.cfg)
    && |s.bufs| == |s.busy| == s.cfg.maxReq
    && s.nextBuf < |s.bufs|
    && |s.cache| == 8 * s.cfg.cacheSize
    && |s.clients| + 2 <= s.cfg.maxReq
    && (s.accepting <==> |s.clients| + 2 < s.cfg.maxReq)
    && s.now < TWO32
  }

  ghost predicate ClientsOk(s: State) {
    forall i: nat :: EntryOk(s, i)
  }

  ghost predicate SlotsOk(s: State) {
    forall k: nat :: SlotOk(s, k)
  }

  ghost predicate Tables(s: State) {
    && Sizes(s)
    && ClientsOk(s)
    && SlotsOk(s)
    && DistinctKeys(s)
    && DistinctBufs(s)
    && BusyOwned(s)
  }

  // ------------------------------------------------------- reference counts

  function SlotsOf(s: State, b: nat): set<nat> {
    set k: nat | k < |s.cache| && s.cache[k] == Done(b)
  }

  /** The open clients whose resptr is this block. */
  function HoldersOf(s: State, b: nat): set<nat> {
    set i: nat | i < |s.clients| && s.clients[i].fd != 0 && s.clients[i].resptr == Some(b)
  }

  ghost predicate RefOk(s: State, b: nat) {
    b in s.heap ==> s.heap[b].refcount + 1 == |SlotsOf(s, b)| + |HoldersOf(s, b)|
  }

  ghost predicate Refs(s: State) {
    forall b: nat :: RefOk(s, b)
  }

  // ------------------------------------------------------------ descriptors

  ghost predicate UsesFd(s: State, i: nat, fd: int) {
    i < |s.clients| && s.clients[i].fd != 0 && (fd == s.clients[i].fd || fd == SockFd(s.clients[i]))
  }

  ghost predicate FdOwned(s: State, fd: int) {
    fd in s.fds ==> 0 < fd < s.nextFd && exists i: nat :: UsesFd(s, i, fd)
  }

  ghost predicate FdsDiffer(s: State, i: nat, j: nat) {
    i != j && ClientAt(s, i).fd != 0 && ClientAt(s, j).fd != 0 ==>
      && ClientAt(s, i).fd != ClientAt(s, j).fd
      && ClientAt(s, i).fd != SockFd(ClientAt(s, j))
      && SockFd(ClientAt(s, i)) != ClientAt(s, j).fd
      && SockFd(ClientAt(s, i)) != SockFd(ClientAt(s, j))
  }

  /** No descriptor is leaked, and none is used by two clients. */
  ghost predicate Fds(s: State) {
    && s.nextFd > 0
    && (forall fd: int :: FdOwned(s, fd))
    && (forall i: nat, j: nat :: FdsDiffer(s, i, j))
  }

  // ---------------------------------------------------------------- history

  /** A worker that was fed exactly this key gave this reply. */
  ghost predicate Answers(s: State, a: Answer, key: seq<byte>, resp: seq<byte>) {
    a in s.answers && a.key == key && ValidReply(a.out) && resp == ReplyBytes(a.out)
  }

  ghost predicate Answered(s: State, key: seq<byte>, resp: seq<byte>) {
    exists a :: Answers(s, a, key, resp)
  }

  ghost predicate BlockOk(s: State, b: nat) {
    b in s.heap ==>
    && b < s.nextId
    && s.heap[b].ts24 < 0x100_0000
    && |s.heap[b].key| >= 8
    && |s.heap[b].resp| >= 8
    && U32(s.heap[b].resp, 0) == |s.heap[b].resp|
    && Answered(s, s.heap[b].key, s.heap[b].resp)
  }

  ghost predicate ServedOk(s: State, e: Served) {
    exists a :: a in s.answers && a.key == KeyOf(e.request) && ValidReply(a.out) && e.sent == Wire(ReplyBytes(a.out))
  }

  ghost predicate History(s: State) {
    && (forall b: nat :: BlockOk(s, b))
    && (forall e :: e in s.served ==> ServedOk(s, e))
  }

  // --------------------------------------------------------------- counters

  function ClosedSet(s: State): set<nat> {
    set i: nat | i < |s.clients| && s.clients[i].fd == 0
  }

  function Occupied(s: State): set<nat> {
    set k: nat | k < |s.cache| && s.cache[k] != Empty
  }

  /** cached_cnt counts the occupied slots and, besides, every slot that was
      given back because its worker failed, modulo the width of an unsigned. */
  ghost predicate CachedOk(s: State) {
    s.cachedCnt == (|Occupied(s)| + s.failedFills) % TWO32
  }

  /** min_closed and cnt_closed describe the closed entries of the table. */
  ghost predicate ClosedOk(s: State) {
    && s.cntClosed == |ClosedSet(s)|
    && (s.minClosed == INT_MAX <==> ClosedSet(s) == {})
    && (ClosedSet(s) != {} ==> s.minClosed >= 2 && s.minClosed - 2 in ClosedSet(s))
    && (forall i :: i in ClosedSet(s) ==> s.minClosed <= i + 2)
  }

  ghost predicate HitsOk(s: State) {
    1 <= s.hitCnt <= s.accessCnt <= INT_MAX
  }

  ghost predicate Counts(s: State) {
    CachedOk(s) && ClosedOk(s) && HitsOk(s)
  }

  // ------------------------------------------------------------------ sleep

  ghost predicate HasCompleted(s: State) {
    exists k :: 0 <= k < |s.cache| && s.cache[k].Done?
  }

  ghost predicate WorkerOutstanding(s: State) {
    exists i :: 0 <= i < |s.clients| && IsOwner(s.clients[i])
  }

  ghost predicate Sleep(s: State) {
    && s.agingMs <= INT_MAX
    && s.minAgingMs < INT_MAX
    && (s.agingMs == INT_MAX && HasCompleted(s) ==> WorkerOutstanding(s))
  }

  ghost predicate Inv(s: State) {
    && Tables(s)
    && Refs(s)
    && Fds(s)
    && History(s)
    && Counts(s)
    && Sleep(s)
  }
}
