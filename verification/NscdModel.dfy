/**
 The state of the unscd cache daemon and one specification function for each
 of the C functions that change it.  A state is a value; the class Daemon in
 NscdDaemon.dfy updates arrays in place and is proved against these functions.

 A Client pairs pfd[i] with cinfo[i]; clients[j] is entry j + 2 of the C
 tables, whose first two entries are the listening sockets.  A request buffer
 holds the octets received so far, so its length is the client's bytecnt.
 Malloc'ed response blocks carry an identifier; an identifier outside the
 domain of `heap` has been freed.
 */
module NscdModel {
  import opened Bytes

  const INT_MAX: nat := 0x7FFF_FFFF
  const NSCD_VERSION: nat := 2
  const MAX_USER_REQ_SIZE: nat := 1024
  const USER_HDR_SIZE: nat := 12
  const MAX_KEY_LEN: nat := MAX_USER_REQ_SIZE - USER_HDR_SIZE
  const CLIENT_TIMEOUT_MS: nat := 100
  const SMALL_POLL_TIMEOUT_MS: nat := 200
  const MAX_REPLY_SIZE: nat := 0x0fff_ffff
  const FIRST_READ_SIZE: nat := 256

  const GETHOSTBYADDR: nat := 6
  const GETHOSTBYADDRv6: nat := 7
  const SHUTDOWN: nat := 8
  const GETSTAT: nat := 9
  const INVALIDATE: nat := 10
  const GETAI: nat := 14
  const INITGROUPS: nat := 15

  const SRV_PASSWD: nat := 0
  const SRV_GROUP: nat := 1
  const SRV_HOSTS: nat := 2

  /** The event bits of one pollfd: what is waited for, or what was reported. */
  datatype PollSet = PollSet(pin: bool, pout: bool, perr: bool, phup: bool)

  const NO_EVENTS := PollSet(false, false, false, false)
  const POLLIN := PollSet(true, false, false, false)
  const POLLOUT := PollSet(false, true, false, false)

  /** cinfo[i].cache_pp: NULL, (void*)1, or the address of a cache slot. */
  datatype CachePtr = Null | Taken | At(slot: nat)

  /** One of the cache_size * 8 tagged pointers. */
  datatype Slot = Empty | Done(blk: nat) | Future(buf: nat, shared: bool)

  datatype Client = Client(fd: int, events: PollSet, clientFd: int, bufidx: nat,
                           startedMs: nat, respos: nat, resptr: Option<nat>, cachePp: CachePtr)

  /** A malloc'ed cache entry: the request from its type field on, and the reply. */
  datatype Block = Block(key: seq<byte>, resp: seq<byte>, refcount: nat, ts24: nat)

  const NO_BLOCK := Block([], [], 0, 0)

  /** What is behind a descriptor: a client socket with the octets written to
      it, or the pipe of a worker that was fed a request. */
  datatype FdObj = Sock(sent: seq<byte>) | Pipe(fed: seq<byte>)

  /** A worker that was fed `key` wrote `out`, and the daemon accepted it. */
  datatype Answer = Answer(key: seq<byte>, out: seq<byte>)

  /** A client whose answer was written out in full, on its descriptor. */
  datatype Served = Served(fd: int, request: seq<byte>, sent: seq<byte>)

  datatype PerService<T> = PerService(passwd: T, group: T, hosts: T) {
    function Of(srv: nat): T {
      if srv == SRV_PASSWD then passwd else if srv == SRV_GROUP then group else hosts
    }
  }

  datatype Config = Config(maxReq: nat, cacheSize: nat, srvEnable: PerService<bool>, checkFiles: PerService<bool>,
                           pttl: PerService<nat>, nttl: PerService<nat>)

  /** answers, served and failedFills are history: no step reads them. */
  datatype State = State(
    cfg: Config,
    clients: seq<Client>,
    accepting: bool,
    bufs: seq<seq<byte>>,
    busy: seq<bool>,
    nextBuf: nat,
    cache: seq<Slot>,
    heap: map<nat, Block>,
    nextId: nat,
    fds: map<int, FdObj>,
    nextFd: int,
    cntClosed: nat,
    minClosed: nat,
    cachedCnt: nat,
    accessCnt: nat,
    hitCnt: nat,
    now: nat,
    lastAge: nat,
    agingMs: nat,
    minAgingMs: nat,
    exited: bool,
    answers: set<Answer>,
    served: seq<Served>,
    failedFills: nat)

  // ------------------------------------------------------------ tables

  /* The specification functions are total: an index outside its table reads a
     null entry and writes nothing.  That no such access happens in a state
     that meets the invariant is what the class Daemon, whose tables are
     arrays, has to prove. */

  const NO_CLIENT := Client(0, NO_EVENTS, 0, 0, 0, 0, None, Null)

  function Put<T>(t: seq<T>, i: nat, v: T): (r: seq<T>)
    ensures |r| == |t|
  {
    if i < |t| then t[i := v] else t
  }

  function ClientAt(s: State, i: nat): Client {
    if i < |s.clients| then s.clients[i] else NO_CLIENT
  }

  function BufAt(s: State, u: nat): seq<byte> {
    if u < |s.bufs| then s.bufs[u] else []
  }

  function SlotAt(s: State, k: nat): Slot {
    if k < |s.cache| then s.cache[k] else Empty
  }

  // ------------------------------------------------------------- requests

  function KeyOf(req: seq<byte>): seq<byte> {
    if |req| < USER_HDR_SIZE then [] else req[4..]
  }

  /** All of the header and of the key has arrived, and nothing else. */
  predicate Complete(req: seq<byte>) {
    |req| >= USER_HDR_SIZE && |req| == USER_HDR_SIZE + U32(req, 8)
  }

  predicate UnsupportedType(t: nat) {
    t != GETAI && t != INITGROUPS && (t == GETSTAT || t > INVALIDATE)
  }

  /** type_to_srv[]; the unlisted types are zero there, that is SRV_PASSWD. */
  function SrvOf(t: nat): (srv: nat)
    ensures srv < 3
  {
    if t == 2 || t == 3 || t == INITGROUPS then SRV_GROUP
    else if 4 <= t <= 7 || t == GETAI then SRV_HOSTS
    else SRV_PASSWD
  }

  function KeySrv(key: seq<byte>): (srv: nat)
    ensures srv < 3
  {
    if |key| < 4 then SRV_PASSWD else SrvOf(U32(key, 0))
  }

  function BernsteinHash(p: seq<byte>, h: nat): nat {
    if p == [] then h else BernsteinHash(p[1..], Xor((32 * h + h) % TWO32, p[0]))
  }

  /** The cache line a request hashes to. */
  function LineOf(key: seq<byte>, lines: nat): (line: nat)
    ensures lines > 0 ==> line < lines
  {
    if |key| < 8 || lines == 0 then 0 else BernsteinHash(key[4..], U32(key, 0)) % lines
  }

  // ---------------------------------------------------------------- replies

  /** The octets handle_worker_response keeps as the reply, if it accepts the
      output of the worker at all. */
  predicate ValidReply(out: seq<byte>) {
    var sz := if |out| < FIRST_READ_SIZE then |out| else FIRST_READ_SIZE;
    && sz >= 8
    && sz <= U32(out, 0) <= MAX_REPLY_SIZE
    && (U32(out, 4) != 0 && U32(out, 0) > sz ==> U32(out, 0) <= |out|)
  }

  function ReplyBytes(out: seq<byte>): (r: seq<byte>)
    requires ValidReply(out)
    ensures |r| == U32(out, 0) >= 8
    ensures r[..8] == out[..8]
  {
    var sz := if |out| < FIRST_READ_SIZE then |out| else FIRST_READ_SIZE;
    var n := U32(out, 0);
    if U32(out, 4) != 0 && n > sz then out[..n] else out[..sz] + Zeros(n - sz)
  }

  /** The reply as a client sees it: the size word replaced by the version. */
  function Wire(resp: seq<byte>): (r: seq<byte>)
    ensures |r| == |resp|
  {
    if |resp| < 4 then resp else Le32(NSCD_VERSION) + resp[4..]
  }

  // ------------------------------------------------------- blocks and slots

  function Blk(s: State, b: nat): Block {
    if b in s.heap then s.heap[b] else NO_BLOCK
  }

  /** free_refcounted_ureq() on a pointer that carries no tag bits: the heap
      after one reference to the block is given up. */
  function Released(heap: map<nat, Block>, b: nat): map<nat, Block> {
    if b in heap && heap[b].refcount > 0 then heap[b := heap[b].(refcount := heap[b].refcount - 1)] else heap - {b}
  }

  /** free_refcounted_ureq(&cache[k]); tagged pointers are left alone. */
  function FreeSlot(s: State, k: nat): State {
    if SlotAt(s, k).Done? then
      s.(heap := Released(s.heap, SlotAt(s, k).blk), cache := Put(s.cache, k, Empty))
    else s
  }

  /** The request an occupied slot answers, from its type field on. */
  function SlotKey(s: State, k: nat): seq<byte> {
    match SlotAt(s, k)
    case Empty => []
    case Done(b) => Blk(s, b).key
    case Future(u, _) => KeyOf(BufAt(s, u))
  }

  /** cache_age(): zero for a future entry. */
  function SlotAge(s: State, k: nat): (age: nat)
    ensures age < TWO32
  {
    match SlotAt(s, k)
    case Done(b) => Sub32(s.now, Blk(s, b).ts24 * 256)
    case _ => 0
  }

  // ------------------------------------------------------------ close_client

  /** The heap after a client gives up its response.  Without a cache entry
      address the response is a "fake cache entry", freed unconditionally. */
  function GivenUp(heap: map<nat, Block>, c: Client): map<nat, Block> {
    match c.resptr
    case None => heap
    case Some(b) => if c.cachePp == Null then heap - {b} else Released(heap, b)
  }

  function CloseClient(s: State, i: nat): State {
    var c := ClientAt(s, i);
    if c.fd == 0 then s
    else
      s.(fds := s.fds - {c.fd, c.clientFd},
         busy := Put(s.busy, c.bufidx, false),
         heap := GivenUp(s.heap, c),
         clients := Put(s.clients, i, c.(fd := 0, resptr := if c.cachePp == Null then c.resptr else None)),
         cntClosed := s.cntClosed + 1,
         minClosed := Min(s.minClosed, i + 2))
  }

  // -------------------------------------------------------- lookup_in_cache

  /** The first slot of a range whose entry is for this key; hi if there is none. */
  function FindKey(s: State, key: seq<byte>, lo: nat, hi: nat): (k: nat)
    requires lo <= hi
    ensures lo <= k <= hi
    ensures k < hi ==> SlotAt(s, k) != Empty && SlotKey(s, k) == key
    ensures forall j :: lo <= j < k ==> SlotAt(s, j) == Empty || SlotKey(s, j) != key
    decreases hi - lo
  {
    if lo == hi || (SlotAt(s, lo) != Empty && SlotKey(s, lo) == key) then lo else FindKey(s, key, lo + 1, hi)
  }

  /** The first empty slot of a range; hi if there is none. */
  function FindFree(s: State, lo: nat, hi: nat): (k: nat)
    requires lo <= hi
    ensures lo <= k <= hi
    ensures k < hi ==> SlotAt(s, k) == Empty
    ensures forall j :: lo <= j < k ==> SlotAt(s, j) != Empty
    decreases hi - lo
  {
    if lo == hi || SlotAt(s, lo) == Empty then lo else FindFree(s, lo + 1, hi)
  }

  /** The first slot of maximal age among the n slots that start at base. */
  function Oldest(s: State, base: nat, n: nat): (k: nat)
    requires n >= 1
    ensures base <= k < base + n
    ensures forall j :: base <= j < base + n ==> SlotAge(s, j) <= SlotAge(s, k)
  {
    if n == 1 then base
    else
      var p := Oldest(s, base, n - 1);
      if SlotAge(s, base + n - 1) > SlotAge(s, p) then base + n - 1 else p
  }

  /** The counters are halved before the access count reaches bit 31. */
  function CountAccess(s: State): State {
    var full := s.accessCnt + 1 > INT_MAX;
    s.(accessCnt := if full then (s.accessCnt + 1) / 2 + 1 else s.accessCnt + 1,
       hitCnt := if full then s.hitCnt / 2 + 1 else s.hitCnt)
  }

  function BaseOf(s: State, key: seq<byte>): nat {
    8 * LineOf(key, s.cfg.cacheSize)
  }

  /** What the scan of a line comes to: an entry for the key, an empty slot, a
      completed entry to evict, or a line full of entries too young to evict. */
  datatype Outcome = Found(k: nat) | Free(f: nat) | Evict(o: nat) | NoRoom

  function ScanLine(s: State, key: seq<byte>): Outcome {
    var base := BaseOf(s, key);
    var k := FindKey(s, key, base, base + 8);
    var f := FindFree(s, base, base + 8);
    var o := Oldest(s, base, 8);
    if k < base + 8 then Found(k)
    else if f < base + 8 then Free(f)
    else if SlotAge(s, o) == 0 then NoRoom
    else Evict(o)
  }

  /** Slot k is set aside for the request in buffer u. */
  function Reserve(s: State, k: nat, u: nat): State {
    s.(cache := Put(s.cache, k, Future(u, false)))
  }

  /** What a lookup of the request in buffer u does about the outcome.  The
      pointer is At(k), or Null when the line cannot take another entry. */
  function LookupOutcome(s: State, u: nat, found: Outcome): (State, CachePtr) {
    match found
    case Found(k) => (s.(hitCnt := s.hitCnt + 1), At(k))
    case Free(f) => (Reserve(s.(cachedCnt := (s.cachedCnt + 1) % TWO32), f, u), At(f))
    case Evict(o) => (Reserve(FreeSlot(s, o), o, u), At(o))
    case NoRoom => (s, Null)
  }

  function Lookup(s: State, u: nat): (State, CachePtr) {
    var s1 := CountAccess(s);
    LookupOutcome(s1, u, ScanLine(s1, KeyOf(BufAt(s, u))))
  }

  // --------------------------------------------------------------- age_cache

  /** age_cache(0, -1), age_cache(1, -1) and age_cache(1, srv). */
  datatype Flush = Expired | All | Service(srv: nat)

  function Ttl(cfg: Config, blk: Block): nat {
    var srv := KeySrv(blk.key);
    if |blk.resp| >= 8 && U32(blk.resp, 4) != 0 then cfg.pttl.Of(srv) else cfg.nttl.Of(srv)
  }

  /** Whether the sweep removes the completed entry b. */
  predicate Doomed(s: State, b: nat, f: Flush) {
    match f
    case All => true
    case Service(srv) => KeySrv(Blk(s, b).key) == srv
    case Expired => Sub32(s.now, Blk(s, b).ts24 * 256) >= Ttl(s.cfg, Blk(s, b))
  }

  /** What the sweep does at one slot. */
  function AgeSlot(s: State, k: nat, f: Flush): State {
    var slot := SlotAt(s, k);
    if !slot.Done? then s
    else
      var gone := Doomed(s, slot.blk, f);
      s.(heap := if gone then Released(s.heap, slot.blk) else s.heap,
         cache := if gone then Put(s.cache, k, Empty) else s.cache,
         cachedCnt := if gone then (s.cachedCnt + TWO32 - 1) % TWO32 else s.cachedCnt,
         agingMs := if f == Expired && !gone then Min(s.agingMs, Ttl(s.cfg, Blk(s, slot.blk)) - SlotAge(s, k))
                    else s.agingMs)
  }

  /** The sweep over the first k slots. */
  function AgeSlots(s: State, k: nat, f: Flush): State {
    if k == 0 then s else AgeSlot(AgeSlots(s, k - 1, f), k - 1, f)
  }

  function AgeCache(s: State, f: Flush): State {
    AgeSlots(s.(agingMs := INT_MAX), |s.cache|, f)
  }

  // ------------------------------------------------------------ handle_client

  /** Got: what there is to read, of which read() takes as much as was asked
      for; no octets at all is the end of the stream.  Took: as much as the
      socket is ready to take, of which write() uses what was offered. */
  datatype ReadResult = Got(data: seq<byte>) | ReadAgain | ReadFailed
  datatype WriteResult = Took(n: nat) | WriteAgain | WriteFailed

  /** What the world contributes to the handling of one descriptor in a round. */
  datatype Event = Event(
    revents: PollSet,
    read: ReadResult,
    write: WriteResult,
    out: seq<byte>,         // everything the worker wrote before it closed its end
    callerIsRoot: bool,     // SO_PEERCRED could be had and says uid 0
    filesChanged: bool)     // check_files() sees a new stat of the watched files

  /** Starts a worker on the request of client i, which will be found at pp. */
  function StartWorker(s: State, i: nat, pp: CachePtr): State {
    var c := ClientAt(s, i);
    s.(fds := s.fds[s.nextFd := Pipe(BufAt(s, c.bufidx))],
       nextFd := s.nextFd + 1,
       clients := Put(s.clients, i, c.(cachePp := pp, clientFd := c.fd, fd := s.nextFd)))
  }

  /** Waits for the worker of another client. */
  function JoinWaiters(s: State, i: nat, k: nat, owner: nat): State {
    var c := ClientAt(s, i);
    s.(cache := Put(s.cache, k, Future(owner, true)),
       clients := Put(s.clients, i, c.(cachePp := At(k), clientFd := c.fd, events := NO_EVENTS)))
  }

  /** Takes a reference to a completed entry. */
  function Retain(s: State, i: nat, b: nat): State {
    var c := ClientAt(s, i);
    s.(heap := s.heap[b := Blk(s, b).(refcount := Blk(s, b).refcount + 1)],
       clients := Put(s.clients, i, c.(events := POLLOUT, resptr := Some(b), cachePp := Taken)))
  }

  /** What client i does with the slot the lookup gave. */
  function ServeAt(s: State, i: nat, pp: CachePtr): (State, bool) {
    var u := ClientAt(s, i).bufidx;
    var slot := if pp.At? then SlotAt(s, pp.slot) else Empty;
    if slot.Done? then (Retain(s, i, slot.blk), true)
    else if slot.Future? && slot.buf != u then (JoinWaiters(s, i, pp.slot, slot.buf), false)
    else (StartWorker(s, i, pp), false)
  }

  /** handle_client() from the cache lookup on. */
  function Serve(s: State, i: nat): (State, bool) {
    var (s1, pp) := Lookup(s, ClientAt(s, i).bufidx);
    ServeAt(s1, i, pp)
  }

  /** Requests whose key should be a counted, zero-terminated string and is not. */
  predicate BadlyTerminated(req: seq<byte>)
    requires |req| >= USER_HDR_SIZE
  {
    var t := U32(req, 4);
    t != GETHOSTBYADDR && t != GETHOSTBYADDRv6 && |req| > USER_HDR_SIZE && req[|req| - 1] != 0
  }

  /** What handle_client() makes of the octets received so far. */
  datatype Verdict = Drop | ReadMore | Exit | FlushAll | Query(flush: bool)

  function Judge(cfg: Config, req: seq<byte>, ev: Event): (v: Verdict)
    ensures v.Query? ==> Complete(req)
  {
    if |req| < USER_HDR_SIZE then ReadMore
    else
      var t := U32(req, 4);
      var srv := SrvOf(t);
      if U32(req, 0) != NSCD_VERSION || U32(req, 8) > MAX_KEY_LEN then Drop
      else if |req| < USER_HDR_SIZE + U32(req, 8) then ReadMore
      else if |req| > USER_HDR_SIZE + U32(req, 8) || UnsupportedType(t) then Drop
      else if t == SHUTDOWN || t == INVALIDATE then
        if !ev.callerIsRoot then Drop
        else if t == SHUTDOWN then Exit
        else if |req| == USER_HDR_SIZE || req[|req| - 1] != 0 then Drop
        else FlushAll
      else if !cfg.srvEnable.Of(srv) || BadlyTerminated(req) then Drop
      else Query(cfg.checkFiles.Of(srv) && ev.filesChanged)
  }

  /** Returns true when the answer is there at once. */
  function HandleClient(s: State, i: nat, ev: Event): (State, bool) {
    var req := BufAt(s, ClientAt(s, i).bufidx);
    match Judge(s.cfg, req, ev)
    case Drop => (CloseClient(s, i), false)
    case ReadMore => (s, false)
    case Exit => (s.(exited := true), false)
    case FlushAll => (CloseClient(AgeCache(s, All), i), false)
    case Query(flush) => Serve(if flush then AgeCache(s, Service(KeySrv(KeyOf(req)))) else s, i)
  }

  // --------------------------------------------- handle_worker_response

  /** prepare_for_writeout() on one table entry. */
  function Prepared(c: Client, resp: Option<nat>, now: nat): Client {
    var c1 := if c.clientFd != 0 then c.(fd := c.clientFd, clientFd := 0) else c;
    c1.(events := POLLOUT, resptr := resp, startedMs := now)
  }

  /** The table entries the wake-up loop matches: open or closed alike. */
  function Matching(clients: seq<Client>, k: nat): set<nat> {
    set j: nat | j < |clients| && clients[j].cachePp == At(k)
  }

  predicate SharedSlot(s: State, k: nat) {
    SlotAt(s, k).Future? && SlotAt(s, k).shared
  }

  /** The entries the result of client i's worker is handed to. */
  function WakeSet(s: State, i: nat): set<nat> {
    match ClientAt(s, i).cachePp
    case At(k) => if SharedSlot(s, k) then Matching(s.clients, k) else {i}
    case _ => {i}
  }

  /** The entry no longer has the address of a slot. */
  function Unmatched(c: Client): Client {
    if c.cachePp.At? then c.(cachePp := Taken) else c
  }

  /** The table after the response has been handed out. */
  function Woken(clients: seq<Client>, who: set<nat>, resp: Option<nat>, now: nat): (r: seq<Client>)
    ensures |r| == |clients|
    ensures forall j: nat {:trigger r[j]} :: j < |clients| ==>
            r[j] == if j in who then Prepared(Unmatched(clients[j]), resp, now) else clients[j]
  {
    seq(|clients|, j requires 0 <= j < |clients| => if j in who then Prepared(Unmatched(clients[j]), resp, now)
        else clients[j])
  }

  function FedTo(s: State, fd: int): seq<byte> {
    if fd in s.fds && s.fds[fd].Pipe? then s.fds[fd].fed else []
  }

  /** The block made of an accepted reply to the request of client i. */
  function NewBlock(s: State, i: nat, out: seq<byte>): Block
    requires ValidReply(out)
  {
    var c := ClientAt(s, i);
    Block(KeyOf(BufAt(s, c.bufidx)), ReplyBytes(out), if c.cachePp.At? then |WakeSet(s, i)| else 0, s.now / 256)
  }

  function HandleWorkerResponse(s: State, i: nat, out: seq<byte>): State {
    var c := ClientAt(s, i);
    var ok := ValidReply(out);
    s.(fds := s.fds - {c.fd},
       heap := if ok then s.heap[s.nextId := NewBlock(s, i, out)] else s.heap,
       nextId := if ok then s.nextId + 1 else s.nextId,
       answers := if ok then s.answers + {Answer(KeyOf(FedTo(s, c.fd)), out)} else s.answers,
       cache := if c.cachePp.At? then Put(s.cache, c.cachePp.slot, if ok then Done(s.nextId) else Empty) else s.cache,
       failedFills := if c.cachePp.At? && !ok then s.failedFills + 1 else s.failedFills,
       clients := Woken(s.clients, WakeSet(s, i), if ok then Some(s.nextId) else None, s.now),
       agingMs := s.minAgingMs)
  }

  // ------------------------------------------------------------------ main_loop

  function FdSent(s: State, fd: int): seq<byte> {
    if fd in s.fds && s.fds[fd].Sock? then s.fds[fd].sent else []
  }

  /** What is left to write to client i. */
  function Remaining(s: State, i: nat): nat {
    var c := ClientAt(s, i);
    var resp := Blk(s, c.resptr.GetOr(0)).resp;
    if c.respos <= |resp| then |resp| - c.respos else 0
  }

  /** n more octets of the answer have gone out. */
  function Progress(s: State, i: nat, n: nat): State {
    var c := ClientAt(s, i);
    var resp := Blk(s, c.resptr.GetOr(0)).resp;
    var piece := if c.respos + n <= |resp| then Wire(resp)[c.respos..c.respos + n] else [];
    s.(fds := s.fds[c.fd := Sock(FdSent(s, c.fd) + piece)], clients := Put(s.clients, i, c.(respos := c.respos + n)))
  }

  /** The write_out label: one write of what is left of the answer. */
  function WriteOut(s: State, i: nat, w: WriteResult): State {
    var c := ClientAt(s, i);
    match w
    case WriteAgain => s
    case WriteFailed => CloseClient(s, i)
    case Took(most) =>
      var n := Min(most, Remaining(s, i));
      if n == 0 then CloseClient(s, i)
      else
        var s1 := Progress(s, i, n);
        if n < Remaining(s, i) then s1
        else CloseClient(s1.(served := s1.served + [Served(c.fd, BufAt(s, c.bufidx), FdSent(s1, c.fd))]), i)
  }

  /** Octets from client i go to the end of its buffer. */
  function Received(s: State, i: nat, data: seq<byte>): State {
    var u := ClientAt(s, i).bufidx;
    s.(bufs := Put(s.bufs, u, BufAt(s, u) + data))
  }

  /** What read() delivers of the octets there are. */
  function ReadData(s: State, i: nat, data: seq<byte>): seq<byte> {
    var have := |BufAt(s, ClientAt(s, i).bufidx)|;
    var room := if have <= MAX_USER_REQ_SIZE then MAX_USER_REQ_SIZE - have else 0;
    data[..Min(|data|, room)]
  }

  /** Octets of a request are there to be read. */
  function ReadRequest(s: State, i: nat, ev: Event): State {
    match ev.read
    case ReadAgain => s
    case ReadFailed => CloseClient(s, i)
    case Got(data) =>
      if ReadData(s, i, data) == [] then CloseClient(s, i)
      else
        var (s2, ready) := HandleClient(Received(s, i, ReadData(s, i, data)), i, ev);
        if ready then WriteOut(s2, i, ev.write) else s2
  }

  /** One turn of the loop over the polled descriptors. */
  function HandleEvent(s: State, i: nat, ev: Event): State {
    var c := ClientAt(s, i);
    var re := ev.revents;
    if s.exited || re == NO_EVENTS then s
    else if re == POLLOUT then
      if c.resptr == None then CloseClient(s, i) else WriteOut(s, i, ev.write)
    else if re.pin && c.clientFd != 0 then
      WriteOut(HandleWorkerResponse(s, i, ev.out), i, ev.write)
    else if re.phup && !re.pin then
      if c.clientFd == 0 || c.clientFd == c.fd then CloseClient(s, i) else HandleWorkerResponse(s, i, ev.out)
    else if re != POLLIN then CloseClient(s, i)
    else ReadRequest(s, i, ev)
  }

  /** The first p turns. */
  function HandleEvents(s: State, evs: seq<Event>, p: nat): State {
    if p == 0 || p > |evs| then s else HandleEvent(HandleEvents(s, evs, p - 1), p - 1, evs[p - 1])
  }

  /** (n + 1) % m for an index n below m. */
  function NextBuf(n: nat, m: nat): nat {
    if n + 1 >= m then 0 else n + 1
  }

  /** The first idle buffer at or after n, going round; |busy| if all are taken. */
  function IdleFrom(busy: seq<bool>, n: nat, left: nat): (r: nat)
    ensures r < |busy| ==> !busy[r]
    decreases left
  {
    if left == 0 || n >= |busy| then |busy|
    else if !busy[n] then n
    else IdleFrom(busy, NextBuf(n, |busy|), left - 1)
  }

  /** Takes a new connection.  (When no buffer is idle the C code exits.) */
  function Accept(s: State): State {
    var u := IdleFrom(s.busy, s.nextBuf, |s.busy|);
    if u >= |s.busy| then s.(exited := true)
    else
      s.(clients := s.clients + [Client(s.nextFd, POLLIN, 0, u, s.now, 0, None, Null)],
         fds := s.fds[s.nextFd := Sock([])],
         nextFd := s.nextFd + 1,
         bufs := Put(s.bufs, u, []),
         busy := Put(s.busy, u, true),
         nextBuf := NextBuf(u, |s.busy|),
         accepting := s.accepting && |s.clients| + 3 < s.cfg.maxReq)
  }

  /** Both listeners: whether accept() gave a connection on each.  The second
      is passed over when the first filled the table. */
  function AcceptBoth(s: State, a: bool, b: bool): State {
    var s1 := if a then Accept(s) else s;
    if b && !s1.exited && |s1.clients| + 2 < s.cfg.maxReq then Accept(s1) else s1
  }

  function AgeIfDue(s: State): State {
    if Sub32(s.now, s.lastAge) >= s.agingMs then AgeCache(s.(lastAge := s.now), Expired) else s
  }

  predicate TimedOut(s: State, i: nat) {
    var c := ClientAt(s, i);
    c.fd != 0 && c.clientFd == 0 && Sub32(s.now, c.startedMs) > CLIENT_TIMEOUT_MS
  }

  /** The time-out loop over the first p clients. */
  function Timeouts(s: State, p: nat): State {
    if p == 0 then s
    else
      var s1 := Timeouts(s, p - 1);
      if TimedOut(s1, p - 1) then CloseClient(s1, p - 1) else s1
  }

  function OpenOnly(clients: seq<Client>): (r: seq<Client>)
    ensures |r| <= |clients|
  {
    if clients == [] then []
    else
      var last := clients[|clients| - 1];
      OpenOnly(clients[..|clients| - 1]) + if last.fd != 0 then [last] else []
  }

  /** What compaction leaves in the table, whatever min_closed and cnt_closed
      say: entry min_closed is overwritten unseen, and the last cnt_closed
      entries are cut off. */
  function Coalesced(clients: seq<Client>, minClosed: nat, cntClosed: nat): seq<Client> {
    var n := |clients|;
    if cntClosed > n then []
    else if minClosed + cntClosed >= n || minClosed >= n then clients[..n - cntClosed]
    else
      var kept := clients[..minClosed] + OpenOnly(clients[minClosed + 1..]);
      (kept + clients[|kept|..])[..n - cntClosed]
  }

  function Coalesce(s: State): State {
    if s.cntClosed == 0 then s
    else
      s.(clients := Coalesced(s.clients, if s.minClosed >= 2 then s.minClosed - 2 else 0, s.cntClosed),
         minClosed := INT_MAX, cntClosed := 0, accepting := true)
  }

  /** What a round does after the descriptors: ageing, time-outs, compaction. */
  function Tail(s: State): State {
    if s.exited then s
    else
      var s1 := AgeIfDue(s);
      Coalesce(Timeouts(s1, |s1.clients|))
  }

  datatype Poll =
    | Interrupted
    | NothingReady(now: nat)
    | Ready(now: nat, first: bool, second: bool, events: seq<Event>)

  /** The events of a round: a client accepted in it is taken to be readable. */
  function ForcedIn(evs: seq<Event>, polled: nat): (r: seq<Event>)
    ensures |r| == |evs|
    ensures forall j {:trigger r[j]} :: 0 <= j < |evs| ==>
            r[j] == if j < polled then evs[j] else evs[j].(revents := POLLIN)
  {
    seq(|evs|, j requires 0 <= j < |evs| => if j < polled then evs[j] else evs[j].(revents := POLLIN))
  }

  /** One round of main_loop(). */
  function Round(s: State, p: Poll): State {
    if s.exited then s
    else
      match p
      case Interrupted => s
      case NothingReady(now) => Tail(s.(now := now))
      case Ready(now, a, b, evs) =>
        var s1 := AcceptBoth(s.(now := now), a, b);
        Tail(HandleEvents(s1, ForcedIn(evs, |s.clients|), |s1.clients|))
  }

  function Run(s: State, polls: seq<Poll>): State {
    if polls == [] then s
    else Round(Run(s, polls[..|polls| - 1]), polls[|polls| - 1])
  }

  /** The timeout passed to poll(); None is -1, for ever. */
  function PollTimeout(s: State): Option<nat> {
    if |s.clients| == 0 && s.cachedCnt == 0 then None
    else if |s.clients| + 2 < s.cfg.maxReq then Some(s.agingMs)
    else Some(SMALL_POLL_TIMEOUT_MS)
  }

  /** The limits main() enforces on its configuration before the loop starts. */
  ghost predicate ConfigOk(cfg: Config) {
    && 8 <= cfg.maxReq <= 255
    && 8 < cfg.cacheSize <= 0xffff
    && (forall v :: 0 <= v < 3 ==> cfg.pttl.Of(v) < INT_MAX && cfg.nttl.Of(v) < INT_MAX)
  }

  /** The state main() hands to main_loop(). */
  function Init(cfg: Config, now: nat): State {
    var least := Min(cfg.nttl.passwd, Min(cfg.nttl.group, cfg.nttl.hosts));
    var minAging := if least / 2 % 2 == 0 then least / 2 + 1 else least / 2;
    State(cfg, [], true, seq(cfg.maxReq, _ => []), seq(cfg.maxReq, _ => false), 0,
          seq(8 * cfg.cacheSize, _ => Empty), map[], 0, map[], 1, 0, INT_MAX, 0, 1, 1,
          now, 0, minAging, minAging, false, {}, [], 0)
  }
}
