/** What the checks of handle_client() let through, and when they are made up
    their mind about a request that comes in pieces. */
module NscdVerdict {
  import opened Bytes
  import opened NscdModel
  import opened NscdInvariant
  import opened NscdClock

  /** The header can be that of a request. */
  predicate HeaderOk(req: seq<byte>) {
    |req| >= USER_HDR_SIZE && U32(req, 0) == NSCD_VERSION && U32(req, 8) <= MAX_KEY_LEN
  }

  /** With that many octets the verdict is not put off any more. */
  function Needed(req: seq<byte>): (n: nat)
    requires |req| >= USER_HDR_SIZE
    ensures USER_HDR_SIZE <= n <= MAX_USER_REQ_SIZE
  {
    if HeaderOk(req) then USER_HDR_SIZE + U32(req, 8) else USER_HDR_SIZE
  }

  /** The key is a string with its terminating zero, where the type asks for one. */
  predicate KeyTerminated(req: seq<byte>)
    requires |req| >= USER_HDR_SIZE
  {
    |req| == USER_HDR_SIZE || req[|req| - 1] == 0
  }

  /** The service a request is looked up under is the service of its type. */
  lemma KeyType(req: seq<byte>)
    requires |req| >= USER_HDR_SIZE
    ensures KeySrv(KeyOf(req)) == SrvOf(U32(req, 4)) == Setting(SERVICES, U32(req, 4))
  {
    assert U32(KeyOf(req), 0) == U32(req, 4);
    SettingOf(SERVICES, U32(req, 4));
  }

  /** GETPWBYNAME to GETHOSTBYADDRv6, GETAI and INITGROUPS: what is looked up. */
  const QUERY_TYPES: set<nat> := {0, 1, 2, 3, 4, 5, 6, 7, 14, 15}

  /** A query in good order for a service that is enabled. */
  ghost predicate QueryOk(cfg: Config, req: seq<byte>) {
    && HeaderOk(req) && Complete(req) && U32(req, 4) in QUERY_TYPES
    && Setting(cfg.srvEnable, U32(req, 4))
    && (U32(req, 4) in {6, 7} || KeyTerminated(req))
  }

  /** A query is looked up only when version, length, type, service and key are
      all right, whoever asks; and its service is flushed first exactly when
      that service's files are watched and have changed. */
  lemma QueryIff(cfg: Config, req: seq<byte>, ev: Event, flush: bool)
    ensures Judge(cfg, req, ev) == Query(flush) <==>
              && QueryOk(cfg, req)
              && (flush <==> Setting(cfg.checkFiles, U32(req, 4)) && ev.filesChanged)
  {
    if |req| >= USER_HDR_SIZE {
      SettingOf(cfg.srvEnable, U32(req, 4));
      SettingOf(cfg.checkFiles, U32(req, 4));
    }
  }

  /** What such a query finds when it looks itself up: after a flush no completed
      entry of its service, and of the others, as without a flush, all there was. */
  lemma QueryFlushes(s: State, i: nat, ev: Event, flush: bool, k: nat)
    requires Inv(s) && Judge(s.cfg, BufAt(s, ClientAt(s, i).bufidx), ev) == Query(flush)
    ensures var srv := Setting(SERVICES, U32(BufAt(s, ClientAt(s, i).bufidx), 4));
            var s1 := if flush then AgeCache(s, Service(srv)) else s;
            && HandleClient(s, i, ev) == Serve(s1, i)
            && if SlotAt(s, k).Done? then
                 && |SlotKey(s, k)| >= 8
                 && SlotAt(s1, k) == if flush && Setting(SERVICES, U32(SlotKey(s, k), 0)) == srv then Empty
                                     else SlotAt(s, k)
               else SlotAt(s1, k) == SlotAt(s, k)
  {
    var req := BufAt(s, ClientAt(s, i).bufidx);
    KeyType(req);
    FlushIsExact(s, SrvOf(U32(req, 4)), k);
  }

  /** The daemon is shut down, and its cache emptied, for nobody but root, and
      only by a whole request of that type; the latter with a terminated key. */
  lemma RootOnly(cfg: Config, req: seq<byte>, ev: Event)
    ensures Judge(cfg, req, ev) == Exit <==>
              ev.callerIsRoot && HeaderOk(req) && Complete(req) && U32(req, 4) == 8
    ensures Judge(cfg, req, ev) == FlushAll <==>
              && ev.callerIsRoot && HeaderOk(req) && Complete(req) && U32(req, 4) == 10
              && |req| > USER_HDR_SIZE && KeyTerminated(req)
  {
  }

  lemma PrefixHeader(req: seq<byte>, n: nat)
    requires USER_HDR_SIZE <= n <= |req|
    ensures U32(req[..n], 0) == U32(req, 0) && U32(req[..n], 4) == U32(req, 4) && U32(req[..n], 8) == U32(req, 8)
    ensures HeaderOk(req[..n]) == HeaderOk(req)
  {
  }

  /** However a stream of octets is cut into reads, the daemon reads on until it
      has what is needed and is through with the client after that: nothing is
      decided on less, and nothing but a close on more. */
  lemma PrefixVerdict(cfg: Config, req: seq<byte>, ev: Event, n: nat)
    requires USER_HDR_SIZE <= |req| && n <= |req|
    ensures Judge(cfg, req[..n], ev) == ReadMore <==> n < Needed(req)
    ensures n > Needed(req) || (n == Needed(req) && !HeaderOk(req)) ==> Judge(cfg, req[..n], ev) == Drop
  {
    if n >= USER_HDR_SIZE { PrefixHeader(req, n); }
  }
}
