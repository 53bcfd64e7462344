/** From what a worker looked up to what its client reads, through the daemon. */
module NscdEndToEnd {
  import opened Bytes
  import opened NscdModel
  import opened NscdLayout
  import opened NscdTheorems

  /** Whoever asked this was given this reply by the worker. */
  ghost predicate AlwaysAnswered(s: State, request: seq<byte>, resp: seq<byte>) {
    forall a :: a in s.answers && a.key == KeyOf(request) ==> a.out == Output(resp)
  }

  /** In every reachable state a client that was served got what a worker's
      reply to its request looks like on the wire, and nothing else. */
  lemma ServedSees(s: State, e: Served, resp: seq<byte>)
    requires Reachable(s) && e in s.served && AlwaysAnswered(s, e.request, resp)
    ensures e.sent == Seen(resp)
  {
    RightAnswers(s, e);
    var a :| a in s.answers && a.key == KeyOf(e.request) && ValidReply(a.out) && e.sent == Wire(ReplyBytes(a.out));
    assert a.out == Output(resp);
  }

  lemma ServedReadsPasswd(s: State, e: Served, pw: Passwd)
    requires Reachable(s) && e in s.served && PasswdSize(pw) <= MAX_REPLY_SIZE
    requires AlwaysAnswered(s, e.request, PasswdLayout(Some(pw)))
    ensures ReadPasswd(e.sent) == Some(Some(pw))
  {
    ServedSees(s, e, PasswdLayout(Some(pw)));
    PasswdRoundTrip(pw);
  }

  lemma ServedReadsGroup(s: State, e: Served, gr: Group)
    requires Reachable(s) && e in s.served && GroupSize(gr) <= MAX_REPLY_SIZE
    requires AlwaysAnswered(s, e.request, GroupLayout(Some(gr)))
    ensures ReadGroup(e.sent) == Some(Some(gr))
  {
    ServedSees(s, e, GroupLayout(Some(gr)));
    GroupRoundTrip(gr);
  }

  lemma ServedReadsHostent(s: State, e: Served, h: Hostent)
    requires Reachable(s) && e in s.served && HostentOk(h) && HostentSize(h) <= MAX_REPLY_SIZE && |h.addrs| < TWO32
    requires AlwaysAnswered(s, e.request, HostentLayout(Some(h)))
    ensures ReadHostent(e.sent) == Some(Host(h))
  {
    ServedSees(s, e, HostentLayout(Some(h)));
    HostentRoundTrip(h);
  }

  lemma ServedReadsAddrInfo(s: State, e: Served, ai: AddrInfo)
    requires Reachable(s) && e in s.served && AddrInfoOk(ai) && AddrInfoSize(ai) <= MAX_REPLY_SIZE
    requires AlwaysAnswered(s, e.request, AddrInfoLayout(Addrs(ai)))
    ensures ReadAddrInfo(e.sent) == Some(Addrs(ai))
  {
    ServedSees(s, e, AddrInfoLayout(Addrs(ai)));
    AddrInfoRoundTrip(ai);
  }
}
