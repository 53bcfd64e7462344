/** What every write comes to, and that a client which keeps taking octets is
    served. */
module NscdProgress {
  import opened Bytes
  import opened NscdModel
  import opened NscdInvariant
  import opened NscdFrame
  import opened NscdSweep
  import opened NscdClose
  import opened NscdTransfer

  /** Client i was closed without having got its answer; nobody else was. */
  ghost predicate Closed(s: State, i: nat, r: State) {
    && i < |s.clients| && |r.clients| == |s.clients|
    && r.clients[i].fd == 0 && s.clients[i].fd !in r.fds && SockFd(s.clients[i]) !in r.fds
    && (forall j: nat :: j < |s.clients| && j != i ==> r.clients[j] == s.clients[j])
    && r.served == s.served && r.exited == s.exited
  }

  ghost predicate Dropped(s: State, i: nat, r: State) {
    Closed(s, i, r) && r.cache == s.cache
  }

  lemma CloseDrops(s: State, i: nat)
    requires Inv(s) && MayClose(s, i)
    ensures Dropped(s, i, CloseClient(s, i))
  {
    CloseEffect(s, i);
    CloseRestEffect(s, i);
  }

  /** n more octets of its answer have gone out to client i, which is as it was
      but for that. */
  ghost predicate SentMore(s: State, i: nat, n: nat, r: State) {
    && i < |s.clients| && |r.clients| == |s.clients|
    && s.clients[i].resptr.Some?
    && r.clients == s.clients[i := s.clients[i].(respos := s.clients[i].respos + n)]
    && var resp := Blk(s, s.clients[i].resptr.value).resp;
    && Blk(r, s.clients[i].resptr.value).resp == resp
    && r.clients[i].respos <= |resp|
    && FdSent(r, s.clients[i].fd) == Wire(resp)[..r.clients[i].respos]
    && r.served == s.served
  }

  /** Client i has got all of its answer and was closed. */
  ghost predicate Finished(s: State, i: nat, r: State) {
    && i < |s.clients| && |r.clients| == |s.clients|
    && s.clients[i].resptr.Some?
    && r.clients[i].fd == 0 && s.clients[i].fd !in r.fds
    && (forall j: nat :: j < |s.clients| && j != i ==> r.clients[j] == s.clients[j])
    && r.served == s.served + [Served(s.clients[i].fd, BufAt(s, s.clients[i].bufidx),
                                      Wire(Blk(s, s.clients[i].resptr.value).resp))]
  }

  lemma ProgressIsMore(s: State, i: nat, n: nat)
    requires Core(s) && CanSend(s, i, n)
    ensures SentMore(s, i, n, Progress(s, i, n))
  {
    ProgressEffect(s, i, n);
  }

  lemma WritesSome(s: State, i: nat, n: nat)
    requires CanSend(s, i, n) && 0 < n && CanSend(s, i, n + 1)
    ensures WriteOut(s, i, Took(n)) == Progress(s, i, n)
  {
  }

  lemma WritesPart(s: State, i: nat, n: nat)
    requires Inv(s) && CanSend(s, i, n) && 0 < n && CanSend(s, i, n + 1)
    ensures SentMore(s, i, n, WriteOut(s, i, Took(n)))
  {
    WritesSome(s, i, n);
    ProgressIsMore(s, i, n);
  }

  /** The state in which the last octets have been noted as sent. */
  function Noted(s: State, i: nat, n: nat): State {
    var s1, c := Progress(s, i, n), ClientAt(s, i);
    s1.(served := s1.served + [Served(c.fd, BufAt(s, c.bufidx), FdSent(s1, c.fd))])
  }

  lemma NotedOk(s: State, i: nat, n: nat)
    requires Inv(s) && CanSend(s, i, n) && !CanSend(s, i, n + 1)
    ensures var t := Noted(s, i, n);
            && Inv(t) && MayClose(t, i) && t.clients[i].fd == s.clients[i].fd
            && |t.clients| == |s.clients|
            && (forall j: nat :: j < |s.clients| && j != i ==> t.clients[j] == s.clients[j])
            && t.served == s.served + [Served(s.clients[i].fd, BufAt(s, s.clients[i].bufidx),
                                              Wire(Blk(s, s.clients[i].resptr.value).resp))]
  {
    var c := s.clients[i];
    var resp := Blk(s, c.resptr.value).resp;
    var s1 := Progress(s, i, n);
    ProgressEffect(s, i, n);
    ProgressInv(s, i, n);
    assert Wire(resp)[..|resp|] == Wire(resp);
    ServedInv(s1, i, Served(c.fd, BufAt(s, c.bufidx), FdSent(s1, c.fd)));
  }

  lemma WritesLast(s: State, i: nat, n: nat)
    requires CanSend(s, i, n) && 0 < n && !CanSend(s, i, n + 1)
    ensures WriteOut(s, i, Took(n)) == CloseClient(Noted(s, i, n), i)
  {
  }

  lemma WritesRest(s: State, i: nat, n: nat)
    requires Inv(s) && CanSend(s, i, n) && 0 < n && !CanSend(s, i, n + 1)
    ensures Finished(s, i, WriteOut(s, i, Took(n)))
  {
    NotedOk(s, i, n);
    WritesLast(s, i, n);
    CloseDrops(Noted(s, i, n), i);
  }

  lemma SameTake(s: State, i: nat, most: nat)
    requires CanSend(s, i, 0)
    ensures var left := |Blk(s, s.clients[i].resptr.value).resp| - s.clients[i].respos;
            WriteOut(s, i, Took(most)) == WriteOut(s, i, Took(Min(most, left)))
  {
  }

  /** One write to a client whose socket is ready for `most` octets: some but not
      all, the rest, or none. */
  lemma WriteOutcome(s: State, i: nat, most: nat)
    requires Inv(s) && CanSend(s, i, 0)
    ensures var left := |Blk(s, s.clients[i].resptr.value).resp| - s.clients[i].respos;
            var n := Min(most, left);
            var r := WriteOut(s, i, Took(most));
            && (0 < n < left ==> SentMore(s, i, n, r) && IsWriting(r.clients[i]))
            && (0 < n == left ==> Finished(s, i, r))
            && (n == 0 ==> Dropped(s, i, r))
  {
    var left := |Blk(s, s.clients[i].resptr.value).resp| - s.clients[i].respos;
    var n := Min(most, left);
    SameTake(s, i, most);
    if n == 0 { CloseDrops(s, i); }
    else if n < left { WritesPart(s, i, n); }
    else { WritesRest(s, i, n); }
  }

  /** A write that would block changes nothing; one that fails ends it. */
  lemma WriteStops(s: State, i: nat)
    requires Inv(s) && CanSend(s, i, 0)
    ensures WriteOut(s, i, WriteAgain) == s
    ensures Dropped(s, i, WriteOut(s, i, WriteFailed))
  {
    CloseDrops(s, i);
  }
}
