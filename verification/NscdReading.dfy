/** Reading from clients: in however many pieces a request comes. */
module NscdReading {
  import opened Bytes
  import opened NscdModel
  import opened NscdInvariant
  import opened NscdClose
  import opened NscdVerdict
  import opened NscdProgress

  /** The octets client i has sent so far. */
  function Request(s: State, i: nat): seq<byte> {
    BufAt(s, ClientAt(s, i).bufidx)
  }

  /** The client is read from: nothing yet, the end, or an error. */
  lemma ReadStops(s: State, i: nat, ev: Event)
    requires Inv(s) && i < |s.clients| && IsReading(s.clients[i]) && !s.exited && ev.revents == POLLIN
    ensures ev.read == ReadAgain ==> HandleEvent(s, i, ev) == s
    ensures ev.read == ReadFailed || ev.read == Got([]) ==> Dropped(s, i, HandleEvent(s, i, ev))
  {
    CloseDrops(s, i);
  }

  /** The state in which client i has sent these octets. */
  function HavingSent(s: State, i: nat, req: seq<byte>): State {
    s.(bufs := Put(s.bufs, ClientAt(s, i).bufidx, req))
  }

  predicate MoreToCome(req: seq<byte>) {
    |req| < USER_HDR_SIZE || |req| < Needed(req)
  }

  /** One read of some octets. */
  function Reads(ev: Event, data: seq<byte>): Event {
    ev.(revents := POLLIN, read := Got(data))
  }

  ghost predicate Listening(s: State, i: nat) {
    && i < |s.clients| && IsReading(s.clients[i]) && !s.exited
    && s.clients[i].bufidx < |s.bufs|
  }

  lemma OneRead(s: State, i: nat, ev: Event, have: seq<byte>, data: seq<byte>)
    requires Listening(s, i) && data != [] && |have + data| <= MAX_USER_REQ_SIZE
    ensures var (r, ready) := HandleClient(HavingSent(s, i, have + data), i, ev);
            HandleEvent(HavingSent(s, i, have), i, Reads(ev, data)) == if ready then WriteOut(r, i, ev.write) else r
    ensures MoreToCome(have + data) ==>
      HandleEvent(HavingSent(s, i, have), i, Reads(ev, data)) == HavingSent(s, i, have + data)
  {
    var s1 := HavingSent(s, i, have);
    assert ReadData(s1, i, data) == data;
    assert Received(s1, i, data) == HavingSent(s, i, have + data);
    JudgedAlike(s.cfg, have + data, Reads(ev, data), ev);
    if MoreToCome(have + data) { StillMore(s.cfg, have + data, ev); }
  }

  /** The verdict does not depend on what the event says of the socket. */
  lemma JudgedAlike(cfg: Config, req: seq<byte>, a: Event, b: Event)
    requires a.callerIsRoot == b.callerIsRoot && a.filesChanged == b.filesChanged
    ensures Judge(cfg, req, a) == Judge(cfg, req, b)
  {
  }

  lemma StillMore(cfg: Config, req: seq<byte>, ev: Event)
    requires MoreToCome(req)
    ensures Judge(cfg, req, ev) == ReadMore
  {
    if |req| >= USER_HDR_SIZE {
      PrefixVerdict(cfg, req, ev, |req|);
      assert req[..|req|] == req;
    }
  }

  /** The turns in which client i sends these pieces. */
  function Feed(s: State, i: nat, ev: Event, pieces: seq<seq<byte>>): State {
    if pieces == [] then s
    else HandleEvent(Feed(s, i, ev, pieces[..|pieces| - 1]), i, Reads(ev, pieces[|pieces| - 1]))
  }

  /** Every piece has octets in it, and all but the last leave more to come. */
  ghost predicate Pieces(have: seq<byte>, pieces: seq<seq<byte>>) {
    && (forall k :: 0 <= k < |pieces| ==> pieces[k] != [])
    && (forall n: nat :: n < |pieces| ==> MoreToCome(have + Joined(pieces[..n])))
    && |have + Joined(pieces)| <= MAX_USER_REQ_SIZE
  }

  lemma JoinedBound(pieces: seq<seq<byte>>, n: nat)
    requires n <= |pieces|
    ensures |Joined(pieces[..n])| <= |Joined(pieces)|
  {
    assert pieces == pieces[..n] + pieces[n..];
    JoinedOfConcat(pieces[..n], pieces[n..]);
  }

  /** What has come with one piece more. */
  lemma OnePieceMore(have: seq<byte>, pieces: seq<seq<byte>>, m: nat, sent: seq<byte>)
    requires Pieces(have, pieces) && m < |pieces| && sent == have + Joined(pieces[..m])
    ensures pieces[m] != [] && sent + pieces[m] == have + Joined(pieces[..m + 1])
    ensures |sent + pieces[m]| <= MAX_USER_REQ_SIZE
    ensures m + 1 < |pieces| ==> MoreToCome(sent + pieces[m])
  {
    JoinedLast(pieces, m);
    JoinedBound(pieces, m + 1);
    assert sent + pieces[m] == have + (Joined(pieces[..m]) + pieces[m]);
  }

  lemma FeedNext(s: State, i: nat, ev: Event, pieces: seq<seq<byte>>, m: nat)
    requires m < |pieces|
    ensures Feed(s, i, ev, pieces[..m + 1]) == HandleEvent(Feed(s, i, ev, pieces[..m]), i, Reads(ev, pieces[m]))
  {
    assert pieces[..m + 1][..m] == pieces[..m];
  }

  lemma FeedStep(s: State, i: nat, ev: Event, pieces: seq<seq<byte>>, m: nat, sent: seq<byte>, next: seq<byte>)
    requires Listening(s, i) && m < |pieces| && pieces[m] != []
    requires sent + pieces[m] == next && |next| <= MAX_USER_REQ_SIZE && MoreToCome(next)
    requires Feed(s, i, ev, pieces[..m]) == HavingSent(s, i, sent)
    ensures Feed(s, i, ev, pieces[..m + 1]) == HavingSent(s, i, next)
  {
    OneRead(s, i, ev, sent, pieces[m]);
    FeedNext(s, i, ev, pieces, m);
  }

  lemma {:induction false} FeedFront(s: State, i: nat, ev: Event, pieces: seq<seq<byte>>, n: nat)
    requires Listening(s, i) && Pieces(Request(s, i), pieces) && n < |pieces|
    ensures Feed(s, i, ev, pieces[..n]) == HavingSent(s, i, Request(s, i) + Joined(pieces[..n]))
  {
    var have := Request(s, i);
    if n == 0 {
      assert have + Joined(pieces[..0]) == have;
    } else {
      var m := n - 1;
      var sent := have + Joined(pieces[..m]);
      FeedFront(s, i, ev, pieces, m);
      OnePieceMore(have, pieces, m, sent);
      FeedStep(s, i, ev, pieces, m, sent, have + Joined(pieces[..m + 1]));
      assert m + 1 == n;
    }
  }

  lemma LastRead(s: State, i: nat, ev: Event, sent: seq<byte>, last: seq<byte>, have: seq<byte>, all: seq<byte>)
    requires Listening(s, i) && last != [] && all != [] && sent + last == have + all
    requires |have + all| <= MAX_USER_REQ_SIZE
    ensures HandleEvent(HavingSent(s, i, sent), i, Reads(ev, last)) ==
            HandleEvent(HavingSent(s, i, have), i, Reads(ev, all))
  {
    OneRead(s, i, ev, sent, last);
    OneRead(s, i, ev, have, all);
  }

  lemma WholePieces(have: seq<byte>, pieces: seq<seq<byte>>, n: nat)
    requires Pieces(have, pieces) && |pieces| == n + 1
    ensures pieces[n] != [] && (have + Joined(pieces[..n])) + pieces[n] == have + Joined(pieces)
    ensures Joined(pieces) != [] && |have + Joined(pieces)| <= MAX_USER_REQ_SIZE
  {
    OnePieceMore(have, pieces, n, have + Joined(pieces[..n]));
    assert pieces[..n + 1] == pieces;
    JoinedLast(pieces, n);
  }

  lemma FeedAll(s: State, i: nat, ev: Event, pieces: seq<seq<byte>>)
    requires Listening(s, i) && pieces != [] && Pieces(Request(s, i), pieces)
    ensures Feed(s, i, ev, pieces) == HandleEvent(HavingSent(s, i, Request(s, i)), i, Reads(ev, Joined(pieces)))
  {
    var have, n := Request(s, i), |pieces| - 1;
    FeedFront(s, i, ev, pieces, n);
    WholePieces(have, pieces, n);
    LastRead(s, i, ev, have + Joined(pieces[..n]), pieces[n], have, Joined(pieces));
    FeedNext(s, i, ev, pieces, n);
    assert pieces[..n + 1] == pieces;
  }

  lemma NothingSent(s: State, i: nat)
    requires Inv(s) && i < |s.clients| && IsReading(s.clients[i]) && !s.exited
    ensures Listening(s, i) && HavingSent(s, i, Request(s, i)) == s
  {
    assert EntryOk(s, i);
  }

  /** In however many pieces a request comes, it is handled as if it had come at
      once. */
  lemma PiecesLikeWhole(s: State, i: nat, ev: Event, pieces: seq<seq<byte>>)
    requires Inv(s) && i < |s.clients| && IsReading(s.clients[i]) && !s.exited
    requires pieces != [] && Pieces(Request(s, i), pieces)
    ensures Feed(s, i, ev, pieces) == HandleEvent(s, i, Reads(ev, Joined(pieces)))
  {
    NothingSent(s, i);
    FeedAll(s, i, ev, pieces);
  }
}
