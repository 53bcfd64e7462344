/** Compaction of the client table: a stable filter that keeps the invariant. */
module NscdCompact {
  import opened Bytes
  import opened NscdModel
  import opened NscdInvariant
  import opened NscdFrame
  import opened NscdSweep
  import opened NscdServe

  ghost predicate NoneClosed(s: State) {
    forall j: nat :: j < |s.clients| ==> s.clients[j].fd != 0
  }

  // -------------------------------------------------- the filter on its own

  function ClosedIn(clients: seq<Client>): set<nat> {
    set i: nat | i < |clients| && clients[i].fd == 0
  }

  lemma {:induction false} OpenOnlyConcat(a: seq<Client>, b: seq<Client>)
    ensures OpenOnly(a + b) == OpenOnly(a) + OpenOnly(b)
  {
    if b == [] {
      assert a + b == a;
    } else {
      var front := b[..|b| - 1];
      assert (a + b)[..|a + b| - 1] == a + front;
      OpenOnlyConcat(a, front);
    }
  }

  lemma {:induction false} OpenOnlyOfOpen(a: seq<Client>)
    requires ClosedIn(a) == {}
    ensures OpenOnly(a) == a
  {
    if a != [] {
      var front := a[..|a| - 1];
      assert |a| - 1 !in ClosedIn(a);
      forall i: nat ensures i !in ClosedIn(front) { assert i !in ClosedIn(a); }
      OpenOnlyOfOpen(front);
    }
  }

  lemma {:induction false} OpenOnlyLength(a: seq<Client>)
    ensures |OpenOnly(a)| + |ClosedIn(a)| == |a|
  {
    if a != [] {
      var front := a[..|a| - 1];
      OpenOnlyLength(front);
      if a[|a| - 1].fd == 0 {
        assert ClosedIn(a) == ClosedIn(front) + {|a| - 1};
      } else {
        assert ClosedIn(a) == ClosedIn(front);
      }
    }
  }

  lemma SplitAtFirst(clients: seq<Client>, least: nat)
    requires least in ClosedIn(clients)
    requires forall i :: i in ClosedIn(clients) ==> least <= i
    ensures OpenOnly(clients) == clients[..least] + OpenOnly(clients[least + 1..])
  {
    var head, tail := clients[..least], clients[least + 1..];
    assert clients == head + ([clients[least]] + tail);
    OpenOnlyConcat(head, [clients[least]] + tail);
    OpenOnlyConcat([clients[least]], tail);
    OpenOnlyOfOpen(head) by {
      forall i: nat ensures i !in ClosedIn(head) { assert i in ClosedIn(clients) ==> least <= i; }
    }
    assert OpenOnly([clients[least]]) == [];
  }

  lemma PrefixOfConcat<T>(a: seq<T>, b: seq<T>)
    ensures (a + b)[..|a|] == a
  {
  }

  /** With the first closed index and the number of closed entries, both the
      short cut and the shifting loop leave exactly the open clients, in their
      old order. */
  lemma CompactionIsStableFilter(clients: seq<Client>, least: nat)
    requires least in ClosedIn(clients)
    requires forall i :: i in ClosedIn(clients) ==> least <= i
    ensures Coalesced(clients, least, |ClosedIn(clients)|) == OpenOnly(clients)
  {
    var n := |clients|;
    var kept := clients[..least] + OpenOnly(clients[least + 1..]);
    SplitAtFirst(clients, least);
    OpenOnlyLength(clients);
    if least + |ClosedIn(clients)| >= n {
      assert |kept| == least && kept == clients[..least];
    } else {
      PrefixOfConcat(kept, clients[|kept|..]);
    }
  }

  /** Where the j-th open client was before compaction. */
  function OldIndex(clients: seq<Client>, j: nat): (i: nat)
    requires j < |OpenOnly(clients)|
    ensures i < |clients| && clients[i] == OpenOnly(clients)[j] && clients[i].fd != 0
  {
    var front := clients[..|clients| - 1];
    if j < |OpenOnly(front)| then OldIndex(front, j) else |clients| - 1
  }

  lemma {:induction false} OldIndexIncreases(clients: seq<Client>, j: nat, l: nat)
    requires j < l < |OpenOnly(clients)|
    ensures OldIndex(clients, j) < OldIndex(clients, l)
  {
    var front := clients[..|clients| - 1];
    if l < |OpenOnly(front)| { OldIndexIncreases(front, j, l); }
  }

  lemma {:induction false} OpenClientStays(clients: seq<Client>, i: nat) returns (j: nat)
    requires i < |clients| && clients[i].fd != 0
    ensures j < |OpenOnly(clients)| && OldIndex(clients, j) == i
  {
    var front := clients[..|clients| - 1];
    if i < |front| {
      j := OpenClientStays(front, i);
    } else {
      j := |OpenOnly(front)|;
    }
  }

  // --------------------------------------------------------- holders counted

  function CountHolders(clients: seq<Client>, b: nat): nat {
    if clients == [] then 0
    else
      var last := clients[|clients| - 1];
      CountHolders(clients[..|clients| - 1], b) + if last.fd != 0 && last.resptr == Some(b) then 1 else 0
  }

  function HoldersIn(clients: seq<Client>, b: nat): set<nat> {
    set i: nat | i < |clients| && clients[i].fd != 0 && clients[i].resptr == Some(b)
  }

  lemma {:induction false} HoldersCounted(clients: seq<Client>, b: nat)
    ensures |HoldersIn(clients, b)| == CountHolders(clients, b)
  {
    if clients != [] {
      var front := clients[..|clients| - 1];
      var last := clients[|clients| - 1];
      HoldersCounted(front, b);
      if last.fd != 0 && last.resptr == Some(b) {
        assert HoldersIn(clients, b) == HoldersIn(front, b) + {|clients| - 1};
      } else {
        assert HoldersIn(clients, b) == HoldersIn(front, b);
      }
    }
  }

  lemma {:induction false} CountKept(clients: seq<Client>, b: nat)
    ensures CountHolders(OpenOnly(clients), b) == CountHolders(clients, b)
  {
    if clients != [] {
      var front := clients[..|clients| - 1];
      var last := clients[|clients| - 1];
      CountKept(front, b);
      if last.fd != 0 {
        assert OpenOnly(clients)[..|OpenOnly(clients)| - 1] == OpenOnly(front);
      } else {
        assert OpenOnly(clients) == OpenOnly(front);
      }
    }
  }

  // -------------------------------------------------- the table of the daemon

  ghost predicate Compacts(s: State, r: State) {
    && r == s.(clients := OpenOnly(s.clients), minClosed := INT_MAX, cntClosed := 0, accepting := true)
    && |r.clients| < |s.clients|
  }

  lemma CoalesceEffect(s: State)
    requires Inv(s) && s.cntClosed != 0
    ensures Compacts(s, Coalesce(s))
  {
    assert ClosedIn(s.clients) == ClosedSet(s);
    assert ClosedSet(s) != {};
    CompactionIsStableFilter(s.clients, s.minClosed - 2);
    OpenOnlyLength(s.clients);
  }

  lemma CompactTables(s: State, r: State)
    requires Core(s) && Compacts(s, r)
    ensures Tables(r)
  {
    forall j: nat ensures EntryOk(r, j) {
      if j < |r.clients| {
        var i := OldIndex(s.clients, j);
        assert EntryOk(s, i);
        ClientFrame(s, r, s.clients[i]);
      }
    }
    forall k: nat ensures SlotOk(r, k) {
      assert SlotOk(s, k);
      if SlotAt(s, k).Future? {
        var i: nat :| OwnsSlot(s, i, k);
        var j := OpenClientStays(s.clients, i);
        assert OwnsSlot(r, j, k);
      }
    }
    forall k: nat, j: nat ensures KeysDiffer(r, k, j) { assert KeysDiffer(s, k, j); }
    forall j: nat, l: nat ensures BufsDiffer(r, j, l) {
      if j < |r.clients| && l < |r.clients| && j != l {
        var (i, m) := (OldIndex(s.clients, j), OldIndex(s.clients, l));
        if j < l { OldIndexIncreases(s.clients, j, l); } else { OldIndexIncreases(s.clients, l, j); }
        assert BufsDiffer(s, i, m);
      }
    }
    forall u: nat ensures BufOwned(r, u) {
      assert BufOwned(s, u);
      if u < |r.busy| && r.busy[u] {
        var i: nat :| UsesBuf(s, i, u);
        var j := OpenClientStays(s.clients, i);
        assert UsesBuf(r, j, u);
      }
    }
  }

  lemma CompactFds(s: State, r: State)
    requires Core(s) && Compacts(s, r)
    ensures Fds(r)
  {
    forall fd: int ensures FdOwned(r, fd) {
      assert FdOwned(s, fd);
      if fd in r.fds {
        var i: nat :| UsesFd(s, i, fd);
        var j := OpenClientStays(s.clients, i);
        assert UsesFd(r, j, fd);
      }
    }
    forall j: nat, l: nat ensures FdsDiffer(r, j, l) {
      if j < |r.clients| && l < |r.clients| && j != l {
        var (i, m) := (OldIndex(s.clients, j), OldIndex(s.clients, l));
        if j < l { OldIndexIncreases(s.clients, j, l); } else { OldIndexIncreases(s.clients, l, j); }
        assert FdsDiffer(s, i, m);
      }
    }
  }

  lemma CompactRefs(s: State, r: State)
    requires Core(s) && Compacts(s, r)
    ensures Refs(r)
  {
    forall b: nat ensures RefOk(r, b) {
      assert RefOk(s, b);
      assert SlotsOf(r, b) == SlotsOf(s, b);
      assert HoldersOf(s, b) == HoldersIn(s.clients, b) && HoldersOf(r, b) == HoldersIn(r.clients, b);
      HoldersCounted(s.clients, b);
      HoldersCounted(r.clients, b);
      CountKept(s.clients, b);
    }
  }

  lemma CompactSleep(s: State, r: State)
    requires Sleep(s) && Compacts(s, r)
    ensures Sleep(r)
  {
    if WorkerOutstanding(s) {
      var i: nat :| i < |s.clients| && IsOwner(s.clients[i]);
      var j := OpenClientStays(s.clients, i);
      assert IsOwner(r.clients[j]);
    }
    assert HasCompleted(r) ==> HasCompleted(s);
  }

  /** Compaction keeps the invariant and leaves only open clients. */
  lemma CoalesceInv(s: State)
    requires Inv(s)
    ensures Inv(Coalesce(s)) && NoneClosed(Coalesce(s))
  {
    var r := Coalesce(s);
    if s.cntClosed == 0 {
      assert ClosedSet(s) == {};
      forall j: nat | j < |s.clients| ensures s.clients[j].fd != 0 { assert j !in ClosedSet(s); }
    } else {
      CoalesceEffect(s);
      CompactTables(s, r);
      CompactFds(s, r);
      CompactRefs(s, r);
      CompactSleep(s, r);
      HistoryFrame(s, r);
      CachedFrame(s, r);
      forall j: nat | j < |r.clients| ensures r.clients[j].fd != 0 {
        var i := OldIndex(s.clients, j);
      }
      assert ClosedSet(r) == {};
    }
  }
}
