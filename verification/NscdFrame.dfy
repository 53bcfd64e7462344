/** When a step leaves a client or a slot alone. */
module NscdFrame {
  import opened NscdModel
  import opened NscdInvariant

  ghost predicate SameBlock(s: State, r: State, b: nat) {
    b in s.heap ==> b in r.heap && r.heap[b].key == s.heap[b].key && r.heap[b].resp == s.heap[b].resp
  }

  ghost predicate SameFd(s: State, r: State, fd: int) {
    fd in s.fds ==> fd in r.fds && r.fds[fd] == s.fds[fd]
  }

  ghost predicate SameSlot(s: State, r: State, k: nat) {
    && SlotKey(r, k) == SlotKey(s, k)
    && (SlotAt(s, k).Future? ==>
          && SlotAt(r, k).Future?
          && SlotAt(r, k).buf == SlotAt(s, k).buf
          && (SlotAt(s, k).shared ==> SlotAt(r, k).shared))
  }

  /** A client whose own things are untouched by a step is as good as before. */
  lemma ClientFrame(s: State, r: State, c: Client)
    requires ClientOk(s, c) && c.fd != 0
    requires |r.bufs| == |s.bufs| && BufAt(r, c.bufidx) == BufAt(s, c.bufidx)
    requires |r.cache| == |s.cache|
    requires c.bufidx < |r.busy| && r.busy[c.bufidx]
    requires SameFd(s, r, c.fd) && SameFd(s, r, SockFd(c))
    requires c.cachePp.At? ==> SameSlot(s, r, c.cachePp.slot)
    requires c.resptr.Some? ==> SameBlock(s, r, c.resptr.value)
    requires c.resptr.Some? && c.cachePp == Null && Blk(s, c.resptr.value).refcount == 0 ==>
             Blk(r, c.resptr.value).refcount == 0
    ensures ClientOk(r, c)
  {
  }

  /** Two clients never share a buffer or a descriptor. */
  lemma Apart(s: State, i: nat, j: nat)
    requires Tables(s) && Fds(s)
    requires i < |s.clients| && j < |s.clients| && i != j && s.clients[i].fd != 0 && s.clients[j].fd != 0
    ensures s.clients[i].bufidx != s.clients[j].bufidx
    ensures s.clients[i].fd != s.clients[j].fd && SockFd(s.clients[i]) != s.clients[j].fd
    ensures s.clients[i].fd != SockFd(s.clients[j]) && SockFd(s.clients[i]) != SockFd(s.clients[j])
  {
    assert BufsDiffer(s, i, j) && FdsDiffer(s, i, j);
  }

  /** A future slot has one owner. */
  lemma OneOwner(s: State, i: nat, j: nat, k: nat)
    requires Tables(s) && OwnsSlot(s, i, k) && OwnsSlot(s, j, k)
    ensures i == j
  {
    assert BufsDiffer(s, i, j);
  }

  /** With a reference count of zero there is one holder. */
  lemma SoleHolder(s: State, i: nat)
    requires Tables(s) && Refs(s)
    requires i < |s.clients| && s.clients[i].fd != 0 && s.clients[i].resptr.Some?
    ensures s.clients[i].resptr.value in s.heap
    ensures s.heap[s.clients[i].resptr.value].refcount == 0 ==>
      SlotsOf(s, s.clients[i].resptr.value) == {} && HoldersOf(s, s.clients[i].resptr.value) == {i}
  {
    var b := s.clients[i].resptr.value;
    assert EntryOk(s, i);
    assert RefOk(s, b);
    assert i in HoldersOf(s, b);
    if s.heap[b].refcount == 0 {
      assert |HoldersOf(s, b) - {i}| == |HoldersOf(s, b)| - 1;
      assert HoldersOf(s, b) - {i} == {};
    }
  }
}
