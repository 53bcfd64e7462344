/** Reading and writing in pieces: read() and write() move as many octets as
    the kernel likes, the full_ versions move them all. */
module NscdPipes {
  import opened Bytes

  /** One direction of a pipe or socket. */
  class Stream {
    /** Whether a read fails once all of it has been read; otherwise that is the
        end of the stream. */
    const broken: bool
    /** What was written into it and has not been read yet. */
    var pending: seq<byte>
    /** How many writes have failed. */
    var refused: nat

    constructor (content: seq<byte>, fails: bool)
      ensures pending == content && broken == fails && refused == 0
    {
      broken := fails;
      pending := content;
      refused := 0;
    }

    /** Any number of octets up to len; none, or -1, only when there are none. */
    method SafeRead(len: nat) returns (cc: int, data: seq<byte>)
      requires len > 0
      modifies this`pending
      ensures old(pending) == data + pending
      ensures if old(pending) == [] then data == [] && cc == (if broken then -1 else 0) else 0 < cc == |data| <= len
    {
      if pending == [] {
        return if broken then -1 else 0, [];
      }
      var n: nat :| 0 < n <= len && n <= |pending|;
      data, pending := pending[..n], pending[n..];
      cc := n;
    }

    /** Whatever pieces the octets come in: all of len, or all there are, or -1
        when the stream breaks before. */
    method FullRead(len: nat) returns (total: int, data: seq<byte>)
      modifies this`pending
      ensures old(pending) == data + pending
      ensures |data| == if len < |old(pending)| then len else |old(pending)|
      ensures total == if |data| < len && broken then -1 else |data|
    {
      total, data := 0, [];
      var more: nat := len;
      while more > 0
        invariant old(pending) == data + pending && total == |data| && |data| + more == len
        decreases more
      {
        var cc, piece := SafeRead(more);
        if cc < 0 {
          return cc, data;
        }
        if cc == 0 {
          break;
        }
        data := data + piece;
        total := total + cc;
        more := more - cc;
      }
    }

    /** At least one octet of what is offered, in blocking mode, or -1. */
    method SafeWrite(buf: seq<byte>) returns (cc: int)
      requires buf != []
      modifies this`pending, this`refused
      ensures if cc < 0 then cc == -1 && pending == old(pending) && refused == old(refused) + 1
              else 0 < cc <= |buf| && pending == old(pending) + buf[..cc] && refused == old(refused)
    {
      var works: bool := *;
      if !works {
        refused := refused + 1;
        return -1;
      }
      var n: nat :| 0 < n <= |buf|;
      pending := pending + buf[..n];
      cc := n;
    }

    /** All of the octets in order, unless a write fails; then the octets before
        have gone out and the result is -1. */
    method FullWrite(buf: seq<byte>) returns (total: int)
      modifies this`pending, this`refused
      ensures if total < 0 then total == -1 && refused == old(refused) + 1
              && old(pending) <= pending < old(pending) + buf
              else total == |buf| && refused == old(refused) && pending == old(pending) + buf
    {
      var n := 0;
      total := 0;
      while n < |buf|
        invariant total == n <= |buf| && pending == old(pending) + buf[..n] && refused == old(refused)
      {
        var cc := SafeWrite(buf[n..]);
        if cc < 0 {
          assert old(pending) + buf == pending + buf[n..];
          return cc;
        }
        assert buf[..n] + buf[n..][..cc] == buf[..n + cc];
        n := n + cc;
        total := total + cc;
      }
      assert buf[..n] == buf;
    }
  }
}
