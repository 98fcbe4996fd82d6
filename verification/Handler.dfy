/**
 * The echo handler of handler.cc: bytes received are queued in `readBuf`, moved to `writeBuf`, and
 * written back. The socket is an environment that follows an arbitrary script, so that recv and
 * write take any amount up to the one offered, would block, or fail, in any order.
 */
module Handler {
  import opened Common
  import opened Buffer

  /** What the peer and the network do next when the handler receives. */
  datatype Incoming =
    | Arrives(data: seq<byte>)  // no data: the peer has closed
    | RecvAgain                 // EAGAIN, EWOULDBLOCK or EINTR
    | RecvError

  /** What happens next when the handler writes. */
  datatype Outgoing =
    | Takes(more: nat)          // up to 1 + more bytes
    | WriteAgain                // EAGAIN or EINTR
    | WriteError

  function Weight(script: seq<Incoming>): nat {
    if script == [] then 0
    else Weight(script[1..]) + 1 + if script[0].Arrives? then |script[0].data| else 0
  }

  /** The bytes that the peer sends in all. */
  function Pending(script: seq<Incoming>): seq<byte> {
    if script == [] then [] else (if script[0].Arrives? then script[0].data else []) + Pending(script[1..])
  }

  /** The peer has sent data, and they are there now. */
  predicate DataNext(script: seq<Incoming>) {
    script != [] && script[0].Arrives? && script[0].data != []
  }

  /** Neither an error nor the end of the connection comes. */
  predicate StaysOpen(script: seq<Incoming>) {
    forall i :: 0 <= i < |script| ==> !script[i].RecvError? && (script[i].Arrives? ==> script[i].data != [])
  }

  /** The next write finds no room. */
  predicate BlocksNext(script: seq<Outgoing>) {
    script == [] || script[0].WriteAgain?
  }

  predicate WritesGoOn(script: seq<Outgoing>) {
    forall i :: 0 <= i < |script| ==> !script[i].WriteError?
  }

  /** Every write that is scripted takes something. */
  predicate AllTake(script: seq<Outgoing>) {
    forall i :: 0 <= i < |script| ==> script[i].Takes?
  }

  class Socket {
    var incoming: seq<Incoming>
    var outgoing: seq<Outgoing>
    /** All bytes that recv has handed out, and all that write has accepted. */
    ghost var received: seq<byte>
    ghost var sent: seq<byte>
    /** How often recv was called, and whether the last call found no more than it could hand out. */
    ghost var recvs: nat
    ghost var drained: bool
    /** Whether the last write would have blocked, and whether the connection was closed or failed. */
    ghost var blocked: bool
    ghost var failed: bool

    constructor (incoming: seq<Incoming>, outgoing: seq<Outgoing>)
      ensures received == [] && sent == [] && !failed && this.incoming == incoming && this.outgoing == outgoing
    {
      this.incoming, this.outgoing, received, sent := incoming, outgoing, [], [];
      recvs, drained, blocked, failed := 0, false, false, false;
    }

    /**
     * `recv` into the free room of the front chunk of `q`, where it puts the bytes `got`; `again` tells which kind of
     * error -1 is.
     */
    method Recv(q: ByteQueue, len: nat) returns (n: int, again: bool, ghost got: seq<byte>)
      requires q.Valid() && q.chunks != [] && 0 < len == q.chunks[0].cap - q.chunks[0].end
      modifies this`incoming, this`received, this`recvs, this`drained, this`failed, q.chunks[0].p
      ensures q.Valid() && q.Contents() == old(q.Contents())
      ensures -1 <= n <= len && |got| == (if n > 0 then n else 0) && received == old(received) + got
      ensures var c := q.chunks[0]; c.end + |got| <= c.p.Length && got == c.p[c.end..c.end + |got|]
      ensures Pending(old(incoming)) == got + Pending(incoming)
      ensures n > 0 <==> DataNext(old(incoming))
      ensures n > 0 ==> n == (if |old(incoming)[0].data| < len then |old(incoming)[0].data| else len)
      ensures n == 0 <==> old(incoming) != [] && old(incoming)[0] == Arrives([])
      ensures n < 0 ==> (again <==> old(incoming) == [] || old(incoming)[0].RecvAgain?)
      ensures StaysOpen(old(incoming)) ==> (n > 0 || (n < 0 && again)) && StaysOpen(incoming)
      ensures n > 0 ==> Weight(incoming) < Weight(old(incoming))
      ensures n < len ==> |incoming| < |old(incoming)| || incoming == []
      ensures |incoming| <= |old(incoming)|
      ensures recvs == old(recvs) + 1 && drained == ((n < 0 && again) || 0 < n < len)
      ensures failed == (old(failed) || n == 0 || (n < 0 && !again))
    {
      hide Pending, Weight;
      recvs := recvs + 1;
      if !DataNext(incoming) {
        n, again := NoData();
        q.Untouched();
        got := [];
        return;
      }
      var data := NextData(len);
      hide StaysOpen;
      q.Untouched();
      q.WriteSpace(data);
      label written:
      received := received + data;
      drained := |data| < len;
      q.Untouched@written();
      n, again, got := |data|, false, data;
    }

    /** Up to `len` bytes of what the peer sends next. */
    method NextData(len: nat) returns (data: seq<byte>)
      requires DataNext(incoming) && len > 0
      modifies this`incoming
      ensures |data| == if |old(incoming)[0].data| < len then |old(incoming)[0].data| else len
      ensures |incoming| <= |old(incoming)| && (|data| < len ==> |incoming| < |old(incoming)|)
      ensures 0 < |data| <= len && Pending(old(incoming)) == data + Pending(incoming)
      ensures StaysOpen(old(incoming)) ==> StaysOpen(incoming)
      ensures Weight(incoming) < Weight(old(incoming))
    {
      data := incoming[0].data;
      var rest := incoming[1..];
      if |data| > len {
        incoming := [Arrives(data[len..])] + rest;
        assert incoming[1..] == rest;
        assert data == data[..len] + data[len..];
        data := data[..len];
      } else {
        incoming := rest;
      }
    }

    /** A recv that gets no data. */
    method NoData() returns (n: int, again: bool)
      requires !DataNext(incoming)
      modifies this`incoming, this`drained, this`failed
      ensures n == if old(incoming) != [] && old(incoming)[0].Arrives? then 0 else -1
      ensures again <==> old(incoming) == [] || old(incoming)[0].RecvAgain?
      ensures Pending(incoming) == Pending(old(incoming))
      ensures |incoming| == if old(incoming) == [] then 0 else |old(incoming)| - 1
      ensures StaysOpen(old(incoming)) ==> n < 0 && again && StaysOpen(incoming)
      ensures drained == (n < 0 && again) && failed == (old(failed) || n == 0 || !again)
    {
      if incoming == [] {
        drained := true;
        return -1, true;
      }
      var first := incoming[0];
      incoming := incoming[1..];
      drained, failed := first.RecvAgain?, failed || !first.RecvAgain?;
      return if first.Arrives? then 0 else -1, first.RecvAgain?;
    }

    /** `write` of the bytes of a chunk. */
    method Write(p: array<byte>, at: nat, len: nat) returns (n: int, again: bool)
      requires at + len <= p.Length && len > 0
      modifies this`outgoing, this`sent, this`blocked, this`failed
      ensures n <= len && blocked == (n <= 0 && again) && failed == (old(failed) || (n <= 0 && !again))
      ensures sent == if n > 0 then old(sent) + p[at..at + n] else old(sent)
      ensures n > 0 <==> old(outgoing) != [] && old(outgoing)[0].Takes?
      ensures n > 0 ==> n == (if old(outgoing)[0].more + 1 < len then old(outgoing)[0].more + 1 else len)
      ensures n <= 0 ==> (again <==> BlocksNext(old(outgoing)))
      ensures outgoing == if old(outgoing) == [] then [] else old(outgoing)[1..]
    {
      blocked := true;
      if outgoing == [] || outgoing[0].WriteAgain? {
        outgoing := if outgoing == [] then [] else outgoing[1..];
        return -1, true;
      }
      blocked := false;
      if outgoing[0].WriteError? {
        outgoing, failed := outgoing[1..], true;
        return -1, false;
      }
      n := if outgoing[0].more + 1 < len then outgoing[0].more + 1 else len;
      outgoing := outgoing[1..];
      sent := sent + p[at..at + n];
      again := false;
    }
  }

  /** More bytes are received and join the read queue. */
  lemma {:induction false} Received(
      kept: seq<byte>, received: seq<byte>, sent: seq<byte>, w: seq<byte>, r: seq<byte>, x: seq<byte>)
    requires kept == sent + w + r && Sub(kept, received)
    ensures kept + x == sent + w + (r + x) && Sub(kept + x, received + x)
    ensures kept == received ==> kept + x == received + x
  {
    SubSame(x);
    SubConcat(kept, received, x, x);
  }

  /** Of the oldest `len` bytes of the read queue only n have reached the write queue. */
  lemma {:induction false} Accounted(
      received: seq<byte>, sent: seq<byte>, w: seq<byte>, r: seq<byte>, n: nat, len: nat, dropped: nat)
    requires n <= len <= |r| && |received| == |sent + w + r| + dropped && Sub(sent + w + r, received)
    ensures var kept := sent + (w + r[..n]) + r[len..];
      Sub(kept, received) && |received| == |kept| + dropped + (len - n)
  {
    hide Sub;
    var a, x, c := sent + w + r[..n], r[n..len], r[len..];
    assert r == r[..n] + x + c;
    assert sent + w + r == a + x + c && sent + (w + r[..n]) + c == a + c;
    SubWithout(a, x, c);
    SubTrans(a + c, a + x + c, received);
  }

  lemma {:induction false} NothingNew(r: seq<byte>, got: seq<byte>)
    requires got == []
    ensures r + got == r
  {}

  lemma {:induction false} NewBytes(first: seq<byte>, before: seq<byte>, got: seq<byte>, r: seq<byte>)
    requires first <= before
    ensures r + before[|first|..] + got == r + (before + got)[|first|..]
  {
    assert (before + got)[|first|..] == before[|first|..] + got;
  }

  lemma {:induction false} OneByte(a: seq<byte>, c: seq<byte>, b: byte)
    requires a + c == [b] && a != []
    ensures a == [b]
  {
    assert |a| == 1 && (a + c)[0] == a[0];
  }

  lemma {:induction false} SentOn(sent: seq<byte>, w: seq<byte>, r: seq<byte>, n: nat)
    requires n <= |w|
    ensures sent + w + r == sent + w[..n] + w[n..] + r && sent + w == sent + w[..n] + w[n..]
  {
    assert w == w[..n] + w[n..];
  }

  // ---------------------------------------------------------------- memory and losses

  /** Whether a push that needs a new chunk gets one while an event is handled: always, never, or as it happens. */
  datatype Memory = Enough | Gone | Fickle

  /** Of n bytes, how many reach a queue whose front chunk has `room`, when memory is there or is not. */
  function Fit(memory: Memory, n: nat, room: nat): nat {
    if memory.Gone? && n > room then room else n
  }

  /** The bytes lost of n that are moved. Without memory it is exactly those that do not fit. */
  predicate Loses(memory: Memory, n: nat, room: nat, lost: int) {
    match memory
    case Enough => lost == 0
    case Gone => lost == n - Fit(Gone, n, room)
    case Fickle => 0 <= lost <= n - Fit(Gone, n, room)
  }

  /** b without some of its bytes. */
  predicate Sub(a: seq<byte>, b: seq<byte>)
    decreases |b|
  {
    a == [] || (b != [] && ((a[0] == b[0] && Sub(a[1..], b[1..])) || Sub(a, b[1..])))
  }

  lemma {:induction false} SubSame(a: seq<byte>)
    ensures Sub(a, a)
  {
    if a != [] {
      SubSame(a[1..]);
    }
  }

  lemma {:induction false} SubSize(a: seq<byte>, b: seq<byte>)
    requires Sub(a, b)
    ensures |a| <= |b| && (|a| == |b| ==> a == b)
    decreases |b|
  {
    if a != [] {
      if a[0] == b[0] && Sub(a[1..], b[1..]) {
        SubSize(a[1..], b[1..]);
        assert a == [a[0]] + a[1..] && b == [b[0]] + b[1..];
      } else {
        SubSize(a, b[1..]);
      }
    }
  }

  lemma {:induction false} SubConcat(a: seq<byte>, b: seq<byte>, c: seq<byte>, d: seq<byte>)
    requires Sub(a, b) && Sub(c, d)
    ensures Sub(a + c, b + d)
    decreases |b|
  {
    if b == [] {
      assert a + c == c && b + d == d;
    } else {
      assert (b + d)[0] == b[0] && (b + d)[1..] == b[1..] + d;
      if a != [] && a[0] == b[0] && Sub(a[1..], b[1..]) {
        assert (a + c)[1..] == a[1..] + c;
        SubConcat(a[1..], b[1..], c, d);
      } else {
        SubConcat(a, b[1..], c, d);
      }
    }
  }

  lemma {:induction false} SubTrans(a: seq<byte>, b: seq<byte>, c: seq<byte>)
    requires Sub(a, b) && Sub(b, c)
    ensures Sub(a, c)
    decreases |c|
  {
    if a != [] {
      if b[0] == c[0] && Sub(b[1..], c[1..]) {
        if a[0] == b[0] && Sub(a[1..], b[1..]) {
          SubTrans(a[1..], b[1..], c[1..]);
        } else {
          SubTrans(a, b[1..], c[1..]);
        }
      } else {
        SubTrans(a, b, c[1..]);
      }
    }
  }

  lemma {:induction false} SubWithout(a: seq<byte>, x: seq<byte>, c: seq<byte>)
    ensures Sub(a + c, a + x + c)
  {
    SubSame(a);
    SubSame(c);
    SubConcat(a, a, [], x);
    assert a + [] == a;
    SubConcat(a, a + x, c, c);
  }

  lemma {:induction false} SubPrefix(a: seq<byte>, b: seq<byte>, c: seq<byte>)
    requires a <= b && Sub(b, c)
    ensures Sub(a, c)
  {
    SubWithout(a, b[|a|..], []);
    assert a + [] == a && a + b[|a|..] + [] == b;
    SubTrans(a, b, c);
  }

  /** One more round of moving without memory: of r0 the first `done` bytes had been taken. */
  lemma {:induction false} GoneRound(w: seq<byte>, r: seq<byte>, done: nat, room: nat, len: nat, n: nat)
    requires done + len <= |r|
    requires n == if len <= room - Fit(Gone, done, room) then len else room - Fit(Gone, done, room)
    ensures Fit(Gone, done, room) + n == Fit(Gone, done + len, room)
    ensures w + r[..Fit(Gone, done, room)] + r[done..][..n] == w + r[..Fit(Gone, done + len, room)]
  {
    if done <= room {
      Pieces(w, r, done, n);
    } else {
      assert n == 0 && r[done..][..0] == [];
      assert w + r[..room] + [] == w + r[..room];
    }
  }

  /**
   * The state of the moving: `done` bytes of r have been taken and `lost` of them are lost, the write queue, which held
   * w and had `room`, holds `now` and has room for `left`.
   */
  predicate Moving(
      memory: Memory, w: seq<byte>, r: seq<byte>, room: nat, done: nat, lost: int, now: seq<byte>, left: nat)
  {
    && done <= |r| && Loses(memory, done, room, lost)
    && left >= room - Fit(Gone, done, room) && (memory.Gone? ==> left == room - Fit(Gone, done, room))
    && (!memory.Fickle? ==> now == w + r[..Fit(memory, done, room)])
  }

  lemma {:induction false} MovingStarts(memory: Memory, w: seq<byte>, r: seq<byte>, room: nat)
    ensures Moving(memory, w, r, room, 0, 0, w, room) && r[0..] == r
  {
    assert w + r[..0] == w;
  }

  /** One more round, in which n of `len` bytes are pushed. */
  lemma {:induction false} MovingOn(
      memory: Memory, w: seq<byte>, r: seq<byte>, room: nat, done: nat, lost: int, now: seq<byte>, left: nat,
      rest: seq<byte>, len: nat, n: nat, left': nat)
    requires Moving(memory, w, r, room, done, lost, now, left) && rest == r[done..] && len <= |rest|
    requires n == (if memory.Enough? || len <= left then len else left) || (memory.Fickle? && n == len)
    requires left' >= left - n && (memory.Gone? ==> left' == left - n)
    ensures Moving(memory, w, r, room, done + len, lost + (len - n), now + rest[..n], left')
    ensures rest[len..] == r[done + len..] && done + len <= |r|
  {
    if memory.Gone? {
      GoneRound(w, r, done, room, len, n);
    } else if memory.Enough? {
      Pieces(w, r, done, len);
    }
  }

  lemma {:induction false} MovingEnds(
      memory: Memory, w: seq<byte>, r: seq<byte>, room: nat, done: nat, lost: int, now: seq<byte>, left: nat)
    requires Moving(memory, w, r, room, done, lost, now, left) && r[done..] == []
    ensures Loses(memory, |r|, room, lost) && (!memory.Fickle? ==> now == w + r[..Fit(memory, |r|, room)])
  {
    assert done == |r|;
  }

  lemma {:induction false} NoNews(received: seq<byte>, w: seq<byte>, memory: Memory, room: nat)
    ensures received[|received|..] == [] && Loses(memory, 0, room, 0) && Fit(memory, 0, room) == 0
    ensures w + [][..0] == w
  {}

  lemma {:induction false} NoLoss(memory: Memory, got: seq<byte>, room: nat)
    ensures Fit(memory, |got|, room) <= |got|
    ensures got == [] ==> Loses(memory, |got|, room, 0) && got[..Fit(memory, |got|, room)] == []
  {}

  lemma {:induction false} Pieces(w: seq<byte>, r: seq<byte>, done: nat, n: nat)
    requires done + n <= |r|
    ensures w + r[..done] + r[done..][..n] == w + r[..done + n]
  {
    assert r[..done + n] == r[..done] + r[done..][..n];
  }

  // ---------------------------------------------------------------- the handler

  datatype Event = Nothing | Read | Write

  class Handler {
    const socket: Socket
    const readBuf: ByteQueue
    const writeBuf: ByteQueue
    /** The non-persistent event that is pending, if any. */
    var armed: Event
    var alive: bool
    /** The bytes received without those that a push left out for lack of memory, and the number of those. */
    ghost var kept: seq<byte>
    ghost var dropped: nat
    /** The events handled so far. */
    ghost var seen: seq<Fired>

    /** Two queues in good order that share nothing. */
    ghost predicate Apart()
      reads readBuf, writeBuf, readBuf.Storage(), writeBuf.Storage()
    {
      && readBuf != writeBuf && readBuf.Storage() !! writeBuf.Storage()
      && readBuf.Valid() && readBuf.Tidy() && readBuf.defaultChunkSize > 0
      && writeBuf.Valid() && writeBuf.Tidy() && writeBuf.defaultChunkSize > 0
    }

    /**
     * Every byte kept is sent, waiting to be written, or not yet moved, in this order. The bytes kept are those
     * received without the dropped ones.
     */
    ghost predicate Conserving()
      reads this, socket, readBuf, writeBuf, readBuf.Storage(), writeBuf.Storage()
    {
      && Apart()
      && kept == socket.sent + writeBuf.Contents() + readBuf.Contents()
      && Sub(kept, socket.received) && |socket.received| == |kept| + dropped
    }

    constructor (socket: Socket)
      requires socket.received == socket.sent == [] && !socket.failed
      ensures this.socket == socket && armed == Read && alive && dropped == 0 && seen == []
      ensures Conserving() && readBuf.Contents() == [] && writeBuf.Contents() == [] && writeBuf.Room() == 0
      ensures fresh(readBuf) && fresh(writeBuf) && readBuf.Storage() == writeBuf.Storage() == {}
    {
      this.socket := socket;
      readBuf := new ByteQueue();
      writeBuf := new ByteQueue();
      armed, alive, kept, dropped, seen := Read, true, [], 0, [];
    }

    method HandleWrite() returns (r: int)
      requires Conserving()
      modifies this`armed, socket`outgoing, socket`sent, socket`blocked, socket`failed, writeBuf
      ensures Conserving() && readBuf.Contents() == old(readBuf.Contents())
      ensures writeBuf.Storage() <= old(writeBuf.Storage())
      ensures |writeBuf.Contents()| <= |old(writeBuf.Contents())|
      ensures socket.sent + writeBuf.Contents() == old(socket.sent + writeBuf.Contents())
      ensures r == 0 || (r == -1 && socket.failed)
      ensures r == 0 ==>
                && socket.failed == old(socket.failed) && (writeBuf.Contents() == [] || socket.blocked)
                && if writeBuf.Contents() == [] then armed == Read else armed == old(armed)
      ensures r == 0 && !old(socket.blocked) ==> (socket.blocked <==> writeBuf.Contents() != [])
      ensures BlocksNext(old(socket.outgoing)) ==> r == 0 && socket.sent == old(socket.sent)
      ensures WritesGoOn(old(socket.outgoing)) ==> r == 0 && WritesGoOn(socket.outgoing)
      ensures AllTake(old(socket.outgoing)) && |old(socket.outgoing)| >= |old(writeBuf.Contents())| ==>
                r == 0 && writeBuf.Contents() == []
    {
      hide Flatten, Separate, OnlyFrontEmpty, AllOk;
      while writeBuf.size > 0
        invariant Conserving() && writeBuf.Storage() <= old(writeBuf.Storage())
        invariant readBuf.Contents() == old(readBuf.Contents())
        invariant |writeBuf.Contents()| <= |old(writeBuf.Contents())|
        invariant socket.sent + writeBuf.Contents() == old(socket.sent + writeBuf.Contents())
        invariant armed == old(armed) && socket.failed == old(socket.failed)
        invariant socket.blocked ==> old(socket.blocked)
        invariant WritesGoOn(old(socket.outgoing)) ==> WritesGoOn(socket.outgoing)
        invariant AllTake(old(socket.outgoing)) && |old(socket.outgoing)| >= |old(writeBuf.Contents())| ==>
                    AllTake(socket.outgoing) && |socket.outgoing| >= |writeBuf.Contents()|
        invariant BlocksNext(old(socket.outgoing)) ==>
                    socket.outgoing == old(socket.outgoing) && socket.sent == old(socket.sent)
        decreases writeBuf.size
      {
        var n, again := WriteOnce();
        if n <= 0 {
          return if again then 0 else -1;
        }
      }
      label done:
      armed := if writeBuf.size > 0 then Write else Read;
      writeBuf.Untouched@done();
      readBuf.Untouched@done();
      return 0;
    }

    /** One round of the loop of `handleWrite`. */
    method WriteOnce() returns (n: int, again: bool)
      requires Conserving() && writeBuf.size > 0
      modifies socket`outgoing, socket`sent, socket`blocked, socket`failed, writeBuf
      ensures Conserving() && readBuf.Contents() == old(readBuf.Contents())
      ensures writeBuf.Storage() <= old(writeBuf.Storage())
      ensures if n > 0 then writeBuf.size < old(writeBuf.size) else writeBuf.Contents() == old(writeBuf.Contents())
      ensures socket.sent + writeBuf.Contents() == old(socket.sent + writeBuf.Contents())
      ensures socket.blocked == (n <= 0 && again) && socket.failed == (old(socket.failed) || (n <= 0 && !again))
      ensures BlocksNext(old(socket.outgoing)) ==> n <= 0 && again && socket.sent == old(socket.sent)
      ensures WritesGoOn(old(socket.outgoing)) ==> WritesGoOn(socket.outgoing) && (n <= 0 ==> again)
      ensures AllTake(old(socket.outgoing)) && old(socket.outgoing) != [] ==>
                n > 0 && AllTake(socket.outgoing) && |socket.outgoing| == |old(socket.outgoing)| - 1
    {
      hide Flatten, Separate, OnlyFrontEmpty, AllOk;
      FlattenNil();
      var buf, at, len := writeBuf.DataChunk();
      label before:
      n, again := socket.Write(buf, at, len);
      writeBuf.Untouched@before();
      readBuf.Untouched@before();
      label between:
      if n > 0 {
        ghost var w, r := writeBuf.Contents(), readBuf.Contents();
        assert buf[at..at + n] == buf[at..at + len][..n] == w[..n];
        SentOn(old@before(socket.sent), w, r, n);
        var _ := writeBuf.Drain(n);
        readBuf.Untouched@between();
      }
    }

    /** The receiving loop of `handleRead`; `ok` is false where it returns -1. */
    method ReceiveAll() returns (ok: bool)
      requires Conserving()
      modifies this`kept, socket`incoming, socket`received, socket`recvs, socket`drained, socket`failed,
        readBuf, readBuf.Storage()
      ensures Conserving() && fresh(readBuf.Storage() - old(readBuf.Storage()))
      ensures writeBuf.Contents() == old(writeBuf.Contents())
      ensures socket.recvs > old(socket.recvs) && old(socket.received) <= socket.received
      ensures readBuf.Contents() == old(readBuf.Contents()) + socket.received[|old(socket.received)|..]
      ensures if ok then socket.drained && socket.failed == old(socket.failed) else socket.failed
      ensures socket.received + Pending(socket.incoming) == old(socket.received) + Pending(old(socket.incoming))
      ensures DataNext(old(socket.incoming)) ==> |socket.received| > |old(socket.received)|
      ensures StaysOpen(old(socket.incoming)) ==> ok && StaysOpen(socket.incoming)
      ensures ok ==> |socket.incoming| < |old(socket.incoming)| || socket.incoming == []
    {
      hide Flatten, Separate, OnlyFrontEmpty, AllOk, Pending, Weight, StaysOpen;
      while true
        invariant Conserving() && fresh(readBuf.Storage() - old(readBuf.Storage()))
        invariant writeBuf.Contents() == old(writeBuf.Contents())
        invariant old(socket.received) <= socket.received && socket.failed == old(socket.failed)
        invariant socket.recvs >= old(socket.recvs)
        invariant readBuf.Contents() == old(readBuf.Contents()) + socket.received[|old(socket.received)|..]
        invariant socket.received + Pending(socket.incoming) == old(socket.received) + Pending(old(socket.incoming))
        invariant socket.incoming == old(socket.incoming) || |socket.received| > |old(socket.received)|
        invariant StaysOpen(old(socket.incoming)) ==> StaysOpen(socket.incoming)
        invariant |socket.incoming| <= |old(socket.incoming)|
        decreases Weight(socket.incoming)
      {
        ghost var before := socket.received;
        var n, again, len, got := ReceiveOnce();
        Shift(before, got, Pending(socket.incoming));
        NewBytes(old(socket.received), before, got, old(readBuf.Contents()));
        if n == 0 {
          return false;
        }
        if n < 0 {
          return again;
        }
        if n < len {
          return true;
        }
      }
    }

    /** Room in the read queue. */
    method Offer() returns (len: nat)
      requires Conserving()
      modifies readBuf
      ensures Conserving() && fresh(readBuf.Storage() - old(readBuf.Storage()))
      ensures readBuf.Contents() == old(readBuf.Contents()) && writeBuf.Contents() == old(writeBuf.Contents())
      ensures readBuf.chunks != [] && 0 < len == readBuf.chunks[0].cap - readBuf.chunks[0].end
    {
      hide Flatten, Separate, OnlyFrontEmpty, AllOk;
      label top:
      var buf, at;
      buf, at, len := readBuf.SpaceChunk();
      writeBuf.Untouched@top();
    }

    /** One round of that loop: the bytes that recv put into the space it was given join the queue. */
    method ReceiveOnce() returns (n: int, again: bool, len: nat, ghost got: seq<byte>)
      requires Conserving()
      modifies this`kept, socket`incoming, socket`received, socket`recvs, socket`drained, socket`failed,
        readBuf, readBuf.Storage()
      ensures Conserving() && fresh(readBuf.Storage() - old(readBuf.Storage()))
      ensures writeBuf.Contents() == old(writeBuf.Contents())
      ensures |got| == (if n > 0 then n else 0) && socket.received == old(socket.received) + got
      ensures readBuf.Contents() == old(readBuf.Contents()) + got
      ensures Pending(old(socket.incoming)) == got + Pending(socket.incoming)
      ensures socket.recvs == old(socket.recvs) + 1 && socket.drained == ((n < 0 && again) || 0 < n < len)
      ensures socket.failed == (old(socket.failed) || n == 0 || (n < 0 && !again))
      ensures n > 0 ==> Weight(socket.incoming) < Weight(old(socket.incoming))
      ensures n < len ==> |socket.incoming| < |old(socket.incoming)| || socket.incoming == []
      ensures |socket.incoming| <= |old(socket.incoming)|
      ensures n > 0 <==> DataNext(old(socket.incoming))
      ensures StaysOpen(old(socket.incoming)) ==> (n > 0 || (n < 0 && again)) && StaysOpen(socket.incoming)
    {
      hide Flatten, Separate, OnlyFrontEmpty, AllOk, Weight, Pending, DataNext, StaysOpen;
      len := Offer();
      label offered:
      n, again, got := socket.Recv(readBuf, len);
      writeBuf.Untouched@offered();
      if n <= 0 {
        NothingNew(readBuf.Contents(), got);
        NothingNew(old(socket.received), got);
      } else {
        Enqueue(n, got, old(socket.received));
      }
    }

    /** `spaceHaveSeted` for the bytes just received. */
    method Enqueue(n: nat, ghost got: seq<byte>, ghost before: seq<byte>)
      requires Apart() && kept == socket.sent + writeBuf.Contents() + readBuf.Contents()
      requires Sub(kept, before) && |before| == |kept| + dropped && socket.received == before + got && |got| == n
      requires readBuf.chunks != [] && n <= readBuf.chunks[0].cap - readBuf.chunks[0].end
      requires var c := readBuf.chunks[0]; c.end + n <= c.p.Length && got == c.p[c.end..c.end + n]
      modifies this`kept, readBuf
      ensures Conserving() && readBuf.Storage() == old(readBuf.Storage())
      ensures readBuf.Contents() == old(readBuf.Contents()) + got && writeBuf.Contents() == old(writeBuf.Contents())
    {
      hide Flatten, Separate, OnlyFrontEmpty, AllOk, Sub;
      label written:
      Received(kept, before, socket.sent, writeBuf.Contents(), readBuf.Contents(), got);
      readBuf.SpaceHaveSeted(n);
      kept := kept + got;
      writeBuf.Untouched@written();
    }

    /**
     * The second loop of `handleRead`: everything received goes to the write buffer. The result of `push` is not
     * looked at: what it leaves out is lost.
     */
    method MoveAll(memory: Memory)
      requires Conserving()
      modifies this`kept, this`dropped, readBuf, writeBuf, writeBuf.Storage()
      ensures Conserving() && readBuf.Contents() == []
      ensures Loses(memory, |old(readBuf.Contents())|, old(writeBuf.Room()), dropped - old(dropped))
      ensures var r := old(readBuf.Contents());
        !memory.Fickle? ==>
          writeBuf.Contents() == old(writeBuf.Contents()) + r[..Fit(memory, |r|, old(writeBuf.Room()))]
      ensures fresh(writeBuf.Storage() - old(writeBuf.Storage())) && readBuf.Storage() <= old(readBuf.Storage())
    {
      hide Flatten, Separate, OnlyFrontEmpty, AllOk, Sub;
      hide Moving, Loses, Fit;
      ghost var w, r, room := writeBuf.Contents(), readBuf.Contents(), writeBuf.Room();
      ghost var done: nat := 0;
      MovingStarts(memory, w, r, room);
      while readBuf.size > 0
        invariant Conserving() && done <= |r| && readBuf.Contents() == r[done..]
        invariant Moving(memory, w, r, room, done, dropped - old(dropped), writeBuf.Contents(), writeBuf.Room())
        invariant fresh(writeBuf.Storage() - old(writeBuf.Storage())) && readBuf.Storage() <= old(readBuf.Storage())
        decreases readBuf.size
      {
        done := MoveRound(memory, w, r, room, done, old(dropped));
      }
      MovingEnds(memory, w, r, room, done, dropped - old(dropped), writeBuf.Contents(), writeBuf.Room());
    }

    /** A round, told from the start of the loop, when `first` bytes had been dropped. */
    method MoveRound(memory: Memory, ghost w: seq<byte>, ghost r: seq<byte>, ghost room: nat, ghost done: nat,
                     ghost first: nat)
      returns (ghost next: nat)
      requires Conserving() && readBuf.size > 0 && done <= |r| && readBuf.Contents() == r[done..]
      requires Moving(memory, w, r, room, done, dropped - first, writeBuf.Contents(), writeBuf.Room())
      modifies this`kept, this`dropped, readBuf, writeBuf, writeBuf.Storage()
      ensures Conserving() && readBuf.size < old(readBuf.size) && next <= |r| && readBuf.Contents() == r[next..]
      ensures Moving(memory, w, r, room, next, dropped - first, writeBuf.Contents(), writeBuf.Room())
      ensures fresh(writeBuf.Storage() - old(writeBuf.Storage())) && readBuf.Storage() <= old(readBuf.Storage())
    {
      hide Flatten, Separate, OnlyFrontEmpty, AllOk, Sub, Moving;
      ghost var lost, now, left, rest := dropped - first, writeBuf.Contents(), writeBuf.Room(), readBuf.Contents();
      var ok: bool := *;
      ghost var len, n := MoveChunk(memory.Enough? || (memory.Fickle? && ok));
      MovingOn(memory, w, r, room, done, lost, now, left, rest, len, n, writeBuf.Room());
      next := done + len;
    }

    /** One round of that loop: n of the `len` oldest bytes reach the write queue. */
    method MoveChunk(allocOk: bool) returns (ghost len: nat, ghost n: nat)
      requires Conserving() && readBuf.size > 0
      modifies this`kept, this`dropped, readBuf, writeBuf, writeBuf.Storage()
      ensures Conserving() && readBuf.size < old(readBuf.size) && 0 < len <= |old(readBuf.Contents())|
      ensures n == if allocOk || len <= old(writeBuf.Room()) then len else old(writeBuf.Room())
      ensures dropped == old(dropped) + (len - n) && readBuf.Contents() == old(readBuf.Contents())[len..]
      ensures writeBuf.Contents() == old(writeBuf.Contents()) + old(readBuf.Contents())[..n]
      ensures writeBuf.Room() >= old(writeBuf.Room()) - n
      ensures !allocOk ==> writeBuf.Room() == old(writeBuf.Room()) - n
      ensures fresh(writeBuf.Storage() - old(writeBuf.Storage())) && readBuf.Storage() <= old(readBuf.Storage())
    {
      hide Flatten, Separate, OnlyFrontEmpty, AllOk, Sub;
      ghost var w, r := writeBuf.Contents(), readBuf.Contents();
      var size;
      size, n := PushOldest(allocOk);
      len := size;
      Accounted(socket.received, socket.sent, w, r, n, len, dropped);
      label between:
      var _ := readBuf.Drain(size);
      writeBuf.Untouched@between();
      kept, dropped := socket.sent + (w + r[..n]) + r[len..], dropped + (len - n);
    }

    /** The oldest chunk of the read queue is pushed to the write queue, which takes n of its bytes. */
    method PushOldest(allocOk: bool) returns (len: nat, ghost n: nat)
      requires Apart() && readBuf.size > 0
      modifies writeBuf, writeBuf.Storage()
      ensures Apart() && readBuf.Contents() == old(readBuf.Contents()) && 0 < len <= |readBuf.Contents()|
      ensures n == if allocOk || len <= old(writeBuf.Room()) then len else old(writeBuf.Room())
      ensures writeBuf.Contents() == old(writeBuf.Contents()) + readBuf.Contents()[..n]
      ensures writeBuf.Room() >= old(writeBuf.Room()) - n
      ensures !allocOk ==> writeBuf.Room() == old(writeBuf.Room()) - n
      ensures fresh(writeBuf.Storage() - old(writeBuf.Storage()))
    {
      hide Flatten, Separate, OnlyFrontEmpty, AllOk;
      FlattenNil();
      var buf, at, size := readBuf.DataChunk();
      label before:
      var pushed := writeBuf.Push(buf[at..at + size], allocOk);
      len, n := size, pushed;
      readBuf.Untouched@before();
      assert buf[at..at + size] == old(buf[at..at + size]);
      assert old(buf[at..at + size])[..n] == readBuf.Contents()[..n];
    }

    method HandleRead(memory: Memory) returns (r: int)
      requires Conserving()
      modifies this`armed, this`kept, this`dropped,
        socket`incoming, socket`received, socket`recvs, socket`drained, socket`failed,
        readBuf, writeBuf, readBuf.Storage(), writeBuf.Storage()
      ensures Conserving() && old(socket.received) <= socket.received
      ensures fresh(readBuf.Storage() - old(readBuf.Storage())) && fresh(writeBuf.Storage() - old(writeBuf.Storage()))
      ensures socket.recvs > old(socket.recvs) && (r == 0 || (r == -1 && socket.failed))
      ensures r == 0 ==>
                && readBuf.Contents() == [] && armed == (if writeBuf.Contents() == [] then Read else Write)
                && socket.drained && socket.failed == old(socket.failed)
      ensures var all := old(readBuf.Contents()) + socket.received[|old(socket.received)|..];
        if r == 0 then
          && Loses(memory, |all|, old(writeBuf.Room()), dropped - old(dropped))
          && (!memory.Fickle? ==>
                writeBuf.Contents() == old(writeBuf.Contents()) + all[..Fit(memory, |all|, old(writeBuf.Room()))])
        else readBuf.Contents() == all && dropped == old(dropped) && writeBuf.Contents() == old(writeBuf.Contents())
      ensures socket.received + Pending(socket.incoming) == old(socket.received) + Pending(old(socket.incoming))
      ensures DataNext(old(socket.incoming)) ==> |socket.received| > |old(socket.received)|
      ensures StaysOpen(old(socket.incoming)) ==> r == 0 && StaysOpen(socket.incoming)
      ensures r == 0 ==> |socket.incoming| < |old(socket.incoming)| || socket.incoming == []
    {
      hide Flatten, Separate, OnlyFrontEmpty, AllOk, Pending, DataNext, StaysOpen, Sub, Loses;
      var ok := ReceiveAll();
      if !ok {
        return -1;
      }
      MoveAll(memory);
      label done:
      armed := if writeBuf.size > 0 then Write else Read;
      writeBuf.Untouched@done();
      readBuf.Untouched@done();
      return 0;
    }

    /** What holds whenever no callback is running. */
    ghost predicate Inv()
      reads this, socket, readBuf, writeBuf, readBuf.Storage(), writeBuf.Storage()
    {
      && Conserving()
      && (alive ==> readBuf.Contents() == [] && (armed == Read <==> writeBuf.Contents() == []) && !socket.failed)
    }

    /**
     * `handler_event_cb`: the pending event fires with some of its flags and is no longer pending. Only a timeout, a
     * closed connection and an error end the handler. Nothing is left armed if and only if a write blocked and there
     * was no read. Without memory a byte is lost if and only if more arrive than the write queue has room for.
     */
    method EventCb(e: Fired)
      requires Inv() && alive && armed != Nothing && (e.timeout || e.read || e.write)
      modifies this`armed, this`alive, this`kept, this`dropped, socket, readBuf, writeBuf, readBuf.Storage(),
        writeBuf.Storage(), this`seen
      ensures seen == old(seen) + [e]
      ensures Inv() && (alive <==> !e.timeout && !socket.failed)
      ensures alive ==> armed == if writeBuf.Contents() == [] then Read else if e.read then Write else Nothing
      ensures alive ==> (armed == Nothing <==> e.write && !e.read && socket.blocked)
      ensures alive && e.read ==> socket.recvs > old(socket.recvs) && socket.drained
      ensures alive && e.write ==> (socket.blocked <==> writeBuf.Contents() != [])
      ensures old(socket.received) <= socket.received
      ensures socket.received + Pending(socket.incoming) == old(socket.received) + Pending(old(socket.incoming))
      ensures !e.read ==> socket.incoming == old(socket.incoming) && socket.received == old(socket.received)
      ensures !e.write ==> socket.outgoing == old(socket.outgoing) && socket.sent == old(socket.sent)
      ensures !e.timeout && e.read && DataNext(old(socket.incoming)) ==> |socket.received| > |old(socket.received)|
      ensures BlocksNext(old(socket.outgoing)) ==> socket.sent == old(socket.sent)
      ensures alive && e.read ==> |socket.incoming| < |old(socket.incoming)| || socket.incoming == []
      ensures var enough := AllTake(old(socket.outgoing)) && |old(socket.outgoing)| >= |old(writeBuf.Contents())|;
        !e.timeout && e.write && !e.read && enough ==> alive && writeBuf.Contents() == []
      ensures !e.timeout && StaysOpen(old(socket.incoming)) && WritesGoOn(old(socket.outgoing)) ==>
                alive && StaysOpen(socket.incoming) && WritesGoOn(socket.outgoing)
      ensures var got, room := socket.received[|old(socket.received)|..], old(writeBuf.Room());
        if readBuf.Contents() == [] then
          && Loses(e.memory, |got|, room, dropped - old(dropped))
          && (!e.memory.Fickle? ==>
                var w := old(socket.sent + writeBuf.Contents());
                socket.sent + writeBuf.Contents() == w + got[..Fit(e.memory, |got|, room)])
        else readBuf.Contents() == got && dropped == old(dropped)
      ensures fresh(readBuf.Storage() - old(readBuf.Storage())) && fresh(writeBuf.Storage() - old(writeBuf.Storage()))
    {
      hide Flatten, Separate, OnlyFrontEmpty, AllOk, Pending, DataNext, StaysOpen, WritesGoOn, BlocksNext, AllTake, Sub;
      hide ByteQueue.Valid, ByteQueue.Tidy, Loses, Fit;
      NoNews(socket.received, socket.sent + writeBuf.Contents(), e.memory, writeBuf.Room());
      Begin(e);
      var r := -1;
      if !e.timeout {
        r := Handle(e);
      }
      End(r == 0);
    }

    /** The event is no longer pending. */
    method Begin(e: Fired)
      requires Conserving()
      modifies this`armed, this`seen, socket`blocked
      ensures Conserving() && armed == Nothing && !socket.blocked && seen == old(seen) + [e]
      ensures readBuf.Contents() == old(readBuf.Contents()) && writeBuf.Contents() == old(writeBuf.Contents())
    {
      hide Flatten, Separate, OnlyFrontEmpty, AllOk, Sub;
      label fired:
      armed, socket.blocked, seen := Nothing, false, seen + [e];
      writeBuf.Untouched@fired();
      readBuf.Untouched@fired();
    }

    /** The handler is deleted, or goes on. */
    method End(ok: bool)
      requires Conserving()
      modifies this`alive
      ensures Conserving() && alive == ok
      ensures readBuf.Contents() == old(readBuf.Contents()) && writeBuf.Contents() == old(writeBuf.Contents())
    {
      hide Flatten, Separate, OnlyFrontEmpty, AllOk, Sub;
      label ended:
      alive := ok;
      writeBuf.Untouched@ended();
      readBuf.Untouched@ended();
    }

    /** The part of `handler_event_cb` after the test for a timeout; the handler goes on if it gives 0. */
    method Handle(e: Fired) returns (r: int)
      requires Conserving() && readBuf.Contents() == [] && armed == Nothing && !socket.blocked && !socket.failed
      requires e.read || e.write
      modifies this`armed, this`kept, this`dropped, socket, readBuf, writeBuf, readBuf.Storage(), writeBuf.Storage()
      ensures Conserving() && old(socket.received) <= socket.received
      ensures r == 0 <==> !socket.failed
      ensures r == 0 ==>
                && readBuf.Contents() == []
                && armed == (if writeBuf.Contents() == [] then Read else if e.read then Write else Nothing)
                && (e.read ==> socket.recvs > old(socket.recvs) && socket.drained)
                && (socket.blocked <==> e.write && writeBuf.Contents() != [])
      ensures socket.received + Pending(socket.incoming) == old(socket.received) + Pending(old(socket.incoming))
      ensures !e.read ==> socket.incoming == old(socket.incoming) && socket.received == old(socket.received)
      ensures !e.write ==> socket.outgoing == old(socket.outgoing) && socket.sent == old(socket.sent)
      ensures e.read && DataNext(old(socket.incoming)) ==> |socket.received| > |old(socket.received)|
      ensures BlocksNext(old(socket.outgoing)) ==> socket.sent == old(socket.sent)
      ensures r == 0 && e.read ==> |socket.incoming| < |old(socket.incoming)| || socket.incoming == []
      ensures var enough := AllTake(old(socket.outgoing)) && |old(socket.outgoing)| >= |old(writeBuf.Contents())|;
        e.write && !e.read && enough ==> r == 0 && writeBuf.Contents() == []
      ensures StaysOpen(old(socket.incoming)) && WritesGoOn(old(socket.outgoing)) ==>
                r == 0 && StaysOpen(socket.incoming) && WritesGoOn(socket.outgoing)
      ensures var got, room := socket.received[|old(socket.received)|..], old(writeBuf.Room());
        if readBuf.Contents() == [] then
          && Loses(e.memory, |got|, room, dropped - old(dropped))
          && (!e.memory.Fickle? ==>
                var w := old(socket.sent + writeBuf.Contents());
                socket.sent + writeBuf.Contents() == w + got[..Fit(e.memory, |got|, room)])
        else readBuf.Contents() == got && dropped == old(dropped)
      ensures fresh(readBuf.Storage() - old(readBuf.Storage())) && fresh(writeBuf.Storage() - old(writeBuf.Storage()))
    {
      hide Flatten, Separate, OnlyFrontEmpty, AllOk, Pending, DataNext, StaysOpen, WritesGoOn, BlocksNext, AllTake;
      hide ByteQueue.Valid, ByteQueue.Tidy, Sub, Loses, Fit;
      ghost var sent, w := socket.sent, writeBuf.Contents();
      NoNews(socket.received, sent + w, e.memory, writeBuf.Room());
      r := 0;
      if e.read {
        r := HandleRead(e.memory);
        ghost var got := socket.received[|old(socket.received)|..];
        assert [] + got == got;
        NoLoss(e.memory, got, old(writeBuf.Room()));
        Shift(sent, w, got[..Fit(e.memory, |got|, old(writeBuf.Room()))]);
      }
      if r == 0 && e.write {
        r := HandleWrite();
      }
    }
  }

  /** The flags an event fires with, and the memory there is while it is handled. */
  datatype Fired = Fired(timeout: bool, read: bool, write: bool, memory: Memory)

  /**
   * Any run of a handler: any network, any sequence of events, each delivered only while an event is pending. All
   * events are delivered, unless the handler ends or nothing is pending any more, and a first event to read takes what
   * is there. What has been received is what the peer sent so far. What has been sent is always part of it, in order,
   * and unless bytes were lost it is a prefix, and all of it while the handler waits for input.
   */
  method Serve(incoming: seq<Incoming>, outgoing: seq<Outgoing>, events: seq<Fired>) returns (h: Handler)
    requires forall e :: e in events ==> e.timeout || e.read || e.write
    ensures h.Inv() && h.socket.received + Pending(h.socket.incoming) == Pending(incoming)
    ensures h.seen <= events && (h.alive && h.armed != Nothing ==> h.seen == events)
    ensures events != [] && !events[0].timeout && events[0].read && DataNext(incoming) ==> h.socket.received != []
    ensures Sub(h.socket.sent, h.socket.received)
    ensures h.dropped == 0 ==> h.socket.sent <= h.socket.received
    ensures h.alive && h.armed == Read && h.dropped == 0 ==> h.socket.sent == h.socket.received
    ensures (forall e :: e in events ==> e.memory.Enough?) ==> h.dropped == 0
    ensures !h.alive ==> h.socket.failed || exists e :: e in events && e.timeout
  {
    hide Flatten, Separate, OnlyFrontEmpty, AllOk, Pending, Sub, DataNext, StaysOpen, WritesGoOn, BlocksNext, AllTake;
    var socket := new Socket(incoming, outgoing);
    h := new Handler(socket);
    for i := 0 to |events|
      invariant h.Inv() && fresh(h) && fresh(h.socket) && fresh(h.readBuf) && fresh(h.writeBuf)
      invariant fresh(h.readBuf.Storage()) && fresh(h.writeBuf.Storage())
      invariant h.socket.received + Pending(h.socket.incoming) == Pending(incoming)
      invariant h.seen <= events[..i] && (h.alive && h.armed != Nothing ==> h.seen == events[..i])
      invariant i == 0 ==> h.alive && h.armed == Read && h.socket.incoming == incoming
      invariant i > 0 && !events[0].timeout && events[0].read && DataNext(incoming) ==> h.socket.received != []
      invariant (forall e :: e in events ==> e.memory.Enough?) ==> h.dropped == 0
      invariant !h.alive ==> h.socket.failed || exists e :: e in events && e.timeout
    {
      assert events[..i + 1] == events[..i] + [events[i]];
      if h.alive && h.armed != Nothing {
        h.EventCb(events[i]);
      }
    }
    assert events[..|events|] == events;
    SubSize(h.kept, h.socket.received);
    SubPrefix(h.socket.sent, h.kept, h.socket.received);
  }

  /**
   * A run after which nothing will ever wake the handler, though a byte waits to be sent: one byte arrives, and the
   * write event that follows finds no room.
   */
  method Unarmed(b: byte) returns (h: Handler)
    ensures h.Inv() && h.alive && h.armed == Nothing
    ensures h.socket.received == h.writeBuf.Contents() == [b] && h.socket.sent == []
  {
    hide Flatten, Separate, OnlyFrontEmpty, AllOk, Sub;
    var socket := new Socket([Arrives([b])], []);
    h := new Handler(socket);
    h.EventCb(Fired(false, true, false, Enough));
    OneByte(h.socket.received, Pending(h.socket.incoming), b);
    h.EventCb(Fired(false, false, true, Enough));
    SubSize(h.kept, h.socket.received);
  }

  /** A run that loses a byte: it arrives while there is no memory. The handler goes on as if nothing had come. */
  method Lossy(b: byte) returns (h: Handler)
    ensures h.Inv() && h.alive && h.armed == Read && h.dropped == 1
    ensures h.socket.received == [b] && h.writeBuf.Contents() == h.socket.sent == []
  {
    hide Flatten, Separate, OnlyFrontEmpty, AllOk, Sub;
    var socket := new Socket([Arrives([b])], []);
    h := new Handler(socket);
    h.EventCb(Fired(false, true, false, Gone));
    OneByte(h.socket.received, Pending(h.socket.incoming), b);
  }

  /** A run that echoes everything: any data arrive, are read, and are written back in as many pieces as it takes. */
  method Echo(data: seq<byte>, outgoing: seq<Outgoing>) returns (h: Handler)
    requires data != [] && AllTake(outgoing) && |outgoing| >= |data|
    ensures h.Inv() && h.alive && h.armed == Read
    ensures h.socket.received == h.socket.sent == data
  {
    OneArrival(data);
    TakingGoesOn(outgoing);
    assert StaysOpen([Arrives(data)]) && DataNext([Arrives(data)]);
    hide Flatten, Separate, OnlyFrontEmpty, AllOk, Sub, Pending, StaysOpen, WritesGoOn, DataNext, AllTake, BlocksNext;
    var socket := new Socket([Arrives(data)], outgoing);
    h := new Handler(socket);
    h.EventCb(Fired(false, true, false, Enough));
    assert h.socket.received == h.socket.received + Pending([]) == [] + data == data;
    h.EventCb(Fired(false, false, true, Enough));
    SubSize(h.kept, h.socket.received);
  }

  lemma {:induction false} TakingGoesOn(outgoing: seq<Outgoing>)
    requires AllTake(outgoing)
    ensures WritesGoOn(outgoing)
  {}

  lemma {:induction false} OneArrival(data: seq<byte>)
    ensures Pending([]) == [] && Pending([Arrives(data)]) == data
  {
    assert [Arrives(data)][1..] == [];
  }
}
