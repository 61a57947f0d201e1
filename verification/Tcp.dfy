// The bottom of the pipe stack: the socket, as far as the pipes can see it, and
// the TCP pipe of src/io/src/io_pipe_tcp.c.
module Buffers {
  import opened Serialize
  import opened Framing

  // src/io/src/io_buffer.h: `size` bytes from `head` on, inside a fixed block
  class IoBuffer {
    const data: array<Byte>
    var head: nat
    var size: nat

    ghost predicate Valid()
      reads this
    {
      head + size <= data.Length
    }

    function Contents(): (s: Bytes)
      requires Valid()
      reads this, data
      ensures |s| == size
    {
      data[head..head + size]
    }

    // alloc_io_buffer: a zeroed block, with a copy of `bytes` at its front
    constructor (capacity: nat, bytes: Bytes)
      requires |bytes| <= capacity
      ensures Valid() && fresh(data) && data.Length == capacity
      ensures head == 0 && size == |bytes| && Contents() == bytes
    {
      data := new Byte[capacity](i => if 0 <= i < |bytes| then bytes[i] else 0);
      head, size := 0, |bytes|;
    }

    // buf->head += n; buf->size -= n
    method Drop(n: nat)
      requires Valid() && n <= size
      modifies this
      ensures Valid() && Contents() == old(Contents())[n..]
      ensures head == old(head) + n && size == old(size) - n
    {
      head, size := head + n, size - n;
    }
  }
}

module Tcp {
  import opened Serialize
  import opened Framing

  // The state bits of io_pipe
  datatype PipeState = PipeState(
    ready: bool, broken: bool,
    readable: bool, finRcvd: bool,
    writable: bool, finSent: bool)

  const IDLE := PipeState(false, false, false, false, false, false)

  // tag_pipe_as_broken
  function Broken(b: PipeState): PipeState {
    b.(broken := true, readable := false, writable := false)
  }

  // SK_EV_xxx, and the maskable two of them
  datatype SkEvents = SkEvents(readable: bool, writable: bool, error: bool)

  const NO_EVENTS := SkEvents(false, false, false)

  datatype Mask = Mask(readable: bool, writable: bool)

  // IO_EV_xxx
  datatype IoEvents = IoEvents(ready: bool, broken: bool, readable: bool, writable: bool)

  const NOTHING := IoEvents(false, false, false, false)

  // One end of a connection.  `sent` and `shut` are what was put in and how it
  // was closed; `inbound` and `inFin` are what has arrived, of which the first
  // `taken` bytes have been read.
  datatype Net = Net(sent: Bytes, shut: bool, inbound: Bytes, inFin: bool, taken: nat)
  {
    ghost predicate Valid() {
      taken <= |inbound|
    }

    ghost function Taken(): Bytes
      requires Valid()
    {
      inbound[..taken]
    }

    ghost predicate AtEnd() {
      inFin && taken == |inbound|
    }
  }

  // The calls a socket has seen, each with its length and result: those that
  // read, and those that send or shut down
  datatype Get = Read(len: nat, result: int)

  datatype Put = Sent(len: nat, result: int) | Closed(result: int)

  datatype Calls = Calls(gets: seq<Get>, puts: seq<Put>)
  {
    function Get(g: Get): Calls {
      this.(gets := gets + [g])
    }

    function Put(p: Put): Calls {
      this.(puts := puts + [p])
    }
  }

  // The foreign part: each call does any of the things the system may do.
  class Socket {
    var net: Net
    var watched: Mask     // the mask registered with the event loop
    var fatal: bool       // sk_errno: the call that failed last did so for good
    var connErr: bool     // sk_error: connecting has failed
    ghost var calls: Calls

    constructor ()
      ensures net == Net([], false, [], false, 0) && calls == Calls([], [])
    {
      net := Net([], false, [], false, 0);
      calls := Calls([], []);
      watched := Mask(false, false);
    }

    // sk_recv: some bytes, FIN once everything is read, or an error
    method Recv(buf: array<Byte>, off: nat, len: nat) returns (r: int)
      requires net.Valid() && 0 < len && off + len <= buf.Length
      modifies this`net, this`fatal, this`calls, buf
      ensures net.Valid() && -1 <= r <= len && calls == old(calls).Get(Read(len, r))
      ensures buf[..off] == old(buf[..off])
      ensures r > 0 ==> buf[off + r..] == old(buf[off + r..])
      ensures r > 0 ==> net == old(net).(taken := old(net).taken + r)
      ensures r > 0 ==> buf[off..off + r] == old(net).inbound[old(net).taken..net.taken]
      ensures r <= 0 ==> net == old(net) && buf[..] == old(buf[..])
      ensures r == 0 ==> net.AtEnd()
    {
      r, fatal := -1, *;
      var avail := |net.inbound| - net.taken;
      var again: bool := *;
      if !again && avail > 0 {
        var n :| 0 < n <= avail && n <= len;
        var got := net.inbound[net.taken..net.taken + n];
        forall i | 0 <= i < n {
          buf[off + i] := got[i];
        }
        net := net.(taken := net.taken + n);
        r := n;
      } else if !again && avail == 0 && net.inFin {
        r := 0;
      }
      calls := calls.Get(Read(len, r));
    }

    // sk_send: takes some front part of the data, or fails
    method Send(data: Bytes) returns (r: int)
      modifies this`net, this`fatal, this`calls
      ensures -1 <= r <= |data| && calls == old(calls).Put(Sent(|data|, r))
      ensures r >= 0 ==> !old(net).shut && net == old(net).(sent := old(net).sent + data[..r])
      ensures r < 0 ==> net == old(net)
    {
      r, fatal := -1, *;
      var again: bool := *;
      if !again && !net.shut {
        var n :| 0 <= n <= |data|;
        net := net.(sent := net.sent + data[..n]);
        r := n;
      }
      calls := calls.Put(Sent(|data|, r));
    }

    // What the network does at this end
    method Deliver(data: Bytes, fin: bool)
      requires !net.inFin
      modifies this`net
      ensures net == old(net).(inbound := old(net).inbound + data, inFin := fin)
    {
      net := net.(inbound := net.inbound + data, inFin := fin);
    }

    // sk_shutdown
    method Shutdown() returns (r: int)
      modifies this`net, this`calls
      ensures r >= 0 ==> net == old(net).(shut := true)
      ensures r < 0 ==> net == old(net)
      ensures calls == old(calls).Put(Closed(r))
    {
      var fails: bool := *;
      r := -1;
      if !fails {
        net := net.(shut := true);
        r := 0;
      }
      calls := calls.Put(Closed(r));
    }
  }

  // What the pipe wants to hear about: nothing before it is ready or once it is
  // broken, and then what it could not do the last time and may still do
  function Wanted(b: PipeState): Mask {
    if b.ready && !b.broken then
      Mask(!b.readable && !b.finRcvd, !b.writable && !b.finSent)
    else
      Mask(false, false)
  }

  // The effects of the pipe's operations on its state bits and its socket
  ghost predicate RecvStep(b: PipeState, n: Net, r: int, got: Bytes, b': PipeState, n': Net)
    requires n.Valid()
  {
    if r > 0 then
      n.taken + r <= |n.inbound| && got == n.inbound[n.taken..n.taken + r] &&
      n' == n.(taken := n.taken + r) && b' == b.(readable := true)
    else
      n' == n &&
      if r == 0 then n.AtEnd() && b' == b.(readable := false, finRcvd := true)
      else b' == b.(readable := false) || b' == Broken(b)
  }

  ghost predicate SendStep(b: PipeState, n: Net, data: Bytes, r: int, b': PipeState, n': Net) {
    if r >= 0 then
      r <= |data| && !n.shut &&
      n' == n.(sent := n.sent + data[..r]) && b' == b.(writable := r == |data|)
    else
      n' == n && (b' == b.(writable := false) || b' == Broken(b))
  }

  ghost predicate FinStep(b: PipeState, n: Net, r: int, b': PipeState, n': Net) {
    if r >= 0 then
      n' == n.(shut := true) && b' == b.(writable := false, finSent := true)
    else
      n' == n && b' == Broken(b)
  }

  // One call of send with this data, and what has come of it
  ghost predicate Tried(c: Calls, n: Net, data: Bytes, c': Calls, n': Net) {
    && |c'.puts| == |c.puts| + 1 && c'.puts[..|c.puts|] == c.puts && c'.gets == c.gets
    && match c'.puts[|c.puts|]
       case Sent(len, k) => len == |data| && k <= |data| && n' == n.(sent := n.sent + if k < 0 then [] else data[..k])
       case Closed(_) => false
  }

  ghost predicate EventStep(b: PipeState, ev: SkEvents, io: IoEvents, b': PipeState) {
    || (!b.ready && (ev.error || ev.writable) &&
        b' == Broken(b) && io == IoEvents(false, true, false, false))
    || ((b.ready || !ev.error) &&
        b' == b.(ready := true, readable := b.readable || ev.readable, writable := b.writable || ev.writable) &&
        io == IoEvents(!b.ready, false, ev.readable, ev.writable))
  }

  // An event is not lost: it makes the pipe ready, and readable if it says so,
  // or else the pipe breaks.
  ghost predicate EventTaken(ev: SkEvents, b': PipeState) {
    b'.broken || (b'.ready && (ev.readable ==> b'.readable))
  }

  // The assertions the pipe makes about an event it is handed
  ghost predicate EventExpected(b: PipeState, ev: SkEvents) {
    && (!b.ready ==> ev.error || ev.writable)
    && (ev.readable ==> !b.finRcvd)
    && (ev.writable ==> !b.finSent)
  }

  class TcpPipe {
    var base: PipeState
    var mask: Mask
    const sk: Socket

    ghost predicate Valid()
      reads this, sk
    {
      && sk.net.Valid()
      && mask == sk.watched
      && (base.ready ==> mask == Wanted(base))
      && (!base.ready ==> mask == Mask(false, false) || (base == IDLE && mask == Mask(false, true)))
      && (base.finRcvd ==> sk.net.AtEnd() && !base.readable)
      && (base.finSent <==> sk.net.shut)
      && (base.finSent ==> !base.writable)
    }

    // A broken pipe waits for nothing.
    lemma BrokenIsUnwatched()
      requires Valid() && base.broken
      ensures sk.watched == Mask(false, false)
    {
    }

    // new_tcp_pipe and tcp_pipe_init, on a socket that is connecting
    constructor (sk: Socket)
      requires sk.net.Valid() && !sk.net.shut
      modifies sk
      ensures Valid() && this.sk == sk && base == IDLE && mask == Mask(false, true)
      ensures sk.net == old(sk.net) && sk.calls == old(sk.calls)
    {
      this.sk := sk;
      base := IDLE;
      mask := Mask(false, true);
      new;
      sk.watched := mask;
    }

    method AdjustEventMask()
      requires mask == sk.watched
      modifies this`mask, sk`watched
      ensures mask == sk.watched == Wanted(base)
      ensures base.broken || !base.ready ==> sk.watched == Mask(false, false)
      ensures base.ready && !base.broken ==>
                sk.watched == Mask(!base.readable && !base.finRcvd, !base.writable && !base.finSent)
    {
      var m := Mask(false, false);
      if base.ready && !base.broken {
        if !base.readable && !base.finRcvd {
          m := m.(readable := true);
        }
        if !base.writable && !base.finSent {
          m := m.(writable := true);
        }
      }
      if mask == m {
        return;
      }
      mask := m;
      sk.watched := mask;
    }

    // tcp_pipe_on_activity, up to its tail call of the pipe's own callback
    // with the events that are returned here
    method OnActivity(ev: SkEvents) returns (io: IoEvents)
      requires Valid() && EventExpected(base, ev)
      modifies this, sk`watched
      ensures Valid() && mask == Wanted(base) && (base.broken ==> sk.watched == Mask(false, false))
      ensures EventStep(old(base), ev, io, base)
      ensures !old(base.ready) ==> (base.ready <==> !ev.error && !sk.connErr)
    {
      io := NOTHING;
      if !base.ready {
        assert ev.error || ev.writable;
        if ev.error || (ev.writable && sk.connErr) {
          base := Broken(base);
          io := IoEvents(false, true, false, false);
          AdjustEventMask();
          return;
        }
        base := base.(ready := true);
        io := io.(ready := true);
      }
      if ev.readable {
        assert !base.finRcvd;
        base := base.(readable := true);
        io := io.(readable := true);
      }
      if ev.writable {
        assert !base.finSent;
        base := base.(writable := true);
        io := io.(writable := true);
      }
      AdjustEventMask();
    }

    method Recv(buf: array<Byte>, off: nat, len: nat) returns (r: int)
      requires Valid() && 0 < len && off + len <= buf.Length
      modifies this, sk, buf
      ensures Valid() && mask == Wanted(base) && (base.broken ==> sk.watched == Mask(false, false))
      ensures sk.calls == old(sk.calls).Get(Read(len, r))
      ensures r <= len && buf[..off] == old(buf[..off])
      ensures RecvStep(old(base), old(sk.net), r, if r > 0 then buf[off..off + r] else [], base, sk.net)
      ensures r < 0 ==> base == if sk.fatal then Broken(old(base)) else old(base).(readable := false)
    {
      r := sk.Recv(buf, off, len);
      if r > 0 {
        base := base.(readable := true);
      } else if r < 0 {
        base := base.(readable := false);
        if sk.fatal {
          base := Broken(base);
        }
      } else {
        base := base.(readable := false, finRcvd := true);
      }
      AdjustEventMask();
    }

    method Send(data: Bytes) returns (r: int)
      requires Valid()
      modifies this, sk
      ensures Valid() && mask == Wanted(base) && (base.broken ==> sk.watched == Mask(false, false))
      ensures sk.calls == old(sk.calls).Put(Sent(|data|, r))
      ensures SendStep(old(base), old(sk.net), data, r, base, sk.net)
      ensures r < 0 ==> base == if sk.fatal then Broken(old(base)) else old(base).(writable := false)
    {
      r := sk.Send(data);
      if r == |data| {
        base := base.(writable := true);
      } else if r >= 0 {
        base := base.(writable := false);
      } else {
        base := base.(writable := false);
        if sk.fatal {
          base := Broken(base);
        }
      }
      AdjustEventMask();
    }

    method SendFin() returns (r: int)
      requires Valid() && !base.finSent
      modifies this, sk
      ensures Valid() && mask == Wanted(base) && (base.broken ==> sk.watched == Mask(false, false))
      ensures sk.calls == old(sk.calls).Put(Closed(r))
      ensures FinStep(old(base), old(sk.net), r, base, sk.net)
    {
      r := sk.Shutdown();
      if r < 0 {
        base := Broken(base);
      } else {
        base := base.(writable := false, finSent := true);
      }
      AdjustEventMask();
    }
  }
}
