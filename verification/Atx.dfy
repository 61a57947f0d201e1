// The atomic-send pipe of src/io/src/io_pipe_atx.c: it takes a whole packet or
// none of it, whatever part of the packet the carrier takes.
module Atx {
  import opened Serialize
  import opened Framing
  import opened Buffers
  import opened Tcp

  // How a callback that does not end the connection may change the state bits:
  // each bit it raises is reported, and nothing else is.
  ghost predicate EventSeen(b: PipeState, e: IoEvents, b': PipeState) {
    && b'.finRcvd == b.finRcvd && b'.finSent == b.finSent
    && (b'.readable ==> b.readable || e.readable)
    && (b'.writable ==> b.writable || e.writable)
    && (b'.broken <==> b.broken || e.broken)
    && (b'.ready <==> b.ready || e.ready)
    && (e.writable ==> b'.writable)
    && (e.readable && !b'.readable ==> e.broken)
    && (b.readable && !b'.readable ==> e.broken)
    && (b.writable && !b'.writable ==> e.broken)
    && (b'.broken ==> !b'.readable && !b'.writable)
    && (e == NOTHING ==> b' == b)
  }

  // What a callback leaves alone in any case
  ghost predicate EventKept(b: PipeState, b': PipeState) {
    && b'.finRcvd == b.finRcvd
    && (b.ready ==> b'.ready) && (b.broken ==> b'.broken)
    && (b.readable ==> b'.readable || b'.broken)
  }

  // `n` more calls that send or shut down
  ghost predicate PutMore(c: Calls, c': Calls, n: nat) {
    c'.gets == c.gets && |c'.puts| == |c.puts| + n
  }

  lemma FinIsKept(b: PipeState, n: Net, r: int, b': PipeState, n': Net)
    requires FinStep(b, n, r, b', n')
    ensures EventKept(b, b') && n' == n.(shut := n'.shut)
    ensures if r >= 0 then b'.finSent && !b'.writable && b'.broken == b.broken else b'.broken && b'.finSent == b.finSent
  {
  }

  lemma KeptTwice(b: PipeState, c: PipeState, d: PipeState)
    requires EventKept(b, c) && EventKept(c, d)
    ensures EventKept(b, d)
  {
  }

  // The carrier's part in it
  lemma StepIsKept(b: PipeState, sk: SkEvents, ev: IoEvents, c: PipeState, d: PipeState)
    requires EventStep(b, sk, ev, c) && EventKept(c, d)
    ensures EventKept(b, d) && EventTaken(sk, d)
  {
  }

  // How a flush changes the report of an event and the state of the carrier
  ghost predicate FlushSeen(ev: IoEvents, c: PipeState, drained: bool, e: IoEvents, d: PipeState) {
    && e == ev.(broken := e.broken, writable := drained)
    && (!c.broken ==> e.broken == (ev.broken || d.broken))
    && (d == c.(writable := drained) || (!drained && e.broken && d == Broken(c)))
  }

  // The carrier's report of an event, and what is left of it after a flush
  lemma ReportOfReport(b: PipeState, sk: SkEvents, ev: IoEvents, c: PipeState,
                       flushed: bool, drained: bool, e: IoEvents, d: PipeState)
    requires EventStep(b, sk, ev, c)
    requires flushed ==> ev.writable && !b.writable && FlushSeen(ev, c, drained, e, d)
    requires !flushed ==> e == ev && d == c
    ensures !b.broken ==> EventSeen(b, e, d)
    ensures e == NOTHING ==> d == b
  {
  }

  // What the carrier made of the pending bytes, and what is reported upwards
  lemma FlushOutcome(ev: IoEvents, b: PipeState, r: int, drained: bool, c: PipeState, e: IoEvents)
    requires ev.writable && !b.finSent
    requires if r >= 0 then c == b.(writable := drained) else c == b.(writable := false) || c == Broken(b)
    requires r < 0 ==> !drained
    requires e == if drained then ev else ev.(writable := false, broken := ev.broken || (r < 0 && c.broken))
    ensures FlushSeen(ev, b, drained, e, c) && EventKept(b, c)
  {
  }

  lemma RecvLeavesSending(b: PipeState, n: Net, r: int, got: Bytes, b': PipeState, n': Net)
    requires n.Valid() && RecvStep(b, n, r, got, b', n')
    ensures b'.writable ==> b.writable
    ensures b'.finSent == b.finSent && (b.broken ==> b'.broken)
    ensures n'.sent == n.sent
  {
  }

  class AtxPipe {
    var base: PipeState
    const io: TcpPipe
    var pending: IoBuffer?
    var wantFin: bool

    ghost var accepted: Bytes    // all packets that were taken, in order
    ghost var finAsked: bool     // send_fin was called
    ghost var Repr: set<object>

    // The bytes that the carrier has yet to take
    ghost function Pending(): Bytes
      requires pending != null ==> pending.Valid()
      reads this, pending, if pending == null then {} else {pending.data}
    {
      if pending == null then [] else pending.Contents()
    }

    // What holds at all times
    ghost predicate Inv()
      reads this, Repr
    {
      && this in Repr && io in Repr && io.sk in Repr
      && (pending != null ==> pending in Repr && pending.data in Repr)
      && io.Valid()
      && (pending != null ==> pending.Valid() && pending.size > 0)
      // exactness: nothing lost, nothing doubled, nothing out of order
      && io.sk.net.sent + Pending() == accepted
      // FIN is asked for before it is sent, and is sent behind all the data
      && (wantFin ==> finAsked)
      && (io.base.finSent ==> finAsked && pending == null)
      && (finAsked ==> io.base.finSent || io.base.broken || wantFin)
    }

    // A FIN that was asked for is sent, or waits for the pending data, or is
    // not going to be
    ghost predicate FinSettled()
      reads this, io
    {
      finAsked ==> io.base.finSent || io.base.broken || (pending != null && wantFin)
    }

    // What holds except while the carrier's callback is on its way up
    ghost predicate Valid()
      reads this, Repr
      ensures Valid() ==> this in Repr
    {
      Inv() && FinSettled() && base == io.base && (pending != null ==> !io.base.writable)
    }

    constructor (io: TcpPipe)
      requires io.Valid() && io.sk.net.sent == [] && !io.base.finSent
      ensures Valid() && this.io == io && pending == null && !wantFin
      ensures accepted == [] && !finAsked && Repr == {this, io, io.sk}
    {
      this.io, pending, wantFin := io, null, false;
      accepted, finAsked := [], false;
      Repr := {this, io, io.sk};
      base := io.base;
    }

    lemma Footprint()
      requires Valid()
      ensures this in Repr && io in Repr && io.sk in Repr && base == io.base
      ensures pending != null ==> pending in Repr && pending.data in Repr
    {
    }

    lemma SocketEnd()
      requires Valid()
      ensures io.sk.net.Valid() && (io.base.finRcvd ==> io.sk.net.AtEnd())
    {
    }

    method CloneState()
      modifies this`base
      ensures base == io.base.(writable := io.base.writable && pending == null)
    {
      base := io.base;
      if pending != null {
        base := base.(writable := false);
      }
    }

    method Recv(buf: array<Byte>, off: nat, len: nat) returns (r: int)
      requires Valid() && 0 < len && off + len <= buf.Length && buf !in Repr
      modifies this`base, io, io.sk, buf
      ensures Valid() && Repr == old(Repr)
      ensures base == io.base && old(base) == old(io.base)
      ensures io.sk.calls == old(io.sk.calls).Get(Read(len, r))
      ensures r <= len && buf[..off] == old(buf[..off])
      ensures RecvStep(old(base), old(io.sk.net), r, if r > 0 then buf[off..off + r] else [], base, io.sk.net)
    {
      hide Wanted, TcpPipe.Valid, RecvStep;
      ghost var b, n := io.base, io.sk.net;
      r := io.Recv(buf, off, len);
      RecvLeavesSending(b, n, r, if r > 0 then buf[off..off + r] else [], io.base, io.sk.net);
      CloneState();
    }

    method Send(data: Bytes) returns (r: int)
      requires Valid()
      modifies this, io, io.sk
      ensures Valid() && fresh(Repr - old(Repr))
      ensures base == io.base && old(base) == old(io.base)
      ensures r == -1 || r == |data|
      ensures accepted == if r < 0 then old(accepted) else old(accepted) + data
      ensures wantFin == old(wantFin) && finAsked == old(finAsked)
      ensures if old(pending) != null then
                r == -1 && base == old(base) && io.sk.calls == old(io.sk.calls) && io.sk.net == old(io.sk.net)
              else
                Tried(old(io.sk.calls), old(io.sk.net), data, io.sk.calls, io.sk.net)
      ensures io.sk.net == old(io.sk.net).(sent := io.sk.net.sent)
      ensures old(io.sk.net.sent) <= io.sk.net.sent
      ensures r >= 0 ==> base == old(base).(writable := base.writable)
      ensures r < 0 ==> base == old(base).(writable := false) || base == Broken(old(base))
    {
      if pending != null {
        return -1;
      }
      r := SendNow(data);
    }

    // send, with nothing pending
    method SendNow(data: Bytes) returns (r: int)
      requires Valid() && pending == null
      modifies this, io, io.sk
      ensures Valid() && fresh(Repr - old(Repr))
      ensures r == -1 || r == |data|
      ensures accepted == if r < 0 then old(accepted) else old(accepted) + data
      ensures wantFin == old(wantFin) && finAsked == old(finAsked)
      ensures io.sk.net == old(io.sk.net).(sent := io.sk.net.sent)
      ensures old(io.sk.net.sent) <= io.sk.net.sent
      ensures Tried(old(io.sk.calls), old(io.sk.net), data, io.sk.calls, io.sk.net)
      ensures r >= 0 ==> base == old(base).(writable := base.writable)
      ensures r < 0 ==> base == old(base).(writable := false) || base == Broken(old(base))
    {
      hide Wanted, TcpPipe.Valid, IoBuffer.Valid, SendStep, Tried;
      r := Hand(data);
      if r < 0 {
        assert !base.writable;
        return -1;
      }
      Keep(data, r);
      r := |data|;
    }

    // The carrier's send, with nothing pending
    method Hand(data: Bytes) returns (r: int)
      requires Valid() && pending == null
      modifies this`base, io, io.sk
      ensures io.Valid() && base == io.base
      ensures if r >= 0 then r <= |data| && base == old(base).(writable := r == |data|)
              else base == old(base).(writable := false) || base == Broken(old(base))
      ensures io.sk.net == old(io.sk.net).(sent := accepted + if r >= 0 then data[..r] else [])
      ensures old(io.sk.net.sent) == old(accepted)
      ensures io.sk.calls == old(io.sk.calls).Put(Sent(|data|, r))
      ensures Tried(old(io.sk.calls), old(io.sk.net), data, io.sk.calls, io.sk.net)
      ensures r >= 0 ==> !io.base.finSent
    {
      hide Wanted, TcpPipe.Valid;
      r := io.Send(data);
      CloneState();
    }

    // The packet is taken; keep what the carrier did not take of it.
    method Keep(data: Bytes, r: nat)
      requires pending == null && r <= |data|
      requires io.sk.net.sent == accepted + data[..r]
      requires r < |data| ==> !base.writable
      modifies this`pending, this`accepted, this`Repr
      ensures pending == null <==> r == |data|
      ensures pending == null ==> Repr == old(Repr)
      ensures pending != null ==>
                fresh(pending) && fresh(pending.data) && Repr == old(Repr) + {pending, pending.data} &&
                pending.Valid() && pending.size > 0
      ensures accepted == old(accepted) + data
      ensures io.sk.net.sent + Pending() == accepted
    {
      assert data == data[..r] + data[r..];
      if r < |data| {
        assert !base.writable;
        pending := new IoBuffer(|data| - r, data[r..]);
        Repr := Repr + {pending, pending.data};
      }
      accepted := accepted + data;
    }

    method SendFin() returns (r: int)
      requires Valid()
      requires !base.finSent && !wantFin    // don't call twice
      modifies this, io, io.sk
      ensures Valid() && Repr == old(Repr) && pending == old(pending) && accepted == old(accepted)
      ensures finAsked && wantFin == (pending != null)
      ensures if pending != null then
                r == 0 && base == old(base) && io.sk.net == old(io.sk.net) && io.sk.calls == old(io.sk.calls)
              else
                FinStep(old(base), old(io.sk.net), r, base, io.sk.net) &&
                io.sk.calls == old(io.sk.calls).Put(Closed(r))
    {
      hide Wanted, TcpPipe.Valid;
      finAsked := true;
      if pending != null {
        wantFin := true;
        return 0;
      }
      r := io.SendFin();
      CloneState();
    }

    // The carrier has taken `r` more of the pending bytes, but not all
    method Advance(r: nat)
      requires pending != null && pending.Valid() && r < pending.size
      requires io.sk.net.sent + pending.Contents()[r..] == accepted
      modifies pending
      ensures pending.Valid() && pending.size > 0
      ensures io.sk.net.sent + Pending() == accepted
    {
      pending.Drop(r);
    }

    // The carrier has taken the last of them
    method Drained()
      requires pending != null && pending.Valid()
      requires io.sk.net.sent + pending.Contents()[pending.size..] == accepted
      modifies this`pending
      ensures pending == null && io.sk.net.sent == accepted
    {
      pending := null;
    }

    // Offer the pending bytes to the carrier
    method Push() returns (r: int)
      requires Inv() && pending != null
      modifies this`pending, pending, io, io.sk
      ensures Inv() && (pending == null || pending == old(pending))
      ensures r < 0 ==> pending != null
      ensures r >= 0 ==> (pending == null <==> r == old(pending.size))
      ensures io.sk.calls == old(io.sk.calls).Put(Sent(old(pending.size), r))
      ensures r >= 0 ==> io.base == old(io.base).(writable := pending == null)
      ensures r < 0 ==> io.base == old(io.base).(writable := false) || io.base == Broken(old(io.base))
      ensures io.sk.net == old(io.sk.net).(sent := io.sk.net.sent)
      ensures old(io.sk.net.sent) <= io.sk.net.sent
    {
      hide Wanted, TcpPipe.Valid;
      r := io.Send(pending.Contents());
      if 0 <= r < pending.size {
        Advance(r);
      } else if r >= 0 {
        Drained();
      }
    }

    // atx_pipe_on_activity, its first half: flush what is pending
    method Flush(ev: IoEvents) returns (e: IoEvents)
      requires Inv() && pending != null && ev.writable && !io.base.finSent
      modifies this`pending, pending, io, io.sk
      ensures Inv() && (pending == null || pending == old(pending))
      ensures pending != null ==> !io.base.writable
      ensures pending == null ==> io.base.writable && !io.base.finSent && e == ev
      ensures PutMore(old(io.sk.calls), io.sk.calls, 1)
      ensures e.readable == ev.readable && (e.writable ==> ev.writable)
      ensures io.sk.net == old(io.sk.net).(sent := io.sk.net.sent)
      ensures old(io.sk.net.sent) <= io.sk.net.sent
      ensures FlushSeen(ev, old(io.base), pending == null, e, io.base)
      ensures EventKept(old(io.base), io.base)
    {
      hide Wanted, TcpPipe.Valid, FlushSeen, EventKept, AtxPipe.Inv;
      ghost var b := io.base;
      e := ev;
      var r := Push();
      if r < 0 {
        if io.base.broken {
          e := e.(broken := true);
        }
        e := e.(writable := false);
      } else if pending != null {
        e := e.(writable := false);
      } else if !io.base.writable {
        e := e.(writable := false);
      }
      FlushOutcome(ev, b, r, pending == null, io.base, e);
    }

    // atx_pipe_on_activity, its second half: execute the pending shutdown
    method SendDeferredFin(ev: IoEvents) returns (e: IoEvents)
      requires Inv() && wantFin && pending == null && !io.base.finSent
      modifies io, io.sk
      ensures Inv() && FinSettled()
      ensures io.base.finSent || io.base.broken
      ensures PutMore(old(io.sk.calls), io.sk.calls, 1)
      ensures e.readable == ev.readable && (e.writable ==> ev.writable)
      ensures e == ev.(writable := false, broken := ev.broken || !io.base.finSent)
      ensures EventKept(old(io.base), io.base)
      ensures io.sk.net == old(io.sk.net).(shut := io.sk.net.shut)
    {
      hide Wanted, TcpPipe.Valid, FinStep, EventKept;
      ghost var b, n := io.base, io.sk.net;
      e := ev;
      var r := io.SendFin();
      FinIsKept(b, n, r, io.base, io.sk.net);
      if r < 0 && io.base.broken {
        e := e.(broken := true);
      }
      e := e.(writable := false);
    }

    // Both halves
    method FlushAndFin(ev: IoEvents) returns (e: IoEvents)
      requires Inv() && FinSettled() && pending != null && ev.writable && !io.base.finSent
      modifies this`pending, pending, io, io.sk
      ensures Inv() && FinSettled() && (pending == null || pending == old(pending))
      ensures pending != null ==> !io.base.writable
      ensures PutMore(old(io.sk.calls), io.sk.calls, if wantFin && pending == null then 2 else 1)
      ensures e.readable == ev.readable && (e.writable ==> ev.writable)
      ensures io.sk.net == old(io.sk.net).(sent := io.sk.net.sent, shut := io.sk.net.shut)
      ensures old(io.sk.net.sent) <= io.sk.net.sent
      ensures wantFin && pending == null ==> io.base.finSent || io.base.broken
      ensures wantFin && pending == null ==> e == ev.(writable := false, broken := ev.broken || !io.base.finSent)
      ensures !wantFin || pending != null ==> io.sk.net.shut == old(io.sk.net.shut)
      ensures !wantFin || pending != null ==> FlushSeen(ev, old(io.base), pending == null, e, io.base)
      ensures EventKept(old(io.base), io.base)
    {
      hide Wanted, TcpPipe.Valid, FlushSeen, EventKept;
      ghost var b := io.base;
      e := Flush(ev);
      if pending == null && wantFin {
        ghost var c := io.base;
        e := SendDeferredFin(e);
        KeptTwice(b, c, io.base);
      }
    }

    // atx_pipe_on_activity, up to its tail call: `e` is what the callback is
    // called with; it is not called when there is nothing to report
    method OnActivity(ev: IoEvents) returns (e: IoEvents)
      requires Inv() && FinSettled()
      requires ev.writable ==> io.base.writable && !io.base.finSent
      requires pending != null && io.base.writable ==> ev.writable
      modifies this`base, this`pending, pending, io, io.sk
      ensures Valid() && (pending == null || pending == old(pending))
      ensures accepted == old(accepted) && wantFin == old(wantFin) && finAsked == old(finAsked)
      ensures io.sk.net == old(io.sk.net).(sent := io.sk.net.sent, shut := io.sk.net.shut)
      ensures old(io.sk.net.sent) <= io.sk.net.sent
      ensures !wantFin || pending != null || old(pending) == null ==> io.sk.net.shut == old(io.sk.net.shut)
      // the deferred FIN goes out at once when the last pending byte is taken
      ensures wantFin && old(pending) != null && pending == null ==> base.finSent || base.broken
      // ... and is not reported
      ensures ev.writable && wantFin && old(pending) != null && pending == null ==>
                e == ev.(writable := false, broken := ev.broken || !base.finSent)
      ensures ev.writable && old(pending) != null && (!wantFin || pending != null) ==>
                FlushSeen(ev, old(io.base), pending == null, e, base)
      ensures io.sk.calls.gets == old(io.sk.calls).gets && |old(io.sk.calls).puts| <= |io.sk.calls.puts|
      ensures e.readable == ev.readable && (e.writable ==> ev.writable)
      ensures EventKept(old(io.base), base)
      ensures !ev.writable || old(pending) == null ==>
                e == ev && base == old(io.base) && io.sk.calls == old(io.sk.calls) && io.sk.net == old(io.sk.net)
      ensures ev.writable && old(pending) != null ==>
                PutMore(old(io.sk.calls), io.sk.calls, if wantFin && pending == null then 2 else 1)
    {
      hide Wanted, TcpPipe.Valid, FlushSeen;
      e := ev;
      if ev.writable && pending != null {
        e := FlushAndFin(ev);
      }
      CloneState();
    }

    // The carrier's callback and this pipe's own, one after the other
    method OnSocket(sk: SkEvents) returns (e: IoEvents)
      requires Valid() && EventExpected(io.base, sk)
      modifies this`base, this`pending, pending, io, io.sk
      ensures Valid() && (pending == null || pending == old(pending)) && Repr == old(Repr)
      ensures accepted == old(accepted) && wantFin == old(wantFin) && finAsked == old(finAsked)
      ensures io.sk.net == old(io.sk.net).(sent := io.sk.net.sent, shut := io.sk.net.shut)
      ensures old(io.sk.net.sent) <= io.sk.net.sent
      ensures !wantFin || pending != null || old(pending) == null ==> io.sk.net.shut == old(io.sk.net.shut)
      ensures EventKept(old(base), base)
      ensures (!wantFin || pending != null || old(pending) == null) && e == NOTHING ==> base == old(base)
      ensures EventTaken(sk, base) && (sk.writable && old(pending) == null ==> base.writable || base.broken)
      // pending data is offered once, and a deferred FIN with the last of it
      ensures !sk.writable || old(pending) == null ==> io.sk.calls == old(io.sk.calls)
      ensures sk.writable && old(pending) != null && (old(base.ready) || !base.broken) ==>
                PutMore(old(io.sk.calls), io.sk.calls, if wantFin && pending == null then 2 else 1)
      ensures io.sk.calls.gets == old(io.sk.calls).gets && |old(io.sk.calls).puts| <= |io.sk.calls.puts|
      ensures (e.readable ==> sk.readable) && (e.writable ==> sk.writable)
      // a deferred FIN goes out unreported
      ensures old(base.ready) && wantFin && old(pending) != null && pending == null ==>
                (base.finSent || base.broken) && e == IoEvents(false, !base.finSent, sk.readable, false)
      ensures (!wantFin || pending != null || old(pending) == null) && !old(base.broken) ==> EventSeen(old(base), e, base)
    {
      hide Wanted, TcpPipe.Valid, EventKept, EventTaken, EventSeen, FlushSeen, PutMore;
      ghost var b, flushed := base, pending != null;
      var ev := io.OnActivity(sk);
      ghost var c := io.base;
      assert EventStep(b, sk, ev, c);
      e := OnActivity(ev);
      StepIsKept(b, sk, ev, c, base);
      if !wantFin || pending != null || !flushed {
        ReportOfReport(b, sk, ev, c, ev.writable && flushed, pending == null, e, base);
      }
    }
  }
}
