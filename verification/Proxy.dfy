// A proxy process: a bridge and the events its loop has collected for it.
module Proxy {
  import opened Serialize
  import opened Framing
  import opened Tcp
  import opened Atx
  import opened Dgm
  import opened Pipes
  import opened Bridge

  // Events that may be handed to a pipe although other callbacks have run since
  // they were collected
  ghost predicate StillGood(c: PipeState, have: SkEvents) {
    && (have.readable ==> c.ready && !c.readable && !c.finRcvd)
    && (have.writable ==> !c.writable && !c.finSent)
  }

  // They are good when they are collected, for any events the loop was asked for,
  lemma CollectedIsGood(tcp: TcpPipe, have: SkEvents)
    requires tcp.Valid()
    requires have.readable ==> tcp.sk.watched.readable
    requires have.writable ==> tcp.sk.watched.writable
    ensures StillGood(tcp.base, have)
  {
  }

  // they stay good when the bridge works on the pipe from the other side,
  lemma QuietIsGood(v: View, v': View, have: SkEvents)
    requires StillGood(v.car, have) && Quiet(v, v')
    ensures StillGood(v'.car, have)
  {
  }

  // and good events meet the pipe's assertions.
  lemma GoodIsExpected(c: PipeState, have: SkEvents)
    requires StillGood(c, have) && have != NO_EVENTS
    ensures EventExpected(c, have)
  {
  }

  // What a pipe has accepted and sent only grows, the former not after FIN.
  ghost predicate Grown(v: View, v': View) {
    v.msgs <= v'.msgs && v.out <= v'.out && (v.car.finSent ==> v'.car.finSent && v'.msgs == v.msgs)
  }

  lemma QuietIsAsReady(v: View, v': View)
    requires Quiet(v, v')
    ensures v'.car.ready == v.car.ready
  {
  }

  lemma QuietIsGrown(v: View, e: IoEvents, u: View, v': View)
    requires CallbackSeen(v, e, u) && !v.defer && (u.car.finSent ==> !u.car.writable)
    requires Quiet(u, v')
    ensures Grown(v, v')
  {
  }

  lemma QuietOnlyIsGrown(v: View, v': View)
    requires Quiet(v, v') && (v.car.finSent ==> !v.car.writable)
    ensures Grown(v, v')
  {
  }

  lemma NothingIsGood(c: PipeState)
    ensures StillGood(c, NO_EVENTS)
  {
  }

  lemma HonestIsNoFalseFin(pipe: Pipe, arrived: (Bytes, bool))
    requires pipe.HonestPeer(arrived)
    ensures pipe.NoFalseFin(arrived)
  {
    match pipe
    case Raw(_) =>
    case Framed(dgm) => HonestHasNoEmpty(arrived.0, arrived.1, dgm.maxSize);
  }

  // A stream that has turned bad does not get better.
  lemma HonestBefore(pipe: Pipe, arrived: (Bytes, bool), data: Bytes, fin: bool)
    requires pipe.HonestPeer((arrived.0 + data, fin)) && !arrived.1
    ensures pipe.HonestPeer(arrived)
  {
    if pipe.Framed? {
      var ms: seq<Bytes> :| HonestBy(arrived.0 + data, fin, ms, pipe.dgm.maxSize);
      assert HonestBy(arrived.0, false, ms, pipe.dgm.maxSize);
    }
  }

  // A pipe's callback reports just what has become possible.
  lemma CallbackPoises(s: Side, p: Side, e: IoEvents, s': Side, ls: nat, ps: nat)
    requires Working(s, p, ls, ps) && !s.v.st.broken && Calm(s)
    requires !Open(s, p) && !Open(p, s)
    requires s' == s.(v := s'.v) && CallbackSeen(s.v, e, s'.v)
    requires s'.v.sound ==> s'.v.st == s'.v.car && !s'.v.defer
    requires s'.v.car.finRcvd ==> !s'.v.car.readable
    requires s'.v.car.finSent ==> !s'.v.car.writable
    ensures Working(s', p, ls, ps) && s'.v.hollow == s.v.hollow
    ensures s'.v.st.broken <==> e.broken
    ensures e.writable ==> s'.v.st.writable
    ensures !e.writable ==> Calm(s') && !Open(p, s')
    ensures !e.readable ==> !Open(s', p)
    ensures s'.v.st.finRcvd == s.v.st.finRcvd && s'.v.st.finSent == s.v.st.finSent
    ensures e == NOTHING ==> s'.v.st == s.v.st
  {
  }

  lemma CallbackOnFallen(s: Side, p: Side, e: IoEvents, s': Side, ls: nat, ps: nat)
    requires Bounded(s, p, ls) && Bounded(p, s, ps)
    requires s' == s.(v := s'.v) && CallbackSeen(s.v, e, s'.v)
    ensures Bounded(s', p, ls) && Bounded(p, s', ps)
    ensures Complete(s, p) && s.v.st == s.v.car ==> Complete(s', p)
    ensures Complete(p, s) && s.v.st == s.v.car ==> Complete(p, s')
    ensures Complete(p, s) <==> Complete(s, p)
    ensures Complete(s, p) ==> s.v.sound
    ensures s.v.car.broken ==> s'.v.car.broken
    ensures s'.v.hollow == s.v.hollow
    ensures !s.v.defer
  {
  }

  // A reason not to go down gracefully: a broken connection, or a bad stream
  ghost predicate Excuse(a: Stream, b: Stream)
    requires a.Valid() && b.Valid()
    reads a, a.Repr, b, b.Repr
  {
    || a.S().v.car.broken || b.S().v.car.broken
    || !a.pipe.HonestPeer(a.Arrived()) || !b.pipe.HonestPeer(b.Arrived())
  }

  lemma ExcuseMe(a: Stream, b: Stream)
    requires a.Valid() && b.Valid()
    ensures Excuse(a, b) <==> Excuse(b, a)
  {
  }

  // What comes of the events that a pipe is handed, if the bridge does not go
  // down on an error over them.  Where data can move, the socket that was reported
  // is read, or is sent what waits for it; where it cannot, the bit goes up and
  // stays up, and no socket is asked for anything.
  ghost predicate Heeded(s: Side, p: Side, have: SkEvents, s': Side, p': Side) {
    && (if have.readable && p.v.st.writable then s.v.gets < s'.v.gets else s'.v.gets == s.v.gets)
    && (have.readable && !p.v.st.writable ==> s'.v.st.readable)
    && (have.writable && (s.pend != [] || s.v.owing) ==> s.v.puts < s'.v.puts)
    && (have.writable && s.pend == [] && !s.v.owing && p.v.st.readable ==> Used(p, s, p', s'))
    && (have.writable && s.pend == [] && !s.v.owing && !p.v.st.readable ==>
          s'.v.st.writable && s'.v.puts == s.v.puts)
    && (if have.writable then s'.v.st.writable || s.v.puts < s'.v.puts else s'.v.puts == s.v.puts)
    // congestions are those of data that went to a pipe and closed it
    && p'.cong == p.cong + Congested(s', p, p')
    && s.cong <= s'.cong <= s.cong + 1
    && (!have.writable || s'.v.st.writable ==> s'.cong == s.cong)
    && (have.writable && !s.v.owing && !s'.v.st.writable && !p'.v.st.finRcvd ==> s'.cong == s.cong + 1)
  }

  lemma AttendedIsHeeded(s: Side, p: Side, have: SkEvents, called: bool, e: IoEvents, u: Side, s': Side, p': Side)
    requires s.v.sound && s.v.st == s.v.car && !s.v.st.broken && StillGood(s.v.car, have)
    requires s.v.full ==> s.v.car.readable
    requires !s.v.defer && (s.v.owing ==> !s.v.car.writable)
    requires u == s.(v := u.v) && CallbackSeen(s.v, e, u.v) && Heard(s.v, have, e, u.v) && !u.v.car.broken
    requires if called then Attended(u, p, e, s', p') else e == NOTHING && s' == u && p' == p
    requires Quiet(u.v, s'.v) && s'.v.st == s'.v.car && !s'.v.st.broken
    ensures Heeded(s, p, have, s', p')
  {
  }

  lemma HeardIsTaken(v: View, have: SkEvents, e: IoEvents, v': View)
    requires Heard(v, have, e, v')
    ensures EventTaken(have, v'.car)
  {
  }

  // The pipe's callback, up to where it calls the bridge's
  method Wake(bridge: IoBridge, self: Stream, peer: Stream, have: SkEvents) returns (called: bool, e: IoEvents)
    requires bridge.Valid() && !bridge.aborted
    requires (self == bridge.l && peer == bridge.r) || (self == bridge.r && peer == bridge.l)
    requires EventExpected(self.S().v.car, have)
    modifies self.Repr
    ensures bridge.Poised(self, peer, e) && (!called ==> bridge.Valid()) && self.Valid() && peer.Valid()
    ensures fresh(self.Repr - old(self.Repr))
    ensures self.S() == old(self.S()).(v := self.S().v) && CallbackSeen(old(self.S().v), e, self.S().v)
    ensures Heard(old(self.S()).v, have, e, self.S().v) && (!called ==> e == NOTHING)
    ensures bridge.dead || e.broken || self.S().v.car.ready
    ensures !bridge.dead ==> old(self.S().v.sound && !self.S().v.st.broken)
    ensures !bridge.dead ==> self.S().v.sound && peer.S().v.sound && (e.broken ==> called)
    ensures !bridge.dead ==> (self.S().v.car.broken <==> e.broken)
    ensures peer.S() == old(peer.S()) && self.Arrived() == old(self.Arrived()) && peer.Arrived() == old(peer.Arrived())
    ensures old(self.S().v.car.broken) ==> self.S().v.car.broken
    ensures !old(self.S().v.defer)
  {
    hide Stream.Valid, Stream.S, Stream.Left, Stream.Arrived, NoEmptyDatagram, Honest;
    hide Relayed, Bounded, CallbackSeen, Heard, Quiet, Complete;
    ghost var s, p := self.S(), peer.S();
    self.SoundBits();
    called, e := self.OnSocket(have);
    HeardIsTaken(s.v, have, e, self.S().v);
    self.SoundBits();
    if bridge.dead {
      CallbackOnFallen(s, p, e, self.S(), self.recvSize, peer.recvSize);
    } else {
      CallbackPoises(s, p, e, self.S(), self.recvSize, peer.recvSize);
    }
  }

  // The bridge's callback, if it is called
  method Tell(bridge: IoBridge, self: Stream, peer: Stream, called: bool, e: IoEvents)
    requires bridge.Poised(self, peer, e) && (!called ==> bridge.Valid() && e == NOTHING)
    requires (self == bridge.l && peer == bridge.r) || (self == bridge.r && peer == bridge.l)
    requires !bridge.dead ==> self.S().v.sound && peer.S().v.sound
    modifies bridge, self.Repr, peer.Repr
    ensures bridge.Valid() && self.Valid() && peer.Valid() && (old(bridge.dead) ==> bridge.dead)
    ensures old(bridge.dead) || e.broken ==> bridge.dead || bridge.aborted
    ensures self.pipe.NoFalseFin(self.Arrived()) && peer.pipe.NoFalseFin(peer.Arrived()) ==> !bridge.aborted
    ensures fresh(self.Repr - old(self.Repr)) && fresh(peer.Repr - old(peer.Repr))
    ensures Quiet(old(self.S().v), self.S().v) && Quiet(old(peer.S().v), peer.S().v)
    ensures self.Arrived() == old(self.Arrived()) && peer.Arrived() == old(peer.Arrived())
    ensures old(bridge.dead) ==>
              bridge.shutdowns == old(bridge.shutdowns) && self.S() == old(self.S()) && peer.S() == old(peer.S())
    ensures !old(bridge.dead) && bridge.shutdowns == [false] ==> self.S().v.st.broken || peer.S().v.st.broken
    ensures !old(bridge.dead) && self.pipe.HonestPeer(self.Arrived()) ==> self.S().v.sound
    ensures !old(bridge.dead) && peer.pipe.HonestPeer(peer.Arrived()) ==> peer.S().v.sound
    ensures !old(bridge.dead) && !bridge.aborted && bridge.shutdowns != [false] ==>
              !e.broken && !self.S().v.st.broken && self.S().v.sound &&
              if called then Attended(old(self.S()), old(peer.S()), e, self.S(), peer.S())
              else self.S() == old(self.S()) && peer.S() == old(peer.S())
  {
    hide Stream.Valid, Stream.S, Stream.Left, Stream.Arrived, NoEmptyDatagram, Honest;
    hide Relayed, Bounded, Attended, Quiet, Complete, Working;
    QuietRefl(self.S().v);
    QuietRefl(peer.S().v);
    if called {
      bridge.OnActivity(self, peer, e);
    }
  }

  // The pipe's callback and then, if it comes to that, the bridge's
  method Fire(bridge: IoBridge, self: Stream, peer: Stream, have: SkEvents)
    requires bridge.Valid() && !bridge.aborted
    requires (self == bridge.l && peer == bridge.r) || (self == bridge.r && peer == bridge.l)
    requires EventExpected(self.S().v.car, have)
    modifies bridge, self.Repr, peer.Repr
    ensures bridge.Valid() && self.Valid() && peer.Valid() && (old(bridge.dead) ==> bridge.dead)
    // what was connecting is connected, or the bridge is down
    ensures bridge.dead || bridge.aborted || self.S().v.car.ready
    ensures self.pipe.NoFalseFin(self.Arrived()) && peer.pipe.NoFalseFin(peer.Arrived()) ==> !bridge.aborted
    ensures fresh(self.Repr - old(self.Repr)) && fresh(peer.Repr - old(peer.Repr))
    ensures Quiet(old(peer.S().v), peer.S().v) && Grown(old(self.S().v), self.S().v)
    ensures self.Arrived() == old(self.Arrived()) && peer.Arrived() == old(peer.Arrived())
    ensures old(bridge.dead) ==>
              bridge.shutdowns == old(bridge.shutdowns) &&
              (old(self.S().v.car.broken) ==> self.S().v.car.broken) && peer.S() == old(peer.S())
    ensures !old(bridge.dead) && bridge.shutdowns == [false] ==>
              self.S().v.st.broken || peer.S().v.st.broken
    ensures !old(bridge.dead) && self.pipe.HonestPeer(self.Arrived()) ==> self.S().v.sound
    ensures !old(bridge.dead) && peer.pipe.HonestPeer(peer.Arrived()) ==> peer.S().v.sound
    ensures old(bridge.dead) ==> EventTaken(have, self.S().v.car)
    ensures !old(bridge.dead) && !bridge.aborted && bridge.shutdowns != [false] &&
            old(StillGood(self.S().v.car, have)) ==>
              Heeded(old(self.S()), old(peer.S()), have, self.S(), peer.S())
  {
    hide Stream.Valid, Stream.S, Stream.Left, Stream.Arrived, NoEmptyDatagram, Honest;
    hide CallbackSeen, Heard, Heeded, Attended, Quiet, StillGood, EventTaken, Grown;
    hide IoBridge.Valid, IoBridge.Poised, Pipe.HonestPeer, Pipe.NoFalseFin;
    bridge.Ends();
    ghost var s, p := self.S(), peer.S();
    self.SoundBits();
    var called, e := Wake(bridge, self, peer, have);
    self.SoundBits();
    HeardIsTaken(s.v, have, e, self.S().v);
    ghost var u, dead := self.S(), bridge.dead;
    Tell(bridge, self, peer, called, e);
    self.SoundBits();
    if !dead && !bridge.aborted && bridge.shutdowns != [false] && StillGood(s.v.car, have) {
      AttendedIsHeeded(s, p, have, called, e, u, self.S(), peer.S());
    }
    QuietIsGrown(s.v, e, u.v, self.S().v);
    QuietIsAsReady(u.v, self.S().v);
  }

  // The same as a step of the dispatch: `other` was collected for the peer.
  method Handle(bridge: IoBridge, self: Stream, peer: Stream, have: SkEvents, other: SkEvents)
    requires bridge.Valid() && !bridge.aborted && self.Valid() && peer.Valid()
    requires (self == bridge.l && peer == bridge.r) || (self == bridge.r && peer == bridge.l)
    requires have != NO_EVENTS && StillGood(self.S().v.car, have) && StillGood(peer.S().v.car, other)
    requires bridge.shutdowns == [false] ==> Excuse(self, peer)
    modifies bridge, self.Repr, peer.Repr
    ensures bridge.Valid() && self.Valid() && peer.Valid() && StillGood(peer.S().v.car, other)
    ensures fresh(self.Repr - old(self.Repr)) && fresh(peer.Repr - old(peer.Repr))
    ensures self.Arrived() == old(self.Arrived()) && peer.Arrived() == old(peer.Arrived())
    ensures Grown(old(self.S().v), self.S().v) && Grown(old(peer.S().v), peer.S().v)
    ensures bridge.shutdowns == [false] ==> Excuse(self, peer)
    ensures bridge.dead || bridge.aborted || self.S().v.car.ready
    ensures old(bridge.dead) ==> EventTaken(have, self.S().v.car)
    ensures !old(bridge.dead) && !bridge.aborted && bridge.shutdowns != [false] ==>
              Heeded(old(self.S()), old(peer.S()), have, self.S(), peer.S())
    ensures self.pipe.NoFalseFin(self.Arrived()) && peer.pipe.NoFalseFin(peer.Arrived()) ==> !bridge.aborted
    ensures self.pipe.HonestPeer(self.Arrived()) && peer.pipe.HonestPeer(peer.Arrived()) ==> !bridge.aborted
  {
    hide Stream.Valid, Stream.S, Stream.Left, Stream.Arrived, StillGood, Quiet, Grown, Heeded, EventTaken;
    hide Honest, NoEmptyDatagram, Pipe.HonestPeer, Pipe.NoFalseFin, IoBridge.Valid;
    ghost var b := peer.S().v;
    if self.pipe.HonestPeer(self.Arrived()) && peer.pipe.HonestPeer(peer.Arrived()) {
      HonestIsNoFalseFin(self.pipe, self.Arrived());
      HonestIsNoFalseFin(peer.pipe, peer.Arrived());
    }
    peer.SoundBits();
    GoodIsExpected(self.S().v.car, have);
    Fire(bridge, self, peer, have);
    self.SoundBits();
    peer.SoundBits();
    QuietIsGood(b, peer.S().v, other);
    QuietOnlyIsGrown(b, peer.S().v);
  }

  class Host {
    const bridge: IoBridge
    var haveL: SkEvents
    var haveR: SkEvents
    ghost var handled: seq<(bool, SkEvents)>    // the events handed over, and if to the left

    ghost predicate Valid()
      reads this, bridge, bridge.l, bridge.l.Repr, bridge.r, bridge.r.Repr
      ensures Valid() ==> bridge.l.Valid() && bridge.r.Valid()
    {
      && this !in bridge.l.Repr && this !in bridge.r.Repr
      && bridge.Valid()
      && StillGood(bridge.l.S().v.car, haveL) && StillGood(bridge.r.S().v.car, haveR)
      // the bridge gives up only over a broken connection or a bad stream
      && (bridge.shutdowns == [false] ==> Excuse(bridge.l, bridge.r))
    }

    ghost function Repr(): set<object>
      reads bridge.l, bridge.r
    {
      {this, bridge, bridge.l, bridge.r} + bridge.l.Repr + bridge.r.Repr
    }

    ghost function L(): Side
      requires Valid()
      reads this, bridge, bridge.l, bridge.l.Repr, bridge.r, bridge.r.Repr
    {
      bridge.l.S()
    }

    ghost function R(): Side
      requires Valid()
      reads this, bridge, bridge.l, bridge.l.Repr, bridge.r, bridge.r.Repr
    {
      bridge.r.S()
    }

    constructor (bridge: IoBridge)
      requires bridge.Valid() && !bridge.dead && !bridge.aborted
      ensures Valid() && this.bridge == bridge && haveL == haveR == NO_EVENTS && handled == []
    {
      this.bridge, haveL, haveR, handled := bridge, NO_EVENTS, NO_EVENTS, [];
    }

    // Dead or alive, the bridge keeps this much.
    lemma Bounds()
      requires Valid()
      ensures Bounded(L(), R(), bridge.l.recvSize) && Bounded(R(), L(), bridge.r.recvSize)
      ensures bridge.l.recvSize < 0x10000000 && bridge.r.recvSize < 0x10000000
    {
      if !bridge.dead && !bridge.aborted {
        WorkingIsBounded(L(), R(), bridge.l.recvSize, bridge.r.recvSize);
      }
      bridge.l.SizeLimit();
      bridge.r.SizeLimit();
    }

    // select() and the collecting walk of the event loop: some of the events
    // asked for, and errors
    method Collect(l: SkEvents, r: SkEvents)
      requires Valid()
      requires l.readable ==> bridge.l.pipe.Bottom().sk.watched.readable
      requires l.writable ==> bridge.l.pipe.Bottom().sk.watched.writable
      requires r.readable ==> bridge.r.pipe.Bottom().sk.watched.readable
      requires r.writable ==> bridge.r.pipe.Bottom().sk.watched.writable
      modifies this
      ensures Valid() && haveL == l && haveR == r && handled == old(handled)
      ensures L() == old(L()) && R() == old(R())
      ensures bridge.l.Arrived() == old(bridge.l.Arrived()) && bridge.r.Arrived() == old(bridge.r.Arrived())
    {
      hide Stream.Valid, Stream.S, Stream.Left, Stream.Arrived, StillGood;
      hide Working, Bounded, Calm, Open, Finished, Complete;
      bridge.l.Carrier();
      bridge.r.Carrier();
      CollectedIsGood(bridge.l.pipe.Bottom(), l);
      CollectedIsGood(bridge.r.pipe.Bottom(), r);
      haveL, haveR := l, r;
    }

    // One entry of the dispatching walk: its events are handed over once
    method Dispatch(left: bool)
      requires Valid() && !bridge.aborted && (if left then haveL else haveR) != NO_EVENTS
      modifies this, bridge, bridge.l.Repr, bridge.r.Repr
      ensures Valid()
      ensures fresh(bridge.l.Repr - old(bridge.l.Repr)) && fresh(bridge.r.Repr - old(bridge.r.Repr))
      ensures bridge.l.Arrived() == old(bridge.l.Arrived()) && bridge.r.Arrived() == old(bridge.r.Arrived())
      ensures Grown(old(L()).v, L().v) && Grown(old(R()).v, R().v)
      ensures haveL == (if left then NO_EVENTS else old(haveL)) && haveR == (if left then old(haveR) else NO_EVENTS)
      ensures handled == old(handled) + [(left, old(if left then haveL else haveR))]
      ensures bridge.dead || bridge.aborted || (if left then L() else R()).v.car.ready
      // the event is not lost
      ensures old(bridge.dead) ==>
                EventTaken(old(if left then haveL else haveR), (if left then L() else R()).v.car)
      ensures !old(bridge.dead) && !bridge.aborted && bridge.shutdowns != [false] ==>
                if left then Heeded(old(L()), old(R()), old(haveL), L(), R())
                else Heeded(old(R()), old(L()), old(haveR), R(), L())
      // it takes an empty datagram to abort
      ensures bridge.l.pipe.NoFalseFin(bridge.l.Arrived()) && bridge.r.pipe.NoFalseFin(bridge.r.Arrived()) ==>
                !bridge.aborted
      ensures bridge.l.pipe.HonestPeer(bridge.l.Arrived()) && bridge.r.pipe.HonestPeer(bridge.r.Arrived()) ==>
                !bridge.aborted
    {
      hide Stream.Valid, Stream.S, Stream.Left, Stream.Arrived, StillGood, Grown, Excuse, Heeded, EventTaken;
      hide Honest, NoEmptyDatagram, Pipe.HonestPeer, Pipe.NoFalseFin, IoBridge.Valid;
      bridge.Ends();
      handled := handled + [(left, if left then haveL else haveR)];
      if left {
        var have := haveL;
        haveL := NO_EVENTS;
        NothingIsGood(bridge.l.S().v.car);
        Handle(bridge, bridge.l, bridge.r, have, haveR);
        NothingIsGood(bridge.l.S().v.car);
      } else {
        var have := haveR;
        haveR := NO_EVENTS;
        NothingIsGood(bridge.r.S().v.car);
        ExcuseMe(bridge.l, bridge.r);
        Handle(bridge, bridge.r, bridge.l, have, haveL);
        ExcuseMe(bridge.l, bridge.r);
        NothingIsGood(bridge.r.S().v.car);
      }
    }

    // The network brings something to one of the sockets
    method Deliver(left: bool, data: Bytes, fin: bool)
      requires Valid() && !(if left then bridge.l else bridge.r).Arrived().1
      modifies bridge.l.Repr, bridge.r.Repr
      ensures Valid() && L() == old(L()) && R() == old(R()) && Repr() == old(Repr())
      ensures bridge.dead == old(bridge.dead) && bridge.aborted == old(bridge.aborted)
      ensures bridge.l.Arrived() ==
              if left then (old(bridge.l.Arrived()).0 + data, fin) else old(bridge.l.Arrived())
      ensures bridge.r.Arrived() ==
              if left then old(bridge.r.Arrived()) else (old(bridge.r.Arrived()).0 + data, fin)
    {
      hide Stream.Valid, Stream.S, Stream.Left, Stream.Arrived, StillGood;
      hide Working, Bounded, Calm, Open, Finished, Complete, Pipe.HonestPeer;
      if left {
        if bridge.l.pipe.HonestPeer((bridge.l.Arrived().0 + data, fin)) {
          HonestBefore(bridge.l.pipe, bridge.l.Arrived(), data, fin);
        }
        bridge.l.Deliver(data, fin);
      } else {
        if bridge.r.pipe.HonestPeer((bridge.r.Arrived().0 + data, fin)) {
          HonestBefore(bridge.r.pipe, bridge.r.Arrived(), data, fin);
        }
        bridge.r.Deliver(data, fin);
      }
    }
  }

  // There is more to relay in a direction, and both pipes are up.
  ghost predicate Unfinished(s: Stream, d: Stream)
    requires s.Valid() && d.Valid()
    reads s, s.Repr, d, d.Repr
  {
    s.S().v.car.ready && d.S().v.car.ready && !d.S().v.st.finSent
  }

  // No lost wakeup: between callbacks, each unfinished direction of a live
  // bridge waits for an event that the event loop has been asked for.  That is
  // so through all layers: if the datagram pipe holds a complete datagram, it
  // is the outlet that is waited for; and so it is if there is pending data on
  // any layer of it.
  lemma NoLostWakeup(host: Host, forward: bool)
    requires host.Valid() && !host.bridge.dead && !host.bridge.aborted
    ensures var s := if forward then host.bridge.l else host.bridge.r;
            var d := if forward then host.bridge.r else host.bridge.l;
            Unfinished(s, d) ==>
              && (s.pipe.Bottom().sk.watched.readable || d.pipe.Bottom().sk.watched.writable)
              && (s.pipe.Framed? && s.pipe.dgm.rx != null &&
                  !NextFrame(s.pipe.dgm.rx.Contents(), s.pipe.dgm.maxSize).Incomplete? ==>
                    d.pipe.Bottom().sk.watched.writable)
              && (d.pending != null || (d.pipe.Framed? && d.pipe.dgm.io.pending != null) ==>
                    d.pipe.Bottom().sk.watched.writable)
  {
    hide NextFrame, Splits, Reading, Concat, Frames;
    var s, d := if forward then host.bridge.l else host.bridge.r, if forward then host.bridge.r else host.bridge.l;
    s.Carrier();
    d.Carrier();
    assert Going(s, d) && !Open(s.S(), d.S());
  }

  // A broken connection is waited for no more.
  lemma BrokenIsUnwatched(host: Host)
    requires host.Valid()
    ensures host.L().v.car.broken ==> host.bridge.l.pipe.Bottom().sk.watched == Mask(false, false)
    ensures host.R().v.car.broken ==> host.bridge.r.pipe.Bottom().sk.watched == Mask(false, false)
  {
    host.bridge.l.Carrier();
    host.bridge.r.Carrier();
    if host.L().v.car.broken {
      host.bridge.l.pipe.Bottom().BrokenIsUnwatched();
    }
    if host.R().v.car.broken {
      host.bridge.r.pipe.Bottom().BrokenIsUnwatched();
    }
  }

  // Shutdown: it is reported at most once; as graceful only when everything
  // that came in on either side went out on the other, with both FINs; and it
  // is reported as soon as that is so.
  lemma ShutdownIsExact(host: Host)
    requires host.Valid() && !host.bridge.aborted
    ensures |host.bridge.shutdowns| == if host.bridge.dead then 1 else 0
    ensures host.bridge.shutdowns == [true] ==> Complete(host.L(), host.R())
    ensures host.bridge.shutdowns != [false] ==> (host.bridge.shutdowns == [true] <==> Finished(host.L(), host.R()))
    ensures host.bridge.shutdowns == [false] ==> Excuse(host.bridge.l, host.bridge.r)
  {
  }
}
