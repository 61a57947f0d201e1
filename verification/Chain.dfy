// Two proxies back to back, as in the readme: what enters at the near end goes
// through the client bridge, over the wire as datagrams, through the server
// bridge and out at the far end; and the other way round.
module Chain {
  import opened Serialize
  import opened Framing
  import opened Tcp
  import opened Atx
  import opened Dgm
  import opened Pipes
  import opened Bridge
  import opened Proxy

  // An application's end of a connection: the network has brought a front part
  // of what was sent, and FIN, if at all, behind all of it.
  ghost predicate AppLink(sent: Bytes, fin: bool, arrived: (Bytes, bool)) {
    arrived.0 <= sent && (arrived.1 ==> fin && arrived.0 == sent)
  }

  // The same for the connection of the two proxies
  ghost predicate WireLink(v: View, arrived: (Bytes, bool)) {
    && arrived.0 <= v.out
    && (arrived.1 ==> v.car.finSent && arrived.0 == v.out == Frames(v.msgs))
  }

  lemma GrownKeepsLink(v: View, v': View, arrived: (Bytes, bool))
    requires WireLink(v, arrived) && Grown(v, v') && v'.out <= Frames(v'.msgs)
    ensures WireLink(v', arrived)
  {
    hide Frames;
  }

  lemma SizedIsPayloads(ms: seq<Bytes>, limit: nat, max: nat)
    requires Sized(ms, limit) && limit <= max && limit < 0x10000000
    ensures Payloads(ms, max)
  {
  }

  // Of some events, those that a mask asks for, and errors
  function Asked(ev: SkEvents, mask: Mask): SkEvents {
    SkEvents(ev.readable && mask.readable, ev.writable && mask.writable, ev.error)
  }

  // What has arrived after the network had a chance to bring it up to `n` bytes
  // of what was sent, and FIN at the very end
  function Carried(arrived: (Bytes, bool), sent: Bytes, shut: bool, n: nat, fin: bool): (Bytes, bool) {
    if !arrived.1 && |arrived.0| <= n <= |sent| then (sent[..n], fin && shut && n == |sent|) else arrived
  }

  lemma FrontsMeet(a: Bytes, s: Bytes, whole: Bytes, n: nat)
    requires a <= whole && s <= whole && |a| <= n <= |s|
    ensures a + s[|a|..n] == s[..n]
  {
  }

  // A proxy is an honest peer of the other one.
  lemma LinkIsHonest(v: View, arrived: (Bytes, bool), limit: nat, pipe: Pipe)
    requires WireLink(v, arrived) && v.out <= Frames(v.msgs)
    requires Sized(v.msgs, limit) && limit < 0x10000000
    requires pipe.Framed? && limit <= pipe.dgm.maxSize
    ensures pipe.HonestPeer(arrived)
  {
    SizedIsPayloads(v.msgs, limit, pipe.dgm.maxSize);
    assert HonestBy(arrived.0, arrived.1, v.msgs, pipe.dgm.maxSize);
  }

  // ---------------------------------------------------------------------

  class World {
    const client: Host      // l: the near application, r: the server
    const server: Host      // l: the client, r: the far application

    // What the applications put in
    var nearSent: Bytes
    var nearFin: bool
    var farSent: Bytes
    var farFin: bool

    ghost predicate Shape()
      reads this, client.bridge.l, client.bridge.r, server.bridge.l, server.bridge.r
    {
      && this !in client.Repr() && this !in server.Repr()
      && client.Repr() !! server.Repr()
      && client.bridge.l.pipe.Raw? && client.bridge.r.pipe.Framed?
      && server.bridge.l.pipe.Framed? && server.bridge.r.pipe.Raw?
      && client.bridge.l.recvSize <= server.bridge.l.pipe.dgm.maxSize
      && server.bridge.r.recvSize <= client.bridge.r.pipe.dgm.maxSize
    }

    ghost predicate Valid()
      reads this, client.bridge.l, client.bridge.r, server.bridge.l, server.bridge.r
      reads client.Repr(), server.Repr()
    {
      && Shape() && client.Valid() && server.Valid()
      && !client.bridge.aborted && !server.bridge.aborted
      && AppLink(nearSent, nearFin, client.bridge.l.Arrived())
      && WireLink(client.R().v, server.bridge.l.Arrived())
      && WireLink(server.L().v, client.bridge.r.Arrived())
      && AppLink(farSent, farFin, server.bridge.r.Arrived())
    }

    constructor (client: Host, server: Host)
      requires client.Valid() && server.Valid() && client.Repr() !! server.Repr()
      requires !client.bridge.aborted && !server.bridge.aborted
      requires client.bridge.l.pipe.Raw? && client.bridge.r.pipe.Framed?
      requires server.bridge.l.pipe.Framed? && server.bridge.r.pipe.Raw?
      requires client.bridge.l.recvSize <= server.bridge.l.pipe.dgm.maxSize
      requires server.bridge.r.recvSize <= client.bridge.r.pipe.dgm.maxSize
      requires client.bridge.l.Arrived() == client.bridge.r.Arrived() == ([], false)
      requires server.bridge.l.Arrived() == server.bridge.r.Arrived() == ([], false)
      ensures Valid() && this.client == client && this.server == server
      ensures nearSent == farSent == [] && !nearFin && !farFin
    {
      hide Host.Valid, Stream.Valid, Stream.S, Stream.Arrived, Frames;
      this.client, this.server := client, server;
      nearSent, nearFin, farSent, farFin := [], false, [], false;
    }

    // One event of one of the client's sockets is handled.
    method ClientEvent(left: bool)
      requires Valid() && (if left then client.haveL else client.haveR) != NO_EVENTS
      modifies client.Repr()
      ensures Valid() && fresh(client.Repr() - old(client.Repr()))
      ensures (if left then client.haveL else client.haveR) == NO_EVENTS
      ensures client.bridge.dead || (if left then client.L() else client.R()).v.car.ready
      ensures !old(client.bridge.dead) && client.bridge.shutdowns != [false] ==>
                if left then Heeded(old(client.L()), old(client.R()), old(client.haveL), client.L(), client.R())
                else Heeded(old(client.R()), old(client.L()), old(client.haveR), client.R(), client.L())
    {
      hide Host.Valid, Stream.Valid, Stream.S, Stream.Arrived, Frames, WireLink, Grown, Bounded, Honest, Sized, Heeded;
      server.Bounds();
      server.bridge.l.WireOut();
      LinkIsHonest(server.L().v, client.bridge.r.Arrived(), server.bridge.r.recvSize, client.bridge.r.pipe);
      ghost var v := client.R().v;
      client.Dispatch(left);
      client.bridge.r.WireOut();
      GrownKeepsLink(v, client.R().v, server.bridge.l.Arrived());
    }

    method ServerEvent(left: bool)
      requires Valid() && (if left then server.haveL else server.haveR) != NO_EVENTS
      modifies server.Repr()
      ensures Valid() && fresh(server.Repr() - old(server.Repr()))
      ensures (if left then server.haveL else server.haveR) == NO_EVENTS
      ensures server.bridge.dead || (if left then server.L() else server.R()).v.car.ready
      ensures !old(server.bridge.dead) && server.bridge.shutdowns != [false] ==>
                if left then Heeded(old(server.L()), old(server.R()), old(server.haveL), server.L(), server.R())
                else Heeded(old(server.R()), old(server.L()), old(server.haveR), server.R(), server.L())
    {
      hide Host.Valid, Stream.Valid, Stream.S, Stream.Arrived, Frames, WireLink, Grown, Bounded, Honest, Sized, Heeded;
      client.Bounds();
      client.bridge.r.WireOut();
      LinkIsHonest(client.R().v, server.bridge.l.Arrived(), client.bridge.l.recvSize, server.bridge.l.pipe);
      ghost var v := server.L().v;
      server.Dispatch(left);
      server.bridge.l.WireOut();
      GrownKeepsLink(v, server.L().v, client.bridge.r.Arrived());
    }

    // A loop collects events: some of those asked for, and errors.
    method Collect(host: Host, l: SkEvents, r: SkEvents)
      requires Valid() && (host == client || host == server)
      modifies host
      ensures Valid() && client.Repr() == old(client.Repr()) && server.Repr() == old(server.Repr())
      ensures host.haveL == Asked(l, host.bridge.l.pipe.Bottom().sk.watched)
      ensures host.haveR == Asked(r, host.bridge.r.pipe.Bottom().sk.watched)
    {
      hide Host.Valid, Stream.Valid, Stream.S, Stream.Arrived, Frames, WireLink, AppLink;
      var lm, rm := host.bridge.l.pipe.Bottom().sk.watched, host.bridge.r.pipe.Bottom().sk.watched;
      host.Collect(Asked(l, lm), Asked(r, rm));
    }

    // The applications send, and close.
    method NearSends(data: Bytes, fin: bool)
      requires Valid() && !nearFin
      modifies this
      ensures Valid() && nearSent == old(nearSent) + data && nearFin == fin
      ensures farSent == old(farSent) && farFin == old(farFin)
    {
      hide Host.Valid, Stream.Valid, Stream.S, Stream.Arrived, Frames, WireLink;
      nearSent, nearFin := nearSent + data, fin;
    }

    method FarSends(data: Bytes, fin: bool)
      requires Valid() && !farFin
      modifies this
      ensures Valid() && farSent == old(farSent) + data && farFin == fin
      ensures nearSent == old(nearSent) && nearFin == old(nearFin)
    {
      hide Host.Valid, Stream.Valid, Stream.S, Stream.Arrived, Frames, WireLink;
      farSent, farFin := farSent + data, fin;
    }

    // The network carries on, up to `n` bytes in all if that many were sent, and
    // FIN at the very end.
    method NearToClient(n: nat, fin: bool)
      requires Valid()
      modifies client.bridge.l.Repr, client.bridge.r.Repr
      ensures Valid() && client.Repr() == old(client.Repr())
      ensures client.bridge.l.Arrived() == Carried(old(client.bridge.l.Arrived()), nearSent, nearFin, n, fin)
      ensures client.L() == old(client.L()) && client.R() == old(client.R())
    {
      hide Host.Valid, Stream.Valid, Stream.S, Frames, WireLink;
      var net := client.bridge.l.pipe.Bottom().sk.net;
      if !net.inFin && |net.inbound| <= n <= |nearSent| {
        FrontsMeet(net.inbound, nearSent, nearSent, n);
        client.Deliver(true, nearSent[|net.inbound|..n], fin && nearFin && n == |nearSent|);
      }
    }

    method FarToServer(n: nat, fin: bool)
      requires Valid()
      modifies server.bridge.l.Repr, server.bridge.r.Repr
      ensures Valid() && server.Repr() == old(server.Repr())
      ensures server.bridge.r.Arrived() == Carried(old(server.bridge.r.Arrived()), farSent, farFin, n, fin)
      ensures server.L() == old(server.L()) && server.R() == old(server.R())
    {
      hide Host.Valid, Stream.Valid, Stream.S, Frames, WireLink;
      var net := server.bridge.r.pipe.Bottom().sk.net;
      if !net.inFin && |net.inbound| <= n <= |farSent| {
        FrontsMeet(net.inbound, farSent, farSent, n);
        server.Deliver(false, farSent[|net.inbound|..n], fin && farFin && n == |farSent|);
      }
    }

    method ClientToServer(n: nat, fin: bool)
      requires Valid()
      modifies server.bridge.l.Repr, server.bridge.r.Repr
      ensures Valid() && server.Repr() == old(server.Repr())
      ensures var from := old(client.bridge.r.pipe.Bottom().sk.net);
              server.bridge.l.Arrived() == Carried(old(server.bridge.l.Arrived()), from.sent, from.shut, n, fin)
      ensures server.L() == old(server.L()) && server.R() == old(server.R())
    {
      hide Host.Valid, Stream.Valid, Stream.S, Frames;
      client.bridge.r.WireOut();
      client.bridge.r.Carrier();
      var from, net := client.bridge.r.pipe.Bottom().sk.net, server.bridge.l.pipe.Bottom().sk.net;
      if !net.inFin && |net.inbound| <= n <= |from.sent| {
        FrontsMeet(net.inbound, from.sent, from.sent, n);
        server.Deliver(true, from.sent[|net.inbound|..n], fin && from.shut && n == |from.sent|);
      }
    }

    method ServerToClient(n: nat, fin: bool)
      requires Valid()
      modifies client.bridge.l.Repr, client.bridge.r.Repr
      ensures Valid() && client.Repr() == old(client.Repr())
      ensures var from := old(server.bridge.l.pipe.Bottom().sk.net);
              client.bridge.r.Arrived() == Carried(old(client.bridge.r.Arrived()), from.sent, from.shut, n, fin)
      ensures client.L() == old(client.L()) && client.R() == old(client.R())
    {
      hide Host.Valid, Stream.Valid, Stream.S, Frames;
      server.bridge.l.WireOut();
      server.bridge.l.Carrier();
      var from, net := server.bridge.l.pipe.Bottom().sk.net, client.bridge.r.pipe.Bottom().sk.net;
      if !net.inFin && |net.inbound| <= n <= |from.sent| {
        FrontsMeet(net.inbound, from.sent, from.sent, n);
        client.Deliver(false, from.sent[|net.inbound|..n], fin && from.shut && n == |from.sent|);
      }
    }

    // ---------------------------------------------------------------------

    // The bytes that have left towards the applications, and FIN
    ghost function FarGot(): (Bytes, bool)
      reads server.bridge.r.pipe.Bottom().sk
    {
      (server.bridge.r.pipe.Bottom().sk.net.sent, server.bridge.r.pipe.Bottom().sk.net.shut)
    }

    ghost function NearGot(): (Bytes, bool)
      reads client.bridge.l.pipe.Bottom().sk
    {
      (client.bridge.l.pipe.Bottom().sk.net.sent, client.bridge.l.pipe.Bottom().sk.net.shut)
    }

    // The claim of the whole arrangement: what leaves at one end is a front
    // part of what entered at the other, and FIN leaves only behind all of it.
    ghost predicate EndToEnd()
      reads this, server.bridge.r.pipe.Bottom().sk, client.bridge.l.pipe.Bottom().sk
    {
      && FarGot().0 <= nearSent && (FarGot().1 ==> nearFin && FarGot().0 == nearSent)
      && NearGot().0 <= farSent && (NearGot().1 ==> farFin && NearGot().0 == farSent)
    }

    lemma Forward()
      requires Valid()
      ensures FarGot().0 <= nearSent && (FarGot().1 ==> nearFin && FarGot().0 == nearSent)
    {
      hide Host.Valid, Stream.Valid, Stream.S, Stream.Arrived, Frames, Concat;
      var a, b, c, d := client.bridge.l, client.bridge.r, server.bridge.l, server.bridge.r;
      client.Bounds();
      server.Bounds();
      SizedIsPayloads(b.S().v.msgs, a.recvSize, c.pipe.dgm.maxSize);
      a.RawEnds();
      b.WireOut();
      c.WireIn(b.S().v.msgs);
      d.RawEnds();
    }

    lemma BothWays()
      requires Valid()
      ensures EndToEnd()
    {
      hide World.Valid;
      Forward();
      Backward();
    }

    lemma Backward()
      requires Valid()
      ensures NearGot().0 <= farSent && (NearGot().1 ==> farFin && NearGot().0 == farSent)
    {
      hide Host.Valid, Stream.Valid, Stream.S, Stream.Arrived, Frames, Concat;
      var a, b, c, d := server.bridge.r, server.bridge.l, client.bridge.r, client.bridge.l;
      client.Bounds();
      server.Bounds();
      SizedIsPayloads(b.S().v.msgs, a.recvSize, c.pipe.dgm.maxSize);
      a.RawEnds();
      b.WireOut();
      c.WireIn(b.S().v.msgs);
      d.RawEnds();
    }
  }

  // ---------------------------------------------------------------------
  // No deadlock

  // The network has brought something that was not read
  ghost predicate Unread(s: Stream)
    reads s.pipe.Bottom(), s.pipe.Bottom().sk
  {
    var net := s.pipe.Bottom().sk.net;
    net.taken < |net.inbound| || (net.inFin && !s.pipe.Bottom().base.finRcvd)
  }

  // What is to be relayed is waited for: the next bytes, or room for them.
  ghost predicate Awaited(s: Stream, d: Stream)
    reads s.pipe.Bottom(), s.pipe.Bottom().sk, d.pipe.Bottom(), d.pipe.Bottom().sk
  {
    (Unread(s) && s.pipe.Bottom().sk.watched.readable) || d.pipe.Bottom().sk.watched.writable
  }

  // Everything read, and nothing more to be had
  ghost predicate Drained(s: Stream)
    requires s.Valid()
    reads s, s.Repr, s.pipe.Bottom(), s.pipe.Bottom().sk
  {
    !Unread(s) && !s.S().v.st.readable
  }

  lemma DrainedRaw(s: Stream)
    requires s.Valid() && s.pipe.Raw? && Drained(s)
    ensures s.S().v.rcvd == s.Arrived().0
  {
  }

  lemma DrainedWire(s: Stream, ms: seq<Bytes>)
    requires s.Valid() && s.pipe.Framed? && Drained(s) && s.S().v.sound && !s.S().v.st.broken
    requires Payloads(ms, s.pipe.dgm.maxSize) && s.Arrived().0 == Frames(ms)
    ensures s.S().v.rcvd == Concat(ms)
  {
    s.pipe.dgm.AllDelivered(ms);
  }

  // Between callbacks, a direction of a live bridge has either nothing left to
  // relay, or is waiting for an event it will get.
  lemma AwaitedOrDone(s: Stream, d: Stream, all: Bytes)
    requires Going(s, d) && Calm(d.S()) && !Open(s.S(), d.S())
    requires !s.S().v.st.broken && !d.S().v.st.broken && s.S().v.car.ready && d.S().v.car.ready
    requires Drained(s) ==> s.S().v.rcvd == all
    ensures (d.S().v.acc, d.S().v.car.finSent) != (all, s.Arrived().1) ==> Awaited(s, d)
  {
    s.Carrier();
    d.Carrier();
    assert d.S().pend == [] ==> d.S().v.acc + d.S().pend == d.S().v.acc;
  }

  // Packets that are not on the wire yet wait for room in the socket.
  lemma PendingIsAwaited(s: Stream)
    requires s.Valid() && s.pipe.Framed?
    requires s.S().v.sound && !s.S().v.st.broken && s.S().v.car.ready
    ensures var sk := s.pipe.Bottom().sk;
            (sk.net.sent, sk.net.shut) != (Frames(s.S().v.msgs), s.S().v.car.finSent) ==> sk.watched.writable
  {
    hide NextFrame, Splits, Frames, Concat, Reading;
    var io := s.pipe.dgm.io;
    assert io.pending == null ==> io.io.sk.net.sent == io.accepted;
  }

  // Where something on its way from one application to the other has got to,
  // and the step that moves it on: the network's at (1) and (4), where it has
  // bytes or FIN to carry, and otherwise an event that a proxy's loop was asked
  // for.
  ghost predicate Moving(entered: (Bytes, bool), a: Stream, b: Stream, c: Stream, d: Stream)
    requires a.Valid() && b.Valid() && c.Valid() && d.Valid()
    reads a, a.Repr, b, b.Repr, c, c.Repr, d, d.Repr
    reads a.pipe.Bottom(), b.pipe.Bottom(), c.pipe.Bottom(), d.pipe.Bottom()
    reads a.pipe.Bottom().sk, b.pipe.Bottom().sk, c.pipe.Bottom().sk, d.pipe.Bottom().sk
  {
    var wire, v := b.pipe.Bottom().sk, b.S().v;
    // (1) it is not all at the first proxy
    || Carried(a.Arrived(), entered.0, entered.1, |entered.0|, true) != a.Arrived()
    // (2) not all through its bridge
    || ((v.acc, v.car.finSent) != a.Arrived() && Awaited(a, b))
    // (3) not all on the wire
    || ((wire.net.sent, wire.net.shut) != (Frames(v.msgs), v.car.finSent) && wire.watched.writable)
    // (4) not all at the second proxy
    || Carried(c.Arrived(), wire.net.sent, wire.net.shut, |wire.net.sent|, true) != c.Arrived()
    // (5) not all through its bridge
    || ((d.S().v.acc, d.S().v.car.finSent) != (v.acc, v.car.finSent) && Awaited(c, d))
  }

  // All of it, that is, if the network carries on as far as it can
  lemma AllCarried(sent: Bytes, shut: bool, arrived: (Bytes, bool))
    requires AppLink(sent, shut, arrived)
    ensures Carried(arrived, sent, shut, |sent|, true) == (sent, shut)
  {
    assert sent[..|sent|] == sent;
  }

  // A bridge that rests, in one direction
  ghost predicate Rests(s: Stream, d: Stream)
    reads s, s.Repr, d, d.Repr
  {
    && Going(s, d) && Calm(d.S()) && !Open(s.S(), d.S())
    && !s.S().v.st.broken && !d.S().v.st.broken
    && s.S().v.car.ready && d.S().v.car.ready
  }

  lemma OneWayMoves(entered: (Bytes, bool), a: Stream, b: Stream, c: Stream, d: Stream)
    requires Rests(a, b) && Rests(c, d)
    requires a.pipe.Raw? && b.pipe.Framed? && c.pipe.Framed? && d.pipe.Raw?
    requires a.recvSize <= c.pipe.dgm.maxSize
    requires AppLink(entered.0, entered.1, a.Arrived()) && WireLink(b.S().v, c.Arrived())
    ensures var got := d.pipe.Bottom().sk.net;
            (got.sent, got.shut) != entered ==> Moving(entered, a, b, c, d)
  {
    hide Stream.Valid, Stream.S, Stream.Arrived, Frames, Concat, Sized, Drained, Awaited, Pipe.Bottom, Carried;
    var ms, wire := b.S().v.msgs, b.pipe.Bottom().sk.net;
    a.SizeLimit();
    if !Moving(entered, a, b, c, d) {
      AllCarried(entered.0, entered.1, a.Arrived());
      if Drained(a) {
        DrainedRaw(a);
      }
      AwaitedOrDone(a, b, entered.0);
      PendingIsAwaited(b);
      b.WireOut();
      AllCarried(wire.sent, wire.shut, c.Arrived());
      SizedIsPayloads(ms, a.recvSize, c.pipe.dgm.maxSize);
      if Drained(c) {
        DrainedWire(c, ms);
      }
      AwaitedOrDone(c, d, Concat(ms));
      d.RawEnds();
    }
  }

  // While the bridges are up and connected, whatever has entered at one end and
  // has not left at the other is on the move.
  lemma NoDeadlock(w: World)
    requires w.Valid() && !w.client.bridge.dead && !w.server.bridge.dead
    requires w.client.L().v.car.ready && w.client.R().v.car.ready
    requires w.server.L().v.car.ready && w.server.R().v.car.ready
    ensures w.FarGot() != (w.nearSent, w.nearFin) ==>
              Moving((w.nearSent, w.nearFin), w.client.bridge.l, w.client.bridge.r, w.server.bridge.l, w.server.bridge.r)
    ensures w.NearGot() != (w.farSent, w.farFin) ==>
              Moving((w.farSent, w.farFin), w.server.bridge.r, w.server.bridge.l, w.client.bridge.r, w.client.bridge.l)
  {
    hide Stream.Valid, Stream.S, Stream.Arrived, Moving, AppLink, WireLink;
    OneWayMoves((w.nearSent, w.nearFin), w.client.bridge.l, w.client.bridge.r, w.server.bridge.l, w.server.bridge.r);
    OneWayMoves((w.farSent, w.farFin), w.server.bridge.r, w.server.bridge.l, w.client.bridge.r, w.client.bridge.l);
  }

  // ---------------------------------------------------------------------

  datatype Step =
    | NearSends(data: Bytes, fin: bool)
    | FarSends(data: Bytes, fin: bool)
    | NearToClient(n: nat, fin: bool)
    | ClientToServer(n: nat, fin: bool)
    | ServerToClient(n: nat, fin: bool)
    | FarToServer(n: nat, fin: bool)
    | ClientCollects(l: SkEvents, r: SkEvents)
    | ServerCollects(l: SkEvents, r: SkEvents)
    | ClientHandles(left: bool)
    | ServerHandles(left: bool)

  // What the applications have put in after some steps, and whether they closed
  function Entered(before: (Bytes, bool), steps: seq<Step>, near: bool): (Bytes, bool) {
    if steps == [] then before
    else
      var so := Entered(before, steps[..|steps| - 1], near);
      match steps[|steps| - 1]
      case NearSends(data, fin) => if near && !so.1 then (so.0 + data, fin) else so
      case FarSends(data, fin) => if !near && !so.1 then (so.0 + data, fin) else so
      case _ => so
  }

  ghost predicate Collected(host: Host, l: SkEvents, r: SkEvents)
    reads host, host.bridge.l.pipe.Bottom().sk, host.bridge.r.pipe.Bottom().sk
  {
    && host.haveL == Asked(l, host.bridge.l.pipe.Bottom().sk.watched)
    && host.haveR == Asked(r, host.bridge.r.pipe.Bottom().sk.watched)
  }

  // Any run at all: whatever happens, in whatever order, as far as it can.
  // Each socket call inside takes, gives or refuses as much as it likes.
  method Run(w: World, steps: seq<Step>)
    requires w.Valid()
    modifies w, w.client.Repr(), w.server.Repr()
    ensures w.Valid() && w.EndToEnd()
    ensures (w.nearSent, w.nearFin) == Entered(old((w.nearSent, w.nearFin)), steps, true)
    ensures (w.farSent, w.farFin) == Entered(old((w.farSent, w.farFin)), steps, false)
  {
    hide World.Valid, World.EndToEnd;
    for i := 0 to |steps|
      invariant w.Valid()
      invariant (w.nearSent, w.nearFin) == Entered(old((w.nearSent, w.nearFin)), steps[..i], true)
      invariant (w.farSent, w.farFin) == Entered(old((w.farSent, w.farFin)), steps[..i], false)
      invariant fresh(w.client.Repr() - old(w.client.Repr()))
      invariant fresh(w.server.Repr() - old(w.server.Repr()))
    {
      assert steps[..i + 1][..i] == steps[..i];
      Take(w, steps[i]);
    }
    assert steps[..|steps|] == steps;
    w.BothWays();
  }

  method Take(w: World, step: Step)
    requires w.Valid()
    modifies w, w.client.Repr(), w.server.Repr()
    ensures w.Valid()
    ensures fresh(w.client.Repr() - old(w.client.Repr())) && fresh(w.server.Repr() - old(w.server.Repr()))
    ensures (w.nearSent, w.nearFin) == Entered(old((w.nearSent, w.nearFin)), [step], true)
    ensures (w.farSent, w.farFin) == Entered(old((w.farSent, w.farFin)), [step], false)
    // the step is taken, as far as it can be
    ensures match step
            case NearSends(_, _) => true
            case FarSends(_, _) => true
            case NearToClient(n, fin) =>
              w.client.bridge.l.Arrived() ==
              Carried(old(w.client.bridge.l.Arrived()), w.nearSent, w.nearFin, n, fin)
            case FarToServer(n, fin) =>
              w.server.bridge.r.Arrived() ==
              Carried(old(w.server.bridge.r.Arrived()), w.farSent, w.farFin, n, fin)
            case ClientToServer(n, fin) =>
              var from := old(w.client.bridge.r.pipe.Bottom().sk.net);
              w.server.bridge.l.Arrived() == Carried(old(w.server.bridge.l.Arrived()), from.sent, from.shut, n, fin)
            case ServerToClient(n, fin) =>
              var from := old(w.server.bridge.l.pipe.Bottom().sk.net);
              w.client.bridge.r.Arrived() == Carried(old(w.client.bridge.r.Arrived()), from.sent, from.shut, n, fin)
            case ClientCollects(l, r) => Collected(w.client, l, r)
            case ServerCollects(l, r) => Collected(w.server, l, r)
            case ClientHandles(left) => (if left then w.client.haveL else w.client.haveR) == NO_EVENTS
            case ServerHandles(left) => (if left then w.server.haveL else w.server.haveR) == NO_EVENTS
  {
    hide Host.Valid, Stream.Valid, Stream.S, Stream.Arrived, Frames, WireLink, AppLink;
    match step
    case NearSends(data, fin) =>
      if !w.nearFin {
        w.NearSends(data, fin);
      }
    case FarSends(data, fin) =>
      if !w.farFin {
        w.FarSends(data, fin);
      }
    case NearToClient(n, fin) => w.NearToClient(n, fin);
    case ClientToServer(n, fin) => w.ClientToServer(n, fin);
    case ServerToClient(n, fin) => w.ServerToClient(n, fin);
    case FarToServer(n, fin) => w.FarToServer(n, fin);
    case ClientCollects(l, r) => w.Collect(w.client, l, r);
    case ServerCollects(l, r) => w.Collect(w.server, l, r);
    case ClientHandles(left) =>
      if (if left then w.client.haveL else w.client.haveR) != NO_EVENTS {
        w.ClientEvent(left);
      }
    case ServerHandles(left) =>
      if (if left then w.server.haveL else w.server.haveR) != NO_EVENTS {
        w.ServerEvent(left);
      }
  }

  // ---------------------------------------------------------------------
  // The set-up of src/tcp-proxy.c, with one size for recv_size and max_size

  method RawSide(size: nat) returns (st: Stream)
    requires 0 < size < 0x10000000
    ensures fresh(st.Repr) && st.Valid() && st.recvSize == size && st.pipe.Raw?
    ensures st.S() == NEW_SIDE && st.Arrived() == ([], false)
  {
    var sk := new Socket();
    var tcp := new TcpPipe(sk);
    st := new Stream(Raw(tcp), size);
  }

  method WireSide(size: nat) returns (st: Stream)
    requires 0 < size < 0x10000000
    ensures fresh(st.Repr) && st.Valid() && st.recvSize == size
    ensures st.pipe.Framed? && st.pipe.dgm.maxSize == size
    ensures st.S() == NEW_SIDE && st.Arrived() == ([], false)
  {
    hide DgmPipe.Valid, Pipe.V, DgmPipe.Net;
    var dgm := NewDgm(size);
    st := new Stream(Framed(dgm), size);
    assert st.Arrived() == Framed(dgm).Arrived();
  }

  method NewDgm(size: nat) returns (dgm: DgmPipe)
    ensures dgm.Valid() && fresh(dgm.Repr) && dgm.maxSize == size
    ensures Framed(dgm).V() == NEW_SIDE.v && Framed(dgm).Arrived() == ([], false)
  {
    hide TcpPipe.Valid, AtxPipe.Valid, AtxPipe.Inv, DgmPipe.Valid;
    NothingIsIncomplete(size);
    var sk := new Socket();
    var tcp := new TcpPipe(sk);
    var atx := new AtxPipe(tcp);
    dgm := new DgmPipe(atx, size);
  }

  method NewHost(l: Stream, r: Stream) returns (host: Host)
    requires l.Valid() && r.Valid() && l.Repr !! r.Repr
    requires l.S() == NEW_SIDE && r.S() == NEW_SIDE
    ensures fresh(host.Repr() - l.Repr - r.Repr)
    ensures host.Valid() && host.bridge.l == l && host.bridge.r == r
    ensures !host.bridge.dead && !host.bridge.aborted
  {
    hide Stream.Valid, Stream.S, Stream.Arrived, Working;
    var bridge := new IoBridge(l, r);
    host := new Host(bridge);
  }

  method NewClient(size: nat) returns (host: Host)
    requires 0 < size < 0x10000000
    ensures host.Valid() && fresh(host.Repr()) && !host.bridge.dead && !host.bridge.aborted
    ensures var l, r := host.bridge.l, host.bridge.r;
            && l.pipe.Raw? && r.pipe.Framed? && r.pipe.dgm.maxSize == size
            && l.recvSize == r.recvSize == size && l.Arrived() == r.Arrived() == ([], false)
  {
    hide Host.Valid, Stream.Valid, Stream.S, Stream.Arrived;
    var l := RawSide(size);
    var r := WireSide(size);
    host := NewHost(l, r);
  }

  method NewServer(size: nat) returns (host: Host)
    requires 0 < size < 0x10000000
    ensures host.Valid() && fresh(host.Repr()) && !host.bridge.dead && !host.bridge.aborted
    ensures var l, r := host.bridge.l, host.bridge.r;
            && l.pipe.Framed? && r.pipe.Raw? && l.pipe.dgm.maxSize == size
            && l.recvSize == r.recvSize == size && l.Arrived() == r.Arrived() == ([], false)
  {
    hide Host.Valid, Stream.Valid, Stream.S, Stream.Arrived;
    var l := WireSide(size);
    var r := RawSide(size);
    host := NewHost(l, r);
  }

  method SetUp(size: nat) returns (w: World)
    requires 0 < size < 0x10000000
    ensures fresh(w) && fresh(w.client.Repr()) && fresh(w.server.Repr())
    ensures w.Valid() && w.nearSent == w.farSent == [] && !w.nearFin && !w.farFin
  {
    hide Host.Valid, Stream.Valid, Stream.S, Stream.Arrived, World.Valid;
    var client := NewClient(size);
    var server := NewServer(size);
    w := new World(client, server);
  }
}
