// io_pipe as its users see it: a TCP pipe, or a datagram pipe on top of an
// atomic-send pipe on top of a TCP pipe.
module Pipes {
  import opened Serialize
  import opened Framing
  import opened Tcp
  import opened Atx
  import opened Dgm

  // What can be told about a pipe from above.  `st` are its own state bits and
  // `car` those of the TCP pipe at the bottom; `rcvd` and `acc` are all that
  // recv returned and send accepted, the latter cut into datagrams where there
  // are any.  A pipe that is not `sound` has given up on its inbound stream, or
  // is not up to date with its carrier; one with `defer` has a FIN to send on its
  // own; and a `hollow` one has returned an empty datagram.  `out` is what has
  // gone into the socket; `gets` and `puts` are how often the socket was asked
  // to read, and to send or shut down.  A `full` pipe has a datagram at hand, good
  // or bad, and an `owing` one has accepted more than the socket took.
  datatype View = View(
    st: PipeState, car: PipeState, rcvd: Bytes, acc: Bytes, msgs: seq<Bytes>,
    sound: bool, defer: bool, hollow: bool, out: Bytes,
    gets: nat, puts: nat, full: bool, owing: bool)

  ghost predicate RecvSeen(v: View, r: int, got: Bytes, v': View) {
    && v'.acc == v.acc && v'.msgs == v.msgs && v'.defer == v.defer && v'.out == v.out
    && v'.rcvd == v.rcvd + (if r > 0 then got else [])
    && ReadFlags(v.car, v'.car)
    && v'.puts == v.puts && v'.owing == v.owing
    && v'.gets == v.gets + (if v.full then 0 else 1)
    && (v.full ==> v'.car == v.car && (r > 0 || v'.hollow || v'.st.broken))
    && (v'.sound ==> v'.st == v'.car)
    && (!v'.sound ==> v'.st.broken)
    && (v'.hollow ==> r == 0)
    && (r > 0 ==> v'.sound && v'.st == v.st.(readable := v'.st.readable))
    && (r == 0 ==>
          v'.sound &&
          v'.st == if v'.hollow then v.st.(readable := v'.st.readable)
                   else v.st.(readable := false, finRcvd := true))
    && (r < 0 ==> v'.st.broken || v'.st == v.st.(readable := v'.st.readable))
  }

  ghost predicate SendSeen(v: View, data: Bytes, r: int, v': View) {
    && v'.rcvd == v.rcvd && v'.sound && v'.st == v'.car && !v'.defer && v'.hollow == v.hollow && v.out <= v'.out
    && v'.gets == v.gets && v'.full == v.full && v.puts <= v'.puts && (v.st.writable ==> v'.puts == v.puts + 1)
    && if r >= 0 then
         r <= |data| && v'.acc == v.acc + data[..r] &&
         (v'.msgs == v.msgs || v'.msgs == v.msgs + [data]) &&
         v'.st == v.st.(writable := v'.st.writable) &&
         (r < |data| ==> !v'.st.writable)
       else
         v'.acc == v.acc && v'.msgs == v.msgs &&
         (v'.st == v.st.(writable := false) || v'.st == Broken(v.st))
  }

  ghost predicate FinSeen(v: View, r: int, v': View) {
    && v'.rcvd == v.rcvd && v'.acc == v.acc && v'.msgs == v.msgs && v'.hollow == v.hollow && v'.out == v.out
    && v'.gets == v.gets && v'.full == v.full && v'.puts == v.puts + 1
    && v'.sound && v'.st == v'.car && !v'.defer
    && v'.st == if r >= 0 then v.st.(writable := false, finSent := true) else Broken(v.st)
  }

  ghost predicate CallbackSeen(v: View, e: IoEvents, v': View) {
    && v'.rcvd == v.rcvd && v'.acc == v.acc && v'.msgs == v.msgs && v.out <= v'.out && (v.sound ==> v'.sound)
    && v'.hollow == v.hollow && v'.defer == v.defer && (!v.defer ==> v'.car.finSent == v.car.finSent)
    && EventKept(v.car, v'.car)
    && v'.gets == v.gets && v.puts <= v'.puts && v'.full == v.full && (v'.owing ==> v.owing)
    && (v.sound ==> v'.st == v'.car)
    && (v.sound && !v.st.broken ==> EventSeen(v.st, e, v'.st))
  }

  // A socket event is not lost on its way up: the bits it stands for are up, or,
  // where something is owed, it has been offered to the socket.
  ghost predicate Heard(v: View, sk: SkEvents, e: IoEvents, v': View) {
    && EventTaken(sk, v'.car) && (e.readable ==> sk.readable) && (e.writable ==> sk.writable)
    && (sk.writable && !v.owing ==> v'.car.writable || v'.car.broken)
    && (!sk.writable || !v.owing ==> v'.puts == v.puts)
    && (sk.writable && v.owing && (v.car.ready || !v'.car.broken) ==> v.puts < v'.puts)
  }

  datatype Pipe = Raw(tcp: TcpPipe) | Framed(dgm: DgmPipe) {

    function Bottom(): TcpPipe {
      match this
      case Raw(tcp) => tcp
      case Framed(dgm) => dgm.io.io
    }

    ghost function Root(): set<object> {
      match this
      case Raw(tcp) => {tcp}
      case Framed(dgm) => {dgm}
    }

    ghost function Repr(): set<object>
      reads Root()
    {
      match this
      case Raw(tcp) => {tcp, tcp.sk}
      case Framed(dgm) => dgm.Repr
    }

    function St(): PipeState
      reads Root()
    {
      match this
      case Raw(tcp) => tcp.base
      case Framed(dgm) => dgm.base
    }

    ghost predicate Valid()
      reads Root(), Repr()
      ensures Valid() ==> Root() <= Repr()
    {
      match this
      case Raw(tcp) => tcp.Valid()
      case Framed(dgm) => dgm.Valid()
    }

    ghost function V(): (v: View)
      requires Valid()
      reads Root(), Repr()
      ensures v.sound ==> v.st == v.car && !v.defer
      ensures v.car.finRcvd ==> !v.car.readable
      ensures v.car.finSent ==> !v.car.writable
      ensures v.full && v.sound && !v.car.broken ==> v.car.readable
      ensures v.owing ==> !v.car.writable
    {
      match this
      case Raw(tcp) =>
        View(tcp.base, tcp.base, tcp.sk.net.Taken(), tcp.sk.net.sent, [], true, false, false, tcp.sk.net.sent,
             |tcp.sk.calls.gets|, |tcp.sk.calls.puts|, false, false)
      case Framed(dgm) =>
        View(dgm.base, dgm.io.io.base, Concat(dgm.delivered), Concat(dgm.accepted),
             dgm.accepted, dgm.Live(), dgm.io.wantFin, [] in dgm.delivered,
             dgm.Net().sent, |dgm.Calls().gets|, |dgm.Calls().puts|,
             !NextFrame(dgm.Unread(), dgm.maxSize).Incomplete?, dgm.io.pending != null)
    }

    // How much there is left to read
    ghost function Work(): nat
      requires Valid()
      reads Root(), Repr()
    {
      match this
      case Raw(tcp) => |tcp.sk.net.inbound| - tcp.sk.net.taken
      case Framed(dgm) => dgm.Work()
    }

    // A buffer recv can use
    ghost predicate Fits(len: nat) {
      match this
      case Raw(_) => 0 < len
      case Framed(dgm) => 0 < len && dgm.maxSize <= len
    }

    // What has arrived from the peer, read or not
    ghost function Arrived(): (Bytes, bool)
      reads Bottom().sk
    {
      (Bottom().sk.net.inbound, Bottom().sk.net.inFin)
    }

    // The peer keeps to the format
    ghost predicate HonestPeer(arrived: (Bytes, bool)) {
      match this
      case Raw(_) => true
      case Framed(dgm) => Honest(arrived.0, arrived.1, dgm.maxSize)
    }

    // Nothing in the inbound stream looks like a FIN but is not
    ghost predicate NoFalseFin(arrived: (Bytes, bool)) {
      match this
      case Raw(_) => true
      case Framed(dgm) => NoEmptyDatagram(arrived.0, dgm.maxSize)
    }

    method Recv(buf: array<Byte>, len: nat) returns (r: int)
      requires Valid() && V().sound && !V().st.broken && !V().hollow && !V().st.finRcvd
      requires Fits(len) && len <= buf.Length && buf !in Repr()
      modifies Repr(), buf
      ensures Valid() && fresh(Repr() - old(Repr()))
      ensures r <= len
      ensures RecvSeen(old(V()), r, buf[..if r > 0 then r else 0], V())
      ensures Work() < old(Work()) || !V().st.readable
      ensures HonestPeer(Arrived()) ==> V().sound
      ensures NoFalseFin(Arrived()) ==> !V().hollow
      ensures Arrived() == old(Arrived())
      ensures Raw? ==> Bottom().sk.calls == old(Bottom().sk.calls).Get(Read(len, r))
    {
      hide RecvSeen, Honest, NoEmptyDatagram, Concat, TcpPipe.Valid, DgmPipe.Valid;
      match this
      case Raw(tcp) =>
        r := RecvRaw(tcp, buf, len);
      case Framed(dgm) =>
        r := RecvFramed(dgm, buf, len);
    }

    method Send(data: Bytes) returns (r: int)
      requires Valid() && V().sound && !V().st.broken
      requires 0 < |data| < 0x10000000
      modifies Repr()
      ensures Valid() && fresh(Repr() - old(Repr()))
      ensures SendSeen(old(V()), data, r, V())
      ensures Arrived() == old(Arrived())
    {
      match this
      case Raw(tcp) =>
        r := tcp.Send(data);
      case Framed(dgm) =>
        r := SendFramed(dgm, data);
    }

    method SendFin() returns (r: int)
      requires Valid() && V().sound && !V().st.broken && V().st.writable && !V().st.finSent
      modifies Repr()
      ensures Valid() && fresh(Repr() - old(Repr()))
      ensures FinSeen(old(V()), r, V())
      ensures Arrived() == old(Arrived())
    {
      hide NextFrame, Splits, Concat, Frames, Reading;
      match this
      case Raw(tcp) =>
        r := tcp.SendFin();
      case Framed(dgm) =>
        r := dgm.SendFin();
    }

    // A socket event on its way up, to where the user's callback is called
    method OnSocket(sk: SkEvents) returns (called: bool, e: IoEvents)
      requires Valid() && EventExpected(V().car, sk)
      modifies Repr()
      ensures Valid() && fresh(Repr() - old(Repr()))
      ensures CallbackSeen(old(V()), e, V()) && Heard(old(V()), sk, e, V())
      ensures !called ==> e == NOTHING
      ensures Arrived() == old(Arrived())
    {
      hide NextFrame, Splits, Concat, Frames, Reading;
      match this
      case Raw(tcp) =>
        e := tcp.OnActivity(sk);
        called := true;
      case Framed(dgm) =>
        called, e := dgm.OnSocket(sk);
    }

    // The network brings more bytes, or FIN
    method Deliver(data: Bytes, fin: bool)
      requires Valid() && !Arrived().1
      modifies Bottom().sk
      ensures Valid() && Repr() == old(Repr()) && V() == old(V())
      ensures Arrived() == (old(Arrived()).0 + data, fin)
    {
      hide NextFrame, Splits, Concat, Frames, Reading;
      match this
      case Raw(tcp) =>
        assert (tcp.sk.net.inbound + data)[..tcp.sk.net.taken] == tcp.sk.net.Taken();
        tcp.sk.Deliver(data, fin);
      case Framed(dgm) =>
        dgm.Deliver(data, fin);
    }
  }

  method RecvRaw(tcp: TcpPipe, buf: array<Byte>, len: nat) returns (r: int)
    requires tcp.Valid() && !tcp.base.broken && !tcp.base.finRcvd
    requires 0 < len <= buf.Length
    modifies tcp, tcp.sk, buf
    ensures tcp.Valid() && r <= len
    ensures RecvSeen(old(Raw(tcp).V()), r, buf[..if r > 0 then r else 0], Raw(tcp).V())
    ensures tcp.sk.net == old(tcp.sk.net).(taken := tcp.sk.net.taken)
    ensures tcp.sk.net.taken > old(tcp.sk.net.taken) || !tcp.base.readable
    ensures tcp.sk.calls == old(tcp.sk.calls).Get(Read(len, r))
  {
    hide RecvSeen, RecvStep, ReadFlags, NewlyTaken, Wanted;
    ghost var v, n := Raw(tcp).V(), tcp.sk.net;
    r := tcp.Recv(buf, 0, len);
    ghost var got := buf[..if r > 0 then r else 0];
    ReadSeen(v.car, n, r, got, tcp.base, tcp.sk.net);
    assert tcp.sk.net.Taken() == n.Taken() + if r > 0 then got else [];
    AnswerIsSeen(v, r, got, Raw(tcp).V());
  }

  method RecvFramed(dgm: DgmPipe, buf: array<Byte>, len: nat) returns (r: int)
    requires dgm.Valid() && dgm.Live() && !dgm.base.broken && !dgm.base.finRcvd && [] !in dgm.delivered
    requires dgm.maxSize <= len <= buf.Length && buf !in dgm.Repr
    modifies dgm.Repr, buf
    ensures dgm.Valid() && fresh(dgm.Repr - old(dgm.Repr))
    ensures r <= len
    ensures RecvSeen(old(Framed(dgm).V()), r, buf[..if r > 0 then r else 0], Framed(dgm).V())
    ensures dgm.Work() < old(dgm.Work()) || !dgm.base.readable
    ensures dgm.HonestPeer() ==> dgm.Live()
    ensures NoEmptyDatagram(dgm.Net().inbound, dgm.maxSize) ==> [] !in dgm.delivered
    ensures dgm.Net() == old(dgm.Net()).(taken := dgm.Net().taken)
  {
    hide NextFrame, Splits, NoEmptyDatagram, Concat, Frames, Honest, Answered, RecvSeen, ReadFlags, Reading;
    hide AtxPipe.Inv, TcpPipe.Valid;
    ghost var v, ds := Framed(dgm).V(), dgm.delivered;
    r := Ask(dgm, buf, len);
    ConcatSnoc(ds, if r >= 0 then buf[..r] else []);
    assert r <= 0 ==> v.rcvd + [] == v.rcvd;
    AnswerIsSeen(v, r, buf[..if r > 0 then r else 0], Framed(dgm).V());
  }

  // recv, and what there is to know of the answer
  method Ask(dgm: DgmPipe, buf: array<Byte>, len: nat) returns (r: int)
    requires dgm.Valid() && dgm.Live() && !dgm.base.broken && !dgm.base.finRcvd && [] !in dgm.delivered
    requires dgm.maxSize <= len <= buf.Length && buf !in dgm.Repr
    modifies dgm.Repr, buf
    ensures dgm.Valid() && fresh(dgm.Repr - old(dgm.Repr))
    ensures r <= len && (r > 0 ==> r <= buf.Length)
    ensures dgm.accepted == old(dgm.accepted) && dgm.io.wantFin == old(dgm.io.wantFin)
    ensures dgm.Net() == old(dgm.Net()).(taken := dgm.Net().taken) && dgm.io.pending == old(dgm.io.pending)
    ensures if dgm.failed then dgm.base.broken && r < 0
            else dgm.base == dgm.io.base && (r != 0 ==> dgm.io.base.finRcvd == old(dgm.io.base.finRcvd))
    ensures r >= 0 ==> !dgm.io.base.broken
    ensures ReadFlags(old(dgm.io.base), dgm.io.base)
    ensures r < 0 ==> dgm.delivered == old(dgm.delivered)
    ensures r > 0 ==> dgm.delivered == old(dgm.delivered) + [buf[..r]] && [] !in dgm.delivered
    ensures r == 0 ==>
              if dgm.io.base.finRcvd then dgm.delivered == old(dgm.delivered)
              else dgm.delivered == old(dgm.delivered) + [[]] && [] in dgm.delivered
    ensures if old(NextFrame(dgm.Unread(), dgm.maxSize).Incomplete?) then
              ReadOnce(old(dgm.Calls()), dgm.Calls())
            else
              dgm.Calls() == old(dgm.Calls()) && dgm.io.base == old(dgm.io.base) &&
              (r > 0 || [] in dgm.delivered || dgm.failed)
    ensures dgm.Work() < old(dgm.Work()) || !dgm.base.readable
    ensures dgm.HonestPeer() ==> dgm.Live()
    ensures NoEmptyDatagram(dgm.Net().inbound, dgm.maxSize) ==> [] !in dgm.delivered
  {
    hide NextFrame, Splits, NoEmptyDatagram, Concat, Frames, Honest, Answered, ReadFlags, Reading, ReadOnce;
    ghost var ds, u, n, fin := dgm.delivered, dgm.Unread(), dgm.Net(), dgm.base.finRcvd;
    r := dgm.Recv(buf, len);
    AnsweredIs(u + NewlyTaken(n, dgm.Net()), dgm.maxSize, r, buf[..], dgm.failed,
               ds, dgm.delivered, fin, dgm.io.base.finRcvd);
    assert dgm.Net() == n ==> u + NewlyTaken(n, dgm.Net()) == u;
    NotEmpty(dgm);
  }

  // ... seen from above
  lemma AnswerIsSeen(v: View, r: int, got: Bytes, v': View)
    requires v.sound && v.st == v.car && !v.st.broken
    requires v' == v.(st := v'.st, car := v'.car, rcvd := v.rcvd + (if r > 0 then got else []),
                      sound := v'.sound, hollow := v'.hollow, gets := v'.gets, full := v'.full)
    requires v'.gets == v.gets + (if v.full then 0 else 1)
    requires v.full ==> v'.car == v.car && (r > 0 || v'.hollow || v'.st.broken)
    requires ReadFlags(v.car, v'.car) && (v'.car.finRcvd ==> !v'.car.readable)
    requires if v'.sound then v'.st == v'.car && (r != 0 ==> v'.car.finRcvd == v.car.finRcvd) else v'.st.broken && r < 0
    requires r >= 0 ==> !v'.car.broken
    requires v'.hollow ==> r == 0
    requires r == 0 ==> (v'.hollow <==> !v'.car.finRcvd) && !v.car.finRcvd
    ensures RecvSeen(v, r, got, v')
  {
  }

  // What there is to know of an answer, whatever was read
  lemma AnsweredIs(s: Bytes, max: nat, r: int, buf: Bytes, failed: bool,
                   ds: seq<Bytes>, ds': seq<Bytes>, fin: bool, fin': bool)
    requires Answered(s, max, r, buf, failed, ds, ds', fin, fin') && !fin && [] !in ds
    ensures r < 0 ==> ds' == ds
    ensures r > 0 ==> r <= |buf| && ds' == ds + [buf[..r]] && [] !in ds'
    ensures !NextFrame(s, max).Incomplete? ==> failed || r > 0 || [] in ds'
    ensures r == 0 ==> !failed && if fin' then ds' == ds else ds' == ds + [[]] && [] in ds'
  {
    if r == 0 {
      ZeroMeansFin(s, max, buf, failed, ds, ds', fin, fin');
      assert (ds + [[]])[|ds|] == [];
    }
  }

  method SendFramed(dgm: DgmPipe, data: Bytes) returns (r: int)
    requires dgm.Valid() && dgm.Live() && !dgm.base.broken
    requires 0 < |data| < 0x10000000
    modifies dgm.Repr
    ensures dgm.Valid() && fresh(dgm.Repr - old(dgm.Repr))
    ensures SendSeen(old(Framed(dgm).V()), data, r, Framed(dgm).V())
    ensures dgm.Net() == old(dgm.Net()).(sent := dgm.Net().sent)
  {
    hide NextFrame, Splits, Concat, Frames, Reading;
    ghost var acc := dgm.accepted;
    r := dgm.Send(data);
    if r > 0 {
      ConcatSnoc(acc, data);
    }
  }

  lemma NotEmpty(dgm: DgmPipe)
    requires dgm.Valid()
    ensures NoEmptyDatagram(dgm.Net().inbound, dgm.maxSize) ==> [] !in dgm.delivered
  {
    assert Splits(dgm.Net().inbound[..dgm.mark], dgm.delivered, dgm.maxSize);
  }
}
