// The two-way relay of src/io/src/io_bridge.c.
module Bridge {
  import opened Serialize
  import opened Framing
  import opened Buffers
  import opened Tcp
  import opened Atx
  import opened Dgm
  import opened Pipes

  // ---------------------------------------------------------------------
  // What the relay keeps, on values

  // One of the two pipes with what the bridge knows about it: the bytes that
  // wait to be sent, and the counts of bytes sent and received and congestions
  datatype Side = Side(v: View, pend: Bytes, tx: nat, rx: nat, cong: nat)

  ghost predicate Sized(msgs: seq<Bytes>, limit: nat) {
    forall m <- msgs :: 0 < |m| <= limit
  }

  // Conservation, in the direction from s to d: what d took and what waits for
  // it are what s gave, the counts agree, and FIN was passed on if it was seen.
  ghost predicate Relayed(s: Side, d: Side, limit: nat) {
    && d.v.acc + d.pend == s.v.rcvd
    && d.tx == |d.v.acc| && s.rx == |s.v.rcvd|
    && |d.pend| <= limit && Sized(d.v.msgs, limit)
    && (d.v.st.finSent <==> s.v.st.finRcvd)
    && (d.v.st.finSent ==> d.pend == [])
  }

  // A pipe the bridge can go on working with, or one that has just broken
  ghost predicate Ok(v: View) {
    && v.sound && v.st == v.car && !v.defer && !v.hollow
    && (v.st.finRcvd ==> !v.st.readable)
    && (v.st.finSent ==> !v.st.writable)
    && (v.st.broken ==> !v.st.readable && !v.st.writable)
  }

  ghost predicate Working(l: Side, r: Side, ls: nat, rs: nat) {
    Ok(l.v) && Ok(r.v) && Relayed(l, r, ls) && Relayed(r, l, rs)
  }

  // Data could move from s to d
  ghost predicate Open(s: Side, d: Side) {
    s.v.st.readable && d.v.st.writable
  }

  // Both FINs were received, and both were sent
  ghost predicate Finished(l: Side, r: Side) {
    l.v.st.finRcvd && l.v.st.finSent && r.v.st.finRcvd && r.v.st.finSent
  }

  // Pending data is there only because the pipe did not take it
  ghost predicate Calm(s: Side) {
    s.pend != [] ==> !s.v.st.writable
  }

  // What is left of conservation when the bridge goes down: nothing that was
  // not received is sent, and FIN is sent only behind all of it.
  ghost predicate Bounded(s: Side, d: Side, limit: nat) {
    && d.v.acc <= s.v.rcvd && Sized(d.v.msgs, limit) && !d.v.defer
    && (d.v.car.finSent ==> s.v.sound && s.v.car.finRcvd && d.v.acc == s.v.rcvd)
  }

  // Working on a pipe from above: a bit that is down does not go up, neither
  // does the FIN bit beside it; packets are only ever added, while there is room
  // for them; and so are bytes sent.  The socket is asked for what a bit stands
  // for only while the bit is up, and it is asked before the bit goes down, if
  // that is not because the connection breaks.
  ghost predicate Quiet(v: View, v': View) {
    var c, c' := v.car, v'.car;
    && c'.ready == c.ready
    && (!c.readable ==> !c'.readable && c'.finRcvd == c.finRcvd)
    && (!c.writable ==> !c'.writable && c'.finSent == c.finSent && v'.msgs == v.msgs)
    && v.msgs <= v'.msgs && v.out <= v'.out
    && v.gets <= v'.gets && v.puts <= v'.puts && (c.broken ==> c'.broken)
    && (!c.readable ==> v'.gets == v.gets) && (!c.writable ==> v'.puts == v.puts)
    && (c.readable && !c'.readable ==> v.gets < v'.gets || c'.broken)
    && (c.writable && !c'.writable ==> v.puts < v'.puts || c'.broken)
  }

  // What reading leaves alone
  ghost predicate OnlyRead(s: Side, s': Side) {
    && s' == s.(v := s'.v, rx := s'.rx) && s'.v.puts == s.v.puts && s'.v.owing == s.v.owing
    && s'.v.car.finSent == s.v.car.finSent
    && (s'.v.car.broken || s'.v.car.writable == s.v.car.writable)
  }

  // What sending leaves alone
  ghost predicate OnlySent(d: Side, d': Side) {
    && d'.rx == d.rx && d'.v.rcvd == d.v.rcvd && d'.v.gets == d.v.gets && d'.v.full == d.v.full
    && d'.v.car.finRcvd == d.v.car.finRcvd
    && (d'.v.car.broken || d'.v.car.readable == d.v.car.readable)
  }

  lemma OnlyTrans(a: Side, b: Side, c: Side)
    requires Quiet(b.v, c.v)
    ensures OnlyRead(a, b) && OnlyRead(b, c) ==> OnlyRead(a, c)
    ensures OnlySent(a, b) && OnlySent(b, c) ==> OnlySent(a, c)
  {
  }

  // An open direction is made use of: the socket of s is read, or what was at
  // hand goes to the socket of d.
  ghost predicate Used(s: Side, d: Side, s': Side, d': Side) {
    if s.v.full then d.v.puts < d'.v.puts else s.v.gets < s'.v.gets
  }

  lemma UsedMore(s: Side, d: Side, s1: Side, d1: Side, s2: Side, d2: Side)
    requires Used(s, d, s1, d1) && Quiet(s1.v, s2.v) && Quiet(d1.v, d2.v)
    ensures Used(s, d, s2, d2)
  {
  }

  // How often d got congested while data went to it: once, if that was what
  // made it not writable
  ghost function Congested(s': Side, d: Side, d': Side): nat {
    if d.v.st.writable && !d'.v.st.writable && !s'.v.st.finRcvd then 1 else 0
  }

  lemma QuietRefl(a: View)
    ensures Quiet(a, a)
  {
  }

  lemma QuietTrans(a: View, b: View, c: View)
    requires Quiet(a, b) && Quiet(b, c)
    ensures Quiet(a, c)
  {
  }

  // Nothing becomes possible by going quiet.
  lemma QuietStays(s: Side, s': Side, d: Side, d': Side)
    requires Ok(s.v) && Ok(s'.v) && Quiet(s.v, s'.v)
    requires Ok(d.v) && Ok(d'.v) && Quiet(d.v, d'.v)
    ensures !Open(s, d) ==> !Open(s', d')
    ensures Calm(s) && s'.pend == s.pend ==> Calm(s')
  {
  }

  lemma WorkingIsBounded(l: Side, r: Side, ls: nat, rs: nat)
    requires Working(l, r, ls, rs)
    ensures Bounded(l, r, ls) && Bounded(r, l, rs)
  {
  }

  // In the middle of a transfer: `data` was received from s and d is to take
  // it.  No data stands for FIN.
  ghost predicate Between(s: Side, d: Side, data: Bytes, limit: nat, back: nat) {
    && Ok(s.v) && Ok(d.v) && Relayed(d, s, back)
    && d.v.acc + data == s.v.rcvd
    && d.tx == |d.v.acc| && s.rx == |s.v.rcvd|
    && |data| <= limit && Sized(d.v.msgs, limit)
    && d.v.st.writable && !d.v.st.finSent
    && (s.v.st.finRcvd <==> data == [])
  }

  lemma OpenIsSound(s: Side, d: Side, limit: nat, back: nat)
    requires Working(s, d, limit, back) && Open(s, d)
    ensures s.v.sound && !s.v.st.broken && !s.v.hollow && !s.v.st.finRcvd
    ensures d.v.sound && !d.v.st.broken && !d.v.hollow
  {
  }

  lemma BetweenIsSound(s: Side, d: Side, data: Bytes, limit: nat, back: nat)
    requires Between(s, d, data, limit, back)
    ensures d.v.sound && !d.v.st.broken && d.v.st.writable && !d.v.st.finSent
    ensures |data| <= limit && (s.v.st.finRcvd <==> data == [])
  {
  }

  lemma PendingIsBetween(s: Side, d: Side, limit: nat, back: nat)
    requires Working(s, d, limit, back) && d.pend != [] && d.v.st.writable
    ensures Between(s, d, d.pend, limit, back)
  {
  }

  lemma AfterRecv(s: Side, d: Side, n: int, got: Bytes, s': Side, limit: nat, back: nat)
    requires Working(s, d, limit, back) && Open(s, d) && d.pend == []
    requires s' == s.(v := s'.v) && RecvSeen(s.v, n, got, s'.v)
    requires n <= limit && (n > 0 ==> |got| == n)
    ensures Quiet(s.v, s'.v) && OnlyRead(s, s')
    ensures s.v.full ==> n > 0 || s'.v.hollow || s'.v.st.broken
    ensures !s.v.full ==> s.v.gets < s'.v.gets
    ensures n > 0 ==> !s'.v.st.finRcvd
    ensures n < 0 && s'.v.st.broken ==> Bounded(s', d, limit) && Bounded(d, s', back)
    ensures n < 0 && !s'.v.st.broken ==> Working(s', d, limit, back)
    ensures n >= 0 ==> !s'.v.st.broken
    ensures s'.v.hollow ==> n == 0 && !s'.v.st.finRcvd && Bounded(s', d, limit) && Bounded(d, s', back)
    ensures n >= 0 && !s'.v.hollow ==> Between(s'.(rx := s.rx + n), d, if n > 0 then got else [], limit, back)
  {
    assert d.v.acc + d.pend == d.v.acc;
  }

  lemma AfterFin(s: Side, d: Side, n: int, d': Side, limit: nat, back: nat)
    requires Between(s, d, [], limit, back) && d.pend == []
    requires d' == d.(v := d'.v) && FinSeen(d.v, n, d'.v)
    ensures Quiet(d.v, d'.v) && OnlySent(d, d')
    ensures n >= 0 ==> Working(s, d', limit, back)
    ensures n < 0 ==> Bounded(s, d', limit) && Bounded(d', s, back)
    ensures (n < 0 <==> d'.v.st.broken) && d'.v.sound && !d'.v.hollow
  {
    assert d.v.acc + [] == d.v.acc;
  }

  lemma AfterSend(s: Side, d: Side, data: Bytes, n: int, d': Side, cong: nat, limit: nat, back: nat)
    requires Between(s, d, data, limit, back) && data != []
    requires d' == d.(v := d'.v) && SendSeen(d.v, data, n, d'.v)
    ensures Quiet(d.v, d'.v) && OnlySent(d, d') && d.v.puts < d'.v.puts
    ensures n <= |data| && (n < |data| ==> !d'.v.st.writable) && d'.v.sound && !d'.v.hollow
    ensures d'.v.st.broken ==>
              n < 0 && Bounded(s, d'.(cong := cong), limit) && Bounded(d'.(cong := cong), s, back)
    ensures !d'.v.st.broken ==>
              var k := if n < 0 then 0 else n;
              Working(s, d'.(pend := data[k..], tx := d.tx + k, cong := cong), limit, back)
  {
    if n >= 0 {
      assert d.v.acc + data == (d.v.acc + data[..n]) + data[n..];
    } else {
      assert data[0..] == data;
    }
  }

  // What relaying from s to d keeps to
  ghost predicate Relaying(s: Side, d: Side, s': Side, d': Side) {
    && Quiet(s.v, s'.v) && Quiet(d.v, d'.v) && OnlyRead(s, s') && OnlySent(d, d')
    && d'.cong == d.cong + Congested(s', d, d')
  }

  lemma RelayingStarts(s: Side, d: Side)
    ensures Relaying(s, d, s, d)
  {
  }

  lemma RelayingOn(s: Side, d: Side, s1: Side, d1: Side, s2: Side, d2: Side)
    requires Relaying(s, d, s1, d1) && d1.v.st.writable && d.v.st.writable
    requires Quiet(s1.v, s2.v) && Quiet(d1.v, d2.v) && OnlyRead(s1, s2) && OnlySent(d1, d2)
    requires d2.cong == d1.cong + Congested(s2, d1, d2)
    ensures Relaying(s, d, s2, d2)
  {
    hide Quiet, OnlyRead, OnlySent;
    QuietTrans(s.v, s1.v, s2.v);
    QuietTrans(d.v, d1.v, d2.v);
    OnlyTrans(s, s1, s2);
    OnlyTrans(d, d1, d2);
  }

  lemma RelayingMeans(s: Side, d: Side, s': Side, d': Side)
    requires Relaying(s, d, s', d')
    ensures Quiet(s.v, s'.v) && Quiet(d.v, d'.v) && OnlyRead(s, s') && OnlySent(d, d')
    ensures d'.cong == d.cong + Congested(s', d, d')
    ensures s'.pend == s.pend
  {
  }

  // What a writable event of d comes to
  ghost predicate Towards(s: Side, d: Side, s': Side, d': Side) {
    if d.pend != [] then d.v.puts < d'.v.puts
    else if s.v.st.readable then Used(s, d, s', d')
    else d'.v.puts == d.v.puts && s'.v.gets == s.v.gets
  }

  // What a callback comes to, if it goes well: each way that is open, or became
  // so, is used, and otherwise no socket is asked; and congestions are counted.
  ghost predicate Attended(s: Side, p: Side, ev: IoEvents, s': Side, p': Side) {
    && (if ev.writable then Towards(p, s, p', s') else s'.v.puts == s.v.puts && p'.v.gets == p.v.gets)
    && (if ev.readable && Open(s, p) then Used(s, p, s', p') else s'.v.gets == s.v.gets && p'.v.puts == p.v.puts)
    && s'.cong == s.cong + Congested(p', s, s') && p'.cong == p.cong + Congested(s', p, p')
  }

  lemma NoFinYet(s: Side, d: Side, limit: nat, back: nat)
    requires Working(s, d, limit, back) && d.pend != []
    ensures !s.v.st.finRcvd
  {
  }

  lemma FlushedTowards(s: Side, d: Side, d1: Side, s': Side, d': Side)
    requires d.pend != [] && d.v.puts < d1.v.puts && Quiet(d1.v, d'.v)
    ensures Towards(s, d, s', d')
  {
  }

  // ---------------------------------------------------------------------

  class Stream {
    const pipe: Pipe
    const recvSize: nat
    var pending: IoBuffer?
    var tx: nat
    var rx: nat
    var congestions: nat
    ghost var Repr: set<object>

    ghost predicate Valid()
      reads this, Repr
      ensures Valid() ==> this in Repr
    {
      && this in Repr
      && pipe.Root() <= Repr && pipe.Repr() <= Repr && this !in pipe.Repr()
      && pipe.Valid()
      && pipe.Fits(recvSize) && recvSize < 0x10000000
      && (pending != null ==>
            pending in Repr && pending.data in Repr &&
            pending !in pipe.Repr() && pending.data !in pipe.Repr() &&
            pending.Valid() && pending.size > 0)
    }

    ghost function S(): Side
      requires Valid()
      reads this, Repr
    {
      Side(pipe.V(), if pending == null then [] else pending.Contents(), tx, rx, congestions)
    }

    // What has arrived from the peer
    ghost function Arrived(): (Bytes, bool)
      requires Valid()
      reads this, Repr
    {
      pipe.Arrived()
    }

    // How much there is left to read
    ghost function Left(): nat
      requires Valid()
      reads this, Repr
    {
      pipe.Work()
    }

    // The state bits that the code tests are those of the view
    lemma Bits()
      requires Valid()
      ensures pipe.St() == S().v.st && (pending == null <==> S().pend == [])
    {
    }

    // The TCP pipe at the bottom
    lemma Carrier()
      requires Valid()
      ensures pipe.Bottom() in Repr && pipe.Bottom().sk in Repr
      ensures pipe.Bottom().Valid() && pipe.Bottom().base == S().v.car
    {
    }

    lemma SoundBits()
      requires Valid()
      ensures S().v.sound ==> S().v.st == S().v.car && !S().v.defer
      ensures S().v.car.finRcvd ==> !S().v.car.readable
      ensures S().v.car.finSent ==> !S().v.car.writable
      ensures S().v.full && S().v.sound && !S().v.car.broken ==> S().v.car.readable
      ensures S().v.owing ==> !S().v.car.writable
    {
    }

    // The raw ends of the pipe, for a TCP pipe
    lemma RawEnds()
      requires Valid() && pipe.Raw?
      ensures var net := pipe.Bottom().sk.net;
              && net.sent == S().v.out == S().v.acc && (net.shut <==> S().v.car.finSent)
              && S().v.rcvd <= Arrived().0
              && (S().v.car.finRcvd ==> Arrived().1 && S().v.rcvd == Arrived().0)
    {
    }

    // The wire end of a datagram pipe, outwards
    lemma WireOut()
      requires Valid() && pipe.Framed?
      ensures var net := pipe.Bottom().sk.net;
              && net.sent == S().v.out <= Frames(S().v.msgs) && S().v.acc == Concat(S().v.msgs)
              && (net.shut ==> S().v.car.finSent && net.sent == Frames(S().v.msgs))
    {
      hide NextFrame, Splits, Frames, Concat, Reading;
      var io := pipe.dgm.io;
      assert io.io.sk.net.sent == io.accepted[..|io.io.sk.net.sent|];
    }

    // And inwards: what comes out are the datagrams the peer put in, in order,
    // and all of them by the time of FIN.
    lemma WireIn(ms: seq<Bytes>)
      requires Valid() && pipe.Framed?
      requires Payloads(ms, pipe.dgm.maxSize) && Arrived().0 <= Frames(ms)
      ensures S().v.rcvd <= Concat(ms)
      ensures S().v.car.finRcvd ==> Arrived().1
      ensures S().v.sound && S().v.car.finRcvd && Arrived().0 == Frames(ms) ==> S().v.rcvd == Concat(ms)
    {
      pipe.dgm.DeliveredOf(ms);
      hide NextFrame, Splits, Frames, Concat, Reading;
      ConcatPrefix(pipe.dgm.delivered, ms);
    }

    lemma SizeLimit()
      requires Valid()
      ensures recvSize < 0x10000000
    {
    }

    constructor (pipe: Pipe, recvSize: nat)
      requires pipe.Valid() && pipe.Fits(recvSize) && recvSize < 0x10000000
      ensures Valid() && this.pipe == pipe && this.recvSize == recvSize
      ensures S() == Side(pipe.V(), [], 0, 0, 0)
      ensures fresh(Repr - pipe.Repr())
    {
      this.pipe, this.recvSize := pipe, recvSize;
      pending, tx, rx, congestions := null, 0, 0, 0;
      Repr := {this} + pipe.Repr();
    }

    method Recv(buf: IoBuffer) returns (r: int)
      requires Valid() && S().v.sound && !S().v.st.broken && !S().v.hollow && !S().v.st.finRcvd
      requires recvSize <= buf.data.Length && buf !in Repr && buf.data !in Repr
      modifies Repr, buf.data
      ensures Valid() && fresh(Repr - old(Repr)) && r <= recvSize
      ensures S() == old(S()).(v := S().v)
      ensures RecvSeen(old(S()).v, r, buf.data[..if r > 0 then r else 0], S().v)
      ensures Left() < old(Left()) || !S().v.st.readable
      ensures pipe.HonestPeer(Arrived()) ==> S().v.sound
      ensures pipe.NoFalseFin(Arrived()) ==> !S().v.hollow
      ensures Arrived() == old(Arrived())
      ensures pipe.Raw? ==> pipe.Bottom().sk.calls == old(pipe.Bottom().sk.calls).Get(Read(recvSize, r))
    {
      hide NextFrame, Splits, Concat, Frames, Reading, RecvSeen, SendSeen, FinSeen;
      r := pipe.Recv(buf.data, recvSize);
      Repr := Repr + pipe.Repr();
    }

    method Send(data: Bytes) returns (r: int)
      requires Valid() && S().v.sound && !S().v.st.broken && S().v.st.writable
      requires 0 < |data| < 0x10000000
      modifies Repr
      ensures Valid() && fresh(Repr - old(Repr))
      ensures pending == old(pending)
      ensures S() == old(S()).(v := S().v)
      ensures SendSeen(old(S()).v, data, r, S().v)
      ensures Arrived() == old(Arrived())
    {
      hide NextFrame, Splits, Concat, Frames, Reading, RecvSeen, SendSeen, FinSeen;
      r := pipe.Send(data);
      Repr := Repr + pipe.Repr();
    }

    method SendFin() returns (r: int)
      requires Valid() && S().v.sound && !S().v.st.broken
      requires S().v.st.writable && !S().v.st.finSent
      modifies Repr
      ensures Valid() && fresh(Repr - old(Repr))
      ensures S() == old(S()).(v := S().v)
      ensures FinSeen(old(S()).v, r, S().v)
      ensures Arrived() == old(Arrived())
    {
      hide NextFrame, Splits, Concat, Frames, Reading, RecvSeen, SendSeen, FinSeen;
      r := pipe.SendFin();
      Repr := Repr + pipe.Repr();
    }

    // A socket event, up to the point where the bridge's callback is called
    method OnSocket(sk: SkEvents) returns (called: bool, e: IoEvents)
      requires Valid() && EventExpected(S().v.car, sk)
      modifies Repr
      ensures Valid() && fresh(Repr - old(Repr))
      ensures S() == old(S()).(v := S().v) && CallbackSeen(old(S()).v, e, S().v)
      ensures !called ==> e == NOTHING
      ensures Heard(old(S()).v, sk, e, S().v)
      ensures Arrived() == old(Arrived())
    {
      hide NextFrame, Splits, Concat, Frames, Reading, CallbackSeen, Heard;
      called, e := pipe.OnSocket(sk);
      Repr := Repr + pipe.Repr();
    }

    // The network brings more bytes, or FIN
    method Deliver(data: Bytes, fin: bool)
      requires Valid() && !Arrived().1
      modifies Repr
      ensures Valid() && Repr == old(Repr) && S() == old(S())
      ensures Arrived() == (old(Arrived()).0 + data, fin)
    {
      hide NextFrame, Splits, Concat, Frames, Reading;
      pipe.Deliver(data, fin);
    }

    // dst->pending = buf
    method Hold(buf: IoBuffer)
      requires Valid() && pending == null && buf.Valid() && buf.size > 0
      requires {buf, buf.data} !! Repr
      modifies this`pending, this`Repr
      ensures Valid() && Repr == old(Repr) + {buf, buf.data}
      ensures S() == old(S()).(pend := buf.Contents()) && Left() == old(Left()) && Arrived() == old(Arrived())
      ensures pending == buf
    {
      hide Pipe.Valid, Pipe.V, Pipe.Work;
      pending := buf;
      Repr := Repr + {buf, buf.data};
    }

    // The pending buffer, seen from outside
    lemma PendingIsOwn()
      requires Valid()
      ensures pending != null ==>
                pending in Repr && pending.data in Repr && pending.Valid() && S().pend == pending.Contents()
    {
    }

    // A partial write out of the pending buffer
    method Advance(n: nat)
      requires Valid() && pending != null && n < pending.size
      modifies pending
      ensures Valid() && S() == old(S()).(pend := old(S()).pend[n..])
      ensures Left() == old(Left()) && Arrived() == old(Arrived())
    {
      hide Pipe.Valid, Pipe.V, Pipe.Work;
      pending.Drop(n);
    }

    // A complete one
    method Release()
      requires Valid()
      modifies this`pending
      ensures Valid() && S() == old(S()).(pend := []) && Left() == old(Left()) && Arrived() == old(Arrived())
    {
      hide Pipe.Valid, Pipe.V, Pipe.Work;
      pending := null;
    }

    // The statistics
    method CountRx(n: nat)
      requires Valid()
      modifies this`rx
      ensures Valid() && S() == old(S()).(rx := old(S()).rx + n)
      ensures Left() == old(Left()) && Arrived() == old(Arrived())
    {
      hide Pipe.Valid, Pipe.V, Pipe.Work;
      rx := rx + n;
    }

    method CountSend(bytes: int, congested: bool)
      requires Valid()
      modifies this`tx, this`congestions
      ensures Valid() && S() == old(S()).(tx := old(S()).tx + (if bytes > 0 then bytes else 0),
                               cong := old(S()).cong + if congested then 1 else 0)
      ensures Left() == old(Left()) && Arrived() == old(Arrived())
    {
      hide Pipe.Valid, Pipe.V, Pipe.Work;
      congestions := congestions + if congested then 1 else 0;
      tx := tx + if bytes > 0 then bytes else 0;
    }
  }

  // ---------------------------------------------------------------------

  ghost predicate Pair(a: Stream, b: Stream)
    reads a, a.Repr, b, b.Repr
  {
    a.Valid() && b.Valid() && a.Repr !! b.Repr
  }

  ghost predicate Going(a: Stream, b: Stream)
    reads a, a.Repr, b, b.Repr
  {
    Pair(a, b) && Working(a.S(), b.S(), a.recvSize, b.recvSize)
  }

  // One of the pipes has broken, and this much still holds
  ghost predicate Fallen(a: Stream, b: Stream)
    reads a, a.Repr, b, b.Repr
  {
    && Pair(a, b)
    && Bounded(a.S(), b.S(), a.recvSize) && Bounded(b.S(), a.S(), b.recvSize)
  }

  // The first half of br_bridge_rx_tx: read from src
  method Rx(src: Stream, dst: Stream, buf: IoBuffer) returns (bytes: int)
    requires Going(src, dst) && Open(src.S(), dst.S()) && dst.S().pend == []
    requires src.recvSize <= buf.data.Length && {buf, buf.data} !! src.Repr + dst.Repr
    modifies src.Repr, buf.data
    ensures Pair(src, dst) && fresh(src.Repr - old(src.Repr)) && bytes <= src.recvSize
    ensures Quiet(old(src.S().v), src.S().v) && OnlyRead(old(src.S()), src.S())
    ensures old(src.S().v.full) ==> bytes > 0 || src.S().v.hollow || src.S().v.st.broken
    ensures !old(src.S().v.full) ==> old(src.S().v.gets) < src.S().v.gets
    ensures bytes > 0 ==> !src.S().v.st.finRcvd
    ensures bytes < 0 && src.S().v.st.broken ==> Fallen(src, dst)
    ensures bytes < 0 && !src.S().v.st.broken ==> Going(src, dst)
    ensures bytes >= 0 ==> !src.S().v.st.broken
    ensures src.S().v.hollow ==> bytes == 0 && !src.S().v.st.finRcvd && Fallen(src, dst)
    ensures bytes >= 0 && !src.S().v.hollow ==>
              Between(src.S(), dst.S(), buf.data[..bytes], src.recvSize, dst.recvSize)
    ensures src.Left() < old(src.Left()) || !src.S().v.st.readable
    ensures src.Arrived() == old(src.Arrived())
    ensures src.pipe.HonestPeer(src.Arrived()) ==> src.S().v.sound
    ensures src.pipe.NoFalseFin(src.Arrived()) ==> !src.S().v.hollow
  {
    hide RecvSeen, Honest, NoEmptyDatagram, Working, Between, Bounded, Quiet;
    hide Stream.Valid, Stream.S, Stream.Left, Stream.Arrived, Pipe.Valid, Pipe.V, Pipe.Work, Pipe.Arrived;
    ghost var s, d := src.S(), dst.S();
    OpenIsSound(s, d, src.recvSize, dst.recvSize);
    bytes := src.Recv(buf);
    AfterRecv(s, d, bytes, buf.data[..if bytes > 0 then bytes else 0], src.S(), src.recvSize, dst.recvSize);
    if bytes > 0 {
      src.CountRx(bytes);
    } else if bytes == 0 {
      assert buf.data[..0] == [];
      assert src.S().(rx := s.rx + 0) == src.S();
    }
  }

  // br_bridge_rx_tx on FIN
  method PassFin(src: Stream, dst: Stream) returns (r: int)
    requires Pair(src, dst) && Between(src.S(), dst.S(), [], src.recvSize, dst.recvSize)
    requires dst.S().pend == []
    modifies dst.Repr
    ensures Pair(src, dst) && fresh(dst.Repr - old(dst.Repr))
    ensures Quiet(old(dst.S().v), dst.S().v) && OnlySent(old(dst.S()), dst.S())
    ensures dst.S() == old(dst.S()).(v := dst.S().v)
    ensures r >= 0 ==> Going(src, dst) && !dst.S().v.st.broken
    ensures r < 0 ==> Fallen(src, dst) && dst.S().v.st.broken
    ensures dst.Arrived() == old(dst.Arrived())
    ensures dst.S().v.sound && !dst.S().v.hollow
  {
    hide FinSeen, Working, Bounded, Quiet;
    hide Stream.Valid, Stream.S, Stream.Left, Stream.Arrived, Pipe.Valid, Pipe.V, Pipe.Work, Pipe.Arrived;
    ghost var d := dst.S();
    var f := dst.SendFin();
    AfterFin(src.S(), d, f, dst.S(), src.recvSize, dst.recvSize);
    dst.Bits();
    r := if f < 0 && dst.pipe.St().broken then -1 else 0;
  }

  // Offer data to dst, and count what it takes
  method Offer(src: Stream, dst: Stream, data: Bytes) returns (bytes: int)
    requires Pair(src, dst) && src.recvSize < 0x10000000 && data != []
    requires Between(src.S(), dst.S(), data, src.recvSize, dst.recvSize)
    modifies dst.Repr
    ensures Pair(src, dst) && fresh(dst.Repr - old(dst.Repr))
    ensures Quiet(old(dst.S().v), dst.S().v) && OnlySent(old(dst.S()), dst.S())
    ensures old(dst.S().v.puts) < dst.S().v.puts
    ensures bytes <= |data| && (bytes < |data| ==> !dst.S().v.st.writable)
    ensures dst.S().v.st.broken ==> bytes < 0 && Fallen(src, dst)
    ensures !dst.S().v.st.broken ==>
              Working(src.S(), dst.S().(pend := data[if bytes < 0 then 0 else bytes..]), src.recvSize, dst.recvSize)
    ensures dst.S().pend == old(dst.S().pend) && dst.pending == old(dst.pending)
    ensures dst.S().cong == old(dst.S().cong) + if bytes < |data| || !dst.S().v.st.writable then 1 else 0
    ensures dst.Arrived() == old(dst.Arrived())
    ensures dst.S().v.sound && !dst.S().v.hollow
  {
    hide SendSeen, Working, Between, Bounded, Quiet;
    hide Stream.Valid, Stream.S, Stream.Left, Stream.Arrived, Pipe.Valid, Pipe.V, Pipe.Work, Pipe.Arrived;
    ghost var d := dst.S();
    BetweenIsSound(src.S(), d, data, src.recvSize, dst.recvSize);
    bytes := dst.Send(data);
    ghost var cong := d.cong + if bytes < |data| || !dst.S().v.st.writable then 1 else 0;
    AfterSend(src.S(), d, data, bytes, dst.S(), cong, src.recvSize, dst.recvSize);
    dst.Bits();
    dst.CountSend(bytes, bytes < |data| || !dst.pipe.St().writable);
  }

  // The second half of br_bridge_rx_tx: send what was read.  `kept` tells if
  // the buffer is still the caller's.
  method Tx(src: Stream, dst: Stream, buf: IoBuffer) returns (r: int, kept: bool)
    requires Pair(src, dst) && buf.Valid() && buf.head == 0 && buf.size > 0
    requires Between(src.S(), dst.S(), buf.Contents(), src.recvSize, dst.recvSize)
    requires dst.S().pend == [] && src.recvSize < 0x10000000
    requires {buf, buf.data} !! src.Repr + dst.Repr
    modifies dst.Repr, buf
    ensures Pair(src, dst) && fresh(dst.Repr - old(dst.Repr) - {buf, buf.data})
    ensures Quiet(old(dst.S().v), dst.S().v) && OnlySent(old(dst.S()), dst.S())
    ensures old(dst.S().v.puts) < dst.S().v.puts
    ensures dst.S().cong == old(dst.S().cong) + if dst.S().v.st.writable then 0 else 1
    ensures r >= 0 ==> Going(src, dst) && !dst.S().v.st.broken && Calm(dst.S())
    ensures r < 0 ==> Fallen(src, dst) && dst.S().v.st.broken
    ensures kept || !dst.S().v.st.writable
    ensures kept ==> buf.Valid() && buf.head == 0 && {buf, buf.data} !! src.Repr + dst.Repr
    ensures kept && r >= 0 ==> dst.S().pend == []
    ensures dst.Arrived() == old(dst.Arrived())
    ensures dst.S().v.sound && !dst.S().v.hollow
  {
    hide SendSeen, Working, Between, Bounded, Quiet;
    hide Stream.Valid, Stream.S, Stream.Left, Stream.Arrived, Pipe.Valid, Pipe.V, Pipe.Work, Pipe.Arrived;
    var data := buf.Contents();
    var bytes := Offer(src, dst, data);
    dst.Bits();
    if bytes == buf.size {
      assert dst.S().(pend := data[bytes..]) == dst.S();
      return 0, true;
    }
    if bytes < 0 {
      if dst.pipe.St().broken {
        return -1, true;
      }
      bytes := 0;
    }
    assert 0 <= bytes < buf.size;
    assert !dst.pipe.St().writable;
    buf.Drop(bytes);
    dst.Hold(buf);
    return 0, false;
  }

  // br_stream_flush
  method Flush(src: Stream, dst: Stream) returns (r: int)
    requires Going(src, dst) && src.recvSize < 0x10000000
    requires dst.S().pend != [] && dst.S().v.st.writable
    modifies dst.Repr
    ensures Pair(src, dst) && fresh(dst.Repr - old(dst.Repr))
    ensures Quiet(old(dst.S().v), dst.S().v) && OnlySent(old(dst.S()), dst.S())
    ensures old(dst.S().v.puts) < dst.S().v.puts
    ensures dst.S().cong == old(dst.S().cong) + if dst.S().v.st.writable then 0 else 1
    ensures r >= 0 ==> Going(src, dst) && !dst.S().v.st.broken && Calm(dst.S())
    ensures r < 0 ==> Fallen(src, dst) && dst.S().v.st.broken
    ensures dst.Arrived() == old(dst.Arrived())
    ensures dst.S().v.sound && !dst.S().v.hollow
  {
    hide SendSeen, Working, Between, Bounded, Quiet;
    hide Stream.Valid, Stream.S, Stream.Left, Stream.Arrived, Pipe.Valid, Pipe.V, Pipe.Work, Pipe.Arrived;
    PendingIsBetween(src.S(), dst.S(), src.recvSize, dst.recvSize);
    dst.Bits();
    dst.PendingIsOwn();
    assert dst.pending != null && dst.pipe.St().writable;
    var data := dst.pending.Contents();
    var bytes := Offer(src, dst, data);
    dst.Bits();
    dst.PendingIsOwn();
    if bytes < 0 {
      assert !dst.pipe.St().writable;
      assert data[0..] == data;
      return if dst.pipe.St().broken then -1 else 0;
    }
    if bytes < dst.pending.size {
      assert !dst.pipe.St().writable;
      dst.Advance(bytes);
      return 0;
    }
    assert data[bytes..] == [];
    dst.Release();
    return 0;
  }

  // How a call ends: with 0, with -1, or with an assertion that does not hold.
  // Then the program ends with it.
  datatype Outcome = Fine | Failed | Aborted

  // br_bridge_rx_tx, when recv has returned 0
  method OnZero(src: Stream, dst: Stream) returns (r: Outcome)
    requires Pair(src, dst) && dst.S().pend == [] && dst.S().v.sound && !dst.S().v.hollow
    requires src.S().v.hollow ==> !src.S().v.st.finRcvd && Fallen(src, dst)
    requires !src.S().v.hollow ==> Between(src.S(), dst.S(), [], src.recvSize, dst.recvSize)
    modifies dst.Repr
    ensures Pair(src, dst) && fresh(dst.Repr - old(dst.Repr))
    ensures Quiet(old(dst.S().v), dst.S().v) && OnlySent(old(dst.S()), dst.S())
    ensures dst.S() == old(dst.S()).(v := dst.S().v) && (r.Aborted? ==> dst.S() == old(dst.S()))
    ensures !r.Aborted? ==> src.S().v.st.finRcvd
    ensures r.Fine? ==> Going(src, dst) && !dst.S().v.st.broken
    ensures r.Failed? ==> Fallen(src, dst) && dst.S().v.st.broken
    ensures dst.Arrived() == old(dst.Arrived())
    ensures dst.S().v.sound && !dst.S().v.hollow
    ensures r.Aborted? <==> src.S().v.hollow
    ensures r.Aborted? ==> Fallen(src, dst)
  {
    hide Working, Between, Bounded, Quiet;
    hide Stream.Valid, Stream.S, Stream.Left, Stream.Arrived, Pipe.Valid, Pipe.V, Pipe.Work, Pipe.Arrived;
    src.Bits();
    dst.Bits();
    if !src.S().v.hollow {
      BetweenIsSound(src.S(), dst.S(), [], src.recvSize, dst.recvSize);
    }
    if !src.pipe.St().finRcvd {
      QuietRefl(dst.S().v);
      return Aborted;
    }
    assert !dst.pipe.St().finSent;
    var f := PassFin(src, dst);
    r := if f < 0 then Failed else Fine;
  }

  // br_bridge_rx_tx.  It asserts that a result of 0 is FIN, which an empty
  // datagram makes untrue, and nothing else does.
  method RxTx(src: Stream, dst: Stream, buf: IoBuffer) returns (r: Outcome, kept: bool)
    requires Going(src, dst) && Open(src.S(), dst.S()) && dst.S().pend == []
    requires src.recvSize < 0x10000000
    requires buf.Valid() && buf.head == 0 && src.recvSize <= buf.data.Length
    requires {buf, buf.data} !! src.Repr + dst.Repr
    modifies src.Repr, dst.Repr, buf, buf.data
    ensures Pair(src, dst)
    ensures fresh(src.Repr - old(src.Repr)) && fresh(dst.Repr - old(dst.Repr) - {buf, buf.data})
    ensures Quiet(old(src.S().v), src.S().v) && Quiet(old(dst.S().v), dst.S().v)
    ensures OnlyRead(old(src.S()), src.S()) && OnlySent(old(dst.S()), dst.S())
    ensures r.Fine? ==> Used(old(src.S()), old(dst.S()), src.S(), dst.S())
    ensures dst.S().cong == old(dst.S().cong) + Congested(src.S(), old(dst.S()), dst.S())
    ensures r.Fine? ==> Going(src, dst) && Calm(dst.S())
    ensures r.Fine? ==> !src.S().v.st.broken && !dst.S().v.st.broken
    ensures r.Failed? ==> Fallen(src, dst) && (src.S().v.st.broken || dst.S().v.st.broken)
    ensures kept || !dst.S().v.st.writable
    ensures kept ==> buf.Valid() && buf.head == 0 && {buf, buf.data} !! src.Repr + dst.Repr
    ensures kept && r.Fine? ==> dst.S().pend == []
    ensures src.Left() < old(src.Left()) || !src.S().v.st.readable
    ensures src.Arrived() == old(src.Arrived()) && dst.Arrived() == old(dst.Arrived())
    ensures src.pipe.HonestPeer(src.Arrived()) ==> src.S().v.sound
    ensures dst.S().v.sound && !dst.S().v.hollow
    ensures r.Aborted? <==> src.S().v.hollow
    ensures r.Aborted? ==> Fallen(src, dst)
    ensures src.pipe.NoFalseFin(src.Arrived()) ==> !r.Aborted?
  {
    hide Quiet, Working, Between, Bounded, Honest, NoEmptyDatagram;
    hide Stream.Valid, Stream.S, Stream.Left, Stream.Arrived, Pipe.Valid, Pipe.V, Pipe.Work, Pipe.Arrived;
    OpenIsSound(src.S(), dst.S(), src.recvSize, dst.recvSize);
    src.Bits();
    dst.Bits();
    assert src.pipe.St().readable && dst.pipe.St().writable && dst.pending == null;
    kept := true;
    QuietRefl(dst.S().v);
    var bytes := Rx(src, dst, buf);
    src.Bits();
    dst.Bits();
    if bytes < 0 {
      r := if src.pipe.St().broken then Failed else Fine;
      return;
    }
    if bytes == 0 {
      assert buf.data[..0] == [];
      r := OnZero(src, dst);
      return;
    }
    buf.size := bytes;
    assert buf.Contents() == buf.data[..bytes];
    var t;
    t, kept := Tx(src, dst, buf);
    r := if t < 0 then Failed else Fine;
  }

  // One turn of the loop of br_bridge_relay, which has begun with s and d
  method RelayOnce(src: Stream, dst: Stream, buf: IoBuffer, ghost s: Side, ghost d: Side, ghost idle: bool)
    returns (r: Outcome, kept: bool)
    requires Going(src, dst) && Open(src.S(), dst.S()) && dst.S().pend == []
    requires src.recvSize < 0x10000000
    requires buf.Valid() && buf.head == 0 && src.recvSize <= buf.data.Length
    requires {buf, buf.data} !! src.Repr + dst.Repr
    requires Relaying(s, d, src.S(), dst.S()) && Open(s, d)
    requires if idle then src.S() == s && dst.S() == d else Used(s, d, src.S(), dst.S())
    modifies src.Repr, dst.Repr, buf, buf.data
    ensures Pair(src, dst)
    ensures fresh(src.Repr - old(src.Repr)) && fresh(dst.Repr - old(dst.Repr) - {buf, buf.data})
    ensures Relaying(s, d, src.S(), dst.S()) && (r.Fine? ==> Used(s, d, src.S(), dst.S()))
    ensures r.Fine? ==> Going(src, dst) && Calm(dst.S())
    ensures r.Fine? ==> !src.S().v.st.broken && !dst.S().v.st.broken
    ensures r.Failed? ==> Fallen(src, dst) && (src.S().v.st.broken || dst.S().v.st.broken)
    ensures kept || !dst.S().v.st.writable
    ensures kept ==> buf.Valid() && buf.head == 0 && {buf, buf.data} !! src.Repr + dst.Repr
    ensures kept && r.Fine? ==> dst.S().pend == []
    ensures src.Left() < old(src.Left()) || !src.S().v.st.readable
    ensures src.Arrived() == old(src.Arrived()) && dst.Arrived() == old(dst.Arrived())
    ensures src.pipe.HonestPeer(src.Arrived()) ==> src.S().v.sound
    ensures dst.S().v.sound && !dst.S().v.hollow
    ensures r.Aborted? <==> src.S().v.hollow
    ensures r.Aborted? ==> Fallen(src, dst)
    ensures src.pipe.NoFalseFin(src.Arrived()) ==> !r.Aborted?
  {
    hide Relayed, Bounded, Honest, NoEmptyDatagram, Quiet, OnlyRead, OnlySent, Used, Relaying, Congested, Working;
    hide Stream.Valid, Stream.S, Stream.Left, Stream.Arrived, Pipe.Valid, Pipe.V, Pipe.Work, Pipe.Arrived;
    ghost var s1, d1 := src.S(), dst.S();
    r, kept := RxTx(src, dst, buf);
    RelayingOn(s, d, s1, d1, src.S(), dst.S());
    if !idle {
      UsedMore(s, d, s1, d1, src.S(), dst.S());
    }
  }

  // br_bridge_relay
  method Relay(src: Stream, dst: Stream) returns (r: Outcome)
    requires Going(src, dst) && Calm(dst.S())
    requires src.recvSize < 0x10000000
    modifies src.Repr, dst.Repr
    ensures Pair(src, dst) && fresh(src.Repr - old(src.Repr)) && fresh(dst.Repr - old(dst.Repr))
    ensures Quiet(old(src.S().v), src.S().v) && Quiet(old(dst.S().v), dst.S().v)
    ensures OnlyRead(old(src.S()), src.S()) && OnlySent(old(dst.S()), dst.S())
    ensures if old(Open(src.S(), dst.S())) then
              r.Fine? ==> Used(old(src.S()), old(dst.S()), src.S(), dst.S())
            else
              r.Fine? && src.S() == old(src.S()) && dst.S() == old(dst.S())
    ensures dst.S().cong == old(dst.S().cong) + Congested(src.S(), old(dst.S()), dst.S())
    ensures r.Fine? ==> Going(src, dst) && Calm(dst.S()) && !Open(src.S(), dst.S())
    ensures r.Fine? ==> src.S().v.st.broken == old(src.S().v.st.broken)
    ensures r.Fine? ==> dst.S().v.st.broken == old(dst.S().v.st.broken)
    ensures r.Failed? ==> Fallen(src, dst) && (src.S().v.st.broken || dst.S().v.st.broken)
    ensures src.Arrived() == old(src.Arrived()) && dst.Arrived() == old(dst.Arrived())
    ensures old(src.S().v.sound) && src.pipe.HonestPeer(src.Arrived()) ==> src.S().v.sound
    ensures dst.S().v.sound && !dst.S().v.hollow
    ensures r.Aborted? <==> src.S().v.hollow
    ensures r.Aborted? ==> Fallen(src, dst)
    ensures src.pipe.NoFalseFin(src.Arrived()) ==> !r.Aborted?
  {
    hide Relayed, Bounded, Honest, NoEmptyDatagram, Quiet, OnlyRead, OnlySent, Used, Relaying, Congested;
    hide Stream.Valid, Stream.S, Stream.Left, Stream.Arrived, Pipe.Valid, Pipe.V, Pipe.Work, Pipe.Arrived;
    var size := if src.recvSize < dst.recvSize then dst.recvSize else src.recvSize;
    var buf := new IoBuffer(size, []);
    var kept := true;
    ghost var idle := true;
    RelayingStarts(src.S(), dst.S());
    src.Bits();
    dst.Bits();
    while src.pipe.St().readable && dst.pipe.St().writable
      invariant Going(src, dst) && Calm(dst.S())
      invariant fresh(src.Repr - old(src.Repr)) && fresh(dst.Repr - old(dst.Repr))
      invariant fresh(buf) && fresh(buf.data) && buf.data.Length == size
      invariant kept ==> buf.Valid() && buf.head == 0 && {buf, buf.data} !! src.Repr + dst.Repr
      invariant kept || !dst.S().v.st.writable
      invariant Relaying(old(src.S()), old(dst.S()), src.S(), dst.S())
      invariant if idle then src.S() == old(src.S()) && dst.S() == old(dst.S())
                else old(Open(src.S(), dst.S())) && Used(old(src.S()), old(dst.S()), src.S(), dst.S())
      invariant src.S().v.st.broken == old(src.S().v.st.broken)
      invariant dst.S().v.st.broken == old(dst.S().v.st.broken)
      invariant src.Arrived() == old(src.Arrived()) && dst.Arrived() == old(dst.Arrived())
      invariant old(src.S().v.sound) && src.pipe.HonestPeer(src.Arrived()) ==> src.S().v.sound
      invariant dst.S().v.sound && !dst.S().v.hollow
      invariant src.pipe.St() == src.S().v.st && dst.pipe.St() == dst.S().v.st
      decreases if src.S().v.st.readable then src.Left() + 1 else 0
    {
      r, kept := RelayOnce(src, dst, buf, old(src.S()), old(dst.S()), idle);
      idle := false;
      src.Bits();
      dst.Bits();
      if !r.Fine? {
        RelayingMeans(old(src.S()), old(dst.S()), src.S(), dst.S());
        return;
      }
      assert kept || !dst.pipe.St().writable;
    }
    RelayingMeans(old(src.S()), old(dst.S()), src.S(), dst.S());
    return Fine;
  }

  // ---------------------------------------------------------------------

  // The events & IO_EV_writable part
  method ServeWritable(self: Stream, peer: Stream) returns (r: Outcome)
    requires Going(self, peer) && Calm(peer.S())
    requires self.S().v.st.writable
    requires self.recvSize < 0x10000000 && peer.recvSize < 0x10000000
    modifies self.Repr, peer.Repr
    ensures Pair(self, peer) && fresh(self.Repr - old(self.Repr)) && fresh(peer.Repr - old(peer.Repr))
    ensures Quiet(old(self.S().v), self.S().v) && Quiet(old(peer.S().v), peer.S().v)
    ensures self.Arrived() == old(self.Arrived()) && peer.Arrived() == old(peer.Arrived())
    ensures OnlyRead(old(peer.S()), peer.S()) && OnlySent(old(self.S()), self.S())
    ensures self.S().cong == old(self.S().cong) + Congested(peer.S(), old(self.S()), self.S())
    ensures r.Fine? ==> Towards(old(peer.S()), old(self.S()), peer.S(), self.S())
    ensures r.Fine? ==> Going(self, peer) && Calm(self.S()) && Calm(peer.S())
    ensures r.Fine? ==> !Open(peer.S(), self.S())
    ensures r.Fine? ==> self.S().v.st.broken == old(self.S().v.st.broken)
    ensures r.Fine? ==> peer.S().v.st.broken == old(peer.S().v.st.broken)
    ensures r.Failed? ==> Fallen(self, peer) && (self.S().v.st.broken || peer.S().v.st.broken)
    ensures old(peer.S().v.sound) && peer.pipe.HonestPeer(peer.Arrived()) ==> peer.S().v.sound
    ensures self.S().v.sound && !self.S().v.hollow
    ensures r.Aborted? <==> peer.S().v.hollow
    ensures r.Aborted? ==> Fallen(self, peer)
    ensures peer.pipe.NoFalseFin(peer.Arrived()) ==> !r.Aborted?
  {
    hide Relayed, Bounded, Honest, NoEmptyDatagram, Quiet;
    hide Stream.Valid, Stream.S, Stream.Left, Stream.Arrived, Pipe.Valid, Pipe.V, Pipe.Work, Pipe.Arrived;
    ghost var a, b := self.S(), peer.S();
    QuietRefl(a.v);
    QuietRefl(b.v);
    self.Bits();
    assert self.pipe.St().writable;
    if self.pending != null {
      NoFinYet(b, a, peer.recvSize, self.recvSize);
      var f := Flush(peer, self);
      self.Bits();
      if f < 0 {
        return Failed;
      }
    }
    ghost var a1 := self.S();
    QuietRefl(a1.v);
    if self.pipe.St().writable {
      r := Relay(peer, self);
      QuietTrans(a.v, a1.v, self.S().v);
      OnlyTrans(a, a1, self.S());
      if !r.Fine? {
        return;
      }
    }
    if a.pend != [] {
      FlushedTowards(b, a, a1, peer.S(), self.S());
    }
    QuietStays(b, peer.S(), a, self.S());
    return Fine;
  }

  // br_stream_on_activity, up to where it decides if the bridge is down
  method Serve(self: Stream, peer: Stream, ev: IoEvents) returns (r: Outcome)
    requires Going(self, peer) && Calm(peer.S())
    requires self.recvSize < 0x10000000 && peer.recvSize < 0x10000000
    requires ev.writable ==> self.S().v.st.writable
    // whatever is possible now is so because of the event
    requires !ev.writable ==> Calm(self.S()) && !Open(peer.S(), self.S())
    requires !ev.readable ==> !Open(self.S(), peer.S())
    modifies self.Repr, peer.Repr
    ensures Pair(self, peer) && fresh(self.Repr - old(self.Repr)) && fresh(peer.Repr - old(peer.Repr))
    ensures Quiet(old(self.S().v), self.S().v) && Quiet(old(peer.S().v), peer.S().v)
    ensures self.Arrived() == old(self.Arrived()) && peer.Arrived() == old(peer.Arrived())
    ensures r.Fine? ==> Going(self, peer) && Calm(self.S()) && Calm(peer.S())
    ensures r.Fine? ==> !Open(self.S(), peer.S()) && !Open(peer.S(), self.S())
    ensures r.Fine? ==> Attended(old(self.S()), old(peer.S()), ev, self.S(), peer.S())
    ensures r.Fine? ==> self.S().v.st.broken == old(self.S().v.st.broken)
    ensures r.Fine? ==> peer.S().v.st.broken == old(peer.S().v.st.broken)
    ensures r.Failed? ==> Fallen(self, peer) && (self.S().v.st.broken || peer.S().v.st.broken)
    ensures self.pipe.HonestPeer(self.Arrived()) ==> self.S().v.sound
    ensures peer.pipe.HonestPeer(peer.Arrived()) ==> peer.S().v.sound
    ensures r.Aborted? <==> self.S().v.hollow || peer.S().v.hollow
    ensures r.Aborted? ==> Fallen(self, peer)
    ensures self.pipe.NoFalseFin(self.Arrived()) && peer.pipe.NoFalseFin(peer.Arrived()) ==> !r.Aborted?
  {
    hide Relayed, Bounded, Honest, NoEmptyDatagram, Quiet;
    hide Stream.Valid, Stream.S, Stream.Left, Stream.Arrived, Pipe.Valid, Pipe.V, Pipe.Work, Pipe.Arrived;
    ghost var a, b := self.S(), peer.S();
    QuietRefl(a.v);
    QuietRefl(b.v);
    if ev.writable {
      r := ServeWritable(self, peer);
      if !r.Fine? {
        return;
      }
      QuietStays(a, self.S(), b, peer.S());
    }
    peer.Bits();
    ghost var a1, b1 := self.S(), peer.S();
    if ev.readable && peer.pipe.St().writable {
      r := Relay(self, peer);
      QuietTrans(a.v, a1.v, self.S().v);
      QuietTrans(b.v, b1.v, peer.S().v);
      if !r.Fine? {
        return;
      }
      QuietStays(a1, self.S(), b1, peer.S());
      QuietStays(b1, peer.S(), a1, self.S());
    }
    return Fine;
  }

  // ---------------------------------------------------------------------

  // Everything that came in on either side has gone out on the other, FIN last.
  ghost predicate Complete(l: Side, r: Side) {
    && Finished(l, r) && l.v.sound && r.v.sound
    && l.pend == [] && r.pend == []
    && r.v.acc == l.v.rcvd && l.v.acc == r.v.rcvd
    && l.rx == r.tx && r.rx == l.tx
  }

  lemma FinishedIsComplete(l: Side, r: Side, ls: nat, rs: nat)
    requires Working(l, r, ls, rs) && Finished(l, r)
    ensures Complete(l, r)
  {
    assert r.v.acc + r.pend == r.v.acc && l.v.acc + l.pend == l.v.acc;
  }

  // It is enough to look at the FIN bits of one pipe: the other's follow.
  lemma PeerTellsAll(l: Side, r: Side, ls: nat, rs: nat)
    requires Working(l, r, ls, rs)
    ensures Finished(l, r) <==> l.v.st.finSent && l.v.st.finRcvd
    ensures Finished(l, r) <==> r.v.st.finSent && r.v.st.finRcvd
  {
  }

  // A pipe that is still connecting
  ghost const NEW_SIDE :=
    Side(View(IDLE, IDLE, [], [], [], true, false, false, [], 0, 0, false, false), [], 0, 0, 0)

  lemma NewSides(ls: nat, rs: nat)
    ensures Working(NEW_SIDE, NEW_SIDE, ls, rs)
  {
  }

  class IoBridge {
    const l: Stream
    const r: Stream
    var dead: bool
    var aborted: bool                 // an assertion did not hold: this is the end
    ghost var shutdowns: seq<bool>    // the calls of on_shutdown, with `graceful`

    // Between callbacks
    ghost predicate Resting()
      reads l, l.Repr, r, r.Repr
    {
      && Going(l, r)
      && Calm(l.S()) && Calm(r.S())
      && !Open(l.S(), r.S()) && !Open(r.S(), l.S())
      && !l.S().v.st.broken && !r.S().v.st.broken
      && !Finished(l.S(), r.S())
    }

    ghost predicate Valid()
      reads this, l, l.Repr, r, r.Repr
    {
      && Pair(l, r) && this !in l.Repr && this !in r.Repr
      && (aborted <==> l.S().v.hollow || r.S().v.hollow)
      && if aborted then
           !dead && shutdowns == [] && Fallen(l, r)
         else if !dead then
           shutdowns == [] && Resting()
         else
           Fallen(l, r) &&
           (shutdowns == [false] || (shutdowns == [true] && Complete(l.S(), r.S())))
    }

    lemma Ends()
      requires Valid()
      ensures l.Valid() && r.Valid() && l.Repr !! r.Repr && this !in l.Repr && this !in r.Repr
    {
    }

    constructor (l: Stream, r: Stream)
      requires Pair(l, r)
      requires l.S() == NEW_SIDE && r.S() == NEW_SIDE
      ensures Valid() && this.l == l && this.r == r && !dead && !aborted
    {
      hide Stream.Valid, Stream.S, Working;
      NewSides(l.recvSize, r.recvSize);
      this.l, this.r, dead, aborted, shutdowns := l, r, false, false, [];
    }

    // What the pipes may do to the bridge between its callbacks: `left` is
    // the side whose pipe calls back, with events `ev`.
    ghost predicate Poised(self: Stream, peer: Stream, ev: IoEvents)
      reads this, self, self.Repr, peer, peer.Repr
    {
      && Pair(self, peer) && this !in self.Repr && this !in peer.Repr
      && ((self == l && peer == r) || (self == r && peer == l))
      && !aborted && !self.S().v.hollow && !peer.S().v.hollow
      && if !dead then
           && shutdowns == [] && Going(self, peer)
           && Calm(peer.S()) && !peer.S().v.st.broken && !Finished(l.S(), r.S())
           && (self.S().v.st.broken <==> ev.broken)
           && (ev.writable ==> self.S().v.st.writable)
           && (!ev.writable ==> Calm(self.S()) && !Open(peer.S(), self.S()))
           && (!ev.readable ==> !Open(self.S(), peer.S()))
         else
           Fallen(self, peer) &&
           (shutdowns == [false] || (shutdowns == [true] && Complete(l.S(), r.S())))
    }

    // The rest of br_stream_on_activity
    method Conclude(self: Stream, peer: Stream, outcome: Outcome, broken: bool)
      requires Pair(self, peer) && this !in self.Repr && this !in peer.Repr
      requires (self == l && peer == r) || (self == r && peer == l)
      requires !dead && !aborted && shutdowns == []
      requires outcome.Aborted? <==> self.S().v.hollow || peer.S().v.hollow
      requires outcome.Fine? ==> Going(self, peer) && Calm(self.S()) && Calm(peer.S())
      requires outcome.Fine? ==> !Open(self.S(), peer.S()) && !Open(peer.S(), self.S())
      requires outcome.Fine? && !broken ==> !self.S().v.st.broken && !peer.S().v.st.broken
      requires !outcome.Fine? ==> Fallen(self, peer)
      modifies this`dead, this`aborted, this`shutdowns
      ensures Valid() && (aborted <==> outcome.Aborted?) && (aborted ==> !dead)
      ensures shutdowns == [false] <==> outcome.Failed? || (outcome.Fine? && broken)
      ensures outcome.Failed? || (outcome.Fine? && broken) ==> dead
    {
      hide Relayed, Bounded, Complete;
      hide Stream.Valid, Stream.S, Pipe.Valid, Pipe.V;
      if outcome.Aborted? {
        aborted := true;
        return;
      }
      if outcome.Failed? || broken {
        if outcome.Fine? {
          WorkingIsBounded(self.S(), peer.S(), self.recvSize, peer.recvSize);
        }
        dead := true;
        shutdowns := shutdowns + [false];
        return;
      }
      peer.Bits();
      if peer.pipe.St().finSent && peer.pipe.St().finRcvd {
        PeerTellsAll(l.S(), r.S(), l.recvSize, r.recvSize);
        FinishedIsComplete(l.S(), r.S(), l.recvSize, r.recvSize);
        WorkingIsBounded(l.S(), r.S(), l.recvSize, r.recvSize);
        dead := true;
        shutdowns := shutdowns + [true];
        assert shutdowns[0];
      }
    }

    // br_stream_on_activity
    method OnActivity(self: Stream, peer: Stream, ev: IoEvents)
      requires Poised(self, peer, ev)
      modifies this, self.Repr, peer.Repr
      ensures Valid()
      ensures old(dead) || ev.broken ==> dead || aborted
      ensures aborted ==> !dead
      ensures self.pipe.NoFalseFin(self.Arrived()) && peer.pipe.NoFalseFin(peer.Arrived()) ==> !aborted
      ensures old(dead) ==> shutdowns == old(shutdowns)
      ensures old(dead) ==> self.S() == old(self.S()) && peer.S() == old(peer.S())
      ensures fresh(self.Repr - old(self.Repr)) && fresh(peer.Repr - old(peer.Repr))
      ensures Quiet(old(self.S().v), self.S().v) && Quiet(old(peer.S().v), peer.S().v)
      ensures self.Arrived() == old(self.Arrived()) && peer.Arrived() == old(peer.Arrived())
      // unless it goes down on an error, all is done that the event makes possible
      ensures !old(dead) && !aborted && shutdowns != [false] ==>
                Attended(old(self.S()), old(peer.S()), ev, self.S(), peer.S()) &&
                !ev.broken && !self.S().v.st.broken && self.S().v.sound
      ensures shutdowns == [false] && old(shutdowns) == [] ==> self.S().v.st.broken || peer.S().v.st.broken
      ensures !old(dead) && self.pipe.HonestPeer(self.Arrived()) ==> self.S().v.sound
      ensures !old(dead) && peer.pipe.HonestPeer(peer.Arrived()) ==> peer.S().v.sound
    {
      hide Relayed, Bounded, Honest, NoEmptyDatagram, Quiet, Complete;
      hide Stream.Valid, Stream.S, Stream.Left, Stream.Arrived, Pipe.Valid, Pipe.V, Pipe.Work, Pipe.Arrived;
      QuietRefl(self.S().v);
      QuietRefl(peer.S().v);
      if dead {
        return;
      }
      self.SizeLimit();
      peer.SizeLimit();
      ghost var a, b := self.S(), peer.S();
      var outcome := Serve(self, peer, ev);
      Conclude(self, peer, outcome, ev.broken);
    }
  }
}
