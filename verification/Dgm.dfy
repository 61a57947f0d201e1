// The datagram pipe of src/io/src/io_pipe_dgm.c: framing on the way out, and
// reassembly from arbitrary chunks on the way in.
module Dgm {
  import opened Serialize
  import opened Framing
  import opened Buffers
  import opened Tcp
  import opened Atx

  const MAX_HDR_SIZE := 5

  // Where a reader of a stream stands: the first `mark` bytes are cut into the
  // datagrams delivered, and, unless it gave up, the ones from there to `taken`
  // are at hand.
  ghost predicate Reading(inbound: Bytes, taken: nat, mark: nat, ds: seq<Bytes>, failed: bool,
                          unread: Bytes, max: nat) {
    && mark <= taken <= |inbound|
    && Splits(inbound[..mark], ds, max)
    && (!failed ==> inbound[mark..taken] == unread)
  }

  lemma ReadingNext(inbound: Bytes, taken: nat, mark: nat, ds: seq<Bytes>, s: Bytes, max: nat)
    requires Reading(inbound, taken, mark, ds, false, s, max) && NextFrame(s, max).Whole?
    ensures var n := NextFrame(s, max);
            Reading(inbound, taken, mark + n.hdr + n.size, ds + [Payload(s, n)], false, s[n.hdr + n.size..], max)
  {
    hide NextFrame, Splits;
    var n := NextFrame(s, max);
    SplitsSnoc(inbound[..mark], ds, s, max);
    assert inbound[..mark + n.hdr + n.size] == inbound[..mark] + s[..n.hdr + n.size];
  }

  lemma ReadingMore(inbound: Bytes, taken: nat, mark: nat, ds: seq<Bytes>, failed: bool, s: Bytes, n: nat, max: nat)
    requires Reading(inbound, taken, mark, ds, failed, s, max) && taken + n <= |inbound|
    ensures Reading(inbound, taken + n, mark, ds, failed, s + inbound[taken..taken + n], max)
  {
  }

  lemma ReadingGivenUp(inbound: Bytes, taken: nat, mark: nat, ds: seq<Bytes>, s: Bytes, s': Bytes, max: nat)
    requires Reading(inbound, taken, mark, ds, true, s, max)
    ensures Reading(inbound, taken, mark, ds, true, s', max)
  {
  }

  lemma ReadingLater(inbound: Bytes, taken: nat, mark: nat, ds: seq<Bytes>, failed: bool, s: Bytes, t: Bytes, max: nat)
    requires Reading(inbound, taken, mark, ds, failed, s, max)
    ensures Reading(inbound + t, taken, mark, ds, failed, s, max)
  {
    assert (inbound + t)[..mark] == inbound[..mark];
    assert (inbound + t)[mark..taken] == inbound[mark..taken];
  }

  // The bytes read between two states of a socket
  ghost function NewlyTaken(n: Net, n': Net): Bytes {
    if n.taken <= n'.taken <= |n'.inbound| then n'.inbound[n.taken..n'.taken] else []
  }

  // What recv makes of the unread bytes `s`, those that it just read included:
  // its result, the datagrams delivered before and after, and the FIN bit
  ghost predicate Answered(s: Bytes, max: nat, r: int, buf: Bytes, failed: bool,
                           ds: seq<Bytes>, ds': seq<Bytes>, fin: bool, fin': bool) {
    match NextFrame(s, max)
    case Whole(hdr, size) =>
      !failed && r == size <= |buf| && buf[..size] == s[hdr..hdr + size] && ds' == ds + [buf[..size]] && fin' == fin
    case Malformed => failed && r < 0 && ds' == ds
    case Incomplete => r <= 0 && ds' == ds && (r == 0 ==> s == [] && fin') && (failed ==> s != [])
  }

  // A result of 0 means FIN if and only if what was read is not an empty datagram.
  lemma ZeroMeansFin(s: Bytes, max: nat, buf: Bytes, failed: bool, ds: seq<Bytes>, ds': seq<Bytes>, fin: bool, fin': bool)
    requires Answered(s, max, 0, buf, failed, ds, ds', fin, fin') && !fin
    ensures fin' <==> !(NextFrame(s, max).Whole? && NextFrame(s, max).size == 0)
    ensures fin' <==> ds' == ds
    ensures !fin' <==> ds' == ds + [[]]
  {
    assert ds + [buf[..0]] == ds + [[]] != ds;
  }

  lemma EmptyIsSeen(s: Bytes, k: nat, ds: seq<Bytes>, max: nat)
    requires k <= |s| && Splits(s[..k], ds, max) && [] in ds
    ensures !NoEmptyDatagram(s, max)
  {
  }

  // One byte is enough for that.
  lemma OneByteIsEmptyDatagram(max: nat)
    ensures NextFrame([0], max) == Whole(1, 0)
    ensures !NoEmptyDatagram([0], max) && !Honest([0], false, max)
  {
    ContinuedIs([0], 0);
    assert ValueOf([0]) == 0 by {
      assert [0][1..] == [];
    }
    var s: Bytes, ds: seq<Bytes> := [0], [[]];
    assert ds[0] == [] && ds[1..] == [] && s[1..] == [] && s[..1] == s;
    EmptyIsSeen(s, 1, ds, max);
    if Honest(s, false, max) {
      HonestHasNoEmpty(s, false, max);
    }
  }

  // One more call that reads
  ghost predicate ReadOnce(c: Calls, c': Calls) {
    c'.puts == c.puts && |c'.gets| == |c.gets| + 1 && c.gets <= c'.gets
  }

  // What a read may do to the state bits of the carrier
  ghost predicate ReadFlags(b: PipeState, b': PipeState) {
    b' == Broken(b) || b' == b.(readable := b'.readable, finRcvd := b'.finRcvd)
  }

  lemma ReadSeen(b: PipeState, n: Net, r: int, got: Bytes, b': PipeState, n': Net)
    requires n.Valid() && RecvStep(b, n, r, got, b', n') && (b.finRcvd ==> n.AtEnd())
    requires r > 0 ==> |got| == r
    ensures ReadFlags(b, b') && NewlyTaken(n, n') == if r > 0 then got else []
    ensures n' == n.(taken := n.taken + if r > 0 then r else 0) && n'.Valid()
    ensures r > 0 ==> got == n.inbound[n.taken..n.taken + r] && b'.readable && !b'.finRcvd && !b.finRcvd
    ensures r >= 0 && !b.broken ==> !b'.broken
    ensures r == 0 ==> b'.finRcvd && n.AtEnd()
    ensures r <= 0 ==> !b'.readable
    ensures r < 0 ==> b'.finRcvd == b.finRcvd
  {
  }

  // Reassembly always leaves room to read into.
  lemma IncompleteIsShort(s: Bytes, max: nat)
    requires NextFrame(s, max).Incomplete?
    ensures |s| < MAX_HDR_SIZE + max
  {
  }

  lemma NothingIsIncomplete(max: nat)
    ensures NextFrame([], max).Incomplete?
  {
  }

  class DgmPipe {
    var base: PipeState
    const io: AtxPipe
    const maxSize: nat
    var rx: IoBuffer?

    ghost var accepted: seq<Bytes>     // payloads that send took
    ghost var delivered: seq<Bytes>    // payloads that recv returned
    ghost var mark: nat                // how much of the stream they came from
    ghost var failed: bool             // recv gave up on the stream
    ghost var Repr: set<object>

    ghost function Net(): Net
      reads io.io.sk
    {
      io.io.sk.net
    }

    ghost function Calls(): Calls
      reads io.io.sk
    {
      io.io.sk.calls
    }

    // The unread part of the receive buffer
    ghost function Unread(): Bytes
      requires rx != null ==> rx.Valid()
      reads this, rx, if rx == null then {} else {rx.data}
    {
      if rx == null then [] else rx.Contents()
    }

    // Everything read from the carrier is accounted for.
    ghost predicate Accounted()
      requires rx != null ==> rx.Valid()
      reads this, io.io.sk, rx, if rx == null then {} else {rx.data}
    {
      Reading(Net().inbound, Net().taken, mark, delivered, failed, Unread(), maxSize)
    }

    // No stranded datagram: a complete one never sits in the buffer of a pipe
    // that does not say it is readable.
    ghost predicate Reported()
      requires rx != null ==> rx.Valid()
      reads this, io, io.io, rx, if rx == null then {} else {rx.data}
    {
      rx != null && !NextFrame(rx.Contents(), maxSize).Incomplete? ==>
        io.base.readable || io.base.broken
    }

    // What holds all through recv
    ghost predicate Mid()
      reads this, Repr
    {
      && this in Repr && io in Repr && io.Repr <= Repr && this !in io.Repr
      && io.Valid()
      && (rx != null ==> rx in Repr && rx.data in Repr && rx !in io.Repr && rx.data !in io.Repr && rx.Valid())
      && Accounted()
      && io.accepted == Frames(accepted)
    }

    ghost predicate Valid()
      reads this, Repr
      ensures Valid() ==> this in Repr
    {
      && Mid()
      && (rx != null ==> rx.size > 0)
      && (!failed ==> Reported())
      && (!failed && io.base.finRcvd ==> rx == null)
      && (io.wantFin || failed || base == io.base || base == Broken(io.base))
    }

    // Nothing went wrong, and the outer state is that of the carrier
    ghost predicate Live()
      reads this, io
    {
      !failed && !io.wantFin && base == io.base
    }

    constructor (io: AtxPipe, maxSize: nat)
      requires io.Valid() && io.accepted == [] && !io.wantFin && !io.base.finRcvd
      requires io.io.sk.net.taken == 0
      ensures Valid() && Live() && this.io == io && this.maxSize == maxSize
      ensures rx == null && accepted == [] && delivered == [] && Repr == {this} + io.Repr
    {
      this.io, this.maxSize, rx := io, maxSize, null;
      accepted, delivered, mark, failed := [], [], 0, false;
      base := io.base;
      Repr := {this} + io.Repr;
    }

    // memcpy of the payload
    method CopyOut(buf: array<Byte>, off: nat, n: nat)
      requires rx != null && rx.Valid() && off + n <= rx.size && n <= buf.Length && buf != rx.data
      modifies buf
      ensures rx.Valid() && rx.Contents() == old(rx.Contents())
      ensures buf[..n] == rx.Contents()[off..off + n]
    {
      ghost var before := rx.Contents();
      forall i | 0 <= i < n {
        buf[i] := rx.data[rx.head + off + i];
      }
      assert rx.Contents() == before;
      assert buf[..n] == before[off..off + n];
    }

    // process_rx: `dgmSize` is 0 unless the header was there
    method ProcessRx(buf: array<Byte>, len: nat) returns (r: int, dgmSize: nat)
      requires rx != null && rx.Valid()
      requires maxSize <= len <= buf.Length && buf != rx.data
      modifies rx, buf
      ensures rx.Valid()
      ensures match NextFrame(old(rx.Contents()), maxSize)
              case Malformed => r == -1
              case Incomplete =>
                r == 0 && dgmSize <= maxSize && rx.Contents() == old(rx.Contents()) &&
                dgmSize == (match ParseHeader(old(rx.Contents())) case Got(_, size) => size case _ => 0)
              case Whole(hdr, size) =>
                r == hdr && dgmSize == size &&
                buf[..size] == old(rx.Contents())[hdr..hdr + size] &&
                rx.Contents() == old(rx.Contents())[hdr + size..]
      ensures r <= 0 ==> rx.head == old(rx.head) && rx.size == old(rx.size)
    {
      hide Continued, ValueOf, Pow128;
      dgmSize := 0;
      var size;
      r, size := ParseSize(rx.data, rx.head, rx.size);
      if r < 0 {
        return -1, dgmSize;
      }
      if r == 0 {
        return 0, dgmSize;
      }
      dgmSize := size;
      if dgmSize > maxSize {
        return -1, dgmSize;
      }
      if r + dgmSize > rx.size {
        return 0, dgmSize;
      }
      CopyOut(buf, r, dgmSize);
      rx.Drop(r + dgmSize);
    }

    // adjust_rx: the unread bytes move to the front of a big enough buffer
    method AdjustRx(minCap: nat)
      requires rx != null && rx.Valid() && rx.size <= minCap
      modifies this`rx, rx, rx.data
      ensures rx != null && rx.Valid() && rx.head == 0 && rx.data.Length >= minCap
      ensures rx.Contents() == old(rx.Contents())
      ensures if old(rx.data.Length) < minCap then fresh(rx) && fresh(rx.data) && rx.data.Length == minCap
              else rx == old(rx)
    {
      if rx.data.Length < minCap {
        rx := new IoBuffer(minCap, rx.Contents());
      } else {
        if rx.size > 0 && rx.head != 0 {
          forall i | 0 <= i < rx.size {
            rx.data[i] := rx.data[rx.head + i];
          }
        }
        rx.head := 0;
      }
    }

    // A datagram leaves the front of the unread bytes `s`
    ghost method Record(s: Bytes, hdr: nat, size: nat)
      requires Reading(Net().inbound, Net().taken, mark, delivered, false, s, maxSize)
      requires NextFrame(s, maxSize) == Whole(hdr, size)
      modifies this`mark, this`delivered
      ensures hdr + size <= |s|
      ensures Reading(Net().inbound, Net().taken, mark, delivered, false, s[hdr + size..], maxSize)
      ensures delivered == old(delivered) + [s[hdr..hdr + size]]
    {
      hide NextFrame, Splits;
      ReadingNext(Net().inbound, Net().taken, mark, delivered, s, maxSize);
      mark := mark + hdr + size;
      delivered := delivered + [Payload(s, Whole(hdr, size))];
    }

    // process_rx, with the ghost record of what it extracts
    method Extract(buf: array<Byte>, len: nat) returns (r: int, dgmSize: nat)
      requires Mid() && rx != null
      requires maxSize <= len <= buf.Length && buf !in Repr
      modifies this`mark, this`delivered, rx, buf
      ensures Mid()
      ensures match NextFrame(old(rx.Contents()), maxSize)
              case Malformed => r == -1 && delivered == old(delivered)
              case Incomplete =>
                r == 0 && dgmSize <= maxSize && delivered == old(delivered) &&
                rx.Contents() == old(rx.Contents())
              case Whole(hdr, size) =>
                r == hdr && dgmSize == size && rx.size == old(rx.size) - (hdr + size) &&
                buf[..size] == old(rx.Contents())[hdr..hdr + size] &&
                (!failed ==> delivered == old(delivered) + [buf[..size]])
      ensures r <= 0 ==> rx.head == old(rx.head) && rx.size == old(rx.size)
    {
      hide NextFrame, Splits, Reading, AtxPipe.Valid, ParseHeader;
      ghost var s := rx.Contents();
      r, dgmSize := ProcessRx(buf, len);
      if r > 0 && !failed {
        Record(s, r, dgmSize);
      } else if r > 0 {
        ReadingGivenUp(Net().inbound, Net().taken, mark, delivered, s, rx.Contents(), maxSize);
      }
    }

    // How much there is to read, wire and buffer together
    ghost function Work(): nat
      requires rx != null ==> rx.Valid()
      requires Net().Valid()
      reads this, io.io.sk, rx, if rx == null then {} else {rx.data}
    {
      2 * (|Net().inbound| - Net().taken) + |Unread()|
    }

    // The common way out of recv
    method Pass()
      requires Mid() && rx != null
      modifies this`rx, this`base
      ensures Mid() && base == io.base && Unread() == old(Unread())
      ensures rx == null || (rx == old(rx) && rx.size > 0)
    {
      hide NextFrame, Splits, Reading;
      if rx.size == 0 {
        rx := null;
      }
      base := io.base;
    }

    // The other way out: the stream makes no sense
    method Fail()
      requires Mid()
      modifies this`rx, this`base, this`failed
      ensures Mid() && rx == null && failed && base == Broken(old(base))
    {
      hide NextFrame, Splits;
      rx := null;
      failed := true;
      base := Broken(base);
    }

    // The peer is well-behaved
    ghost predicate HonestPeer()
      reads io.io.sk
    {
      Honest(Net().inbound, Net().inFin, maxSize)
    }

    // What follows for the bytes at hand
    lemma HonestUnread()
      requires rx != null && rx.Valid() && Accounted() && !failed && HonestPeer()
      ensures !NextFrame(rx.Contents(), maxSize).Malformed?
      ensures NextFrame(rx.Contents(), maxSize).Whole? ==> NextFrame(rx.Contents(), maxSize).size > 0
      ensures NextFrame(rx.Contents(), maxSize).Incomplete? && Net().AtEnd() ==> rx.size == 0
    {
      HonestRest(Net().inbound, Net().inFin, mark, Net().taken, delivered, maxSize);
    }

    // process_rx and what follows from it: a datagram is passed on, and a bad
    // one is the end.  The result is 0 if there is neither.
    method Digest(buf: array<Byte>, len: nat) returns (r: int, dgmSize: nat)
      requires Mid() && rx != null
      requires maxSize <= len <= buf.Length && buf !in Repr
      modifies this`rx, this`base, this`failed, this`mark, this`delivered, rx, buf
      ensures Mid() && (rx == old(rx) || rx == null)
      ensures match NextFrame(old(rx.Contents()), maxSize)
              case Malformed =>
                r < 0 && failed && rx == null && base == Broken(old(base)) && delivered == old(delivered)
              case Incomplete =>
                r == 0 && dgmSize <= len && rx == old(rx) && Unread() == old(Unread()) &&
                failed == old(failed) && base == old(base) && delivered == old(delivered)
              case Whole(hdr, size) =>
                r > 0 && dgmSize == size && failed == old(failed) && base == io.base &&
                Work() < old(Work()) && buf[..size] == old(rx.Contents())[hdr..hdr + size] &&
                (!failed ==> delivered == old(delivered) + [buf[..size]])
      ensures r != 0 && rx != null ==> rx.size > 0
      ensures r != 0 && old(Valid()) ==> Valid()
      ensures HonestPeer() && !old(failed) ==> r >= 0 && (r > 0 ==> dgmSize > 0)
    {
      hide NextFrame, Splits, Reading, Frames, Honest;
      if HonestPeer() && !failed {
        HonestUnread();
      }
      r, dgmSize := Extract(buf, len);
      if r < 0 {
        Fail();
      } else if r > 0 {
        Pass();
      }
    }

    // A buffer with space behind the unread bytes
    method MakeRoom(len: nat)
      requires Mid() && maxSize <= len
      requires rx != null ==> NextFrame(rx.Contents(), maxSize).Incomplete?
      modifies this`rx, this`Repr, rx, if rx == null then {} else {rx.data}
      ensures Mid() && fresh(Repr - old(Repr)) && rx != null && Unread() == old(Unread())
      ensures rx.head == 0 && rx.size < rx.data.Length
      ensures rx.data.Length >= MAX_HDR_SIZE + len
      ensures NextFrame(rx.Contents(), maxSize).Incomplete?
      ensures rx == old(rx) || (fresh(rx) && fresh(rx.data))
    {
      hide NextFrame, Splits, Reading, Frames, AtxPipe.Valid;
      if rx != null {
        IncompleteIsShort(rx.Contents(), maxSize);
        AdjustRx(MAX_HDR_SIZE + len);
      } else {
        NothingIsIncomplete(maxSize);
        rx := new IoBuffer(MAX_HDR_SIZE + len, []);
      }
      Repr := Repr + {rx, rx.data};
    }

    // With what was just read: a datagram, or not enough data
    method DigestMore(buf: array<Byte>, len: nat) returns (r: int)
      requires Mid() && rx != null && io.base.readable && !io.base.finRcvd
      requires maxSize <= len <= buf.Length && buf !in Repr
      modifies this`rx, this`base, this`failed, this`mark, this`delivered, rx, buf
      ensures Valid() && r <= len && Work() <= old(Work())
      ensures !old(failed) ==>
                Answered(old(rx.Contents()), maxSize, r, buf[..], failed, old(delivered), delivered,
                         old(io.base.finRcvd), io.base.finRcvd)
      ensures failed != old(failed) ==> base.broken && r < 0
      ensures !failed ==> base == io.base
      ensures HonestPeer() && !old(failed) ==> !failed && r != 0
    {
      hide NextFrame, Splits, Reading, Frames, Honest, AtxPipe.Valid;
      var dgmSize;
      r, dgmSize := Digest(buf, len);
      if r > 0 {
        assert buf[..][..dgmSize] == buf[..dgmSize];
        r := dgmSize;
      } else if r == 0 {
        Pass();
        r := -1;
      }
    }

    // Read on, and try again
    method RecvMore(buf: array<Byte>, len: nat) returns (r: int)
      requires Mid() && rx != null && rx.head == 0 && rx.size < rx.data.Length
      requires maxSize <= len <= buf.Length && buf !in Repr
      requires NextFrame(rx.Contents(), maxSize).Incomplete?
      requires !failed && io.base.finRcvd ==> rx.size == 0
      modifies this`rx, this`base, this`failed, this`mark, this`delivered, rx, rx.data, buf
      modifies io`base, io.io, io.io.sk
      ensures Valid() && r <= len
      ensures !old(failed) ==>
                Answered(old(Unread()) + NewlyTaken(old(Net()), Net()), maxSize, r, buf[..], failed,
                         old(delivered), delivered, old(io.base.finRcvd), io.base.finRcvd)
      ensures ReadFlags(old(io.base), io.base)
      ensures ReadOnce(old(Calls()), Calls())
      ensures Net() == old(Net()).(taken := Net().taken)
      ensures failed != old(failed) ==> base.broken && r < 0
      ensures !failed ==> base == io.base
      ensures !failed && r != 0 ==> io.base.finRcvd == old(io.base.finRcvd)
      ensures r >= 0 && !old(io.base.broken) ==> !io.base.broken
      ensures Work() < old(Work()) || !base.readable
      ensures HonestPeer() && !old(failed) ==> !failed && (r == 0 ==> base.finRcvd)
    {
      hide NextFrame, Splits, Reading, Frames, Honest, NewlyTaken;
      r := ReadCarrier();
      ghost var s := rx.Contents();
      assert s == old(Unread()) + NewlyTaken(old(Net()), Net());
      if HonestPeer() && !failed {
        HonestUnread();
      }
      if r < 0 {
        Pass();
      } else if r == 0 {
        if rx.size > 0 {
          Fail();
          r := -1;
        } else {
          Pass();
        }
      } else {
        r := DigestMore(buf, len);
      }
    }

    // p->io->recv() into the space behind the unread bytes
    method ReadCarrier() returns (r: int)
      requires Mid() && rx != null && rx.head == 0 && rx.size < rx.data.Length
      modifies rx, rx.data, io`base, io.io, io.io.sk
      ensures Mid()
      ensures Calls() == old(Calls()).Get(Read(old(rx.data.Length - rx.size), r))
      ensures ReadFlags(old(io.base), io.base)
      ensures Net() == old(Net()).(taken := Net().taken)
      ensures Net().taken == old(Net().taken) + if r > 0 then r else 0
      ensures rx.size == old(rx.size) + if r > 0 then r else 0
      ensures r <= 0 ==> rx.Contents() == old(rx.Contents())
      ensures rx.Contents() == old(rx.Contents()) + NewlyTaken(old(Net()), Net())
      ensures r > 0 ==> io.base.readable && !io.base.finRcvd && !old(io.base.finRcvd)
      ensures r >= 0 && !old(io.base.broken) ==> !io.base.broken
      ensures r == 0 ==> io.base.finRcvd && Net().AtEnd() && !io.base.readable
      ensures r < 0 ==> !io.base.readable && io.base.finRcvd == old(io.base.finRcvd)
    {
      hide NextFrame, Splits, Reading, Frames, ReadFlags, RecvStep, NewlyTaken;
      hide AtxPipe.Valid, AtxPipe.Inv, AtxPipe.FinSettled, TcpPipe.Valid;
      ghost var b, net, s := io.base, Net(), rx.Contents();
      io.SocketEnd();
      r := io.Recv(rx.data, rx.size, rx.data.Length - rx.size);
      ReadSeen(b, net, r, if r > 0 then rx.data[rx.size..rx.size + r] else [], io.base, Net());
      assert rx.Contents() == s;
      if r > 0 {
        Grow(r, net, s);
      }
    }

    // The carrier has put `r` more bytes behind the unread ones
    method Grow(r: nat, ghost net: Net, ghost s: Bytes)
      requires rx != null && rx.head == 0 && rx.size + r <= rx.data.Length
      requires Reading(net.inbound, net.taken, mark, delivered, failed, s, maxSize)
      requires net.taken + r <= |net.inbound| && |s| == rx.size
      requires rx.data[..rx.size] == s
      requires rx.data[rx.size..rx.size + r] == net.inbound[net.taken..net.taken + r]
      modifies rx
      ensures rx.Valid() && rx.head == 0 && rx.size == old(rx.size) + r
      ensures Reading(net.inbound, net.taken + r, mark, delivered, failed, rx.Contents(), maxSize)
    {
      hide NextFrame, Splits, Reading;
      ReadingMore(net.inbound, net.taken, mark, delivered, failed, s, r, maxSize);
      rx.size := rx.size + r;
      assert rx.Contents() == s + net.inbound[net.taken..net.taken + r];
    }

    // recv, its second part: read on, and try again
    method RecvRest(buf: array<Byte>, len: nat) returns (r: int)
      requires Mid()
      requires maxSize <= len <= buf.Length && buf !in Repr
      requires rx != null ==> NextFrame(rx.Contents(), maxSize).Incomplete?
      requires !failed && io.base.finRcvd ==> rx == null
      modifies this, rx, if rx == null then {} else {rx.data}
      modifies io`base, io.io, io.io.sk, buf
      ensures Valid() && fresh(Repr - old(Repr)) && r <= len && accepted == old(accepted)
      ensures !old(failed) ==>
                Answered(old(Unread()) + NewlyTaken(old(Net()), Net()), maxSize, r, buf[..], failed,
                         old(delivered), delivered, old(io.base.finRcvd), io.base.finRcvd)
      ensures ReadFlags(old(io.base), io.base)
      ensures ReadOnce(old(Calls()), Calls())
      ensures Net() == old(Net()).(taken := Net().taken)
      ensures failed != old(failed) ==> base.broken && r < 0
      ensures !failed ==> base == io.base
      ensures !failed && r != 0 ==> io.base.finRcvd == old(io.base.finRcvd)
      ensures r >= 0 && !old(io.base.broken) ==> !io.base.broken
      ensures Work() < old(Work()) || !base.readable
      ensures HonestPeer() && !old(failed) ==> !failed && (r == 0 ==> base.finRcvd)
    {
      hide NextFrame, Splits, Reading, Frames, Honest;
      MakeRoom(len);
      r := RecvMore(buf, len);
    }

    // dgm_pipe_recv
    method Recv(buf: array<Byte>, len: nat) returns (r: int)
      requires Valid()
      requires maxSize <= len <= buf.Length && buf !in Repr
      modifies this, buf
      modifies rx, if rx == null then {} else {rx.data}
      modifies io`base, io.io, io.io.sk
      ensures Valid() && fresh(Repr - old(Repr)) && r <= len
      ensures !old(failed) && !old(base.broken) ==>
                Answered(old(Unread()) + NewlyTaken(old(Net()), Net()), maxSize, r, buf[..], failed,
                         old(delivered), delivered, old(io.base.finRcvd), io.base.finRcvd)
      ensures accepted == old(accepted)
      ensures if old(base.broken) then
                r == -1 && base == old(base) && io.base == old(io.base) && Net() == old(Net()) &&
                delivered == old(delivered) && failed == old(failed) && Calls() == old(Calls())
              else if NextFrame(old(Unread()), maxSize).Incomplete? then
                ReadOnce(old(Calls()), Calls())
              else
                Calls() == old(Calls()) && Net() == old(Net()) && io.base == old(io.base)
      ensures ReadFlags(old(io.base), io.base)
      ensures Net() == old(Net()).(taken := Net().taken)
      ensures failed != old(failed) ==> base.broken && r < 0
      ensures !failed && !old(base.broken) ==> base == io.base
      ensures !failed && r != 0 ==> io.base.finRcvd == old(io.base.finRcvd)
      ensures r >= 0 && !old(io.base.broken) ==> !io.base.broken
      ensures Work() < old(Work()) || !base.readable || old(base.broken)
      // a well-behaved peer is never at fault, and 0 means its FIN
      ensures HonestPeer() && !old(failed) ==> !failed && (r == 0 ==> base.finRcvd)
    {
      hide NextFrame, Splits, Reading, Frames, Honest, Accounted, AtxPipe.Valid;
      if base.broken {
        return -1;
      }
      if rx != null {
        var dgmSize;
        r, dgmSize := Digest(buf, len);
        assert old(Unread()) + NewlyTaken(old(Net()), Net()) == old(Unread());
        if r != 0 {
          r := if r > 0 then dgmSize else -1;
          return;
        }
        if dgmSize > 0 && dgmSize > len {
          assert false;    // the source fails; not with room for maxSize bytes
        }
      }
      if rx == null {
        NothingIsIncomplete(maxSize);
      }
      r := RecvRest(buf, len);
    }

    // dgm_pipe_send
    method Send(data: Bytes) returns (r: int)
      requires Valid() && |data| < 0x1_0000_0000
      modifies this`base, this`accepted, this`Repr, io, io.io, io.io.sk
      ensures Valid() && fresh(Repr - old(Repr))
      ensures r == -1 || r == |data|
      ensures accepted == if r < 0 then old(accepted) else old(accepted) + [data]
      ensures io.wantFin == old(io.wantFin) && io.finAsked == old(io.finAsked)
      ensures Net() == old(Net()).(sent := Net().sent) && old(Net().sent) <= Net().sent
      ensures !old(base.writable) ==> r < 0 && base == old(base) && io.base == old(io.base)
      ensures !old(base.writable) || |data| >= 0x10000000 ==> Calls() == old(Calls()) && Net() == old(Net())
      ensures old(base.writable) && |data| < 0x10000000 && old(io.pending) == null ==>
                Tried(old(Calls()), old(Net()), Frame(data), Calls(), Net())
      ensures r >= 0 ==> base == io.base == old(io.base).(writable := io.base.writable) && |data| < 0x10000000
      ensures r < 0 && old(base.writable) && |data| < 0x10000000 ==>
                base == io.base &&
                (io.base == old(io.base).(writable := false) || io.base == Broken(old(io.base)))
      // a payload too long for the stored form only marks this pipe
      ensures r < 0 && old(base.writable) && |data| >= 0x10000000 ==>
                base == Broken(old(base)) && io.base == old(io.base)
    {
      hide NextFrame, Splits, Reading, Frames, Frame;
      hide AtxPipe.Valid, AtxPipe.Inv, AtxPipe.FinSettled, TcpPipe.Valid;
      if !base.writable {
        return -1;
      }
      var dgm := Format(data);
      if dgm == null {
        base := Broken(base);
        return -1;
      }
      r := Forward(dgm.Contents(), data);
      assert r < 0 || r == dgm.size;
      return if r > 0 then |data| else -1;
    }

    // p->io->send() of a formatted datagram
    method Forward(packet: Bytes, ghost data: Bytes) returns (r: int)
      requires Valid() && packet == Frame(data)
      modifies this`base, this`accepted, this`Repr, io, io.io, io.io.sk
      ensures Valid() && fresh(Repr - old(Repr))
      ensures r == -1 || r == |packet|
      ensures accepted == if r < 0 then old(accepted) else old(accepted) + [data]
      ensures io.wantFin == old(io.wantFin) && io.finAsked == old(io.finAsked)
      ensures Net() == old(Net()).(sent := Net().sent) && old(Net().sent) <= Net().sent
      ensures base == io.base
      ensures if old(io.pending) != null then Calls() == old(Calls()) && Net() == old(Net())
              else Tried(old(Calls()), old(Net()), packet, Calls(), Net())
      ensures r >= 0 ==> io.base == old(io.base).(writable := io.base.writable)
      ensures r < 0 ==> io.base == old(io.base).(writable := false) || io.base == Broken(old(io.base))
    {
      hide NextFrame, Splits, Reading, Frames, Frame;
      hide AtxPipe.Valid, AtxPipe.Inv, AtxPipe.FinSettled, TcpPipe.Valid, IoBuffer.Valid, IoBuffer.Contents;
      FramesSnoc(accepted, data);
      r := io.Send(packet);
      assert Accounted();
      base := io.base;
      Repr := Repr + io.Repr;
      accepted := if r > 0 then accepted + [data] else accepted;
    }

    // The formatting half of dgm_pipe_send; there is no buffer when the size
    // cannot be stored.  What is stored of it are its low 32 bits.
    method Format(data: Bytes) returns (dgm: IoBuffer?)
      ensures dgm == null <==> Low32(|data|) >= 0x10000000
      ensures dgm != null ==>
                fresh(dgm) && fresh(dgm.data) && dgm.Valid() && dgm.Contents() == Encode(Low32(|data|)) + data
      ensures dgm != null ==> (dgm.Contents() == Frame(data) <==> |data| < 0x1_0000_0000)
    {
      dgm := new IoBuffer(|data| + MAX_HDR_SIZE, []);
      var r := StoreSizeUnrolled(dgm.data, dgm.data.Length, |data|);
      if r < 0 {
        return null;
      }
      assert r + |data| <= dgm.data.Length;
      Fill(dgm, r, data);
      HeaderIsSize(data);
    }

    // The header tells the size of a payload of up to 2^32 bytes only.
    lemma HeaderIsSize(data: Bytes)
      ensures Encode(Low32(|data|)) + data == Frame(data) <==> |data| < 0x1_0000_0000
    {
      var low := Encode(Low32(|data|));
      if low + data == Frame(data) {
        assert |low| == |Encode(|data|)|;
        assert low == (low + data)[..|low|] == Encode(|data|);
        EncodeShape(|data|);
        EncodeShape(Low32(|data|));
      }
    }

    // memcpy of the payload behind the header
    method Fill(dgm: IoBuffer, hdr: nat, data: Bytes)
      requires dgm.head == 0 && hdr + |data| <= dgm.data.Length
      modifies dgm, dgm.data
      ensures dgm.Valid() && dgm.Contents() == old(dgm.data[..hdr]) + data
    {
      forall i | 0 <= i < |data| {
        dgm.data[hdr + i] := data[i];
      }
      dgm.size := hdr + |data|;
      assert dgm.data[..hdr] == old(dgm.data[..hdr]);
      assert dgm.data[hdr..hdr + |data|] == data;
    }

    // dgm_pipe_send_fin
    method SendFin() returns (r: int)
      requires Valid() && !io.base.finSent && !io.wantFin
      modifies this`base, io, io.io, io.io.sk
      ensures Valid() && io.pending == old(io.pending)
      ensures base == io.base
      ensures if io.pending != null then r == 0 && io.wantFin && io.base == old(io.base) && Net() == old(Net()) &&
                                       Calls() == old(Calls())
              else !io.wantFin && FinStep(old(io.base), old(Net()), r, io.base, Net()) &&
                   Calls() == old(Calls()).Put(Closed(r))
    {
      hide NextFrame, Splits, Reading, Frames;
      r := io.SendFin();
      base := io.base;
    }

    // dgm_pipe_on_activity, up to its tail call
    method OnActivity()
      modifies this`base
      ensures base == io.base
    {
      base := io.base;
    }

    // The callbacks of all three layers.  `called` tells if this one was.
    method OnSocket(sk: SkEvents) returns (called: bool, e: IoEvents)
      requires Valid() && EventExpected(io.base, sk)
      modifies this`base, io.Repr
      ensures Valid()
      ensures io.wantFin == old(io.wantFin)
      ensures Net() == old(Net()).(sent := Net().sent, shut := Net().shut) && old(Net().sent) <= Net().sent
      ensures !io.wantFin || io.pending != null || old(io.pending) == null ==> Net().shut == old(Net().shut)
      ensures called <==> e != NOTHING
      ensures called ==> base == io.base
      ensures !called ==> base == old(base)
      ensures (!io.wantFin || io.pending != null || old(io.pending) == null) && !called ==> io.base == old(io.base)
      ensures EventTaken(sk, io.base)
      ensures sk.writable && old(io.pending) == null ==> io.base.writable || io.base.broken
      ensures !sk.writable || old(io.pending) == null ==> Calls() == old(Calls())
      ensures sk.writable && old(io.pending) != null && (old(io.base.ready) || !io.base.broken) ==>
                PutMore(old(Calls()), Calls(), if io.wantFin && io.pending == null then 2 else 1)
      ensures Calls().gets == old(Calls()).gets && |old(Calls()).puts| <= |Calls().puts|
      ensures (e.readable ==> sk.readable) && (e.writable ==> sk.writable)
      ensures (io.pending == null || io.pending == old(io.pending)) && Unread() == old(Unread())
      ensures (!io.wantFin || io.pending != null || old(io.pending) == null) && !old(io.base.broken) ==>
                EventSeen(old(io.base), e, io.base)
      ensures EventKept(old(io.base), io.base)
      // when a deferred FIN is all there is to it, nobody above is told: this
      // pipe's own bits stay as they were
      ensures old(io.base.ready) && io.wantFin && old(io.pending) != null && io.pending == null ==>
                e == IoEvents(false, !io.base.finSent, sk.readable, false) &&
                (io.base.finSent && !sk.readable ==> !called && base == old(base))
    {
      hide NextFrame, Splits, Reading, Frames, AtxPipe.Valid, AtxPipe.Inv, AtxPipe.FinSettled, TcpPipe.Valid;
      io.Footprint();
      e := io.OnSocket(sk);
      io.Footprint();
      called := e != NOTHING;
      if called {
        OnActivity();
      }
    }

    // The network brings more bytes, or FIN
    method Deliver(data: Bytes, fin: bool)
      requires Valid() && !Net().inFin
      modifies io.io.sk
      ensures Valid() && Net() == old(Net()).(inbound := old(Net()).inbound + data, inFin := fin)
      ensures Calls() == old(Calls())
    {
      hide NextFrame, Splits, Frames, Reading;
      ReadingLater(Net().inbound, Net().taken, mark, delivered, failed, Unread(), data, maxSize);
      io.io.sk.Deliver(data, fin);
    }

    // If all of it was read, and what is at hand is not a datagram, then all of
    // it was delivered.
    lemma AllDelivered(ms: seq<Bytes>)
      requires Valid() && Live() && !base.broken && !base.readable
      requires Payloads(ms, maxSize) && Net().inbound == Frames(ms) && Net().taken == |Net().inbound|
      ensures delivered == ms
    {
      var s, n := Net().inbound, |Net().inbound|;
      assert Reading(s, n, mark, delivered, failed, Unread(), maxSize);
      assert HonestBy(s, false, ms, maxSize);
      HonestSplit(s[..mark], delivered, ms, maxSize);
      assert HonestBy(s, true, ms, maxSize);
      HonestLeft(s, true, ms, mark, n, delivered, maxSize);
      var rest := ms[|delivered|..];
      if rest != [] {
        FrontOfFrame(rest[0], Frames(rest[1..]), Unread(), maxSize);
      }
      assert ms == delivered + rest;
    }

    // What was delivered, if the stream is made of the datagrams `ms`
    lemma DeliveredOf(ms: seq<Bytes>)
      requires Valid() && Payloads(ms, maxSize) && Net().inbound <= Frames(ms)
      ensures delivered <= ms
      ensures !failed && io.base.finRcvd && Net().inbound == Frames(ms) ==> delivered == ms
    {
      var inbound := Net().inbound;
      assert Reading(inbound, Net().taken, mark, delivered, failed, Unread(), maxSize);
      assert inbound[..mark] <= Frames(ms);
      HonestSplit(inbound[..mark], delivered, ms, maxSize);
      if !failed && io.base.finRcvd && inbound == Frames(ms) {
        assert inbound[mark..Net().taken] == [];
        assert mark == |inbound|;
        assert inbound[..mark] == Frames(ms);
      }
    }
  }

  // Datagram delivery.  One datagram pipe sends, another one receives, and the
  // network carries bytes in order, as many at a time as it likes.  Then the
  // receiver has returned the first of the payloads that were accepted, each
  // one whole; after FIN, all of them; and it never found fault with the stream.
  lemma DatagramDelivery(a: DgmPipe, b: DgmPipe)
    requires a.Valid() && b.Valid() && Payloads(a.accepted, b.maxSize)
    requires b.Net().inbound <= a.Net().sent
    requires b.Net().inFin ==> a.Net().shut && b.Net().inbound == a.Net().sent
    ensures b.delivered <= a.accepted
    ensures !b.failed && b.io.base.finRcvd ==> b.delivered == a.accepted
    ensures b.HonestPeer()
  {
    hide NextFrame, Splits, Frames, Reading;
    assert a.Net().sent <= Frames(a.accepted) by {
      assert a.Net().sent == a.io.accepted[..|a.Net().sent|];
    }
    assert a.Net().shut ==> a.Net().sent == Frames(a.accepted);
    b.DeliveredOf(a.accepted);
    assert HonestBy(b.Net().inbound, b.Net().inFin, a.accepted, b.maxSize);
  }
}
