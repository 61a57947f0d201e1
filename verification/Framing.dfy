// What the wire format of the datagram pipe means, apart from any code that
// reads or writes it: a datagram is its size in the stored form followed by its
// payload, and a stream is a run of datagrams with nothing in between.
module Framing {
  import opened Serialize

  type Bytes = seq<Byte>

  // The verdict of process_rx on the front of a receive buffer
  datatype Next =
    | Incomplete                      // no enough header or payload: 0
    | Malformed                       // bad header, or a size over the limit: -1
    | Whole(hdr: nat, size: nat)      // a datagram is at the front

  function NextFrame(s: Bytes, max: nat): (n: Next)
    ensures n.Whole? ==> n.hdr >= 1 && n.hdr + n.size <= |s| && n.size <= max
  {
    match ParseHeader(s)
    case Bad => Malformed
    case Need => Incomplete
    case Got(hdr, size) =>
      if size > max then Malformed
      else if hdr + size > |s| then Incomplete
      else Whole(hdr, size)
  }

  function Payload(s: Bytes, n: Next): (m: Bytes)
    requires n.Whole? && n.hdr + n.size <= |s|
    ensures |m| == n.size
  {
    s[n.hdr..n.hdr + n.size]
  }

  // `s` is cut, front to back, into whole datagrams that carry `ms`
  ghost predicate Splits(s: Bytes, ms: seq<Bytes>, max: nat)
    decreases |ms|
  {
    if ms == [] then s == []
    else
      var n := NextFrame(s, max);
      n.Whole? && ms[0] == Payload(s, n) && Splits(s[n.hdr + n.size..], ms[1..], max)
  }

  // The sender's side
  function Frame(m: Bytes): (s: Bytes)
    ensures |s| > |m|
  {
    Encode(|m|) + m
  }

  function Frames(ms: seq<Bytes>): Bytes {
    if ms == [] then [] else Frame(ms[0]) + Frames(ms[1..])
  }

  function Concat(ms: seq<Bytes>): Bytes {
    if ms == [] then [] else ms[0] + Concat(ms[1..])
  }

  // The payloads the format is meant for: a zero-length datagram cannot be told
  // from FIN by the receiver, and a size of 2^28 or more cannot be stored.
  ghost predicate Payloads(ms: seq<Bytes>, max: nat) {
    forall m <- ms :: 0 < |m| <= max && |m| < 0x10000000
  }

  // What a well-behaved peer has put on the wire so far: a front part of the
  // datagrams it will have sent, and all of them by the time of its FIN.
  ghost predicate Honest(s: Bytes, fin: bool, max: nat) {
    exists ms: seq<Bytes> :: HonestBy(s, fin, ms, max)
  }

  ghost predicate HonestBy(s: Bytes, fin: bool, ms: seq<Bytes>, max: nat) {
    Payloads(ms, max) && s <= Frames(ms) && (fin ==> s == Frames(ms))
  }

  // However far it is read, no zero-length datagram comes out of the stream.
  ghost predicate NoEmptyDatagram(s: Bytes, max: nat) {
    forall k: nat, ds: seq<Bytes> :: k <= |s| && Splits(s[..k], ds, max) ==> [] !in ds
  }

  // ---------------------------------------------------------------------

  lemma {:induction false} FramesSnoc(ms: seq<Bytes>, m: Bytes)
    ensures Frames(ms + [m]) == Frames(ms) + Frame(m)
  {
    if ms == [] {
      assert [m][1..] == [];
    } else {
      assert (ms + [m])[1..] == ms[1..] + [m];
      FramesSnoc(ms[1..], m);
    }
  }

  lemma {:induction false} ConcatSnoc(ms: seq<Bytes>, m: Bytes)
    ensures Concat(ms + [m]) == Concat(ms) + m
  {
    if ms == [] {
      assert [m][1..] == [];
    } else {
      assert (ms + [m])[1..] == ms[1..] + [m];
      ConcatSnoc(ms[1..], m);
    }
  }

  lemma {:induction false} ConcatPrefix(ds: seq<Bytes>, ms: seq<Bytes>)
    requires ds <= ms
    ensures Concat(ds) <= Concat(ms)
  {
    if ds != [] {
      ConcatPrefix(ds[1..], ms[1..]);
    }
  }

  // More bytes behind a whole datagram do not change it.
  lemma WholeIsStable(s: Bytes, t: Bytes, max: nat)
    requires NextFrame(s, max).Whole?
    ensures NextFrame(s + t, max) == NextFrame(s, max)
    ensures Payload(s + t, NextFrame(s, max)) == Payload(s, NextFrame(s, max))
  {
    GotIsStable(s, t);
  }

  // Cutting one more datagram off the rest of the stream
  lemma {:induction false} SplitsSnoc(s: Bytes, ms: seq<Bytes>, rest: Bytes, max: nat)
    requires Splits(s, ms, max)
    requires NextFrame(rest, max).Whole?
    ensures var n := NextFrame(rest, max);
            Splits(s + rest[..n.hdr + n.size], ms + [Payload(rest, n)], max)
    decreases |ms|
  {
    hide NextFrame, Payload;
    var n := NextFrame(rest, max);
    var cut := rest[..n.hdr + n.size];
    if ms == [] {
      WholeIsPrefixStable(rest, max);
      assert s + cut == cut;
      assert cut[n.hdr + n.size..] == [];
    } else {
      var m := NextFrame(s, max);
      WholeIsStable(s, cut, max);
      assert (s + cut)[m.hdr + m.size..] == s[m.hdr + m.size..] + cut;
      assert (ms + [Payload(rest, n)])[1..] == ms[1..] + [Payload(rest, n)];
      SplitsSnoc(s[m.hdr + m.size..], ms[1..], rest, max);
    }
  }

  lemma WholeIsPrefixStable(s: Bytes, max: nat)
    requires NextFrame(s, max).Whole?
    ensures var n := NextFrame(s, max);
            var cut := s[..n.hdr + n.size];
            NextFrame(cut, max) == n && Payload(cut, n) == Payload(s, n)
  {
    var n := NextFrame(s, max);
    var cut := s[..n.hdr + n.size];
    ContinuedIs(cut, n.hdr - 1);
    assert cut[..n.hdr] == s[..n.hdr];
  }

  // A stored datagram at the front of a stream is read as what it is.
  lemma FrameIsWhole(m: Bytes, tail: Bytes, max: nat)
    requires |m| <= max && |m| < 0x10000000
    ensures NextFrame(Frame(m) + tail, max) == Whole(|Encode(|m|)|, |m|)
    ensures Payload(Frame(m) + tail, Whole(|Encode(|m|)|, |m|)) == m
  {
    RoundTrip(|m|, m + tail);
    assert Frame(m) + tail == Encode(|m|) + (m + tail);
  }

  // What was framed can be read back, with the boundaries in place.
  lemma {:induction false} FramesSplit(ms: seq<Bytes>, max: nat)
    requires Payloads(ms, max)
    ensures Splits(Frames(ms), ms, max)
    decreases |ms|
  {
    if ms != [] {
      FrameIsWhole(ms[0], Frames(ms[1..]), max);
      assert Frames(ms)[|Frame(ms[0])|..] == Frames(ms[1..]);
      FramesSplit(ms[1..], max);
    }
  }

  lemma WholeInLonger(a: Bytes, b: Bytes, max: nat)
    requires a <= b && NextFrame(a, max).Whole?
    ensures NextFrame(b, max) == NextFrame(a, max) && Payload(b, NextFrame(a, max)) == Payload(a, NextFrame(a, max))
  {
    hide NextFrame, Payload;
    assert b == a + b[|a|..];
    WholeIsStable(a, b[|a|..], max);
  }

  lemma CutBoth(a: Bytes, b: Bytes, cut: nat)
    requires a <= b && cut <= |a|
    ensures a[..cut] == b[..cut] && a[cut..] <= b[cut..]
  {
  }

  lemma SplitsCons(s: Bytes, ms: seq<Bytes>, max: nat)
    requires Splits(s, ms, max) && ms != []
    ensures var n := NextFrame(s, max);
            n.Whole? && ms[0] == Payload(s, n) && Splits(s[n.hdr + n.size..], ms[1..], max)
  {
  }

  // A datagram whole in the shorter of two readings is the same in the longer.
  lemma SplitsHead(a: Bytes, ds: seq<Bytes>, b: Bytes, es: seq<Bytes>, max: nat)
    requires a <= b
    requires Splits(a, ds, max) && Splits(b, es, max)
    requires ds != []
    ensures es != [] && ds[0] == es[0]
    ensures var n := NextFrame(a, max);
            n.Whole? && NextFrame(b, max) == n &&
            Splits(a[n.hdr + n.size..], ds[1..], max) && Splits(b[n.hdr + n.size..], es[1..], max)
  {
    hide NextFrame, Payload, Splits;
    SplitsCons(a, ds, max);
    WholeInLonger(a, b, max);
    if es == [] {
      SplitsNone(b, max);
    }
    SplitsCons(b, es, max);
  }

  // Any two readings of one stream agree as far as the shorter one goes: the
  // datagrams a stream carries do not depend on how it was chopped up.
  lemma {:induction false} SplitsAgree(a: Bytes, ds: seq<Bytes>, b: Bytes, es: seq<Bytes>, max: nat)
    requires a <= b
    requires Splits(a, ds, max) && Splits(b, es, max)
    ensures ds <= es
    ensures ds == es ==> a == b
    decreases |ds|
  {
    hide NextFrame, Splits;
    if ds == [] {
      SplitsNone(a, max);
      SplitsNone(b, max);
    } else {
      SplitsHead(a, ds, b, es, max);
      var n := NextFrame(a, max);
      var cut := n.hdr + n.size;
      CutBoth(a, b, cut);
      SplitsAgree(a[cut..], ds[1..], b[cut..], es[1..], max);
      if ds == es {
        assert a == a[..cut] + a[cut..] == b[..cut] + b[cut..] == b;
      }
    }
  }

  lemma SplitsNone(s: Bytes, max: nat)
    ensures Splits(s, [], max) <==> s == []
  {
  }

  // Datagrams cut off a stream of framed payloads are the first of them.
  lemma HonestSplit(s: Bytes, ds: seq<Bytes>, ms: seq<Bytes>, max: nat)
    requires Payloads(ms, max) && s <= Frames(ms)
    requires Splits(s, ds, max)
    ensures ds <= ms && s == Frames(ds)
    ensures s == Frames(ms) ==> ds == ms
  {
    hide NextFrame, Splits, Frames;
    FramesSplit(ms, max);
    SplitsAgree(s, ds, Frames(ms), ms, max);
    FramesSplit(ds, max);
    assert ms == ds + ms[|ds|..];
    FramesAppend(ds, ms[|ds|..]);
    if |s| <= |Frames(ds)| {
      SplitsAgree(s, ds, Frames(ds), ds, max);
    } else {
      SplitsAgree(Frames(ds), ds, s, ds, max);
    }
    if s == Frames(ms) {
      SplitsAgree(Frames(ms), ms, s, ds, max);
    }
  }

  lemma {:induction false} FramesAppend(ds: seq<Bytes>, es: seq<Bytes>)
    ensures Frames(ds + es) == Frames(ds) + Frames(es)
  {
    if ds == [] {
      assert ds + es == es;
    } else {
      assert (ds + es)[1..] == ds[1..] + es;
      FramesAppend(ds[1..], es);
    }
  }

  // What is left of an honest stream behind the datagrams already cut off is a
  // front part of the datagrams still to come.
  lemma HonestLeft(s: Bytes, fin: bool, ms: seq<Bytes>, k: nat, e: nat, ds: seq<Bytes>, max: nat)
    requires HonestBy(s, fin, ms, max)
    requires k <= e <= |s| && Splits(s[..k], ds, max)
    ensures |ds| <= |ms| && Payloads(ms[|ds|..], max)
    ensures s[k..e] <= Frames(ms[|ds|..])
    ensures fin && e == |s| ==> s[k..e] == Frames(ms[|ds|..])
  {
    hide NextFrame, Splits, Frames;
    HonestSplit(s[..k], ds, ms, max);
    assert ms == ds + ms[|ds|..];
    FramesAppend(ds, ms[|ds|..]);
    assert s[k..e] == s[..e][k..];
    assert s[..e] == Frames(ms)[..e];
  }

  // So it is never malformed; a whole datagram in it has a nonempty payload;
  // and at the end of the stream there is no half of a datagram.
  lemma HonestRest(s: Bytes, fin: bool, k: nat, e: nat, ds: seq<Bytes>, max: nat)
    requires Honest(s, fin, max)
    requires k <= e <= |s| && Splits(s[..k], ds, max)
    ensures var n := NextFrame(s[k..e], max);
            !n.Malformed? &&
            (n.Whole? ==> n.size > 0) &&
            (n.Incomplete? && fin && e == |s| ==> k == e)
  {
    var ms: seq<Bytes> :| HonestBy(s, fin, ms, max);
    HonestLeft(s, fin, ms, k, e, ds, max);
    var left, rest := ms[|ds|..], s[k..e];
    if left == [] {
      assert rest == [];
    } else {
      FrontOfFrame(left[0], Frames(left[1..]), rest, max);
    }
  }

  // A front part of a datagram and what follows it
  lemma FrontOfFrame(m: Bytes, tail: Bytes, s: Bytes, max: nat)
    requires 0 < |m| <= max && |m| < 0x10000000
    requires s <= Frame(m) + tail
    ensures NextFrame(s, max) == if |s| < |Frame(m)| then Incomplete else Whole(|Encode(|m|)|, |m|)
  {
    var e := Encode(|m|);
    if |s| < |e| {
      assert s == e[..|s|];
      StrictPrefixIsIncomplete(|m|, |s|);
    } else {
      assert s == e + s[|e|..];
      RoundTrip(|m|, s[|e|..]);
    }
  }

  lemma HonestHasNoEmpty(s: Bytes, fin: bool, max: nat)
    requires Honest(s, fin, max)
    ensures NoEmptyDatagram(s, max)
  {
    var ms: seq<Bytes> :| HonestBy(s, fin, ms, max);
    forall k: nat, ds: seq<Bytes> | k <= |s| && Splits(s[..k], ds, max)
      ensures [] !in ds
    {
      HonestSplit(s[..k], ds, ms, max);
    }
  }
}
