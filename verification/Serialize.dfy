// The 7-bit size codec of src/io/src/io_serialize.c.
//
// A size is cut into groups of seven bits, least significant group first, and
// every byte but the last has its top bit set.  This is the unsigned LEB128
// form of the DWARF Version 4 standard (section 7.6), cut to 28 bits on store.
//
// Machine words are naturals here.  `val & mask`, for a mask of consecutive
// ones, is rendered as "those bits, shifted down, are not all zero".
module Serialize {

  type Byte = x: int | 0 <= x < 256

  // What io_parse_size can say about the front of a byte sequence
  datatype Header =
    | Need                        // ran out of data: 0
    | Bad                         // invalid data: -1
    | Got(len: nat, size: nat)    // `len` bytes hold the value `size`

  // ---------------------------------------------------------------------
  // Reference definitions

  function Pow128(n: nat): (p: nat)
    ensures p >= 1
  {
    if n == 0 then 1 else 128 * Pow128(n - 1)
  }

  // The number that a run of 7-bit groups stands for
  function ValueOf(s: seq<Byte>): nat {
    if s == [] then 0 else s[0] % 128 + 128 * ValueOf(s[1..])
  }

  // How many leading bytes have the continuation bit
  function Continued(s: seq<Byte>): (n: nat)
    ensures n <= |s|
    ensures forall i :: 0 <= i < n ==> s[i] >= 128
    ensures n < |s| ==> s[n] < 128
  {
    if s == [] || s[0] < 128 then 0 else 1 + Continued(s[1..])
  }

  // The header rule, stated on the whole sequence at once: the group that ends
  // the header is the first one without the continuation bit; it must be among
  // the first four, or be the fifth and leave the value below 2^32.
  function ParseHeader(s: seq<Byte>): Header {
    var n := Continued(s);
    if n == |s| then
      if n < 4 then Need else Bad
    else if n < 4 || (n == 4 && s[4] < 16) then
      Got(n + 1, ValueOf(s[..n + 1]))
    else
      Bad
  }

  // The canonical stored form: as few groups as the value needs
  function Encode(v: nat): (s: seq<Byte>)
    ensures 1 <= |s|
    ensures |s| <= 1 <==> v < 0x80
    ensures |s| <= 2 <==> v < 0x4000
    ensures |s| <= 3 <==> v < 0x200000
    ensures |s| <= 4 <==> v < 0x10000000
  {
    if v < 128 then [v] else [128 + v % 128] + Encode(v / 128)
  }

  // ---------------------------------------------------------------------
  // The code

  // io_store_size_unrolled: emits the canonical form, or refuses and leaves
  // the buffer alone.  Its masks see the low 32 bits only, and so a size of
  // 2^32 or more is stored, or refused, as if those bits were all of it.
  method StoreSizeUnrolled(buf: array<Byte>, len: nat, val: nat) returns (r: int)
    requires len <= buf.Length
    modifies buf
    ensures var low := Low32(val);
            && r == (if low < 0x10000000 && |Encode(low)| <= len then |Encode(low)| else -1)
            && (r < 0 ==> buf[..] == old(buf[..]))
            && (r > 0 ==> buf[..r] == Encode(low) && buf[r..] == old(buf[r..]))
  {
    hide Low32, Encode, WithTopBit, LowByte;
    MasksAreThresholds(val);
    LowBytes(val);
    if val / 0x10000000 % 0x10 != 0 {     // val & 0xF0000000
      return -1;
    }

    var v := val;

    if val / 0x200000 % 0x80 != 0 {       // val & 0x0FE00000
      if len < 4 {
        return -1;
      }
      EncodeFour(Low32(val));
      buf[0] := WithTopBit(v);
      v := v / 128;
      buf[1] := WithTopBit(v);
      v := v / 128;
      buf[2] := WithTopBit(v);
      v := v / 128;
      buf[3] := LowByte(v);
      return 4;
    }

    if val / 0x4000 % 0x80 != 0 {         // val & 0x001FC000
      if len < 3 {
        return -1;
      }
      EncodeThree(Low32(val));
      buf[0] := WithTopBit(v);
      v := v / 128;
      buf[1] := WithTopBit(v);
      v := v / 128;
      buf[2] := LowByte(v);
      return 3;
    }

    if val / 0x80 % 0x80 != 0 {           // val & 0x00003F80
      if len < 2 {
        return -1;
      }
      EncodeTwo(Low32(val));
      buf[0] := WithTopBit(v);
      v := v / 128;
      buf[1] := LowByte(v);
      return 2;
    }

    if len < 1 {
      return -1;
    }
    EncodeOne(Low32(val));
    buf[0] := LowByte(v);
    return 1;
  }

  function Low32(val: nat): nat {
    val % 0x1_0000_0000
  }

  // The byte stored by `*buf++ = val | 0x80`
  function WithTopBit(val: nat): Byte {
    128 + val % 128
  }

  // The byte stored by `*buf = val`
  function LowByte(val: nat): Byte {
    val % 256
  }

  // io_store_size_generic, the loop the unrolled form was derived from.  It has
  // no 28-bit cut, and fills the buffer before it finds out that it is short.
  method StoreSizeGeneric(buf: array<Byte>, len: nat, val: nat) returns (r: int)
    requires len <= buf.Length
    modifies buf
    ensures r == if |Encode(val)| <= len then |Encode(val)| else -1
    ensures r > 0 ==> buf[..r] == Encode(val) && buf[r..] == old(buf[r..])
    ensures r < 0 ==> buf[..len] == Encode(val)[..len] && buf[len..] == old(buf[len..])
  {
    hide Encode, WithTopBit, LowByte;
    var v := val;
    r := 0;
    while r < len
      invariant 0 <= r <= len
      invariant buf[..r] + Encode(v) == Encode(val)
      invariant buf[r..] == old(buf[r..])
    {
      ghost var before := buf[..r];
      assert old(buf[r..])[1..] == old(buf[r + 1..]);
      EncodeStep(v);
      if v / 128 != 0 {                   // val & ~0x7F
        buf[r] := WithTopBit(v);
        assert buf[..r + 1] == before + [WithTopBit(v)];
        v := v / 128;
        r := r + 1;
      } else {
        buf[r] := LowByte(v);
        assert buf[..r + 1] == before + [LowByte(v)];
        return r + 1;
      }
    }
    return -1;
  }

  lemma EncodeStep(v: nat)
    ensures Encode(v) == if v / 128 != 0 then [WithTopBit(v)] + Encode(v / 128) else [LowByte(v)]
  {
  }

  // io_parse_size, over the `len` bytes from `at` on.  `ret` is what *ret is
  // set to; it is set only on success.
  method ParseSize(buf: array<Byte>, at: nat, len: nat) returns (r: int, ret: nat)
    requires at + len <= buf.Length
    ensures match ParseHeader(buf[at..at + len])
            case Need => r == 0
            case Bad => r == -1
            case Got(n, size) => r == n && ret == size
  {
    hide ValueOf, Continued, ShiftedOne, Pow128;
    ghost var s := buf[at..at + len];
    var val, off := 0, 0;
    r, ret := 0, 0;
    assert ValueOf(s[..0]) == 0 by {
      NoDigits();
    }
    while r < len
      invariant 0 <= r <= len && off == 7 * r
      invariant forall i :: 0 <= i < r ==> s[i] >= 128
      invariant val == ValueOf(s[..r])
    {
      var oct := buf[at + r];
      assert oct == s[r];
      NextDigit(s, r);
      if oct >= 128 {                     // oct & 0x80
        val := val + oct % 128 * ShiftedOne(off);
        off, r := off + 7, r + 1;
      } else {
        ContinuedIs(s, r);
        if off < 28 || (off == 28 && oct < 0x10) {
          return r + 1, val + oct * ShiftedOne(off);
        }
        return -1, 0;                     // 32-bit overflow
      }
    }
    ContinuedIs(s, r);
    return if off < 28 then 0 else -1, 0;
  }

  // 1 << off
  function ShiftedOne(off: nat): nat
    requires off % 7 == 0
  {
    Pow128(off / 7)
  }

  // ---------------------------------------------------------------------
  // Properties

  // The parser adds each group on top of the value so far; the reference
  // definition folds from the other end.
  lemma {:induction false} ValueOfSnoc(s: seq<Byte>, x: Byte)
    ensures ValueOf(s + [x]) == ValueOf(s) + x % 128 * Pow128(|s|)
  {
    if s == [] {
      assert [x][1..] == [];
    } else {
      assert (s + [x])[1..] == s[1..] + [x];
      ValueOfSnoc(s[1..], x);
      calc {
        ValueOf(s + [x]);
        s[0] % 128 + 128 * (ValueOf(s[1..]) + x % 128 * Pow128(|s| - 1));
        ValueOf(s) + 128 * (x % 128 * Pow128(|s| - 1));
        ValueOf(s) + x % 128 * (128 * Pow128(|s| - 1));
      }
    }
  }

  lemma NoDigits()
    ensures ValueOf([]) == 0
  {
  }

  lemma NextDigit(s: seq<Byte>, r: nat)
    requires r < |s|
    ensures ValueOf(s[..r + 1]) == ValueOf(s[..r]) + s[r] % 128 * ShiftedOne(7 * r)
  {
    assert s[..r + 1] == s[..r] + [s[r]];
    ValueOfSnoc(s[..r], s[r]);
  }

  lemma {:induction false} ContinuedIs(s: seq<Byte>, n: nat)
    requires n <= |s|
    requires forall i :: 0 <= i < n ==> s[i] >= 128
    requires n < |s| ==> s[n] < 128
    ensures Continued(s) == n
  {
    if n > 0 {
      ContinuedIs(s[1..], n - 1);
    }
  }

  // The four masks of the unrolled writer cut the low 32 bits into intervals.
  lemma MasksAreThresholds(val: nat)
    ensures val / 0x10000000 % 0x10 != 0 <==> Low32(val) >= 0x10000000
    ensures Low32(val) < 0x10000000 ==> (val / 0x200000 % 0x80 != 0 <==> Low32(val) >= 0x200000)
    ensures Low32(val) < 0x200000 ==> (val / 0x4000 % 0x80 != 0 <==> Low32(val) >= 0x4000)
    ensures Low32(val) < 0x4000 ==> (val / 0x80 % 0x80 != 0 <==> Low32(val) >= 0x80)
  {
    var high, low := val / 0x1_0000_0000, Low32(val);
    MaskAt28(high, low);
    MaskAt21(high, low);
    MaskAt14(high, low);
    MaskAt7(high, low);
  }

  lemma MaskAt28(high: nat, low: nat)
    ensures (0x1_0000_0000 * high + low) / 0x10000000 % 0x10 == low / 0x10000000 % 0x10
  {
    assert (0x1_0000_0000 * high + low) / 0x10000000 == 0x10 * high + low / 0x10000000;
  }

  lemma MaskAt21(high: nat, low: nat)
    ensures (0x1_0000_0000 * high + low) / 0x200000 % 0x80 == low / 0x200000 % 0x80
  {
    assert (0x1_0000_0000 * high + low) / 0x200000 == 0x800 * high + low / 0x200000;
  }

  lemma MaskAt14(high: nat, low: nat)
    ensures (0x1_0000_0000 * high + low) / 0x4000 % 0x80 == low / 0x4000 % 0x80
  {
    assert (0x1_0000_0000 * high + low) / 0x4000 == 0x40000 * high + low / 0x4000;
  }

  lemma MaskAt7(high: nat, low: nat)
    ensures (0x1_0000_0000 * high + low) / 0x80 % 0x80 == low / 0x80 % 0x80
  {
    assert (0x1_0000_0000 * high + low) / 0x80 == 0x2000000 * high + low / 0x80;
  }

  // The bytes it stores are those of the low bits.
  lemma LowBytes(val: nat)
    ensures WithTopBit(val) == WithTopBit(Low32(val)) && LowByte(val) == LowByte(Low32(val))
    ensures WithTopBit(val / 128) == WithTopBit(Low32(val) / 128)
    ensures LowByte(val / 128) == LowByte(Low32(val) / 128)
    ensures WithTopBit(val / 128 / 128) == WithTopBit(Low32(val) / 128 / 128)
    ensures LowByte(val / 128 / 128) == LowByte(Low32(val) / 128 / 128)
    ensures LowByte(val / 128 / 128 / 128) == LowByte(Low32(val) / 128 / 128 / 128)
  {
    hide WithTopBit, LowByte;
    var high, low := val / 0x1_0000_0000, Low32(val);
    NextGroup(0x1000000 * high, low);
    NextGroup(0x20000 * high, low / 128);
    NextGroup(0x400 * high, low / 128 / 128);
    NextGroup(0x8 * high, low / 128 / 128 / 128);
  }

  lemma NextGroup(h: nat, x: nat)
    ensures WithTopBit(256 * h + x) == WithTopBit(x) && LowByte(256 * h + x) == LowByte(x)
    ensures (256 * h + x) / 128 == 2 * h + x / 128
  {
  }

  lemma EncodeOne(v: nat)
    requires v < 0x80
    ensures Encode(v) == [LowByte(v)]
  {
  }

  lemma EncodeTwo(v: nat)
    requires 0x80 <= v < 0x4000
    ensures Encode(v) == [WithTopBit(v), LowByte(v / 128)]
  {
  }

  lemma EncodeThree(v: nat)
    requires 0x4000 <= v < 0x200000
    ensures Encode(v) == [WithTopBit(v), WithTopBit(v / 128), LowByte(v / 128 / 128)]
  {
    EncodeTwo(v / 128);
  }

  lemma EncodeFour(v: nat)
    requires 0x200000 <= v < 0x10000000
    ensures Encode(v) ==
            [WithTopBit(v), WithTopBit(v / 128), WithTopBit(v / 128 / 128), LowByte(v / 128 / 128 / 128)]
  {
    EncodeThree(v / 128);
  }

  lemma ValueOfCons(x: Byte, s: seq<Byte>)
    ensures ValueOf([x] + s) == x % 128 + 128 * ValueOf(s)
  {
    assert ([x] + s)[1..] == s;
  }

  lemma {:induction false} EncodeShape(v: nat)
    ensures forall i :: 0 <= i < |Encode(v)| - 1 ==> Encode(v)[i] >= 128
    ensures Encode(v)[|Encode(v)| - 1] < 128
    ensures ValueOf(Encode(v)) == v
  {
    if v < 128 {
      assert [v][1..] == [];
    } else {
      var rest := Encode(v / 128);
      EncodeShape(v / 128);
      ValueOfCons(128 + v % 128, rest);
    }
  }

  // Round trip: whatever follows, parsing a stored size gives it back.
  lemma RoundTrip(v: nat, tail: seq<Byte>)
    requires v < 0x10000000
    ensures ParseHeader(Encode(v) + tail) == Got(|Encode(v)|, v)
  {
    hide Encode, Continued, ValueOf;
    var e := Encode(v);
    EncodeShape(v);
    ContinuedIs(e + tail, |e| - 1);
    assert (e + tail)[..|e|] == e;
  }

  // A stored size that has not fully arrived is never mistaken for anything.
  lemma StrictPrefixIsIncomplete(v: nat, k: nat)
    requires v < 0x10000000
    requires k < |Encode(v)|
    ensures ParseHeader(Encode(v)[..k]) == Need
  {
    EncodeShape(v);
    ContinuedIs(Encode(v)[..k], k);
  }

  // Nothing shorter stores the same value: any accepted header for v is at
  // least as long as the canonical one.
  lemma {:induction false} CanonicalIsShortest(s: seq<Byte>)
    requires s != []
    requires forall i :: 0 <= i < |s| - 1 ==> s[i] >= 128
    requires s[|s| - 1] < 128
    ensures |Encode(ValueOf(s))| <= |s|
  {
    if |s| == 1 {
      assert s[1..] == [];
    } else {
      CanonicalIsShortest(s[1..]);
      assert ValueOf(s) / 128 == ValueOf(s[1..]);
    }
  }

  // A verdict of success does not depend on what has arrived behind the header.
  lemma GotIsStable(s: seq<Byte>, t: seq<Byte>)
    requires ParseHeader(s).Got?
    ensures ParseHeader(s + t) == ParseHeader(s)
  {
    var n := Continued(s);
    ContinuedIs(s + t, n);
    assert (s + t)[..n + 1] == s[..n + 1];
  }

  // A verdict of failure, however, can depend on it.  The code gives up as soon
  // as four continuation bytes are all it has, yet with the fifth byte at hand
  // it may accept them.  This is exactly when:
  lemma BadIsStableIff(s: seq<Byte>, t: seq<Byte>)
    requires ParseHeader(s).Bad?
    ensures ParseHeader(s + t).Bad? <==>
              !(|s| == 4 && s[3] >= 128 && |t| > 0 && t[0] < 16)
  {
    var n := Continued(s);
    if n < |s| {
      ContinuedIs(s + t, n);
    } else {
      ContinuedAppend(s, t);
    }
  }

  lemma {:induction false} ContinuedAppend(s: seq<Byte>, t: seq<Byte>)
    requires Continued(s) == |s|
    ensures Continued(s + t) == |s| + Continued(t)
  {
    if s == [] {
      assert s + t == t;
    } else {
      assert (s + t)[1..] == s[1..] + t;
      ContinuedAppend(s[1..], t);
    }
  }

  // The same five bytes, refused when cut after the fourth and accepted whole.
  lemma BadIsNotStable()
    ensures ParseHeader([0x80, 0x80, 0x80, 0x80]) == Bad
    ensures ParseHeader([0x80, 0x80, 0x80, 0x80] + [0x01]) == Got(5, 0x10000000)
  {
    var s: seq<Byte> := [0x80, 0x80, 0x80, 0x80];
    ContinuedIs(s, 4);
    ContinuedIs(s + [1], 4);
    assert (s + [1])[..5] == [0x80] + [0x80, 0x80, 0x80, 1];
    assert ValueOf([0x80, 0x80, 0x80, 1]) == 0x200000 by {
      assert ValueOf([0x80, 1]) == 0x80;
      assert [0x80, 0x80, 1][1..] == [0x80, 1];
      assert [0x80, 0x80, 0x80, 1][1..] == [0x80, 0x80, 1];
    }
  }
}
