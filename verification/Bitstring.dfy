/** Bit strings, most significant bit first, and the bytes that carry them. */
module Bitstring {

  type byte = x: int | 0 <= x < 256
  type uint8 = byte
  type int8 = x: int | -0x80 <= x < 0x80
  type uint16 = x: int | 0 <= x < 0x1_0000
  type uint32 = x: int | 0 <= x < 0x1_0000_0000
  type int32 = x: int | -0x8000_0000 <= x < 0x8000_0000
  type uint64 = x: int | 0 <= x < 0x1_0000_0000_0000_0000

  type BitString = seq<bool>

  lemma ProductMonotonic(a: nat, b: nat, h: nat)
    requires a <= b
    ensures a * h <= b * h
  {
    assert b * h == a * h + (b - a) * h;
  }

  function Pow2(n: nat): (r: nat)
    ensures r > 0
  {
    if n == 0 then 1 else 2 * Pow2(n - 1)
  }

  lemma Pow2Values()
    ensures Pow2(8) == 0x100
    ensures Pow2(16) == 0x1_0000
    ensures Pow2(31) == 0x8000_0000
    ensures Pow2(32) == 0x1_0000_0000
  {
    assert Pow2(12) == 0x1000;
    assert Pow2(24) == 0x100_0000;
  }

  // The logical shift right of an unsigned value.
  function Shr(v: nat, n: nat): nat {
    if n == 0 then v else Shr(v, n - 1) / 2
  }

  // The n low bits of v.
  function FixedBits(v: nat, n: nat): (r: BitString)
    ensures |r| == n
  {
    if n == 0 then [] else FixedBits(v / 2, n - 1) + [v % 2 == 1]
  }

  function BitValue(b: bool): nat {
    if b then 1 else 0
  }

  // The unsigned value a bit string spells.
  function ValueOf(s: BitString): nat {
    if s == [] then 0 else 2 * ValueOf(s[..|s| - 1]) + BitValue(s[|s| - 1])
  }

  function Zeros(n: nat): (r: BitString)
    ensures |r| == n
    ensures forall k :: 0 <= k < n ==> !r[k]
  {
    if n == 0 then [] else [false] + Zeros(n - 1)
  }

  // x stands in s at position pos.
  predicate At(s: BitString, pos: nat, x: BitString) {
    pos + |x| <= |s| && s[pos..pos + |x|] == x
  }

  function ByteBits(b: byte): (r: BitString)
    ensures |r| == 8
  {
    FixedBits(b, 8)
  }

  function BytesBits(bs: seq<byte>): (r: BitString)
    ensures |r| == 8 * |bs|
  {
    if bs == [] then [] else BytesBits(bs[..|bs| - 1]) + ByteBits(bs[|bs| - 1])
  }

  // Bitwise or of b with the single bit 1 << shift.
  function OrBit(b: byte, shift: nat): byte
    requires shift < 8
  {
    if Shr(b, shift) % 2 == 1 then b else OrClearBit(b, shift)
  }

  function OrClearBit(b: byte, shift: nat): (r: byte)
    requires shift < 8
    requires Shr(b, shift) % 2 == 0
    ensures r == b + Pow2(shift)
  {
    ClearBitRoom(b, shift, 8);
    assert Pow2(8) == 256;
    b + Pow2(shift)
  }

  lemma {:induction false} ClearBitRoom(v: nat, shift: nat, n: nat)
    requires shift < n
    requires v < Pow2(n)
    requires Shr(v, shift) % 2 == 0
    ensures v + Pow2(shift) < Pow2(n)
  {
    if shift > 0 {
      ShrHalf(v, shift);
      ClearBitRoom(v / 2, shift - 1, n - 1);
    }
  }

  lemma {:induction false} ShrHalf(v: nat, n: nat)
    requires n > 0
    ensures Shr(v, n) == Shr(v / 2, n - 1)
  {
    if n > 1 {
      ShrHalf(v, n - 1);
    }
  }

  lemma {:induction false} ValueOfFixedBits(v: nat, n: nat)
    requires v < Pow2(n)
    ensures ValueOf(FixedBits(v, n)) == v
  {
    if n > 0 {
      ValueOfFixedBits(v / 2, n - 1);
      assert FixedBits(v, n)[..n - 1] == FixedBits(v / 2, n - 1);
    }
  }

  lemma {:induction false} FixedBitsValueOf(s: BitString)
    ensures ValueOf(s) < Pow2(|s|)
    ensures FixedBits(ValueOf(s), |s|) == s
  {
    if s != [] {
      var t := s[..|s| - 1];
      FixedBitsValueOf(t);
      assert ValueOf(s) / 2 == ValueOf(t);
      assert s == t + [s[|s| - 1]];
    }
  }

  // The leading bit of a field is the bit at its shift; the rest is the shorter field.
  lemma {:induction false} FixedBitsHead(v: nat, n: nat)
    ensures FixedBits(v, n + 1) == [Shr(v, n) % 2 == 1] + FixedBits(v, n)
  {
    if n > 0 {
      FixedBitsHead(v / 2, n - 1);
      ShrHalf(v, n);
    }
  }

  lemma {:induction false} FixedBitsAt(v: nat, n: nat, k: nat)
    requires k < n
    ensures FixedBits(v, n)[k] == (Shr(v, n - 1 - k) % 2 == 1)
  {
    if k < n - 1 {
      FixedBitsAt(v / 2, n - 1, k);
      ShrHalf(v, n - 1 - k);
    }
  }

  lemma {:induction false} FixedBitsSet(v: nat, n: nat, shift: nat)
    requires shift < n
    requires Shr(v, shift) % 2 == 0
    ensures FixedBits(v + Pow2(shift), n) == FixedBits(v, n)[n - 1 - shift := true]
  {
    if shift > 0 {
      ShrHalf(v, shift);
      assert (v + Pow2(shift)) / 2 == v / 2 + Pow2(shift - 1);
      FixedBitsSet(v / 2, n - 1, shift - 1);
    }
  }

  // Or-ing one bit into a byte sets exactly that bit.
  lemma OrBitSets(b: byte, shift: nat)
    requires shift < 8
    ensures ByteBits(OrBit(b, shift)) == ByteBits(b)[7 - shift := true]
  {
    FixedBitsAt(b, 8, 7 - shift);
    if Shr(b, shift) % 2 == 0 {
      FixedBitsSet(b, 8, shift);
    }
  }

  lemma {:induction false} FixedBitsZero(n: nat)
    ensures FixedBits(0, n) == Zeros(n)
  {
    if n > 0 {
      FixedBitsZero(n - 1);
    }
  }

  lemma {:induction false} BytesBitsAppend(a: seq<byte>, b: seq<byte>)
    ensures BytesBits(a + b) == BytesBits(a) + BytesBits(b)
  {
    if b == [] {
      assert a + b == a;
    } else {
      var n := |b| - 1;
      assert (a + b)[..|a| + n] == a + b[..n];
      BytesBitsAppend(a, b[..n]);
    }
  }

  lemma SliceOfConcat<T>(a: seq<T>, x: seq<T>, b: seq<T>)
    ensures (a + x + b)[|a|..|a| + |x|] == x
  {
  }

  lemma SplitInThree<T>(s: seq<T>, i: nat, j: nat)
    requires i <= j <= |s|
    ensures s == s[..i] + s[i..j] + s[j..]
  {
  }

  lemma BytesBitsSlice(bs: seq<byte>, i: nat, j: nat)
    requires i <= j <= |bs|
    ensures BytesBits(bs[i..j]) == BytesBits(bs)[8 * i..8 * j]
  {
    hide *;
    var a, x, b := bs[..i], bs[i..j], bs[j..];
    SplitInThree(bs, i, j);
    BytesBitsAppend(a + x, b);
    BytesBitsAppend(a, x);
    SliceOfConcat(BytesBits(a), BytesBits(x), BytesBits(b));
  }

  lemma BytesBitsOne(b: byte)
    ensures BytesBits([b]) == ByteBits(b)
  {
    assert [b][..0] == [];
  }

  lemma BytesBitsSnoc(init: seq<byte>, b: byte)
    ensures BytesBits(init + [b]) == BytesBits(init) + ByteBits(b)
  {
    hide ByteBits;
    assert (init + [b])[..|init|] == init;
  }

  // Bit p of a byte string sits in byte p / 8 at shift 7 - p % 8.
  lemma {:induction false} BytesBitsAt(bs: seq<byte>, p: nat)
    requires p < 8 * |bs|
    ensures BytesBits(bs)[p] == (Shr(bs[p / 8], 7 - p % 8) % 2 == 1)
  {
    var n := |bs| - 1;
    if p < 8 * n {
      BytesBitsAt(bs[..n], p);
    } else {
      FixedBitsAt(bs[n], 8, p - 8 * n);
    }
  }

  // The bytes of a whole number of octets are determined by their bits.
  lemma {:induction false} BytesBitsInjective(a: seq<byte>, b: seq<byte>)
    requires BytesBits(a) == BytesBits(b)
    ensures a == b
  {
    if a != [] {
      var n := |a| - 1;
      ConcatInjective(BytesBits(a[..n]), ByteBits(a[n]), BytesBits(b[..n]), ByteBits(b[n]));
      BytesBitsInjective(a[..n], b[..n]);
      ByteBitsInjective(a[n], b[n]);
      assert a == a[..n] + [a[n]] && b == b[..n] + [b[n]];
    }
  }

  lemma ConcatInjective<T>(a: seq<T>, x: seq<T>, b: seq<T>, y: seq<T>)
    requires |a| == |b| && a + x == b + y
    ensures a == b && x == y
  {
    assert (a + x)[..|a|] == a && (b + y)[..|a|] == b;
    assert (a + x)[|a|..] == x && (b + y)[|a|..] == y;
  }

  lemma ByteBitsInjective(a: byte, b: byte)
    requires ByteBits(a) == ByteBits(b)
    ensures a == b
  {
    Pow2Values();
    ValueOfFixedBits(a, 8);
    ValueOfFixedBits(b, 8);
  }

  lemma AtSplit(s: BitString, pos: nat, x: BitString, y: BitString)
    ensures At(s, pos, x + y) <==> At(s, pos, x) && At(s, pos + |x|, y)
  {
    if pos + |x| + |y| <= |s| {
      var z := s[pos..pos + |x| + |y|];
      assert z[..|x|] == s[pos..pos + |x|];
      assert z[|x|..] == s[pos + |x|..pos + |x| + |y|];
      assert (x + y)[..|x|] == x && (x + y)[|x|..] == y;
      if At(s, pos, x) && At(s, pos + |x|, y) {
        assert z == z[..|x|] + z[|x|..];
      }
    }
  }

  // ---------- Bytes from bits ----------

  // The bytes that spell a bit string of whole octets.
  function FromBits(x: BitString): (r: seq<byte>)
    ensures |r| == |x| / 8
  {
    if |x| < 8 then [] else FromBits(x[..|x| - 8]) + [OctetValue(x[|x| - 8..])]
  }

  function OctetValue(x: BitString): byte
    requires |x| == 8
  {
    FixedBitsValueOf(x);
    Pow2Values();
    ValueOf(x)
  }

  lemma {:induction false} BitsOfFromBits(x: BitString)
    requires |x| % 8 == 0
    ensures BytesBits(FromBits(x)) == x
  {
    hide BytesBits, ByteBits, OctetValue;
    if x == [] {
      NoBytes();
    } else {
      var n := |x| - 8;
      assert n % 8 == 0;
      BitsOfFromBits(x[..n]);
      BytesBitsSnoc(FromBits(x[..n]), OctetValue(x[n..]));
      BitsOfOctet(x[n..]);
    }
  }

  lemma BitsOfOctet(x: BitString)
    requires |x| == 8
    ensures ByteBits(OctetValue(x)) == x
  {
    FixedBitsValueOf(x);
  }

  lemma NoBytes()
    ensures BytesBits([]) == []
  {
  }

  lemma {:induction false} FromBitsAppend(x: BitString, y: BitString)
    requires |x| % 8 == 0 && |y| % 8 == 0
    ensures FromBits(x + y) == FromBits(x) + FromBits(y)
  {
    hide FromBits;
    BitsOfFromBits(x);
    BitsOfFromBits(y);
    BitsOfFromBits(x + y);
    BytesBitsAppend(FromBits(x), FromBits(y));
    BytesBitsInjective(FromBits(x + y), FromBits(x) + FromBits(y));
  }

  lemma FromBitsOfBytes(bs: seq<byte>)
    ensures FromBits(BytesBits(bs)) == bs
  {
    hide FromBits, BytesBits;
    BitsOfFromBits(BytesBits(bs));
    BytesBitsInjective(FromBits(BytesBits(bs)), bs);
  }

  lemma NonzeroOctet(x: BitString, k: nat)
    requires |x| == 8 && k < 8 && x[k]
    ensures OctetValue(x) != 0
  {
    hide FixedBits, ValueOf;
    FixedBitsValueOf(x);
    FixedBitsZero(8);
  }
}
