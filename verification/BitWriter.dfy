/** The bounded bit writer of src/bit_writer.c. */
module BitWriter {
  import opened Bitstring
  import opened ExpGolomb
  import opened SyntaxElements

  /** What a bounded writer has accepted, and whether something did not fit. */
  datatype Written = Written(bits: BitString, overflow: bool)

  // Writing x into a buffer of room bits: bits go in while they fit.
  function After(w: Written, x: BitString, room: nat): (r: Written)
    ensures r.overflow <==> w.overflow || |w.bits| + |x| > room
    ensures !r.overflow ==> r.bits == w.bits + x
  {
    if w.overflow then w
    else if |w.bits| + |x| <= room then Written(w.bits + x, false)
    else Written((w.bits + x)[..room], true)
  }

  lemma AfterAppend(w: Written, x: BitString, y: BitString, room: nat)
    requires |w.bits| <= room
    ensures After(After(w, x, room), y, room) == After(w, x + y, room)
  {
    var s := w.bits;
    assert s + (x + y) == s + x + y;
    if |s| + |x| > room {
      assert (s + x + y)[..room] == (s + x)[..room];
    }
  }

  lemma AfterNothing(w: Written, room: nat)
    requires |w.bits| <= room
    ensures After(w, [], room) == w
  {
    assert w.bits + [] == w.bits;
  }

  lemma FinishStep(w: Written, i: nat, room: nat)
    requires |w.bits| <= room
    ensures After(After(w, [true] + Zeros(i), room), [false], room) == After(w, [true] + Zeros(i + 1), room)
  {
    hide After;
    AfterAppend(w, [true] + Zeros(i), [false], room);
    assert [true] + Zeros(i) + [false] == [true] + Zeros(i + 1);
  }

  // A buffer of whole bytes has room for all of the trailing bits or for none.
  lemma FinishDone(w: Written, i: nat, room: nat)
    requires room % 8 == 0 && |w.bits| <= room && i <= TrailingZeros(|w.bits|)
    requires After(w, [true] + Zeros(i), room).overflow || (|w.bits| + 1 + i) % 8 == 0
    ensures After(w, [true] + Zeros(i), room) == After(w, AlignmentBits(|w.bits|), room)
  {
    TrailingLength(|w.bits|, i, room);
    if After(w, [true] + Zeros(i), room).overflow && !w.overflow {
      FullBuffer(w.bits, [true] + Zeros(i));
      FullBuffer(w.bits, AlignmentBits(room));
    }
  }

  lemma FullBuffer(s: BitString, x: BitString)
    ensures (s + x)[..|s|] == s
  {
  }

  function TrailingZeros(n: nat): (r: nat)
    ensures r <= 7
  {
    7 - n % 8
  }

  lemma TrailingLength(n: nat, i: nat, room: nat)
    requires room % 8 == 0 && i <= TrailingZeros(n)
    ensures n <= room < n + 1 + i ==> n == room
    ensures (n + 1 + i) % 8 == 0 <==> i == TrailingZeros(n)
  {
  }

  // Setting bit 7 - shift of byte i of a byte string sets that bit of its bit string.
  lemma SetBit(bs: seq<byte>, i: nat, shift: nat)
    requires i < |bs| && shift < 8
    ensures BytesBits(bs[i := OrBit(bs[i], shift)]) == BytesBits(bs)[8 * i + 7 - shift := true]
  {
    hide BytesBits, ByteBits, OrBit;
    var a, z := bs[..i], bs[i + 1..];
    BytesAround(a, bs[i], z);
    BytesAround(a, OrBit(bs[i], shift), z);
    OrBitSets(bs[i], shift);
    assert bs == a + [bs[i]] + z;
    assert bs[i := OrBit(bs[i], shift)] == a + [OrBit(bs[i], shift)] + z;
    UpdateMiddle(BytesBits(a), ByteBits(bs[i]), BytesBits(z), 7 - shift);
  }

  lemma BytesAround(a: seq<byte>, b: byte, z: seq<byte>)
    ensures BytesBits(a + [b] + z) == BytesBits(a) + ByteBits(b) + BytesBits(z)
  {
    hide BytesBits, ByteBits;
    BytesBitsAppend(a + [b], z);
    BytesBitsSnoc(a, b);
  }

  lemma UpdateMiddle(a: BitString, x: BitString, z: BitString, k: nat)
    requires k < |x|
    ensures (a + x + z)[|a| + k := true] == a + x[k := true] + z
  {
  }

  lemma {:induction false} ZeroBytes(bs: seq<byte>)
    requires forall i :: 0 <= i < |bs| ==> bs[i] == 0
    ensures BytesBits(bs) == Zeros(8 * |bs|)
  {
    hide ByteBits;
    if bs != [] {
      var n := |bs| - 1;
      ZeroBytes(bs[..n]);
      ZeroByte();
    }
  }

  lemma ZeroByte()
    ensures ByteBits(0) == Zeros(8)
  {
    FixedBitsZero(8);
  }

  // The buffer holds the bits written so far, and zeros behind them.
  ghost predicate Buffers(bs: seq<byte>, s: BitString) {
    |s| <= 8 * |bs| && BytesBits(bs) == s + Zeros(8 * |bs| - |s|)
  }

  lemma BuffersZero(bs: seq<byte>, s: BitString)
    requires Buffers(bs, s) && |s| < 8 * |bs|
    ensures Buffers(bs, s + [false])
  {
    hide BytesBits;
  }

  lemma BuffersOne(bs: seq<byte>, s: BitString, i: nat, shift: nat)
    requires Buffers(bs, s) && i < |bs| && shift < 8 && |s| == 8 * i + 7 - shift
    ensures Buffers(bs[i := OrBit(bs[i], shift)], s + [true])
  {
    hide BytesBits, OrBit;
    SetBit(bs, i, shift);
    assert BytesBits(bs)[|s| := true] == s + [true] + Zeros(8 * |bs| - |s| - 1);
  }

  /** Writes into a caller's buffer; once a bit does not fit, nothing more is written. */
  class Writer {
    const data: array<byte>
    var bitCount: nat
    var overflow: bool
    ghost var contents: BitString

    ghost predicate Valid()
      reads this, data
    {
      bitCount == |contents| && Buffers(data[..], contents)
    }

    function Room(): nat {
      8 * data.Length
    }

    constructor (data: array<byte>)
      modifies data
      ensures Valid() && this.data == data && contents == []
      ensures overflow <==> data.Length == 0
    {
      this.data := data;
      bitCount, overflow, contents := 0, data.Length == 0, [];
      new;
      for i := 0 to data.Length
        invariant forall k :: 0 <= k < i ==> data[k] == 0
        invariant bitCount == 0 && contents == [] && overflow == (data.Length == 0)
      {
        data[i] := 0;
      }
      ZeroBytes(data[..]);
    }

    ghost function State(): Written
      reads this
    {
      Written(contents, overflow)
    }

    method WriteOne(value: bool)
      requires Valid()
      modifies this, data
      ensures Valid() && State() == After(old(State()), [value], Room())
    {
      hide BytesBits, OrBit, Zeros;
      if overflow {
        return;
      }
      var index := bitCount / 8;
      if index >= data.Length {
        overflow := true;
        assert (contents + [value])[..Room()] == contents;
        return;
      }
      var shift := 7 - bitCount % 8;
      if value {
        BuffersOne(data[..], contents, index, shift);
        ghost var after := data[..][index := OrBit(data[index], shift)];
        data[index] := OrBit(data[index], shift);
        assert data[..] == after;
      } else {
        BuffersZero(data[..], contents);
      }
      bitCount := bitCount + 1;
      contents := contents + [value];
    }

    method Write(value: uint32, bits: nat)
      requires Valid()
      modifies this, data
      ensures Valid()
      ensures State() ==
        if bits <= 32 then After(old(State()), FixedBits(value, bits), Room()) else Written(old(contents), true)
    {
      hide BytesBits, Zeros, After;
      if bits > 32 {
        overflow := true;
        return;
      }
      WriteField(value, bits);
    }

    // The low bits of a value, most significant first.
    method WriteField(value: nat, bits: nat)
      requires Valid()
      modifies this, data
      ensures Valid() && State() == After(old(State()), FixedBits(value, bits), Room())
    {
      hide BytesBits, Zeros, After;
      var index := bits;
      AfterNothing(State(), Room());
      while index > 0
        invariant 0 <= index <= bits && Valid()
        invariant State() == After(old(State()), FixedBits(Shr(value, index), bits - index), Room())
      {
        AfterAppend(old(State()), FixedBits(Shr(value, index), bits - index), [Shr(value, index - 1) % 2 == 1], Room());
        WriteOne(Shr(value, index - 1) % 2 == 1);
        index := index - 1;
      }
    }

    method WriteZeros(n: nat)
      requires Valid()
      modifies this, data
      ensures Valid() && State() == After(old(State()), Zeros(n), Room())
    {
      hide BytesBits, After;
      AfterNothing(State(), Room());
      var left := n;
      while left > 0
        invariant 0 <= left <= n && Valid()
        invariant State() == After(old(State()), Zeros(n - left), Room())
      {
        AfterAppend(old(State()), Zeros(n - left), [false], Room());
        assert Zeros(n - left) + [false] == Zeros(n - left + 1);
        WriteOne(false);
        left := left - 1;
      }
    }

    // The number of bits below the leading one, counted by shifting.
    method CountShifts(codeNum: nat) returns (n: nat)
      requires codeNum > 0
      ensures n == Log2(codeNum)
    {
      n := 0;
      var cursor := codeNum;
      while cursor > 1
        invariant cursor > 0 && n + Log2(cursor) == Log2(codeNum)
      {
        cursor := cursor / 2;
        n := n + 1;
      }
    }

    method WriteUe(value: uint32)
      requires Valid()
      modifies this, data
      ensures Valid() && State() == After(old(State()), UeCode(value), Room())
    {
      hide BytesBits, After, Zeros;
      var codeNum := value + 1;
      var n := CountShifts(codeNum);
      WriteZeros(n);
      n := CountShifts(codeNum);
      AfterAppend(old(State()), Zeros(n), [true], Room());
      WriteOne(true);
      AfterAppend(old(State()), Zeros(n) + [true], FixedBits(codeNum, n), Room());
      WriteField(codeNum, n);
    }

    method WriteSe(value: int32)
      requires Valid()
      modifies this, data
      ensures Valid()
      ensures State() ==
        if value != -0x8000_0000 then After(old(State()), SeCode(value), Room())
        else Written(old(contents), true)
    {
      hide BytesBits, After, Zeros, UeCode;
      var codeNum := if value <= 0 then -(value as int) * 2 else value * 2 - 1;
      if codeNum > 0xffff_ffff {
        overflow := true;
        return;
      }
      WriteUe(codeNum);
    }

    method FinishRbsp()
      requires Valid()
      modifies this, data
      ensures Valid() && State() == After(old(State()), AlignmentBits(|old(contents)|), Room())
      ensures !overflow ==> bitCount % 8 == 0
    {
      hide BytesBits, Zeros, After, AlignmentBits, TrailingZeros;
      ghost var n, i: nat := |contents|, 0;
      assert [true] + Zeros(0) == [true];
      WriteOne(true);
      while !overflow && bitCount % 8 != 0
        invariant Valid() && i <= TrailingZeros(n)
        invariant State() == After(old(State()), [true] + Zeros(i), Room())
        invariant !overflow ==> bitCount == n + 1 + i
        decreases 8 - i
      {
        TrailingLength(n, i, Room());
        FinishStep(old(State()), i, Room());
        WriteOne(false);
        i := i + 1;
      }
      FinishDone(old(State()), i, Room());
    }

    method Size() returns (n: nat)
      requires Valid()
      ensures n == if overflow then 0 else (|contents| + 7) / 8
      ensures n <= data.Length
    {
      return if overflow then 0 else (bitCount + 7) / 8;
    }
  }
}
