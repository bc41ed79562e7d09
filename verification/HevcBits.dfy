/** The bit writer and the bit reader of src/hevc_annexb.cpp. */
module HevcBits {
  import opened Bitstring
  import opened ExpGolomb
  import opened Limits
  import opened NalStream
  import opened SyntaxElements
  import opened Wrappers

  // The longest zero prefix Reader.Ue accepts.
  const READER_ZEROS := 30

  // The bytes hold the bit string, padded with fewer than eight zero bits.
  ghost predicate Packs(bytes: seq<byte>, s: BitString, pad: nat) {
    && pad < 8
    && 8 * |bytes| == |s| + pad
    && BytesBits(bytes) == s + Zeros(pad)
  }

  lemma PacksAligned(bytes: seq<byte>, s: BitString, pad: nat)
    requires Packs(bytes, s, pad)
    ensures |s| % 8 == 0 <==> pad == 0
  {
  }

  lemma PacksAppend(bytes: seq<byte>, s: BitString, data: seq<byte>)
    requires Packs(bytes, s, 0)
    ensures Packs(bytes + data, s + BytesBits(data), 0)
  {
    hide BytesBits;
    BytesBitsAppend(bytes, data);
  }

  // A fresh zero byte makes room for eight more bits.
  lemma FreshByte(bytes: seq<byte>, s: BitString)
    requires Packs(bytes, s, 0)
    ensures BytesBits(bytes + [0]) == s + Zeros(8)
  {
    hide BytesBits;
    BytesBitsSnoc(bytes, 0);
    FixedBitsZero(8);
  }

  lemma PacksZero(bytes: seq<byte>, s: BitString, room: nat)
    requires 0 < room <= 8 && 8 * |bytes| == |s| + room
    requires BytesBits(bytes) == s + Zeros(room)
    ensures Packs(bytes, s + [false], room - 1)
  {
    hide BytesBits;
  }

  // Setting the first padding bit of the last byte appends a one.
  lemma PacksOne(init: seq<byte>, last: byte, s: BitString, room: nat)
    requires 0 < room <= 8 && 8 * |init| + 8 == |s| + room
    requires BytesBits(init + [last]) == s + Zeros(room)
    ensures Packs(init + [OrBit(last, room - 1)], s + [true], room - 1)
  {
    hide BytesBits, ByteBits, OrBit, Zeros;
    OrBitSets(last, room - 1);
    BytesBitsSnoc(init, last);
    BytesBitsSnoc(init, OrBit(last, room - 1));
    SetFirstZero(BytesBits(init), ByteBits(last), s, 8 - room);
  }

  lemma SetFirstZero(a: BitString, b: BitString, s: BitString, k: nat)
    requires k < |b| && |s| == |a| + k
    requires a + b == s + Zeros(|b| - k)
    ensures a + b[k := true] == s + [true] + Zeros(|b| - k - 1)
  {
    assert s == a + b[..k] by {
      assert (a + b)[..|s|] == s;
    }
    assert b[k + 1..] == Zeros(|b| - k - 1) by {
      assert (a + b)[|s| + 1..] == Zeros(|b| - k - 1);
    }
    assert b[k := true] == b[..k] + [true] + b[k + 1..];
  }

  // Off a byte boundary, fewer zeros than needed stand behind the one bit.
  lemma MoreToAlign(n: nat, zeros: nat)
    requires zeros <= 7 - n % 8 && (n + 1 + zeros) % 8 != 0
    ensures zeros < 7 - n % 8
  {
  }

  /** A growing bit string kept in bytes; the low bits of the last byte beyond pos are zero. */
  class Bits {
    var bytes: seq<byte>
    var pos: nat
    ghost var contents: BitString

    ghost predicate Valid()
      reads this
    {
      && pos == |contents| <= 8 * |bytes|
      && Packs(bytes, contents, 8 * |bytes| - pos)
    }

    constructor ()
      ensures Valid() && contents == []
    {
      bytes, pos, contents := [], 0, [];
    }

    predicate Aligned()
      reads this
    {
      pos % 8 == 0
    }

    method Append(data: seq<byte>) returns (o: Outcome)
      requires Valid()
      modifies this
      ensures Valid()
      ensures o.Pass? <==> |old(contents)| % 8 == 0
      ensures contents == if o.Pass? then old(contents) + BytesBits(data) else old(contents)
    {
      if !Aligned() {
        return Fail(Invalid);
      }
      PacksAppend(bytes, contents, data);
      bytes := bytes + data;
      pos := pos + 8 * |data|;
      contents := contents + BytesBits(data);
      return Pass;
    }

    method Bit(value: nat)
      requires Valid()
      modifies this
      ensures Valid()
      ensures contents == old(contents) + [value % 2 == 1]
    {
      hide BytesBits, OrBit, Zeros;
      if pos % 8 == 0 {
        FreshByte(bytes, contents);
        bytes := bytes + [0];
      }
      var n := |bytes| - 1;
      if value % 2 == 1 {
        assert bytes == bytes[..n] + [bytes[n]];
        PacksOne(bytes[..n], bytes[n], contents, 8 * |bytes| - pos);
        bytes := bytes[..n] + [OrBit(bytes[n], 7 - pos % 8)];
      } else {
        PacksZero(bytes, contents, 8 * |bytes| - pos);
      }
      pos := pos + 1;
      contents := contents + [value % 2 == 1];
    }

    method Bits(value: uint32, count: nat) returns (o: Outcome)
      requires Valid()
      modifies this
      ensures Valid()
      ensures o.Pass? <==> count <= 32
      ensures contents == if o.Pass? then old(contents) + FixedBits(value, count) else old(contents)
    {
      hide Packs;
      :- Check(count <= 32, Invalid);
      var i := count;
      while i > 0
        invariant 0 <= i <= count && Valid()
        invariant contents == old(contents) + FixedBits(Shr(value, i), count - i)
      {
        Bit(Shr(value, i - 1));
        i := i - 1;
      }
      return Pass;
    }

    method Ue(value: uint32) returns (o: Outcome)
      requires Valid()
      modifies this
      ensures Valid()
      ensures o.Pass? <==> value < UINT32_MAX
      ensures contents == if o.Pass? then old(contents) + UeCode(value) else old(contents)
    {
      hide Packs, Zeros, FixedBits, UeCode;
      :- Check(value < UINT32_MAX, Invalid);
      var n, v := 0, value + 1;
      while v / 2 != 0
        invariant v > 0 && n + Log2(v) == Log2(value + 1)
      {
        v := v / 2;
        n := n + 1;
      }
      UeCodeAsField(value);
      Log2Limit(value + 1);
      AddZeros(n);
      o := Bits(value + 1, n + 1);
    }

    method AddZeros(n: nat)
      requires Valid()
      modifies this
      ensures Valid()
      ensures contents == old(contents) + Zeros(n)
    {
      hide Packs;
      var i := 0;
      while i < n
        invariant 0 <= i <= n && Valid()
        invariant contents == old(contents) + Zeros(i)
      {
        ZerosSnoc(old(contents), i);
        Bit(0);
        i := i + 1;
      }
    }

    method Se(value: int32) returns (o: Outcome)
      requires Valid()
      modifies this
      ensures Valid()
      ensures o.Pass? <==> value != -0x8000_0000
      ensures contents == if o.Pass? then old(contents) + SeCode(value) else old(contents)
    {
      hide Packs, UeCode;
      var code := if value <= 0 then -2 * value else 2 * value - 1;
      :- Check(code < UINT32_MAX, Invalid);
      o := Ue(code);
    }

    method Align()
      requires Valid()
      modifies this
      ensures Valid() && Aligned()
      ensures contents == old(contents) + AlignmentBits(|old(contents)|)
    {
      hide Packs, Zeros, AlignmentBits;
      Bit(1);
      ghost var first, i := contents, 0;
      while pos % 8 != 0
        invariant Valid() && 0 <= i <= 7 - |old(contents)| % 8
        invariant contents == first + Zeros(i)
        decreases 7 - i
      {
        MoreToAlign(|old(contents)|, i);
        ZerosSnoc(first, i);
        Bit(0);
        i := i + 1;
      }
      AlignmentIs(old(contents), i);
    }

    // Append the NAL unit with this header to out, escaping the payload.
    method Nal(out: seq<byte>, header: uint16, trailing: bool) returns (res: Result<seq<byte>>)
      requires Valid()
      modifies this
      ensures Valid()
      ensures contents == if trailing then old(contents) + AlignmentBits(|old(contents)|) else old(contents)
      ensures res.Success? <==> trailing || |old(contents)| % 8 == 0
      ensures res.Success? ==> Packs(bytes, contents, 0)
      ensures res.Success? ==> res.value == out + Framed(NalUnit([header / 256, header % 256], bytes))
    {
      hide Packs, AlignmentBits, Escape;
      if trailing {
        Align();
      }
      :- Need(pos % 8 == 0, Invalid);
      PacksAligned(bytes, contents, 8 * |bytes| - pos);
      var r: seq<byte> := out + [0, 0, 0, 1, header / 256, header % 256];
      ghost var goal: seq<byte>, data, final := r + Escape(bytes), bytes, contents;
      var zeros, i := 0, 0;
      assert bytes[0..] == bytes;
      while i < |bytes|
        invariant 0 <= i <= |bytes| && 0 <= zeros <= 2
        invariant Valid() && Packs(bytes, contents, 0) && bytes == data && contents == final
        invariant r + Escape(bytes[i..], zeros) == goal
      {
        EscapeStep(r, bytes, i, zeros);
        var v := bytes[i];
        if zeros == 2 && v <= 3 {
          r := r + [3];
          zeros := 0;
        }
        r := r + [v];
        zeros := if v == 0 then zeros + 1 else 0;
        i := i + 1;
      }
      EscapeDone(r, bytes, zeros);
      FramedNal(out, header / 256, header % 256, Escape(bytes));
      return Success(r);
    }
  }

  lemma ZerosSnoc(a: BitString, n: nat)
    ensures a + Zeros(n) + [false] == a + Zeros(n + 1)
  {
  }

  lemma AlignmentIs(a: BitString, i: nat)
    requires i < 8 && (|a| + 1 + i) % 8 == 0
    ensures a + [true] + Zeros(i) == a + AlignmentBits(|a|)
  {
    hide Zeros;
    assert i == 7 - |a| % 8;
    assert a + [true] + Zeros(i) == a + ([true] + Zeros(i));
  }

  lemma FramedNal(out: seq<byte>, high: byte, low: byte, escaped: seq<byte>)
    ensures out + [0, 0, 0, 1, high, low] + escaped == out + Framed([high, low] + escaped)
  {
    assert [0, 0, 0, 1, high, low] + escaped == START_CODE + ([high, low] + escaped);
  }

  lemma FieldBound(s: BitString, start: nat, pos: nat, n: nat)
    requires start <= pos <= |s| && pos - start <= n
    ensures ValueOf(s[start..pos]) < Pow2(n)
    ensures n == 31 ==> ValueOf(s[start..pos]) < 0x8000_0000
    ensures n == 32 ==> ValueOf(s[start..pos]) < 0x1_0000_0000
  {
    FixedBitsValueOf(s[start..pos]);
    Pow2Monotonic(pos - start, n);
    Pow2Values();
  }

  lemma FieldStep(s: BitString, start: nat, pos: nat)
    requires start <= pos <= |s|
    ensures pos < |s| ==> ValueOf(s[start..pos + 1]) == 2 * ValueOf(s[start..pos]) + BitValue(s[pos])
  {
    if pos < |s| {
      assert s[start..pos + 1][..pos - start] == s[start..pos];
    }
  }

  lemma {:induction false} LeadingZerosSkip(s: BitString, start: nat, n: nat)
    requires start + n <= |s|
    requires forall k :: start <= k < start + n ==> !s[k]
    ensures
      var rest := LeadingZeros(s, start + n);
      LeadingZeros(s, start) == if rest.None? then None else Some(rest.value + n)
    decreases n
  {
    if n > 0 {
      LeadingZerosSkip(s, start + 1, n - 1);
    }
  }

  /** A position in the unescaped payload of a NAL unit. */
  class Reader {
    const bytes: seq<byte>
    var pos: nat

    ghost function Str(): BitString {
      BytesBits(bytes)
    }

    ghost predicate Valid()
      reads this
    {
      pos <= |Str()|
    }

    constructor (bytes: seq<byte>)
      ensures Valid() && this.bytes == bytes && pos == 0
    {
      this.bytes, pos := bytes, 0;
    }

    method Seek(p: nat) returns (o: Outcome)
      requires Valid()
      modifies this
      ensures Valid()
      ensures o.Pass? <==> p <= |Str()|
      ensures pos == if o.Pass? then p else old(pos)
    {
      if p > 8 * |bytes| {
        return Fail(Invalid);
      }
      pos := p;
      return Pass;
    }

    method Skip(n: nat) returns (o: Outcome)
      requires Valid()
      modifies this
      ensures Valid()
      ensures o.Pass? <==> old(pos) + n <= |Str()|
      ensures pos == if o.Pass? then old(pos) + n else old(pos)
    {
      if n > 8 * |bytes| - pos {
        return Fail(Invalid);
      }
      pos := pos + n;
      return Pass;
    }

    method Bit() returns (res: Result<bool>)
      requires Valid()
      modifies this
      ensures Valid()
      ensures res.Success? <==> old(pos) < |Str()|
      ensures res.Success? ==> res.value == Str()[old(pos)] && pos == old(pos) + 1
    {
      var p := pos;
      :- Need(p < 8 * |bytes|, Invalid);
      pos := pos + 1;
      BytesBitsAt(bytes, p);
      return Success(Shr(bytes[p / 8], 7 - p % 8) % 2 == 1);
    }

    method Bits(n: nat) returns (res: Result<uint32>)
      requires Valid()
      modifies this
      ensures Valid()
      ensures res.Success? <==> n <= 32 && DecodeFixed(Str(), old(pos), n).Success?
      ensures res.Success? ==> (res.value, pos) == DecodeFixed(Str(), old(pos), n).value
    {
      hide BytesBits, ValueOf, Pow2;
      :- Need(n <= 32, Invalid);
      ghost var s, start := Str(), pos;
      var v, i := 0, 0;
      EmptyField(s, pos);
      while i < n
        invariant 0 <= i <= n && Valid() && pos == start + i
        invariant v == ValueOf(s[start..pos])
      {
        FieldBound(s, start, pos, 31);
        FieldStep(s, start, pos);
        var bit :- Bit();
        v := (2 * v) % 0x1_0000_0000 + BitValue(bit);
        i := i + 1;
      }
      FieldBound(s, start, pos, 32);
      return Success(v);
    }

    method Ue() returns (res: Result<uint32>)
      requires Valid()
      modifies this
      ensures Valid()
      ensures res.Success? <==> DecodeUe(Str(), old(pos), READER_ZEROS).Success?
      ensures res.Success? ==> (res.value, pos) == DecodeUe(Str(), old(pos), READER_ZEROS).value
      ensures res.Success? ==> res.value <= 0x7fff_fffe
    {
      hide BytesBits, ValueOf, Pow2, LeadingZeros;
      var n := 0;
      ghost var s, start := Str(), pos;
      LeadingZerosEnd(s, start);
      var bit :- Bit();
      while !bit
        invariant 0 <= n <= READER_ZEROS && Valid() && pos == start + n + 1 <= |s|
        invariant bit == s[start + n]
        invariant forall k :: start <= k < start + n ==> !s[k]
        decreases READER_ZEROS - n
      {
        n := n + 1;
        LeadingZerosSkip(s, start, n);
        LeadingZerosEnd(s, start + n);
        :- Need(n < 31, Invalid);
        bit :- Bit();
      }
      LeadingZerosSkip(s, start, n);
      LeadingZerosEnd(s, start + n);
      var info :- Bits(n);
      UeBound(s, start + n + 1, n);
      return Success(Pow2(n) - 1 + info);
    }

    method CopyBytes(out: Bits, i: nat, n: nat)
      requires Valid() && out.Valid()
      requires pos == 8 * i && i + n <= |bytes| && |out.contents| % 8 == 0
      modifies this, out
      ensures Valid() && out.Valid()
      ensures pos == old(pos) + 8 * n
      ensures out.contents == old(out.contents) + Str()[old(pos)..pos]
    {
      hide BytesBits, Packs;
      BytesBitsSlice(bytes, i, i + n);
      var _ := out.Append(bytes[i..i + n]);
      pos := pos + 8 * n;
    }

    // Append the bits up to end to the writer, whole bytes at once when both sides are aligned.
    method Copy(out: Bits, end: nat) returns (o: Outcome)
      requires Valid() && out.Valid()
      modifies this, out
      ensures Valid() && out.Valid()
      ensures o.Pass? <==> old(pos) <= end <= |Str()|
      ensures o.Pass? ==> pos == end && out.contents == old(out.contents) + Str()[old(pos)..end]
      ensures !o.Pass? ==> out.contents == old(out.contents)
    {
      hide BytesBits, Packs;
      :- Check(pos <= end <= 8 * |bytes|, Invalid);
      ghost var s, start := Str(), pos;
      SliceEmpty(out.contents, s, pos);
      if pos % 8 == 0 && out.Aligned() {
        var n := (end - pos) / 8;
        if n > 0 {
          CopyBytes(out, pos / 8, n);
        }
      }
      while pos < end
        invariant Valid() && out.Valid() && start <= pos <= end
        invariant out.contents == old(out.contents) + s[start..pos]
      {
        SliceSnoc(old(out.contents), s, start, pos);
        var bit := Bit();
        out.Bit(BitValue(bit.value));
      }
      return Pass;
    }
  }

  lemma EmptyField(s: BitString, pos: nat)
    requires pos <= |s|
    ensures ValueOf(s[pos..pos]) == 0
  {
  }

  lemma LeadingZerosEnd(s: BitString, pos: nat)
    ensures pos >= |s| ==> LeadingZeros(s, pos) == None
    ensures pos < |s| && s[pos] ==> LeadingZeros(s, pos) == Some(0)
  {
  }

  lemma UeBound(s: BitString, start: nat, n: nat)
    requires start + n <= |s| && n <= READER_ZEROS
    ensures Pow2(n) - 1 + ValueOf(s[start..start + n]) < 0x7fff_ffff
  {
    FieldBound(s, start, start + n, n);
    Pow2Monotonic(n, 30);
    Pow2Values();
  }

  lemma SliceEmpty(a: BitString, s: BitString, i: nat)
    requires i <= |s|
    ensures a + s[i..i] == a
  {
  }

  lemma SliceSnoc(a: BitString, s: BitString, i: nat, j: nat)
    requires i <= j < |s|
    ensures a + s[i..j] + [s[j]] == a + s[i..j + 1]
  {
    assert s[i..j + 1] == s[i..j] + [s[j]];
  }

  lemma UnescapeStep(r: seq<byte>, s: seq<byte>, i: nat, zeros: nat)
    requires i < |s|
    ensures r + Unescape(s[i..], zeros) ==
      if zeros == 2 && s[i] == 3 then r + Unescape(s[i + 1..], 0)
      else r + [s[i]] + Unescape(s[i + 1..], Run(zeros, s[i]))
  {
    assert s[i..][1..] == s[i + 1..];
  }

  lemma UnescapeDone(r: seq<byte>, s: seq<byte>, zeros: nat)
    ensures r + Unescape(s[|s|..], zeros) == r
  {
    assert s[|s|..] == [];
  }

  lemma UnescapeStart(s: seq<byte>)
    ensures [] + Unescape(s) == Unescape(s)
  {
  }

  // Read a whole NAL unit: the payload behind its two header bytes, without emulation prevention.
  method OpenReader(nal: seq<byte>) returns (res: Result<Reader>)
    ensures res.Success? <==> |nal| >= 3
    ensures res.Success? ==> fresh(res.value) && res.value.Valid() && res.value.pos == 0
    ensures res.Success? ==> res.value.bytes == Unescape(nal[2..])
  {
    hide Unescape;
    :- Need(|nal| >= 3, Invalid);
    var payload: seq<byte>, zeros, i := [], 0, 2;
    UnescapeStart(nal[2..]);
    while i < |nal|
      invariant 2 <= i <= |nal| && zeros >= 0
      invariant payload + Unescape(nal[i..], zeros) == Unescape(nal[2..])
    {
      UnescapeStep(payload, nal, i, zeros);
      var v := nal[i];
      i := i + 1;
      if zeros == 2 && v == 3 {
        zeros := 0;
        continue;
      }
      payload := payload + [v];
      zeros := if v == 0 then zeros + 1 else 0;
    }
    UnescapeDone(payload, nal, zeros);
    var r := new Reader(payload);
    return Success(r);
  }
}
