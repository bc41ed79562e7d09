/** One H.264 access unit from VA buffers: src/h264_annexb.c, and its capacity from src/decode.c. */
module H264AnnexB {
  import opened Bitstring
  import opened BitWriter
  import opened ExpGolomb
  import opened H264Syntax
  import opened NalStream
  import opened SyntaxElements
  import opened Wrappers

  const RBSP_BYTES := 256
  const OVERHEAD := 4096

  // ---------- The byte writer ----------

  lemma ArraySnoc(s: seq<byte>, i: nat)
    requires i < |s|
    ensures s[..i + 1] == s[..i] + [s[i]]
  {
  }

  /** Appends to a caller's array until it is full. */
  class ByteWriter {
    const data: array<byte>
    var length: nat

    ghost predicate Valid()
      reads this
    {
      length <= data.Length
    }

    function Contents(): (r: seq<byte>)
      requires Valid()
      reads this, data
      ensures |r| == length
    {
      data[..length]
    }

    constructor (data: array<byte>)
      ensures Valid() && this.data == data && Contents() == []
    {
      this.data, length := data, 0;
    }

    method AppendBytes(bytes: seq<byte>) returns (o: Outcome)
      requires Valid()
      modifies this, data
      ensures Valid()
      ensures o == if |old(Contents())| + |bytes| <= data.Length then Pass else Fail(NoSpace)
      ensures Contents() == if o.Pass? then old(Contents()) + bytes else old(Contents())
    {
      ghost var before := Contents();
      :- Check(|bytes| <= data.Length - length, NoSpace);
      for i := 0 to |bytes|
        invariant length == old(length)
        invariant data[..length] == before && data[length..length + i] == bytes[..i]
      {
        data[length + i] := bytes[i];
        ArraySnoc(bytes, i);
      }
      length := length + |bytes|;
      assert data[..length] == before + bytes;
      return Pass;
    }

    method AppendStartCode() returns (o: Outcome)
      requires Valid()
      modifies this, data
      ensures Valid()
      ensures o == if |old(Contents())| + 4 <= data.Length then Pass else Fail(NoSpace)
      ensures Contents() == if o.Pass? then old(Contents()) + START_CODE else old(Contents())
    {
      o := AppendBytes([0, 0, 0, 1]);
    }

    method AppendEscaped(rbsp: seq<byte>) returns (o: Outcome)
      requires Valid()
      modifies this, data
      ensures Valid()
      ensures o == if |old(Contents())| + |Escape(rbsp)| <= data.Length then Pass else Fail(NoSpace)
      ensures o.Pass? ==> Contents() == old(Contents()) + Escape(rbsp)
    {
      hide Escape, Contents;
      ghost var goal := old(Contents()) + Escape(rbsp);
      var zeros, i := 0, 0;
      assert rbsp[0..] == rbsp;
      while i < |rbsp|
        invariant 0 <= i <= |rbsp| && Valid()
        invariant Contents() + Escape(rbsp[i..], zeros) == goal
      {
        EscapeStep(Contents(), rbsp, i, zeros);
        var b := rbsp[i];
        if zeros >= 2 && b <= 3 {
          o := AppendBytes([3]);
          if o.Fail? {
            return;
          }
          zeros := 0;
        }
        o := AppendBytes([b]);
        if o.Fail? {
          return;
        }
        zeros := if b == 0 then zeros + 1 else 0;
        i := i + 1;
      }
      EscapeDone(Contents(), rbsp, zeros);
      return Pass;
    }

    // Append the NAL unit with this header, escaping the payload.
    method AppendEscapedNal(header: byte, rbsp: seq<byte>) returns (o: Outcome)
      requires Valid()
      modifies this, data
      ensures Valid()
      ensures o == if |old(Contents())| + |Framed(NalUnit([header], rbsp))| <= data.Length then Pass else Fail(NoSpace)
      ensures o.Pass? ==> Contents() == old(Contents()) + Framed(NalUnit([header], rbsp))
    {
      hide Escape, Contents;
      FramedUnit(old(Contents()), header, Escape(rbsp));
      o := AppendStartCode();
      if o.Fail? {
        return;
      }
      o := AppendBytes([header]);
      if o.Fail? {
        return;
      }
      o := AppendEscaped(rbsp);
    }
  }

  lemma FramedUnit(out: seq<byte>, header: byte, escaped: seq<byte>)
    ensures out + START_CODE + [header] + escaped == out + Framed([header] + escaped)
  {
    assert START_CODE + [header] + escaped == START_CODE + ([header] + escaped);
  }

  // ---------- Parameter sets ----------

  // A code of a small value is short.
  lemma ShortCode(v: nat, n: nat)
    requires v + 1 < Pow2(n + 1)
    ensures |UeCode(v)| <= 2 * n + 1
  {
    hide UeCode, Log2, Zeros, FixedBits, Pow2;
    UeCodeAsField(v);
    Log2Bounds(v + 1);
    if Log2(v + 1) > n {
      Pow2Monotonic(n + 1, Log2(v + 1));
    }
  }

  lemma CodeLengths()
    ensures |UeCode(0)| == 1
    ensures forall v: nat :: v <= 2 ==> |UeCode(v)| <= 3
    ensures forall v: nat :: v < 16 ==> |UeCode(v)| <= 9
    ensures forall v: nat :: v <= 256 ==> |UeCode(v)| <= 17
    ensures forall v: nat :: v <= 0xffff ==> |UeCode(v)| <= 33
  {
    hide UeCode;
    assert Pow2(2) == 4 && Pow2(5) == 32 && Pow2(9) == 512 && Pow2(17) == 0x2_0000;
    UeCodeAsField(0);
    forall v: nat | v <= 2 ensures |UeCode(v)| <= 3 { ShortCode(v, 1); }
    forall v: nat | v < 16 ensures |UeCode(v)| <= 9 { ShortCode(v, 4); }
    forall v: nat | v <= 256 ensures |UeCode(v)| <= 17 { ShortCode(v, 8); }
    forall v: nat | v <= 0xffff ensures |UeCode(v)| <= 33 { ShortCode(v, 16); }
  }

  lemma SpsLength(profile: Profile, p: Picture)
    requires p.WellFormed() && p.Supported()
    ensures |PrintChroma(p.ChromaOf(profile))| <= 7
    ensures |PrintOrder(p.OrderOf())| <= 23
    ensures |PrintFrame(p.FrameOf())| <= 88
    ensures |SpsBits(profile, p)| <= 143
  {
    hide UeCode, FixedBits;
    CodeLengths();
  }

  lemma PpsLength(p: Picture, l0: uint8, l1: uint8)
    requires p.WellFormed()
    ensures |PrintOpening(OpeningOf(p, l0, l1))| <= 39
    ensures |PrintCoding(p.CodingOf())| <= 57
    ensures |PrintExtension(p.ExtensionOf())| <= 19
    ensures |PpsBits(p, l0, l1)| <= 115
  {
    hide UeCode, FixedBits;
    CodeLengths();
  }

  lemma Assoc(s: BitString, a: BitString, b: BitString)
    ensures s + a + b == s + (a + b)
  {
  }

  lemma FixedBit(b: bool)
    ensures FixedBits(BitValue(b), 1) == [b]
  {
    assert FixedBits(BitValue(b) / 2, 0) == [];
  }

  method WriteFlag(w: Writer, b: bool)
    requires w.Valid() && !w.overflow && |w.contents| < w.Room()
    modifies w, w.data
    ensures w.Valid() && !w.overflow && w.contents == old(w.contents) + [b]
  {
    hide Buffers, After;
    FixedBit(b);
    w.Write(BitValue(b), 1);
  }

  method WriteChroma(w: Writer, profile: Profile, p: Picture)
    requires w.Valid() && !w.overflow && |w.contents| + 7 <= w.Room()
    requires p.WellFormed() && p.Supported()
    modifies w, w.data
    ensures w.Valid() && !w.overflow && w.contents == old(w.contents) + PrintChroma(p.ChromaOf(profile))
  {
    hide Buffers, After, UeCode;
    if profile.Idc() == 100 {
      CodeLengths();
      ghost var s, a, b, c := w.contents, UeCode(p.chromaFormatIdc), UeCode(p.bitDepthLumaMinus8),
        UeCode(p.bitDepthChromaMinus8);
      w.WriteUe(p.chromaFormatIdc);
      w.WriteUe(p.bitDepthLumaMinus8);
      Assoc(s, a, b);
      w.WriteUe(p.bitDepthChromaMinus8);
      Assoc(s, a + b, c);
      WriteFlag(w, false);
      Assoc(s, a + b + c, [false]);
      WriteFlag(w, false);
      Assoc(s, a + b + c + [false], [false]);
    } else {
      assert w.contents + [] == w.contents;
    }
  }

  method WriteOrder(w: Writer, p: Picture)
    requires w.Valid() && !w.overflow && |w.contents| + 99 <= w.Room()
    requires p.WellFormed()
    modifies w, w.data
    ensures w.Valid() && !w.overflow && w.contents == old(w.contents) + PrintOrder(p.OrderOf())
  {
    hide Buffers, After, UeCode;
    CodeLengths();
    ghost var s, a, b := w.contents, UeCode(p.log2MaxFrameNumMinus4), UeCode(p.pocType);
    w.WriteUe(p.log2MaxFrameNumMinus4);
    w.WriteUe(p.pocType);
    Assoc(s, a, b);
    if p.pocType == 0 {
      w.WriteUe(p.log2MaxPocLsbMinus4);
      Assoc(s, a + b, UeCode(p.log2MaxPocLsbMinus4));
    } else {
      assert a + b + [] == a + b;
    }
  }

  method WriteFrame(w: Writer, p: Picture)
    requires w.Valid() && !w.overflow && |w.contents| + 160 <= w.Room()
    modifies w, w.data
    ensures w.Valid() && !w.overflow && w.contents == old(w.contents) + PrintFrame(p.FrameOf())
  {
    hide Buffers, After, UeCode;
    CodeLengths();
    ghost var s, a, b, c := w.contents, UeCode(p.numRefFrames), UeCode(p.widthInMbsMinus1), UeCode(p.heightInMbsMinus1);
    w.WriteUe(p.numRefFrames);
    WriteFlag(w, p.gapsAllowed);
    Assoc(s, a, [p.gapsAllowed]);
    w.WriteUe(p.widthInMbsMinus1);
    Assoc(s, a + [p.gapsAllowed], b);
    w.WriteUe(p.heightInMbsMinus1);
    Assoc(s, a + [p.gapsAllowed] + b, c);
    ghost var sizes := a + [p.gapsAllowed] + b + c;
    WriteFlag(w, true);
    Assoc(s, sizes, [true]);
    WriteFlag(w, p.direct8x8);
    Assoc(s, sizes + [true], [p.direct8x8]);
    WriteFlag(w, false);
    Assoc(s, sizes + [true] + [p.direct8x8], [false]);
    WriteFlag(w, false);
    Assoc(s, sizes + [true] + [p.direct8x8] + [false], [false]);
  }

  method WriteOpening(w: Writer, p: Picture, l0: uint8, l1: uint8)
    requires w.Valid() && !w.overflow && |w.contents| + 99 <= w.Room()
    modifies w, w.data
    ensures w.Valid() && !w.overflow && w.contents == old(w.contents) + PrintOpening(OpeningOf(p, l0, l1))
  {
    hide Buffers, After, UeCode;
    CodeLengths();
    ghost var s, z, c, d := w.contents, UeCode(0), UeCode(l0), UeCode(l1);
    w.WriteUe(0);
    w.WriteUe(0);
    Assoc(s, z, z);
    WriteFlag(w, p.entropyCodingMode);
    Assoc(s, z + z, [p.entropyCodingMode]);
    WriteFlag(w, p.picOrderPresent);
    Assoc(s, z + z + [p.entropyCodingMode], [p.picOrderPresent]);
    ghost var flags := z + z + [p.entropyCodingMode] + [p.picOrderPresent];
    w.WriteUe(0);
    Assoc(s, flags, z);
    w.WriteUe(l0);
    Assoc(s, flags + z, c);
    w.WriteUe(l1);
    Assoc(s, flags + z + c, d);
  }

  method WriteSe(w: Writer, v: int8)
    requires w.Valid() && !w.overflow && |w.contents| + 17 <= w.Room()
    modifies w, w.data
    ensures w.Valid() && !w.overflow && w.contents == old(w.contents) + SeCode(v)
    ensures |w.contents| <= |old(w.contents)| + 17
  {
    hide Buffers, After, UeCode;
    CodeLengths();
    w.WriteSe(v);
  }

  method WriteCoding(w: Writer, p: Picture)
    requires w.Valid() && !w.overflow && |w.contents| + 99 <= w.Room()
    requires p.WellFormed()
    modifies w, w.data
    ensures w.Valid() && !w.overflow && w.contents == old(w.contents) + PrintCoding(p.CodingOf())
  {
    hide Buffers, After, SeCode, FixedBits;
    ghost var s, a, b, c, d := w.contents, FixedBits(p.weightedBipredIdc, 2), SeCode(p.picInitQpMinus26),
      SeCode(p.picInitQsMinus26), SeCode(p.chromaQpIndexOffset);
    WriteFlag(w, p.weightedPred);
    w.Write(p.weightedBipredIdc, 2);
    Assoc(s, [p.weightedPred], a);
    WriteSe(w, p.picInitQpMinus26);
    Assoc(s, [p.weightedPred] + a, b);
    WriteSe(w, p.picInitQsMinus26);
    Assoc(s, [p.weightedPred] + a + b, c);
    WriteSe(w, p.chromaQpIndexOffset);
    Assoc(s, [p.weightedPred] + a + b + c, d);
    ghost var quants := [p.weightedPred] + a + b + c + d;
    WriteFlag(w, p.deblockingControl);
    Assoc(s, quants, [p.deblockingControl]);
    WriteFlag(w, p.constrainedIntra);
    Assoc(s, quants + [p.deblockingControl], [p.constrainedIntra]);
    WriteFlag(w, p.redundantPicCnt);
    Assoc(s, quants + [p.deblockingControl] + [p.constrainedIntra], [p.redundantPicCnt]);
  }

  method WriteExtension(w: Writer, p: Picture)
    requires w.Valid() && !w.overflow && |w.contents| + 99 <= w.Room()
    modifies w, w.data
    ensures w.Valid() && !w.overflow && w.contents == old(w.contents) + PrintExtension(p.ExtensionOf())
  {
    hide Buffers, After, SeCode;
    ghost var s := w.contents;
    if p.transform8x8 || p.secondChromaQpIndexOffset != p.chromaQpIndexOffset {
      WriteFlag(w, p.transform8x8);
      WriteFlag(w, false);
      Assoc(s, [p.transform8x8], [false]);
      WriteSe(w, p.secondChromaQpIndexOffset);
      Assoc(s, [p.transform8x8] + [false], SeCode(p.secondChromaQpIndexOffset));
    } else {
      assert s + [] == s;
    }
  }

  // The written payload of a buffer, closed by rbsp_trailing_bits().
  method Finish(w: Writer) returns (rbsp: seq<byte>)
    requires w.Valid() && !w.overflow && |w.contents| + 8 <= w.Room()
    modifies w, w.data
    ensures w.Valid() && !w.overflow
    ensures rbsp == FromBits(Aligned(old(w.contents)))
  {
    hide BytesBits, FromBits, After, AlignmentBits, Zeros;
    AlignedLength(w.contents);
    w.FinishRbsp();
    var n := w.Size();
    WholeBytes(w.data[..], w.contents, n);
    return w.data[..n];
  }

  lemma WholeBytes(bs: seq<byte>, s: BitString, n: nat)
    requires Buffers(bs, s) && |s| % 8 == 0 && n == (|s| + 7) / 8
    ensures n <= |bs| && bs[..n] == FromBits(s)
  {
    hide BytesBits, FromBits;
    BytesBitsSlice(bs, 0, n);
    FromBitsOfBytes(bs[..n]);
    assert bs[0..n] == bs[..n];
  }

  function SpsUnit(profile: Profile, p: Picture): seq<byte> {
    NalUnit([0x67], FromBits(Aligned(SpsBits(profile, p))))
  }

  function PpsUnit(p: Picture, l0: uint8, l1: uint8): seq<byte> {
    NalUnit([0x68], FromBits(Aligned(PpsBits(p, l0, l1))))
  }

  method SpsRbsp(profile: Profile, p: Picture) returns (rbsp: seq<byte>)
    requires p.WellFormed() && p.Supported()
    ensures rbsp == FromBits(Aligned(SpsBits(profile, p)))
  {
    hide Buffers, After, UeCode, PrintChroma, PrintOrder, PrintFrame, FixedBits, Aligned, FromBits;
    var data := new byte[RBSP_BYTES];
    var w := new Writer(data);
    CodeLengths();
    SpsLength(profile, p);
    ghost var a, b := FixedBits(profile.Idc(), 8), FixedBits(profile.ConstraintFlags(), 8);
    ghost var prefix := SpsPrefix(profile);
    w.Write(profile.Idc(), 8);
    Start(a);
    w.Write(profile.ConstraintFlags(), 8);
    w.Write(41, 8);
    w.WriteUe(0);
    WriteChroma(w, profile, p);
    WriteOrder(w, p);
    WriteFrame(w, p);
    rbsp := Finish(w);
  }

  lemma Start(a: BitString)
    ensures [] + a == a
  {
  }

  method PpsRbsp(p: Picture, l0: uint8, l1: uint8) returns (rbsp: seq<byte>)
    requires p.WellFormed()
    ensures rbsp == FromBits(Aligned(PpsBits(p, l0, l1)))
  {
    hide Buffers, After, PrintOpening, PrintCoding, PrintExtension, Aligned, FromBits;
    var data := new byte[RBSP_BYTES];
    var w := new Writer(data);
    PpsLength(p, l0, l1);
    WriteOpening(w, p, l0, l1);
    Start(PrintOpening(OpeningOf(p, l0, l1)));
    WriteCoding(w, p);
    WriteExtension(w, p);
    rbsp := Finish(w);
  }

  method AppendSps(output: ByteWriter, profile: Profile, p: Picture) returns (o: Outcome)
    requires output.Valid() && p.WellFormed()
    modifies output, output.data
    ensures output.Valid()
    ensures o ==
      if !p.Supported() then Fail(Unsupported)
      else if |old(output.Contents())| + |Framed(SpsUnit(profile, p))| <= output.data.Length then Pass
      else Fail(NoSpace)
    ensures o.Pass? ==> output.Contents() == old(output.Contents()) + Framed(SpsUnit(profile, p))
  {
    hide ByteWriter.Contents, SpsBits, FromBits, Escape;
    :- Check(
      && p.bitDepthLumaMinus8 == 0 && p.bitDepthChromaMinus8 == 0 && p.chromaFormatIdc == 1
      && p.frameMbsOnly && p.numSliceGroupsMinus1 == 0,
      Unsupported);
    :- Check(p.pocType != 1, Unsupported);
    var rbsp := SpsRbsp(profile, p);
    o := output.AppendEscapedNal(0x67, rbsp);
  }

  method AppendPps(output: ByteWriter, p: Picture, l0: uint8, l1: uint8) returns (o: Outcome)
    requires output.Valid() && p.WellFormed()
    modifies output, output.data
    ensures output.Valid()
    ensures o ==
      if |old(output.Contents())| + |Framed(PpsUnit(p, l0, l1))| <= output.data.Length then Pass else Fail(NoSpace)
    ensures o.Pass? ==> output.Contents() == old(output.Contents()) + Framed(PpsUnit(p, l0, l1))
  {
    hide ByteWriter.Contents, PpsBits, FromBits, Escape;
    var rbsp := PpsRbsp(p, l0, l1);
    o := output.AppendEscapedNal(0x68, rbsp);
  }
}
