/** What a decoder makes of the access units of src/h264_annexb.c. */
module H264Received {
  import opened Bitstring
  import opened H264AccessUnit
  import opened H264AnnexB
  import opened H264Syntax
  import opened NalStream
  import opened SyntaxElements
  import opened Wrappers

  /** The parameter sets a decoder holds by their ids, and the other units it was given. */
  datatype Decoder = Decoder(sps: map<nat, Sps>, pps: map<nat, Pps>, units: seq<seq<byte>>)

  // One NAL unit, by sections 7.3.1 and 7.4.1 of ITU-T H.264: type 7 is a sequence parameter set and type 8 a picture
  // parameter set, which a decoder does not take with nal_ref_idc 0 or out of their ranges.
  function Take(d: Decoder, unit: seq<byte>): Decoder {
    if unit == [] || unit[0] >= 128 then d
    else
      var kind, s := unit[0] % 32, BytesBits(Unescape(unit[1..]));
      if kind != 7 && kind != 8 then d.(units := d.units + [unit])
      else if unit[0] / 32 == 0 then d
      else if kind == 7 then
        var x := ParseSps(s);
        if x.Success? then d.(sps := d.sps[x.value.id := x.value]) else d
      else
        var x := ParsePps(s);
        if x.Success? then d.(pps := d.pps[x.value.id := x.value]) else d
  }

  function TakeEach(d: Decoder, units: seq<seq<byte>>): Decoder
    decreases |units|
  {
    if units == [] then d else TakeEach(Take(d, units[0]), units[1..])
  }

  function Receive(d: Decoder, accessUnit: seq<byte>): Decoder {
    TakeEach(d, Split(accessUnit))
  }

  // ---------- What the sets tell ----------

  // Every field of the sequence parameter set, from the profile and the VA picture.
  predicate TellsSps(x: Sps, profile: Profile, p: Picture) {
    && x.profileIdc == (if profile.High? then 100 else if profile.Main? then 77 else 66)
    && x.constraintFlags == (if profile.High? then 0 else if profile.Main? then 0x40 else 0xc0)
    && x.levelIdc == 41 && x.id == 0 && x.chroma == (if profile.High? then Some(Chroma(1, 0, 0)) else None)
    && x.log2MaxFrameNumMinus4 == p.log2MaxFrameNumMinus4 && x.pocType == p.pocType
    && x.log2MaxPocLsbMinus4 == (if p.pocType == 0 then Some(p.log2MaxPocLsbMinus4) else None)
    && x.numRefFrames == p.numRefFrames && x.gapsAllowed == p.gapsAllowed
    && x.widthInMbsMinus1 == p.widthInMbsMinus1 && x.heightInMapUnitsMinus1 == p.heightInMbsMinus1
    && x.frameMbsOnly && x.direct8x8 == p.direct8x8
  }

  predicate TellsPps(x: Pps, p: Picture, l0: uint8, l1: uint8) {
    && x.id == 0 && x.spsId == 0
    && x.entropyCodingMode == p.entropyCodingMode && x.bottomFieldPicOrder == p.picOrderPresent
    && x.numRefIdxL0Minus1 == l0 && x.numRefIdxL1Minus1 == l1
    && x.weightedPred == p.weightedPred && x.weightedBipredIdc == p.weightedBipredIdc
    && x.picInitQpMinus26 == p.picInitQpMinus26 && x.picInitQsMinus26 == p.picInitQsMinus26
    && x.chromaQpIndexOffset == p.chromaQpIndexOffset && x.deblockingControl == p.deblockingControl
    && x.constrainedIntra == p.constrainedIntra && x.redundantPicCnt == p.redundantPicCnt
    && x.Transform8x8() == p.transform8x8 && x.SecondChromaQpIndexOffset() == p.secondChromaQpIndexOffset
  }

  predicate SpsAllowed(p: Picture) {
    && p.log2MaxFrameNumMinus4 <= 12 && p.numRefFrames <= 16
    && (p.pocType == 2 || (p.pocType == 0 && p.log2MaxPocLsbMinus4 <= 12))
  }

  predicate PpsAllowed(p: Picture, l0: uint8, l1: uint8) {
    && l0 <= 31 && l1 <= 31 && p.weightedBipredIdc <= 2
    && -26 <= p.picInitQpMinus26 <= 25 && -26 <= p.picInitQsMinus26 <= 25
    && -12 <= p.chromaQpIndexOffset <= 12 && -12 <= p.secondChromaQpIndexOffset <= 12
  }

  lemma SpsTaken(d: Decoder, profile: Profile, p: Picture)
    requires p.WellFormed() && p.Supported()
    ensures
      var r := Take(d, SpsUnit(profile, p));
      && r.pps == d.pps && r.units == d.units
      && (if SpsAllowed(p) then 0 in r.sps && TellsSps(r.sps[0], profile, p) && r.sps == d.sps[0 := r.sps[0]]
          else r == d)
  {
    hide ParseSps, ParsePps, SpsBits, NalUnit, FromBits, Unescape, BytesBits;
    ParameterSetUnit(0x67, SpsBits(profile, p));
    SpsParsesBack(profile, p);
    assert SpsUnit(profile, p)[0] == 0x67;
    assert BytesBits(Unescape(SpsUnit(profile, p)[1..])) == Aligned(SpsBits(profile, p));
    assert SpsAllowed(p) == p.SpsInRange();
  }

  lemma PpsTaken(d: Decoder, p: Picture, l0: uint8, l1: uint8)
    requires p.WellFormed()
    ensures
      var r := Take(d, PpsUnit(p, l0, l1));
      && r.sps == d.sps && r.units == d.units
      && (if PpsAllowed(p, l0, l1) then 0 in r.pps && TellsPps(r.pps[0], p, l0, l1) && r.pps == d.pps[0 := r.pps[0]]
          else r == d)
  {
    hide ParseSps, ParsePps, PpsBits, NalUnit, FromBits, Unescape, BytesBits;
    ParameterSetUnit(0x68, PpsBits(p, l0, l1));
    PpsParsesBack(p, l0, l1);
    assert PpsUnit(p, l0, l1)[0] == 0x68;
    assert BytesBits(Unescape(PpsUnit(p, l0, l1)[1..])) == Aligned(PpsBits(p, l0, l1));
    assert PpsAllowed(p, l0, l1) == p.PpsInRange(l0, l1);
  }

  // ---------- The slices ----------

  // A unit of another type than the two parameter sets, with a clear forbidden bit in a header that is not zero.
  predicate OtherUnit(unit: seq<byte>) {
    unit != [] && 0 < unit[0] < 128 && unit[0] % 32 != 7 && unit[0] % 32 != 8
  }

  lemma {:induction false} OthersTaken(d: Decoder, units: seq<seq<byte>>)
    requires forall u :: u in units ==> OtherUnit(u)
    ensures TakeEach(d, units) == d.(units := d.units + units)
    decreases |units|
  {
    if units == [] {
      assert d.units + units == d.units;
    } else {
      assert units[0] in units;
      OthersTaken(Take(d, units[0]), units[1..]);
      assert d.units + [units[0]] + units[1..] == d.units + units;
    }
  }

  lemma StrippedOther(u: seq<byte>)
    requires OtherUnit(u)
    ensures OtherUnit(Strip(u))
  {
    StripTail(u);
    assert |Strip(u)| > 0;
  }

  lemma {:induction false} DeliveredOthers(units: seq<seq<byte>>)
    requires forall u :: u in units ==> OtherUnit(u)
    ensures forall u :: u in Delivered(units) ==> OtherUnit(u)
    decreases |units|
  {
    hide Strip, OtherUnit;
    if |units| > 1 {
      StrippedOther(units[0]);
      DeliveredOthers(units[1..]);
    }
  }

  lemma {:induction false} BaresAre(slices: seq<seq<byte>>)
    ensures forall i :: 0 <= i < |slices| ==> Bares(slices)[i] == Bare(slices[i])
  {
    hide Bare;
    if slices != [] {
      BaresAre(slices[1..]);
    }
  }

  // The number of slices in these batches.
  function Count(batches: seq<Batch>): nat {
    if batches == [] then 0 else |batches[0].parameters| + Count(batches[1..])
  }

  // A slice lies in its buffer and is not empty.
  predicate Whole(data: seq<byte>, x: SliceParameter)
    ensures Whole(data, x) ==> x.offset + x.size <= |data|
  {
    x.all && x.size > 0 && x.offset + x.size <= |data|
  }

  lemma {:induction false} AllOkExactly(data: seq<byte>, xs: seq<SliceParameter>)
    ensures AllOk(data, xs) <==> forall k :: 0 <= k < |xs| ==> Whole(data, xs[k])
  {
    if xs != [] {
      AllOkExactly(data, xs[1..]);
      assert forall k :: 0 < k < |xs| ==> xs[k] == xs[1..][k - 1];
    }
  }

  // The clients' data, buffer behind buffer.
  function Strung(batches: seq<Batch>): seq<byte> {
    if batches == [] then [] else batches[0].data + Strung(batches[1..])
  }

  // The room that is reserved: the data and 4096 bytes.
  lemma {:induction false} CapacityIs(batches: seq<Batch>)
    ensures Capacity(batches) == 4096 + |Strung(batches)|
  {
    if batches != [] {
      CapacityIs(batches[1..]);
    }
  }

  // The slices are taken whole exactly when each is whole and no buffer comes without slices.
  lemma {:induction false} CompleteExactly(batches: seq<Batch>)
    ensures Complete(batches) <==>
            forall b :: b in batches ==>
              b.parameters != [] && forall k :: 0 <= k < |b.parameters| ==> Whole(b.data, b.parameters[k])
  {
    hide AllOk, Whole;
    if batches != [] {
      AllOkExactly(batches[0].data, batches[0].parameters);
      CompleteExactly(batches[1..]);
      assert forall b :: b in batches <==> b == batches[0] || b in batches[1..];
    }
  }

  // The parameters are ones the driver can build sets for: 4:2:0 in eight bits, frames without slice groups, and no
  // picture order count by cycles.
  predicate Plain(p: Picture) {
    && p.chromaFormatIdc == 1 && p.bitDepthLumaMinus8 == 0 && p.bitDepthChromaMinus8 == 0
    && p.frameMbsOnly && p.numSliceGroupsMinus1 == 0 && p.pocType != 1
  }

  // When an access unit is built, and the errors otherwise.
  lemma BuiltExactly(profile: Profile, p: Picture, batches: seq<Batch>, capacity: nat)
    ensures
      var r := Built(profile, p, batches, capacity);
      var whole := forall b :: b in batches ==>
        b.parameters != [] && forall k :: 0 <= k < |b.parameters| ==> Whole(b.data, b.parameters[k]);
      r ==
      if batches == [] || capacity == 0 || batches[0].parameters == [] then Failure(Invalid)
      else if !Plain(p) then Failure(Unsupported)
      else if |AccessUnit(profile, p, batches)| > capacity then Failure(NoSpace)
      else if !whole then Failure(Invalid)
      else Success(AccessUnit(profile, p, batches))
  {
    hide AccessUnit, Complete, Whole;
    CompleteExactly(batches);
  }

  lemma {:induction false} TakenAre(data: seq<byte>, xs: seq<SliceParameter>)
    requires AllOk(data, xs)
    ensures |Taken(data, xs)| == |xs|
    ensures forall k :: 0 <= k < |xs| ==>
              Whole(data, xs[k]) && Taken(data, xs)[k] == data[xs[k].offset..xs[k].offset + xs[k].size]
  {
    if xs != [] {
      TakenAre(data, xs[1..]);
    }
  }

  // Slice k of batch b stands behind the slices of the batches before.
  lemma {:induction false} TakenAllAre(batches: seq<Batch>, b: nat, k: nat)
    requires Complete(batches)
    requires b < |batches| && k < |batches[b].parameters|
    ensures |TakenAll(batches)| == Count(batches) && Count(batches[..b]) + k < Count(batches)
    ensures
      var x := batches[b].parameters[k];
      && Whole(batches[b].data, x)
      && TakenAll(batches)[Count(batches[..b]) + k] == batches[b].data[x.offset..x.offset + x.size]
  {
    hide AllOk, Taken;
    var first := batches[0];
    TakenAre(first.data, first.parameters);
    if b > 0 {
      TakenAllAre(batches[1..], b - 1, k);
      assert batches[..b][1..] == batches[1..][..b - 1];
    } else {
      TakenAllCount(batches[1..]);
    }
  }

  lemma {:induction false} TakenAllCount(batches: seq<Batch>)
    requires Complete(batches)
    ensures |TakenAll(batches)| == Count(batches)
  {
    hide AllOk, Taken;
    if batches != [] {
      TakenAre(batches[0].data, batches[0].parameters);
      TakenAllCount(batches[1..]);
    }
  }

  // The unit is this slice without the client's start code, and without zeros at its end unless it is the last.
  predicate Carries(unit: seq<byte>, slice: seq<byte>, last: bool) {
    var start := if [0, 0, 1] <= slice then 3 else if [0, 0, 0, 1] <= slice then 4 else 0;
    var end := start + |unit|;
    && end <= |slice| && slice[start..end] == unit && (forall k :: end <= k < |slice| ==> slice[k] == 0)
    && (if last then end == |slice| else unit == [] || unit[|unit| - 1] != 0)
  }

  lemma BareStart(slice: seq<byte>)
    ensures Bare(slice) == slice[if [0, 0, 1] <= slice then 3 else if [0, 0, 0, 1] <= slice then 4 else 0..]
  {
  }

  lemma CarriesBare(slice: seq<byte>, last: bool)
    ensures Carries(if last then Bare(slice) else Strip(Bare(slice)), slice, last)
  {
    hide Strip, Bare;
    BareStart(slice);
    StripTail(Bare(slice));
  }

  // A decoder that is given the access unit holds the parameter sets of the picture if they are in range, and no other
  // set changes; and it is given the client's slices in order, each slice of each buffer.
  lemma ReceivedPicture(d: Decoder, profile: Profile, p: Picture, batches: seq<Batch>)
    requires p.WellFormed() && p.Supported()
    requires batches != [] && batches[0].parameters != [] && Complete(batches)
    requires forall s :: s in TakenAll(batches) ==> NoTriples(Bare(s)) && OtherUnit(Bare(s))
    ensures
      var first := batches[0].parameters[0];
      var l0, l1 := first.numRefIdxL0Minus1, first.numRefIdxL1Minus1;
      var r := Receive(d, AccessUnit(profile, p, batches));
      && (if SpsAllowed(p) then 0 in r.sps && TellsSps(r.sps[0], profile, p) && r.sps == d.sps[0 := r.sps[0]]
          else r.sps == d.sps)
      && (if PpsAllowed(p, l0, l1) then 0 in r.pps && TellsPps(r.pps[0], p, l0, l1) && r.pps == d.pps[0 := r.pps[0]]
          else r.pps == d.pps)
      && |r.units| == |d.units| + Count(batches) && d.units <= r.units
      && forall b, k :: 0 <= b < |batches| && 0 <= k < |batches[b].parameters| ==>
           var data, x, at := batches[b].data, batches[b].parameters[k], |d.units| + Count(batches[..b]) + k;
           && Whole(data, x) && at < |r.units|
           && Carries(r.units[at], data[x.offset..x.offset + x.size], at == |r.units| - 1)
  {
    hide Take, NoTriples, OtherUnit, Split, Delivered, Bares, Bare, AccessUnit, TakenAll, Carries, Count, Complete,
      SpsUnit, PpsUnit, TellsSps, TellsPps, SpsAllowed, PpsAllowed, Picture.Supported, Picture.WellFormed, Whole;
    var first, slices := batches[0].parameters[0], TakenAll(batches);
    var sps, pps := SpsUnit(profile, p), PpsUnit(p, first.numRefIdxL0Minus1, first.numRefIdxL1Minus1);
    var units := Delivered(Bares(slices));
    DeliveredAccessUnit(profile, p, batches);
    BaresAre(slices);
    SpsTaken(d, profile, p);
    PpsTaken(Take(d, sps), p, first.numRefIdxL0Minus1, first.numRefIdxL1Minus1);
    DeliveredOthers(Bares(slices));
    OthersTaken(Take(Take(d, sps), pps), units);
    TwoTaken(d, sps, pps, units);
    TakenAllCount(batches);
    forall b, k | 0 <= b < |batches| && 0 <= k < |batches[b].parameters|
      ensures
        var data, x, at := batches[b].data, batches[b].parameters[k], Count(batches[..b]) + k;
        && Whole(data, x) && at < |units| && Carries(units[at], data[x.offset..x.offset + x.size], at == |units| - 1)
    {
      var at := Count(batches[..b]) + k;
      TakenAllAre(batches, b, k);
      DeliveredAt(Bares(slices), at);
      CarriesBare(slices[at], at == |units| - 1);
    }
  }

  lemma TwoTaken(d: Decoder, a: seq<byte>, b: seq<byte>, units: seq<seq<byte>>)
    ensures TakeEach(d, [a, b] + units) == TakeEach(Take(Take(d, a), b), units)
  {
    hide Take;
    assert ([a, b] + units)[1..] == [b] + units && ([b] + units)[1..] == units;
  }
}
