/** The slices and the whole access unit of src/h264_annexb.c, and the room src/decode.c gives it. */
module H264AccessUnit {
  import opened Bitstring
  import opened H264AnnexB
  import opened H264Syntax
  import opened NalStream
  import opened SyntaxElements
  import opened Wrappers

  datatype SliceParameter = SliceParameter(
    all: bool, offset: uint32, size: uint32, numRefIdxL0Minus1: uint8, numRefIdxL1Minus1: uint8)

  /** One slice data buffer and the slices that lie in it. */
  datatype Batch = Batch(parameters: seq<SliceParameter>, data: seq<byte>)

  predicate HasStartCode(s: seq<byte>) {
    (|s| >= 3 && s[0] == 0 && s[1] == 0 && s[2] == 1) ||
    (|s| >= 4 && s[0] == 0 && s[1] == 0 && s[2] == 0 && s[3] == 1)
  }

  // A slice as it is appended: behind the client's own start code, or behind one of the driver's.
  function Emitted(s: seq<byte>): seq<byte> {
    if HasStartCode(s) then s else START_CODE + s
  }

  function Bytes(slices: seq<seq<byte>>): seq<byte> {
    if slices == [] then [] else Emitted(slices[0]) + Bytes(slices[1..])
  }

  // A slice is whole, lies in its buffer and is not empty.
  predicate SliceOk(data: seq<byte>, x: SliceParameter)
    ensures SliceOk(data, x) ==> x.offset + x.size <= |data|
  {
    x.all && x.offset <= |data| && x.size <= |data| - x.offset && x.size != 0
  }

  // The slices before the first one the driver refuses.
  function Taken(data: seq<byte>, xs: seq<SliceParameter>): seq<seq<byte>> {
    if xs == [] || !SliceOk(data, xs[0]) then []
    else [data[xs[0].offset..xs[0].offset + xs[0].size]] + Taken(data, xs[1..])
  }

  predicate AllOk(data: seq<byte>, xs: seq<SliceParameter>) {
    xs == [] || (SliceOk(data, xs[0]) && AllOk(data, xs[1..]))
  }

  predicate BatchOk(b: Batch) {
    b.parameters != [] && AllOk(b.data, b.parameters)
  }

  function TakenAll(batches: seq<Batch>): seq<seq<byte>> {
    if batches == [] then []
    else Taken(batches[0].data, batches[0].parameters) + if BatchOk(batches[0]) then TakenAll(batches[1..]) else []
  }

  predicate Complete(batches: seq<Batch>) {
    batches == [] || (BatchOk(batches[0]) && Complete(batches[1..]))
  }

  lemma {:induction false} BytesAppend(a: seq<seq<byte>>, b: seq<seq<byte>>)
    ensures Bytes(a + b) == Bytes(a) + Bytes(b)
    decreases |a|
  {
    hide Emitted;
    if a == [] {
      assert a + b == b;
    } else {
      assert (a + b)[1..] == a[1..] + b;
      BytesAppend(a[1..], b);
    }
  }

  method AppendSlice(output: ByteWriter, slice: seq<byte>) returns (o: Outcome)
    requires output.Valid()
    modifies output, output.data
    ensures output.Valid()
    ensures o == if |old(output.Contents())| + |Emitted(slice)| <= output.data.Length then Pass else Fail(NoSpace)
    ensures o.Pass? ==> output.Contents() == old(output.Contents()) + Emitted(slice)
  {
    hide ByteWriter.Contents;
    if !HasStartCode(slice) {
      o := output.AppendStartCode();
      if o.Fail? {
        return;
      }
    }
    o := output.AppendBytes(slice);
  }

  method AppendBatch(output: ByteWriter, b: Batch) returns (o: Outcome)
    requires output.Valid()
    modifies output, output.data
    ensures output.Valid()
    ensures
      var slices := Taken(b.data, b.parameters);
      && o == (if |old(output.Contents())| + |Bytes(slices)| > output.data.Length then Fail(NoSpace)
               else if BatchOk(b) then Pass else Fail(Invalid))
      && (o.Pass? ==> output.Contents() == old(output.Contents()) + Bytes(slices))
  {
    hide ByteWriter.Contents, Emitted, SliceOk, Bytes, Taken, AllOk;
    ghost var goal := output.Contents() + Bytes(Taken(b.data, b.parameters));
    var i := 0;
    NoSlices(output.Contents(), b.data);
    :- Check(b.parameters != [], Invalid);
    assert b.parameters[0..] == b.parameters;
    while i < |b.parameters|
      invariant 0 <= i <= |b.parameters| && output.Valid()
      invariant output.Contents() + Bytes(Taken(b.data, b.parameters[i..])) == goal
      invariant AllOk(b.data, b.parameters[i..]) == AllOk(b.data, b.parameters)
    {
      var x := b.parameters[i];
      assert b.parameters[i..] == [x] + b.parameters[i + 1..];
      if !SliceOk(b.data, x) {
        NextRefused(output.Contents(), b.data, x, b.parameters[i + 1..]);
        return Fail(Invalid);
      }
      NextTaken(output.Contents(), b.data, x, b.parameters[i + 1..]);
      var slice := b.data[x.offset..x.offset + x.size];
      o := AppendSlice(output, slice);
      if o.Fail? {
        return;
      }
      i := i + 1;
    }
    assert b.parameters[i..] == [];
    NoSlices(output.Contents(), b.data);
    return Pass;
  }

  lemma NoSlices(out: seq<byte>, data: seq<byte>)
    ensures out + Bytes(Taken(data, [])) == out && AllOk(data, [])
  {
  }

  lemma NextRefused(out: seq<byte>, data: seq<byte>, x: SliceParameter, rest: seq<SliceParameter>)
    requires !SliceOk(data, x)
    ensures out + Bytes(Taken(data, [x] + rest)) == out && !AllOk(data, [x] + rest)
  {
  }

  lemma NextTaken(out: seq<byte>, data: seq<byte>, x: SliceParameter, rest: seq<SliceParameter>)
    requires SliceOk(data, x)
    ensures out + Bytes(Taken(data, [x] + rest)) ==
            out + Emitted(data[x.offset..x.offset + x.size]) + Bytes(Taken(data, rest))
    ensures AllOk(data, [x] + rest) == AllOk(data, rest)
  {
    hide Emitted, SliceOk, Bytes;
    assert ([x] + rest)[1..] == rest;
    FirstSlice(out, data[x.offset..x.offset + x.size], Taken(data, rest));
  }

  lemma FirstSlice(out: seq<byte>, slice: seq<byte>, rest: seq<seq<byte>>)
    ensures out + Bytes([slice] + rest) == out + Emitted(slice) + Bytes(rest)
  {
    hide Emitted;
    assert ([slice] + rest)[1..] == rest;
  }

  lemma NextBatch(b: Batch, rest: seq<Batch>)
    ensures TakenAll([b] + rest) == Taken(b.data, b.parameters) + if BatchOk(b) then TakenAll(rest) else []
    ensures Complete([b] + rest) == (BatchOk(b) && Complete(rest))
    ensures Bytes(TakenAll([b] + rest)) ==
            Bytes(Taken(b.data, b.parameters)) + if BatchOk(b) then Bytes(TakenAll(rest)) else []
  {
    hide Bytes, Taken, BatchOk;
    assert ([b] + rest)[1..] == rest;
    BytesAppend(Taken(b.data, b.parameters), if BatchOk(b) then TakenAll(rest) else []);
    NoSlices([], []);
    assert Bytes([]) == [] by {
      EmptyBytes();
    }
  }

  lemma EmptyBytes()
    ensures Bytes([]) == []
  {
  }

  lemma NoBatches()
    ensures Bytes(TakenAll([])) == [] && Complete([])
  {
  }

  method AppendSlices(output: ByteWriter, batches: seq<Batch>) returns (o: Outcome)
    requires output.Valid()
    modifies output, output.data
    ensures output.Valid()
    ensures o ==
      if |old(output.Contents())| + |Bytes(TakenAll(batches))| > output.data.Length then Fail(NoSpace)
      else if Complete(batches) then Pass else Fail(Invalid)
    ensures o.Pass? ==> output.Contents() == old(output.Contents()) + Bytes(TakenAll(batches))
  {
    hide ByteWriter.Contents, Bytes, Taken, BatchOk, TakenAll, Complete;
    ghost var goal := output.Contents() + Bytes(TakenAll(batches));
    var i := 0;
    assert batches[0..] == batches;
    while i < |batches|
      invariant 0 <= i <= |batches| && output.Valid()
      invariant output.Contents() + Bytes(TakenAll(batches[i..])) == goal
      invariant Complete(batches[i..]) == Complete(batches)
    {
      assert batches[i..] == [batches[i]] + batches[i + 1..];
      NextBatch(batches[i], batches[i + 1..]);
      o := AppendBatch(output, batches[i]);
      if o.Fail? {
        return;
      }
      i := i + 1;
    }
    assert batches[i..] == [];
    NoBatches();
    return Pass;
  }

  function AccessUnit(profile: Profile, p: Picture, batches: seq<Batch>): seq<byte>
    requires batches != [] && batches[0].parameters != []
  {
    var first := batches[0].parameters[0];
    Framed(SpsUnit(profile, p)) + Framed(PpsUnit(p, first.numRefIdxL0Minus1, first.numRefIdxL1Minus1)) +
    Bytes(TakenAll(batches))
  }

  // What venus_h264_build_access_unit returns for an output buffer of this capacity.
  function Built(profile: Profile, p: Picture, batches: seq<Batch>, capacity: nat): Result<seq<byte>> {
    if batches == [] || capacity == 0 || batches[0].parameters == [] then Failure(Invalid)
    else if !p.Supported() then Failure(Unsupported)
    else if |AccessUnit(profile, p, batches)| > capacity then Failure(NoSpace)
    else if !Complete(batches) then Failure(Invalid)
    else Success(AccessUnit(profile, p, batches))
  }

  method AppendAll(writer: ByteWriter, profile: Profile, p: Picture, batches: seq<Batch>) returns (o: Outcome)
    requires writer.Valid() && writer.Contents() == []
    requires p.WellFormed() && batches != [] && batches[0].parameters != []
    modifies writer, writer.data
    ensures writer.Valid()
    ensures o ==
      if !p.Supported() then Fail(Unsupported)
      else if |AccessUnit(profile, p, batches)| > writer.data.Length then Fail(NoSpace)
      else if Complete(batches) then Pass else Fail(Invalid)
    ensures o.Pass? ==> writer.Contents() == AccessUnit(profile, p, batches)
  {
    hide Bytes, TakenAll, Complete, SpsUnit, PpsUnit, Framed, Picture.Supported, ByteWriter.Contents;
    var first := batches[0].parameters[0];
    o := AppendSps(writer, profile, p);
    if o.Fail? {
      return;
    }
    o := AppendPps(writer, p, first.numRefIdxL0Minus1, first.numRefIdxL1Minus1);
    if o.Fail? {
      return;
    }
    o := AppendSlices(writer, batches);
  }

  method BuildAccessUnit(profile: Profile, p: Picture, batches: seq<Batch>, output: array<byte>)
    returns (res: Result<nat>)
    requires p.WellFormed()
    modifies output
    ensures
      match Built(profile, p, batches, output.Length)
      case Failure(e) => res == Failure(e)
      case Success(bytes) => res == Success(|bytes|) && |bytes| <= output.Length && output[..|bytes|] == bytes
  {
    hide Bytes, TakenAll, Complete, Picture.Supported, AccessUnit;
    :- Need(batches != [] && output.Length > 0 && batches[0].parameters != [], Invalid);
    var writer := new ByteWriter(output);
    var o := AppendAll(writer, profile, p, batches);
    if o.Fail? {
      return Failure(o.error);
    }
    return Success(writer.length);
  }

  // ---------- Room ----------

  function TotalData(batches: seq<Batch>): nat {
    if batches == [] then 0 else |batches[0].data| + TotalData(batches[1..])
  }

  // The capacity collect_h264_buffers() gives the output.
  function Capacity(batches: seq<Batch>): nat {
    OVERHEAD + TotalData(batches)
  }

  predicate Apart(x: SliceParameter, y: SliceParameter) {
    x.offset + x.size <= y.offset || y.offset + y.size <= x.offset
  }

  // No two acceptable slices of a batch share a byte.
  predicate DisjointSlices(b: Batch) {
    forall i, j ::
      0 <= i < j < |b.parameters| && SliceOk(b.data, b.parameters[i]) && SliceOk(b.data, b.parameters[j]) ==>
      Apart(b.parameters[i], b.parameters[j])
  }

  function Positions(lo: nat, hi: nat): (r: set<nat>)
    ensures forall i :: i in r <==> lo <= i < hi
    ensures lo <= hi ==> |r| == hi - lo
  {
    if lo >= hi then {} else Positions(lo, hi - 1) + {hi - 1}
  }

  // The bytes the slices taken from a batch cover.
  function Cover(data: seq<byte>, xs: seq<SliceParameter>): set<nat> {
    if xs == [] || !SliceOk(data, xs[0]) then {}
    else Positions(xs[0].offset, xs[0].offset + xs[0].size) + Cover(data, xs[1..])
  }

  function TotalBytes(slices: seq<seq<byte>>): nat {
    if slices == [] then 0 else |slices[0]| + TotalBytes(slices[1..])
  }

  lemma {:induction false} CoverInside(data: seq<byte>, xs: seq<SliceParameter>, i: nat)
    requires i in Cover(data, xs)
    ensures i < |data|
    ensures exists k :: 0 <= k < |xs| && SliceOk(data, xs[k]) && xs[k].offset <= i < xs[k].offset + xs[k].size
  {
    hide SliceOk;
    if !(xs[0].offset <= i < xs[0].offset + xs[0].size) {
      CoverInside(data, xs[1..], i);
      var k :| 0 <= k < |xs[1..]| && SliceOk(data, xs[1..][k]) &&
        xs[1..][k].offset <= i < xs[1..][k].offset + xs[1..][k].size;
      assert xs[k + 1] == xs[1..][k];
    }
  }

  lemma {:induction false} CoverCount(data: seq<byte>, xs: seq<SliceParameter>)
    requires DisjointSlices(Batch(xs, data))
    ensures |Cover(data, xs)| == TotalBytes(Taken(data, xs))
  {
    hide SliceOk, Positions, Apart;
    if xs != [] && SliceOk(data, xs[0]) {
      var x, rest := xs[0], xs[1..];
      assert DisjointSlices(Batch(rest, data)) by {
        assert forall k :: 0 <= k < |rest| ==> rest[k] == xs[k + 1];
      }
      CoverCount(data, rest);
      FirstIsApart(data, xs);
    }
  }

  lemma FirstIsApart(data: seq<byte>, xs: seq<SliceParameter>)
    requires DisjointSlices(Batch(xs, data)) && xs != [] && SliceOk(data, xs[0])
    ensures Positions(xs[0].offset, xs[0].offset + xs[0].size) !! Cover(data, xs[1..])
  {
    hide SliceOk, Cover;
    forall i | i in Cover(data, xs[1..]) ensures i !in Positions(xs[0].offset, xs[0].offset + xs[0].size) {
      CoverInside(data, xs[1..], i);
      var k :| 0 <= k < |xs[1..]| && SliceOk(data, xs[1..][k]) &&
        xs[1..][k].offset <= i < xs[1..][k].offset + xs[1..][k].size;
      assert Apart(xs[0], xs[k + 1]);
    }
  }

  lemma SubsetCount(a: set<nat>, b: set<nat>)
    requires a <= b
    ensures |a| <= |b|
  {
    assert b == a + (b - a);
  }

  // Slices that do not overlap are together no longer than their buffer.
  lemma DisjointFit(b: Batch)
    requires DisjointSlices(b)
    ensures TotalBytes(Taken(b.data, b.parameters)) <= |b.data|
  {
    hide DisjointSlices;
    var cover := Cover(b.data, b.parameters);
    CoverCount(b.data, b.parameters);
    forall i | i in cover ensures i in Positions(0, |b.data|) {
      CoverInside(b.data, b.parameters, i);
    }
    SubsetCount(cover, Positions(0, |b.data|));
  }

  lemma {:induction false} TotalAppend(a: seq<seq<byte>>, b: seq<seq<byte>>)
    ensures TotalBytes(a + b) == TotalBytes(a) + TotalBytes(b)
    decreases |a|
  {
    if a == [] {
      assert a + b == b;
    } else {
      assert (a + b)[1..] == a[1..] + b;
      TotalAppend(a[1..], b);
    }
  }

  lemma {:induction false} TakenFit(batches: seq<Batch>)
    requires forall b :: b in batches ==> DisjointSlices(b)
    ensures TotalBytes(TakenAll(batches)) <= TotalData(batches)
  {
    hide DisjointSlices, Taken, BatchOk, TotalBytes;
    EmptyTotal();
    if batches != [] {
      DisjointFit(batches[0]);
      TakenFit(batches[1..]);
      TotalAppend(Taken(batches[0].data, batches[0].parameters),
                  if BatchOk(batches[0]) then TakenAll(batches[1..]) else []);
    }
  }

  lemma EmptyTotal()
    ensures TotalBytes([]) == 0
  {
  }

  lemma {:induction false} EmittedLength(slices: seq<seq<byte>>)
    ensures |Bytes(slices)| <= TotalBytes(slices) + 4 * |slices|
  {
    if slices != [] {
      EmittedLength(slices[1..]);
    }
  }

  // Escaped and framed, the two parameter sets take at most 58 bytes.
  lemma UnitLengths(profile: Profile, p: Picture, l0: uint8, l1: uint8)
    requires p.WellFormed() && p.Supported()
    ensures |Framed(SpsUnit(profile, p))| <= 31 && |Framed(PpsUnit(p, l0, l1))| <= 27
  {
    hide SpsBits, PpsBits, Aligned, Escape;
    SpsLength(profile, p);
    PpsLength(p, l0, l1);
    UnitLength(0x67, SpsBits(profile, p), 18);
    UnitLength(0x68, PpsBits(p, l0, l1), 15);
  }

  lemma UnitLength(header: byte, bits: BitString, n: nat)
    requires |bits| < 8 * n && n > 0
    ensures |Framed(NalUnit([header], FromBits(Aligned(bits))))| <= 5 + n + (n - 1) / 2
  {
    hide Escape, FromBits, Aligned;
    AlignedLength(bits);
    AlignedLastByte(bits);
    EscapeGrowth(FromBits(Aligned(bits)), 0);
  }

  // With slices that do not overlap within a batch, and no more than 1009 of them, the capacity always suffices.
  lemma NeverOutOfRoom(profile: Profile, p: Picture, batches: seq<Batch>)
    requires p.WellFormed()
    requires forall b :: b in batches ==> DisjointSlices(b)
    requires |TakenAll(batches)| <= 1009
    ensures Built(profile, p, batches, Capacity(batches)) != Failure(NoSpace)
  {
    hide Bytes, TakenAll, SpsUnit, PpsUnit, Framed, DisjointSlices, Picture.Supported, TotalData, TotalBytes;
    if batches != [] && batches[0].parameters != [] && p.Supported() {
      var first := batches[0].parameters[0];
      UnitLengths(profile, p, first.numRefIdxL0Minus1, first.numRefIdxL1Minus1);
      TakenFit(batches);
      EmittedLength(TakenAll(batches));
    }
  }

  // ---------- What a decoder receives ----------

  function Code(s: seq<byte>): (r: seq<byte>)
    ensures IsStartCode(r)
  {
    if SHORT_START_CODE <= s then SHORT_START_CODE else START_CODE
  }

  // A slice without the client's start code.
  function Bare(s: seq<byte>): seq<byte> {
    if HasStartCode(s) then s[|Code(s)|..] else s
  }

  function Codes(slices: seq<seq<byte>>): (r: seq<seq<byte>>)
    ensures |r| == |slices| && forall c :: c in r ==> IsStartCode(c)
  {
    if slices == [] then [] else [Code(slices[0])] + Codes(slices[1..])
  }

  function Bares(slices: seq<seq<byte>>): (r: seq<seq<byte>>)
    ensures |r| == |slices|
  {
    if slices == [] then [] else [Bare(slices[0])] + Bares(slices[1..])
  }

  lemma EmittedPieces(s: seq<byte>)
    ensures Emitted(s) == Code(s) + Bare(s)
  {
    if HasStartCode(s) {
      assert s[..|Code(s)|] == Code(s);
    } else {
      assert !(SHORT_START_CODE <= s);
    }
  }

  lemma {:induction false} BytesAreChunks(slices: seq<seq<byte>>)
    ensures Bytes(slices) == Chunks(Codes(slices), Bares(slices))
  {
    hide Emitted, Code, Bare;
    if slices != [] {
      EmittedPieces(slices[0]);
      BytesAreChunks(slices[1..]);
    }
  }

  lemma ChunkFirst(code: seq<byte>, u: seq<byte>, codes: seq<seq<byte>>, units: seq<seq<byte>>)
    requires |codes| == |units|
    ensures Chunks([code] + codes, [u] + units) == code + u + Chunks(codes, units)
  {
    assert ([code] + codes)[1..] == codes && ([u] + units)[1..] == units;
  }

  lemma DeliveredFirst(u: seq<byte>, units: seq<seq<byte>>)
    requires Unpadded(u)
    ensures Delivered([u] + units) == [u] + Delivered(units)
  {
    assert ([u] + units)[1..] == units;
  }

  lemma ParameterSetUnit(header: byte, bits: BitString)
    requires header != 0
    ensures
      var u := NalUnit([header], FromBits(Aligned(bits)));
      && NoTriples(u) && Unpadded(u) && u != [] && u[0] == header
      && BytesBits(Unescape(u[1..])) == Aligned(bits)
  {
    hide NoTriples, Escape, Unescape, FromBits, Aligned, BytesBits;
    var body := FromBits(Aligned(bits));
    AlignedLength(bits);
    AlignedLastByte(bits);
    BitsOfFromBits(Aligned(bits));
    NalUnitHasNoTriples([header], body);
    EscapeLast(body, 0);
    UnescapeEscape(body, 0);
    assert NalUnit([header], body)[1..] == Escape(body);
  }

  lemma {:induction false} BaresAreClean(slices: seq<seq<byte>>)
    requires forall s :: s in slices ==> NoTriples(Bare(s))
    ensures forall u :: u in Bares(slices) ==> NoTriples(u)
  {
    hide NoTriples, Bare;
    if slices != [] {
      BaresAreClean(slices[1..]);
    }
  }

  lemma Joined(a: seq<byte>, b: seq<byte>, c: seq<byte>)
    ensures a + (b + c) == a + b + c
  {
  }

  lemma SplitBehindTwo(a: seq<byte>, b: seq<byte>, codes: seq<seq<byte>>, units: seq<seq<byte>>)
    requires NoTriples(a) && Unpadded(a) && NoTriples(b) && Unpadded(b)
    requires |codes| == |units|
    requires forall u :: u in units ==> NoTriples(u)
    requires forall c :: c in codes ==> IsStartCode(c)
    ensures Split(Framed(a) + Framed(b) + Chunks(codes, units)) == [a, b] + Delivered(units)
  {
    hide NoTriples, Unpadded, Chunks, Delivered, Split;
    ChunkFirst(START_CODE, b, codes, units);
    ChunkFirst(START_CODE, a, [START_CODE] + codes, [b] + units);
    Joined(Framed(a), Framed(b), Chunks(codes, units));
    SplitChunks([START_CODE] + ([START_CODE] + codes), [a] + ([b] + units));
    DeliveredFirst(a, [b] + units);
    DeliveredFirst(b, units);
    assert [a] + ([b] + Delivered(units)) == [a, b] + Delivered(units);
  }

  // Splitting the access unit yields both parameter sets and then the client's slices, whose units a
  // splitter delivers as it would deliver them on their own.
  lemma DeliveredAccessUnit(profile: Profile, p: Picture, batches: seq<Batch>)
    requires batches != [] && batches[0].parameters != []
    requires forall s :: s in TakenAll(batches) ==> NoTriples(Bare(s))
    ensures
      var first := batches[0].parameters[0];
      Split(AccessUnit(profile, p, batches)) ==
      [SpsUnit(profile, p), PpsUnit(p, first.numRefIdxL0Minus1, first.numRefIdxL1Minus1)] +
      Delivered(Bares(TakenAll(batches)))
  {
    hide NoTriples, Unpadded, NalUnit, TakenAll, Bytes, Chunks, Delivered, Split, Framed, Codes, Bares;
    var first, slices := batches[0].parameters[0], TakenAll(batches);
    ParameterSetUnit(0x67, SpsBits(profile, p));
    ParameterSetUnit(0x68, PpsBits(p, first.numRefIdxL0Minus1, first.numRefIdxL1Minus1));
    BaresAreClean(slices);
    BytesAreChunks(slices);
    SplitBehindTwo(SpsUnit(profile, p), PpsUnit(p, first.numRefIdxL0Minus1, first.numRefIdxL1Minus1),
                   Codes(slices), Bares(slices));
  }
}
