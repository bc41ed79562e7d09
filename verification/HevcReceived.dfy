/**
  What arrives of an access unit: a decoder splits it into NAL units, stores the parameter sets, and reads every slice
  by the sets that the slice names.
 */
module HevcReceived {
  import opened Bitstring
  import opened ExpGolomb
  import opened HevcAccessUnit
  import opened HevcDecoder
  import opened HevcMeaning
  import opened HevcParameterSets
  import opened HevcPicture
  import opened HevcReferences
  import opened HevcRewrite
  import opened HevcRuns
  import opened HevcSyntax
  import opened HevcSyntaxProofs
  import opened NalStream
  import opened SyntaxElements
  import opened Wrappers

  // ---------- Splitting ----------

  // The slice units among these, in order.
  function SlicesIn(units: seq<seq<byte>>): seq<seq<byte>> {
    if units == [] then []
    else (if |units[0]| >= 2 && units[0][0] / 2 < 32 then [units[0]] else []) + SlicesIn(units[1..])
  }

  // The slice units of an access unit.
  function ReceivedSlices(accessUnit: seq<byte>): seq<seq<byte>> {
    SlicesIn(Split(accessUnit))
  }

  lemma StrippedSlice(u: seq<byte>)
    requires SliceUnit(u) && u[0] < 0x80
    ensures |Strip(u)| >= 2 && Strip(u)[..2] == u[..2] && Strip(u)[0] / 2 < 32
  {
    StripTail(u);
    assert |Strip(u)| > 1;
  }

  lemma {:induction false} DeliveredSlices(units: seq<seq<byte>>)
    requires forall u :: u in units ==> SliceUnit(u) && u[0] < 0x80
    ensures SlicesIn(Delivered(units)) == Delivered(units)
    decreases |units|
  {
    hide Strip, SliceUnit;
    if |units| == 1 {
      StrippedSlice(units[0]);
      assert units[1..] == [];
    } else if units != [] {
      StrippedSlice(units[0]);
      DeliveredSlices(units[1..]);
      assert Delivered(units)[1..] == Delivered(units[1..]);
    }
  }

  lemma {:induction false} SlicesBehindSets(sets: seq<ParameterSet>, slices: seq<seq<byte>>)
    requires forall u :: u in slices ==> SliceUnit(u) && u[0] < 0x80
    ensures SlicesIn(Delivered(UnitsOf(sets) + slices)) == Delivered(slices)
    decreases |sets|
  {
    hide Strip, SliceUnit, ParameterSet.Unit, Unpadded, NoTriples, Unescape, FromBits, Aligned;
    if sets == [] {
      assert UnitsOf(sets) + slices == slices;
      DeliveredSlices(slices);
    } else {
      var u, rest := sets[0].Unit(), UnitsOf(sets[1..]) + slices;
      UnitShape(sets[0]);
      assert UnitsOf(sets) + slices == [u] + rest;
      assert ([u] + rest)[1..] == rest;
      SlicesBehindSets(sets[1..], slices);
      if rest == [] {
        assert UnitsOf(sets[1..]) == [] && slices == [];
        assert rest == [] && SlicesIn(rest) == [];
      } else {
        assert Delivered([u] + rest) == [Strip(u)] + Delivered(rest);
        assert ([Strip(u)] + Delivered(rest))[1..] == Delivered(rest);
      }
    }
  }

  lemma SlicesFit(x: Payload)
    requires AllAccepted(x.slices, x.picture, ReferencesOf(x.picture))
    ensures forall u :: u in Slices(x) ==> SliceUnit(u) && NoTriples(u) && u[0] < 0x80
  {
    hide Accepts, WellFormedSlice, RewrittenUnit, NoTriples, SliceUnit, SliceUnits;
    var refs := ReferencesOf(x.picture);
    SlicesAreSlices(x.slices, x.picture, refs);
    forall u | u in Slices(x) ensures |u| > 0 && u[0] < 0x80 {
      var i :| 0 <= i < |Slices(x)| && Slices(x)[i] == u;
      SliceUnitAt(x.slices, x.picture, refs, i);
      UnitOpens(x.slices[i], x.picture, refs);
    }
  }

  lemma {:induction false} SliceUnitAt(slices: seq<Slice>, p: Picture, refs: References, i: nat)
    requires AllAccepted(slices, p, refs) && i < |slices|
    ensures SliceUnits(slices, p, refs)[i] == RewrittenUnit(slices[i], p, refs)
  {
    hide Accepts, WellFormedSlice, RewrittenUnit;
    var n := |slices| - 1;
    if i < n {
      SliceUnitAt(slices[..n], p, refs, i);
    }
  }

  lemma UnitOpens(slice: Slice, p: Picture, refs: References)
    requires WellFormedSlice(slice) && Accepts(slice, p, refs)
    ensures
      var unit := RewrittenUnit(slice, p, refs);
      |slice.bytes| >= 2 && |unit| >= 2 && unit[..2] == slice.bytes[..2] && unit[0] < 0x80
  {
    hide RewrittenBits, Escape, FromBits, ParseHeader, HeaderAccepted, DataAccepted;
  }

  // The slice units of an access unit are the rewritten slices in order, all but the last without trailing zero bytes.
  lemma ReceivedAre(x: Payload, state: State)
    requires Builds(x, state)
    ensures
      var r := ReceivedSlices(AccessUnit(x, state));
      |r| == |x.slices| == |Slices(x)| &&
      forall i :: 0 <= i < |r| ==> r[i] == if i == |r| - 1 then Slices(x)[i] else Strip(Slices(x)[i])
  {
    hide Strip, SliceUnit, NoTriples, Delivered, SlicesIn, Split, Stream, SetsOf, SliceUnits, Cache, AllAccepted,
      ParameterSet.Valid, UnitsOf, Gate, DistinctPocs, Ready, ListsCodable, Unescape, Unpadded;
    var sent, slices := Cache(state, Sets(x)).1, Slices(x);
    SetsValid(x, PpsIds(x.slices, x.picture, ReferencesOf(x.picture)));
    CacheKeeps(state, Sets(x));
    SlicesFit(x);
    UnitsAreClean(sent);
    SplitStream(UnitsOf(sent) + slices);
    SlicesBehindSets(sent, slices);
    forall i | 0 <= i < |slices|
      ensures Delivered(slices)[i] == if i == |slices| - 1 then slices[i] else Strip(slices[i])
    {
      DeliveredAt(slices, i);
    }
  }

  // ---------- Reading one slice ----------

  // slice_pic_parameter_set_id, which stands before everything that depends on parameter sets.
  function NamedPps(nalType: nat, s: BitString): Result<nat> {
    var (_, p0) :- DecodeFlag(s, 0);
    var (_, p1) :- ParseFlag(16 <= nalType <= 23, s, p0);
    var (id, _) :- DecodeUe(s, p1, 31);
    Success(id)
  }

  /** A slice as a decoder reads it: what it was read by, the header, and the payload bits with the header's end. */
  datatype Read = Read(context: Context, header: Header, bits: BitString, end: nat)

  function ReadUnit(store: Store, unit: seq<byte>): Option<Read>
    requires |unit| >= 2
  {
    var s, nalType := UnitBits(unit), unit[0] / 2;
    var id := NamedPps(nalType, s);
    if id.Failure? then None
    else
      var c := StoredContext(store, id.value, nalType);
      if c.None? then None
      else
        var parse := ParseHeader(c.value, s);
        if parse.Failure? then None else Some(Read(c.value, parse.value.0, s, parse.value.1))
  }

  lemma NamedIsParsed(c: Context, s: BitString)
    requires ParseHeader(c, s).Success? && c.maxZeros == 31
    ensures NamedPps(c.nalType, s) == Success(ParseHeader(c, s).value.0.prologue.ppsId)
  {
    hide DecodeUe, ParseSegment, ParseBody;
  }

  // Nothing behind a header matters to the header.
  lemma ParsePrefix(c: Context, s: BitString, rest: BitString)
    requires ParseHeader(c, s + rest).Success? && ParseHeader(c, s + rest).value.1 <= |s|
    ensures ParseHeader(c, s) == ParseHeader(c, s + rest)
  {
    hide ParseHeader, PrintHeader, WfHeader, Printable;
    HeaderSound(c, s + rest);
    var (x, q) := ParseHeader(c, s + rest).value;
    assert (s + rest)[0..q] == s[0..q];
    HeaderComplete(c, s, x, q);
  }

  lemma {:induction false} ZeroBytesBits(z: seq<byte>)
    requires forall k :: 0 <= k < |z| ==> z[k] == 0
    ensures BytesBits(z) == Zeros(8 * |z|)
  {
    hide ByteBits;
    if z != [] {
      ZeroBytesBits(z[..|z| - 1]);
      ZeroByte();
      ZerosJoin(8 * (|z| - 1), 8);
    }
  }

  lemma ZeroByte()
    ensures ByteBits(0) == Zeros(8)
  {
  }

  lemma {:induction false} ZerosJoin(a: nat, b: nat)
    ensures Zeros(a) + Zeros(b) == Zeros(a + b)
  {
    if a == 0 {
      assert Zeros(0) + Zeros(b) == Zeros(b);
    } else {
      ZerosJoin(a - 1, b);
      assert [false] + Zeros(a - 1) + Zeros(b) == [false] + (Zeros(a - 1) + Zeros(b));
    }
  }

  // The payload bits of a unit that lost its trailing zero bytes, with those put back.
  lemma StrippedBits(u: seq<byte>, unit: seq<byte>)
    requires 2 <= |u| <= |unit| && unit[..|u|] == u && forall k :: |u| <= k < |unit| ==> unit[k] == 0
    ensures UnitBits(u) + Zeros(8 * (|unit| - |u|)) == UnitBits(unit)
  {
    hide Unescape, BytesBits, Zeros;
    var z := unit[|u|..];
    assert unit[2..] == u[2..] + z;
    UnescapeThenZeros(u[2..], z, 0);
    BytesBitsAppend(Unescape(u[2..]), z);
    ZeroBytesBits(z);
  }

  lemma UnitBitsAre(slice: Slice, p: Picture, refs: References)
    requires WellFormedSlice(slice) && Accepts(slice, p, refs)
    ensures UnitBits(RewrittenUnit(slice, p, refs)) == RewrittenBits(slice, p, refs)
  {
    hide RewrittenBits, Unescape, Escape, FromBits, BytesBits, ParseHeader, HeaderAccepted, DataAccepted;
    var unit, bits := RewrittenUnit(slice, p, refs), RewrittenBits(slice, p, refs);
    RewrittenWhole(slice, p, refs);
    BitsOfFromBits(bits);
    UnescapeEscape(FromBits(bits), 0);
    assert unit[2..] == Escape(FromBits(bits));
  }

  // What a received unit means, when k zero bytes that it lost at its end are put back.
  ghost predicate ReadMeans(
    slice: Slice, p: Picture, prev: Option<int>, c: Context, x: Header, q: nat, r: Read, k: nat)
    requires |slice.bytes| >= 2
  {
    Means(slice, p, prev, c, x, q, r.context, r.header, r.bits + Zeros(8 * k), r.end)
  }

  // The bits behind the header hold a one, which a unit cannot lose.
  lemma RestHasOne(slice: Slice, q: nat, bits: BitString, n: nat, u: BitString, k: nat)
    requires |slice.bytes| >= 2 && SameRest(slice, q, bits, n) && u + Zeros(k) == bits
    ensures n <= |u|
  {
    hide Unescape, BytesBits;
    var s, d := BytesBits(Unescape(slice.bytes[2..])), 8 * (slice.dataByteOffset - 2);
    var a: nat :| CarriesOn(s, q, d, bits, n, a);
    var end := n + (a - q);
    assert bits[end] == (u + Zeros(k))[end];
  }

  lemma StrippedLoses(unit: seq<byte>, u: seq<byte>)
    requires u == unit || u == Strip(unit)
    ensures |u| <= |unit| && unit[..|u|] == u && forall k :: |u| <= k < |unit| ==> unit[k] == 0
  {
    StripTail(unit);
  }

  // Read from the bits of a unit, whole or without its trailing zeros.
  lemma UnitIsRead(
    store: Store, slice: Slice, p: Picture, refs: References, prev: Option<int>, u: seq<byte>, k: nat)
    requires WellFormedSlice(slice) && Accepts(slice, p, refs) && |u| >= 2 && u[0] / 2 == NalType(slice.bytes)
    requires UnitBits(u) + Zeros(8 * k) == RewrittenBits(slice, p, refs)
    requires
      var nalType := NalType(slice.bytes);
      var c := Original(p, refs, nalType);
      var (h, q) := ParseHeader(c, SliceBits(slice)).value;
      var id := EmittedHeader(slice, p, refs).prologue.ppsId;
      var e, bits := StoredContext(store, id, nalType), RewrittenBits(slice, p, refs);
      && e.Some? && e.value.nalType == nalType && e.value.maxZeros == 31
      && var parse := ParseHeader(e.value, bits);
         && parse.Success? && parse.value.0.prologue.ppsId == id
         && Means(slice, p, prev, c, h, q, e.value, parse.value.0, bits, parse.value.1)
    ensures
      var c := Original(p, refs, NalType(slice.bytes));
      var (h, q) := ParseHeader(c, SliceBits(slice)).value;
      var r := ReadUnit(store, u);
      r.Some? && ReadMeans(slice, p, prev, c, h, q, r.value, k)
  {
    hide Accepts, EmittedHeader, WellFormedSlice, StoredContext, Original, ParseHeader, RewrittenBits, SameFields,
      TellsVa, SameRest, BytesBits, UnitBits, NamedPps, SliceBits, Zeros;
    AcceptedParses(slice, p, refs);
    var c := Original(p, refs, NalType(slice.bytes));
    var q := ParseHeader(c, SliceBits(slice)).value.1;
    var e := StoredContext(store, EmittedHeader(slice, p, refs).prologue.ppsId, NalType(slice.bytes)).value;
    var bits := RewrittenBits(slice, p, refs);
    RestHasOne(slice, q, bits, ParseHeader(e, bits).value.1, UnitBits(u), 8 * k);
    ParsePrefix(e, UnitBits(u), Zeros(8 * k));
    NamedIsParsed(e, UnitBits(u));
  }

  // The client's slice does not end in a zero byte.
  predicate EndsNonzero(slice: Slice)
    requires |slice.bytes| >= 2
  {
    var payload := Unescape(slice.bytes[2..]);
    payload != [] && payload[|payload| - 1] != 0
  }

  lemma RewrittenEndsNonzero(slice: Slice, p: Picture, refs: References)
    requires WellFormedSlice(slice) && Accepts(slice, p, refs) && EndsNonzero(slice)
    ensures Unpadded(RewrittenUnit(slice, p, refs))
  {
    hide ParseHeader, HeaderAccepted, DataAccepted, Unescape, Escape, FromBits, HeaderBits, Aligned, NoTriples,
      RewrittenUnit;
    RewrittenUnitBytes(slice, p, refs);
    var header, data := FromBits(Aligned(HeaderBits(slice, p, refs))), SliceData(slice);
    AlignedLastByte(HeaderBits(slice, p, refs));
    EscapeLast(header, 0);
    if data == [] {
      EscapeNothing();
    } else {
      EscapeLast(data, 0);
    }
  }

  lemma EscapeNothing()
    ensures Escape([]) == []
  {
  }

  // Every slice, as it arrives in the access unit, keeps its NAL unit header; read by the sets that arrived by then, it
  // means what the client's slice meant, unless that is an inter slice of an IDR picture. Only a slice that ends in
  // zero bytes, and is not the last, arrives without them.
  lemma ReceivedKeepsMeaning(x: Payload, state: State, store: Store, i: nat, prev: Option<int>)
    requires Builds(x, state) && Synced(state, store) && i < |x.slices|
    requires TellsPoc(x.slices[i], x.picture, ReferencesOf(x.picture), prev)
    ensures
      var slice, units := x.slices[i], ReceivedSlices(AccessUnit(x, state));
      var c := Original(x.picture, ReferencesOf(x.picture), NalType(slice.bytes));
      var (h, q) := ParseHeader(c, SliceBits(slice)).value;
      && |units| == |x.slices| && |units[i]| >= 2 && |slice.bytes| >= 2 && units[i][..2] == slice.bytes[..2]
      && (!InterIdr(c, h) ==>
            var r := ReadUnit(Receive(store, AccessUnit(x, state)), units[i]);
            && r.Some?
            && exists k: nat ::
                 && ReadMeans(slice, x.picture, prev, c, h, q, r.value, k)
                 && (i == |units| - 1 || EndsNonzero(slice) ==> k == 0))
  {
    hide Receive, AccessUnit, Accepts, EmittedHeader, WellFormedSlice, Gate, Synced, StoredContext, Emitted, Original,
      InterIdr, ParseHeader, RewrittenBits, Means, TellsPoc, ListsCodable, BytesBits, IsReferences, RewrittenUnit,
      UnitBits, NamedPps, DistinctPocs, SliceUnits, ReceivedSlices, SliceBits, Strip, ReadUnit, EndsNonzero, Zeros;
    var refs, slice := ReferencesOf(x.picture), x.slices[i];
    ReceivedAre(x, state);
    var unit, u := Slices(x)[i], ReceivedSlices(AccessUnit(x, state))[i];
    AcceptedParses(slice, x.picture, refs);
    SlicesFit(x);
    SliceUnitAt(x.slices, x.picture, refs, i);
    UnitOpens(slice, x.picture, refs);
    StrippedLoses(unit, u);
    assert unit in Slices(x);
    StrippedSlice(unit);
    SlicesKeepMeaning(x, state, store, i, prev);
    StoredSetsAreEmitted(x, state, store, i);
    EmittedZeros(x.picture, refs, NalType(slice.bytes));
    StrippedBits(u, unit);
    UnitBitsAre(slice, x.picture, refs);
    if EndsNonzero(slice) {
      RewrittenEndsNonzero(slice, x.picture, refs);
    }
    SameOpening(u, slice.bytes);
    var c := Original(x.picture, refs, NalType(slice.bytes));
    var (h, q) := ParseHeader(c, SliceBits(slice)).value;
    if !InterIdr(c, h) {
      var k := |unit| - |u|;
      UnitIsRead(Receive(store, AccessUnit(x, state)), slice, x.picture, refs, prev, u, k);
      assert ReadMeans(slice, x.picture, prev, c, h, q,
                       ReadUnit(Receive(store, AccessUnit(x, state)), u).value, k);
    }
  }

  lemma SameOpening(u: seq<byte>, bytes: seq<byte>)
    requires |u| >= 2 && |bytes| >= 2 && u[..2] == bytes[..2] && u[0] < 0x80
    ensures u[0] / 2 == NalType(bytes)
  {
    assert u[..2][0] == u[0] && bytes[..2][0] == bytes[0];
  }

  lemma EmittedZeros(p: Picture, refs: References, nalType: nat)
    ensures Emitted(p, refs, nalType).maxZeros == 31 && Emitted(p, refs, nalType).nalType == nalType
  {
  }
}
