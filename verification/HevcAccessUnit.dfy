/** One access unit from VA buffers, and the state a context keeps between pictures: src/hevc_annexb.cpp. */
module HevcAccessUnit {
  import opened Bitstring
  import opened HevcBits
  import opened HevcMeaning
  import opened HevcParameterSets
  import opened HevcPicture
  import opened HevcReferences
  import opened HevcRewrite
  import opened HevcSets
  import opened HevcSetWriter
  import opened HevcSyntax
  import opened NalStream
  import opened SyntaxElements
  import opened Wrappers

  const MAX_BYTES := 8 * 1024 * 1024

  datatype Profile = Main | Main10
  {
    function Id(): nat {
      if Main10? then 2 else 1
    }

    function Depth(): nat {
      if Main10? then 2 else 0
    }
  }

  /** The sample format fields, which hevc_bitstream only checks. */
  datatype Format = Format(
    chromaFormatIdc: nat, separateColourPlane: bool, bitDepthLumaMinus8: nat, bitDepthChromaMinus8: nat,
    fieldPic: bool)
  {
    predicate Checked(profile: Profile) {
      && chromaFormatIdc == 1 && !separateColourPlane
      && bitDepthLumaMinus8 == bitDepthChromaMinus8 == profile.Depth()
      && !fieldPic
    }
  }

  /** One picture: its parameters, its scaling matrices if VA gave them, and its slices. */
  datatype Payload = Payload(
    profile: Profile, format: Format, picture: Picture, coding: Coding, matrices: Option<seq<Matrix>>,
    slices: seq<Slice>)

  predicate WellFormedPayload(x: Payload) {
    && WellFormed(x.picture) && x.coding.WellFormed()
    && (x.matrices.Some? ==> MatricesOk(x.matrices.value))
    && forall i :: 0 <= i < |x.slices| ==> WellFormedSlice(x.slices[i])
  }

  // The picture passes the checks on its parameters.
  predicate Ready(x: Payload) {
    && WellFormedPayload(x)
    && x.format.Checked(x.profile) && x.picture.Checked() && x.coding.Checked()
    && (x.coding.scalingListEnabled ==> x.matrices.Some?)
  }

  predicate IsIrap(nalType: nat) {
    16 <= nalType <= 21
  }

  predicate IsRasl(nalType: nat) {
    nalType == 8 || nalType == 9
  }

  // May a picture of this type be sent in this state?
  predicate Gate(state: State, nalType: nat) {
    && (!state.started ==> IsIrap(nalType))
    && !(state.noRaslOutput && IsRasl(nalType))
  }

  // Where the run stands after a picture of this type.
  function Advance(state: State, nalType: nat): State {
    state.(noRaslOutput := if IsIrap(nalType) then !state.started || nalType <= 20 else state.noRaslOutput,
           started := true)
  }

  // ---------- The references of a picture ----------

  lemma {:induction false} SortedUnique(a: seq<Reference>, b: seq<Reference>, descending: bool)
    requires StrictlySorted(a, descending) && StrictlySorted(b, descending)
    requires forall x :: x in a <==> x in b
    ensures a == b
  {
    if b != [] {
      assert b[0] in a;
    }
    if a != [] {
      assert a[0] in b && b != [];
      assert b[0] in a;
      assert a[0] == b[0];
      forall x ensures x in a[1..] <==> x in b[1..] {
        assert x in a <==> x == a[0] || x in a[1..];
        assert x in b <==> x == b[0] || x in b[1..];
      }
      SortedUnique(a[1..], b[1..], descending);
      assert a == [a[0]] + a[1..] && b == [b[0]] + b[1..];
    }
  }

  lemma SameGroup(p: Picture, g: Group, a: seq<Reference>, b: seq<Reference>, descending: bool)
    requires Holds(p.currPoc, p.frames, |p.frames|, g, a) && StrictlySorted(a, descending)
    requires Holds(p.currPoc, p.frames, |p.frames|, g, b) && StrictlySorted(b, descending)
    ensures a == b
  {
    hide StrictlySorted;
    SortedUnique(a, b, descending);
  }

  // A picture has at most one set of references.
  lemma ReferencesUnique(p: Picture, a: References, b: References)
    requires IsReferences(p, a) && IsReferences(p, b)
    ensures a == b
  {
    hide Holds, StrictlySorted, UsedIndexes;
    SameGroup(p, Before, a.before, b.before, true);
    SameGroup(p, After, a.after, b.after, false);
    SameGroup(p, LongTermGroup, a.longTerm, b.longTerm, true);
  }

  ghost predicate HasReferences(p: Picture) {
    exists refs :: IsReferences(p, refs)
  }

  ghost function ReferencesOf(p: Picture): (r: References)
    ensures HasReferences(p) ==> IsReferences(p, r)
  {
    if HasReferences(p) then var refs :| IsReferences(p, refs); refs else References([], [], [], [], [])
  }

  // ---------- What one picture builds ----------

  predicate AllAccepted(slices: seq<Slice>, p: Picture, refs: References) {
    forall i :: 0 <= i < |slices| ==> WellFormedSlice(slices[i]) && Accepts(slices[i], p, refs)
  }

  function SliceUnits(slices: seq<Slice>, p: Picture, refs: References): (r: seq<seq<byte>>)
    requires AllAccepted(slices, p, refs)
    ensures |r| == |slices|
  {
    if slices == [] then []
    else SliceUnits(slices[..|slices| - 1], p, refs) + [RewrittenUnit(slices[|slices| - 1], p, refs)]
  }

  // The picture parameter sets the slices name.
  function PpsIds(slices: seq<Slice>, p: Picture, refs: References): set<nat>
    requires AllAccepted(slices, p, refs)
  {
    if slices == [] then {}
    else PpsIds(slices[..|slices| - 1], p, refs) + {EmittedHeader(slices[|slices| - 1], p, refs).prologue.ppsId}
  }

  function MatricesOf(x: Payload): seq<Matrix> {
    if x.matrices.Some? then x.matrices.value else []
  }

  function ListsOf(x: Payload): Option<seq<CodedList>>
    requires Ready(x)
  {
    ScalingLists(x.coding, MatricesOf(x))
  }

  // The scaling matrices can be coded.
  predicate ListsCodable(x: Payload)
    requires Ready(x)
  {
    ListsOf(x).Some? ==> AllCodable(ListsOf(x).value)
  }

  function VpsSet(x: Payload): ParameterSet {
    ParameterSet(VpsKey, VpsBits(x.profile.Id(), x.coding))
  }

  function SpsFields(x: Payload): Sps {
    SpsOf(x.profile.Id(), x.profile.Depth(), x.picture, x.coding)
  }

  function SpsSet(x: Payload): ParameterSet {
    ParameterSet(SpsKey, SpsBits(SpsFields(x)))
  }

  function PpsFields(x: Payload, id: nat): Pps
    requires Ready(x)
  {
    PpsOf(id, x.picture, x.coding, ListsOf(x))
  }

  function PpsSet(x: Payload, id: nat): ParameterSet
    requires Ready(x)
  {
    ParameterSet(PpsKey(id), PpsBits(PpsFields(x, id), ListsOf(x)))
  }

  // One picture parameter set for each id from the given one up.
  function PpsFrom(x: Payload, ids: set<nat>, id: nat): seq<ParameterSet>
    requires Ready(x)
    decreases 64 - id
  {
    if id >= 64 then []
    else if id in ids then [PpsSet(x, id)] + PpsFrom(x, ids, id + 1)
    else PpsFrom(x, ids, id + 1)
  }

  function SetsOf(x: Payload, ids: set<nat>): seq<ParameterSet>
    requires Ready(x)
  {
    [VpsSet(x), SpsSet(x)] + PpsFrom(x, ids, 0)
  }

  predicate FirstSliceOk(x: Payload) {
    x.slices != [] && |x.slices[0].bytes| >= 2
  }

  function TypeOf(x: Payload): nat
    requires FirstSliceOk(x)
  {
    NalType(x.slices[0].bytes)
  }

  // The conditions under which hevc_bitstream returns an access unit.
  ghost predicate Builds(x: Payload, state: State) {
    && FirstSliceOk(x)
    && Gate(state, TypeOf(x))
    && Ready(x)
    && DistinctPocs(x.picture.currPoc, x.picture.frames)
    && AllAccepted(x.slices, x.picture, ReferencesOf(x.picture))
    && ListsCodable(x)
  }

  ghost function Sets(x: Payload): seq<ParameterSet>
    requires Ready(x) && AllAccepted(x.slices, x.picture, ReferencesOf(x.picture))
  {
    SetsOf(x, PpsIds(x.slices, x.picture, ReferencesOf(x.picture)))
  }

  ghost function Slices(x: Payload): seq<seq<byte>>
    requires AllAccepted(x.slices, x.picture, ReferencesOf(x.picture))
  {
    SliceUnits(x.slices, x.picture, ReferencesOf(x.picture))
  }

  // The access unit: the parameter sets the state does not hold yet, and the slices.
  ghost function AccessUnit(x: Payload, state: State): seq<byte>
    requires Builds(x, state)
  {
    Stream(UnitsOf(Cache(state, Sets(x)).1) + Slices(x))
  }

  // The access unit that sends every parameter set again.
  ghost function FullAccessUnit(x: Payload, state: State): seq<byte>
    requires Builds(x, state)
  {
    Stream(UnitsOf(Sets(x)) + Slices(x))
  }

  ghost function StateAfter(x: Payload, state: State): State
    requires Builds(x, state)
  {
    Advance(Cache(state, Sets(x)).0, TypeOf(x))
  }

  // ---------- cache() and hevc_bitstream() ----------

  lemma {:induction false} StreamAppend(a: seq<seq<byte>>, b: seq<seq<byte>>)
    ensures Stream(a + b) == Stream(a) + Stream(b)
    decreases |a|
  {
    hide Framed;
    if a == [] {
      assert a + b == b;
    } else {
      assert (a + b)[1..] == a[1..] + b;
      StreamAppend(a[1..], b);
    }
  }

  lemma StreamOne(u: seq<byte>)
    ensures Stream([u]) == Framed(u)
  {
    assert [u][1..] == [];
  }

  // Offering one set first.
  lemma CacheFirst(state: State, x: ParameterSet, rest: seq<ParameterSet>)
    ensures
      var held := state.Get(x.key) == x.Nal();
      var next := if held then state else state.Put(x.key, x.Nal());
      && Cache(state, [x] + rest).0 == Cache(next, rest).0
      && Stream(UnitsOf(Cache(state, [x] + rest).1)) ==
         (if held then [] else x.Nal()) + Stream(UnitsOf(Cache(next, rest).1))
  {
    hide ParameterSet.Unit;
    assert ([x] + rest)[1..] == rest;
    if state.Get(x.key) != x.Nal() {
      var sent := Cache(state.Put(x.key, x.Nal()), rest).1;
      assert ([x] + sent)[1..] == sent;
      assert UnitsOf([x] + sent)[1..] == UnitsOf(sent);
    }
  }

  lemma EmptyFirst<T>(a: seq<T>)
    ensures [] + a == a
  {
  }

  /** What was transmitted last, and where the run stands. */
  class HevcState {
    var started: bool
    var noRaslOutput: bool
    var vps: seq<byte>
    var sps: seq<byte>
    var pps: map<nat, seq<byte>>

    function Value(): State
      reads this
    {
      State(started, noRaslOutput, vps, sps, pps)
    }

    constructor ()
      ensures Value() == INITIAL
    {
      started, noRaslOutput, vps, sps, pps := false, false, [], [], map[];
    }

    constructor Copy(from: HevcState)
      ensures Value() == from.Value()
    {
      started, noRaslOutput, vps, sps, pps := from.started, from.noRaslOutput, from.vps, from.sps, from.pps;
    }

    method Replace(key: Key, nal: seq<byte>)
      modifies this
      ensures Value() == old(Value()).Put(key, nal)
    {
      match key
      case VpsKey => vps := nal;
      case SpsKey => sps := nal;
      case PpsKey(id) => pps := pps[id := nal];
    }

    // Send the set in b unless it is what was sent last.
    method CacheSet(out: seq<byte>, key: Key, b: Bits) returns (r: seq<byte>)
      requires b.Valid()
      modifies this, b
      ensures
        var x := ParameterSet(key, old(b.contents));
        var held := old(Value()).Get(key) == x.Nal();
        && r == (if held then out else out + x.Nal())
        && Value() == if held then old(Value()) else old(Value()).Put(key, x.Nal())
    {
      hide Packs, FromBits, Escape, NalUnit, AlignmentBits;
      var header := key.Type() * 512 + 1;
      assert header / 256 == 2 * key.Type() && header % 256 == 1;
      var nal := b.Nal([], header, true);
      PackedBytes(b.bytes, b.contents);
      ghost var x := ParameterSet(key, old(b.contents));
      EmptyFirst(x.Nal());
      assert nal.value == x.Nal();
      if Value().Get(key) == nal.value {
        return out;
      }
      Replace(key, nal.value);
      return out + nal.value;
    }

    // Offer one set, when the rest is still to come.
    method Offer(out: seq<byte>, key: Key, b: Bits, ghost rest: seq<ParameterSet>) returns (r: seq<byte>)
      requires b.Valid()
      modifies this, b
      ensures
        var sets := [ParameterSet(key, old(b.contents))] + rest;
        && Cache(Value(), rest).0 == Cache(old(Value()), sets).0
        && r + Stream(UnitsOf(Cache(Value(), rest).1)) == out + Stream(UnitsOf(Cache(old(Value()), sets).1))
      ensures started == old(started) && noRaslOutput == old(noRaslOutput)
    {
      hide Stream, UnitsOf, Cache, ParameterSet.Nal;
      CacheFirst(Value(), ParameterSet(key, b.contents), rest);
      r := CacheSet(out, key, b);
    }
  }

  // The picture parameter sets that the slices name, in ascending order.
  method OfferPps(state: HevcState, out: seq<byte>, ids: set<nat>, x: Payload) returns (res: Result<seq<byte>>)
    requires Ready(x)
    modifies state
    ensures (exists id :: id in ids && id < 64) ==> (res.Success? <==> ListsCodable(x))
    ensures res.Success? ==> state.Value() == Cache(old(state.Value()), PpsFrom(x, ids, 0)).0
    ensures res.Success? ==> res.value == out + Stream(UnitsOf(Cache(old(state.Value()), PpsFrom(x, ids, 0)).1))
    ensures state.started == old(state.started) && state.noRaslOutput == old(state.noRaslOutput)
  {
    hide Packs, Cache, Stream, UnitsOf, Ready, PpsBits, PpsOf, ScalingLists, ListsCodable;
    var r := out;
    var id := 0;
    ReadyParts(x);
    while id < 64
      invariant 0 <= id <= 64
      invariant forall k :: k in ids && k < id ==> ListsCodable(x)
      invariant Cache(state.Value(), PpsFrom(x, ids, id)).0 == Cache(old(state.Value()), PpsFrom(x, ids, 0)).0
      invariant r + Stream(UnitsOf(Cache(state.Value(), PpsFrom(x, ids, id)).1)) ==
                out + Stream(UnitsOf(Cache(old(state.Value()), PpsFrom(x, ids, 0)).1))
      invariant state.started == old(state.started) && state.noRaslOutput == old(state.noRaslOutput)
    {
      if id in ids {
        var b := new Bits();
        var o := WritePps(b, id, x.picture, x.coding, MatricesOf(x));
        CodableParts(x);
        if o.Fail? {
          return Failure(o.error);
        }
        r := state.Offer(r, PpsKey(id), b, PpsFrom(x, ids, id + 1));
      }
      id := id + 1;
    }
    NothingToSend(state.Value());
    return Success(r);
  }

  lemma ReadyParts(x: Payload)
    requires Ready(x)
    ensures x.picture.Checked() && x.coding.WellFormed() && x.coding.Checked()
    ensures x.coding.scalingListEnabled ==> MatricesOk(MatricesOf(x))
  {
  }

  lemma CodableParts(x: Payload)
    requires Ready(x)
    ensures
      var lists := ScalingLists(x.coding, MatricesOf(x));
      ListsCodable(x) <==> (lists.Some? ==> AllCodable(lists.value))
  {
  }

  lemma NothingToSend(state: State)
    ensures Cache(state, []) == (state, []) && Stream(UnitsOf([])) == []
  {
  }

  lemma ListLengths(p: Picture, refs: References)
    requires WellFormed(p) && IsReferences(p, refs)
    ensures |refs.before| + |refs.after| + |refs.longTerm| <= 15
    ensures |refs.list0| <= 15 && |refs.list1| <= 15
  {
    hide Holds, StrictlySorted, UsedIndexes;
  }

  lemma AcceptedSoFar(slices: seq<Slice>, i: nat, p: Picture, refs: References)
    requires i < |slices| && WellFormedSlice(slices[i])
    requires AllAccepted(slices[..i], p, refs)
    ensures AllAccepted(slices[..i + 1], p, refs) <==> Accepts(slices[i], p, refs)
    ensures AllAccepted(slices, p, refs) ==> Accepts(slices[i], p, refs)
    ensures Accepts(slices[i], p, refs) ==>
      && SliceUnits(slices[..i + 1], p, refs) == SliceUnits(slices[..i], p, refs) + [RewrittenUnit(slices[i], p, refs)]
      && PpsIds(slices[..i + 1], p, refs) ==
         PpsIds(slices[..i], p, refs) + {EmittedHeader(slices[i], p, refs).prologue.ppsId}
  {
    hide Accepts, RewrittenUnit, EmittedHeader, WellFormedSlice;
    assert slices[..i + 1][..i] == slices[..i];
    assert forall k :: 0 <= k < i ==> slices[..i + 1][k] == slices[..i][k];
  }

  method RewriteSlices(slices: seq<Slice>, p: Picture, refs: References) returns (res: Result<(set<nat>, seq<byte>)>)
    requires forall i :: 0 <= i < |slices| ==> WellFormedSlice(slices[i])
    requires p.Checked() && WellFormed(p) && IsReferences(p, refs)
    ensures res.Success? <==> AllAccepted(slices, p, refs)
    ensures res.Success? ==> res.value == (PpsIds(slices, p, refs), Stream(SliceUnits(slices, p, refs)))
  {
    hide IsReferences, AllAccepted, Accepts, RewrittenUnit, EmittedHeader, WellFormedSlice, SliceUnits, PpsIds, Framed,
      Stream;
    ListLengths(p, refs);
    var ids: set<nat>, out := {}, [];
    var i := 0;
    NothingRewritten(slices, p, refs);
    while i < |slices|
      invariant 0 <= i <= |slices|
      invariant AllAccepted(slices[..i], p, refs)
      invariant ids == PpsIds(slices[..i], p, refs) && out == Stream(SliceUnits(slices[..i], p, refs))
    {
      AcceptedSoFar(slices, i, p, refs);
      var one :- RewriteSlice(slices[i], p, refs, out);
      StreamAppend(SliceUnits(slices[..i], p, refs), [RewrittenUnit(slices[i], p, refs)]);
      StreamOne(RewrittenUnit(slices[i], p, refs));
      ids, out := ids + {one.0}, one.1;
      i := i + 1;
    }
    assert slices[..i] == slices;
    return Success((ids, out));
  }

  lemma NothingRewritten(slices: seq<Slice>, p: Picture, refs: References)
    ensures AllAccepted(slices[..0], p, refs)
    ensures PpsIds(slices[..0], p, refs) == {} && Stream(SliceUnits(slices[..0], p, refs)) == []
  {
  }

  method SendSets(x: Payload, ids: set<nat>, state: HevcState) returns (res: Result<seq<byte>>)
    requires Ready(x) && exists id :: id in ids && id < 64
    modifies state
    ensures res.Success? <==> ListsCodable(x)
    ensures res.Success? ==>
      && state.Value() == Cache(old(state.Value()), SetsOf(x, ids)).0
      && res.value == Stream(UnitsOf(Cache(old(state.Value()), SetsOf(x, ids)).1))
  {
    hide Packs, Cache, Stream, UnitsOf, PpsFrom, VpsBits, SpsBits, SpsOf, ListsCodable, Ready;
    ghost var rest := PpsFrom(x, ids, 0);
    assert SetsOf(x, ids) == [VpsSet(x)] + ([SpsSet(x)] + rest);
    var b := new Bits();
    WriteVps(b, x.profile.Id(), x.coding);
    var out := state.Offer([], VpsKey, b, [SpsSet(x)] + rest);
    b := new Bits();
    WriteSps(b, x.profile.Id(), x.profile.Depth(), x.picture, x.coding);
    out := state.Offer(out, SpsKey, b, rest);
    res := OfferPps(state, out, ids, x);
    EmptyFirst(Stream(UnitsOf(Cache(old(state.Value()), SetsOf(x, ids)).1)));
  }

  lemma {:induction false} IdIsCollected(slices: seq<Slice>, p: Picture, refs: References, i: nat)
    requires AllAccepted(slices, p, refs) && i < |slices|
    ensures EmittedHeader(slices[i], p, refs).prologue.ppsId in PpsIds(slices, p, refs)
  {
    hide EmittedHeader, Accepts, WellFormedSlice;
    var n := |slices| - 1;
    if i < n {
      IdIsCollected(slices[..n], p, refs, i);
      assert slices[..n][i] == slices[i];
    }
  }

  lemma EmittedIdBound(slice: Slice, p: Picture, refs: References)
    requires WellFormedSlice(slice) && Accepts(slice, p, refs)
    ensures EmittedHeader(slice, p, refs).prologue.ppsId <= 63
  {
    hide ParseHeader, HeaderAccepted, DataAccepted, WfHeader, NewBody, Original;
    AcceptedHeader(slice, p, refs);
    AdmittedId(Original(p, refs, NalType(slice.bytes)),
               ParseHeader(Original(p, refs, NalType(slice.bytes)), SliceBits(slice)).value.0);
  }

  lemma AdmittedId(c: Context, x: Header)
    requires WfHeader(c, x)
    ensures x.prologue.ppsId <= 63
  {
  }

  // Some picture parameter set is named.
  lemma SomeId(slices: seq<Slice>, p: Picture, refs: References)
    requires slices != [] && AllAccepted(slices, p, refs)
    ensures exists id :: id in PpsIds(slices, p, refs) && id < 64
  {
    hide Accepts, EmittedHeader, PpsIds, WellFormedSlice;
    IdIsCollected(slices, p, refs, 0);
    EmittedIdBound(slices[0], p, refs);
  }

  method HevcBitstream(x: Payload, state: HevcState) returns (res: Result<seq<byte>>)
    requires WellFormedPayload(x)
    modifies state
    ensures res.Success? <==> Builds(x, old(state.Value()))
    ensures res.Success? ==>
      && res.value == AccessUnit(x, old(state.Value()))
      && state.Value() == StateAfter(x, old(state.Value()))
    ensures !FirstSliceOk(x) ==> res == Failure(Invalid)
    ensures FirstSliceOk(x) && !Gate(old(state.Value()), TypeOf(x)) ==> res == Failure(Unavailable)
    ensures FirstSliceOk(x) && Gate(old(state.Value()), TypeOf(x)) && !x.format.Checked(x.profile) ==>
              res == Failure(Unsupported)
  {
    hide IsReferences, DistinctPocs, AllAccepted, SliceUnits, PpsIds, Stream, UnitsOf, Cache, SetsOf, Picture.Checked,
      Coding.Checked, Coding.WellFormed, Format.Checked, MatricesOk, WellFormedSlice, WellFormed, ListsCodable,
      ReferencesOf;
    ghost var before := state.Value();
    :- Need(x.slices != [], Invalid);
    :- Need(|x.slices[0].bytes| >= 2, Invalid);
    var nalType := NalType(x.slices[0].bytes);
    if !state.started {
      :- Need(16 <= nalType <= 21, Unavailable);
    }
    :- Need(!(state.noRaslOutput && (nalType == 8 || nalType == 9)), Unavailable);
    :- Need(x.format.Checked(x.profile), Unsupported);
    :- Need(x.picture.Checked() && x.coding.Checked(), Invalid);
    :- Need(x.coding.scalingListEnabled ==> x.matrices.Some?, Invalid);
    var refs :- BuildReferences(x.picture);
    ReferencesUnique(x.picture, refs, ReferencesOf(x.picture));
    var rewritten :- RewriteSlices(x.slices, x.picture, refs);
    SomeId(x.slices, x.picture, refs);
    var out :- SendSets(x, rewritten.0, state);
    StreamAppend(UnitsOf(Cache(before, Sets(x)).1), Slices(x));
    CacheKeeps(before, Sets(x));
    if 16 <= nalType <= 21 {
      state.noRaslOutput := !state.started || nalType <= 20;
    }
    state.started := true;
    return Success(out + rewritten.1);
  }
}
