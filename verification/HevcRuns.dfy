/**
  Building one access unit on a copy of the context's state, committing that copy when the hardware took the
  access unit, and what holds over every run of pictures: src/hevc_annexb.cpp and src/decode.c.
 */
module HevcRuns {
  import opened Bitstring
  import opened ExpGolomb
  import opened HevcAccessUnit
  import opened HevcElements
  import opened HevcMeaning
  import opened HevcParameterSets
  import opened HevcPicture
  import opened HevcReferences
  import opened HevcRewrite
  import opened HevcSets
  import opened HevcSetWriter
  import opened HevcSyntax
  import opened NalStream
  import opened SyntaxElements
  import opened Wrappers

  // A start code prefix the client left in front of the slice's NAL unit.
  function PrefixLength(bytes: seq<byte>): (n: nat)
    ensures n <= |bytes|
  {
    if |bytes| >= 4 && bytes[0] == 0 && bytes[1] == 0 then
      if bytes[2] == 1 then 3 else if bytes[2] == 0 && bytes[3] == 1 then 4 else 0
    else 0
  }

  function Bare(x: Slice): Slice {
    x.(bytes := x.bytes[PrefixLength(x.bytes)..])
  }

  function TotalBytes(slices: seq<Slice>): nat {
    if slices == [] then 0 else TotalBytes(slices[..|slices| - 1]) + |slices[|slices| - 1].bytes|
  }

  function Prepared(x: Payload): (r: Payload)
    ensures WellFormedPayload(x) ==> WellFormedPayload(r)
  {
    x.(slices := seq(|x.slices|, i requires 0 <= i < |x.slices| => Bare(x.slices[i])))
  }

  predicate SizesOk(slices: seq<Slice>) {
    && 1 <= |slices| <= 64
    && (forall i :: 0 <= i < |slices| ==> slices[i].bytes != [])
    && TotalBytes(slices) <= MAX_BYTES
  }

  // The conditions under which a picture yields an access unit.
  ghost predicate Buildable(x: Payload, state: State) {
    && WellFormedPayload(x) && SizesOk(x.slices)
    && Builds(Prepared(x), state)
    && 0 < |AccessUnit(Prepared(x), state)| <= MAX_BYTES
  }

  lemma {:induction false} TotalGrows(slices: seq<Slice>, i: nat)
    requires i <= |slices|
    ensures TotalBytes(slices[..i]) <= TotalBytes(slices)
    decreases |slices|
  {
    if i < |slices| {
      var init := slices[..|slices| - 1];
      TotalGrows(init, i);
      assert init[..i] == slices[..i];
    } else {
      assert slices[..i] == slices;
    }
  }

  method PrepareSlices(slices: seq<Slice>) returns (res: Result<seq<Slice>>)
    ensures res.Success? <==>
      (forall i :: 0 <= i < |slices| ==> slices[i].bytes != []) && TotalBytes(slices) <= MAX_BYTES
    ensures res.Success? ==> res.value == seq(|slices|, i requires 0 <= i < |slices| => Bare(slices[i]))
  {
    hide Bare;
    var total, i, r := 0, 0, [];
    while i < |slices|
      invariant 0 <= i <= |slices| && total == TotalBytes(slices[..i]) <= MAX_BYTES
      invariant forall k :: 0 <= k < i ==> slices[k].bytes != []
      invariant |r| == i && forall k :: 0 <= k < i ==> r[k] == Bare(slices[k])
    {
      assert slices[..i + 1][..i] == slices[..i];
      TotalGrows(slices, i + 1);
      :- Need(slices[i].bytes != [] && |slices[i].bytes| <= MAX_BYTES - total, Invalid);
      total := total + |slices[i].bytes|;
      r := r + [Bare(slices[i])];
      i := i + 1;
    }
    assert slices[..i] == slices;
    return Success(r);
  }

  // Build on a candidate copy of the previous state.
  method BuildAccessUnit(x: Payload, previous: HevcState?) returns (res: Result<(HevcState, seq<byte>)>)
    requires WellFormedPayload(x)
    ensures
      var state := if previous == null then INITIAL else previous.Value();
      && (res.Success? <==> Buildable(x, state))
      && (res.Success? ==>
            && fresh(res.value.0)
            && res.value.0.Value() == StateAfter(Prepared(x), state)
            && res.value.1 == AccessUnit(Prepared(x), state))
  {
    hide Builds, AccessUnit, StateAfter, TotalBytes, Bare;
    :- Need(1 <= |x.slices| <= 64, Invalid);
    var slices :- PrepareSlices(x.slices);
    var prepared := x.(slices := slices);
    assert prepared == Prepared(x);
    var candidate;
    if previous == null {
      candidate := new HevcState();
    } else {
      candidate := new HevcState.Copy(previous);
    }
    var bytes :- HevcBitstream(prepared, candidate);
    :- Need(bytes != [] && |bytes| <= MAX_BYTES, Overflow);
    return Success((candidate, bytes));
  }

  /** One picture of a run: what was submitted, and whether the hardware took the access unit. */
  datatype Event = Event(x: Payload, taken: bool)

  ghost predicate Commits(state: State, e: Event) {
    Buildable(e.x, state) && e.taken
  }

  ghost function Step(state: State, e: Event): State {
    if Commits(state, e) then StateAfter(Prepared(e.x), state) else state
  }

  /** A decoding context, and everything the hardware has taken from it. */
  class DecodeContext {
    var hevc: HevcState?
    var transmitted: seq<seq<byte>>

    function Value(): State
      reads this, hevc
    {
      if hevc == null then INITIAL else hevc.Value()
    }

    constructor ()
      ensures Value() == INITIAL && transmitted == []
    {
      hevc, transmitted := null, [];
    }

    method EndPicture(e: Event) returns (o: Outcome)
      requires WellFormedPayload(e.x)
      modifies this
      ensures o.Pass? <==> Commits(old(Value()), e)
      ensures Value() == Step(old(Value()), e)
      ensures transmitted ==
        if o.Pass? then old(transmitted) + [AccessUnit(Prepared(e.x), old(Value()))] else old(transmitted)
    {
      hide Buildable, StateAfter, AccessUnit;
      var built := BuildAccessUnit(e.x, hevc);
      if built.Failure? {
        return Fail(built.error);
      }
      if !e.taken {
        return Fail(Busy);
      }
      transmitted := transmitted + [built.value.1];
      hevc := built.value.0;
      return Pass;
    }
  }

  // ---------- Runs ----------

  // The committed state after a run.
  ghost function Run(events: seq<Event>): State {
    if events == [] then INITIAL else Step(Run(events[..|events| - 1]), events[|events| - 1])
  }

  // What a decoder stores from the access units that were taken.
  ghost function CachedStore(events: seq<Event>): Store {
    if events == [] then map[]
    else
      var init, e := events[..|events| - 1], events[|events| - 1];
      if Commits(Run(init), e) then Receive(CachedStore(init), AccessUnit(Prepared(e.x), Run(init)))
      else CachedStore(init)
  }

  // What it would store had each of them carried every parameter set.
  ghost function FullStore(events: seq<Event>): Store {
    if events == [] then map[]
    else
      var init, e := events[..|events| - 1], events[|events| - 1];
      if Commits(Run(init), e) then Receive(FullStore(init), FullAccessUnit(Prepared(e.x), Run(init)))
      else FullStore(init)
  }

  // The elements printed first stand first.
  lemma {:induction false} CodesPrefix(es: seq<Element>, k: nat)
    requires k <= |es|
    ensures Codes(es[..k]) <= Codes(es)
    decreases |es|
  {
    hide Element.Code;
    if k < |es| {
      var init := es[..|es| - 1];
      assert init[..k] == es[..k];
      CodesPrefix(init, k);
    } else {
      assert es[..k] == es;
    }
  }

  lemma OneCode(id: nat)
    ensures Codes([Ue(id)]) == UeCode(id)
  {
    assert [Ue(id)][..0] == [];
  }

  lemma PpsValid(x: Payload, id: nat)
    requires Ready(x) && id <= 63
    ensures PpsSet(x, id).Valid()
  {
    hide Codes, UeCode, PpsMiddle, PpsActive, PpsCuQp, Ready, PpsOf;
    var es := PpsOpening(PpsFields(x, id));
    PpsFieldsId(x, id);
    assert es[..1] == [Ue(id)];
    CodesPrefix(es, 1);
    OneCode(id);
  }

  lemma PpsFieldsId(x: Payload, id: nat)
    requires Ready(x)
    ensures PpsFields(x, id).id == id
  {
    hide ScalingLists, AsRead;
  }

  lemma {:induction false} PpsFromValid(x: Payload, ids: set<nat>, id: nat)
    requires Ready(x)
    ensures forall y :: y in PpsFrom(x, ids, id) ==> y.Valid()
    decreases 64 - id
  {
    hide ParameterSet.Valid, PpsSet, Ready;
    if id < 64 {
      PpsValid(x, id);
      PpsFromValid(x, ids, id + 1);
    }
  }

  lemma SetsValid(x: Payload, ids: set<nat>)
    requires Ready(x)
    ensures forall y :: y in SetsOf(x, ids) ==> y.Valid()
  {
    hide PpsFrom, Ready, VpsBits, SpsBits;
    PpsFromValid(x, ids, 0);
  }

  lemma RewrittenIsSlice(slice: Slice, p: Picture, refs: References)
    requires WellFormedSlice(slice) && Accepts(slice, p, refs)
    ensures SliceUnit(RewrittenUnit(slice, p, refs)) && NoTriples(RewrittenUnit(slice, p, refs))
  {
    hide ParseHeader, HeaderAccepted, DataAccepted, NoTriples, FromBits, RewrittenBits, Escape;
    RewrittenUnitBytes(slice, p, refs);
    var u := RewrittenUnit(slice, p, refs);
    assert u[0] == slice.bytes[0] && u[1] == slice.bytes[1];
  }

  lemma {:induction false} SlicesAreSlices(slices: seq<Slice>, p: Picture, refs: References)
    requires AllAccepted(slices, p, refs)
    ensures forall u :: u in SliceUnits(slices, p, refs) ==> SliceUnit(u) && NoTriples(u)
  {
    hide Accepts, RewrittenUnit, NoTriples, SliceUnit, WellFormedSlice;
    if slices != [] {
      var n := |slices| - 1;
      SlicesAreSlices(slices[..n], p, refs);
      RewrittenIsSlice(slices[n], p, refs);
    }
  }

  // One access unit, with the cache or without, leaves the decoder with the same store.
  lemma AccessUnitAgrees(x: Payload, state: State, store: Store)
    requires Builds(x, state) && Synced(state, store)
    ensures Receive(store, AccessUnit(x, state)) == Receive(store, FullAccessUnit(x, state))
    ensures Synced(StateAfter(x, state), Receive(store, AccessUnit(x, state)))
  {
    hide Receive, StoreSets, AllAccepted, SliceUnits, SetsOf, PpsIds, SliceUnit, NoTriples, ParameterSet.Valid, Cache,
      Stream, UnitsOf, Gate, DistinctPocs, Picture.Checked, Format.Checked;
    var sets, slices := Sets(x), Slices(x);
    var (next, sent) := Cache(state, sets);
    SetsValid(x, PpsIds(x.slices, x.picture, ReferencesOf(x.picture)));
    SlicesAreSlices(x.slices, x.picture, ReferencesOf(x.picture));
    CacheKeeps(state, sets);
    CacheAgrees(state, store, sets);
    ReceiveStores(store, sets, slices);
    ReceiveStores(store, sent, slices);
    AdvanceKeepsSync(next, StoreSets(store, sets), TypeOf(x));
  }

  // ---------- Every slice finds the sets it names ----------

  lemma {:induction false} StoreSetsKeeps(store: Store, sets: seq<ParameterSet>, key: Key)
    requires forall s :: s in sets ==> s.key != key
    ensures key in StoreSets(store, sets) <==> key in store
    ensures key in store ==> StoreSets(store, sets)[key] == store[key]
    decreases |sets|
  {
    hide ParameterSet.Unit;
    if sets != [] {
      StoreSetsKeeps(store[sets[0].key := sets[0].Unit()], sets[1..], key);
    }
  }

  lemma {:induction false} PpsFromKeys(x: Payload, ids: set<nat>, from: nat)
    requires Ready(x)
    ensures forall s :: s in PpsFrom(x, ids, from) ==> s.key.PpsKey? && s.key.id >= from
    decreases 64 - from
  {
    hide Ready, PpsBits, PpsFields, ListsOf;
    if from < 64 {
      PpsFromKeys(x, ids, from + 1);
    }
  }

  lemma {:induction false} PpsFromStores(store: Store, x: Payload, ids: set<nat>, from: nat, id: nat)
    requires Ready(x) && from <= id < 64 && id in ids
    ensures
      var t := StoreSets(store, PpsFrom(x, ids, from));
      PpsKey(id) in t && t[PpsKey(id)] == PpsSet(x, id).Unit()
    decreases 64 - from
  {
    hide ParameterSet.Unit, PpsSet, Ready;
    if from in ids {
      var y, later := PpsSet(x, from), PpsFrom(x, ids, from + 1);
      PpsIsKeyed(x, from);
      assert ([y] + later)[1..] == later;
      if from == id {
        PpsFromKeys(x, ids, from + 1);
        StoreSetsKeeps(store[y.key := y.Unit()], later, PpsKey(id));
      } else {
        PpsFromStores(store[y.key := y.Unit()], x, ids, from + 1, id);
      }
    } else {
      PpsFromStores(store, x, ids, from + 1, id);
    }
  }

  lemma PpsIsKeyed(x: Payload, id: nat)
    requires Ready(x)
    ensures PpsSet(x, id).key == PpsKey(id)
  {
    hide PpsBits, PpsFields, ListsOf;
  }

  // The decoder that received the access unit holds this picture's VPS and SPS.
  lemma SetsAreStored(x: Payload, ids: set<nat>, store: Store)
    requires Ready(x)
    ensures
      var t := StoreSets(store, SetsOf(x, ids));
      && VpsKey in t && t[VpsKey] == VpsSet(x).Unit()
      && SpsKey in t && t[SpsKey] == SpsSet(x).Unit()
      && forall id :: id in ids && id < 64 ==> PpsKey(id) in t && t[PpsKey(id)] == PpsSet(x, id).Unit()
  {
    hide ParameterSet.Unit, PpsSet, PpsFrom, Ready, VpsBits, SpsBits, SpsFields;
    var vps, sps, pps := VpsSet(x), SpsSet(x), PpsFrom(x, ids, 0);
    var sets := SetsOf(x, ids);
    assert sets[1..] == [sps] + pps && sets[1..][1..] == pps;
    var both := store[VpsKey := vps.Unit()][SpsKey := sps.Unit()];
    assert StoreSets(store, sets) == StoreSets(both, pps);
    PpsFromKeys(x, ids, 0);
    StoreSetsKeeps(both, pps, VpsKey);
    StoreSetsKeeps(both, pps, SpsKey);
    forall id | id in ids && id < 64
      ensures PpsKey(id) in StoreSets(both, pps) && StoreSets(both, pps)[PpsKey(id)] == PpsSet(x, id).Unit()
    {
      PpsFromStores(both, x, ids, 0, id);
    }
  }

  // Whatever was sent before, after an access unit the decoder holds this picture's sequence sets and, for every
  // slice, this picture's PPS under the id the slice names.
  lemma SlicesFindTheirSets(x: Payload, state: State, store: Store, i: nat)
    requires Builds(x, state) && Synced(state, store) && i < |x.slices|
    ensures
      var t := Receive(store, AccessUnit(x, state));
      var id := EmittedHeader(x.slices[i], x.picture, ReferencesOf(x.picture)).prologue.ppsId;
      && VpsKey in t && t[VpsKey] == VpsSet(x).Unit()
      && SpsKey in t && t[SpsKey] == SpsSet(x).Unit()
      && id <= 63 && PpsKey(id) in t && t[PpsKey(id)] == PpsSet(x, id).Unit()
  {
    hide Receive, StoreSets, SliceUnits, SetsOf, PpsIds, Accepts, EmittedHeader, WellFormedSlice, ParameterSet.Unit,
      PpsSet, SpsSet, VpsSet, Gate, DistinctPocs, Ready, Synced, Stream, UnitsOf, Cache, ListsCodable;
    var refs := ReferencesOf(x.picture);
    ReceivedSets(x, state, store);
    SetsAreStored(x, PpsIds(x.slices, x.picture, refs), store);
    IdIsCollected(x.slices, x.picture, refs, i);
    EmittedIdBound(x.slices[i], x.picture, refs);
  }

  // The payload bits of a stored unit.
  function UnitBits(unit: seq<byte>): BitString {
    if |unit| < 2 then [] else BytesBits(Unescape(unit[2..]))
  }

  lemma SetBits(y: ParameterSet)
    ensures UnitBits(y.Unit()) == Aligned(y.bits)
  {
    hide NoTriples, Escape, Unescape, FromBits, BytesBits, NalUnit;
    UnitShape(y);
    AlignedLength(y.bits);
    BitsOfFromBits(Aligned(y.bits));
  }

  // What a decoder knows when it parses a slice that names this picture parameter set.
  function StoredContext(store: Store, id: nat, nalType: nat): Option<Context> {
    if SpsKey !in store || PpsKey(id) !in store then None
    else
      var sps, pps := ParseSps(UnitBits(store[SpsKey])), ParsePps(UnitBits(store[PpsKey(id)]));
      if sps.Failure? || pps.Failure? || pps.value.id != id then None
      else Some(SetsContext(sps.value, pps.value, nalType))
  }

  lemma SetsRead(x: Payload, id: nat)
    requires Ready(x) && id <= 63
    ensures ParseSps(UnitBits(SpsSet(x).Unit())) == Success(SpsFields(x))
    ensures ParsePps(UnitBits(PpsSet(x, id).Unit())) == Success(PpsFields(x, id)) && PpsFields(x, id).id == id
  {
    hide ParseSps, ParsePps, UnitBits, Aligned, SpsBits, PpsBits, SpsOf, PpsOf, ScalingLists, ParameterSet.Unit;
    SetBits(SpsSet(x));
    SetBits(PpsSet(x, id));
    SpsBackIs(x.profile.Id(), x.profile.Depth(), x.picture, x.coding);
    PpsBackIs(id, x.picture, x.coding, MatricesOf(x));
    PpsFieldsId(x, id);
  }

  lemma SetsTell(x: Payload, id: nat)
    requires Ready(x) && id <= 63
    ensures
      var profile, depth := if x.profile.Main10? then 2 else 1, if x.profile.Main10? then 2 else 0;
      var vps := ParseVps(UnitBits(VpsSet(x).Unit()));
      var sps, pps := ParseSps(UnitBits(SpsSet(x).Unit())), ParsePps(UnitBits(PpsSet(x, id).Unit()));
      && vps.Success? && TellsVps(vps.value, profile, x.coding)
      && sps.Success? && TellsSps(sps.value, profile, depth, x.picture, x.coding)
      && pps.Success? && TellsPps(pps.value, id, x.picture, x.coding, if x.matrices.Some? then x.matrices.value else [])
  {
    hide ParseVps, ParseSps, ParsePps, UnitBits, Aligned, VpsBits, SpsBits, PpsBits, SpsOf, PpsOf, ScalingLists,
      ParameterSet.Unit, TellsVps, TellsSps, TellsPps;
    SetBits(VpsSet(x));
    SetBits(SpsSet(x));
    SetBits(PpsSet(x, id));
    VpsReadsBack(x.profile.Id(), x.coding);
    SpsReadsBack(x.profile.Id(), x.profile.Depth(), x.picture, x.coding);
    PpsReadsBack(id, x.picture, x.coding, MatricesOf(x));
  }

  // The sets that a slice finds after the access unit, under the id that the client's slice names, tell every field of
  // the VA picture that they carry.
  lemma StoredSetsTell(x: Payload, state: State, store: Store, i: nat)
    requires Builds(x, state) && Synced(state, store) && i < |x.slices|
    ensures
      var t := Receive(store, AccessUnit(x, state));
      var c := Original(x.picture, ReferencesOf(x.picture), NalType(x.slices[i].bytes));
      var id := ParseHeader(c, SliceBits(x.slices[i])).value.0.prologue.ppsId;
      && VpsKey in t && SpsKey in t && PpsKey(id) in t
      && var profile, depth := if x.profile.Main10? then 2 else 1, if x.profile.Main10? then 2 else 0;
         var vps, sps, pps :=
           ParseVps(UnitBits(t[VpsKey])), ParseSps(UnitBits(t[SpsKey])), ParsePps(UnitBits(t[PpsKey(id)]));
         && vps.Success? && TellsVps(vps.value, profile, x.coding)
         && sps.Success? && TellsSps(sps.value, profile, depth, x.picture, x.coding)
         && pps.Success?
         && TellsPps(pps.value, id, x.picture, x.coding, if x.matrices.Some? then x.matrices.value else [])
  {
    hide Receive, AccessUnit, Accepts, WellFormedSlice, Gate, DistinctPocs, Synced, VpsSet, SpsSet, PpsSet, ParseVps,
      ParseSps, ParsePps, UnitBits, ParameterSet.Unit, Ready, ListsCodable, TellsVps, TellsSps, TellsPps, ParseHeader,
      Original, SliceBits, NewBody;
    var refs := ReferencesOf(x.picture);
    AcceptedParses(x.slices[i], x.picture, refs);
    SlicesFindTheirSets(x, state, store, i);
    SetsTell(x, EmittedHeader(x.slices[i], x.picture, refs).prologue.ppsId);
  }

  // ---------- What is sent ----------

  lemma {:induction false} PpsFromAre(x: Payload, ids: set<nat>, from: nat, y: ParameterSet)
    requires Ready(x)
    ensures y in PpsFrom(x, ids, from) <==> exists id :: from <= id < 64 && id in ids && y == PpsSet(x, id)
    decreases 64 - from
  {
    hide PpsSet, Ready;
    if from < 64 {
      PpsFromAre(x, ids, from + 1, y);
    }
  }

  lemma {:induction false} PpsFromDistinct(x: Payload, ids: set<nat>, from: nat)
    requires Ready(x)
    ensures DistinctKeys(PpsFrom(x, ids, from))
    decreases 64 - from
  {
    hide PpsSet, Ready;
    if from < 64 {
      PpsFromDistinct(x, ids, from + 1);
      PpsFromKeys(x, ids, from + 1);
      PpsIsKeyed(x, from);
    }
  }

  lemma SetsDistinct(x: Payload, ids: set<nat>)
    requires Ready(x)
    ensures DistinctKeys(SetsOf(x, ids))
  {
    hide PpsFrom, Ready, VpsBits, SpsBits, SpsFields;
    PpsFromDistinct(x, ids, 0);
    PpsFromKeys(x, ids, 0);
  }

  // The set that a picture has for a key, if it has one.
  function SetFor(x: Payload, key: Key): ParameterSet
    requires Ready(x)
  {
    match key
    case VpsKey => VpsSet(x)
    case SpsKey => SpsSet(x)
    case PpsKey(id) => PpsSet(x, id)
  }

  predicate Wanted(ids: set<nat>, key: Key) {
    key.PpsKey? ==> key.id in ids && key.id < 64
  }

  lemma SetsAre(x: Payload, ids: set<nat>, y: ParameterSet)
    requires Ready(x)
    ensures y in SetsOf(x, ids) <==> Wanted(ids, y.key) && y == SetFor(x, y.key)
  {
    hide PpsFrom, Ready, VpsBits, SpsBits, SpsFields, PpsBits, PpsFields, ListsOf;
    PpsFromAre(x, ids, 0, y);
  }

  lemma SetForKey(x: Payload, key: Key)
    requires Ready(x)
    ensures SetFor(x, key).key == key
  {
    hide Ready, VpsBits, SpsBits, SpsFields, PpsBits, PpsFields, ListsOf;
  }

  lemma {:induction false} CollectedIsNamed(slices: seq<Slice>, p: Picture, refs: References, id: nat)
    requires AllAccepted(slices, p, refs) && id in PpsIds(slices, p, refs)
    ensures exists i :: 0 <= i < |slices| && EmittedHeader(slices[i], p, refs).prologue.ppsId == id
  {
    hide EmittedHeader, Accepts, WellFormedSlice;
    var n := |slices| - 1;
    if EmittedHeader(slices[n], p, refs).prologue.ppsId != id {
      CollectedIsNamed(slices[..n], p, refs, id);
      var i :| 0 <= i < n && EmittedHeader(slices[..n][i], p, refs).prologue.ppsId == id;
      assert slices[i] == slices[..n][i];
    }
  }

  // A slice of the picture names this picture parameter set.
  ghost predicate Named(x: Payload, id: nat)
    requires AllAccepted(x.slices, x.picture, ReferencesOf(x.picture))
  {
    exists i ::
      0 <= i < |x.slices| && EmittedHeader(x.slices[i], x.picture, ReferencesOf(x.picture)).prologue.ppsId == id
  }

  lemma StoredFor(x: Payload, ids: set<nat>, store: Store, key: Key)
    requires Ready(x)
    ensures
      var t := StoreSets(store, SetsOf(x, ids));
      if Wanted(ids, key) then key in t && t[key] == SetFor(x, key).Unit()
      else (key in t <==> key in store) && (key in store ==> t[key] == store[key])
  {
    hide ParameterSet.Unit, PpsSet, SpsSet, VpsSet, Ready, StoreSets, SetsOf, SetFor;
    if Wanted(ids, key) {
      SetsAreStored(x, ids, store);
      SetForIs(x, key);
    } else {
      forall y | y in SetsOf(x, ids) ensures y.key != key {
        SetsAre(x, ids, y);
      }
      StoreSetsKeeps(store, SetsOf(x, ids), key);
    }
  }

  lemma SetForIs(x: Payload, key: Key)
    requires Ready(x)
    ensures SetFor(x, key) == if key.VpsKey? then VpsSet(x) else if key.SpsKey? then SpsSet(x) else PpsSet(x, key.id)
  {
    hide Ready, VpsSet, SpsSet, PpsSet;
  }

  // The access unit carries a parameter set if and only if that changes what the decoder holds, and carries none twice.
  // Picture parameter sets that no slice names stay as they were.
  lemma SentWhenChanged(x: Payload, state: State, store: Store, key: Key)
    requires Builds(x, state) && Synced(state, store)
    ensures
      var t, sent := Receive(store, AccessUnit(x, state)), Cache(state, Sets(x)).1;
      && AccessUnit(x, state) == Stream(UnitsOf(sent) + Slices(x))
      && DistinctKeys(sent)
      && ((exists y :: y in sent && y.key == key) <==> key in t && !(key in store && store[key] == t[key]))
      && (key.PpsKey? && !Named(x, key.id) ==>
            (key in t <==> key in store) && (key in store ==> t[key] == store[key]))
  {
    hide Receive, StoreSets, AllAccepted, SliceUnits, SetsOf, PpsIds, SliceUnit, NoTriples, ParameterSet.Unit, Cache,
      Stream, UnitsOf, Gate, DistinctPocs, Ready, ListsCodable, SetFor, EmittedHeader, State.Get;
    var ids := PpsIds(x.slices, x.picture, ReferencesOf(x.picture));
    var sent := Cache(state, Sets(x)).1;
    ReceivedSets(x, state, store);
    SetsDistinct(x, ids);
    SentExactly(state, Sets(x));
    StoredFor(x, ids, store, key);
    SetForKey(x, key);
    SetsAre(x, ids, SetFor(x, key));
    HeldExactly(state, store, SetFor(x, key));
    forall y | y in sent && y.key == key ensures y == SetFor(x, key) {
      SetsAre(x, ids, y);
    }
    if key.PpsKey? && key.id in ids {
      CollectedIsNamed(x.slices, x.picture, ReferencesOf(x.picture), key.id);
    }
  }

  lemma HeldExactly(state: State, store: Store, y: ParameterSet)
    requires Synced(state, store)
    ensures state.Get(y.key) == y.Nal() <==> y.key in store && store[y.key] == y.Unit()
  {
    hide ParameterSet.Unit, Framed, State.Get;
    FramedNonempty(y.Unit());
    if y.key in store && state.Get(y.key) == y.Nal() {
      FramedInjective(store[y.key], y.Unit());
    }
  }

  // From the sets it holds after the access unit, a decoder knows exactly what the slices were rewritten for.
  lemma StoredSetsAreEmitted(x: Payload, state: State, store: Store, i: nat)
    requires Builds(x, state) && Synced(state, store) && i < |x.slices|
    ensures
      var t := Receive(store, AccessUnit(x, state));
      var refs := ReferencesOf(x.picture);
      var id, nalType := EmittedHeader(x.slices[i], x.picture, refs).prologue.ppsId, NalType(x.slices[i].bytes);
      StoredContext(t, id, nalType) == Some(Emitted(x.picture, refs, nalType))
  {
    hide Receive, AccessUnit, Accepts, EmittedHeader, WellFormedSlice, Gate, DistinctPocs, Synced, SpsFields, PpsFields,
      VpsSet, SpsSet, PpsSet, ParseSps, ParsePps, UnitBits, SetsContext, Emitted, ParameterSet.Unit, Ready,
      ListsCodable;
    var refs := ReferencesOf(x.picture);
    var id := EmittedHeader(x.slices[i], x.picture, refs).prologue.ppsId;
    SlicesFindTheirSets(x, state, store, i);
    SetsRead(x, id);
    AcceptedParses(x.slices[i], x.picture, refs);
    FieldsEmitted(x, id, refs, NalType(x.slices[i].bytes));
  }

  lemma FieldsEmitted(x: Payload, id: nat, refs: References, nalType: nat)
    requires Ready(x)
    ensures SetsContext(SpsFields(x), PpsFields(x, id), nalType) == Emitted(x.picture, refs, nalType)
  {
    hide SpsOf, PpsOf, SetsContext, Emitted, ScalingLists;
    SetsAreEmitted(x.profile.Id(), x.profile.Depth(), id, x.picture, x.coding, ListsOf(x), refs, nalType);
  }

  lemma AcceptedParses(slice: Slice, p: Picture, refs: References)
    requires WellFormedSlice(slice) && Accepts(slice, p, refs)
    ensures |slice.bytes| >= 3
    ensures ParseHeader(Original(p, refs, NalType(slice.bytes)), SliceBits(slice)).Success?
  {
    hide ParseHeader, HeaderAccepted, DataAccepted, Original, BytesBits;
  }

  // Every slice of every access unit, parsed under the parameter sets the decoder holds by then, means what the
  // original slice meant, unless it is an inter slice of an IDR picture.
  lemma SlicesKeepMeaning(x: Payload, state: State, store: Store, i: nat, prev: Option<int>)
    requires Builds(x, state) && Synced(state, store) && i < |x.slices|
    requires TellsPoc(x.slices[i], x.picture, ReferencesOf(x.picture), prev)
    ensures
      var refs, slice := ReferencesOf(x.picture), x.slices[i];
      var nalType := NalType(slice.bytes);
      var id := EmittedHeader(slice, x.picture, refs).prologue.ppsId;
      var context := StoredContext(Receive(store, AccessUnit(x, state)), id, nalType);
      var c, bits := Original(x.picture, refs, nalType), RewrittenBits(slice, x.picture, refs);
      var (h, q) := ParseHeader(c, SliceBits(slice)).value;
      && context.Some?
      && (!InterIdr(c, h) ==>
            var parse := ParseHeader(context.value, bits);
            && parse.Success? && parse.value.0.prologue.ppsId == id
            && Means(slice, x.picture, prev, c, h, q, context.value, parse.value.0, bits, parse.value.1))
  {
    hide Receive, AccessUnit, Accepts, EmittedHeader, WellFormedSlice, Gate, Synced, StoredContext, Emitted, Original,
      InterIdr, ParseHeader, RewrittenBits, Means, TellsPoc, ListsCodable, BytesBits, IsReferences;
    var refs, slice := ReferencesOf(x.picture), x.slices[i];
    StoredSetsAreEmitted(x, state, store, i);
    AcceptedParses(slice, x.picture, refs);
    var _ := ReferencesExist(x.picture);
    MeaningKeptExactly(slice, x.picture, refs, prev);
    var c := Original(x.picture, refs, NalType(slice.bytes));
    if !InterIdr(c, ParseHeader(c, SliceBits(slice)).value.0) {
      RewriteKeepsMeaning(slice, x.picture, refs);
    }
  }

  lemma ReceivedSets(x: Payload, state: State, store: Store)
    requires Builds(x, state) && Synced(state, store)
    ensures Receive(store, AccessUnit(x, state)) == StoreSets(store, Sets(x))
  {
    hide Receive, StoreSets, AllAccepted, SliceUnits, SetsOf, PpsIds, SliceUnit, NoTriples, ParameterSet.Valid, Cache,
      Stream, UnitsOf, Gate, DistinctPocs, Picture.Checked, Format.Checked, Synced;
    SetsValid(x, PpsIds(x.slices, x.picture, ReferencesOf(x.picture)));
    SlicesAreSlices(x.slices, x.picture, ReferencesOf(x.picture));
    CacheKeeps(state, Sets(x));
    CacheAgrees(state, store, Sets(x));
    ReceiveStores(store, Cache(state, Sets(x)).1, Slices(x));
  }

  lemma AdvanceKeepsSync(state: State, store: Store, nalType: nat)
    requires Synced(state, store)
    ensures Synced(Advance(state, nalType), store)
  {
    hide Framed;
    var next := Advance(state, nalType);
    forall key ensures next.Get(key) == if key in store then Framed(store[key]) else [] {
      assert next.Get(key) == state.Get(key);
    }
  }

  // Over every run of pictures that were built, refused, or not taken: the decoder stores exactly what it would
  // store had every picture carried all its parameter sets, and the context remembers exactly that.
  lemma {:induction false} CachedStreamAgrees(events: seq<Event>)
    ensures CachedStore(events) == FullStore(events)
    ensures Synced(Run(events), CachedStore(events))
  {
    hide Buildable, Receive, AccessUnit, FullAccessUnit, StateAfter, Builds, Synced, Framed;
    if events == [] {
      NothingStored();
    } else {
      var init, e := events[..|events| - 1], events[|events| - 1];
      CachedStreamAgrees(init);
      if Commits(Run(init), e) {
        BuildableBuilds(e.x, Run(init));
        AccessUnitAgrees(Prepared(e.x), Run(init), CachedStore(init));
      }
    }
  }

  lemma NothingStored()
    ensures Synced(INITIAL, map[])
  {
  }

  lemma BuildableBuilds(x: Payload, state: State)
    requires Buildable(x, state)
    ensures Builds(Prepared(x), state)
  {
  }

  // ---------- Random access ----------

  // The NAL unit types of the committed pictures.
  ghost function Committed(events: seq<Event>): seq<nat> {
    if events == [] then []
    else
      var init, e := events[..|events| - 1], events[|events| - 1];
      if Commits(Run(init), e) then Committed(init) + [TypeOf(Prepared(e.x))] else Committed(init)
  }

  // The latest random access picture before picture n.
  function LatestIrap(types: seq<nat>, n: nat): (r: Option<nat>)
    requires n <= |types|
    ensures r.Some? ==> r.value < n && IsIrap(types[r.value])
    ensures forall k :: (if r.Some? then r.value else -1) < k < n ==> !IsIrap(types[k])
  {
    if n == 0 then None else if IsIrap(types[n - 1]) then Some(n - 1) else LatestIrap(types, n - 1)
  }

  // NoRaslOutputFlag is 1 (section 8.1.3 of ITU-T H.265) for IDR and BLA pictures and for the first picture.
  predicate NoRaslOutput(types: seq<nat>, k: nat)
    requires k < |types|
  {
    IsIrap(types[k]) && (k == 0 || types[k] != 21)
  }

  // Picture n of the run can be decoded after random access.
  predicate Admissible(types: seq<nat>, n: nat)
    requires n < |types|
  {
    && (n == 0 ==> IsIrap(types[0]))
    && (IsRasl(types[n]) ==>
          LatestIrap(types, n).Some? && !NoRaslOutput(types, LatestIrap(types, n).value))
  }

  // The state tracks the run: whether it began, and the flag of its latest random access picture.
  ghost predicate Tracks(state: State, types: seq<nat>) {
    var latest := LatestIrap(types, |types|);
    && (state.started <==> types != [])
    && (types != [] ==> IsIrap(types[0]))
    && (state.noRaslOutput <==> latest.Some? && NoRaslOutput(types, latest.value))
  }

  lemma {:induction false} LatestOfPrefix(types: seq<nat>, t: nat, n: nat)
    requires n <= |types|
    ensures LatestIrap(types + [t], n) == LatestIrap(types, n)
  {
    if n > 0 {
      LatestOfPrefix(types, t, n - 1);
    }
  }

  lemma {:induction false} FirstIsIrap(types: seq<nat>, n: nat)
    requires 0 < n <= |types| && IsIrap(types[0])
    ensures LatestIrap(types, n).Some?
  {
    if n > 1 {
      FirstIsIrap(types, n - 1);
    }
  }

  // In a state that tracks the run, the gate admits exactly the pictures that can be decoded.
  lemma GateExact(state: State, types: seq<nat>, t: nat)
    requires Tracks(state, types)
    ensures Gate(state, t) <==> Admissible(types + [t], |types|)
  {
    LatestOfPrefix(types, t, |types|);
    if types != [] {
      FirstIsIrap(types, |types|);
    }
  }

  lemma AdvanceTracks(state: State, types: seq<nat>, t: nat)
    requires Tracks(state, types) && Gate(state, t)
    ensures Tracks(Advance(state, t), types + [t])
  {
    LatestOfPrefix(types, t, |types|);
  }

  lemma CommitTracks(state: State, e: Event, types: seq<nat>)
    requires Tracks(state, types) && Commits(state, e)
    ensures FirstSliceOk(Prepared(e.x))
    ensures Gate(state, TypeOf(Prepared(e.x)))
    ensures Tracks(Step(state, e), types + [TypeOf(Prepared(e.x))])
  {
    hide AllAccepted, SetsOf, PpsIds, Cache, Tracks, Prepared, LatestIrap;
    var x := Prepared(e.x);
    CacheKeeps(state, Sets(x));
    SameStanding(state, Cache(state, Sets(x)).0, types);
    AdvanceTracks(Cache(state, Sets(x)).0, types, TypeOf(x));
  }

  lemma SameStanding(state: State, next: State, types: seq<nat>)
    requires Tracks(state, types)
    requires next.started == state.started && next.noRaslOutput == state.noRaslOutput
    ensures Tracks(next, types)
  {
  }

  lemma {:induction false} RunTracks(events: seq<Event>)
    ensures Tracks(Run(events), Committed(events))
  {
    hide Buildable, StateAfter, Builds, Tracks, Prepared;
    if events == [] {
      NothingTracked();
    } else {
      var init, e := events[..|events| - 1], events[|events| - 1];
      RunTracks(init);
      if Commits(Run(init), e) {
        CommitTracks(Run(init), e, Committed(init));
      }
    }
  }

  // After any run, the gate admits a picture exactly when it can be decoded as the next one.
  lemma GateAfterRun(events: seq<Event>, t: nat)
    ensures Gate(Run(events), t) <==> Admissible(Committed(events) + [t], |Committed(events)|)
  {
    RunTracks(events);
    GateExact(Run(events), Committed(events), t);
  }

  lemma NothingTracked()
    ensures Tracks(INITIAL, [])
  {
  }

  // Every committed picture of every run is admissible: the run opens with a random access picture, and a RASL
  // picture only ever follows a CRA picture that did not open the run.
  lemma {:induction false} RandomAccessRun(events: seq<Event>, n: nat)
    requires n < |Committed(events)|
    ensures Admissible(Committed(events), n)
  {
    hide Buildable, StateAfter, Builds, Tracks, Prepared, Admissible;
    var init, e := events[..|events| - 1], events[|events| - 1];
    RunTracks(init);
    if n < |Committed(init)| {
      RandomAccessRun(init, n);
    }
    if Commits(Run(init), e) {
      CommitTracks(Run(init), e, Committed(init));
      GateExact(Run(init), Committed(init), TypeOf(Prepared(e.x)));
      if n < |Committed(init)| {
        AdmissiblePrefix(Committed(init), TypeOf(Prepared(e.x)), n);
      }
    }
  }

  lemma AdmissiblePrefix(types: seq<nat>, t: nat, n: nat)
    requires n < |types| && Admissible(types, n)
    ensures Admissible(types + [t], n)
  {
    LatestOfPrefix(types, t, n);
  }
}
