/**
  A decoder of the whole stream that the HEVC rebuilder sends: it keeps the parameter sets it received, reads every
  slice by the sets the slice names, and counts picture orders from the pictures before. Over every run of pictures it
  reads what the client's slices meant.
 */
module HevcStream {
  import opened Bitstring
  import opened ExpGolomb
  import opened HevcAccessUnit
  import opened HevcDecoder
  import opened HevcMeaning
  import opened HevcParameterSets
  import opened HevcPicture
  import opened HevcRanges
  import opened HevcReceived
  import opened HevcReferences
  import opened HevcRewrite
  import opened HevcRuns
  import opened HevcSets
  import opened HevcSetWriter
  import opened HevcSyntax
  import opened SyntaxElements
  import opened Wrappers

  // ---------- Picture order counts along the stream ----------

  // Later pictures count from this one: TemporalId 0, and neither RADL, RASL nor a sub-layer non-reference picture.
  predicate Anchors(unit: seq<byte>)
    requires |unit| >= 2
  {
    var nalType := unit[0] / 2;
    unit[1] % 8 == 1 && !(6 <= nalType <= 9) && !(nalType < 16 && nalType % 2 == 0)
  }

  // The picture order count that a slice tells; nothing is told by a dependent slice segment.
  function ToldPoc(read: Option<Read>, prev: Option<int>): Option<int> {
    if read.None? || read.value.header.body.None? then None
    else
      var rps := read.value.header.body.value.rps;
      Some(if rps.None? then 0 else PicOrderCnt(prev, rps.value.lsb, read.value.context.lsbBits))
  }

  // A random access picture with NoRaslOutputFlag starts counting anew.
  predicate Opens(state: State, nalType: nat) {
    IsIrap(nalType) && (!state.started || nalType <= 20)
  }

  // What a decoder counts from behind the run, as it derives it from the access units it received.
  ghost function Anchor(events: seq<Event>): Option<int>
    decreases |events|, 0
  {
    if events == [] then None
    else
      var init, e := events[..|events| - 1], events[|events| - 1];
      if !Commits(HevcRuns.Run(init), e) then Anchor(init)
      else
        var units := ReceivedSlices(AccessUnit(Prepared(e.x), HevcRuns.Run(init)));
        if units == [] || |units[0]| < 2 || !Anchors(units[0]) then Anchor(init)
        else ToldPoc(ReadUnit(CachedStore(events), units[0]), Before(init, units[0][0] / 2))
  }

  // What it counts the next picture from.
  ghost function Before(events: seq<Event>, nalType: nat): Option<int>
    decreases |events|, 1
  {
    if Opens(HevcRuns.Run(events), nalType) then None else Anchor(events)
  }

  // The same by what VA tells.
  ghost function VaAnchor(events: seq<Event>): Option<int> {
    if events == [] then None
    else
      var init, e := events[..|events| - 1], events[|events| - 1];
      if !Commits(HevcRuns.Run(init), e) then VaAnchor(init)
      else if |Prepared(e.x).slices[0].bytes| >= 2 && Anchors(Prepared(e.x).slices[0].bytes) then
        Some(e.x.picture.currPoc)
      else VaAnchor(init)
  }

  ghost function VaBefore(events: seq<Event>, nalType: nat): Option<int> {
    if Opens(HevcRuns.Run(events), nalType) then None else VaAnchor(events)
  }

  // ---------- Streams whose pictures are numbered right ----------

  // The first slice of the picture is one a decoder can read, and the picture order count of VA is the one it tells.
  ghost predicate Numbered(x: Payload, prev: Option<int>)
    requires FirstSliceOk(x) && AllAccepted(x.slices, x.picture, ReferencesOf(x.picture))
  {
    var refs, slice := ReferencesOf(x.picture), x.slices[0];
    var c := Original(x.picture, refs, NalType(slice.bytes));
    var h := ParseHeader(c, SliceBits(slice)).value.0;
    && h.body.Some? && !InterIdr(c, h) && TellsPoc(slice, x.picture, refs, prev)
    && (h.body.value.rps.None? ==> x.picture.currPoc == 0)
  }

  // So are all pictures of the run that were sent.
  ghost predicate AllNumbered(events: seq<Event>) {
    events == [] ||
    var init, e := events[..|events| - 1], events[|events| - 1];
    && AllNumbered(init)
    && (Commits(HevcRuns.Run(init), e) ==>
          Numbered(Prepared(e.x), VaBefore(init, TypeOf(Prepared(e.x)))))
  }

  lemma SameAnchor(u: seq<byte>, bytes: seq<byte>)
    requires |u| >= 2 && |bytes| >= 2 && u[..2] == bytes[..2]
    ensures u[0] == bytes[0] && Anchors(u) == Anchors(bytes)
  {
    assert u[..2][0] == u[0] && bytes[..2][0] == bytes[0] && u[..2][1] == u[1] && bytes[..2][1] == bytes[1];
  }

  // What the first slice of a numbered picture tells is its picture order count by VA.
  lemma FirstIsTold(x: Payload, state: State, store: Store, prev: Option<int>)
    requires Builds(x, state) && Synced(state, store) && Numbered(x, prev)
    ensures
      var units := ReceivedSlices(AccessUnit(x, state));
      && units != [] && |units[0]| >= 2 && units[0][0] / 2 == TypeOf(x)
      && Anchors(units[0]) == Anchors(x.slices[0].bytes)
      && ToldPoc(ReadUnit(Receive(store, AccessUnit(x, state)), units[0]), prev) == Some(x.picture.currPoc)
  {
    hide Receive, AccessUnit, WellFormedSlice, Gate, Synced, Original, InterIdr, ParseHeader, TellsPoc, ListsCodable,
      ReceivedSlices, ReadUnit, DistinctPocs, Anchors, ReadMeans, HeaderAccepted, DataAccepted, SliceBits, ToldPoc;
    ReceivedKeepsMeaning(x, state, store, 0, prev);
    SameAnchor(ReceivedSlices(AccessUnit(x, state))[0], x.slices[0].bytes);
    var slice := x.slices[0];
    var c := Original(x.picture, ReferencesOf(x.picture), NalType(slice.bytes));
    var (h, q) := ParseHeader(c, SliceBits(slice)).value;
    var r := ReadUnit(Receive(store, AccessUnit(x, state)), ReceivedSlices(AccessUnit(x, state))[0]).value;
    var k: nat :| ReadMeans(slice, x.picture, prev, c, h, q, r, k);
    MeansTells(slice, x.picture, prev, c, h, q, r, k);
  }

  lemma MeansTells(slice: Slice, p: Picture, prev: Option<int>, c: Context, x: Header, q: nat, r: Read, k: nat)
    requires |slice.bytes| >= 2 && ReadMeans(slice, p, prev, c, x, q, r, k)
    requires x.body.Some? && (x.body.value.rps.None? ==> p.currPoc == 0)
    ensures ToldPoc(Some(r), prev) == Some(p.currPoc)
  {
    hide PicOrderCnt, IsVaSet, IsVaList, SameRest, OnlyExplicit, DecodeRps;
    assert TellsVa(r.context, prev, p, slice, r.header);
    assert r.header.body.Some?;
    var b := r.header.body.value;
    assert b.rps.Some? == x.body.value.rps.Some?;
    if b.rps.Some? {
      assert PicOrderCnt(prev, b.rps.value.lsb, r.context.lsbBits) == p.currPoc;
    }
  }

  // A decoder counts from what VA tells.
  lemma {:induction false} AnchorsAgree(events: seq<Event>)
    requires AllNumbered(events)
    ensures Anchor(events) == VaAnchor(events)
    decreases |events|
  {
    hide Commits, HevcRuns.Run, Numbered, Receive, AccessUnit, ToldPoc, ReadUnit, Anchors, ReceivedSlices, Builds,
      Synced, Prepared;
    if events != [] {
      var init, e := events[..|events| - 1], events[|events| - 1];
      AnchorsAgree(init);
      if Commits(HevcRuns.Run(init), e) {
        CommittedBuilds(init, e);
        assert init + [e] == events;
        CachedStreamAgrees(init);
        FirstIsTold(Prepared(e.x), HevcRuns.Run(init), CachedStore(init), VaBefore(init, TypeOf(Prepared(e.x))));
        PreparedPicture(e.x);
      }
    }
  }

  lemma CommittedBuilds(init: seq<Event>, e: Event)
    requires Commits(HevcRuns.Run(init), e)
    ensures Builds(Prepared(e.x), HevcRuns.Run(init)) && FirstSliceOk(Prepared(e.x))
    ensures CachedStore(init + [e]) == Receive(CachedStore(init), AccessUnit(Prepared(e.x), HevcRuns.Run(init)))
  {
    hide Buildable, Receive, AccessUnit, HevcRuns.Run;
    BuildableBuilds(e.x, HevcRuns.Run(init));
    assert (init + [e])[..|init|] == init;
  }

  lemma PreparedPicture(x: Payload)
    ensures Prepared(x).picture == x.picture
  {
  }

  // In every run of numbered pictures, every slice of every picture that was sent, as it arrives, keeps its NAL unit
  // header; read by the sets that arrived so far and counted from the pictures read before, it means what the client's
  // slice meant, unless that is an inter slice of an IDR picture.
  lemma StreamKeepsMeaning(events: seq<Event>, e: Event, i: nat)
    requires AllNumbered(events) && Commits(HevcRuns.Run(events), e)
    requires i < |Prepared(e.x).slices| && Builds(Prepared(e.x), HevcRuns.Run(events))
    requires
      var x := Prepared(e.x);
      TellsPoc(x.slices[i], x.picture, ReferencesOf(x.picture), VaBefore(events, TypeOf(x)))
    ensures
      var x := Prepared(e.x);
      var slice, units := x.slices[i], ReceivedSlices(AccessUnit(x, HevcRuns.Run(events)));
      var c := Original(x.picture, ReferencesOf(x.picture), NalType(slice.bytes));
      var (h, q) := ParseHeader(c, SliceBits(slice)).value;
      && |units| == |x.slices| && |units[i]| >= 2 && |slice.bytes| >= 2 && units[i][..2] == slice.bytes[..2]
      && (!InterIdr(c, h) ==>
            var r := ReadUnit(CachedStore(events + [e]), units[i]);
            && r.Some?
            && exists k: nat ::
                 && ReadMeans(slice, x.picture, Before(events, TypeOf(x)), c, h, q, r.value, k)
                 && (i == |units| - 1 || EndsNonzero(slice) ==> k == 0))
  {
    hide Receive, AccessUnit, Accepts, WellFormedSlice, Gate, Synced, Original, InterIdr, ParseHeader, TellsPoc,
      ListsCodable, ReadUnit, ReadMeans, DistinctPocs, ReceivedSlices, SliceBits, EndsNonzero, Prepared, AllNumbered,
      HevcRuns.Run, CachedStore, Anchor, VaAnchor, Commits, Ready;
    AnchorsAgree(events);
    CommittedBuilds(events, e);
    CachedStreamAgrees(events);
    var x := Prepared(e.x);
    assert Before(events, TypeOf(x)) == VaBefore(events, TypeOf(x));
    ReceivedKeepsMeaning(x, HevcRuns.Run(events), CachedStore(events), i, Before(events, TypeOf(x)));
  }

  // The slices that are rewritten are the client's, without a start code prefix in front.
  lemma PreparedSlices(x: Payload, i: nat)
    requires i < |x.slices|
    ensures
      var slice, bare := x.slices[i], Prepared(x).slices[i];
      && |Prepared(x).slices| == |x.slices| && bare == slice.(bytes := bare.bytes)
      && (if [0, 0, 1] <= slice.bytes && |slice.bytes| >= 4 then slice.bytes == [0, 0, 1] + bare.bytes
          else if [0, 0, 0, 1] <= slice.bytes then slice.bytes == [0, 0, 0, 1] + bare.bytes
          else bare == slice)
  {
  }

  // ---------- Parameter sets a decoder accepts ----------

  lemma SetsAccepted(x: Payload, id: nat)
    requires Ready(x) && ListsCodable(x) && id <= 63
    ensures DecodeSps(UnitBits(SpsSet(x).Unit())).Success? <==> BlocksAllowed(x.profile.Depth(), x.picture, x.coding)
    ensures DecodePps(SpsFields(x), UnitBits(PpsSet(x, id).Unit())).Success? <==>
            ControlsAllowed(x.profile.Depth(), x.picture, x.coding)
  {
    hide DecodeSps, DecodePps, UnitBits, Aligned, SpsBits, PpsBits, SpsOf, PpsOf, ParameterSet.Unit,
      BlocksAllowed, ControlsAllowed, CodedMatrices;
    SetBits(SpsSet(x));
    SetBits(PpsSet(x, id));
    SpsAcceptedExactly(x.profile.Id(), x.profile.Depth(), x.picture, x.coding);
    PpsAcceptedExactly(x.profile.Id(), x.profile.Depth(), id, x.picture, x.coding, MatricesOf(x));
  }

  // A decoder that checks ranges accepts the sets that a slice finds exactly when the values of the picture that the
  // driver does not check are in range.
  lemma StoredSetsAccepted(x: Payload, state: State, store: Store, i: nat)
    requires Builds(x, state) && Synced(state, store) && i < |x.slices|
    ensures
      var t := Receive(store, AccessUnit(x, state));
      var id := EmittedHeader(x.slices[i], x.picture, ReferencesOf(x.picture)).prologue.ppsId;
      && SpsKey in t && PpsKey(id) in t
      && (DecodeSps(UnitBits(t[SpsKey])).Success? <==>
          BlocksAllowed(x.profile.Depth(), x.picture, x.coding))
      && (DecodePps(SpsFields(x), UnitBits(t[PpsKey(id)])).Success? <==>
          ControlsAllowed(x.profile.Depth(), x.picture, x.coding))
  {
    hide Receive, AccessUnit, Accepts, EmittedHeader, WellFormedSlice, Gate, DistinctPocs, Synced, SpsFields, VpsSet,
      SpsSet, PpsSet, UnitBits, DecodeSps, DecodePps, ParameterSet.Unit, Ready, ListsCodable, BlocksAllowed,
      ControlsAllowed;
    SlicesFindTheirSets(x, state, store, i);
    SetsAccepted(x, EmittedHeader(x.slices[i], x.picture, ReferencesOf(x.picture)).prologue.ppsId);
  }
}
