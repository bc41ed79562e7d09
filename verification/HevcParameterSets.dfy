/**
  Parameter sets over a run of pictures: the driver's cache, and a decoder that stores what it receives
  by kind and id.
 */
module HevcParameterSets {
  import opened Bitstring
  import opened ExpGolomb
  import opened HevcRewrite
  import opened NalStream
  import opened SyntaxElements
  import opened Wrappers

  datatype Key = VpsKey | SpsKey | PpsKey(id: nat)
  {
    function Type(): nat {
      match this
      case VpsKey => 32
      case SpsKey => 33
      case PpsKey(_) => 34
    }
  }

  /** A parameter set to be sent: its payload bits before rbsp_trailing_bits(). */
  datatype ParameterSet = ParameterSet(key: Key, bits: BitString)
  {
    // A picture parameter set opens with its id.
    predicate Valid() {
      key.PpsKey? ==> UeCode(key.id) <= bits && key.id <= 63
    }

    function Unit(): seq<byte> {
      NalUnit([2 * key.Type(), 1], FromBits(Aligned(bits)))
    }

    function Nal(): seq<byte> {
      Framed(Unit())
    }
  }

  /** HevcState: what was transmitted last, start code included, and where the run stands. */
  datatype State = State(
    started: bool, noRaslOutput: bool, vps: seq<byte>, sps: seq<byte>, pps: map<nat, seq<byte>>)
  {
    function Get(key: Key): seq<byte> {
      match key
      case VpsKey => vps
      case SpsKey => sps
      case PpsKey(id) => if id in pps then pps[id] else []
    }

    function Put(key: Key, nal: seq<byte>): State {
      match key
      case VpsKey => this.(vps := nal)
      case SpsKey => this.(sps := nal)
      case PpsKey(id) => this.(pps := pps[id := nal])
    }
  }

  const INITIAL := State(false, false, [], [], map[])

  // cache(): the state after offering these sets, and those that had to be sent.
  function Cache(state: State, sets: seq<ParameterSet>): (State, seq<ParameterSet>)
    decreases |sets|
  {
    if sets == [] then (state, [])
    else
      var x := sets[0];
      if state.Get(x.key) == x.Nal() then Cache(state, sets[1..])
      else
        var (next, sent) := Cache(state.Put(x.key, x.Nal()), sets[1..]);
        (next, [x] + sent)
  }

  function UnitsOf(sets: seq<ParameterSet>): (r: seq<seq<byte>>)
    ensures |r| == |sets|
  {
    if sets == [] then [] else [sets[0].Unit()] + UnitsOf(sets[1..])
  }

  // ---------- The decoder ----------

  type Store = map<Key, seq<byte>>

  // pps_pic_parameter_set_id, the first element of a picture parameter set.
  function PpsIdOf(unit: seq<byte>): Option<nat> {
    if |unit| < 2 then None
    else
      var id := DecodeUe(BytesBits(Unescape(unit[2..])), 0, 31);
      if id.Success? then Some(id.value.0) else None
  }

  // The unit types of table 7-1 of ITU-T H.265.
  function Feed(store: Store, unit: seq<byte>): Store {
    if unit == [] then store
    else if unit[0] / 2 == 32 then store[VpsKey := unit]
    else if unit[0] / 2 == 33 then store[SpsKey := unit]
    else if unit[0] / 2 == 34 then
      if PpsIdOf(unit).Some? then store[PpsKey(PpsIdOf(unit).value) := unit] else store
    else store
  }

  function FeedAll(store: Store, units: seq<seq<byte>>): Store
    decreases |units|
  {
    if units == [] then store else FeedAll(Feed(store, units[0]), units[1..])
  }

  // A decoder reads an access unit: split it into NAL units and take each in turn.
  function Receive(store: Store, accessUnit: seq<byte>): Store {
    FeedAll(store, Split(accessUnit))
  }

  function StoreSets(store: Store, sets: seq<ParameterSet>): Store
    decreases |sets|
  {
    if sets == [] then store else StoreSets(store[sets[0].key := sets[0].Unit()], sets[1..])
  }

  // ---------- Units survive the byte stream ----------

  lemma UnitShape(x: ParameterSet)
    ensures NoTriples(x.Unit())
    ensures x.Unit() != [] && Unpadded(x.Unit())
    ensures NalType(x.Unit()) == x.key.Type()
    ensures |x.Unit()| > 2 && x.Unit()[0] == 2 * x.key.Type() && Unescape(x.Unit()[2..]) == FromBits(Aligned(x.bits))
  {
    hide NoTriples, Escape, Unescape, FromBits, Aligned;
    var header: seq<byte>, body := [2 * x.key.Type(), 1], FromBits(Aligned(x.bits));
    AlignedLastByte(x.bits);
    NalUnitHasNoTriples(header, body);
    EscapeLast(body, 0);
    UnescapeEscape(body, 0);
    assert x.Unit()[2..] == Escape(body);
  }

  lemma PpsIdRead(x: ParameterSet)
    requires x.Valid() && x.key.PpsKey?
    ensures PpsIdOf(x.Unit()) == Some(x.key.id)
  {
    hide NoTriples, Escape, Unescape, FromBits, BytesBits, UeCode, NalUnit, DecodeUe, AlignmentBits;
    UnitShape(x);
    AlignedLength(x.bits);
    BitsOfFromBits(Aligned(x.bits));
    var code := UeCode(x.key.id);
    var rest := x.bits[|code|..] + AlignmentBits(|x.bits|);
    assert Aligned(x.bits) == code + rest;
    Log2Limit(x.key.id + 1);
    ReadsPrefix(code, rest);
    DecodeUeExact(Aligned(x.bits), 0, 31, x.key.id, |code|);
  }

  lemma FeedSet(store: Store, x: ParameterSet)
    requires x.Valid()
    ensures Feed(store, x.Unit()) == store[x.key := x.Unit()]
  {
    hide NoTriples, Unescape, FromBits, NalUnit, PpsIdOf, Unpadded, Aligned;
    UnitShape(x);
    if x.key.PpsKey? {
      PpsIdRead(x);
    }
  }

  // A slice unit leaves the store alone, with or without its trailing zeros.
  predicate SliceUnit(u: seq<byte>) {
    |u| >= 2 && u[1] != 0 && NalType(u) <= 31
  }

  lemma FeedSlice(store: Store, u: seq<byte>)
    requires SliceUnit(u)
    ensures Feed(store, u) == store && Feed(store, Strip(u)) == store
  {
    StripTail(u);
    assert |Strip(u)| > 1;
  }

  lemma {:induction false} FeedSlices(store: Store, units: seq<seq<byte>>)
    requires forall i :: 0 <= i < |units| ==> SliceUnit(units[i])
    ensures FeedAll(store, Delivered(units)) == store
    decreases |units|
  {
    hide Strip, Feed, SliceUnit;
    if units != [] {
      FeedSlice(store, units[0]);
      if |units| > 1 {
        FeedSlices(store, units[1..]);
        assert Delivered(units)[1..] == Delivered(units[1..]);
      } else {
        assert units[1..] == [];
      }
    }
  }

  lemma {:induction false} DeliveredSetsAndSlices(store: Store, sets: seq<ParameterSet>, slices: seq<seq<byte>>)
    requires forall i :: 0 <= i < |sets| ==> sets[i].Valid()
    requires forall i :: 0 <= i < |slices| ==> SliceUnit(slices[i])
    ensures FeedAll(store, Delivered(UnitsOf(sets) + slices)) == StoreSets(store, sets)
    decreases |sets|
  {
    hide Strip, Feed, SliceUnit, NalUnit, Unpadded, ParameterSet.Valid, ParameterSet.Unit, NoTriples, Unescape,
      Delivered;
    if sets == [] {
      assert UnitsOf(sets) + slices == slices;
      FeedSlices(store, slices);
    } else {
      var x, units := sets[0], UnitsOf(sets) + slices;
      var rest := UnitsOf(sets[1..]) + slices;
      assert units == [x.Unit()] + rest;
      assert units[1..] == rest;
      UnitShape(x);
      StripWhole(x.Unit());
      FeedSet(store, x);
      DeliveredSetsAndSlices(store[x.key := x.Unit()], sets[1..], slices);
      DeliveredHead(units);
    }
  }

  lemma StripWhole(u: seq<byte>)
    requires Unpadded(u)
    ensures Strip(u) == u
  {
  }

  lemma DeliveredHead(units: seq<seq<byte>>)
    requires units != [] && Strip(units[0]) == units[0]
    ensures Delivered(units) == [units[0]] + Delivered(units[1..])
    ensures Delivered(units)[1..] == Delivered(units[1..])
  {
    if |units| == 1 {
      assert units[1..] == [];
    }
  }

  lemma {:induction false} UnitsAreClean(sets: seq<ParameterSet>)
    ensures forall u :: u in UnitsOf(sets) ==> NoTriples(u)
  {
    hide NoTriples, NalUnit, Unpadded, Unescape;
    if sets != [] {
      UnitShape(sets[0]);
      UnitsAreClean(sets[1..]);
    }
  }

  // What a decoder stores from an access unit of parameter sets and slices.
  lemma ReceiveStores(store: Store, sets: seq<ParameterSet>, slices: seq<seq<byte>>)
    requires forall i :: 0 <= i < |sets| ==> sets[i].Valid()
    requires forall i :: 0 <= i < |slices| ==> SliceUnit(slices[i]) && NoTriples(slices[i])
    ensures Receive(store, Stream(UnitsOf(sets) + slices)) == StoreSets(store, sets)
  {
    hide NoTriples, SliceUnit, Split, Stream, UnitsOf, Delivered, ParameterSet.Valid;
    UnitsAreClean(sets);
    SplitStream(UnitsOf(sets) + slices);
    DeliveredSetsAndSlices(store, sets, slices);
  }

  // ---------- The cache agrees with sending everything ----------

  // The driver remembers exactly what the decoder has stored.
  ghost predicate Synced(state: State, store: Store) {
    forall key :: state.Get(key) == if key in store then Framed(store[key]) else []
  }

  lemma GetPut(state: State, key: Key, nal: seq<byte>, other: Key)
    ensures state.Put(key, nal).Get(other) == if other == key then nal else state.Get(other)
  {
  }

  lemma FramedInjective(a: seq<byte>, b: seq<byte>)
    requires Framed(a) == Framed(b)
    ensures a == b
  {
    assert Framed(a)[4..] == a && Framed(b)[4..] == b;
  }

  lemma FramedNonempty(u: seq<byte>)
    ensures Framed(u) != []
  {
  }

  // Skipping the sets the state already holds changes nothing for the decoder, and afterwards
  // the state is again what the decoder has stored.
  lemma {:induction false} CacheAgrees(state: State, store: Store, sets: seq<ParameterSet>)
    requires Synced(state, store)
    ensures
      var (next, sent) := Cache(state, sets);
      && StoreSets(store, sent) == StoreSets(store, sets)
      && Synced(next, StoreSets(store, sets))
    decreases |sets|
  {
    hide Framed, ParameterSet.Unit;
    if sets != [] {
      var x := sets[0];
      var after := store[x.key := x.Unit()];
      assert state.Get(x.key) == if x.key in store then Framed(store[x.key]) else [];
      if state.Get(x.key) == x.Nal() {
        FramedNonempty(x.Unit());
        FramedInjective(store[x.key], x.Unit());
        assert after == store;
        CacheAgrees(state, store, sets[1..]);
      } else {
        var put := state.Put(x.key, x.Nal());
        assert Synced(put, after) by {
          forall key ensures put.Get(key) == if key in after then Framed(after[key]) else [] {
            GetPut(state, x.key, x.Nal(), key);
          }
        }
        CacheAgrees(put, after, sets[1..]);
        var (next, sent) := Cache(put, sets[1..]);
        assert ([x] + sent)[1..] == sent;
      }
    }
  }

  predicate DistinctKeys(sets: seq<ParameterSet>) {
    forall i, j :: 0 <= i < j < |sets| ==> sets[i].key != sets[j].key
  }

  lemma PutGets(state: State, key: Key, nal: seq<byte>)
    ensures forall other :: state.Put(key, nal).Get(other) == if other == key then nal else state.Get(other)
  {
  }

  // A set is sent if and only if it is not what was sent last for its key; no set is sent twice.
  lemma {:induction false} SentExactly(state: State, sets: seq<ParameterSet>)
    requires DistinctKeys(sets)
    ensures
      var sent := Cache(state, sets).1;
      && (forall x :: x in sent <==> x in sets && state.Get(x.key) != x.Nal())
      && DistinctKeys(sent)
    decreases |sets|
  {
    hide ParameterSet.Nal, State.Put, State.Get;
    if sets != [] {
      var x, rest := sets[0], sets[1..];
      assert sets == [x] + rest;
      var next := if state.Get(x.key) == x.Nal() then state else state.Put(x.key, x.Nal());
      PutGets(state, x.key, x.Nal());
      assert DistinctKeys(rest) && forall y :: y in rest ==> y.key != x.key;
      SentExactly(next, rest);
    }
  }

  lemma {:induction false} CacheKeeps(state: State, sets: seq<ParameterSet>)
    ensures
      var (next, sent) := Cache(state, sets);
      && next.started == state.started && next.noRaslOutput == state.noRaslOutput
      && forall x :: x in sent ==> x in sets
    decreases |sets|
  {
    if sets != [] {
      var x := sets[0];
      CacheKeeps(if state.Get(x.key) == x.Nal() then state else state.Put(x.key, x.Nal()), sets[1..]);
    }
  }
}
