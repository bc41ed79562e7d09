/**
  The slice segment header of ITU-T H.265, section 7.3.6.1, up to and including
  ref_pic_lists_modification(): one table, read under the parameter sets of the original stream
  or under those the driver emits.
 */
module HevcSyntax {
  import opened Bitstring
  import opened ExpGolomb
  import opened SyntaxElements
  import opened Wrappers

  /** What a parser knows besides the bits. */
  datatype Context = Context(
    nalType: nat,
    dependentEnabled: bool,
    addressBits: nat,
    extraBits: nat,
    outputFlagPresent: bool,
    lsbBits: nat,
    spsRpsCount: nat,
    predictedRpsBits: nat,
    longTermPresent: bool,
    spsLongTermCount: nat,
    temporalMvp: bool,
    sao: bool,
    defaultActive0: nat,
    defaultActive1: nat,
    listsModification: bool,
    // NumPicTotalCurr when it is told from outside, None when the header's own sets tell it.
    totalCurr: Option<nat>,
    maxZeros: nat)
  {
    predicate Irap() {
      16 <= nalType <= 23
    }

    predicate Idr() {
      nalType == 19 || nalType == 20
    }
  }

  datatype Prologue = Prologue(
    first: bool, noOutputOfPriorPics: Option<bool>, ppsId: nat, dependent: bool, address: nat)

  datatype Kind = Kind(extra: BitString, sliceType: nat, picOutput: Option<bool>)

  datatype StEntry = StEntry(deltaMinus1: nat, used: bool)

  datatype ShortTerm =
    | FromSps(index: nat)
    | Predicted(raw: BitString)
    | Explicit(negative: seq<StEntry>, positive: seq<StEntry>)

  datatype LtEntry =
    | SpsLt(index: nat, cycle: Option<nat>)
    | SliceLt(lsb: nat, used: bool, cycle: Option<nat>)

  datatype LongTerm = LongTerm(fromSps: nat, entries: seq<LtEntry>)

  datatype Rps = Rps(lsb: nat, st: ShortTerm, lt: Option<LongTerm>, mvp: Option<bool>)

  datatype Sao = Sao(luma: bool, chroma: bool)

  // The explicit active counts minus one, and the list_entry values of each list.
  datatype Active = Active(l0: nat, l1: Option<nat>)
  datatype Lists = Lists(active: Option<Active>, entries0: Option<seq<nat>>, entries1: Option<seq<nat>>)

  datatype Body = Body(kind: Kind, rps: Option<Rps>, sao: Option<Sao>, lists: Option<Lists>)

  datatype Header = Header(prologue: Prologue, body: Option<Body>)

  // The number of bits that index n values: Ceil(Log2(n)).
  function CeilLog2(n: nat): nat {
    BitLength(if n > 0 then n - 1 else 0)
  }

  function BitLength(v: nat): nat {
    if v == 0 then 0 else 1 + BitLength(v / 2)
  }

  lemma {:induction false} BitLengthBound(v: nat)
    ensures v < Pow2(BitLength(v))
  {
    if v > 0 {
      BitLengthBound(v / 2);
    }
  }

  // ---------- Printing ----------

  function PrintFlag(o: Option<bool>): BitString {
    if o.Some? then [o.value] else []
  }

  function PrintPrologue(c: Context, x: Prologue): BitString {
    [x.first] + PrintFlag(x.noOutputOfPriorPics) + UeCode(x.ppsId) +
    (if x.first then []
     else (if c.dependentEnabled then [x.dependent] else []) + FixedBits(x.address, c.addressBits))
  }

  function PrintKind(x: Kind): BitString {
    x.extra + UeCode(x.sliceType) + PrintFlag(x.picOutput)
  }

  function PrintStEntries(x: seq<StEntry>): BitString {
    if x == [] then [] else UeCode(x[0].deltaMinus1) + [x[0].used] + PrintStEntries(x[1..])
  }

  function PrintShortTerm(c: Context, x: ShortTerm): BitString {
    match x
    case FromSps(index) => [true] + FixedBits(index, CeilLog2(c.spsRpsCount))
    case Predicted(raw) => [false] + raw
    case Explicit(negative, positive) =>
      [false] + (if c.spsRpsCount > 0 then [false] else []) +
      (UeCode(|negative|) + UeCode(|positive|)) + PrintStEntries(negative + positive)
  }

  function PrintCycle(o: Option<nat>): BitString {
    if o.Some? then [true] + UeCode(o.value) else [false]
  }

  function PrintLtEntry(c: Context, x: LtEntry): BitString {
    match x
    case SpsLt(index, cycle) => FixedBits(index, CeilLog2(c.spsLongTermCount)) + PrintCycle(cycle)
    case SliceLt(lsb, used, cycle) => FixedBits(lsb, c.lsbBits) + [used] + PrintCycle(cycle)
  }

  function PrintLtEntries(c: Context, x: seq<LtEntry>): BitString {
    if x == [] then [] else PrintLtEntry(c, x[0]) + PrintLtEntries(c, x[1..])
  }

  function PrintLongTerm(c: Context, x: LongTerm): BitString
    requires x.fromSps <= |x.entries|
  {
    (if c.spsLongTermCount > 0 then UeCode(x.fromSps) else []) +
    UeCode(|x.entries| - x.fromSps) + PrintLtEntries(c, x.entries)
  }

  function PrintOptLongTerm(c: Context, x: Option<LongTerm>): BitString
    requires x.Some? ==> x.value.fromSps <= |x.value.entries|
  {
    if x.Some? then PrintLongTerm(c, x.value) else []
  }

  function PrintRps(c: Context, x: Rps): BitString
    requires x.lt.Some? ==> x.lt.value.fromSps <= |x.lt.value.entries|
  {
    FixedBits(x.lsb, c.lsbBits) + PrintShortTerm(c, x.st) + PrintOptLongTerm(c, x.lt) + PrintFlag(x.mvp)
  }

  function PrintActive(o: Option<Active>): BitString {
    if o.None? then [false]
    else [true] + UeCode(o.value.l0) + (if o.value.l1.Some? then UeCode(o.value.l1.value) else [])
  }

  function PrintEntries(x: seq<nat>, width: nat): BitString {
    if x == [] then [] else FixedBits(x[0], width) + PrintEntries(x[1..], width)
  }

  // One list of ref_pic_lists_modification().
  function PrintList(o: Option<seq<nat>>, width: nat): BitString {
    if o.None? then [false] else [true] + PrintEntries(o.value, width)
  }

  function PrintLists(c: Context, x: Lists, sliceType: nat, total: nat): BitString {
    PrintActive(x.active) + PrintModification(c, x, sliceType, total)
  }

  function PrintModification(c: Context, x: Lists, sliceType: nat, total: nat): BitString {
    if c.listsModification && total > 1 then
      PrintList(x.entries0, CeilLog2(total)) +
      (if sliceType == 0 then PrintList(x.entries1, CeilLog2(total)) else [])
    else []
  }

  function PrintSao(o: Option<Sao>): BitString {
    if o.Some? then [o.value.luma, o.value.chroma] else []
  }

  predicate Printable(x: Body) {
    x.rps.Some? && x.rps.value.lt.Some? ==> x.rps.value.lt.value.fromSps <= |x.rps.value.lt.value.entries|
  }

  function PrintBody(c: Context, x: Body): BitString
    requires Printable(x)
  {
    PrintKind(x.kind) + (if x.rps.Some? then PrintRps(c, x.rps.value) else []) + PrintSao(x.sao) +
    (if x.lists.Some? then PrintLists(c, x.lists.value, x.kind.sliceType, TotalCurr(c, x.rps)) else [])
  }

  function PrintHeader(c: Context, x: Header): BitString
    requires x.body.Some? ==> Printable(x.body.value)
  {
    PrintPrologue(c, x.prologue) + (if x.body.Some? then PrintBody(c, x.body.value) else [])
  }

  // ---------- The headers that the syntax admits ----------

  predicate UeFits(c: Context, v: nat) {
    Log2(v + 1) <= c.maxZeros
  }

  predicate WfPrologue(c: Context, x: Prologue) {
    && x.noOutputOfPriorPics.Some? == c.Irap()
    && x.ppsId <= 63 && UeFits(c, x.ppsId)
    && (x.first || !c.dependentEnabled ==> !x.dependent)
    && (x.first ==> x.address == 0)
    && x.address < Pow2(c.addressBits)
  }

  predicate WfKind(c: Context, x: Kind) {
    && |x.extra| == c.extraBits
    && x.sliceType <= 2 && UeFits(c, x.sliceType)
    && x.picOutput.Some? == c.outputFlagPresent
  }

  predicate WfStEntries(c: Context, x: seq<StEntry>) {
    forall e :: e in x ==> UeFits(c, e.deltaMinus1)
  }

  predicate WfShortTerm(c: Context, x: ShortTerm) {
    match x
    case FromSps(index) => c.spsRpsCount > 0 && index < Pow2(CeilLog2(c.spsRpsCount))
    case Predicted(raw) => c.spsRpsCount > 0 && |raw| == c.predictedRpsBits > 0 && raw[0]
    case Explicit(negative, positive) =>
      && |negative| + |positive| <= 15
      && UeFits(c, |negative|) && UeFits(c, |positive|)
      && WfStEntries(c, negative + positive)
  }

  predicate WfCycle(c: Context, o: Option<nat>) {
    o.Some? ==> UeFits(c, o.value)
  }

  predicate WfLtEntry(c: Context, x: LtEntry, fromSps: bool) {
    && WfCycle(c, x.cycle)
    && x.SpsLt? == fromSps
    && match x
       case SpsLt(index, _) => index < Pow2(CeilLog2(c.spsLongTermCount))
       case SliceLt(lsb, _, _) => lsb < Pow2(c.lsbBits)
  }

  predicate WfLtEntries(c: Context, x: seq<LtEntry>, fromSps: nat) {
    forall i :: 0 <= i < |x| ==> WfLtEntry(c, x[i], i < fromSps)
  }

  predicate WfLongTerm(c: Context, x: LongTerm) {
    && x.fromSps <= c.spsLongTermCount
    && x.fromSps <= |x.entries| <= 15
    && UeFits(c, x.fromSps) && UeFits(c, |x.entries| - x.fromSps)
    && WfLtEntries(c, x.entries, x.fromSps)
  }

  predicate WfRps(c: Context, x: Rps) {
    && x.lsb < Pow2(c.lsbBits)
    && WfShortTerm(c, x.st)
    && x.lt.Some? == c.longTermPresent
    && (x.lt.Some? ==> WfLongTerm(c, x.lt.value))
    && x.mvp.Some? == c.temporalMvp
  }

  function ActiveCount(c: Context, x: Lists, l: nat): nat {
    match x.active
    case None => if l == 0 then c.defaultActive0 else c.defaultActive1
    case Some(a) => if l == 0 then a.l0 + 1 else if a.l1.Some? then a.l1.value + 1 else c.defaultActive1
  }

  predicate WfActive(c: Context, o: Option<Active>, sliceType: nat) {
    o.Some? ==>
      && UeFits(c, o.value.l0)
      && o.value.l1.Some? == (sliceType == 0)
      && (o.value.l1.Some? ==> UeFits(c, o.value.l1.value))
  }

  predicate WfEntries(x: seq<nat>, n: nat, width: nat) {
    |x| == n && forall v :: v in x ==> v < Pow2(width)
  }

  predicate WfList(o: Option<seq<nat>>, n: nat, width: nat) {
    o.Some? ==> WfEntries(o.value, n, width)
  }

  predicate WfLists(c: Context, x: Lists, sliceType: nat, total: nat) {
    && 1 <= total <= 15
    && WfActive(c, x.active, sliceType)
    && ActiveCount(c, x, 0) <= 15
    && (sliceType == 0 ==> ActiveCount(c, x, 1) <= 15)
    && WfList(x.entries0, ActiveCount(c, x, 0), CeilLog2(total))
    && WfList(x.entries1, ActiveCount(c, x, 1), CeilLog2(total))
    && (!(c.listsModification && total > 1) ==> x.entries0.None? && x.entries1.None?)
    && (sliceType != 0 ==> x.entries1.None?)
  }

  predicate WfBody(c: Context, x: Body) {
    && WfKind(c, x.kind)
    && x.rps.Some? == !c.Idr()
    && (x.rps.Some? ==> WfRps(c, x.rps.value))
    && x.sao.Some? == c.sao
    && x.lists.Some? == (x.kind.sliceType != 2)
    && (x.lists.Some? ==> WfLists(c, x.lists.value, x.kind.sliceType, TotalCurr(c, x.rps)))
  }

  predicate WfHeader(c: Context, x: Header) {
    && WfPrologue(c, x.prologue)
    && x.body.Some? == !x.prologue.dependent
    && (x.body.Some? ==> WfBody(c, x.body.value))
  }

  // NumPicTotalCurr (7-55): the entries used by the current picture.
  function UsedCount(x: seq<StEntry>): nat {
    if x == [] then 0 else BitValue(x[0].used) + UsedCount(x[1..])
  }

  function UsedLtCount(x: seq<LtEntry>): nat {
    if x == [] then 0 else BitValue(x[0].SliceLt? && x[0].used) + UsedLtCount(x[1..])
  }

  function TotalCurr(c: Context, x: Option<Rps>): nat {
    if c.totalCurr.Some? then c.totalCurr.value
    else if x.None? then 0
    else
      (if x.value.st.Explicit? then UsedCount(x.value.st.negative) + UsedCount(x.value.st.positive) else 0) +
      (if x.value.lt.Some? then UsedLtCount(x.value.lt.value.entries) else 0)
  }

  // ---------- Parsing ----------

  function ParseFlag(present: bool, s: BitString, pos: nat): Result<(Option<bool>, nat)> {
    if !present then Success((None, pos))
    else
      var (b, q) :- DecodeFlag(s, pos);
      Success((Some(b), q))
  }

  function ParseRaw(s: BitString, pos: nat, n: nat): Result<(BitString, nat)> {
    if pos + n > |s| then Failure(Invalid) else Success((s[pos..pos + n], pos + n))
  }

  function ParseUe(c: Context, s: BitString, pos: nat): Result<(nat, nat)> {
    DecodeUe(s, pos, c.maxZeros)
  }

  function ParseSegment(c: Context, s: BitString, pos: nat, first: bool): Result<((bool, nat), nat)> {
    if first then Success(((false, 0), pos))
    else
      var (dependent, p) :- ParseFlag(c.dependentEnabled, s, pos);
      var (address, q) :- DecodeFixed(s, p, c.addressBits);
      Success(((dependent.Some? && dependent.value, address), q))
  }

  function ParsePrologue(c: Context, s: BitString, pos: nat): Result<(Prologue, nat)> {
    var (first, p0) :- DecodeFlag(s, pos);
    var (noOutput, p1) :- ParseFlag(c.Irap(), s, p0);
    var (ppsId, p2) :- ParseUe(c, s, p1);
    if ppsId > 63 then Failure(Invalid)
    else
      var (segment, q) :- ParseSegment(c, s, p2, first);
      Success((Prologue(first, noOutput, ppsId, segment.0, segment.1), q))
  }

  function ParseKind(c: Context, s: BitString, pos: nat): Result<(Kind, nat)> {
    var (extra, p0) :- ParseRaw(s, pos, c.extraBits);
    var (sliceType, p1) :- ParseUe(c, s, p0);
    if sliceType > 2 then Failure(Invalid)
    else
      var (picOutput, q) :- ParseFlag(c.outputFlagPresent, s, p1);
      Success((Kind(extra, sliceType, picOutput), q))
  }

  function ParseStEntries(c: Context, s: BitString, pos: nat, n: nat): Result<(seq<StEntry>, nat)>
    decreases n
  {
    if n == 0 then Success(([], pos))
    else
      var (delta, p0) :- ParseUe(c, s, pos);
      var (used, p1) :- DecodeFlag(s, p0);
      var (rest, q) :- ParseStEntries(c, s, p1, n - 1);
      Success(([StEntry(delta, used)] + rest, q))
  }

  function ParseExplicit(c: Context, s: BitString, pos: nat): Result<(ShortTerm, nat)> {
    var (neg, p0) :- ParseUe(c, s, pos);
    var (plus, p1) :- ParseUe(c, s, p0);
    if neg + plus > 15 then Failure(Invalid)
    else
      var (entries, q) :- ParseStEntries(c, s, p1, neg + plus);
      if |entries| != neg + plus then Failure(Invalid)
      else Success((Explicit(entries[..neg], entries[neg..]), q))
  }

  function ParseShortTerm(c: Context, s: BitString, pos: nat): Result<(ShortTerm, nat)> {
    var (fromSps, p0) :- DecodeFlag(s, pos);
    if fromSps then
      if c.spsRpsCount == 0 then Failure(Invalid)
      else
        var (index, q) :- DecodeFixed(s, p0, CeilLog2(c.spsRpsCount));
        Success((FromSps(index), q))
    else
      var (predicted, p1) :- ParseFlag(c.spsRpsCount > 0, s, p0);
      if predicted.Some? && predicted.value then
        if c.predictedRpsBits == 0 then Failure(Invalid)
        else
          var (raw, q) :- ParseRaw(s, p0, c.predictedRpsBits);
          Success((Predicted(raw), q))
      else
        ParseExplicit(c, s, p1)
  }

  function ParseCycle(c: Context, s: BitString, pos: nat): Result<(Option<nat>, nat)> {
    var (present, p0) :- DecodeFlag(s, pos);
    if !present then Success((None, p0))
    else
      var (cycle, q) :- ParseUe(c, s, p0);
      Success((Some(cycle), q))
  }

  function ParseLtEntry(c: Context, s: BitString, pos: nat, fromSps: bool): Result<(LtEntry, nat)> {
    if fromSps then
      var (index, p0) :- DecodeFixed(s, pos, CeilLog2(c.spsLongTermCount));
      var (cycle, q) :- ParseCycle(c, s, p0);
      Success((SpsLt(index, cycle), q))
    else
      var (lsb, p0) :- DecodeFixed(s, pos, c.lsbBits);
      var (used, p1) :- DecodeFlag(s, p0);
      var (cycle, q) :- ParseCycle(c, s, p1);
      Success((SliceLt(lsb, used, cycle), q))
  }

  function ParseLtEntries(c: Context, s: BitString, pos: nat, fromSps: nat, n: nat): Result<(seq<LtEntry>, nat)>
    decreases n
  {
    if n == 0 then Success(([], pos))
    else
      var (e, p0) :- ParseLtEntry(c, s, pos, fromSps > 0);
      var (rest, q) :- ParseLtEntries(c, s, p0, if fromSps > 0 then fromSps - 1 else 0, n - 1);
      Success(([e] + rest, q))
  }

  function ParseCount(c: Context, present: bool, s: BitString, pos: nat): Result<(nat, nat)> {
    if present then ParseUe(c, s, pos) else Success((0, pos))
  }

  function ParseLongTerm(c: Context, s: BitString, pos: nat): Result<(LongTerm, nat)> {
    var (fromSps, p0) :- ParseCount(c, c.spsLongTermCount > 0, s, pos);
    var (n, p1) :- ParseUe(c, s, p0);
    if fromSps > c.spsLongTermCount || fromSps + n > 15 then Failure(Invalid)
    else
      var (entries, q) :- ParseLtEntries(c, s, p1, fromSps, fromSps + n);
      Success((LongTerm(fromSps, entries), q))
  }

  function ParseOptLongTerm(c: Context, s: BitString, pos: nat): Result<(Option<LongTerm>, nat)> {
    if !c.longTermPresent then Success((None, pos))
    else
      var (lt, q) :- ParseLongTerm(c, s, pos);
      Success((Some(lt), q))
  }

  function ParseRps(c: Context, s: BitString, pos: nat): Result<(Rps, nat)> {
    var (lsb, p0) :- DecodeFixed(s, pos, c.lsbBits);
    var (st, p1) :- ParseShortTerm(c, s, p0);
    var (lt, p2) :- ParseOptLongTerm(c, s, p1);
    var (mvp, q) :- ParseFlag(c.temporalMvp, s, p2);
    Success((Rps(lsb, st, lt, mvp), q))
  }

  function ParseSao(c: Context, s: BitString, pos: nat): Result<(Option<Sao>, nat)> {
    if !c.sao then Success((None, pos))
    else
      var (luma, p0) :- DecodeFlag(s, pos);
      var (chroma, q) :- DecodeFlag(s, p0);
      Success((Some(Sao(luma, chroma)), q))
  }

  function ParseActive(c: Context, s: BitString, pos: nat, sliceType: nat): Result<(Option<Active>, nat)> {
    var (explicit, p0) :- DecodeFlag(s, pos);
    if !explicit then Success((None, p0))
    else
      var (l0, p1) :- ParseUe(c, s, p0);
      if sliceType != 0 then Success((Some(Active(l0, None)), p1))
      else
        var (l1, q) :- ParseUe(c, s, p1);
        Success((Some(Active(l0, Some(l1))), q))
  }

  function ParseEntries(s: BitString, pos: nat, n: nat, width: nat): Result<(seq<nat>, nat)>
    decreases n
  {
    if n == 0 then Success(([], pos))
    else
      var (v, p0) :- DecodeFixed(s, pos, width);
      var (rest, q) :- ParseEntries(s, p0, n - 1, width);
      Success(([v] + rest, q))
  }

  function ParseList(present: bool, s: BitString, pos: nat, n: nat, width: nat): Result<(Option<seq<nat>>, nat)> {
    if !present then Success((None, pos))
    else
      var (modified, p0) :- DecodeFlag(s, pos);
      if !modified then Success((None, p0))
      else
        var (entries, q) :- ParseEntries(s, p0, n, width);
        Success((Some(entries), q))
  }

  function ParseLists(c: Context, s: BitString, pos: nat, sliceType: nat, total: nat): Result<(Lists, nat)> {
    var (active, p0) :- ParseActive(c, s, pos, sliceType);
    var bare := Lists(active, None, None);
    if total == 0 || total > 15 then Failure(Invalid)
    else if ActiveCount(c, bare, 0) > 15 || (sliceType == 0 && ActiveCount(c, bare, 1) > 15) then Failure(Invalid)
    else
      var present := c.listsModification && total > 1;
      var (e0, p1) :- ParseList(present, s, p0, ActiveCount(c, bare, 0), CeilLog2(total));
      var (e1, q) :- ParseList(present && sliceType == 0, s, p1, ActiveCount(c, bare, 1), CeilLog2(total));
      Success((Lists(active, e0, e1), q))
  }

  function ParseOptRps(c: Context, s: BitString, pos: nat): Result<(Option<Rps>, nat)> {
    if c.Idr() then Success((None, pos))
    else
      var (rps, q) :- ParseRps(c, s, pos);
      Success((Some(rps), q))
  }

  function ParseOptLists(c: Context, s: BitString, pos: nat, sliceType: nat, total: nat)
    : Result<(Option<Lists>, nat)>
  {
    if sliceType == 2 then Success((None, pos))
    else
      var (lists, q) :- ParseLists(c, s, pos, sliceType, total);
      Success((Some(lists), q))
  }

  function ParseBody(c: Context, s: BitString, pos: nat): Result<(Body, nat)> {
    var (kind, p0) :- ParseKind(c, s, pos);
    var (rps, p1) :- ParseOptRps(c, s, p0);
    var (sao, p2) :- ParseSao(c, s, p1);
    var (lists, q) :- ParseOptLists(c, s, p2, kind.sliceType, TotalCurr(c, rps));
    Success((Body(kind, rps, sao, lists), q))
  }

  function ParseHeader(c: Context, s: BitString): Result<(Header, nat)> {
    var (prologue, p0) :- ParsePrologue(c, s, 0);
    if prologue.dependent then Success((Header(prologue, None), p0))
    else
      var (body, q) :- ParseBody(c, s, p0);
      Success((Header(prologue, Some(body)), q))
  }
}
