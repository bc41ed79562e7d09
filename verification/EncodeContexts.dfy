/**
  Several encode contexts over the same tables. A client waits for a buffer slot, and takes its turn in the context that
  the slot belongs to when it wakes. All contexts are there from the start.
 */
module EncodeContexts {
  import opened EncodeDelivery
  import opened EncodeInvariant
  import opened EncodeRuns
  import opened EncodeState
  import opened EncodeTables
  import opened EncodeWhole
  import opened Wrappers

  /** One context and its frame rate. */
  datatype Session = Session(x: System, fps: nat)

  /** A locked region on behalf of one context. */
  datatype Region = Region(context: nat, action: Action)

  // The buffer that a client names, or waits for.
  function Named(x: System, a: Action): Option<nat> {
    match a
    case Map(_, id, _) => Some(id)
    case DestroyBuffer(id, _) => Some(id)
    case Wake(thread) => if thread in x.waiting then Some(x.waiting[thread].buffer) else None
    case _ => None
  }

  // The context that a region works on: that of the buffer, if it names one, as the tables have it now.
  function Taker(w: map<nat, Session>, r: Region): nat {
    if r.context !in w then r.context
    else
      var x := w[r.context].x;
      var id := Named(x, r.action);
      if id.Some? && Live(x.s.buffers, id.value) then x.s.buffers[id.value].context else r.context
  }

  function WithTables(x: System, y: System): System {
    x.(s := x.s.(buffers := y.s.buffers, surfaces := y.s.surfaces), waiting := y.waiting)
  }

  // One region: its context steps, and the others see the tables and the waiting clients it leaves.
  function Step(w: map<nat, Session>, r: Region): (t: map<nat, Session>)
    ensures t.Keys == w.Keys
  {
    var d := Taker(w, r);
    if d !in w then w
    else
      var y := Next(w[d].x, d, w[d].fps, r.action);
      map c | c in w :: w[c].(x := if c == d then y else WithTables(w[c].x, y))
  }

  function Steps(w: map<nat, Session>, regions: seq<Region>): (t: map<nat, Session>)
    ensures t.Keys == w.Keys
  {
    if regions == [] then w else Step(Steps(w, regions[..|regions| - 1]), regions[|regions| - 1])
  }

  // All contexts look at the same tables and the same waiting clients.
  predicate Shared(w: map<nat, Session>) {
    forall c, d :: c in w && d in w ==>
      && w[c].x.s.buffers == w[d].x.s.buffers && w[c].x.s.surfaces == w[d].x.s.surfaces
      && w[c].x.waiting == w[d].x.waiting
  }

  predicate Start(w: map<nat, Session>) {
    Shared(w) && forall c :: c in w ==> 0 < w[c].fps <= MICROSECONDS && Initial(w[c].x, c)
  }

  // No other context than d queues the slot.
  predicate QueuedBy(w: map<nat, Session>, d: nat, id: nat) {
    forall c :: c in w && c != d ==> id !in w[c].x.s.queue
  }

  // The region is regular for its context, and submits no buffer in a slot that another context still queues.
  predicate RegularRegion(w: map<nat, Session>, r: Region) {
    var d := Taker(w, r);
    d in w ==>
      && w[d].fps > 0 && !r.action.Elsewhere? && Regular(w[d].x, d, w[d].fps, r.action)
      && (r.action.Submission? ==> QueuedBy(w, d, r.action.id))
  }

  predicate RegularSteps(w: map<nat, Session>, regions: seq<Region>) {
    regions == [] ||
    (RegularSteps(w, regions[..|regions| - 1]) &&
     RegularRegion(Steps(w, regions[..|regions| - 1]), regions[|regions| - 1]))
  }

  // What context c sees of the regions: its own, and of the others what they leave.
  function Seen(w: map<nat, Session>, regions: seq<Region>, c: nat): seq<Action>
    requires c in w
  {
    if regions == [] then []
    else
      var n := |regions| - 1;
      var after := Steps(w, regions)[c].x;
      Seen(w, regions[..n], c) +
      [if Taker(Steps(w, regions[..n]), regions[n]) == c then regions[n].action
       else Elsewhere(after.s.buffers, after.s.surfaces, after.waiting)]
  }

  // A regular region of another context leaves this one apart.
  lemma NextApart(x: System, d: nat, fps: nat, a: Action, c: nat)
    requires 0 < fps <= MICROSECONDS && x.s.sequence < MAX_FRAMES
    requires Inv(x.s, d, fps, x.log) && Regular(x, d, fps, a) && !a.Elsewhere? && c != d
    ensures Apart(x.s, Next(x, d, fps, a).s, c)
  {
    hide Inv, Apart, Submit, SubmitLog, Hardware, LogAfter, Enter, EnterLog, Deliver, Timely, Begin, BeginLog, Create,
      Destroy, DestroyLog, AfterTurn, Append;
    ApartBy(x.s, x.s, c);
    match a
    case BeginPicture(surface, events) => BeginApart(x.s, d, fps, x.log, surface, events, c);
    case Submission(id, events, taken) =>
      if x.target.Some? {
        SubmitApart(x.s, d, fps, x.log, id, x.target.value, events, taken, c);
      }
    case Report(e) =>
      InvQueue(x.s, d, fps, x.log);
      EventApart(x.s, d, e, c);
    case Map(thread, id, events) => EnterApart(x.s, d, fps, x.log, id, events, c);
    case Wake(thread) =>
      if thread in x.waiting {
        DeliverApart(x.s, d, x.waiting[thread].buffer, c);
      }
    case CreateBuffer(id, coded, capacity) => CreateApart(x.s, d, id, coded, capacity, c);
    case DestroyBuffer(id, events) => DestroyApart(x.s, d, fps, x.log, id, events, c);
  }

  lemma EnterAgain(s: State, d: nat, id: nat, events: seq<Event>)
    requires Enter(s, d, id, events).1 == Again
    ensures var t := Enter(s, d, id, events).0; id < |t.buffers| && Own(t.buffers[id], d)
  {
    hide Pump;
  }

  // The clients that a region leaves waiting.
  lemma NextWaitingApart(x: System, d: nat, fps: nat, a: Action, c: nat)
    requires !a.Elsewhere? && c != d
    ensures WaitingApart(x.waiting, Next(x, d, fps, a).waiting, Next(x, d, fps, a).s, c)
  {
    hide Submit, SubmitLog, Hardware, LogAfter, Enter, EnterLog, Deliver, Begin, BeginLog, Create, Destroy, DestroyLog,
      Append;
    match a
    case Map(thread, id, events) =>
      if thread !in x.waiting && Enter(x.s, d, id, events).1 == Again {
        EnterAgain(x.s, d, id, events);
      }
    case _ =>
  }

  // ---------- Tags of other contexts ----------

  // No buffer but id gets a tag.
  predicate NoNewTags(s: State, t: State, id: Option<nat>) {
    && |t.buffers| == |s.buffers|
    && forall i :: 0 <= i < |s.buffers| && id != Some(i) && s.buffers[i].tag == 0 ==> t.buffers[i].tag == 0
  }

  lemma ReportedTags(s: State, t: State)
    requires Reported(s, t)
    ensures NoNewTags(s, t, None)
  {
    assert forall i :: 0 <= i < |s.buffers| ==> SameFrameLater(s.buffers[i], t.buffers[i]);
  }

  lemma DeliverTags(s: State, d: nat, id: nat)
    ensures NoNewTags(s, Deliver(s, d, id).0, None)
  {
  }

  lemma TagsTwice(r: State, s: State, t: State, id: Option<nat>)
    requires NoNewTags(r, s, id) && NoNewTags(s, t, id)
    ensures NoNewTags(r, t, id)
  {
  }

  lemma EnterTags(s: State, d: nat, fps: nat, log: seq<Logged>, id: nat, events: seq<Event>)
    requires Bounded(s, fps) && Inv(s, d, fps, log)
    ensures NoNewTags(s, Enter(s, d, id, events).0, None)
  {
    hide Inv, Pump, Deliver, NoNewTags, Reported;
    PumpReports(s, d, fps, log, events);
    ReportedTags(s, Pump(s, d, events));
    SameReported(s);
    ReportedTags(s, s);
    DeliverTags(s, d, id);
    DeliverTags(Pump(s, d, events), d, id);
    TagsTwice(s, Pump(s, d, events), Deliver(Pump(s, d, events), d, id).0, None);
  }

  lemma DestroyTags(s: State, d: nat, fps: nat, log: seq<Logged>, id: nat, events: seq<Event>)
    requires Bounded(s, fps) && Inv(s, d, fps, log)
    ensures NoNewTags(s, Destroy(s, d, id, events).0, None)
  {
    hide Inv, Destroy, Pump, PumpLog, Reported, Linked;
    DestroyIs(s, d, fps, log, id, events);
    SameReported(s);
    ReportedTags(s, s);
    if Live(s.buffers, id) && s.buffers[id].context == d {
      ReportedTags(s, Waited(s, d, id, events));
    }
  }

  lemma SubmitTags(
    s: State, d: nat, fps: nat, log: seq<Logged>, id: nat, surface: nat, events: seq<Event>, taken: bool)
    requires 0 < fps <= MICROSECONDS && s.sequence < MAX_FRAMES && Inv(s, d, fps, log) && Timely(s, fps, events)
    ensures NoNewTags(s, Submit(s, d, fps, id, surface, events, taken).0, Some(id))
  {
    hide Inv, Submit, Submittable, Timely;
    if Submittable(s.buffers, s.surfaces, d, id, surface) {
      SubmitResubmits(s, d, fps, log, id, surface, events, taken);
      ResubmittedTags(s, Submit(s, d, fps, id, surface, events, taken).0, d, id,
                      Submit(s, d, fps, id, surface, events, taken).1.Pass?);
    } else {
      SubmitRefused(s, d, fps, id, surface, events, taken);
    }
  }

  lemma ResubmittedTags(s: State, t: State, d: nat, id: nat, passed: bool)
    requires Resubmitted(s, t, d, id, passed)
    ensures NoNewTags(s, t, Some(id))
  {
    assert forall i :: 0 <= i < |s.buffers| && i != id ==> SameFrameLater(s.buffers[i], t.buffers[i]);
  }

  // Only a submission gives out a tag.
  lemma NextTags(x: System, d: nat, fps: nat, a: Action)
    requires 0 < fps <= MICROSECONDS && x.s.sequence < MAX_FRAMES
    requires Inv(x.s, d, fps, x.log) && Regular(x, d, fps, a) && !a.Elsewhere?
    ensures NoNewTags(x.s, Next(x, d, fps, a).s, if a.Submission? then Some(a.id) else None)
  {
    hide Inv, NoNewTags, Timely, Submit, SubmitLog, Hardware, LogAfter, Enter, EnterLog, Deliver, Begin, BeginLog,
      Create, Destroy, DestroyLog, AfterTurn, Append, Reported;
    SameReported(x.s);
    ReportedTags(x.s, x.s);
    match a
    case BeginPicture(surface, events) =>
      BeginKeeps(x.s, d, fps, x.log, surface, events);
      ReportedTags(x.s, Begin(x.s, d, surface, events).0);
    case Submission(id, events, taken) =>
      if x.target.Some? {
        SubmitTags(x.s, d, fps, x.log, id, x.target.value, events, taken);
      } else {
        FewerTags(x.s, x.s, id);
      }
    case Report(e) =>
      InvQueue(x.s, d, fps, x.log);
      EventReports(x.s, d, fps, e);
      ReportedTags(x.s, Hardware(x.s, d, e).0);
    case Map(thread, id, events) => EnterTags(x.s, d, fps, x.log, id, events);
    case Wake(thread) =>
      if thread in x.waiting {
        DeliverTags(x.s, d, x.waiting[thread].buffer);
      }
    case CreateBuffer(id, coded, capacity) => CreateTags(x.s, d, id, coded, capacity);
    case DestroyBuffer(id, events) => DestroyTags(x.s, d, fps, x.log, id, events);
  }

  lemma FewerTags(s: State, t: State, id: nat)
    requires NoNewTags(s, t, None)
    ensures NoNewTags(s, t, Some(id))
  {
  }

  lemma CreateTags(s: State, d: nat, id: nat, coded: bool, capacity: nat)
    ensures NoNewTags(s, Create(s, d, id, coded, capacity).0, None)
  {
  }

  // A slot that c still queues is given to no frame of another context.
  lemma StaysUnclaimed(s: State, t: State, u: State, c: nat, id: Option<nat>)
    requires QueueOk(s, c) && Apart(s, t, c) && NoNewTags(s, t, id) && (id.Some? ==> id.value !in s.queue)
    requires u.queue == s.queue && u.buffers == t.buffers
    ensures Unclaimed(u, c)
  {
    hide Linked;
    forall k | 0 <= k < |u.queue| && u.queue[k] < |u.buffers| && !Own(u.buffers[u.queue[k]], c)
      ensures u.buffers[u.queue[k]].tag == 0
    {
      assert u.queue[k] in s.queue && EntryOk(s.buffers[s.queue[k]], c);
    }
  }

  // ---------- What a context sees ----------

  lemma SameTablesApart(s: State, t: State, s': State, t': State, c: nat)
    requires Apart(s, t, c) && s'.buffers == s.buffers && s'.surfaces == s.surfaces
    requires t'.buffers == t.buffers && t'.surfaces == t.surfaces
    ensures Apart(s', t', c)
  {
  }

  lemma SameWaitingApart(before: map<nat, Waiter>, after: map<nat, Waiter>, s: State, t: State, c: nat)
    requires WaitingApart(before, after, s, c) && t.buffers == s.buffers
    ensures WaitingApart(before, after, t, c)
  {
  }

  lemma StepShares(w: map<nat, Session>, r: Region)
    requires Shared(w)
    ensures Shared(Step(w, r))
  {
    hide Next, Taker;
  }

  lemma NextElsewhere(x: System, c: nat, fps: nat, y: System)
    requires Apart(x.s, WithTables(x, y).s, c) && WaitingApart(x.waiting, y.waiting, WithTables(x, y).s, c)
    ensures Next(x, c, fps, Elsewhere(y.s.buffers, y.s.surfaces, y.waiting)) == WithTables(x, y)
  {
    hide Apart, WaitingApart;
  }

  lemma WaitingSame(x: System, c: nat)
    ensures WaitingApart(x.waiting, x.waiting, x.s, c)
  {
  }

  // What the contexts other than c keep to, so that c sees their region as an interference it allows for.
  predicate Sound(w: map<nat, Session>, d: nat) {
    d in w ==>
      && 0 < w[d].fps <= MICROSECONDS && w[d].x.s.sequence < MAX_FRAMES
      && Inv(w[d].x.s, d, w[d].fps, w[d].x.log)
  }

  // A region of another context is an interference that context c allows for.
  lemma StepElsewhere(w: map<nat, Session>, r: Region, c: nat)
    requires Shared(w) && c in w && Taker(w, r) != c && RegularRegion(w, r)
    requires Sound(w, c) && Sound(w, Taker(w, r))
    ensures
      var after := Step(w, r)[c].x;
      var a := Elsewhere(after.s.buffers, after.s.surfaces, after.waiting);
      after == Next(w[c].x, c, w[c].fps, a) && Regular(w[c].x, c, w[c].fps, a)
  {
    hide Inv, Next, Apart, WaitingApart, Regular, Taker, Unclaimed, NoNewTags, QueueOk;
    var d, x, after := Taker(w, r), w[c].x, Step(w, r)[c].x;
    InvQueue(x.s, c, w[c].fps, x.log);
    if d in w {
      var z := w[d].x;
      var y := Next(z, d, w[d].fps, r.action);
      NextApart(z, d, w[d].fps, r.action, c);
      SameTablesApart(z.s, y.s, x.s, after.s, c);
      NextWaitingApart(z, d, w[d].fps, r.action, c);
      SameWaitingApart(z.waiting, y.waiting, y.s, after.s, c);
      NextTags(z, d, w[d].fps, r.action);
      var id := if r.action.Submission? then Some(r.action.id) else None;
      SameTags(z.s, y.s, x.s, after.s, id);
      StaysUnclaimed(x.s, after.s, after.s, c, id);
      NextElsewhere(x, c, w[c].fps, y);
    } else {
      ApartBy(x.s, x.s, c);
      WaitingSame(x, c);
      NothingTagged(x.s);
      StaysUnclaimed(x.s, x.s, x.s, c, None);
      assert WithTables(x, x) == x;
      NextElsewhere(x, c, w[c].fps, x);
    }
    ElsewhereIsRegular(x, c, w[c].fps, after);
  }

  lemma SameTags(s: State, t: State, s': State, t': State, id: Option<nat>)
    requires NoNewTags(s, t, id) && s'.buffers == s.buffers && t'.buffers == t.buffers
    ensures NoNewTags(s', t', id)
  {
  }

  lemma NothingTagged(s: State)
    ensures NoNewTags(s, s, None)
  {
  }

  lemma ElsewhereIsRegular(x: System, c: nat, fps: nat, after: System)
    requires fps > 0
    requires Next(x, c, fps, Elsewhere(after.s.buffers, after.s.surfaces, after.waiting)) == after
    requires Unclaimed(after.s, c)
    ensures Regular(x, c, fps, Elsewhere(after.s.buffers, after.s.surfaces, after.waiting))
  {
  }

  // Whatever other contexts do, what happens to a context is a regular run of it alone: everything proved of such runs
  // holds of every context.
  lemma {:induction false} ContextsRunAlone(w: map<nat, Session>, regions: seq<Region>, c: nat)
    requires Start(w) && c in w && |regions| <= MAX_FRAMES && RegularSteps(w, regions)
    ensures |Seen(w, regions, c)| == |regions| && Shared(Steps(w, regions))
    ensures Steps(w, regions)[c].fps == w[c].fps
    ensures RegularRun(w[c].x, c, w[c].fps, Seen(w, regions, c))
    ensures Steps(w, regions)[c].x == Run(w[c].x, c, w[c].fps, Seen(w, regions, c))
  {
    hide Next, Regular, Inv, Initial, Taker;
    if regions != [] {
      var n := |regions| - 1;
      var r, before := regions[n], Steps(w, regions[..n]);
      var d, seen := Taker(before, r), Seen(w, regions[..n], c);
      ContextsRunAlone(w, regions[..n], c);
      StepShares(before, r);
      assert Seen(w, regions, c)[..n] == seen;
      if d != c {
        SoundAfter(w, regions[..n], c);
        if d in w {
          ContextsRunAlone(w, regions[..n], d);
          SoundAfter(w, regions[..n], d);
        }
        StepElsewhere(before, r, c);
      }
    }
  }

  lemma SoundAfter(w: map<nat, Session>, regions: seq<Region>, c: nat)
    requires Start(w) && c in w && |regions| < MAX_FRAMES && |Seen(w, regions, c)| == |regions|
    requires Steps(w, regions)[c].fps == w[c].fps && RegularRun(w[c].x, c, w[c].fps, Seen(w, regions, c))
    requires Steps(w, regions)[c].x == Run(w[c].x, c, w[c].fps, Seen(w, regions, c))
    ensures Sound(Steps(w, regions), c)
  {
    hide Next, Inv, Initial, Run, RegularRun, Seen, Steps;
    RunKeeps(w[c].x, c, w[c].fps, Seen(w, regions, c));
  }

  // The invariant of every context holds throughout.
  lemma EveryContextKeeps(w: map<nat, Session>, regions: seq<Region>, c: nat)
    requires Start(w) && c in w && |regions| <= MAX_FRAMES && RegularSteps(w, regions)
    ensures var y := Steps(w, regions)[c]; y.fps == w[c].fps && w[c].fps > 0 && Inv(y.x.s, c, y.fps, y.x.log)
  {
    hide Next, Inv, Initial, RegularSteps, RegularRun, Run, Seen, Steps;
    ContextsRunAlone(w, regions, c);
    RunKeeps(w[c].x, c, w[c].fps, Seen(w, regions, c));
  }

  // Every context delivers its frames in order, each once; and each whole, if no client submits a buffer under one that
  // waits for it, in whatever context.
  lemma EveryContextDelivers(w: map<nat, Session>, regions: seq<Region>, c: nat, n: nat)
    requires Start(w) && c in w && |regions| <= MAX_FRAMES && RegularSteps(w, regions)
    requires 0 < n <= |Steps(w, regions)[c].x.deliveries|
    ensures
      var y := Steps(w, regions)[c].x;
      n <= |y.owners| && y.deliveries[n - 1].buffer == y.owners[n - 1] && y.deliveries[n - 1].sequence == n
    ensures
      var y := Steps(w, regions)[c].x;
      FairRun(w[c].x, c, w[c].fps, Seen(w, regions, c)) ==>
        var d, tag := y.deliveries[n - 1], FrameTag(n, w[c].fps);
        && d.ready && Ended(y.log, tag) && d.contents == Joined(y.log, tag) && d.packets == Count(y.log, tag)
        && (d.damaged <==> Flagged(y.log, tag)) && (d.overflowed <==> NoRoom(tag) in y.log)
  {
    hide Next, Inv, Initial, RegularSteps, RegularRun, Run, Seen, Steps, FairRun, Joined, Count, Ended,
      Flagged, FrameTag;
    ContextsRunAlone(w, regions, c);
    DeliveredInOrder(w[c].x, c, w[c].fps, Seen(w, regions, c));
    if FairRun(w[c].x, c, w[c].fps, Seen(w, regions, c)) {
      DeliveredWhole(w[c].x, c, w[c].fps, Seen(w, regions, c), n);
    }
  }
}
