/**
  Frames of an encode context that get lost: a sequence number that no buffer holds any more blocks every delivery from
  there on. Here is exactly when that happens.
 */
module EncodeDelivery {
  import opened EncodeInvariant
  import opened EncodeRuns
  import opened EncodeState
  import opened EncodeTables
  import opened Limits
  import opened Wrappers

  // ---------- Frames before and behind the counter ----------

  predicate FrameTold(b: Buffer, c: nat, delivery: nat) {
    Tagged(b, c) ==> (b.delivered <==> b.sequence < delivery)
  }

  // A frame is delivered exactly when the counter has passed it.
  predicate Told(s: State, c: nat) {
    && 1 <= s.delivery <= s.sequence + 1
    && forall i :: 0 <= i < |s.buffers| ==> FrameTold(s.buffers[i], c, s.delivery)
  }

  // Frame n was submitted and not delivered, and no buffer holds it.
  predicate Lost(s: State, c: nat, n: nat) {
    && s.delivery <= n <= s.sequence
    && forall i :: 0 <= i < |s.buffers| && Own(s.buffers[i], c) ==> s.buffers[i].sequence != n
  }

  lemma OwnHolds(s: State, c: nat, fps: nat, id: nat)
    requires fps > 0 && TagsOk(s, c, fps) && id < |s.buffers| && Own(s.buffers[id], c) && s.buffers[id].sequence > 0
    ensures Holds(s, c, id, s.buffers[id].sequence) && s.buffers[id].sequence <= s.sequence
  {
    hide FrameTag;
    assert TagOk(s.buffers[id], c, s.sequence, fps);
  }

  lemma InvParts(s: State, c: nat, fps: nat, log: seq<Logged>)
    requires fps > 0 && Inv(s, c, fps, log)
    ensures TagsOk(s, c, fps) && SequencesDiffer(s, c) && QueueOk(s, c) && WaitingOk(s, c) && ContentsOk(s, c, log)
  {
  }

  // What every regular run keeps.
  predicate Sane(x: System, c: nat, fps: nat) {
    Bounded(x.s, fps) && Inv(x.s, c, fps, x.log) && Told(x.s, c)
  }

  // ---------- Reports ----------

  lemma ReportedTold(s: State, t: State, c: nat)
    requires Reported(s, t) && Told(s, c)
    ensures Told(t, c)
  {
    forall i | 0 <= i < |t.buffers| ensures FrameTold(t.buffers[i], c, t.delivery) {
      assert FrameTold(s.buffers[i], c, s.delivery) && SameFrameLater(s.buffers[i], t.buffers[i]);
    }
  }

  lemma ReportedLost(s: State, t: State, c: nat, n: nat)
    requires Reported(s, t)
    ensures Lost(t, c, n) <==> Lost(s, c, n)
  {
    assert forall i :: 0 <= i < |s.buffers| ==> SameFrameLater(s.buffers[i], t.buffers[i]);
  }

  // ---------- Submissions ----------

  // t is s with buffer id emptied for the next sequence number, which it holds if the submission passed.
  predicate Resubmitted(s: State, t: State, c: nat, id: nat, passed: bool) {
    && |t.buffers| == |s.buffers| && t.sequence == s.sequence + 1 && t.delivery == s.delivery
    && id < |s.buffers| && Mine(s.buffers[id], c) && Mine(t.buffers[id], c)
    && !t.buffers[id].delivered && (t.buffers[id].tag != 0 <==> passed)
    && t.buffers[id].sequence == (if passed then s.sequence + 1 else 0)
    && forall i :: 0 <= i < |s.buffers| && i != id ==> SameFrameLater(s.buffers[i], t.buffers[i])
  }

  lemma AcceptResubmits(s: State, c: nat, fps: nat, id: nat, surface: nat)
    requires 0 < fps <= MICROSECONDS && s.sequence < MAX_FRAMES
    requires Submittable(s.buffers, s.surfaces, c, id, surface)
    ensures var (t, o) := Accept(s, c, fps, id, surface); Resubmitted(s, t, c, id, o.Pass?)
    ensures Accept(s, c, fps, id, surface).1.Pass? <==> |s.queue| < MAX_SURFACES && id !in s.queue
  {
    hide Accept, FrameTag;
    AcceptIs(s, c, fps, id, surface);
    assert NextSequence(s.sequence) == s.sequence + 1;
    TagPositive(s.sequence + 1, fps);
    var (t, o) := Accept(s, c, fps, id, surface);
    assert Mine(s.buffers[id], c) && Mine(t.buffers[id], c);
    assert !t.buffers[id].delivered && (t.buffers[id].tag != 0 <==> o.Pass?);
    assert t.buffers[id].sequence == (if o.Pass? then s.sequence + 1 else 0);
  }

  lemma ReportedResubmits(s: State, t: State, u: State, c: nat, id: nat, passed: bool)
    requires Resubmitted(s, t, c, id, passed) && Reported(t, u)
    ensures Resubmitted(s, u, c, id, passed)
  {
    assert SameFrameLater(t.buffers[id], u.buffers[id]);
    forall i | 0 <= i < |s.buffers| && i != id ensures SameFrameLater(s.buffers[i], u.buffers[i]) {
      assert SameFrameLater(t.buffers[i], u.buffers[i]);
    }
  }

  lemma WithdrawnResubmits(s: State, t: State, u: State, c: nat, id: nat, surface: nat)
    requires Resubmitted(s, t, c, id, true) && Withdrawn(t, u, c, id, surface) && u.delivery == t.delivery
    ensures Resubmitted(s, u, c, id, false)
  {
  }

  // A submission that passes the first checks takes the next number whatever happens. It fails when the queue is full
  // or holds the buffer, or the hardware refuses the frame.
  lemma SubmitResubmits(
    s: State, c: nat, fps: nat, log: seq<Logged>, id: nat, surface: nat, events: seq<Event>, taken: bool)
    requires 0 < fps <= MICROSECONDS && s.sequence < MAX_FRAMES && Inv(s, c, fps, log) && Timely(s, fps, events)
    requires Submittable(s.buffers, s.surfaces, c, id, surface)
    ensures var (t, o) := Submit(s, c, fps, id, surface, events, taken); Resubmitted(s, t, c, id, o.Pass?)
    ensures Submit(s, c, fps, id, surface, events, taken).1.Pass? <==>
            taken && |s.queue| < MAX_SURFACES && id !in s.queue
  {
    hide Inv, FrameTag, Accept, Pump, Withdraw, Submittable, PumpLog, Resubmitted;
    var (accepted, o) := Accept(s, c, fps, id, surface);
    AcceptResubmits(s, c, fps, id, surface);
    if o.Pass? {
      var pumped := Pump(accepted, c, events);
      AcceptKeeps(s, c, fps, log, id, surface);
      PumpReports(accepted, c, fps, log, events);
      ReportedResubmits(s, accepted, pumped, c, id, true);
      if !taken {
        AcceptedIsNewest(s, c, fps, id, surface);
        PumpAvoids(accepted, c, events, id, accepted.buffers[id]);
        WithdrawIs(pumped, c, id, surface);
        WithdrawnResubmits(s, pumped, Withdraw(pumped, id, surface), c, id, surface);
      }
    }
  }

  lemma ResubmittedTold(s: State, t: State, c: nat, id: nat, passed: bool)
    requires Resubmitted(s, t, c, id, passed) && Told(s, c)
    ensures Told(t, c)
  {
    forall i | 0 <= i < |t.buffers| ensures FrameTold(t.buffers[i], c, t.delivery) {
      assert FrameTold(s.buffers[i], c, s.delivery);
    }
  }

  // The numbers that a submission loses: its own if it fails, and the one of the frame that was in its buffer.
  lemma ResubmittedLost(s: State, t: State, c: nat, fps: nat, log: seq<Logged>, id: nat, passed: bool, n: nat)
    requires fps > 0 && Inv(s, c, fps, log) && Told(s, c) && n > 0
    requires Resubmitted(s, t, c, id, passed)
    ensures Lost(t, c, n) <==>
            Lost(s, c, n) || (n == s.sequence + 1 && !passed) || (n >= s.delivery && Holds(s, c, id, n))
  {
    hide FrameTag, QueueOk, OrderOk, WaitingOk, ContentsOk, LinksOk, LogOk;
    if Lost(t, c, n) && n <= s.sequence && !Lost(s, c, n) {
      var i :| 0 <= i < |s.buffers| && Own(s.buffers[i], c) && s.buffers[i].sequence == n;
      assert i == id;
      OwnHolds(s, c, fps, i);
    }
    forall i | 0 <= i < |t.buffers| && i != id && Own(t.buffers[i], c) && t.buffers[i].sequence > 0
      ensures Holds(s, c, i, t.buffers[i].sequence) && t.buffers[i].sequence <= s.sequence
    {
      assert SameFrameLater(s.buffers[i], t.buffers[i]);
      OwnHolds(s, c, fps, i);
    }
  }

  // ---------- Deliveries ----------

  lemma DeliverTold(s: State, c: nat, fps: nat, id: nat)
    requires fps > 0 && TagsOk(s, c, fps) && SequencesDiffer(s, c) && Told(s, c)
    ensures Told(Deliver(s, c, id).0, c)
  {
    hide FrameTag;
    var t := Deliver(s, c, id).0;
    if t != s {
      OwnHolds(s, c, fps, id);
      forall i | 0 <= i < |t.buffers| ensures FrameTold(t.buffers[i], c, t.delivery) {
        assert FrameTold(s.buffers[i], c, s.delivery);
      }
    }
  }

  lemma DeliverLost(s: State, c: nat, id: nat, n: nat)
    ensures Lost(Deliver(s, c, id).0, c, n) <==> Lost(s, c, n)
  {
    SameNumbers(s, Deliver(s, c, id).0, c, n);
    assert id < |s.buffers| ==> s.buffers[id] == s.buffers[id];
  }

  lemma SameNumbers(s: State, t: State, c: nat, n: nat)
    requires |t.buffers| == |s.buffers|
    requires forall i :: 0 <= i < |s.buffers| ==>
      (Own(t.buffers[i], c) && t.buffers[i].sequence == n <==> Own(s.buffers[i], c) && s.buffers[i].sequence == n)
    ensures (forall i :: 0 <= i < |t.buffers| && Own(t.buffers[i], c) ==> t.buffers[i].sequence != n) <==>
            (forall i :: 0 <= i < |s.buffers| && Own(s.buffers[i], c) ==> s.buffers[i].sequence != n)
  {
  }

  // ---------- Buffers and other contexts ----------

  lemma CreateTold(s: State, c: nat, id: nat, coded: bool, capacity: nat)
    requires Told(s, c)
    ensures Told(Create(s, c, id, coded, capacity).0, c)
  {
    var t := Create(s, c, id, coded, capacity).0;
    forall i | 0 <= i < |t.buffers| ensures FrameTold(t.buffers[i], c, t.delivery) {
      assert FrameTold(s.buffers[i], c, s.delivery);
    }
  }

  lemma CreateLost(s: State, c: nat, id: nat, coded: bool, capacity: nat, n: nat)
    requires n > 0
    ensures Lost(Create(s, c, id, coded, capacity).0, c, n) <==> Lost(s, c, n)
  {
    SameNumbers(s, Create(s, c, id, coded, capacity).0, c, n);
  }

  // t is s without the buffer.
  predicate Gone(s: State, t: State, id: nat) {
    && id < |s.buffers| && t.buffers == s.buffers[id := FREE]
    && t.sequence == s.sequence && t.delivery == s.delivery
  }

  lemma GoneTold(s: State, t: State, c: nat, id: nat)
    requires Gone(s, t, id) && Told(s, c)
    ensures Told(t, c)
  {
    forall i | 0 <= i < |t.buffers| ensures FrameTold(t.buffers[i], c, t.delivery) {
      assert FrameTold(s.buffers[i], c, s.delivery);
    }
  }

  lemma GoneLost(s: State, t: State, c: nat, fps: nat, log: seq<Logged>, id: nat, n: nat)
    requires fps > 0 && Inv(s, c, fps, log) && n > 0
    requires Gone(s, t, id)
    ensures Lost(t, c, n) <==> Lost(s, c, n) || (n >= s.delivery && Holds(s, c, id, n))
  {
    hide FrameTag, QueueOk, OrderOk, WaitingOk, ContentsOk, LinksOk, LogOk;
    forall i | 0 <= i < |s.buffers| && Own(s.buffers[i], c) && s.buffers[i].sequence > 0
      ensures Holds(s, c, i, s.buffers[i].sequence) && s.buffers[i].sequence <= s.sequence
    {
      OwnHolds(s, c, fps, i);
    }
    if Lost(t, c, n) && !Holds(s, c, id, n) {
      forall i | 0 <= i < |s.buffers| && Own(s.buffers[i], c) ensures s.buffers[i].sequence != n {
        if i != id {
          assert t.buffers[i] == s.buffers[i];
        }
      }
    }
    if Holds(s, c, id, n) && n >= s.delivery {
      assert forall i :: 0 <= i < |t.buffers| && Own(t.buffers[i], c) ==> i != id && t.buffers[i] == s.buffers[i];
    }
  }

  lemma HoldsLater(s: State, t: State, c: nat, id: nat, n: nat)
    requires Reported(s, t) && id < |s.buffers|
    ensures Holds(t, c, id, n) <==> Holds(s, c, id, n)
  {
    assert SameFrameLater(s.buffers[id], t.buffers[id]);
  }

  lemma DestroyEffects(s: State, c: nat, fps: nat, log: seq<Logged>, id: nat, events: seq<Event>, n: nat)
    requires Bounded(s, fps) && Inv(s, c, fps, log) && Told(s, c) && n > 0
    ensures Told(Destroy(s, c, id, events).0, c)
    ensures
      var (t, o) := Destroy(s, c, id, events);
      Lost(t, c, n) <==> Lost(s, c, n) || (o.Pass? && n >= s.delivery && Holds(s, c, id, n))
  {
    hide Inv, Told, Lost, Holds, Reported, Destroy, DestroyLog, Pump, PumpLog, Waited, Linked;
    var (t, o) := Destroy(s, c, id, events);
    DestroyIs(s, c, fps, log, id, events);
    if Live(s.buffers, id) && s.buffers[id].context == c {
      var waited := Waited(s, c, id, events);
      ReportedTold(s, waited, c);
      ReportedLost(s, waited, c, n);
      ReportedSizes(s, waited);
      HoldsLater(s, waited, c, id, n);
      if o.Pass? {
        GoneTold(waited, t, c, id);
        GoneLost(waited, t, c, fps, DestroyLog(s, c, log, id, events), id, n);
      }
    }
  }

  lemma ApartTold(s: State, t: State, c: nat)
    requires Apart(s, t, c) && t == s.(buffers := t.buffers, surfaces := t.surfaces) && Told(s, c)
    ensures Told(t, c)
  {
    hide Linked;
    forall i | 0 <= i < |t.buffers| ensures FrameTold(t.buffers[i], c, t.delivery) {
      assert FrameTold(s.buffers[i], c, s.delivery);
    }
  }

  lemma ApartLost(s: State, t: State, c: nat, n: nat)
    requires Apart(s, t, c) && t == s.(buffers := t.buffers, surfaces := t.surfaces)
    ensures Lost(t, c, n) <==> Lost(s, c, n)
  {
    hide Linked;
  }

  // ---------- How frames get lost ----------

  // A submission that fails once its number is taken, refused by the queue or by the hardware, loses that number.
  lemma FailedSubmitLoses(
    s: State, c: nat, fps: nat, log: seq<Logged>, id: nat, surface: nat, events: seq<Event>, taken: bool)
    requires 0 < fps <= MICROSECONDS && s.sequence < MAX_FRAMES && Inv(s, c, fps, log) && Told(s, c)
    requires Timely(s, fps, events) && Submittable(s.buffers, s.surfaces, c, id, surface)
    requires Submit(s, c, fps, id, surface, events, taken).1.Fail?
    ensures Lost(Submit(s, c, fps, id, surface, events, taken).0, c, s.sequence + 1)
  {
    hide Inv, Told, Lost, Holds, Submit, Submittable, Timely;
    SubmitResubmits(s, c, fps, log, id, surface, events, taken);
    ResubmittedLost(s, Submit(s, c, fps, id, surface, events, taken).0, c, fps, log, id, false, s.sequence + 1);
  }

  // Submitting a buffer again before its frame was delivered loses that frame. While the frame is queued the submission
  // is refused, which loses its own number as well; once the frame is complete, it is accepted.
  lemma ResubmissionLosesFrame(
    s: State, c: nat, fps: nat, log: seq<Logged>, id: nat, n: nat, surface: nat, events: seq<Event>, taken: bool)
    requires 0 < fps <= MICROSECONDS && s.sequence < MAX_FRAMES && Inv(s, c, fps, log) && Told(s, c)
    requires Timely(s, fps, events) && Submittable(s.buffers, s.surfaces, c, id, surface)
    requires Holds(s, c, id, n) && s.delivery <= n
    ensures
      var (t, o) := Submit(s, c, fps, id, surface, events, taken);
      && Lost(t, c, n)
      && (!s.buffers[id].ready ==> o.Fail? && Lost(t, c, s.sequence + 1))
      && (s.buffers[id].ready && |s.queue| < MAX_SURFACES && taken ==> o.Pass?)
  {
    hide Inv, Told, Lost, Submit, Submittable, Timely, FrameTag;
    InvParts(s, c, fps, log);
    OwnHolds(s, c, fps, id);
    SubmitResubmits(s, c, fps, log, id, surface, events, taken);
    var (t, o) := Submit(s, c, fps, id, surface, events, taken);
    ResubmittedLost(s, t, c, fps, log, id, o.Pass?, n);
    ResubmittedLost(s, t, c, fps, log, id, o.Pass?, s.sequence + 1);
  }

  // ---------- Steps ----------

  // The step loses frame n: a submission that fails once its number is taken; one that is given a buffer whose frame
  // was not delivered, complete or not; the destruction of such a buffer.
  predicate Loses(x: System, c: nat, fps: nat, a: Action, n: nat) {
    match a
    case Submission(id, events, taken) =>
      && x.target.Some? && fps > 0 && Submittable(x.s.buffers, x.s.surfaces, c, id, x.target.value)
      && ((n == x.s.sequence + 1 && Submit(x.s, c, fps, id, x.target.value, events, taken).1.Fail?) ||
          (n >= x.s.delivery && Holds(x.s, c, id, n)))
    case DestroyBuffer(id, events) =>
      n >= x.s.delivery && Holds(x.s, c, id, n) && Destroy(x.s, c, id, events).1.Pass?
    case _ => false
  }

  lemma SubmissionEffects(x: System, c: nat, fps: nat, a: Action, n: nat)
    requires Sane(x, c, fps) && x.s.sequence < MAX_FRAMES && Regular(x, c, fps, a) && n > 0 && a.Submission?
    ensures Told(Next(x, c, fps, a).s, c)
    ensures Lost(Next(x, c, fps, a).s, c, n) <==> Lost(x.s, c, n) || Loses(x, c, fps, a, n)
  {
    hide Inv, Told, Lost, Holds, Submit, SubmitLog, Submittable, Timely;
    if x.target.Some? {
      var surface := x.target.value;
      if Submittable(x.s.buffers, x.s.surfaces, c, a.id, surface) {
        var (t, o) := Submit(x.s, c, fps, a.id, surface, a.events, a.taken);
        SubmitResubmits(x.s, c, fps, x.log, a.id, surface, a.events, a.taken);
        ResubmittedTold(x.s, t, c, a.id, o.Pass?);
        ResubmittedLost(x.s, t, c, fps, x.log, a.id, o.Pass?, n);
      } else {
        SubmitRefused(x.s, c, fps, a.id, surface, a.events, a.taken);
      }
    }
  }

  // An end of picture that the first checks refuse changes nothing.
  lemma SubmitRefused(s: State, c: nat, fps: nat, id: nat, surface: nat, events: seq<Event>, taken: bool)
    requires fps == 0 || !Submittable(s.buffers, s.surfaces, c, id, surface)
    ensures Submit(s, c, fps, id, surface, events, taken) == (s, Fail(Invalid))
  {
  }

  lemma EnterEffects(s: State, c: nat, fps: nat, log: seq<Logged>, id: nat, events: seq<Event>, n: nat)
    requires Bounded(s, fps) && Inv(s, c, fps, log) && Told(s, c)
    ensures Told(Enter(s, c, id, events).0, c)
    ensures Lost(Enter(s, c, id, events).0, c, n) <==> Lost(s, c, n)
  {
    hide Inv, Told, Lost, Reported, Pump, PumpLog, Deliver;
    var pumped := Pump(s, c, events);
    PumpKeeps(s, c, fps, log, events);
    PumpReports(s, c, fps, log, events);
    ReportedTold(s, pumped, c);
    ReportedLost(s, pumped, c, n);
    InvParts(s, c, fps, log);
    InvParts(pumped, c, fps, PumpLog(s, c, log, events));
    DeliverTold(s, c, fps, id);
    DeliverTold(pumped, c, fps, id);
    DeliverLost(s, c, id, n);
    DeliverLost(pumped, c, id, n);
  }

  // Exactly when a step makes a frame lost.
  lemma NextLosesExactly(x: System, c: nat, fps: nat, a: Action, n: nat)
    requires Sane(x, c, fps) && x.s.sequence < MAX_FRAMES && Regular(x, c, fps, a) && n > 0
    ensures Sane(Next(x, c, fps, a), c, fps)
    ensures Lost(Next(x, c, fps, a).s, c, n) <==> Lost(x.s, c, n) || Loses(x, c, fps, a, n)
  {
    hide Inv, Told, Lost, Holds, Reported, Regular, Submittable, Submit, Hardware, Begin, Enter, Deliver, Create,
      Destroy, Apart, WaitingApart, LogAfter, BeginLog, EnterLog, DestroyLog, AfterTurn, Append, Submitted;
    NextKeeps(x, c, fps, a);
    InvParts(x.s, c, fps, x.log);
    match a
    case BeginPicture(surface, events) =>
      BeginKeeps(x.s, c, fps, x.log, surface, events);
      ReportedTold(x.s, Begin(x.s, c, surface, events).0, c);
      ReportedLost(x.s, Begin(x.s, c, surface, events).0, c, n);
    case Submission(id, events, taken) => SubmissionEffects(x, c, fps, a, n);
    case Report(e) =>
      EventReports(x.s, c, fps, e);
      ReportedTold(x.s, Hardware(x.s, c, e).0, c);
      ReportedLost(x.s, Hardware(x.s, c, e).0, c, n);
    case Map(thread, id, events) => EnterEffects(x.s, c, fps, x.log, id, events, n);
    case Wake(thread) =>
      if thread in x.waiting {
        DeliverTold(x.s, c, fps, x.waiting[thread].buffer);
        DeliverLost(x.s, c, x.waiting[thread].buffer, n);
      }
    case CreateBuffer(id, coded, capacity) =>
      CreateTold(x.s, c, id, coded, capacity);
      CreateLost(x.s, c, id, coded, capacity, n);
    case DestroyBuffer(id, events) => DestroyEffects(x.s, c, fps, x.log, id, events, n);
    case Elsewhere(buffers, surfaces, _) =>
      var t := x.s.(buffers := buffers, surfaces := surfaces);
      if Apart(x.s, t, c) {
        ApartTold(x.s, t, c);
        ApartLost(x.s, t, c, n);
      }
  }

  lemma InitialTold(x: System, c: nat)
    requires Initial(x, c)
    ensures Told(x.s, c)
  {
  }

  lemma {:induction false} RunSane(x: System, c: nat, fps: nat, actions: seq<Action>)
    requires 0 < fps <= MICROSECONDS && |actions| <= MAX_FRAMES
    requires Initial(x, c) && RegularRun(x, c, fps, actions)
    ensures Sane(Run(x, c, fps, actions), c, fps) && Run(x, c, fps, actions).s.sequence <= |actions|
  {
    hide Inv, Told, Next, Regular;
    RunKeeps(x, c, fps, actions);
    if actions == [] {
      InitialTold(x, c);
    } else {
      var m := |actions| - 1;
      RunSane(x, c, fps, actions[..m]);
      NextLosesExactly(Run(x, c, fps, actions[..m]), c, fps, actions[m], 1);
    }
  }

  predicate LosesAt(x: System, c: nat, fps: nat, actions: seq<Action>, k: nat, n: nat)
    requires k < |actions|
  {
    Loses(Run(x, c, fps, actions[..k]), c, fps, actions[k], n)
  }

  // A frame is lost if and only if a step of the run lost it.
  lemma {:induction false} LostExactly(x: System, c: nat, fps: nat, actions: seq<Action>, n: nat)
    requires 0 < fps <= MICROSECONDS && |actions| <= MAX_FRAMES && n > 0
    requires Initial(x, c) && RegularRun(x, c, fps, actions)
    ensures Lost(Run(x, c, fps, actions).s, c, n) <==>
            exists k :: 0 <= k < |actions| && LosesAt(x, c, fps, actions, k, n)
  {
    hide Next, Regular, Sane, Loses;
    if actions != [] {
      var m := |actions| - 1;
      var before := actions[..m];
      RunSane(x, c, fps, before);
      LostExactly(x, c, fps, before, n);
      SaneBounded(Run(x, c, fps, before), c, fps);
      NextLosesExactly(Run(x, c, fps, before), c, fps, actions[m], n);
      forall k | 0 <= k < m ensures LosesAt(x, c, fps, actions, k, n) <==> LosesAt(x, c, fps, before, k, n) {
        assert before[..k] == actions[..k];
      }
      if LosesAt(x, c, fps, actions, m, n) {
        assert 0 <= m < |actions|;
      }
      if k :| 0 <= k < |before| && LosesAt(x, c, fps, before, k, n) {
        assert LosesAt(x, c, fps, actions, k, n);
      }
    }
  }

  lemma SaneBounded(x: System, c: nat, fps: nat)
    requires Sane(x, c, fps)
    ensures Bounded(x.s, fps)
  {
  }

  // ---------- Lost frames stay lost ----------

  // No step of any run, regular or not, delivers a lost frame or one behind it.
  lemma NextKeepsLost(x: System, c: nat, fps: nat, a: Action, n: nat)
    requires Lost(x.s, c, n) && n > 0 && x.s.sequence < TWO_64 - 2
    ensures Lost(Next(x, c, fps, a).s, c, n)
    ensures Next(x, c, fps, a).s.sequence <= x.s.sequence + 1
  {
    hide Hardware, LogAfter, Submit, SubmitLog, Enter, EnterLog, Deliver, AfterTurn, Begin, BeginLog, Destroy,
      DestroyLog, Append, Apart, WaitingApart, Lost;
    NextSequenceSteps(x, c, fps, a);
    match a
    case BeginPicture(surface, events) =>
      BeginNumbers(x.s, c, surface, events);
      FewerNumbers(x.s, Begin(x.s, c, surface, events).0, c, n);
    case Submission(id, events, taken) =>
      if x.target.Some? {
        SubmitKeepsLost(x.s, c, fps, id, x.target.value, events, taken, n);
      }
    case Report(e) =>
      EventNumbers(x.s, c, c, e);
      FewerNumbers(x.s, Hardware(x.s, c, e).0, c, n);
    case Map(thread, id, events) => EnterKeepsLost(x.s, c, id, events, n);
    case Wake(thread) =>
      if thread in x.waiting {
        DeliverLost(x.s, c, x.waiting[thread].buffer, n);
      }
    case CreateBuffer(id, coded, capacity) => CreateLost(x.s, c, id, coded, capacity, n);
    case DestroyBuffer(id, events) =>
      DestroyNumbers(x.s, c, id, events);
      FewerNumbers(x.s, Destroy(x.s, c, id, events).0, c, n);
    case Elsewhere(buffers, surfaces, _) =>
      var t := x.s.(buffers := buffers, surfaces := surfaces);
      if Apart(x.s, t, c) {
        ApartLost(x.s, t, c, n);
      }
  }

  lemma FewerNumbers(s: State, t: State, c: nat, n: nat)
    requires NoNewNumbers(s, t, c) && Lost(s, c, n) && n > 0
    ensures Lost(t, c, n)
  {
  }

  lemma EnterKeepsLost(s: State, c: nat, id: nat, events: seq<Event>, n: nat)
    requires Lost(s, c, n) && n > 0
    ensures Lost(Enter(s, c, id, events).0, c, n)
  {
    hide Pump, Deliver, Lost;
    PumpNumbers(s, c, c, events);
    FewerNumbers(s, Pump(s, c, events), c, n);
    DeliverLost(s, c, id, n);
    DeliverLost(Pump(s, c, events), c, id, n);
  }

  lemma AcceptKeepsLost(s: State, c: nat, fps: nat, id: nat, surface: nat, n: nat)
    requires fps > 0 && Submittable(s.buffers, s.surfaces, c, id, surface)
    requires Lost(s, c, n) && n > 0 && s.sequence < TWO_64 - 2
    ensures Lost(Accept(s, c, fps, id, surface).0, c, n)
  {
    hide Accept, FrameTag;
    AcceptIs(s, c, fps, id, surface);
  }

  lemma SubmitKeepsLost(s: State, c: nat, fps: nat, id: nat, surface: nat, events: seq<Event>, taken: bool, n: nat)
    requires Lost(s, c, n) && n > 0 && s.sequence < TWO_64 - 2
    ensures Lost(Submit(s, c, fps, id, surface, events, taken).0, c, n)
  {
    hide Lost, Accept, Pump, Withdraw, Submittable;
    if fps > 0 && Submittable(s.buffers, s.surfaces, c, id, surface) {
      var accepted := Accept(s, c, fps, id, surface).0;
      AcceptKeepsLost(s, c, fps, id, surface, n);
      PumpNumbers(accepted, c, c, events);
      FewerNumbers(accepted, Pump(accepted, c, events), c, n);
      WithdrawNumbers(Pump(accepted, c, events), c, id, surface);
      FewerNumbers(Pump(accepted, c, events), Withdraw(Pump(accepted, c, events), id, surface), c, n);
    }
  }

  lemma {:induction false} LostBlocks(x: System, c: nat, fps: nat, actions: seq<Action>, n: nat)
    requires Lost(x.s, c, n) && n > 0 && x.s.sequence + |actions| < TWO_64 - 1
    ensures Lost(Run(x, c, fps, actions).s, c, n)
    ensures Run(x, c, fps, actions).s.delivery <= n
    ensures Run(x, c, fps, actions).s.sequence <= x.s.sequence + |actions|
  {
    hide Next, Lost;
    if actions != [] {
      var m := |actions| - 1;
      LostBlocks(x, c, fps, actions[..m], n);
      NextKeepsLost(Run(x, c, fps, actions[..m]), c, fps, actions[m], n);
    }
    LostBounds(Run(x, c, fps, actions).s, c, n);
  }

  lemma LostBounds(s: State, c: nat, n: nat)
    requires Lost(s, c, n)
    ensures s.delivery <= n
  {
  }
}
