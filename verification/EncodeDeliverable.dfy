/**
  Every frame of an encode context that can still be delivered. A blocked frame is handed out after all if a client
  already waits for its buffer, because such a client does not look at the frame again when its turn comes.
 */
module EncodeDeliverable {
  import opened EncodeBlocked
  import opened EncodeDelivery
  import opened EncodeInvariant
  import opened EncodeRuns
  import opened EncodeState
  import opened EncodeTables

  // A client still waits for the buffer.
  predicate WaitedFor(waiting: map<nat, Waiter>, id: nat) {
    exists th :: th in waiting && waiting[th].buffer == id
  }

  // Buffer id holds frame n, which will never be complete, and no client waits for it.
  predicate Stuck(x: System, c: nat, id: nat, n: nat) {
    id < |x.s.buffers| && Open(x.s, c, id, n) && Shut(x.s.buffers[id], x.log) && !WaitedFor(x.waiting, id)
  }

  // Frame n is lost, or stuck before its delivery.
  predicate Dead(x: System, c: nat, n: nat) {
    Lost(x.s, c, n) || (n >= x.s.delivery && exists id: nat :: id < |x.s.buffers| && Stuck(x, c, id, n))
  }

  // What the hardware reports during a step.
  function Events(a: Action): seq<Event> {
    match a
    case BeginPicture(_, events) => events
    case Submission(_, events, _) => events
    case Report(e) => [e]
    case Map(_, _, events) => events
    case DestroyBuffer(_, events) => events
    case _ => []
  }

  // In every step the hardware sends no packet of a frame behind its final one.
  predicate ProperRun(x: System, c: nat, fps: nat, actions: seq<Action>) {
    actions == [] ||
    (ProperRun(x, c, fps, actions[..|actions| - 1]) &&
     Proper(Run(x, c, fps, actions[..|actions| - 1]).log, Events(actions[|actions| - 1])))
  }

  // ---------- Stuck frames ----------

  // The stuck frame is still there, and not delivered.
  predicate StillStuck(y: System, c: nat, id: nat, n: nat) {
    y.s.delivery <= n && Stuck(y, c, id, n)
  }

  lemma ShutIsStuck(x: System, y: System, c: nat, id: nat, n: nat)
    requires Stuck(x, c, id, n) && StaysShut(x.s, y.s, y.log, id) && y.s.delivery <= n
    requires !WaitedFor(y.waiting, id)
    ensures StillStuck(y, c, id, n)
  {
    hide Shut;
  }

  lemma SameIsStuck(x: System, y: System, c: nat, id: nat, n: nat)
    requires Stuck(x, c, id, n) && id < |y.s.buffers| && y.s.delivery <= n && Grows(x.log, y.log)
    requires y.s.buffers[id] == x.s.buffers[id] && !WaitedFor(y.waiting, id)
    ensures StillStuck(y, c, id, n)
  {
  }

  lemma GrowsNot(log: seq<Logged>)
    ensures Grows(log, log)
  {
  }

  // A delivery is of another frame.
  lemma DeliverKeepsStuck(s: State, c: nat, fps: nat, b: nat, id: nat, n: nat)
    requires fps > 0 && TagsOk(s, c, fps) && SequencesDiffer(s, c) && Told(s, c) && s.delivery <= n
    requires Open(s, c, id, n) && b != id
    ensures
      var t := Deliver(s, c, b).0;
      t.delivery <= n && |t.buffers| == |s.buffers| && t.buffers[id] == s.buffers[id]
  {
    hide FrameTag;
    if Deliver(s, c, b).0 != s {
      OwnHolds(s, c, fps, b);
    }
  }

  lemma NotWaited(waiting: map<nat, Waiter>, thread: nat, b: nat, attempts: nat, turn: Turn, id: nat)
    requires !WaitedFor(waiting, id) && (turn == Again ==> b != id)
    ensures !WaitedFor(AfterTurn(waiting, thread, b, attempts, turn), id)
  {
  }

  lemma EnterKeepsStuck(x: System, c: nat, fps: nat, a: Action, id: nat, n: nat)
    requires Sane(x, c, fps) && a.Map? && a.thread !in x.waiting && Proper(x.log, a.events)
    requires Stuck(x, c, id, n) && x.s.delivery <= n
    ensures StillStuck(Next(x, c, fps, a), c, id, n)
  {
    hide Inv, Told, Pump, PumpLog, Deliver, Shut, Proper, Reported, AfterTurn, WaitedFor, TagsOk, SequencesDiffer,
      QueueOk, WaitingOk, ContentsOk, Grows, Append;
    var s, log, y := x.s, x.log, Next(x, c, fps, a);
    var (t, turn) := Enter(s, c, a.id, a.events);
    var pumped := Pump(s, c, a.events);
    PumpStaysShut(s, c, fps, log, a.events, id, log);
    PumpLogGrows(s, c, log, a.events);
    GrowsNot(log);
    PumpReports(s, c, fps, log, a.events);
    ReportedSizes(s, pumped);
    ReportedTold(s, pumped, c);
    PumpKeeps(s, c, fps, log, a.events);
    InvParts(s, c, fps, log);
    InvParts(pumped, c, fps, PumpLog(s, c, log, a.events));
    OpenLater(s, pumped, c, id, n);
    if a.id != id {
      DeliverKeepsStuck(s, c, fps, a.id, id, n);
      DeliverKeepsStuck(pumped, c, fps, a.id, id, n);
    }
    NotWaited(x.waiting, a.thread, a.id, 0, turn, id);
    EnterShut(s, c, log, a.id, a.events, id);
    if StaysShut(s, t, y.log, id) {
      ShutIsStuck(x, y, c, id, n);
    }
  }

  lemma EnterShut(s: State, c: nat, log: seq<Logged>, b: nat, events: seq<Event>, id: nat)
    requires id < |s.buffers| && !s.buffers[id].ready && Shut(s.buffers[id], log)
    requires StaysShut(s, Pump(s, c, events), log, id) && Grows(log, PumpLog(s, c, log, events))
    requires b != id ==>
      && id < |Deliver(s, c, b).0.buffers| && Deliver(s, c, b).0.buffers[id] == s.buffers[id]
      && var pumped := Pump(s, c, events);
         && id < |Deliver(pumped, c, b).0.buffers| && Deliver(pumped, c, b).0.buffers[id] == pumped.buffers[id]
    ensures StaysShut(s, Enter(s, c, b, events).0, EnterLog(s, c, log, b, events), id)
  {
    hide Pump, PumpLog, Deliver;
  }

  lemma SubmissionKeepsStuck(x: System, c: nat, fps: nat, a: Action, id: nat, n: nat)
    requires Sane(x, c, fps) && x.s.sequence < MAX_FRAMES && Regular(x, c, fps, a)
    requires a.Submission? && x.target.Some? && a.id != id && Proper(x.log, a.events)
    requires Stuck(x, c, id, n) && x.s.delivery <= n
    ensures StillStuck(Next(x, c, fps, a), c, id, n)
  {
    hide Inv, Told, Accept, Pump, PumpLog, Withdraw, Submittable, Shut, Proper, Timely, WaitedFor, FrameTag, Reported,
      Withdrawn, Grows;
    var s, log, y, surface := x.s, x.log, Next(x, c, fps, a), x.target.value;
    GrowsNot(log);
    if Submittable(s.buffers, s.surfaces, c, a.id, surface) {
      var (accepted, o) := Accept(s, c, fps, a.id, surface);
      AcceptIs(s, c, fps, a.id, surface);
      if o.Pass? {
        var pumped := Pump(accepted, c, a.events);
        AcceptKeeps(s, c, fps, log, a.id, surface);
        PumpStaysShut(accepted, c, fps, log, a.events, id, log);
        PumpLogGrows(accepted, c, log, a.events);
        PumpReports(accepted, c, fps, log, a.events);
        ReportedSizes(accepted, pumped);
        GrownStaysShut(accepted, pumped, log, y.log, id);
        if !a.taken {
          TimelyEvents(s, fps, a.events);
          AcceptedIsNewest(s, c, fps, a.id, surface);
          PumpAvoids(accepted, c, a.events, a.id, accepted.buffers[a.id]);
          WithdrawIs(pumped, c, a.id, surface);
          WithdrawnBuffer(pumped, y.s, c, a.id, surface, id);
        }
        ShutIsStuck(x, y, c, id, n);
      } else {
        SameIsStuck(x, y, c, id, n);
      }
    } else {
      SubmitRefused(s, c, fps, a.id, surface, a.events, a.taken);
      SameIsStuck(x, y, c, id, n);
    }
  }

  lemma TimelyEvents(s: State, fps: nat, events: seq<Event>)
    requires fps > 0 && Timely(s, fps, events)
    ensures forall k :: 0 <= k < |events| ==> events[k].tag != FrameTag(NextSequence(s.sequence), fps)
  {
  }

  lemma WithdrawnBuffer(s: State, t: State, c: nat, id: nat, surface: nat, other: nat)
    requires Withdrawn(s, t, c, id, surface) && other < |s.buffers| && other != id
    ensures other < |t.buffers| && t.buffers[other] == s.buffers[other]
  {
  }

  lemma WakeKeepsStuck(x: System, c: nat, fps: nat, a: Action, id: nat, n: nat)
    requires Sane(x, c, fps) && a.Wake? && a.thread in x.waiting && Stuck(x, c, id, n) && x.s.delivery <= n
    ensures StillStuck(Next(x, c, fps, a), c, id, n)
  {
    hide Inv, Told, Deliver, Shut, AfterTurn, TagsOk, SequencesDiffer, QueueOk, WaitingOk, ContentsOk, Append, Grows;
    var w, y := x.waiting[a.thread], Next(x, c, fps, a);
    assert w.buffer != id;
    InvParts(x.s, c, fps, x.log);
    DeliverKeepsStuck(x.s, c, fps, w.buffer, id, n);
    NotWaited(x.waiting, a.thread, w.buffer, w.attempts, Deliver(x.s, c, w.buffer).1, id);
    GrowsNot(x.log);
    SameIsStuck(x, y, c, id, n);
  }

  // What the hardware reports while a step waits.
  lemma PumpKeepsStuck(x: System, y: System, c: nat, fps: nat, events: seq<Event>, id: nat, n: nat)
    requires Sane(x, c, fps) && Stuck(x, c, id, n) && x.s.delivery <= n && Proper(x.log, events)
    requires y.s == Pump(x.s, c, events) && Grows(PumpLog(x.s, c, x.log, events), y.log) && y.waiting == x.waiting
    ensures StillStuck(y, c, id, n)
  {
    hide Inv, Told, Pump, PumpLog, Shut, Proper, Reported, WaitedFor, Grows;
    PumpStaysShut(x.s, c, fps, x.log, events, id, x.log);
    PumpLogGrows(x.s, c, x.log, events);
    GrowsTwice(x.log, PumpLog(x.s, c, x.log, events), y.log);
    GrownStaysShut(x.s, y.s, x.log, y.log, id);
    PumpReports(x.s, c, fps, x.log, events);
    ReportedSizes(x.s, y.s);
    ShutIsStuck(x, y, c, id, n);
  }

  lemma GrowsTwice(a: seq<Logged>, b: seq<Logged>, d: seq<Logged>)
    requires Grows(a, b) && Grows(b, d)
    ensures Grows(a, d)
  {
  }

  lemma BeginKeepsStuck(x: System, c: nat, fps: nat, a: Action, id: nat, n: nat)
    requires Sane(x, c, fps) && a.BeginPicture? && Proper(x.log, a.events) && Stuck(x, c, id, n) && x.s.delivery <= n
    ensures StillStuck(Next(x, c, fps, a), c, id, n)
  {
    hide Inv, Told, Pump, PumpLog, Shut, Proper, WaitedFor, Grows;
    var y := Next(x, c, fps, a);
    GrowsNot(y.log);
    GrowsNot(x.log);
    if y.s == x.s && y.log == x.log {
      SameIsStuck(x, y, c, id, n);
    } else {
      PumpKeepsStuck(x, y, c, fps, a.events, id, n);
    }
  }

  lemma ReportKeepsStuck(x: System, c: nat, fps: nat, a: Action, id: nat, n: nat)
    requires Sane(x, c, fps) && a.Report? && Proper(x.log, [a.event]) && Stuck(x, c, id, n) && x.s.delivery <= n
    ensures StillStuck(Next(x, c, fps, a), c, id, n)
  {
    hide Inv, Told, Hardware, LogAfter, Shut, WaitedFor, Grows, Reported;
    var y := Next(x, c, fps, a);
    assert a.event.Packet? ==> Cut([a.event][0].tag) !in x.log;
    InvParts(x.s, c, fps, x.log);
    EventStaysShut(x.s, c, fps, x.log, a.event, id);
    EventLogGrows(x.s, c, x.log, a.event);
    EventReports(x.s, c, fps, a.event);
    ReportedSizes(x.s, y.s);
    GrownStaysShut(x.s, y.s, x.log, y.log, id);
    ShutIsStuck(x, y, c, id, n);
  }

  lemma DestroyKeepsStuck(x: System, c: nat, fps: nat, a: Action, id: nat, n: nat)
    requires Sane(x, c, fps) && a.DestroyBuffer? && Proper(x.log, a.events) && Stuck(x, c, id, n) && x.s.delivery <= n
    requires a.id != id || Destroy(x.s, c, a.id, a.events).1.Fail?
    ensures StillStuck(Next(x, c, fps, a), c, id, n)
  {
    hide Inv, Told, Pump, PumpLog, Shut, Proper, WaitedFor, Grows, Destroy, Reported, Linked;
    var s, y := x.s, Next(x, c, fps, a);
    DestroyIs(s, c, fps, x.log, a.id, a.events);
    GrowsNot(x.log);
    GrowsNot(PumpLog(s, c, x.log, a.events));
    if Live(s.buffers, a.id) && s.buffers[a.id].context == c {
      var waited := Waited(s, c, a.id, a.events);
      var between := x.(s := waited, log := y.log);
      ReportedSizes(s, waited);
      if waited == s && y.log == x.log {
        SameIsStuck(x, between, c, id, n);
      } else {
        PumpKeepsStuck(x, between, c, fps, a.events, id, n);
      }
      GrowsNot(y.log);
      SameIsStuck(between, y, c, id, n);
    } else {
      SameIsStuck(x, y, c, id, n);
    }
  }

  // A stuck frame stays stuck, unless the step loses it.
  lemma NextKeepsStuck(x: System, c: nat, fps: nat, a: Action, id: nat, n: nat)
    requires Sane(x, c, fps) && x.s.sequence < MAX_FRAMES && Regular(x, c, fps, a) && Proper(x.log, Events(a))
    requires Stuck(x, c, id, n) && x.s.delivery <= n && !Loses(x, c, fps, a, n)
    ensures StillStuck(Next(x, c, fps, a), c, id, n)
  {
    hide Inv, Told, Submit, SubmitLog, Hardware, LogAfter, Enter, EnterLog, Deliver, Begin, BeginLog, Create, Destroy,
      DestroyLog, Apart, AfterTurn, Append, Regular, Proper, Shut, WaitedFor, Grows, Submittable;
    var y := Next(x, c, fps, a);
    GrowsNot(x.log);
    match a
    case BeginPicture(_, _) => BeginKeepsStuck(x, c, fps, a, id, n);
    case Submission(b, events, taken) =>
      if x.target.Some? && b != id {
        SubmissionKeepsStuck(x, c, fps, a, id, n);
      } else if x.target.Some? {
        LoggedNothing(x.s, c, fps, x.log, b, x.target.value, events);
        SubmitRefused(x.s, c, fps, b, x.target.value, events, taken);
      }
    case Report(_) => ReportKeepsStuck(x, c, fps, a, id, n);
    case Map(thread, _, _) =>
      if thread !in x.waiting {
        EnterKeepsStuck(x, c, fps, a, id, n);
      }
    case Wake(thread) =>
      if thread in x.waiting {
        WakeKeepsStuck(x, c, fps, a, id, n);
      }
    case CreateBuffer(b, coded, capacity) =>
      CreateLeaves(x.s, c, b, coded, capacity, id);
      SameIsStuck(x, y, c, id, n);
    case DestroyBuffer(_, _) => DestroyKeepsStuck(x, c, fps, a, id, n);
    case Elsewhere(buffers, surfaces, waiting) =>
      if y != x {
        ElsewhereKeepsStuck(x, c, fps, a, id, n);
      }
  }

  lemma LoggedNothing(s: State, c: nat, fps: nat, log: seq<Logged>, id: nat, surface: nat, events: seq<Event>)
    requires !Submittable(s.buffers, s.surfaces, c, id, surface)
    ensures SubmitLog(s, c, fps, log, id, surface, events) == log
  {
  }

  lemma CreateLeaves(s: State, c: nat, b: nat, coded: bool, capacity: nat, id: nat)
    requires id < |s.buffers| && s.buffers[id].used
    ensures
      var t := Create(s, c, b, coded, capacity).0;
      id < |t.buffers| && t.buffers[id] == s.buffers[id] && t.delivery == s.delivery
  {
  }

  lemma ElsewhereKeepsStuck(x: System, c: nat, fps: nat, a: Action, id: nat, n: nat)
    requires a.Elsewhere? && Next(x, c, fps, a) != x && Stuck(x, c, id, n) && x.s.delivery <= n
    ensures StillStuck(Next(x, c, fps, a), c, id, n)
  {
    hide Shut, Linked;
    var y := Next(x, c, fps, a);
    assert Own(x.s.buffers[id], c);
    GrowsNot(x.log);
    SameIsStuck(x, y, c, id, n);
  }

  // ---------- Dead frames ----------

  // No step delivers a dead frame.
  lemma NextKeepsDead(x: System, c: nat, fps: nat, a: Action, n: nat)
    requires Sane(x, c, fps) && x.s.sequence < MAX_FRAMES && Regular(x, c, fps, a) && Proper(x.log, Events(a))
    requires Dead(x, c, n) && n > 0
    ensures Sane(Next(x, c, fps, a), c, fps) && Dead(Next(x, c, fps, a), c, n)
    ensures Next(x, c, fps, a).s.delivery <= n
  {
    hide Sane, Lost, Next, Regular, Proper, Loses, Stuck;
    NextLosesExactly(x, c, fps, a, n);
    var y := Next(x, c, fps, a);
    if Lost(x.s, c, n) || Loses(x, c, fps, a, n) {
      LostBounds(y.s, c, n);
    } else {
      var id: nat :| id < |x.s.buffers| && Stuck(x, c, id, n);
      NextKeepsStuck(x, c, fps, a, id, n);
      StuckInside(y, c, id, n);
    }
  }

  lemma StuckInside(x: System, c: nat, id: nat, n: nat)
    requires Stuck(x, c, id, n)
    ensures id < |x.s.buffers|
  {
  }

  lemma DeadStays(x: System, c: nat, fps: nat, a: Action)
    requires Sane(x, c, fps) && x.s.sequence < MAX_FRAMES && Regular(x, c, fps, a) && Proper(x.log, Events(a))
    ensures forall m: nat :: m > 0 && Dead(x, c, m) ==> Dead(Next(x, c, fps, a), c, m)
  {
    hide Sane, Dead, Next, Regular, Proper;
    forall m: nat | m > 0 && Dead(x, c, m) ensures Dead(Next(x, c, fps, a), c, m) {
      NextKeepsDead(x, c, fps, a, m);
    }
  }

  // ---------- Every frame ----------

  // A thread that does not wait.
  lemma FreshThread(waiting: map<nat, Waiter>) returns (thread: nat)
    ensures thread !in waiting
  {
    thread := Above(waiting.Keys);
  }

  lemma {:induction false} Above(s: set<nat>) returns (n: nat)
    ensures forall k :: k in s ==> k < n
  {
    if s == {} {
      n := 0;
    } else {
      var k :| k in s;
      var m := Above(s - {k});
      n := if k < m then m else k + 1;
      assert forall i :: i in s ==> i == k || i in s - {k};
    }
  }

  // The buffer of a frame still to come is as it was, and so are the clients that wait for it.
  predicate Untouched(y: System, z: System, id: nat) {
    && id < |y.s.buffers| && id < |z.s.buffers| && z.s.buffers[id] == y.s.buffers[id]
    && (WaitedFor(y.waiting, id) ==> WaitedFor(z.waiting, id))
  }

  // z is y with the frames up to n delivered, and nothing else of note.
  ghost predicate ServedTo(y: System, z: System, c: nat, fps: nat, n: nat) {
    && Sane(z, c, fps) && z.s.delivery == n + 1 && z.s.sequence == y.s.sequence
    && (forall tag :: Cut(tag) in z.log ==> Cut(tag) in y.log)
    && (forall m: nat :: m > 0 && Lost(z.s, c, m) ==> Lost(y.s, c, m))
    && forall i: nat, m: nat :: m > n && Holds(y.s, c, i, m) ==> Untouched(y, z, i)
  }

  // One more frame, delivered to a client that maps its buffer, or to one that waits for it.
  lemma ServeNext(z: System, c: nat, fps: nat) returns (a: Action)
    requires Sane(z, c, fps) && z.s.sequence < MAX_FRAMES
    requires z.s.delivery <= z.s.sequence && !Dead(z, c, z.s.delivery)
    ensures Regular(z, c, fps, a) && Proper(z.log, Events(a))
    ensures ServedTo(z, Next(z, c, fps, a), c, fps, z.s.delivery)
  {
    hide Inv, Told, Shut, Next, Regular, Lost, Proper, Blocked, ServedTo;
    var id := HeldSomewhere(z.s, c, fps, z.log, z.s.delivery);
    if !z.s.buffers[id].ready && Shut(z.s.buffers[id], z.log) {
      assert !Stuck(z, c, id, z.s.delivery);
      var thread :| thread in z.waiting && z.waiting[thread].buffer == id;
      a := Wake(thread);
      ServeWaiting(z, c, fps, thread);
    } else {
      var thread := FreshThread(z.waiting);
      a := Map(thread, id, Missing(z.s, id));
      ServeMapping(z, c, fps, thread, id);
    }
  }

  lemma ServeMapping(z: System, c: nat, fps: nat, thread: nat, id: nat)
    requires Sane(z, c, fps) && z.s.sequence < MAX_FRAMES && thread !in z.waiting
    requires Holds(z.s, c, id, z.s.delivery)
    requires z.s.buffers[id].ready ||
      (!Shut(z.s.buffers[id], z.log) && |z.s.buffers[id].contents| <= z.s.buffers[id].capacity)
    ensures
      var a := Map(thread, id, Missing(z.s, id));
      && Regular(z, c, fps, a) && Proper(z.log, Events(a))
      && ServedTo(z, Next(z, c, fps, a), c, fps, z.s.delivery)
  {
    hide Inv, Enter, Told, Append, Missing, PumpLog, Lost, Sane;
    var s, a := z.s, Map(thread, id, Missing(z.s, id));
    var y := Next(z, c, fps, a);
    SaneParts(z, c, fps);
    NextServed(s, c, fps, z.log, id);
    MissingIsProper(s, id, z.log);
    EnterSequence(s, c, id, Missing(s, id));
    assert z.waiting - {thread} == z.waiting;
    NextLosesExactly(z, c, fps, a, 1);
    NothingNewLost(z, c, fps, a);
    MissingCutsNothing(s, c, fps, z.log, id);
    assert forall i: nat, m: nat :: m > s.delivery && Holds(s, c, i, m) ==> i != id;
  }

  lemma SaneParts(x: System, c: nat, fps: nat)
    requires Sane(x, c, fps)
    ensures Bounded(x.s, fps) && Inv(x.s, c, fps, x.log) && Told(x.s, c)
  {
  }

  lemma NothingNewLost(z: System, c: nat, fps: nat, a: Action)
    requires Sane(z, c, fps) && z.s.sequence < MAX_FRAMES && Regular(z, c, fps, a) && (a.Map? || a.Wake?)
    ensures forall m: nat :: m > 0 && Lost(Next(z, c, fps, a).s, c, m) ==> Lost(z.s, c, m)
  {
    hide Sane, Lost, Next, Regular;
    forall m: nat | m > 0 && Lost(Next(z, c, fps, a).s, c, m) ensures Lost(z.s, c, m) {
      NextLosesExactly(z, c, fps, a, m);
    }
  }

  lemma MissingCutsNothing(s: State, c: nat, fps: nat, log: seq<Logged>, id: nat)
    requires Bounded(s, fps) && Inv(s, c, fps, log) && id < |s.buffers| && Tagged(s.buffers[id], c)
    requires s.buffers[id].ready || |s.buffers[id].contents| < s.buffers[id].capacity
    ensures forall tag :: Cut(tag) in EnterLog(s, c, log, id, Missing(s, id)) ==> Cut(tag) in log
  {
    hide Inv, Pump, PumpLog;
    if !s.buffers[id].ready {
      FinalPacket(s, c, fps, log, id, s.buffers[id].sequence);
    }
  }

  lemma ServeWaiting(z: System, c: nat, fps: nat, thread: nat)
    requires Sane(z, c, fps) && z.s.sequence < MAX_FRAMES && thread in z.waiting
    requires Holds(z.s, c, z.waiting[thread].buffer, z.s.delivery)
    ensures
      var a := Wake(thread);
      && Regular(z, c, fps, a) && Proper(z.log, Events(a))
      && ServedTo(z, Next(z, c, fps, a), c, fps, z.s.delivery)
    ensures
      var id := z.waiting[thread].buffer;
      var b := z.s.buffers[id];
      Next(z, c, fps, Wake(thread)).deliveries ==
      z.deliveries + [Delivery(id, b.sequence, b.contents, b.packets, b.ready, b.damaged, b.overflowed)]
  {
    hide Inv, Told, Lost, Sane, FrameTold;
    var s, id, a := z.s, z.waiting[thread].buffer, Wake(thread);
    var y := Next(z, c, fps, a);
    SaneParts(z, c, fps);
    HeldIsTold(s, c, id);
    assert Deliver(s, c, id).1 == Delivered;
    NextLosesExactly(z, c, fps, a, 1);
    NothingNewLost(z, c, fps, a);
    forall i: nat, m: nat | m > s.delivery && Holds(s, c, i, m) ensures Untouched(z, y, i) {
      if WaitedFor(z.waiting, i) {
        var th :| th in z.waiting && z.waiting[th].buffer == i;
        assert th in y.waiting && y.waiting[th].buffer == i;
      }
    }
  }

  lemma HeldIsTold(s: State, c: nat, id: nat)
    requires Told(s, c) && id < |s.buffers| && Tagged(s.buffers[id], c)
    ensures s.buffers[id].delivered <==> s.buffers[id].sequence < s.delivery
  {
    assert FrameTold(s.buffers[id], c, s.delivery);
  }

  // Serving frames kills none of those behind them.
  lemma ServedIsAlive(y: System, z: System, c: nat, fps: nat, n: nat, m: nat)
    requires Sane(y, c, fps) && ServedTo(y, z, c, fps, n) && n < m <= y.s.sequence && !Dead(y, c, m)
    requires y.s.delivery <= n + 1
    ensures !Dead(z, c, m)
  {
    hide Inv, Told, Lost, Blocked, Untouched;
    if Dead(z, c, m) {
      var id: nat :| id < |z.s.buffers| && Stuck(z, c, id, m);
      var held := HeldSomewhere(y.s, c, fps, y.log, m);
      assert Untouched(y, z, held);
      UntouchedHolds(y, z, c, held, m);
      InvParts(z.s, c, fps, z.log);
      HoldsOnce(z.s, c, id, held, m);
      UntouchedStuck(y, z, c, id, m);
    }
  }

  lemma UntouchedHolds(y: System, z: System, c: nat, id: nat, m: nat)
    requires Untouched(y, z, id) && Holds(y.s, c, id, m)
    ensures Holds(z.s, c, id, m)
  {
  }

  lemma UntouchedStuck(y: System, z: System, c: nat, id: nat, m: nat)
    requires Untouched(y, z, id) && Stuck(z, c, id, m)
    requires forall tag :: Cut(tag) in z.log ==> Cut(tag) in y.log
    ensures Stuck(y, c, id, m)
  {
  }

  // All frames up to n, one after the other.
  lemma {:induction false} ServeAll(y: System, c: nat, fps: nat, n: nat) returns (more: seq<Action>)
    requires Sane(y, c, fps) && y.s.sequence < MAX_FRAMES && y.s.delivery <= n + 1 && n <= y.s.sequence
    requires forall m :: y.s.delivery <= m <= n ==> !Dead(y, c, m)
    ensures |more| == n + 1 - y.s.delivery && RegularRun(y, c, fps, more) && ProperRun(y, c, fps, more)
    ensures ServedTo(y, Run(y, c, fps, more), c, fps, n)
    decreases n
  {
    hide Sane, Lost, Holds, Next, Regular, Dead, Proper, ServedTo;
    if y.s.delivery == n + 1 {
      more := [];
      ServedNothing(y, c, fps, n);
    } else {
      SaneTold(y, c, fps);
      var before := ServeAll(y, c, fps, n - 1);
      var z := Run(y, c, fps, before);
      ServedBounds(y, z, c, fps, n - 1);
      ServedIsAlive(y, z, c, fps, n - 1, n);
      var a := ServeNext(z, c, fps);
      more := before + [a];
      assert more[..|before|] == before;
      ServedTwice(y, z, Next(z, c, fps, a), c, fps, n);
    }
  }

  lemma ServedNothing(y: System, c: nat, fps: nat, n: nat)
    requires Sane(y, c, fps) && y.s.delivery == n + 1
    ensures ServedTo(y, y, c, fps, n)
  {
    hide Inv, Told;
  }

  lemma ServedBounds(y: System, z: System, c: nat, fps: nat, n: nat)
    requires ServedTo(y, z, c, fps, n)
    ensures Sane(z, c, fps) && z.s.delivery == n + 1 && z.s.sequence == y.s.sequence
  {
  }

  lemma SaneTold(y: System, c: nat, fps: nat)
    requires Sane(y, c, fps)
    ensures 1 <= y.s.delivery <= y.s.sequence + 1
  {
  }

  lemma ServedTwice(y: System, z: System, w: System, c: nat, fps: nat, n: nat)
    requires n > 0 && ServedTo(y, z, c, fps, n - 1) && ServedTo(z, w, c, fps, n)
    ensures ServedTo(y, w, c, fps, n)
  {
    hide Sane, Lost, WaitedFor;
    forall i: nat, m: nat | m > n && Holds(y.s, c, i, m) ensures Untouched(y, w, i) {
      assert Untouched(y, z, i);
      assert Holds(z.s, c, i, m);
    }
  }

  // Frame n can be delivered by some continuation of the run, below the wrap.
  ghost predicate Deliverable(y: System, c: nat, fps: nat, n: nat)
    requires fps > 0
  {
    exists more: seq<Action> :: Delivers(y, c, fps, more, n)
  }

  predicate Delivers(y: System, c: nat, fps: nat, more: seq<Action>, n: nat)
    requires fps > 0
  {
    && |more| <= MAX_FRAMES && RegularRun(y, c, fps, more) && ProperRun(y, c, fps, more)
    && Run(y, c, fps, more).s.sequence < MAX_FRAMES && Run(y, c, fps, more).s.delivery > n
  }

  // Sequence numbers never go back.
  lemma {:induction false} RunSequence(y: System, c: nat, fps: nat, more: seq<Action>)
    requires y.s.sequence + |more| < TWO_64 - 1
    ensures y.s.sequence <= Run(y, c, fps, more).s.sequence <= y.s.sequence + |more|
  {
    hide Next;
    if more != [] {
      var m := |more| - 1;
      RunSequence(y, c, fps, more[..m]);
      NextSequenceSteps(Run(y, c, fps, more[..m]), c, fps, more[m]);
    }
  }

  // No run delivers a dead frame.
  lemma {:induction false} DeadBlocks(y: System, c: nat, fps: nat, more: seq<Action>, n: nat)
    requires Sane(y, c, fps) && Dead(y, c, n) && n > 0 && y.s.sequence + |more| < TWO_64 - 1
    requires RegularRun(y, c, fps, more) && ProperRun(y, c, fps, more)
    requires Run(y, c, fps, more).s.sequence < MAX_FRAMES
    ensures var z := Run(y, c, fps, more); Sane(z, c, fps) && Dead(z, c, n) && z.s.delivery <= n
  {
    hide Sane, Dead, Next, Regular, Proper;
    if more != [] {
      var m := |more| - 1;
      var z := Run(y, c, fps, more[..m]);
      RunSequence(y, c, fps, more[..m]);
      NextSequenceSteps(z, c, fps, more[m]);
      DeadBlocks(y, c, fps, more[..m], n);
      NextKeepsDead(z, c, fps, more[m], n);
    } else {
      DeadIsUndelivered(y, c, n);
    }
  }

  lemma DeadIsUndelivered(x: System, c: nat, n: nat)
    requires Dead(x, c, n)
    ensures x.s.delivery <= n
  {
  }

  // A frame can be delivered if and only if neither it nor one before it that was not delivered is lost or stuck.
  lemma DeliverableExactly(x: System, c: nat, fps: nat, actions: seq<Action>, n: nat)
    requires 0 < fps <= MICROSECONDS && |actions| < MAX_FRAMES
    requires Initial(x, c) && RegularRun(x, c, fps, actions)
    requires n <= Run(x, c, fps, actions).s.sequence
    ensures
      var y := Run(x, c, fps, actions);
      Deliverable(y, c, fps, n) <==> forall m :: y.s.delivery <= m <= n ==> !Dead(y, c, m)
  {
    hide Run, RegularRun, ProperRun, Sane, Dead, ServedTo;
    RunSane(x, c, fps, actions);
    var y := Run(x, c, fps, actions);
    SaneTold(y, c, fps);
    if forall m :: y.s.delivery <= m <= n ==> !Dead(y, c, m) {
      if y.s.delivery <= n {
        var more := ServeAll(y, c, fps, n);
        ServedBounds(y, Run(y, c, fps, more), c, fps, n);
        assert Delivers(y, c, fps, more, n);
      } else {
        RunNothing(y, c, fps);
        assert Delivers(y, c, fps, [], n);
      }
    }
    if more: seq<Action> :| Delivers(y, c, fps, more, n) {
      forall m | y.s.delivery <= m <= n ensures !Dead(y, c, m) {
        if Dead(y, c, m) {
          DeadBlocks(y, c, fps, more, m);
        }
      }
    }
  }

  lemma RunNothing(y: System, c: nat, fps: nat)
    requires fps > 0
    ensures RegularRun(y, c, fps, []) && ProperRun(y, c, fps, []) && Run(y, c, fps, []) == y
  {
  }
}
