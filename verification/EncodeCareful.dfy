/** Which clients never make the driver free a buffer whose frame it still queues. */
module EncodeCareful {
  import opened EncodeInvariant
  import opened EncodeRuns
  import opened EncodeState
  import opened EncodeTables
  import opened Wrappers

  // ---------- Queued frames stay awaited ----------

  predicate QueueAwaited(s: State, c: nat) {
    forall k :: 0 <= k < |s.queue| ==>
      s.queue[k] < |s.buffers| && Mine(s.buffers[s.queue[k]], c) && Awaited(s, s.queue[k])
  }

  // Surfaces stay as used as they were, and none becomes pending.
  predicate Calmer(s: State, t: State) {
    && |t.surfaces| == |s.surfaces|
    && (forall k :: 0 <= k < |t.queue| ==> t.queue[k] in s.queue)
    && forall f :: 0 <= f < |s.surfaces| ==>
         t.surfaces[f].used == s.surfaces[f].used && (t.surfaces[f].pending ==> s.surfaces[f].pending)
  }

  lemma EventCalms(s: State, c: nat, e: Event)
    ensures Calmer(s, Hardware(s, c, e).0)
  {
    hide FirstTagged, FirstAwaiting;
  }

  lemma CalmerTwice(r: State, s: State, t: State)
    requires Calmer(r, s) && Calmer(s, t)
    ensures Calmer(r, t)
  {
  }

  lemma {:induction false} PumpCalms(s: State, c: nat, events: seq<Event>)
    ensures Calmer(s, Pump(s, c, events))
    decreases |events|
  {
    hide Hardware, Calmer;
    if events == [] {
      CalmNothing(s);
    } else {
      EventCalms(s, c, events[0]);
      PumpCalms(Hardware(s, c, events[0]).0, c, events[1..]);
      CalmerTwice(s, Hardware(s, c, events[0]).0, Pump(s, c, events));
    }
  }

  lemma CalmNothing(s: State)
    ensures Calmer(s, s)
  {
  }

  lemma PumpKeepsAwaited(s: State, c: nat, fps: nat, log: seq<Logged>, events: seq<Event>)
    requires Bounded(s, fps) && Inv(s, c, fps, log) && QueueAwaited(s, c)
    ensures QueueAwaited(Pump(s, c, events), c)
  {
    hide Inv, Pump, Awaited;
    PumpCalms(s, c, events);
    PumpReports(s, c, fps, log, events);
    var t := Pump(s, c, events);
    forall k | 0 <= k < |t.queue|
      ensures t.queue[k] < |t.buffers| && Mine(t.buffers[t.queue[k]], c) && Awaited(t, t.queue[k])
    {
      var j :| 0 <= j < |s.queue| && s.queue[j] == t.queue[k];
      PumpAwaits(s, c, fps, log, events, t.queue[k]);
      assert SameFrameLater(s.buffers[t.queue[k]], t.buffers[t.queue[k]]);
    }
  }

  lemma AwaitedIsUnclaimed(s: State, c: nat)
    requires QueueAwaited(s, c)
    ensures Unclaimed(s, c)
  {
    hide Awaited;
  }

  // The surface of the picture that was begun waits for no frame.
  predicate TargetFree(x: System) {
    x.target.Some? && LiveSurface(x.s.surfaces, x.target.value) ==> !x.s.surfaces[x.target.value].pending
  }

  lemma CalmTarget(x: System, y: System)
    requires TargetFree(x) && Calmer(x.s, y.s) && y.target == x.target
    ensures TargetFree(y)
  {
  }

  // ---------- Submissions ----------

  lemma AcceptKeepsAwaited(s: State, c: nat, fps: nat, id: nat, surface: nat)
    requires fps > 0 && QueueAwaited(s, c) && id !in s.queue
    requires Submittable(s.buffers, s.surfaces, c, id, surface) && !s.surfaces[surface].pending
    ensures QueueAwaited(Accept(s, c, fps, id, surface).0, c)
  {
    hide Accept, FrameTag;
    AcceptIs(s, c, fps, id, surface);
    var t := Accept(s, c, fps, id, surface).0;
    forall k | 0 <= k < |t.queue|
      ensures t.queue[k] < |t.buffers| && Mine(t.buffers[t.queue[k]], c) && Awaited(t, t.queue[k])
    {
      if k < |s.queue| {
        assert t.queue[k] == s.queue[k] && Awaited(s, s.queue[k]);
        assert t.buffers[t.queue[k]] == s.buffers[t.queue[k]];
      }
    }
  }

  lemma WithdrawnKeepsAwaited(s: State, t: State, c: nat, id: nat, surface: nat)
    requires Withdrawn(s, t, c, id, surface) && QueueOk(s, c) && QueueAwaited(s, c)
    ensures QueueAwaited(t, c)
  {
    forall k | 0 <= k < |t.queue|
      ensures t.queue[k] < |t.buffers| && Mine(t.buffers[t.queue[k]], c) && Awaited(t, t.queue[k])
    {
      assert t.queue[k] == s.queue[k] && s.queue[k] != id && Awaited(s, s.queue[k]);
      assert t.queue[k] in s.queue;
    }
  }

  lemma SubmitKeepsAwaited(
    s: State, c: nat, fps: nat, log: seq<Logged>, id: nat, surface: nat, events: seq<Event>, taken: bool)
    requires 0 < fps <= MICROSECONDS && s.sequence < MAX_FRAMES && Inv(s, c, fps, log) && Timely(s, fps, events)
    requires QueueAwaited(s, c) && id !in s.queue
    requires LiveSurface(s.surfaces, surface) ==> !s.surfaces[surface].pending
    ensures QueueAwaited(Submit(s, c, fps, id, surface, events, taken).0, c)
  {
    hide Inv, Accept, Pump, PumpLog, Withdraw, FrameTag, Timely, QueueAwaited, QueueOk;
    if Submittable(s.buffers, s.surfaces, c, id, surface) {
      var (accepted, o) := Accept(s, c, fps, id, surface);
      AcceptKeepsAwaited(s, c, fps, id, surface);
      if o.Pass? {
        var pumped := Pump(accepted, c, events);
        AcceptKeeps(s, c, fps, log, id, surface);
        PumpKeepsAwaited(accepted, c, fps, log, events);
        if !taken {
          TimelyTags(s, fps, events);
          AcceptedIsNewest(s, c, fps, id, surface);
          PumpAvoids(accepted, c, events, id, accepted.buffers[id]);
          WithdrawIs(pumped, c, id, surface);
          PumpKeeps(accepted, c, fps, log, events);
          InvQueue(pumped, c, fps, PumpLog(accepted, c, log, events));
          WithdrawnKeepsAwaited(pumped, Withdraw(pumped, id, surface), c, id, surface);
        }
      }
    }
  }

  lemma TimelyTags(s: State, fps: nat, events: seq<Event>)
    requires fps > 0 && Timely(s, fps, events)
    ensures forall k :: 0 <= k < |events| ==> events[k].tag != FrameTag(NextSequence(s.sequence), fps)
  {
  }

  // ---------- Buffers and surfaces ----------

  lemma DeliverKeepsAwaited(s: State, c: nat, id: nat)
    requires QueueAwaited(s, c)
    ensures QueueAwaited(Deliver(s, c, id).0, c) && Calmer(s, Deliver(s, c, id).0)
  {
    var t := Deliver(s, c, id).0;
    forall k | 0 <= k < |t.queue|
      ensures t.queue[k] < |t.buffers| && Mine(t.buffers[t.queue[k]], c) && Awaited(t, t.queue[k])
    {
      assert Awaited(s, s.queue[k]);
    }
  }

  lemma EnterKeepsAwaited(s: State, c: nat, fps: nat, log: seq<Logged>, id: nat, events: seq<Event>)
    requires Bounded(s, fps) && Inv(s, c, fps, log) && QueueAwaited(s, c)
    ensures QueueAwaited(Enter(s, c, id, events).0, c) && Calmer(s, Enter(s, c, id, events).0)
  {
    hide Inv, Pump, Deliver, QueueAwaited, Calmer;
    var pumped := Pump(s, c, events);
    PumpKeepsAwaited(s, c, fps, log, events);
    PumpCalms(s, c, events);
    CalmNothing(s);
    DeliverKeepsAwaited(s, c, id);
    DeliverKeepsAwaited(pumped, c, id);
    CalmerTwice(s, pumped, Deliver(pumped, c, id).0);
  }

  lemma CreateKeepsAwaited(s: State, c: nat, id: nat, coded: bool, capacity: nat)
    requires QueueOk(s, c) && QueueAwaited(s, c)
    ensures QueueAwaited(Create(s, c, id, coded, capacity).0, c) && Calmer(s, Create(s, c, id, coded, capacity).0)
  {
    var t := Create(s, c, id, coded, capacity).0;
    forall k | 0 <= k < |t.queue|
      ensures t.queue[k] < |t.buffers| && Mine(t.buffers[t.queue[k]], c) && Awaited(t, t.queue[k])
    {
      assert Awaited(s, s.queue[k]);
    }
  }

  lemma FreedKeepsAwaited(s: State, c: nat, id: nat)
    requires QueueAwaited(s, c) && id !in s.queue
    ensures QueueAwaited(Freed(s, id), c) && Calmer(s, Freed(s, id))
  {
    var t := Freed(s, id);
    forall k | 0 <= k < |t.queue|
      ensures t.queue[k] < |t.buffers| && Mine(t.buffers[t.queue[k]], c) && Awaited(t, t.queue[k])
    {
      assert t.queue[k] in s.queue && Awaited(s, s.queue[k]);
    }
  }

  lemma UnlinkedKeepsAwaited(s: State, c: nat, id: nat)
    requires QueueAwaited(s, c) && id < |s.buffers| && Linked(s, id) && id !in s.queue
    ensures QueueAwaited(Unlinked(s, s.buffers[id].source.value), c)
    ensures Calmer(s, Unlinked(s, s.buffers[id].source.value))
  {
    var t := Unlinked(s, s.buffers[id].source.value);
    forall k | 0 <= k < |t.queue|
      ensures t.queue[k] < |t.buffers| && Mine(t.buffers[t.queue[k]], c) && Awaited(t, t.queue[k])
    {
      assert t.queue[k] in s.queue && Awaited(s, s.queue[k]);
    }
  }

  lemma WaitedKeepsAwaited(s: State, c: nat, fps: nat, log: seq<Logged>, id: nat, events: seq<Event>)
    requires Bounded(s, fps) && Inv(s, c, fps, log) && QueueAwaited(s, c) && id < |s.buffers|
    ensures var waited := Waited(s, c, id, events); QueueAwaited(waited, c) && Calmer(s, waited)
    ensures
      var waited := Waited(s, c, id, events);
      s.buffers[id].coded && Linked(s, id) ==>
        && id < |waited.buffers| && Linked(waited, id) && waited.buffers[id].source == s.buffers[id].source
        && s.buffers[id].source.Some? && s.buffers[id].source.value < |waited.surfaces|
  {
    hide Inv, Pump, QueueAwaited, Calmer, Reported;
    CalmNothing(s);
    PumpKeepsAwaited(s, c, fps, log, events);
    PumpCalms(s, c, events);
    PumpReports(s, c, fps, log, events);
    if Linked(s, id) && s.surfaces[s.buffers[id].source.value].pending {
      PumpAwaits(s, c, fps, log, events, id);
      LaterSource(s, Pump(s, c, events), id);
    }
  }

  lemma LaterSource(s: State, t: State, id: nat)
    requires Reported(s, t) && id < |s.buffers|
    ensures id < |t.buffers| && t.buffers[id].source == s.buffers[id].source
  {
    assert SameFrameLater(s.buffers[id], t.buffers[id]);
  }

  // When every queued frame is awaited, no queued buffer is freed.
  lemma AwaitedIsOrderly(s: State, c: nat, fps: nat, log: seq<Logged>, id: nat, events: seq<Event>)
    requires Bounded(s, fps) && Inv(s, c, fps, log) && QueueAwaited(s, c)
    ensures Orderly(s, c, id, events)
  {
    hide Inv, Destroy, Awaited, Waited, Reported, Calmer, DestroyLog, Linked;
    DestroyIs(s, c, fps, log, id, events);
    if id in s.queue {
      FreesQueuedExactly(s, c, fps, log, id, events);
    } else if Live(s.buffers, id) && s.buffers[id].context == c {
      WaitedKeepsAwaited(s, c, fps, log, id, events);
      CalmQueue(s, Waited(s, c, id, events), id);
    }
  }

  lemma CalmQueue(s: State, t: State, id: nat)
    requires Calmer(s, t)
    ensures id in t.queue ==> id in s.queue
  {
  }

  lemma DestroyKeepsAwaited(s: State, c: nat, fps: nat, log: seq<Logged>, id: nat, events: seq<Event>)
    requires Bounded(s, fps) && Inv(s, c, fps, log) && QueueAwaited(s, c)
    ensures var t := Destroy(s, c, id, events).0; QueueAwaited(t, c) && Calmer(s, t)
  {
    hide Inv, Destroy, QueueAwaited, Waited, Reported, Calmer, DestroyLog, Linked, Freed, Unlinked;
    var (t, o) := Destroy(s, c, id, events);
    CalmNothing(s);
    AwaitedIsOrderly(s, c, fps, log, id, events);
    DestroyIs(s, c, fps, log, id, events);
    if Live(s.buffers, id) && s.buffers[id].context == c {
      var waited := Waited(s, c, id, events);
      WaitedKeepsAwaited(s, c, fps, log, id, events);
      if o.Pass? {
        if s.buffers[id].coded && Linked(s, id) {
          var unlinked := Unlinked(waited, waited.buffers[id].source.value);
          UnlinkedKeepsAwaited(waited, c, id);
          UnlinkedQueue(waited, id);
          FreedKeepsAwaited(unlinked, c, id);
          CalmerTwice(s, waited, unlinked);
          CalmerTwice(s, unlinked, t);
        } else {
          FreedKeepsAwaited(waited, c, id);
          CalmerTwice(s, waited, t);
        }
      }
    }
  }

  lemma UnlinkedQueue(s: State, id: nat)
    requires id < |s.buffers| && Linked(s, id)
    ensures Unlinked(s, s.buffers[id].source.value).queue == s.queue
  {
  }

  // ---------- Careful clients ----------

  // The surface waits for a frame of context c, or is the target of its picture.
  predicate Involved(x: System, c: nat, f: nat)
    requires f < |x.s.surfaces|
  {
    (x.s.surfaces[f].pending && NamesOwn(x.s.surfaces[f], x.s.buffers, c)) || x.target == Some(f)
  }

  // Clients submit no buffer whose frame is queued, and use no surface for two contexts' pictures at a time.
  predicate Careful(x: System, c: nat, fps: nat, a: Action)
    requires fps > 0
  {
    && (a.Submission? ==> Timely(x.s, fps, a.events) && a.id !in x.s.queue)
    && (a.Elsewhere? ==>
          forall f :: 0 <= f < |x.s.surfaces| && Involved(x, c, f) ==>
            f < |a.surfaces| && a.surfaces[f] == x.s.surfaces[f])
  }

  predicate CarefulRun(x: System, c: nat, fps: nat, actions: seq<Action>)
    requires fps > 0
  {
    actions == [] ||
    (CarefulRun(x, c, fps, actions[..|actions| - 1]) &&
     Careful(Run(x, c, fps, actions[..|actions| - 1]), c, fps, actions[|actions| - 1]))
  }

  lemma ElsewhereKeepsAwaited(x: System, c: nat, fps: nat, t: State)
    requires QueueOk(x.s, c) && QueueAwaited(x.s, c) && TargetFree(x)
    requires Apart(x.s, t, c) && t == x.s.(buffers := t.buffers, surfaces := t.surfaces)
    requires forall f :: 0 <= f < |x.s.surfaces| && Involved(x, c, f) ==> t.surfaces[f] == x.s.surfaces[f]
    ensures QueueAwaited(t, c) && TargetFree(x.(s := t))
  {
    forall k | 0 <= k < |t.queue|
      ensures t.queue[k] < |t.buffers| && Mine(t.buffers[t.queue[k]], c) && Awaited(t, t.queue[k])
    {
      var id := x.s.queue[k];
      assert id in x.s.queue && Awaited(x.s, id);
      assert t.buffers[id] == x.s.buffers[id];
      assert Involved(x, c, x.s.buffers[id].source.value);
    }
  }

  lemma BeginKeepsAwaited(s: State, c: nat, fps: nat, log: seq<Logged>, f: nat, events: seq<Event>)
    requires Bounded(s, fps) && Inv(s, c, fps, log) && QueueAwaited(s, c)
    ensures var t := Begin(s, c, f, events).0; QueueAwaited(t, c) && Calmer(s, t)
  {
    hide Inv, Begin, Pump, QueueAwaited, Calmer, Reported, BeginLog;
    CalmNothing(s);
    BeginKeeps(s, c, fps, log, f, events);
    PumpKeepsAwaited(s, c, fps, log, events);
    PumpCalms(s, c, events);
  }

  lemma CarefulKeepsAwaited(x: System, c: nat, fps: nat, a: Action)
    requires 0 < fps <= MICROSECONDS && x.s.sequence < MAX_FRAMES
    requires Inv(x.s, c, fps, x.log) && QueueAwaited(x.s, c) && TargetFree(x) && Careful(x, c, fps, a)
    ensures Regular(x, c, fps, a)
    ensures QueueAwaited(Next(x, c, fps, a).s, c) && TargetFree(Next(x, c, fps, a))
  {
    hide Inv, QueueAwaited, Calmer, Timely, Submit, SubmitLog, Hardware, LogAfter, Enter, EnterLog, Deliver, Begin,
      BeginLog, Create, Destroy, DestroyLog, Orderly, Apart, WaitingApart, Unclaimed, AfterTurn, Append,
      Reported, Involved;
    InvQueue(x.s, c, fps, x.log);
    match a
    case BeginPicture(surface, events) =>
      if x.target.None? {
        BeginKeeps(x.s, c, fps, x.log, surface, events);
        BeginKeepsAwaited(x.s, c, fps, x.log, surface, events);
      }
    case Submission(id, events, taken) =>
      if x.target.Some? {
        SubmitKeepsAwaited(x.s, c, fps, x.log, id, x.target.value, events, taken);
      }
    case Report(e) =>
      PumpOne(x.s, c, e);
      PumpKeepsAwaited(x.s, c, fps, x.log, [e]);
      PumpCalms(x.s, c, [e]);
      CalmTarget(x, Next(x, c, fps, a));
    case Map(thread, id, events) =>
      EnterKeepsAwaited(x.s, c, fps, x.log, id, events);
      CalmNothing(x.s);
      CalmTarget(x, Next(x, c, fps, a));
    case Wake(thread) =>
      if thread in x.waiting {
        DeliverKeepsAwaited(x.s, c, x.waiting[thread].buffer);
        CalmNothing(x.s);
        CalmTarget(x, Next(x, c, fps, a));
      }
    case CreateBuffer(id, coded, capacity) =>
      CreateKeepsAwaited(x.s, c, id, coded, capacity);
      CalmTarget(x, Next(x, c, fps, a));
    case DestroyBuffer(id, events) =>
      AwaitedIsOrderly(x.s, c, fps, x.log, id, events);
      DestroyKeepsAwaited(x.s, c, fps, x.log, id, events);
      CalmTarget(x, Next(x, c, fps, a));
    case Elsewhere(buffers, surfaces, _) =>
      var t := x.s.(buffers := buffers, surfaces := surfaces);
      if Apart(x.s, t, c) {
        ElsewhereKeepsAwaited(x, c, fps, t);
      }
      AwaitedIsUnclaimed(Next(x, c, fps, a).s, c);
  }

  lemma PumpOne(s: State, c: nat, e: Event)
    ensures Pump(s, c, [e]) == Hardware(s, c, e).0
  {
    assert [e][1..] == [];
    assert Pump(Hardware(s, c, e).0, c, [e][1..]) == Hardware(s, c, e).0;
  }

  lemma {:induction false} CarefulRunKeeps(x: System, c: nat, fps: nat, actions: seq<Action>)
    requires 0 < fps <= MICROSECONDS && |actions| <= MAX_FRAMES
    requires Initial(x, c) && CarefulRun(x, c, fps, actions)
    ensures RegularRun(x, c, fps, actions)
    ensures var y := Run(x, c, fps, actions); QueueAwaited(y.s, c) && TargetFree(y)
  {
    hide Next, Regular, Careful, Inv;
    if actions != [] {
      var n := |actions| - 1;
      CarefulRunKeeps(x, c, fps, actions[..n]);
      RunKeeps(x, c, fps, actions[..n]);
      CarefulKeepsAwaited(Run(x, c, fps, actions[..n]), c, fps, actions[n]);
    }
  }

  // In a run of careful clients the driver never frees a buffer whose frame is queued: the surface of every queued
  // frame is pending and waits for that buffer, so that destroying the buffer waits for the frame.
  lemma CarefulRunFreesNone(
    x: System, c: nat, fps: nat, actions: seq<Action>, id: nat, events: seq<Event>)
    requires 0 < fps <= MICROSECONDS && |actions| <= MAX_FRAMES
    requires Initial(x, c) && CarefulRun(x, c, fps, actions)
    ensures
      var s := Run(x, c, fps, actions).s;
      && (forall k :: 0 <= k < |s.queue| ==> Awaited(s, s.queue[k]))
      && (Destroy(s, c, id, events).1.Pass? ==> id !in Destroy(s, c, id, events).0.queue)
  {
    hide Run, Inv, RegularRun, CarefulRun, Destroy, Awaited;
    CarefulRunKeeps(x, c, fps, actions);
    RunKeeps(x, c, fps, actions);
    var y := Run(x, c, fps, actions);
    AwaitedIsOrderly(y.s, c, fps, y.log, id, events);
  }
}
