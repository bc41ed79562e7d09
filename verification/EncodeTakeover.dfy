/** A client that waits in one context and is handed the frame of another. */
module EncodeTakeover {
  import opened EncodeContexts
  import opened EncodeDeliverable
  import opened EncodeExamples
  import opened EncodeInvariant
  import opened EncodeRuns
  import opened EncodeState
  import opened EncodeTables
  import opened EncodeWhole
  import opened Wrappers

  function Two(a: System, b: System): map<nat, Session> {
    map[0 := Session(a, FPS), 1 := Session(b, FPS)]
  }

  lemma {:induction false} StepsFirst(w: map<nat, Session>, r: Region, rest: seq<Region>)
    ensures Steps(w, [r] + rest) == Steps(Step(w, r), rest)
    decreases |rest|
  {
    hide Step;
    if rest == [] {
      assert [r] + rest == [r] && [r][..0] == [];
    } else {
      var n := |rest| - 1;
      assert ([r] + rest)[..n + 1] == [r] + rest[..n];
      StepsFirst(w, r, rest[..n]);
    }
  }

  // A step of context c, seen by both.
  lemma StepTwo(a: System, b: System, c: nat, action: Action, y: System)
    requires c < 2 && Taker(Two(a, b), Region(c, action)) == c
    requires Next(if c == 0 then a else b, c, FPS, action) == y
    ensures Step(Two(a, b), Region(c, action)) ==
            if c == 0 then Two(y, WithTables(b, y)) else Two(WithTables(a, y), y)
  {
    hide Next, WithTables, Taker;
    var w := Two(a, b);
    var t := Step(w, Region(c, action));
    var u := if c == 0 then Two(y, WithTables(b, y)) else Two(WithTables(a, y), y);
    assert t.Keys == w.Keys == u.Keys == {0, 1};
    assert t[0] == u[0] && t[1] == u[1];
    assert forall k :: k in t ==> k == 0 || k == 1;
  }

  // The first region is one of context 0.
  lemma First(a: System, b: System, action: Action, y: System, rest: seq<Region>)
    requires Taker(Two(a, b), Region(0, action)) == 0 && Next(a, 0, FPS, action) == y
    ensures Steps(Two(a, b), [Region(0, action)] + rest) == Steps(Two(y, WithTables(b, y)), rest)
  {
    hide Next, Two, Step, Steps, WithTables, Taker;
    StepsFirst(Two(a, b), Region(0, action), rest);
    StepTwo(a, b, 0, action, y);
  }

  // The first region is one of context 1.
  lemma Second(a: System, b: System, action: Action, y: System, rest: seq<Region>)
    requires Taker(Two(a, b), Region(1, action)) == 1 && Next(b, 1, FPS, action) == y
    ensures Steps(Two(a, b), [Region(1, action)] + rest) == Steps(Two(WithTables(a, y), y), rest)
  {
    hide Next, Two, Step, Steps, WithTables, Taker;
    StepsFirst(Two(a, b), Region(1, action), rest);
    StepTwo(a, b, 1, action, y);
  }

  // Context 0 loses its first frame, which the hardware refuses; a client waits for its second one, which is complete.
  const REFUSED := ONE.(
    s := State([], [CODED.(source := Some(0))], [FILLED.(codedBuffer := Some(0))], 1, 1), owners := [0])

  const AGAIN := ONE.(s := State([0], [Waiting(2, 33334, 0)], [Pending(0)], 2, 1), owners := [0, 0])

  const STORED := AGAIN.(
    s := AGAIN.s.(queue := [], buffers := [Done(2, 33334, 0)]), log := [Logged(33334, [2], true, false)])

  const SETTLED := STORED.(
    s := STORED.s.(buffers := [Done(2, 33334, 0).(inputDone := true)], surfaces := [FILLED.(codedBuffer := Some(0))]),
    log := STORED.log + [Read(33334)])

  const SLEEPING := SETTLED.(waiting := map[7 := Waiter(0, 1)])

  // The buffer is destroyed under that client.
  const GONE := SLEEPING.(s := SLEEPING.s.(buffers := [FREE], surfaces := [FILLED]))

  // Context 1 creates one in its slot, and submits it.
  const OTHER := ONE.(waiting := map[7 := Waiter(0, 1)])
  const FOREIGN := CODED.(context := 1)
  const CREATED := OTHER.(s := OTHER.s.(buffers := [FOREIGN]))

  const OFFERED := OTHER.(
    s := State([0], [Waiting(1, 1, 0).(context := 1)], [Pending(0)], 1, 1), owners := [0])

  const TAKEOVER := [
    Region(0, BeginPicture(0, [])), Region(0, Submission(0, [], false)),
    Region(0, BeginPicture(0, [])), Region(0, Submission(0, [], true)),
    Region(0, Report(Packet(33334, [2], true, false))), Region(0, Report(InputDone(33334))),
    Region(0, Map(7, 0, [])), Region(0, DestroyBuffer(0, [])),
    Region(1, CreateBuffer(0, true, 8)), Region(1, BeginPicture(0, [])), Region(1, Submission(0, [], true)),
    Region(0, Wake(7))]

  lemma AcceptedOne()
    ensures Accept(ONE.s, 0, FPS, 0, 0) == (WAITING.s, Pass)
  {
    hide FrameTag, Accept;
    FirstTags();
    AcceptIs(ONE.s, 0, FPS, 0, 0);
    var t := Accept(ONE.s, 0, FPS, 0, 0).0;
    assert t.queue == [0] && t.surfaces == [Pending(0)];
    assert t.buffers == [Cleared(CODED, 0).(sequence := 1, tag := 1)];
  }

  lemma WithdrawnOne()
    ensures Withdraw(WAITING.s, 0, 0) == REFUSED.s
  {
    assert WAITING.s.queue[..0] == [];
  }

  lemma RefusedStep()
    ensures Next(ONE.(target := Some(0)), 0, FPS, Submission(0, [], false)) == REFUSED
  {
    hide Accept, Withdraw;
    AcceptedOne();
    WithdrawnOne();
    assert Submittable(ONE.s.buffers, ONE.s.surfaces, 0, 0, 0);
  }

  lemma AgainStep()
    ensures Next(REFUSED.(target := Some(0)), 0, FPS, Submission(0, [], true)) == AGAIN
  {
    hide FrameTag;
    FirstTags();
    SubmitNext(REFUSED.(target := Some(0)), 0, 0, 0, 33334);
  }

  lemma StoredStep()
    ensures Next(AGAIN, 0, FPS, Report(Packet(33334, [2], true, false))) == STORED
  {
    assert FirstTagged(AGAIN.s.queue, AGAIN.s.buffers, 33334) == Some(0);
    assert Remove(AGAIN.s.queue, 0) == [];
    assert Filled(Waiting(2, 33334, 0), [2], true, false) == Done(2, 33334, 0);
  }

  lemma SettledStep()
    ensures Next(STORED, 0, FPS, Report(InputDone(33334))) == SETTLED
  {
    assert FirstAwaiting(STORED.s.buffers, 0, 33334) == Some(0);
  }

  lemma SleepingStep()
    ensures Next(SETTLED, 0, FPS, Map(7, 0, [])) == SLEEPING
  {
  }

  lemma GoneStep()
    ensures Next(SLEEPING, 0, FPS, DestroyBuffer(0, [])) == GONE
  {
  }

  lemma CreatedStep()
    ensures Next(OTHER.(s := OTHER.s.(buffers := [FREE])), 1, FPS, CreateBuffer(0, true, 8)) == CREATED
  {
  }

  // Nothing is wrong with the submission but for the client that waits for the slot.
  lemma OfferedStep()
    ensures Next(CREATED.(target := Some(0)), 1, FPS, Submission(0, [], true)) == OFFERED
    ensures Rude(CREATED.(target := Some(0)), 1, FPS, Submission(0, [], true))
  {
    hide FrameTag;
    FirstTags();
    SubmitNext(CREATED.(target := Some(0)), 1, 0, 0, 1);
    assert OFFERED.waiting[7].buffer == 0;
    assert WaitedFor(OFFERED.waiting, 0);
    assert Own(OFFERED.s.buffers[0], 1) && OFFERED.s.buffers[0].sequence == 1;
  }

  lemma TakenStep(a: System)
    requires a.waiting == OFFERED.waiting && a.s.buffers == OFFERED.s.buffers
    ensures Steps(Two(a, OFFERED), [Region(0, Wake(7))])[1].x.deliveries == [Delivery(0, 1, [], 0, false, false, false)]
  {
    var w, r := Two(a, OFFERED), Region(0, Wake(7));
    assert [r][..0] == [];
    assert Steps(w, [r]) == Step(w, r);
    assert Taker(w, r) == 1;
  }

  lemma FirstContext(rest: seq<Region>)
    ensures Steps(Two(ONE, ONE), TAKEOVER[..8] + rest) == Steps(Two(GONE, WithTables(ONE, GONE)), rest)
  {
    hide Next, Steps;
    var r := TAKEOVER;
    BeginIdle(ONE, 0, 0);
    RefusedStep();
    BeginIdle(REFUSED, 0, 0);
    AgainStep();
    StoredStep();
    SettledStep();
    SleepingStep();
    GoneStep();
    var r7 := [r[7]] + rest;
    var r6 := [r[6]] + r7;
    var r5 := [r[5]] + r6;
    var r4 := [r[4]] + r5;
    var r3 := [r[3]] + r4;
    var r2 := [r[2]] + r3;
    var r1 := [r[1]] + r2;
    assert r[..8] + rest == [r[0]] + r1;
    var x, y := ONE.(target := Some(0)), REFUSED.(target := Some(0));
    First(ONE, ONE, r[0].action, x, r1);
    First(x, WithTables(ONE, x), r[1].action, REFUSED, r2);
    First(REFUSED, WithTables(ONE, REFUSED), r[2].action, y, r3);
    First(y, WithTables(ONE, y), r[3].action, AGAIN, r4);
    First(AGAIN, WithTables(ONE, AGAIN), r[4].action, STORED, r5);
    First(STORED, WithTables(ONE, STORED), r[5].action, SETTLED, r6);
    First(SETTLED, WithTables(ONE, SETTLED), r[6].action, SLEEPING, r7);
    First(SLEEPING, WithTables(ONE, SLEEPING), r[7].action, GONE, rest);
  }

  lemma BothInitial()
    ensures Start(Two(ONE, ONE))
  {
    var w := Two(ONE, ONE);
    assert Initial(ONE, 0) && Initial(ONE, 1);
    assert forall c :: c in w ==> c == 0 || c == 1;
  }

  lemma SecondContext()
    ensures
      Steps(Two(GONE, WithTables(ONE, GONE)), TAKEOVER[8..])[1].x.deliveries ==
      [Delivery(0, 1, [], 0, false, false, false)]
  {
    hide Next, Steps;
    var r := TAKEOVER;
    var b := OTHER.(s := OTHER.s.(buffers := [FREE]));
    var target := CREATED.(target := Some(0));
    var r10 := [r[10]] + [r[11]];
    var r9 := [r[9]] + r10;
    assert r[8..] == [r[8]] + r9;
    assert WithTables(ONE, GONE) == b;
    CreatedStep();
    BeginIdle(CREATED, 1, 0);
    OfferedStep();
    var a1 := WithTables(GONE, CREATED);
    var a2 := WithTables(a1, target);
    Second(GONE, b, r[8].action, CREATED, r9);
    Second(a1, CREATED, r[9].action, target, r10);
    Second(a2, target, r[10].action, OFFERED, [r[11]]);
    TakenStep(WithTables(a2, OFFERED));
  }

  // A client of context 0 waits for a buffer that is destroyed; context 1 creates and submits one in its slot. When the
  // client wakes, it takes the first delivery of context 1, whose frame is not complete.
  lemma TurnTakenOver()
    ensures Start(Two(ONE, ONE))
    ensures Steps(Two(ONE, ONE), TAKEOVER)[1].x.deliveries == [Delivery(0, 1, [], 0, false, false, false)]
  {
    hide Next, Steps, Start, Two, WithTables;
    BothInitial();
    FirstContext(TAKEOVER[8..]);
    assert TAKEOVER[..8] + TAKEOVER[8..] == TAKEOVER;
    SecondContext();
  }
}
