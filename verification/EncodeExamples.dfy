/** Runs of an encode context in which clients get in the driver's way. */
module EncodeExamples {
  import opened EncodeBlocked
  import opened EncodeDeliverable
  import opened EncodeDelivery
  import opened EncodeInvariant
  import opened EncodeRuns
  import opened EncodeState
  import opened EncodeTables
  import opened EncodeWhole
  import opened Limits
  import opened Wrappers

  const FPS := 30

  // A new coded buffer of context 0, and a surface with a picture in it.
  const CODED := Buffer(true, true, 0, 8, false, false, false, [], 0, 0, 0, None, false, false)
  const FILLED := Surface(true, true, false, None)

  function Fresh(buffers: seq<Buffer>, surfaces: seq<Surface>): System {
    System(State([], buffers, surfaces, 0, 1), None, map[], [], [], [])
  }

  // The buffer and surface of a frame just submitted.
  function Waiting(n: nat, tag: nat, f: nat): Buffer {
    CODED.(sequence := n, tag := tag, source := Some(f))
  }

  function Pending(id: nat): Surface {
    FILLED.(pending := true, codedBuffer := Some(id))
  }

  // A run and one more step, told from its first step on.
  lemma {:induction false} RunFirst(x: System, c: nat, fps: nat, a: Action, rest: seq<Action>)
    ensures Run(x, c, fps, [a] + rest) == Run(Next(x, c, fps, a), c, fps, rest)
    decreases |rest|
  {
    hide Next;
    if rest == [] {
      assert [a] + rest == [a] && [a][..0] == [];
    } else {
      var n := |rest| - 1;
      assert ([a] + rest)[..n + 1] == [a] + rest[..n];
      RunFirst(x, c, fps, a, rest[..n]);
    }
  }

  // The first step of a run leads to y.
  lemma Goes(x: System, a: Action, y: System, rest: seq<Action>)
    requires Next(x, 0, FPS, a) == y
    ensures Run(x, 0, FPS, [a] + rest) == Run(y, 0, FPS, rest)
  {
    hide Next;
    RunFirst(x, 0, FPS, a, rest);
  }

  lemma FirstTags()
    ensures FrameTag(1, FPS) == 1 && FrameTag(2, FPS) == 33334 && FrameTag(3, FPS) == 66667
  {
  }

  lemma BeginIdle(x: System, c: nat, f: nat)
    requires x.target.None? && f < |x.s.surfaces| && x.s.surfaces[f].used && x.s.surfaces[f].ready
    requires !x.s.surfaces[f].pending
    ensures Next(x, c, FPS, BeginPicture(f, [])) == x.(target := Some(f))
  {
  }

  // A frame that is accepted.
  lemma SubmitNext(x: System, c: nat, id: nat, f: nat, tag: nat)
    requires x.target == Some(f) && x.s.sequence < 1000 && tag == FrameTag(x.s.sequence + 1, FPS) && tag != 0
    requires Submittable(x.s.buffers, x.s.surfaces, c, id, f) && id !in x.s.queue && |x.s.queue| < MAX_SURFACES
    ensures
      var n := x.s.sequence + 1;
      Next(x, c, FPS, Submission(id, [], true)) ==
      x.(s := x.s.(queue := x.s.queue + [id], sequence := n,
                   buffers := x.s.buffers[id := Cleared(x.s.buffers[id], f).(sequence := n, tag := tag)],
                   surfaces := x.s.surfaces[f := x.s.surfaces[f].(pending := true, codedBuffer := Some(id))]),
         target := None, owners := x.owners + [id])
  {
    hide FrameTag;
  }

  // ---------- A queued buffer is freed ----------

  const TWO_SURFACES := Fresh([CODED], [FILLED, FILLED])

  const RESUBMITTED := [
    BeginPicture(0, []), Submission(0, [], true), BeginPicture(1, []), Submission(0, [], true), DestroyBuffer(0, [])]

  const QUEUED := TWO_SURFACES.(s := State([0], [Waiting(1, 1, 0)], [Pending(0), FILLED], 1, 1), owners := [0])

  const UNLINKED := TWO_SURFACES.(s := State([0], [Waiting(0, 0, 1)], [Pending(0), FILLED], 2, 1), owners := [0, 0])

  lemma QueuedStep()
    ensures Next(TWO_SURFACES.(target := Some(0)), 0, FPS, Submission(0, [], true)) == QUEUED
  {
    hide FrameTag;
    FirstTags();
    SubmitNext(TWO_SURFACES.(target := Some(0)), 0, 0, 0, 1);
  }

  lemma UnlinkedStep()
    ensures Next(QUEUED.(target := Some(1)), 0, FPS, Submission(0, [], true)) == UNLINKED
  {
    hide FrameTag;
    FirstTags();
  }

  lemma FreedStep()
    ensures Next(UNLINKED, 0, FPS, DestroyBuffer(0, [])) == UNLINKED.(s := UNLINKED.s.(buffers := [FREE]))
  {
  }

  lemma FreedRun(rest: seq<Action>)
    ensures
      var a := RESUBMITTED;
      Run(TWO_SURFACES, 0, FPS, [a[0]] + ([a[1]] + ([a[2]] + ([a[3]] + ([a[4]] + rest))))) ==
      Run(UNLINKED.(s := UNLINKED.s.(buffers := [FREE])), 0, FPS, rest)
  {
    hide Next, Run;
    var a, x := RESUBMITTED, TWO_SURFACES;
    BeginIdle(x, 0, 0);
    QueuedStep();
    BeginIdle(QUEUED, 0, 1);
    UnlinkedStep();
    FreedStep();
    Goes(x, a[0], x.(target := Some(0)), [a[1]] + ([a[2]] + ([a[3]] + ([a[4]] + rest))));
    Goes(x.(target := Some(0)), a[1], QUEUED, [a[2]] + ([a[3]] + ([a[4]] + rest)));
    Goes(QUEUED, a[2], QUEUED.(target := Some(1)), [a[3]] + ([a[4]] + rest));
    Goes(QUEUED.(target := Some(1)), a[3], UNLINKED, [a[4]] + rest);
    Goes(UNLINKED, a[4], UNLINKED.(s := UNLINKED.s.(buffers := [FREE])), rest);
  }

  // A buffer that is submitted again from another surface while its frame is queued is linked to neither surface;
  // destroying it frees it at once, and the queue still names it.
  lemma FreedWhileQueued()
    ensures Initial(TWO_SURFACES, 0)
    ensures var s := Run(TWO_SURFACES, 0, FPS, RESUBMITTED).s; s.queue == [0] && s.buffers == [FREE]
  {
    hide Next, Run;
    var a := RESUBMITTED;
    FreedRun([]);
    RunEmpty(UNLINKED.(s := UNLINKED.s.(buffers := [FREE])));
    assert a == [a[0]] + ([a[1]] + ([a[2]] + ([a[3]] + ([a[4]] + []))));
  }

  // ---------- A frame is handed out before it is complete ----------

  const TWO_BUFFERS := Fresh([CODED, CODED], [FILLED, FILLED])

  const SUBMITTED := TWO_BUFFERS.(
    s := State([0, 1], [Waiting(1, 1, 0), Waiting(2, 33334, 1)], [Pending(0), Pending(1)], 2, 1), owners := [0, 1])

  lemma SubmittedRun(rest: seq<Action>)
    ensures
      Run(TWO_BUFFERS, 0, FPS,
          [BeginPicture(0, [])] + ([Submission(0, [], true)] + ([BeginPicture(1, [])] + ([Submission(1, [], true)] +
          rest)))) == Run(SUBMITTED, 0, FPS, rest)
  {
    hide Next, FrameTag;
    FirstTags();
    var x := TWO_BUFFERS;
    var y := x.(s := State([0], [Waiting(1, 1, 0), CODED], [Pending(0), FILLED], 1, 1), owners := [0]);
    BeginIdle(x, 0, 0);
    SubmitNext(x.(target := Some(0)), 0, 0, 0, 1);
    BeginIdle(y, 0, 1);
    SubmitNext(y.(target := Some(1)), 0, 1, 1, 33334);
    Goes(x, BeginPicture(0, []), x.(target := Some(0)),
         [Submission(0, [], true)] + ([BeginPicture(1, [])] + ([Submission(1, [], true)] + rest)));
    Goes(x.(target := Some(0)), Submission(0, [], true), y, [BeginPicture(1, [])] + ([Submission(1, [], true)] + rest));
    Goes(y, BeginPicture(1, []), y.(target := Some(1)), [Submission(1, [], true)] + rest);
    Goes(y.(target := Some(1)), Submission(1, [], true), SUBMITTED, rest);
  }

  function Done(n: nat, tag: nat, f: nat): Buffer
    requires n < 256
  {
    Waiting(n, tag, f).(ready := true, packets := 1, contents := [n])
  }

  const COMPLETE := SUBMITTED.(
    s := State([], [Done(1, 1, 0).(inputDone := true), Done(2, 33334, 1)],
               [FILLED.(codedBuffer := Some(0)), Pending(1)], 2, 1),
    log := [Logged(1, [1], true, false), Read(1), Logged(33334, [2], true, false)])

  const FIRST_DONE := SUBMITTED.(
    s := State([1], [Done(1, 1, 0), Waiting(2, 33334, 1)], [Pending(0), Pending(1)], 2, 1),
    log := [Logged(1, [1], true, false)])

  const FIRST_SETTLED := FIRST_DONE.(
    s := State([1], [Done(1, 1, 0).(inputDone := true), Waiting(2, 33334, 1)],
               [FILLED.(codedBuffer := Some(0)), Pending(1)], 2, 1),
    log := [Logged(1, [1], true, false), Read(1)])

  lemma FirstPacket()
    ensures Next(SUBMITTED, 0, FPS, Report(Packet(1, [1], true, false))) == FIRST_DONE
  {
    var s := SUBMITTED.s;
    assert FirstTagged(s.queue, s.buffers, 1) == Some(0);
    assert s.queue == [0, 1] && Remove([0, 1], 0) == [1];
    assert Filled(Waiting(1, 1, 0), [1], true, false) == Done(1, 1, 0);
    assert StoreAt(s, 0, [1], true, false).0.buffers == FIRST_DONE.s.buffers;
    assert StoreAt(s, 0, [1], true, false).0.surfaces == FIRST_DONE.s.surfaces;
  }

  lemma FirstInput()
    ensures Next(FIRST_DONE, 0, FPS, Report(InputDone(1))) == FIRST_SETTLED
  {
    assert FirstAwaiting(FIRST_DONE.s.buffers, 0, 1) == Some(0);
  }

  lemma SecondPacket()
    ensures Next(FIRST_SETTLED, 0, FPS, Report(Packet(33334, [2], true, false))) == COMPLETE
  {
    var s := FIRST_SETTLED.s;
    assert FirstTagged(s.queue, s.buffers, 33334) == Some(0);
    assert Remove(s.queue, 0) == [];
    assert Filled(Waiting(2, 33334, 1), [2], true, false) == Done(2, 33334, 1);
    assert StoreAt(s, 0, [2], true, false).0.buffers == COMPLETE.s.buffers;
    assert StoreAt(s, 0, [2], true, false).0.surfaces == COMPLETE.s.surfaces;
  }

  lemma CompleteRun(rest: seq<Action>)
    ensures
      Run(SUBMITTED, 0, FPS,
          [Report(Packet(1, [1], true, false))] + ([Report(InputDone(1))] +
          ([Report(Packet(33334, [2], true, false))] + rest))) == Run(COMPLETE, 0, FPS, rest)
  {
    hide Next;
    FirstPacket();
    FirstInput();
    SecondPacket();
    Goes(SUBMITTED, Report(Packet(1, [1], true, false)), FIRST_DONE,
         [Report(InputDone(1))] + ([Report(Packet(33334, [2], true, false))] + rest));
    Goes(FIRST_DONE, Report(InputDone(1)), FIRST_SETTLED, [Report(Packet(33334, [2], true, false))] + rest);
    Goes(FIRST_SETTLED, Report(Packet(33334, [2], true, false)), COMPLETE, rest);
  }

  // Two clients wait for the second buffer; the first is delivered to a third client, and the second to one of them.
  const WAITED := COMPLETE.(waiting := map[1 := Waiter(1, 1), 2 := Waiter(1, 1)])

  const FIRST_HANDED := WAITED.(
    s := COMPLETE.s.(buffers := [COMPLETE.s.buffers[0].(delivered := true), COMPLETE.s.buffers[1]], delivery := 2),
    deliveries := [Delivery(0, 1, [1], 1, true, false, false)])

  const BOTH_HANDED := FIRST_HANDED.(
    s := FIRST_HANDED.s.(
      buffers := [FIRST_HANDED.s.buffers[0], FIRST_HANDED.s.buffers[1].(delivered := true)], delivery := 3),
    waiting := map[2 := Waiter(1, 1)],
    deliveries := [Delivery(0, 1, [1], 1, true, false, false), Delivery(1, 2, [2], 1, true, false, false)])

  lemma WaitSteps()
    ensures Next(COMPLETE, 0, FPS, Map(1, 1, [])) == COMPLETE.(waiting := map[1 := Waiter(1, 1)])
    ensures Next(COMPLETE.(waiting := map[1 := Waiter(1, 1)]), 0, FPS, Map(2, 1, [])) == WAITED
  {
    assert map[1 := Waiter(1, 1)][2 := Waiter(1, 1)] == map[1 := Waiter(1, 1), 2 := Waiter(1, 1)];
  }

  lemma FirstHanded()
    ensures Next(WAITED, 0, FPS, Map(3, 0, [])) == FIRST_HANDED
  {
    assert WAITED.waiting - {3} == WAITED.waiting;
  }

  lemma SecondHanded()
    ensures Next(FIRST_HANDED, 0, FPS, Wake(1)) == BOTH_HANDED
  {
    assert WAITED.waiting - {1} == map[2 := Waiter(1, 1)];
  }

  lemma HandedRun(rest: seq<Action>)
    ensures
      Run(COMPLETE, 0, FPS, [Map(1, 1, [])] + ([Map(2, 1, [])] + ([Map(3, 0, [])] + ([Wake(1)] + rest)))) ==
      Run(BOTH_HANDED, 0, FPS, rest)
  {
    hide Next;
    var one := COMPLETE.(waiting := map[1 := Waiter(1, 1)]);
    WaitSteps();
    FirstHanded();
    SecondHanded();
    Goes(COMPLETE, Map(1, 1, []), one, [Map(2, 1, [])] + ([Map(3, 0, [])] + ([Wake(1)] + rest)));
    Goes(one, Map(2, 1, []), WAITED, [Map(3, 0, [])] + ([Wake(1)] + rest));
    Goes(WAITED, Map(3, 0, []), FIRST_HANDED, [Wake(1)] + rest);
    Goes(FIRST_HANDED, Wake(1), BOTH_HANDED, rest);
  }

  const REUSED := BOTH_HANDED.(
    s := BOTH_HANDED.s.(queue := [1], sequence := 3, buffers := [BOTH_HANDED.s.buffers[0], Waiting(3, 66667, 0)],
                        surfaces := [Pending(1), Pending(1)]),
    owners := [0, 1, 1])

  lemma ReusedStep()
    ensures Next(BOTH_HANDED.(target := Some(0)), 0, FPS, Submission(1, [], true)) == REUSED
  {
    hide FrameTag;
    FirstTags();
    SubmitNext(BOTH_HANDED.(target := Some(0)), 0, 1, 0, 66667);
  }

  lemma ReusedAlive()
    ensures NothingDead(REUSED, 0)
  {
    assert WaitedFor(REUSED.waiting, 1) by {
      assert REUSED.waiting[2].buffer == 1;
    }
    assert Own(REUSED.s.buffers[1], 0) && REUSED.s.buffers[1].sequence == 3;
  }

  // The second buffer is submitted again under the client that still waits, which is rude, and the client takes it.
  lemma EarlyStep()
    ensures Rude(BOTH_HANDED.(target := Some(0)), 0, FPS, Submission(1, [], true))
    ensures Next(REUSED, 0, FPS, Wake(2)).deliveries ==
            BOTH_HANDED.deliveries + [Delivery(1, 3, [], 0, false, false, false)]
  {
    hide FrameTag, Dead;
    FirstTags();
    ReusedStep();
    ReusedAlive();
    assert BOTH_HANDED.waiting[2].buffer == 1;
  }

  lemma HandedOutEarly()
    ensures Initial(TWO_BUFFERS, 0)
    ensures exists actions: seq<Action> ::
              var d := Run(TWO_BUFFERS, 0, FPS, actions).deliveries;
              d == [Delivery(0, 1, [1], 1, true, false, false), Delivery(1, 2, [2], 1, true, false, false),
                    Delivery(1, 3, [], 0, false, false, false)]
  {
    hide Next, Run;
    var last := [BeginPicture(0, [])] + ([Submission(1, [], true)] + ([Wake(2)] + []));
    var handed := [Map(1, 1, [])] + ([Map(2, 1, [])] + ([Map(3, 0, [])] + ([Wake(1)] + last)));
    var complete := [Report(Packet(1, [1], true, false))] + ([Report(InputDone(1))] +
      ([Report(Packet(33334, [2], true, false))] + handed));
    SubmittedRun(complete);
    CompleteRun(handed);
    HandedRun(last);
    BeginIdle(BOTH_HANDED, 0, 0);
    ReusedStep();
    EarlyStep();
    var target := BOTH_HANDED.(target := Some(0));
    Goes(BOTH_HANDED, BeginPicture(0, []), target, [Submission(1, [], true)] + ([Wake(2)] + []));
    Goes(target, Submission(1, [], true), REUSED, [Wake(2)] + []);
    Goes(REUSED, Wake(2), Next(REUSED, 0, FPS, Wake(2)), []);
    RunEmpty(Next(REUSED, 0, FPS, Wake(2)));
  }

  lemma RunEmpty(x: System)
    ensures Run(x, 0, FPS, []) == x
  {
  }

  // ---------- A frame that does not fit ----------

  const ONE := Fresh([CODED], [FILLED])
  const NINE := [1, 2, 3, 4, 5, 6, 7, 8, 9]

  const TOO_LONG := [BeginPicture(0, []), Submission(0, [], true), Report(Packet(1, NINE, true, false))]

  const WAITING := ONE.(s := State([0], [Waiting(1, 1, 0)], [Pending(0)], 1, 1), owners := [0])

  const OVERFLOWN := WAITING.(
    s := State([0], [Waiting(1, 1, 0).(overflowed := true)], [Pending(0)], 1, 1), log := [NoRoom(1), Cut(1)])

  lemma OverflowStep()
    ensures Next(WAITING, 0, FPS, Report(Packet(1, NINE, true, false))) == OVERFLOWN
  {
    assert |NINE| == 9;
    assert FirstTagged(WAITING.s.queue, WAITING.s.buffers, 1) == Some(0);
  }

  lemma TooLongRun()
    ensures Run(ONE, 0, FPS, TOO_LONG) == OVERFLOWN
  {
    hide Next, FrameTag;
    var a, target := TOO_LONG, ONE.(target := Some(0));
    FirstTags();
    BeginIdle(ONE, 0, 0);
    SubmitNext(target, 0, 0, 0, 1);
    OverflowStep();
    assert a == [a[0]] + ([a[1]] + ([a[2]] + []));
    Goes(ONE, a[0], target, [a[1]] + ([a[2]] + []));
    Goes(target, a[1], WAITING, [a[2]] + []);
    Goes(WAITING, a[2], OVERFLOWN, []);
    RunEmpty(OVERFLOWN);
  }

  // Steps of the context alone, whose submissions see no report, are regular.
  lemma {:induction false} QuietIsRegular(x: System, actions: seq<Action>)
    requires forall k :: 0 <= k < |actions| ==>
      !actions[k].Elsewhere? && (actions[k].Submission? ==> actions[k].events == [])
    ensures RegularRun(x, 0, FPS, actions)
  {
    hide Next;
    if actions != [] {
      QuietIsRegular(x, actions[..|actions| - 1]);
    }
  }

  // A final packet too long for its buffer: no frame is lost, but this one and all behind it are never delivered.
  lemma OverflowBlocks()
    ensures Initial(ONE, 0) && RegularRun(ONE, 0, FPS, TOO_LONG)
    ensures
      var y := Run(ONE, 0, FPS, TOO_LONG);
      !Lost(y.s, 0, 1) && Blocked(y.s, 0, y.log, 1) && !Deliverable(y, 0, FPS, 1)
  {
    hide Run, RegularRun, Deliverable;
    TooLongRun();
    QuietIsRegular(ONE, TOO_LONG);
    assert Own(OVERFLOWN.s.buffers[0], 0) && OVERFLOWN.s.buffers[0].sequence == 1;
    assert Cut(OVERFLOWN.s.buffers[0].tag) in OVERFLOWN.log;
    assert Open(OVERFLOWN.s, 0, 0, 1) && Shut(OVERFLOWN.s.buffers[0], OVERFLOWN.log);
    assert Stuck(OVERFLOWN, 0, 0, 1);
    assert OVERFLOWN.s.delivery <= 1 <= 1 && Dead(OVERFLOWN, 0, 1);
    DeliverableExactly(ONE, 0, FPS, TOO_LONG, 1);
  }

  // ---------- A packet in another context's buffer ----------

  // The slot that context 0 still queues holds the first frame of context 1, whose tag is that of the freed frame.
  const STRANGER := Waiting(1, 1, 1).(context := 1)

  const TAKEN := TWO_SURFACES.(
    s := UNLINKED.s.(buffers := [STRANGER], surfaces := [Pending(0), Pending(0)]), owners := [0, 0])

  const STRAYED := RESUBMITTED + [
    Elsewhere([STRANGER], [Pending(0), Pending(0)], map[]), Report(Packet(1, [7], true, false))]

  lemma TakenStep()
    ensures
      Next(UNLINKED.(s := UNLINKED.s.(buffers := [FREE])), 0, FPS,
           Elsewhere([STRANGER], [Pending(0), Pending(0)], map[])) == TAKEN
  {
    var s := UNLINKED.s.(buffers := [FREE]);
    var t := s.(buffers := [STRANGER], surfaces := [Pending(0), Pending(0)]);
    assert Apart(s, t, 0);
  }

  lemma StrayStep()
    ensures var s := Next(TAKEN, 0, FPS, Report(Packet(1, [7], true, false))).s;
            s.queue == [] && s.buffers == [STRANGER.(contents := [7], ready := true, packets := 1)]
  {
    assert FirstTagged(TAKEN.s.queue, TAKEN.s.buffers, 1) == Some(0);
    assert Remove(TAKEN.s.queue, 0) == [];
    assert Filled(STRANGER, [7], true, false) == STRANGER.(contents := [7], ready := true, packets := 1);
  }

  // Once another context has submitted a buffer in the slot of the freed one, a packet of this context completes the
  // frame of the other.
  lemma StrayPacket()
    ensures Initial(TWO_SURFACES, 0)
    ensures var s := Run(TWO_SURFACES, 0, FPS, STRAYED).s;
            s.queue == [] && s.buffers == [STRANGER.(contents := [7], ready := true, packets := 1)]
  {
    hide Next, Run;
    var freed := UNLINKED.(s := UNLINKED.s.(buffers := [FREE]));
    var a, x := RESUBMITTED, TWO_SURFACES;
    var take, stray := Elsewhere([STRANGER], [Pending(0), Pending(0)], map[]), Report(Packet(1, [7], true, false));
    FreedRun([take] + ([stray] + []));
    TakenStep();
    StrayStep();
    Goes(freed, take, TAKEN, [stray] + []);
    Goes(TAKEN, stray, Next(TAKEN, 0, FPS, stray), []);
    RunEmpty(Next(TAKEN, 0, FPS, stray));
    assert STRAYED == [a[0]] + ([a[1]] + ([a[2]] + ([a[3]] + ([a[4]] + ([take] + ([stray] + []))))));
  }
}
