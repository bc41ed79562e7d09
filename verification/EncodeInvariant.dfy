/** What every locked region of the encode side keeps. */
module EncodeInvariant {
  import opened Bitstring
  import opened EncodeState
  import opened Limits
  import opened Wrappers

  /**
    A packet that was stored, under the tag it carried and with its flags; one there was no room for; the end of a
    frame whose final packet was not stored; a frame whose input was consumed.
   */
  datatype Logged =
    | Logged(tag: nat, data: seq<byte>, final: bool, damaged: bool)
    | NoRoom(tag: nat)
    | Cut(tag: nat)
    | Read(tag: nat)

  function Data(x: Logged, tag: nat): seq<byte> {
    if x.Logged? && x.tag == tag then x.data else []
  }

  // The packets of one frame, in the order they came.
  function Joined(log: seq<Logged>, tag: nat): seq<byte> {
    if log == [] then []
    else Joined(log[..|log| - 1], tag) + Data(log[|log| - 1], tag)
  }

  // How many packets of a frame were stored.
  function Count(log: seq<Logged>, tag: nat): nat {
    if log == [] then 0
    else
      var x := log[|log| - 1];
      Count(log[..|log| - 1], tag) + if x.Logged? && x.tag == tag then 1 else 0
  }

  // A stored packet of the frame had the error flag.
  predicate Flagged(log: seq<Logged>, tag: nat) {
    exists k :: 0 <= k < |log| && log[k].Logged? && log[k].tag == tag && log[k].damaged
  }

  // The final packet of the frame was stored.
  predicate Ended(log: seq<Logged>, tag: nat) {
    exists k :: 0 <= k < |log| && log[k].Logged? && log[k].tag == tag && log[k].final
  }

  // The frame is complete, and its input consumed, if and only if the hardware said so.
  predicate Reports(log: seq<Logged>, tag: nat, ready: bool, inputDone: bool) {
    (ready <==> Ended(log, tag)) && (inputDone <==> Read(tag) in log)
  }

  // The bytes, the number of packets and both status flags are those of the frame with this tag.
  predicate Records(
    log: seq<Logged>, tag: nat, contents: seq<byte>, packets: nat, damaged: bool, overflowed: bool)
  {
    && contents == Joined(log, tag) && packets == Count(log, tag)
    && (damaged <==> Flagged(log, tag)) && (overflowed <==> NoRoom(tag) in log)
  }

  // A coded buffer of this context; one that holds a frame.
  predicate Mine(b: Buffer, c: nat) {
    b.used && b.coded && b.context == c
  }

  predicate Tagged(b: Buffer, c: nat) {
    Mine(b, c) && b.tag != 0
  }

  // An entry names a coded buffer of the context that is not complete, or a slot without a frame.
  predicate EntryOk(b: Buffer, c: nat) {
    if Mine(b, c) then !b.ready else b.tag == 0
  }

  predicate QueueOk(s: State, c: nat) {
    && |s.queue| <= MAX_SURFACES
    && (forall k, l :: 0 <= k < l < |s.queue| ==> s.queue[k] != s.queue[l])
    && forall k :: 0 <= k < |s.queue| ==> s.queue[k] < |s.buffers| && EntryOk(s.buffers[s.queue[k]], c)
  }

  // A frame's tag is the tag of its sequence number; a buffer without a frame has neither.
  predicate TagOk(b: Buffer, c: nat, sequence: nat, fps: nat)
    requires fps > 0
  {
    && (Tagged(b, c) ==> 0 < b.sequence <= sequence && b.tag == FrameTag(b.sequence, fps))
    && (b.used && b.context == c && !Tagged(b, c) ==> b.sequence == 0)
  }

  predicate TagsOk(s: State, c: nat, fps: nat)
    requires fps > 0
  {
    forall i :: 0 <= i < |s.buffers| ==> TagOk(s.buffers[i], c, s.sequence, fps)
  }

  predicate SequencesDiffer(s: State, c: nat) {
    forall i, j :: 0 <= i < j < |s.buffers| && Tagged(s.buffers[i], c) && Tagged(s.buffers[j], c) ==>
      s.buffers[i].sequence != s.buffers[j].sequence
  }

  // Queued frames stand in submission order.
  predicate OrderOk(s: State, c: nat)
    requires QueueOk(s, c)
  {
    forall k, l :: 0 <= k < l < |s.queue| && s.buffers[s.queue[k]].tag != 0 && s.buffers[s.queue[l]].tag != 0 ==>
      s.buffers[s.queue[k]].sequence < s.buffers[s.queue[l]].sequence
  }

  // A frame is queued exactly until its final packet came.
  predicate WaitingOk(s: State, c: nat) {
    forall i :: 0 <= i < |s.buffers| && Tagged(s.buffers[i], c) ==> (i in s.queue <==> !s.buffers[i].ready)
  }

  // A buffer holds exactly the packets of its frame, tells whether one had the error flag or found no room, and how far
  // the frame is.
  predicate HoldsFrame(b: Buffer, c: nat, log: seq<Logged>) {
    && (Tagged(b, c) ==>
          && Records(log, b.tag, b.contents, b.packets, b.damaged, b.overflowed)
          && Reports(log, b.tag, b.ready, b.inputDone))
    && (Mine(b, c) ==> |b.contents| <= b.capacity)
  }

  predicate ContentsOk(s: State, c: nat, log: seq<Logged>) {
    forall i :: 0 <= i < |s.buffers| ==> HoldsFrame(s.buffers[i], c, log)
  }

  // The surface that waits for a frame is pending until both of its events came.
  predicate Linked(s: State, i: nat)
    requires i < |s.buffers|
  {
    LinkedTo(s.surfaces, i, s.buffers[i])
  }

  predicate LinksOk(s: State, c: nat) {
    forall i :: 0 <= i < |s.buffers| && Tagged(s.buffers[i], c) && Linked(s, i) ==>
      s.surfaces[s.buffers[i].source.value].pending == !(s.buffers[i].ready && s.buffers[i].inputDone)
  }

  // No packet was stored under a tag still to come.
  predicate LogOk(sequence: nat, fps: nat, log: seq<Logged>)
    requires fps > 0
  {
    forall k :: 0 <= k < |log| ==> sequence > 0 && log[k].tag <= FrameTag(sequence, fps)
  }

  predicate Inv(s: State, c: nat, fps: nat, log: seq<Logged>)
    requires fps > 0
  {
    && QueueOk(s, c) && TagsOk(s, c, fps) && SequencesDiffer(s, c) && OrderOk(s, c) && WaitingOk(s, c)
    && ContentsOk(s, c, log) && LinksOk(s, c) && LogOk(s.sequence, fps, log)
  }

  // The limits under which tags tell frames apart.
  predicate Bounded(s: State, fps: nat) {
    0 < fps <= MICROSECONDS && s.sequence <= MAX_FRAMES
  }

  // ---------- Tags tell frames apart ----------

  lemma TagsDiffer(s: State, c: nat, fps: nat, i: nat, j: nat)
    requires Bounded(s, fps) && TagsOk(s, c, fps) && SequencesDiffer(s, c)
    requires i < |s.buffers| && j < |s.buffers| && i != j
    requires Tagged(s.buffers[i], c) && Tagged(s.buffers[j], c)
    ensures s.buffers[i].tag != s.buffers[j].tag
  {
    hide FrameTag;
    var m, n := s.buffers[i].sequence, s.buffers[j].sequence;
    assert m != n;
    if m < n {
      TagsIncrease(m, n, fps);
    } else {
      TagsIncrease(n, m, fps);
    }
  }

  lemma FlaggedMore(log: seq<Logged>, x: Logged, tag: nat)
    ensures Flagged(log + [x], tag) <==> Flagged(log, tag) || (x.Logged? && x.tag == tag && x.damaged)
  {
    if Flagged(log, tag) {
      var k :| 0 <= k < |log| && log[k].Logged? && log[k].tag == tag && log[k].damaged;
      assert (log + [x])[k] == log[k];
    }
    assert (log + [x])[|log|] == x;
  }

  // One more entry.
  lemma RecordsMore(log: seq<Logged>, x: Logged, tag: nat)
    ensures Joined(log + [x], tag) == Joined(log, tag) + Data(x, tag)
    ensures Count(log + [x], tag) == Count(log, tag) + if x.Logged? && x.tag == tag then 1 else 0
    ensures Flagged(log + [x], tag) <==> Flagged(log, tag) || (x.Logged? && x.tag == tag && x.damaged)
    ensures NoRoom(tag) in log + [x] <==> NoRoom(tag) in log || x == NoRoom(tag)
  {
    hide Flagged;
    assert (log + [x])[..|log|] == log;
    FlaggedMore(log, x, tag);
  }

  lemma ReportsMore(log: seq<Logged>, x: Logged, tag: nat)
    ensures Ended(log + [x], tag) <==> Ended(log, tag) || (x.Logged? && x.tag == tag && x.final)
    ensures Read(tag) in log + [x] <==> Read(tag) in log || x == Read(tag)
  {
    if Ended(log, tag) {
      var k :| 0 <= k < |log| && log[k].Logged? && log[k].tag == tag && log[k].final;
      assert (log + [x])[k] == log[k];
    }
    assert (log + [x])[|log|] == x;
  }

  // An entry of another frame, and the end and the consumed input of any frame, leave the records of this one alone.
  lemma RecordsOther(log: seq<Logged>, x: Logged, tag: nat)
    requires x.tag != tag || x.Cut? || x.Read?
    ensures forall contents, packets, damaged, overflowed ::
              Records(log + [x], tag, contents, packets, damaged, overflowed) <==>
              Records(log, tag, contents, packets, damaged, overflowed)
  {
    hide Joined, Count, Flagged;
    RecordsMore(log, x, tag);
    assert Joined(log, tag) + [] == Joined(log, tag);
  }

  lemma {:induction false} RecordsNone(log: seq<Logged>, tag: nat)
    requires forall k :: 0 <= k < |log| ==> log[k].tag != tag
    ensures Records(log, tag, [], 0, false, false) && Reports(log, tag, false, false)
  {
    if log != [] {
      RecordsNone(log[..|log| - 1], tag);
    }
  }

  // ---------- Packets ----------

  // What a stored packet does, told frame by frame.
  ghost predicate Stored(s: State, t: State, id: nat, data: seq<byte>, final: bool, damaged: bool) {
    && id in s.queue && id < |s.buffers| && |t.buffers| == |s.buffers| && |t.surfaces| == |s.surfaces|
    && t.sequence == s.sequence && t.delivery == s.delivery
    && t.buffers[id].contents == s.buffers[id].contents + data
    && |t.buffers[id].contents| <= t.buffers[id].capacity
    && t.buffers[id] == s.buffers[id].(
         contents := t.buffers[id].contents, packets := s.buffers[id].packets + 1,
         damaged := s.buffers[id].damaged || damaged, ready := s.buffers[id].ready || final)
    && (forall i :: 0 <= i < |s.buffers| && i != id ==> t.buffers[i] == s.buffers[i])
    && t.surfaces == (if final then Settle(s.surfaces, id, t.buffers[id]) else s.surfaces)
    && (exists k :: 0 <= k < |s.queue| && s.queue[k] == id && t.queue == if final then Remove(s.queue, k) else s.queue)
  }

  // What a packet without room does.
  ghost predicate Overrun(s: State, t: State, id: nat, data: seq<byte>) {
    && id in s.queue && id < |s.buffers| && |s.buffers[id].contents| + |data| > s.buffers[id].capacity
    && t == s.(buffers := s.buffers[id := s.buffers[id].(overflowed := true)])
  }

  // A packet is stored in the queued buffer that carries its tag, finds no room in it, or changes nothing.
  lemma StorePacketIs(s: State, c: nat, fps: nat, tag: nat, data: seq<byte>, final: bool, damaged: bool)
    requires Bounded(s, fps) && QueueOk(s, c)
    ensures
      var (t, o) := StorePacket(s, tag, data, final, damaged);
      && (o.Pass? ==>
            && tag != 0
            && exists id: nat ::
                 id < |s.buffers| && Stored(s, t, id, data, final, damaged) && s.buffers[id].tag == tag &&
                 Mine(s.buffers[id], c))
      && (o == Fail(NoSpace) ==>
            && tag != 0
            && exists id: nat ::
                 id < |s.buffers| && Overrun(s, t, id, data) && s.buffers[id].tag == tag && Mine(s.buffers[id], c))
      && (o.Fail? && o.error != NoSpace ==> t == s)
  {
    hide Remove, Settle, Joined;
    var (t, o) := StorePacket(s, tag, data, final, damaged);
    if tag != 0 && s.queue != [] && FirstTagged(s.queue, s.buffers, tag).Some? {
      var k := FirstTagged(s.queue, s.buffers, tag).value;
      var id := s.queue[k];
      if o.Pass? {
        assert Stored(s, t, id, data, final, damaged);
      } else {
        assert Overrun(s, t, id, data);
      }
    }
  }

  lemma RemoveKeeps(s: seq<nat>, k: nat, c: nat)
    requires k < |s|
    requires forall i, j :: 0 <= i < j < |s| ==> s[i] != s[j]
    ensures forall x :: x in Remove(s, k) <==> x in s && x != s[k]
    ensures forall i :: 0 <= i < |s| - 1 ==> Remove(s, k)[i] == s[if i < k then i else i + 1]
  {
    forall x ensures x in Remove(s, k) <==> x in s && x != s[k] {
      if x in s && x != s[k] {
        var i :| 0 <= i < |s| && s[i] == x;
        assert Remove(s, k)[if i < k then i else i - 1] == x;
      }
    }
  }

  lemma StoredKeepsQueue(s: State, t: State, c: nat, id: nat, data: seq<byte>, final: bool, damaged: bool)
    requires QueueOk(s, c) && Stored(s, t, id, data, final, damaged)
    ensures QueueOk(t, c)
    ensures forall i :: i in t.queue <==> i in s.queue && !(final && i == id)
  {
    hide Remove, Settle;
    var k :| 0 <= k < |s.queue| && s.queue[k] == id && t.queue == if final then Remove(s.queue, k) else s.queue;
    RemoveKeeps(s.queue, k, c);
  }

  lemma StoredKeepsOrder(s: State, t: State, c: nat, id: nat, data: seq<byte>, final: bool, damaged: bool)
    requires QueueOk(s, c) && QueueOk(t, c) && OrderOk(s, c) && Stored(s, t, id, data, final, damaged)
    ensures OrderOk(t, c)
  {
    hide Remove, Settle, Mine;
    var k :| 0 <= k < |s.queue| && s.queue[k] == id && t.queue == if final then Remove(s.queue, k) else s.queue;
    RemoveKeeps(s.queue, k, c);
    forall i, j | 0 <= i < j < |t.queue| && t.buffers[t.queue[i]].tag != 0 && t.buffers[t.queue[j]].tag != 0
      ensures t.buffers[t.queue[i]].sequence < t.buffers[t.queue[j]].sequence
    {
      var i', j' := if final && i >= k then i + 1 else i, if final && j >= k then j + 1 else j;
      assert s.queue[i'] == t.queue[i] && s.queue[j'] == t.queue[j];
    }
  }

  lemma StoredKeepsRest(s: State, t: State, c: nat, fps: nat, id: nat, data: seq<byte>, final: bool, damaged: bool)
    requires fps > 0 && Stored(s, t, id, data, final, damaged)
    requires forall i :: i in t.queue <==> i in s.queue && !(final && i == id)
    ensures TagsOk(s, c, fps) ==> TagsOk(t, c, fps)
    ensures SequencesDiffer(s, c) ==> SequencesDiffer(t, c)
    ensures WaitingOk(s, c) ==> WaitingOk(t, c)
  {
    hide Remove, Settle, FrameTag;
  }

  lemma StoredKeepsLinks(s: State, t: State, c: nat, id: nat, data: seq<byte>, final: bool, damaged: bool)
    requires Stored(s, t, id, data, final, damaged) && LinksOk(s, c) && !s.buffers[id].ready
    ensures LinksOk(t, c)
  {
    hide Remove;
    forall i | 0 <= i < |t.buffers| && Tagged(t.buffers[i], c) && Linked(t, i)
      ensures t.surfaces[t.buffers[i].source.value].pending == !(t.buffers[i].ready && t.buffers[i].inputDone)
    {
      assert Linked(s, i);
    }
  }

  lemma StoredKeepsContents(
    s: State, t: State, c: nat, fps: nat, log: seq<Logged>, id: nat, data: seq<byte>, final: bool, damaged: bool)
    requires Bounded(s, fps) && TagsOk(s, c, fps) && SequencesDiffer(s, c)
    requires ContentsOk(s, c, log) && LogOk(s.sequence, fps, log)
    requires Stored(s, t, id, data, final, damaged) && Tagged(s.buffers[id], c)
    ensures ContentsOk(t, c, log + [Logged(s.buffers[id].tag, data, final, damaged)])
    ensures LogOk(t.sequence, fps, log + [Logged(s.buffers[id].tag, data, final, damaged)])
  {
    hide Remove, Settle, FrameTag, Joined, Count, Flagged, Ended;
    var x := Logged(s.buffers[id].tag, data, final, damaged);
    forall i | 0 <= i < |t.buffers| ensures HoldsFrame(t.buffers[i], c, log + [x]) {
      assert HoldsFrame(s.buffers[i], c, log);
      RecordsMore(log, x, t.buffers[i].tag);
      ReportsMore(log, x, t.buffers[i].tag);
      if i != id && Tagged(s.buffers[i], c) {
        TagsDiffer(s, c, fps, i, id);
      }
    }
    if s.buffers[id].sequence < s.sequence {
      TagsIncrease(s.buffers[id].sequence, s.sequence, fps);
    }
  }

  lemma QueuedIsWaiting(s: State, c: nat, id: nat)
    requires WaitingOk(s, c) && id < |s.buffers| && Tagged(s.buffers[id], c) && id in s.queue
    ensures !s.buffers[id].ready
  {
  }

  lemma StoredKeeps(
    s: State, t: State, c: nat, fps: nat, log: seq<Logged>, id: nat, data: seq<byte>, final: bool, damaged: bool)
    requires Bounded(s, fps) && Inv(s, c, fps, log)
    requires Stored(s, t, id, data, final, damaged) && Tagged(s.buffers[id], c)
    ensures Inv(t, c, fps, log + [Logged(s.buffers[id].tag, data, final, damaged)])
  {
    QueuedIsWaiting(s, c, id);
    StoredKeepsQueue(s, t, c, id, data, final, damaged);
    StoredKeepsOrder(s, t, c, id, data, final, damaged);
    StoredKeepsRest(s, t, c, fps, id, data, final, damaged);
    StoredKeepsLinks(s, t, c, id, data, final, damaged);
    StoredKeepsContents(s, t, c, fps, log, id, data, final, damaged);
    hide *;
  }

  // t holds the same frames as s, apart from flags that no packet sets but for want of room.
  predicate SameFrame(a: Buffer, b: Buffer) {
    b == a.(inputDone := b.inputDone, delivered := b.delivered, overflowed := b.overflowed)
  }

  predicate SameFrames(s: State, t: State) {
    && t.queue == s.queue && t.sequence == s.sequence && |t.buffers| == |s.buffers|
    && forall i :: 0 <= i < |s.buffers| ==> SameFrame(s.buffers[i], t.buffers[i])
  }

  // The flags that reports set are the same.
  predicate SameFlags(a: Buffer, b: Buffer) {
    b.overflowed == a.overflowed && b.inputDone == a.inputDone
  }

  lemma SameFrameHolds(a: Buffer, b: Buffer, c: nat, log: seq<Logged>)
    requires SameFrame(a, b) && SameFlags(a, b) && HoldsFrame(a, c, log)
    ensures HoldsFrame(b, c, log)
  {
  }

  lemma SameFramesKeepQueue(s: State, t: State, c: nat)
    requires SameFrames(s, t) && QueueOk(s, c) && OrderOk(s, c)
    ensures QueueOk(t, c) && OrderOk(t, c)
  {
  }

  lemma SameFramesKeepTags(s: State, t: State, c: nat, fps: nat)
    requires SameFrames(s, t) && fps > 0 && TagsOk(s, c, fps) && SequencesDiffer(s, c) && WaitingOk(s, c)
    ensures TagsOk(t, c, fps) && SequencesDiffer(t, c) && WaitingOk(t, c)
  {
    hide FrameTag;
  }

  lemma SameFramesKeepContents(s: State, t: State, c: nat, log: seq<Logged>)
    requires SameFrames(s, t) && ContentsOk(s, c, log)
    requires forall i :: 0 <= i < |s.buffers| ==> SameFlags(s.buffers[i], t.buffers[i])
    ensures ContentsOk(t, c, log)
  {
    hide HoldsFrame, SameFrame, SameFlags;
    forall i | 0 <= i < |t.buffers| ensures HoldsFrame(t.buffers[i], c, log) {
      SameFrameHolds(s.buffers[i], t.buffers[i], c, log);
    }
  }

  lemma SameFramesKeep(s: State, t: State, c: nat, fps: nat, log: seq<Logged>)
    requires SameFrames(s, t) && fps > 0 && Inv(s, c, fps, log) && LinksOk(t, c)
    requires forall i :: 0 <= i < |s.buffers| ==> SameFlags(s.buffers[i], t.buffers[i])
    ensures Inv(t, c, fps, log)
  {
    SameFramesKeepQueue(s, t, c);
    SameFramesKeepTags(s, t, c, fps);
    SameFramesKeepContents(s, t, c, log);
    hide SameFrames, QueueOk, OrderOk, TagsOk, SequencesDiffer, WaitingOk, ContentsOk, LogOk, LinksOk;
  }

  // Neither an overflow nor a delivery touches what links look at.
  lemma SameFlagsKeepLinks(s: State, t: State, c: nat)
    requires SameFrames(s, t) && LinksOk(s, c) && t.surfaces == s.surfaces
    requires forall i :: 0 <= i < |s.buffers| ==> t.buffers[i].inputDone == s.buffers[i].inputDone
    ensures LinksOk(t, c)
  {
    forall i | 0 <= i < |t.buffers| && Tagged(t.buffers[i], c) && Linked(t, i)
      ensures t.surfaces[t.buffers[i].source.value].pending == !(t.buffers[i].ready && t.buffers[i].inputDone)
    {
      assert Tagged(s.buffers[i], c) && Linked(s, i);
    }
  }

  lemma OverrunKeepsContents(s: State, t: State, c: nat, fps: nat, log: seq<Logged>, id: nat, data: seq<byte>)
    requires Bounded(s, fps) && TagsOk(s, c, fps) && SequencesDiffer(s, c)
    requires ContentsOk(s, c, log) && LogOk(s.sequence, fps, log)
    requires Overrun(s, t, id, data) && Tagged(s.buffers[id], c)
    ensures ContentsOk(t, c, log + [NoRoom(s.buffers[id].tag)])
    ensures LogOk(t.sequence, fps, log + [NoRoom(s.buffers[id].tag)])
  {
    hide FrameTag, Joined, Count, Flagged, Ended;
    var x := NoRoom(s.buffers[id].tag);
    forall i | 0 <= i < |t.buffers| ensures HoldsFrame(t.buffers[i], c, log + [x]) {
      assert HoldsFrame(s.buffers[i], c, log);
      RecordsMore(log, x, t.buffers[i].tag);
      ReportsMore(log, x, t.buffers[i].tag);
      assert Joined(log, t.buffers[i].tag) + [] == Joined(log, t.buffers[i].tag);
      if i != id && Tagged(s.buffers[i], c) {
        TagsDiffer(s, c, fps, i, id);
      }
    }
    if s.buffers[id].sequence < s.sequence {
      TagsIncrease(s.buffers[id].sequence, s.sequence, fps);
    }
  }

  lemma OverrunKeeps(s: State, t: State, c: nat, fps: nat, log: seq<Logged>, id: nat, data: seq<byte>)
    requires Bounded(s, fps) && Inv(s, c, fps, log)
    requires Overrun(s, t, id, data) && Tagged(s.buffers[id], c)
    ensures Inv(t, c, fps, log + [NoRoom(s.buffers[id].tag)])
  {
    SameFlagsKeepLinks(s, t, c);
    SameFramesKeepQueue(s, t, c);
    SameFramesKeepTags(s, t, c, fps);
    OverrunKeepsContents(s, t, c, fps, log, id, data);
    hide *;
  }

  // The log grows by every packet that is stored, by every packet that finds no room, by the end of a queued frame
  // whose final packet is empty or refused, and by the consumed input of every frame that a buffer holds.
  function LogAfter(s: State, c: nat, log: seq<Logged>, e: Event): seq<Logged> {
    if e.InputDone? then if e.tag != 0 && Hardware(s, c, e).1.Pass? then log + [Read(e.tag)] else log
    else if e.data != [] && Hardware(s, c, e).1.Pass? then log + [Logged(e.tag, e.data, e.final, e.damaged)]
    else
      var refused := if Hardware(s, c, e).1 == Fail(NoSpace) then log + [NoRoom(e.tag)] else log;
      if e.final && e.tag != 0 && FirstTagged(s.queue, s.buffers, e.tag).Some? then refused + [Cut(e.tag)] else refused
  }

  lemma CutKeeps(s: State, c: nat, fps: nat, log: seq<Logged>, id: nat)
    requires Bounded(s, fps) && Inv(s, c, fps, log) && id < |s.buffers| && Tagged(s.buffers[id], c)
    ensures Inv(s, c, fps, log + [Cut(s.buffers[id].tag)])
  {
    hide Records, FrameTag, QueueOk, OrderOk, SequencesDiffer, WaitingOk, LinksOk, Ended;
    var x := Cut(s.buffers[id].tag);
    forall i | 0 <= i < |s.buffers| ensures HoldsFrame(s.buffers[i], c, log + [x]) {
      assert HoldsFrame(s.buffers[i], c, log);
      RecordsOther(log, x, s.buffers[i].tag);
      ReportsMore(log, x, s.buffers[i].tag);
    }
    assert TagOk(s.buffers[id], c, s.sequence, fps);
    if s.buffers[id].sequence < s.sequence {
      TagsIncrease(s.buffers[id].sequence, s.sequence, fps);
    }
  }

  // The queued buffer that a tag finds is a frame of this context.
  lemma FoundIsTagged(s: State, c: nat, tag: nat)
    requires QueueOk(s, c) && tag != 0
    ensures
      var k := FirstTagged(s.queue, s.buffers, tag);
      k.Some? ==> Tagged(s.buffers[s.queue[k.value]], c) && s.buffers[s.queue[k.value]].tag == tag
  {
  }

  // The end of a frame, at most.
  lemma EndKeeps(s: State, c: nat, fps: nat, log: seq<Logged>, t: State, later: seq<Logged>, tag: nat)
    requires Bounded(s, fps) && Inv(s, c, fps, log) && Inv(t, c, fps, later)
    requires t.sequence == s.sequence && |t.buffers| == |s.buffers|
    requires forall i :: 0 <= i < |s.buffers| ==> SameFrame(s.buffers[i], t.buffers[i])
    ensures tag != 0 && FirstTagged(s.queue, s.buffers, tag).Some? ==> Inv(t, c, fps, later + [Cut(tag)])
  {
    hide Inv, QueueOk, FirstTagged;
    InvQueue(s, c, fps, log);
    var k := FirstTagged(s.queue, s.buffers, tag);
    if tag != 0 && k.Some? {
      FoundIsTagged(s, c, tag);
      var id := s.queue[k.value];
      assert SameFrame(s.buffers[id], t.buffers[id]);
      CutKeeps(t, c, fps, later, id);
    }
  }

  // A packet that is not stored.
  lemma RefusedKeeps(s: State, c: nat, fps: nat, log: seq<Logged>, e: Event)
    requires Bounded(s, fps) && Inv(s, c, fps, log)
    requires e.Packet? && (e.data == [] || Hardware(s, c, e).1.Fail?)
    ensures Inv(Hardware(s, c, e).0, c, fps, LogAfter(s, c, log, e))
    ensures Hardware(s, c, e).0.sequence == s.sequence
  {
    hide StorePacket, Inv, QueueOk, FirstTagged, Overrun, Stored;
    InvQueue(s, c, fps, log);
    var (t, o) := Hardware(s, c, e);
    StorePacketIs(s, c, fps, e.tag, e.data, e.final, e.damaged);
    if o == Fail(NoSpace) {
      var id: nat :|
        id < |s.buffers| && Overrun(s, t, id, e.data) && s.buffers[id].tag == e.tag && Mine(s.buffers[id], c);
      OverrunKeeps(s, t, c, fps, log, id, e.data);
      OverrunIsSame(s, t, id, e.data);
      EndKeeps(s, c, fps, log, t, log + [NoRoom(e.tag)], e.tag);
    } else {
      EndKeeps(s, c, fps, log, t, log, e.tag);
    }
  }

  lemma OverrunIsSame(s: State, t: State, id: nat, data: seq<byte>)
    requires Overrun(s, t, id, data)
    ensures SameFrames(s, t)
  {
  }

  lemma PacketKeeps(s: State, c: nat, fps: nat, log: seq<Logged>, e: Event)
    requires Bounded(s, fps) && Inv(s, c, fps, log) && e.Packet?
    ensures Inv(Hardware(s, c, e).0, c, fps, LogAfter(s, c, log, e))
    ensures Hardware(s, c, e).0.sequence == s.sequence
  {
    hide StorePacket, Stored, Inv, QueueOk, FirstTagged;
    InvQueue(s, c, fps, log);
    StorePacketIs(s, c, fps, e.tag, e.data, e.final, e.damaged);
    var (t, o) := StorePacket(s, e.tag, e.data, e.final, e.damaged);
    if e.data == [] || o.Fail? {
      RefusedKeeps(s, c, fps, log, e);
    } else {
      var id: nat :|
        id < |s.buffers| && Stored(s, t, id, e.data, e.final, e.damaged) && s.buffers[id].tag == e.tag &&
        Mine(s.buffers[id], c);
      StoredKeeps(s, t, c, fps, log, id, e.data, e.final, e.damaged);
      StoredSequence(s, t, id, e.data, e.final, e.damaged);
    }
  }

  lemma InvQueue(s: State, c: nat, fps: nat, log: seq<Logged>)
    requires fps > 0 && Inv(s, c, fps, log)
    ensures QueueOk(s, c)
  {
  }

  lemma InvLinks(s: State, c: nat, fps: nat, log: seq<Logged>)
    requires fps > 0 && Inv(s, c, fps, log)
    ensures LinksOk(s, c)
  {
  }

  lemma StoredSequence(s: State, t: State, id: nat, data: seq<byte>, final: bool, damaged: bool)
    requires Stored(s, t, id, data, final, damaged)
    ensures t.sequence == s.sequence
  {
  }

  // ---------- Consumed input ----------

  // What consumed input does: the buffer tells it, and the surface that waits for a complete frame is free.
  predicate InputTaken(s: State, t: State, c: nat, id: nat, tag: nat) {
    && id < |s.buffers| && Mine(s.buffers[id], c) && s.buffers[id].tag == tag
    && t == s.(buffers := s.buffers[id := s.buffers[id].(inputDone := true)],
               surfaces := Settle(s.surfaces, id, s.buffers[id].(inputDone := true)))
  }

  lemma InputKeepsContents(s: State, t: State, c: nat, fps: nat, log: seq<Logged>, id: nat, tag: nat)
    requires Bounded(s, fps) && TagsOk(s, c, fps) && SequencesDiffer(s, c)
    requires ContentsOk(s, c, log) && LogOk(s.sequence, fps, log) && InputTaken(s, t, c, id, tag)
    ensures
      var later := if tag != 0 then log + [Read(tag)] else log;
      ContentsOk(t, c, later) && LogOk(t.sequence, fps, later)
  {
    hide FrameTag, Records, Ended, Settle;
    if tag != 0 {
      forall i | 0 <= i < |t.buffers| ensures HoldsFrame(t.buffers[i], c, log + [Read(tag)]) {
        assert HoldsFrame(s.buffers[i], c, log);
        RecordsOther(log, Read(tag), t.buffers[i].tag);
        ReportsMore(log, Read(tag), t.buffers[i].tag);
        if i != id && Tagged(s.buffers[i], c) {
          TagsDiffer(s, c, fps, i, id);
        }
      }
      if s.buffers[id].sequence < s.sequence {
        TagsIncrease(s.buffers[id].sequence, s.sequence, fps);
      }
    } else {
      forall i | 0 <= i < |t.buffers| ensures HoldsFrame(t.buffers[i], c, log) {
        assert HoldsFrame(s.buffers[i], c, log);
      }
    }
  }

  lemma TakenIsSame(s: State, t: State, c: nat, id: nat, tag: nat)
    requires InputTaken(s, t, c, id, tag)
    ensures SameFrames(s, t)
  {
    hide Settle;
  }

  lemma InputKeeps(s: State, c: nat, fps: nat, log: seq<Logged>, tag: nat)
    requires Bounded(s, fps) && Inv(s, c, fps, log)
    ensures Inv(StoreInputDone(s, c, tag).0, c, fps, LogAfter(s, c, log, InputDone(tag)))
    ensures StoreInputDone(s, c, tag).0.sequence == s.sequence
  {
    hide FrameTag, Settle, QueueOk, OrderOk, TagsOk, SequencesDiffer, WaitingOk, ContentsOk, LinksOk, LogOk;
    var i := FirstAwaiting(s.buffers, c, tag);
    if i.Some? {
      var t := StoreInputDone(s, c, tag).0;
      assert InputTaken(s, t, c, i.value, tag);
      TakenIsSame(s, t, c, i.value, tag);
      hide InputTaken, SameFrames;
      InputKeepsLinks(s, c, i.value);
      SameFramesKeepQueue(s, t, c);
      SameFramesKeepTags(s, t, c, fps);
      InputKeepsContents(s, t, c, fps, log, i.value, tag);
    }
  }

  lemma InputKeepsLinks(s: State, c: nat, id: nat)
    requires LinksOk(s, c) && id < |s.buffers|
    ensures
      var b := s.buffers[id].(inputDone := true);
      LinksOk(s.(buffers := s.buffers[id := b], surfaces := Settle(s.surfaces, id, b)), c)
  {
    var b := s.buffers[id].(inputDone := true);
    var t := s.(buffers := s.buffers[id := b], surfaces := Settle(s.surfaces, id, b));
    forall i | 0 <= i < |t.buffers| && Tagged(t.buffers[i], c) && Linked(t, i)
      ensures t.surfaces[t.buffers[i].source.value].pending == !(t.buffers[i].ready && t.buffers[i].inputDone)
    {
      assert Tagged(s.buffers[i], c) && Linked(s, i);
    }
  }

  lemma HardwareKeeps(s: State, c: nat, fps: nat, log: seq<Logged>, e: Event)
    requires Bounded(s, fps) && Inv(s, c, fps, log)
    ensures Inv(Hardware(s, c, e).0, c, fps, LogAfter(s, c, log, e))
    ensures Hardware(s, c, e).0.sequence == s.sequence
  {
    hide Inv, StorePacket, StoreInputDone;
    match e
    case Packet(_, _, _, _) => PacketKeeps(s, c, fps, log, e);
    case InputDone(tag) => InputKeeps(s, c, fps, log, tag);
  }

  function PumpLog(s: State, c: nat, log: seq<Logged>, events: seq<Event>): seq<Logged>
    decreases |events|
  {
    if events == [] then log else PumpLog(Hardware(s, c, events[0]).0, c, LogAfter(s, c, log, events[0]), events[1..])
  }

  lemma {:induction false} PumpKeeps(s: State, c: nat, fps: nat, log: seq<Logged>, events: seq<Event>)
    requires Bounded(s, fps) && Inv(s, c, fps, log)
    ensures Inv(Pump(s, c, events), c, fps, PumpLog(s, c, log, events))
    ensures Pump(s, c, events).sequence == s.sequence
    decreases |events|
  {
    hide Inv, Hardware, LogAfter;
    if events != [] {
      HardwareKeeps(s, c, fps, log, events[0]);
      PumpKeeps(Hardware(s, c, events[0]).0, c, fps, LogAfter(s, c, log, events[0]), events[1..]);
    }
  }

  // ---------- Submission ----------

  // Accepting a frame: the context's next sequence number is taken either way.
  lemma AcceptIs(s: State, c: nat, fps: nat, id: nat, surface: nat)
    requires fps > 0 && Submittable(s.buffers, s.surfaces, c, id, surface)
    ensures
      var (t, o) := Accept(s, c, fps, id, surface);
      var n := NextSequence(s.sequence);
      var b := Cleared(s.buffers[id], surface);
      && t.sequence == n && t.delivery == s.delivery && |t.buffers| == |s.buffers| && |t.surfaces| == |s.surfaces|
      && (o.Fail? ==> t.queue == s.queue && t.surfaces == s.surfaces && t.buffers == s.buffers[id := b])
      && (o.Pass? ==>
            && id !in s.queue && |s.queue| < MAX_SURFACES
            && t.queue == s.queue + [id]
            && t.buffers == s.buffers[id := b.(sequence := n, tag := FrameTag(n, fps))]
            && t.surfaces == s.surfaces[surface := s.surfaces[surface].(pending := true, codedBuffer := Some(id))])
      && (o.Pass? <==> FrameTag(n, fps) != 0 && |s.queue| < MAX_SURFACES && id !in s.queue)
  {
    hide FrameTag;
  }

  // t is s with a fresh frame n in buffer id, or with that buffer emptied when tag is zero.
  predicate Refilled(s: State, t: State, c: nat, id: nat, surface: nat, tag: nat) {
    && id < |s.buffers| && Mine(s.buffers[id], c)
    && t.sequence == s.sequence + 1
    && t.buffers == s.buffers[id := Cleared(s.buffers[id], surface).(
         sequence := if tag == 0 then 0 else s.sequence + 1, tag := tag)]
    && t.queue == (if tag == 0 then s.queue else s.queue + [id])
    && (tag != 0 ==> id !in s.queue && |s.queue| < MAX_SURFACES)
  }

  lemma RefilledKeepsQueue(s: State, t: State, c: nat, id: nat, surface: nat, tag: nat)
    requires Refilled(s, t, c, id, surface, tag) && QueueOk(s, c)
    ensures QueueOk(t, c)
  {
  }

  lemma RefilledKeepsOrder(s: State, t: State, c: nat, fps: nat, id: nat, surface: nat, tag: nat)
    requires fps > 0 && Refilled(s, t, c, id, surface, tag) && TagsOk(s, c, fps)
    requires QueueOk(s, c) && OrderOk(s, c) && QueueOk(t, c)
    ensures OrderOk(t, c)
  {
    hide FrameTag;
    forall k, l | 0 <= k < l < |t.queue| && t.buffers[t.queue[k]].tag != 0 && t.buffers[t.queue[l]].tag != 0
      ensures t.buffers[t.queue[k]].sequence < t.buffers[t.queue[l]].sequence
    {
      var a := s.queue[k];
      assert t.queue[k] == a && a != id && t.buffers[a] == s.buffers[a];
      assert Tagged(s.buffers[a], c);
      if l < |s.queue| {
        assert t.queue[l] == s.queue[l] != id;
      }
    }
  }

  lemma RefilledKeepsTags(s: State, t: State, c: nat, fps: nat, id: nat, surface: nat, tag: nat)
    requires fps > 0 && Refilled(s, t, c, id, surface, tag)
    requires TagsOk(s, c, fps) && SequencesDiffer(s, c) && WaitingOk(s, c)
    requires tag != 0 ==> tag == FrameTag(s.sequence + 1, fps)
    ensures TagsOk(t, c, fps) && SequencesDiffer(t, c) && WaitingOk(t, c)
  {
    hide FrameTag;
  }

  lemma NextTagIsNew(s: State, c: nat, fps: nat, log: seq<Logged>, k: nat)
    requires 0 < fps <= MICROSECONDS && s.sequence < MAX_FRAMES && LogOk(s.sequence, fps, log) && k < |log|
    ensures log[k].tag < FrameTag(s.sequence + 1, fps)
  {
    hide FrameTag;
    assert log[k].tag == log[k].tag;
    TagsIncrease(s.sequence, s.sequence + 1, fps);
  }

  lemma RefilledKeepsContents(s: State, t: State, c: nat, fps: nat, log: seq<Logged>, id: nat, surface: nat, tag: nat)
    requires 0 < fps <= MICROSECONDS && s.sequence < MAX_FRAMES && Refilled(s, t, c, id, surface, tag)
    requires ContentsOk(s, c, log) && LogOk(s.sequence, fps, log)
    requires tag != 0 ==> tag == FrameTag(s.sequence + 1, fps)
    ensures ContentsOk(t, c, log) && LogOk(t.sequence, fps, log)
  {
    hide FrameTag, Joined;
    forall k | 0 <= k < |log| ensures log[k].tag < FrameTag(s.sequence + 1, fps) {
      NextTagIsNew(s, c, fps, log, k);
    }
    RecordsNone(log, FrameTag(s.sequence + 1, fps));
    forall i | 0 <= i < |t.buffers| ensures HoldsFrame(t.buffers[i], c, log) {
      assert HoldsFrame(s.buffers[i], c, log);
    }
  }

  lemma EmptiedKeepsLinks(s: State, t: State, c: nat, id: nat, surface: nat)
    requires Refilled(s, t, c, id, surface, 0) && LinksOk(s, c) && t.surfaces == s.surfaces
    ensures LinksOk(t, c)
  {
    forall i | 0 <= i < |t.buffers| && Tagged(t.buffers[i], c) && Linked(t, i)
      ensures t.surfaces[t.buffers[i].source.value].pending == !(t.buffers[i].ready && t.buffers[i].inputDone)
    {
      assert t.buffers[i] == s.buffers[i] && Linked(s, i);
    }
  }

  lemma RefilledKeepsLinks(s: State, t: State, c: nat, id: nat, surface: nat, tag: nat)
    requires tag != 0 && Refilled(s, t, c, id, surface, tag) && LinksOk(s, c)
    requires surface < |s.surfaces|
    requires t.surfaces == s.surfaces[surface := s.surfaces[surface].(pending := true, codedBuffer := Some(id))]
    ensures LinksOk(t, c)
  {
    forall i | 0 <= i < |t.buffers| && Tagged(t.buffers[i], c) && Linked(t, i)
      ensures t.surfaces[t.buffers[i].source.value].pending == !(t.buffers[i].ready && t.buffers[i].inputDone)
    {
      if i != id {
        assert t.buffers[i] == s.buffers[i] && Linked(s, i);
      }
    }
  }

  lemma AcceptKeeps(s: State, c: nat, fps: nat, log: seq<Logged>, id: nat, surface: nat)
    requires 0 < fps <= MICROSECONDS && s.sequence < MAX_FRAMES && Inv(s, c, fps, log)
    requires Submittable(s.buffers, s.surfaces, c, id, surface)
    ensures Inv(Accept(s, c, fps, id, surface).0, c, fps, log)
    ensures Accept(s, c, fps, id, surface).0.sequence == s.sequence + 1
  {
    hide Accept, FrameTag, Joined, QueueOk, OrderOk, TagsOk, SequencesDiffer, WaitingOk, ContentsOk, LogOk, LinksOk;
    var (t, o) := Accept(s, c, fps, id, surface);
    AcceptIs(s, c, fps, id, surface);
    var tag := if o.Pass? then FrameTag(s.sequence + 1, fps) else 0;
    assert Refilled(s, t, c, id, surface, tag);
    RefilledKeepsQueue(s, t, c, id, surface, tag);
    RefilledKeepsOrder(s, t, c, fps, id, surface, tag);
    RefilledKeepsTags(s, t, c, fps, id, surface, tag);
    RefilledKeepsContents(s, t, c, fps, log, id, surface, tag);
    if o.Pass? {
      RefilledKeepsLinks(s, t, c, id, surface, tag);
    } else {
      EmptiedKeepsLinks(s, t, c, id, surface);
    }
  }

  // ---------- Withdrawal ----------

  // The frame in buffer id is the last one queued, and nothing has touched it yet.
  predicate Newest(s: State, id: nat, b: Buffer) {
    s.queue != [] && s.queue[|s.queue| - 1] == id && id < |s.buffers| && s.buffers[id] == b
  }

  predicate SameLinks(s: State, t: State) {
    && |t.surfaces| == |s.surfaces|
    && forall i :: 0 <= i < |s.surfaces| ==> t.surfaces[i].codedBuffer == s.surfaces[i].codedBuffer
  }

  lemma SettleKeepsLinks(surfaces: seq<Surface>, id: nat, b: Buffer)
    ensures forall i :: 0 <= i < |surfaces| ==> Settle(surfaces, id, b)[i].codedBuffer == surfaces[i].codedBuffer
  {
  }

  lemma LastStays(s: seq<nat>, k: nat)
    requires k < |s| - 1
    ensures Remove(s, k) != [] && Remove(s, k)[|s| - 2] == s[|s| - 1]
  {
  }

  // A report about another frame leaves the newest one alone.
  lemma EventAvoids(s: State, c: nat, e: Event, id: nat, b: Buffer)
    requires Newest(s, id, b) && e.tag != b.tag
    ensures Newest(Hardware(s, c, e).0, id, b)
    ensures SameLinks(s, Hardware(s, c, e).0)
  {
    hide Remove, Settle;
    match e
    case Packet(tag, data, final, damaged) =>
      var k := FirstTagged(s.queue, s.buffers, tag);
      if tag != 0 && k.Some? {
        assert s.queue[k.value] != id;
        LastStays(s.queue, k.value);
        var touched := s.buffers[s.queue[k.value]];
        SettleKeepsLinks(s.surfaces, s.queue[k.value],
          touched.(contents := touched.contents + data, packets := touched.packets + 1,
                   damaged := touched.damaged || damaged, ready := touched.ready || final));
      }
    case InputDone(tag) =>
      var i := FirstAwaiting(s.buffers, c, tag);
      if i.Some? {
        SettleKeepsLinks(s.surfaces, i.value, s.buffers[i.value].(inputDone := true));
      }
  }

  lemma {:induction false} PumpAvoids(s: State, c: nat, events: seq<Event>, id: nat, b: Buffer)
    requires Newest(s, id, b)
    requires forall k :: 0 <= k < |events| ==> events[k].tag != b.tag
    ensures Newest(Pump(s, c, events), id, b)
    ensures SameLinks(s, Pump(s, c, events))
    decreases |events|
  {
    hide Hardware, Newest;
    if events != [] {
      EventAvoids(s, c, events[0], id, b);
      PumpAvoids(Hardware(s, c, events[0]).0, c, events[1..], id, b);
    }
  }

  // t is s without the last queued frame.
  predicate Withdrawn(s: State, t: State, c: nat, id: nat, surface: nat) {
    && id < |s.buffers| && Mine(s.buffers[id], c)
    && surface < |s.surfaces| && s.surfaces[surface].codedBuffer == Some(id)
    && s.queue != [] && s.queue[|s.queue| - 1] == id && t.queue == s.queue[..|s.queue| - 1]
    && t.sequence == s.sequence
    && t.buffers == s.buffers[id := s.buffers[id].(sequence := 0, tag := 0)]
    && t.surfaces == s.surfaces[surface := s.surfaces[surface].(pending := false)]
  }

  lemma WithdrawIs(s: State, c: nat, id: nat, surface: nat)
    requires s.queue != [] && s.queue[|s.queue| - 1] == id
    requires id < |s.buffers| && Mine(s.buffers[id], c)
    requires surface < |s.surfaces| && s.surfaces[surface].codedBuffer == Some(id)
    ensures Withdrawn(s, Withdraw(s, id, surface), c, id, surface)
    ensures Withdraw(s, id, surface).delivery == s.delivery
  {
  }

  lemma WithdrawnKeepsQueue(s: State, t: State, c: nat, id: nat, surface: nat)
    requires Withdrawn(s, t, c, id, surface) && QueueOk(s, c) && OrderOk(s, c)
    ensures QueueOk(t, c) && OrderOk(t, c)
    ensures forall i :: i in t.queue <==> i in s.queue && i != id
  {
    var n := |s.queue| - 1;
    assert forall k :: 0 <= k < n ==> t.queue[k] == s.queue[k] != id;
    forall i ensures i in t.queue <==> i in s.queue && i != id {
      if i in s.queue && i != id {
        var k :| 0 <= k < |s.queue| && s.queue[k] == i;
        assert t.queue[k] == i;
      }
    }
  }

  lemma WithdrawnKeepsRest(s: State, t: State, c: nat, fps: nat, log: seq<Logged>, id: nat, surface: nat)
    requires fps > 0 && Withdrawn(s, t, c, id, surface)
    requires forall i :: i in t.queue <==> i in s.queue && i != id
    requires TagsOk(s, c, fps) && SequencesDiffer(s, c) && WaitingOk(s, c) && LogOk(s.sequence, fps, log)
    ensures TagsOk(t, c, fps) && SequencesDiffer(t, c) && WaitingOk(t, c) && LogOk(t.sequence, fps, log)
  {
    hide FrameTag;
  }

  lemma WithdrawnKeepsContents(s: State, t: State, c: nat, log: seq<Logged>, id: nat, surface: nat)
    requires Withdrawn(s, t, c, id, surface) && ContentsOk(s, c, log)
    ensures ContentsOk(t, c, log)
  {
    hide Joined;
    forall i | 0 <= i < |t.buffers| ensures HoldsFrame(t.buffers[i], c, log) {
      assert HoldsFrame(s.buffers[i], c, log);
    }
  }

  lemma WithdrawnKeepsLinks(s: State, t: State, c: nat, id: nat, surface: nat)
    requires Withdrawn(s, t, c, id, surface) && LinksOk(s, c)
    ensures LinksOk(t, c)
  {
    forall i | 0 <= i < |t.buffers| && Tagged(t.buffers[i], c) && Linked(t, i)
      ensures t.surfaces[t.buffers[i].source.value].pending == !(t.buffers[i].ready && t.buffers[i].inputDone)
    {
      assert i != id && t.buffers[i] == s.buffers[i] && Linked(s, i);
    }
  }

  lemma WithdrawKeeps(s: State, c: nat, fps: nat, log: seq<Logged>, id: nat, surface: nat)
    requires fps > 0 && Inv(s, c, fps, log)
    requires s.queue != [] && s.queue[|s.queue| - 1] == id
    requires id < |s.buffers| && Mine(s.buffers[id], c)
    requires surface < |s.surfaces| && s.surfaces[surface].codedBuffer == Some(id)
    ensures Inv(Withdraw(s, id, surface), c, fps, log)
    ensures Withdraw(s, id, surface).sequence == s.sequence
  {
    hide Withdraw, QueueOk, OrderOk, TagsOk, SequencesDiffer, WaitingOk, ContentsOk, LogOk, LinksOk;
    var t := Withdraw(s, id, surface);
    WithdrawIs(s, c, id, surface);
    WithdrawnKeepsQueue(s, t, c, id, surface);
    WithdrawnKeepsRest(s, t, c, fps, log, id, surface);
    WithdrawnKeepsContents(s, t, c, log, id, surface);
    WithdrawnKeepsLinks(s, t, c, id, surface);
  }

  // The hardware reports nothing about a frame it was not given yet.
  predicate Timely(s: State, fps: nat, events: seq<Event>)
    requires fps > 0
  {
    forall k :: 0 <= k < |events| ==> events[k].tag != FrameTag(NextSequence(s.sequence), fps)
  }

  function SubmitLog(s: State, c: nat, fps: nat, log: seq<Logged>, id: nat, surface: nat, events: seq<Event>)
    : seq<Logged>
  {
    if fps == 0 || !Submittable(s.buffers, s.surfaces, c, id, surface) then log
    else if Accept(s, c, fps, id, surface).1.Fail? then log
    else PumpLog(Accept(s, c, fps, id, surface).0, c, log, events)
  }

  lemma AcceptedIsNewest(s: State, c: nat, fps: nat, id: nat, surface: nat)
    requires fps > 0 && Submittable(s.buffers, s.surfaces, c, id, surface)
    requires Accept(s, c, fps, id, surface).1.Pass?
    ensures
      var t := Accept(s, c, fps, id, surface).0;
      && id < |t.buffers| && Newest(t, id, t.buffers[id]) && Mine(t.buffers[id], c)
      && t.buffers[id].tag == FrameTag(NextSequence(s.sequence), fps)
      && surface < |t.surfaces| && t.surfaces[surface].codedBuffer == Some(id)
  {
    hide Accept, FrameTag;
    AcceptIs(s, c, fps, id, surface);
  }

  lemma SubmitKeeps(
    s: State, c: nat, fps: nat, log: seq<Logged>, id: nat, surface: nat, events: seq<Event>, taken: bool)
    requires 0 < fps <= MICROSECONDS && s.sequence < MAX_FRAMES && Inv(s, c, fps, log) && Timely(s, fps, events)
    ensures Inv(Submit(s, c, fps, id, surface, events, taken).0, c, fps, SubmitLog(s, c, fps, log, id, surface, events))
    ensures Submit(s, c, fps, id, surface, events, taken).0.sequence <= s.sequence + 1
  {
    hide Inv, Accept, Pump, PumpLog, Withdraw, FrameTag, Submittable;
    if Submittable(s.buffers, s.surfaces, c, id, surface) {
      var (accepted, o) := Accept(s, c, fps, id, surface);
      AcceptKeeps(s, c, fps, log, id, surface);
      if o.Pass? {
        PumpKeeps(accepted, c, fps, log, events);
        if !taken {
          AcceptedIsNewest(s, c, fps, id, surface);
          PumpAvoids(accepted, c, events, id, accepted.buffers[id]);
          WithdrawKeeps(Pump(accepted, c, events), c, fps, PumpLog(accepted, c, log, events), id, surface);
        }
      }
    }
  }

  lemma DeliverKeeps(s: State, c: nat, fps: nat, log: seq<Logged>, id: nat)
    requires fps > 0 && Inv(s, c, fps, log)
    ensures Inv(Deliver(s, c, id).0, c, fps, log)
    ensures Deliver(s, c, id).0.sequence == s.sequence
  {
    hide Inv;
    var t := Deliver(s, c, id).0;
    InvLinks(s, c, fps, log);
    SameFlagsKeepLinks(s, t, c);
    SameFramesKeep(s, t, c, fps, log);
  }

  function EnterLog(s: State, c: nat, log: seq<Logged>, id: nat, events: seq<Event>): seq<Logged> {
    if !Live(s.buffers, id) || !s.buffers[id].coded || s.buffers[id].context != c || s.buffers[id].ready then log
    else PumpLog(s, c, log, events)
  }

  lemma EnterKeeps(s: State, c: nat, fps: nat, log: seq<Logged>, id: nat, events: seq<Event>)
    requires Bounded(s, fps) && Inv(s, c, fps, log)
    ensures Inv(Enter(s, c, id, events).0, c, fps, EnterLog(s, c, log, id, events))
    ensures Enter(s, c, id, events).0.sequence == s.sequence
  {
    hide Inv, Pump, PumpLog, Deliver;
    PumpKeeps(s, c, fps, log, events);
    if Live(s.buffers, id) && Mine(s.buffers[id], c) {
      var pumped := if s.buffers[id].ready then s else Pump(s, c, events);
      DeliverKeeps(pumped, c, fps, EnterLog(s, c, log, id, events), id);
    }
  }

  // ---------- A failed submission ----------

  predicate Complete(buffers: seq<Buffer>, c: nat, id: nat) {
    id < |buffers| && Mine(buffers[id], c) && buffers[id].ready
  }

  // The queued buffers whose frames are not complete.
  function StillWaiting(queue: seq<nat>, buffers: seq<Buffer>, c: nat): seq<nat> {
    if queue == [] then []
    else
      var n := |queue| - 1;
      StillWaiting(queue[..n], buffers, c) + if Complete(buffers, c, queue[n]) then [] else [queue[n]]
  }

  lemma {:induction false} AllWaiting(queue: seq<nat>, buffers: seq<Buffer>, c: nat)
    requires forall k :: 0 <= k < |queue| ==> !Complete(buffers, c, queue[k])
    ensures StillWaiting(queue, buffers, c) == queue
  {
    hide Complete;
    if queue != [] {
      AllWaiting(queue[..|queue| - 1], buffers, c);
    }
  }

  lemma {:induction false} OneDone(queue: seq<nat>, k: nat, buffers: seq<Buffer>, c: nat)
    requires k < |queue|
    requires forall i :: 0 <= i < |queue| ==> Complete(buffers, c, queue[i]) == (i == k)
    ensures StillWaiting(queue, buffers, c) == Remove(queue, k)
  {
    hide Complete;
    var n := |queue| - 1;
    if k < n {
      OneDone(queue[..n], k, buffers, c);
      assert Remove(queue[..n], k) + [queue[n]] == Remove(queue, k);
    } else {
      AllWaiting(queue[..n], buffers, c);
    }
  }

  lemma OneMore(queue: seq<nat>, id: nat, buffers: seq<Buffer>, c: nat)
    ensures StillWaiting(queue + [id], buffers, c) ==
            StillWaiting(queue, buffers, c) + if Complete(buffers, c, id) then [] else [id]
  {
    hide Complete;
    assert (queue + [id])[..|queue|] == queue;
  }

  lemma {:induction false} StillWaitingTwice(queue: seq<nat>, first: seq<Buffer>, second: seq<Buffer>, c: nat)
    requires forall i :: Complete(first, c, i) ==> Complete(second, c, i)
    ensures StillWaiting(StillWaiting(queue, first, c), second, c) == StillWaiting(queue, second, c)
  {
    hide Complete;
    if queue != [] {
      var n := |queue| - 1;
      StillWaitingTwice(queue[..n], first, second, c);
      OneMore(StillWaiting(queue[..n], first, c), queue[n], second, c);
      assert StillWaiting(queue[..n], first, c) + [] == StillWaiting(queue[..n], first, c);
    }
  }

  predicate ReadyGrows(s: State, t: State) {
    && |t.buffers| == |s.buffers|
    && forall i :: 0 <= i < |s.buffers| ==>
         && (t.buffers[i].used, t.buffers[i].coded) == (s.buffers[i].used, s.buffers[i].coded)
         && t.buffers[i].context == s.buffers[i].context && (s.buffers[i].ready ==> t.buffers[i].ready)
  }

  lemma EventShortens(s: State, c: nat, fps: nat, e: Event)
    requires Bounded(s, fps) && QueueOk(s, c)
    ensures Hardware(s, c, e).0.queue == StillWaiting(s.queue, Hardware(s, c, e).0.buffers, c)
    ensures ReadyGrows(s, Hardware(s, c, e).0)
  {
    hide StillWaiting, Remove, Settle, StorePacket;
    var t := Hardware(s, c, e).0;
    if e.Packet? {
      PacketShortens(s, c, fps, e);
    } else {
      AllWaiting(s.queue, t.buffers, c);
    }
  }

  lemma PacketShortens(s: State, c: nat, fps: nat, e: Event)
    requires Bounded(s, fps) && QueueOk(s, c) && e.Packet?
    ensures Hardware(s, c, e).0.queue == StillWaiting(s.queue, Hardware(s, c, e).0.buffers, c)
    ensures ReadyGrows(s, Hardware(s, c, e).0)
  {
    hide StillWaiting, Remove, Settle, StorePacket, Stored;
    var t := Hardware(s, c, e).0;
    StorePacketIs(s, c, fps, e.tag, e.data, e.final, e.damaged);
    if e.data != [] && Hardware(s, c, e).1.Pass? {
      var id: nat :| id < |s.buffers| && Stored(s, t, id, e.data, e.final, e.damaged) && Mine(s.buffers[id], c);
      StoredShortens(s, t, c, id, e.data, e.final, e.damaged);
    } else {
      AllWaiting(s.queue, t.buffers, c);
    }
  }

  lemma StoredShortens(s: State, t: State, c: nat, id: nat, data: seq<byte>, final: bool, damaged: bool)
    requires QueueOk(s, c) && Stored(s, t, id, data, final, damaged) && Mine(s.buffers[id], c)
    ensures t.queue == StillWaiting(s.queue, t.buffers, c) && ReadyGrows(s, t)
  {
    hide StillWaiting, Remove, Settle;
    var k :| 0 <= k < |s.queue| && s.queue[k] == id && t.queue == if final then Remove(s.queue, k) else s.queue;
    if final {
      OneDone(s.queue, k, t.buffers, c);
    } else {
      AllWaiting(s.queue, t.buffers, c);
    }
  }

  lemma {:induction false} PumpShortens(s: State, c: nat, fps: nat, log: seq<Logged>, events: seq<Event>)
    requires Bounded(s, fps) && Inv(s, c, fps, log)
    ensures Pump(s, c, events).queue == StillWaiting(s.queue, Pump(s, c, events).buffers, c)
    ensures ReadyGrows(s, Pump(s, c, events))
    decreases |events|
  {
    hide Inv, Hardware, LogAfter, StillWaiting, QueueOk;
    InvQueue(s, c, fps, log);
    if events == [] {
      QueueWaits(s, c);
    } else {
      var t := Hardware(s, c, events[0]).0;
      EventShortens(s, c, fps, events[0]);
      HardwareKeeps(s, c, fps, log, events[0]);
      PumpShortens(t, c, fps, LogAfter(s, c, log, events[0]), events[1..]);
      StillWaitingTwice(s.queue, t.buffers, Pump(t, c, events[1..]).buffers, c);
    }
  }

  lemma QueueWaits(s: State, c: nat)
    requires QueueOk(s, c)
    ensures StillWaiting(s.queue, s.buffers, c) == s.queue
  {
    hide StillWaiting;
    AllWaiting(s.queue, s.buffers, c);
  }

  // A submission the hardware did not take leaves the queue as it was, but for frames completed meanwhile,
  // and the buffer without a frame; its sequence number is spent.
  lemma FailedSubmit(s: State, c: nat, fps: nat, log: seq<Logged>, id: nat, surface: nat, events: seq<Event>)
    requires 0 < fps <= MICROSECONDS && s.sequence < MAX_FRAMES && Inv(s, c, fps, log) && Timely(s, fps, events)
    requires Submittable(s.buffers, s.surfaces, c, id, surface) && Accept(s, c, fps, id, surface).1.Pass?
    ensures
      var t := Submit(s, c, fps, id, surface, events, false).0;
      && t.queue == StillWaiting(s.queue, t.buffers, c)
      && id < |t.buffers| && t.buffers[id].tag == 0 && t.buffers[id].sequence == 0
      && surface < |t.surfaces| && !t.surfaces[surface].pending
      && t.sequence == s.sequence + 1
  {
    hide Inv, Accept, Pump, Withdraw, FrameTag, Submittable, StillWaiting, PumpLog;
    var accepted := Accept(s, c, fps, id, surface).0;
    var pumped := Pump(accepted, c, events);
    AcceptIs(s, c, fps, id, surface);
    AcceptKeeps(s, c, fps, log, id, surface);
    AcceptedIsNewest(s, c, fps, id, surface);
    PumpKeeps(accepted, c, fps, log, events);
    PumpShortens(accepted, c, fps, log, events);
    PumpAvoids(accepted, c, events, id, accepted.buffers[id]);
    WithdrawIs(pumped, c, id, surface);
    var t := Withdraw(pumped, id, surface);
    OneMore(s.queue, id, pumped.buffers, c);
    assert pumped.queue[..|pumped.queue| - 1] == StillWaiting(s.queue, pumped.buffers, c);
    SameReadiness(s.queue, pumped.buffers, t.buffers, c);
  }

  lemma {:induction false} SameReadiness(queue: seq<nat>, a: seq<Buffer>, b: seq<Buffer>, c: nat)
    requires |a| == |b| && forall i :: 0 <= i < |a| ==> Mine(a[i], c) == Mine(b[i], c) && a[i].ready == b[i].ready
    ensures StillWaiting(queue, a, c) == StillWaiting(queue, b, c)
  {
    if queue != [] {
      SameReadiness(queue[..|queue| - 1], a, b, c);
    }
  }
}
