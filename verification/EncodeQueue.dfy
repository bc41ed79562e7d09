/** The ring of coded buffers of src/encode.c, refining the queue as a sequence. */
module EncodeQueue {
  import opened Bitstring
  import opened EncodeState
  import opened Limits
  import opened Wrappers

  // The ring's entries from head on.
  function Entries(ring: seq<nat>, head: nat, count: nat): (r: seq<nat>)
    requires |ring| == MAX_SURFACES
    ensures |r| == count
  {
    seq(count, i requires 0 <= i < count => ring[(head + i) % MAX_SURFACES])
  }

  lemma EntryAt(ring: seq<nat>, head: nat, count: nat, i: nat)
    requires |ring| == MAX_SURFACES && i < count
    ensures Entries(ring, head, count)[i] == ring[(head + i) % MAX_SURFACES]
  {
  }

  // Offsets within the ring reach different cells.
  lemma CellsDiffer(head: nat, i: nat, j: nat)
    requires i < MAX_SURFACES && j < MAX_SURFACES && i != j
    ensures (head + i) % MAX_SURFACES != (head + j) % MAX_SURFACES
  {
  }

  // Writing one entry's cell changes that entry only.
  lemma WriteEntry(ring: seq<nat>, head: nat, count: nat, i: nat, id: nat)
    requires |ring| == MAX_SURFACES && i < count <= MAX_SURFACES
    ensures Entries(ring[(head + i) % MAX_SURFACES := id], head, count) == Entries(ring, head, count)[i := id]
  {
    var cell := (head + i) % MAX_SURFACES;
    var after, goal := Entries(ring[cell := id], head, count), Entries(ring, head, count)[i := id];
    forall j | 0 <= j < count ensures after[j] == goal[j] {
      EntryAt(ring[cell := id], head, count, j);
      EntryAt(ring, head, count, j);
      if j != i {
        CellsDiffer(head, i, j);
      }
    }
  }

  lemma EntriesPrefix(ring: seq<nat>, head: nat, count: nat)
    requires |ring| == MAX_SURFACES
    ensures Entries(ring, head, count + 1)[..count] == Entries(ring, head, count)
  {
  }

  // One more entry behind the tail.
  lemma AppendEntry(ring: seq<nat>, head: nat, count: nat, id: nat)
    requires |ring| == MAX_SURFACES && count < MAX_SURFACES
    ensures Entries(ring[(head + count) % MAX_SURFACES := id], head, count + 1) == Entries(ring, head, count) + [id]
  {
    hide Entries;
    WriteEntry(ring, head, count + 1, count, id);
    EntriesPrefix(ring, head, count);
    UpdateLast(Entries(ring, head, count + 1), id);
  }

  lemma UpdateLast(s: seq<nat>, id: nat)
    requires s != []
    ensures s[|s| - 1 := id] == s[..|s| - 1] + [id]
  {
  }

  // The entries while those behind k are being shifted down, when those up to i are done.
  function Shifted(s: seq<nat>, k: nat, i: nat): seq<nat>
    requires k <= i < |s|
  {
    s[..k] + s[k + 1..i + 1] + s[i..]
  }

  lemma ShiftStep(s: seq<nat>, k: nat, i: nat)
    requires k <= i && i + 1 < |s|
    ensures Shifted(s, k, i)[i := Shifted(s, k, i)[i + 1]] == Shifted(s, k, i + 1)
  {
    assert Shifted(s, k, i)[i + 1] == s[i + 1];
    assert s[i..] == [s[i]] + s[i + 1..];
    assert s[k + 1..i + 2] == s[k + 1..i + 1] + [s[i + 1]];
  }

  lemma ShiftEnds(s: seq<nat>, k: nat)
    requires k < |s|
    ensures Shifted(s, k, k) == s
    ensures Shifted(s, k, |s| - 1)[..|s| - 1] == Remove(s, k)
  {
  }

  lemma QueueKeepsSizes(s: State, context: nat, id: nat, tag: nat)
    ensures Queue(s, context, id, tag).0.surfaces == s.surfaces
    ensures |Queue(s, context, id, tag).0.buffers| == |s.buffers|
  {
  }

  /** The buffer and surface tables of the driver. */
  class Backend {
    var buffers: seq<Buffer>
    var surfaces: seq<Surface>

    constructor (buffers: seq<Buffer>, surfaces: seq<Surface>)
      ensures this.buffers == buffers && this.surfaces == surfaces
    {
      this.buffers, this.surfaces := buffers, surfaces;
    }
  }

  class EncodeContext {
    const id: nat
    const backend: Backend
    const ring: array<nat>
    var head: nat
    var count: nat
    var sequence: nat
    var delivery: nat
    var framesPerSecond: nat

    ghost predicate Valid()
      reads this, ring
    {
      ring.Length == MAX_SURFACES && count <= MAX_SURFACES
    }

    ghost function Value(): State
      requires Valid()
      reads this, ring, backend
    {
      State(Entries(ring[..], head, count), backend.buffers, backend.surfaces, sequence, delivery)
    }

    constructor (id: nat, backend: Backend)
      ensures Valid() && this.id == id && this.backend == backend && fresh(ring)
      ensures Value() == State([], backend.buffers, backend.surfaces, 0, 1)
    {
      this.id, this.backend := id, backend;
      ring := new nat[MAX_SURFACES](i => 0);
      head, count, sequence, delivery, framesPerSecond := 0, 0, 0, 1, 0;
    }

    method QueueCodedBuffer(buffer: nat, tag: nat) returns (o: Outcome)
      requires Valid()
      modifies this`count, ring, backend
      ensures Valid()
      ensures (Value(), o) == Queue(old(Value()), id, buffer, tag)
    {
      hide Entries;
      :- Check(tag != 0, Invalid);
      :- Check(count < MAX_SURFACES, NoSpace);
      :- Check(Live(backend.buffers, buffer) && backend.buffers[buffer].coded && backend.buffers[buffer].context == id,
               NotFound);
      var offset := 0;
      while offset < count
        invariant 0 <= offset <= count && Valid() && Value() == old(Value()) && count == old(count)
        invariant forall k :: 0 <= k < offset ==> Value().queue[k] != buffer
      {
        EntryAt(ring[..], head, count, offset);
        assert Value().queue[offset] == ring[(head + offset) % MAX_SURFACES];
        :- Check(ring[(head + offset) % MAX_SURFACES] != buffer, Already);
        offset := offset + 1;
      }
      var tail := (head + count) % MAX_SURFACES;
      AppendEntry(ring[..], head, count, buffer);
      ghost var written := ring[..][tail := buffer];
      ring[tail] := buffer;
      assert ring[..] == written;
      count := count + 1;
      backend.buffers := backend.buffers[buffer := backend.buffers[buffer].(sequence := sequence, tag := tag)];
      return Pass;
    }

    method RemoveQueueEntry(offset: nat)
      requires Valid() && offset < count
      modifies this`count, ring
      ensures Valid()
      ensures Value() == old(Value()).(queue := Remove(old(Value()).queue, offset))
    {
      hide Entries, Shifted, Remove;
      ghost var before := Entries(ring[..], head, count);
      ShiftEnds(before, offset);
      var index := offset;
      while index + 1 < count
        invariant offset <= index < count && count == old(count)
        invariant Entries(ring[..], head, count) == Shifted(before, offset, index)
      {
        ShiftStep(before, offset, index);
        EntryAt(ring[..], head, count, index + 1);
        var destination, source := (head + index) % MAX_SURFACES, (head + index + 1) % MAX_SURFACES;
        WriteEntry(ring[..], head, count, index, ring[source]);
        ghost var written := ring[..][destination := ring[source]];
        ring[destination] := ring[source];
        assert ring[..] == written;
        index := index + 1;
      }
      EntriesPrefix(ring[..], head, count - 1);
      count := count - 1;
    }

    method RollbackCodedBuffer(buffer: nat)
      requires Valid()
      modifies this`count, backend
      ensures Valid() && Value() == Rollback(old(Value()), buffer)
    {
      hide Entries;
      if count == 0 {
        return;
      }
      EntryAt(ring[..], head, count, count - 1);
      EntriesPrefix(ring[..], head, count - 1);
      var tail := (head + count - 1) % MAX_SURFACES;
      if ring[tail] == buffer {
        count := count - 1;
        if Live(backend.buffers, buffer) {
          backend.buffers := backend.buffers[buffer := backend.buffers[buffer].(sequence := 0, tag := 0)];
        }
      }
    }

    // Clear a surface's pending flag when both its events have come.
    method SettleSurface(buffer: nat, b: Buffer)
      modifies backend`surfaces
      ensures backend.surfaces == Settle(old(backend.surfaces), buffer, b)
    {
      if b.source.Some? && LiveSurface(backend.surfaces, b.source.value) {
        var surface := backend.surfaces[b.source.value];
        if surface.codedBuffer == Some(buffer) && b.ready && b.inputDone {
          backend.surfaces := backend.surfaces[b.source.value := surface.(pending := false)];
        }
      }
    }

    // The offset of the first queued buffer that waits for this tag.
    method FindTagged(tag: nat) returns (offset: nat)
      requires Valid()
      ensures
        var k := FirstTagged(Value().queue, backend.buffers, tag);
        if k.None? then offset == count else Some(offset) == k
    {
      hide Entries, Matches;
      offset := 0;
      while offset < count
        invariant 0 <= offset <= count
        invariant forall k :: 0 <= k < offset ==> !Matches(backend.buffers, Value().queue[k], tag)
      {
        EntryAt(ring[..], head, count, offset);
        if Matches(backend.buffers, ring[(head + offset) % MAX_SURFACES], tag) {
          return;
        }
        offset := offset + 1;
      }
    }

    method StorePacket(tag: nat, data: seq<byte>, final: bool, damaged: bool) returns (o: Outcome)
      requires Valid()
      modifies this`count, ring, backend
      ensures Valid()
      ensures (Value(), o) == EncodeState.StorePacket(old(Value()), tag, data, final, damaged)
    {
      hide Entries, FirstTagged, Settle, Remove;
      :- Check(tag != 0 && count != 0, Invalid);
      var offset := FindTagged(tag);
      :- Check(offset < count, NotFound);
      EntryAt(ring[..], head, count, offset);
      var buffer := ring[(head + offset) % MAX_SURFACES];
      var b := backend.buffers[buffer];
      if |b.contents| + |data| > b.capacity {
        backend.buffers := backend.buffers[buffer := b.(overflowed := true)];
        return Fail(NoSpace);
      }
      b := b.(contents := b.contents + data, packets := b.packets + 1, damaged := b.damaged || damaged,
              ready := b.ready || final);
      backend.buffers := backend.buffers[buffer := b];
      if final {
        RemoveQueueEntry(offset);
        SettleSurface(buffer, b);
      }
      return Pass;
    }

    method StoreInputDone(tag: nat) returns (o: Outcome)
      requires Valid()
      modifies backend
      ensures Valid()
      ensures (Value(), o) == EncodeState.StoreInputDone(old(Value()), id, tag)
    {
      hide Entries, FirstAwaiting, Settle;
      var index := 0;
      while index < |backend.buffers|
        invariant 0 <= index <= |backend.buffers| && backend.buffers == old(backend.buffers)
        invariant backend.surfaces == old(backend.surfaces)
        invariant forall k :: 0 <= k < index ==> !Awaits(backend.buffers[k], id, tag)
      {
        var b := backend.buffers[index];
        if Awaits(b, id, tag) {
          b := b.(inputDone := true);
          backend.buffers := backend.buffers[index := b];
          SettleSurface(index, b);
          return Pass;
        }
        index := index + 1;
      }
      return Fail(NotFound);
    }

    method TakeEvent(e: Event) returns (o: Outcome)
      requires Valid()
      modifies this`count, ring, backend
      ensures Valid()
      ensures (Value(), o) == Hardware(old(Value()), id, e)
    {
      hide Entries, EncodeState.StorePacket, EncodeState.StoreInputDone;
      match e
      case Packet(tag, data, final, damaged) =>
        if data == [] {
          return Pass;
        }
        o := StorePacket(tag, data, final, damaged);
      case InputDone(tag) => o := StoreInputDone(tag);
    }

    method PumpEvents(events: seq<Event>)
      requires Valid()
      modifies this`count, ring, backend
      ensures Valid() && Value() == Pump(old(Value()), id, events)
    {
      hide Entries, Hardware;
      var i := 0;
      assert events[0..] == events;
      while i < |events|
        invariant 0 <= i <= |events| && Valid()
        invariant Pump(Value(), id, events[i..]) == Pump(old(Value()), id, events)
      {
        assert events[i..][1..] == events[i + 1..];
        var o := TakeEvent(events[i]);
        i := i + 1;
      }
      assert events[i..] == [];
    }

    method EndPicture(buffer: nat, surface: nat, events: seq<Event>, taken: bool) returns (o: Outcome)
      requires Valid()
      modifies this`count, this`sequence, ring, backend
      ensures Valid()
      ensures (Value(), o) == Submit(old(Value()), id, framesPerSecond, buffer, surface, events, taken)
    {
      hide Entries, Queue, Pump, Rollback, FrameTag;
      :- Check(Submittable(backend.buffers, backend.surfaces, id, buffer, surface), Invalid);
      :- Check(framesPerSecond != 0, Invalid);
      sequence := NextSequence(sequence);
      var tag := FrameTag(sequence, framesPerSecond);
      backend.buffers := backend.buffers[buffer := Cleared(backend.buffers[buffer], surface)];
      ghost var cleared := Value();
      :- QueueCodedBuffer(buffer, tag);
      QueueKeepsSizes(cleared, id, buffer, tag);
      backend.surfaces :=
        backend.surfaces[surface := backend.surfaces[surface].(pending := true, codedBuffer := Some(buffer))];
      PumpEvents(events);
      if !taken {
        RollbackCodedBuffer(buffer);
        if surface < |backend.surfaces| {
          backend.surfaces := backend.surfaces[surface := backend.surfaces[surface].(pending := false)];
        }
        return Fail(Busy);
      }
      return Pass;
    }

    // venus_encode_sync_surface_locked for a surface whose frame is in a buffer of this context.
    method SyncSurface(f: nat, events: seq<Event>) returns (o: Outcome)
      requires Valid() && f < |backend.surfaces|
      modifies this`count, ring, backend
      ensures Valid()
      ensures (Value(), o) == Sync(old(Value()), id, f, events)
    {
      hide Entries, Pump;
      var b := backend.surfaces[f].codedBuffer;
      :- Check(b.Some? && Live(backend.buffers, b.value) && backend.buffers[b.value].context == id, NotFound);
      PumpEvents(events);
      :- Check(f < |backend.surfaces| && !backend.surfaces[f].pending, Busy);
      return Pass;
    }

    // The part of backend_begin_picture that waits for the frame last taken from the surface.
    method BeginPicture(f: nat, events: seq<Event>) returns (o: Outcome)
      requires Valid()
      modifies this`count, ring, backend
      ensures Valid()
      ensures (Value(), o) == Begin(old(Value()), id, f, events)
    {
      hide Entries, Sync;
      :- Check(LiveSurface(backend.surfaces, f), Invalid);
      if backend.surfaces[f].pending {
        :- SyncSurface(f, events);
      }
      :- Check(f < |backend.surfaces| && backend.surfaces[f].ready, Invalid);
      return Pass;
    }

    // backend_destroy_buffer for a buffer of this context.
    method DestroyBuffer(buffer: nat, events: seq<Event>) returns (o: Outcome)
      requires Valid()
      modifies this`count, ring, backend
      ensures Valid()
      ensures (Value(), o) == Destroy(old(Value()), id, buffer, events)
    {
      hide Entries, Sync;
      :- Check(Live(backend.buffers, buffer) && backend.buffers[buffer].context == id, Invalid);
      var b := backend.buffers[buffer];
      if b.coded && b.source.Some? && LiveSurface(backend.surfaces, b.source.value) {
        var f := b.source.value;
        if backend.surfaces[f].codedBuffer == Some(buffer) {
          if backend.surfaces[f].pending {
            var synced := SyncSurface(f, events);
            :- Check(synced.Pass? && f < |backend.surfaces|, Busy);
          }
          backend.surfaces := backend.surfaces[f := backend.surfaces[f].(codedBuffer := None)];
        }
      }
      if buffer < |backend.buffers| {
        backend.buffers := backend.buffers[buffer := FREE];
      }
      return Pass;
    }

    // wait_coded_delivery_locked from one acquisition of the lock to the next release.
    method DeliverRegion(buffer: nat) returns (turn: Turn)
      requires Valid()
      modifies this`delivery, backend
      ensures Valid()
      ensures (Value(), turn) == Deliver(old(Value()), id, buffer)
    {
      hide Entries;
      if !Live(backend.buffers, buffer) || backend.buffers[buffer].context != id {
        return Refused(NotFound);
      }
      var b := backend.buffers[buffer];
      if !b.delivered && b.sequence != delivery {
        return if b.sequence < delivery then Refused(Invalid) else Again;
      }
      if !b.delivered {
        delivery := delivery + 1;
        backend.buffers := backend.buffers[buffer := b.(delivered := true)];
      }
      return Delivered;
    }

    // The first region of a client that maps a coded buffer.
    method MapRegion(buffer: nat, events: seq<Event>) returns (turn: Turn)
      requires Valid()
      modifies this`count, this`delivery, ring, backend
      ensures Valid()
      ensures (Value(), turn) == Enter(old(Value()), id, buffer, events)
    {
      hide Entries, Pump;
      if !Live(backend.buffers, buffer) || !backend.buffers[buffer].coded || backend.buffers[buffer].context != id {
        return Refused(NotFound);
      }
      if !backend.buffers[buffer].ready {
        PumpEvents(events);
      }
      if !Live(backend.buffers, buffer) || !backend.buffers[buffer].ready {
        return Refused(Busy);
      }
      if backend.buffers[buffer].tag == 0 {
        return Refused(NotFound);
      }
      turn := DeliverRegion(buffer);
    }
  }

  // The encode contexts of the driver, by id.
  ghost predicate AllValid(backend: Backend, contexts: map<nat, EncodeContext>)
    reads set c | c in contexts :: contexts[c], set c | c in contexts :: contexts[c].ring
  {
    && (forall c :: c in contexts ==>
          contexts[c].id == c && contexts[c].backend == backend && contexts[c].Valid())
    && forall c, d :: c in contexts && d in contexts && c != d ==> contexts[c].ring != contexts[d].ring
  }

  // A waiting client that wakes: the buffer is looked up again, and its turn is one of the context it belongs to now.
  method WakeRegion(backend: Backend, contexts: map<nat, EncodeContext>, buffer: nat) returns (turn: Turn)
    requires AllValid(backend, contexts)
    modifies backend, set c | c in contexts :: contexts[c]
    ensures AllValid(backend, contexts)
    ensures
      if Live(old(backend.buffers), buffer) && old(backend.buffers)[buffer].context in contexts then
        var d := old(backend.buffers)[buffer].context;
        && (contexts[d].Value(), turn) == Deliver(old(contexts[d].Value()), d, buffer)
        && forall c :: c in contexts && c != d ==> unchanged(contexts[c])
      else
        turn == Refused(NotFound) && unchanged(backend) && forall c :: c in contexts ==> unchanged(contexts[c])
  {
    if !Live(backend.buffers, buffer) || backend.buffers[buffer].context !in contexts {
      return Refused(NotFound);
    }
    turn := contexts[backend.buffers[buffer].context].DeliverRegion(buffer);
  }

  // venus_encode_sync_surface_locked: the context that pumps is that of the buffer the surface waits for.
  method SyncRegion(backend: Backend, contexts: map<nat, EncodeContext>, f: nat, events: seq<Event>)
    returns (o: Outcome)
    requires AllValid(backend, contexts) && f < |backend.surfaces|
    modifies backend, set c | c in contexts :: contexts[c], set c | c in contexts :: contexts[c].ring
    ensures AllValid(backend, contexts)
    ensures
      var b := old(backend.surfaces)[f].codedBuffer;
      if b.Some? && Live(old(backend.buffers), b.value) && old(backend.buffers)[b.value].context in contexts then
        var d := old(backend.buffers)[b.value].context;
        && (contexts[d].Value(), o) == Sync(old(contexts[d].Value()), d, f, events)
        && forall c :: c in contexts && c != d ==> unchanged(contexts[c]) && unchanged(contexts[c].ring)
      else
        o == Fail(NotFound) && unchanged(backend) && forall c :: c in contexts ==> unchanged(contexts[c])
  {
    var b := backend.surfaces[f].codedBuffer;
    :- Check(b.Some? && Live(backend.buffers, b.value) && backend.buffers[b.value].context in contexts, NotFound);
    o := contexts[backend.buffers[b.value].context].SyncSurface(f, events);
  }
}
