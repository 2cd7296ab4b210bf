/** The delay ring as it is kept in memory (src/frame-ring.cpp): an array of headers used round and round.
    Every operation refines the one of the same name on the plain window. */
module FrameRing {
  import opened Words
  import opened Storage
  import opened RingSelect
  import opened FrameWindow
  import FrameArena

  /** Generations are unique across every ring: one counter, shared. */
  class GenerationSource {
    var next: nat

    constructor ()
      ensures next == 1
    {
      next := 1;
    }

    method Take() returns (generation: nat)
      modifies this
      ensures generation == old(next) && next == generation + 1
    {
      generation := next;
      next := next + 1;
    }
  }

  /** A Ready slot pinned by a reader. */
  datatype ReadView = ReadView(index: nat, generation: nat, captureNs: nat, tag: U32, payload: Payload)

  datatype DecodePlan = DecodePlan(due: bool, dueNs: nat, found: bool, keyNs: nat, catchUp: nat,
                                   nextKey: bool, framesToNextKey: nat, choice: StartChoice)
  const NO_PLAN := DecodePlan(false, 0, false, 0, 0, false, 0, WaitForKey)

  function ViewOf(w: Window, p: nat): ReadView
    requires Shaped(w) && p < |w.slots|
  {
    var s := w.slots[p];
    ReadView(RingIndex(w.first, p, w.capacity), s.generation, s.captureNs, s.tag, s.payload)
  }

  /** The ring's fields, as one value. */
  datatype Memory = Memory(headers: seq<Slot>, writeIndex: nat, buffered: nat, oldest: nat,
                           lastCaptureNs: nat, reserveFailures: nat)

  predicate Indexed(m: Memory) {
    && m.buffered <= |m.headers| && m.writeIndex < |m.headers| && m.oldest < |m.headers|
    && (if m.buffered < |m.headers| then m.oldest == 0 && m.writeIndex == m.buffered else m.oldest == m.writeIndex)
  }

  /** Headers kept round and round, seen oldest first. */
  ghost function Unrolled(m: Memory): (w: Window)
    requires Indexed(m)
    ensures Shaped(w) && |w.slots| == m.buffered && w.capacity == |m.headers| && w.first == m.oldest
    ensures forall p :: 0 <= p < m.buffered ==> w.slots[p] == m.headers[RingIndex(m.oldest, p, |m.headers|)]
  {
    Window(|m.headers|, m.oldest,
           seq(m.buffered, p requires 0 <= p < m.buffered => m.headers[RingIndex(m.oldest, p, |m.headers|)]),
           m.lastCaptureNs, m.reserveFailures)
  }

  ghost predicate Sound(m: Memory, nextGeneration: nat) {
    && Indexed(m)
    && FrameWindow.Valid(Unrolled(m))
    && (forall i :: m.buffered <= i < |m.headers| ==> m.headers[i] == UNUSED)
    && nextGeneration > 0
    && (forall p :: 0 <= p < m.buffered ==> Unrolled(m).slots[p].generation < nextGeneration)
  }

  function Overwrite(m: Memory, captureNs: nat, tag: U32, generation: nat): Memory
    requires Indexed(m)
  {
    var captured := Max(captureNs, m.lastCaptureNs);
    var next := if m.writeIndex + 1 == |m.headers| then 0 else m.writeIndex + 1;
    Memory(m.headers[m.writeIndex := Slot(captured, generation, Reserved, 0, tag, NO_PAYLOAD)], next,
           Min(m.buffered + 1, |m.headers|), if m.buffered < |m.headers| then 0 else next, captured, m.reserveFailures)
  }

  /** Overwriting the header at the write position and moving on is the window's Reserve. */
  lemma OverwriteIsReserve(m: Memory, captureNs: nat, tag: U32, generation: nat)
    requires Indexed(m) && CanReserve(Unrolled(m))
    ensures Indexed(Overwrite(m, captureNs, tag, generation))
    ensures Unrolled(Overwrite(m, captureNs, tag, generation))
            == FrameWindow.Reserve(Unrolled(m), captureNs, tag, generation)
  {
    var w' := FrameWindow.Reserve(Unrolled(m), captureNs, tag, generation);
    var u := Unrolled(Overwrite(m, captureNs, tag, generation));
    assert u.slots == w'.slots;
  }

  lemma OverwriteIsSound(m: Memory, captureNs: nat, tag: U32, generation: nat)
    requires Sound(m, generation) && CanReserve(Unrolled(m))
    ensures Sound(Overwrite(m, captureNs, tag, generation), generation + 1)
  {
    OverwriteIsReserve(m, captureNs, tag, generation);
    ReserveKeeps(Unrolled(m), captureNs, tag, generation);
  }

  /** Reserve() looks at one header only: it is the oldest slot of a full ring, and unused otherwise. */
  lemma WriteHeader(m: Memory, generation: nat)
    requires Sound(m, generation)
    ensures CanReserve(Unrolled(m)) <==> !Busy(m.headers[m.writeIndex])
    ensures m.headers[m.writeIndex].payload.allocation == Overwritten(Unrolled(m))
    ensures NextIndex(Unrolled(m)) == m.writeIndex
  {
    if m.buffered == |m.headers| {
      assert Unrolled(m).slots[0] == m.headers[m.writeIndex];
    }
  }

  lemma FailureIsReserve(m: Memory, captureNs: nat, tag: U32, generation: nat)
    requires Sound(m, generation) && !CanReserve(Unrolled(m))
    ensures var m' := m.(reserveFailures := m.reserveFailures + 1);
            Sound(m', generation) && Unrolled(m') == FrameWindow.Reserve(Unrolled(m), captureNs, tag, generation)
  {
    assert Unrolled(m.(reserveFailures := m.reserveFailures + 1)).slots == Unrolled(m).slots;
  }

  /** A header is the slot at its position, or was never reserved. */
  lemma HeaderAt(m: Memory, nextGeneration: nat, index: nat)
    requires Sound(m, nextGeneration) && index < |m.headers|
    ensures forall generation :: Named(Unrolled(m), index, generation).Some? <==>
                                   !m.headers[index].state.Free? && m.headers[index].generation == generation
    ensures forall generation :: Named(Unrolled(m), index, generation).Some? ==>
                                   Unrolled(m).slots[Named(Unrolled(m), index, generation).value] == m.headers[index]
  {
    var p := if index >= m.oldest then index - m.oldest else index + |m.headers| - m.oldest;
    if p < m.buffered {
      assert Unrolled(m).slots[p] == m.headers[index];
      assert SlotOk(Unrolled(m).slots[p]);
    } else {
      assert m.headers[index] == UNUSED;
    }
  }

  /** Changing the header a pair names is changing the window's slot of that name. */
  lemma ChangeIsUpdate(m: Memory, nextGeneration: nat, index: nat, generation: nat, change: Slot -> Slot)
    requires Sound(m, nextGeneration) && index < |m.headers| && Named(Unrolled(m), index, generation).Some?
    requires FrameWindow.Valid(Updated(Unrolled(m), index, generation, change))
    requires change(m.headers[index]).generation == m.headers[index].generation
    ensures var m' := m.(headers := m.headers[index := change(m.headers[index])]);
            Sound(m', nextGeneration) && Unrolled(m') == Updated(Unrolled(m), index, generation, change)
  {
    HeaderAt(m, nextGeneration, index);
    var p := Named(Unrolled(m), index, generation).value;
    var m' := m.(headers := m.headers[index := change(m.headers[index])]);
    assert Unrolled(m').slots == Unrolled(m).slots[p := change(m.headers[index])];
  }

  /** Unpinning a slot that is gone, or that nobody pins, does nothing. */
  lemma UnpinIdle(w: Window, index: nat, generation: nat)
    requires Shaped(w)
    requires Named(w, index, generation).Some? ==> w.slots[Named(w, index, generation).value].pins == 0
    ensures FrameWindow.Unpin(w, index, generation) == w
  {
    assert FrameWindow.Unpin(w, index, generation).slots == w.slots;
  }

  lemma PinsAreNamed(m: Memory, nextGeneration: nat, index: nat)
    requires Sound(m, nextGeneration) && index < |m.headers| && m.headers[index].pins > 0
    ensures Named(Unrolled(m), index, m.headers[index].generation).Some?
  {
    HeaderAt(m, nextGeneration, index);
    var p := if index >= m.oldest then index - m.oldest else index + |m.headers| - m.oldest;
    if p < m.buffered {
      assert SlotOk(Unrolled(m).slots[p]);
    }
  }

  lemma Unpinning(m: Memory, nextGeneration: nat, index: nat, generation: nat)
    requires Sound(m, nextGeneration) && index < |m.headers| && Named(Unrolled(m), index, generation).Some?
    ensures var m' := m.(headers := m.headers[index := Unpinned(m.headers[index])]);
            Sound(m', nextGeneration) && Unrolled(m') == FrameWindow.Unpin(Unrolled(m), index, generation)
  {
    UnpinKeeps(Unrolled(m), index, generation);
    ChangeIsUpdate(m, nextGeneration, index, generation, (s: Slot) => Unpinned(s));
  }

  function PinnedAt(m: Memory, p: nat): Memory
    requires Indexed(m) && p < m.buffered
  {
    var index := RingIndex(m.oldest, p, |m.headers|);
    m.(headers := m.headers[index := m.headers[index].(pins := Wrap16(m.headers[index].pins + 1))])
  }

  lemma Pinning(m: Memory, nextGeneration: nat, p: nat)
    requires Sound(m, nextGeneration) && p < m.buffered && Unrolled(m).slots[p].state.Ready?
    ensures Sound(PinnedAt(m, p), nextGeneration) && Unrolled(PinnedAt(m, p)) == Pin(Unrolled(m), p)
  {
    PinKeeps(Unrolled(m), p);
    var m' := PinnedAt(m, p);
    assert Unrolled(m').slots == Pin(Unrolled(m), p).slots;
  }

  lemma WindowValid(m: Memory, nextGeneration: nat)
    requires Sound(m, nextGeneration)
    ensures FrameWindow.Valid(Unrolled(m)) && NonDecreasing(CaptureTimes(Unrolled(m)))
  {
  }

  class FrameRing {
    const headers: array<Slot>
    const generations: GenerationSource
    var writeIndex: nat
    var buffered: nat
    var oldest: nat
    var lastCaptureNs: nat
    var reserveFailures: nat

    ghost function Value(): Memory
      reads this, headers
    {
      Memory(headers[..], writeIndex, buffered, oldest, lastCaptureNs, reserveFailures)
    }

    /** The ring seen oldest first. */
    ghost function Logical(): (w: Window)
      requires Indexed(Value())
      reads this, headers
    {
      Unrolled(Value())
    }

    ghost predicate Valid()
      reads this, headers, generations
    {
      Indexed(Value()) && Sound(Value(), generations.next)
    }

    constructor (slotCount: nat, generations: GenerationSource)
      requires generations.next > 0
      ensures Valid() && Logical() == Empty(slotCount)
      ensures this.generations == generations && fresh(headers)
    {
      headers := new Slot[Max(1, slotCount)](_ => UNUSED);
      this.generations := generations;
      writeIndex, buffered, oldest, lastCaptureNs, reserveFailures := 0, 0, 0, 0, 0;
    }

    /** The critical section of Reserve(): the overwritten payload is handed back for the arena. */
    method ReserveLocked(captureNs: nat, tag: U32)
      returns (out: Option<Reservation>, previous: FrameArena.Allocation)
      requires Valid()
      modifies this, headers, generations
      ensures Valid()
      ensures Logical() == FrameWindow.Reserve(old(Logical()), captureNs, tag, old(generations.next))
      ensures out == (if CanReserve(old(Logical()))
                      then Some(NewReservation(old(Logical()), captureNs, tag, old(generations.next))) else None)
      ensures previous == (if out.Some? then Overwritten(old(Logical())) else FrameArena.NoAllocation)
      ensures generations.next == old(generations.next) + (if out.Some? then 1 else 0)
      ensures var taken := old(headers[writeIndex]); out.None? <==> taken.state == Reserved || taken.state == Encoding || taken.pins > 0
      ensures out.Some? ==> out.value.index == old(writeIndex) && out.value.captureNs == Max(captureNs, old(lastCaptureNs))
                            && out.value.tag == tag && previous == old(headers[writeIndex]).payload.allocation
    {
      hide Sound, FrameWindow.Valid;
      WriteHeader(Value(), generations.next);
      var header := headers[writeIndex];
      if header.state == Reserved || header.state == Encoding || header.pins > 0 {
        FailureIsReserve(Value(), captureNs, tag, generations.next);
        reserveFailures := reserveFailures + 1;
        return None, FrameArena.NoAllocation;
      }
      var reservation;
      reservation, previous := ClaimLocked(captureNs, tag);
      out := Some(reservation);
    }

    method ClaimLocked(captureNs: nat, tag: U32) returns (out: Reservation, previous: FrameArena.Allocation)
      requires Valid() && CanReserve(Logical())
      modifies this, headers, generations
      ensures Valid()
      ensures Value() == Overwrite(old(Value()), captureNs, tag, old(generations.next))
      ensures Logical() == FrameWindow.Reserve(old(Logical()), captureNs, tag, old(generations.next))
      ensures out == NewReservation(old(Logical()), captureNs, tag, old(generations.next))
      ensures previous == Overwritten(old(Logical()))
      ensures generations.next == old(generations.next) + 1
    {
      hide Sound, FrameWindow.Valid;
      ghost var before := Value();
      WriteHeader(before, generations.next);
      OverwriteIsReserve(before, captureNs, tag, generations.next);
      OverwriteIsSound(before, captureNs, tag, generations.next);
      previous := headers[writeIndex].payload.allocation;
      var captured := Max(captureNs, lastCaptureNs);
      lastCaptureNs := captured;
      var generation := generations.Take();
      headers[writeIndex] := Slot(captured, generation, Reserved, 0, tag, NO_PAYLOAD);
      out := Reservation(writeIndex, generation, captured, tag);
      Advance();
      assert Value() == Overwrite(before, captureNs, tag, generation);
    }

    /** The write position moves on; the window grows until it holds every slot, then slides. */
    method Advance()
      requires Indexed(Value())
      modifies this`writeIndex, this`buffered, this`oldest
      ensures writeIndex == if old(writeIndex) + 1 == headers.Length then 0 else old(writeIndex) + 1
      ensures buffered == Min(old(buffered) + 1, headers.Length)
      ensures oldest == if old(buffered) < headers.Length then 0 else writeIndex
    {
      hide Sound, FrameWindow.Valid;
      WrapOnce(writeIndex + 1, headers.Length);
      writeIndex := (writeIndex + 1) % headers.Length;
      if buffered < headers.Length {
        buffered := buffered + 1;
      }
      WrapOnce(writeIndex + headers.Length - buffered, headers.Length);
      oldest := (writeIndex + headers.Length - buffered) % headers.Length;
    }

    method MarkDropped(index: nat, generation: nat) returns (ok: bool)
      requires Valid()
      modifies headers
      ensures Valid() && Logical() == FrameWindow.MarkDropped(old(Logical()), index, generation)
      ensures ok == CanDrop(old(Logical()), index, generation)
    {
      hide Sound, FrameWindow.Valid;
      if index >= headers.Length {
        return false;
      }
      HeaderAt(Value(), generations.next, index);
      var header := headers[index];
      if header.generation != generation || (header.state != Reserved && header.state != Encoding) {
        return false;
      }
      WindowValid(Value(), generations.next);
      MarkDroppedKeeps(Logical(), index, generation);
      ChangeIsUpdate(Value(), generations.next, index, generation, (s: Slot) => s.(state := Dropped));
      headers[index] := header.(state := Dropped);
      assert Value() == old(Value()).(headers := old(headers[..])[index := header.(state := Dropped)]);
      return true;
    }

    method BeginEncode(index: nat, generation: nat) returns (ok: bool)
      requires Valid()
      modifies headers
      ensures Valid() && Logical() == FrameWindow.BeginEncode(old(Logical()), index, generation)
      ensures ok == CanBegin(old(Logical()), index, generation)
    {
      hide Sound, FrameWindow.Valid;
      if index >= headers.Length {
        return false;
      }
      HeaderAt(Value(), generations.next, index);
      var header := headers[index];
      if header.generation != generation || header.state != Reserved {
        return false;
      }
      WindowValid(Value(), generations.next);
      BeginEncodeKeeps(Logical(), index, generation);
      ChangeIsUpdate(Value(), generations.next, index, generation, (s: Slot) => s.(state := Encoding));
      headers[index] := header.(state := Encoding);
      assert Value() == old(Value()).(headers := old(headers[..])[index := header.(state := Encoding)]);
      return true;
    }

    method Publish(index: nat, generation: nat, payload: Payload) returns (ok: bool)
      requires Valid()
      modifies headers
      ensures Valid() && Logical() == FrameWindow.Publish(old(Logical()), index, generation, payload)
      ensures ok == CanPublish(old(Logical()), index, generation)
    {
      hide Sound, FrameWindow.Valid;
      if index >= headers.Length {
        return false;
      }
      HeaderAt(Value(), generations.next, index);
      var header := headers[index];
      if header.generation != generation || header.state != Encoding {
        return false;
      }
      WindowValid(Value(), generations.next);
      PublishKeeps(Logical(), index, generation, payload);
      ChangeIsUpdate(Value(), generations.next, index, generation, (s: Slot) => s.(state := Ready, payload := payload));
      headers[index] := header.(state := Ready, payload := payload);
      assert Value() == old(Value()).(headers := old(headers[..])[index := headers[index]]);
      return true;
    }

    method Unpin(view: ReadView)
      requires Valid()
      modifies headers
      ensures Valid() && Logical() == FrameWindow.Unpin(old(Logical()), view.index, view.generation)
    {
      hide Sound, FrameWindow.Valid;
      if view.index >= headers.Length {
        return;
      }
      HeaderAt(Value(), generations.next, view.index);
      var header := headers[view.index];
      if header.generation == view.generation && header.pins > 0 {
        PinsAreNamed(Value(), generations.next, view.index);
        Unpinning(Value(), generations.next, view.index, view.generation);
        headers[view.index] := header.(pins := header.pins - 1);
        assert Value() == old(Value()).(headers := old(headers[..])[view.index := Unpinned(header)]);
      } else {
        UnpinIdle(Logical(), view.index, view.generation);
      }
    }

    function IndexAt(position: nat): nat
      requires headers.Length > 0
      reads this
    {
      (oldest + position) % headers.Length
    }

    function HeaderAtPosition(p: nat): (header: Slot)
      requires Valid() && p < buffered
      reads this, headers, generations
      ensures header == Logical().slots[p]
    {
      RingIndexIsRemainder(oldest, p, headers.Length);
      headers[IndexAt(p)]
    }

    /** The buffered headers, oldest first. */
    function Snapshot(): (slots: seq<Slot>)
      requires Valid()
      reads this, headers, generations
      ensures slots == Logical().slots
    {
      seq(buffered, p requires Valid() && 0 <= p < buffered reads this, headers, generations => HeaderAtPosition(p))
    }

    function CaptureAt(): (at: seq<nat>)
      requires Valid()
      reads this, headers, generations
      ensures at == CaptureTimes(Logical())
    {
      seq(buffered, p requires Valid() && 0 <= p < buffered reads this, headers, generations =>
        HeaderAtPosition(p).captureNs)
    }

    function ReadyAt(): (ready: seq<bool>)
      requires Valid()
      reads this, headers, generations
      ensures ready == ReadySlots(Logical())
    {
      seq(buffered, p requires Valid() && 0 <= p < buffered reads this, headers, generations =>
        HeaderAtPosition(p).state == Ready)
    }

    function ChainAt(): (chain: seq<ChainSlot>)
      requires Valid()
      reads this, headers, generations
      ensures chain == ChainSlots(Logical())
    {
      seq(buffered, p requires Valid() && 0 <= p < buffered reads this, headers, generations =>
        AsChainSlot(HeaderAtPosition(p)))
    }

    method FillViewLocked(p: nat) returns (out: ReadView)
      requires Valid() && p < buffered && Logical().slots[p].state.Ready?
      modifies headers
      ensures Valid() && Logical() == Pin(old(Logical()), p)
      ensures out == ViewOf(old(Logical()), p)
    {
      hide Sound, FrameWindow.Valid;
      ghost var after := PinnedAt(Value(), p);
      Pinning(Value(), generations.next, p);
      RingIndexIsRemainder(oldest, p, headers.Length);
      var index := IndexAt(p);
      var header := headers[index];
      headers[index] := header.(pins := Wrap16(header.pins + 1));
      assert Value() == after;
      out := ReadView(index, header.generation, header.captureNs, header.tag, header.payload);
    }

    /** Decode-ahead. */
    method PinNextForDecode(afterNs: U64, targetNs: U64, windowEndNs: U64, lateNs: U64) returns (out: Option<ReadView>)
      requires Valid()
      modifies headers
      ensures Valid()
      ensures var next := NextForDecode(old(Logical()).slots, afterNs, targetNs, windowEndNs, lateNs);
              if next.None? then out == None && Logical() == old(Logical())
              else out == Some(ViewOf(old(Logical()), next.value)) && Logical() == Pin(old(Logical()), next.value)
    {
      hide Sound, FrameWindow.Valid;
      WindowValid(Value(), generations.next);
      var next := FindForDecode(Snapshot(), afterNs, targetNs, windowEndNs, lateNs);
      NextForDecodeIsReady(Logical().slots, afterNs, targetNs, windowEndNs, lateNs);
      if next.None? {
        return None;
      }
      var view := FillViewLocked(next.value);
      return Some(view);
    }

    /** Catch-up. */
    method PinNextInRange(afterNs: nat, untilNs: nat) returns (out: Option<ReadView>)
      requires Valid()
      modifies headers
      ensures Valid()
      ensures var next := NextInRange(old(Logical()).slots, afterNs, untilNs);
              if next.None? then out == None && Logical() == old(Logical())
              else out == Some(ViewOf(old(Logical()), next.value)) && Logical() == Pin(old(Logical()), next.value)
    {
      hide Sound, FrameWindow.Valid;
      WindowValid(Value(), generations.next);
      var next := FindInRange(Snapshot(), afterNs, untilNs);
      if next.None? {
        return None;
      }
      var view := FillViewLocked(next.value);
      return Some(view);
    }

    /** Sync path. */
    method PinForDisplay(targetNs: nat, maxBack: nat) returns (out: Option<ReadView>)
      requires Valid()
      modifies headers
      ensures Valid()
      ensures var p := DisplayPosition(CaptureTimes(old(Logical())), ReadySlots(old(Logical())), targetNs, maxBack);
              if p >= |old(Logical()).slots| then out == None && Logical() == old(Logical())
              else out == Some(ViewOf(old(Logical()), p)) && Logical() == Pin(old(Logical()), p)
    {
      hide Sound, FrameWindow.Valid;
      WindowValid(Value(), generations.next);
      var p := SelectForDisplay(CaptureAt(), ReadyAt(), targetNs, maxBack);
      DisplayPositionIsNewest(CaptureAt(), ReadyAt(), targetNs, maxBack);
      if p == buffered {
        return None;
      }
      var view := FillViewLocked(p);
      return Some(view);
    }

    /** Where a reader that has to restart on the frame shown for targetNs begins decoding, in capture times. */
    method PlanDecodeStart(targetNs: nat, maxBack: nat, decodeNs: nat, intervalNs: nat) returns (plan: DecodePlan)
      requires Valid()
      ensures PlanMeets(Logical(), targetNs, maxBack, decodeNs, intervalNs, plan)
    {
      hide Sound, FrameWindow.Valid, DecodableFrom, HiddenByGap, DisplayPosition, ChooseDecodeStart;
      WindowValid(Value(), generations.next);
      var at := CaptureAt();
      var due := SelectForDisplay(at, ReadyAt(), targetNs, maxBack);
      DisplayPositionIsNewest(at, ReadyAt(), targetNs, maxBack);
      if due == buffered {
        return NO_PLAN;
      }
      var start := RingSelect.PlanDecodeStart(ChainAt(), due);
      plan := NO_PLAN.(due := true, dueNs := at[due], found := start.found);
      if start.found {
        plan := plan.(keyNs := at[start.keyPos], catchUp := start.catchUp);
      }
      if start.nextKeyPos.Some? {
        plan := plan.(nextKey := true, framesToNextKey := start.nextKeyPos.value - due);
      }
      ChoiceIsSoonest(start, due, decodeNs, intervalNs);
      plan := plan.(choice := ChooseDecodeStart(start, due, decodeNs, intervalNs));
      assert PlanFrom(Logical(), due, start, decodeNs, intervalNs, plan);
    }
  }

  /** The plan is the decode start of the frame due, told in capture times, and its choice the one that shows a fresh
      frame sooner. */
  ghost predicate PlanFrom(w: Window, due: nat, start: DecodeStart, decodeNs: nat, intervalNs: nat, plan: DecodePlan)
    requires due < |w.slots|
  {
    var chain := ChainSlots(w);
    && (start.found <==> exists k: nat :: k <= due && DecodableFrom(chain, k, due))
    && (start.found ==> StartsAt(chain, start, due))
    && IsNextKey(chain, due, start.nextKeyPos)
    && plan == DecodePlan(true, w.slots[due].captureNs, start.found,
                          if start.found then w.slots[start.keyPos].captureNs else 0,
                          if start.found then start.catchUp else 0,
                          start.nextKeyPos.Some?,
                          if start.nextKeyPos.Some? then start.nextKeyPos.value - due else 0,
                          plan.choice)
    && (plan.choice == CatchUp
        <==> plan.found && (!plan.nextKey || plan.catchUp * decodeNs <= plan.framesToNextKey * intervalNs))
  }

  ghost predicate PlanMeets(w: Window, targetNs: nat, maxBack: nat, decodeNs: nat, intervalNs: nat, plan: DecodePlan) {
    var due := DisplayPosition(CaptureTimes(w), ReadySlots(w), targetNs, maxBack);
    if due >= |w.slots| then plan == NO_PLAN
    else exists start :: PlanFrom(w, due, start, decodeNs, intervalNs, plan)
  }
}
