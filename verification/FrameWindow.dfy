/** What the delay ring promises its users (src/frame-ring.hpp): a window over the captures, oldest first,
    whose slots run a small state machine. Positions are logical, 0 being the oldest. */
module FrameWindow {
  import opened Words
  import opened Storage
  import opened RingSelect
  import FrameArena

  type Allocation = FrameArena.Allocation

  datatype SlotState = Free | Reserved | Encoding | Ready | Dropped

  datatype Payload = Payload(allocation: Allocation, bytes: U32, width: U32, height: U32,
                             codec: CodecId, key: bool, chain: U32, seqNo: U32)
  const NO_PAYLOAD := Payload(FrameArena.NoAllocation, 0, 0, 0, Raw, true, NO_CHAIN, 0)

  datatype Slot = Slot(captureNs: nat, generation: nat, state: SlotState, pins: U16, tag: U32, payload: Payload)
  const UNUSED := Slot(0, 0, Free, 0, 0, NO_PAYLOAD)

  datatype Reservation = Reservation(index: nat, generation: nat, captureNs: nat, tag: U32)

  /** first: the index of the slot at position 0. */
  datatype Window = Window(capacity: nat, first: nat, slots: seq<Slot>, lastCaptureNs: nat, reserveFailures: nat)

  function Empty(slotCount: nat): Window { Window(Max(1, slotCount), 0, [], 0, 0) }

  predicate Shaped(w: Window) {
    w.first < w.capacity && |w.slots| <= w.capacity && (|w.slots| < w.capacity ==> w.first == 0)
  }

  function Times(slots: seq<Slot>): (at: seq<nat>)
    ensures |at| == |slots| && forall p :: 0 <= p < |at| ==> at[p] == slots[p].captureNs
  {
    seq(|slots|, p requires 0 <= p < |slots| => slots[p].captureNs)
  }

  function CaptureTimes(w: Window): (at: seq<nat>) { Times(w.slots) }

  function Readies(slots: seq<Slot>): (ready: seq<bool>)
    ensures |ready| == |slots| && forall p :: 0 <= p < |ready| ==> ready[p] == slots[p].state.Ready?
  {
    seq(|slots|, p requires 0 <= p < |slots| => slots[p].state.Ready?)
  }

  function ReadySlots(w: Window): (ready: seq<bool>) { Readies(w.slots) }

  function ChainSlots(w: Window): (chain: seq<ChainSlot>)
    ensures |chain| == |w.slots|
    ensures forall p :: 0 <= p < |chain| ==> chain[p] == AsChainSlot(w.slots[p])
  {
    seq(|w.slots|, p requires 0 <= p < |w.slots| => AsChainSlot(w.slots[p]))
  }

  function AsChainSlot(s: Slot): ChainSlot {
    ChainSlot(s.state.Ready?, s.payload.key, s.payload.chain, s.payload.seqNo, s.payload.codec)
  }

  /** What every reachable window satisfies. */
  ghost predicate Valid(w: Window) {
    && Shaped(w)
    && (forall p, q :: 0 <= p < q < |w.slots| ==> w.slots[p].generation < w.slots[q].generation)
    && (forall p, q :: 0 <= p <= q < |w.slots| ==> w.slots[p].captureNs <= w.slots[q].captureNs)
    && (forall p :: 0 <= p < |w.slots| ==> SlotOk(w.slots[p]) && w.slots[p].captureNs <= w.lastCaptureNs)
  }

  /** A payload and pins belong to Ready slots only. */
  predicate SlotOk(s: Slot) {
    && s.generation > 0 && !s.state.Free?
    && (!s.state.Ready? ==> s.payload == NO_PAYLOAD && s.pins == 0)
  }

  // --- The operations ---

  predicate Busy(s: Slot) { s.state.Reserved? || s.state.Encoding? || s.pins > 0 }

  function NextIndex(w: Window): nat
    requires Shaped(w)
  {
    if |w.slots| == w.capacity then w.first else |w.slots|
  }

  predicate CanReserve(w: Window)
    requires Shaped(w)
  {
    |w.slots| < w.capacity || !Busy(w.slots[0])
  }

  function NewReservation(w: Window, captureNs: nat, tag: U32, generation: nat): Reservation
    requires Shaped(w)
  {
    Reservation(NextIndex(w), generation, Max(captureNs, w.lastCaptureNs), tag)
  }

  /** Appends the new capture; a full window lets go of its oldest one first. */
  function Reserve(w: Window, captureNs: nat, tag: U32, generation: nat): Window
    requires Shaped(w)
  {
    if !CanReserve(w) then
      w.(reserveFailures := w.reserveFailures + 1)
    else
      var r := NewReservation(w, captureNs, tag, generation);
      var slot := Slot(r.captureNs, generation, Reserved, 0, tag, NO_PAYLOAD);
      if |w.slots| < w.capacity then
        w.(slots := w.slots + [slot], lastCaptureNs := r.captureNs)
      else
        w.(slots := w.slots[1..] + [slot], lastCaptureNs := r.captureNs,
           first := if w.first + 1 == w.capacity then 0 else w.first + 1)
  }

  /** The payload a successful Reserve overwrites. */
  function Overwritten(w: Window): Allocation
    requires Shaped(w)
  {
    if |w.slots| == w.capacity then w.slots[0].payload.allocation else FrameArena.NoAllocation
  }

  /** The position of the slot a (index, generation) pair names, if the window still holds it. */
  function Named(w: Window, index: nat, generation: nat): (p: Option<nat>)
    requires Shaped(w)
    ensures p.Some? ==> p.value < |w.slots| && w.slots[p.value].generation == generation
  {
    if index >= w.capacity then None
    else
      var p := if index >= w.first then index - w.first else index + w.capacity - w.first;
      if p < |w.slots| && w.slots[p].generation == generation then Some(p) else None
  }

  predicate InState(w: Window, index: nat, generation: nat, states: set<SlotState>)
    requires Shaped(w)
  {
    Named(w, index, generation).Some? && w.slots[Named(w, index, generation).value].state in states
  }

  function Updated(w: Window, index: nat, generation: nat, slot: Slot -> Slot): Window
    requires Shaped(w)
  {
    var p := Named(w, index, generation);
    if p.None? then w else w.(slots := w.slots[p.value := slot(w.slots[p.value])])
  }

  predicate CanDrop(w: Window, index: nat, generation: nat)
    requires Shaped(w)
  {
    InState(w, index, generation, {Reserved, Encoding})
  }

  function MarkDropped(w: Window, index: nat, generation: nat): Window
    requires Shaped(w)
  {
    if CanDrop(w, index, generation) then Updated(w, index, generation, (s: Slot) => s.(state := Dropped)) else w
  }

  predicate CanBegin(w: Window, index: nat, generation: nat)
    requires Shaped(w)
  {
    InState(w, index, generation, {Reserved})
  }

  function BeginEncode(w: Window, index: nat, generation: nat): Window
    requires Shaped(w)
  {
    if CanBegin(w, index, generation) then Updated(w, index, generation, (s: Slot) => s.(state := Encoding)) else w
  }

  predicate CanPublish(w: Window, index: nat, generation: nat)
    requires Shaped(w)
  {
    InState(w, index, generation, {Encoding})
  }

  function Publish(w: Window, index: nat, generation: nat, payload: Payload): Window
    requires Shaped(w)
  {
    if CanPublish(w, index, generation) then
      Updated(w, index, generation, (s: Slot) => s.(state := Ready, payload := payload))
    else w
  }

  /** A reader pins the slot at a position: the pin counter is 16 bits wide. */
  function Pin(w: Window, p: nat): Window
    requires p < |w.slots|
  {
    w.(slots := w.slots[p := w.slots[p].(pins := Wrap16(w.slots[p].pins + 1))])
  }

  function Unpinned(s: Slot): Slot { if s.pins > 0 then s.(pins := s.pins - 1) else s }

  function Unpin(w: Window, index: nat, generation: nat): Window
    requires Shaped(w)
  {
    Updated(w, index, generation, (s: Slot) => Unpinned(s))
  }

  /** What each operation makes of the slot its pair names: dropped while it waits for its frame, encoding from reserved,
      Ready with its payload from encoding, one reader less; in any other state it stays, and so do all other slots. */
  lemma SlotLife(w: Window, p: nat, payload: Payload)
    requires Shaped(w) && p < |w.slots|
    ensures var index, generation, s := (w.first + p) % w.capacity, w.slots[p].generation, w.slots[p];
            && MarkDropped(w, index, generation)
               == w.(slots := w.slots[p := if s.state == Reserved || s.state == Encoding then s.(state := Dropped) else s])
            && BeginEncode(w, index, generation) == w.(slots := w.slots[p := if s.state == Reserved then s.(state := Encoding) else s])
            && Publish(w, index, generation, payload)
               == w.(slots := w.slots[p := if s.state == Encoding then s.(state := Ready, payload := payload) else s])
            && Unpin(w, index, generation) == w.(slots := w.slots[p := if s.pins > 0 then s.(pins := s.pins - 1) else s])
  {
    RingIndexIsRemainder(w.first, p, w.capacity);
    assert Named(w, (w.first + p) % w.capacity, w.slots[p].generation) == Some(p);
    assert w.slots[p := w.slots[p]] == w.slots;
  }

  /** A pair that names no slot of the window changes nothing. */
  lemma StrangersDoNothing(w: Window, index: nat, generation: nat, payload: Payload)
    requires Shaped(w)
    requires forall p :: 0 <= p < |w.slots| && w.slots[p].generation == generation ==> (w.first + p) % w.capacity != index
    ensures MarkDropped(w, index, generation) == BeginEncode(w, index, generation) == Publish(w, index, generation, payload)
            == Unpin(w, index, generation) == w
  {
    var named := Named(w, index, generation);
    if named.Some? {
      RingIndexIsRemainder(w.first, named.value, w.capacity);
    }
  }

  // --- Where readers look ---

  /** The first Ready slot from position p on, unless a capture past untilNs comes first. */
  function FirstReady(slots: seq<Slot>, p: nat, afterNs: nat, untilNs: nat): (r: Option<nat>)
    requires p <= |slots|
    ensures r.Some? ==> p <= r.value < |slots| && slots[r.value].state.Ready?
    ensures r.Some? ==> afterNs < slots[r.value].captureNs <= untilNs
    decreases |slots| - p
  {
    if p == |slots| || slots[p].captureNs > untilNs then None
    else if slots[p].captureNs > afterNs && slots[p].state.Ready? then Some(p)
    else FirstReady(slots, p + 1, afterNs, untilNs)
  }

  function PositionAfter(slots: seq<Slot>, afterNs: nat): (p: nat)
    ensures p <= |slots|
  {
    var last := DuePosition(Times(slots), afterNs);
    if last == |slots| then 0 else last + 1
  }

  function NextInRange(slots: seq<Slot>, afterNs: nat, untilNs: nat): (r: Option<nat>)
    ensures r.Some? ==> r.value < |slots| && slots[r.value].state.Ready?
    ensures r.Some? ==> afterNs < slots[r.value].captureNs <= untilNs
  {
    FirstReady(slots, PositionAfter(slots, afterNs), afterNs, untilNs)
  }

  method FindInRange(slots: seq<Slot>, afterNs: nat, untilNs: nat) returns (next: Option<nat>)
    requires NonDecreasing(Times(slots))
    ensures next == NextInRange(slots, afterNs, untilNs)
  {
    var count := |slots|;
    var last := LastAtOrBefore(Times(slots), afterNs);
    var p := if last == count then 0 else last + 1;
    while p < count
      invariant p <= count
      invariant NextInRange(slots, afterNs, untilNs) == FirstReady(slots, p, afterNs, untilNs)
    {
      var header := slots[p];
      if header.captureNs > untilNs {
        return None;
      }
      if header.captureNs > afterNs && header.state == Ready {
        return Some(p);
      }
      p := p + 1;
    }
    return None;
  }

  /** Decode-ahead: skips dropped slots and unready ones already due, stops at an unready one to come. */
  function FirstDecodable(slots: seq<Slot>, p: nat, targetNs: nat, windowEndNs: nat): (r: Option<nat>)
    requires p <= |slots|
    ensures r.Some? ==> p <= r.value < |slots| && slots[r.value].state.Ready?
    ensures r.Some? ==> slots[r.value].captureNs <= windowEndNs
    decreases |slots| - p
  {
    if p == |slots| || slots[p].captureNs > windowEndNs then None
    else match slots[p].state
      case Ready => Some(p)
      case Dropped => FirstDecodable(slots, p + 1, targetNs, windowEndNs)
      case Free => None
      case _ => if slots[p].captureNs <= targetNs then FirstDecodable(slots, p + 1, targetNs, windowEndNs) else None
  }

  const DECODE_JUMP_BACK: nat := 8

  function NextForDecode(slots: seq<Slot>, afterNs: U64, targetNs: U64, windowEndNs: U64, lateNs: U64): Option<nat> {
    var jump := DisplayPosition(Times(slots), Readies(slots), targetNs, DECODE_JUMP_BACK);
    if |slots| == 0 then None
    else if Wrap64(afterNs + lateNs) < targetNs && jump < |slots| && slots[jump].captureNs > afterNs then Some(jump)
    else FirstDecodable(slots, PositionAfter(slots, afterNs), targetNs, windowEndNs)
  }

  method FindForDecode(slots: seq<Slot>, afterNs: U64, targetNs: U64, windowEndNs: U64, lateNs: U64)
    returns (next: Option<nat>)
    requires NonDecreasing(Times(slots))
    ensures next == NextForDecode(slots, afterNs, targetNs, windowEndNs, lateNs)
  {
    hide DisplayPosition, DuePosition, FirstDecodable, NonDecreasing, Wrap64;
    var count := |slots|;
    if count == 0 {
      return None;
    }
    if Wrap64(afterNs + lateNs) < targetNs {
      var p := SelectForDisplay(Times(slots), Readies(slots), targetNs, DECODE_JUMP_BACK);
      DisplayPositionIsNewest(Times(slots), Readies(slots), targetNs, DECODE_JUMP_BACK);
      if p != count && slots[p].captureNs > afterNs {
        return Some(p);
      }
    }
    var last := LastAtOrBefore(Times(slots), afterNs);
    next := FindDecodableFrom(slots, if last == count then 0 else last + 1, targetNs, windowEndNs);
  }

  method FindDecodableFrom(slots: seq<Slot>, start: nat, targetNs: nat, windowEndNs: nat) returns (next: Option<nat>)
    requires start <= |slots|
    ensures next == FirstDecodable(slots, start, targetNs, windowEndNs)
  {
    var p := start;
    while p < |slots|
      invariant p <= |slots|
      invariant FirstDecodable(slots, start, targetNs, windowEndNs) == FirstDecodable(slots, p, targetNs, windowEndNs)
    {
      var header := slots[p];
      if header.captureNs > windowEndNs {
        return None;
      }
      match header.state {
        case Ready => return Some(p);
        case Dropped =>
        case Free => return None;
        case _ =>
          if header.captureNs > targetNs {
            return None;
          }
      }
      p := p + 1;
    }
    return None;
  }

  /** Decode-ahead goes past it: dropped, or due already and still not encoded. */
  predicate PassedOver(s: Slot, targetNs: nat) {
    s.state.Dropped? || ((s.state.Reserved? || s.state.Encoding?) && s.captureNs <= targetNs)
  }

  /** The Ready slot captured after afterNs and no later than windowEndNs that nothing before it holds up. */
  ghost predicate NextUp(slots: seq<Slot>, afterNs: nat, targetNs: nat, windowEndNs: nat, q: nat) {
    && q < |slots| && slots[q].state.Ready? && afterNs < slots[q].captureNs <= windowEndNs
    && forall m :: 0 <= m < q && slots[m].captureNs > afterNs ==> PassedOver(slots[m], targetNs)
  }

  lemma {:induction false} FirstDecodableIs(slots: seq<Slot>, p: nat, afterNs: nat, targetNs: nat, windowEndNs: nat, q: nat)
    requires NonDecreasing(Times(slots)) && p <= |slots|
    requires forall m :: 0 <= m < |slots| ==> (m >= p ==> slots[m].captureNs > afterNs)
    requires forall m :: 0 <= m < p ==> slots[m].captureNs <= afterNs || PassedOver(slots[m], targetNs)
    ensures FirstDecodable(slots, p, targetNs, windowEndNs) == Some(q) <==> NextUp(slots, afterNs, targetNs, windowEndNs, q)
    decreases |slots| - p
  {
    var at := Times(slots);
    if p < |slots| {
      assert forall m :: p <= m < |slots| ==> at[p] <= at[m];
      if slots[p].captureNs <= windowEndNs && PassedOver(slots[p], targetNs) {
        FirstDecodableIs(slots, p + 1, afterNs, targetNs, windowEndNs, q);
      }
    }
  }

  lemma AfterIs(slots: seq<Slot>, afterNs: nat)
    requires NonDecreasing(Times(slots))
    ensures forall m :: 0 <= m < |slots| ==> (m >= PositionAfter(slots, afterNs) <==> slots[m].captureNs > afterNs)
  {
    var at := Times(slots);
    assert forall m :: 0 <= m < |slots| ==> at[m] == slots[m].captureNs;
  }

  /** Behind, and with something newer to show, decode-ahead jumps to the slot shown for the target. Otherwise it takes the
      next Ready slot in the window unless a slot still to come holds it up, and nothing only if there is none. */
  lemma NextForDecodeIs(slots: seq<Slot>, afterNs: U64, targetNs: U64, windowEndNs: U64, lateNs: U64)
    requires NonDecreasing(Times(slots))
    ensures var next, shown := NextForDecode(slots, afterNs, targetNs, windowEndNs, lateNs),
                               DisplayPosition(Times(slots), Readies(slots), targetNs, DECODE_JUMP_BACK);
            if Wrap64(afterNs + lateNs) < targetNs && shown < |slots| && slots[shown].captureNs > afterNs then next == Some(shown)
            else (forall q: nat :: next == Some(q) <==> NextUp(slots, afterNs, targetNs, windowEndNs, q))
                 && (next.None? <==> !exists q: nat :: NextUp(slots, afterNs, targetNs, windowEndNs, q))
  {
    AfterIs(slots, afterNs);
    hide DisplayPosition, PositionAfter, FirstDecodable, NextUp, NonDecreasing, Wrap64;
    forall q: nat
      ensures FirstDecodable(slots, PositionAfter(slots, afterNs), targetNs, windowEndNs) == Some(q)
              <==> NextUp(slots, afterNs, targetNs, windowEndNs, q)
    {
      FirstDecodableIs(slots, PositionAfter(slots, afterNs), afterNs, targetNs, windowEndNs, q);
    }
  }

  /** What decode-ahead lands on: a Ready slot it has not passed, inside the window asked for unless it
      jumps, and then the very slot to show for the target. */
  lemma NextForDecodeIsReady(slots: seq<Slot>, afterNs: U64, targetNs: U64, windowEndNs: U64, lateNs: U64)
    requires NonDecreasing(Times(slots))
    ensures var next := NextForDecode(slots, afterNs, targetNs, windowEndNs, lateNs);
            next.Some? ==>
              && next.value < |slots| && slots[next.value].state.Ready?
              && slots[next.value].captureNs > afterNs
              && slots[next.value].captureNs <= Max(targetNs, windowEndNs)
  {
    DisplayPositionIsNewest(Times(slots), Readies(slots), targetNs, DECODE_JUMP_BACK);
    var next := NextForDecode(slots, afterNs, targetNs, windowEndNs, lateNs);
    if next.Some? && next.value >= PositionAfter(slots, afterNs) {
      assert Times(slots)[next.value] > afterNs;
    }
  }

  // --- The reservations a window holds ---

  function Label(s: Slot): (nat, nat, U32) { (s.generation, s.captureNs, s.tag) }

  function LogLabel(r: Reservation): (nat, nat, U32) { (r.generation, r.captureNs, r.tag) }

  /** The slot index of a position, without the remainder. */
  function RingIndex(first: nat, p: nat, n: nat): nat
    requires first < n && p < n
  {
    if first + p < n then first + p else first + p - n
  }

  lemma RingIndexIsRemainder(first: nat, p: nat, n: nat)
    requires first < n && p < n
    ensures (first + p) % n == RingIndex(first, p, n) < n
  {
    WrapOnce(first + p, n);
  }

  // --- What every operation keeps ---

  /** A successful Reserve, slot by slot. */
  lemma ReserveSlots(w: Window, captureNs: nat, tag: U32, generation: nat)
    requires Shaped(w) && CanReserve(w)
    ensures var w' := Reserve(w, captureNs, tag, generation);
            var shift := if |w.slots| == w.capacity then 1 else 0;
            && |w'.slots| == |w.slots| + 1 - shift && w'.capacity == w.capacity
            && (forall p :: 0 <= p < |w'.slots| - 1 ==> w'.slots[p] == w.slots[p + shift])
            && w'.slots[|w'.slots| - 1]
               == Slot(Max(captureNs, w.lastCaptureNs), generation, Reserved, 0, tag, NO_PAYLOAD)
            && w'.first == (if shift == 0 then w.first else if w.first + 1 == w.capacity then 0 else w.first + 1)
            && w'.lastCaptureNs == Max(captureNs, w.lastCaptureNs)
  {
  }

  lemma ReserveKeeps(w: Window, captureNs: nat, tag: U32, generation: nat)
    requires Valid(w) && generation > 0
    requires forall p :: 0 <= p < |w.slots| ==> w.slots[p].generation < generation
    ensures Valid(Reserve(w, captureNs, tag, generation))
  {
    if CanReserve(w) {
      ReserveSlots(w, captureNs, tag, generation);
      hide Reserve;
      assert Valid(Reserve(w, captureNs, tag, generation));
    }
  }

  /** Only the slot a pair names changes, whatever the pair. */
  lemma UpdatedTouchesOnlyNamed(w: Window, index: nat, generation: nat, slot: Slot -> Slot)
    requires Shaped(w)
    ensures var w' := Updated(w, index, generation, slot);
            && |w'.slots| == |w.slots| && w' == w.(slots := w'.slots)
            && forall p :: 0 <= p < |w.slots| && Some(p) != Named(w, index, generation) ==> w'.slots[p] == w.slots[p]
  {
  }

  lemma MarkDroppedKeeps(w: Window, index: nat, generation: nat)
    requires Valid(w)
    ensures Valid(MarkDropped(w, index, generation))
  {
  }

  lemma BeginEncodeKeeps(w: Window, index: nat, generation: nat)
    requires Valid(w)
    ensures Valid(BeginEncode(w, index, generation))
  {
  }

  lemma PublishKeeps(w: Window, index: nat, generation: nat, payload: Payload)
    requires Valid(w)
    ensures Valid(Publish(w, index, generation, payload))
  {
  }

  lemma PinKeeps(w: Window, p: nat)
    requires Valid(w) && p < |w.slots| && w.slots[p].state.Ready?
    ensures Valid(Pin(w, p))
  {
  }

  lemma UnpinKeeps(w: Window, index: nat, generation: nat)
    requires Valid(w)
    ensures Valid(Unpin(w, index, generation))
  {
  }
}
