/** Every interleaving of operations on any number of delay rings that share one generation counter: what a
    window holds, and what a (index, generation) pair can still reach. */
module RingRuns {
  import opened Words
  import opened FrameWindow
  import opened RingSelect

  /** log: every successful reservation so far; published: the generations whose Publish succeeded. */
  datatype Ring = Ring(window: Window, log: seq<Reservation>, published: seq<nat>)
  datatype Rings = Rings(rings: seq<Ring>, nextGeneration: nat)

  datatype Event =
    | Create(slotCount: nat)
    | OnReserve(ring: nat, captureNs: nat, tag: U32)
    | OnMarkDropped(ring: nat, index: nat, generation: nat)
    | OnBeginEncode(ring: nat, index: nat, generation: nat)
    | OnPublish(ring: nat, index: nat, generation: nat, payload: Payload)
    | OnPin(ring: nat, position: nat)
    | OnUnpin(ring: nat, index: nat, generation: nat)

  const START := Rings([], 1)

  function StepRing(r: Ring, e: Event, generation: nat): Ring
    requires Shaped(r.window)
  {
    var w := r.window;
    match e
    case Create(_) => r
    case OnReserve(_, captureNs, tag) =>
      r.(window := Reserve(w, captureNs, tag, generation),
         log := if CanReserve(w) then r.log + [NewReservation(w, captureNs, tag, generation)] else r.log)
    case OnMarkDropped(_, index, g) => r.(window := MarkDropped(w, index, g))
    case OnBeginEncode(_, index, g) => r.(window := BeginEncode(w, index, g))
    case OnPublish(_, index, g, payload) =>
      r.(window := Publish(w, index, g, payload),
         published := if CanPublish(w, index, g) then r.published + [g] else r.published)
    case OnPin(_, p) => if p < |w.slots| && w.slots[p].state.Ready? then r.(window := Pin(w, p)) else r
    case OnUnpin(_, index, g) => r.(window := Unpin(w, index, g))
  }

  predicate AllShaped(s: Rings) {
    forall r :: 0 <= r < |s.rings| ==> Shaped(s.rings[r].window)
  }

  function Step(s: Rings, e: Event): Rings
    requires AllShaped(s)
  {
    if e.Create? then s.(rings := s.rings + [Ring(Empty(e.slotCount), [], [])])
    else if e.ring >= |s.rings| then s
    else Rings(s.rings[e.ring := StepRing(s.rings[e.ring], e, s.nextGeneration)], s.nextGeneration + 1)
  }

  /** The window holds the last reservations of the log, whose capture times never decrease. */
  ghost predicate HoldsLatest(r: Ring) {
    var w, n := r.window, |r.log|;
    && |w.slots| == Min(n, w.capacity)
    && (forall p :: 0 <= p < |w.slots| ==> Label(w.slots[p]) == LogLabel(r.log[n - |w.slots| + p]))
    && w.lastCaptureNs == (if n == 0 then 0 else r.log[n - 1].captureNs)
    && (forall i, j :: 0 <= i <= j < n ==> r.log[i].captureNs <= r.log[j].captureNs)
    && (forall i, j :: 0 <= i < j < n ==> r.log[i].generation < r.log[j].generation)
  }

  /** Reservations get the indices 0, 1, ..., capacity - 1, 0, ... in turn, and the window knows where. */
  function Successor(index: nat, capacity: nat): nat {
    if index + 1 == capacity then 0 else index + 1
  }

  ghost predicate IndexedInTurn(r: Ring) {
    var w, n := r.window, |r.log|;
    && (n > 0 ==> r.log[0].index == 0)
    && (forall i :: 0 < i < n ==> r.log[i].index == Successor(r.log[i - 1].index, w.capacity))
    && Shaped(w) && |w.slots| <= n
    && (forall p :: 0 <= p < |w.slots| ==> r.log[n - |w.slots| + p].index == RingIndex(w.first, p, w.capacity))
  }

  /** A published generation was reserved here, is published once, and is not up for publication again. */
  ghost predicate PublishedOnce(r: Ring) {
    && (forall i, j :: 0 <= i < j < |r.published| ==> r.published[i] != r.published[j])
    && (forall p :: 0 <= p < |r.window.slots| && r.window.slots[p].generation in r.published ==> r.window.slots[p].state.Ready?)
  }

  ghost predicate Numbered(r: Ring, nextGeneration: nat) {
    && (forall i :: 0 <= i < |r.log| ==> 0 < r.log[i].generation < nextGeneration)
    && (forall i :: 0 <= i < |r.published| ==> r.published[i] < nextGeneration)
  }

  ghost predicate RingOk(r: Ring, nextGeneration: nat) {
    && Shaped(r.window) && Valid(r.window)
    && HoldsLatest(r) && IndexedInTurn(r) && PublishedOnce(r) && Numbered(r, nextGeneration)
  }

  ghost predicate Apart(a: Ring, b: Ring) {
    forall i, j :: 0 <= i < |a.log| && 0 <= j < |b.log| ==> a.log[i].generation != b.log[j].generation
  }

  ghost predicate Inv(s: Rings) {
    && s.nextGeneration > 0
    && (forall r :: 0 <= r < |s.rings| ==> RingOk(s.rings[r], s.nextGeneration))
    && (forall a, b :: 0 <= a < |s.rings| && 0 <= b < |s.rings| && a != b ==> Apart(s.rings[a], s.rings[b]))
  }

  lemma SlotGenerationsNumbered(r: Ring, nextGeneration: nat)
    requires HoldsLatest(r) && Numbered(r, nextGeneration)
    ensures forall p :: 0 <= p < |r.window.slots| ==> r.window.slots[p].generation < nextGeneration
  {
    forall p | 0 <= p < |r.window.slots|
      ensures r.window.slots[p].generation < nextGeneration
    {
      assert Label(r.window.slots[p]) == LogLabel(r.log[|r.log| - |r.window.slots| + p]);
    }
  }

  lemma ReserveKeepsRing(r: Ring, captureNs: nat, tag: U32, generation: nat)
    requires RingOk(r, generation) && generation > 0
    ensures RingOk(StepRing(r, OnReserve(0, captureNs, tag), generation), generation + 1)
  {
    hide HoldsLatest, IndexedInTurn, PublishedOnce, Valid;
    SlotGenerationsNumbered(r, generation);
    ReserveKeeps(r.window, captureNs, tag, generation);
    if CanReserve(r.window) {
      ReserveHoldsLatest(r, captureNs, tag, generation);
      ReserveIndexedInTurn(r, captureNs, tag, generation);
      ReservePublishedOnce(r, captureNs, tag, generation);
    } else {
      RefusalKeepsRing(r);
    }
  }

  lemma RefusalKeepsRing(r: Ring)
    requires HoldsLatest(r) && IndexedInTurn(r) && PublishedOnce(r)
    ensures var r' := r.(window := r.window.(reserveFailures := r.window.reserveFailures + 1));
            HoldsLatest(r') && IndexedInTurn(r') && PublishedOnce(r')
  {
    var r' := r.(window := r.window.(reserveFailures := r.window.reserveFailures + 1));
    assert HoldsLatest(r') by { hide IndexedInTurn, PublishedOnce, Label; }
    assert IndexedInTurn(r') by { hide HoldsLatest, PublishedOnce; }
    assert PublishedOnce(r') by { hide HoldsLatest, IndexedInTurn; }
    hide HoldsLatest, IndexedInTurn, PublishedOnce;
  }

  lemma ReserveHoldsLatest(r: Ring, captureNs: nat, tag: U32, generation: nat)
    requires Shaped(r.window) && HoldsLatest(r) && Numbered(r, generation) && CanReserve(r.window)
    ensures HoldsLatest(StepRing(r, OnReserve(0, captureNs, tag), generation))
  {
    var r' := StepRing(r, OnReserve(0, captureNs, tag), generation);
    var w, w', n := r.window, r'.window, |r.log|;
    ReserveSlots(w, captureNs, tag, generation);
    hide Reserve;
    assert r'.log == r.log + [NewReservation(w, captureNs, tag, generation)];
    forall p | 0 <= p < |w'.slots|
      ensures Label(w'.slots[p]) == LogLabel(r'.log[n + 1 - |w'.slots| + p])
    {
      if p < |w'.slots| - 1 {
        var q := p + (|w.slots| + 1 - |w'.slots|);
        assert Label(w.slots[q]) == LogLabel(r.log[n - |w.slots| + q]);
        assert n - |w.slots| + q == n + 1 - |w'.slots| + p;
      }
    }
  }

  /** The next reservation's index follows the last one's. */
  lemma NextInTurn(r: Ring)
    requires IndexedInTurn(r) && HoldsLatest(r)
    ensures NextIndex(r.window) == if r.log == [] then 0 else Successor(r.log[|r.log| - 1].index, r.window.capacity)
    ensures NextIndex(r.window) == if |r.window.slots| == r.window.capacity then r.window.first
                                   else RingIndex(r.window.first, |r.window.slots|, r.window.capacity)
  {
    var w, n := r.window, |r.log|;
    hide Label;
    if n > 0 {
      assert r.log[n - |w.slots| + (|w.slots| - 1)].index == RingIndex(w.first, |w.slots| - 1, w.capacity);
    }
  }

  lemma ReserveIndexedInTurn(r: Ring, captureNs: nat, tag: U32, generation: nat)
    requires IndexedInTurn(r) && HoldsLatest(r) && CanReserve(r.window)
    ensures IndexedInTurn(StepRing(r, OnReserve(0, captureNs, tag), generation))
  {
    var r' := StepRing(r, OnReserve(0, captureNs, tag), generation);
    var w, w', n := r.window, r'.window, |r.log|;
    ReserveSlots(w, captureNs, tag, generation);
    hide Reserve;
    assert r'.log == r.log + [NewReservation(w, captureNs, tag, generation)];
    NextInTurn(r);
    hide HoldsLatest, Label, CanReserve, NextIndex;
    forall p | 0 <= p < |w'.slots|
      ensures r'.log[n + 1 - |w'.slots| + p].index == RingIndex(w'.first, p, w'.capacity)
    {
      if p < |w'.slots| - 1 {
        var q := p + (|w.slots| + 1 - |w'.slots|);
        assert r.log[n - |w.slots| + q].index == RingIndex(w.first, q, w.capacity);
        assert n - |w.slots| + q == n + 1 - |w'.slots| + p;
      }
    }
  }

  lemma ReservePublishedOnce(r: Ring, captureNs: nat, tag: U32, generation: nat)
    requires Shaped(r.window) && PublishedOnce(r) && Numbered(r, generation) && CanReserve(r.window)
    ensures PublishedOnce(StepRing(r, OnReserve(0, captureNs, tag), generation))
  {
    ReserveSlots(r.window, captureNs, tag, generation);
    hide Reserve;
    assert generation !in r.published;
  }

  /** A step that leaves every slot's label, and revives no slot, keeps what the log says. */
  lemma SameLabelsKeepRing(r: Ring, w: Window, generation: nat)
    requires RingOk(r, generation) && Valid(w)
    requires w == r.window.(slots := w.slots) && |w.slots| == |r.window.slots|
    requires forall p :: 0 <= p < |w.slots| ==> Label(w.slots[p]) == Label(r.window.slots[p])
    requires forall p :: 0 <= p < |w.slots| && r.window.slots[p].state.Ready? ==> w.slots[p].state.Ready?
    ensures RingOk(r.(window := w), generation + 1)
  {
    hide Valid;
    var r' := r.(window := w);
    assert HoldsLatest(r') by { hide IndexedInTurn, PublishedOnce; }
    assert IndexedInTurn(r') by { hide HoldsLatest, PublishedOnce; }
    assert PublishedOnce(r') by { hide HoldsLatest, IndexedInTurn; }
    hide HoldsLatest, IndexedInTurn, PublishedOnce;
  }

  /** The first publication of a generation. */
  lemma PublishedOnceGrows(r: Ring, w: Window, p: nat)
    requires PublishedOnce(r.(window := w)) && |w.slots| == |r.window.slots| && p < |w.slots|
    requires PublishedOnce(r) && !r.window.slots[p].state.Ready? && w.slots[p].state.Ready?
    requires r.window.slots[p].generation == w.slots[p].generation
    requires forall q :: 0 <= q < |w.slots| && q != p ==> w.slots[q].generation != w.slots[p].generation
    ensures PublishedOnce(r.(window := w, published := r.published + [w.slots[p].generation]))
  {
    assert w.slots[p].generation !in r.published;
  }

  lemma PublishSlots(w: Window, index: nat, g: nat, payload: Payload)
    requires Shaped(w)
    ensures var w' := Publish(w, index, g, payload);
            && w' == w.(slots := w'.slots) && |w'.slots| == |w.slots|
            && (forall p :: 0 <= p < |w.slots| ==> Label(w'.slots[p]) == Label(w.slots[p]))
            && (forall p :: 0 <= p < |w.slots| && w.slots[p].state.Ready? ==> w'.slots[p].state.Ready?)
            && (CanPublish(w, index, g) ==>
                  Named(w, index, g).Some?
                  && var p := Named(w, index, g).value;
                     w.slots[p].state.Encoding? && w'.slots[p].state.Ready? && w.slots[p].generation == g)
  {
  }

  lemma PublishKeepsRing(r: Ring, index: nat, g: nat, payload: Payload, generation: nat)
    requires RingOk(r, generation)
    ensures RingOk(StepRing(r, OnPublish(0, index, g, payload), generation), generation + 1)
  {
    hide Valid, HoldsLatest, IndexedInTurn, PublishedOnce, Publish, CanPublish, Named, Shaped;
    var w := Publish(r.window, index, g, payload);
    PublishKeeps(r.window, index, g, payload);
    PublishSlots(r.window, index, g, payload);
    UniqueGenerations(w);
    SlotGenerationsNumbered(r, generation);
    SameLabelsKeepRing(r, w, generation);
    if CanPublish(r.window, index, g) {
      PublishedOnceGrows(r, w, Named(r.window, index, g).value);
      var r' := r.(window := w, published := r.published + [g]);
      SameLogSameRing(r.(window := w), r');
      assert StepRing(r, OnPublish(0, index, g, payload), generation) == r';
    }
  }

  lemma SameLogSameRing(r: Ring, r': Ring)
    requires HoldsLatest(r) && IndexedInTurn(r) && r' == r.(published := r'.published)
    ensures HoldsLatest(r') && IndexedInTurn(r')
  {
  }

  lemma UniqueGenerations(w: Window)
    requires Valid(w)
    ensures forall p, q :: 0 <= p < |w.slots| && 0 <= q < |w.slots| && p != q ==> w.slots[p].generation != w.slots[q].generation
  {
  }

  lemma StepKeepsRing(r: Ring, e: Event, generation: nat)
    requires RingOk(r, generation) && generation > 0
    ensures RingOk(StepRing(r, e, generation), generation + 1)
  {
    hide Valid, HoldsLatest, IndexedInTurn, PublishedOnce;
    match e
    case Create(_) => SameLabelsKeepRing(r, r.window, generation);
    case OnReserve(_, captureNs, tag) => ReserveKeepsRing(r, captureNs, tag, generation);
    case OnPublish(_, index, g, payload) => PublishKeepsRing(r, index, g, payload, generation);
    case OnMarkDropped(_, index, g) =>
      MarkDroppedKeeps(r.window, index, g);
      SameLabelsKeepRing(r, MarkDropped(r.window, index, g), generation);
    case OnBeginEncode(_, index, g) =>
      BeginEncodeKeeps(r.window, index, g);
      SameLabelsKeepRing(r, BeginEncode(r.window, index, g), generation);
    case OnPin(_, p) =>
      if p < |r.window.slots| && r.window.slots[p].state.Ready? {
        PinKeeps(r.window, p);
        SameLabelsKeepRing(r, Pin(r.window, p), generation);
      } else {
        SameLabelsKeepRing(r, r.window, generation);
      }
    case OnUnpin(_, index, g) =>
      UnpinKeeps(r.window, index, g);
      SameLabelsKeepRing(r, Unpin(r.window, index, g), generation);
  }

  lemma LogGrowth(r: Ring, e: Event, generation: nat)
    requires Shaped(r.window)
    ensures var log' := StepRing(r, e, generation).log;
            log' == r.log || (|log'| == |r.log| + 1 && log'[..|r.log|] == r.log && log'[|r.log|].generation == generation)
  {
  }

  lemma EmptyRingOk(slotCount: nat, nextGeneration: nat)
    ensures RingOk(Ring(Empty(slotCount), [], []), nextGeneration)
  {
  }

  lemma LaterRingOk(r: Ring, nextGeneration: nat)
    requires RingOk(r, nextGeneration)
    ensures RingOk(r, nextGeneration + 1)
  {
    hide Valid, HoldsLatest, IndexedInTurn, PublishedOnce;
  }

  lemma StepKeeps(s: Rings, e: Event)
    requires Inv(s) && AllShaped(s)
    ensures Inv(Step(s, e)) && AllShaped(Step(s, e))
  {
    hide Apart, Valid, HoldsLatest, IndexedInTurn, PublishedOnce, Numbered, StepRing;
    ShapedStays(s, e);
    var s' := Step(s, e);
    forall a, b | 0 <= a < |s'.rings| && 0 <= b < |s'.rings| && a != b
      ensures Apart(s'.rings[a], s'.rings[b])
    {
      StepKeepsApart(s, e, a, b);
    }
    forall r | 0 <= r < |s'.rings|
      ensures RingOk(s'.rings[r], s'.nextGeneration)
    {
      if e.Create? {
        EmptyRingOk(e.slotCount, s.nextGeneration);
      } else if e.ring < |s.rings| {
        StepKeepsRing(s.rings[e.ring], e, s.nextGeneration);
        LaterRingOk(s.rings[r], s.nextGeneration);
      }
    }
  }

  lemma ApartGrows(a: Ring, b: Ring, a': Ring, generation: nat)
    requires Apart(a, b) && Apart(b, a) && Numbered(b, generation)
    requires a'.log == a.log || (|a'.log| == |a.log| + 1 && a'.log[..|a.log|] == a.log && a'.log[|a.log|].generation == generation)
    ensures Apart(a', b) && Apart(b, a')
  {
    forall i, j | 0 <= i < |a'.log| && 0 <= j < |b.log|
      ensures a'.log[i].generation != b.log[j].generation
    {
      if i < |a.log| {
        assert a'.log[i] == a'.log[..|a.log|][i];
      }
    }
  }

  lemma StepApart(a: Ring, b: Ring, e: Event, generation: nat)
    requires Shaped(a.window) && Apart(a, b) && Apart(b, a) && Numbered(b, generation)
    ensures Apart(StepRing(a, e, generation), b) && Apart(b, StepRing(a, e, generation))
  {
    LogGrowth(a, e, generation);
    hide StepRing, Apart;
    ApartGrows(a, b, StepRing(a, e, generation), generation);
  }

  lemma NewRingApart(r: Ring, slotCount: nat)
    ensures Apart(r, Ring(Empty(slotCount), [], [])) && Apart(Ring(Empty(slotCount), [], []), r)
  {
  }

  lemma StepKeepsApart(s: Rings, e: Event, a: nat, b: nat)
    requires Inv(s) && AllShaped(s) && a != b
    requires a < |Step(s, e).rings| && b < |Step(s, e).rings|
    ensures Apart(Step(s, e).rings[a], Step(s, e).rings[b])
  {
    hide Apart, StepRing, Valid, HoldsLatest, IndexedInTurn, PublishedOnce, Numbered;
    if e.Create? {
      if a == |s.rings| {
        NewRingApart(s.rings[b], e.slotCount);
      } else if b == |s.rings| {
        NewRingApart(s.rings[a], e.slotCount);
      }
    } else if a == e.ring {
      assert RingOk(s.rings[b], s.nextGeneration);
      StepApart(s.rings[a], s.rings[b], e, s.nextGeneration);
    } else if b == e.ring {
      assert RingOk(s.rings[a], s.nextGeneration);
      StepApart(s.rings[b], s.rings[a], e, s.nextGeneration);
    }
  }

  function Run(s: Rings, events: seq<Event>): (s': Rings)
    requires AllShaped(s)
    ensures AllShaped(s')
    decreases |events|
  {
    if events == [] then s
    else
      ShapedStays(s, events[0]);
      Run(Step(s, events[0]), events[1..])
  }

  lemma ShapedStays(s: Rings, e: Event)
    requires AllShaped(s)
    ensures AllShaped(Step(s, e))
  {
  }

  lemma {:induction false} RunKeeps(s: Rings, events: seq<Event>)
    requires AllShaped(s) && Inv(s)
    ensures Inv(Run(s, events))
    decreases |events|
  {
    if events != [] {
      StepKeeps(s, events[0]);
      RunKeeps(Step(s, events[0]), events[1..]);
    }
  }

  /** After any run, each window is the last min(k, slots) of its ring's k reservations, in capture order. */
  lemma WindowIsLatest(events: seq<Event>, r: nat)
    requires r < |Run(START, events).rings|
    ensures var ring := Run(START, events).rings[r];
            var n, count := |ring.log|, |ring.window.slots|;
            && count == Min(n, ring.window.capacity)
            && (forall p :: 0 <= p < count ==> Label(ring.window.slots[p]) == LogLabel(ring.log[n - count + p]))
            && NonDecreasing(CaptureTimes(ring.window))
  {
    RunKeeps(START, events);
    assert RingOk(Run(START, events).rings[r], Run(START, events).nextGeneration);
  }

  /** No job publishes twice, whatever it retries. */
  lemma PublishesOnce(events: seq<Event>, r: nat)
    requires r < |Run(START, events).rings|
    ensures var published := Run(START, events).rings[r].published;
            forall i, j :: 0 <= i < j < |published| ==> published[i] != published[j]
  {
    RunKeeps(START, events);
    assert RingOk(Run(START, events).rings[r], Run(START, events).nextGeneration);
  }

  /** A reservation's pair reaches its own slot while the window holds it, and otherwise nothing: not a slot
      of a later reservation, not a slot of another ring. */
  lemma StaleJobsReachNothing(events: seq<Event>, a: nat, b: nat, k: nat)
    requires var s := Run(START, events); a < |s.rings| && b < |s.rings| && k < |s.rings[a].log|
    ensures var s := Run(START, events);
            var job := s.rings[a].log[k];
            var p := Named(s.rings[b].window, job.index, job.generation);
            p.Some? <==> a == b && k >= |s.rings[a].log| - |s.rings[a].window.slots|
    ensures var s := Run(START, events);
            var job := s.rings[a].log[k];
            var p := Named(s.rings[a].window, job.index, job.generation);
            p.Some? ==> p.value == k - (|s.rings[a].log| - |s.rings[a].window.slots|)
  {
    RunKeeps(START, events);
    var s := Run(START, events);
    assert RingOk(s.rings[a], s.nextGeneration) && RingOk(s.rings[b], s.nextGeneration);
    if a == b {
      JobReaches(s.rings[a], s.nextGeneration, k);
    } else {
      assert Apart(s.rings[a], s.rings[b]);
      JobMisses(s.rings[b], s.nextGeneration, s.rings[a].log[k]);
      JobReaches(s.rings[a], s.nextGeneration, k);
    }
  }

  lemma JobMisses(r: Ring, nextGeneration: nat, job: Reservation)
    requires RingOk(r, nextGeneration) && forall j :: 0 <= j < |r.log| ==> r.log[j].generation != job.generation
    ensures Named(r.window, job.index, job.generation).None?
  {
    hide IndexedInTurn, PublishedOnce, Valid;
    SlotsAreLogged(r);
  }

  lemma SlotsAreLogged(r: Ring)
    requires HoldsLatest(r)
    ensures forall p :: 0 <= p < |r.window.slots| ==>
              exists j :: 0 <= j < |r.log| && r.log[j].generation == r.window.slots[p].generation
  {
    forall p | 0 <= p < |r.window.slots|
      ensures exists j :: 0 <= j < |r.log| && r.log[j].generation == r.window.slots[p].generation
    {
      assert Label(r.window.slots[p]) == LogLabel(r.log[|r.log| - |r.window.slots| + p]);
    }
  }

  lemma JobReaches(r: Ring, nextGeneration: nat, k: nat)
    requires RingOk(r, nextGeneration) && k < |r.log|
    ensures var p := Named(r.window, r.log[k].index, r.log[k].generation);
            && (p.Some? <==> k >= |r.log| - |r.window.slots|)
            && (p.Some? ==> p.value == k - (|r.log| - |r.window.slots|))
  {
    hide PublishedOnce, Valid;
    var w, n, job := r.window, |r.log|, r.log[k];
    var p := Named(w, job.index, job.generation);
    if p.Some? {
      assert Label(w.slots[p.value]) == LogLabel(r.log[n - |w.slots| + p.value]);
    }
    if k >= n - |w.slots| {
      var q := k - (n - |w.slots|);
      assert n - |w.slots| + q == k;
      assert Label(w.slots[q]) == LogLabel(r.log[n - |w.slots| + q]);
      assert r.log[n - |w.slots| + q].index == RingIndex(w.first, q, w.capacity);
    }
  }
}
