/** Who owns every live allocation of a delay ring's arena, over every interleaving of the threads that use the
    ring: the graphics thread, any number of encode workers and any number of readers. One event is one critical
    section. Between two of them an operation may hold one allocation in hand. */
module Ownership {
  import opened Words
  import opened Storage
  import opened FrameWindow
  import opened FrameRing
  import FrameArena

  /** live: the arena's live allocations; doomed: what the graphics thread took out of an overwritten slot and has
      not freed yet; hands: what each worker allocated and has not published or freed yet; views: the views
      handed out by a pin and not given back yet. */
  datatype System = System(window: Window, nextGeneration: nat, live: set<Allocation>, doomed: Allocation,
                           hands: map<nat, Allocation>, views: multiset<ReadView>)

  datatype Event =
    | Reserve(captureNs: nat, tag: U32)
    | FreeOverwritten
    | MarkDropped(index: nat, generation: nat)
    | BeginEncode(index: nat, generation: nat)
    | Allocate(worker: nat, allocation: Allocation)
    | Publish(worker: nat, index: nat, generation: nat, payload: Payload)
    | FreeUnpublished(worker: nat)
    | Pin(position: nat)
    | Unpin(view: ReadView)

  function Start(slotCount: nat): System {
    System(Empty(slotCount), 1, {}, FrameArena.NoAllocation, map[], multiset{})
  }

  /** When a thread may take the step: the graphics thread frees what it overwrote before it reserves again, the
      arena hands out only what is not live, a worker publishes or frees what it holds, readers pin Ready slots
      and give back views they were handed. */
  predicate Enabled(s: System, e: Event) {
    match e
    case Reserve(_, _) => s.doomed.NoAllocation?
    case FreeOverwritten => s.doomed.Allocation?
    case MarkDropped(_, _) => true
    case BeginEncode(_, _) => true
    case Allocate(k, a) => k !in s.hands && a.Allocation? && a !in s.live
    case Publish(k, _, _, payload) => k in s.hands && payload.allocation == s.hands[k]
    case FreeUnpublished(k) => k in s.hands
    case Pin(p) => p < |s.window.slots| && s.window.slots[p].state.Ready?
    case Unpin(view) => view in s.views
  }

  function Step(s: System, e: Event): System
    requires Shaped(s.window) && Enabled(s, e)
  {
    var w := s.window;
    match e
    case Reserve(captureNs, tag) =>
      s.(window := FrameWindow.Reserve(w, captureNs, tag, s.nextGeneration),
         nextGeneration := s.nextGeneration + 1,
         doomed := if CanReserve(w) then Overwritten(w) else s.doomed)
    case FreeOverwritten => s.(live := s.live - {s.doomed}, doomed := FrameArena.NoAllocation)
    case MarkDropped(index, g) => s.(window := FrameWindow.MarkDropped(w, index, g))
    case BeginEncode(index, g) => s.(window := FrameWindow.BeginEncode(w, index, g))
    case Allocate(k, a) => s.(live := s.live + {a}, hands := s.hands[k := a])
    case Publish(k, index, g, payload) =>
      if CanPublish(w, index, g) then
        s.(window := FrameWindow.Publish(w, index, g, payload), hands := s.hands - {k})
      else s
    case FreeUnpublished(k) => s.(live := s.live - {s.hands[k]}, hands := s.hands - {k})
    case Pin(p) => s.(window := FrameWindow.Pin(w, p), views := s.views + multiset{ViewOf(w, p)})
    case Unpin(view) =>
      s.(window := FrameWindow.Unpin(w, view.index, view.generation), views := s.views - multiset{view})
  }

  // --- Ownership ---

  datatype Owner = SlotOf(generation: nat) | Graphics | Worker(id: nat)

  ghost predicate HeldBySlot(w: Window, generation: nat, a: Allocation) {
    exists p :: 0 <= p < |w.slots| && w.slots[p].generation == generation && w.slots[p].state.Ready?
                && w.slots[p].payload.allocation == a
  }

  ghost predicate Owns(s: System, o: Owner, a: Allocation) {
    a.Allocation? &&
    match o
    case SlotOf(g) => HeldBySlot(s.window, g, a)
    case Graphics => s.doomed == a
    case Worker(k) => k in s.hands && s.hands[k] == a
  }

  /** Every live allocation has one owner, and owners own live allocations only. */
  ghost predicate Owned(s: System) {
    && (forall o, a :: Owns(s, o, a) ==> a in s.live)
    && (forall a :: a in s.live ==> exists o :: Owns(s, o, a))
    && (forall o, o', a :: Owns(s, o, a) && Owns(s, o', a) ==> o == o')
  }

  /** What is held is never the empty handle. */
  ghost predicate Filled(s: System) {
    && (forall k :: k in s.hands ==> s.hands[k].Allocation?)
    && (forall p :: 0 <= p < |s.window.slots| && s.window.slots[p].state.Ready? ==>
          s.window.slots[p].payload.allocation.Allocation?)
  }

  /** Pin counters count views, and every view handed out still shows its slot as it was pinned. */
  ghost predicate Pinned(s: System)
    requires Shaped(s.window)
  {
    && (forall p :: 0 <= p < |s.window.slots| && s.window.slots[p].state.Ready? ==>
          s.window.slots[p].pins == s.views[ViewOf(s.window, p)])
    && (forall v :: v in s.views ==> Shows(s.window, v))
  }

  ghost predicate Shows(w: Window, v: ReadView)
    requires Shaped(w)
  {
    exists p :: 0 <= p < |w.slots| && w.slots[p].state.Ready? && ViewOf(w, p) == v
  }

  ghost predicate Inv(s: System) {
    && Shaped(s.window) && Valid(s.window) && s.nextGeneration > 0
    && (forall p :: 0 <= p < |s.window.slots| ==> s.window.slots[p].generation < s.nextGeneration)
    && Owned(s) && Filled(s) && Pinned(s)
  }

  /** No slot is pinned by 65536 readers at once: the pin counter is 16 bits wide. */
  ghost predicate FewReaders(s: System) {
    forall v :: v in s.views ==> s.views[v] < TWO_16
  }

  // --- How each operation moves what slots hold ---

  lemma ReserveHolds(w: Window, captureNs: nat, tag: U32, generation: nat, g: nat, a: Allocation)
    requires Shaped(w) && Valid(w) && CanReserve(w)
    requires forall p :: 0 <= p < |w.slots| ==> w.slots[p].generation < generation
    ensures HeldBySlot(FrameWindow.Reserve(w, captureNs, tag, generation), g, a) <==>
            HeldBySlot(w, g, a) && !(|w.slots| == w.capacity && g == w.slots[0].generation)
  {
    ReserveSlots(w, captureNs, tag, generation);
    var w' := FrameWindow.Reserve(w, captureNs, tag, generation);
    var shift := if |w.slots| == w.capacity then 1 else 0;
    hide FrameWindow.Reserve;
    if HeldBySlot(w', g, a) {
      var p :| 0 <= p < |w'.slots| && w'.slots[p].generation == g && w'.slots[p].state.Ready?
               && w'.slots[p].payload.allocation == a;
      assert w.slots[p + shift] == w'.slots[p];
    }
    if HeldBySlot(w, g, a) && !(shift == 1 && g == w.slots[0].generation) {
      var p :| 0 <= p < |w.slots| && w.slots[p].generation == g && w.slots[p].state.Ready?
               && w.slots[p].payload.allocation == a;
      assert w'.slots[p - shift] == w.slots[p];
    }
  }

  /** Same slots as far as what Ready slots hold. */
  ghost predicate SameReady(w: Window, w': Window) {
    && |w'.slots| == |w.slots| && w'.first == w.first && w'.capacity == w.capacity
    && forall p :: 0 <= p < |w.slots| ==>
         && w'.slots[p].generation == w.slots[p].generation
         && w'.slots[p].captureNs == w.slots[p].captureNs && w'.slots[p].tag == w.slots[p].tag
         && (w'.slots[p].state.Ready? <==> w.slots[p].state.Ready?)
         && w'.slots[p].payload == w.slots[p].payload
  }

  lemma SameReadyHolds(w: Window, w': Window, g: nat, a: Allocation)
    requires SameReady(w, w')
    ensures HeldBySlot(w', g, a) <==> HeldBySlot(w, g, a)
  {
  }

  lemma PublishHolds(w: Window, index: nat, g: nat, payload: Payload, g': nat, a: Allocation)
    requires Shaped(w) && Valid(w) && CanPublish(w, index, g)
    ensures HeldBySlot(FrameWindow.Publish(w, index, g, payload), g', a) <==>
            HeldBySlot(w, g', a) || (g' == g && a == payload.allocation)
  {
    var w' := FrameWindow.Publish(w, index, g, payload);
    var q := Named(w, index, g).value;
    assert w'.slots[q].generation == g && w'.slots[q].state.Ready? && w'.slots[q].payload == payload;
    assert forall p :: 0 <= p < |w.slots| && p != q ==> w'.slots[p] == w.slots[p];
    if HeldBySlot(w, g', a) {
      var p :| 0 <= p < |w.slots| && w.slots[p].generation == g' && w.slots[p].state.Ready?
               && w.slots[p].payload.allocation == a;
      assert w'.slots[p] == w.slots[p];
    }
  }

  lemma OldestHolds(w: Window, a: Allocation)
    requires Shaped(w) && Valid(w) && |w.slots| == w.capacity && a.Allocation?
    ensures HeldBySlot(w, w.slots[0].generation, a) <==> Overwritten(w) == a
  {
    assert SlotOk(w.slots[0]);
  }

  // --- Every step keeps the ownership ---

  lemma Move(s: System, s': System, from: Owner, to: Owner)
    requires Owned(s) && s'.live == s.live && (from != to ==> forall a :: !Owns(s, to, a))
    requires forall o, a :: Owns(s', o, a) <==> if o == to then Owns(s, from, a) else o != from && Owns(s, o, a)
    ensures Owned(s')
  {
    hide Owns;
    forall a | a in s'.live
      ensures exists o :: Owns(s', o, a)
    {
      var o :| Owns(s, o, a);
      assert Owns(s', if o == from then to else o, a);
    }
  }

  lemma Drop(s: System, s': System, from: Owner, gone: Allocation)
    requires Owned(s) && Owns(s, from, gone) && s'.live == s.live - {gone}
    requires forall a :: Owns(s, from, a) ==> a == gone
    requires forall o, a :: Owns(s', o, a) <==> o != from && Owns(s, o, a)
    ensures Owned(s')
  {
    hide Owns;
    forall a | a in s'.live
      ensures exists o :: Owns(s', o, a)
    {
      var o :| Owns(s, o, a);
      assert Owns(s', o, a);
    }
  }

  lemma Gain(s: System, s': System, to: Owner, fresh_: Allocation)
    requires Owned(s) && fresh_ !in s.live && s'.live == s.live + {fresh_}
    requires forall a :: !Owns(s, to, a)
    requires forall o, a :: Owns(s', o, a) <==> if o == to then a == fresh_ else Owns(s, o, a)
    ensures Owned(s')
  {
    hide Owns;
    forall a | a in s'.live
      ensures exists o :: Owns(s', o, a)
    {
      if a == fresh_ {
        assert Owns(s', to, a);
      } else {
        var o :| Owns(s, o, a);
        assert Owns(s', o, a);
      }
    }
  }

  lemma ReserveKeepsOwned(s: System, captureNs: nat, tag: U32)
    requires Inv(s) && s.doomed.NoAllocation?
    ensures Owned(Step(s, Reserve(captureNs, tag)))
  {
    hide Owned, Pinned, Filled;
    var s' := Step(s, Reserve(captureNs, tag));
    var w := s.window;
    var full := CanReserve(w) && |w.slots| == w.capacity;
    var from := if full then SlotOf(w.slots[0].generation) else Graphics;
    forall o: Owner, a: Allocation
      ensures Owns(s', o, a) <==> if o == Graphics then Owns(s, from, a) else o != from && Owns(s, o, a)
    {
      if CanReserve(w) && o.SlotOf? {
        ReserveHolds(w, captureNs, tag, s.nextGeneration, o.generation, a);
      }
      if full && a.Allocation? {
        OldestHolds(w, a);
      }
    }
    Move(s, s', from, Graphics);
  }

  lemma SameReadyKeepsOwned(s: System, s': System)
    requires Owned(s) && SameReady(s.window, s'.window)
    requires s'.live == s.live && s'.doomed == s.doomed && s'.hands == s.hands
    ensures Owned(s')
  {
    hide Owned;
    forall o: Owner, a: Allocation
      ensures Owns(s', o, a) <==> Owns(s, o, a)
    {
      if o.SlotOf? {
        SameReadyHolds(s.window, s'.window, o.generation, a);
      }
    }
    Move(s, s', Graphics, Graphics);
  }

  lemma PublishKeepsOwned(s: System, k: nat, index: nat, g: nat, payload: Payload)
    requires Inv(s) && k in s.hands && payload.allocation == s.hands[k] && CanPublish(s.window, index, g)
    ensures Owned(Step(s, Publish(k, index, g, payload)))
  {
    hide Owned, Pinned;
    var s' := Step(s, Publish(k, index, g, payload));
    forall a: Allocation
      ensures !Owns(s, SlotOf(g), a)
    {
      NothingHeldUntilReady(s.window, index, g, a);
    }
    forall o: Owner, a: Allocation
      ensures Owns(s', o, a) <==> if o == SlotOf(g) then Owns(s, Worker(k), a) else o != Worker(k) && Owns(s, o, a)
    {
      if o.SlotOf? {
        PublishHolds(s.window, index, g, payload, o.generation, a);
      }
      if o == SlotOf(g) {
        assert !Owns(s, o, a);
      }
    }
    Move(s, s', Worker(k), SlotOf(g));
  }

  lemma NothingHeldUntilReady(w: Window, index: nat, g: nat, a: Allocation)
    requires Shaped(w) && Valid(w) && CanPublish(w, index, g)
    ensures !HeldBySlot(w, g, a)
  {
    var q := Named(w, index, g).value;
    assert !w.slots[q].state.Ready?;
    assert forall p :: 0 <= p < |w.slots| && p != q ==> w.slots[p].generation != w.slots[q].generation;
  }

  lemma FreeKeepsOwned(s: System, o: Owner, s': System)
    requires Owned(s) && Shaped(s.window)
    requires match o
             case SlotOf(_) => false
             case Graphics => s.doomed.Allocation? && s' == Step(s, FreeOverwritten)
             case Worker(k) => k in s.hands && s.hands[k].Allocation? && s' == Step(s, FreeUnpublished(k))
    ensures Owned(s')
  {
    hide HeldBySlot;
    var gone := if o.Graphics? then s.doomed else s.hands[o.id];
    assert Owns(s, o, gone);
    assert forall o', a :: Owns(s', o', a) <==> o' != o && Owns(s, o', a);
    hide Owned;
    Drop(s, s', o, gone);
  }

  lemma AllocateKeepsOwned(s: System, k: nat, a: Allocation)
    requires Owned(s) && Shaped(s.window) && k !in s.hands && a.Allocation? && a !in s.live
    ensures Owned(Step(s, Allocate(k, a)))
  {
    hide HeldBySlot;
    var s' := Step(s, Allocate(k, a));
    assert forall o, b :: Owns(s', o, b) <==> if o == Worker(k) then b == a else Owns(s, o, b);
    hide Owned;
    Gain(s, s', Worker(k), a);
  }

  // --- Every step keeps the pins ---

  /** A Reserve that succeeds slides the window past its oldest slot, which nobody pins. */
  lemma SlideKeepsPinned(s: System, captureNs: nat, tag: U32)
    requires Shaped(s.window) && Pinned(s) && CanReserve(s.window)
    ensures var w' := FrameWindow.Reserve(s.window, captureNs, tag, s.nextGeneration);
            Shaped(w') && forall s': System :: s'.window == w' && s'.views == s.views ==> Pinned(s')
  {
    var w, w' := s.window, FrameWindow.Reserve(s.window, captureNs, tag, s.nextGeneration);
    ReserveSlots(w, captureNs, tag, s.nextGeneration);
    hide FrameWindow.Reserve;
    var shift := if |w.slots| == w.capacity then 1 else 0;
    forall p | 0 <= p < |w'.slots| && w'.slots[p].state.Ready?
      ensures w'.slots[p].pins == s.views[ViewOf(w', p)]
    {
      assert w'.slots[p] == w.slots[p + shift] && ViewOf(w', p) == ViewOf(w, p + shift);
    }
    forall v | v in s.views
      ensures Shows(w', v)
    {
      var p :| 0 <= p < |w.slots| && w.slots[p].state.Ready? && ViewOf(w, p) == v;
      assert p >= shift;
      assert w'.slots[p - shift] == w.slots[p] && ViewOf(w', p - shift) == v;
    }
  }

  lemma ReserveKeepsPinned(s: System, captureNs: nat, tag: U32)
    requires Inv(s) && s.doomed.NoAllocation?
    ensures Pinned(Step(s, Reserve(captureNs, tag)))
  {
    hide Owned, Filled, Valid;
    var s' := Step(s, Reserve(captureNs, tag));
    if CanReserve(s.window) {
      SlideKeepsPinned(s, captureNs, tag);
    } else {
      SameReadyKeepsPinned(s, s');
    }
  }

  lemma SameReadyKeepsPinned(s: System, s': System)
    requires Shaped(s.window) && Shaped(s'.window) && Pinned(s) && SameReady(s.window, s'.window) && s'.views == s.views
    requires forall p :: 0 <= p < |s.window.slots| ==> s'.window.slots[p].pins == s.window.slots[p].pins
    ensures Pinned(s')
  {
    assert forall p :: 0 <= p < |s.window.slots| ==> ViewOf(s'.window, p) == ViewOf(s.window, p);
    forall v | v in s.views
      ensures Shows(s'.window, v)
    {
      var p :| 0 <= p < |s.window.slots| && s.window.slots[p].state.Ready? && ViewOf(s.window, p) == v;
      assert ViewOf(s'.window, p) == v;
    }
  }

  /** A view names the generation of the slot it shows, and no other slot has it. */
  lemma ViewsDiffer(w: Window, p: nat, q: nat)
    requires Shaped(w) && Valid(w) && p < |w.slots| && q < |w.slots| && p != q
    ensures ViewOf(w, p) != ViewOf(w, q)
  {
  }

  lemma PublishKeepsPinned(s: System, k: nat, index: nat, g: nat, payload: Payload)
    requires Inv(s) && k in s.hands && CanPublish(s.window, index, g)
    ensures var w' := FrameWindow.Publish(s.window, index, g, payload);
            Shaped(w') && Pinned(s.(window := w', hands := s.hands - {k}))
  {
    hide Owned, Filled;
    var w, w' := s.window, FrameWindow.Publish(s.window, index, g, payload);
    var q := Named(w, index, g).value;
    assert SlotOk(w.slots[q]);
    assert forall p :: 0 <= p < |w.slots| && p != q ==> w'.slots[p] == w.slots[p] && ViewOf(w', p) == ViewOf(w, p);
    forall v | v in s.views
      ensures Shows(w', v) && v != ViewOf(w', q)
    {
      var p :| 0 <= p < |w.slots| && w.slots[p].state.Ready? && ViewOf(w, p) == v;
      assert p != q && ViewOf(w', p) == v;
    }
  }

  lemma PinKeepsPinned(s: System, q: nat)
    requires Inv(s) && q < |s.window.slots| && s.window.slots[q].state.Ready?
    requires FewReaders(Step(s, Pin(q)))
    ensures Pinned(Step(s, Pin(q)))
  {
    hide Owned, Filled;
    var s' := Step(s, Pin(q));
    var w, w', view := s.window, s'.window, ViewOf(s.window, q);
    assert forall p :: 0 <= p < |w.slots| ==> ViewOf(w', p) == ViewOf(w, p);
    assert view in s'.views && s'.views[view] == s.views[view] + 1;
    forall p | 0 <= p < |w'.slots| && w'.slots[p].state.Ready?
      ensures w'.slots[p].pins == s'.views[ViewOf(w', p)]
    {
      if p != q {
        ViewsDiffer(w, p, q);
      }
    }
    forall v | v in s'.views
      ensures Shows(w', v)
    {
      if v == view {
        assert ViewOf(w', q) == v;
      } else {
        var p :| 0 <= p < |w.slots| && w.slots[p].state.Ready? && ViewOf(w, p) == v;
        assert ViewOf(w', p) == v;
      }
    }
  }

  /** An outstanding view always finds its slot, still Ready and pinned. */
  lemma ViewFindsSlot(s: System, view: ReadView)
    requires Inv(s) && view in s.views
    ensures var p := Named(s.window, view.index, view.generation);
            && p.Some? && s.window.slots[p.value].state.Ready? && s.window.slots[p.value].pins > 0
            && ViewOf(s.window, p.value) == view
  {
    hide Owned, Filled;
    var w := s.window;
    var p :| 0 <= p < |w.slots| && w.slots[p].state.Ready? && ViewOf(w, p) == view;
    assert SlotOk(w.slots[p]);
  }

  lemma UnpinKeepsPinned(s: System, view: ReadView)
    requires Inv(s) && view in s.views
    ensures Pinned(Step(s, Unpin(view)))
  {
    ViewFindsSlot(s, view);
    hide Owned, Filled;
    var s' := Step(s, Unpin(view));
    var w, w', q := s.window, s'.window, Named(s.window, view.index, view.generation).value;
    assert forall p :: 0 <= p < |w.slots| && p != q ==> w'.slots[p] == w.slots[p];
    assert w'.slots[q] == w.slots[q].(pins := w.slots[q].pins - 1);
    assert forall p :: 0 <= p < |w.slots| ==> ViewOf(w', p) == ViewOf(w, p);
    forall p | 0 <= p < |w'.slots| && w'.slots[p].state.Ready?
      ensures w'.slots[p].pins == s'.views[ViewOf(w', p)]
    {
      if p != q {
        ViewsDiffer(w, p, q);
      }
    }
    forall v | v in s'.views
      ensures Shows(w', v)
    {
      var p :| 0 <= p < |w.slots| && w.slots[p].state.Ready? && ViewOf(w, p) == v;
      assert ViewOf(w', p) == v;
    }
  }

  // --- Runs ---

  lemma StateChangeIsSameReady(w: Window, index: nat, g: nat)
    requires Shaped(w) && Valid(w)
    ensures SameReady(w, FrameWindow.MarkDropped(w, index, g)) && SameReady(w, FrameWindow.BeginEncode(w, index, g))
    ensures forall p :: 0 <= p < |w.slots| ==>
              FrameWindow.MarkDropped(w, index, g).slots[p].pins == w.slots[p].pins
              && FrameWindow.BeginEncode(w, index, g).slots[p].pins == w.slots[p].pins
  {
  }

  lemma PinIsSameReady(w: Window, p: nat, index: nat, g: nat)
    requires Shaped(w)
    ensures p < |w.slots| ==> SameReady(w, FrameWindow.Pin(w, p))
    ensures SameReady(w, FrameWindow.Unpin(w, index, g))
  {
  }

  lemma StepKeepsOwned(s: System, e: Event)
    requires Inv(s) && Enabled(s, e)
    ensures Owned(Step(s, e))
  {
    var s' := Step(s, e);
    match e
    case Reserve(captureNs, tag) => ReserveKeepsOwned(s, captureNs, tag);
    case FreeOverwritten => FreeKeepsOwned(s, Graphics, s');
    case MarkDropped(index, g) =>
      StateChangeIsSameReady(s.window, index, g);
      hide Owned, Pinned, Filled, FrameWindow.MarkDropped;
      SameReadyKeepsOwned(s, s');
    case BeginEncode(index, g) =>
      StateChangeIsSameReady(s.window, index, g);
      hide Owned, Pinned, Filled, FrameWindow.BeginEncode;
      SameReadyKeepsOwned(s, s');
    case Allocate(k, a) => AllocateKeepsOwned(s, k, a);
    case Publish(k, index, g, payload) =>
      if CanPublish(s.window, index, g) {
        PublishKeepsOwned(s, k, index, g, payload);
      }
    case FreeUnpublished(k) => FreeKeepsOwned(s, Worker(k), s');
    case Pin(p) =>
      PinIsSameReady(s.window, p, 0, 0);
      hide Owned, Pinned, Filled, FrameWindow.Pin;
      SameReadyKeepsOwned(s, s');
    case Unpin(view) =>
      PinIsSameReady(s.window, 0, view.index, view.generation);
      hide Owned, Pinned, Filled, FrameWindow.Unpin;
      SameReadyKeepsOwned(s, s');
  }

  lemma StepKeepsPinned(s: System, e: Event)
    requires Inv(s) && Enabled(s, e) && FewReaders(Step(s, e))
    ensures Shaped(Step(s, e).window) && Pinned(Step(s, e))
  {
    hide Owned, Filled, Shows;
    var s' := Step(s, e);
    match e
    case Reserve(captureNs, tag) => ReserveKeepsPinned(s, captureNs, tag);
    case MarkDropped(index, g) =>
      StateChangeIsSameReady(s.window, index, g);
      SameReadyKeepsPinned(s, s');
    case BeginEncode(index, g) =>
      StateChangeIsSameReady(s.window, index, g);
      SameReadyKeepsPinned(s, s');
    case Publish(k, index, g, payload) =>
      if CanPublish(s.window, index, g) {
        PublishKeepsPinned(s, k, index, g, payload);
      }
    case Pin(p) => PinKeepsPinned(s, p);
    case Unpin(view) => UnpinKeepsPinned(s, view);
    case FreeOverwritten =>
    case Allocate(_, _) =>
    case FreeUnpublished(_) =>
  }

  lemma StepKeepsValid(s: System, e: Event)
    requires Inv(s) && Enabled(s, e)
    ensures Shaped(Step(s, e).window) && Valid(Step(s, e).window)
  {
    hide Owned, Pinned, Filled, Valid;
    match e
    case Reserve(captureNs, tag) => ReserveKeeps(s.window, captureNs, tag, s.nextGeneration);
    case MarkDropped(index, g) => MarkDroppedKeeps(s.window, index, g);
    case BeginEncode(index, g) => BeginEncodeKeeps(s.window, index, g);
    case Publish(_, index, g, payload) => PublishKeeps(s.window, index, g, payload);
    case Pin(p) => PinKeeps(s.window, p);
    case Unpin(view) => UnpinKeeps(s.window, view.index, view.generation);
    case FreeOverwritten =>
    case Allocate(_, _) =>
    case FreeUnpublished(_) =>
  }

  lemma StepKeepsRest(s: System, e: Event)
    requires Inv(s) && Enabled(s, e)
    ensures var s' := Step(s, e);
            && Filled(s') && s'.nextGeneration > 0
            && (forall p :: 0 <= p < |s'.window.slots| ==> s'.window.slots[p].generation < s'.nextGeneration)
  {
    hide Owned, Pinned, Valid;
    if e.Reserve? && CanReserve(s.window) {
      ReserveSlots(s.window, e.captureNs, e.tag, s.nextGeneration);
      hide FrameWindow.Reserve;
    }
  }

  lemma StepKeeps(s: System, e: Event)
    requires Inv(s) && Enabled(s, e) && FewReaders(Step(s, e))
    ensures Inv(Step(s, e))
  {
    StepKeepsOwned(s, e);
    StepKeepsPinned(s, e);
    StepKeepsRest(s, e);
    StepKeepsValid(s, e);
    hide Owned, Pinned, Filled, Valid;
  }

  /** s' is reachable from s by these events, no slot ever having 65536 readers. */
  ghost predicate Runs(s: System, events: seq<Event>, s': System)
    ensures Runs(s, events, s') ==> Shaped(s'.window)
    decreases |events|
  {
    Shaped(s.window) &&
    if events == [] then s' == s
    else
      && Enabled(s, events[0]) && FewReaders(Step(s, events[0]))
      && Runs(Step(s, events[0]), events[1..], s')
  }

  lemma {:induction false} RunKeeps(s: System, events: seq<Event>, s': System)
    requires Inv(s) && Runs(s, events, s')
    ensures Inv(s')
    decreases |events|
  {
    if events != [] {
      StepKeeps(s, events[0]);
      hide Inv;
      RunKeeps(Step(s, events[0]), events[1..], s');
    }
  }

  lemma StartOk(slotCount: nat)
    ensures Inv(Start(slotCount))
  {
  }

  /** In every reachable state the live allocations are exactly those of Ready slots and those in hand, and each
      has one owner. */
  lemma OwnershipIsConserved(slotCount: nat, events: seq<Event>, s: System, a: Allocation)
    requires Runs(Start(slotCount), events, s)
    ensures a in s.live <==> exists o :: Owns(s, o, a)
    ensures forall o, o' :: Owns(s, o, a) && Owns(s, o', a) ==> o == o'
  {
    StartOk(slotCount);
    RunKeeps(Start(slotCount), events, s);
  }

  /** While a view is out, its slot stays in the window, Ready, with the payload the view shows, and that payload
      stays live; Reserve() refuses to overwrite it. */
  lemma PinnedPayloadStays(slotCount: nat, events: seq<Event>, s: System, view: ReadView)
    requires Runs(Start(slotCount), events, s) && view in s.views
    ensures var p := Named(s.window, view.index, view.generation);
            && p.Some? && s.window.slots[p.value].state.Ready?
            && s.window.slots[p.value].payload == view.payload
            && view.payload.allocation in s.live
            && (p.value == 0 && |s.window.slots| == s.window.capacity ==> !CanReserve(s.window))
            && !CanPublish(s.window, view.index, view.generation)
            && !CanDrop(s.window, view.index, view.generation)
  {
    StartOk(slotCount);
    RunKeeps(Start(slotCount), events, s);
    ViewFindsSlot(s, view);
    var p := Named(s.window, view.index, view.generation).value;
    assert Owns(s, SlotOf(view.generation), view.payload.allocation) by {
      assert HeldBySlot(s.window, view.generation, view.payload.allocation);
    }
  }

  // --- Why 65536 readers are too many ---

  function PinTimes(w: Window, p: nat, n: nat): (w': Window)
    requires p < |w.slots|
    ensures |w'.slots| == |w.slots| && w' == w.(slots := w'.slots)
  {
    if n == 0 then w else FrameWindow.Pin(PinTimes(w, p, n - 1), p)
  }

  /** With n views of the oldest slot of a full ring outstanding and no other, Reserve() keeps away from it exactly
      when n is not a multiple of 65536: at 65536 it overwrites the payload under every one of them. */
  lemma {:induction false} PinCounterWraps(w: Window, n: nat)
    requires Shaped(w) && |w.slots| == w.capacity && w.slots[0].state.Ready? && w.slots[0].pins == 0
    ensures PinTimes(w, 0, n).slots[0] == w.slots[0].(pins := n % TWO_16)
    ensures CanReserve(PinTimes(w, 0, n)) <==> n % TWO_16 == 0
  {
    if n > 0 {
      PinCounterWraps(w, n - 1);
    }
  }
}
