/** Starting playback on a P-frame (src/codec-pipeline.cpp, StartFromKey): decode unshown from its key, or wait. */
module CatchUp {
  import opened Words
  import opened Storage
  import opened RingSelect
  import opened FrameWindow
  import opened FrameRing
  import opened Decoding
  import opened CatchUpWalk
  import Seqs

  /** Pinning and unpinning leave no mark, short of 65535 other readers. */
  lemma PinUnpin(w: Window, p: nat)
    requires Shaped(w) && p < |w.slots| && w.slots[p].pins + 1 < TWO_16
    ensures var view := ViewOf(w, p);
            FrameWindow.Unpin(FrameWindow.Pin(w, p), view.index, view.generation) == w
  {
    var view := ViewOf(w, p);
    var pinned := FrameWindow.Pin(w, p);
    assert Named(pinned, view.index, view.generation) == Some(p);
    assert FrameWindow.Unpin(pinned, view.index, view.generation).slots == w.slots;
  }

  datatype DecodeWait = NoWait | CatchingUp | NoKey

  const FOREVER: nat := TWO_64 - 1
  const DEFAULT_DECODE_NS: nat := 4_000_000

  /** shown: `view` was decoded with its picture; frames: how many before it were decoded unshown. */
  datatype Started = Started(shown: bool, view: Option<ReadView>, frames: nat, cursorNs: nat,
                             wait: DecodeWait, untilNs: nat)

  ghost predicate Unpinnable(w: Window) {
    forall p :: 0 <= p < |w.slots| ==> w.slots[p].pins + 1 < TWO_16
  }

  // --- The walk itself ---

  /** What the factories open: a decoder never seen before for each codec they support. */
  ghost predicate Fresh(known: set<nat>, factory: CodecId -> Option<Decoder>) {
    && (forall c :: factory(c).Some? ==> factory(c).value.id !in known)
    && (forall c, c' :: c != c' && factory(c).Some? && factory(c').Some? ==> factory(c).value.id != factory(c').value.id)
  }

  /** What a codec's factory is asked for: nothing once a decoder is open. */
  function Needed(ctx: DecodeContext, codec: CodecId, factory: CodecId -> Option<Decoder>): Option<Decoder>
    requires ctx.Sized()
    reads ctx
  {
    if ctx.decoders[CodecIndex(codec)].Some? then None else factory(codec)
  }

  /** Opening one codec's decoder does not use up another's. */
  lemma StillNew(ctx: DecodeContext, factory: CodecId -> Option<Decoder>, before: set<nat>, codec: CodecId, other: CodecId)
    requires ctx.Sized() && Fresh(before, factory) && (ctx.known == before || ctx.New(Needed(ctx, codec, factory)))
    requires ctx.known <= before + (if factory(codec).Some? then {factory(codec).value.id} else {})
    ensures ctx.New(Needed(ctx, other, factory))
  {
  }

  /** The decoder packets of this codec go to. */
  function DecoderOf(ctx: DecodeContext, codec: CodecId, factory: CodecId -> Option<Decoder>): Option<Decoder>
    requires ctx.Sized()
    reads ctx
  {
    var i := CodecIndex(codec);
    if ctx.decoders[i].Some? || ctx.unavailable[i] then ctx.decoders[i] else factory(codec)
  }

  /** The decoder takes every frame of the codec that the walk can hand it, and the cycle goes on. */
  ghost predicate Willing(w: Window, codec: CodecId, keyNs: nat, dueNs: nat, answer: ReadView -> Answer, goOn: nat -> bool)
    requires Shaped(w)
  {
    && (forall n :: goOn(n))
    && (forall p :: 0 <= p < |w.slots| && CanBeHanded(w.slots[p], codec, keyNs, dueNs) ==> Takes(w, p, dueNs, answer))
  }

  predicate CanBeHanded(s: Slot, codec: CodecId, keyNs: nat, dueNs: nat) {
    s.state.Ready? && s.payload.codec == codec && keyNs <= s.captureNs <= dueNs
  }

  predicate Takes(w: Window, p: nat, dueNs: nat, answer: ReadView -> Answer)
    requires Shaped(w) && p < |w.slots|
  {
    var view := ViewOf(w, p);
    HasData(view) && Accepts(answer(view), view, view.captureNs >= dueNs)
  }

  predicate CanDecode(view: ReadView, cursor: ChainCursor) {
    Decodable(view.payload.key, view.payload.chain, view.payload.seqNo, cursor)
  }

  function Packet(view: ReadView, decoder: nat): Happened {
    Handed(decoder, view.payload.key, view.payload.chain, view.payload.seqNo, true)
  }

  /** One pinned frame is decoded and let go of. Its decoder being open and taking it, it is decoded if and only if it is
      decodable, and then that is all that happens. */
  method DecodeAt(ring: FrameRing, ctx: DecodeContext, view: ReadView, factory: CodecId -> Option<Decoder>,
                  answer: Answer, wantImage: bool, ghost w: Window, ghost q: nat)
    returns (outcome: DecodeOutcome)
    requires ring.Valid() && ctx.Valid() && ctx.New(Needed(ctx, view.payload.codec, factory))
    requires Shaped(w) && q < |w.slots| && w.slots[q].pins + 1 < TWO_16
    requires ring.Logical() == FrameWindow.Pin(w, q) && view == ViewOf(w, q)
    modifies ctx, ring.headers
    ensures ring.Valid() && ctx.Valid() && ring.Logical() == w && !ctx.flushPending
    ensures var opened_ := old(Needed(ctx, view.payload.codec, factory));
            ctx.known <= old(ctx.known) + (if opened_.Some? then {opened_.value.id} else {})
    ensures outcome.Decoded? ==> ctx.decoders[CodecIndex(view.payload.codec)].Some?
    ensures var index, decoder := CodecIndex(view.payload.codec), old(DecoderOf(ctx, view.payload.codec, factory));
            decoder.Some? && !old(ctx.flushPending) && HasData(view) && Accepts(answer, view, wantImage) ==>
              && (outcome.Decoded? <==> CanDecode(view, old(ctx.cursors)[index]))
              && (outcome.Decoded? ==> ctx.decoders[index] == decoder && ctx.cursors[index] == CursorAt(w.slots[q])
                                       && ctx.trace == old(ctx.trace) + [Packet(view, decoder.value.id)])
  {
    hide Sound, FrameWindow.Valid, CursorsHold, Known, ValidBitstream, FrameWindow.Pin, FrameWindow.Unpin;
    PinUnpin(w, q);
    outcome := ctx.DecodePinned(ring, view, Needed(ctx, view.payload.codec, factory), answer, wantImage);
  }

  /** A frame before the one due: decoded unshown, or let go of when it is another codec's. */
  method PassUnshown(ring: FrameRing, ctx: DecodeContext, codec: CodecId, view: ReadView,
                     factory: CodecId -> Option<Decoder>, answer: Answer, ghost w: Window, ghost q: nat)
    returns (ok: bool)
    requires ring.Valid() && ctx.Valid() && ctx.New(Needed(ctx, codec, factory))
    requires Shaped(w) && q < |w.slots| && w.slots[q].pins + 1 < TWO_16
    requires ring.Logical() == FrameWindow.Pin(w, q) && view == ViewOf(w, q)
    modifies ctx, ring.headers
    ensures ring.Valid() && ctx.Valid() && ring.Logical() == w
    ensures ctx.known <= old(ctx.known) + (if factory(codec).Some? then {factory(codec).value.id} else {})
    ensures ok ==> ctx.New(Needed(ctx, codec, factory))
    ensures view.payload.codec != codec ==> ok && ctx.trace == old(ctx.trace) && ctx.cursors == old(ctx.cursors)
                                            && DecoderOf(ctx, codec, factory) == old(DecoderOf(ctx, codec, factory))
                                            && ctx.flushPending == old(ctx.flushPending)
    ensures var index, decoder := CodecIndex(codec), old(DecoderOf(ctx, codec, factory));
            view.payload.codec == codec && decoder.Some? && !old(ctx.flushPending)
            && HasData(view) && Accepts(answer, view, false) ==>
              && (ok <==> CanDecode(view, old(ctx.cursors)[index]))
              && (ok ==> DecoderOf(ctx, codec, factory) == decoder && !ctx.flushPending
                         && ctx.cursors[index] == CursorAt(w.slots[q])
                         && ctx.trace == old(ctx.trace) + [Packet(view, decoder.value.id)])
  {
    hide Sound, FrameWindow.Valid, CursorsHold, Known, ValidBitstream, FrameWindow.Pin, FrameWindow.Unpin, Unrolled,
         Accepts, CanDecode, HasData;
    if view.payload.codec != codec {
      PinUnpin(w, q);
      ring.Unpin(view);
      return true;
    }
    var outcome := DecodeAt(ring, ctx, view, factory, answer, false, w, q);
    return outcome.Decoded?;
  }

  /** One frame of the walk: the one due is decoded with its picture, an earlier one unshown, and one of another codec
      is let go of. */
  method WalkTurn(ring: FrameRing, ctx: DecodeContext, codec: CodecId, dueNs: nat, view: ReadView,
                  factory: CodecId -> Option<Decoder>, answer: Answer, ghost w: Window, ghost q: nat)
    returns (more: bool, shown: bool)
    requires ring.Valid() && ctx.Valid() && ctx.New(Needed(ctx, codec, factory))
    requires ctx.New(Needed(ctx, view.payload.codec, factory))
    requires Shaped(w) && q < |w.slots| && w.slots[q].pins + 1 < TWO_16
    requires ring.Logical() == FrameWindow.Pin(w, q) && view == ViewOf(w, q)
    modifies ctx, ring.headers
    ensures ring.Valid() && ctx.Valid() && ring.Logical() == w
    ensures more ==> view.captureNs < dueNs && ctx.New(Needed(ctx, codec, factory)) && !shown
    ensures more ==>
              ctx.known <= old(ctx.known) + (if factory(codec).Some? then {factory(codec).value.id} else {})
    ensures shown ==> view.captureNs >= dueNs
    ensures view.captureNs < dueNs && view.payload.codec != codec ==>
              && more && ctx.trace == old(ctx.trace) && ctx.cursors == old(ctx.cursors)
              && DecoderOf(ctx, codec, factory) == old(DecoderOf(ctx, codec, factory))
              && ctx.flushPending == old(ctx.flushPending)
    ensures var index, decoder := CodecIndex(codec), old(DecoderOf(ctx, codec, factory));
            view.payload.codec == codec && decoder.Some? && !old(ctx.flushPending)
            && HasData(view) && Accepts(answer, view, view.captureNs >= dueNs) ==>
              var ok := CanDecode(view, old(ctx.cursors)[index]);
              && more == (view.captureNs < dueNs && ok) && shown == (view.captureNs >= dueNs && ok)
              && (ok ==> DecoderOf(ctx, codec, factory) == decoder && !ctx.flushPending
                         && ctx.cursors[index] == CursorAt(w.slots[q])
                         && ctx.trace == old(ctx.trace) + [Packet(view, decoder.value.id)])
  {
    hide Sound, FrameWindow.Valid, CursorsHold, Known, ValidBitstream, FrameWindow.Pin, FrameWindow.Unpin, Unrolled,
         Accepts, CanDecode, HasData;
    if view.captureNs >= dueNs {
      var outcome := DecodeAt(ring, ctx, view, factory, answer, true, w, q);
      return false, outcome.Decoded?;
    }
    more := PassUnshown(ring, ctx, codec, view, factory, answer, w, q);
    shown := false;
  }

  /** What is left of the walk whose whole is total: the decoder was handed the frames at positions so far. */
  ghost predicate OnTrack(w: Window, codec: CodecId, dueNs: nat, afterNs: nat, soFar: seq<nat>, total: Walk, frames: nat,
                          ctx: DecodeContext, factory: CodecId -> Option<Decoder>, before: seq<Happened>,
                          decoder: Option<Decoder>)
    requires ctx.Sized()
    reads ctx
  {
    && decoder.Some? && !ctx.flushPending && DecoderOf(ctx, codec, factory) == decoder
    && InBounds(w.slots, soFar) && frames == |soFar| && ctx.trace == before + HandedAll(w.slots, decoder.value.id, soFar)
    && var rest := WalkOver(w.slots, codec, afterNs, dueNs, ctx.cursors[CodecIndex(codec)]);
       total == Walk(soFar + rest.handed, rest.end)
  }

  /** The walk ended as it would on values. */
  ghost predicate Followed(w: Window, total: Walk, frames: nat, before: seq<Happened>, trace: seq<Happened>, decoder: nat,
                           shown: bool, view: Option<ReadView>)
    requires Shaped(w)
  {
    match total.end
    case Lost => !shown
    case EndedElsewhere(at) => at < |w.slots| && view == Some(ViewOf(w, at))
    case EndedAt(at) =>
      && shown && at < |w.slots| && view == Some(ViewOf(w, at))
      && InBounds(w.slots, total.handed) && frames + 1 == |total.handed|
      && trace == before + HandedAll(w.slots, decoder, total.handed)
  }

  lemma OneMoreHanded(slots: seq<Slot>, decoder: nat, taken: seq<nat>, q: nat)
    requires q < |slots| && InBounds(slots, taken)
    ensures var payload := slots[q].payload;
            HandedAll(slots, decoder, taken + [q])
            == HandedAll(slots, decoder, taken) + [Handed(decoder, payload.key, payload.chain, payload.seqNo, true)]
  {
  }

  /** The next turn, when the walk is on track. */
  lemma TurnAhead(w: Window, codec: CodecId, keyNs: nat, dueNs: nat, afterNs: nat, cursor: ChainCursor,
                  answer: ReadView -> Answer, goOn: nat -> bool, soFar: seq<nat>, total: Walk)
    requires Shaped(w) && Willing(w, codec, keyNs, dueNs, answer, goOn) && AfterKey(keyNs) <= afterNs
    requires var rest := WalkOver(w.slots, codec, afterNs, dueNs, cursor); total == Walk(soFar + rest.handed, rest.end)
    ensures NextInRange(w.slots, afterNs, dueNs).None? ==> total.end == Lost
    ensures NextInRange(w.slots, afterNs, dueNs).Some? ==>
              var q := NextInRange(w.slots, afterNs, dueNs).value;
              var view := ViewOf(w, q);
              && (view.payload.codec == codec ==> HasData(view) && Accepts(answer(view), view, view.captureNs >= dueNs))
              && (if view.payload.codec != codec then
                    if view.captureNs >= dueNs then total.end == EndedElsewhere(q)
                    else var rest := WalkOver(w.slots, codec, view.captureNs, dueNs, cursor);
                         total == Walk(soFar + rest.handed, rest.end)
                  else if !CanDecode(view, cursor) then total.end == Lost
                  else if view.captureNs >= dueNs then total == Walk(soFar + [q], EndedAt(q))
                  else var rest := WalkOver(w.slots, codec, view.captureNs, dueNs, CursorAt(w.slots[q]));
                       total == Walk(soFar + [q] + rest.handed, rest.end))
  {
    var next := NextInRange(w.slots, afterNs, dueNs);
    if next.Some? {
      assert w.slots[next.value].payload.codec == codec ==> CanBeHanded(w.slots[next.value], codec, keyNs, dueNs);
      Seqs.Regroup3(soFar, [next.value],
                    WalkOver(w.slots, codec, w.slots[next.value].captureNs, dueNs, CursorAt(w.slots[next.value])).handed);
    }
    hide NextInRange, Accepts, HasData;
  }

  /** The catch-up of a plan: from the key on, unshown, up to the frame due, which is decoded with its picture.
      answer: what the decoder answers to a packet; goOn: whether the cycle is still on after a number of frames. On a
      ring that does not change meanwhile, for a decoder that takes what it is given, it goes as the walk on values. */
  method WalkFromKey(ring: FrameRing, ctx: DecodeContext, codec: CodecId, plan: DecodePlan,
                     factory: CodecId -> Option<Decoder>, answer: ReadView -> Answer, goOn: nat -> bool)
    returns (shown: bool, view: Option<ReadView>, frames: nat)
    requires ring.Valid() && ctx.Valid() && Fresh(ctx.known, factory) && Unpinnable(ring.Logical())
    requires plan.keyNs <= plan.dueNs
    modifies ctx, ring.headers
    ensures ring.Valid() && ctx.Valid() && ring.Logical() == old(ring.Logical())
    ensures shown ==> view.Some? && view.value.captureNs >= plan.dueNs
    ensures var w, decoder := old(ring.Logical()), old(DecoderOf(ctx, codec, factory));
            Willing(w, codec, plan.keyNs, plan.dueNs, answer, goOn) && decoder.Some? && !old(ctx.flushPending) ==>
              Followed(w, WalkOver(w.slots, codec, AfterKey(plan.keyNs), plan.dueNs, old(ctx.cursors)[CodecIndex(codec)]),
                       frames, old(ctx.trace), ctx.trace, decoder.value.id, shown, view)
  {
    hide Sound, FrameWindow.Valid, CursorsHold, Known, ValidBitstream, HandedAll, FrameWindow.Pin, FrameWindow.Unpin,
         NextInRange, WalkOver, Accepts, HasData, Unrolled, Willing, Followed, Fresh;
    ghost var w, before, decoder := ring.Logical(), ctx.trace, DecoderOf(ctx, codec, factory);
    ghost var willing := Willing(w, codec, plan.keyNs, plan.dueNs, answer, goOn) && decoder.Some? && !ctx.flushPending;
    ghost var total := WalkOver(w.slots, codec, AfterKey(plan.keyNs), plan.dueNs, ctx.cursors[CodecIndex(codec)]);
    ghost var soFar: seq<nat> := [];
    StillNew(ctx, factory, ctx.known, codec, codec);
    var afterNs := if plan.keyNs > 0 then plan.keyNs - 1 else 0;
    frames, shown, view := 0, false, None;
    NothingYet(w.slots, if decoder.Some? then decoder.value.id else 0);
    var more := true;
    while more
      invariant ring.Valid() && ctx.Valid() && ring.Logical() == w
      invariant more ==> ctx.known <= old(ctx.known) + (if factory(codec).Some? then {factory(codec).value.id} else {})
      invariant more ==> ctx.New(Needed(ctx, codec, factory)) && AfterKey(plan.keyNs) <= afterNs
      invariant shown ==> view.Some? && view.value.captureNs >= plan.dueNs
      invariant willing && more ==>
                  OnTrack(w, codec, plan.dueNs, afterNs, soFar, total, frames, ctx, factory, before, decoder)
      invariant willing && !more ==> Followed(w, total, frames, before, ctx.trace, decoder.value.id, shown, view)
      decreases more, plan.dueNs + 1 - afterNs
    {
      more, afterNs, frames, shown, view, soFar :=
        WalkOnce(ring, ctx, codec, plan, factory, answer, goOn, afterNs, frames, soFar, total, willing, before,
                 old(ctx.known), decoder);
    }
  }

  lemma NothingYet(slots: seq<Slot>, decoder: nat)
    ensures HandedAll(slots, decoder, []) == []
  {
  }

  method WalkOnce(ring: FrameRing, ctx: DecodeContext, codec: CodecId, plan: DecodePlan,
                  factory: CodecId -> Option<Decoder>, answer: ReadView -> Answer, goOn: nat -> bool, afterNs: nat,
                  frames: nat, ghost soFar: seq<nat>, ghost total: Walk, ghost willing: bool,
                  ghost before: seq<Happened>, ghost known: set<nat>, ghost decoder: Option<Decoder>)
    returns (more: bool, afterNs': nat, frames': nat, shown: bool, view: Option<ReadView>, ghost soFar': seq<nat>)
    requires ring.Valid() && ctx.Valid() && Unpinnable(ring.Logical())
    requires Fresh(known, factory) && ctx.New(Needed(ctx, codec, factory)) && AfterKey(plan.keyNs) <= afterNs
    requires ctx.known <= known + (if factory(codec).Some? then {factory(codec).value.id} else {})
    requires willing ==> Willing(ring.Logical(), codec, plan.keyNs, plan.dueNs, answer, goOn)
    requires willing ==>
               OnTrack(ring.Logical(), codec, plan.dueNs, afterNs, soFar, total, frames, ctx, factory, before, decoder)
    modifies ctx, ring.headers
    ensures ring.Valid() && ctx.Valid() && ring.Logical() == old(ring.Logical())
    ensures more ==> ctx.New(Needed(ctx, codec, factory)) && afterNs < afterNs' <= plan.dueNs
    ensures more ==> ctx.known <= known + (if factory(codec).Some? then {factory(codec).value.id} else {})
    ensures shown ==> view.Some? && view.value.captureNs >= plan.dueNs
    ensures willing && more ==>
              OnTrack(ring.Logical(), codec, plan.dueNs, afterNs', soFar', total, frames', ctx, factory, before, decoder)
    ensures willing && !more ==>
              Followed(ring.Logical(), total, frames', before, ctx.trace, decoder.value.id, shown, view)
  {
    hide Sound, FrameWindow.Valid, CursorsHold, Known, ValidBitstream, HandedAll, FrameWindow.Pin, FrameWindow.Unpin,
         NextInRange, WalkOver, Accepts, HasData, Unrolled, Willing, Fresh, CanDecode, AfterKey;
    ghost var w, cursor := ring.Logical(), ctx.cursors[CodecIndex(codec)];
    afterNs', frames', shown, view, soFar' := afterNs, frames, false, None, soFar;
    if willing {
      TurnAhead(w, codec, plan.keyNs, plan.dueNs, afterNs, cursor, answer, goOn, soFar, total);
      GoesOn(w, codec, plan.keyNs, plan.dueNs, answer, goOn, frames + 1);
    }
    var next := ring.PinNextInRange(afterNs, plan.dueNs);
    if next.None? {
      more := false;
      return;
    }
    ghost var q := NextInRange(w.slots, afterNs, plan.dueNs).value;
    if willing {
      OneMoreHanded(w.slots, decoder.value.id, soFar, q);
    }
    StillNew(ctx, factory, known, codec, next.value.payload.codec);
    more, shown := WalkTurn(ring, ctx, codec, plan.dueNs, next.value, factory, answer(next.value), w, q);
    afterNs' := next.value.captureNs;
    if next.value.captureNs >= plan.dueNs {
      view := next;
    } else if more && next.value.payload.codec == codec {
      frames', soFar' := frames + 1, soFar + [q];
      more := goOn(frames');
    }
  }

  lemma GoesOn(w: Window, codec: CodecId, keyNs: nat, dueNs: nat, answer: ReadView -> Answer, goOn: nat -> bool, n: nat)
    requires Shaped(w) && Willing(w, codec, keyNs, dueNs, answer, goOn)
    ensures goOn(n)
  {
  }

  /** A fresh frame is shown after the shorter of the two waits there are: the decodes before it, or the next key's time. */
  ghost predicate Soonest(plan: DecodePlan, started: Started, cost: nat, intervalNs: nat) {
    plan.due && plan.found && plan.catchUp > 0 ==>
      if plan.nextKey then
        (if plan.choice == CatchUp then plan.catchUp * cost else started.untilNs - plan.dueNs)
        == Min(plan.catchUp * cost, plan.framesToNextKey * intervalNs)
      else plan.choice == CatchUp
  }

  /** The whole of StartFromKey(): plan, then wait for the next key or catch up. */
  method StartFromKey(ring: FrameRing, ctx: DecodeContext, codec: CodecId, targetNs: nat, intervalNs: nat,
                      cursorNs: nat, factory: CodecId -> Option<Decoder>, answer: ReadView -> Answer, goOn: nat -> bool)
    returns (plan: DecodePlan, started: Started)
    requires ring.Valid() && ctx.Valid() && Fresh(ctx.known, factory) && Unpinnable(ring.Logical())
    modifies ctx, ring.headers
    ensures ring.Valid() && ctx.Valid() && ring.Logical() == old(ring.Logical())
    ensures var cost := old(ctx.decodeNs)[CodecIndex(codec)];
            Soonest(plan, started, if cost != 0 then cost else DEFAULT_DECODE_NS, intervalNs)
    ensures !plan.due ==> started == Started(false, None, 0, cursorNs, NoWait, 0) && ctx.trace == old(ctx.trace)
    ensures plan.due && (!plan.found || plan.choice == WaitForKey || plan.catchUp == 0) ==>
              && ctx.trace == old(ctx.trace)
              && started == Started(false, None, 0, plan.dueNs, NoKey,
                                    if plan.nextKey then plan.dueNs + plan.framesToNextKey * intervalNs else FOREVER)
    ensures plan.due && plan.found && plan.choice == CatchUp && plan.catchUp > 0 ==>
              CaughtUp(old(ring.Logical()), targetNs, codec, answer, goOn, plan, cursorNs, started,
                       if old(ctx.flushPending) then None else old(DecoderOf(ctx, codec, factory)),
                       old(ctx.trace), ctx.trace)
    ensures var cost := old(ctx.decodeNs)[CodecIndex(codec)];
            PlanMeets(old(ring.Logical()), targetNs, DECODE_JUMP_BACK, if cost != 0 then cost else DEFAULT_DECODE_NS,
                      intervalNs, plan)
  {
    hide FrameWindow.Valid, Sound, CursorsHold, Known, ValidBitstream, Unrolled, PlanFrom, Willing, InReach, CaughtUp;
    var index := CodecIndex(codec);
    var cost := if ctx.decodeNs[index] != 0 then ctx.decodeNs[index] else DEFAULT_DECODE_NS;
    plan := ring.PlanDecodeStart(targetNs, DECODE_JUMP_BACK, cost, intervalNs);
    PlanChooses(ring.Logical(), targetNs, cost, intervalNs, plan);
    if !plan.due {
      return plan, Started(false, None, 0, cursorNs, NoWait, 0);
    }
    if !plan.found || plan.choice == WaitForKey || plan.catchUp == 0 {
      return plan, Started(false, None, 0, plan.dueNs, NoKey,
                           if plan.nextKey then plan.dueNs + plan.framesToNextKey * intervalNs else FOREVER);
    }
    started := CatchUpOn(ring, ctx, codec, targetNs, cost, intervalNs, cursorNs, plan, factory, answer, goOn);
  }

  method CatchUpOn(ring: FrameRing, ctx: DecodeContext, codec: CodecId, ghost targetNs: nat, ghost cost: nat,
                   ghost intervalNs: nat, cursorNs: nat, plan: DecodePlan, factory: CodecId -> Option<Decoder>,
                   answer: ReadView -> Answer, goOn: nat -> bool) returns (started: Started)
    requires ring.Valid() && ctx.Valid() && Fresh(ctx.known, factory) && Unpinnable(ring.Logical())
    requires PlanMeets(ring.Logical(), targetNs, DECODE_JUMP_BACK, cost, intervalNs, plan) && plan.due && plan.found
    modifies ctx, ring.headers
    ensures ring.Valid() && ctx.Valid() && ring.Logical() == old(ring.Logical())
    ensures CaughtUp(old(ring.Logical()), targetNs, codec, answer, goOn, plan, cursorNs, started,
                     if old(ctx.flushPending) then None else old(DecoderOf(ctx, codec, factory)),
                     old(ctx.trace), ctx.trace)
  {
    hide FrameWindow.Valid, Sound, CursorsHold, Known, ValidBitstream, Unrolled, Willing, PlanMeets, CaptureTimes,
         HandedAll, Taken, CountCodec, DecodableFrom, ChainSlots, DisplayPosition, ReadySlots, InReach, Followed, WalkOver;
    ghost var w, before := ring.Logical(), ctx.trace;
    ghost var decoder := if ctx.flushPending then None else DecoderOf(ctx, codec, factory);
    ghost var cursor := ctx.cursors[CodecIndex(codec)];
    ghost var key, due := PlannedKey(w, targetNs, cost, intervalNs, plan);
    WindowTimes(ring, key, due);
    RingIsValid(ring);
    var shown, view, frames := WalkFromKey(ring, ctx, codec, plan, factory, answer, goOn);
    if !shown {
      started := Started(false, view, frames, Max(cursorNs, plan.dueNs), NoKey, FOREVER);
    } else {
      started := Started(true, view, frames, cursorNs, CatchingUp, plan.dueNs);
    }
    if decoder.Some? && codec == w.slots[due].payload.codec && Willing(w, codec, plan.keyNs, plan.dueNs, answer, goOn) {
      CaughtUpIff(w, targetNs, plan, key, due, cursor, frames, before, ctx.trace, decoder.value.id, shown, view);
    }
  }

  /** The frame due is shown, after exactly plan.catchUp others, the decoder having been handed the packets of its codec
      from the key on. */
  ghost predicate ShownAt(w: Window, plan: DecodePlan, key: nat, due: nat, frames: nat, before: seq<Happened>,
                          trace: seq<Happened>, decoder: nat, shown: bool, view: Option<ReadView>)
    requires Shaped(w) && key <= due < |w.slots|
  {
    && shown && view == Some(ViewOf(w, due)) && frames == plan.catchUp
    && trace == before + HandedAll(w.slots, decoder, Taken(w, key, due, due + 1))
  }

  /** How a catch-up ends. For a decoder that takes what it is given, with the frame due shown, if and only if the ring is
      in reach; whenever it is not shown, with the view held until the next key. */
  ghost predicate CaughtUp(w: Window, targetNs: nat, codec: CodecId, answer: ReadView -> Answer, goOn: nat -> bool,
                           plan: DecodePlan, cursorNs: nat, started: Started, decoder: Option<Decoder>,
                           before: seq<Happened>, trace: seq<Happened>)
  {
    Shaped(w) &&
    exists key: nat, due: nat :: PlannedFrom(w, targetNs, plan, key, due)
      && (decoder.Some? && codec == w.slots[due].payload.codec
          && Willing(w, codec, plan.keyNs, plan.dueNs, answer, goOn) ==>
            (InReach(w, key, due)
             <==> ShownAt(w, plan, key, due, started.frames, before, trace, decoder.value.id, started.shown, started.view)))
      && (started.shown ==> started.wait == CatchingUp && started.untilNs == plan.dueNs && started.cursorNs == cursorNs)
      && (!started.shown ==> started.wait == NoKey && started.untilNs == FOREVER
                             && started.cursorNs == Max(cursorNs, plan.dueNs))
  }

  lemma CaughtUpIff(w: Window, targetNs: nat, plan: DecodePlan, key: nat, due: nat, cursor: ChainCursor, frames: nat,
                    before: seq<Happened>, trace: seq<Happened>, decoder: nat, shown: bool, view: Option<ReadView>)
    requires Shaped(w) && FrameWindow.Valid(w) && NonDecreasing(CaptureTimes(w)) && PlannedFrom(w, targetNs, plan, key, due)
    requires Followed(w, WalkOver(w.slots, w.slots[due].payload.codec, AfterKey(plan.keyNs), plan.dueNs, cursor),
                      frames, before, trace, decoder, shown, view)
    ensures InReach(w, key, due) <==> ShownAt(w, plan, key, due, frames, before, trace, decoder, shown, view)
  {
    hide WalkOver, InReach, DecodableFrom, NonDecreasing, CaptureTimes, Taken, SamePackets, Followed, ShownAt;
    var r := WalkOver(w.slots, w.slots[due].payload.codec, AfterKey(plan.keyNs), plan.dueNs, cursor);
    ReachedIffInReach(w, key, due, cursor);
    TakenCounts(w, key, due);
    ShownIff(w, plan, key, due, r, frames, before, trace, decoder, shown, view);
  }

  lemma TakenCounts(w: Window, key: nat, due: nat)
    requires key <= due < |w.slots|
    ensures |Taken(w, key, due, due + 1)| == CountCodec(ChainSlots(w), w.slots[due].payload.codec, key, due + 1)
  {
    StretchCounts(ChainSlots(w), w.slots[due].payload.codec, key, due + 1);
  }

  lemma ShownIff(w: Window, plan: DecodePlan, key: nat, due: nat, r: Walk, frames: nat, before: seq<Happened>,
                 trace: seq<Happened>, decoder: nat, shown: bool, view: Option<ReadView>)
    requires Shaped(w) && FrameWindow.Valid(w) && key <= due < |w.slots| && InBounds(w.slots, r.handed)
    requires forall i :: 0 <= i < |r.handed| ==> w.slots[r.handed[i]].payload.codec == w.slots[due].payload.codec
    requires r.end.EndedElsewhere? ==>
               r.end.at < |w.slots| && w.slots[r.end.at].payload.codec != w.slots[due].payload.codec
    requires |Taken(w, key, due, due + 1)| == plan.catchUp + 1
    requires Followed(w, r, frames, before, trace, decoder, shown, view)
    ensures r.end == EndedAt(due) && SamePackets(w.slots, r.handed, Taken(w, key, due, due + 1))
            <==> ShownAt(w, plan, key, due, frames, before, trace, decoder, shown, view)
  {
    var taken := Taken(w, key, due, due + 1);
    SamePacketsHanded(w.slots, decoder, before, r.handed, taken);
    hide HandedAll, SamePackets, Taken;
    if r.end != Lost && view == Some(ViewOf(w, due)) {
      SameView(w, r.end.at, due);
    }
    hide FrameWindow.Valid, ViewOf;
  }

  lemma SameView(w: Window, p: nat, q: nat)
    requires Shaped(w) && FrameWindow.Valid(w) && p < |w.slots| && q < |w.slots| && ViewOf(w, p) == ViewOf(w, q)
    ensures p == q
  {
  }

  lemma SamePacketsHanded(slots: seq<Slot>, decoder: nat, before: seq<Happened>, a: seq<nat>, b: seq<nat>)
    requires InBounds(slots, a) && InBounds(slots, b)
    requires forall i, j :: 0 <= i < |a| && 0 <= j < |b| ==> slots[a[i]].payload.codec == slots[b[j]].payload.codec
    ensures SamePackets(slots, a, b) ==> HandedAll(slots, decoder, a) == HandedAll(slots, decoder, b)
    ensures before + HandedAll(slots, decoder, a) == before + HandedAll(slots, decoder, b) ==> SamePackets(slots, a, b)
  {
    var ha, hb := HandedAll(slots, decoder, a), HandedAll(slots, decoder, b);
    if before + ha == before + hb {
      assert ha == (before + ha)[|before|..] && hb == (before + hb)[|before|..];
      forall i | 0 <= i < |a|
        ensures SamePacket(slots[a[i]], slots[b[i]])
      {
        assert ha[i] == hb[i];
      }
    }
  }

  /** The key and due positions behind a plan told in capture times. */
  ghost predicate PlannedFrom(w: Window, targetNs: nat, plan: DecodePlan, key: nat, due: nat) {
    && key <= due < |w.slots| && w.slots[due].state.Ready?
    && due == DisplayPosition(CaptureTimes(w), ReadySlots(w), targetNs, DECODE_JUMP_BACK)
    && plan.dueNs == w.slots[due].captureNs && plan.keyNs == w.slots[key].captureNs
    && DecodableFrom(ChainSlots(w), key, due)
    && plan.catchUp + 1 == CountCodec(ChainSlots(w), w.slots[due].payload.codec, key, due + 1)
  }

  lemma PlanChooses(w: Window, targetNs: nat, cost: nat, intervalNs: nat, plan: DecodePlan)
    requires PlanMeets(w, targetNs, DECODE_JUMP_BACK, cost, intervalNs, plan)
    ensures plan.due ==>
              (plan.choice == CatchUp
               <==> plan.found && (!plan.nextKey || plan.catchUp * cost <= plan.framesToNextKey * intervalNs))
  {
    hide DisplayPosition, DecodableFrom, StartsAt, IsNextKey;
  }

  lemma PlannedKey(w: Window, targetNs: nat, cost: nat, intervalNs: nat, plan: DecodePlan) returns (key: nat, due: nat)
    requires PlanMeets(w, targetNs, DECODE_JUMP_BACK, cost, intervalNs, plan) && plan.due && plan.found
    ensures PlannedFrom(w, targetNs, plan, key, due)
  {
    due := DisplayPosition(CaptureTimes(w), ReadySlots(w), targetNs, DECODE_JUMP_BACK);
    var start :| PlanFrom(w, due, start, cost, intervalNs, plan);
    key := start.keyPos;
    assert StartsAt(ChainSlots(w), start, due);
    var at, ready := CaptureTimes(w), ReadySlots(w);
    assert ready[due];
  }

  lemma WindowTimes(ring: FrameRing, p: nat, q: nat)
    requires ring.Valid() && p <= q < |ring.Logical().slots|
    ensures ring.Logical().slots[p].captureNs <= ring.Logical().slots[q].captureNs
  {
    WindowValid(ring.Value(), ring.generations.next);
    assert CaptureTimes(ring.Logical())[p] <= CaptureTimes(ring.Logical())[q];
  }

  lemma RingIsValid(ring: FrameRing)
    requires ring.Valid()
    ensures FrameWindow.Valid(ring.Logical()) && NonDecreasing(CaptureTimes(ring.Logical()))
  {
    WindowValid(ring.Value(), ring.generations.next);
  }
}
