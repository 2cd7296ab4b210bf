/** Which frames the catch-up of a P-frame meets (src/codec-pipeline.cpp, StartFromKey): the walk over the ring on values,
    and exactly when it reaches the frame due. */
module CatchUpWalk {
  import opened Words
  import opened Storage
  import opened RingSelect
  import opened FrameWindow
  import opened Decoding
  import FrameArena

  // --- The frames of one codec ---

  /** The positions from k to hi - 1 that hold a Ready frame of one codec. */
  function Stretch(slots: seq<ChainSlot>, codec: CodecId, k: nat, hi: nat): seq<nat>
    requires k <= hi <= |slots|
    decreases hi - k
  {
    if k == hi then []
    else (if SameCodec(slots, hi - 1, codec) then Stretch(slots, codec, k, hi - 1) + [hi - 1]
          else Stretch(slots, codec, k, hi - 1))
  }

  lemma {:induction false} StretchCounts(slots: seq<ChainSlot>, codec: CodecId, k: nat, hi: nat)
    requires k <= hi <= |slots|
    ensures |Stretch(slots, codec, k, hi)| == CountCodec(slots, codec, k, hi)
    decreases hi - k
  {
    if k < hi {
      StretchCounts(slots, codec, k, hi - 1);
      CountSplits(slots, codec, k, hi - 1, hi);
    }
  }

  lemma {:induction false} CountSplits(slots: seq<ChainSlot>, codec: CodecId, lo: nat, mid: nat, hi: nat)
    requires lo <= mid <= hi <= |slots|
    ensures CountCodec(slots, codec, lo, hi) == CountCodec(slots, codec, lo, mid) + CountCodec(slots, codec, mid, hi)
    decreases mid - lo
  {
    if lo < mid {
      CountSplits(slots, codec, lo + 1, mid, hi);
    }
  }

  /** In a linked stretch each frame is the successor of the one before it. */
  lemma LinkedNext(slots: seq<ChainSlot>, k: nat, due: nat, p: nat, q: nat)
    requires k <= p < q <= due < |slots| && Linked(slots, k, due)
    requires var codec := slots[due].codec;
             && SameCodec(slots, p, codec) && SameCodec(slots, q, codec)
             && forall m :: p < m < q ==> !SameCodec(slots, m, codec)
    ensures slots[q].chain == slots[p].chain && slots[q].seqNo == NextSeq(slots[p].seqNo)
  {
    var codec := slots[due].codec;
    NoneBetween(slots, codec, p + 1, q, due + 1);
    WrapStep(slots[due].seqNo, slots[q].seqNo, CountCodec(slots, codec, q + 1, due + 1));
  }

  lemma {:induction false} NoneBetween(slots: seq<ChainSlot>, codec: CodecId, lo: nat, q: nat, hi: nat)
    requires lo <= q < hi <= |slots| && SameCodec(slots, q, codec)
    requires forall m :: lo <= m < q ==> !SameCodec(slots, m, codec)
    ensures CountCodec(slots, codec, lo, hi) == 1 + CountCodec(slots, codec, q + 1, hi)
    decreases q - lo
  {
    if lo < q {
      NoneBetween(slots, codec, lo + 1, q, hi);
    }
  }

  lemma {:induction false} StretchBounds(slots: seq<ChainSlot>, codec: CodecId, k: nat, hi: nat)
    requires k <= hi <= |slots|
    ensures forall i :: 0 <= i < |Stretch(slots, codec, k, hi)| ==>
              k <= Stretch(slots, codec, k, hi)[i] < hi && SameCodec(slots, Stretch(slots, codec, k, hi)[i], codec)
    decreases hi - k
  {
    if k < hi {
      StretchBounds(slots, codec, k, hi - 1);
    }
  }

  /** Positions of frames of the codec between k and hi, in order. */
  ghost predicate Ascends(slots: seq<ChainSlot>, codec: CodecId, k: nat, hi: nat, positions: seq<nat>)
    requires k <= hi <= |slots|
  {
    && (forall i :: 0 <= i < |positions| ==> k <= positions[i] < hi && SameCodec(slots, positions[i], codec))
    && (forall i, j :: 0 <= i < j < |positions| ==> positions[i] < positions[j])
  }

  /** Positions of frames of the codec, in order: no more than there are, and when there are as many, all of them. */
  lemma {:induction false} Fills(slots: seq<ChainSlot>, codec: CodecId, k: nat, hi: nat, positions: seq<nat>)
    requires k <= hi <= |slots|
    requires Ascends(slots, codec, k, hi, positions)
    ensures |positions| <= |Stretch(slots, codec, k, hi)|
    ensures |positions| == |Stretch(slots, codec, k, hi)| ==> positions == Stretch(slots, codec, k, hi)
    decreases hi - k
  {
    assert positions != [] ==> k <= positions[0] < hi;
    if k < hi {
      var n := |positions|;
      if n > 0 && positions[n - 1] == hi - 1 {
        Fills(slots, codec, k, hi - 1, positions[..n - 1]);
      } else {
        assert forall i :: 0 <= i < n ==> positions[i] < hi - 1 by {
          assert forall i :: 0 <= i < n - 1 ==> positions[i] < positions[n - 1];
        }
        Fills(slots, codec, k, hi - 1, positions);
      }
    }
  }

  lemma {:induction false} StretchFront(slots: seq<ChainSlot>, codec: CodecId, k: nat, hi: nat)
    requires k < hi <= |slots|
    ensures Stretch(slots, codec, k, hi)
            == (if SameCodec(slots, k, codec) then [k] else []) + Stretch(slots, codec, k + 1, hi)
    decreases hi - k
  {
    if k + 1 < hi {
      StretchFront(slots, codec, k, hi - 1);
    }
  }

  // --- The walk ---

  predicate InBounds(slots: seq<Slot>, positions: seq<nat>) {
    forall i :: 0 <= i < |positions| ==> positions[i] < |slots|
  }

  /** What the decoder took: one packet per position. */
  function HandedAll(slots: seq<Slot>, decoder: nat, positions: seq<nat>): seq<Happened>
    requires InBounds(slots, positions)
  {
    seq(|positions|, i requires 0 <= i < |positions| =>
      var payload := slots[positions[i]].payload;
      Handed(decoder, payload.key, payload.chain, payload.seqNo, true))
  }

  function CursorAt(s: Slot): ChainCursor { ChainCursor(true, s.payload.chain, s.payload.seqNo) }

  /** The frames of due's codec at positions key, key + 1, ..., p - 1. */
  function Taken(w: Window, key: nat, due: nat, p: nat): (taken: seq<nat>)
    requires key <= p <= |w.slots| && due < |w.slots|
    ensures InBounds(w.slots, taken)
    ensures forall i :: 0 <= i < |taken| ==> w.slots[taken[i]].payload.codec == w.slots[due].payload.codec
  {
    StretchBounds(ChainSlots(w), w.slots[due].payload.codec, key, p);
    Stretch(ChainSlots(w), w.slots[due].payload.codec, key, p)
  }

  /** Lost: a frame could not be decoded, or none was left. Ended: the first Ready slot captured at the time of the frame
      due, or later; of another codec, and whether that decodes is its own decoder's affair; or of this one, decoded. */
  datatype WalkEnd = Lost | EndedElsewhere(at: nat) | EndedAt(at: nat)

  /** handed: the frames of the codec the decoder was handed, by position. */
  datatype Walk = Walk(handed: seq<nat>, end: WalkEnd)

  /** The walk from just after a time to the frame due, for a decoder that takes every frame it is handed. */
  function WalkOver(slots: seq<Slot>, codec: CodecId, afterNs: nat, dueNs: nat, cursor: ChainCursor): (r: Walk)
    ensures InBounds(slots, r.handed)
    ensures forall i :: 0 <= i < |r.handed| ==> slots[r.handed[i]].payload.codec == codec
    ensures r.end.EndedAt? ==> r.handed != [] && r.handed[|r.handed| - 1] == r.end.at
    ensures r.end.EndedElsewhere? ==> r.end.at < |slots| && slots[r.end.at].payload.codec != codec
    decreases if afterNs <= dueNs then dueNs - afterNs else 0
  {
    var next := NextInRange(slots, afterNs, dueNs);
    if next.None? then Walk([], Lost)
    else
      var q, s := next.value, slots[next.value];
      if s.payload.codec != codec then
        (if s.captureNs >= dueNs then Walk([], EndedElsewhere(q)) else WalkOver(slots, codec, s.captureNs, dueNs, cursor))
      else if !Decodable(s.payload.key, s.payload.chain, s.payload.seqNo, cursor) then Walk([], Lost)
      else if s.captureNs >= dueNs then Walk([q], EndedAt(q))
      else
        var rest := WalkOver(slots, codec, s.captureNs, dueNs, CursorAt(s));
        Walk([q] + rest.handed, rest.end)
  }

  /** Where the walk from a key starts: just before it, unless that is not possible. */
  function AfterKey(keyNs: nat): nat { if keyNs > 0 then keyNs - 1 else 0 }

  // --- What the range search meets ---

  /** The first Ready slot of its capture time. */
  ghost predicate FirstOfTime(slots: seq<Slot>, p: nat) {
    && p < |slots| && slots[p].state.Ready?
    && forall m :: 0 <= m < p && slots[m].state.Ready? ==> slots[m].captureNs < slots[p].captureNs
  }

  lemma {:induction false} FirstReadyMeets(slots: seq<Slot>, p: nat, afterNs: nat, untilNs: nat)
    requires NonDecreasing(Times(slots)) && p <= |slots|
    ensures var r := FirstReady(slots, p, afterNs, untilNs);
            forall m :: p <= m < |slots| && slots[m].state.Ready? && afterNs < slots[m].captureNs <= untilNs ==>
              r.Some? && r.value <= m
    decreases |slots| - p
  {
    var at := Times(slots);
    if p < |slots| && slots[p].captureNs > untilNs {
      assert forall m :: p <= m < |slots| ==> at[p] <= at[m];
    } else if p < |slots| {
      FirstReadyMeets(slots, p + 1, afterNs, untilNs);
    }
  }

  /** The search finds a slot if there is one in the range, and then the first Ready one past afterNs. */
  lemma NextMeets(slots: seq<Slot>, afterNs: nat, untilNs: nat)
    requires NonDecreasing(Times(slots))
    ensures var r := NextInRange(slots, afterNs, untilNs);
            && (forall m :: 0 <= m < |slots| && slots[m].state.Ready? && afterNs < slots[m].captureNs <= untilNs ==>
                  r.Some? && r.value <= m)
            && (r.Some? ==> FirstOfTime(slots, r.value))
  {
    var at := Times(slots);
    var p := PositionAfter(slots, afterNs);
    FirstReadyMeets(slots, p, afterNs, untilNs);
    assert forall m :: 0 <= m < p ==> slots[m].captureNs <= afterNs by {
      var last := DuePosition(at, afterNs);
      assert last < |at| ==> forall m :: 0 <= m <= last ==> at[m] <= at[last];
    }
    var r := NextInRange(slots, afterNs, untilNs);
    if r.Some? {
      assert forall m :: 0 <= m <= r.value ==> at[m] <= at[r.value];
    }
  }

  /** Frames of the codec, each the first of its capture time, and each captured later than the one before. */
  ghost predicate Met(slots: seq<Slot>, codec: CodecId, afterNs: nat, dueNs: nat, positions: seq<nat>) {
    && (forall i :: 0 <= i < |positions| ==>
          FirstOfTime(slots, positions[i]) && slots[positions[i]].payload.codec == codec
          && afterNs < slots[positions[i]].captureNs <= dueNs)
    && (forall i, j :: 0 <= i < j < |positions| ==>
          FirstOfTime(slots, positions[i]) && FirstOfTime(slots, positions[j])
          && slots[positions[i]].captureNs < slots[positions[j]].captureNs)
  }

  lemma OneMoreMet(slots: seq<Slot>, codec: CodecId, afterNs: nat, dueNs: nat, q: nat, rest: seq<nat>)
    requires FirstOfTime(slots, q) && slots[q].payload.codec == codec && afterNs < slots[q].captureNs <= dueNs
    requires Met(slots, codec, slots[q].captureNs, dueNs, rest)
    ensures Met(slots, codec, afterNs, dueNs, [q] + rest)
  {
    hide FirstOfTime;
  }

  lemma MetIsFirst(slots: seq<Slot>, codec: CodecId, afterNs: nat, dueNs: nat, positions: seq<nat>, p: nat)
    requires Met(slots, codec, afterNs, dueNs, positions) && p in positions
    ensures FirstOfTime(slots, p)
  {
    var i :| 0 <= i < |positions| && positions[i] == p;
  }

  lemma NoneMet(slots: seq<Slot>, codec: CodecId, afterNs: nat, dueNs: nat)
    ensures Met(slots, codec, afterNs, dueNs, [])
  {
  }

  lemma MetSooner(slots: seq<Slot>, codec: CodecId, afterNs: nat, laterNs: nat, dueNs: nat, positions: seq<nat>)
    requires afterNs <= laterNs && Met(slots, codec, laterNs, dueNs, positions)
    ensures Met(slots, codec, afterNs, dueNs, positions)
  {
  }

  lemma {:induction false} WalkMeets(slots: seq<Slot>, codec: CodecId, afterNs: nat, dueNs: nat, cursor: ChainCursor)
    requires NonDecreasing(Times(slots))
    ensures Met(slots, codec, afterNs, dueNs, WalkOver(slots, codec, afterNs, dueNs, cursor).handed)
    decreases if afterNs <= dueNs then dueNs - afterNs else 0
  {
    NextMeets(slots, afterNs, dueNs);
    NoneMet(slots, codec, afterNs, dueNs);
    hide FirstOfTime, NextInRange, NonDecreasing, Times, Decodable, Met;
    var next := NextInRange(slots, afterNs, dueNs);
    if next.Some? {
      var q := next.value;
      var s := slots[q];
      if s.captureNs >= dueNs {
        if s.payload.codec == codec {
          NoneMet(slots, codec, s.captureNs, dueNs);
          OneMoreMet(slots, codec, afterNs, dueNs, q, []);
        }
      } else if s.payload.codec != codec {
        WalkMeets(slots, codec, s.captureNs, dueNs, cursor);
        MetSooner(slots, codec, afterNs, s.captureNs, dueNs, WalkOver(slots, codec, s.captureNs, dueNs, cursor).handed);
      } else if Decodable(s.payload.key, s.payload.chain, s.payload.seqNo, cursor) {
        var rest := WalkOver(slots, codec, s.captureNs, dueNs, CursorAt(s));
        WalkMeets(slots, codec, s.captureNs, dueNs, CursorAt(s));
        OneMoreMet(slots, codec, afterNs, dueNs, q, rest.handed);
      }
    }
  }

  // --- Exactly when the walk reaches the frame due ---

  predicate SamePacket(a: Slot, b: Slot) {
    && a.payload.codec == b.payload.codec && a.payload.key == b.payload.key
    && a.payload.chain == b.payload.chain && a.payload.seqNo == b.payload.seqNo
  }

  /** Some copy of the key's packet (the key, unless a packet was stored twice) is the first of the key's time. */
  ghost predicate KeyMet(slots: seq<Slot>, key: nat)
    requires key < |slots|
  {
    exists x: nat :: FirstOfTime(slots, x) && slots[x].captureNs == slots[key].captureNs && SamePacket(slots[x], slots[key])
  }

  /** The key was not captured at time 0, and it and every later frame of the codec up to the one due is the first
      Ready slot of its capture time. */
  ghost predicate InReach(w: Window, key: nat, due: nat) {
    && key <= due < |w.slots| && w.slots[key].captureNs > 0
    && KeyMet(w.slots, key) && FirstOfTime(w.slots, due)
    && forall p :: key < p <= due && SameCodec(ChainSlots(w), p, w.slots[due].payload.codec) ==> FirstOfTime(w.slots, p)
  }

  predicate SamePackets(slots: seq<Slot>, a: seq<nat>, b: seq<nat>)
    requires InBounds(slots, a) && InBounds(slots, b)
  {
    |a| == |b| && forall i :: 0 <= i < |a| ==> SamePacket(slots[a[i]], slots[b[i]])
  }

  lemma {:induction false} StretchHas(slots: seq<ChainSlot>, codec: CodecId, k: nat, hi: nat, p: nat)
    requires k <= p < hi <= |slots| && SameCodec(slots, p, codec)
    ensures p in Stretch(slots, codec, k, hi)
    decreases hi - k
  {
    if p < hi - 1 {
      StretchHas(slots, codec, k, hi - 1, p);
    }
  }

  lemma Later(w: Window, p: nat, q: nat)
    requires NonDecreasing(CaptureTimes(w)) && p < |w.slots| && q < |w.slots| && w.slots[p].captureNs < w.slots[q].captureNs
    ensures p < q
  {
    var at := CaptureTimes(w);
    assert at[p] < at[q];
  }

  /** The frame handed over at place i lies behind the key, if it was captured later, and no later than the one due. */
  lemma LiesBehind(w: Window, key: nat, due: nat, h: seq<nat>, i: nat)
    requires NonDecreasing(CaptureTimes(w)) && key <= due < |w.slots| && i < |h| && h[|h| - 1] == due
    requires Met(w.slots, w.slots[due].payload.codec, AfterKey(w.slots[key].captureNs), w.slots[due].captureNs, h)
    requires i > 0 || w.slots[h[i]].captureNs > w.slots[key].captureNs
    ensures key + 1 <= h[i] <= due && SameCodec(ChainSlots(w), h[i], w.slots[due].payload.codec)
  {
    assert FirstOfTime(w.slots, h[i]) && FirstOfTime(w.slots, h[0]) && FirstOfTime(w.slots, due);
    assert w.slots[h[0]].captureNs >= w.slots[key].captureNs;
    Later(w, key, h[i]);
  }

  /** All but the first of the frames handed over lie behind the key, in order, up to the one due. */
  lemma RestAscends(w: Window, key: nat, due: nat, h: seq<nat>, from: nat)
    requires NonDecreasing(CaptureTimes(w)) && key <= due < |w.slots| && from < |h| && h[|h| - 1] == due
    requires Met(w.slots, w.slots[due].payload.codec, AfterKey(w.slots[key].captureNs), w.slots[due].captureNs, h)
    requires from > 0 || w.slots[h[0]].captureNs > w.slots[key].captureNs
    ensures Ascends(ChainSlots(w), w.slots[due].payload.codec, key + 1, due + 1, h[from..])
  {
    var rest := h[from..];
    forall i | 0 <= i < |rest|
      ensures key + 1 <= rest[i] < due + 1 && SameCodec(ChainSlots(w), rest[i], w.slots[due].payload.codec)
    {
      LiesBehind(w, key, due, h, from + i);
    }
    forall i, j | 0 <= i < j < |rest|
      ensures rest[i] < rest[j]
    {
      assert FirstOfTime(w.slots, h[from + i]) && FirstOfTime(w.slots, h[from + j]);
      Later(w, h[from + i], h[from + j]);
    }
  }

  lemma FirstMet(slots: seq<Slot>, codec: CodecId, afterNs: nat, dueNs: nat, h: seq<nat>)
    requires Met(slots, codec, afterNs, dueNs, h) && h != []
    ensures FirstOfTime(slots, h[0]) && afterNs < slots[h[0]].captureNs
  {
  }

  /** Behind the key there is no room for all of them. */
  lemma NotAllBehind(w: Window, key: nat, due: nat, h: seq<nat>)
    requires NonDecreasing(CaptureTimes(w)) && key <= due < |w.slots| && h != [] && h[|h| - 1] == due
    requires Met(w.slots, w.slots[due].payload.codec, AfterKey(w.slots[key].captureNs), w.slots[due].captureNs, h)
    requires h[0] < |w.slots| && w.slots[h[0]].captureNs > w.slots[key].captureNs
    ensures |h| <= |Stretch(ChainSlots(w), w.slots[due].payload.codec, key + 1, due + 1)|
  {
    hide Ascends, Met, Stretch, FirstOfTime, NonDecreasing, CaptureTimes;
    RestAscends(w, key, due, h, 0);
    Fills(ChainSlots(w), w.slots[due].payload.codec, key + 1, due + 1, h[0..]);
  }

  lemma FirstIsKey(w: Window, key: nat, due: nat, h: seq<nat>)
    requires NonDecreasing(CaptureTimes(w)) && key <= due < |w.slots| && h != [] && h[|h| - 1] == due
    requires Met(w.slots, w.slots[due].payload.codec, AfterKey(w.slots[key].captureNs), w.slots[due].captureNs, h)
    requires |h| > |Stretch(ChainSlots(w), w.slots[due].payload.codec, key + 1, due + 1)|
    requires h[0] < |w.slots| && SamePacket(w.slots[h[0]], w.slots[key])
    ensures w.slots[key].captureNs > 0 && KeyMet(w.slots, key)
  {
    hide Met, Stretch, FirstOfTime, NonDecreasing, CaptureTimes, ChainSlots, SamePacket;
    FirstMet(w.slots, w.slots[due].payload.codec, AfterKey(w.slots[key].captureNs), w.slots[due].captureNs, h);
    if w.slots[h[0]].captureNs > w.slots[key].captureNs {
      NotAllBehind(w, key, due, h);
    }
  }

  lemma RestAll(slots: seq<ChainSlot>, codec: CodecId, key: nat, due: nat, h: seq<nat>)
    requires key <= due < |slots| && h != [] && |h| == 1 + |Stretch(slots, codec, key + 1, due + 1)|
    requires |h| > 1 ==> Ascends(slots, codec, key + 1, due + 1, h[1..])
    ensures forall p :: key < p <= due && SameCodec(slots, p, codec) ==> p in h
  {
    hide Ascends;
    if |h| > 1 {
      Fills(slots, codec, key + 1, due + 1, h[1..]);
    }
    forall p | key < p <= due && SameCodec(slots, p, codec)
      ensures p in h
    {
      StretchHas(slots, codec, key + 1, due + 1, p);
      assert p in h[1..];
    }
  }

  lemma RestIsFirst(w: Window, key: nat, due: nat, h: seq<nat>)
    requires NonDecreasing(CaptureTimes(w)) && key <= due < |w.slots| && h != [] && h[|h| - 1] == due
    requires Met(w.slots, w.slots[due].payload.codec, AfterKey(w.slots[key].captureNs), w.slots[due].captureNs, h)
    requires |h| == 1 + |Stretch(ChainSlots(w), w.slots[due].payload.codec, key + 1, due + 1)|
    ensures FirstOfTime(w.slots, due)
    ensures forall p :: key < p <= due && SameCodec(ChainSlots(w), p, w.slots[due].payload.codec) ==> FirstOfTime(w.slots, p)
  {
    var codec, afterNs := w.slots[due].payload.codec, AfterKey(w.slots[key].captureNs);
    MetIsFirst(w.slots, codec, afterNs, w.slots[due].captureNs, h, due);
    if |h| > 1 {
      RestAscends(w, key, due, h, 1);
    }
    hide Ascends, NonDecreasing, CaptureTimes, FirstOfTime, Stretch, ChainSlots, Met;
    RestAll(ChainSlots(w), codec, key, due, h);
    forall p | key < p <= due && SameCodec(ChainSlots(w), p, codec)
      ensures FirstOfTime(w.slots, p)
    {
      assert p in h;
      MetIsFirst(w.slots, codec, afterNs, w.slots[due].captureNs, h, p);
    }
  }

  /** Only such a ring lets the walk end at the frame due with exactly its packets handed over. */
  lemma OnlyInReach(w: Window, key: nat, due: nat, cursor: ChainCursor)
    requires NonDecreasing(CaptureTimes(w)) && key <= due < |w.slots| && w.slots[due].state.Ready?
    requires DecodableFrom(ChainSlots(w), key, due)
    requires var r := WalkOver(w.slots, w.slots[due].payload.codec, AfterKey(w.slots[key].captureNs), w.slots[due].captureNs, cursor);
             r.end == EndedAt(due) && SamePackets(w.slots, r.handed, Taken(w, key, due, due + 1))
    ensures InReach(w, key, due)
  {
    var codec, keyNs, dueNs := w.slots[due].payload.codec, w.slots[key].captureNs, w.slots[due].captureNs;
    var h := WalkOver(w.slots, codec, AfterKey(keyNs), dueNs, cursor).handed;
    WalkMeets(w.slots, codec, AfterKey(keyNs), dueNs, cursor);
    hide WalkOver, Met, AfterKey, NonDecreasing, CaptureTimes, FirstOfTime, KeyMet, SamePacket;
    StretchFront(ChainSlots(w), codec, key, due + 1);
    assert Taken(w, key, due, due + 1) == [key] + Stretch(ChainSlots(w), codec, key + 1, due + 1);
    assert SamePacket(w.slots[h[0]], w.slots[key]);
    hide Taken, SamePackets, DecodableFrom, Stretch, ChainSlots;
    FirstIsKey(w, key, due, h);
    RestIsFirst(w, key, due, h);
  }

  // --- In reach, the walk gets there ---

  /** One turn of the walk. */
  lemma TurnIs(slots: seq<Slot>, codec: CodecId, afterNs: nat, dueNs: nat, cursor: ChainCursor)
    requires NextInRange(slots, afterNs, dueNs).Some?
    ensures var q := NextInRange(slots, afterNs, dueNs).value;
            && afterNs < slots[q].captureNs <= dueNs && slots[q].state.Ready?
            && (slots[q].payload.codec != codec && slots[q].captureNs < dueNs ==>
                  WalkOver(slots, codec, afterNs, dueNs, cursor) == WalkOver(slots, codec, slots[q].captureNs, dueNs, cursor))
    ensures var q := NextInRange(slots, afterNs, dueNs).value;
            var s := slots[q];
            s.payload.codec == codec && Decodable(s.payload.key, s.payload.chain, s.payload.seqNo, cursor) ==>
              WalkOver(slots, codec, afterNs, dueNs, cursor)
              == if s.captureNs >= dueNs then Walk([q], EndedAt(q))
                 else var rest := WalkOver(slots, codec, s.captureNs, dueNs, CursorAt(s)); Walk([q] + rest.handed, rest.end)
  {
  }

  lemma StretchEmpty(slots: seq<ChainSlot>, codec: CodecId, k: nat)
    requires k <= |slots|
    ensures Stretch(slots, codec, k, k) == []
  {
  }

  lemma {:induction false} NextOfCodec(slots: seq<ChainSlot>, codec: CodecId, k: nat, due: nat) returns (t: nat)
    requires k <= due < |slots| && SameCodec(slots, due, codec)
    ensures k <= t <= due && SameCodec(slots, t, codec) && forall m :: k <= m < t ==> !SameCodec(slots, m, codec)
    ensures Stretch(slots, codec, k, due + 1) == [t] + Stretch(slots, codec, t + 1, due + 1)
    decreases due - k
  {
    hide Stretch;
    StretchFront(slots, codec, k, due + 1);
    if SameCodec(slots, k, codec) {
      t := k;
    } else {
      t := NextOfCodec(slots, codec, k + 1, due);
    }
  }

  /** From past the frame at position last on, the walk is handed every later frame up to the one due. */
  ghost predicate Onward(w: Window, key: nat, due: nat, last: nat, afterNs: nat, cursor: ChainCursor)
    requires key <= last < due < |w.slots|
  {
    && SameCodec(ChainSlots(w), last, w.slots[due].payload.codec) && cursor == CursorAt(w.slots[last])
    && w.slots[last].captureNs <= afterNs
    && forall m :: last < m <= due && SameCodec(ChainSlots(w), m, w.slots[due].payload.codec) ==> afterNs < w.slots[m].captureNs
  }

  /** Where the next turn of the walk leads. */
  lemma NextTurn(w: Window, key: nat, due: nat, last: nat, afterNs: nat, cursor: ChainCursor, t: nat)
    requires NonDecreasing(CaptureTimes(w)) && InReach(w, key, due) && DecodableFrom(ChainSlots(w), key, due)
    requires key <= last < due && Onward(w, key, due, last, afterNs, cursor)
    requires last < t <= due && SameCodec(ChainSlots(w), t, w.slots[due].payload.codec)
    requires forall m :: last < m < t ==> !SameCodec(ChainSlots(w), m, w.slots[due].payload.codec)
    ensures var next := NextInRange(w.slots, afterNs, w.slots[due].captureNs);
            && next.Some? && next.value <= t && afterNs < w.slots[next.value].captureNs
            && w.slots[next.value].state.Ready?
            && (next.value == t ==> Decodable(w.slots[t].payload.key, w.slots[t].payload.chain, w.slots[t].payload.seqNo, cursor))
            && (next.value < t ==> w.slots[next.value].payload.codec != w.slots[due].payload.codec
                                   && w.slots[next.value].captureNs < w.slots[t].captureNs)
    ensures w.slots[t].captureNs <= w.slots[due].captureNs && w.slots[t].payload.codec == w.slots[due].payload.codec
    ensures t < due ==> w.slots[t].captureNs < w.slots[due].captureNs
  {
    var slots, codec := w.slots, w.slots[due].payload.codec;
    assert FirstOfTime(slots, t) && FirstOfTime(slots, due);
    assert slots[t].captureNs <= slots[due].captureNs by { assert CaptureTimes(w)[t] <= CaptureTimes(w)[due]; }
    NextMeets(slots, afterNs, slots[due].captureNs);
    var q := NextInRange(slots, afterNs, slots[due].captureNs).value;
    LinkedNext(ChainSlots(w), key, due, last, t);
    if q < t {
      Later(w, last, q);
      assert !SameCodec(ChainSlots(w), q, codec);
    }
  }

  lemma FirstBefore(slots: seq<Slot>, p: nat, q: nat)
    requires p < q < |slots| && slots[p].state.Ready? && FirstOfTime(slots, q)
    ensures slots[p].captureNs < slots[q].captureNs
  {
  }

  lemma OnwardPast(w: Window, key: nat, due: nat, last: nat, afterNs: nat, cursor: ChainCursor, q: nat)
    requires InReach(w, key, due) && key <= last < due && Onward(w, key, due, last, afterNs, cursor)
    requires q < |w.slots| && afterNs < w.slots[q].captureNs && w.slots[q].state.Ready?
    requires forall m :: last < m <= due && SameCodec(ChainSlots(w), m, w.slots[due].payload.codec) ==> q < m
    ensures Onward(w, key, due, last, w.slots[q].captureNs, cursor)
  {
    forall m | last < m <= due && SameCodec(ChainSlots(w), m, w.slots[due].payload.codec)
      ensures w.slots[q].captureNs < w.slots[m].captureNs
    {
      FirstBefore(w.slots, q, m);
    }
  }

  lemma OnwardAt(w: Window, key: nat, due: nat, t: nat)
    requires InReach(w, key, due) && key <= t < due && SameCodec(ChainSlots(w), t, w.slots[due].payload.codec)
    ensures Onward(w, key, due, t, w.slots[t].captureNs, CursorAt(w.slots[t]))
  {
    forall m | t < m <= due && SameCodec(ChainSlots(w), m, w.slots[due].payload.codec)
      ensures w.slots[t].captureNs < w.slots[m].captureNs
    {
      FirstBefore(w.slots, t, m);
    }
  }

  lemma DueOfCodec(w: Window, key: nat, due: nat)
    requires InReach(w, key, due) && w.slots[due].state.Ready?
    ensures due < |w.slots| && SameCodec(ChainSlots(w), due, w.slots[due].payload.codec)
  {
  }

  /** The next frame of the codec, and where the next turn of the walk leads: there, or to a frame of another codec. */
  lemma Ahead(w: Window, key: nat, due: nat, last: nat, afterNs: nat, cursor: ChainCursor) returns (t: nat, q: nat)
    requires NonDecreasing(CaptureTimes(w)) && InReach(w, key, due) && DecodableFrom(ChainSlots(w), key, due)
    requires w.slots[due].state.Ready? && key <= last < due && Onward(w, key, due, last, afterNs, cursor)
    ensures last < t <= due < |w.slots| && q <= t && NextInRange(w.slots, afterNs, w.slots[due].captureNs) == Some(q)
    ensures Stretch(ChainSlots(w), w.slots[due].payload.codec, last + 1, due + 1)
            == [t] + Stretch(ChainSlots(w), w.slots[due].payload.codec, t + 1, due + 1)
    ensures q < t ==> w.slots[q].payload.codec != w.slots[due].payload.codec
                      && w.slots[q].captureNs < w.slots[due].captureNs
                      && Onward(w, key, due, last, w.slots[q].captureNs, cursor)
    ensures q == t ==> w.slots[t].payload.codec == w.slots[due].payload.codec
                       && Decodable(w.slots[t].payload.key, w.slots[t].payload.chain, w.slots[t].payload.seqNo, cursor)
    ensures t < due ==> w.slots[t].captureNs < w.slots[due].captureNs
                        && Onward(w, key, due, t, w.slots[t].captureNs, CursorAt(w.slots[t]))
  {
    hide DecodableFrom, NonDecreasing, CaptureTimes, Stretch, NextInRange, Decodable, Onward, InReach, FirstOfTime, CursorAt,
         SameCodec, AsChainSlot;
    DueOfCodec(w, key, due);
    t := NextOfCodec(ChainSlots(w), w.slots[due].payload.codec, last + 1, due);
    NextTurn(w, key, due, last, afterNs, cursor, t);
    q := NextInRange(w.slots, afterNs, w.slots[due].captureNs).value;
    if q < t {
      OnwardPast(w, key, due, last, afterNs, cursor, q);
    }
    if t < due {
      OnwardAt(w, key, due, t);
    }
  }

  lemma {:induction false} WalkGoesOn(w: Window, key: nat, due: nat, last: nat, afterNs: nat, cursor: ChainCursor)
    requires NonDecreasing(CaptureTimes(w)) && InReach(w, key, due) && DecodableFrom(ChainSlots(w), key, due)
    requires w.slots[due].state.Ready? && key <= last < due && Onward(w, key, due, last, afterNs, cursor)
    ensures WalkOver(w.slots, w.slots[due].payload.codec, afterNs, w.slots[due].captureNs, cursor)
            == Walk(Stretch(ChainSlots(w), w.slots[due].payload.codec, last + 1, due + 1), EndedAt(due))
    decreases if afterNs <= w.slots[due].captureNs then w.slots[due].captureNs - afterNs else 0
  {
    hide Onward, InReach, DecodableFrom, NonDecreasing, CaptureTimes, Stretch, NextInRange, WalkOver, Decodable, ChainSlots,
         KeyMet, FirstOfTime, Linked, InBounds, CursorAt;
    var t, q := Ahead(w, key, due, last, afterNs, cursor);
    StretchEmpty(ChainSlots(w), w.slots[due].payload.codec, due + 1);
    TurnIs(w.slots, w.slots[due].payload.codec, afterNs, w.slots[due].captureNs, cursor);
    if q < t {
      WalkGoesOn(w, key, due, last, w.slots[q].captureNs, cursor);
    } else if t < due {
      WalkGoesOn(w, key, due, t, w.slots[t].captureNs, CursorAt(w.slots[t]));
    }
  }

  lemma FromKeyOn(w: Window, key: nat, due: nat, cursor: ChainCursor, x: nat)
    requires NonDecreasing(CaptureTimes(w)) && InReach(w, key, due) && DecodableFrom(ChainSlots(w), key, due)
    requires w.slots[due].state.Ready? && x < |w.slots| && FirstOfTime(w.slots, x)
    requires w.slots[x].captureNs == w.slots[key].captureNs && SamePacket(w.slots[x], w.slots[key])
    ensures WalkOver(w.slots, w.slots[due].payload.codec, AfterKey(w.slots[key].captureNs), w.slots[due].captureNs, cursor)
            == Walk([x] + Stretch(ChainSlots(w), w.slots[due].payload.codec, key + 1, due + 1), EndedAt(due))
  {
    var codec, keyNs := w.slots[due].payload.codec, w.slots[key].captureNs;
    assert SameCodec(ChainSlots(w), key, codec) && w.slots[key].payload.key;
    assert key == due ==> Stretch(ChainSlots(w), codec, key + 1, due + 1) == [];
    hide WalkOver, Onward, Stretch, NextInRange, InReach, NonDecreasing, CaptureTimes, FirstOfTime, AfterKey, DecodableFrom;
    KeyIsNext(w, key, due, x);
    DueIsFirst(w, key, due, x);
    TurnIs(w.slots, codec, AfterKey(keyNs), w.slots[due].captureNs, cursor);
    if key < due {
      OnwardAt(w, key, due, key);
      assert CursorAt(w.slots[x]) == CursorAt(w.slots[key]);
      WalkGoesOn(w, key, due, key, keyNs, CursorAt(w.slots[x]));
    }
  }

  /** In reach, the walk from the key is handed a copy of the key and every later frame, and ends at the frame due. */
  lemma ReachesDue(w: Window, key: nat, due: nat, cursor: ChainCursor)
    requires key <= due < |w.slots| && NonDecreasing(CaptureTimes(w)) && InReach(w, key, due) && DecodableFrom(ChainSlots(w), key, due)
    requires w.slots[due].state.Ready?
    ensures var r := WalkOver(w.slots, w.slots[due].payload.codec, AfterKey(w.slots[key].captureNs), w.slots[due].captureNs, cursor);
            r.end == EndedAt(due) && SamePackets(w.slots, r.handed, Taken(w, key, due, due + 1))
  {
    hide WalkOver, Stretch, InReach, NonDecreasing, CaptureTimes, FirstOfTime, AfterKey, ChainSlots, KeyMet, SamePackets,
         SamePacket, InBounds, Linked;
    assert InBounds(w.slots, Taken(w, key, due, due + 1));
    var codec := w.slots[due].payload.codec;
    assert SameCodec(ChainSlots(w), key, codec);
    var x := KeysCopy(w, key, due);
    FromKeyOn(w, key, due, cursor, x);
    StretchFront(ChainSlots(w), codec, key, due + 1);
    assert Taken(w, key, due, due + 1) == [key] + Stretch(ChainSlots(w), codec, key + 1, due + 1);
    FirstReplaced(w.slots, x, key, Stretch(ChainSlots(w), codec, key + 1, due + 1));
  }

  lemma KeysCopy(w: Window, key: nat, due: nat) returns (x: nat)
    requires InReach(w, key, due)
    ensures x < |w.slots| && FirstOfTime(w.slots, x) && w.slots[x].captureNs == w.slots[key].captureNs
    ensures SamePacket(w.slots[x], w.slots[key])
  {
    hide SamePacket;
    x :| FirstOfTime(w.slots, x) && w.slots[x].captureNs == w.slots[key].captureNs && SamePacket(w.slots[x], w.slots[key]);
  }

  lemma FirstReplaced(slots: seq<Slot>, x: nat, key: nat, rest: seq<nat>)
    requires InBounds(slots, [x] + rest) && InBounds(slots, [key] + rest) && x < |slots| && key < |slots|
    requires SamePacket(slots[x], slots[key])
    ensures SamePackets(slots, [x] + rest, [key] + rest)
  {
  }

  lemma DueIsFirst(w: Window, key: nat, due: nat, x: nat)
    requires InReach(w, key, due) && w.slots[key].state.Ready? && w.slots[due].state.Ready?
    requires FirstOfTime(w.slots, x) && w.slots[x].captureNs == w.slots[key].captureNs
    ensures key < due ==> w.slots[x].captureNs < w.slots[due].captureNs
    ensures key == due ==> x == due
  {
    if key < due {
      FirstBefore(w.slots, key, due);
    }
  }

  lemma KeyIsNext(w: Window, key: nat, due: nat, x: nat)
    requires NonDecreasing(CaptureTimes(w)) && InReach(w, key, due)
    requires FirstOfTime(w.slots, x) && w.slots[x].captureNs == w.slots[key].captureNs
    ensures NextInRange(w.slots, AfterKey(w.slots[key].captureNs), w.slots[due].captureNs) == Some(x)
  {
    var slots, keyNs, dueNs := w.slots, w.slots[key].captureNs, w.slots[due].captureNs;
    assert keyNs <= dueNs by { assert CaptureTimes(w)[key] <= CaptureTimes(w)[due]; }
    NextMeets(slots, AfterKey(keyNs), dueNs);
    var q := NextInRange(slots, AfterKey(keyNs), dueNs).value;
    assert slots[q].captureNs <= slots[x].captureNs by { assert CaptureTimes(w)[q] <= CaptureTimes(w)[x]; }
  }

  /** Exactly then: the walk from the key of a plan is handed the packets of the due frame's codec from the key on, each
      once, and ends at the frame due, if and only if the ring is in reach. */
  lemma ReachedIffInReach(w: Window, key: nat, due: nat, cursor: ChainCursor)
    requires NonDecreasing(CaptureTimes(w)) && key <= due < |w.slots| && w.slots[due].state.Ready?
    requires DecodableFrom(ChainSlots(w), key, due)
    ensures var r := WalkOver(w.slots, w.slots[due].payload.codec, AfterKey(w.slots[key].captureNs), w.slots[due].captureNs, cursor);
            InReach(w, key, due) <==> r.end == EndedAt(due) && SamePackets(w.slots, r.handed, Taken(w, key, due, due + 1))
  {
    hide WalkOver, InReach, SamePackets, Taken, DecodableFrom, NonDecreasing, CaptureTimes;
    var r := WalkOver(w.slots, w.slots[due].payload.codec, AfterKey(w.slots[key].captureNs), w.slots[due].captureNs, cursor);
    if InReach(w, key, due) {
      ReachesDue(w, key, due, cursor);
    }
    if r.end == EndedAt(due) && SamePackets(w.slots, r.handed, Taken(w, key, due, due + 1)) {
      OnlyInReach(w, key, due, cursor);
    }
  }

  /** Strictly increasing times after 0 are enough. */
  lemma IncreasingIsInReach(w: Window, key: nat, due: nat)
    requires Increasing(CaptureTimes(w)) && key <= due < |w.slots| && w.slots[key].captureNs > 0
    requires w.slots[due].state.Ready? && w.slots[key].state.Ready?
    ensures InReach(w, key, due)
  {
    forall p | 0 <= p < |w.slots| && w.slots[p].state.Ready?
      ensures FirstOfTime(w.slots, p)
    {
      assert forall m :: 0 <= m < p ==> CaptureTimes(w)[m] < CaptureTimes(w)[p];
    }
    assert FirstOfTime(w.slots, key) && SamePacket(w.slots[key], w.slots[key]);
  }

  // --- Out of reach ---

  /** A key captured at time 0 is stepped over, and then nothing is decoded at all: whatever the walk meets first of the
      codec lacks its reference. */
  lemma KeyAtTimeZero(w: Window, key: nat, due: nat)
    requires NonDecreasing(CaptureTimes(w)) && key <= due < |w.slots| && w.slots[due].state.Ready?
    requires DecodableFrom(ChainSlots(w), key, due) && w.slots[key].captureNs == 0
    requires forall q :: key < q <= due ==> !DecodableFrom(ChainSlots(w), q, due)
    ensures var r := WalkOver(w.slots, w.slots[due].payload.codec, AfterKey(w.slots[key].captureNs), w.slots[due].captureNs, NO_CURSOR);
            r.handed == [] && !r.end.EndedAt?
  {
    NothingHanded(w, key, due, 0);
  }

  lemma {:induction false} NothingHanded(w: Window, key: nat, due: nat, afterNs: nat)
    requires NonDecreasing(CaptureTimes(w)) && key <= due < |w.slots| && w.slots[due].state.Ready?
    requires DecodableFrom(ChainSlots(w), key, due) && w.slots[key].captureNs == 0
    requires forall q :: key < q <= due ==> !DecodableFrom(ChainSlots(w), q, due)
    ensures var r := WalkOver(w.slots, w.slots[due].payload.codec, afterNs, w.slots[due].captureNs, NO_CURSOR);
            r.handed == [] && !r.end.EndedAt?
    decreases if afterNs <= w.slots[due].captureNs then w.slots[due].captureNs - afterNs else 0
  {
    var next := NextInRange(w.slots, afterNs, w.slots[due].captureNs);
    if next.Some? {
      NoKeyMet(w, key, due, afterNs, next.value);
      hide DecodableFrom, NonDecreasing, CaptureTimes, NextInRange, ChainSlots;
      if w.slots[next.value].captureNs < w.slots[due].captureNs {
        NothingHanded(w, key, due, w.slots[next.value].captureNs);
      }
    }
  }

  lemma NoKeyMet(w: Window, key: nat, due: nat, afterNs: nat, q: nat)
    requires NonDecreasing(CaptureTimes(w)) && key <= due < |w.slots| && w.slots[due].state.Ready?
    requires DecodableFrom(ChainSlots(w), key, due) && w.slots[key].captureNs == 0
    requires forall q :: key < q <= due ==> !DecodableFrom(ChainSlots(w), q, due)
    requires NextInRange(w.slots, afterNs, w.slots[due].captureNs) == Some(q)
    ensures q < |w.slots| && (w.slots[q].payload.codec == w.slots[due].payload.codec ==> !w.slots[q].payload.key)
  {
    NextMeets(w.slots, afterNs, w.slots[due].captureNs);
    Later(w, key, q);
    hide NextInRange, NonDecreasing, FirstOfTime;
    if w.slots[q].payload.codec == w.slots[due].payload.codec {
      assert !DecodableFrom(ChainSlots(w), q, due);
    }
  }

  function Stored(captureNs: nat, generation: nat, key: bool, seqNo: U32): Slot {
    Slot(captureNs, generation, Ready, 0, 0, Payload(FrameArena.Allocation(0, 64 * seqNo, 0, 64), 64, 8, 8, Hevc, key, 7, seqNo))
  }

  /** Of two frames captured at the same time the walk meets only the first, and is lost at the frame after them. */
  lemma EqualTimes()
    ensures var w := Window(3, 0, [Stored(5, 1, true, 0), Stored(5, 2, false, 1), Stored(6, 3, false, 2)], 6, 0);
            && DecodableFrom(ChainSlots(w), 0, 2)
            && !InReach(w, 0, 2)
            && WalkOver(w.slots, Hevc, AfterKey(5), 6, NO_CURSOR) == Walk([0], Lost)
  {
    var w := Window(3, 0, [Stored(5, 1, true, 0), Stored(5, 2, false, 1), Stored(6, 3, false, 2)], 6, 0);
    var chain, at := ChainSlots(w), Times(w.slots);
    assert CountCodec(chain, Hevc, 3, 3) == 0 && CountCodec(chain, Hevc, 2, 3) == 1 && CountCodec(chain, Hevc, 1, 3) == 2;
    assert at[0] == 5 && at[1] == 5 && at[2] == 6;
    assert NextInRange(w.slots, 4, 6) == Some(0) && NextInRange(w.slots, 5, 6) == Some(2);
    assert SameCodec(chain, 1, Hevc) && !FirstOfTime(w.slots, 1) by {
      assert w.slots[0].state.Ready?;
    }
    hide NextInRange, CountCodec;
    assert WalkOver(w.slots, Hevc, 5, 6, CursorAt(w.slots[0])) == Walk([], Lost);
  }
}
