/** Age-based selection over a ring seen oldest first (src/frame-ring.hpp, namespace ringselect). */
module RingSelect {
  import opened Words
  import opened Storage

  ghost predicate NonDecreasing(at: seq<nat>) {
    forall i, j :: 0 <= i <= j < |at| ==> at[i] <= at[j]
  }

  ghost predicate Increasing(at: seq<nat>) {
    forall i, j :: 0 <= i < j < |at| ==> at[i] < at[j]
  }

  /** The reference answer, by a scan from the newest: the largest of the first n positions whose
      capture time is at or before targetNs, or |at| when there is none. */
  function DueAmong(at: seq<nat>, targetNs: nat, n: nat): (p: nat)
    requires n <= |at|
    ensures p == |at| || (p < n && at[p] <= targetNs)
    ensures forall q :: 0 <= q < n && (p == |at| || p < q) ==> at[q] > targetNs
  {
    if n == 0 then |at| else if at[n - 1] <= targetNs then n - 1 else DueAmong(at, targetNs, n - 1)
  }

  function DuePosition(at: seq<nat>, targetNs: nat): (p: nat)
    ensures p == |at| || (p < |at| && at[p] <= targetNs)
    ensures forall q :: 0 <= q < |at| && (p == |at| || p < q) ==> at[q] > targetNs
  {
    DueAmong(at, targetNs, |at|)
  }

  /** The binary search agrees with the scan on every ring whose capture times never decrease. */
  method LastAtOrBefore(at: seq<nat>, targetNs: nat) returns (p: nat)
    requires NonDecreasing(at)
    ensures p == DuePosition(at, targetNs)
    ensures p < |at| <==> (exists q :: 0 <= q < |at| && at[q] <= targetNs)
    ensures p < |at| ==> forall q :: 0 <= q < |at| ==> (at[q] <= targetNs <==> q <= p)
    ensures p <= |at|
  {
    if |at| == 0 || at[0] > targetNs {
      return |at|;
    }
    var lo, hi := 0, |at|;
    while hi - lo > 1
      invariant 0 <= lo < hi <= |at|
      invariant at[lo] <= targetNs
      invariant forall q :: hi <= q < |at| ==> at[q] > targetNs
    {
      var mid := lo + (hi - lo) / 2;
      if at[mid] <= targetNs {
        lo := mid;
      } else {
        hi := mid;
      }
    }
    return lo;
  }

  /** The newest of the positions p, p-1, ..., p-maxBack that is ready, or count. */
  function NewestReady(ready: seq<bool>, p: nat, maxBack: nat): (r: nat)
    requires p < |ready|
    ensures r == |ready| || (r <= p && p - r <= maxBack && ready[r])
    ensures forall q :: 0 <= q <= p && p - q <= maxBack && (r == |ready| || r < q) ==> !ready[q]
    decreases p
  {
    if ready[p] then p
    else if maxBack == 0 || p == 0 then |ready|
    else NewestReady(ready, p - 1, maxBack - 1)
  }

  function DisplayPosition(at: seq<nat>, ready: seq<bool>, targetNs: nat, maxBack: nat): (p: nat)
    requires |at| == |ready|
  {
    var due := DuePosition(at, targetNs);
    if due == |at| then |at| else NewestReady(ready, due, maxBack)
  }

  /** Position q lies more than maxBack behind the newest capture at or before the target, and all the
      slots within maxBack of that one are unready. */
  ghost predicate HiddenByGap(at: seq<nat>, ready: seq<bool>, targetNs: nat, maxBack: nat, q: int)
    requires |at| == |ready|
  {
    var due := DuePosition(at, targetNs);
    due < |at| && due - q > maxBack && forall b :: 0 <= b <= due && due - maxBack <= b ==> !ready[b]
  }

  /** Never a frame from the future, always the newest one that can be shown, and none only when the
      maxBack + 1 newest slots at or before the target are all unready. */
  lemma DisplayPositionIsNewest(at: seq<nat>, ready: seq<bool>, targetNs: nat, maxBack: nat)
    requires |at| == |ready| && NonDecreasing(at)
    ensures var p := DisplayPosition(at, ready, targetNs, maxBack);
            && p <= |at|
            && (p < |at| ==> ready[p] && at[p] <= targetNs)
            && (forall q :: 0 <= q < |at| && ready[q] && at[q] <= targetNs ==>
                  (p < |at| && q <= p)
                  || HiddenByGap(at, ready, targetNs, maxBack, q))
  {
    var due := DuePosition(at, targetNs);
    var p := DisplayPosition(at, ready, targetNs, maxBack);
    if due < |at| {
      assert forall q :: 0 <= q < |at| && at[q] <= targetNs ==> q <= due;
      if p == |at| {
        assert forall b :: 0 <= b < |at| && due - maxBack <= b <= due ==> !ready[b];
      }
    }
  }

  method SelectForDisplay(at: seq<nat>, ready: seq<bool>, targetNs: nat, maxBack: nat) returns (p: nat)
    requires |at| == |ready| && NonDecreasing(at)
    ensures p == DisplayPosition(at, ready, targetNs, maxBack)
  {
    var due := LastAtOrBefore(at, targetNs);
    if due == |at| {
      return |at|;
    }
    var back := 0;
    while back <= maxBack && back <= due
      invariant 0 <= back <= due + 1 && back <= maxBack + 1
      invariant back <= maxBack && back <= due ==>
                  NewestReady(ready, due, maxBack) == NewestReady(ready, due - back, maxBack - back)
      invariant !(back <= maxBack && back <= due) ==> NewestReady(ready, due, maxBack) == |ready|
    {
      if ready[due - back] {
        return due - back;
      }
      back := back + 1;
    }
    return |at|;
  }

  /** The packet a decoder decoded last; not valid: only a key can come next. */
  datatype ChainCursor = ChainCursor(valid: bool, chain: U32, seqNo: U32)
  const NO_CURSOR := ChainCursor(false, 0, 0)

  function NextSeq(s: U32): U32 { Wrap32(s + 1) }
  function PrevSeq(s: U32): U32 { Wrap32(s - 1) }

  predicate Decodable(key: bool, chain: U32, seqNo: U32, cursor: ChainCursor) {
    key || (cursor.valid && chain == cursor.chain && seqNo == NextSeq(cursor.seqNo))
  }

  datatype ChainSlot = ChainSlot(ready: bool, key: bool, chain: U32, seqNo: U32, codec: CodecId)

  datatype DecodeStart = DecodeStart(found: bool, keyPos: nat, catchUp: nat, nextKeyPos: Option<nat>)

  predicate SameCodec(slots: seq<ChainSlot>, p: nat, codec: CodecId)
    requires p < |slots|
  {
    slots[p].ready && slots[p].codec == codec
  }

  /** How many Ready slots of one codec lie at positions lo, lo+1, ..., hi-1. */
  function CountCodec(slots: seq<ChainSlot>, codec: CodecId, lo: nat, hi: nat): (n: nat)
    requires lo <= hi <= |slots|
    ensures n <= hi - lo
    decreases hi - lo
  {
    if lo == hi then 0
    else (if SameCodec(slots, lo, codec) then 1 else 0) + CountCodec(slots, codec, lo + 1, hi)
  }

  /** The Ready slots of due's codec from position k to due are one unbroken stretch of due's chain:
      counted back from due, each has the sequence number its distance calls for (modulo 2^32). */
  ghost predicate Linked(slots: seq<ChainSlot>, k: nat, due: nat)
    requires k <= due < |slots|
  {
    forall p :: k <= p <= due && SameCodec(slots, p, slots[due].codec) ==>
      && slots[p].chain == slots[due].chain
      && slots[p].seqNo == Wrap32(slots[due].seqNo - CountCodec(slots, slots[due].codec, p + 1, due + 1))
  }

  /** Decoding from the key at position k reaches due with no reference missing. */
  ghost predicate DecodableFrom(slots: seq<ChainSlot>, k: nat, due: nat)
    requires k <= due < |slots|
  {
    SameCodec(slots, k, slots[due].codec) && slots[k].key && Linked(slots, k, due)
  }

  ghost predicate IsNextKey(slots: seq<ChainSlot>, due: nat, nextKey: Option<nat>)
    requires due < |slots|
  {
    match nextKey
    case None => forall p :: due < p < |slots| ==> !(slots[p].ready && slots[p].key)
    case Some(n) => due < n < |slots| && slots[n].ready && slots[n].key
                    && forall p :: due < p < n ==> !(slots[p].ready && slots[p].key)
  }

  lemma WrapStep(a: int, b: int, c: nat)
    requires b == Wrap32(a - c)
    ensures PrevSeq(b) == Wrap32(a - (c + 1))
    ensures NextSeq(PrevSeq(b)) == b
  {
  }

  /** What the backward walk knows once it has looked at positions lo..due without meeting a key. */
  ghost predicate Walked(slots: seq<ChainSlot>, lo: nat, due: nat, catchUp: nat, expected: U32)
    requires lo <= due < |slots|
  {
    var codec := slots[due].codec;
    && CountCodec(slots, codec, lo, due + 1) == catchUp + 1
    && expected == Wrap32(slots[due].seqNo - catchUp)
    && Linked(slots, lo, due)
    && (forall q :: lo <= q <= due && SameCodec(slots, q, codec) ==> !slots[q].key)
  }

  /** A slot that is unready or of another codec changes nothing. */
  lemma WalkPast(slots: seq<ChainSlot>, lo: nat, due: nat, catchUp: nat, expected: U32)
    requires 0 < lo <= due < |slots| && Walked(slots, lo, due, catchUp, expected)
    requires !SameCodec(slots, lo - 1, slots[due].codec)
    ensures Walked(slots, lo - 1, due, catchUp, expected)
  {
  }

  /** The predecessor at its distance extends the stretch: by one more frame, or to the key it starts at. */
  lemma WalkBack(slots: seq<ChainSlot>, lo: nat, due: nat, catchUp: nat, expected: U32)
    requires 0 < lo <= due < |slots| && Walked(slots, lo, due, catchUp, expected)
    requires SameCodec(slots, lo - 1, slots[due].codec)
    requires slots[lo - 1].chain == slots[due].chain && slots[lo - 1].seqNo == PrevSeq(expected)
    ensures CountCodec(slots, slots[due].codec, lo - 1, due + 1) == catchUp + 2
    ensures !slots[lo - 1].key ==> Walked(slots, lo - 1, due, catchUp + 1, slots[lo - 1].seqNo)
    ensures slots[lo - 1].key ==> DecodableFrom(slots, lo - 1, due)
                                  && forall q: nat :: lo <= q <= due ==> !DecodableFrom(slots, q, due)
  {
    WrapStep(slots[due].seqNo, expected, catchUp);
    assert Linked(slots, lo - 1, due);
  }

  /** A Ready slot of due's codec that is not due's predecessor at its distance cuts off every key at
      or before it. */
  lemma WalkEnds(slots: seq<ChainSlot>, lo: nat, due: nat, catchUp: nat, expected: U32)
    requires 0 < lo <= due < |slots| && Walked(slots, lo, due, catchUp, expected)
    requires SameCodec(slots, lo - 1, slots[due].codec)
    requires slots[lo - 1].chain != slots[due].chain || slots[lo - 1].seqNo != PrevSeq(expected)
    ensures forall k: nat :: k <= due ==> !DecodableFrom(slots, k, due)
  {
    WrapStep(slots[due].seqNo, expected, catchUp);
    forall k: nat | k <= due
      ensures !DecodableFrom(slots, k, due)
    {
      if k < lo && DecodableFrom(slots, k, due) {
        assert false;
      }
    }
  }

  /** The backward walk finds a start exactly when some key makes the due frame decodable; it then is
      the nearest such key, and catchUp counts the frames to decode unshown before the due one. */
  method PlanDecodeStart(slots: seq<ChainSlot>, due: nat) returns (plan: DecodeStart)
    ensures due >= |slots| || !slots[due].ready ==> plan == DecodeStart(false, 0, 0, None)
    ensures due < |slots| && slots[due].ready ==>
              && (plan.found <==> exists k: nat :: k <= due && DecodableFrom(slots, k, due))
              && (plan.found ==> StartsAt(slots, plan, due))
              && IsNextKey(slots, due, plan.nextKeyPos)
  {
    plan := DecodeStart(false, 0, 0, None);
    if due >= |slots| {
      return;
    }
    var target := slots[due];
    if !target.ready {
      return;
    }
    var nextKeyPos := None;
    var p := due + 1;
    while p < |slots|
      invariant due < p <= |slots|
      invariant nextKeyPos == None
      invariant forall q :: due < q < p ==> !(slots[q].ready && slots[q].key)
    {
      if slots[p].ready && slots[p].key {
        nextKeyPos := Some(p);
        break;
      }
      p := p + 1;
    }
    plan := plan.(nextKeyPos := nextKeyPos);
    assert IsNextKey(slots, due, plan.nextKeyPos);
    if target.key {
      plan := plan.(found := true, keyPos := due);
      assert DecodableFrom(slots, due, due);
      return;
    }
    var expected := target.seqNo;
    var back := 1;
    while back <= due
      invariant 1 <= back <= due + 1
      invariant !plan.found && plan.nextKeyPos == nextKeyPos
      invariant Walked(slots, due + 1 - back, due, plan.catchUp, expected)
    {
      var slot := slots[due - back];
      if slot.ready && slot.codec == target.codec {
        if slot.chain != target.chain || slot.seqNo != PrevSeq(expected) {
          WalkEnds(slots, due + 1 - back, due, plan.catchUp, expected);
          return;
        }
        WalkBack(slots, due + 1 - back, due, plan.catchUp, expected);
        expected := slot.seqNo;
        plan := plan.(catchUp := plan.catchUp + 1);
        if slot.key {
          plan := plan.(found := true, keyPos := due - back);
          return;
        }
      } else {
        WalkPast(slots, due + 1 - back, due, plan.catchUp, expected);
      }
      back := back + 1;
    }
    plan := plan.(catchUp := 0);
  }

  /** The plan names the nearest key the due frame can be decoded from, and how many frames lie between. */
  ghost predicate StartsAt(slots: seq<ChainSlot>, plan: DecodeStart, due: nat)
    requires due < |slots|
  {
    && plan.keyPos <= due
    && DecodableFrom(slots, plan.keyPos, due)
    && plan.catchUp + 1 == CountCodec(slots, slots[due].codec, plan.keyPos, due + 1)
    && forall q: nat :: plan.keyPos < q <= due ==> !DecodableFrom(slots, q, due)
  }

  datatype StartChoice = CatchUp | WaitForKey

  function ChooseDecodeStart(plan: DecodeStart, due: nat, decodeNs: nat, intervalNs: nat): StartChoice {
    if !plan.found then WaitForKey
    else if plan.catchUp == 0 || plan.nextKeyPos.None? || plan.nextKeyPos.value <= due then CatchUp
    else if plan.catchUp * decodeNs <= (plan.nextKeyPos.value - due) * intervalNs then CatchUp
    else WaitForKey
  }

  /** How long until a fresh frame is shown with this choice: the frames before it decoded first, or the next key come to
      be due. None: not as far as can be seen. */
  function FreshAfter(choice: StartChoice, plan: DecodeStart, due: nat, decodeNs: nat, intervalNs: nat): Option<nat>
    requires plan.nextKeyPos.Some? ==> plan.nextKeyPos.value > due
  {
    match choice
    case CatchUp => if plan.found then Some(plan.catchUp * decodeNs) else None
    case WaitForKey => if plan.nextKeyPos.Some? then Some((plan.nextKeyPos.value - due) * intervalNs) else None
  }

  predicate NoLater(a: Option<nat>, b: Option<nat>) { b.None? || (a.Some? && a.value <= b.value) }

  /** Whatever the plan, the choice made never shows a fresh frame later than the other would. */
  lemma ChoiceIsSoonest(plan: DecodeStart, due: nat, decodeNs: nat, intervalNs: nat)
    requires plan.nextKeyPos.Some? ==> plan.nextKeyPos.value > due
    ensures var choice := ChooseDecodeStart(plan, due, decodeNs, intervalNs);
            && (forall other :: NoLater(FreshAfter(choice, plan, due, decodeNs, intervalNs),
                                        FreshAfter(other, plan, due, decodeNs, intervalNs)))
            && (choice == CatchUp
                <==> plan.found && (plan.nextKeyPos.None?
                                    || plan.catchUp * decodeNs <= (plan.nextKeyPos.value - due) * intervalNs))
  {
    if plan.catchUp == 0 {
      assert plan.catchUp * decodeNs == 0;
    }
  }
}
