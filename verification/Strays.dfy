/** What can become of a ring left behind: frames of it are still in flight when its encoder goes on to another ring, on a
    new chain. Exactly when one of them can end up stored without its reference. */
module Strays {
  import opened Words
  import opened Storage
  import opened RingSelect
  import opened FrameWindow
  import opened Encoding
  import opened Recording
  import RingRuns

  // --- The slot of a frame in flight waits for it ---

  /** Capture i of count is in the window, and its slot is encoding. */
  predicate Waits(w: Window, count: nat, i: nat) {
    var p := i - (count - |w.slots|);
    0 <= p < |w.slots| && w.slots[p].state == SlotState.Encoding
  }

  ghost predicate FlightWaits(w: Window, count: nat, q: InFlight) {
    forall k :: 0 <= k < |q| && q[k].value.job.Some? ==> Waits(w, count, q[k].value.job.value)
  }

  lemma WaitsIsNamed(r: RingRuns.Ring, nextGeneration: nat, i: nat)
    requires RingRuns.RingOk(r, nextGeneration) && i < |r.log|
    ensures Shaped(r.window)
    ensures Waits(r.window, |r.log|, i) <==> CanPublish(r.window, r.log[i].index, r.log[i].generation)
  {
    RingRuns.JobReaches(r, nextGeneration, i);
  }

  /** A step over the ring that leaves a slot encoding: begin an encode, pin, unpin. */
  lemma NothingStoredWaits(s: State, e: RingRuns.Event, i: nat)
    requires Known(s) && StoresNothing(e) && i < |s.fates| && Waits(s.ring.window, |s.fates|, i)
    ensures Waits(Operate(s, e).ring.window, |s.fates|, i)
  {
  }

  /** Deciding one capture leaves the slots of the others. */
  lemma SettleWaitsOthers(s: State, i: nat, wanted: Fate, memory: Option<Payload>, other: nat)
    requires Known(s) && i < |s.fates| && RingRuns.RingOk(s.ring, s.nextGeneration) && other != i
    requires Waits(s.ring.window, |s.fates|, other)
    ensures var s' := Settle(s, i, wanted, memory); |s'.fates| == |s.fates| && Waits(s'.ring.window, |s.fates|, other)
  {
    RingRuns.JobReaches(s.ring, s.nextGeneration, i);
    hide RingRuns.RingOk;
    var w, job := s.ring.window, s.ring.log[i];
    assert Named(w, job.index, job.generation) != Some(other - (|s.fates| - |w.slots|));
  }

  lemma CaptureWaits(w: Window, captureNs: nat, tag: U32, generation: nat, count: nat, i: nat)
    requires Shaped(w) && Waits(w, count, i)
    ensures Waits(Reserve(w, captureNs, tag, generation), if CanReserve(w) then count + 1 else count, i)
  {
    if CanReserve(w) {
      ReserveSlots(w, captureNs, tag, generation);
    }
  }

  /** The capture worker 0 begins to encode waits from then on. */
  lemma BegunWaits(s: State, i: nat)
    requires Known(s) && RingRuns.RingOk(s.ring, s.nextGeneration) && i < |s.fates|
    requires CanBegin(s.ring.window, s.ring.log[i].index, s.ring.log[i].generation)
    ensures Waits(Begin(s, i).ring.window, |s.fates|, i)
  {
    RingRuns.JobReaches(s.ring, s.nextGeneration, i);
  }

  lemma PopWaits(w: Window, count: nat, q: InFlight)
    requires FlightWaits(w, count, q) && q != []
    ensures FlightWaits(w, count, q[1..])
  {
  }

  // --- Frames in flight, chain after chain ---

  /** A frame follows the one sent before it on its chain, or is the first of its chain and forced to be a key. */
  predicate FollowsOn(before: Entry<Sent<Job>>, e: Entry<Sent<Job>>) {
    if e.value.chain == before.value.chain then
      e.seqNo == before.seqNo + 1 && (e.value.job.Some? <==> before.value.job.Some?)
    else e.seqNo == 0 && e.value.forced
  }

  ghost predicate InTurn(q: InFlight) {
    && (forall k :: 0 < k < |q| ==> FollowsOn(q[k - 1], q[k]))
    && (forall a, b, c :: 0 <= a < b < c < |q| && q[a].value.chain == q[c].value.chain ==> q[b].value.chain == q[a].value.chain)
  }

  lemma {:induction false} LastNumber(q: InFlight, chain: U32, nextSeq: nat)
    requires q != [] && Consecutive(q, chain, nextSeq) && q[|q| - 1].value.chain == chain
    ensures q[|q| - 1].seqNo + 1 == nextSeq
    decreases |q|
  {
    if |q| > 1 {
      LastNumber(q[1..], chain, nextSeq);
    }
  }

  lemma SendInTurn(c: Context<Job>, result: SendResult, job: Job, sendNs: nat, cycle: nat)
    requires Tail(c, cycle) && InTurn(c.inFlight) && (job.Some? <==> c.epoch == cycle)
    ensures InTurn(AfterSend(c, result, job, sendNs).inFlight)
  {
    var q := c.inFlight;
    if result.SentOk? && q != [] {
      var e := Entry(c.chain.nextSeq, sendNs, Sent(job, c.chain.chain, c.chain.wantKey, true));
      if q[|q| - 1].value.chain == c.chain.chain {
        LastNumber(q, c.chain.chain, c.chain.nextSeq);
      } else {
        NoneOfChain(q, c.chain.chain, c.chain.nextSeq);
      }
      hide Consecutive, NextDecided;
      assert FollowsOn(q[|q| - 1], e);
      var q' := q + [e];
      forall k | 0 < k < |q'|
        ensures FollowsOn(q'[k - 1], q'[k])
      {
        assert k < |q| ==> q'[k] == q[k] && q'[k - 1] == q[k - 1];
      }
    }
  }

  lemma PopInTurn(q: InFlight)
    requires InTurn(q) && q != []
    ensures InTurn(q[1..])
  {
    var q' := q[1..];
    forall k | 0 < k < |q'|
      ensures FollowsOn(q'[k - 1], q'[k])
    {
      assert FollowsOn(q[k], q[k + 1]);
    }
  }

  /** What holds of the frames in flight in every reachable state, besides Inv. */
  ghost predicate Flights(s: State) {
    InTurn(s.ctx.inFlight) && FlightWaits(s.ring.window, |s.fates|, s.ctx.inFlight)
  }

  lemma SameFlightWaits(s: State, s': State)
    requires Flights(s) && s'.ctx.inFlight == s.ctx.inFlight
    requires forall i :: Waits(s.ring.window, |s.fates|, i) ==> Waits(s'.ring.window, |s'.fates|, i)
    ensures Flights(s')
  {
    hide InTurn, Waits;
  }

  lemma RingStepFlights(s: State, e: RingRuns.Event)
    requires Inv(s) && Flights(s) && StoresNothing(e)
    ensures Flights(Operate(s, e))
  {
    RingIsShaped(s);
    hide Inv, InTurn, Waits, RingRuns.StepRing;
    forall k | 0 <= k < |s.ctx.inFlight| && s.ctx.inFlight[k].value.job.Some?
      ensures Waits(Operate(s, e).ring.window, |s.fates|, s.ctx.inFlight[k].value.job.value)
    {
      JobInRange(s, k);
      NothingStoredWaits(s, e, s.ctx.inFlight[k].value.job.value);
    }
  }

  lemma JobInRange(s: State, k: nat)
    requires Inv(s) && k < |s.ctx.inFlight| && s.ctx.inFlight[k].value.job.Some?
    ensures Known(s) && s.ctx.inFlight[k].value.job.value < |s.fates|
  {
    RingIsShaped(s);
    hide RingRuns.RingOk, Mirror, Waiting, Ordered, Tail, Mended, ChainsClosed;
  }

  lemma CaptureShape(s: State, captureNs: nat, tag: U32)
    requires Known(s)
    ensures Enabled(s, Capture(captureNs, tag))
    ensures var s' := Step(s, Capture(captureNs, tag));
            && s'.ctx == s.ctx && s'.ring.window == Reserve(s.ring.window, captureNs, tag, s.nextGeneration)
            && |s'.fates| == if CanReserve(s.ring.window) then |s.fates| + 1 else |s.fates|
  {
  }

  lemma CaptureFlights(s: State, captureNs: nat, tag: U32)
    requires Inv(s) && Flights(s)
    ensures Enabled(s, Capture(captureNs, tag)) && Flights(Step(s, Capture(captureNs, tag)))
  {
    hide Inv, Flights, Waits, Reserve, CanReserve, RingRuns.RingOk, Enabled, Step;
    RingOkIn(s);
    CaptureShape(s, captureNs, tag);
    var s' := Step(s, Capture(captureNs, tag));
    forall i: nat | Waits(s.ring.window, |s.fates|, i)
      ensures Waits(s'.ring.window, |s'.fates|, i)
    {
      CaptureWaits(s.ring.window, captureNs, tag, s.nextGeneration, |s.fates|, i);
    }
    SameFlightWaits(s, s');
  }

  /** Deciding a capture that is not in flight. */
  lemma SettleFlights(s: State, i: nat, wanted: Fate, memory: Option<Payload>)
    requires Known(s) && RingRuns.RingOk(s.ring, s.nextGeneration) && Flights(s) && i < |s.fates|
    requires forall k :: 0 <= k < |s.ctx.inFlight| ==> s.ctx.inFlight[k].value.job != Some(i)
    ensures Flights(Settle(s, i, wanted, memory))
  {
    var s' := Settle(s, i, wanted, memory);
    assert s'.ctx == s.ctx && |s'.fates| == |s.fates|;
    hide InTurn, Waits, Settle, RingRuns.RingOk;
    forall k | 0 <= k < |s.ctx.inFlight| && s.ctx.inFlight[k].value.job.Some?
      ensures Waits(s'.ring.window, |s.fates|, s.ctx.inFlight[k].value.job.value)
    {
      SettleWaitsOthers(s, i, wanted, memory, s.ctx.inFlight[k].value.job.value);
    }
  }

  /** The context prepared and used: the frames in flight stay, and the one sent joins them. */
  lemma SentFlights(s: State, made: Option<Encoder>, epoch: nat, newChain: U32, result: SendResult, job: Job, sendNs: nat)
    requires Inv(s) && Flights(s) && CanEncode(s.ctx, made, newChain, result) && (job.Some? <==> epoch == s.cycle)
    requires job.Some? ==> Waits(s.ring.window, |s.fates|, job.value)
    ensures Flights(s.(ctx := AfterSend(Prepared(s.ctx, made, epoch, newChain), result, job, sendNs)))
  {
    var c := Prepared(s.ctx, made, epoch, newChain);
    PreparedKeeps(s.ctx, made, epoch, newChain, s.cycle, s.fates);
    assert c.inFlight == s.ctx.inFlight;
    SendInTurn(c, result, job, sendNs, s.cycle);
    hide InTurn, Waits, Tail, Mended, RingRuns.RingOk, Mirror, Waiting, Flying, Ordered, ChainsClosed, Prepared;
  }

  lemma EncodeFlights(s: State, made: Option<Encoder>, newChain: U32, result: SendResult, sendNs: nat, memory: Option<Payload>)
    requires Inv(s) && Flights(s) && Enabled(s, Encode(made, newChain, result, sendNs, memory))
    ensures Flights(EncodeOne(s, made, newChain, result, sendNs, memory))
  {
    hide Inv, Flights, Settle, AfterSend, Prepared, RingRuns.StepRing, RingRuns.RingOk, CanBegin, CanEncode, Begin, OnlyAtHand,
         Waits, Room, Recording.Taken, EncodeOne;
    RingOkIn(s);
    TakenKeeps(s);
    TakenFlights(s);
    TakenWaits(s);
    TakenThen(s, made, newChain, result, sendNs, memory);
    if CanBegin(s.ring.window, s.ring.log[s.queue[0]].index, s.ring.log[s.queue[0]].generation) {
      SentOrSettledFlights(Recording.Taken(s), s.queue[0], made, newChain, result, sendNs, memory);
    } else {
      SameFlights(Recording.Taken(s), EncodeOne(s, made, newChain, result, sendNs, memory));
    }
  }

  /** Taking a capture first, then what becomes of it. */
  lemma TakenThen(s: State, made: Option<Encoder>, newChain: U32, result: SendResult, sendNs: nat, memory: Option<Payload>)
    requires Known(s) && s.queue != [] && s.queue[0] < |s.fates|
    ensures var i, t := s.queue[0], Recording.Taken(s);
            var job := s.ring.log[i];
            var sent := t.(ctx := AfterSend(Prepared(s.ctx, made, s.cycle, newChain), result, Some(i), sendNs));
            && t.ctx == s.ctx && t.cycle == s.cycle && t.fates == s.fates && t.queue == s.queue[1..] && t.taken == i + 1
            && Known(sent) && |t.fates| == |s.fates| && i < |t.fates|
            && EncodeOne(s, made, newChain, result, sendNs, memory)
               == if !CanBegin(s.ring.window, job.index, job.generation) then t.(fates := s.fates[i := Gone])
                  else match result
                       case SentOk => sent
                       case Busy => Settle(sent, i, Gone, None)
                       case SendFailed => Settle(sent, i, KEPT_RAW, memory)
  {
    hide Settle, AfterSend, Prepared, CanBegin;
  }

  lemma TakenWaits(s: State)
    requires Known(s) && RingRuns.RingOk(s.ring, s.nextGeneration) && s.queue != [] && s.queue[0] < |s.fates|
    ensures CanBegin(s.ring.window, s.ring.log[s.queue[0]].index, s.ring.log[s.queue[0]].generation) ==>
              Waits(Recording.Taken(s).ring.window, |s.fates|, s.queue[0])
  {
    hide RingRuns.RingOk, RingRuns.StepRing, Waits, CanBegin;
    if CanBegin(s.ring.window, s.ring.log[s.queue[0]].index, s.ring.log[s.queue[0]].generation) {
      BegunWaits(s, s.queue[0]);
    }
  }

  lemma TakenFlights(s: State)
    requires Inv(s) && Flights(s) && Known(s) && s.queue != [] && s.queue[0] < |s.fates|
    ensures Flights(Recording.Taken(s))
  {
    var job := s.ring.log[s.queue[0]];
    RingStepFlights(s, RingRuns.OnBeginEncode(0, job.index, job.generation));
    hide Inv, InTurn, Waits, RingRuns.StepRing;
  }

  lemma SentOrSettledFlights(s: State, i: nat, made: Option<Encoder>, newChain: U32, result: SendResult, sendNs: nat,
                             memory: Option<Payload>)
    requires Inv(s) && Flights(s) && OnlyAtHand(s.fates, s.queue, s.ctx.inFlight, s.taken, i)
    requires CanEncode(s.ctx, made, newChain, result) && Waits(s.ring.window, |s.fates|, i)
    ensures var sent := s.(ctx := AfterSend(Prepared(s.ctx, made, s.cycle, newChain), result, Some(i), sendNs));
            && Flights(sent)
            && (result.Busy? ==> Known(sent) && Flights(Settle(sent, i, Gone, None)))
            && (result.SendFailed? ==> Known(sent) && Flights(Settle(sent, i, KEPT_RAW, memory)))
  {
    SentFlights(s, made, s.cycle, newChain, result, Some(i), sendNs);
    SameFlight(s.ctx, made, s.cycle, newChain, result, Some(i), sendNs);
    RingIsShaped(s);
    var sent := s.(ctx := AfterSend(Prepared(s.ctx, made, s.cycle, newChain), result, Some(i), sendNs));
    hide Flights, Settle, AfterSend, Prepared, Mirror, Waiting, Flying, Ordered, Tail, Mended, ChainsClosed, RingRuns.RingOk;
    if result.Busy? {
      SettleFlights(sent, i, Gone, None);
    } else if result.SendFailed? {
      SettleFlights(sent, i, KEPT_RAW, memory);
    }
  }

  /** The oldest frame leaves, and its capture is decided. */
  lemma PopFlights(s: State, c: Context<Job>, wanted: Fate, memory: Option<Payload>)
    requires Inv(s) && Known(s) && Flights(s) && s.ctx.inFlight != [] && c.inFlight == s.ctx.inFlight[1..]
    ensures Flights(s.(ctx := c))
    ensures var job := s.ctx.inFlight[0].value.job;
            job.Some? ==> job.value < |s.fates| && Flights(Settle(s.(ctx := c), job.value, wanted, memory))
  {
    var job := s.ctx.inFlight[0].value.job;
    PopInTurn(s.ctx.inFlight);
    PopWaits(s.ring.window, |s.fates|, s.ctx.inFlight);
    PopFlies(s.fates, s.ctx.inFlight, s.taken);
    if job.Some? {
      JobInRange(s, 0);
      hide Mirror, Waiting, Flying, Ordered, Tail, Mended, ChainsClosed, InTurn, FlightWaits, RingRuns.RingOk;
      SettleFlights(s.(ctx := c), job.value, wanted, memory);
    }
  }

  lemma ReturnFlights(s: State)
    requires Flights(s)
    ensures Flights(s.(ctx := Returned(s.ctx)))
  {
    var q, q' := s.ctx.inFlight, Returned(s.ctx).inFlight;
    assert forall k :: 0 <= k < |q| ==> q'[k].seqNo == q[k].seqNo && q'[k].value.(atHand := false) == q[k].value.(atHand := false);
    forall k | 0 < k < |q'|
      ensures FollowsOn(q'[k - 1], q'[k])
    {
      assert FollowsOn(q[k - 1], q[k]);
    }
    hide Waits;
  }

  lemma StepFlights(s: State, e: Event)
    requires Inv(s) && Flights(s) && Enabled(s, e)
    ensures Flights(Step(s, e))
  {
    hide Inv, Flights, Settle, RingRuns.StepRing, AfterPacket, Returned;
    match e
    case Capture(captureNs, tag) => CaptureFlights(s, captureNs, tag);
    case ReaderPins(p) => RingStepFlights(s, RingRuns.OnPin(0, p));
    case ReaderUnpins(index, generation) => RingStepFlights(s, RingRuns.OnUnpin(0, index, generation));
    case BeginElsewhere(i) => RingStepFlights(s, RingRuns.OnBeginEncode(0, s.ring.log[i].index, s.ring.log[i].generation));
    case SettleElsewhere(i, wanted, memory) =>
      RingOkIn(s);
      SettleFlights(s, i, wanted, memory);
    case Encode(made, newChain, result, sendNs, memory) => EncodeFlights(s, made, newChain, result, sendNs, memory);
    case EncodeOther(made, epoch, newChain, result, sendNs) => SentFlights(s, made, epoch, newChain, result, None, sendNs);
    case ReturnFrame => ReturnFlights(s);
    case Receive(p, memory) => ReceiveFlights(s, p, memory);
    case DropOldest => DropFlights(s);
    case _ => SameFlights(s, Step(s, e));
  }

  lemma RingOkIn(s: State)
    requires Inv(s)
    ensures RingRuns.RingOk(s.ring, s.nextGeneration) && Shaped(s.ring.window) && Known(s)
  {
    RingIsShaped(s);
  }

  lemma SameFlights(s: State, s': State)
    requires Flights(s) && s'.ctx.inFlight == s.ctx.inFlight && s'.ring == s.ring && |s'.fates| == |s.fates|
    ensures Flights(s')
  {
  }

  lemma ReceiveFlights(s: State, p: Packet, memory: Option<Payload>)
    requires Inv(s) && Flights(s) && Enabled(s, Receive(p, memory))
    ensures Flights(Store(s, p, memory))
  {
    var job := s.ctx.inFlight[0].value.job;
    if job.None? {
      PopFlights(s, AfterPacket(s.ctx, p, memory.Some?), Gone, memory);
    } else {
      var c := AfterPacket(s.ctx, p, Room(s, job.value, memory));
      AfterPacketShape(s.ctx, p, Room(s, job.value, memory));
      hide AfterPacket, Inv;
      PopFlights(s, c, Wanted(s.ctx, p), memory);
      SettleThen(s, c, job.value, Wanted(s.ctx, p), memory);
      SameFlights(Settle(s.(ctx := c), job.value, Wanted(s.ctx, p), memory), Store(s, p, memory));
    }
  }

  /** Deciding a capture and what happens to the context do not meet. */
  lemma SettleThen(s: State, c: Context<Job>, i: nat, wanted: Fate, memory: Option<Payload>)
    requires Known(s) && i < |s.fates|
    ensures Settle(s.(ctx := c), i, wanted, memory) == Settle(s, i, wanted, memory).(ctx := c)
  {
  }

  lemma DropFlights(s: State)
    requires Inv(s) && Flights(s) && Enabled(s, DropOldest)
    ensures Flights(DropOne(s))
  {
    if s.ctx.inFlight == [] {
      SameFlights(s, DropOne(s));
    } else {
      PopFlights(s, s.ctx.(encoder := None, inFlight := s.ctx.inFlight[1..]), Gone, None);
    }
    hide Inv, Flights, Settle;
  }

  lemma {:induction false} RunFlights(s: State, events: seq<Event>)
    requires Inv(s) && Flights(s) && Run(s, events).Some?
    ensures Inv(Run(s, events).value) && Flights(Run(s, events).value)
    decreases |events|
  {
    hide Inv, Flights, Enabled, Step;
    if events != [] {
      StepKeeps(s, events[0]);
      StepFlights(s, events[0]);
      RunFlights(Step(s, events[0]), events[1..]);
    }
  }

  /** A capture in flight always still has its slot, encoding: nothing overwrites or drops it before its packet comes. */
  lemma FlightKeepsItsSlot(slotCount: nat, cycle: nat, events: seq<Event>, k: nat)
    requires Run(Start(slotCount, cycle), events).Some?
    requires var s := Run(Start(slotCount, cycle), events).value;
             k < |s.ctx.inFlight| && s.ctx.inFlight[k].value.job.Some?
    ensures var s := Run(Start(slotCount, cycle), events).value;
            var i := s.ctx.inFlight[k].value.job.value;
            Known(s) && i < |s.fates| && CanPublish(s.ring.window, s.ring.log[i].index, s.ring.log[i].generation)
  {
    StartHolds(slotCount, cycle);
    RunFlights(Start(slotCount, cycle), events);
    hide Run;
    var s := Run(Start(slotCount, cycle), events).value;
    RingOkIn(s);
    JobInRange(s, k);
    WaitsIsNamed(s.ring, s.nextGeneration, s.ctx.inFlight[k].value.job.value);
    hide Inv;
  }

  // --- Exactly when a frame left behind can lose its reference ---

  /** A frame of this ring is in flight on a chain its inter encoder has left. */
  predicate IsLeftBehind(s: State, k: nat) {
    && k < |s.ctx.inFlight| && s.ctx.inFlight[k].value.job.Some?
    && s.ctx.Inter() && s.ctx.inFlight[k].value.chain != s.ctx.chain.chain
  }

  /** The latest stored frame of the encoder's codec is the one before frame k: same chain, number one less. */
  ghost predicate ReferenceStored(s: State, k: nat)
    requires k < |s.ctx.inFlight| && s.ctx.encoder.Some?
  {
    var e := s.ctx.inFlight[k];
    exists j: nat :: IsLatest(s.fates, s.ctx.encoder.value.codec, j)
                && s.fates[j].chain == e.value.chain && NextSeq(s.fates[j].seqNo) == Wrap32(e.seqNo)
  }

  /** Frame k was left behind, need not be a key, and its predecessor is not what is stored: it is in flight too, or lost.
      (Should numbers or chain ids have come round so that what is stored bears the predecessor's number by chance, a
      frame of this ring before the predecessor.) */
  ghost predicate Risky(s: State, k: nat) {
    && IsLeftBehind(s, k) && !s.ctx.inFlight[k].value.forced
    && (!ReferenceStored(s, k) || exists m :: 0 <= m < k - 1 && s.ctx.inFlight[m].value.job.Some?)
  }

  ghost predicate AtRisk(s: State) { exists k: nat :: Risky(s, k) }

  /** No frame is sent. */
  predicate SendsNothing(e: Event) { !e.Encode? && !e.EncodeOther? }

  ghost predicate NoSends(events: seq<Event>) { forall k :: 0 <= k < |events| ==> SendsNothing(events[k]) }

  /** From s to s' a frame was stored that is no key and has no reference. */
  ghost predicate Loses(s: State, s': State) {
    exists i: nat :: i < |s.fates| && i < |s'.fates| && s.fates[i].Pending? && s'.fates[i].Kept? && !s'.fates[i].key
                     && !HasReference(s'.fates, i)
  }

  /** With no frame sent, these steps lead from s to s'. */
  ghost predicate Reaches(s: State, events: seq<Event>, s': State) {
    NoSends(events) && Run(s, events) == Some(s')
  }

  /** Some order of packets, refusals, drops and whatever else may happen, with no frame sent, loses a reference. */
  ghost predicate CanLose(s: State) { exists events, s' :: Reaches(s, events, s') && Loses(s, s') }

  // --- Not at risk, nothing is lost ---

  /** Everything lacking a reference is among these. */
  ghost predicate Good(s: State, known: set<nat>) {
    Inv(s.(strays := known)) && Flights(s) && !AtRisk(s)
  }

  lemma SettleIgnoresStrays(s: State, known: set<nat>, i: nat, wanted: Fate, memory: Option<Payload>)
    requires Known(s) && i < |s.fates|
    ensures Settle(s.(strays := known), i, wanted, memory) == Settle(s, i, wanted, memory).(strays := known)
  {
    hide RingRuns.StepRing;
  }

  lemma ReceiveIgnoresStrays(s: State, known: set<nat>, p: Packet, memory: Option<Payload>)
    requires Enabled(s, Receive(p, memory))
    ensures Enabled(s.(strays := known), Receive(p, memory))
    ensures Store(s.(strays := known), p, memory).(strays := known) == Store(s, p, memory).(strays := known)
  {
    hide AfterPacket, Wanted, Settle;
    if s.ctx.inFlight[0].value.job.Some? {
      SettleIgnoresStrays(s, known, s.ctx.inFlight[0].value.job.value, Wanted(s.ctx, p), memory);
    }
  }

  lemma EncodeIgnoresStrays(s: State, known: set<nat>, e: Event)
    requires e.Encode? && Enabled(s, e)
    ensures Enabled(s.(strays := known), e)
    ensures Step(s.(strays := known), e) == Step(s, e).(strays := known)
  {
    hide RingRuns.StepRing, AfterSend, Prepared;
  }

  lemma StepIgnoresStrays(s: State, known: set<nat>, e: Event)
    requires Enabled(s, e)
    ensures Enabled(s.(strays := known), e)
    ensures Step(s.(strays := known), e).(strays := known) == Step(s, e).(strays := known)
    ensures !e.Receive? ==> Step(s.(strays := known), e).strays == known
  {
    hide RingRuns.StepRing, AfterSend, Prepared, Returned, Reserve, Store;
    if e.Receive? {
      ReceiveIgnoresStrays(s, known, e.packet, e.memory);
    } else if e.Encode? {
      EncodeIgnoresStrays(s, known, e);
    }
  }

  /** The oldest frame, if left behind and not at risk, has its reference when its packet is stored. */
  lemma StoredFromBehind(s: State, p: Packet, i: nat, f: Fate)
    requires Inv(s) && !AtRisk(s) && IsLeftBehind(s, 0) && s.ctx.inFlight[0].value.job == Some(i) && i < |s.fates|
    requires Expected(s.ctx, p) && Conforms(s.ctx.encoder.value, s.ctx.inFlight[0].value, p)
    requires f == Wanted(s.ctx, p) && f.Kept? && !f.key
    ensures HasReference(s.fates[i := f], i)
  {
    assert !Risky(s, 0);
    var codec := s.ctx.encoder.value.codec;
    assert f == Kept(codec, false, s.ctx.inFlight[0].value.chain, Wrap32(p.seqNo)) && !s.ctx.inFlight[0].value.forced;
    var j: nat :| IsLatest(s.fates, codec, j)
                  && s.fates[j].chain == s.ctx.inFlight[0].value.chain
                  && NextSeq(s.fates[j].seqNo) == Wrap32(s.ctx.inFlight[0].seqNo);
    hide RingRuns.RingOk, Mirror, Waiting, Tail, Mended, ChainsClosed, Wanted;
    assert BeforeAll(j, s.ctx.inFlight);
    assert Refers(s.fates[i := f], j, i);
  }

  /** The same frames of a codec are stored. */
  ghost predicate SameStored(fates: seq<Fate>, fates': seq<Fate>, codec: CodecId) {
    && |fates| <= |fates'|
    && (forall j :: 0 <= j < |fates| && ((fates[j].Kept? && fates[j].codec == codec) || (fates'[j].Kept? && fates'[j].codec == codec)) ==>
          fates'[j] == fates[j])
    && (forall j :: |fates| <= j < |fates'| ==> fates'[j].Pending?)
  }

  lemma SameLatest(fates: seq<Fate>, fates': seq<Fate>, codec: CodecId, j: nat)
    requires SameStored(fates, fates', codec)
    ensures IsLatest(fates', codec, j) <==> IsLatest(fates, codec, j)
    ensures IsLatest(fates, codec, j) ==> fates'[j] == fates[j]
  {
  }

  lemma SameReference(s: State, s': State, k: nat, k': nat)
    requires s.ctx.encoder.Some? && s'.ctx.encoder == s.ctx.encoder
    requires k < |s.ctx.inFlight| && k' < |s'.ctx.inFlight|
    requires s'.ctx.inFlight[k'].seqNo == s.ctx.inFlight[k].seqNo
    requires s'.ctx.inFlight[k'].value.chain == s.ctx.inFlight[k].value.chain
    requires SameStored(s.fates, s'.fates, s.ctx.encoder.value.codec)
    ensures ReferenceStored(s, k) ==> ReferenceStored(s', k')
  {
    if ReferenceStored(s, k) {
      var codec, e := s.ctx.encoder.value.codec, s.ctx.inFlight[k];
      var j: nat :| IsLatest(s.fates, codec, j)
                    && s.fates[j].chain == e.value.chain && NextSeq(s.fates[j].seqNo) == Wrap32(e.seqNo);
      SameLatest(s.fates, s'.fates, codec, j);
    }
  }

  predicate SameSent(a: Entry<Sent<Job>>, b: Entry<Sent<Job>>) {
    && a.seqNo == b.seqNo && a.value.chain == b.value.chain && a.value.forced == b.value.forced && a.value.job == b.value.job
  }

  /** A step that leaves the encoder, what it has in flight, and what of its codec is stored. */
  lemma StaysSafe(s: State, s': State)
    requires !AtRisk(s) && s'.ctx.encoder == s.ctx.encoder && s'.ctx.chain.chain == s.ctx.chain.chain
    requires |s'.ctx.inFlight| == |s.ctx.inFlight|
    requires forall k :: 0 <= k < |s.ctx.inFlight| ==> SameSent(s.ctx.inFlight[k], s'.ctx.inFlight[k])
    requires s.ctx.Inter() ==> SameStored(s.fates, s'.fates, s.ctx.encoder.value.codec)
    ensures !AtRisk(s')
  {
    forall k: nat
      ensures !Risky(s', k)
    {
      assert !Risky(s, k);
      if IsLeftBehind(s', k) {
        assert SameSent(s.ctx.inFlight[k], s'.ctx.inFlight[k]);
        hide SameStored, ReferenceStored;
        SameReference(s, s', k, k);
        assert forall m :: 0 <= m < k - 1 && s'.ctx.inFlight[m].value.job.Some? ==> SameSent(s.ctx.inFlight[m], s'.ctx.inFlight[m]);
      }
    }
  }

  lemma NoEncoderSafe(s: State)
    requires !s.ctx.Inter()
    ensures !AtRisk(s)
  {
  }

  /** Frames before one left behind were sent on chains left as well. */
  lemma AllBehind(c: Context<Job>, cycle: nat, k: nat)
    requires Tail(c, cycle) && k < |c.inFlight| && c.inFlight[k].value.chain != c.chain.chain
    ensures forall m :: 0 <= m <= k ==> c.inFlight[m].value.chain != c.chain.chain
  {
    hide Consecutive, NextDecided;
  }

  /** What the packet of a frame left behind makes of it: as it says, with any room, or nothing, or the raw frame. */
  lemma BehindFate(s: State, p: Packet, room: bool)
    requires s.ctx.Inter() && Expected(s.ctx, p) && Conforms(s.ctx.encoder.value, s.ctx.inFlight[0].value, p)
    requires s.ctx.inFlight[0].value.chain != s.ctx.chain.chain
    ensures var f, e := PacketFate(s.ctx, p, room), s.ctx.inFlight[0];
            f == Gone || f == KEPT_RAW || f == Kept(s.ctx.encoder.value.codec, p.key, e.value.chain, Wrap32(e.seqNo))
    ensures var c := AfterPacket(s.ctx, p, room); c == s.ctx.(inFlight := s.ctx.inFlight[1..])
  {
  }

  /** The oldest frame is decided: the one behind it is at no more risk than before. */
  lemma PopStaysSafe(s: State, s': State, p: Packet, room: bool)
    requires Inv(s) && Flights(s) && !AtRisk(s) && s.ctx.encoder.Some? && Expected(s.ctx, p)
    requires Conforms(s.ctx.encoder.value, s.ctx.inFlight[0].value, p)
    requires s'.ctx == AfterPacket(s.ctx, p, room)
    requires var job := s.ctx.inFlight[0].value.job;
             if job.None? then s'.fates == s.fates
             else job.value < |s.fates| && s'.fates == s.fates[job.value := PacketFate(s.ctx, p, room)]
    ensures !AtRisk(s')
  {
    AfterPacketShape(s.ctx, p, room);
    forall k: nat
      ensures !Risky(s', k)
    {
      if IsLeftBehind(s', k) && !s'.ctx.inFlight[k].value.forced {
        assert s'.ctx.inFlight[k] == s.ctx.inFlight[k + 1] && !Risky(s, k + 1);
        PopReference(s, s', p, room, k);
        hide Inv, Flights, ReferenceStored, AfterPacket, PacketFate;
        assert forall m :: 0 <= m < k - 1 ==> s'.ctx.inFlight[m] == s.ctx.inFlight[m + 1];
      }
    }
  }

  /** What is stored stays the reference of the frame next in line, or the frame just decided becomes it. */
  lemma PopReference(s: State, s': State, p: Packet, room: bool, k: nat)
    requires Inv(s) && Flights(s) && s.ctx.encoder.Some? && Expected(s.ctx, p)
    requires Conforms(s.ctx.encoder.value, s.ctx.inFlight[0].value, p)
    requires s'.ctx == AfterPacket(s.ctx, p, room) && |s'.ctx.inFlight| + 1 == |s.ctx.inFlight|
    requires var job := s.ctx.inFlight[0].value.job;
             if job.None? then s'.fates == s.fates
             else job.value < |s.fates| && s'.fates == s.fates[job.value := PacketFate(s.ctx, p, room)]
    requires IsLeftBehind(s', k) && IsLeftBehind(s, k + 1) && s'.ctx.inFlight[k] == s.ctx.inFlight[k + 1]
    requires !s.ctx.inFlight[k + 1].value.forced && !Risky(s, k + 1)
    ensures ReferenceStored(s', k)
  {
    var q, e := s.ctx.inFlight, s.ctx.inFlight[k + 1];
    AllBehind(s.ctx, s.cycle, k + 1);
    BehindFate(s, p, room);
    assert FollowsOn(q[k], e);
    assert ReferenceStored(s, k + 1);
    if q[0].value.job.Some? {
      assert k == 0;
      var i, f := q[0].value.job.value, PacketFate(s.ctx, p, room);
      if f.Kept? && f != KEPT_RAW {
        LatestNow(s.fates, q, s.taken, i, f);
        assert NextSeq(Wrap32(q[0].seqNo)) == Wrap32(e.seqNo);
        assert IsLatest(s'.fates, s.ctx.encoder.value.codec, i);
      } else {
        assert SameStored(s.fates, s'.fates, s.ctx.encoder.value.codec);
        hide Inv, AfterPacket, PacketFate, SameStored;
        SameReference(s, s', k + 1, k);
      }
    } else {
      hide Inv, AfterPacket, PacketFate;
      SameReference(s, s', k + 1, k);
    }
  }

  lemma StepStaysSafe(s: State, e: Event)
    requires Inv(s) && Flights(s) && !AtRisk(s) && Enabled(s, e) && SendsNothing(e)
    ensures !AtRisk(Step(s, e))
  {
    var s' := Step(s, e);
    if e.Receive? {
      ReceiveStaysSafe(s, e.packet, e.memory);
    } else if e.DropOldest? {
      NoEncoderSafe(s');
    } else {
      KeepsSent(s, e);
      hide Inv, Flights, Step, Enabled, AtRisk, SameStored, SameSent;
      StaysSafe(s, s');
    }
  }

  lemma ClosedIn(s: State)
    requires Inv(s)
    ensures ChainsClosed(s.fates, s.strays) && WellKind(s.ctx.encoder)
  {
    hide RingRuns.RingOk, Mirror, Waiting, Flying, Ordered, Tail, Mended, ChainsClosed, WellKind;
  }

  lemma OtherStored(s: State, p: Packet, memory: Option<Payload>)
    requires Enabled(s, Receive(p, memory)) && s.ctx.inFlight[0].value.job.None?
    ensures Store(s, p, memory) == s.(ctx := AfterPacket(s.ctx, p, memory.Some?))
  {
    hide AfterPacket;
  }

  /** A capture of this ring is decided. */
  lemma StoreShape(s: State, p: Packet, memory: Option<Payload>, i: nat)
    requires Enabled(s, Receive(p, memory)) && WellKind(s.ctx.encoder) && s.ctx.inFlight[0].value.job == Some(i)
    ensures i < |s.fates| && Known(s)
    ensures var s' := Store(s, p, memory);
            && s'.fates == s.fates[i := PacketFate(s.ctx, p, Room(s, i, memory))]
            && s'.ctx == AfterPacket(s.ctx, p, Room(s, i, memory))
            && s'.strays == if s.ctx.Inter() && !Tracked(s.ctx) then s.strays + {i} else s.strays
  {
    hide AfterPacket, Room, Wanted, Settle;
    WantedShape(s.ctx, p);
    SettleShape(s, i, Wanted(s.ctx, p), memory);
  }

  lemma ReceiveStaysSafe(s: State, p: Packet, memory: Option<Payload>)
    requires Enabled(s, Receive(p, memory)) && Inv(s) && Flights(s) && !AtRisk(s)
    ensures !AtRisk(Store(s, p, memory))
  {
    hide Inv, Flights, AtRisk, AfterPacket, PacketFate, Room, Store, WellKind;
    var job := s.ctx.inFlight[0].value.job;
    if job.None? {
      OtherStored(s, p, memory);
      PopStaysSafe(s, Store(s, p, memory), p, memory.Some?);
    } else {
      ClosedIn(s);
      StoreShape(s, p, memory, job.value);
      PopStaysSafe(s, Store(s, p, memory), p, Room(s, job.value, memory));
    }
  }

  /** A step that neither sends nor decides a frame in flight. */
  lemma KeepsSent(s: State, e: Event)
    requires Inv(s) && Enabled(s, e) && SendsNothing(e) && !e.Receive? && !e.DropOldest?
    ensures var s' := Step(s, e);
            && s'.ctx.encoder == s.ctx.encoder && s'.ctx.chain.chain == s.ctx.chain.chain
            && |s'.ctx.inFlight| == |s.ctx.inFlight|
            && (forall k :: 0 <= k < |s.ctx.inFlight| ==> SameSent(s.ctx.inFlight[k], s'.ctx.inFlight[k]))
            && (s.ctx.Inter() ==> SameStored(s.fates, s'.fates, s.ctx.encoder.value.codec))
  {
    hide RingRuns.RingOk, RingRuns.StepRing, Mirror, Waiting, Flying, Ordered, Tail, Mended, ChainsClosed;
  }

  /** Inv, with other captures allowed to lack their reference. */
  lemma InvAllowing(s: State, known: set<nat>)
    requires Inv(s) && ChainsClosed(s.fates, known)
    ensures Inv(s.(strays := known))
  {
    hide RingRuns.RingOk, Mirror, Waiting, Flying, Ordered, Tail, Mended, ChainsClosed, WellKind;
  }

  lemma ReceiveStaysClosed(s: State, known: set<nat>, p: Packet, memory: Option<Payload>)
    requires Enabled(s, Receive(p, memory)) && s.strays == known && Inv(s) && !AtRisk(s)
    ensures Inv(Store(s, p, memory).(strays := known))
  {
    hide Inv, AtRisk, Wanted, PacketFate, HasReference, Room, Store, Settle, AfterPacket, WellKind;
    StoreKeeps(s, p, memory);
    ClosedIn(s);
    var s', job := Store(s, p, memory), s.ctx.inFlight[0].value.job;
    ClosedIn(s');
    if job.Some? {
      StoreShape(s, p, memory, job.value);
      if IsLeftBehind(s, 0) && s'.fates[job.value].Kept? && !s'.fates[job.value].key {
        BehindHasReference(s, p, memory, job.value);
      }
    } else {
      OtherStored(s, p, memory);
    }
    InvAllowing(s', known);
  }

  lemma BehindHasReference(s: State, p: Packet, memory: Option<Payload>, i: nat)
    requires Enabled(s, Receive(p, memory)) && IsLeftBehind(s, 0) && s.ctx.inFlight[0].value.job == Some(i) && Inv(s) && !AtRisk(s)
    requires var f := PacketFate(s.ctx, p, Room(s, i, memory)); f.Kept? && !f.key
    ensures HasReference(s.fates[i := PacketFate(s.ctx, p, Room(s, i, memory))], i)
  {
    hide Inv, AtRisk, Wanted, HasReference, Room;
    StoredFromBehind(s, p, i, Wanted(s.ctx, p));
  }

  lemma StepGood(s: State, known: set<nat>, e: Event)
    requires Good(s, known) && Enabled(s, e) && SendsNothing(e)
    ensures Good(Step(s, e), known)
  {
    var sk := s.(strays := known);
    StepIgnoresStrays(s, known, e);
    assert Flights(sk) && !AtRisk(sk) by {
      hide Inv, InTurn, FlightWaits;
      SameButStrays(s, known);
    }
    hide Inv, Flights, AtRisk, Enabled;
    StepStaysSafe(sk, e);
    StepFlights(sk, e);
    if e.Receive? {
      ReceiveStaysClosed(sk, known, e.packet, e.memory);
    } else {
      StepKeeps(sk, e);
    }
    hide Step, Store;
    SameButStrays(Step(s, e), known);
    SameButStrays(Step(sk, e), known);
  }

  /** What is at risk, and what is in flight, does not depend on what strayed before. */
  lemma SameButStrays(s: State, known: set<nat>)
    ensures Flights(s.(strays := known)) <==> Flights(s)
    ensures AtRisk(s.(strays := known)) <==> AtRisk(s)
  {
    hide InTurn, FlightWaits;
    forall k: nat
      ensures Risky(s.(strays := known), k) <==> Risky(s, k)
    {
    }
  }

  lemma {:induction false} RunGood(s: State, known: set<nat>, events: seq<Event>)
    requires Good(s, known) && Run(s, events).Some? && NoSends(events)
    ensures Good(Run(s, events).value, known)
    decreases |events|
  {
    hide Good, Step, Enabled, SendsNothing;
    if events != [] {
      assert SendsNothing(events[0]);
      StepGood(s, known, events[0]);
      RunGood(Step(s, events[0]), known, events[1..]);
    }
  }

  lemma NothingLost(s: State, events: seq<Event>, s': State)
    requires Inv(s) && Flights(s) && !AtRisk(s) && Reaches(s, events, s')
    ensures !Loses(s, s')
  {
    var known := set i | 0 <= i < |s.fates| && s.fates[i].Kept?;
    assert Inv(s.(strays := known)) by {
      hide RingRuns.RingOk, Mirror, Waiting, Flying, Ordered, Tail, Mended, HasReference;
    }
    hide Inv, Flights, AtRisk;
    RunGood(s, known, events);
    KnownLack(s', known);
    hide Run, Good, HasReference;
  }

  lemma KnownLack(s: State, known: set<nat>)
    requires Good(s, known)
    ensures forall i :: 0 <= i < |s.fates| && s.fates[i].Kept? && !s.fates[i].key && i !in known ==> HasReference(s.fates, i)
  {
    hide RingRuns.RingOk, Mirror, Waiting, Flying, Ordered, Tail, Mended, HasReference, AtRisk;
  }

  // --- At risk, something can be lost ---

  lemma {:induction false} RunJoin(s: State, a: seq<Event>, s1: State, b: seq<Event>, s2: State)
    requires Reaches(s, a, s1) && Reaches(s1, b, s2)
    ensures Reaches(s, a + b, s2)
    decreases |a|
  {
    if a == [] {
      assert a + b == b;
    } else {
      assert forall k :: 0 <= k < |a[1..]| ==> a[1..][k] == a[k + 1];
      RunJoin(Step(s, a[0]), a[1..], s1, b, s2);
      assert (a + b)[1..] == a[1..] + b;
    }
  }

  lemma RunOne(s: State, e: Event)
    requires Enabled(s, e) && SendsNothing(e)
    ensures Reaches(s, [e], Step(s, e))
  {
    hide Enabled, Step;
    assert [e][1..] == [] && Run(Step(s, e), []) == Some(Step(s, e));
  }

  /** The oldest frame in flight was left behind. */
  predicate FrontBehind(s: State) {
    s.ctx.Inter() && s.ctx.inFlight != [] && s.ctx.inFlight[0].value.chain != s.ctx.chain.chain
  }

  /** Its packet comes, a key or not, and the arena has room for it or not. */
  function Comes(s: State, key: bool, room: bool): Event
    requires FrontBehind(s)
  {
    Receive(Packet(s.ctx.inFlight[0].seqNo, key, false, true, s.ctx.encoder.value.codec), if room then Some(NO_PAYLOAD) else None)
  }

  /** What the oldest frame becomes when it is stored. */
  function Storing(s: State, key: bool): Fate
    requires FrontBehind(s)
  {
    Kept(s.ctx.encoder.value.codec, key, s.ctx.inFlight[0].value.chain, Wrap32(s.ctx.inFlight[0].seqNo))
  }

  lemma FrontEnabled(s: State, key: bool, room: bool)
    requires Inv(s) && FrontBehind(s) && (!key ==> !s.ctx.inFlight[0].value.forced)
    ensures Enabled(s, Comes(s, key, room))
    ensures s.ctx.inFlight[0].value.job.Some? ==> s.fates[s.ctx.inFlight[0].value.job.value].Pending?
  {
    RingOkIn(s);
    if s.ctx.inFlight[0].value.job.Some? {
      JobInRange(s, 0);
    }
    hide RingRuns.RingOk, Mirror, Waiting, Ordered, Tail, Mended, ChainsClosed;
  }

  /** No room: the oldest frame leaves, and no frame of the codec is stored. */
  lemma Refused(s: State) returns (e: Event, s': State)
    requires Inv(s) && Flights(s) && FrontBehind(s)
    ensures Reaches(s, [e], s') && Inv(s') && Flights(s') && s'.ctx == s.ctx.(inFlight := s.ctx.inFlight[1..])
    ensures |s'.fates| == |s.fates| && SameStored(s.fates, s'.fates, s.ctx.encoder.value.codec)
  {
    FrontEnabled(s, true, false);
    RefusedShape(s);
    hide Inv, Flights, Enabled, Step, SameStored;
    e := Comes(s, true, false);
    s' := Step(s, e);
    StepKeeps(s, e);
    StepFlights(s, e);
    RunOne(s, e);
  }

  lemma RefusedShape(s: State)
    requires FrontBehind(s) && Enabled(s, Comes(s, true, false))
    requires s.ctx.inFlight[0].value.job.Some? ==> s.fates[s.ctx.inFlight[0].value.job.value].Pending?
    ensures var s' := Step(s, Comes(s, true, false));
            && s'.ctx == s.ctx.(inFlight := s.ctx.inFlight[1..])
            && |s'.fates| == |s.fates| && SameStored(s.fates, s'.fates, s.ctx.encoder.value.codec)
  {
    BehindFate(s, Comes(s, true, false).packet, false);
    hide RingRuns.StepRing;
  }

  /** There is room: the oldest frame is stored. */
  lemma Stored(s: State, key: bool, i: nat) returns (e: Event, s': State)
    requires Inv(s) && Flights(s) && FrontBehind(s) && s.ctx.inFlight[0].value.job == Some(i)
    requires !key ==> !s.ctx.inFlight[0].value.forced
    ensures Reaches(s, [e], s') && Inv(s') && Flights(s') && s'.ctx == s.ctx.(inFlight := s.ctx.inFlight[1..])
    ensures i < |s.fates| && s.fates[i].Pending? && s'.fates == s.fates[i := Storing(s, key)]
  {
    FrontEnabled(s, key, true);
    JobInRange(s, 0);
    StoredShape(s, key, i);
    hide Inv, Flights, Enabled, Step;
    e := Comes(s, key, true);
    s' := Step(s, e);
    StepKeeps(s, e);
    StepFlights(s, e);
    RunOne(s, e);
  }

  lemma StoredShape(s: State, key: bool, i: nat)
    requires Inv(s) && Flights(s) && FrontBehind(s) && s.ctx.inFlight[0].value.job == Some(i) && i < |s.fates|
    requires Enabled(s, Comes(s, key, true)) && (!key ==> !s.ctx.inFlight[0].value.forced) && s.fates[i].Pending?
    ensures var s' := Step(s, Comes(s, key, true));
            s'.ctx == s.ctx.(inFlight := s.ctx.inFlight[1..]) && s'.fates == s.fates[i := Storing(s, key)]
  {
    var e := Comes(s, key, true);
    assert Room(s, i, e.memory) by {
      RingOkIn(s);
      assert Waits(s.ring.window, |s.fates|, i);
      WaitsIsNamed(s.ring, s.nextGeneration, i);
      hide Inv, Waits, InTurn;
    }
    BehindFate(s, e.packet, true);
    SettleShape(s, i, Wanted(s.ctx, e.packet), e.memory);
    hide Inv, Flights, Settle, Room;
  }

  /** The first n frames in flight are refused, one after the other. */
  lemma {:induction false} RefusedAll(s: State, n: nat) returns (events: seq<Event>, s': State)
    requires Inv(s) && Flights(s) && s.ctx.Inter() && n <= |s.ctx.inFlight|
    requires forall m :: 0 <= m < n ==> s.ctx.inFlight[m].value.chain != s.ctx.chain.chain
    ensures Reaches(s, events, s') && Inv(s') && Flights(s') && s'.ctx == s.ctx.(inFlight := s.ctx.inFlight[n..])
    ensures |s'.fates| == |s.fates| && SameStored(s.fates, s'.fates, s.ctx.encoder.value.codec)
    decreases n
  {
    hide Inv, Flights;
    var q, codec := s.ctx.inFlight, s.ctx.encoder.value.codec;
    if n == 0 {
      events, s' := [], s;
      assert q[n..] == q;
    } else {
      hide SameStored, Reaches;
      var e, s1 := Refused(s);
      var more;
      more, s' := RefusedAll(s1, n - 1);
      assert q[1..][n - 1..] == q[n..];
      RunJoin(s, [e], s1, more, s');
      StoredStill(s.fates, s1.fates, s'.fates, codec);
      events := [e] + more;
    }
  }

  lemma StoredStill(a: seq<Fate>, b: seq<Fate>, c: seq<Fate>, codec: CodecId)
    requires SameStored(a, b, codec) && SameStored(b, c, codec) && |a| == |b| == |c|
    ensures SameStored(a, c, codec)
  {
  }

  /** What a frame stored from the front refers to is the frame of its codec stored last. */
  lemma ReferredIsStored(s: State, i: nat, fates: seq<Fate>)
    requires Inv(s) && FrontBehind(s) && s.ctx.inFlight[0].value.job == Some(i) && i < |s.fates| && s.fates[i].Pending?
    requires fates == s.fates[i := Storing(s, false)] && HasReference(fates, i)
    ensures ReferenceStored(s, 0)
  {
    var codec := s.ctx.encoder.value.codec;
    hide RingRuns.RingOk, Mirror, Waiting, Flying, Tail, Mended, ChainsClosed;
    var j: nat :| Refers(fates, j, i);
    forall m | 0 <= m < |s.fates| && s.fates[m].Kept? && s.fates[m].codec == codec
      ensures m <= j
    {
      assert BeforeAll(m, s.ctx.inFlight) && fates[m] == s.fates[m];
    }
    assert IsLatest(s.fates, codec, j);
  }

  /** Stored when the frame stored last is not its predecessor, a frame has no reference. */
  lemma Lonely(s: State, i: nat, fates: seq<Fate>)
    requires Inv(s) && FrontBehind(s) && s.ctx.inFlight[0].value.job == Some(i) && i < |s.fates| && s.fates[i].Pending?
    requires !ReferenceStored(s, 0) && fates == s.fates[i := Storing(s, false)]
    ensures !HasReference(fates, i)
  {
    hide Inv, HasReference, ReferenceStored;
    if HasReference(fates, i) {
      ReferredIsStored(s, i, fates);
    }
  }

  /** A run to a state in which frame k is next and its predecessor is not stored. */
  lemma FrontCanLose(s: State, k: nat, events: seq<Event>, s': State)
    requires IsLeftBehind(s, k) && !s.ctx.inFlight[k].value.forced && s'.ctx == s.ctx.(inFlight := s.ctx.inFlight[k..])
    requires !ReferenceStored(s', 0) && Reaches(s, events, s') && Inv(s) && Inv(s') && Flights(s')
    ensures CanLose(s)
  {
    hide Inv, Flights, HasReference, ReferenceStored, Reaches;
    var i := s.ctx.inFlight[k].value.job.value;
    PendingInFlight(s, k);
    var last, s2 := Stored(s', false, i);
    Lonely(s', i, s2.fates);
    RunJoin(s, events, s', [last], s2);
    assert Loses(s, s2);
  }

  lemma AllBehindIn(s: State, k: nat)
    requires Inv(s) && k < |s.ctx.inFlight| && s.ctx.inFlight[k].value.chain != s.ctx.chain.chain
    ensures forall m :: 0 <= m <= k ==> s.ctx.inFlight[m].value.chain != s.ctx.chain.chain
  {
    AllBehind(s.ctx, s.cycle, k);
  }

  lemma PendingInFlight(s: State, k: nat)
    requires Inv(s) && k < |s.ctx.inFlight| && s.ctx.inFlight[k].value.job.Some?
    ensures s.ctx.inFlight[k].value.job.value < |s.fates| && s.fates[s.ctx.inFlight[k].value.job.value].Pending?
  {
    hide RingRuns.RingOk, Mirror, Waiting, Ordered, Tail, Mended, ChainsClosed;
  }

  lemma NotStoredStill(s: State, s': State, k: nat, k': nat)
    requires s.ctx.encoder.Some? && s'.ctx.encoder == s.ctx.encoder
    requires k < |s.ctx.inFlight| && k' < |s'.ctx.inFlight| && s'.ctx.inFlight[k'] == s.ctx.inFlight[k]
    requires |s.fates| == |s'.fates| && SameStored(s.fates, s'.fates, s.ctx.encoder.value.codec) && !ReferenceStored(s, k)
    ensures !ReferenceStored(s', k')
  {
    var codec := s.ctx.encoder.value.codec;
    assert SameStored(s'.fates, s.fates, codec);
    hide ReferenceStored, SameStored;
    if ReferenceStored(s', k') {
      SameReference(s', s, k', k);
    }
  }

  /** Everything before it refused, a frame whose predecessor is not stored loses it. */
  lemma RefusingLoses(s: State, k: nat)
    requires Inv(s) && Flights(s) && IsLeftBehind(s, k) && !s.ctx.inFlight[k].value.forced && !ReferenceStored(s, k)
    ensures CanLose(s)
  {
    AllBehindIn(s, k);
    hide Inv, Flights, ReferenceStored, Reaches, CanLose, SameStored;
    var events, s' := RefusedAll(s, k);
    NotStoredStill(s, s', k, 0);
    FrontCanLose(s, k, events, s');
  }

  /** A frame of this ring before frame k's predecessor which cannot pass for it. */
  lemma FrameBefore(q: InFlight, k: nat, given: nat) returns (m: nat)
    requires InTurn(q) && given + 1 < k < |q| && q[k].value.job.Some? && !q[k].value.forced && q[given].value.job.Some?
    ensures m + 1 < k && q[m].value.job.Some?
    ensures q[m].value.chain != q[k].value.chain || q[k].seqNo == q[m].seqNo + 2
  {
    assert FollowsOn(q[k - 1], q[k]);
    m := if q[k - 2].value.chain == q[k].value.chain then k - 2 else given;
    if m == k - 2 {
      assert FollowsOn(q[k - 2], q[k - 1]);
    }
  }

  /** The frame of a codec stored last is what e has become. */
  ghost predicate LatestIs(fates: seq<Fate>, codec: CodecId, e: Entry<Sent<Job>>) {
    && e.value.job.Some? && IsLatest(fates, codec, e.value.job.value)
    && fates[e.value.job.value].chain == e.value.chain && fates[e.value.job.value].seqNo == Wrap32(e.seqNo)
  }

  /** Stored from the front as a key, a frame is the latest of its codec. */
  lemma KeyIsLatest(s: State, i: nat)
    requires Inv(s) && FrontBehind(s) && s.ctx.inFlight[0].value.job == Some(i) && i < |s.fates|
    ensures LatestIs(s.fates[i := Storing(s, true)], s.ctx.encoder.value.codec, s.ctx.inFlight[0])
  {
    hide RingRuns.RingOk, Mirror, Waiting, Flying, Tail, Mended, ChainsClosed, IsLatest;
    LatestNow(s.fates, s.ctx.inFlight, s.taken, i, Storing(s, true));
  }

  /** What is stored last cannot pass for the predecessor of frame k. */
  lemma OtherIsLatest(s: State, k: nat, e: Entry<Sent<Job>>)
    requires s.ctx.encoder.Some? && k < |s.ctx.inFlight| && LatestIs(s.fates, s.ctx.encoder.value.codec, e)
    requires e.value.chain != s.ctx.inFlight[k].value.chain || s.ctx.inFlight[k].seqNo == e.seqNo + 2
    ensures !ReferenceStored(s, k)
  {
    SeqSteps(e.seqNo + 1);
    assert forall j: nat :: IsLatest(s.fates, s.ctx.encoder.value.codec, j) ==> j == e.value.job.value;
  }

  /** Refused up to frame m, which is stored as a key. */
  lemma KeyStored(s: State, m: nat) returns (events: seq<Event>, s': State)
    requires Inv(s) && Flights(s) && s.ctx.Inter() && m < |s.ctx.inFlight| && s.ctx.inFlight[m].value.job.Some?
    requires forall l :: 0 <= l <= m ==> s.ctx.inFlight[l].value.chain != s.ctx.chain.chain
    ensures Reaches(s, events, s') && Inv(s') && Flights(s') && s'.ctx == s.ctx.(inFlight := s.ctx.inFlight[m + 1..])
    ensures LatestIs(s'.fates, s.ctx.encoder.value.codec, s.ctx.inFlight[m])
  {
    hide Inv, Flights, SameStored, LatestIs, Reaches;
    var i := s.ctx.inFlight[m].value.job.value;
    var before, s1 := RefusedAll(s, m);
    var key;
    key, s' := Stored(s1, true, i);
    KeyIsLatest(s1, i);
    RunJoin(s, before, s1, [key], s');
    events := before + [key];
    assert s.ctx.inFlight[m..][1..] == s.ctx.inFlight[m + 1..];
  }

  /** Only frame m stored of those before frame k, and as a key: the state in which frame k is next. */
  lemma OnlyKeyStored(s: State, k: nat, m: nat) returns (events: seq<Event>, s': State)
    requires Inv(s) && Flights(s) && s.ctx.Inter() && m < k < |s.ctx.inFlight| && s.ctx.inFlight[m].value.job.Some?
    requires forall l :: 0 <= l <= k ==> s.ctx.inFlight[l].value.chain != s.ctx.chain.chain
    ensures Reaches(s, events, s') && Inv(s') && Flights(s') && s'.ctx == s.ctx.(inFlight := s.ctx.inFlight[k..])
    ensures LatestIs(s'.fates, s.ctx.encoder.value.codec, s.ctx.inFlight[m])
  {
    hide Inv, Flights, SameStored, IsLatest, Reaches;
    var before, s1 := KeyStored(s, m);
    var after;
    after, s' := RefusedAll(s1, k - m - 1);
    assert s.ctx.inFlight[m + 1..][k - m - 1..] == s.ctx.inFlight[k..];
    SameLatest(s1.fates, s'.fates, s.ctx.encoder.value.codec, s.ctx.inFlight[m].value.job.value);
    RunJoin(s, before, s1, after, s');
    events := before + after;
  }

  /** A frame before its predecessor stored as a key and the predecessor refused, a frame loses it. */
  lemma KeyBeforeLoses(s: State, k: nat, given: nat)
    requires Inv(s) && Flights(s) && IsLeftBehind(s, k) && !s.ctx.inFlight[k].value.forced
    requires given + 1 < k && s.ctx.inFlight[given].value.job.Some?
    ensures CanLose(s)
  {
    AllBehindIn(s, k);
    var m := FrameBefore(s.ctx.inFlight, k, given);
    hide Inv, Flights, ReferenceStored, Reaches, CanLose, LatestIs;
    var events, s' := OnlyKeyStored(s, k, m);
    OtherIsLatest(s', 0, s.ctx.inFlight[m]);
    FrontCanLose(s, k, events, s');
  }

  /** A ring left behind can end up with a frame stored without its reference if and only if one of its frames in flight
      need not be a key, and its predecessor is not what is stored or can still be refused. */
  lemma LosesIffAtRisk(s: State)
    requires Inv(s) && Flights(s)
    ensures CanLose(s) <==> AtRisk(s)
  {
    hide Inv, Flights, Loses, Reaches;
    if AtRisk(s) {
      var k: nat :| Risky(s, k);
      if !ReferenceStored(s, k) {
        RefusingLoses(s, k);
      } else {
        var m :| 0 <= m < k - 1 && s.ctx.inFlight[m].value.job.Some?;
        KeyBeforeLoses(s, k, m);
      }
    } else if CanLose(s) {
      var events, s' :| Reaches(s, events, s') && Loses(s, s');
      NothingLost(s, events, s');
    }
  }

  /** The predecessor of an unforced frame in flight is in flight right before it, unless it is the oldest, whose predecessor
      was decided: it is what is stored last, or it was lost. */
  lemma PredecessorInFlight(s: State, k: nat)
    requires Flights(s) && IsLeftBehind(s, k) && !s.ctx.inFlight[k].value.forced && k > 0
    ensures var before, e := s.ctx.inFlight[k - 1], s.ctx.inFlight[k];
            IsLeftBehind(s, k - 1) && before.value.chain == e.value.chain && before.seqNo + 1 == e.seqNo
  {
    assert FollowsOn(s.ctx.inFlight[k - 1], s.ctx.inFlight[k]);
    hide FlightWaits;
  }

  /** So in every state that can be reached. */
  lemma ReachableLosesIffAtRisk(slotCount: nat, cycle: nat, events: seq<Event>)
    requires Run(Start(slotCount, cycle), events).Some?
    ensures var s := Run(Start(slotCount, cycle), events).value; CanLose(s) <==> AtRisk(s)
  {
    StartHolds(slotCount, cycle);
    RunFlights(Start(slotCount, cycle), events);
    hide Run, AtRisk, CanLose, Inv, Flights;
    LosesIffAtRisk(Run(Start(slotCount, cycle), events).value);
  }

  /** As long as the inter encoder serves this ring alone, every stored frame that is no key has its reference. */
  lemma AloneIsClosed(slotCount: nat, cycle: nat, events: seq<Event>, i: nat)
    requires Run(Start(slotCount, cycle), events).Some?
    requires forall k :: 0 <= k < |events| ==> !events[k].EncodeOther?
    requires var fates := Run(Start(slotCount, cycle), events).value.fates; i < |fates| && fates[i].Kept? && !fates[i].key
    ensures HasReference(Run(Start(slotCount, cycle), events).value.fates, i)
  {
    StartHolds(slotCount, cycle);
    RunStaysOnCourse(Start(slotCount, cycle), events);
    StoredChainsAreClosed(slotCount, cycle, events, i);
  }
}
