/** What is stored while a ring records, and what is lost: for every packet of every reachable state, and over runs. */
module WhatIsStored {
  import opened Words
  import opened Storage
  import opened RingSelect
  import opened FrameWindow
  import opened Encoding
  import opened Recording
  import opened Strays
  import RingRuns

  // --- One packet ---

  /** The packet makes no sense for its frame. */
  predicate Senseless(sent: Sent<Job>, p: Packet) { !p.usable || (p.rawInput && !sent.atHand) }

  /** Its reference was lost: no key, of the chain its inter encoder is on, which is broken. */
  predicate Orphan(c: Context<Job>, p: Packet)
    requires c.inFlight != []
  {
    c.Inter() && c.inFlight[0].value.chain == c.chain.chain && c.chain.broken && !p.key
  }

  /** The slot of a capture in flight always takes its packet: only memory can be missing. */
  lemma RoomIsMemory(s: State, memory: Option<Payload>, i: nat)
    requires Inv(s) && Flights(s) && s.ctx.inFlight != [] && s.ctx.inFlight[0].value.job == Some(i)
    ensures Known(s) && i < |s.fates| && s.fates[i].Pending? && (Room(s, i, memory) <==> memory.Some?)
    ensures Waits(s.ring.window, |s.fates|, i)
  {
    hide InTurn, Waits, Mirror, Waiting, Ordered, Tail, Mended, ChainsClosed, RingRuns.RingOk;
    RingOkIn(s);
    WaitsIsNamed(s.ring, s.nextGeneration, i);
  }

  /** The slot of capture i. */
  function SlotOf(s: State, i: nat): int { i - (|s.fates| - |s.ring.window.slots|) }

  /** In every reachable state: the packet of the oldest capture in flight is lost if and only if there is no memory for it,
      or it makes no sense with the frame let go, or it is an orphan. Otherwise its slot becomes Ready with it. */
  lemma PacketStoredIff(s: State, p: Packet, memory: Option<Payload>, i: nat)
    requires Enabled(s, Receive(p, memory)) && s.ctx.inFlight[0].value.job == Some(i) && Inv(s) && Flights(s)
    ensures i < |s.fates| == |Store(s, p, memory).fates|
    ensures var s', sent := Store(s, p, memory), s.ctx.inFlight[0].value;
            && (s'.fates[i] == Gone <==> memory.None? || (Senseless(sent, p) && !sent.atHand) || (!Senseless(sent, p) && Orphan(s.ctx, p)))
            && (s'.fates[i] != Gone ==> s'.fates[i] == if Senseless(sent, p) || p.rawInput then KEPT_RAW
                                                       else Kept(p.codec, p.key, sent.chain, Wrap32(p.seqNo)))
            && 0 <= SlotOf(s', i) < |s'.ring.window.slots|
            && (s'.ring.window.slots[SlotOf(s', i)].state.Ready? <==> s'.fates[i] != Gone)
  {
    hide Inv, Flights, Wanted, PacketFate, Settle, Store, Room, Waits, WellKind;
    RoomIsMemory(s, memory, i);
    ClosedIn(s);
    StoreShape(s, p, memory, i);
    LostIff(s.ctx, p, memory.Some?);
    StoreKeeps(s, p, memory);
    StaysInWindow(s, p, memory, i);
    ShowsFate(Store(s, p, memory), i);
  }

  lemma StaysInWindow(s: State, p: Packet, memory: Option<Payload>, i: nat)
    requires Enabled(s, Receive(p, memory)) && s.ctx.inFlight[0].value.job == Some(i) && i < |s.fates|
    requires Waits(s.ring.window, |s.fates|, i)
    ensures |Store(s, p, memory).ring.window.slots| == |s.ring.window.slots|
    ensures 0 <= SlotOf(s, i) < |s.ring.window.slots| && SlotOf(Store(s, p, memory), i) == SlotOf(s, i)
  {
    hide Wanted, AfterPacket;
  }

  lemma ShowsFate(s: State, i: nat)
    requires Inv(s) && 0 <= SlotOf(s, i) < |s.ring.window.slots| && i < |s.fates|
    ensures s.ring.window.slots[SlotOf(s, i)].state.Ready? <==> s.fates[i].Kept?
  {
    hide Waiting, Flying, Ordered, Tail, Mended, ChainsClosed, RingRuns.RingOk;
    assert Shows(s.ring.window.slots[SlotOf(s, i)], s.fates[i]);
  }

  // --- Runs that give nothing reason to be lost ---

  /** No packet is dropped, makes no sense or finds no memory. */
  predicate Kind(s: State, e: Event) {
    && !e.DropOldest?
    && (e.Receive? ==> s.ctx.inFlight != [] && e.memory.Some? && !Senseless(s.ctx.inFlight[0].value, e.packet))
  }

  ghost predicate KindRun(s: State, events: seq<Event>)
    requires Run(s, events).Some?
    decreases |events|
  {
    events == [] || (Kind(s, events[0]) && KindRun(Step(s, events[0]), events[1..]))
  }

  /** The encoder is no inter encoder, or its chain is not broken. */
  predicate Whole(c: Context<Job>) { c.Inter() ==> !c.chain.broken }

  /** Nothing breaks the chain. */
  lemma KindKeepsWhole(s: State, e: Event)
    requires Enabled(s, e) && Kind(s, e) && Inv(s) && Flights(s) && Whole(s.ctx)
    ensures Whole(Step(s, e).ctx)
  {
    hide Inv, Flights;
    if e.Receive? {
      var job := s.ctx.inFlight[0].value.job;
      if job.Some? {
        RoomIsMemory(s, e.memory, job.value);
        ClosedIn(s);
        StoreShape(s, e.packet, e.memory, job.value);
        ChainAfter(s.ctx, e.packet, true);
      } else {
        OtherStored(s, e.packet, e.memory);
        ChainAfter(s.ctx, e.packet, true);
      }
      hide AfterPacket, Store, Room;
    }
  }

  /** Every capture in flight is stored, or in flight still. */
  ghost predicate KeptOrInFlight(s: State, s': State) {
    forall k :: 0 <= k < |s.ctx.inFlight| && s.ctx.inFlight[k].value.job.Some? ==>
      var i := s.ctx.inFlight[k].value.job.value;
      && i < |s'.fates|
      && (s'.fates[i].Kept? || exists m :: 0 <= m < |s'.ctx.inFlight| && s'.ctx.inFlight[m].value.job == Some(i))
  }

  predicate DecidesNothing(e: Event) { !e.Receive? && !e.DropOldest? }

  /** Without a packet or a drop the frames in flight stay where they are, and so does the encoder they were sent to. */
  lemma JobsStay(s: State, e: Event)
    requires Inv(s) && Enabled(s, e) && DecidesNothing(e)
    ensures var c, c' := s.ctx, Step(s, e).ctx;
            && |c'.inFlight| >= |c.inFlight|
            && (forall k :: 0 <= k < |c.inFlight| ==> SameSent(c.inFlight[k], c'.inFlight[k]))
            && (c.inFlight != [] ==> c'.encoder == c.encoder)
            && (forall k :: 0 <= k < |c.inFlight| && c'.chain.chain == c.inFlight[k].value.chain ==>
                  c.chain.chain == c'.chain.chain && c.chain.broken == c'.chain.broken)
  {
    hide Inv, RingRuns.StepRing;
  }

  lemma KindStep(s: State, e: Event)
    requires Enabled(s, e) && Kind(s, e) && Inv(s) && Flights(s) && Whole(s.ctx)
    ensures KeptOrInFlight(s, Step(s, e))
  {
    hide Inv, Flights, Senseless, Orphan, Store;
    var s' := Step(s, e);
    StepKeeps(s, e);
    if e.Receive? {
      var job := s.ctx.inFlight[0].value.job;
      ReceivePops(s, e.packet, e.memory);
      if job.Some? {
        PacketStoredIff(s, e.packet, e.memory, job.value);
        assert Orphan(s.ctx, e.packet) ==> false by { NoOrphan(s.ctx, e.packet); }
      }
      hide Enabled, Kind;
      forall k | 0 <= k < |s.ctx.inFlight| && s.ctx.inFlight[k].value.job.Some?
        ensures StillThere(s', s.ctx.inFlight[k].value.job.value)
      {
        PendingInFlight(s, k);
        if k > 0 {
          assert s'.ctx.inFlight[k - 1] == s.ctx.inFlight[k];
        }
      }
    } else {
      JobsStay(s, e);
      GrowsOnly(s, e);
      hide Enabled, Kind, Step;
      forall k | 0 <= k < |s.ctx.inFlight| && s.ctx.inFlight[k].value.job.Some?
        ensures StillThere(s', s.ctx.inFlight[k].value.job.value)
      {
        PendingInFlight(s, k);
        assert SameSent(s.ctx.inFlight[k], s'.ctx.inFlight[k]);
      }
    }
  }

  lemma NoOrphan(c: Context<Job>, p: Packet)
    requires c.inFlight != [] && Whole(c)
    ensures !Orphan(c, p)
  {
  }

  lemma ReceivePops(s: State, p: Packet, memory: Option<Payload>)
    requires Enabled(s, Receive(p, memory))
    ensures var s' := Store(s, p, memory); |s'.fates| == |s.fates| && s'.ctx.inFlight == s.ctx.inFlight[1..]
  {
    hide Wanted;
  }

  lemma GrowsOnly(s: State, e: Event)
    requires Enabled(s, e)
    ensures |Step(s, e).fates| >= |s.fates|
  {
    hide RingRuns.StepRing, AfterSend, Prepared, AfterPacket, Wanted, Returned, Reserve;
  }

  ghost predicate StillThere(s: State, i: nat) {
    && i < |s.fates|
    && (s.fates[i].Kept? || exists m :: 0 <= m < |s.ctx.inFlight| && s.ctx.inFlight[m].value.job == Some(i))
  }

  /** Over a run that gives no reason to lose anything nothing is lost, from any state with an intra encoder or a whole chain:
      every capture sent to an encoder is stored in the end, intra or inter, key or not. */
  lemma {:induction false} KindRunStoresAll(s: State, events: seq<Event>)
    requires Inv(s) && Flights(s) && Whole(s.ctx) && Run(s, events).Some? && KindRun(s, events)
    ensures var s' := Run(s, events).value; Inv(s') && Flights(s') && Whole(s'.ctx) && KeptOrInFlight(s, s')
    decreases |events|
  {
    if events == [] {
      hide Inv, Flights;
      Nothing(s);
    } else {
      hide Inv, Flights, Enabled, Step, Kind, KeptOrInFlight, Whole;
      var e, s1 := events[0], Step(s, events[0]);
      StepKeeps(s, e);
      StepFlights(s, e);
      KindKeepsWhole(s, e);
      KindStep(s, e);
      KindRunStoresAll(s1, events[1..]);
      KeptOn(s, s1, events[1..]);
    }
  }

  lemma Nothing(s: State)
    requires Inv(s)
    ensures KeptOrInFlight(s, s)
  {
    forall k | 0 <= k < |s.ctx.inFlight| && s.ctx.inFlight[k].value.job.Some?
      ensures StillThere(s, s.ctx.inFlight[k].value.job.value)
    {
      PendingInFlight(s, k);
    }
    hide Inv;
  }

  lemma KeptOn(s: State, s1: State, events: seq<Event>)
    requires Inv(s1) && Run(s1, events).Some? && KeptOrInFlight(s, s1) && KeptOrInFlight(s1, Run(s1, events).value)
    ensures KeptOrInFlight(s, Run(s1, events).value)
  {
    hide Inv, Run;
    var s' := Run(s1, events).value;
    forall k | 0 <= k < |s.ctx.inFlight| && s.ctx.inFlight[k].value.job.Some?
      ensures StillThere(s', s.ctx.inFlight[k].value.job.value)
    {
      var i := s.ctx.inFlight[k].value.job.value;
      if s1.fates[i].Kept? {
        DecidedForGood(s1, events, i);
      }
    }
  }

  /** So from the first frame on: whatever is in flight after a run without such a reason is stored by the time another such
      run has received it. */
  lemma EverythingIsStored(slotCount: nat, cycle: nat, before: seq<Event>, after: seq<Event>)
    requires Run(Start(slotCount, cycle), before).Some? && KindRun(Start(slotCount, cycle), before)
    requires var s := Run(Start(slotCount, cycle), before).value; Run(s, after).Some? && KindRun(s, after)
    ensures var s := Run(Start(slotCount, cycle), before).value;
            Whole(Run(s, after).value.ctx) && KeptOrInFlight(s, Run(s, after).value)
  {
    StartHolds(slotCount, cycle);
    hide Run, KindRun, Inv, KeptOrInFlight;
    KindRunStoresAll(Start(slotCount, cycle), before);
    KindRunStoresAll(Run(Start(slotCount, cycle), before).value, after);
  }

  // --- Runs in which something is lost ---

  ghost predicate NothingDecided(events: seq<Event>) { forall k :: 0 <= k < |events| ==> DecidesNothing(events[k]) }

  /** The oldest frame in flight is what it was; if its chain is the encoder's now, it was before, broken or not as it is. */
  ghost predicate FrontStays(c: Context<Job>, c': Context<Job>) {
    c.inFlight != [] ==>
      && c'.inFlight != [] && SameSent(c.inFlight[0], c'.inFlight[0]) && c'.encoder == c.encoder
      && (c'.chain.chain == c.inFlight[0].value.chain ==> c.chain.chain == c'.chain.chain && c.chain.broken == c'.chain.broken)
  }

  lemma {:induction false} FrontStaysOver(s: State, events: seq<Event>)
    requires Inv(s) && Flights(s) && Run(s, events).Some? && NothingDecided(events)
    ensures var s' := Run(s, events).value; Inv(s') && Flights(s') && FrontStays(s.ctx, s'.ctx)
    decreases |events|
  {
    hide Inv, Flights, Enabled, Step;
    if events != [] {
      assert DecidesNothing(events[0]);
      StepKeeps(s, events[0]);
      StepFlights(s, events[0]);
      JobsStay(s, events[0]);
      assert forall k :: 0 <= k < |events[1..]| ==> events[1..][k] == events[k + 1];
      FrontStaysOver(Step(s, events[0]), events[1..]);
    }
  }

  /** Stored with its packet, so that the next frame can refer to it. */
  predicate StoredAsSent(f: Fate) { f.Kept? && f != KEPT_RAW }

  lemma StepIsStore(s: State, p: Packet, memory: Option<Payload>)
    requires Enabled(s, Receive(p, memory))
    ensures Step(s, Receive(p, memory)) == Store(s, p, memory)
  {
  }

  lemma ConformsIn(s: State, p: Packet, memory: Option<Payload>)
    requires Enabled(s, Receive(p, memory))
    ensures s.ctx.Inter() ==> !p.rawInput
    ensures Store(s, p, memory).ctx.encoder == s.ctx.encoder && Store(s, p, memory).ctx.chain.chain == s.ctx.chain.chain
  {
    hide Wanted;
  }

  /** After the packet of a frame of the chain its inter encoder is on, the chain is whole if and only if that packet was
      stored as it was sent. */
  lemma BrokenIff(s: State, p: Packet, memory: Option<Payload>, i: nat)
    requires Enabled(s, Receive(p, memory)) && s.ctx.inFlight[0].value.job == Some(i) && Inv(s) && Flights(s)
    ensures i < |Store(s, p, memory).fates|
    ensures s.ctx.Inter() && s.ctx.inFlight[0].value.chain == s.ctx.chain.chain ==>
              (Store(s, p, memory).ctx.chain.broken <==> !StoredAsSent(Store(s, p, memory).fates[i]))
  {
    hide Inv, Flights, Wanted, PacketFate, Store, Room, AfterPacket;
    RoomIsMemory(s, memory, i);
    ClosedIn(s);
    StoreShape(s, p, memory, i);
    LostIff(s.ctx, p, memory.Some?);
    ChainAfter(s.ctx, p, memory.Some?);
    PacketStoredIff(s, p, memory, i);
  }

  /** The packet after another of its chain, given memory and making sense, is stored if and only if it is a key, or of an intra
      encoder, or of a chain its encoder has left, or the one before was stored: whatever happens in between. */
  lemma SuccessorStoredIff(s: State, p0: Packet, memory0: Option<Payload>, i0: nat, between: seq<Event>, p1: Packet,
                           memory1: Option<Payload>, i1: nat)
    requires Enabled(s, Receive(p0, memory0)) && |s.ctx.inFlight| > 1 && Inv(s) && Flights(s)
    requires var e0, e1 := s.ctx.inFlight[0].value, s.ctx.inFlight[1].value;
             e0.job == Some(i0) && e1.job == Some(i1) && e0.chain == e1.chain
    requires Run(Store(s, p0, memory0), between).Some? && NothingDecided(between)
    requires var s2 := Run(Store(s, p0, memory0), between).value;
             && Enabled(s2, Receive(p1, memory1)) && memory1.Some? && !Senseless(s2.ctx.inFlight[0].value, p1)
    ensures var s1 := Store(s, p0, memory0);
            var s2 := Run(s1, between).value;
            var s3 := Store(s2, p1, memory1);
            && i0 < |s1.fates| && i1 < |s3.fates|
            && (s3.fates[i1].Kept? <==>
                  p1.key || !s2.ctx.Inter() || s.ctx.inFlight[1].value.chain != s2.ctx.chain.chain || StoredAsSent(s1.fates[i0]))
  {
    hide Inv, Flights, Store, Run, Wanted, PacketFate, Senseless, Conforms;
    var s1 := Store(s, p0, memory0);
    var s2 := Run(s1, between).value;
    ReceivePops(s, p0, memory0);
    BrokenIff(s, p0, memory0, i0);
    ConformsIn(s, p0, memory0);
    StepIsStore(s, p0, memory0);
    hide Step;
    StepKeeps(s, Receive(p0, memory0));
    StepFlights(s, Receive(p0, memory0));
    FrontStaysOver(s1, between);
    PacketStoredIff(s2, p1, memory1, i1);
    hide Enabled;
    assert s1.ctx.inFlight[0] == s.ctx.inFlight[1];
  }

  // --- A broken chain asks for a key ---

  /** A broken chain of the encoder's wants a key, or has one forced on its way. */
  ghost predicate KeyToCome(c: Context<Job>) {
    c.Inter() && c.chain.broken ==>
      c.chain.wantKey || exists k :: 0 <= k < |c.inFlight| && c.inFlight[k].value.chain == c.chain.chain && c.inFlight[k].value.forced
  }

  lemma StepAsksForKey(s: State, e: Event)
    requires Enabled(s, e) && Inv(s) && KeyToCome(s.ctx)
    ensures KeyToCome(Step(s, e).ctx)
  {
    hide Inv, RingRuns.StepRing, AfterSend, Prepared, AfterPacket, CanBegin;
    var c := s.ctx;
    match e
    case Encode(made, newChain, result, sendNs, _) =>
      hide KeyToCome;
      SendAsks(c, made, s.cycle, newChain, result, Some(s.queue[0]), sendNs);
      TakenThen(s, made, newChain, result, sendNs, e.memory);
    case EncodeOther(made, epoch, newChain, result, sendNs) =>
      hide KeyToCome;
      SendAsks(c, made, epoch, newChain, result, None, sendNs);
    case Receive(p, memory) =>
      hide KeyToCome;
      var room :| Step(s, e).ctx == AfterPacket(c, p, room);
      ReceiveAsks(c, p, room);
    case ReturnFrame =>
      if c.Inter() && c.chain.broken && !c.chain.wantKey {
        var k :| 0 <= k < |c.inFlight| && c.inFlight[k].value.chain == c.chain.chain && c.inFlight[k].value.forced;
        assert Returned(c).inFlight[k].value.forced && Returned(c).inFlight[k].value.chain == c.chain.chain;
      }
    case _ =>
  }

  lemma SendAsks(c: Context<Job>, made: Option<Encoder>, epoch: nat, newChain: U32, result: SendResult, job: Job, sendNs: nat)
    requires KeyToCome(c)
    ensures KeyToCome(Prepared(c, made, epoch, newChain))
    ensures KeyToCome(AfterSend(Prepared(c, made, epoch, newChain), result, job, sendNs))
  {
    var before := Prepared(c, made, epoch, newChain);
    var after := AfterSend(before, result, job, sendNs);
    if result.SentOk? && before.Inter() && before.chain.broken {
      var n := |before.inFlight|;
      if before.chain.wantKey {
        assert after.inFlight[n].value.forced;
      } else {
        var k :| 0 <= k < n && before.inFlight[k].value.chain == before.chain.chain && before.inFlight[k].value.forced;
        assert after.inFlight[k] == before.inFlight[k];
      }
    }
  }

  lemma ReceiveAsks(c: Context<Job>, p: Packet, room: bool)
    requires c.encoder.Some? && Expected(c, p) && Conforms(c.encoder.value, c.inFlight[0].value, p) && KeyToCome(c)
    ensures KeyToCome(AfterPacket(c, p, room))
  {
    ChainAfter(c, p, room);
    var after := AfterPacket(c, p, room);
    hide AfterPacket;
    if after.Inter() && after.chain.broken && !after.chain.wantKey {
      var k :| 0 <= k < |c.inFlight| && c.inFlight[k].value.chain == c.chain.chain && c.inFlight[k].value.forced;
      if k > 0 {
        assert after.inFlight[k - 1] == c.inFlight[k];
      }
    }
  }

  /** In every reachable state a broken chain has a key wanted of its next frame, or forced already and still to come; and a
      forced key that finds memory mends it. */
  lemma {:induction false} KeyIsAskedFor(s: State, events: seq<Event>)
    requires Inv(s) && KeyToCome(s.ctx) && Run(s, events).Some?
    ensures KeyToCome(Run(s, events).value.ctx)
    decreases |events|
  {
    hide Inv, Enabled, Step, KeyToCome;
    if events != [] {
      StepKeeps(s, events[0]);
      StepAsksForKey(s, events[0]);
      KeyIsAskedFor(Step(s, events[0]), events[1..]);
    }
  }

  lemma ReachableKeyIsAskedFor(slotCount: nat, cycle: nat, events: seq<Event>)
    requires Run(Start(slotCount, cycle), events).Some?
    ensures KeyToCome(Run(Start(slotCount, cycle), events).value.ctx)
  {
    StartHolds(slotCount, cycle);
    hide Run, Inv;
    KeyIsAskedFor(Start(slotCount, cycle), events);
  }

  /** The forced key itself. */
  lemma ForcedKeyMends(s: State, p: Packet, memory: Option<Payload>)
    requires Enabled(s, Receive(p, memory)) && Inv(s) && Flights(s) && s.ctx.Inter() && s.ctx.inFlight[0].value.job.Some?
    requires s.ctx.inFlight[0].value.forced && s.ctx.inFlight[0].value.chain == s.ctx.chain.chain
    requires p.usable && memory.Some?
    ensures !Store(s, p, memory).ctx.chain.broken
    ensures var i := s.ctx.inFlight[0].value.job.value; i < |s.fates| && Store(s, p, memory).fates[i].Kept?
  {
    PacketStoredIff(s, p, memory, s.ctx.inFlight[0].value.job.value);
    BrokenIff(s, p, memory, s.ctx.inFlight[0].value.job.value);
    hide Inv, Flights, Store;
  }
}
