/** Everything that happens to one delay ring while it records: the graphics thread reserves and submits, worker 0
    sends frames to whatever encoder it has and stores the packets that come out, other workers store intra frames,
    readers pin. Shows that no stored frame ever lacks its reference, and when the due frame can be shown. */
module Recording {
  import opened Words
  import opened Storage
  import opened RingSelect
  import opened FrameWindow
  import opened Encoding
  import RingRuns
  import FrameRing

  /** A frame worker 0 sends: capture i of this ring, or a frame of another ring. */
  type Job = Option<nat>

  /** fates: one for every capture; strays: captures an inter encoder decided after its chain had been left behind;
      queue: submitted and not taken yet; taken: worker 0 only takes captures from here on; cycle: the epoch every
      job of this ring carries. */
  datatype State = State(ring: RingRuns.Ring, nextGeneration: nat, fates: seq<Fate>, strays: set<nat>,
                         queue: seq<nat>, submitted: nat, taken: nat, ctx: Context<Job>, cycle: nat)

  datatype Event =
    | Capture(captureNs: nat, tag: U32)
    | CaptureElsewhere
    | ReaderPins(position: nat)
    | ReaderUnpins(index: nat, generation: nat)
    | Submit(i: nat)
    | TakeElsewhere
    | BeginElsewhere(i: nat)
    | SettleElsewhere(i: nat, wanted: Fate, memory: Option<Payload>)
    | Encode(made: Option<Encoder>, newChain: U32, result: SendResult, sendNs: nat, memory: Option<Payload>)
    | EncodeOther(made: Option<Encoder>, epoch: nat, newChain: U32, result: SendResult, sendNs: nat)
    | ReturnFrame
    | Receive(packet: Packet, memory: Option<Payload>)
    | DropOldest

  function Start(slotCount: nat, cycle: nat): State {
    State(RingRuns.Ring(Empty(slotCount), [], []), 1, [], {}, [], 0, 0, Context(None, NOT_STARTED, [], 0), cycle)
  }

  predicate Known(s: State) {
    Shaped(s.ring.window) && |s.fates| == |s.ring.log|
  }

  // --- What encoders promise (src/storage-codec.hpp) ---

  predicate WellKind(made: Option<Encoder>) {
    made.Some? ==> (made.value.inter <==> InterCodec(made.value.codec))
  }

  /** Packets carry their encoder's codec; a forced key is a key; only a synchronous intra encoder hands the very
      frame back; intra packets are all keys. */
  predicate Conforms(encoder: Encoder, sent: Sent<Job>, p: Packet) {
    && p.codec == encoder.codec
    && (if encoder.inter then !p.rawInput && (sent.forced ==> p.key) else p.key)
  }

  predicate FreshChain(c: Context<Job>, newChain: U32) {
    forall k :: 0 <= k < |c.inFlight| ==> c.inFlight[k].value.chain != newChain
  }

  /** An encoder can be made, or used: the one before lost everything it had in flight when it closed. */
  predicate CanEncode(c: Context<Job>, made: Option<Encoder>, newChain: U32, result: SendResult) {
    && WellKind(made) && FreshChain(c, newChain)
    && (c.encoder.None? ==> c.inFlight == [])
    && (result.SentOk? ==> c.encoder.Some? || made.Some?)
  }

  // --- The steps ---

  function Operate(s: State, e: RingRuns.Event): State
    requires Known(s)
  {
    s.(ring := RingRuns.StepRing(s.ring, e, s.nextGeneration), nextGeneration := s.nextGeneration + 1)
  }

  function Filled(p: Payload, f: Fate): Payload
    requires f.Kept?
  {
    p.(codec := f.codec, key := f.key, chain := f.chain, seqNo := f.seqNo)
  }

  /** The arena had room and the slot of capture i takes the payload. */
  predicate Room(s: State, i: nat, memory: Option<Payload>)
    requires Known(s) && i < |s.fates|
  {
    memory.Some? && CanPublish(s.ring.window, s.ring.log[i].index, s.ring.log[i].generation)
  }

  /** Capture i is decided: stored as wanted if there is room, dropped otherwise. */
  function Settle(s: State, i: nat, wanted: Fate, memory: Option<Payload>): State
    requires Known(s) && i < |s.fates|
  {
    var job := s.ring.log[i];
    var fates := s.fates[i := if wanted.Kept? && Room(s, i, memory) then wanted else Gone];
    if wanted.Kept? && memory.Some? then
      Operate(s, RingRuns.OnPublish(0, job.index, job.generation, Filled(memory.value, wanted))).(fates := fates)
    else
      Operate(s, RingRuns.OnMarkDropped(0, job.index, job.generation)).(fates := fates)
  }

  function Begin(s: State, i: nat): State
    requires Known(s) && i < |s.fates|
  {
    Operate(s, RingRuns.OnBeginEncode(0, s.ring.log[i].index, s.ring.log[i].generation))
  }

  predicate Enabled(s: State, e: Event) {
    Known(s) &&
    match e
    case Submit(i) => s.submitted <= i < |s.fates| && s.fates[i].Pending?
    case TakeElsewhere => s.queue != []
    case BeginElsewhere(i) => i < |s.fates| && s.fates[i].Pending?
    case SettleElsewhere(i, wanted, _) =>
      && i < |s.fates| && s.fates[i].Pending? && i !in s.queue
      && (forall k :: 0 <= k < |s.ctx.inFlight| ==> s.ctx.inFlight[k].value.job != Some(i))
      && !wanted.Pending? && (wanted.Kept? ==> wanted.key && !InterCodec(wanted.codec))
    case Encode(made, newChain, result, _, _) =>
      s.queue != [] && s.queue[0] < |s.fates| && CanEncode(s.ctx, made, newChain, result)
    case EncodeOther(made, epoch, newChain, result, _) =>
      epoch != s.cycle && CanEncode(s.ctx, made, newChain, result)
    case Receive(p, _) =>
      && s.ctx.encoder.Some? && Expected(s.ctx, p)
      && Conforms(s.ctx.encoder.value, s.ctx.inFlight[0].value, p)
      && (s.ctx.inFlight[0].value.job.Some? ==> s.ctx.inFlight[0].value.job.value < |s.fates|)
    case DropOldest =>
      s.ctx.inFlight != [] && s.ctx.inFlight[0].value.job.Some? ==> s.ctx.inFlight[0].value.job.value < |s.fates|
    case _ => true
  }

  function Step(s: State, e: Event): State
    requires Enabled(s, e)
  {
    match e
    case Capture(captureNs, tag) =>
      Operate(s, RingRuns.OnReserve(0, captureNs, tag)).(
        fates := if CanReserve(s.ring.window) then s.fates + [Pending] else s.fates)
    case CaptureElsewhere => s.(nextGeneration := s.nextGeneration + 1)
    case ReaderPins(p) => Operate(s, RingRuns.OnPin(0, p))
    case ReaderUnpins(index, generation) => Operate(s, RingRuns.OnUnpin(0, index, generation))
    case Submit(i) => s.(queue := s.queue + [i], submitted := i + 1)
    case TakeElsewhere => s.(queue := s.queue[1..])
    case BeginElsewhere(i) => Begin(s, i)
    case SettleElsewhere(i, wanted, memory) => Settle(s, i, wanted, memory)
    case Encode(made, newChain, result, sendNs, memory) => EncodeOne(s, made, newChain, result, sendNs, memory)
    case EncodeOther(made, epoch, newChain, result, sendNs) =>
      s.(ctx := AfterSend(Prepared(s.ctx, made, epoch, newChain), result, None, sendNs))
    case ReturnFrame => s.(ctx := Returned(s.ctx))
    case Receive(p, memory) => Store(s, p, memory)
    case DropOldest => DropOne(s)
  }

  /** Worker 0 takes the oldest submitted capture. Superseded: nothing to do. Busy: dropped. Not sent: stored raw. */
  function EncodeOne(s: State, made: Option<Encoder>, newChain: U32, result: SendResult, sendNs: nat,
                     memory: Option<Payload>): State
    requires Known(s) && s.queue != [] && s.queue[0] < |s.fates|
  {
    var i, job := s.queue[0], s.ring.log[s.queue[0]];
    var taken := Begin(s, i).(queue := s.queue[1..], taken := i + 1);
    if !CanBegin(s.ring.window, job.index, job.generation) then taken.(fates := s.fates[i := Gone])
    else
      var sent := taken.(ctx := AfterSend(Prepared(s.ctx, made, s.cycle, newChain), result, Some(i), sendNs));
      match result
      case SentOk => sent
      case Busy => Settle(sent, i, Gone, None)
      case SendFailed => Settle(sent, i, KEPT_RAW, memory)
  }

  function Store(s: State, p: Packet, memory: Option<Payload>): State
    requires Known(s) && Expected(s.ctx, p)
    requires s.ctx.inFlight[0].value.job.Some? ==> s.ctx.inFlight[0].value.job.value < |s.fates|
  {
    match s.ctx.inFlight[0].value.job
    case None => s.(ctx := AfterPacket(s.ctx, p, memory.Some?))
    case Some(i) =>
      Settle(s, i, Wanted(s.ctx, p), memory).(
        ctx := AfterPacket(s.ctx, p, Room(s, i, memory)),
        strays := if s.ctx.Inter() && !Tracked(s.ctx) then s.strays + {i} else s.strays)
  }

  /** An encoder on its way out loses what it has in flight, oldest first. */
  function DropOne(s: State): State
    requires Known(s)
    requires s.ctx.inFlight != [] && s.ctx.inFlight[0].value.job.Some? ==> s.ctx.inFlight[0].value.job.value < |s.fates|
  {
    if s.ctx.inFlight == [] then s.(ctx := s.ctx.(encoder := None))
    else
      var s' := s.(ctx := s.ctx.(encoder := None, inFlight := s.ctx.inFlight[1..]));
      match s.ctx.inFlight[0].value.job
      case None => s'
      case Some(i) => Settle(s', i, Gone, None)
  }

  // --- What holds in every reachable state ---

  ghost predicate Shows(slot: Slot, f: Fate) {
    && (slot.state.Ready? <==> f.Kept?)
    && (f.Kept? ==> AsChainSlot(slot) == ChainSlot(true, f.key, f.chain, f.seqNo, f.codec))
  }

  /** The window shows what became of the latest captures. */
  ghost predicate Mirror(w: Window, fates: seq<Fate>) {
    && |w.slots| <= |fates|
    && forall p :: 0 <= p < |w.slots| ==> Shows(w.slots[p], fates[|fates| - |w.slots| + p])
  }

  ghost predicate Waiting(fates: seq<Fate>, queue: seq<nat>, submitted: nat, taken: nat) {
    && taken <= submitted <= |fates|
    && (forall k :: 0 <= k < |queue| ==> taken <= queue[k] < submitted && fates[queue[k]].Pending?)
    && (forall k, m :: 0 <= k < m < |queue| ==> queue[k] < queue[m])
  }

  type InFlight = seq<Entry<Sent<Job>>>

  /** Captures are in flight in their own order, and undecided. */
  ghost predicate Flying(fates: seq<Fate>, q: InFlight, taken: nat) {
    && taken <= |fates|
    && (forall k :: 0 <= k < |q| && q[k].value.job.Some? ==>
          q[k].value.job.value < taken && fates[q[k].value.job.value].Pending?)
    && (forall k, m :: 0 <= k < m < |q| && q[k].value.job.Some? && q[m].value.job.Some? ==>
          q[k].value.job.value < q[m].value.job.value)
  }

  /** Frames of inter codecs are stored in capture order, by worker 0. */
  ghost predicate Ordered(fates: seq<Fate>, q: InFlight, taken: nat) {
    forall i :: 0 <= i < |fates| && fates[i].Kept? ==>
      && (!fates[i].key ==> InterCodec(fates[i].codec))
      && (InterCodec(fates[i].codec) ==> i < taken && BeforeAll(i, q))
  }

  ghost predicate BeforeAll(i: nat, q: InFlight) {
    forall k :: 0 <= k < |q| && q[k].value.job.Some? ==> i < q[k].value.job.value
  }

  /** The sequence number of the next frame of a chain to be decided. */
  function NextDecided(q: InFlight, chain: U32, nextSeq: nat): nat {
    if q == [] then nextSeq
    else if q[0].value.chain == chain then q[0].seqNo
    else NextDecided(q[1..], chain, nextSeq)
  }

  ghost predicate Consecutive(q: InFlight, chain: U32, nextSeq: nat) {
    q == [] ||
    (&& (q[0].value.chain == chain ==> q[0].seqNo + 1 == NextDecided(q[1..], chain, nextSeq))
     && Consecutive(q[1..], chain, nextSeq))
  }

  /** Frames of the current chain are last in flight, numbered without a gap, and the first of a chain is forced. */
  ghost predicate Tail(c: Context<Job>, cycle: nat) {
    var q, chain, nextSeq := c.inFlight, c.chain.chain, c.chain.nextSeq;
    && Consecutive(q, chain, nextSeq)
    && (forall k, m :: 0 <= k <= m < |q| && q[k].value.chain == chain ==> q[m].value.chain == chain)
    && (forall k :: 0 <= k < |q| && q[k].value.chain == chain ==>
          (q[k].seqNo == 0 ==> q[k].value.forced) && (q[k].value.job.Some? <==> c.epoch == cycle))
    && (nextSeq == 0 ==> c.chain.wantKey)
    && (q != [] && q[0].value.chain != chain ==> NextDecided(q, chain, nextSeq) == 0)
  }

  ghost predicate IsLatest(fates: seq<Fate>, codec: CodecId, j: nat) {
    && j < |fates| && fates[j].Kept? && fates[j].codec == codec
    && forall m :: j < m < |fates| ==> !(fates[m].Kept? && fates[m].codec == codec)
  }

  /** Unless the chain is broken, the frame before the next one to be decided is stored, and the latest of its codec. */
  ghost predicate Mended(c: Context<Job>, fates: seq<Fate>, cycle: nat) {
    var next := NextDecided(c.inFlight, c.chain.chain, c.chain.nextSeq);
    c.epoch == cycle && c.Inter() && !c.chain.broken && next > 0 ==>
      exists j: nat :: IsLatest(fates, c.encoder.value.codec, j)
                  && fates[j].chain == c.chain.chain && fates[j].seqNo == Wrap32(next - 1)
  }

  /** Capture j is what capture i refers to, and nothing of their codec is stored in between. */
  ghost predicate Refers(fates: seq<Fate>, j: nat, i: nat) {
    && j < i < |fates| && fates[j].Kept? && fates[i].Kept?
    && fates[j].codec == fates[i].codec && fates[j].chain == fates[i].chain
    && fates[i].seqNo == NextSeq(fates[j].seqNo)
    && forall m :: j < m < i ==> !(fates[m].Kept? && fates[m].codec == fates[i].codec)
  }

  ghost predicate HasReference(fates: seq<Fate>, i: nat) {
    exists j: nat :: Refers(fates, j, i)
  }

  ghost predicate ChainsClosed(fates: seq<Fate>, strays: set<nat>) {
    forall i :: 0 <= i < |fates| && fates[i].Kept? && !fates[i].key && i !in strays ==> HasReference(fates, i)
  }

  ghost predicate Inv(s: State) {
    && s.nextGeneration > 0 && RingRuns.RingOk(s.ring, s.nextGeneration) && |s.fates| == |s.ring.log|
    && Mirror(s.ring.window, s.fates)
    && Waiting(s.fates, s.queue, s.submitted, s.taken)
    && Flying(s.fates, s.ctx.inFlight, s.taken)
    && Ordered(s.fates, s.ctx.inFlight, s.taken)
    && WellKind(s.ctx.encoder)
    && Tail(s.ctx, s.cycle)
    && Mended(s.ctx, s.fates, s.cycle)
    && ChainsClosed(s.fates, s.strays)
  }

  // --- The ring ---

  lemma OperateKeepsRing(s: State, e: RingRuns.Event)
    requires Known(s) && s.nextGeneration > 0 && RingRuns.RingOk(s.ring, s.nextGeneration)
    ensures var s' := Operate(s, e); RingRuns.RingOk(s'.ring, s'.nextGeneration)
  {
    hide RingRuns.RingOk, RingRuns.StepRing;
    RingRuns.StepKeepsRing(s.ring, e, s.nextGeneration);
  }

  /** A step that leaves what a slot stores. */
  ghost predicate SameView(a: Slot, b: Slot) {
    a.state.Ready? == b.state.Ready? && (a.state.Ready? ==> a.payload == b.payload)
  }

  lemma SameViewsMirror(w: Window, w': Window, fates: seq<Fate>)
    requires Mirror(w, fates) && |w'.slots| == |w.slots|
    requires forall p :: 0 <= p < |w.slots| ==> SameView(w.slots[p], w'.slots[p])
    ensures Mirror(w', fates)
  {
    forall p | 0 <= p < |w'.slots|
      ensures Shows(w'.slots[p], fates[|fates| - |w'.slots| + p])
    {
      assert Shows(w.slots[p], fates[|fates| - |w.slots| + p]);
    }
  }

  lemma CaptureMirrors(w: Window, captureNs: nat, tag: U32, generation: nat, fates: seq<Fate>)
    requires Shaped(w) && Mirror(w, fates)
    ensures Mirror(Reserve(w, captureNs, tag, generation), if CanReserve(w) then fates + [Pending] else fates)
  {
    if CanReserve(w) {
      ReserveSlots(w, captureNs, tag, generation);
      var w', fates' := Reserve(w, captureNs, tag, generation), fates + [Pending];
      hide Reserve;
      forall p | 0 <= p < |w'.slots|
        ensures Shows(w'.slots[p], fates'[|fates'| - |w'.slots| + p])
      {
        if p < |w'.slots| - 1 {
          var q := p + |w.slots| + 1 - |w'.slots|;
          assert Shows(w.slots[q], fates[|fates| - |w.slots| + q]);
        }
      }
    }
  }

  /** The slot of an undecided capture is decided with it, and no other slot changes. */
  lemma SettleMirrors(s: State, i: nat, wanted: Fate, memory: Option<Payload>)
    requires Known(s) && i < |s.fates| && s.fates[i].Pending? && !wanted.Pending?
    requires RingRuns.RingOk(s.ring, s.nextGeneration) && Mirror(s.ring.window, s.fates)
    ensures var s' := Settle(s, i, wanted, memory); Mirror(s'.ring.window, s'.fates)
  {
    RingRuns.JobReaches(s.ring, s.nextGeneration, i);
    hide RingRuns.RingOk;
    var s', w, job := Settle(s, i, wanted, memory), s.ring.window, s.ring.log[i];
    var w' := s'.ring.window;
    var at := Named(w, job.index, job.generation);
    var base := |s.fates| - |w.slots|;
    forall p | 0 <= p < |w'.slots|
      ensures Shows(w'.slots[p], s'.fates[|s'.fates| - |w'.slots| + p])
    {
      assert Shows(w.slots[p], s.fates[base + p]);
      if at == Some(p) {
        assert base + p == i;
      } else {
        assert base + p != i;
        assert w'.slots[p] == w.slots[p];
      }
    }
  }

  // --- Captures in turn ---

  lemma SettleWaits(fates: seq<Fate>, queue: seq<nat>, submitted: nat, taken: nat, i: nat, f: Fate)
    requires Waiting(fates, queue, submitted, taken) && i < |fates| && i !in queue
    ensures Waiting(fates[i := f], queue, submitted, taken)
  {
  }

  lemma SettleFlies(fates: seq<Fate>, q: InFlight, taken: nat, i: nat, f: Fate)
    requires Flying(fates, q, taken) && i < |fates|
    requires forall k :: 0 <= k < |q| ==> q[k].value.job != Some(i)
    ensures Flying(fates[i := f], q, taken)
  {
  }

  /** The oldest frame leaves. */
  lemma PopFlies(fates: seq<Fate>, q: InFlight, taken: nat)
    requires Flying(fates, q, taken) && Ordered(fates, q, taken) && q != []
    ensures Flying(fates, q[1..], taken) && Ordered(fates, q[1..], taken)
    ensures q[0].value.job.Some? ==>
              BeforeAll(q[0].value.job.value, q[1..])
              && forall k :: 0 <= k < |q[1..]| ==> q[1..][k].value.job != q[0].value.job
  {
    forall i | 0 <= i < |fates| && fates[i].Kept? && InterCodec(fates[i].codec)
      ensures BeforeAll(i, q[1..])
    {
      assert BeforeAll(i, q);
    }
  }

  lemma SettleOrders(fates: seq<Fate>, q: InFlight, taken: nat, i: nat, f: Fate)
    requires Ordered(fates, q, taken) && i < |fates|
    requires f.Kept? && !f.key ==> InterCodec(f.codec)
    requires f.Kept? && InterCodec(f.codec) ==> i < taken && BeforeAll(i, q)
    ensures Ordered(fates[i := f], q, taken)
  {
  }

  /** Deciding a capture cuts no reference: it is no reference yet, and it comes after every stored frame of an inter
      codec or is not of such a codec itself. */
  lemma SettleClosed(fates: seq<Fate>, strays: set<nat>, i: nat, f: Fate)
    requires ChainsClosed(fates, strays) && i < |fates| && fates[i].Pending?
    requires forall k :: 0 <= k < |fates| && fates[k].Kept? && !fates[k].key ==> InterCodec(fates[k].codec)
    requires f.Kept? && InterCodec(f.codec) ==>
               forall k :: 0 <= k < |fates| && fates[k].Kept? && InterCodec(fates[k].codec) ==> k < i
    requires f.Kept? && !f.key && i !in strays ==> HasReference(fates[i := f], i)
    ensures ChainsClosed(fates[i := f], strays)
  {
    var fates' := fates[i := f];
    forall k | 0 <= k < |fates'| && fates'[k].Kept? && !fates'[k].key && k !in strays
      ensures HasReference(fates', k)
    {
      if k != i {
        assert HasReference(fates, k);
        var j: nat :| Refers(fates, j, k);
        assert Refers(fates', j, k);
      }
    }
  }

  // --- One encode context ---

  lemma {:induction false} PushNext(q: InFlight, chain: U32, e: Entry<Sent<Job>>)
    requires e.value.chain == chain && Consecutive(q, chain, e.seqNo)
    ensures NextDecided(q + [e], chain, e.seqNo + 1) == NextDecided(q, chain, e.seqNo)
    ensures Consecutive(q + [e], chain, e.seqNo + 1)
    decreases |q|
  {
    if q == [] {
      assert (q + [e])[1..] == [];
    } else {
      PushNext(q[1..], chain, e);
      assert (q + [e])[1..] == q[1..] + [e];
    }
  }

  lemma {:induction false} NoneOfChain(q: InFlight, chain: U32, nextSeq: nat)
    requires forall k :: 0 <= k < |q| ==> q[k].value.chain != chain
    ensures NextDecided(q, chain, nextSeq) == nextSeq && Consecutive(q, chain, nextSeq)
    decreases |q|
  {
    if q != [] {
      NoneOfChain(q[1..], chain, nextSeq);
    }
  }

  lemma PreparedKeeps(c: Context<Job>, made: Option<Encoder>, epoch: nat, newChain: U32, cycle: nat, fates: seq<Fate>)
    requires Tail(c, cycle) && Mended(c, fates, cycle)
    requires FreshChain(c, newChain) && (c.encoder.None? ==> c.inFlight == [])
    ensures var c' := Prepared(c, made, epoch, newChain); Tail(c', cycle) && Mended(c', fates, cycle) && c'.epoch == epoch
    ensures c.encoder.None? ==> !c.Inter()
  {
    NoneOfChain(c.inFlight, newChain, 0);
  }

  lemma SendKeeps(c: Context<Job>, result: SendResult, job: Job, sendNs: nat, cycle: nat, fates: seq<Fate>)
    requires Tail(c, cycle) && Mended(c, fates, cycle) && (job.Some? <==> c.epoch == cycle)
    ensures var c' := AfterSend(c, result, job, sendNs); Tail(c', cycle) && Mended(c', fates, cycle)
  {
    var c' := AfterSend(c, result, job, sendNs);
    if result.SentOk? {
      var e := Entry(c.chain.nextSeq, sendNs, Sent(job, c.chain.chain, c.chain.wantKey, true));
      PushNext(c.inFlight, c.chain.chain, e);
      assert c'.inFlight == c.inFlight + [e];
      if c.inFlight != [] {
        assert (c.inFlight + [e])[0] == c.inFlight[0];
      }
    }
  }

  /** Two lists that agree on chains and numbers. */
  lemma {:induction false} SameNumbers(q: InFlight, q': InFlight, chain: U32, nextSeq: nat)
    requires |q| == |q'| && Consecutive(q, chain, nextSeq)
    requires forall k :: 0 <= k < |q| ==> q'[k].seqNo == q[k].seqNo && q'[k].value.chain == q[k].value.chain
    ensures NextDecided(q', chain, nextSeq) == NextDecided(q, chain, nextSeq) && Consecutive(q', chain, nextSeq)
    decreases |q|
  {
    if q != [] {
      SameNumbers(q[1..], q'[1..], chain, nextSeq);
    }
  }

  lemma ReturnKeeps(c: Context<Job>, cycle: nat, fates: seq<Fate>)
    requires Tail(c, cycle) && Mended(c, fates, cycle)
    ensures Tail(Returned(c), cycle) && Mended(Returned(c), fates, cycle)
  {
    SameNumbers(c.inFlight, Returned(c).inFlight, c.chain.chain, c.chain.nextSeq);
  }

  /** A frame leaves, decided or lost, whatever becomes of the chain's flags. */
  lemma PopTail(c: Context<Job>, c': Context<Job>, cycle: nat)
    requires Tail(c, cycle) && c.inFlight != [] && c'.inFlight == c.inFlight[1..] && c'.epoch == c.epoch
    requires c'.chain.chain == c.chain.chain && c'.chain.nextSeq == c.chain.nextSeq
    requires c.chain.wantKey ==> c'.chain.wantKey
    ensures Tail(c', cycle)
    ensures var q, chain, n := c.inFlight, c.chain.chain, c.chain.nextSeq;
            NextDecided(q[1..], chain, n) == if q[0].value.chain == chain then q[0].seqNo + 1 else 0
  {
    var q, q' := c.inFlight, c'.inFlight;
    if q' != [] && q'[0].value.chain != c.chain.chain {
      assert q[0].value.chain != c.chain.chain;
    }
  }

  lemma AfterPacketShape(c: Context<Job>, p: Packet, room: bool)
    requires Expected(c, p)
    ensures var c' := AfterPacket(c, p, room);
            && c'.inFlight == c.inFlight[1..] && c'.epoch == c.epoch && c'.encoder == c.encoder
            && c'.chain.chain == c.chain.chain && c'.chain.nextSeq == c.chain.nextSeq
            && (c.chain.wantKey ==> c'.chain.wantKey)
            && (Tracked(c) && !c'.chain.broken && (c.Inter() ==> !p.rawInput) ==>
                  PacketFate(c, p, room) == Kept(p.codec, p.key, c.chain.chain, Wrap32(p.seqNo)))
  {
  }

  /** After the packet of capture i, the chain is broken or that packet is stored. */
  lemma PacketMends(c: Context<Job>, p: Packet, room: bool, i: nat, fates: seq<Fate>, taken: nat, cycle: nat)
    requires c.encoder.Some? && Expected(c, p) && Conforms(c.encoder.value, c.inFlight[0].value, p)
    requires Tail(c, cycle) && Flying(fates, c.inFlight, taken) && Ordered(fates, c.inFlight, taken)
    requires WellKind(c.encoder) && c.inFlight[0].value.job == Some(i)
    ensures Mended(AfterPacket(c, p, room), fates[i := PacketFate(c, p, room)], cycle)
  {
    var c', f := AfterPacket(c, p, room), PacketFate(c, p, room);
    AfterPacketShape(c, p, room);
    PopTail(c, c', cycle);
    hide AfterPacket, PacketFate, Wanted, Consecutive, NextDecided;
    if Tracked(c) && !c'.chain.broken {
      LatestNow(fates, c.inFlight, taken, i, f);
      assert IsLatest(fates[i := f], p.codec, i);
    }
  }

  lemma LatestNow(fates: seq<Fate>, q: InFlight, taken: nat, i: nat, f: Fate)
    requires Ordered(fates, q, taken) && i < |fates| && f.Kept? && InterCodec(f.codec)
    requires q != [] && q[0].value.job == Some(i)
    ensures IsLatest(fates[i := f], f.codec, i)
    ensures forall k :: 0 <= k < |fates| && fates[k].Kept? && InterCodec(fates[k].codec) ==> k < i
  {
    forall k | 0 <= k < |fates| && fates[k].Kept? && InterCodec(fates[k].codec)
      ensures k < i
    {
      assert BeforeAll(k, q);
    }
  }

  /** The packet of another ring's frame leaves this ring's chains alone. */
  lemma OtherPacketMends(c: Context<Job>, p: Packet, room: bool, fates: seq<Fate>, cycle: nat)
    requires Expected(c, p) && Tail(c, cycle) && c.inFlight[0].value.job.None?
    ensures Mended(AfterPacket(c, p, room), fates, cycle)
  {
    AfterPacketShape(c, p, room);
    PopTail(c, AfterPacket(c, p, room), cycle);
    hide AfterPacket, Consecutive, NextDecided;
  }

  lemma SeqSteps(s: nat)
    requires s > 0
    ensures Wrap32(s) == NextSeq(Wrap32(s - 1))
  {
  }

  /** A P-frame stored on the current chain refers to the latest stored frame of its codec. */
  lemma PacketHasReference(c: Context<Job>, p: Packet, i: nat, fates: seq<Fate>, taken: nat, cycle: nat)
    requires c.encoder.Some? && Expected(c, p) && Conforms(c.encoder.value, c.inFlight[0].value, p)
    requires Tail(c, cycle) && Mended(c, fates, cycle)
    requires Flying(fates, c.inFlight, taken) && Ordered(fates, c.inFlight, taken)
    requires WellKind(c.encoder) && c.inFlight[0].value.job == Some(i) && Tracked(c)
    requires Wanted(c, p).Kept? && !Wanted(c, p).key
    ensures HasReference(fates[i := Wanted(c, p)], i)
  {
    var f, e := Wanted(c, p), c.inFlight[0];
    assert f == Kept(p.codec, false, c.chain.chain, Wrap32(p.seqNo)) && !c.chain.broken;
    assert NextDecided(c.inFlight, c.chain.chain, c.chain.nextSeq) == p.seqNo > 0;
    hide Wanted, NextDecided, Consecutive;
    SeqSteps(p.seqNo);
    LatestNow(fates, c.inFlight, taken, i, f);
    var j: nat :| IsLatest(fates, p.codec, j) && fates[j].chain == c.chain.chain && fates[j].seqNo == Wrap32(p.seqNo - 1);
    assert Refers(fates[i := f], j, i);
  }

  // --- Every step ---

  lemma SettleKeepsRing(s: State, i: nat, wanted: Fate, memory: Option<Payload>)
    requires Known(s) && i < |s.fates| && s.fates[i].Pending? && !wanted.Pending?
    requires s.nextGeneration > 0 && RingRuns.RingOk(s.ring, s.nextGeneration) && Mirror(s.ring.window, s.fates)
    ensures var s' := Settle(s, i, wanted, memory);
            && RingRuns.RingOk(s'.ring, s'.nextGeneration) && s'.nextGeneration > 0 && Known(s')
            && Mirror(s'.ring.window, s'.fates)
  {
    SettleMirrors(s, i, wanted, memory);
    var job := s.ring.log[i];
    if wanted.Kept? && memory.Some? {
      OperateKeepsRing(s, RingRuns.OnPublish(0, job.index, job.generation, Filled(memory.value, wanted)));
    } else {
      OperateKeepsRing(s, RingRuns.OnMarkDropped(0, job.index, job.generation));
    }
    hide RingRuns.RingOk, Mirror;
  }

  /** What Settle does, apart from the ring. */
  lemma SettleShape(s: State, i: nat, wanted: Fate, memory: Option<Payload>)
    requires Known(s) && i < |s.fates| && !wanted.Pending?
    ensures var s' := Settle(s, i, wanted, memory);
            s' == s.(ring := s'.ring, nextGeneration := s'.nextGeneration,
                     fates := s.fates[i := if Room(s, i, memory) then wanted else Gone])
  {
  }

  /** A step over the ring that stores nothing: begin an encode, pin, unpin. */
  predicate StoresNothing(e: RingRuns.Event) { e.OnBeginEncode? || e.OnPin? || e.OnUnpin? }

  lemma NothingStored(s: State, e: RingRuns.Event)
    requires Known(s) && StoresNothing(e)
    ensures var w, w' := s.ring.window, Operate(s, e).ring.window;
            && |w'.slots| == |w.slots| && Operate(s, e).ring.log == s.ring.log
            && forall p :: 0 <= p < |w.slots| ==> SameView(w.slots[p], w'.slots[p])
  {
  }

  lemma RingStepKeeps(s: State, e: RingRuns.Event)
    requires Inv(s) && StoresNothing(e)
    ensures Inv(Operate(s, e))
  {
    hide RingRuns.StepRing, RingRuns.RingOk, Mirror, Waiting, Flying, Ordered, Tail, Mended, ChainsClosed, SameView;
    assert Shaped(s.ring.window) by { RingIsShaped(s); }
    OperateKeepsRing(s, e);
    NothingStored(s, e);
    SameViewsMirror(s.ring.window, Operate(s, e).ring.window, s.fates);
  }

  lemma RingIsShaped(s: State)
    requires RingRuns.RingOk(s.ring, s.nextGeneration)
    ensures Shaped(s.ring.window)
  {
  }

  lemma CaptureKeeps(s: State, captureNs: nat, tag: U32)
    requires Inv(s)
    ensures Inv(Step(s, Capture(captureNs, tag)))
  {
    var s' := Step(s, Capture(captureNs, tag));
    OperateKeepsRing(s, RingRuns.OnReserve(0, captureNs, tag));
    CaptureMirrors(s.ring.window, captureNs, tag, s.nextGeneration, s.fates);
    hide RingRuns.RingOk, Mirror, Reserve;
    if CanReserve(s.ring.window) {
      GrowKeeps(s);
    }
    hide Waiting, Flying, Ordered, Tail, Mended, ChainsClosed;
  }

  /** One more undecided capture. */
  lemma GrowKeeps(s: State)
    requires Waiting(s.fates, s.queue, s.submitted, s.taken) && Flying(s.fates, s.ctx.inFlight, s.taken)
    requires Ordered(s.fates, s.ctx.inFlight, s.taken) && ChainsClosed(s.fates, s.strays)
    requires Mended(s.ctx, s.fates, s.cycle)
    ensures var fates := s.fates + [Pending];
            && Waiting(fates, s.queue, s.submitted, s.taken) && Flying(fates, s.ctx.inFlight, s.taken)
            && Ordered(fates, s.ctx.inFlight, s.taken) && ChainsClosed(fates, s.strays)
            && Mended(s.ctx, fates, s.cycle)
  {
    var fates := s.fates + [Pending];
    assert Waiting(fates, s.queue, s.submitted, s.taken);
    assert Flying(fates, s.ctx.inFlight, s.taken);
    assert Ordered(fates, s.ctx.inFlight, s.taken) by {
      hide BeforeAll;
    }
    GrowMends(s.ctx, s.fates, s.cycle);
    forall i | 0 <= i < |fates| && fates[i].Kept? && !fates[i].key && i !in s.strays
      ensures HasReference(fates, i)
    {
      assert HasReference(s.fates, i);
      var j: nat :| Refers(s.fates, j, i);
      assert Refers(fates, j, i);
    }
  }

  lemma GrowMends(c: Context<Job>, fates: seq<Fate>, cycle: nat)
    requires Mended(c, fates, cycle)
    ensures Mended(c, fates + [Pending], cycle)
  {
    hide NextDecided;
    var next := NextDecided(c.inFlight, c.chain.chain, c.chain.nextSeq);
    if c.epoch == cycle && c.Inter() && !c.chain.broken && next > 0 {
      var j: nat :| IsLatest(fates, c.encoder.value.codec, j)
                    && fates[j].chain == c.chain.chain && fates[j].seqNo == Wrap32(next - 1);
      assert IsLatest(fates + [Pending], c.encoder.value.codec, j);
    }
  }

  /** A capture decided without its packet -- dropped, or stored raw or as an intra frame: every invariant that
      does not concern the ring. */
  lemma AsideKeeps(s: State, i: nat, f: Fate)
    requires Waiting(s.fates, s.queue, s.submitted, s.taken) && i !in s.queue
    requires Flying(s.fates, s.ctx.inFlight, s.taken) && Ordered(s.fates, s.ctx.inFlight, s.taken)
    requires forall k :: 0 <= k < |s.ctx.inFlight| ==> s.ctx.inFlight[k].value.job != Some(i)
    requires ChainsClosed(s.fates, s.strays) && Mended(s.ctx, s.fates, s.cycle) && WellKind(s.ctx.encoder)
    requires i < |s.fates| && s.fates[i].Pending? && (f.Kept? ==> f.key && !InterCodec(f.codec))
    ensures var fates := s.fates[i := f];
            && Waiting(fates, s.queue, s.submitted, s.taken) && Flying(fates, s.ctx.inFlight, s.taken)
            && Ordered(fates, s.ctx.inFlight, s.taken) && ChainsClosed(fates, s.strays)
            && Mended(s.ctx, fates, s.cycle)
  {
    SettleWaits(s.fates, s.queue, s.submitted, s.taken, i, f);
    SettleFlies(s.fates, s.ctx.inFlight, s.taken, i, f);
    SettleOrders(s.fates, s.ctx.inFlight, s.taken, i, f);
    SettleClosed(s.fates, s.strays, i, f);
    AsideMends(s.ctx, s.fates, s.cycle, i, f);
    hide Waiting, Flying, Ordered, ChainsClosed, Mended;
  }

  lemma AsideMends(c: Context<Job>, fates: seq<Fate>, cycle: nat, i: nat, f: Fate)
    requires Mended(c, fates, cycle) && WellKind(c.encoder)
    requires i < |fates| && fates[i].Pending? && (f.Kept? ==> !InterCodec(f.codec))
    ensures Mended(c, fates[i := f], cycle)
  {
    hide NextDecided;
    var next := NextDecided(c.inFlight, c.chain.chain, c.chain.nextSeq);
    if c.epoch == cycle && c.Inter() && !c.chain.broken && next > 0 {
      var j: nat :| IsLatest(fates, c.encoder.value.codec, j)
                    && fates[j].chain == c.chain.chain && fates[j].seqNo == Wrap32(next - 1);
      assert IsLatest(fates[i := f], c.encoder.value.codec, j);
    }
  }

  lemma SettleAsideKeeps(s: State, i: nat, wanted: Fate, memory: Option<Payload>)
    requires Inv(s) && i < |s.fates| && s.fates[i].Pending? && i !in s.queue && !wanted.Pending?
    requires forall k :: 0 <= k < |s.ctx.inFlight| ==> s.ctx.inFlight[k].value.job != Some(i)
    requires wanted.Kept? ==> wanted.key && !InterCodec(wanted.codec)
    ensures Inv(Settle(s, i, wanted, memory))
  {
    SettleKeepsRing(s, i, wanted, memory);
    SettleShape(s, i, wanted, memory);
    AsideKeeps(s, i, if Room(s, i, memory) then wanted else Gone);
    hide RingRuns.RingOk, Mirror, Waiting, Flying, Ordered, Tail, Mended, ChainsClosed, Settle;
  }

  /** The front of the queue is taken: by another worker (taken stays), or by worker 0 (taken passes it). */
  lemma FrontKeeps(s: State, taken: nat)
    requires Waiting(s.fates, s.queue, s.submitted, s.taken) && s.queue != []
    requires Flying(s.fates, s.ctx.inFlight, s.taken) && Ordered(s.fates, s.ctx.inFlight, s.taken)
    requires taken == s.taken || taken == s.queue[0] + 1
    ensures Waiting(s.fates, s.queue[1..], s.submitted, taken) && s.queue[0] !in s.queue[1..]
    ensures Flying(s.fates, s.ctx.inFlight, taken) && Ordered(s.fates, s.ctx.inFlight, taken)
    ensures forall k :: 0 <= k < |s.ctx.inFlight| ==> s.ctx.inFlight[k].value.job != Some(s.queue[0])
    ensures s.taken <= s.queue[0] < |s.fates| && s.fates[s.queue[0]].Pending?
  {
    hide BeforeAll;
    assert Waiting(s.fates, s.queue[1..], s.submitted, taken);
  }

  lemma TakeKeeps(s: State, taken: nat)
    requires Inv(s) && s.queue != [] && (taken == s.taken || taken == s.queue[0] + 1)
    ensures Inv(s.(queue := s.queue[1..], taken := taken))
    ensures s.queue[0] !in s.queue[1..] && s.taken <= s.queue[0] < |s.fates| && s.fates[s.queue[0]].Pending?
    ensures forall k :: 0 <= k < |s.ctx.inFlight| ==> s.ctx.inFlight[k].value.job != Some(s.queue[0])
  {
    FrontKeeps(s, taken);
    hide RingRuns.RingOk, Mirror, Waiting, Flying, Ordered, Tail, Mended, ChainsClosed;
  }

  lemma SubmitKeeps(s: State, i: nat)
    requires Inv(s) && Enabled(s, Submit(i))
    ensures Inv(Step(s, Submit(i)))
  {
    assert Waiting(s.fates, s.queue + [i], i + 1, s.taken);
    hide RingRuns.RingOk, Mirror, Waiting, Flying, Ordered, Tail, Mended, ChainsClosed;
  }

  lemma MendedIfIntra(c: Context<Job>, fates: seq<Fate>, cycle: nat)
    requires !c.Inter()
    ensures Mended(c, fates, cycle)
  {
  }

  /** Worker 0 sends the frame of the capture it took, which nothing else holds. */
  lemma SendingKeeps(s: State, made: Option<Encoder>, epoch: nat, newChain: U32, result: SendResult, job: Job, sendNs: nat)
    requires Inv(s) && CanEncode(s.ctx, made, newChain, result)
    requires job.Some? <==> epoch == s.cycle
    requires job.Some? ==> job.value < s.taken && s.fates[job.value].Pending? && job.value !in s.queue
    requires job.Some? ==> forall k :: 0 <= k < |s.ctx.inFlight| && s.ctx.inFlight[k].value.job.Some? ==>
                             s.ctx.inFlight[k].value.job.value < job.value
    requires job.Some? ==> forall i :: 0 <= i < |s.fates| && s.fates[i].Kept? && InterCodec(s.fates[i].codec) ==> i < job.value
    ensures Inv(s.(ctx := AfterSend(Prepared(s.ctx, made, epoch, newChain), result, job, sendNs)))
  {
    var c1 := Prepared(s.ctx, made, epoch, newChain);
    PreparedKeeps(s.ctx, made, epoch, newChain, s.cycle, s.fates);
    SendKeeps(c1, result, job, sendNs, s.cycle, s.fates);
    var c2 := AfterSend(c1, result, job, sendNs);
    assert WellKind(c2.encoder) && c1.inFlight == s.ctx.inFlight;
    assert Flying(s.fates, c2.inFlight, s.taken) && Ordered(s.fates, c2.inFlight, s.taken) by {
      if result.SentOk? {
        var e := Entry(c1.chain.nextSeq, sendNs, Sent(job, c1.chain.chain, c1.chain.wantKey, true));
        assert c2.inFlight == s.ctx.inFlight + [e];
        AppendFlies(s.fates, s.ctx.inFlight, s.taken, e);
      }
    }
    hide RingRuns.RingOk, Mirror, Waiting, Flying, Ordered, Tail, Mended, ChainsClosed, AfterSend, Prepared;
  }

  lemma AppendFlies(fates: seq<Fate>, q: InFlight, taken: nat, e: Entry<Sent<Job>>)
    requires Flying(fates, q, taken) && Ordered(fates, q, taken)
    requires e.value.job.Some? ==> e.value.job.value < taken && fates[e.value.job.value].Pending?
    requires e.value.job.Some? ==> forall k :: 0 <= k < |q| && q[k].value.job.Some? ==> q[k].value.job.value < e.value.job.value
    requires e.value.job.Some? ==>
               forall i :: 0 <= i < |fates| && fates[i].Kept? && InterCodec(fates[i].codec) ==> i < e.value.job.value
    ensures Flying(fates, q + [e], taken) && Ordered(fates, q + [e], taken)
  {
    forall i | 0 <= i < |fates| && fates[i].Kept? && InterCodec(fates[i].codec)
      ensures BeforeAll(i, q + [e])
    {
      assert BeforeAll(i, q);
    }
  }

  lemma StaleMirrors(w: Window, w': Window, fates: seq<Fate>, i: nat)
    requires Mirror(w, fates) && w'.slots == w.slots && i < |fates| && fates[i].Pending?
    ensures Mirror(w', fates[i := Gone])
  {
    forall p | 0 <= p < |w.slots|
      ensures Shows(w.slots[p], fates[i := Gone][|fates| - |w.slots| + p])
    {
      assert Shows(w.slots[p], fates[|fates| - |w.slots| + p]);
    }
  }

  /** Worker 0 took the front capture, whose slot moved on meanwhile. */
  lemma SupersededKeeps(s: State, i: nat)
    requires Inv(s) && i < |s.fates| && s.fates[i].Pending? && i !in s.queue
    requires forall k :: 0 <= k < |s.ctx.inFlight| ==> s.ctx.inFlight[k].value.job != Some(i)
    ensures Inv(s.(fates := s.fates[i := Gone]))
  {
    StaleMirrors(s.ring.window, s.ring.window, s.fates, i);
    AsideKeeps(s, i, Gone);
    hide RingRuns.RingOk, Mirror, Waiting, Flying, Ordered, Tail, Mended, ChainsClosed;
  }

  function Taken(s: State): State
    requires Known(s) && s.queue != [] && s.queue[0] < |s.fates|
  {
    Begin(s, s.queue[0]).(queue := s.queue[1..], taken := s.queue[0] + 1)
  }

  /** Worker 0 has taken capture i: nothing else holds it, and all it has in flight comes before. */
  ghost predicate OnlyAtHand(fates: seq<Fate>, queue: seq<nat>, q: InFlight, taken: nat, i: nat) {
    && i < taken <= |fates| && fates[i].Pending? && i !in queue
    && (forall k :: 0 <= k < |q| && q[k].value.job.Some? ==> q[k].value.job.value < i)
    && (forall k :: 0 <= k < |fates| && fates[k].Kept? && InterCodec(fates[k].codec) ==> k < i)
  }

  lemma FrontAtHand(s: State)
    requires Waiting(s.fates, s.queue, s.submitted, s.taken) && s.queue != []
    requires Flying(s.fates, s.ctx.inFlight, s.taken) && Ordered(s.fates, s.ctx.inFlight, s.taken)
    ensures OnlyAtHand(s.fates, s.queue[1..], s.ctx.inFlight, s.queue[0] + 1, s.queue[0])
  {
    FrontKeeps(s, s.queue[0] + 1);
    NothingAhead(s);
    hide Waiting, Flying, Ordered;
  }

  lemma TakenKeeps(s: State)
    requires Inv(s) && Known(s) && s.queue != [] && s.queue[0] < |s.fates|
    ensures Inv(Taken(s)) && OnlyAtHand(s.fates, s.queue[1..], s.ctx.inFlight, s.queue[0] + 1, s.queue[0])
  {
    hide RingRuns.RingOk, RingRuns.StepRing, Mirror, Waiting, Flying, Ordered, Tail, Mended, ChainsClosed, OnlyAtHand;
    var i := s.queue[0];
    FrontAtHand(s);
    TakeKeeps(s, i + 1);
    RingStepKeeps(s.(queue := s.queue[1..], taken := i + 1),
                  RingRuns.OnBeginEncode(0, s.ring.log[i].index, s.ring.log[i].generation));
  }

  lemma SentOrSettledKeeps(s: State, i: nat, made: Option<Encoder>, newChain: U32, result: SendResult, sendNs: nat,
                           memory: Option<Payload>)
    requires Inv(s) && OnlyAtHand(s.fates, s.queue, s.ctx.inFlight, s.taken, i) && CanEncode(s.ctx, made, newChain, result)
    ensures var sent := s.(ctx := AfterSend(Prepared(s.ctx, made, s.cycle, newChain), result, Some(i), sendNs));
            && Inv(sent)
            && (result.Busy? ==> Inv(Settle(sent, i, Gone, None)))
            && (result.SendFailed? ==> Inv(Settle(sent, i, KEPT_RAW, memory)))
  {
    hide RingRuns.RingOk, Mirror, Waiting, Flying, Ordered, Tail, Mended, ChainsClosed, Settle;
    SendingKeeps(s, made, s.cycle, newChain, result, Some(i), sendNs);
    SameFlight(s.ctx, made, s.cycle, newChain, result, Some(i), sendNs);
    var sent := s.(ctx := AfterSend(Prepared(s.ctx, made, s.cycle, newChain), result, Some(i), sendNs));
    hide AfterSend, Prepared;
    if result.Busy? {
      SettleAsideKeeps(sent, i, Gone, None);
    } else if result.SendFailed? {
      SettleAsideKeeps(sent, i, KEPT_RAW, memory);
    }
  }

  lemma EncodeKeeps(s: State, made: Option<Encoder>, newChain: U32, result: SendResult, sendNs: nat, memory: Option<Payload>)
    requires Inv(s) && Known(s) && s.queue != [] && s.queue[0] < |s.fates| && CanEncode(s.ctx, made, newChain, result)
    ensures Inv(EncodeOne(s, made, newChain, result, sendNs, memory))
  {
    TakenKeeps(s);
    hide RingRuns.RingOk, Mirror, Waiting, Flying, Ordered, Tail, Mended, ChainsClosed, RingRuns.StepRing, Settle, CanBegin,
         AfterSend, Prepared, Inv, CanEncode, Room;
    if CanBegin(s.ring.window, s.ring.log[s.queue[0]].index, s.ring.log[s.queue[0]].generation) {
      SentOrSettledKeeps(Taken(s), s.queue[0], made, newChain, result, sendNs, memory);
    } else {
      SupersededKeeps(Taken(s), s.queue[0]);
    }
  }

  lemma SameFlight(c: Context<Job>, made: Option<Encoder>, epoch: nat, newChain: U32, result: SendResult, job: Job, sendNs: nat)
    ensures !result.SentOk? ==> AfterSend(Prepared(c, made, epoch, newChain), result, job, sendNs).inFlight == c.inFlight
  {
  }

  /** Everything worker 0 has in flight or has stored of an inter codec comes before the front of the queue. */
  lemma NothingAhead(s: State)
    requires Waiting(s.fates, s.queue, s.submitted, s.taken) && s.queue != []
    requires Flying(s.fates, s.ctx.inFlight, s.taken) && Ordered(s.fates, s.ctx.inFlight, s.taken)
    ensures forall k :: 0 <= k < |s.ctx.inFlight| && s.ctx.inFlight[k].value.job.Some? ==>
              s.ctx.inFlight[k].value.job.value < s.queue[0]
    ensures forall i :: 0 <= i < |s.fates| && s.fates[i].Kept? && InterCodec(s.fates[i].codec) ==> i < s.queue[0]
  {
    hide BeforeAll;
  }

  lemma WantedShape(c: Context<Job>, p: Packet)
    requires c.encoder.Some? && Expected(c, p) && Conforms(c.encoder.value, c.inFlight[0].value, p) && WellKind(c.encoder)
    ensures var f := Wanted(c, p);
            !f.Pending? && (f.Kept? && !f.key ==> c.Inter() && InterCodec(f.codec))
  {
  }

  lemma StoreKeeps(s: State, p: Packet, memory: Option<Payload>)
    requires Inv(s) && Enabled(s, Receive(p, memory))
    ensures Inv(Store(s, p, memory))
  {
    var c := s.ctx;
    var job := c.inFlight[0].value.job;
    PopFlies(s.fates, c.inFlight, s.taken);
    WantedShape(c, p);
    if job.None? {
      AfterPacketShape(c, p, memory.Some?);
      OtherPacketMends(c, p, memory.Some?, s.fates, s.cycle);
      PopTail(c, AfterPacket(c, p, memory.Some?), s.cycle);
      hide RingRuns.RingOk, Mirror, Waiting, Flying, Ordered, Tail, Mended, ChainsClosed, AfterPacket;
    } else {
      assert s.fates[job.value].Pending?;
      SettleKeepsRing(s, job.value, Wanted(c, p), memory);
      SettleShape(s, job.value, Wanted(c, p), memory);
      var room := Room(s, job.value, memory);
      AfterPacketShape(c, p, room);
      PopTail(c, AfterPacket(c, p, room), s.cycle);
      PacketMends(c, p, room, job.value, s.fates, s.taken, s.cycle);
      StoredKeeps(s, p, room, job.value);
      hide RingRuns.RingOk, Mirror, Waiting, Flying, Ordered, Tail, Mended, ChainsClosed, AfterPacket, Settle, Wanted, Room;
    }
  }

  lemma StoredKeeps(s: State, p: Packet, room: bool, i: nat)
    requires Inv(s) && s.ctx.encoder.Some? && Expected(s.ctx, p) && s.ctx.inFlight[0].value.job == Some(i) && i < |s.fates|
    requires Conforms(s.ctx.encoder.value, s.ctx.inFlight[0].value, p)
    ensures var fates := s.fates[i := PacketFate(s.ctx, p, room)];
            var strays := if s.ctx.Inter() && !Tracked(s.ctx) then s.strays + {i} else s.strays;
            && Waiting(fates, s.queue, s.submitted, s.taken) && Flying(fates, s.ctx.inFlight[1..], s.taken)
            && Ordered(fates, s.ctx.inFlight[1..], s.taken) && ChainsClosed(fates, strays)
  {
    var c, f := s.ctx, PacketFate(s.ctx, p, room);
    var strays := if s.ctx.Inter() && !Tracked(s.ctx) then s.strays + {i} else s.strays;
    WantedShape(c, p);
    PopFlies(s.fates, c.inFlight, s.taken);
    assert i < s.taken && s.fates[i].Pending? && i !in s.queue;
    SettleWaits(s.fates, s.queue, s.submitted, s.taken, i, f);
    SettleFlies(s.fates, c.inFlight[1..], s.taken, i, f);
    SettleOrders(s.fates, c.inFlight[1..], s.taken, i, f);
    assert ChainsClosed(s.fates, strays);
    if f.Kept? && InterCodec(f.codec) {
      LatestNow(s.fates, c.inFlight, s.taken, i, f);
    }
    if f.Kept? && !f.key && Tracked(c) {
      PacketHasReference(c, p, i, s.fates, s.taken, s.cycle);
    }
    SettleClosed(s.fates, strays, i, f);
    hide Waiting, Flying, Ordered, ChainsClosed;
  }

  lemma DropKeeps(s: State)
    requires Inv(s) && Enabled(s, DropOldest)
    ensures Inv(DropOne(s))
  {
    var c' := s.ctx.(encoder := None, inFlight := if s.ctx.inFlight == [] then [] else s.ctx.inFlight[1..]);
    var s' := s.(ctx := c');
    MendedIfIntra(c', s.fates, s.cycle);
    if s.ctx.inFlight != [] {
      PopFlies(s.fates, s.ctx.inFlight, s.taken);
      PopTail(s.ctx, c', s.cycle);
      NothingElseHolds(s);
    }
    hide RingRuns.RingOk, Mirror, Waiting, Flying, Ordered, Tail, Mended, ChainsClosed, Settle;
    assert Inv(s');
    if s.ctx.inFlight != [] && s.ctx.inFlight[0].value.job.Some? {
      SettleAsideKeeps(s', s.ctx.inFlight[0].value.job.value, Gone, None);
    }
  }

  lemma NothingElseHolds(s: State)
    requires Waiting(s.fates, s.queue, s.submitted, s.taken) && Flying(s.fates, s.ctx.inFlight, s.taken)
    requires s.ctx.inFlight != []
    ensures var job := s.ctx.inFlight[0].value.job;
            job.Some? ==> job.value < |s.fates| && s.fates[job.value].Pending? && job.value !in s.queue
  {
  }

  lemma ReturnFrameKeeps(s: State)
    requires Inv(s)
    ensures Inv(s.(ctx := Returned(s.ctx)))
  {
    var q, q' := s.ctx.inFlight, Returned(s.ctx).inFlight;
    ReturnKeeps(s.ctx, s.cycle, s.fates);
    assert |q'| == |q| && forall k :: 0 <= k < |q| ==> q'[k].value.job == q[k].value.job;
    assert Flying(s.fates, q', s.taken);
    forall i | 0 <= i < |s.fates| && s.fates[i].Kept? && InterCodec(s.fates[i].codec)
      ensures BeforeAll(i, q')
    {
      assert BeforeAll(i, q);
    }
    hide RingRuns.RingOk, Mirror, Waiting, Flying, Tail, Mended, ChainsClosed;
  }

  lemma StepKeeps(s: State, e: Event)
    requires Inv(s) && Enabled(s, e)
    ensures Inv(Step(s, e))
  {
    match e
    case Capture(captureNs, tag) => CaptureKeeps(s, captureNs, tag);
    case CaptureElsewhere => ElsewhereKeeps(s);
    case ReaderPins(p) => RingStepKeeps(s, RingRuns.OnPin(0, p));
    case ReaderUnpins(index, generation) => RingStepKeeps(s, RingRuns.OnUnpin(0, index, generation));
    case Submit(i) => SubmitKeeps(s, i);
    case TakeElsewhere => TakeKeeps(s, s.taken);
    case BeginElsewhere(i) => RingStepKeeps(s, RingRuns.OnBeginEncode(0, s.ring.log[i].index, s.ring.log[i].generation));
    case SettleElsewhere(i, wanted, memory) => SettleAsideKeeps(s, i, wanted, memory);
    case Encode(made, newChain, result, sendNs, memory) => EncodeKeeps(s, made, newChain, result, sendNs, memory);
    case EncodeOther(made, epoch, newChain, result, sendNs) =>
      SendingKeeps(s, made, epoch, newChain, result, None, sendNs);
    case ReturnFrame => ReturnFrameKeeps(s);
    case Receive(p, memory) => StoreKeeps(s, p, memory);
    case DropOldest => DropKeeps(s);
  }

  lemma ElsewhereKeeps(s: State)
    requires Inv(s)
    ensures Inv(s.(nextGeneration := s.nextGeneration + 1))
  {
    hide Mirror, Waiting, Flying, Ordered, Tail, Mended, ChainsClosed;
    RingRuns.LaterRingOk(s.ring, s.nextGeneration);
  }

  // --- Whole runs ---

  /** The state a run of steps leads to, if every step is one that can happen. */
  function Run(s: State, events: seq<Event>): Option<State>
    decreases |events|
  {
    if events == [] then Some(s)
    else if Enabled(s, events[0]) then Run(Step(s, events[0]), events[1..])
    else None
  }

  lemma {:induction false} RunKeeps(s: State, events: seq<Event>)
    requires Inv(s) && Run(s, events).Some?
    ensures Inv(Run(s, events).value)
    decreases |events|
  {
    hide Inv, Enabled, Step;
    if events != [] {
      StepKeeps(s, events[0]);
      RunKeeps(Step(s, events[0]), events[1..]);
    }
  }

  lemma StartHolds(slotCount: nat, cycle: nat)
    ensures Inv(Start(slotCount, cycle))
  {
    RingRuns.EmptyRingOk(slotCount, 1);
  }

  /** Whatever is sent, refused, lost, superseded, closed or stored in between: every P-frame stored on the chain its
      encoder was on has its reference stored, and no frame of their codec comes between the two. */
  lemma StoredChainsAreClosed(slotCount: nat, cycle: nat, events: seq<Event>, i: nat)
    requires Run(Start(slotCount, cycle), events).Some?
    requires var s := Run(Start(slotCount, cycle), events).value;
             i < |s.fates| && s.fates[i].Kept? && !s.fates[i].key && i !in s.strays
    ensures var s := Run(Start(slotCount, cycle), events).value;
            exists j: nat :: Refers(s.fates, j, i)
  {
    StartHolds(slotCount, cycle);
    RunKeeps(Start(slotCount, cycle), events);
    hide Run;
    assert HasReference(Run(Start(slotCount, cycle), events).value.fates, i);
  }

  /** Each capture is decided once and for all. */
  lemma {:induction false} DecidedForGood(s: State, events: seq<Event>, i: nat)
    requires Inv(s) && Run(s, events).Some? && i < |s.fates| && !s.fates[i].Pending?
    ensures i < |Run(s, events).value.fates| && Run(s, events).value.fates[i] == s.fates[i]
    decreases |events|
  {
    if events != [] {
      StepKeeps(s, events[0]);
      StepDecides(s, events[0], i);
      DecidedForGood(Step(s, events[0]), events[1..], i);
    }
  }

  lemma StepDecides(s: State, e: Event, i: nat)
    requires Inv(s) && Enabled(s, e) && i < |s.fates| && !s.fates[i].Pending?
    ensures i < |Step(s, e).fates| && Step(s, e).fates[i] == s.fates[i]
  {
    hide RingRuns.RingOk, Mirror, Ordered, Tail, Mended, ChainsClosed;
  }

  /** Until worker 0 takes a frame of another ring, nothing strays. */
  ghost predicate OnCourse(s: State) {
    && s.strays == {}
    && (s.ctx.encoder.Some? ==> s.ctx.epoch == s.cycle)
    && forall k :: 0 <= k < |s.ctx.inFlight| ==> s.ctx.inFlight[k].value.chain == s.ctx.chain.chain
  }

  lemma StepStaysOnCourse(s: State, e: Event)
    requires OnCourse(s) && Enabled(s, e) && !e.EncodeOther?
    ensures OnCourse(Step(s, e))
  {
  }

  lemma {:induction false} RunStaysOnCourse(s: State, events: seq<Event>)
    requires OnCourse(s) && Run(s, events).Some?
    requires forall k :: 0 <= k < |events| ==> !events[k].EncodeOther?
    ensures OnCourse(Run(s, events).value)
    decreases |events|
  {
    if events != [] {
      StepStaysOnCourse(s, events[0]);
      RunStaysOnCourse(Step(s, events[0]), events[1..]);
    }
  }

  // --- What playback finds ---

  /** The frame at position p refers to the Ready frame of its codec right before it, if the window holds one. */
  ghost predicate ClosedAt(slots: seq<ChainSlot>, p: nat)
    requires p < |slots|
  {
    forall q :: 0 <= q < p && SameCodec(slots, q, slots[p].codec)
                && (forall m :: q < m < p ==> !SameCodec(slots, m, slots[p].codec)) ==>
      slots[q].chain == slots[p].chain && slots[p].seqNo == NextSeq(slots[q].seqNo)
  }

  lemma ReferenceInWindow(w: Window, fates: seq<Fate>, p: nat)
    requires Mirror(w, fates) && p < |w.slots|
    requires w.slots[p].state.Ready? && HasReference(fates, |fates| - |w.slots| + p)
    ensures ClosedAt(ChainSlots(w), p)
  {
    var slots, base := ChainSlots(w), |fates| - |w.slots|;
    var j: nat :| Refers(fates, j, base + p);
    assert Shows(w.slots[p], fates[base + p]);
    forall q | 0 <= q < p && SameCodec(slots, q, slots[p].codec)
               && (forall m :: q < m < p ==> !SameCodec(slots, m, slots[p].codec))
      ensures slots[q].chain == slots[p].chain && slots[p].seqNo == NextSeq(slots[q].seqNo)
    {
      assert Shows(w.slots[q], fates[base + q]);
      if base + q < j {
        assert Shows(w.slots[j - base], fates[base + (j - base)]);
        assert SameCodec(slots, j - base, slots[p].codec);
      }
      assert j == base + q;
    }
  }

  /** Every P-frame of the due frame's codec up to due has its reference where it should be. */
  ghost predicate AllClosed(slots: seq<ChainSlot>, due: nat)
    requires due < |slots|
  {
    forall p :: 0 <= p <= due && SameCodec(slots, p, slots[due].codec) && !slots[p].key ==> ClosedAt(slots, p)
  }

  /** The walk back from due has come to position lo; the lowest frame it passed is at position first. */
  ghost predicate CameTo(slots: seq<ChainSlot>, lo: nat, first: nat, due: nat, catchUp: nat)
    requires due < |slots|
  {
    && lo <= first <= due && Walked(slots, lo, due, catchUp, slots[first].seqNo)
    && SameCodec(slots, first, slots[due].codec) && slots[first].chain == slots[due].chain
    && forall m :: lo <= m < first ==> !SameCodec(slots, m, slots[due].codec)
  }

  lemma CameToReference(slots: seq<ChainSlot>, lo: nat, first: nat, due: nat, catchUp: nat)
    requires 0 < lo && due < |slots| && CameTo(slots, lo, first, due, catchUp) && AllClosed(slots, due)
    requires SameCodec(slots, lo - 1, slots[due].codec)
    ensures slots[lo - 1].chain == slots[due].chain && slots[lo - 1].seqNo == PrevSeq(slots[first].seqNo)
  {
    assert ClosedAt(slots, first) && !slots[first].key by {
      hide Linked, CountCodec;
    }
    hide Walked, AllClosed;
    assert slots[first].seqNo == NextSeq(slots[lo - 1].seqNo);
  }

  lemma OneFurther(slots: seq<ChainSlot>, lo: nat, first: nat, due: nat, catchUp: nat)
    requires 0 < lo && due < |slots| && CameTo(slots, lo, first, due, catchUp) && AllClosed(slots, due)
    ensures lo <= due
    ensures !SameCodec(slots, lo - 1, slots[due].codec) ==> CameTo(slots, lo - 1, first, due, catchUp)
    ensures SameCodec(slots, lo - 1, slots[due].codec) && slots[lo - 1].key ==> DecodableFrom(slots, lo - 1, due)
    ensures SameCodec(slots, lo - 1, slots[due].codec) && !slots[lo - 1].key ==>
              CameTo(slots, lo - 1, lo - 1, due, catchUp + 1)
  {
    if SameCodec(slots, lo - 1, slots[due].codec) {
      CameToReference(slots, lo, first, due, catchUp);
      WalkBack(slots, lo, due, catchUp, slots[first].seqNo);
    } else {
      WalkPast(slots, lo, due, catchUp, slots[first].seqNo);
    }
    hide Walked, AllClosed, DecodableFrom;
  }

  lemma {:induction false} BackToKey(slots: seq<ChainSlot>, lo: nat, first: nat, due: nat, catchUp: nat, key: nat)
    requires due < |slots| && CameTo(slots, lo, first, due, catchUp) && AllClosed(slots, due)
    requires key < lo && SameCodec(slots, key, slots[due].codec) && slots[key].key
    ensures exists k: nat :: k <= due && DecodableFrom(slots, k, due)
    decreases lo
  {
    hide AllClosed, DecodableFrom, ClosedAt, CountCodec, Linked, Walked, CameTo;
    OneFurther(slots, lo, first, due, catchUp);
    if !SameCodec(slots, lo - 1, slots[due].codec) {
      BackToKey(slots, lo - 1, first, due, catchUp, key);
    } else if !slots[lo - 1].key {
      BackToKey(slots, lo - 1, lo - 1, due, catchUp + 1, key);
    }
  }

  lemma KeyMakesDecodable(slots: seq<ChainSlot>, due: nat, key: nat)
    requires key <= due < |slots| && slots[due].ready
    requires SameCodec(slots, key, slots[due].codec) && slots[key].key
    requires AllClosed(slots, due)
    ensures exists k: nat :: k <= due && DecodableFrom(slots, k, due)
  {
    hide CameTo, AllClosed, Walked;
    if slots[due].key {
      hide CountCodec;
      assert DecodableFrom(slots, due, due);
    } else {
      hide DecodableFrom;
      WalkBegins(slots, due);
      BackToKey(slots, due, due, due, 0, key);
    }
  }

  lemma WalkBegins(slots: seq<ChainSlot>, due: nat)
    requires due < |slots| && slots[due].ready && !slots[due].key
    ensures CameTo(slots, due, due, due, 0)
  {
    assert CountCodec(slots, slots[due].codec, due + 1, due + 1) == 0;
    assert CountCodec(slots, slots[due].codec, due, due + 1) == 1;
    assert Linked(slots, due, due) by { hide CountCodec; }
    hide CountCodec, Linked;
  }

  /** In every reachable state, a stored frame can be shown exactly when the window still holds a key of its codec at
      or before it: nothing else that happened while recording can get in the way. */
  lemma ShownIffKeyHeld(slotCount: nat, cycle: nat, events: seq<Event>, due: nat)
    requires Run(Start(slotCount, cycle), events).Some?
    requires var s := Run(Start(slotCount, cycle), events).value;
             && due < |s.ring.window.slots| && s.ring.window.slots[due].state.Ready?
             && forall i :: i in s.strays ==> !(0 <= i - (|s.fates| - |s.ring.window.slots|) <= due)
    ensures var slots := ChainSlots(Run(Start(slotCount, cycle), events).value.ring.window);
            (exists k: nat :: k <= due && DecodableFrom(slots, k, due))
            <==> (exists k: nat :: k <= due && SameCodec(slots, k, slots[due].codec) && slots[k].key)
  {
    StartHolds(slotCount, cycle);
    RunKeeps(Start(slotCount, cycle), events);
    var s := Run(Start(slotCount, cycle), events).value;
    hide Run, Start;
    var slots := ChainSlots(s.ring.window);
    WindowClosed(s, due);
    hide Inv, AllClosed;
    if k: nat :| k <= due && SameCodec(slots, k, slots[due].codec) && slots[k].key {
      KeyMakesDecodable(slots, due, k);
    }
  }

  /** So the plan playback asks the ring for, at any time and for any target, has a start exactly then. */
  lemma PlanFoundIffKeyHeld(slotCount: nat, cycle: nat, events: seq<Event>, targetNs: nat, maxBack: nat, decodeNs: nat,
                            intervalNs: nat, plan: FrameRing.DecodePlan)
    requires Run(Start(slotCount, cycle), events).Some?
    requires Run(Start(slotCount, cycle), events).value.strays == {}
    requires FrameRing.PlanMeets(Run(Start(slotCount, cycle), events).value.ring.window, targetNs, maxBack, decodeNs,
                                 intervalNs, plan)
    ensures var w := Run(Start(slotCount, cycle), events).value.ring.window;
            var slots, due := ChainSlots(w), DisplayPosition(CaptureTimes(w), ReadySlots(w), targetNs, maxBack);
            due < |w.slots| ==>
              (plan.found <==> exists k: nat :: k <= due && SameCodec(slots, k, slots[due].codec) && slots[k].key)
  {
    StartHolds(slotCount, cycle);
    RunKeeps(Start(slotCount, cycle), events);
    var s := Run(Start(slotCount, cycle), events).value;
    var w := s.ring.window;
    WindowInOrder(s.ring, s.nextGeneration);
    hide Run, Start, Inv;
    DisplayPositionIsNewest(CaptureTimes(w), ReadySlots(w), targetNs, maxBack);
    var due := DisplayPosition(CaptureTimes(w), ReadySlots(w), targetNs, maxBack);
    hide DisplayPosition;
    if due < |w.slots| {
      ShownIffKeyHeld(slotCount, cycle, events, due);
    }
  }

  lemma WindowInOrder(r: RingRuns.Ring, nextGeneration: nat)
    requires RingRuns.RingOk(r, nextGeneration)
    ensures NonDecreasing(CaptureTimes(r.window))
  {
  }

  lemma WindowClosed(s: State, due: nat)
    requires Mirror(s.ring.window, s.fates) && ChainsClosed(s.fates, s.strays) && due < |s.ring.window.slots|
    requires forall i :: i in s.strays ==> !(0 <= i - (|s.fates| - |s.ring.window.slots|) <= due)
    ensures AllClosed(ChainSlots(s.ring.window), due)
  {
    var w, slots, base := s.ring.window, ChainSlots(s.ring.window), |s.fates| - |s.ring.window.slots|;
    forall p | 0 <= p <= due && SameCodec(slots, p, slots[due].codec) && !slots[p].key
      ensures ClosedAt(slots, p)
    {
      assert Shows(w.slots[p], s.fates[base + p]);
      assert HasReference(s.fates, base + p);
      hide Mirror, HasReference, ChainsClosed;
      ReferenceInWindow(w, s.fates, p);
    }
  }

  // --- What the code does not promise ---

  const HARDWARE := Encoder(true, H264)

  /** Two captures of one ring go to an inter encoder; then it takes a frame of the next cycle, on a new chain. The
      arena has no room for the key of the first cycle, and still the P-frame behind it is stored. */
  function LeftBehind(memory: Payload): seq<Event> {
    [Capture(10, 0), Capture(20, 0), Submit(0), Submit(1),
     Encode(Some(HARDWARE), 7, SentOk, 10, None), Encode(None, 8, SentOk, 20, None),
     EncodeOther(None, 2, 9, SentOk, 30),
     Receive(Packet(0, true, false, true, H264), None), Receive(Packet(1, false, false, true, H264), Some(memory))]
  }

  function OneSlot(captureNs: nat, generation: nat, state: SlotState): Slot {
    Slot(captureNs, generation, state, 0, 0, NO_PAYLOAD)
  }

  function TwoCaptures(first: SlotState, second: SlotState): RingRuns.Ring {
    RingRuns.Ring(Window(4, 0, [OneSlot(10, 1, first), OneSlot(20, 2, second)], 20, 0),
                  [Reservation(0, 1, 10, 0), Reservation(1, 2, 20, 0)], [])
  }

  lemma Unrolled(s: State, events: seq<Event>, k: nat)
    requires k < |events|
    ensures Run(s, events[k..]) == if Enabled(s, events[k]) then Run(Step(s, events[k]), events[k + 1..]) else None
  {
    assert events[k..][1..] == events[k + 1..];
  }

  const FIRST_SENT := Entry(0, 10, Sent(Job.Some(0), 7, true, true))
  const SECOND_SENT := Entry(1, 20, Sent(Job.Some(1), 7, false, true))
  const OTHER_SENT := Entry(0, 30, Sent(Job.None, 9, true, true))

  lemma BothCaptured(memory: Payload) returns (s: State)
    ensures Run(Start(4, 1), LeftBehind(memory)) == Run(s, LeftBehind(memory)[2..])
    ensures s == State(TwoCaptures(Reserved, Reserved), 3, [Pending, Pending], {}, [], 0, 0,
                       Context(None, NOT_STARTED, [], 0), 1)
  {
    var events := LeftBehind(memory);
    assert events[0..] == events;
    Unrolled(Start(4, 1), events, 0);
    var s1 := Step(Start(4, 1), events[0]);
    assert s1.ring == RingRuns.Ring(Window(4, 0, [OneSlot(10, 1, Reserved)], 10, 0), [Reservation(0, 1, 10, 0)], []);
    Unrolled(s1, events, 1);
    s := Step(s1, events[1]);
    assert s.ring == TwoCaptures(Reserved, Reserved);
  }

  lemma BothSubmitted(memory: Payload) returns (s: State)
    ensures Run(Start(4, 1), LeftBehind(memory)) == Run(s, LeftBehind(memory)[4..])
    ensures s == State(TwoCaptures(Reserved, Reserved), 3, [Pending, Pending], {}, [0, 1], 2, 0,
                       Context(None, NOT_STARTED, [], 0), 1)
  {
    var events := LeftBehind(memory);
    var s2 := BothCaptured(memory);
    hide Operate, EncodeOne, Store, DropOne, Begin, Settle, Run;
    Unrolled(s2, events, 2);
    var s3 := s2.(queue := [0], submitted := 1);
    assert Enabled(s2, events[2]) && Step(s2, events[2]) == s3;
    Unrolled(s3, events, 3);
    s := s3.(queue := [0, 1], submitted := 2);
    assert Enabled(s3, events[3]) && Step(s3, events[3]) == s;
  }

  const CHAIN_STARTED := Context(Some(HARDWARE), ChainTracker(7, 1, false, false), [FIRST_SENT], 1)

  lemma FirstSent(memory: Payload, s: State) returns (s': State)
    requires s == State(TwoCaptures(Reserved, Reserved), 3, [Pending, Pending], {}, [0, 1], 2, 0,
                        Context(None, NOT_STARTED, [], 0), 1)
    ensures Run(s, LeftBehind(memory)[4..]) == Run(s', LeftBehind(memory)[5..])
    ensures s' == State(TwoCaptures(SlotState.Encoding, Reserved), 4, [Pending, Pending], {}, [1], 2, 1, CHAIN_STARTED, 1)
  {
    Unrolled(s, LeftBehind(memory), 4);
    hide Run;
    s' := Step(s, LeftBehind(memory)[4]);
    assert s'.ring == TwoCaptures(SlotState.Encoding, Reserved);
    assert s'.ctx == CHAIN_STARTED;
  }

  lemma SecondSent(memory: Payload, s: State) returns (s': State)
    requires s == State(TwoCaptures(SlotState.Encoding, Reserved), 4, [Pending, Pending], {}, [1], 2, 1, CHAIN_STARTED, 1)
    ensures Run(s, LeftBehind(memory)[5..]) == Run(s', LeftBehind(memory)[6..])
    ensures s' == State(TwoCaptures(SlotState.Encoding, SlotState.Encoding), 5, [Pending, Pending], {}, [], 2, 2,
                        Context(Some(HARDWARE), ChainTracker(7, 2, false, false), [FIRST_SENT, SECOND_SENT], 1), 1)
  {
    Unrolled(s, LeftBehind(memory), 5);
    hide Run;
    s' := Step(s, LeftBehind(memory)[5]);
    assert s'.ring == TwoCaptures(SlotState.Encoding, SlotState.Encoding);
  }

  const CHAIN_LEFT := Context(Some(HARDWARE), ChainTracker(9, 1, false, false), [FIRST_SENT, SECOND_SENT, OTHER_SENT], 2)

  lemma OtherSent(memory: Payload, s: State) returns (s': State)
    requires s == State(TwoCaptures(SlotState.Encoding, SlotState.Encoding), 5, [Pending, Pending], {}, [], 2, 2,
                        Context(Some(HARDWARE), ChainTracker(7, 2, false, false), [FIRST_SENT, SECOND_SENT], 1), 1)
    ensures Run(s, LeftBehind(memory)[6..]) == Run(s', LeftBehind(memory)[7..]) && s' == s.(ctx := CHAIN_LEFT)
  {
    Unrolled(s, LeftBehind(memory), 6);
    hide Run;
    s' := Step(s, LeftBehind(memory)[6]);
    assert s'.ctx == CHAIN_LEFT;
  }

  lemma KeyLost(memory: Payload, s: State) returns (s': State)
    requires s == State(TwoCaptures(SlotState.Encoding, SlotState.Encoding), 5, [Pending, Pending], {}, [], 2, 2,
                        CHAIN_LEFT, 1)
    ensures Run(s, LeftBehind(memory)[7..]) == Run(s', LeftBehind(memory)[8..])
    ensures s' == State(TwoCaptures(Dropped, SlotState.Encoding), 6, [Gone, Pending], {0}, [], 2, 2,
                        CHAIN_LEFT.(inFlight := [SECOND_SENT, OTHER_SENT]), 1)
  {
    Unrolled(s, LeftBehind(memory), 7);
    hide Run;
    s' := Step(s, LeftBehind(memory)[7]);
    assert s'.ring == TwoCaptures(Dropped, SlotState.Encoding);
  }

  lemma FrameStored(memory: Payload, s: State) returns (s': State)
    requires s == State(TwoCaptures(Dropped, SlotState.Encoding), 6, [Gone, Pending], {0}, [], 2, 2,
                        CHAIN_LEFT.(inFlight := [SECOND_SENT, OTHER_SENT]), 1)
    ensures Run(s, LeftBehind(memory)[8..]) == Some(s')
    ensures s'.fates == [Gone, Kept(H264, false, 7, 1)] && s'.strays == {0, 1}
  {
    var events := LeftBehind(memory);
    Unrolled(s, events, 8);
    assert CanPublish(s.ring.window, 1, 2);
    s' := Step(s, events[8]);
  }

  /** What a ring left behind by a new cycle may end up with: only strays can lack their reference, and they can. */
  lemma StrayLacksReference(memory: Payload)
    ensures var s := Run(Start(4, 1), LeftBehind(memory));
            && s.Some? && s.value.fates == [Gone, Kept(H264, false, 7, 1)] && s.value.strays == {0, 1}
            && !HasReference(s.value.fates, 1)
  {
    var s4 := BothSubmitted(memory);
    var s5 := FirstSent(memory, s4);
    var s6 := SecondSent(memory, s5);
    var s7 := OtherSent(memory, s6);
    var s8 := KeyLost(memory, s7);
    var s9 := FrameStored(memory, s8);
    hide Run, LeftBehind;
  }
}
