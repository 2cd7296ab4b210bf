/** One encode context of the pipeline (src/codec-pipeline.cpp): an encoder, its chain and what it has in flight. */
module Encoding {
  import opened Words
  import opened Storage

  /** inter: packets may depend on the one before; an intra encoder's packets are all keys. */
  datatype Encoder = Encoder(inter: bool, codec: CodecId)

  /** A frame sent to an encoder. forced: Send() was asked for a key; atHand: the raw frame is still there. */
  datatype Sent<J> = Sent(job: J, chain: U32, forced: bool, atHand: bool)

  /** usable: its bytes make sense for the frame; rawInput: the payload is the very frame sent. */
  datatype Packet = Packet(seqNo: nat, key: bool, rawInput: bool, usable: bool, codec: CodecId)

  datatype SendResult = SentOk | Busy | SendFailed

  /** What became of a capture: nothing yet, its slot dropped, or a payload stored in its slot. */
  datatype Fate = Pending | Gone | Kept(codec: CodecId, key: bool, chain: U32, seqNo: U32)
  const KEPT_RAW := Kept(Raw, true, NO_CHAIN, 0)

  datatype Context<J> = Context(encoder: Option<Encoder>, chain: ChainTracker, inFlight: seq<Entry<Sent<J>>>, epoch: nat) {
    predicate Inter() { encoder.Some? && encoder.value.inter }
  }

  // --- What each step does to a context, and to the capture it is about ---

  /** The encoder is gone, and what it had in flight with it. */
  function Closed<J>(c: Context<J>): Context<J> { c.(encoder := None, inFlight := []) }

  /** Before a frame is sent: without an encoder one is opened, or taken over from the setup thread; a new encoder
      and a new cycle each start a new chain. */
  function Prepared<J>(c: Context<J>, made: Option<Encoder>, epoch: nat, newChain: U32): Context<J> {
    if c.encoder.None? then c.(encoder := made, chain := StartChain(newChain), epoch := epoch)
    else if c.epoch != epoch then c.(chain := StartChain(newChain), epoch := epoch)
    else c
  }

  function AfterSend<J>(c: Context<J>, result: SendResult, job: J, sendNs: nat): Context<J> {
    match result
    case SentOk =>
      c.(inFlight := c.inFlight + [Entry(c.chain.nextSeq, sendNs, Sent(job, c.chain.chain, c.chain.wantKey, true))],
         chain := c.chain.CommitSend(c.chain.wantKey))
    case Busy => c
    case SendFailed => if c.Inter() then c.(chain := c.chain.RequestKey()) else c
  }

  /** The raw frame goes back to its pool: no packet can fall back to it any more. */
  function LetGo<J>(s: Sent<J>): Sent<J> { s.(atHand := false) }

  function Returned<J>(c: Context<J>): Context<J> {
    c.(inFlight := Changed(c.inFlight, (sent: Sent<J>) => LetGo(sent)))
  }

  predicate Expected<J>(c: Context<J>, p: Packet) { c.inFlight != [] && c.inFlight[0].seqNo == p.seqNo }

  predicate Tracked<J>(c: Context<J>)
    requires c.inFlight != []
  {
    c.Inter() && c.inFlight[0].value.chain == c.chain.chain
  }

  predicate Usable<J>(c: Context<J>, p: Packet)
    requires c.inFlight != []
  {
    p.usable && (p.rawInput ==> c.inFlight[0].value.atHand)
  }

  /** What the oldest capture in flight becomes if the arena has room and its slot takes it: its packet, the raw
      frame when the packet makes no sense, or nothing when its reference was lost. */
  function Wanted<J>(c: Context<J>, p: Packet): Fate
    requires Expected(c, p)
  {
    var sent := c.inFlight[0].value;
    if !Usable(c, p) then (if sent.atHand then KEPT_RAW else Gone)
    else if Tracked(c) && !c.chain.ShouldStore(p.key) then Gone
    else if p.rawInput then KEPT_RAW
    else Kept(p.codec, p.key, sent.chain, Wrap32(p.seqNo))
  }

  function PacketFate<J>(c: Context<J>, p: Packet, room: bool): Fate
    requires Expected(c, p)
  {
    if room then Wanted(c, p) else Gone
  }

  function AfterPacket<J>(c: Context<J>, p: Packet, room: bool): Context<J>
    requires Expected(c, p)
  {
    var chain := if !Tracked(c) then c.chain
                 else if !Usable(c, p) then c.chain.OnLost()
                 else if !c.chain.ShouldStore(p.key) then c.chain
                 else if !room then c.chain.OnLost()
                 else c.chain.OnStored(p.key);
    c.(inFlight := c.inFlight[1..], chain := chain)
  }

  /** With its own packet a frame is lost if and only if there was no room for it, or its packet makes no sense with the raw
      frame let go already, or its reference was lost: no key, of an inter encoder's current chain, which is broken.
      Otherwise what is stored is the packet under its number, or the raw frame for a packet that makes no sense or is raw. */
  lemma LostIff<J>(c: Context<J>, p: Packet, room: bool)
    requires Expected(c, p)
    ensures var sent, fate := c.inFlight[0].value, PacketFate(c, p, room);
            var senseless := !p.usable || (p.rawInput && !sent.atHand);
            var orphan := c.encoder.Some? && c.encoder.value.inter && sent.chain == c.chain.chain && c.chain.broken && !p.key;
            && (fate == Gone <==> !room || (senseless && !sent.atHand) || (!senseless && orphan))
            && (fate != Gone ==> fate == if senseless || p.rawInput then Kept(Raw, true, 0, 0)
                                         else Kept(p.codec, p.key, sent.chain, p.seqNo % 0x1_0000_0000))
  {
  }

  /** A packet breaks its chain exactly when it is lost without being an orphan already, or makes no sense, and then a key
      is asked for; a key stored mends it. Chains left and intra packets change nothing. */
  lemma ChainAfter<J>(c: Context<J>, p: Packet, room: bool)
    requires Expected(c, p)
    ensures var sent, after := c.inFlight[0].value, AfterPacket(c, p, room);
            var current := c.encoder.Some? && c.encoder.value.inter && sent.chain == c.chain.chain;
            var senseless := !p.usable || (p.rawInput && !sent.atHand);
            var lost := current && (senseless || ((p.key || !c.chain.broken) && !room));
            && after.inFlight == c.inFlight[1..] && after.encoder == c.encoder && after.epoch == c.epoch
            && after.chain.chain == c.chain.chain && after.chain.nextSeq == c.chain.nextSeq
            && (after.chain.broken <==> lost || (c.chain.broken && !(current && p.key)))
            && (after.chain.wantKey <==> lost || c.chain.wantKey)
  {
  }

  /** Packets one after the other; the first one out of order closes the encoder, and the rest never arrive. */
  function AfterPackets<J>(c: Context<J>, packets: seq<(Packet, bool)>): Context<J>
    decreases |packets|
  {
    if packets == [] then c
    else if !Expected(c, packets[0].0) then Closed(c)
    else AfterPackets(AfterPacket(c, packets[0].0, packets[0].1), packets[1..])
  }

  /** The captures those packets decide, in order; an encoder closed by one out of order loses all the others. */
  function PacketFates<J>(c: Context<J>, packets: seq<(Packet, bool)>): seq<(J, Fate)>
    decreases |packets|
  {
    if packets == [] then []
    else if !Expected(c, packets[0].0) then Drops(c.inFlight)
    else [(c.inFlight[0].value.job, PacketFate(c, packets[0].0, packets[0].1))]
         + PacketFates(AfterPacket(c, packets[0].0, packets[0].1), packets[1..])
  }

  function Drops<J>(inFlight: seq<Entry<Sent<J>>>): seq<(J, Fate)> {
    if inFlight == [] then [] else [(inFlight[0].value.job, Gone)] + Drops(inFlight[1..])
  }

  /** Every frame in flight is decided exactly once: by its own packet, or by the close that loses it; and packets
      decide the oldest frames first. */
  lemma {:induction false} EveryFrameDecidedOnce<J>(c: Context<J>, packets: seq<(Packet, bool)>)
    ensures var fates, after := PacketFates(c, packets), AfterPackets(c, packets);
            && |fates| + |after.inFlight| == |c.inFlight|
            && (forall i :: 0 <= i < |fates| ==> fates[i].0 == c.inFlight[i].value.job && !fates[i].1.Pending?)
            && after.inFlight == c.inFlight[|fates|..]
    decreases |packets|
  {
    if packets != [] {
      if Expected(c, packets[0].0) {
        EveryFrameDecidedOnce(AfterPacket(c, packets[0].0, packets[0].1), packets[1..]);
      } else {
        DropsEach(c.inFlight);
      }
    }
  }

  lemma {:induction false} DropsEach<J>(inFlight: seq<Entry<Sent<J>>>)
    ensures var drops := Drops(inFlight);
            |drops| == |inFlight| && forall i :: 0 <= i < |drops| ==> drops[i] == (inFlight[i].value.job, Gone)
    decreases |inFlight|
  {
    if inFlight != [] {
      DropsEach(inFlight[1..]);
    }
  }

  /** The first packets are those of the oldest frames, in their order. */
  predicate InSendOrder<J>(c: Context<J>, packets: seq<(Packet, bool)>, n: nat)
    requires n <= |packets|
  {
    n <= |c.inFlight| && forall k :: 0 <= k < n ==> packets[k].0.seqNo == c.inFlight[k].seqNo
  }

  /** As long as packets come in turn each decides its own frame; and the first out of turn closes the encoder, and every
      frame still in flight is lost, whatever comes after it. */
  lemma {:induction false} OutOfTurnCloses<J>(c: Context<J>, packets: seq<(Packet, bool)>, n: nat)
    requires n <= |packets| && InSendOrder(c, packets, n) && (n < |packets| ==> !InSendOrder(c, packets, n + 1))
    ensures var fates, after := PacketFates(c, packets), AfterPackets(c, packets);
            && (forall k :: 0 <= k < n ==> k < |fates| && Expected(AfterPackets(c, packets[..k]), packets[k].0)
                                           && fates[k] == (c.inFlight[k].value.job,
                                                           PacketFate(AfterPackets(c, packets[..k]), packets[k].0, packets[k].1)))
            && if n == |packets| then |fates| == n && after.inFlight == c.inFlight[n..] && after.encoder == c.encoder
               else && after.encoder.None? && after.inFlight == [] && |fates| == |c.inFlight|
                    && forall k :: n <= k < |fates| ==> fates[k] == (c.inFlight[k].value.job, Gone)
    decreases n
  {
    if n == 0 {
      if packets == [] {
        assert c.inFlight[0..] == c.inFlight;
      } else {
        DropsEach(c.inFlight);
      }
    } else {
      TurnGoesOn(c, packets, n);
      OneInTurn(c, packets, n);
    }
  }

  lemma TurnGoesOn<J>(c: Context<J>, packets: seq<(Packet, bool)>, n: nat)
    requires 0 < n <= |packets| && InSendOrder(c, packets, n) && (n < |packets| ==> !InSendOrder(c, packets, n + 1))
    ensures Expected(c, packets[0].0)
    ensures var c1, rest := AfterPacket(c, packets[0].0, packets[0].1), packets[1..];
            c1.inFlight == c.inFlight[1..] && c1.encoder == c.encoder
            && InSendOrder(c1, rest, n - 1) && (n - 1 < |rest| ==> !InSendOrder(c1, rest, n))
  {
    var rest := packets[1..];
    assert forall k :: 0 <= k < |rest| ==> rest[k] == packets[k + 1];
    if n < |packets| && n < |c.inFlight| {
      assert packets[n].0.seqNo != c.inFlight[n].seqNo;
      assert rest[n - 1] == packets[n] && c.inFlight[1..][n - 1] == c.inFlight[n];
    }
  }

  lemma {:induction false} OneInTurn<J>(c: Context<J>, packets: seq<(Packet, bool)>, n: nat)
    requires 0 < n <= |packets| && InSendOrder(c, packets, n) && (n < |packets| ==> !InSendOrder(c, packets, n + 1))
    requires Expected(c, packets[0].0)
    ensures var fates, after := PacketFates(c, packets), AfterPackets(c, packets);
            && (forall k :: 0 <= k < n ==> k < |fates| && Expected(AfterPackets(c, packets[..k]), packets[k].0)
                                           && fates[k] == (c.inFlight[k].value.job,
                                                           PacketFate(AfterPackets(c, packets[..k]), packets[k].0, packets[k].1)))
            && if n == |packets| then |fates| == n && after.inFlight == c.inFlight[n..] && after.encoder == c.encoder
               else && after.encoder.None? && after.inFlight == [] && |fates| == |c.inFlight|
                    && forall k :: n <= k < |fates| ==> fates[k] == (c.inFlight[k].value.job, Gone)
    decreases n, 0
  {
    hide AfterPacket, PacketFate, AfterPackets, PacketFates;
    TurnGoesOn(c, packets, n);
    var c1, rest := AfterPacket(c, packets[0].0, packets[0].1), packets[1..];
    OutOfTurnCloses(c1, rest, n - 1);
    FirstTurn(c, packets);
    var fates, more := PacketFates(c, packets), PacketFates(c1, rest);
    forall k | 0 <= k < n
      ensures k < |fates| && Expected(AfterPackets(c, packets[..k]), packets[k].0)
      ensures fates[k] == (c.inFlight[k].value.job, PacketFate(AfterPackets(c, packets[..k]), packets[k].0, packets[k].1))
    {
      BeforeTurn(c, packets, k);
      if k > 0 {
        assert rest[k - 1] == packets[k] && fates[k] == more[k - 1];
      }
    }
    assert c.inFlight[1..][n - 1..] == c.inFlight[n..];
  }

  lemma {:induction false} FirstTurn<J>(c: Context<J>, packets: seq<(Packet, bool)>)
    requires packets != [] && Expected(c, packets[0].0)
    ensures AfterPackets(c, packets) == AfterPackets(AfterPacket(c, packets[0].0, packets[0].1), packets[1..])
    ensures PacketFates(c, packets) == [(c.inFlight[0].value.job, PacketFate(c, packets[0].0, packets[0].1))]
                                       + PacketFates(AfterPacket(c, packets[0].0, packets[0].1), packets[1..])
  {
    hide AfterPacket, PacketFate;
  }

  lemma OutOfTurn<J>(c: Context<J>, packets: seq<(Packet, bool)>)
    requires packets != [] && !Expected(c, packets[0].0)
    ensures AfterPackets(c, packets) == Closed(c) && PacketFates(c, packets) == Drops(c.inFlight)
  {
  }

  lemma NoneLeft<J>(c: Context<J>)
    ensures AfterPackets(c, []) == c && PacketFates(c, []) == []
  {
  }

  lemma BeforeTurn<J>(c: Context<J>, packets: seq<(Packet, bool)>, k: nat)
    requires k < |packets| && Expected(c, packets[0].0)
    ensures AfterPackets(c, packets[..k])
            == if k == 0 then c else AfterPackets(AfterPacket(c, packets[0].0, packets[0].1), packets[1..][..k - 1])
  {
    hide AfterPacket;
    if k > 0 {
      assert packets[..k][1..] == packets[1..][..k - 1] && packets[..k][0] == packets[0];
    }
  }

  /** One job from end to end: what it leaves the context in. packets: what the encoder hands out once it has the
      frame, each with whether its allocation and its slot were there. */
  function Encoded<J>(c: Context<J>, made: Option<Encoder>, epoch: nat, newChain: U32, result: SendResult, job: J,
                      sendNs: nat, packets: seq<(Packet, bool)>): Context<J> {
    var sent := AfterSend(Prepared(c, made, epoch, newChain), result, job, sendNs);
    if result.SentOk? then Returned(AfterPackets(sent, packets)) else sent
  }

  function EncodedFates<J>(c: Context<J>, made: Option<Encoder>, epoch: nat, newChain: U32, result: SendResult, job: J,
                           sendNs: nat, packets: seq<(Packet, bool)>, room: bool): seq<(J, Fate)> {
    match result
    case SentOk => PacketFates(AfterSend(Prepared(c, made, epoch, newChain), result, job, sendNs), packets)
    case Busy => [(job, Gone)]
    case SendFailed => [(job, if room then KEPT_RAW else Gone)]
  }

  /** What becomes of a frame that does not get in: the encoder being busy, it is dropped; not encoded, it is stored raw
      if there is room, and an inter encoder goes on from a key. */
  lemma NotSent<J>(c: Context<J>, made: Option<Encoder>, epoch: nat, newChain: U32, result: SendResult, job: J, sendNs: nat,
                   packets: seq<(Packet, bool)>, room: bool)
    requires !result.SentOk?
    ensures var after := Encoded(c, made, epoch, newChain, result, job, sendNs, packets);
            var fates := EncodedFates(c, made, epoch, newChain, result, job, sendNs, packets, room);
            && fates == [(job, if result.SendFailed? && room then Kept(Raw, true, 0, 0) else Gone)]
            && after.inFlight == c.inFlight
            && (result.SendFailed? && after.encoder.Some? && after.encoder.value.inter ==> after.chain.wantKey)
  {
  }

  /** Within a cycle an open encoder goes on with its chain; a new encoder, and a new cycle, begin one that starts with a key
      numbered 0. What is in flight stays. */
  lemma Preparing<J>(c: Context<J>, made: Option<Encoder>, epoch: nat, newChain: U32)
    ensures var after := Prepared(c, made, epoch, newChain);
            && after.inFlight == c.inFlight && after.epoch == epoch
            && after.encoder == (if c.encoder.Some? then c.encoder else made)
            && if c.encoder.Some? && c.epoch == epoch then after.chain == c.chain
               else after.chain.chain == newChain && after.chain.nextSeq == 0 && after.chain.wantKey && !after.chain.broken
  {
  }

  /** A frame that gets in is numbered next, on the chain the encoder is on, and is forced to be a key exactly when one was
      wanted, which is then no longer the case. */
  lemma Sending<J>(c: Context<J>, job: J, sendNs: nat)
    ensures var after := AfterSend(c, SentOk, job, sendNs);
            && after.inFlight == c.inFlight + [Entry(c.chain.nextSeq, sendNs, Sent(job, c.chain.chain, c.chain.wantKey, true))]
            && after.chain == c.chain.(nextSeq := c.chain.nextSeq + 1, wantKey := false)
            && after.encoder == c.encoder && after.epoch == c.epoch
  {
  }

  /** Once a send is over the raw frames are back in their pool, those in flight before as well: no later packet can fall
      back to one. */
  lemma FramesLetGo<J>(c: Context<J>, made: Option<Encoder>, epoch: nat, newChain: U32, job: J, sendNs: nat,
                       packets: seq<(Packet, bool)>)
    ensures var after := Encoded(c, made, epoch, newChain, SentOk, job, sendNs, packets);
            forall k :: 0 <= k < |after.inFlight| ==> !after.inFlight[k].value.atHand
  {
    hide AfterPackets, AfterSend, Prepared;
    AllLetGo(AfterPackets(AfterSend(Prepared(c, made, epoch, newChain), SentOk, job, sendNs), packets));
  }

  lemma AllLetGo<J>(c: Context<J>)
    ensures var q, q' := c.inFlight, Returned(c).inFlight;
            |q'| == |q| && forall k :: 0 <= k < |q'| ==> q'[k] == q[k].(value := q[k].value.(atHand := false))
  {
    var q, q' := c.inFlight, Returned(c).inFlight;
    assert forall k :: 0 <= k < |q| ==> q'[k].value == LetGo(q[k].value);
  }

  function Jobs<J>(inFlight: seq<Entry<Sent<J>>>): seq<J> {
    seq(|inFlight|, k requires 0 <= k < |inFlight| => inFlight[k].value.job)
  }

  function Decided<J>(fates: seq<(J, Fate)>): seq<J> {
    seq(|fates|, k requires 0 <= k < |fates| => fates[k].0)
  }

  /** No capture is lost or decided twice: those in flight before, and the new one, are those decided now followed
      by those in flight after -- unless the new one never got in, and then it alone is decided. */
  lemma EncodeConserves<J>(c: Context<J>, made: Option<Encoder>, epoch: nat, newChain: U32, result: SendResult, job: J,
                           sendNs: nat, packets: seq<(Packet, bool)>, room: bool)
    ensures var after := Encoded(c, made, epoch, newChain, result, job, sendNs, packets);
            var fates := EncodedFates(c, made, epoch, newChain, result, job, sendNs, packets, room);
            && (result.SentOk? ==> Jobs(c.inFlight) + [job] == Decided(fates) + Jobs(after.inFlight))
            && (!result.SentOk? ==> Decided(fates) == [job] && after.inFlight == c.inFlight)
            && (forall k :: 0 <= k < |fates| ==> !fates[k].1.Pending?)
  {
    if result.SentOk? {
      var sent := AfterSend(Prepared(c, made, epoch, newChain), result, job, sendNs);
      EveryFrameDecidedOnce(sent, packets);
      hide AfterPackets, PacketFates;
      var after, fates := Encoded(c, made, epoch, newChain, result, job, sendNs, packets), PacketFates(sent, packets);
      assert Jobs(sent.inFlight) == Jobs(c.inFlight) + [job];
      hide AfterSend;
      assert Jobs(sent.inFlight) == Decided(fates) + Jobs(after.inFlight);
    }
  }

  /** A worker's context, updated in place. */
  class EncodeContext<J(0)> {
    var encoder: Option<Encoder>
    var chain: ChainTracker
    var chainEpoch: nat
    const inFlight: InFlightQueue<Sent<J>>

    ghost predicate Valid()
      reads this, inFlight, inFlight.entries
    {
      inFlight.Valid()
    }

    ghost function Value(): Context<J>
      requires Valid()
      reads this, inFlight, inFlight.entries
    {
      Context(encoder, chain, inFlight.Contents(), chainEpoch)
    }

    constructor ()
      ensures Valid() && Value() == Context(None, NOT_STARTED, [], 0) && fresh(inFlight) && fresh(inFlight.entries)
    {
      encoder, chain, chainEpoch := None, NOT_STARTED, 0;
      inFlight := new InFlightQueue<Sent<J>>();
    }

    /** None: the packet is not the oldest frame's, and nothing changes. */
    method StorePacket(packet: Packet, room: bool) returns (decided: Option<(J, Fate)>)
      requires Valid()
      modifies this, inFlight, inFlight.entries
      ensures Valid() && inFlight.entries == old(inFlight.entries)
      ensures decided.Some? <==> Expected(old(Value()), packet)
      ensures decided.Some? ==> Value() == AfterPacket(old(Value()), packet, room)
      ensures decided.Some? ==> decided.value.0 == old(Value()).inFlight[0].value.job
      ensures decided.Some? ==> decided.value.1 == PacketFate(old(Value()), packet, room)
      ensures decided.None? ==> Value() == old(Value())
    {
      hide InFlightQueue<Sent<J>>.Contents;
      var answer, popped := inFlight.Pop(packet.seqNo);
      if !answer.MatchOk? {
        return None;
      }
      var sent := popped.value.value;
      var inter := encoder.Some? && encoder.value.inter;
      var tracked := inter && sent.chain == chain.chain;
      var usable := if packet.rawInput then sent.atHand && packet.usable else packet.usable;
      if !usable {
        if tracked {
          chain := chain.OnLost();
        }
        return Some((sent.job, if sent.atHand && room then KEPT_RAW else Gone));
      }
      if tracked && !chain.ShouldStore(packet.key) {
        return Some((sent.job, Gone));
      }
      if !room {
        if tracked {
          chain := chain.OnLost();
        }
        return Some((sent.job, Gone));
      }
      var fate := Kept(if packet.rawInput then Raw else packet.codec, packet.rawInput || packet.key,
                   if packet.rawInput then NO_CHAIN else sent.chain, if packet.rawInput then 0 else Wrap32(packet.seqNo));
      if tracked {
        chain := chain.OnStored(packet.key);
      }
      return Some((sent.job, fate));
    }

    method DropInFlight() returns (fates: seq<(J, Fate)>)
      requires Valid()
      modifies this, inFlight, inFlight.entries
      ensures Valid() && inFlight.entries == old(inFlight.entries)
      ensures Value() == old(Value()).(inFlight := []) && fates == Drops(old(Value()).inFlight)
    {
      hide InFlightQueue<Sent<J>>.Contents;
      var dropped := inFlight.Clear();
      fates := [];
      var i := |dropped|;
      while i > 0
        invariant 0 <= i <= |dropped| && fates == Drops(dropped[i..])
      {
        i := i - 1;
        assert dropped[i..][1..] == dropped[i + 1..];
        fates := [(dropped[i].value.job, Gone)] + fates;
      }
      assert dropped[0..] == dropped;
    }

    /** Stores what the encoder hands out; a packet out of order closes it, and what was in flight is lost. */
    method ReceiveReady(packets: seq<(Packet, bool)>) returns (fates: seq<(J, Fate)>)
      requires Valid() && (encoder.None? ==> packets == [])
      modifies this, inFlight, inFlight.entries
      ensures Valid() && inFlight.entries == old(inFlight.entries)
      ensures Value() == AfterPackets(old(Value()), packets) && fates == PacketFates(old(Value()), packets)
    {
      hide InFlightQueue<Sent<J>>.Contents, AfterPacket, PacketFate, Expected, AfterPackets, PacketFates;
      fates := [];
      var n := 0;
      assert packets[0..] == packets;
      while n < |packets|
        invariant 0 <= n <= |packets| && Valid() && inFlight.entries == old(inFlight.entries)
        invariant AfterPackets(Value(), packets[n..]) == AfterPackets(old(Value()), packets)
        invariant fates + PacketFates(Value(), packets[n..]) == PacketFates(old(Value()), packets)
      {
        ghost var before := Value();
        assert packets[n..][0] == packets[n] && packets[n..][1..] == packets[n + 1..];
        var decided := StorePacket(packets[n].0, packets[n].1);
        if decided.Some? {
          FirstTurn(before, packets[n..]);
        } else {
          OutOfTurn(before, packets[n..]);
        }
        if decided.None? {
          var lost := DropInFlight();
          encoder := None;
          fates := fates + lost;
          return;
        }
        fates := fates + [decided.value];
        n := n + 1;
      }
      assert packets[n..] == [];
      NoneLeft(Value());
    }

    /** Drains the encoder first if asked to: what does not come out, or follows a packet out of order, is lost. */
    method CloseEncoder(drained: seq<(Packet, bool)>) returns (fates: seq<(J, Fate)>)
      requires Valid() && (encoder.None? ==> drained == [])
      modifies this, inFlight, inFlight.entries
      ensures Valid() && inFlight.entries == old(inFlight.entries)
      ensures Value() == Closed(AfterPackets(old(Value()), drained))
      ensures fates == PacketFates(old(Value()), drained) + Drops(AfterPackets(old(Value()), drained).inFlight)
    {
      hide InFlightQueue<Sent<J>>.Contents, AfterPackets, PacketFates;
      var stored := ReceiveReady(drained);
      var lost := DropInFlight();
      encoder := None;
      fates := stored + lost;
    }

    /** A new encoder if there is none, and a new chain for a new encoder or a new cycle. */
    method Prepare(made: Option<Encoder>, epoch: nat, newChain: U32)
      requires Valid()
      modifies this
      ensures Valid() && Value() == Prepared(old(Value()), made, epoch, newChain)
    {
      hide InFlightQueue<Sent<J>>.Contents;
      var isNew := false;
      if encoder.None? {
        encoder := made;
        isNew := true;
      }
      if isNew || chainEpoch != epoch {
        chain := StartChain(newChain);
        chainEpoch := epoch;
      }
    }

    method EncodeOne(job: J, epoch: nat, made: Option<Encoder>, newChain: U32, result: SendResult, sendNs: nat,
                     packets: seq<(Packet, bool)>, room: bool) returns (fates: seq<(J, Fate)>)
      requires Valid() && (encoder.None? && made.None? ==> result.SendFailed? && packets == [])
      modifies this, inFlight, inFlight.entries
      ensures Valid() && (inFlight.entries == old(inFlight.entries) || fresh(inFlight.entries))
      ensures Value() == Encoded(old(Value()), made, epoch, newChain, result, job, sendNs, packets)
      ensures fates == EncodedFates(old(Value()), made, epoch, newChain, result, job, sendNs, packets, room)
    {
      hide InFlightQueue<Sent<J>>.Contents, AfterPackets, PacketFates;
      Prepare(made, epoch, newChain);
      var inter := encoder.Some? && encoder.value.inter;
      var forceKey, seqNo := chain.wantKey, chain.nextSeq;
      match result {
        case SentOk =>
          chain := chain.CommitSend(forceKey);
          inFlight.Push(seqNo, sendNs, Sent(job, chain.chain, forceKey, true));
          fates := ReceiveReady(packets);
          inFlight.ForEach(sent => LetGo(sent));
        case Busy =>
          fates := [(job, Gone)];
        case SendFailed =>
          fates := [(job, if room then KEPT_RAW else Gone)];
          if inter {
            chain := chain.RequestKey();
          }
      }
    }
  }
}
