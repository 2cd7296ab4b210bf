/** The decode side of the pipeline (src/codec-pipeline.cpp): one decoder per codec, and the chain position of the
    last packet each decoded. */
module Decoding {
  import opened Words
  import opened Storage
  import opened RingSelect
  import opened FrameWindow
  import opened FrameRing

  const CODEC_COUNT: nat := 4

  function CodecIndex(codec: CodecId): (i: nat)
    ensures i < CODEC_COUNT
  {
    match codec
    case Raw => 0
    case Mjpeg => 1
    case H264 => 2
    case Hevc => 3
  }


  /** A decoder object; no two ever have the same id. */
  datatype Decoder = Decoder(id: nat, hardware: bool)

  datatype DecodeStatus = Frame | NoFrameYet | Failed
  datatype DecodeOutcome = Decoded | Skipped | DecodeFailed

  /** What a decoder answers to one packet, and when. */
  datatype AnswerRaw = Answer(status: DecodeStatus, outSeq: nat, width: U32, height: U32, broken: bool,
                              startNs: nat, endNs: nat)
  type Answer = a: AnswerRaw | a.startNs <= a.endNs witness Answer(DecodeStatus.Failed, 0, 0, 0, false, 0, 0)

  /** What happened to the decoder objects: a packet handed to one (and whether it was taken), or a flush. */
  datatype Happened =
    | Handed(decoder: nat, key: bool, chain: U32, seqNo: U32, accepted: bool)
    | Flushed(decoder: nat)

  /** The last thing that happened to one decoder. */
  function LastOf(trace: seq<Happened>, decoder: nat): Option<Happened> {
    if trace == [] then None
    else if trace[|trace| - 1].decoder == decoder then Some(trace[|trace| - 1])
    else LastOf(trace[..|trace| - 1], decoder)
  }

  predicate HasReference(trace: seq<Happened>, decoder: nat, chain: U32, seqNo: U32) {
    var last := LastOf(trace, decoder);
    last.Some? && last.value.Handed? && last.value.accepted && last.value.chain == chain && last.value.seqNo == seqNo
  }

  /** Every packet handed to a decoder is a key, or the direct successor of the last packet that same decoder
      took, with no flush and no failure in between. */
  ghost predicate ValidBitstream(trace: seq<Happened>) {
    forall k :: 0 <= k < |trace| && trace[k].Handed? && !trace[k].key ==>
      HasReference(trace[..k], trace[k].decoder, trace[k].chain, PrevSeq(trace[k].seqNo))
  }

  lemma LastOfAppended(trace: seq<Happened>, h: Happened, decoder: nat)
    ensures LastOf(trace + [h], decoder) == if h.decoder == decoder then Some(h) else LastOf(trace, decoder)
  {
    assert (trace + [h])[..|trace|] == trace;
  }

  lemma BitstreamGrows(trace: seq<Happened>, h: Happened)
    requires ValidBitstream(trace)
    requires h.Handed? && !h.key ==> HasReference(trace, h.decoder, h.chain, PrevSeq(h.seqNo))
    ensures ValidBitstream(trace + [h])
  {
    forall k | 0 <= k < |trace + [h]| && (trace + [h])[k].Handed? && !(trace + [h])[k].key
      ensures var t := trace + [h]; HasReference(t[..k], t[k].decoder, t[k].chain, PrevSeq(t[k].seqNo))
    {
      assert (trace + [h])[..k] == trace[..k];
      if k == |trace| {
        assert trace[..k] == trace;
      }
    }
  }

  lemma FlushKeepsOthers(trace: seq<Happened>, flushed: nat)
    requires ValidBitstream(trace)
    ensures ValidBitstream(trace + [Flushed(flushed)])
    ensures forall d :: d != flushed ==> LastOf(trace + [Flushed(flushed)], d) == LastOf(trace, d)
  {
    BitstreamGrows(trace, Flushed(flushed));
    forall d | d != flushed
      ensures LastOf(trace + [Flushed(flushed)], d) == LastOf(trace, d)
    {
      LastOfAppended(trace, Flushed(flushed), d);
    }
  }

  /** Going back from one packet to the one its decoder took before it, and so on, ends at a key. */
  ghost predicate FromKey(trace: seq<Happened>, k: nat)
    requires k < |trace|
    decreases k
  {
    trace[k].Handed? &&
    (trace[k].key || exists j :: 0 <= j < k && Precedes(trace, j, k) && FromKey(trace, j))
  }

  /** j is the packet that k's decoder took right before k, and k's predecessor in its chain. */
  ghost predicate Precedes(trace: seq<Happened>, j: nat, k: nat)
    requires j < k < |trace|
  {
    && trace[j].Handed? && trace[j].accepted && trace[k].Handed?
    && trace[j].decoder == trace[k].decoder && trace[j].chain == trace[k].chain
    && trace[k].seqNo == NextSeq(trace[j].seqNo)
    && forall m :: j < m < k ==> trace[m].decoder != trace[k].decoder
  }

  lemma {:induction false} LastOfIsThere(trace: seq<Happened>, decoder: nat) returns (j: nat)
    requires LastOf(trace, decoder).Some?
    ensures j < |trace| && trace[j] == LastOf(trace, decoder).value && trace[j].decoder == decoder
    ensures forall m :: j < m < |trace| ==> trace[m].decoder != decoder
  {
    if trace[|trace| - 1].decoder == decoder {
      j := |trace| - 1;
    } else {
      j := LastOfIsThere(trace[..|trace| - 1], decoder);
    }
  }

  /** Nothing reaches a decoder that it could not rebuild from a key it took itself. */
  lemma {:induction false} EverythingFromKey(trace: seq<Happened>, k: nat)
    requires ValidBitstream(trace) && k < |trace| && trace[k].Handed?
    ensures FromKey(trace, k)
    decreases k
  {
    if !trace[k].key {
      var j := LastOfIsThere(trace[..k], trace[k].decoder);
      assert trace[..k][j] == trace[j];
      assert forall m :: j < m < k ==> trace[m] == trace[..k][m];
      EverythingFromKey(trace, j);
      assert Precedes(trace, j, k);
    }
  }

  /** The flushes of every open decoder among the first n. */
  function Flushes(decoders: seq<Option<Decoder>>, n: nat): seq<Happened>
    requires n <= |decoders|
  {
    if n == 0 then []
    else Flushes(decoders, n - 1) + (if decoders[n - 1].Some? then [Flushed(decoders[n - 1].value.id)] else [])
  }

  const NO_CURSORS: seq<ChainCursor> := seq(CODEC_COUNT, _ => NO_CURSOR)

  /** Whether a decode counts as good: its picture is the one asked for, or, during a catch-up, it did not fail. */
  predicate Accepts(answer: Answer, view: ReadView, wantImage: bool) {
    if wantImage then
      answer.status.Frame? && answer.outSeq == view.payload.seqNo
      && answer.width == view.payload.width && answer.height == view.payload.height
    else !answer.status.Failed?
  }

  predicate HasData(view: ReadView) {
    view.payload.allocation.Allocation? && view.payload.bytes > 0
  }

  function Average(before: nat, took: nat): nat { if before != 0 then (before * 7 + took) / 8 else took }

  function Cursor(view: ReadView): ChainCursor { ChainCursor(true, view.payload.chain, view.payload.seqNo) }

  const SOFTWARE_DECODE_NS: nat := 15_000_000
  const DECODER_IDLE_NS: nat := 3_000_000_000

  /** A valid cursor is where its codec's decoder really is. */
  ghost predicate CursorsHold(decoders: seq<Option<Decoder>>, cursors: seq<ChainCursor>, trace: seq<Happened>)
    requires |decoders| == |cursors|
  {
    forall i :: 0 <= i < |cursors| && cursors[i].valid ==>
      decoders[i].Some? && HasReference(trace, decoders[i].value.id, cursors[i].chain, cursors[i].seqNo)
  }

  ghost predicate Known(decoders: seq<Option<Decoder>>, known: set<nat>) {
    && (forall i :: 0 <= i < |decoders| && decoders[i].Some? ==> decoders[i].value.id in known)
    && (forall i, j :: 0 <= i < j < |decoders| && decoders[i].Some? && decoders[j].Some? ==>
          decoders[i].value.id != decoders[j].value.id)
  }

  /** What becomes of the decoder at index i when decoders are synchronized: an inter codec's goes on a switch
      between hardware and software, a warmed-up one fills an empty place of the hardware side, an idle one goes. */
  function Synced(before: Option<Decoder>, i: nat, switching: bool, software: bool, warmedUp: Option<Decoder>,
                  idle: bool): Option<Decoder> {
    var kept := if switching && (i == CodecIndex(H264) || i == CodecIndex(Hevc)) then None else before;
    var filled := if kept.None? && !software then warmedUp else kept;
    if idle then None else filled
  }

  /** Decoded nothing for three seconds while another decoder did. */
  predicate Idle(i: nat, lastUsedNs: nat, lastDecodeNs: nat, nowNs: nat) {
    i >= CodecIndex(Mjpeg) && lastUsedNs != 0 && lastDecodeNs > lastUsedNs && nowNs > lastUsedNs + DECODER_IDLE_NS
  }

  class DecodeContext {
    var decoders: seq<Option<Decoder>>
    var unavailable: seq<bool>
    var cursors: seq<ChainCursor>
    var lastUsedNs: seq<nat>
    var decodeNs: seq<nat>
    var lastDecodeNs: nat
    var software: bool
    var hardwareFailed: bool
    var flushPending: bool
    ghost var trace: seq<Happened>
    /** Every decoder this context ever had. */
    ghost var known: set<nat>

    ghost predicate Sized()
      reads this
    {
      |decoders| == |unavailable| == |cursors| == |lastUsedNs| == |decodeNs| == CODEC_COUNT
    }

    ghost predicate Valid()
      reads this
    {
      Sized() && CursorsHold(decoders, cursors, trace) && Known(decoders, known) && ValidBitstream(trace)
    }

    constructor ()
      ensures Valid() && trace == [] && known == {}
      ensures cursors == seq(CODEC_COUNT, _ => NO_CURSOR) && decoders == seq(CODEC_COUNT, _ => None)
    {
      decoders := seq(CODEC_COUNT, _ => None);
      unavailable := seq(CODEC_COUNT, _ => false);
      cursors := seq(CODEC_COUNT, _ => NO_CURSOR);
      lastUsedNs := seq(CODEC_COUNT, _ => 0);
      decodeNs := seq(CODEC_COUNT, _ => 0);
      lastDecodeNs := 0;
      software, hardwareFailed, flushPending := false, false, false;
      trace, known := [], {};
    }

    /** A decoder as a factory or the setup thread hands it over: never one seen before. */
    ghost predicate New(made: Option<Decoder>)
      reads this
    {
      made.Some? ==> made.value.id !in known
    }

    /** The decoder for a codec, opened on first use; made: what its factory opens, None if it cannot. */
    method DecoderFor(index: nat, made: Option<Decoder>) returns (decoder: Option<Decoder>)
      requires Valid() && index < CODEC_COUNT && New(made)
      modifies this`decoders, this`unavailable, this`known
      ensures Valid() && decoder == decoders[index]
      ensures decoders == old(decoders)[index := decoder]
      ensures unavailable == old(unavailable)[index := decoder.None?] || unavailable == old(unavailable)
      ensures decoder == if old(decoders)[index].Some? || old(unavailable)[index] then old(decoders)[index] else made
      ensures known <= old(known) + (if made.Some? then {made.value.id} else {})
    {
      if decoders[index].None? && !unavailable[index] {
        decoders := decoders[index := made];
        unavailable := unavailable[index := made.None?];
        if made.Some? {
          known := known + {made.value.id};
        }
      }
      decoder := decoders[index];
      assert old(decoders)[index := decoder] == decoders;
    }

    /** A new cycle: nothing decoded before can be referenced any more. */
    method FlushDecoders()
      requires Valid()
      modifies this`cursors, this`flushPending, this`trace
      ensures Valid() && cursors == NO_CURSORS && !flushPending
      ensures trace == old(trace) + Flushes(decoders, CODEC_COUNT)
    {
      cursors := seq(CODEC_COUNT, _ => NO_CURSOR);
      flushPending := false;
      var i := 0;
      assert trace == old(trace) + Flushes(decoders, 0);
      while i < CODEC_COUNT
        invariant i <= CODEC_COUNT && Valid() && cursors == NO_CURSORS && !flushPending
        invariant trace == old(trace) + Flushes(decoders, i)
      {
        if decoders[i].Some? {
          FlushKeepsOthers(trace, decoders[i].value.id);
          trace := trace + [Flushed(decoders[i].value.id)];
        }
        i := i + 1;
      }
    }

    /** Closes every decoder (Disable). */
    method ResetDecoders()
      requires Valid()
      modifies this
      ensures Valid() && trace == old(trace) && known == old(known)
      ensures decoders == seq(CODEC_COUNT, _ => None) && cursors == NO_CURSORS
      ensures !software && !hardwareFailed && !flushPending
    {
      decoders := seq(CODEC_COUNT, _ => None);
      unavailable := seq(CODEC_COUNT, _ => false);
      cursors := seq(CODEC_COUNT, _ => NO_CURSOR);
      lastUsedNs := seq(CODEC_COUNT, _ => 0);
      decodeNs := seq(CODEC_COUNT, _ => 0);
      lastDecodeNs := 0;
      software, hardwareFailed, flushPending := false, false, false;
    }

    /** The cursor a packet of this codec meets. */
    function CursorFor(view: ReadView): ChainCursor
      requires |cursors| == CODEC_COUNT
      reads this
    {
      if flushPending then NO_CURSOR else cursors[CodecIndex(view.payload.codec)]
    }

    /** The decoder a packet of this codec is handed to, if any. */
    function DecoderMet(view: ReadView, made: Option<Decoder>): Option<Decoder>
      requires |decoders| == |unavailable| == CODEC_COUNT
      reads this
    {
      var i := CodecIndex(view.payload.codec);
      if decoders[i].Some? || unavailable[i] then decoders[i] else made
    }

    function Handing(view: ReadView, made: Option<Decoder>): bool
      requires |decoders| == |unavailable| == |cursors| == CODEC_COUNT
      reads this
    {
      && HasData(view)
      && Decodable(view.payload.key, view.payload.chain, view.payload.seqNo, CursorFor(view))
      && DecoderMet(view, made).Some?
    }

    /** Decodes the pinned slot when it may be decoded next, and always unpins it. */
    method DecodePinned(ring: FrameRing, view: ReadView, made: Option<Decoder>, answer: Answer, wantImage: bool)
      returns (outcome: DecodeOutcome)
      requires Valid() && New(made) && ring.Valid()
      modifies this, ring.headers
      ensures Valid() && ring.Valid() && !flushPending
      ensures ring.Logical() == FrameWindow.Unpin(old(ring.Logical()), view.index, view.generation)
      ensures known <= old(known) + (if made.Some? then {made.value.id} else {})
      ensures outcome.Decoded? <==> old(Handing(view, made)) && Accepts(answer, view, wantImage)
      ensures outcome.Skipped? <==>
                HasData(view) && !Decodable(view.payload.key, view.payload.chain, view.payload.seqNo, old(CursorFor(view)))
      ensures var i := CodecIndex(view.payload.codec);
              var start := if old(flushPending) then NO_CURSORS else old(cursors);
              cursors == if outcome.Decoded? then start[i := Cursor(view)]
                         else if outcome.Skipped? || !HasData(view) then start else start[i := NO_CURSOR]
      ensures var flushed := if old(flushPending) then Flushes(old(decoders), CODEC_COUNT) else [];
              trace == old(trace) + flushed +
                       if !old(Handing(view, made)) then []
                       else var id := old(DecoderMet(view, made)).value.id;
                            [Handed(id, view.payload.key, view.payload.chain, view.payload.seqNo, outcome.Decoded?)]
                            + if outcome.Decoded? then [] else [Flushed(id)]
      ensures decoders == if HasData(view) && !outcome.Skipped?
                          then old(decoders)[CodecIndex(view.payload.codec) := old(DecoderMet(view, made))]
                          else old(decoders)
    {
      hide CursorsHold, Known, ValidBitstream, Sound, FrameWindow.Valid, FrameWindow.Unpin;
      if flushPending {
        FlushDecoders();
      }
      outcome := DecodeNext(ring, view, made, answer, wantImage);
    }

    /** The rest, with no flush pending. */
    method DecodeNext(ring: FrameRing, view: ReadView, made: Option<Decoder>, answer: Answer, wantImage: bool)
      returns (outcome: DecodeOutcome)
      requires Valid() && New(made) && ring.Valid() && !flushPending
      modifies this, ring.headers
      ensures Valid() && ring.Valid() && !flushPending
      ensures ring.Logical() == FrameWindow.Unpin(old(ring.Logical()), view.index, view.generation)
      ensures known <= old(known) + (if made.Some? then {made.value.id} else {})
      ensures outcome.Decoded? <==> old(Handing(view, made)) && Accepts(answer, view, wantImage)
      ensures outcome.Skipped? <==>
                HasData(view) && !Decodable(view.payload.key, view.payload.chain, view.payload.seqNo, old(CursorFor(view)))
      ensures cursors == if outcome.Decoded? then old(cursors)[CodecIndex(view.payload.codec) := Cursor(view)]
                         else if outcome.Skipped? || !HasData(view) then old(cursors)
                         else old(cursors)[CodecIndex(view.payload.codec) := NO_CURSOR]
      ensures trace == old(trace) +
                       if !old(Handing(view, made)) then []
                       else var id := old(DecoderMet(view, made)).value.id;
                            [Handed(id, view.payload.key, view.payload.chain, view.payload.seqNo, outcome.Decoded?)]
                            + if outcome.Decoded? then [] else [Flushed(id)]
      ensures decoders == if HasData(view) && !outcome.Skipped?
                          then old(decoders)[CodecIndex(view.payload.codec) := old(DecoderMet(view, made))]
                          else old(decoders)
    {
      hide CursorsHold, Known, ValidBitstream, Sound, FrameWindow.Valid, FrameWindow.Unpin;
      ring.Unpin(view);
      if !HasData(view) {
        return DecodeFailed;
      }
      var index := CodecIndex(view.payload.codec);
      if !Decodable(view.payload.key, view.payload.chain, view.payload.seqNo, cursors[index]) {
        return Skipped;
      }
      var decoder := DecoderFor(index, made);
      if decoder.None? {
        DropCursor(index);
        return DecodeFailed;
      }
      var ok := Accepts(answer, view, wantImage);
      HandOver(index, view, ok);
      NoteDecode(index, decoder.value, answer, ok, wantImage);
      return if ok then Decoded else DecodeFailed;
    }

    /** The bookkeeping of a decode: times, and a hardware decoder that broke. */
    method NoteDecode(index: nat, decoder: Decoder, answer: Answer, ok: bool, wantImage: bool)
      requires Sized() && index < CODEC_COUNT
      modifies this`lastUsedNs, this`lastDecodeNs, this`hardwareFailed, this`decodeNs
      ensures Sized()
      ensures lastUsedNs == old(lastUsedNs)[index := answer.endNs] && lastDecodeNs == answer.endNs
      ensures hardwareFailed <==> old(hardwareFailed) || (!ok && answer.broken && decoder.hardware)
      ensures decodeNs == if ok && wantImage
                          then old(decodeNs)[index := Average(old(decodeNs)[index], answer.endNs - answer.startNs)]
                          else old(decodeNs)
    {
      lastUsedNs := lastUsedNs[index := answer.endNs];
      lastDecodeNs := answer.endNs;
      if !ok {
        if answer.broken && decoder.hardware && !hardwareFailed {
          hardwareFailed := true;
        }
        return;
      }
      if wantImage {
        decodeNs := decodeNs[index := Average(decodeNs[index], answer.endNs - answer.startNs)];
      }
    }

    /** Under the lock, before every decode: the switch between hardware and software decoders, decoders the setup
        thread warmed up (mailbox), decoders no longer used closed. A decoder that changes starts without a cursor. */
    method SyncDecoders(softwareWanted: bool, mailbox: seq<Option<Decoder>>, nowNs: nat)
      requires Valid() && |mailbox| == CODEC_COUNT
      requires forall i :: 0 <= i < CODEC_COUNT ==> New(mailbox[i])
      requires forall i, j :: 0 <= i < j < CODEC_COUNT && mailbox[i].Some? && mailbox[j].Some? ==>
                 mailbox[i].value.id != mailbox[j].value.id
      modifies this
      ensures Valid() && trace == old(trace) && software == (softwareWanted || old(hardwareFailed))
      ensures hardwareFailed == old(hardwareFailed) && flushPending == old(flushPending)
      ensures forall i :: 0 <= i < CODEC_COUNT ==>
                decoders[i] == Synced(old(decoders)[i], i, software != old(software), software, mailbox[i],
                                      Idle(i, old(lastUsedNs)[i], old(lastDecodeNs), nowNs))
      ensures forall i :: 0 <= i < CODEC_COUNT ==>
                cursors[i] == NO_CURSOR || (decoders[i] == old(decoders)[i] && cursors[i] == old(cursors)[i])
      ensures forall i :: 0 <= i < CODEC_COUNT && decoders[i].Some? && decoders[i] == old(decoders)[i] ==>
                cursors[i] == old(cursors)[i]
    {
      SwitchDecoders(softwareWanted || hardwareFailed);
      AdoptDecoders(mailbox);
      CloseIdleDecoders(nowNs);
    }

    method SwitchDecoders(wanted: bool)
      requires Valid()
      modifies this`decoders, this`unavailable, this`cursors, this`decodeNs, this`software
      ensures Valid() && software == wanted
      ensures forall i :: 0 <= i < CODEC_COUNT ==>
                if wanted != old(software) && (i == CodecIndex(H264) || i == CodecIndex(Hevc))
                then decoders[i].None? && cursors[i] == NO_CURSOR
                else decoders[i] == old(decoders)[i] && cursors[i] == old(cursors)[i]
    {
      if wanted == software {
        return;
      }
      software := wanted;
      var codecs := [H264, Hevc];
      for k := 0 to |codecs|
        invariant Valid() && software == wanted
        invariant forall i :: 0 <= i < CODEC_COUNT ==>
                    if exists j :: 0 <= j < k && i == CodecIndex(codecs[j])
                    then decoders[i].None? && cursors[i] == NO_CURSOR
                    else decoders[i] == old(decoders)[i] && cursors[i] == old(cursors)[i]
      {
        var i := CodecIndex(codecs[k]);
        decoders := decoders[i := None];
        unavailable := unavailable[i := false];
        cursors := cursors[i := NO_CURSOR];
        decodeNs := decodeNs[i := if software then SOFTWARE_DECODE_NS else 0];
      }
      assert codecs[0] == H264 && codecs[1] == Hevc;
    }

    method AdoptDecoders(mailbox: seq<Option<Decoder>>)
      requires Valid() && |mailbox| == CODEC_COUNT
      requires forall i :: 0 <= i < CODEC_COUNT ==> New(mailbox[i])
      requires forall i, j :: 0 <= i < j < CODEC_COUNT && mailbox[i].Some? && mailbox[j].Some? ==>
                 mailbox[i].value.id != mailbox[j].value.id
      modifies this`decoders, this`unavailable, this`cursors, this`known
      ensures Valid()
      ensures forall i :: 0 <= i < CODEC_COUNT ==>
                if old(decoders)[i].None? && !software && mailbox[i].Some?
                then decoders[i] == mailbox[i] && cursors[i] == NO_CURSOR
                else decoders[i] == old(decoders)[i] && cursors[i] == old(cursors)[i]
    {
      for i := 0 to CODEC_COUNT
        invariant Valid()
        invariant forall k :: i <= k < CODEC_COUNT ==> New(mailbox[k])
        invariant forall k :: 0 <= k < CODEC_COUNT ==>
                    if k < i && old(decoders)[k].None? && !software && mailbox[k].Some?
                    then decoders[k] == mailbox[k] && cursors[k] == NO_CURSOR
                    else decoders[k] == old(decoders)[k] && cursors[k] == old(cursors)[k]
      {
        if mailbox[i].Some? && decoders[i].None? && !software {
          decoders := decoders[i := mailbox[i]];
          unavailable := unavailable[i := false];
          cursors := cursors[i := NO_CURSOR];
          known := known + {mailbox[i].value.id};
        }
      }
    }

    method CloseIdleDecoders(nowNs: nat)
      requires Valid()
      modifies this`decoders, this`cursors, this`lastUsedNs
      ensures Valid()
      ensures forall i :: 0 <= i < CODEC_COUNT ==>
                if decoders[i] != old(decoders)[i] then decoders[i].None? && cursors[i] == NO_CURSOR
                else cursors[i] == old(cursors)[i]
      ensures forall i :: 0 <= i < CODEC_COUNT ==>
                decoders[i] == if Idle(i, old(lastUsedNs)[i], lastDecodeNs, nowNs) then None else old(decoders)[i]
    {
      var i := CodecIndex(Mjpeg);
      while i < CODEC_COUNT
        invariant CodecIndex(Mjpeg) <= i <= CODEC_COUNT && Valid()
        invariant forall k :: i <= k < CODEC_COUNT ==> lastUsedNs[k] == old(lastUsedNs)[k]
        invariant forall k :: 0 <= k < CODEC_COUNT ==>
                    if decoders[k] != old(decoders)[k] then decoders[k].None? && cursors[k] == NO_CURSOR
                    else cursors[k] == old(cursors)[k]
        invariant forall k :: 0 <= k < CODEC_COUNT ==>
                    decoders[k] == if k < i && Idle(k, old(lastUsedNs)[k], lastDecodeNs, nowNs) then None else old(decoders)[k]
      {
        if decoders[i].Some? && lastUsedNs[i] != 0 && lastDecodeNs > lastUsedNs[i]
           && nowNs > lastUsedNs[i] + DECODER_IDLE_NS {
          decoders := decoders[i := None];
          cursors := cursors[i := NO_CURSOR];
          lastUsedNs := lastUsedNs[i := 0];
        }
        i := i + 1;
      }
    }

    /** Whatever comes next needs a key. */
    method DropCursor(index: nat)
      requires Valid() && index < CODEC_COUNT
      modifies this`cursors
      ensures Valid() && cursors == old(cursors)[index := NO_CURSOR]
    {
      cursors := cursors[index := NO_CURSOR];
    }

    /** One packet goes to a decoder; a decoder that fails it is flushed. */
    method HandOver(index: nat, view: ReadView, ok: bool)
      requires Valid() && index < CODEC_COUNT && decoders[index].Some?
      requires Decodable(view.payload.key, view.payload.chain, view.payload.seqNo, cursors[index])
      modifies this`cursors, this`trace
      ensures Valid()
      ensures cursors == old(cursors)[index := if ok then Cursor(view) else NO_CURSOR]
      ensures var id := decoders[index].value.id;
              trace == old(trace)
                       + [Handed(id, view.payload.key, view.payload.chain, view.payload.seqNo, ok)]
                       + if ok then [] else [Flushed(id)]
    {
      var id := decoders[index].value.id;
      ghost var handed := Handed(id, view.payload.key, view.payload.chain, view.payload.seqNo, ok);
      BitstreamGrows(trace, handed);
      forall d: nat
        ensures LastOf(trace + [handed], d) == if d == id then Some(handed) else LastOf(trace, d)
      {
        LastOfAppended(trace, handed, d);
      }
      trace := trace + [handed];
      cursors := cursors[index := if ok then Cursor(view) else NO_CURSOR];
      if !ok {
        FlushKeepsOthers(trace, id);
        trace := trace + [Flushed(id)];
      }
    }
  }
}
