/** Annex B byte streams (src/annexb.cpp): NAL units behind start codes, as section B.1 of ITU-T H.264 and section B.2
    of ITU-T H.265 lay them out, and copying one key's parameter sets in front of another. */
module AnnexB {
  import opened Seqs
  import opened Words
  import opened Storage

  type Bytes = seq<Byte>

  function NalType(codec: CodecId, header: Byte): nat { if codec == Hevc then header / 2 % 64 else header % 32 }

  predicate IsParameterSet(codec: CodecId, type_: nat) {
    match codec
    case Hevc => type_ == 32 || type_ == 33 || type_ == 34
    case H264 => type_ == 7 || type_ == 8
    case _ => false
  }

  predicate IsSlice(codec: CodecId, type_: nat) {
    match codec
    case Hevc => type_ <= 31
    case H264 => 1 <= type_ <= 5
    case _ => false
  }

  /** begin: its start code; data: its header byte; end: one past its last byte. */
  datatype Nal = Nal(begin: nat, data: nat, end: nat, type_: nat)

  // --- What splitting finds ---

  /** The three bytes 00 00 01 stand at position i. */
  predicate StartAt(d: Bytes, i: nat) { i + 2 < |d| && d[i] == 0 && d[i + 1] == 0 && d[i + 2] == 1 }

  function NextStart(d: Bytes, i: nat): (k: nat)
    requires i <= |d|
    ensures i <= k <= |d| && (k < |d| ==> StartAt(d, k)) && forall m :: i <= m < k ==> !StartAt(d, m)
    decreases |d| - i
  {
    if i == |d| || StartAt(d, i) then i else NextStart(d, i + 1)
  }

  /** A fourth 00 in front belongs to the start code. */
  function Begin(d: Bytes, k: nat): (b: nat)
    requires k < |d|
    ensures b <= k <= b + 1
  {
    if k > 0 && d[k - 1] == 0 then k - 1 else k
  }

  function EndOf(d: Bytes, header: nat): nat
    requires header <= |d|
  {
    var k := NextStart(d, header);
    if k == |d| then |d| else Begin(d, k)
  }

  function NalAt(codec: CodecId, d: Bytes, k: nat): Nal
    requires StartAt(d, k) && k + 3 < |d|
  {
    Nal(Begin(d, k), k + 3, EndOf(d, k + 3), NalType(codec, d[k + 3]))
  }

  /** The NAL units from position i on; a start code with nothing after it ends the walk. */
  function NalsFrom(codec: CodecId, d: Bytes, i: nat): seq<Nal>
    requires i <= |d|
    decreases |d| - i
  {
    var k := NextStart(d, i);
    if k + 3 >= |d| then [] else [NalAt(codec, d, k)] + NalsFrom(codec, d, k + 3)
  }

  /** One after the other, each from its start code to the next, with no start code inside. */
  ghost predicate Tiles(d: Bytes, nals: seq<Nal>) {
    && (forall n :: 0 <= n < |nals| ==> nals[n].begin < nals[n].data <= nals[n].end <= |d|)
    && (forall n :: 0 < n < |nals| ==> nals[n].begin == nals[n - 1].end)
    && (forall n, m :: 0 <= n < |nals| && nals[n].data <= m && m + 3 <= nals[n].end ==> !StartAt(d, m))
  }

  lemma NalBounds(codec: CodecId, d: Bytes, k: nat)
    requires StartAt(d, k) && k + 3 < |d|
    ensures var nal := NalAt(codec, d, k);
            && nal.begin < nal.data <= nal.end <= |d|
            && (forall m :: nal.data <= m && m + 3 <= nal.end ==> !StartAt(d, m))
  {
  }

  lemma TilesOneMore(d: Bytes, nal: Nal, rest: seq<Nal>)
    requires Tiles(d, rest) && (rest != [] ==> rest[0].begin == nal.end)
    requires nal.begin < nal.data <= nal.end <= |d|
    requires forall m :: nal.data <= m && m + 3 <= nal.end ==> !StartAt(d, m)
    ensures Tiles(d, [nal] + rest)
  {
  }

  /** Where the last unit ends: with the packet, or at a start code that has nothing after it. */
  ghost predicate EndsRight(d: Bytes, end: nat) {
    end == |d| || exists k: nat :: end <= k <= end + 1 && StartAt(d, k) && k + 3 == |d|
  }

  lemma NalsStep(codec: CodecId, d: Bytes, i: nat)
    requires i <= |d|
    ensures var k := NextStart(d, i);
            i <= k <= |d| && (k + 3 < |d| ==> StartAt(d, k))
            && NalsFrom(codec, d, i) == if k + 3 >= |d| then [] else [NalAt(codec, d, k)] + NalsFrom(codec, d, k + 3)
  {
  }

  lemma EndIs(codec: CodecId, d: Bytes, k: nat)
    requires StartAt(d, k) && k + 3 < |d|
    ensures NalAt(codec, d, k).begin == Begin(d, k)
    ensures NextStart(d, k + 3) < |d| ==> NalAt(codec, d, k).end == Begin(d, NextStart(d, k + 3))
    ensures NalAt(codec, d, k).end == EndOf(d, k + 3)
  {
  }

  /** Splitting loses nothing from the first start code on: the units tile the packet up to where it ends. */
  lemma {:induction false} SplitTiles(codec: CodecId, d: Bytes, i: nat)
    requires i <= |d|
    ensures var nals := NalsFrom(codec, d, i);
            && Tiles(d, nals)
            && (nals != [] ==> NextStart(d, i) < |d| && nals[0].begin == Begin(d, NextStart(d, i))
                               && EndsRight(d, nals[|nals| - 1].end))
    decreases |d| - i
  {
    hide Tiles, EndsRight, NextStart, StartAt, NalsFrom, NalAt, Begin, EndOf;
    NalsStep(codec, d, i);
    var k := NextStart(d, i);
    if k + 3 < |d| {
      var nal, rest := NalAt(codec, d, k), NalsFrom(codec, d, k + 3);
      NalBounds(codec, d, k);
      EndIs(codec, d, k);
      SplitTiles(codec, d, k + 3);
      TilesOneMore(d, nal, rest);
      if rest == [] {
        NalsStep(codec, d, k + 3);
        LastEnds(d, k + 3);
      } else {
        assert ([nal] + rest)[|rest|] == rest[|rest| - 1];
      }
    } else {
      NoneTile(d);
    }
  }

  lemma NoneTile(d: Bytes)
    ensures Tiles(d, [])
  {
  }

  lemma LastEnds(d: Bytes, header: nat)
    requires header <= |d| && NextStart(d, header) + 3 >= |d|
    ensures EndsRight(d, EndOf(d, header))
  {
    var next := NextStart(d, header);
    if next < |d| {
      assert StartAt(d, next) && next + 3 == |d|;
    }
  }

  method Split(codec: CodecId, d: Bytes) returns (nals: seq<Nal>)
    ensures nals == NalsFrom(codec, d, 0)
  {
    hide NextStart, EndOf, Begin, NalsFrom, Closed, NalAt, StartAt;
    nals := [];
    if |d| < 4 {
      TooShort(codec, d, 0, []);
      return;
    }
    var i := 0;
    var open_ := false;
    NothingFound(d);
    while i + 2 < |d|
      invariant 0 <= i <= |d| && open_ == (nals != [])
      invariant Closed(d, nals, i) + NalsFrom(codec, d, i) == NalsFrom(codec, d, 0)
      invariant open_ ==> nals[|nals| - 1].end == |d|
      decreases |d| - i
    {
      StartIs(d, i);
      if d[i] != 0 || d[i + 1] != 0 || d[i + 2] != 1 {
        StepPast(codec, d, i, nals);
        i := i + 1;
        continue;
      }
      var begin := if i > 0 && d[i - 1] == 0 then i - 1 else i;
      StepInto(codec, d, i, nals);
      BeginIs(d, i);
      if open_ {
        nals := nals[|nals| - 1 := nals[|nals| - 1].(end := begin)];
      }
      var header := i + 3;
      if header >= |d| {
        return;
      }
      var nal := Nal(begin, header, |d|, NalType(codec, d[header]));
      CloseNew(codec, d, i, nals, nal);
      nals := nals + [nal];
      open_ := true;
      i := header;
    }
    TooShort(codec, d, i, nals);
  }

  /** The units found so far, the last one ended where the walk from position i will end it. */
  ghost function Closed(d: Bytes, nals: seq<Nal>, i: nat): seq<Nal>
    requires i <= |d|
  {
    if nals == [] then [] else nals[|nals| - 1 := nals[|nals| - 1].(end := EndOf(d, i))]
  }

  lemma NothingFound(d: Bytes)
    ensures Closed(d, [], 0) == []
  {
  }

  lemma TooShort(codec: CodecId, d: Bytes, i: nat, nals: seq<Nal>)
    requires i <= |d| && (|d| <= i + 2 || |d| <= 3) && (nals != [] ==> nals[|nals| - 1].end == |d|)
    ensures NalsFrom(codec, d, i) == []
    ensures |d| <= i + 2 ==> Closed(d, nals, i) == nals
  {
  }

  lemma StartIs(d: Bytes, i: nat)
    requires i + 2 < |d|
    ensures StartAt(d, i) <==> d[i] == 0 && d[i + 1] == 0 && d[i + 2] == 1
  {
  }

  lemma BeginIs(d: Bytes, i: nat)
    requires i < |d|
    ensures Begin(d, i) == if i > 0 && d[i - 1] == 0 then i - 1 else i
  {
  }

  lemma StepPast(codec: CodecId, d: Bytes, i: nat, nals: seq<Nal>)
    requires i < |d| && !StartAt(d, i)
    ensures NalsFrom(codec, d, i) == NalsFrom(codec, d, i + 1) && Closed(d, nals, i) == Closed(d, nals, i + 1)
  {
  }

  lemma StepInto(codec: CodecId, d: Bytes, i: nat, nals: seq<Nal>)
    requires StartAt(d, i)
    ensures Closed(d, nals, i) == if nals == [] then [] else nals[|nals| - 1 := nals[|nals| - 1].(end := Begin(d, i))]
    ensures NalsFrom(codec, d, i) == if i + 3 >= |d| then [] else [NalAt(codec, d, i)] + NalsFrom(codec, d, i + 3)
  {
  }

  lemma CloseNew(codec: CodecId, d: Bytes, i: nat, nals: seq<Nal>, nal: Nal)
    requires StartAt(d, i) && i + 3 < |d| && nal == Nal(Begin(d, i), i + 3, |d|, NalType(codec, d[i + 3]))
    ensures Closed(d, nals + [nal], i + 3) == nals + [NalAt(codec, d, i)]
  {
  }

  // --- Parameter sets ---

  /** The types before the first slice. */
  function BeforeSlice(codec: CodecId, types: seq<nat>): seq<nat> {
    if types == [] || IsSlice(codec, types[0]) then [] else [types[0]] + BeforeSlice(codec, types[1..])
  }

  /** Every parameter set a decoder needs is among these. */
  predicate AllSets(codec: CodecId, types: seq<nat>) {
    match codec
    case Hevc => 32 in types && 33 in types && 34 in types
    case H264 => 7 in types && 8 in types
    case _ => false
  }

  function Types(nals: seq<Nal>): (types: seq<nat>)
    ensures |types| == |nals| && forall n :: 0 <= n < |types| ==> types[n] == nals[n].type_
  {
    seq(|nals|, n requires 0 <= n < |nals| => nals[n].type_)
  }

  predicate InBand(codec: CodecId, d: Bytes) {
    AllSets(codec, BeforeSlice(codec, Types(NalsFrom(codec, d, 0))))
  }

  const START_CODE: Bytes := [0, 0, 0, 1]

  /** The parameter sets among the first units, up to a slice, each behind a four-byte start code. */
  function SetsOf(codec: CodecId, d: Bytes, nals: seq<Nal>): Bytes
    requires forall n :: 0 <= n < |nals| ==> nals[n].data <= nals[n].end <= |d|
  {
    if nals == [] || IsSlice(codec, nals[0].type_) then []
    else (if IsParameterSet(codec, nals[0].type_) then START_CODE + d[nals[0].data..nals[0].end] else [])
         + SetsOf(codec, d, nals[1..])
  }

  function Extracted(codec: CodecId, d: Bytes): Bytes {
    SplitTiles(codec, d, 0);
    if InBand(codec, d) then SetsOf(codec, d, NalsFrom(codec, d, 0)) else []
  }

  method HasInBandParameterSets(codec: CodecId, d: Bytes) returns (has: bool)
    ensures has == InBand(codec, d)
  {
    hide NalsFrom, BeforeSlice;
    if !InterCodec(codec) {
      return false;
    }
    var nals := Split(codec, d);
    has := FindSets(codec, Types(nals));
  }

  method FindSets(codec: CodecId, types: seq<nat>) returns (has: bool)
    requires InterCodec(codec)
    ensures has == AllSets(codec, BeforeSlice(codec, types))
  {
    hide IsSlice;
    var vps, sps, pps := codec != Hevc, false, false;
    var n := 0;
    while n < |types|
      invariant 0 <= n <= |types|
      invariant AllSets(codec, BeforeSlice(codec, types)) == StillAll(codec, vps, sps, pps, BeforeSlice(codec, types[n..]))
    {
      var type_ := types[n];
      assert types[n..][1..] == types[n + 1..] && types[n..][0] == type_;
      if IsSlice(codec, type_) {
        break;
      }
      OneMoreType(codec, vps, sps, pps, type_, BeforeSlice(codec, types[n + 1..]));
      if codec == Hevc {
        vps := vps || type_ == 32;
        sps := sps || type_ == 33;
        pps := pps || type_ == 34;
      } else {
        sps := sps || type_ == 7;
        pps := pps || type_ == 8;
      }
      n := n + 1;
    }
    has := vps && sps && pps;
  }

  /** What the flags and the types still to come make up. */
  predicate StillAll(codec: CodecId, vps: bool, sps: bool, pps: bool, types: seq<nat>) {
    if codec == Hevc then (vps || 32 in types) && (sps || 33 in types) && (pps || 34 in types)
    else vps && (sps || 7 in types) && (pps || 8 in types)
  }

  lemma OneMoreType(codec: CodecId, vps: bool, sps: bool, pps: bool, type_: nat, types: seq<nat>)
    ensures StillAll(codec, vps, sps, pps, [type_] + types)
            == if codec == Hevc then StillAll(codec, vps || type_ == 32, sps || type_ == 33, pps || type_ == 34, types)
               else StillAll(codec, vps, sps || type_ == 7, pps || type_ == 8, types)
  {
    assert forall t :: t in [type_] + types <==> t == type_ || t in types;
  }

  method ExtractParameterSets(codec: CodecId, d: Bytes) returns (out: Bytes)
    ensures out == Extracted(codec, d)
  {
    hide NalsFrom, InBand;
    out := [];
    var has := HasInBandParameterSets(codec, d);
    if !has {
      return;
    }
    var nals := Split(codec, d);
    SplitTiles(codec, d, 0);
    out := GatherSets(codec, d, nals);
  }

  method GatherSets(codec: CodecId, d: Bytes, nals: seq<Nal>) returns (out: Bytes)
    requires forall n :: 0 <= n < |nals| ==> nals[n].data <= nals[n].end <= |d|
    ensures out == SetsOf(codec, d, nals)
  {
    hide IsSlice, IsParameterSet;
    out := [];
    var n := 0;
    assert nals[0..] == nals;
    while n < |nals|
      invariant 0 <= n <= |nals|
      invariant out + SetsOf(codec, d, nals[n..]) == SetsOf(codec, d, nals)
    {
      var nal := nals[n];
      assert nals[n..][1..] == nals[n + 1..] && nals[n..][0] == nal;
      if IsSlice(codec, nal.type_) {
        break;
      }
      if IsParameterSet(codec, nal.type_) {
        Regroup4(out, START_CODE, d[nal.data..nal.end], SetsOf(codec, d, nals[n + 1..]));
        out := out + START_CODE + d[nal.data..nal.end];
      }
      n := n + 1;
    }
  }

  /** None: the packet has its own, or there is nothing to put in front of it. */
  method PrependParameterSets(codec: CodecId, parameterSets: Bytes, d: Bytes) returns (out: Option<Bytes>)
    ensures out == if parameterSets == [] || d == [] || InBand(codec, d) then None else Some(parameterSets + d)
  {
    if parameterSets == [] || d == [] {
      return None;
    }
    var has := HasInBandParameterSets(codec, d);
    out := if has then None else Some(parameterSets + d);
  }

  // --- Patching works ---

  /** The types of the units of a stream, read off from the front. */
  function TypesIn(codec: CodecId, s: Bytes): seq<nat> {
    if |s| < 3 then []
    else if s[..3] != [0, 0, 1] then TypesIn(codec, s[1..])
    else if |s| == 3 then []
    else [NalType(codec, s[3])] + TypesIn(codec, s[3..])
  }

  lemma {:induction false} TypesOfNals(codec: CodecId, d: Bytes, i: nat)
    requires i <= |d|
    ensures Types(NalsFrom(codec, d, i)) == TypesIn(codec, d[i..])
    decreases |d| - i
  {
    hide NalsFrom, TypesIn, StartAt, NalAt;
    if i + 2 < |d| {
      StartHere(codec, d, i);
      TypesHere(codec, d, i);
      if !StartAt(d, i) {
        TypesOfNals(codec, d, i + 1);
      } else if i + 3 < |d| {
        TypesOfNals(codec, d, i + 3);
        TypesCons(NalAt(codec, d, i), NalsFrom(codec, d, i + 3));
      }
    } else {
      TooShort(codec, d, i, []);
      NoTypes(codec, d[i..]);
    }
  }

  lemma TypesCons(nal: Nal, rest: seq<Nal>)
    ensures Types([nal] + rest) == [nal.type_] + Types(rest)
  {
  }

  lemma NoTypes(codec: CodecId, s: Bytes)
    requires |s| < 3
    ensures TypesIn(codec, s) == []
  {
  }

  lemma TypesHere(codec: CodecId, d: Bytes, i: nat)
    requires i + 2 < |d|
    ensures !StartAt(d, i) ==> TypesIn(codec, d[i..]) == TypesIn(codec, d[i + 1..])
    ensures StartAt(d, i) && i + 3 >= |d| ==> TypesIn(codec, d[i..]) == []
    ensures StartAt(d, i) && i + 3 < |d| ==> TypesIn(codec, d[i..]) == [NalAt(codec, d, i).type_] + TypesIn(codec, d[i + 3..])
  {
    assert d[i..][..3] == [d[i], d[i + 1], d[i + 2]];
    assert d[i..][1..] == d[i + 1..] && d[i..][3..] == d[i + 3..];
    hide NextStart, EndOf;
  }

  lemma StartHere(codec: CodecId, d: Bytes, i: nat)
    requires i + 2 < |d|
    ensures !StartAt(d, i) ==> NalsFrom(codec, d, i) == NalsFrom(codec, d, i + 1)
    ensures StartAt(d, i) ==>
              NalsFrom(codec, d, i) == if i + 3 >= |d| then [] else [NalAt(codec, d, i)] + NalsFrom(codec, d, i + 3)
  {
  }

  predicate NoStart(s: Bytes) { forall m :: 0 <= m && m + 3 <= |s| ==> !(s[m] == 0 && s[m + 1] == 0 && s[m + 2] == 1) }

  /** A start code right behind a payload is the first one the walk meets there: none arises from the payload's end. */
  lemma {:induction false} PayloadThenStart(codec: CodecId, payload: Bytes, rest: Bytes)
    requires NoStart(payload)
    ensures TypesIn(codec, payload + (START_CODE + rest)) == TypesIn(codec, [0, 0, 1] + rest)
    decreases |payload|
  {
    var s := payload + (START_CODE + rest);
    if payload == [] {
      assert s == [0] + ([0, 0, 1] + rest);
      assert s[..3] == [0, 0, 0] && s[1..] == [0, 0, 1] + rest;
    } else {
      assert s[..3] != [0, 0, 1] by {
        assert s[..3] == [s[0], s[1], s[2]];
      }
      assert s[1..] == payload[1..] + (START_CODE + rest);
      PayloadThenStart(codec, payload[1..], rest);
    }
  }

  lemma StartCodeRead(codec: CodecId, rest: Bytes)
    requires rest != []
    ensures TypesIn(codec, START_CODE + rest) == TypesIn(codec, [0, 0, 1] + rest)
    ensures TypesIn(codec, START_CODE + rest) == [NalType(codec, rest[0])] + TypesIn(codec, rest)
  {
    var s := START_CODE + rest;
    assert s[..3] == [0, 0, 0] && s[1..] == [0, 0, 1] + rest;
    assert s[1..][..3] == [0, 0, 1] && s[1..][3..] == rest;
  }

  /** The types of the parameter sets before the first slice. */
  function SetTypes(codec: CodecId, nals: seq<Nal>): seq<nat> {
    if nals == [] || IsSlice(codec, nals[0].type_) then []
    else (if IsParameterSet(codec, nals[0].type_) then [nals[0].type_] else []) + SetTypes(codec, nals[1..])
  }

  /** What splitting promises of each unit. */
  ghost predicate Sound(codec: CodecId, d: Bytes, nals: seq<Nal>) {
    forall n :: 0 <= n < |nals| ==> SoundNal(codec, d, nals[n])
  }

  ghost predicate SoundNal(codec: CodecId, d: Bytes, nal: Nal) {
    && nal.data <= nal.end <= |d| && nal.data < |d| && nal.type_ == NalType(codec, d[nal.data])
    && NoStart(d[nal.data..nal.end]) && (nal.data == nal.end ==> d[nal.data] == 0)
  }

  lemma NalIsSound(codec: CodecId, d: Bytes, k: nat)
    requires StartAt(d, k) && k + 3 < |d|
    ensures SoundNal(codec, d, NalAt(codec, d, k))
  {
    var nal := NalAt(codec, d, k);
    NalBounds(codec, d, k);
    var payload := d[nal.data..nal.end];
    forall m | 0 <= m && m + 3 <= |payload|
      ensures !(payload[m] == 0 && payload[m + 1] == 0 && payload[m + 2] == 1)
    {
      assert !StartAt(d, nal.data + m);
    }
    if nal.data == nal.end {
      assert StartAt(d, NextStart(d, k + 3));
    }
  }

  lemma {:induction false} NalsAreSound(codec: CodecId, d: Bytes, i: nat)
    requires i <= |d|
    ensures Sound(codec, d, NalsFrom(codec, d, i))
    decreases |d| - i
  {
    hide SoundNal, NalAt, NextStart, StartAt;
    NalsStep(codec, d, i);
    var k := NextStart(d, i);
    if k + 3 < |d| {
      NalIsSound(codec, d, k);
      NalsAreSound(codec, d, k + 3);
    }
  }

  lemma SetHasPayload(codec: CodecId, d: Bytes, nal: Nal)
    requires SoundNal(codec, d, nal) && IsParameterSet(codec, nal.type_)
    ensures nal.data < nal.end && d[nal.data..nal.end][0] == d[nal.data] && NoStart(d[nal.data..nal.end])
  {
  }

  /** Gathered sets start with a start code, if there are any. */
  lemma {:induction false} SetsStart(codec: CodecId, d: Bytes, nals: seq<Nal>) returns (rest: Bytes)
    requires Sound(codec, d, nals)
    ensures SetsOf(codec, d, nals) == [] || SetsOf(codec, d, nals) == START_CODE + rest
    ensures SetsOf(codec, d, nals) == [] ==> SetTypes(codec, nals) == []
    decreases |nals|
  {
    rest := [];
    if nals != [] && !IsSlice(codec, nals[0].type_) {
      if IsParameterSet(codec, nals[0].type_) {
        var payload, more := d[nals[0].data..nals[0].end], SetsOf(codec, d, nals[1..]);
        Regroup3(START_CODE, payload, more);
        rest := payload + more;
      } else {
        rest := SetsStart(codec, d, nals[1..]);
        assert [] + SetsOf(codec, d, nals[1..]) == SetsOf(codec, d, nals[1..]);
      }
    }
  }

  /** Read back with anything behind them, the gathered sets come first. */
  lemma {:induction false} SetsReadBack(codec: CodecId, d: Bytes, nals: seq<Nal>, q: Bytes)
    requires Sound(codec, d, nals)
    ensures SetTypes(codec, nals) <= TypesIn(codec, SetsOf(codec, d, nals) + q)
    decreases |nals|
  {
    if nals == [] || IsSlice(codec, nals[0].type_) {
    } else if !IsParameterSet(codec, nals[0].type_) {
      SetsReadBack(codec, d, nals[1..], q);
      assert [] + SetsOf(codec, d, nals[1..]) == SetsOf(codec, d, nals[1..]);
    } else {
      FirstSetReadsBack(codec, d, nals, q);
    }
  }

  lemma {:induction false} FirstSetReadsBack(codec: CodecId, d: Bytes, nals: seq<Nal>, q: Bytes)
    requires Sound(codec, d, nals) && nals != [] && IsParameterSet(codec, nals[0].type_) && !IsSlice(codec, nals[0].type_)
    ensures SetTypes(codec, nals) <= TypesIn(codec, SetsOf(codec, d, nals) + q)
    decreases |nals|, 0
  {
    hide NoStart, TypesIn;
    var nal, payload, more := nals[0], d[nals[0].data..nals[0].end], SetsOf(codec, d, nals[1..]);
    SetHasPayload(codec, d, nal);
    var rest := SetsStart(codec, d, nals[1..]);
    SetsReadBack(codec, d, nals[1..], q);
    assert nal.type_ == NalType(codec, payload[0]);
    hide Sound, IsSlice, NalType;
    assert SetsOf(codec, d, nals) + q == START_CODE + (payload + (more + q));
    SetThenMore(codec, payload, more, rest, q);
  }

  /** A set is read, and then what follows it. */
  lemma SetThenMore(codec: CodecId, payload: Bytes, more: Bytes, rest: Bytes, q: Bytes)
    requires payload != [] && NoStart(payload)
    requires more == [] || more == START_CODE + rest
    ensures [NalType(codec, payload[0])] + (if more == [] then [] else TypesIn(codec, more + q))
            <= TypesIn(codec, START_CODE + (payload + (more + q)))
  {
    hide NoStart, NalType, TypesIn;
    StartCodeRead(codec, payload + (more + q));
    if more != [] {
      PayloadThenStart(codec, payload, rest + q);
      Regroup3(START_CODE, rest, q);
      StartCodeRead2(codec, rest + q);
    }
  }

  /** Three bytes or four. */
  lemma StartCodeRead2(codec: CodecId, rest: Bytes)
    ensures TypesIn(codec, START_CODE + rest) == TypesIn(codec, [0, 0, 1] + rest)
  {
    var s := START_CODE + rest;
    assert s[..3] == [0, 0, 0] && s[1..] == [0, 0, 1] + rest;
  }

  lemma {:induction false} SetTypesKeep(codec: CodecId, nals: seq<Nal>, t: nat)
    requires IsParameterSet(codec, t)
    ensures t in BeforeSlice(codec, Types(nals)) ==> t in SetTypes(codec, nals)
    ensures forall x :: x in SetTypes(codec, nals) ==> IsParameterSet(codec, x)
    decreases |nals|
  {
    if nals != [] && !IsSlice(codec, nals[0].type_) {
      assert Types(nals)[1..] == Types(nals[1..]);
      SetTypesKeep(codec, nals[1..], t);
    }
  }

  lemma {:induction false} PrefixBeforeSlice(codec: CodecId, pre: seq<nat>, types: seq<nat>)
    requires pre <= types && forall x :: x in pre ==> !IsSlice(codec, x)
    ensures forall x :: x in pre ==> x in BeforeSlice(codec, types)
    decreases |pre|
  {
    if pre != [] {
      assert pre[0] == types[0] && pre[1..] <= types[1..];
      PrefixBeforeSlice(codec, pre[1..], types[1..]);
      assert forall x :: x in pre ==> x == pre[0] || x in pre[1..];
    }
  }

  /** Whatever packet follows, the sets one packet carried in band are in band in front of it. */
  lemma PatchedHasSets(codec: CodecId, d: Bytes, q: Bytes)
    requires InBand(codec, d)
    ensures Extracted(codec, d) != [] && InBand(codec, Extracted(codec, d) + q)
  {
    var nals := NalsFrom(codec, d, 0);
    var sets := Extracted(codec, d);
    NalsAreSound(codec, d, 0);
    SetsReadBack(codec, d, nals, q);
    TypesOfNals(codec, sets + q, 0);
    assert (sets + q)[0..] == sets + q;
    var types, pre := TypesIn(codec, sets + q), SetTypes(codec, nals);
    var rest := SetsStart(codec, d, nals);
    hide NalsFrom, TypesIn, SetsOf, Extracted;
    if codec == Hevc {
      SetTypesKeep(codec, nals, 32);
      SetTypesKeep(codec, nals, 33);
      SetTypesKeep(codec, nals, 34);
    } else {
      SetTypesKeep(codec, nals, 7);
      SetTypesKeep(codec, nals, 8);
    }
    PrefixBeforeSlice(codec, pre, types);
    hide BeforeSlice, SetTypes;
    assert pre != [];
  }
}
