/** What is in a packet with another packet's parameter sets in front of it (src/annexb.cpp), byte for byte. */
module PatchedPackets {
  import opened Seqs
  import opened Words
  import opened Storage
  import opened AnnexB

  // --- Sets in band ---

  /** What a decoder of the codec needs before the first slice. */
  predicate Needed(codec: CodecId, type_: nat) {
    (codec == Hevc && 32 <= type_ <= 34) || (codec == H264 && 7 <= type_ <= 8)
  }

  predicate Slice(codec: CodecId, type_: nat) {
    (codec == Hevc && type_ < 32) || (codec == H264 && 1 <= type_ <= 5)
  }

  /** Unit i is of that type, and no slice comes before it. */
  predicate Early(codec: CodecId, nals: seq<Nal>, i: nat, type_: nat)
    requires i < |nals|
  {
    nals[i].type_ == type_ && forall j :: 0 <= j <= i ==> !Slice(codec, nals[j].type_)
  }

  ghost predicate AllEarly(codec: CodecId, nals: seq<Nal>) {
    forall type_ :: Needed(codec, type_) ==> exists i: nat :: i < |nals| && Early(codec, nals, i, type_)
  }

  /** A packet has its sets in band if and only if each one needed is among its units, with no slice before. */
  lemma InBandIff(codec: CodecId, d: Bytes)
    ensures InBand(codec, d) <==> (codec == Hevc || codec == H264) && AllEarly(codec, NalsFrom(codec, d, 0))
  {
    var nals := NalsFrom(codec, d, 0);
    forall type_ | Needed(codec, type_)
      ensures type_ in BeforeSlice(codec, Types(nals)) <==> exists i: nat :: i < |nals| && Early(codec, nals, i, type_)
    {
      EarlyIff(codec, nals, type_);
    }
    hide NalsFrom, BeforeSlice, Early;
    if codec == Hevc {
      assert Needed(codec, 32) && Needed(codec, 33) && Needed(codec, 34);
    } else if codec == H264 {
      assert Needed(codec, 7) && Needed(codec, 8);
    }
  }

  lemma {:induction false} EarlyIff(codec: CodecId, nals: seq<Nal>, type_: nat)
    ensures type_ in BeforeSlice(codec, Types(nals)) <==> exists i: nat :: i < |nals| && Early(codec, nals, i, type_)
    decreases |nals|
  {
    if nals != [] && !Slice(codec, nals[0].type_) {
      var rest := nals[1..];
      assert Types(nals)[1..] == Types(rest);
      EarlyIff(codec, rest, type_);
      if nals[0].type_ == type_ {
        assert Early(codec, nals, 0, type_);
      } else if type_ in BeforeSlice(codec, Types(rest)) {
        var i: nat :| i < |rest| && Early(codec, rest, i, type_);
        assert Early(codec, nals, i + 1, type_);
      } else {
        forall i: nat | i < |nals|
          ensures !Early(codec, nals, i, type_)
        {
          if i > 0 && Early(codec, nals, i, type_) {
            assert Early(codec, rest, i - 1, type_);
          }
        }
      }
    }
  }

  // --- The units of a packet, byte for byte ---

  function Payloads(d: Bytes, nals: seq<Nal>): (units: seq<Bytes>)
    requires forall n :: 0 <= n < |nals| ==> nals[n].data <= nals[n].end <= |d|
    ensures |units| == |nals|
    ensures forall n :: 0 <= n < |nals| ==> units[n] == d[nals[n].data..nals[n].end]
  {
    seq(|nals|, n requires 0 <= n < |nals| => d[nals[n].data..nals[n].end])
  }

  /** What splitting a packet finds. */
  function Units(codec: CodecId, d: Bytes): seq<Bytes> {
    SplitTiles(codec, d, 0);
    Payloads(d, NalsFrom(codec, d, 0))
  }

  /** The units that are parameter sets, up to the first slice. */
  function SetUnits(codec: CodecId, d: Bytes, nals: seq<Nal>): seq<Bytes>
    requires forall n :: 0 <= n < |nals| ==> nals[n].data <= nals[n].end <= |d|
  {
    if nals == [] || IsSlice(codec, nals[0].type_) then []
    else (if IsParameterSet(codec, nals[0].type_) then [d[nals[0].data..nals[0].end]] else []) + SetUnits(codec, d, nals[1..])
  }

  function Sets(codec: CodecId, d: Bytes): seq<Bytes> {
    SplitTiles(codec, d, 0);
    SetUnits(codec, d, NalsFrom(codec, d, 0))
  }

  // --- The same, read off from the front ---

  function FirstUnit(s: Bytes): Bytes { s[..EndOf(s, 0)] }

  function UnitsIn(s: Bytes): seq<Bytes> {
    if |s| < 3 then []
    else if s[..3] != [0, 0, 1] then UnitsIn(s[1..])
    else if |s| == 3 then []
    else [FirstUnit(s[3..])] + UnitsIn(s[3..])
  }

  lemma StartsShift(d: Bytes, h: nat)
    requires h <= |d|
    ensures NextStart(d, h) == h + NextStart(d[h..], 0)
  {
    var s := d[h..];
    var k, m := NextStart(d, h), NextStart(s, 0);
    if k < h + m {
      assert StartAt(s, k - h);
      assert false;
    } else if h + m < k {
      assert StartAt(d, h + m);
      assert false;
    }
  }

  /** Behind the last byte of a start code a unit's end can be told by what follows. */
  lemma EndShifts(d: Bytes, h: nat)
    requires 0 < h <= |d| && d[h - 1] != 0
    ensures EndOf(d, h) == h + EndOf(d[h..], 0)
  {
    StartsShift(d, h);
  }

  lemma UnitHere(codec: CodecId, d: Bytes, i: nat)
    requires StartAt(d, i) && i + 3 < |d|
    ensures var nal := NalAt(codec, d, i); nal.data <= nal.end <= |d| && d[nal.data..nal.end] == FirstUnit(d[i + 3..])
  {
    NalBounds(codec, d, i);
    EndShifts(d, i + 3);
    var s, e := d[i + 3..], EndOf(d[i + 3..], 0);
    hide EndOf, NextStart;
    assert d[i + 3..i + 3 + e] == s[..e];
  }

  lemma ReadHere(d: Bytes, i: nat)
    requires i + 2 < |d|
    ensures !StartAt(d, i) ==> UnitsIn(d[i..]) == UnitsIn(d[i + 1..])
    ensures StartAt(d, i) ==>
              UnitsIn(d[i..]) == if i + 3 >= |d| then [] else [FirstUnit(d[i + 3..])] + UnitsIn(d[i + 3..])
  {
    hide FirstUnit;
    assert d[i..][..3] == [d[i], d[i + 1], d[i + 2]];
    assert d[i..][1..] == d[i + 1..] && d[i..][3..] == d[i + 3..];
  }

  lemma {:induction false} UnitsOfNals(codec: CodecId, d: Bytes, i: nat)
    requires i <= |d|
    ensures Tiles(d, NalsFrom(codec, d, i)) && Payloads(d, NalsFrom(codec, d, i)) == UnitsIn(d[i..])
    decreases |d| - i
  {
    hide NalsFrom, UnitsIn, StartAt, NalAt, FirstUnit, EndsRight, NextStart;
    SplitTiles(codec, d, i);
    if i + 2 < |d| {
      StartHere(codec, d, i);
      ReadHere(d, i);
      if !StartAt(d, i) {
        UnitsOfNals(codec, d, i + 1);
      } else if i + 3 < |d| {
        UnitsOfNals(codec, d, i + 3);
        UnitHere(codec, d, i);
        assert Payloads(d, NalsFrom(codec, d, i)) == [FirstUnit(d[i + 3..])] + Payloads(d, NalsFrom(codec, d, i + 3));
      }
    } else {
      TooShort(codec, d, i, []);
      NoUnits(d[i..]);
    }
  }

  lemma NoUnits(s: Bytes)
    requires |s| < 3
    ensures UnitsIn(s) == []
  {
  }

  // --- One set in front of what follows ---

  /** A payload's end can be told from what follows: nothing, or a start code, of which the short form would take a zero
      in front of it along. */
  predicate Joins(payload: Bytes, next: Bytes) {
    || next == [] || START_CODE <= next
    || ([0, 0, 1] <= next && (payload == [] || payload[|payload| - 1] != 0))
  }

  lemma {:induction false} SkipTo(s: Bytes, n: nat)
    requires n <= |s| && forall m :: 0 <= m < n ==> !StartAt(s, m)
    ensures UnitsIn(s) == UnitsIn(s[n..])
    decreases n
  {
    if n == 0 {
      assert s[0..] == s;
    } else if |s| < 3 {
      NoUnits(s);
      NoUnits(s[n..]);
    } else {
      ReadHere(s, 0);
      assert s[0..] == s && s[1..][n - 1..] == s[n..];
      assert forall m :: 0 <= m < n - 1 && StartAt(s[1..], m) ==> StartAt(s, m + 1);
      SkipTo(s[1..], n - 1);
    }
  }

  /** No start code arises across the joint. */
  lemma NoneBefore(payload: Bytes, next: Bytes, m: nat)
    requires NoStart(payload) && Joins(payload, next) && m < |payload|
    ensures !StartAt(payload + next, m)
  {
    var s := payload + next;
    if m + 3 <= |payload| {
      assert s[m] == payload[m] && s[m + 1] == payload[m + 1] && s[m + 2] == payload[m + 2];
    } else if m + 2 < |s| {
      assert s[m + 2] == next[m + 2 - |payload|] && next[0] == 0 && next[1] == 0;
    }
  }

  lemma UnitEnds(payload: Bytes, next: Bytes)
    requires NoStart(payload) && payload != [] && Joins(payload, next)
    ensures FirstUnit(payload + next) == payload
  {
    var s := payload + next;
    forall m | 0 <= m < |payload|
      ensures !StartAt(s, m)
    {
      NoneBefore(payload, next, m);
    }
    var k := NextStart(s, 0);
    if START_CODE <= next {
      assert s[|payload|] == 0 && s[|payload| + 1] == 0 && s[|payload| + 2] == 0 && s[|payload| + 3] == 1;
      assert StartAt(s, |payload| + 1) && !StartAt(s, |payload|);
      assert k == |payload| + 1;
    } else if next != [] {
      assert s[|payload|] == 0 && s[|payload| + 1] == 0 && s[|payload| + 2] == 1 && s[|payload| - 1] == payload[|payload| - 1];
      assert StartAt(s, |payload|);
      assert k == |payload|;
    }
    assert s[..|payload|] == payload;
  }

  lemma SetThenUnits(payload: Bytes, next: Bytes)
    requires NoStart(payload) && payload != [] && Joins(payload, next)
    ensures UnitsIn(START_CODE + (payload + next)) == [payload] + UnitsIn(next)
  {
    var t := payload + next;
    var s := START_CODE + t;
    assert s[0] == 0 && s[1] == 0 && s[2] == 0 && s[3] == 1 && s[4..] == t;
    ReadHere(s, 0);
    ReadHere(s, 1);
    assert s[0..] == s && !StartAt(s, 0) && StartAt(s, 1);
    UnitEnds(payload, next);
    forall m | 0 <= m < |payload|
      ensures !StartAt(t, m)
    {
      NoneBefore(payload, next, m);
    }
    SkipTo(t, |payload|);
    assert t[|payload|..] == next;
    hide UnitsIn, FirstUnit;
  }

  // --- The sets in front of a packet ---

  /** The packet can be told from the last of the sets. */
  predicate Follows(sets: seq<Bytes>, q: Bytes) { sets == [] || Joins(sets[|sets| - 1], q) }

  lemma {:induction false} SetsThenUnits(codec: CodecId, d: Bytes, nals: seq<Nal>, q: Bytes)
    requires Sound(codec, d, nals) && Follows(SetUnits(codec, d, nals), q)
    ensures UnitsIn(SetsOf(codec, d, nals) + q) == SetUnits(codec, d, nals) + UnitsIn(q)
    ensures SetUnits(codec, d, nals) == [] <==> SetsOf(codec, d, nals) == []
    decreases |nals|
  {
    hide UnitsIn, NoStart, Joins;
    if nals == [] || IsSlice(codec, nals[0].type_) {
      assert [] + q == q && [] + UnitsIn(q) == UnitsIn(q);
    } else {
      var more, units := SetsOf(codec, d, nals[1..]), SetUnits(codec, d, nals[1..]);
      if IsParameterSet(codec, nals[0].type_) {
        FirstThenUnits(codec, d, nals, q);
      } else {
        assert [] + more == more && [] + units == units;
        SetsThenUnits(codec, d, nals[1..], q);
      }
    }
  }

  lemma {:induction false} FirstThenUnits(codec: CodecId, d: Bytes, nals: seq<Nal>, q: Bytes)
    requires Sound(codec, d, nals) && Follows(SetUnits(codec, d, nals), q)
    requires nals != [] && !IsSlice(codec, nals[0].type_) && IsParameterSet(codec, nals[0].type_)
    ensures UnitsIn(SetsOf(codec, d, nals) + q) == SetUnits(codec, d, nals) + UnitsIn(q)
    ensures SetUnits(codec, d, nals) != [] && SetsOf(codec, d, nals) != []
    decreases |nals|, 0
  {
    hide UnitsIn, NoStart, Follows;
    var payload, more, units := d[nals[0].data..nals[0].end], SetsOf(codec, d, nals[1..]), SetUnits(codec, d, nals[1..]);
    SetHasPayload(codec, d, nals[0]);
    var rest := SetsStart(codec, d, nals[1..]);
    hide IsSlice, IsParameterSet, Sound;
    assert SetUnits(codec, d, nals) == [payload] + units && SetsOf(codec, d, nals) == START_CODE + payload + more;
    hide SetsOf, SetUnits;
    FollowsStill(payload, units, q);
    SetsThenUnits(codec, d, nals[1..], q);
    OneMore(payload, more, rest, units, q);
  }

  lemma FollowsStill(payload: Bytes, units: seq<Bytes>, q: Bytes)
    requires Follows([payload] + units, q)
    ensures Follows(units, q) && (units == [] ==> Joins(payload, q))
  {
    hide Joins;
    if units != [] {
      assert ([payload] + units)[|units|] == units[|units| - 1];
    }
  }

  lemma OneMore(payload: Bytes, more: Bytes, rest: Bytes, units: seq<Bytes>, q: Bytes)
    requires NoStart(payload) && payload != [] && (units == [] ==> Joins(payload, q))
    requires (units == [] <==> more == []) && (more == [] || more == START_CODE + rest)
    requires UnitsIn(more + q) == units + UnitsIn(q)
    ensures UnitsIn(START_CODE + payload + more + q) == [payload] + units + UnitsIn(q)
  {
    hide UnitsIn, NoStart;
    if units != [] {
      Regroup3(START_CODE, rest, q);
    } else {
      assert [] + q == q;
    }
    assert Joins(payload, more + q);
    hide Joins;
    SetThenUnits(payload, more + q);
    Regroup4(START_CODE, payload, more, q);
    Regroup3(payload, more, q);
    Regroup3([payload], units, UnitsIn(q));
  }

  /** Splitting a patched packet finds the sets of the packet they were taken from, byte for byte and in order, and behind
      them the packet's own units, unchanged. */
  lemma PatchedUnits(codec: CodecId, d: Bytes, q: Bytes)
    requires InBand(codec, d) && Follows(Sets(codec, d), q)
    ensures Sets(codec, d) != []
    ensures Units(codec, Extracted(codec, d) + q) == Sets(codec, d) + Units(codec, q)
  {
    hide InBand, Follows, UnitsIn;
    var nals, sets := NalsFrom(codec, d, 0), Extracted(codec, d);
    PatchedHasSets(codec, d, q);
    SplitTiles(codec, d, 0);
    NalsAreSound(codec, d, 0);
    SetsThenUnits(codec, d, nals, q);
    UnitsOfNals(codec, sets + q, 0);
    UnitsOfNals(codec, q, 0);
    hide NalsFrom;
    assert (sets + q)[0..] == sets + q && q[0..] == q;
  }
}
