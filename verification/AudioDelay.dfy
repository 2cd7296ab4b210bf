/** The audio delay (src/audio-delay-filter.cpp): a ring per channel, checked against the whole history since the last
    reset. Samples are real numbers; a frame is one sample of every channel. */
module AudioDelay {
  import opened Words

  const NS: nat := 1_000_000_000
  const GAP_TOLERANCE_NS: nat := 10_000_000

  type Frame = seq<real>

  /** frames samples of every channel; a plane that is not there counts as silence. */
  datatype Audio = Audio(frames: U32, timestamp: U64, planes: seq<Option<seq<real>>>)

  datatype Output = Unchanged | Delayed(chunks: seq<seq<real>>, timestamp: U64)

  /** What the filter promises: everything heard since the last reset, silence for the gaps, oldest first. */
  datatype Timeline = Timeline(channels: nat, rate: nat, ringLen: nat, history: seq<Frame>, expected: Option<U64>,
                               active: bool, resetRequested: bool)

  const IDLE := Timeline(0, 0, 0, [], None, false, false)

  ghost predicate WellFormed(a: Audio, channels: nat) {
    && channels <= |a.planes|
    && forall c :: 0 <= c < channels && a.planes[c].Some? ==> |a.planes[c].value| == a.frames
  }

  // --- The promise, call by call ---

  function Signed(x: U64): int { if x < 0x8000_0000_0000_0000 then x else x - TWO_64 }

  function RingFrames(rate: nat, delaySeconds: nat): nat { Max(1, delaySeconds * rate + rate) }

  function Sized(t: Timeline, channels: nat, rate: nat, delaySeconds: nat): Timeline {
    if channels != t.channels || rate != t.rate || t.ringLen != RingFrames(rate, delaySeconds) then
      t.(channels := channels, rate := rate, ringLen := RingFrames(rate, delaySeconds), history := [], expected := None)
    else t
  }

  function Forgotten(t: Timeline): Timeline { t.(history := [], expected := None) }

  function Zeros(n: nat): seq<real> { seq(n, _ => 0.0) }

  function Silence(channels: nat, frames: nat): seq<Frame> { seq(frames, _ => Zeros(channels)) }

  /** How long a chunk lasts. */
  function ChunkNs(frames: nat, rate: nat): nat
    requires rate > 0
  {
    frames * NS / rate
  }

  /** Frames of silence for a gap; the product is a 64-bit one. */
  function GapFrames(drift: int, rate: nat): nat { Wrap64(drift * rate) / NS }

  /** Keeps the history on the wall clock: a gap becomes silence; a gap as long as the ring, or time going back,
      ends the history. */
  function OnClock(t: Timeline, frames: nat, timestamp: U64): Timeline {
    if t.expected.None? then t
    else
      var drift := Signed(timestamp) - Signed(t.expected.value);
      if drift > GAP_TOLERANCE_NS then
        var gap := GapFrames(drift, t.rate);
        if gap >= t.ringLen - frames then Forgotten(t) else t.(history := t.history + Silence(t.channels, gap))
      else if drift + GAP_TOLERANCE_NS < 0 then Forgotten(t)
      else t
  }

  function Sample(plane: Option<seq<real>>, i: nat): real {
    if plane.Some? && i < |plane.value| then plane.value[i] else 0.0
  }

  function FrameAt(a: Audio, channels: nat, i: nat): Frame
    requires channels <= |a.planes|
  {
    seq(channels, c requires 0 <= c < channels => Sample(a.planes[c], i))
  }

  function FramesOf(a: Audio, channels: nat): (frames: seq<Frame>)
    requires channels <= |a.planes|
    ensures |frames| == a.frames
  {
    seq(a.frames, i requires 0 <= i < a.frames => FrameAt(a, channels, i))
  }

  function Heard(t: Timeline, a: Audio, chunkNs: nat): Timeline
    requires t.channels <= |a.planes|
  {
    t.(history := t.history + FramesOf(a, t.channels), expected := Some(Wrap64(a.timestamp + chunkNs)))
  }

  function Lag(t: Timeline, frames: nat, delaySeconds: nat): nat
    requires frames < t.ringLen
  {
    Min(delaySeconds * t.rate, t.ringLen - frames)
  }

  /** One channel of the frames lag behind the newest ones. */
  function Behind(history: seq<Frame>, c: nat, frames: nat, lag: nat): (chunk: seq<real>)
    requires lag + frames <= |history| && forall f :: 0 <= f < |history| ==> c < |history[f]|
    ensures |chunk| == frames
  {
    seq(frames, i requires 0 <= i < frames => history[|history| - lag - frames + i][c])
  }

  function FadeFrames(frames: nat, rate: nat): nat { Min(frames, Max(1, rate / 100)) }

  function Faded(chunk: seq<real>, n: nat): (faded: seq<real>)
    requires n <= |chunk|
    ensures |faded| == |chunk|
  {
    seq(|chunk|, i requires 0 <= i < |chunk| => if i < n then chunk[i] * (i as real / n as real) else chunk[i])
  }

  ghost predicate Square(t: Timeline) {
    forall f :: 0 <= f < |t.history| ==> |t.history[f]| == t.channels
  }

  /** What comes out once the newest frames are in. */
  function Played(t: Timeline, frames: nat, delaySeconds: nat): (chunks: seq<seq<real>>)
    requires frames < t.ringLen && Square(t)
    ensures |chunks| == t.channels && forall c :: 0 <= c < |chunks| ==> |chunks[c]| == frames
  {
    var lag := Lag(t, frames, delaySeconds);
    if |t.history| < lag + frames then seq(t.channels, _ => Zeros(frames))
    else if t.active then seq(t.channels, c requires 0 <= c < t.channels => Behind(t.history, c, frames, lag))
    else seq(t.channels, c requires 0 <= c < t.channels =>
               Faded(Behind(t.history, c, frames, lag), FadeFrames(frames, t.rate)))
  }

  function WillPlay(t: Timeline, frames: nat, delaySeconds: nat): bool
    requires frames < t.ringLen
  {
    |t.history| >= Lag(t, frames, delaySeconds) + frames
  }

  /** The timeline a chunk is added to, once the ring has its size. */
  function Ready(t: Timeline, a: Audio): (t': Timeline)
    ensures t'.channels == t.channels && t'.rate == t.rate && t'.ringLen == t.ringLen && (Square(t) ==> Square(t'))
  {
    OnClock(if t.resetRequested then Forgotten(t).(resetRequested := false) else t, a.frames, a.timestamp)
  }

  /** The chunk added, and the window played. */
  function WithChunk(t: Timeline, a: Audio, delaySeconds: nat): (t': Timeline)
    requires t.channels <= |a.planes| && t.rate > 0 && a.frames < t.ringLen
    ensures Square(t) ==> Square(t')
  {
    var heard := Heard(Ready(t, a), a, ChunkNs(a.frames, t.rate));
    heard.(active := WillPlay(heard, a.frames, delaySeconds))
  }

  function ChunkOut(t: Timeline, a: Audio, delaySeconds: nat): Output
    requires t.channels <= |a.planes| && t.rate > 0 && a.frames < t.ringLen && Square(t)
  {
    Delayed(Played(Heard(Ready(t, a), a, ChunkNs(a.frames, t.rate)), a.frames, delaySeconds), a.timestamp)
  }

  function After(t: Timeline, a: Audio, channels: nat, rate: nat, delaySeconds: nat): (t': Timeline)
    requires channels <= |a.planes| && rate > 0
    ensures Square(t) ==> Square(t')
  {
    var sized := Sized(t, channels, rate, delaySeconds);
    if a.frames >= sized.ringLen then sized else WithChunk(sized, a, delaySeconds)
  }

  function Result(t: Timeline, a: Audio, channels: nat, rate: nat, delaySeconds: nat): Output
    requires channels <= |a.planes| && rate > 0 && Square(t)
  {
    var sized := Sized(t, channels, rate, delaySeconds);
    if a.frames >= sized.ringLen then Unchanged else ChunkOut(sized, a, delaySeconds)
  }

  // --- A ring that holds the end of the history ---

  /** How many slots after w the slot j comes, going round. */
  function Offset(w: nat, j: nat, len: nat): nat
    requires w < len && j < len
  {
    if j >= w then j - w else j + len - w
  }

  function Place(w: nat, i: nat, len: nat): (j: nat)
    requires w < len && i < len
    ensures j < len && Offset(w, j, len) == i
  {
    if w + i < len then w + i else w + i - len
  }

  /** Frame t of the history goes to slot t modulo len. */
  function Turn(t: nat, len: nat): (j: nat)
    requires 0 < len
    ensures j < len
  {
    if t < len then t else Turn(t - len, len)
  }

  /** Counting on from t goes round the ring. */
  lemma {:induction false} Onward(t: nat, i: nat, len: nat)
    requires i < len
    ensures Turn(t + i, len) == Place(Turn(t, len), i, len)
  {
    if t >= len {
      Onward(t - len, i, len);
    }
  }

  lemma WrapTwice(x: nat, len: nat)
    requires 0 < len && x < 3 * len
    ensures x % len == if x < len then x else if x < 2 * len then x - len else x - 2 * len
  {
    if x >= 2 * len {
      assert x == len * 2 + (x - 2 * len);
    } else {
      WrapOnce(x, len);
    }
  }

  /** Slot Turn(t) of every channel holds frame t, for the last held frames of the history. */
  ghost predicate Holds(rows: seq<seq<real>>, len: nat, history: seq<Frame>, w: nat, held: nat) {
    && len > 0 && w == Turn(|history|, len) && held == Min(|history|, len)
    && (forall c :: 0 <= c < |rows| ==> |rows[c]| == len)
    && (forall f :: 0 <= f < |history| ==> |history[f]| == |rows|)
    && forall t, c :: |history| - held <= t < |history| && 0 <= c < |rows| ==> rows[c][Turn(t, len)] == history[t][c]
  }

  /** Writing frames at w, going round, appends them to the history the ring holds. */
  ghost predicate WrittenOver(rows: seq<seq<real>>, rows': seq<seq<real>>, len: nat, w: nat, added: seq<Frame>)
    requires w < len
  {
    && |rows'| == |rows| && (forall c :: 0 <= c < |rows| ==> |rows[c]| == len && |rows'[c]| == len)
    && (forall f :: 0 <= f < |added| ==> |added[f]| == |rows|)
    && forall c, j :: 0 <= c < |rows| && 0 <= j < len ==>
         rows'[c][j] == var i := Offset(w, j, len); if i < |added| then added[i][c] else rows[c][j]
  }

  lemma WrittenHolds(rows: seq<seq<real>>, rows': seq<seq<real>>, len: nat, history: seq<Frame>, w: nat, held: nat,
                     added: seq<Frame>)
    requires Holds(rows, len, history, w, held) && |added| < len && WrittenOver(rows, rows', len, w, added)
    ensures Holds(rows', len, history + added, Place(w, |added|, len), Min(held + |added|, len))
  {
    var n, both := |history|, history + added;
    Onward(n, |added|, len);
    var held' := Min(held + |added|, len);
    assert held' == Min(n + |added|, len);
    forall t, c | |both| - held' <= t < |both| && 0 <= c < |rows|
      ensures rows'[c][Turn(t, len)] == both[t][c]
    {
      if t >= n {
        Onward(n, t - n, len);
      } else {
        Back(n, n - t, len);
        assert rows[c][Turn(t, len)] == history[t][c];
      }
    }
  }

  /** Frame n - back is kept back slots before the slot of frame n. */
  lemma Back(n: nat, back: nat, len: nat)
    requires 0 < back <= len && back <= n
    ensures Turn(n - back, len) == if back == len then Turn(n, len) else Place(Turn(n, len), len - back, len)
  {
    if back == len {
    } else {
      Onward(n - back, back, len);
    }
  }

  lemma EmptyHolds(rows: seq<seq<real>>, len: nat)
    requires len > 0 && forall c :: 0 <= c < |rows| ==> |rows[c]| == len
    ensures Holds(rows, len, [], 0, 0)
  {
  }

  // --- The filter ---

  ghost function RowOf(r: array2<real>, c: nat): (row: seq<real>)
    requires c < r.Length0
    reads r
    ensures |row| == r.Length1 && forall j :: 0 <= j < |row| ==> row[j] == r[c, j]
  {
    seq(r.Length1, j requires 0 <= j < r.Length1 && c < r.Length0 reads r => r[c, j])
  }

  ghost function AllRows(r: array2<real>): (rows: seq<seq<real>>)
    reads r
    ensures |rows| == r.Length0 && forall c :: 0 <= c < |rows| ==> rows[c] == RowOf(r, c)
  {
    seq(r.Length0, c requires 0 <= c < r.Length0 reads r => RowOf(r, c))
  }

  class AudioDelayFilter {
    var channels: nat
    var samplesPerSec: nat
    var ring: array2<real>
    var writeIndex: nat
    var bufferedFrames: nat
    var expectedTimestamp: Option<U64>
    var outputWasActive: bool
    var resetRequested: bool
    var outputChunks: array2<real>
    ghost var history: seq<Frame>

    ghost function Rows(): (rows: seq<seq<real>>)
      reads this, ring
      ensures |rows| == ring.Length0 && forall c :: 0 <= c < |rows| ==> |rows[c]| == ring.Length1
      ensures forall c, j :: 0 <= c < |rows| && 0 <= j < ring.Length1 ==> rows[c][j] == ring[c, j]
    {
      AllRows(ring)
    }

    ghost predicate Valid()
      reads this, ring
    {
      && channels == ring.Length0
      && if ring.Length1 == 0 then channels == 0 && history == [] && expectedTimestamp.None?
         else Holds(Rows(), ring.Length1, history, writeIndex, bufferedFrames)
    }

    ghost function Heard(): Timeline
      reads this
    {
      Timeline(channels, samplesPerSec, ring.Length1, history, expectedTimestamp, outputWasActive, resetRequested)
    }

    constructor ()
      ensures Valid() && Heard() == IDLE && fresh(ring) && fresh(outputChunks)
    {
      channels, samplesPerSec, writeIndex, bufferedFrames := 0, 0, 0, 0;
      expectedTimestamp, outputWasActive, resetRequested := None, false, false;
      ring := new real[0, 0];
      outputChunks := new real[0, 0];
      history := [];
    }

    method EnsureRingSized(channels: nat, samplesPerSec: nat, delaySeconds: nat)
      requires Valid() && channels > 0 && samplesPerSec > 0
      modifies this
      ensures Valid() && (ring == old(ring) || fresh(ring)) && outputChunks == old(outputChunks)
      ensures Heard() == Sized(old(Heard()), channels, samplesPerSec, delaySeconds)
    {
      hide Holds;
      var desiredFrames := Max(1, delaySeconds * samplesPerSec + samplesPerSec);
      if channels != this.channels || samplesPerSec != this.samplesPerSec || ring.Length1 != desiredFrames {
        this.channels, this.samplesPerSec := channels, samplesPerSec;
        ring := new real[channels, desiredFrames]((_, _) => 0.0);
        writeIndex, bufferedFrames, expectedTimestamp, history := 0, 0, None, [];
        EmptyHolds(Rows(), ring.Length1);
      }
    }

    method ResetHistory()
      requires Valid() && ring.Length1 > 0
      modifies this`writeIndex, this`bufferedFrames, this`expectedTimestamp, this`history
      ensures Valid() && Heard() == Forgotten(old(Heard()))
    {
      writeIndex, bufferedFrames, expectedTimestamp, history := 0, 0, None, [];
      EmptyHolds(Rows(), ring.Length1);
    }

    /** One channel's samples (or silence) from writeIndex on, going round in two parts. */
    method WriteChannel(c: nat, frames: nat, samples: Option<seq<real>>)
      requires c < ring.Length0 && writeIndex < ring.Length1 && frames < ring.Length1
      requires samples.Some? ==> |samples.value| == frames
      modifies ring
      ensures forall d, j :: 0 <= d < ring.Length0 && 0 <= j < ring.Length1 ==>
                ring[d, j] == if d == c && Offset(writeIndex, j, ring.Length1) < frames
                              then Sample(samples, Offset(writeIndex, j, ring.Length1)) else old(ring[d, j])
    {
      var firstPart := Min(frames, ring.Length1 - writeIndex);
      var i := 0;
      while i < firstPart
        invariant 0 <= i <= firstPart
        invariant forall d, j :: 0 <= d < ring.Length0 && 0 <= j < ring.Length1 ==>
                    ring[d, j] == if d == c && writeIndex <= j < writeIndex + i then Sample(samples, j - writeIndex)
                                  else old(ring[d, j])
      {
        ring[c, writeIndex + i] := if samples.Some? then samples.value[i] else 0.0;
        i := i + 1;
      }
      while i < frames
        invariant firstPart <= i <= frames
        invariant forall d, j :: 0 <= d < ring.Length0 && 0 <= j < ring.Length1 ==>
                    ring[d, j] == if d == c && writeIndex <= j < writeIndex + firstPart then Sample(samples, j - writeIndex)
                                  else if d == c && j < i - firstPart then Sample(samples, j + firstPart)
                                  else old(ring[d, j])
      {
        ring[c, i - firstPart] := if samples.Some? then samples.value[i] else 0.0;
        i := i + 1;
      }
    }

    /** Every channel in turn; then the ring has gone on by that many frames. */
    method Write(frames: nat, planes: seq<Option<seq<real>>>, ghost added: seq<Frame>)
      requires Valid() && ring.Length1 > 0 && frames < ring.Length1 && |added| == frames && channels <= |planes|
      requires forall c :: 0 <= c < channels && planes[c].Some? ==> |planes[c].value| == frames
      requires forall i :: 0 <= i < frames ==> |added[i]| == channels
      requires forall i, c :: 0 <= i < frames && 0 <= c < channels ==> added[i][c] == Sample(planes[c], i)
      modifies ring, this`writeIndex, this`bufferedFrames, this`history
      ensures Valid() && history == old(history) + added
    {
      ghost var rows := Rows();
      ghost var held := bufferedFrames;
      assert Holds(rows, ring.Length1, history, writeIndex, held);
      hide Holds;
      assert writeIndex < ring.Length1 by { HoldsWithin(rows, ring.Length1, history, writeIndex, held); }
      var c := 0;
      while c < channels
        invariant 0 <= c <= channels == ring.Length0
        invariant forall d, j :: 0 <= d < ring.Length0 && 0 <= j < ring.Length1 ==>
                    ring[d, j] == if d < c && Offset(writeIndex, j, ring.Length1) < frames
                                  then Sample(planes[d], Offset(writeIndex, j, ring.Length1)) else rows[d][j]
        modifies ring
      {
        WriteChannel(c, frames, planes[c]);
        c := c + 1;
      }
      assert WrittenOver(rows, Rows(), ring.Length1, writeIndex, added);
      WrittenHolds(rows, Rows(), ring.Length1, history, writeIndex, held, added);
      WrapOnce(writeIndex + frames, ring.Length1);
      writeIndex := (writeIndex + frames) % ring.Length1;
      bufferedFrames := Min(bufferedFrames + frames, ring.Length1);
      history := history + added;
    }

    method WriteSilence(frames: nat)
      requires Valid() && ring.Length1 > 0
      modifies ring, this`writeIndex, this`bufferedFrames, this`history
      ensures Valid()
      ensures history == old(history) + if frames < ring.Length1 then Silence(channels, frames) else []
    {
      if frames == 0 || frames >= ring.Length1 {
        return;
      }
      Write(frames, seq(channels, _ => None), Silence(channels, frames));
    }

    /** One channel of the output, from readIndex on, going round in two parts. */
    method ReadChannel(c: nat, frames: nat, readIndex: nat)
      requires c < ring.Length0 && readIndex < ring.Length1 && frames < ring.Length1
      requires c < outputChunks.Length0 && outputChunks.Length1 == frames && outputChunks != ring
      modifies outputChunks
      ensures forall d, i :: 0 <= d < outputChunks.Length0 && 0 <= i < frames ==>
                outputChunks[d, i] == if d == c then ring[c, Place(readIndex, i, ring.Length1)] else old(outputChunks[d, i])
    {
      var firstPart := Min(frames, ring.Length1 - readIndex);
      var i := 0;
      while i < firstPart
        invariant 0 <= i <= firstPart
        invariant forall d, k :: 0 <= d < outputChunks.Length0 && 0 <= k < frames ==>
                    outputChunks[d, k] == if d == c && k < i then ring[c, Place(readIndex, k, ring.Length1)]
                                          else old(outputChunks[d, k])
      {
        outputChunks[c, i] := ring[c, readIndex + i];
        i := i + 1;
      }
      while i < frames
        invariant firstPart <= i <= frames
        invariant forall d, k :: 0 <= d < outputChunks.Length0 && 0 <= k < frames ==>
                    outputChunks[d, k] == if d == c && k < i then ring[c, Place(readIndex, k, ring.Length1)]
                                          else old(outputChunks[d, k])
      {
        outputChunks[c, i] := ring[c, i - firstPart];
        i := i + 1;
      }
    }

    method ReadAll(frames: nat, delayFrames: nat)
      requires Valid() && ring.Length1 > 0 && delayFrames + frames <= bufferedFrames && frames < ring.Length1
      requires outputChunks.Length0 == channels && outputChunks.Length1 == frames && outputChunks != ring
      modifies outputChunks
      ensures Square(Heard()) && delayFrames + frames <= |history|
      ensures forall c :: 0 <= c < channels ==> RowOf(outputChunks, c) == Behind(history, c, frames, delayFrames)
    {
      HoldsWithin(Rows(), ring.Length1, history, writeIndex, bufferedFrames);
      ReadsBehind(Rows(), ring.Length1, history, writeIndex, bufferedFrames, frames, delayFrames);
      hide Holds;
      var readIndex := (writeIndex + ring.Length1 * 2 - frames - delayFrames) % ring.Length1;
      var c := 0;
      while c < channels
        invariant 0 <= c <= channels
        invariant forall d, i :: 0 <= d < c && 0 <= i < frames ==>
                    outputChunks[d, i] == ring[d, Place(readIndex, i, ring.Length1)]
      {
        ReadChannel(c, frames, readIndex);
        c := c + 1;
      }
      forall c | 0 <= c < channels
        ensures RowOf(outputChunks, c) == Behind(history, c, frames, delayFrames)
      {
        assert forall i :: 0 <= i < frames ==>
                 RowOf(outputChunks, c)[i] == Rows()[c][Place(readIndex, i, ring.Length1)];
      }
    }

    /** The first fadeFrames samples of every channel rise from nothing. */
    method FadeIn(fadeFrames: nat)
      requires fadeFrames <= outputChunks.Length1
      modifies outputChunks
      ensures forall c :: 0 <= c < outputChunks.Length0 ==>
                RowOf(outputChunks, c) == Faded(old(RowOf(outputChunks, c)), fadeFrames)
    {
      ghost var before := AllRows(outputChunks);
      var c := 0;
      while c < outputChunks.Length0
        invariant 0 <= c <= outputChunks.Length0
        invariant forall d, k :: 0 <= d < outputChunks.Length0 && 0 <= k < outputChunks.Length1 ==>
                    outputChunks[d, k] == if d < c then Faded(before[d], fadeFrames)[k] else before[d][k]
      {
        FadeChannel(c, fadeFrames, before[c]);
        c := c + 1;
      }
      assert forall c :: 0 <= c < outputChunks.Length0 ==> RowOf(outputChunks, c) == Faded(before[c], fadeFrames);
    }

    method FadeChannel(c: nat, fadeFrames: nat, ghost before: seq<real>)
      requires c < outputChunks.Length0 && fadeFrames <= outputChunks.Length1 && before == RowOf(outputChunks, c)
      modifies outputChunks
      ensures forall d, k :: 0 <= d < outputChunks.Length0 && 0 <= k < outputChunks.Length1 ==>
                outputChunks[d, k] == if d == c then Faded(before, fadeFrames)[k] else old(outputChunks[d, k])
    {
      var i := 0;
      while i < fadeFrames
        invariant 0 <= i <= fadeFrames
        invariant forall d, k :: 0 <= d < outputChunks.Length0 && 0 <= k < outputChunks.Length1 ==>
                    outputChunks[d, k] == if d == c && k < i then Faded(before, fadeFrames)[k] else old(outputChunks[d, k])
      {
        outputChunks[c, i] := outputChunks[c, i] * (i as real / fadeFrames as real);
        i := i + 1;
      }
    }

    /** The window delaySeconds back, or silence while the history is too short. */
    method Play(frames: nat, delaySeconds: nat)
      requires Valid() && 0 < frames < ring.Length1
      modifies this`outputChunks, this`outputWasActive
      ensures Valid() && fresh(outputChunks) && Square(Heard())
      ensures Heard() == old(Heard()).(active := WillPlay(old(Heard()), frames, delaySeconds))
      ensures AllRows(outputChunks) == Played(old(Heard()), frames, delaySeconds)
    {
      HoldsWithin(Rows(), ring.Length1, history, writeIndex, bufferedFrames);
      hide Holds;
      var delayFrames := Min(delaySeconds * samplesPerSec, ring.Length1 - frames);
      outputChunks := new real[channels, frames]((_, _) => 0.0);
      if bufferedFrames >= delayFrames + frames {
        ReadAll(frames, delayFrames);
        if !outputWasActive {
          FadeIn(FadeFrames(frames, samplesPerSec));
        }
        outputWasActive := true;
        assert forall c :: 0 <= c < channels ==> RowOf(outputChunks, c) == Played(old(Heard()), frames, delaySeconds)[c];
      } else {
        outputWasActive := false;
        assert forall c :: 0 <= c < channels ==> RowOf(outputChunks, c) == Zeros(frames);
      }
      assert AllRows(outputChunks) == Played(old(Heard()), frames, delaySeconds);
    }

    method KeepOnClock(frames: nat, timestamp: U64)
      requires Valid() && frames < ring.Length1
      modifies this, ring
      ensures Valid() && ring == old(ring) && outputChunks == old(outputChunks)
      ensures Heard() == OnClock(old(Heard()), frames, timestamp)
    {
      if expectedTimestamp.Some? {
        var drift := Signed(timestamp) - Signed(expectedTimestamp.value);
        if drift > GAP_TOLERANCE_NS {
          var gapFrames := Wrap64(drift * samplesPerSec) / NS;
          if gapFrames >= ring.Length1 - frames {
            ResetHistory();
          } else {
            WriteSilence(gapFrames);
          }
        } else if drift + GAP_TOLERANCE_NS < 0 {
          ResetHistory();
        }
      }
    }

    method Hear(audio: Audio)
      requires Valid() && WellFormed(audio, channels) && 0 < audio.frames < ring.Length1
      modifies this`writeIndex, this`bufferedFrames, this`history, ring
      ensures Valid() && history == old(history) + FramesOf(audio, channels)
    {
      Write(audio.frames, audio.planes, FramesOf(audio, channels));
    }

    /** passed: the audio goes on untouched. Otherwise outputChunks replaces it, under its own timestamp. */
    method FilterAudio(audio: Audio, channels: U32, sampleRate: U32, delaySeconds: U32) returns (passed: bool)
      requires Valid() && WellFormed(audio, channels)
      modifies this, ring
      ensures Valid() && (ring == old(ring) || fresh(ring))
      ensures audio.frames == 0 || channels == 0 || sampleRate == 0 ==> passed && Heard() == old(Heard())
      ensures audio.frames > 0 && channels > 0 && sampleRate > 0 && Square(old(Heard())) ==>
                && Heard() == After(old(Heard()), audio, channels, sampleRate, delaySeconds)
                && Result(old(Heard()), audio, channels, sampleRate, delaySeconds)
                   == if passed then Unchanged else Delayed(AllRows(outputChunks), audio.timestamp)
    {
      if audio.frames == 0 || channels == 0 || sampleRate == 0 {
        return true;
      }
      hide Holds, OnClock, Played, WithChunk, ChunkOut, RingFrames, AllRows;
      EnsureRingSized(channels, sampleRate, delaySeconds);
      if audio.frames >= ring.Length1 {
        return true;
      }
      Process(audio, delaySeconds);
      passed := false;
    }

    method Process(audio: Audio, delaySeconds: nat)
      requires Valid() && WellFormed(audio, channels) && 0 < audio.frames < ring.Length1 && samplesPerSec > 0
      modifies this, ring
      ensures Valid() && ring == old(ring)
      ensures Heard() == WithChunk(old(Heard()), audio, delaySeconds)
      ensures Square(old(Heard())) ==> ChunkOut(old(Heard()), audio, delaySeconds) == Delayed(AllRows(outputChunks), audio.timestamp)
    {
      hide Holds, OnClock, Played, AllRows, Lag, ChunkNs;
      if resetRequested {
        resetRequested := false;
        ResetHistory();
      }
      KeepOnClock(audio.frames, audio.timestamp);
      assert Heard() == Ready(old(Heard()), audio);
      var chunkNs := ChunkNs(audio.frames, samplesPerSec);
      expectedTimestamp := Some(Wrap64(audio.timestamp + chunkNs));
      Hear(audio);
      Play(audio.frames, delaySeconds);
    }
  }

  /** Where the frame lag + frames back is kept. */
  lemma ReadIndex(n: nat, len: nat, back: nat)
    requires 0 < len && back <= len && back <= n
    ensures (Turn(n, len) + len * 2 - back) % len == Turn(n - back, len)
  {
    WrapTwice(Turn(n, len) + len * 2 - back, len);
    if back > 0 {
      Back(n, back, len);
    }
  }

  lemma ReadsBehind(rows: seq<seq<real>>, len: nat, history: seq<Frame>, w: nat, held: nat, frames: nat, lag: nat)
    requires Holds(rows, len, history, w, held) && 0 <= frames < len && lag + frames <= held
    ensures var readIndex := (w + len * 2 - frames - lag) % len;
            && readIndex < len
            && forall c, i :: 0 <= c < |rows| && 0 <= i < frames ==>
                 Behind(history, c, frames, lag)[i] == rows[c][Place(readIndex, i, len)]
  {
    var n := |history|;
    ReadIndex(n, len, frames + lag);
    assert w + len * 2 - frames - lag == w + len * 2 - (frames + lag);
    var readIndex := Turn(n - lag - frames, len);
    forall c, i | 0 <= c < |rows| && 0 <= i < frames
      ensures Behind(history, c, frames, lag)[i] == rows[c][Place(readIndex, i, len)]
    {
      Onward(n - lag - frames, i, len);
    }
  }

  lemma HoldsWithin(rows: seq<seq<real>>, len: nat, history: seq<Frame>, w: nat, held: nat)
    requires Holds(rows, len, history, w, held)
    ensures w < len && held == Min(|history|, len)
    ensures forall f :: 0 <= f < |history| ==> |history[f]| == |rows|
  {
  }

  // --- What it means for a listener ---

  /** The full delay, for chunks of at most a second. */
  lemma LagIsTheDelay(t: Timeline, frames: nat, delaySeconds: nat)
    requires t.ringLen == RingFrames(t.rate, delaySeconds) && frames < t.ringLen
    ensures Lag(t, frames, delaySeconds) == delaySeconds * t.rate <==> frames <= t.rate || t.rate == 0
  {
  }

  /** Within the tolerance of what the chunk before announced. */
  predicate OnTime(t: Timeline, a: Audio) {
    t.expected.Some? ==> var drift := Signed(a.timestamp) - Signed(t.expected.value);
                         -(GAP_TOLERANCE_NS as int) <= drift <= GAP_TOLERANCE_NS
  }

  datatype Settings = Settings(channels: nat, rate: nat, delaySeconds: nat)

  function AfterAll(t: Timeline, chunks: seq<Audio>, s: Settings): (t': Timeline)
    requires s.rate > 0 && forall k :: 0 <= k < |chunks| ==> s.channels <= |chunks[k].planes|
    ensures Square(t) ==> Square(t')
    decreases |chunks|
  {
    if chunks == [] then t
    else After(AfterAll(t, chunks[..|chunks| - 1], s), chunks[|chunks| - 1], s.channels, s.rate, s.delaySeconds)
  }

  /** A source that delivers chunk after chunk, of at most a second each, none of them late or early by more than
      the tolerance. */
  ghost predicate Steady(t: Timeline, chunks: seq<Audio>, s: Settings)
    requires s.rate > 0
    decreases |chunks|
  {
    (forall k :: 0 <= k < |chunks| ==> s.channels <= |chunks[k].planes|) &&
    (chunks == [] ||
     var before, a := chunks[..|chunks| - 1], chunks[|chunks| - 1];
     && Steady(t, before, s) && 0 < a.frames <= s.rate && a.frames < RingFrames(s.rate, s.delaySeconds)
     && OnTime(AfterAll(t, before, s), a))
  }

  function Stream(chunks: seq<Audio>, channels: nat): seq<Frame>
    requires forall k :: 0 <= k < |chunks| ==> channels <= |chunks[k].planes|
    decreases |chunks|
  {
    if chunks == [] then []
    else Stream(chunks[..|chunks| - 1], channels) + FramesOf(chunks[|chunks| - 1], channels)
  }

  predicate JustReset(t: Timeline, s: Settings) {
    && t.channels == s.channels && t.rate == s.rate && t.ringLen == RingFrames(s.rate, s.delaySeconds)
    && t.history == [] && t.expected.None? && !t.resetRequested
  }

  /** The first chunk of a new filter meets such a timeline. */
  lemma NewFilterIsJustReset(a: Audio, s: Settings)
    requires s.rate > 0 && 0 < s.channels <= |a.planes|
    ensures var t := Sized(IDLE, s.channels, s.rate, s.delaySeconds);
            && JustReset(t, s)
            && After(IDLE, a, s.channels, s.rate, s.delaySeconds) == After(t, a, s.channels, s.rate, s.delaySeconds)
  {
  }

  function DelayFrames(s: Settings): nat { s.delaySeconds * s.rate }

  predicate Shown(chunks: seq<Audio>, channels: nat) {
    forall k :: 0 <= k < |chunks| ==> channels <= |chunks[k].planes|
  }

  /** The chunk before the next one was heard; before the first, what was played before the history was forgotten. */
  predicate HeardBefore(t: Timeline, chunks: seq<Audio>, s: Settings)
    requires Shown(chunks, s.channels)
  {
    if chunks == [] then t.active else |Stream(chunks[..|chunks| - 1], s.channels)| >= DelayFrames(s)
  }

  /** From a steady source the history is exactly what it delivered. */
  lemma {:induction false} SteadyHistory(t: Timeline, chunks: seq<Audio>, s: Settings)
    requires s.rate > 0 && JustReset(t, s) && Steady(t, chunks, s)
    ensures var t' := AfterAll(t, chunks, s);
            && t'.channels == s.channels && t'.rate == s.rate && t'.ringLen == RingFrames(s.rate, s.delaySeconds)
            && t'.history == Stream(chunks, s.channels) && !t'.resetRequested
            && (t'.active <==> HeardBefore(t, chunks, s))
    decreases |chunks|
  {
    if chunks != [] {
      var before, a := chunks[..|chunks| - 1], chunks[|chunks| - 1];
      SteadyHistory(t, before, s);
      SteadyStep(AfterAll(t, before, s), a, s);
    }
  }

  lemma SteadyStep(t: Timeline, a: Audio, s: Settings)
    requires s.rate > 0 && s.channels <= |a.planes| && !t.resetRequested && OnTime(t, a)
    requires t.channels == s.channels && t.rate == s.rate && t.ringLen == RingFrames(s.rate, s.delaySeconds)
    requires a.frames <= s.rate && a.frames < t.ringLen
    ensures Sized(t, s.channels, s.rate, s.delaySeconds) == t && Ready(t, a) == t
    ensures var t' := After(t, a, s.channels, s.rate, s.delaySeconds);
            && t' == t.(history := t.history + FramesOf(a, s.channels), expected := t'.expected, active := t'.active)
            && t'.expected == Some(Wrap64(a.timestamp + ChunkNs(a.frames, s.rate)))
            && (t'.active <==> |t.history| >= s.delaySeconds * s.rate)
  {
    LagIsTheDelay(t, a.frames, s.delaySeconds);
  }

  function Gain(active: bool, i: nat, fade: nat): real
    requires fade > 0
  {
    if active || i >= fade then 1.0 else i as real / fade as real
  }

  /** out is the stream delay frames back, for the stream's last chunk: silence as long as the chunk starts before that
      much has come in, and the first fade samples rising unless the chunk before was heard. */
  ghost predicate DelayedStream(out: seq<seq<real>>, stream: seq<Frame>, channels: nat, frames: nat, delay: nat,
                                active: bool, fade: nat) {
    && |out| == channels && frames <= |stream| && fade > 0
    && forall c, i :: 0 <= c < channels && 0 <= i < frames ==>
         var p := |stream| - frames + i;
         && |out[c]| == frames && (|stream| - frames >= delay ==> c < |stream[p - delay]|)
         && out[c][i] == if |stream| - frames < delay then 0.0 else stream[p - delay][c] * Gain(active, i, fade)
  }

  lemma PlayedIsDelayed(heard: Timeline, frames: nat, delaySeconds: nat)
    requires 0 < frames <= |heard.history| && Square(heard) && frames < heard.ringLen
    ensures DelayedStream(Played(heard, frames, delaySeconds), heard.history, heard.channels, frames,
                          Lag(heard, frames, delaySeconds), heard.active, FadeFrames(frames, heard.rate))
  {
    hide Lag;
  }

  lemma SteadyEnds(t: Timeline, chunks: seq<Audio>, a: Audio, s: Settings)
    requires s.rate > 0 && Steady(t, chunks + [a], s)
    ensures Shown(chunks, s.channels) && s.channels <= |a.planes| && Steady(t, chunks, s)
    ensures 0 < a.frames <= s.rate && a.frames < RingFrames(s.rate, s.delaySeconds) && OnTime(AfterAll(t, chunks, s), a)
  {
    assert (chunks + [a])[..|chunks|] == chunks && (chunks + [a])[|chunks|] == a;
  }

  lemma SteadyChunk(t: Timeline, chunks: seq<Audio>, a: Audio, s: Settings)
    requires s.rate > 0 && JustReset(t, s) && Steady(t, chunks + [a], s)
    ensures Shown(chunks, s.channels) && s.channels <= |a.planes| && 0 < a.frames <= s.rate
    ensures var t' := AfterAll(t, chunks, s);
            && Square(t') && a.frames < t'.ringLen && Sized(t', s.channels, s.rate, s.delaySeconds) == t'
            && Ready(t', a) == t' && t'.channels == s.channels && t'.rate == s.rate
            && t'.history == Stream(chunks, s.channels) && (t'.active <==> HeardBefore(t, chunks, s))
            && Lag(t', a.frames, s.delaySeconds) == DelayFrames(s)
  {
    SteadyEnds(t, chunks, a, s);
    SteadyHistory(t, chunks, s);
    hide Steady, OnTime;
    var t' := AfterAll(t, chunks, s);
    hide AfterAll;
    SteadyStep(t', a, s) by { assert OnTime(t', a); }
    LagIsTheDelay(t', a.frames, s.delaySeconds);
  }

  /** The listener hears the stream itself, delayed by delaySeconds to the sample: nothing until that much has come
      in, then every frame delaySeconds * rate behind, through every lap of the ring; only the first chunk heard
      fades in. */
  lemma StreamIsDelayed(t: Timeline, chunks: seq<Audio>, a: Audio, s: Settings)
    requires s.rate > 0 && JustReset(t, s) && Steady(t, chunks + [a], s)
    ensures Shown(chunks + [a], s.channels) && Shown(chunks, s.channels) && s.channels <= |a.planes|
    ensures Square(AfterAll(t, chunks, s))
    ensures var out := Result(AfterAll(t, chunks, s), a, s.channels, s.rate, s.delaySeconds);
            && out.Delayed?
            && DelayedStream(out.chunks, Stream(chunks + [a], s.channels), s.channels, a.frames, DelayFrames(s),
                             HeardBefore(t, chunks, s), FadeFrames(a.frames, s.rate))
  {
    SteadyChunk(t, chunks, a, s);
    var t' := AfterAll(t, chunks, s);
    hide AfterAll, WithChunk, Steady, DelayedStream, ChunkNs, HeardBefore, DelayFrames, Ready, Sized, FadeFrames, JustReset;
    assert Shown(chunks + [a], s.channels);
    StreamGrows(chunks, a, s.channels);
    hide Stream;
    var heard := Heard(t', a, ChunkNs(a.frames, s.rate));
    assert Lag(heard, a.frames, s.delaySeconds) == Lag(t', a.frames, s.delaySeconds);
    assert 0 < a.frames <= |heard.history| && Square(heard);
    hide Lag, Played;
    PlayedIsDelayed(heard, a.frames, s.delaySeconds);
  }

  lemma StreamGrows(chunks: seq<Audio>, a: Audio, channels: nat)
    requires forall k :: 0 <= k < |chunks + [a]| ==> channels <= |(chunks + [a])[k].planes|
    ensures forall k :: 0 <= k < |chunks| ==> channels <= |chunks[k].planes|
    ensures channels <= |a.planes|
    ensures Stream(chunks + [a], channels) == Stream(chunks, channels) + FramesOf(a, channels)
  {
    assert forall k :: 0 <= k < |chunks| ==> (chunks + [a])[k] == chunks[k];
    assert (chunks + [a])[|chunks|] == a;
    assert (chunks + [a])[..|chunks|] == chunks;
  }

  // --- Where the clock and the history part ---

  /** A gap is measured right exactly when its product with the rate fits 64 bits. */
  lemma GapMeasured(drift: nat, rate: nat)
    ensures GapFrames(drift, rate) == drift * rate / NS <==> drift * rate < TWO_64
  {
    var product := drift * rate;
    if product >= TWO_64 {
      assert Wrap64(product) <= product - TWO_64 by {
        var q := product / TWO_64;
        assert product == TWO_64 * q + product % TWO_64;
        assert q >= 1;
      }
    }
  }

  /** So a gap as long as the ring ends the history whenever it is shorter than 2^64 / rate nanoseconds. */
  lemma LongGapForgets(t: Timeline, frames: nat, timestamp: U64)
    requires t.expected.Some? && frames < t.ringLen
    requires var drift := Signed(timestamp) - Signed(t.expected.value);
             drift > GAP_TOLERANCE_NS && drift * t.rate < TWO_64
    ensures var drift := Signed(timestamp) - Signed(t.expected.value);
            OnClock(t, frames, timestamp)
            == if drift * t.rate / NS >= t.ringLen - frames then Forgotten(t)
               else t.(history := t.history + Silence(t.channels, drift * t.rate / NS))
  {
    GapMeasured(Signed(timestamp) - Signed(t.expected.value), t.rate);
  }

  /** After a longer one the old history can stay, with no silence in between: 4.4 days without audio at 48 kHz. */
  lemma VeryLongGapForgotten(t: Timeline, timestamp: U64)
    requires t.expected.Some? && t.rate == 48000 && t.ringLen > 480
    requires Signed(timestamp) - Signed(t.expected.value) == 384307168202283
    ensures OnClock(t, 480, timestamp).history == t.history
  {
    assert 384307168202283 * 48000 == TWO_64 + 32384;
    assert GapFrames(384307168202283, 48000) == 0;
    assert t.history + Silence(t.channels, 0) == t.history;
  }

  /** How far from the time announced by the chunk before a chunk comes. */
  function Drift(t: Timeline, a: Audio): int {
    if t.expected.None? then 0 else Signed(a.timestamp) - Signed(t.expected.value)
  }

  function Drifts(t: Timeline, chunks: seq<Audio>, s: Settings): int
    requires s.rate > 0 && Shown(chunks, s.channels)
    decreases |chunks|
  {
    if chunks == [] then 0
    else var before, a := chunks[..|chunks| - 1], chunks[|chunks| - 1];
         Drifts(t, before, s) + Drift(AfterAll(t, before, s), a)
  }

  /** What the chunks last, together. */
  function StreamNs(chunks: seq<Audio>, rate: nat): nat
    requires rate > 0
    decreases |chunks|
  {
    if chunks == [] then 0
    else StreamNs(chunks[..|chunks| - 1], rate) + ChunkNs(chunks[|chunks| - 1].frames, rate)
  }

  /** What the clock says passed from the start of the first chunk to the end of the last. */
  function ClockNs(chunks: seq<Audio>, rate: nat): int
    requires rate > 0 && chunks != []
  {
    var last := chunks[|chunks| - 1];
    last.timestamp + ChunkNs(last.frames, rate) - chunks[0].timestamp
  }

  /** The clock does not reach the sign bit, and so never wraps: 292 years. */
  predicate Unwrapped(chunks: seq<Audio>, rate: nat)
    requires rate > 0
  {
    forall k :: 0 <= k < |chunks| ==> chunks[k].timestamp + ChunkNs(chunks[k].frames, rate) < 0x8000_0000_0000_0000
  }

  predicate Tolerated(drift: int, chunks: nat) { -(GAP_TOLERANCE_NS * chunks) <= drift <= GAP_TOLERANCE_NS * chunks }

  /** The clock runs ahead of the history by exactly the drifts let pass, each within the tolerance; so the history, which
      is what the source delivered, keeps pace with the clock if and only if these drifts cancel out. */
  lemma HistoryKeepsPaceIff(t: Timeline, chunks: seq<Audio>, s: Settings)
    requires s.rate > 0 && JustReset(t, s) && Steady(t, chunks, s) && chunks != [] && Unwrapped(chunks, s.rate)
    ensures AfterAll(t, chunks, s).history == Stream(chunks, s.channels)
    ensures ClockNs(chunks, s.rate) == StreamNs(chunks, s.rate) + Drifts(t, chunks, s)
    ensures ClockNs(chunks, s.rate) == StreamNs(chunks, s.rate) <==> Drifts(t, chunks, s) == 0
    ensures Tolerated(Drifts(t, chunks, s), |chunks| - 1)
  {
    SteadyHistory(t, chunks, s);
    ClockAhead(t, chunks, s);
    hide JustReset, Steady, AfterAll, Stream, ClockNs, StreamNs, Drifts, Unwrapped, Tolerated;
  }

  /** What the last chunk adds to a run. */
  lemma LastChunk(t: Timeline, chunks: seq<Audio>, s: Settings)
    requires s.rate > 0 && JustReset(t, s) && Steady(t, chunks, s) && chunks != [] && Unwrapped(chunks, s.rate)
    ensures var before, a := chunks[..|chunks| - 1], chunks[|chunks| - 1];
            var t', ns := AfterAll(t, before, s), ChunkNs(a.frames, s.rate);
            && Steady(t, before, s) && OnTime(t', a) && a.timestamp + ns < 0x8000_0000_0000_0000
            && AfterAll(t, chunks, s).expected == Some(a.timestamp + ns)
            && Drifts(t, chunks, s) == Drifts(t, before, s) + Drift(t', a)
            && StreamNs(chunks, s.rate) == StreamNs(before, s.rate) + ns
            && (before == [] ==> t'.expected.None? && Drifts(t, before, s) == 0 && StreamNs(before, s.rate) == 0)
  {
    LastExpected(t, chunks, s);
    hide After, ChunkNs, OnTime, RingFrames, Unwrapped, Drift;
  }

  lemma LastExpected(t: Timeline, chunks: seq<Audio>, s: Settings)
    requires s.rate > 0 && JustReset(t, s) && Steady(t, chunks, s) && chunks != [] && Unwrapped(chunks, s.rate)
    ensures var a := chunks[|chunks| - 1];
            var ns := ChunkNs(a.frames, s.rate);
            a.timestamp + ns < 0x8000_0000_0000_0000 && AfterAll(t, chunks, s).expected == Some(a.timestamp + ns)
  {
    hide JustReset, Stream, After, ChunkNs, RingFrames, FramesOf, Sized, Ready, OnTime, Signed, HeardBefore, Square, Wrap64;
    var n := |chunks| - 1;
    var before, a := chunks[..n], chunks[n];
    assert a.timestamp + ChunkNs(a.frames, s.rate) < 0x8000_0000_0000_0000;
    hide Unwrapped;
    Unwrapping(a.timestamp + ChunkNs(a.frames, s.rate));
    SteadyHistory(t, before, s);
    var t' := AfterAll(t, before, s);
    SteadyStep(t', a, s);
  }

  lemma Unwrapping(ns: nat)
    requires ns < 0x8000_0000_0000_0000
    ensures Wrap64(ns) == ns
  {
  }

  lemma UnwrappedBefore(chunks: seq<Audio>, n: nat, rate: nat)
    requires rate > 0 && Unwrapped(chunks, rate) && n <= |chunks|
    ensures Unwrapped(chunks[..n], rate)
  {
    hide ChunkNs;
  }

  lemma {:induction false} ClockAhead(t: Timeline, chunks: seq<Audio>, s: Settings)
    requires s.rate > 0 && JustReset(t, s) && Steady(t, chunks, s) && chunks != [] && Unwrapped(chunks, s.rate)
    ensures ClockNs(chunks, s.rate) == StreamNs(chunks, s.rate) + Drifts(t, chunks, s)
    ensures Tolerated(Drifts(t, chunks, s), |chunks| - 1)
    decreases |chunks|
  {
    hide JustReset, Steady, Stream, After, AfterAll, ChunkNs, Drifts, StreamNs, Unwrapped, RingFrames;
    LastChunk(t, chunks, s);
    var before := chunks[..|chunks| - 1];
    if before != [] {
      UnwrappedBefore(chunks, |before|, s.rate);
      LastChunk(t, before, s);
      ClockAhead(t, before, s);
    }
  }

  // --- A source late by the tolerance, chunk after chunk ---

  /** Chunks of 10 ms, each 10 ms late, whatever their samples. */
  function LateChunk(k: nat, planes: seq<Option<seq<real>>>): Audio
    requires k < 1_000_000
  {
    Audio(480, k * 20_000_000, planes)
  }

  function LateChunks(n: nat, planes: seq<Option<seq<real>>>): (chunks: seq<Audio>)
    requires n <= 1_000_000
    ensures |chunks| == n && forall k :: 0 <= k < n ==> chunks[k] == LateChunk(k, planes)
  {
    if n == 0 then [] else LateChunks(n - 1, planes) + [LateChunk(n - 1, planes)]
  }

  function Late(channels: nat): Settings { Settings(channels, 48000, 10) }

  lemma OneMoreSteady(t: Timeline, chunks: seq<Audio>, a: Audio, s: Settings)
    requires s.rate > 0 && Steady(t, chunks, s) && s.channels <= |a.planes|
    requires 0 < a.frames <= s.rate && a.frames < RingFrames(s.rate, s.delaySeconds) && OnTime(AfterAll(t, chunks, s), a)
    ensures Steady(t, chunks + [a], s)
    ensures Drifts(t, chunks + [a], s) == Drifts(t, chunks, s) + Drift(AfterAll(t, chunks, s), a)
  {
    var more := chunks + [a];
    assert more[..|more| - 1] == chunks && more[|more| - 1] == a;
    assert forall k :: 0 <= k < |more| ==> s.channels <= |more[k].planes|;
    hide AfterAll, OnTime, Drift;
  }

  lemma LateFirst(t: Timeline, planes: seq<Option<seq<real>>>)
    requires JustReset(t, Late(|planes|))
    ensures Steady(t, [LateChunk(0, planes)], Late(|planes|)) && Drifts(t, [LateChunk(0, planes)], Late(|planes|)) == 0
  {
    assert RingFrames(48000, 10) == 528_000;
    hide RingFrames, ChunkNs;
    assert [] + [LateChunk(0, planes)] == [LateChunk(0, planes)];
    OneMoreSteady(t, [], LateChunk(0, planes), Late(|planes|));
  }

  lemma LateStep(t: Timeline, chunks: seq<Audio>, n: nat, planes: seq<Option<seq<real>>>)
    requires 0 < n < 1_000_000 && chunks == LateChunks(n, planes) && JustReset(t, Late(|planes|))
    requires Steady(t, chunks, Late(|planes|))
    ensures Steady(t, chunks + [LateChunk(n, planes)], Late(|planes|))
    ensures Drifts(t, chunks + [LateChunk(n, planes)], Late(|planes|)) == Drifts(t, chunks, Late(|planes|)) + GAP_TOLERANCE_NS
  {
    assert RingFrames(48000, 10) == 528_000 && ChunkNs(480, 48000) == 10_000_000;
    hide RingFrames, ChunkNs, AfterAll, Steady, Drifts, JustReset, LateChunks;
    assert Unwrapped(chunks, 48000);
    LastChunk(t, chunks, Late(|planes|));
    OneMoreSteady(t, chunks, LateChunk(n, planes), Late(|planes|));
  }

  lemma {:induction false} LateSoFar(t: Timeline, n: nat, planes: seq<Option<seq<real>>>)
    requires 0 < n <= 1_000_000 && JustReset(t, Late(|planes|))
    ensures Steady(t, LateChunks(n, planes), Late(|planes|))
    ensures Drifts(t, LateChunks(n, planes), Late(|planes|)) == GAP_TOLERANCE_NS * (n - 1)
  {
    var chunks := LateChunks(n - 1, planes);
    assert LateChunks(n, planes) == chunks + [LateChunk(n - 1, planes)];
    hide JustReset, Steady, Drifts, LateChunks;
    if n == 1 {
      LateFirst(t, planes);
      assert chunks == [];
    } else {
      LateSoFar(t, n - 1, planes);
      LateStep(t, chunks, n - 1, planes);
    }
  }

  /** That much is reached: of a source with any number of channels whose every chunk of 10 ms comes 10 ms late, n chunks
      leave n * 10 ms of history while the clock says (2 * n - 1) * 10 ms, and none of it ever becomes silence. */
  lemma LatenessAccumulates(t: Timeline, n: nat, planes: seq<Option<seq<real>>>)
    requires planes != [] && 0 < n <= 1_000_000 && JustReset(t, Late(|planes|))
    ensures var chunks, s := LateChunks(n, planes), Late(|planes|);
            && Steady(t, chunks, s) && AfterAll(t, chunks, s).history == Stream(chunks, s.channels)
            && ClockNs(chunks, 48000) == (2 * n - 1) * 10_000_000 && StreamNs(chunks, 48000) == n * 10_000_000
            && Drifts(t, chunks, s) == GAP_TOLERANCE_NS * (n - 1)
  {
    LateSoFar(t, n, planes);
    var chunks := LateChunks(n, planes);
    assert ChunkNs(480, 48000) == 10_000_000;
    hide ChunkNs, LateChunks, Steady, JustReset;
    assert Unwrapped(chunks, 48000);
    HistoryKeepsPaceIff(t, chunks, Late(|planes|));
  }
}
