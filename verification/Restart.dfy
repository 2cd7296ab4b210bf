/** When the audio delay starts over (src/audio-delay-filter.cpp): for every chunk, exactly what of the history stays; and
    what is heard from there on. */
module Restart {
  import opened Words
  import opened AudioDelay

  /** How far from the time announced by the chunk before. */
  function Ahead(t: Timeline, a: Audio): int
    requires t.expected.Some?
  {
    Signed(a.timestamp) - Signed(t.expected.value)
  }

  /** Silence for a gap. The product with the rate is a 64-bit one. */
  function Gap(t: Timeline, a: Audio): nat {
    if t.expected.Some? && Ahead(t, a) > 10_000_000 then Wrap64(Ahead(t, a) * t.rate) / 1_000_000_000 else 0
  }

  /** The chunk follows no history: other settings, a reset asked for, time gone back by more than 10 ms, or a gap as long
      as the ring, which holds the delay and one second. */
  predicate StartsOver(t: Timeline, a: Audio, s: Settings) {
    || t.channels != s.channels || t.rate != s.rate || t.ringLen != Max(1, (s.delaySeconds + 1) * s.rate)
    || t.resetRequested
    || (t.expected.Some? && Ahead(t, a) < -10_000_000)
    || (t.expected.Some? && Ahead(t, a) > 10_000_000 && Gap(t, a) + a.frames >= t.ringLen)
  }

  /** A timeline without history, the output as it was. */
  function Blank(t: Timeline, s: Settings): Timeline {
    Timeline(s.channels, s.rate, RingFrames(s.rate, s.delaySeconds), [], None, t.active, false)
  }

  lemma RingIs(rate: nat, delaySeconds: nat)
    ensures RingFrames(rate, delaySeconds) == Max(1, (delaySeconds + 1) * rate)
  {
    assert (delaySeconds + 1) * rate == delaySeconds * rate + rate;
  }

  lemma ReadyIs(t: Timeline, a: Audio, s: Settings)
    requires s.rate > 0 && a.frames < RingFrames(s.rate, s.delaySeconds)
    ensures var ready := Ready(Sized(t, s.channels, s.rate, s.delaySeconds), a);
            if StartsOver(t, a, s) then ready.history == [] && ready.(expected := None) == Blank(t, s)
            else ready == t.(history := t.history + Silence(t.channels, Gap(t, a)))
    ensures Ready(Sized(Blank(t, s), s.channels, s.rate, s.delaySeconds), a) == Blank(t, s)
  {
    RingIs(s.rate, s.delaySeconds);
    hide RingFrames;
    assert t.history + Silence(t.channels, 0) == t.history;
  }

  /** Every chunk: starting over, the history is that chunk and nothing else; otherwise silence for the gap, if there is
      one, and the chunk join it. A chunk as long as the ring is let through and changes none of it. */
  lemma HistoryAfter(t: Timeline, a: Audio, s: Settings)
    requires s.rate > 0 && s.channels <= |a.planes|
    ensures var t' := After(t, a, s.channels, s.rate, s.delaySeconds);
            if a.frames >= Max(1, (s.delaySeconds + 1) * s.rate) then t' == Sized(t, s.channels, s.rate, s.delaySeconds)
            else
              && t'.expected == Some(Wrap64(a.timestamp + a.frames * 1_000_000_000 / s.rate)) && !t'.resetRequested
              && t'.history == (if StartsOver(t, a, s) then [] else t.history + Silence(s.channels, Gap(t, a)))
                               + FramesOf(a, s.channels)
  {
    RingIs(s.rate, s.delaySeconds);
    if a.frames < RingFrames(s.rate, s.delaySeconds) {
      ReadyIs(t, a, s);
    }
    hide RingFrames, Silence, FramesOf, Ready, Gap;
  }

  lemma SameAsBlank(t: Timeline, a: Audio, s: Settings)
    requires s.rate > 0 && s.channels <= |a.planes| && a.frames < RingFrames(s.rate, s.delaySeconds) && StartsOver(t, a, s)
    ensures After(t, a, s.channels, s.rate, s.delaySeconds) == After(Blank(t, s), a, s.channels, s.rate, s.delaySeconds)
    ensures Square(t) ==> Result(t, a, s.channels, s.rate, s.delaySeconds)
                          == Result(Blank(t, s), a, s.channels, s.rate, s.delaySeconds)
  {
    ReadyIs(t, a, s);
    hide RingFrames, Ready, FramesOf, Played, StartsOver;
  }

  lemma {:induction false} AllSameAsBlank(t: Timeline, chunks: seq<Audio>, s: Settings)
    requires s.rate > 0 && Shown(chunks, s.channels) && chunks != []
    requires chunks[0].frames < RingFrames(s.rate, s.delaySeconds) && StartsOver(t, chunks[0], s)
    ensures AfterAll(t, chunks, s) == AfterAll(Blank(t, s), chunks, s)
    decreases |chunks|
  {
    if |chunks| == 1 {
      assert chunks[..0] == [];
      SameAsBlank(t, chunks[0], s);
    } else {
      AllSameAsBlank(t, chunks[..|chunks| - 1], s);
    }
    hide After, Blank, StartsOver;
  }

  /** Whatever the filter heard before: from the chunk on at which it starts over, a steady source comes out exactly its
      delay late, with silence until that much of it has come in. */
  lemma StreamSinceRestart(t: Timeline, chunks: seq<Audio>, a: Audio, s: Settings)
    requires s.rate > 0 && Square(t) && Steady(Blank(t, s), chunks + [a], s) && StartsOver(t, (chunks + [a])[0], s)
    ensures Shown(chunks + [a], s.channels) && Shown(chunks, s.channels) && s.channels <= |a.planes|
    ensures Square(AfterAll(t, chunks, s))
    ensures var out := Result(AfterAll(t, chunks, s), a, s.channels, s.rate, s.delaySeconds);
            && out.Delayed?
            && DelayedStream(out.chunks, Stream(chunks + [a], s.channels), s.channels, a.frames, DelayFrames(s),
                             HeardBefore(t, chunks, s), FadeFrames(a.frames, s.rate))
  {
    var blank := Blank(t, s);
    StreamIsDelayed(blank, chunks, a, s);
    SteadyEnds(blank, chunks, a, s);
    if chunks == [] {
      SameAsBlank(t, a, s);
    } else {
      FirstFits(blank, chunks, s);
      assert (chunks + [a])[0] == chunks[0];
      AllSameAsBlank(t, chunks, s);
    }
    hide Steady, StartsOver, Stream, DelayedStream, After, Result, RingFrames, DelayFrames, FadeFrames;
  }

  lemma {:induction false} FirstFits(t: Timeline, chunks: seq<Audio>, s: Settings)
    requires s.rate > 0 && Steady(t, chunks, s) && chunks != []
    ensures chunks[0].frames < RingFrames(s.rate, s.delaySeconds)
    decreases |chunks|
  {
    if |chunks| > 1 {
      FirstFits(t, chunks[..|chunks| - 1], s);
    }
  }
}
