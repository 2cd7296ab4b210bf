/** What the policy has to do, in the numbers of the sample it is given (src/degradation-policy.cpp): take a step down when
    there is overload and one that helps, and a step up when that has been predicted to fit for long enough. */
module Overload {
  import opened Words
  import opened BufferFit
  import opened Degradation

  // --- Overload, by the sample's own numbers ---

  /** That long has passed since the last change. */
  predicate Passed(p: State, nowNs: nat, ns: nat) {
    ns == 0 || (p.lastChangeNs != 0 && p.lastChangeNs + ns <= nowNs)
  }

  /** ms of work exceed their share of the time there is. */
  predicate Exceeds(ms: real, share: real, timeMs: real) {
    if timeMs > 0.0 then ms > share * timeMs else share < 0.0
  }

  predicate ExceedsCount(part: nat, share: real, whole: nat) {
    Exceeds(part as real, share, whole as real)
  }

  /** The time between two captures. */
  function FrameMs(p: State, s: Sample): real
    requires InRange(p)
  {
    s.frameIntervalNs as real / 1000000.0 * p.ladder[p.rung].captureDivisor as real
  }

  predicate EncodeOver(p: State, s: Sample)
    requires InRange(p)
  {
    var t := p.thresholds;
    && p.threaded && Passed(p, s.nowNs, t.cooldownNs)
    && ((s.encodeSamples >= t.minSamples
         && Exceeds(s.encodeP95Ms, t.workerDown, FrameMs(p, s) * p.steps[p.step].contexts as real))
        || (s.captures >= t.minSamples && ExceedsCount(s.encodeDrops, t.dropRateDown, s.captures)))
  }

  /** Decode times and misses only count while the frames they are about were captured at the current rung. */
  predicate DecodeOver(p: State, s: Sample)
    requires InRange(p)
  {
    var t := p.thresholds;
    var current := s.decodeRung.None? || s.decodeRung.value == p.rung;
    var samples, due := if current then s.decodeSamples else 0, if current then s.dueFrames else 0;
    && p.threaded && Passed(p, s.nowNs, t.cooldownNs)
    && ((samples >= t.minSamples && Exceeds(s.decodeP95Ms, t.workerDown, FrameMs(p, s)))
        || (due >= t.minSamples && ExceedsCount(s.decodeMisses, t.missRateDown, due)))
  }

  /** The short window reacts sooner than the long one. */
  predicate GraphicsOver(p: State, s: Sample) {
    var t, intervalMs := p.thresholds, s.frameIntervalNs as real / 1000000.0;
    || (Passed(p, s.nowNs, t.cooldownNs) && s.graphicsSamples >= t.minSamples
        && (Exceeds(s.graphicsP95Ms, t.graphicsDown, intervalMs)
            || (Exceeds(s.graphicsP95Ms, t.graphicsTarget, intervalMs) && s.obsLaggedFrames > 0)))
    || (Passed(p, s.nowNs, t.immediateSettleNs) && s.graphicsShortSamples >= t.minSamples / 2
        && Exceeds(s.graphicsShortP50Ms, t.graphicsImmediate, intervalMs))
  }

  predicate Overloaded(p: State, s: Sample)
    requires InRange(p)
  {
    EncodeOver(p, s) || DecodeOver(p, s) || GraphicsOver(p, s)
  }

  // --- The same by quotients ---

  lemma PassedIs(p: State, nowNs: nat, ns: nat)
    ensures Passed(p, nowNs, ns) <==> SinceChange(Started(p, nowNs), nowNs) >= ns
  {
  }

  lemma ExceedsIs(ms: real, share: real, timeMs: real)
    requires timeMs >= 0.0
    ensures Exceeds(ms, share, timeMs) <==> Over(ms, timeMs) > share
  {
    if timeMs > 0.0 {
      var load := ms / timeMs;
      assert load * timeMs == ms;
      TimesGrows(share, load, timeMs);
    }
  }

  lemma TimesGrows(a: real, b: real, c: real)
    requires c > 0.0
    ensures a < b <==> a * c < b * c
  {
    if a < b {
      assert (b - a) * c > 0.0;
    } else {
      assert (a - b) * c >= 0.0;
    }
  }

  lemma RateIs(part: nat, share: real, whole: nat)
    ensures ExceedsCount(part, share, whole) <==> Rate(part, whole) > share
  {
    ExceedsIs(part as real, share, whole as real);
  }

  lemma TimesNotNegative(a: real, b: real)
    requires a >= 0.0 && b >= 0.0
    ensures a * b >= 0.0
  {
  }

  lemma FrameMsIs(p: State, s: Sample)
    requires InRange(p)
    ensures FrameMs(p, s) == CaptureMs(p, s) >= 0.0 && Interval(s) >= 0.0
    ensures Times(CaptureMs(p, s), p.steps[p.step].contexts) >= 0.0
  {
    TimesNotNegative(Interval(s), p.ladder[p.rung].captureDivisor as real);
    TimesNotNegative(CaptureMs(p, s), p.steps[p.step].contexts as real);
  }

  lemma EncodeOverIs(p: State, s: Sample)
    requires InRange(p)
    ensures EncodeOver(p, s) <==> EncodeDown(Started(p, s.nowNs), s).Some?
  {
    FrameMsIs(p, s);
    PassedIs(p, s.nowNs, p.thresholds.cooldownNs);
    ExceedsIs(s.encodeP95Ms, p.thresholds.workerDown, Times(FrameMs(p, s), p.steps[p.step].contexts));
    RateIs(s.encodeDrops, p.thresholds.dropRateDown, s.captures);
    hide Exceeds, ExceedsCount, Over, Rate, Passed, SinceChange, CaptureMs, FrameMs;
  }

  lemma DecodeOverIs(p: State, s: Sample)
    requires InRange(p)
    ensures DecodeOver(p, s) <==> DecodeDown(Started(p, s.nowNs), s).Some?
  {
    var due := if s.decodeRung.None? || s.decodeRung.value == p.rung then s.dueFrames else 0;
    FrameMsIs(p, s);
    PassedIs(p, s.nowNs, p.thresholds.cooldownNs);
    ExceedsIs(s.decodeP95Ms, p.thresholds.workerDown, FrameMs(p, s));
    RateIs(s.decodeMisses, p.thresholds.missRateDown, due);
    hide Exceeds, ExceedsCount, Over, Rate, Passed, SinceChange, CaptureMs, FrameMs;
  }

  lemma GraphicsOverIs(p: State, s: Sample)
    ensures GraphicsOver(p, s) <==> GraphicsDown(Started(p, s.nowNs), s).Some?
  {
    var t, intervalMs := p.thresholds, Interval(s);
    PassedIs(p, s.nowNs, t.cooldownNs);
    PassedIs(p, s.nowNs, t.immediateSettleNs);
    ExceedsIs(s.graphicsP95Ms, t.graphicsDown, intervalMs);
    ExceedsIs(s.graphicsP95Ms, t.graphicsTarget, intervalMs);
    ExceedsIs(s.graphicsShortP50Ms, t.graphicsImmediate, intervalMs);
    hide Exceeds, Over, Passed, SinceChange;
  }

  // --- Overload acts ---

  /** Steps down there are, and which help: threads for the encoder (and for the graphics thread where it encodes), a lower
      rung for all. */
  predicate More(p: State) { p.step + 1 < |p.steps| }
  predicate Lower(p: State) { p.rung + 1 < |p.ladder| }

  /** The position a decision leads to. */
  predicate Moves(p: State, p': State, d: Decision, action: Action, cause: Cause, nowNs: nat) {
    && d.action == action && d.cause == cause && p'.lastChangeNs == nowNs && p'.upSinceNs == 0
    && p'.step == (if action == MoreParallelism then p.step + 1 else p.step)
    && p'.rung == (if action == LowerQuality then p.rung + 1 else p.rung)
    && p'.ladder == p.ladder && p'.steps == p.steps
  }

  /** Overload always takes a step down that helps, the encoder's threads first, and names its cause; it stays only when no
      such step is left. Without overload there is never a step down. */
  lemma OverloadActs(p: State, s: Sample, speedup: nat -> real)
    requires InRange(p) && s.frameIntervalNs > 0
    ensures var (p', d) := Evaluated(p, s, speedup);
            var encode, decode, graphics := EncodeOver(p, s), DecodeOver(p, s), GraphicsOver(p, s);
            && (encode && More(p) ==> Moves(p, p', d, MoreParallelism, Encode, s.nowNs))
            && (encode && !More(p) && Lower(p) ==> Moves(p, p', d, LowerQuality, Encode, s.nowNs))
            && (!encode && decode && Lower(p) ==> Moves(p, p', d, LowerQuality, Decode, s.nowNs))
            && (!encode && !decode && graphics && !p.threaded && More(p) ==> Moves(p, p', d, MoreParallelism, Graphics, s.nowNs))
            && (!encode && !decode && graphics && (p.threaded || !More(p)) && Lower(p) ==>
                  Moves(p, p', d, LowerQuality, Graphics, s.nowNs))
            && (Overloaded(p, s) && !Lower(p) && !(More(p) && (encode || (graphics && !p.threaded))) ==>
                  d == NO_DECISION && p' == Started(p, s.nowNs).(upSinceNs := 0))
            && (!Overloaded(p, s) ==> d.action != MoreParallelism && d.action != LowerQuality)
  {
    EncodeOverIs(p, s);
    DecodeOverIs(p, s);
    GraphicsOverIs(p, s);
    ThreadsOnly(p, s);
    hide EncodeOver, DecodeOver, GraphicsOver, EncodeDown, DecodeDown, GraphicsDown, StepUp, Settled, Wrap64;
  }

  lemma ThreadsOnly(p: State, s: Sample)
    requires InRange(p)
    ensures EncodeOver(p, s) || DecodeOver(p, s) ==> p.threaded
  {
  }

  // --- Over runs ---

  /** Every evaluation finds overload. */
  ghost predicate Overloads(p: State, events: seq<Event>, speedup: nat -> real)
    requires InRange(p)
  {
    forall k :: 0 <= k < |events| ==> OverloadedAt(p, events, k, speedup)
  }

  predicate OverloadedAt(p: State, events: seq<Event>, k: nat, speedup: nat -> real)
    requires InRange(p) && k < |events|
  {
    && events[k].OnEvaluate? && events[k].sample.frameIntervalNs > 0
    && Overloaded(After(p, events[..k], speedup), events[k].sample)
  }

  /** Steps down there still are. */
  function StepsDown(p: State): nat
    requires InRange(p)
  {
    |p.ladder| - 1 - p.rung + |p.steps| - 1 - p.step
  }

  lemma OneDown(p: State, s: Sample, speedup: nat -> real)
    requires InRange(p) && s.frameIntervalNs > 0 && Overloaded(p, s)
    ensures var p' := Evaluated(p, s, speedup).0;
            && InRange(p') && p'.ladder == p.ladder && p'.steps == p.steps && p'.rung >= p.rung
            && (Lower(p) ==> StepsDown(p') == StepsDown(p) - 1)
  {
    OverloadActs(p, s, speedup);
    NextInRange(p, OnEvaluate(s), speedup);
    StaysOrMoves(p, s, speedup);
    hide EncodeOver, DecodeOver, GraphicsOver, Evaluated;
    ThreadsOnly(p, s);
  }

  /** Whatever an evaluation decides, ladder and steps stay; and without a lower rung it cannot go up in overload. */
  lemma StaysOrMoves(p: State, s: Sample, speedup: nat -> real)
    requires InRange(p) && s.frameIntervalNs > 0 && Overloaded(p, s)
    ensures var p' := Evaluated(p, s, speedup).0; p'.ladder == p.ladder && p'.steps == p.steps && p'.rung >= p.rung
  {
    EncodeOverIs(p, s);
    DecodeOverIs(p, s);
    GraphicsOverIs(p, s);
    hide EncodeOver, DecodeOver, GraphicsOver, EncodeDown, DecodeDown, GraphicsDown, StepUp, Settled, Wrap64;
  }

  lemma {:induction false} GoesDown(p: State, events: seq<Event>, speedup: nat -> real)
    requires InRange(p) && Overloads(p, events, speedup)
    ensures var p' := After(p, events, speedup);
            && p'.ladder == p.ladder && p'.steps == p.steps
            && (p'.rung + 1 < |p'.ladder| ==> StepsDown(p') + |events| == StepsDown(p))
    decreases |events|
  {
    if events != [] {
      var n := |events| - 1;
      hide Overloads, Overloaded, Evaluated;
      var before, e := events[..n], events[n];
      OverloadsBefore(p, events, n, speedup);
      GoesDown(p, before, speedup);
      hide After;
      OneDown(After(p, before, speedup), e.sample, speedup);
      LastEvent(p, events, speedup);
    }
  }

  lemma OverloadsBefore(p: State, events: seq<Event>, n: nat, speedup: nat -> real)
    requires InRange(p) && Overloads(p, events, speedup) && n < |events|
    ensures Overloads(p, events[..n], speedup) && OverloadedAt(p, events, n, speedup)
  {
    hide After, Overloaded;
    forall k | 0 <= k < n
      ensures OverloadedAt(p, events[..n], k, speedup)
    {
      assert OverloadedAt(p, events, k, speedup) && events[..n][..k] == events[..k];
    }
  }

  lemma LastEvent(p: State, events: seq<Event>, speedup: nat -> real)
    requires InRange(p) && events != [] && events[|events| - 1].OnEvaluate?
    ensures var n := |events| - 1;
            After(p, events, speedup) == Evaluated(After(p, events[..n], speedup), events[n].sample, speedup).0
  {
    hide Evaluated;
  }

  /** Overload that lasts brings the lowest quality there is, after at most as many evaluations as there are steps down. */
  lemma LastRungReached(p: State, events: seq<Event>, speedup: nat -> real)
    requires InRange(p) && Overloads(p, events, speedup) && |events| >= StepsDown(p)
    ensures var p' := After(p, events, speedup); p'.rung == |p'.ladder| - 1
  {
    GoesDown(p, events, speedup);
    hide Overloads, After;
  }

  /** What a step down reports is over its limit. */
  lemma ReportedIsOver(p: State, s: Sample, speedup: nat -> real)
    requires InRange(p) && s.frameIntervalNs > 0
    ensures var (d, t) := (Evaluated(p, s, speedup).1, p.thresholds);
            && (d.cause == Encode ==> d.load > t.workerDown || d.load > t.dropRateDown)
            && (d.cause == Decode ==> d.load > t.workerDown || d.load > t.missRateDown)
            && (d.cause == Graphics ==> d.load > t.graphicsDown || d.load > t.graphicsTarget || d.load > t.graphicsImmediate)
  {
    var q := Started(p, s.nowNs);
    if Judged(q, s, speedup).Fits? {
      FitIsRecovered(q, s, speedup);
    }
    hide CaptureMs, Over, Rate, Settled, SinceChange, DecodeCurrent, StepUp, Wrap64;
  }

  lemma FitIsRecovered(p: State, s: Sample, speedup: nat -> real)
    requires InRange(p) && Judged(p, s, speedup).Fits?
    ensures Judged(p, s, speedup).decision.cause == Recovered && (p.rung == 0 ==> p.step > 0)
  {
    hide EncodeDown, DecodeDown, GraphicsDown, Settled;
  }

  // --- What is predicted to fit ---

  function Pixels(r: Rung): real { MaxReal(1.0, (r.width * r.height) as real) }

  /** ms of work, grown by a ratio and the margin, take no more than their share of the time there is. */
  predicate Takes(ms: real, ratio: real, margin: real, share: real, timeMs: real) {
    if timeMs > 0.0 then ms * ratio * margin <= share * timeMs else share >= 0.0
  }

  /** One rung up: the work grows with the pixels, and by the margin. */
  predicate RungFits(p: State, s: Sample)
    requires InRange(p) && p.rung > 0
  {
    var t, now, next := p.thresholds, p.ladder[p.rung], p.ladder[p.rung - 1];
    var ratio, margin := (next.width * next.height) as real / Pixels(now), t.predictionMargin;
    var intervalMs := s.frameIntervalNs as real / 1000000.0;
    var nextMs := intervalMs * next.captureDivisor as real;
    && Takes(s.graphicsP95Ms, ratio, margin, t.graphicsTarget, intervalMs)
    && (p.threaded ==> Takes(s.encodeP95Ms, ratio, margin, t.workerUp, nextMs * p.steps[p.step].contexts as real)
                       && Takes(s.decodeP95Ms, ratio, margin, t.workerUp, nextMs))
  }

  /** One step of threads back: the encode gets slower by the speed-up lost. */
  predicate StepFits(p: State, s: Sample, speedup: nat -> real)
    requires InRange(p) && p.step > 0
  {
    var t, next := p.thresholds, p.steps[p.step - 1];
    var slower := Over(speedup(p.steps[p.step].slices), speedup(next.slices));
    if p.threaded then Takes(s.encodeP95Ms, slower, t.predictionMargin, t.workerUp, FrameMs(p, s) * next.contexts as real)
    else Takes(s.graphicsP95Ms, slower, t.predictionMargin, t.graphicsTarget, s.frameIntervalNs as real / 1000000.0)
  }

  /** Nothing is overloaded, there is enough to go by, and one step up would fit. */
  predicate FitsUp(p: State, s: Sample, speedup: nat -> real)
    requires InRange(p)
  {
    var t := p.thresholds;
    var decodeSamples := if s.decodeRung.None? || s.decodeRung.value == p.rung then s.decodeSamples else 0;
    && s.frameIntervalNs > 0 && !Overloaded(p, s) && !s.blockUp && Passed(p, s.nowNs, t.cooldownNs)
    && s.graphicsSamples >= t.minSamples
    && (p.threaded ==> s.encodeSamples >= t.minSamples && decodeSamples >= t.minSamples)
    && (if p.rung > 0 then RungFits(p, s) else p.step > p.initialStep && StepFits(p, s, speedup))
  }

  /** Work grown by a ratio and the margin, over the time there is. */
  lemma TakesIs(ms: real, ratio: real, margin: real, share: real, timeMs: real)
    requires timeMs >= 0.0
    ensures Takes(ms, ratio, margin, share, timeMs) <==> Over(Grown(ms, ratio, margin), timeMs) <= share
    ensures Grown(Over(ms, timeMs), ratio, margin) == Over(Grown(ms, ratio, margin), timeMs)
  {
    Regrown(ms, ratio, margin);
    GrownLoad(ms, ratio, margin, timeMs);
    var work := Grown(ms, ratio, margin);
    if timeMs > 0.0 {
      assert work / timeMs * timeMs == work;
      TimesGrows(share, work / timeMs, timeMs);
    }
  }

  lemma Regrown(ms: real, a: real, b: real)
    ensures Grown(ms, a, b) == ms * (a * b)
  {
  }

  /** A load grown is the work grown, by the time. */
  lemma GrownLoad(ms: real, a: real, b: real, timeMs: real)
    ensures Grown(Over(ms, timeMs), a, b) == Over(ms * (a * b), timeMs)
  {
    if timeMs != 0.0 {
      assert ms / timeMs * timeMs == ms;
      var load := ms / timeMs;
      Regroup(load, timeMs, a * b);
      assert load * a * b == load * (a * b);
    }
  }

  lemma Regroup(load: real, timeMs: real, c: real)
    requires timeMs != 0.0
    ensures load * timeMs * c / timeMs == load * c
  {
    assert load * timeMs * c == load * c * timeMs;
  }

  /** RungFits, in the terms of the policy. */
  lemma RungTakes(p: State, s: Sample)
    requires InRange(p) && p.rung > 0
    ensures var (t, next, pixels) := (p.thresholds, p.ladder[p.rung - 1], PixelRatio(p.ladder[p.rung - 1], p.ladder[p.rung]));
            var margin, nextMs := t.predictionMargin, Times(Interval(s), next.captureDivisor);
            && nextMs >= 0.0 && Interval(s) >= 0.0 && Times(nextMs, p.steps[p.step].contexts) >= 0.0
            && (RungFits(p, s) <==>
                  Takes(s.graphicsP95Ms, pixels, margin, t.graphicsTarget, Interval(s))
                  && (p.threaded ==> Takes(s.encodeP95Ms, pixels, margin, t.workerUp, Times(nextMs, p.steps[p.step].contexts))
                                     && Takes(s.decodeP95Ms, pixels, margin, t.workerUp, nextMs)))
  {
    var next := p.ladder[p.rung - 1];
    TimesNotNegative(Interval(s), next.captureDivisor as real);
    TimesNotNegative(Times(Interval(s), next.captureDivisor), p.steps[p.step].contexts as real);
    hide Takes;
  }

  lemma RungFitsIs(p: State, s: Sample, speedup: nat -> real)
    requires InRange(p) && p.rung > 0
    ensures RungFits(p, s) <==> StepUp(p, s, speedup).Some?
    ensures StepUp(p, s, speedup).Some? ==> StepUp(p, s, speedup).value.action == RaiseQuality
  {
    hide Takes, Over, Grown, Times, RungFits, PixelRatio, Interval;
    RungTakes(p, s);
    var t, pixels := p.thresholds, PixelRatio(p.ladder[p.rung - 1], p.ladder[p.rung]);
    var nextMs := Times(Interval(s), p.ladder[p.rung - 1].captureDivisor);
    TakesIs(s.graphicsP95Ms, pixels, t.predictionMargin, t.graphicsTarget, Interval(s));
    TakesIs(s.encodeP95Ms, pixels, t.predictionMargin, t.workerUp, Times(nextMs, p.steps[p.step].contexts));
    TakesIs(s.decodeP95Ms, pixels, t.predictionMargin, t.workerUp, nextMs);
  }

  lemma StepTakes(p: State, s: Sample, speedup: nat -> real)
    requires InRange(p) && p.step > 0
    ensures var (t, next) := (p.thresholds, p.steps[p.step - 1]);
            var slower := Over(speedup(p.steps[p.step].slices), speedup(next.slices));
            && Times(CaptureMs(p, s), next.contexts) >= 0.0 && Interval(s) >= 0.0
            && (StepFits(p, s, speedup) <==>
                  if p.threaded then Takes(s.encodeP95Ms, slower, t.predictionMargin, t.workerUp, Times(CaptureMs(p, s), next.contexts))
                  else Takes(s.graphicsP95Ms, slower, t.predictionMargin, t.graphicsTarget, Interval(s)))
  {
    FrameMsIs(p, s);
    TimesNotNegative(FrameMs(p, s), p.steps[p.step - 1].contexts as real);
    hide Takes, CaptureMs, FrameMs;
  }

  lemma StepFitsIs(p: State, s: Sample, speedup: nat -> real)
    requires InRange(p) && p.rung == 0 && p.step > p.initialStep
    ensures StepFits(p, s, speedup) <==> StepUp(p, s, speedup).Some?
    ensures StepUp(p, s, speedup).Some? ==> StepUp(p, s, speedup).value.action == LessParallelism
  {
    hide Takes, Over, Grown, Times, StepFits, CaptureMs, Interval;
    StepTakes(p, s, speedup);
    var t, next := p.thresholds, p.steps[p.step - 1];
    var slower := Over(speedup(p.steps[p.step].slices), speedup(next.slices));
    TakesIs(s.encodeP95Ms, slower, t.predictionMargin, t.workerUp, Times(CaptureMs(p, s), next.contexts));
    TakesIs(s.graphicsP95Ms, slower, t.predictionMargin, t.graphicsTarget, Interval(s));
  }

  lemma FitsUpIs(p: State, s: Sample, speedup: nat -> real)
    requires InRange(p)
    ensures FitsUp(p, s, speedup) <==> Judged(Started(p, s.nowNs), s, speedup).Fits?
    ensures FitsUp(p, s, speedup) ==>
              Judged(Started(p, s.nowNs), s, speedup).decision.action == if p.rung > 0 then RaiseQuality else LessParallelism
  {
    var q := Started(p, s.nowNs);
    SameFits(p, q, s, speedup);
    hide EncodeOver, DecodeOver, GraphicsOver, EncodeDown, DecodeDown, GraphicsDown, Passed, SinceChange, StepUp;
    hide RungFits, StepFits;
    EncodeOverIs(p, s);
    DecodeOverIs(p, s);
    GraphicsOverIs(p, s);
    PassedIs(p, s.nowNs, p.thresholds.cooldownNs);
    if q.rung > 0 {
      RungFitsIs(q, s, speedup);
    } else if q.step > q.initialStep {
      StepFitsIs(q, s, speedup);
    }
  }

  /** The prediction does not look at the clocks. */
  lemma SameFits(p: State, q: State, s: Sample, speedup: nat -> real)
    requires InRange(p) && q == p.(lastChangeNs := q.lastChangeNs)
    ensures p.rung > 0 ==> (RungFits(p, s) <==> RungFits(q, s))
    ensures p.step > 0 ==> (StepFits(p, s, speedup) <==> StepFits(q, s, speedup))
  {
    hide Takes, Over, RungFits, StepFits, Times, Interval, PixelRatio;
    if p.rung > 0 {
      RungTakes(p, s);
      RungTakes(q, s);
    }
    if p.step > 0 {
      StepTakes(p, s, speedup);
      StepTakes(q, s, speedup);
    }
  }

  // --- And is taken up ---

  /** A fit starts the streak, keeps it, or, held for long enough, is taken up by one step. */
  lemma FitActs(p: State, s: Sample, speedup: nat -> real)
    requires InRange(p) && FitsUp(p, s, speedup) && p.upSinceNs <= s.nowNs && p.lastChangeNs != 0
    ensures var (p', d) := Evaluated(p, s, speedup);
            if p.upSinceNs == 0 then d == NO_DECISION && p' == p.(upSinceNs := s.nowNs)
            else if s.nowNs < p.upSinceNs + p.thresholds.upHoldNs then d == NO_DECISION && p' == p
            else && d.cause == Recovered && p'.lastChangeNs == s.nowNs && p'.upSinceNs == 0
                 && (if p.rung > 0 then d.action == RaiseQuality && p'.rung == p.rung - 1 && p'.step == p.step
                     else d.action == LessParallelism && p'.step == p.step - 1 && p'.rung == p.rung)
  {
    FitsUpIs(p, s, speedup);
    FitIsRecovered(p, s, speedup);
    hide FitsUp, Judged;
  }

  /** Every evaluation finds one step up to fit. */
  ghost predicate AllFit(p: State, events: seq<Event>, speedup: nat -> real)
    requires InRange(p)
  {
    forall k :: 0 <= k < |events| ==> FitsAt(p, events, k, speedup)
  }

  predicate FitsAt(p: State, events: seq<Event>, k: nat, speedup: nat -> real)
    requires InRange(p) && k < |events|
  {
    && events[k].OnEvaluate? && FitsUp(After(p, events[..k], speedup), events[k].sample, speedup)
  }

  /** Until the hold has passed nothing but the streak's start changes. */
  lemma {:induction false} HoldsOn(p: State, events: seq<Event>, speedup: nat -> real)
    requires InRange(p) && p.upSinceNs == 0 && p.lastChangeNs != 0 && events != []
    requires AllFit(p, events, speedup) && Clocked(events)
    requires events[|events| - 1].OnEvaluate? && events[0].OnEvaluate?
    requires |events| > 1 ==> events[|events| - 1].sample.nowNs < events[0].sample.nowNs + p.thresholds.upHoldNs
    ensures After(p, events, speedup) == p.(upSinceNs := events[0].sample.nowNs)
    decreases |events|
  {
    var n := |events| - 1;
    assert FitsAt(p, events, n, speedup);
    assert NowOf(events[n]).Some? && NowOf(events[0]).Some?;
    if n == 0 {
      assert events[..0] == [];
      FitActs(p, events[0].sample, speedup);
    } else {
      var before := events[..n];
      Shorter(p, events, n, speedup);
      assert FitsAt(p, events, n - 1, speedup) && NowOf(events[n - 1]).Some?;
      HoldsOn(p, before, speedup);
      FitActs(After(p, before, speedup), events[n].sample, speedup);
    }
    LastEvent(p, events, speedup);
  }

  lemma Shorter(p: State, events: seq<Event>, n: nat, speedup: nat -> real)
    requires InRange(p) && n <= |events| && AllFit(p, events, speedup) && Clocked(events)
    ensures AllFit(p, events[..n], speedup) && Clocked(events[..n])
  {
    var before := events[..n];
    forall k | 0 <= k < n
      ensures FitsAt(p, before, k, speedup)
    {
      assert FitsAt(p, events, k, speedup) && before[..k] == events[..k];
    }
    hide FitsUp, After, NowOf;
    assert forall k :: 0 <= k < n ==> before[k] == events[k];
  }

  /** A fit that lasts for upHoldNs is taken up: by the first evaluation at which it has. */
  lemma LastingFitActs(p: State, events: seq<Event>, speedup: nat -> real)
    requires InRange(p) && p.upSinceNs == 0 && p.lastChangeNs != 0 && |events| > 1
    requires AllFit(p, events, speedup) && Clocked(events)
    requires var n := |events| - 1;
             && events[n].OnEvaluate? && events[n - 1].OnEvaluate? && events[0].OnEvaluate?
             && events[n].sample.nowNs >= events[0].sample.nowNs + p.thresholds.upHoldNs
             && (n > 1 ==> events[n - 1].sample.nowNs < events[0].sample.nowNs + p.thresholds.upHoldNs)
    ensures DecidedAt(p, events, |events| - 1, speedup).action == if p.rung > 0 then RaiseQuality else LessParallelism
  {
    var n := |events| - 1;
    Shorter(p, events, n, speedup);
    assert FitsAt(p, events, n, speedup);
    HoldsOn(p, events[..n], speedup);
    assert NowOf(events[0]).Some? && NowOf(events[n]).Some?;
    FitActs(After(p, events[..n], speedup), events[n].sample, speedup);
    hide FitsUp, Evaluated, After;
  }

  // --- The other events ---

  /** Asked to, the policy goes one rung down whatever its clocks say, while there is one. */
  lemma ForcedDown(p: State, cause: Cause, load: real, nowNs: nat, speedup: nat -> real)
    requires InRange(p)
    ensures var (p', d) := Next(p, OnForceLower(cause, load, nowNs), speedup);
            if Lower(p) then Moves(p, p', d, LowerQuality, cause, nowNs) && d.load == load else p' == p && d == NO_DECISION
  {
  }

  /** New steps or a new ladder start over: where asked to, as far as there is such a step or rung, with both clocks unset. */
  lemma StartsOver(p: State, steps: seq<Parallelism>, ladder: seq<Rung>, at: nat, speedup: nat -> real)
    requires InRange(p)
    ensures var p' := Next(p, OnSetParallelism(steps, at), speedup).0;
            p' == p.(steps := p'.steps, step := p'.step, initialStep := p'.step, upSinceNs := 0, lastChangeNs := 0)
            && (if steps == [] then p'.steps == [ONE] && p'.step == 0
                else p'.steps == steps && p'.step == if at < |steps| then at else |steps| - 1)
    ensures var p' := Next(p, OnRebase(ladder, at), speedup).0;
            p' == p.(ladder := p'.ladder, rung := p'.rung, upSinceNs := 0, lastChangeNs := 0)
            && (if ladder == [] then p'.ladder == [PLAIN_RUNG] && p'.rung == 0
                else p'.ladder == ladder && p'.rung == if at < |ladder| then at else |ladder| - 1)
  {
  }
}
