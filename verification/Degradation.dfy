/** When the delay buffer lowers and raises its quality (src/degradation-policy.cpp). Loads are real numbers. */
module Degradation {
  import opened Words
  import opened BufferFit

  datatype Rung = Rung(width: nat, height: nat, captureDivisor: nat)
  const PLAIN_RUNG := Rung(0, 0, 1)

  datatype Parallelism = Parallelism(contexts: nat, slices: nat)
  const ONE := Parallelism(1, 1)

  // --- The ladder ---

  function FloorOf2(floorHeight: nat, fullHeight: nat): real
    requires fullHeight > 0
  {
    Max(floorHeight, 2) as real / fullHeight as real
  }

  function RungAt(fullWidth: nat, fullHeight: nat, scale: real): Rung {
    Rung(AlignedWidth(fullWidth, scale), EvenDim(fullHeight, scale), 1)
  }

  const HAIR: real := 0.000000001

  /** Adds a rung if it is lower than the one before. */
  function Added(ladder: seq<Rung>, rung: Rung): (out: seq<Rung>)
    requires ladder != []
    ensures out != [] && ladder <= out
  {
    if rung.height < ladder[|ladder| - 1].height then ladder + [rung] else ladder
  }

  /** Strictly lower from rung to rung, none below the floor's rounded height. */
  ghost predicate Descends(ladder: seq<Rung>, least: nat) {
    && (forall i, j :: 0 <= i < j < |ladder| ==> ladder[i].height > ladder[j].height)
    && (forall i :: 0 <= i < |ladder| ==> ladder[i].height >= least && ladder[i].captureDivisor == 1)
  }

  lemma AddedDescends(ladder: seq<Rung>, rung: Rung, least: nat)
    requires ladder != [] && Descends(ladder, least) && rung.height >= least && rung.captureDivisor == 1
    ensures Descends(Added(ladder, rung), least)
  {
  }

  /** Scales shrink by at least this much until they reach the floor, which is what ends the loop. */
  function StepsLeft(scale: real, floorScale: real, step: real): nat
    requires 0.0 < step < 1.0 && floorScale > 0.0
  {
    if scale <= floorScale then 0 else (scale / (floorScale * (1.0 - step))).Floor + 1
  }

  lemma ScaledIsLess(scale: real, step: real, unit: real)
    requires unit > 0.0 && scale - scale * step >= unit
    ensures (scale * step / unit).Floor + 1 <= (scale / unit).Floor
  {
    QuotientBack(scale * step, unit);
    QuotientBack(scale, unit);
    var a, b := scale * step / unit, scale / unit;
    assert (b - a) * unit == b * unit - a * unit;
    AtMost(1.0, b - a, unit);
  }

  lemma StepsShrink(scale: real, floorScale: real, step: real)
    requires 0.0 < step < 1.0 && floorScale > 0.0 && scale > floorScale
    ensures scale * step > 0.0
    ensures StepsLeft(scale * step, floorScale, step) < StepsLeft(scale, floorScale, step)
  {
    PositiveProduct(scale, step);
    PositiveProduct(floorScale, 1.0 - step);
    var unit := floorScale * (1.0 - step);
    assert scale - scale * step == scale * (1.0 - step);
    ProductGrows(1.0 - step, floorScale, scale);
    ScaledIsLess(scale, step, unit);
    PositiveQuotient(scale, unit);
    PositiveQuotient(scale * step, unit);
  }

  /** The rungs from one scale on: scale after scale down to the floor, which is the last. */
  function Descent(fullWidth: nat, fullHeight: nat, floorScale: real, step: real, scale: real, ladder: seq<Rung>): (out: seq<Rung>)
    requires ladder != [] && 0.0 < step < 1.0 && floorScale > 0.0
    ensures out != [] && ladder <= out
    decreases StepsLeft(scale, floorScale, step)
  {
    if scale <= floorScale + HAIR then Added(ladder, RungAt(fullWidth, fullHeight, floorScale))
    else
      StepsShrink(scale, floorScale, step);
      Descent(fullWidth, fullHeight, floorScale, step, scale * step, Added(ladder, RungAt(fullWidth, fullHeight, scale)))
  }

  lemma FloorIsPositive(floorHeight: nat, fullHeight: nat)
    requires fullHeight > 0
    ensures FloorOf2(floorHeight, fullHeight) > 0.0
  {
    PositiveQuotient(Max(floorHeight, 2) as real, fullHeight as real);
  }

  /** Every rung but the half-rate one. */
  function WholeLadder(fullWidth: nat, fullHeight: nat, floorHeight: nat, step: real): (ladder: seq<Rung>)
    requires fullHeight > 0
    ensures ladder != []
  {
    var full := [Rung(fullWidth, fullHeight, 1)];
    if 0.0 < step < 1.0 && floorHeight < fullHeight then
      FloorIsPositive(floorHeight, fullHeight);
      Descent(fullWidth, fullHeight, FloorOf2(floorHeight, fullHeight), step, step, full)
    else full
  }

  function Ladder(fullWidth: nat, fullHeight: nat, floorHeight: nat, allowHalfRate: bool, step: real): seq<Rung> {
    if fullWidth == 0 || fullHeight == 0 then []
    else
      var whole := WholeLadder(fullWidth, fullHeight, floorHeight, step);
      if allowHalfRate then whole + [whole[|whole| - 1].(captureDivisor := 2)] else whole
  }

  /** The height of the floor rung, unless the full size is lower already. */
  function Lowest(fullHeight: nat, floorHeight: nat, step: real): nat
    requires fullHeight > 0
  {
    if 0.0 < step < 1.0 && floorHeight < fullHeight then
      Min(fullHeight, EvenDim(fullHeight, FloorOf2(floorHeight, fullHeight)))
    else fullHeight
  }

  /** The resolution rungs start at the full size, get strictly lower, and end at the floor: none is below it. */
  lemma LadderDescends(fullWidth: nat, fullHeight: nat, floorHeight: nat, step: real)
    requires fullHeight > 0
    ensures var ladder := WholeLadder(fullWidth, fullHeight, floorHeight, step);
            var least := Lowest(fullHeight, floorHeight, step);
            ladder[0] == Rung(fullWidth, fullHeight, 1) && Descends(ladder, least) && ladder[|ladder| - 1].height == least
  {
    var full, least := Rung(fullWidth, fullHeight, 1), Lowest(fullHeight, floorHeight, step);
    OneDescends(full, least);
    if 0.0 < step < 1.0 && floorHeight < fullHeight {
      FloorIsPositive(floorHeight, fullHeight);
      hide EvenDim, FloorOf2, Descends;
      DescentDescends(fullWidth, fullHeight, FloorOf2(floorHeight, fullHeight), step, step, [full], least);
    }
  }

  lemma {:induction false} DescentDescends(fullWidth: nat, fullHeight: nat, floorScale: real, step: real, scale: real,
                                           ladder: seq<Rung>, least: nat)
    requires ladder != [] && 0.0 < step < 1.0 && floorScale > 0.0
    requires Descends(ladder, least) && least == Min(fullHeight, EvenDim(fullHeight, floorScale)) && ladder[0].height == fullHeight
    ensures var out := Descent(fullWidth, fullHeight, floorScale, step, scale, ladder);
            Descends(out, least) && out[|out| - 1].height == least
    decreases StepsLeft(scale, floorScale, step)
  {
    hide EvenDim, AlignedWidth, Descends, StepsLeft;
    if scale <= floorScale + HAIR {
      AddedDescends(ladder, RungAt(fullWidth, fullHeight, floorScale), least);
      AddedIsLowest(ladder, RungAt(fullWidth, fullHeight, floorScale), least, fullHeight);
    } else {
      DimensionsGrow(fullHeight, floorScale, scale);
      AddedDescends(ladder, RungAt(fullWidth, fullHeight, scale), least);
      StepsShrink(scale, floorScale, step);
      DescentDescends(fullWidth, fullHeight, floorScale, step, scale * step, Added(ladder, RungAt(fullWidth, fullHeight, scale)), least);
    }
  }

  lemma AddedIsLowest(ladder: seq<Rung>, rung: Rung, least: nat, fullHeight: nat)
    requires ladder != [] && Descends(ladder, least) && ladder[0].height == fullHeight && least == Min(fullHeight, rung.height)
    ensures var out := Added(ladder, rung); out[|out| - 1].height == least
  {
  }

  lemma OneDescends(rung: Rung, least: nat)
    requires rung.height >= least && rung.captureDivisor == 1
    ensures Descends([rung], least)
  {
  }

  /** step to the k. */
  function StepScale(step: real, k: nat): real { if k == 0 then 1.0 else Shrunk(StepScale(step, k - 1), step) }

  function Shrunk(scale: real, step: real): real { scale * step }

  lemma {:induction false} StepScaleFalls(step: real, k: nat, m: nat)
    requires 0.0 < step < 1.0 && k <= m
    ensures 0.0 < StepScale(step, m) <= StepScale(step, k) <= 1.0
    decreases m
  {
    hide Shrunk;
    if m > 0 {
      if k < m {
        StepScaleFalls(step, k, m - 1);
      } else {
        StepScaleFalls(step, m - 1, m - 1);
      }
      ShrunkOnce(StepScale(step, m - 1), step);
    }
  }

  lemma ShrunkOnce(scale: real, step: real)
    requires scale > 0.0 && 0.0 < step < 1.0
    ensures 0.0 < Shrunk(scale, step) < scale
  {
    PositiveProduct(scale, step);
    PositiveProduct(scale, 1.0 - step);
    var less, rest := scale * step, scale * (1.0 - step);
    assert rest > 0.0;
    assert less + rest == scale;
  }

  /** The k-th step is above the floor. */
  predicate Above(floorScale: real, step: real, k: nat) { k >= 1 && StepScale(step, k) > floorScale + HAIR }

  function StepHeight(fullHeight: nat, step: real, k: nat): nat { Min(fullHeight, EvenDim(fullHeight, StepScale(step, k))) }

  predicate HasHeight(ladder: seq<Rung>, height: nat) { exists i :: 0 <= i < |ladder| && ladder[i].height == height }

  ghost predicate IsStep(fullWidth: nat, fullHeight: nat, floorScale: real, step: real, rung: Rung) {
    || rung == RungAt(fullWidth, fullHeight, floorScale)
    || exists k: nat :: Above(floorScale, step, k) && rung == RungAt(fullWidth, fullHeight, StepScale(step, k))
  }

  ghost predicate AllSteps(fullWidth: nat, fullHeight: nat, floorScale: real, step: real, ladder: seq<Rung>) {
    forall i :: 0 < i < |ladder| ==> IsStep(fullWidth, fullHeight, floorScale, step, ladder[i])
  }

  ghost predicate HasSteps(fullHeight: nat, floorScale: real, step: real, from: nat, ladder: seq<Rung>) {
    forall k: nat :: k >= from && Above(floorScale, step, k) ==> HasHeight(ladder, StepHeight(fullHeight, step, k))
  }

  /** No step is left out and none made up: every power of the step above the floor has the rung of its height, and below
      the full size there are no others, but for the floor itself. */
  lemma RungsAre(fullWidth: nat, fullHeight: nat, floorHeight: nat, step: real)
    requires fullHeight > 0 && 0.0 < step < 1.0 && floorHeight < fullHeight
    ensures var ladder, floorScale := WholeLadder(fullWidth, fullHeight, floorHeight, step), FloorOf2(floorHeight, fullHeight);
            HasSteps(fullHeight, floorScale, step, 1, ladder) && AllSteps(fullWidth, fullHeight, floorScale, step, ladder)
  {
    FloorIsPositive(floorHeight, fullHeight);
    hide EvenDim, FloorOf2, Descent, AlignedWidth;
    assert StepScale(step, 1) == step;
    DescentHolds(fullWidth, fullHeight, FloorOf2(floorHeight, fullHeight), step, 1, [Rung(fullWidth, fullHeight, 1)]);
  }

  lemma {:induction false} DescentHolds(fullWidth: nat, fullHeight: nat, floorScale: real, step: real, k: nat, ladder: seq<Rung>)
    requires 0.0 < step < 1.0 && floorScale > 0.0 && k >= 1 && ladder != []
    requires StepHeight(fullHeight, step, k) <= ladder[|ladder| - 1].height <= fullHeight
    requires AllSteps(fullWidth, fullHeight, floorScale, step, ladder)
    ensures var out := Descent(fullWidth, fullHeight, floorScale, step, StepScale(step, k), ladder);
            HasSteps(fullHeight, floorScale, step, k, out) && AllSteps(fullWidth, fullHeight, floorScale, step, out)
    decreases StepsLeft(StepScale(step, k), floorScale, step)
  {
    hide StepsLeft, AllSteps, HasSteps, HasHeight, StepHeight, RungAt, Added, Descent, StepScale;
    var scale := StepScale(step, k);
    var rung := RungAt(fullWidth, fullHeight, if Above(floorScale, step, k) then scale else floorScale);
    AddedIsStep(fullWidth, fullHeight, floorScale, step, k, ladder, rung);
    OneDescent(fullWidth, fullHeight, floorScale, step, k, ladder);
    if Above(floorScale, step, k) {
      NextIsLower(fullWidth, fullHeight, step, k, ladder);
      DescentHolds(fullWidth, fullHeight, floorScale, step, k + 1, Added(ladder, rung));
      var out := Descent(fullWidth, fullHeight, floorScale, step, StepScale(step, k + 1), Added(ladder, rung));
      StepFound(fullWidth, fullHeight, step, k, ladder, out);
      StepsFrom(fullHeight, floorScale, step, k, out);
    } else {
      NoneAbove(fullHeight, floorScale, step, k, Added(ladder, rung));
    }
  }

  lemma OneDescent(fullWidth: nat, fullHeight: nat, floorScale: real, step: real, k: nat, ladder: seq<Rung>)
    requires 0.0 < step < 1.0 && floorScale > 0.0 && k >= 1 && ladder != []
    ensures var scale := StepScale(step, k);
            if Above(floorScale, step, k) then
              && StepsLeft(StepScale(step, k + 1), floorScale, step) < StepsLeft(scale, floorScale, step)
              && Descent(fullWidth, fullHeight, floorScale, step, scale, ladder)
                 == Descent(fullWidth, fullHeight, floorScale, step, StepScale(step, k + 1), Added(ladder, RungAt(fullWidth, fullHeight, scale)))
            else Descent(fullWidth, fullHeight, floorScale, step, scale, ladder) == Added(ladder, RungAt(fullWidth, fullHeight, floorScale))
  {
    assert StepScale(step, k + 1) == Shrunk(StepScale(step, k), step);
    hide StepsLeft, RungAt, Added, Descent, StepScale, Shrunk;
    DescentOnce(fullWidth, fullHeight, floorScale, step, StepScale(step, k), ladder);
  }

  lemma DescentOnce(fullWidth: nat, fullHeight: nat, floorScale: real, step: real, scale: real, ladder: seq<Rung>)
    requires 0.0 < step < 1.0 && floorScale > 0.0 && ladder != []
    ensures if scale > floorScale + HAIR then
              && StepsLeft(Shrunk(scale, step), floorScale, step) < StepsLeft(scale, floorScale, step)
              && Descent(fullWidth, fullHeight, floorScale, step, scale, ladder)
                 == Descent(fullWidth, fullHeight, floorScale, step, Shrunk(scale, step), Added(ladder, RungAt(fullWidth, fullHeight, scale)))
            else Descent(fullWidth, fullHeight, floorScale, step, scale, ladder) == Added(ladder, RungAt(fullWidth, fullHeight, floorScale))
  {
    hide StepsLeft, RungAt, Added;
    if scale > floorScale + HAIR {
      StepsShrink(scale, floorScale, step);
    }
  }

  lemma NoneAbove(fullHeight: nat, floorScale: real, step: real, k: nat, ladder: seq<Rung>)
    requires 0.0 < step < 1.0 && k >= 1 && !Above(floorScale, step, k)
    ensures HasSteps(fullHeight, floorScale, step, k, ladder)
  {
    forall m: nat | m >= k
      ensures !Above(floorScale, step, m)
    {
      StepScaleFalls(step, k, m);
    }
  }

  lemma StepsFrom(fullHeight: nat, floorScale: real, step: real, k: nat, ladder: seq<Rung>)
    requires HasSteps(fullHeight, floorScale, step, k + 1, ladder) && HasHeight(ladder, StepHeight(fullHeight, step, k))
    ensures HasSteps(fullHeight, floorScale, step, k, ladder)
  {
    hide HasHeight, StepHeight, Above;
  }

  lemma AddedIsStep(fullWidth: nat, fullHeight: nat, floorScale: real, step: real, k: nat, ladder: seq<Rung>, rung: Rung)
    requires ladder != [] && AllSteps(fullWidth, fullHeight, floorScale, step, ladder)
    requires rung == RungAt(fullWidth, fullHeight, if Above(floorScale, step, k) then StepScale(step, k) else floorScale)
    ensures AllSteps(fullWidth, fullHeight, floorScale, step, Added(ladder, rung))
  {
    hide RungAt, Above, StepScale;
    assert IsStep(fullWidth, fullHeight, floorScale, step, rung);
  }

  lemma NextIsLower(fullWidth: nat, fullHeight: nat, step: real, k: nat, ladder: seq<Rung>)
    requires 0.0 < step < 1.0 && ladder != []
    requires StepHeight(fullHeight, step, k) <= ladder[|ladder| - 1].height <= fullHeight
    ensures var out := Added(ladder, RungAt(fullWidth, fullHeight, StepScale(step, k)));
            StepHeight(fullHeight, step, k + 1) <= out[|out| - 1].height == StepHeight(fullHeight, step, k) <= fullHeight
  {
    StepScaleFalls(step, k, k + 1);
    DimensionsGrow(fullHeight, StepScale(step, k + 1), StepScale(step, k));
    hide EvenDim, AlignedWidth, StepScale;
  }

  lemma StepFound(fullWidth: nat, fullHeight: nat, step: real, k: nat, ladder: seq<Rung>, out: seq<Rung>)
    requires ladder != [] && Added(ladder, RungAt(fullWidth, fullHeight, StepScale(step, k))) <= out
    requires var added := Added(ladder, RungAt(fullWidth, fullHeight, StepScale(step, k)));
             added[|added| - 1].height == StepHeight(fullHeight, step, k)
    ensures HasHeight(out, StepHeight(fullHeight, step, k))
  {
    hide RungAt, StepScale, StepHeight;
    var added := Added(ladder, RungAt(fullWidth, fullHeight, StepScale(step, k)));
    assert out[|added| - 1] == added[|added| - 1];
  }

  /** Where half the rate is allowed the lowest rung comes once more at the end, for every second capture; all else is the same,
      and no rung before skips captures. */
  lemma HalfRateIsLast(fullWidth: nat, fullHeight: nat, floorHeight: nat, step: real)
    requires fullWidth > 0 && fullHeight > 0
    ensures var with, without := Ladder(fullWidth, fullHeight, floorHeight, true, step), Ladder(fullWidth, fullHeight, floorHeight, false, step);
            var n := |without|;
            && n > 0 && |with| == n + 1 && with[..n] == without && (forall i :: 0 <= i < n ==> with[i].captureDivisor == 1)
            && with[n].width == with[n - 1].width && with[n].height == with[n - 1].height && with[n].captureDivisor == 2
  {
    LadderDescends(fullWidth, fullHeight, floorHeight, step);
    hide WholeLadder, Lowest;
  }

  method BuildLadder(fullWidth: nat, fullHeight: nat, floorHeight: nat, allowHalfRate: bool, step: real)
    returns (ladder: seq<Rung>)
    ensures ladder == Ladder(fullWidth, fullHeight, floorHeight, allowHalfRate, step)
  {
    hide EvenDim, AlignedWidth, StepsLeft, Descent;
    if fullWidth == 0 || fullHeight == 0 {
      return [];
    }
    ladder := [Rung(fullWidth, fullHeight, 1)];
    if 0.0 < step < 1.0 && floorHeight < fullHeight {
      FloorIsPositive(floorHeight, fullHeight);
      ladder := Descend(fullWidth, fullHeight, FloorOf2(floorHeight, fullHeight), step, ladder);
    }
    if allowHalfRate {
      var half := ladder[|ladder| - 1].(captureDivisor := 2);
      ladder := ladder + [half];
    }
  }

  method Descend(fullWidth: nat, fullHeight: nat, floorScale: real, step: real, full: seq<Rung>) returns (ladder: seq<Rung>)
    requires 0.0 < step < 1.0 && floorScale > 0.0 && full != []
    ensures ladder == Descent(fullWidth, fullHeight, floorScale, step, step, full)
  {
    hide EvenDim, AlignedWidth, StepsLeft;
    ladder := full;
    var scale := step;
    while true
      invariant ladder != []
      invariant Descent(fullWidth, fullHeight, floorScale, step, scale, ladder)
                == Descent(fullWidth, fullHeight, floorScale, step, step, full)
      decreases StepsLeft(scale, floorScale, step)
    {
      if scale <= floorScale + HAIR {
        ladder := Added(ladder, RungAt(fullWidth, fullHeight, floorScale));
        break;
      }
      ladder := Added(ladder, RungAt(fullWidth, fullHeight, scale));
      StepsShrink(scale, floorScale, step);
      scale := scale * step;
    }
  }

  // --- One evaluation ---

  datatype Thresholds = Thresholds(graphicsTarget: real, graphicsDown: real, graphicsImmediate: real, workerDown: real,
                                   workerUp: real, dropRateDown: real, missRateDown: real, predictionMargin: real,
                                   cooldownNs: nat, immediateSettleNs: nat, upHoldNs: nat, minSamples: nat)

  const DEFAULTS := Thresholds(0.25, 0.40, 0.50, 0.80, 0.50, 0.02, 0.05, 1.10, 2_000_000_000, 500_000_000,
                               30_000_000_000, 20)

  /** decodeRung: the rung the decoded frames were captured at; none means the current one. */
  datatype Sample = Sample(nowNs: U64, frameIntervalNs: nat, graphicsSamples: nat, graphicsP95Ms: real,
                           graphicsShortSamples: nat, graphicsShortP50Ms: real, encodeSamples: nat, encodeP95Ms: real,
                           decodeSamples: nat, decodeP95Ms: real, captures: nat, encodeDrops: nat, dueFrames: nat,
                           decodeMisses: nat, obsLaggedFrames: nat, decodeRung: Option<nat>, blockUp: bool)

  datatype Action = Stay | MoreParallelism | LessParallelism | LowerQuality | RaiseQuality
  datatype Cause = NoCause | Graphics | Encode | Decode | Recovered
  datatype Decision = Decision(action: Action, cause: Cause, load: real)
  const NO_DECISION := Decision(Stay, NoCause, 0.0)

  /** lastChangeNs: 0 until the first evaluation; upSinceNs: since when every evaluation found one step up to fit, or 0. */
  datatype State = State(ladder: seq<Rung>, steps: seq<Parallelism>, rung: nat, step: nat, initialStep: nat, threaded: bool,
                         thresholds: Thresholds, lastChangeNs: nat, upSinceNs: nat)

  ghost predicate InRange(p: State) {
    p.rung < |p.ladder| && p.step < |p.steps| && p.initialStep < |p.steps|
  }

  function Ms(ns: nat): real { ns as real / 1000000.0 }

  function Rate(part: nat, whole: nat): real { if whole > 0 then part as real / whole as real else 0.0 }

  /** What an evaluation finds: nothing to go by, one step down, overload with no step left, nothing to do, or one
      step up that is predicted to fit. */
  datatype Verdict = Invalid | Down(decision: Decision) | Stuck | Hold | Fits(decision: Decision)

  function SinceChange(p: State, nowNs: nat): nat {
    if p.lastChangeNs != 0 && nowNs >= p.lastChangeNs then nowNs - p.lastChangeNs else 0
  }

  function Settled(p: State, s: Sample): bool { SinceChange(p, s.nowNs) >= p.thresholds.cooldownNs }

  function Interval(s: Sample): real { Ms(s.frameIntervalNs) }

  function Times(ms: real, n: nat): real { ms * n as real }

  function CaptureMs(p: State, s: Sample): real
    requires InRange(p)
  {
    Times(Interval(s), p.ladder[p.rung].captureDivisor)
  }

  function DecodeCurrent(p: State, s: Sample): bool { s.decodeRung.None? || s.decodeRung.value == p.rung }

  function Over(a: real, b: real): real { if b == 0.0 then 0.0 else a / b }

  /** The graphics thread is overloaded, and by what. */
  function GraphicsDown(p: State, s: Sample): Option<real> {
    var t, load, short := p.thresholds, Over(s.graphicsP95Ms, Interval(s)), Over(s.graphicsShortP50Ms, Interval(s));
    if Settled(p, s) && s.graphicsSamples >= t.minSamples
       && (load > t.graphicsDown || (load > t.graphicsTarget && s.obsLaggedFrames > 0)) then Some(load)
    else if SinceChange(p, s.nowNs) >= t.immediateSettleNs && s.graphicsShortSamples >= t.minSamples / 2
            && short > t.graphicsImmediate then Some(short)
    else None
  }

  function EncodeDown(p: State, s: Sample): Option<real>
    requires InRange(p)
  {
    var t := p.thresholds;
    var load, drops := Over(s.encodeP95Ms, Times(CaptureMs(p, s), p.steps[p.step].contexts)), Rate(s.encodeDrops, s.captures);
    if p.threaded && Settled(p, s)
       && ((s.encodeSamples >= t.minSamples && load > t.workerDown) || (s.captures >= t.minSamples && drops > t.dropRateDown))
    then Some(if load <= t.workerDown then drops else load)
    else None
  }

  function DecodeDown(p: State, s: Sample): Option<real>
    requires InRange(p)
  {
    var t, load := p.thresholds, Over(s.decodeP95Ms, CaptureMs(p, s));
    var samples := if DecodeCurrent(p, s) then s.decodeSamples else 0;
    var due := if DecodeCurrent(p, s) then s.dueFrames else 0;
    var misses := Rate(s.decodeMisses, due);
    if p.threaded && Settled(p, s)
       && ((samples >= t.minSamples && load > t.workerDown) || (due >= t.minSamples && misses > t.missRateDown))
    then Some(if load <= t.workerDown then misses else load)
    else None
  }

  predicate CanLower(p: State) { p.rung + 1 < |p.ladder| }
  predicate CanParallelize(p: State) { p.step + 1 < |p.steps| }

  /** More encode threads first where they help, then a lower rung; always a step that is there to take. */
  function StepDown(p: State, s: Sample): (r: Option<Decision>)
    requires InRange(p)
    ensures r.Some? ==> (r.value.action == MoreParallelism && CanParallelize(p)) || (r.value.action == LowerQuality && CanLower(p))
  {
    var encode, decode, graphics := EncodeDown(p, s), DecodeDown(p, s), GraphicsDown(p, s);
    if encode.Some? && CanParallelize(p) then Some(Decision(MoreParallelism, Encode, encode.value))
    else if encode.Some? && CanLower(p) then Some(Decision(LowerQuality, Encode, encode.value))
    else if decode.Some? && CanLower(p) then Some(Decision(LowerQuality, Decode, decode.value))
    else if graphics.Some? && !p.threaded && CanParallelize(p) then Some(Decision(MoreParallelism, Graphics, graphics.value))
    else if graphics.Some? && CanLower(p) then Some(Decision(LowerQuality, Graphics, graphics.value))
    else None
  }

  function Grown(x: real, ratio: real, margin: real): real { x * ratio * margin }

  /** How many times as many pixels one rung has as another. */
  function PixelRatio(a: Rung, b: Rung): real {
    (a.width * a.height) as real / MaxReal(1.0, (b.width * b.height) as real)
  }

  /** The predicted load one step up, if there is a step up and it fits. */
  function StepUp(p: State, s: Sample, speedup: nat -> real): (r: Option<Decision>)
    requires InRange(p)
    ensures r.Some? ==> (r.value.action == RaiseQuality && p.rung > 0)
                        || (r.value.action == LessParallelism && p.rung == 0 && p.step > p.initialStep)
  {
    var t, margin, interval := p.thresholds, p.thresholds.predictionMargin, Interval(s);
    var load := Over(s.graphicsP95Ms, interval);
    if p.rung > 0 then
      var now, next := p.ladder[p.rung], p.ladder[p.rung - 1];
      var pixels := PixelRatio(next, now);
      var nextMs := Times(interval, next.captureDivisor);
      var graphicsNext := Grown(load, pixels, margin);
      var encodeNext := Over(Grown(s.encodeP95Ms, pixels, margin), Times(nextMs, p.steps[p.step].contexts));
      var decodeNext := Over(Grown(s.decodeP95Ms, pixels, margin), nextMs);
      if graphicsNext <= t.graphicsTarget && (p.threaded ==> encodeNext <= t.workerUp && decodeNext <= t.workerUp) then
        Some(Decision(RaiseQuality, Recovered,
                      if p.threaded then MaxReal(graphicsNext, MaxReal(encodeNext, decodeNext)) else graphicsNext))
      else None
    else if p.step > p.initialStep then
      var next := p.steps[p.step - 1];
      var slower := Over(speedup(p.steps[p.step].slices), speedup(next.slices));
      var predicted := if p.threaded then Over(Grown(s.encodeP95Ms, slower, margin), Times(CaptureMs(p, s), next.contexts))
                       else Grown(load, slower, margin);
      if predicted <= (if p.threaded then t.workerUp else t.graphicsTarget) then
        Some(Decision(LessParallelism, Recovered, predicted))
      else None
    else None
  }

  function Judged(p: State, s: Sample, speedup: nat -> real): Verdict
    requires InRange(p)
  {
    if s.frameIntervalNs == 0 then Invalid
    else
      var down := StepDown(p, s);
      if down.Some? then Down(down.value)
      else if EncodeDown(p, s).Some? || DecodeDown(p, s).Some? || GraphicsDown(p, s).Some? then Stuck
      else if s.blockUp || !Settled(p, s) || s.graphicsSamples < p.thresholds.minSamples
              || (p.threaded && (s.encodeSamples < p.thresholds.minSamples
                                 || (if DecodeCurrent(p, s) then s.decodeSamples else 0) < p.thresholds.minSamples)) then Hold
      else
        var up := StepUp(p, s, speedup);
        if up.None? then Hold else Fits(up.value)
  }

  function Applied(p: State, action: Action, nowNs: nat): State {
    var moved := match action
      case MoreParallelism => p.(step := p.step + 1)
      case LessParallelism => p.(step := Max(0, p.step - 1))
      case LowerQuality => p.(rung := p.rung + 1)
      case RaiseQuality => p.(rung := Max(0, p.rung - 1))
      case Stay => p;
    moved.(lastChangeNs := nowNs, upSinceNs := 0)
  }

  function Started(p: State, nowNs: nat): State { if p.lastChangeNs == 0 then p.(lastChangeNs := nowNs) else p }

  function Evaluated(p: State, s: Sample, speedup: nat -> real): (State, Decision)
    requires InRange(p)
  {
    if s.frameIntervalNs == 0 then (p, NO_DECISION)
    else
      var started := Started(p, s.nowNs);
      match Judged(started, s, speedup)
      case Down(decision) => (Applied(started, decision.action, s.nowNs), decision)
      case Fits(decision) =>
        if started.upSinceNs == 0 then (started.(upSinceNs := s.nowNs), NO_DECISION)
        else if Wrap64(s.nowNs - started.upSinceNs) < p.thresholds.upHoldNs then (started, NO_DECISION)
        else (Applied(started, decision.action, s.nowNs), decision)
      case _ => (started.(upSinceNs := 0), NO_DECISION)
  }

  // --- Runs ---

  datatype Event =
    | OnEvaluate(sample: Sample)
    | OnForceLower(cause: Cause, load: real, nowNs: nat)
    | OnSetParallelism(steps: seq<Parallelism>, initial: nat)
    | OnRebase(ladder: seq<Rung>, rung: nat)

  function NowOf(e: Event): Option<nat> {
    match e
    case OnEvaluate(sample) => Some(sample.nowNs)
    case OnForceLower(_, _, nowNs) => Some(nowNs)
    case _ => None
  }

  function Next(p: State, e: Event, speedup: nat -> real): (State, Decision)
    requires InRange(p)
  {
    match e
    case OnEvaluate(sample) => Evaluated(p, sample, speedup)
    case OnForceLower(cause, load, nowNs) =>
      if CanLower(p) then (Applied(p, LowerQuality, nowNs), Decision(LowerQuality, cause, load)) else (p, NO_DECISION)
    case OnSetParallelism(steps, initial) =>
      var some := if steps == [] then [ONE] else steps;
      (p.(steps := some, step := Min(initial, |some| - 1), initialStep := Min(initial, |some| - 1), upSinceNs := 0,
          lastChangeNs := 0), NO_DECISION)
    case OnRebase(ladder, rung) =>
      var some := if ladder == [] then [PLAIN_RUNG] else ladder;
      (p.(ladder := some, rung := Min(rung, |some| - 1), upSinceNs := 0, lastChangeNs := 0), NO_DECISION)
  }

  /** A step that is there to take. */
  predicate CanTake(p: State, action: Action) {
    match action
    case MoreParallelism => CanParallelize(p)
    case LessParallelism => p.step > p.initialStep
    case LowerQuality => CanLower(p)
    case RaiseQuality => p.rung > 0
    case Stay => false
  }

  lemma JudgedSteps(p: State, s: Sample, speedup: nat -> real)
    requires InRange(p)
    ensures Judged(p, s, speedup).Down? ==> CanTake(p, Judged(p, s, speedup).decision.action)
    ensures Judged(p, s, speedup).Fits? ==> CanTake(p, Judged(p, s, speedup).decision.action)
  {
    hide EncodeDown, DecodeDown, GraphicsDown, StepDown, StepUp, Settled, DecodeCurrent;
  }

  lemma AppliedInRange(p: State, action: Action, nowNs: nat)
    requires InRange(p) && CanTake(p, action)
    ensures InRange(Applied(p, action, nowNs))
  {
  }

  lemma NextInRange(p: State, e: Event, speedup: nat -> real)
    requires InRange(p)
    ensures InRange(Next(p, e, speedup).0)
  {
    hide Judged, Applied, CanTake, Wrap64;
    match e
    case OnEvaluate(s) =>
      var started := Started(p, s.nowNs);
      JudgedSteps(started, s, speedup);
      var verdict := Judged(started, s, speedup);
      if verdict.Down? || verdict.Fits? {
        AppliedInRange(started, verdict.decision.action, s.nowNs);
      }
    case OnForceLower(_, _, nowNs) =>
      if CanLower(p) {
        assert CanTake(p, LowerQuality) by { LowerCanTake(p); }
        AppliedInRange(p, LowerQuality, nowNs);
      }
    case _ =>
  }

  lemma LowerCanTake(p: State)
    requires CanLower(p)
    ensures CanTake(p, LowerQuality)
  {
  }

  function After(p: State, events: seq<Event>, speedup: nat -> real): (p': State)
    requires InRange(p)
    ensures InRange(p')
    decreases |events|
  {
    if events == [] then p
    else
      var before := After(p, events[..|events| - 1], speedup);
      NextInRange(before, events[|events| - 1], speedup);
      Next(before, events[|events| - 1], speedup).0
  }

  /** What the policy decided at event k. */
  function DecidedAt(p: State, events: seq<Event>, k: nat, speedup: nat -> real): Decision
    requires InRange(p) && k < |events|
  {
    Next(After(p, events[..k], speedup), events[k], speedup).1
  }

  predicate ChangedAt(p: State, events: seq<Event>, k: nat, speedup: nat -> real)
    requires InRange(p) && k < |events|
  {
    DecidedAt(p, events, k, speedup).action != Stay
  }

  /** Clocks never go back, and never read 0. */
  ghost predicate Clocked(events: seq<Event>) {
    && (forall k :: 0 <= k < |events| && NowOf(events[k]).Some? ==> NowOf(events[k]).value > 0)
    && (forall i, j :: 0 <= i < j < |events| && NowOf(events[i]).Some? && NowOf(events[j]).Some? ==>
          NowOf(events[i]).value <= NowOf(events[j]).value)
  }

  /** Nothing happens but an evaluation that finds one step up to fit (or has nothing to go by). */
  predicate Calm(before: State, e: Event, speedup: nat -> real)
    requires InRange(before)
  {
    Next(before, e, speedup).1.action == Stay
    && if e.OnEvaluate? then FoundFit(before, e.sample, speedup) else e.OnForceLower?
  }

  predicate FoundFit(before: State, s: Sample, speedup: nat -> real)
    requires InRange(before)
  {
    var verdict := Judged(Started(before, s.nowNs), s, speedup);
    verdict.Fits? || verdict.Invalid?
  }

  predicate CalmAt(p: State, events: seq<Event>, k: nat, speedup: nat -> real)
    requires InRange(p) && k < |events|
  {
    Calm(After(p, events[..k], speedup), events[k], speedup)
  }

  /** Since event k every evaluation found one step up to fit. */
  ghost predicate Streak(p: State, events: seq<Event>, k: nat, sinceNs: nat, speedup: nat -> real)
    requires InRange(p)
  {
    && k < |events| && events[k].OnEvaluate? && events[k].sample.nowNs == sinceNs
    && forall m :: k <= m < |events| ==> CalmAt(p, events, m, speedup)
  }

  ghost predicate Spaced(p: State, events: seq<Event>, lastChangeNs: nat, speedup: nat -> real)
    requires InRange(p)
  {
    && ChangeKnown(events, lastChangeNs)
    && (forall i :: 0 <= i < |events| && ChangedAt(p, events, i, speedup) ==>
          NowOf(events[i]).Some? && (lastChangeNs == 0 || NowOf(events[i]).value <= lastChangeNs))
  }

  ghost predicate Inv(p: State, events: seq<Event>, speedup: nat -> real)
    requires InRange(p)
  {
    var now := After(p, events, speedup);
    && Spaced(p, events, now.lastChangeNs, speedup)
    && (now.upSinceNs != 0 ==> exists k: nat :: Streak(p, events, k, now.upSinceNs, speedup))
  }

  /** What one more event leaves of an earlier one. */
  lemma Earlier(p: State, events: seq<Event>, e: Event, k: nat, speedup: nat -> real)
    requires InRange(p) && k < |events|
    ensures ChangedAt(p, events + [e], k, speedup) == ChangedAt(p, events, k, speedup)
    ensures CalmAt(p, events + [e], k, speedup) == CalmAt(p, events, k, speedup)
  {
    assert (events + [e])[..k] == events[..k];
  }

  lemma Latest(p: State, events: seq<Event>, e: Event, speedup: nat -> real)
    requires InRange(p)
    ensures var before := After(p, events, speedup);
            && After(p, events + [e], speedup) == Next(before, e, speedup).0
            && DecidedAt(p, events + [e], |events|, speedup) == Next(before, e, speedup).1
            && CalmAt(p, events + [e], |events|, speedup) == Calm(before, e, speedup)
  {
    assert (events + [e])[..|events|] == events;
    hide Next, Judged;
  }

  /** What an event does to the two clocks, by what it decides. */
  lemma NextClocks(p: State, e: Event, speedup: nat -> real)
    requires InRange(p) && (NowOf(e).Some? ==> NowOf(e).value > 0)
    ensures var r := Next(p, e, speedup);
            && (r.0.lastChangeNs == p.lastChangeNs || r.0.lastChangeNs == 0 || NowOf(e) == Some(r.0.lastChangeNs))
            && (r.1.action != Stay ==> NowOf(e) == Some(r.0.lastChangeNs) && r.0.upSinceNs == 0)
            && (r.0.lastChangeNs != p.lastChangeNs && r.0.lastChangeNs != 0 ==>
                  p.lastChangeNs == 0 || r.1.action != Stay)
            && (r.0.thresholds == p.thresholds)
    ensures var r := Next(p, e, speedup);
            r.0.upSinceNs != 0 ==>
              && Calm(p, e, speedup)
              && (r.0.upSinceNs == p.upSinceNs || (p.upSinceNs == 0 && e.OnEvaluate? && r.0.upSinceNs == e.sample.nowNs))
  {
    hide EncodeDown, DecodeDown, GraphicsDown, StepDown, StepUp, Settled, Wrap64, DecodeCurrent;
  }

  ghost predicate ChangeKnown(events: seq<Event>, lastChangeNs: nat) {
    lastChangeNs != 0 ==> exists m :: 0 <= m < |events| && NowOf(events[m]) == Some(lastChangeNs)
  }

  lemma ChangeKnownGrows(events: seq<Event>, e: Event, before: nat, after: nat)
    requires ChangeKnown(events, before) && (after == before || after == 0 || NowOf(e) == Some(after))
    ensures ChangeKnown(events + [e], after)
  {
    var both := events + [e];
    assert both[|events|] == e;
    if after != 0 && NowOf(e) != Some(after) {
      var m :| 0 <= m < |events| && NowOf(events[m]) == Some(before);
      assert both[m] == events[m];
    }
  }

  lemma StillBefore(events: seq<Event>, e: Event, i: nat, before: nat, after: nat)
    requires Clocked(events + [e]) && i < |events| && NowOf(events[i]).Some?
    requires before == 0 || NowOf(events[i]).value <= before
    requires after == before || after == 0 || NowOf(e) == Some(after)
    ensures after == 0 || NowOf(events[i]).value <= after
  {
    assert (events + [e])[|events|] == e && (events + [e])[i] == events[i];
  }

  lemma SpacedGrows(p: State, events: seq<Event>, e: Event, speedup: nat -> real)
    requires InRange(p) && Clocked(events + [e]) && Spaced(p, events, After(p, events, speedup).lastChangeNs, speedup)
    ensures Spaced(p, events + [e], After(p, events + [e], speedup).lastChangeNs, speedup)
  {
    hide Next, After, CalmAt, Calm, Clocked, ChangeKnown;
    var before, both := After(p, events, speedup).lastChangeNs, events + [e];
    var after := After(p, both, speedup).lastChangeNs;
    StepClocks(p, events, e, speedup);
    ChangeKnownGrows(events, e, before, after);
    forall i | 0 <= i < |both| && ChangedAt(p, both, i, speedup)
      ensures NowOf(both[i]).Some? && (after == 0 || NowOf(both[i]).value <= after)
    {
      if i < |events| {
        assert both[i] == events[i];
        Earlier(p, events, e, i, speedup);
        StillBefore(events, e, i, before, after);
      }
    }
  }

  lemma StepClocks(p: State, events: seq<Event>, e: Event, speedup: nat -> real)
    requires InRange(p) && Clocked(events + [e])
    ensures var before, after := After(p, events, speedup).lastChangeNs, After(p, events + [e], speedup).lastChangeNs;
            && (after == before || after == 0 || NowOf(e) == Some(after))
            && (ChangedAt(p, events + [e], |events|, speedup) ==> NowOf(e) == Some(after))
  {
    assert (events + [e])[|events|] == e;
    Latest(p, events, e, speedup);
    hide After;
    NextClocks(After(p, events, speedup), e, speedup);
    hide Next;
  }

  lemma StreakGrows(p: State, events: seq<Event>, e: Event, speedup: nat -> real)
    requires InRange(p) && Clocked(events + [e]) && Inv(p, events, speedup)
    requires After(p, events + [e], speedup).upSinceNs != 0
    ensures exists k: nat :: Streak(p, events + [e], k, After(p, events + [e], speedup).upSinceNs, speedup)
  {
    var before, both := After(p, events, speedup), events + [e];
    Latest(p, events, e, speedup);
    assert both[|events|] == e;
    NextClocks(before, e, speedup);
    var after := After(p, both, speedup);
    hide Next, After, Judged, Spaced;
    assert CalmAt(p, both, |events|, speedup);
    if before.upSinceNs != 0 {
      var k: nat :| Streak(p, events, k, before.upSinceNs, speedup);
      forall m | k <= m < |both|
        ensures CalmAt(p, both, m, speedup)
      {
        if m < |events| {
          Earlier(p, events, e, m, speedup);
        }
      }
      assert Streak(p, both, k, after.upSinceNs, speedup);
    } else {
      assert Streak(p, both, |events|, after.upSinceNs, speedup);
    }
  }

  lemma {:induction false} RunKeeps(p: State, events: seq<Event>, speedup: nat -> real)
    requires InRange(p) && p.lastChangeNs == 0 && p.upSinceNs == 0 && Clocked(events)
    ensures Inv(p, events, speedup)
    decreases |events|
  {
    if events != [] {
      var before, e := events[..|events| - 1], events[|events| - 1];
      assert events == before + [e];
      RunKeeps(p, before, speedup);
      hide Inv;
      InvGrows(p, before, e, speedup);
    }
  }

  lemma InvGrows(p: State, events: seq<Event>, e: Event, speedup: nat -> real)
    requires InRange(p) && Clocked(events + [e]) && Inv(p, events, speedup)
    ensures Inv(p, events + [e], speedup)
  {
    hide After, Spaced, Streak, Clocked;
    SpacedGrows(p, events, e, speedup);
    if After(p, events + [e], speedup).upSinceNs != 0 {
      StreakGrows(p, events, e, speedup);
    }
  }

  function Least(t: Thresholds): nat { Min(t.cooldownNs, t.immediateSettleNs) }

  /** What an evaluation needs to change anything. */
  lemma EvaluationWaits(p: State, s: Sample, speedup: nat -> real)
    requires InRange(p) && s.nowNs > 0
    ensures var decision := Evaluated(p, s, speedup).1;
            && (decision.action != Stay ==> SinceChange(Started(p, s.nowNs), s.nowNs) >= Least(p.thresholds))
            && (decision.action == RaiseQuality || decision.action == LessParallelism ==>
                  p.upSinceNs != 0 && (s.nowNs >= p.upSinceNs ==> s.nowNs - p.upSinceNs >= p.thresholds.upHoldNs)
                  && Judged(Started(p, s.nowNs), s, speedup).Fits?)
  {
  }

  lemma {:induction false} SameThresholds(p: State, events: seq<Event>, speedup: nat -> real)
    requires InRange(p)
    ensures After(p, events, speedup).thresholds == p.thresholds
    decreases |events|
  {
    if events != [] {
      SameThresholds(p, events[..|events| - 1], speedup);
      KeepsThresholds(After(p, events[..|events| - 1], speedup), events[|events| - 1], speedup);
    }
  }

  lemma KeepsThresholds(p: State, e: Event, speedup: nat -> real)
    requires InRange(p)
    ensures Next(p, e, speedup).0.thresholds == p.thresholds
  {
    hide EncodeDown, DecodeDown, GraphicsDown, StepDown, StepUp, Settled;
  }

  /** The policy never hurries: a change an evaluation makes comes at least immediateSettleNs (or cooldownNs, should
      that be shorter) after every change before it, whoever made that one. */
  lemma ChangesAreSpaced(p: State, events: seq<Event>, i: nat, j: nat, speedup: nat -> real)
    requires InRange(p) && p.lastChangeNs == 0 && p.upSinceNs == 0 && Clocked(events)
    requires i < j < |events| && events[j].OnEvaluate?
    requires ChangedAt(p, events, i, speedup) && ChangedAt(p, events, j, speedup)
    ensures NowOf(events[i]).Some? && events[j].sample.nowNs >= NowOf(events[i]).value + Least(p.thresholds)
    ensures p.thresholds == DEFAULTS ==> events[j].sample.nowNs >= NowOf(events[i]).value + DEFAULTS.immediateSettleNs
  {
    var before, s := After(p, events[..j], speedup), events[j].sample;
    RunKeeps(p, events[..j], speedup);
    SameThresholds(p, events[..j], speedup);
    assert events[..j][..i] == events[..i] && events[..j][i] == events[i];
    assert NowOf(events[j]) == Some(s.nowNs);
    EvaluationWaits(before, s, speedup);
    assert ChangedAt(p, events[..j], i, speedup);
    hide Evaluated, After;
  }

  /** Quality comes back only after a streak of at least upHoldNs in which every evaluation predicted a fit, nothing
      was changed, and no new ladder or steps came. */
  lemma UpAfterStreak(p: State, events: seq<Event>, j: nat, speedup: nat -> real) returns (k: nat)
    requires InRange(p) && p.lastChangeNs == 0 && p.upSinceNs == 0 && Clocked(events) && j < |events|
    requires var action := DecidedAt(p, events, j, speedup).action; action == RaiseQuality || action == LessParallelism
    ensures k < j && events[k].OnEvaluate? && events[j].OnEvaluate?
    ensures events[j].sample.nowNs >= events[k].sample.nowNs + p.thresholds.upHoldNs
    ensures forall m :: k <= m < j ==> CalmAt(p, events, m, speedup)
    ensures forall i :: 0 <= i < j && ChangedAt(p, events, i, speedup) ==>
              i < k && NowOf(events[i]).Some? && NowOf(events[i]).value + p.thresholds.upHoldNs <= events[j].sample.nowNs
  {
    var before := After(p, events[..j], speedup);
    RunKeeps(p, events[..j], speedup);
    SameThresholds(p, events[..j], speedup);
    var s := events[j].sample;
    assert NowOf(events[j]) == Some(s.nowNs);
    EvaluationWaits(before, s, speedup);
    k :| Streak(p, events[..j], k, before.upSinceNs, speedup);
    assert NowOf(events[k]) == Some(before.upSinceNs);
    forall m | 0 <= m < j
      ensures CalmAt(p, events, m, speedup) == CalmAt(p, events[..j], m, speedup)
      ensures ChangedAt(p, events, m, speedup) == ChangedAt(p, events[..j], m, speedup)
    {
      assert events[..j][..m] == events[..m] && events[..j][m] == events[m];
    }
    hide Evaluated, After, Judged, Next;
    forall i | 0 <= i < j && ChangedAt(p, events, i, speedup)
      ensures i < k && NowOf(events[i]).Some? && NowOf(events[i]).value + p.thresholds.upHoldNs <= s.nowNs
    {
      assert ChangedAt(p, events[..j], i, speedup) && events[..j][i] == events[i];
    }
  }

  // --- The policy itself ---

  class Policy {
    var ladder: seq<Rung>
    var steps: seq<Parallelism>
    var rung: nat
    var step: nat
    var initialStep: nat
    const threaded: bool
    const thresholds: Thresholds
    var lastChangeNs: nat
    var upSinceNs: nat

    ghost function Value(): State
      reads this
    {
      State(ladder, steps, rung, step, initialStep, threaded, thresholds, lastChangeNs, upSinceNs)
    }

    ghost predicate Valid()
      reads this
    {
      InRange(Value())
    }

    constructor (ladder: seq<Rung>, steps: seq<Parallelism>, initialParallelism: nat, threaded: bool, thresholds: Thresholds)
      ensures Valid() && rung == 0 && lastChangeNs == 0 && upSinceNs == 0
      ensures this.ladder == (if ladder == [] then [PLAIN_RUNG] else ladder) && this.steps == if steps == [] then [ONE] else steps
      ensures step == initialStep == Min(initialParallelism, |this.steps| - 1)
      ensures this.threaded == threaded && this.thresholds == thresholds
    {
      this.ladder := if ladder == [] then [PLAIN_RUNG] else ladder;
      this.steps := if steps == [] then [ONE] else steps;
      this.threaded, this.thresholds := threaded, thresholds;
      rung, lastChangeNs, upSinceNs := 0, 0, 0;
      step := Min(initialParallelism, if steps == [] then 0 else |steps| - 1);
      initialStep := Min(initialParallelism, if steps == [] then 0 else |steps| - 1);
    }

    method Apply(action: Action, cause: Cause, load: real, nowNs: nat) returns (decision: Decision)
      requires Valid()
      requires action == LessParallelism ==> step > 0
      requires action == RaiseQuality ==> rung > 0
      modifies this
      ensures Value() == Applied(old(Value()), action, nowNs) && decision == Decision(action, cause, load)
    {
      match action {
        case MoreParallelism => step := step + 1;
        case LessParallelism => step := step - 1;
        case LowerQuality => rung := rung + 1;
        case RaiseQuality => rung := rung - 1;
        case Stay =>
      }
      lastChangeNs, upSinceNs := nowNs, 0;
      decision := Decision(action, cause, load);
    }

    method ForceLower(cause: Cause, load: real, nowNs: nat) returns (decision: Decision)
      requires Valid()
      modifies this
      ensures Valid() && forall speedup :: (Value(), decision) == Next(old(Value()), OnForceLower(cause, load, nowNs), speedup)
    {
      if rung + 1 >= |ladder| {
        return NO_DECISION;
      }
      decision := Apply(LowerQuality, cause, load, nowNs);
    }

    method SetParallelism(steps: seq<Parallelism>, initial: nat)
      requires Valid()
      modifies this
      ensures Valid() && forall speedup :: Value() == Next(old(Value()), OnSetParallelism(steps, initial), speedup).0
    {
      this.steps := if steps == [] then [ONE] else steps;
      step := Min(initial, |this.steps| - 1);
      initialStep := step;
      upSinceNs, lastChangeNs := 0, 0;
    }

    method Rebase(ladder: seq<Rung>, rung: nat)
      requires Valid()
      modifies this
      ensures Valid() && forall speedup :: Value() == Next(old(Value()), OnRebase(ladder, rung), speedup).0
    {
      this.ladder := if ladder == [] then [PLAIN_RUNG] else ladder;
      this.rung := Min(rung, |this.ladder| - 1);
      upSinceNs, lastChangeNs := 0, 0;
    }

    /** At most one step down. */
    method LookDown(s: Sample) returns (decision: Option<Decision>, overloaded: bool)
      requires Valid() && s.frameIntervalNs > 0
      ensures decision == StepDown(Value(), s)
      ensures overloaded <==> EncodeDown(Value(), s).Some? || DecodeDown(Value(), s).Some? || GraphicsDown(Value(), s).Some?
    {
      hide EncodeDown, DecodeDown, GraphicsDown;
      var p := State(ladder, steps, rung, step, initialStep, threaded, thresholds, lastChangeNs, upSinceNs);
      var canLower, canParallelize := rung + 1 < |ladder|, step + 1 < |steps|;
      var encode, decode, graphics := EncodeDown(p, s), DecodeDown(p, s), GraphicsDown(p, s);
      overloaded := encode.Some? || decode.Some? || graphics.Some?;
      decision := None;
      if encode.Some? {
        if canParallelize {
          return Some(Decision(MoreParallelism, Encode, encode.value)), true;
        }
        if canLower {
          return Some(Decision(LowerQuality, Encode, encode.value)), true;
        }
      }
      if decode.Some? && canLower {
        return Some(Decision(LowerQuality, Decode, decode.value)), true;
      }
      if graphics.Some? {
        if !threaded && canParallelize {
          return Some(Decision(MoreParallelism, Graphics, graphics.value)), true;
        }
        if canLower {
          return Some(Decision(LowerQuality, Graphics, graphics.value)), true;
        }
      }
    }

    method Evaluate(s: Sample, speedup: nat -> real) returns (decision: Decision)
      requires Valid()
      modifies this
      ensures Valid() && (Value(), decision) == Next(old(Value()), OnEvaluate(s), speedup)
    {
      NextInRange(Value(), OnEvaluate(s), speedup);
      hide StepDown, StepUp, EncodeDown, DecodeDown, GraphicsDown, Settled, Wrap64;
      if s.frameIntervalNs == 0 {
        return NO_DECISION;
      }
      if lastChangeNs == 0 {
        lastChangeNs := s.nowNs;
      }
      var p := State(ladder, steps, rung, step, initialStep, threaded, thresholds, lastChangeNs, upSinceNs);
      assert p == Started(old(Value()), s.nowNs);
      var down, overloaded := LookDown(s);
      if down.Some? {
        decision := Apply(down.value.action, down.value.cause, down.value.load, s.nowNs);
        return;
      }
      var decodeSamples := if DecodeCurrent(p, s) then s.decodeSamples else 0;
      if overloaded || s.blockUp || !Settled(p, s) || s.graphicsSamples < thresholds.minSamples
         || (threaded && (s.encodeSamples < thresholds.minSamples || decodeSamples < thresholds.minSamples)) {
        upSinceNs := 0;
        return NO_DECISION;
      }
      var up := StepUp(p, s, speedup);
      if up.None? {
        upSinceNs := 0;
        return NO_DECISION;
      }
      if upSinceNs == 0 {
        upSinceNs := s.nowNs;
        return NO_DECISION;
      }
      if Wrap64(s.nowNs - upSinceNs) < thresholds.upHoldNs {
        return NO_DECISION;
      }
      decision := Apply(up.value.action, up.value.cause, up.value.load, s.nowNs);
    }
  }
}
