/** How big the delay ring is (src/buffer-fit.cpp): resolution and number of frames within a memory budget. Doubles are
    real numbers; the square root is given by what it must satisfy. */
module BufferFit {
  import opened Words

  const WIDTH_ALIGNMENT: nat := 8

  datatype Input = Input(sourceWidth: U32, sourceHeight: U32, baseWidth: U32, baseHeight: U32, outputWidth: U32,
                         outputHeight: U32, fpsNum: U32, fpsDen: U32, delaySeconds: U32, minResolutionHeight: U32,
                         budgetBytes: U64, compressionRatio: real, capToOutput: bool, keyframeIntervalFrames: U32)

  datatype Result = Result(bufferWidth: nat, bufferHeight: nat, actualFrames: nat, desiredFrames: nat, scale: real,
                           capScale: real, cappedByOutput: bool, reducedByRam: bool, fitsFullDuration: bool,
                           effectiveDelaySeconds: nat)

  const NO_RESULT := Result(0, 0, 0, 0, 1.0, 1.0, false, false, true, 0)

  function Nv12FrameBytes(width: nat, height: nat): nat { width * height * 3 / 2 }

  function CeilDiv(a: nat, b: nat): (q: nat)
    requires b > 0
    ensures q * b >= a && (q > 0 ==> (q - 1) * b < a)
  {
    var q := (a + b - 1) / b;
    assert a + b - 1 == b * q + (a + b - 1) % b;
    q
  }

  function SlackFrames(delaySeconds: nat, fpsNum: nat, fpsDen: nat, keyframeIntervalFrames: nat): (slack: nat)
    ensures delaySeconds > 0 && fpsNum > 0 && fpsDen > 0 ==> slack >= keyframeIntervalFrames && 4 * slack * fpsDen >= fpsNum
  {
    if fpsNum == 0 || fpsDen == 0 || delaySeconds == 0 then 0
    else
      var quarter := CeilDiv(fpsNum, 4 * fpsDen);
      assert quarter * (4 * fpsDen) == 4 * quarter * fpsDen;
      var slack := Max(quarter, keyframeIntervalFrames);
      assert slack * (4 * fpsDen) >= quarter * (4 * fpsDen);
      slack
  }

  function DesiredFrames(delaySeconds: nat, fpsNum: nat, fpsDen: nat, keyframeIntervalFrames: nat): (frames: nat)
    ensures fpsNum > 0 && fpsDen > 0 ==> frames >= 1
  {
    if fpsNum == 0 || fpsDen == 0 then 0
    else CeilDiv(delaySeconds * fpsNum, fpsDen) + SlackFrames(delaySeconds, fpsNum, fpsDen, keyframeIntervalFrames) + 1
  }

  /** The frames wanted are the fewest whose intervals span the delay and the slack, and one more; the slack is the least that
      covers a quarter of a second and a keyframe interval. */
  lemma WantedAreFewest(delaySeconds: nat, fpsNum: nat, fpsDen: nat, keyframeIntervalFrames: nat)
    requires delaySeconds > 0 && fpsNum > 0 && fpsDen > 0
    ensures var slack := SlackFrames(delaySeconds, fpsNum, fpsDen, keyframeIntervalFrames);
            var spanning := DesiredFrames(delaySeconds, fpsNum, fpsDen, keyframeIntervalFrames) - 1 - slack;
            && spanning * fpsDen >= delaySeconds * fpsNum && (spanning - 1) * fpsDen < delaySeconds * fpsNum
            && slack >= keyframeIntervalFrames && 4 * slack * fpsDen >= fpsNum
            && (slack == keyframeIntervalFrames || 4 * (slack - 1) * fpsDen < fpsNum)
  {
    var quarter := CeilDiv(fpsNum, 4 * fpsDen);
    assert (quarter - 1) * (4 * fpsDen) == 4 * (quarter - 1) * fpsDen;
    var frames := CeilDiv(delaySeconds * fpsNum, fpsDen);
    if frames == 0 {
      assert 0 * fpsDen == 0;
    }
    hide CeilDiv;
  }

  // --- Scales and dimensions ---

  /** Half away from zero, for numbers that are not negative. */
  function Round(x: real): int { (x + 0.5).Floor }

  lemma RoundNear(x: real)
    ensures Round(x) as real - 0.5 <= x < Round(x) as real + 0.5
  {
  }

  lemma RoundGrows(x: real, y: real)
    requires x <= y
    ensures Round(x) <= Round(y)
  {
  }

  /** orig scaled, and no larger than it was. */
  function ScaledDim(orig: nat, scale: real): int { NoLarger(orig as real * scale, orig) }

  function NoLarger(asked: real, orig: nat): int { Min(Round(asked), orig) }

  /** An even number, at least 2, at most the source's unless that is less than 2. */
  function EvenDim(orig: nat, scale: real): (d: nat)
    ensures d >= 2 && d % 2 == 0 && d <= Max(2, orig)
  {
    Evened(ScaledDim(orig, scale))
  }

  function Evened(v: int): (d: nat)
    ensures d >= 2 && d % 2 == 0 && d <= Max(2, v)
  {
    var least := Max(2, v);
    least - least % 2
  }

  /** The nearest multiple of 8, at least 8, at most the source's unless that is less than 8. */
  function AlignedWidth(orig: nat, scale: real): (w: nat)
    ensures w >= WIDTH_ALIGNMENT && w % WIDTH_ALIGNMENT == 0 && w <= Max(WIDTH_ALIGNMENT, orig)
  {
    Aligned(ScaledDim(orig, scale), orig)
  }

  function Aligned(v: int, orig: nat): (w: nat)
    ensures w >= WIDTH_ALIGNMENT && w % WIDTH_ALIGNMENT == 0 && w <= Max(WIDTH_ALIGNMENT, orig)
  {
    var nearest := NearestEight(v);
    Max(WIDTH_ALIGNMENT, if nearest > orig then orig - orig % 8 else nearest)
  }

  /** Less than two rows off, or the least there is. */
  predicate HeightNear(height: nat, asked: real) {
    (height as real <= asked + 0.5 || height == 2) && height as real > asked - 1.5
  }

  /** At most half the alignment off, or a whole one and half where the source ends before, or the least there is. */
  predicate WidthNear(width: nat, asked: real, orig: nat) {
    && (width as real <= asked + 4.5 || width == 8)
    && width as real > asked - (if asked + 4.5 <= orig as real then 4.5 else 8.5)
  }

  /** Rounding stays near the size asked for. */
  lemma DimensionsNear(orig: nat, scale: real)
    requires 0.0 <= scale <= 1.0
    ensures HeightNear(EvenDim(orig, scale), orig as real * scale)
    ensures WidthNear(AlignedWidth(orig, scale), orig as real * scale, orig)
  {
    hide NoLarger, Evened, Aligned, HeightNear, WidthNear;
    PartOf(orig as real, scale);
    NearAsked(orig, orig as real * scale);
    ScaledIs(orig, scale);
  }

  lemma ScaledIs(orig: nat, scale: real)
    ensures ScaledDim(orig, scale) == NoLarger(orig as real * scale, orig)
  {
  }

  lemma PartOf(x: real, scale: real)
    requires x >= 0.0 && 0.0 <= scale <= 1.0
    ensures 0.0 <= x * scale <= x
  {
    assert x - x * scale == x * (1.0 - scale);
  }

  lemma NearAsked(orig: nat, asked: real)
    requires 0.0 <= asked <= orig as real
    ensures HeightNear(Evened(NoLarger(asked, orig)), asked)
    ensures WidthNear(Aligned(NoLarger(asked, orig), orig), asked, orig)
  {
    RoundNear(asked);
    hide Round;
    EvenedNear(Round(asked));
    AlignedNear(Round(asked), orig);
    hide Evened, Aligned;
  }

  lemma EvenedNear(v: int)
    ensures (Evened(v) <= v || Evened(v) == 2) && Evened(v) >= v - 1
  {
  }

  lemma AlignedNear(v: int, orig: nat)
    requires 0 <= v <= orig
    ensures (Aligned(v, orig) <= v + 4 || Aligned(v, orig) == 8) && Aligned(v, orig) > v - (if v + 4 <= orig then 4 else 8)
  {
  }

  lemma EvenedGrows(v: int, v': int)
    requires v <= v'
    ensures Evened(v) <= Evened(v')
  {
  }

  lemma AlignedGrows(v: int, v': int, orig: nat)
    requires v <= v'
    ensures Aligned(v, orig) <= Aligned(v', orig)
  {
    NearestEightGrows(v, v');
    var n, n' := NearestEight(v), NearestEight(v');
    hide NearestEight;
    if n <= orig < n' {
      assert n <= orig - orig % 8;
    }
  }

  /** As C++ does it: negative quotients towards zero, so a negative v never gives more than 0. */
  function NearestEight(v: int): (n: int)
    ensures n % 8 == 0 && (v >= 0 ==> v - 4 < n <= v + 4)
  {
    if v + 4 < 0 then 0 else (v + 4) / 8 * 8
  }

  lemma ProductGrows(a: real, x: real, y: real)
    requires a >= 0.0 && x <= y
    ensures a * x <= a * y
  {
  }

  lemma NearestEightGrows(v: int, v': int)
    requires v <= v'
    ensures NearestEight(v) <= NearestEight(v')
  {
    if v + 4 >= 0 {
      assert (v + 4) / 8 <= (v' + 4) / 8;
    }
  }

  lemma DimensionsGrow(orig: nat, s: real, s': real)
    requires s <= s'
    ensures EvenDim(orig, s) <= EvenDim(orig, s') && AlignedWidth(orig, s) <= AlignedWidth(orig, s')
  {
    ProductGrows(orig as real, s, s');
    RoundGrows(orig as real * s, orig as real * s');
    hide Round, Aligned, Evened;
    AlignedGrows(ScaledDim(orig, s), ScaledDim(orig, s'), orig);
    EvenedGrows(ScaledDim(orig, s), ScaledDim(orig, s'));
  }

  lemma FrameBytesGrow(w: nat, w': nat, h: nat, h': nat)
    requires w <= w' && h <= h'
    ensures Nv12FrameBytes(w, h) <= Nv12FrameBytes(w', h')
  {
    assert w * h <= w' * h <= w' * h';
    assert w * h * 3 <= w' * h' * 3;
  }

  predicate Sized(in_: Input) { in_.sourceWidth > 0 && in_.sourceHeight > 0 && in_.fpsNum > 0 && in_.fpsDen > 0 }

  function MinReal(a: real, b: real): real { if a <= b then a else b }
  function MaxReal(a: real, b: real): real { if a >= b then a else b }
  function Clamped(x: real, lo: real, hi: real): real { if x < lo then lo else if x > hi then hi else x }

  /** The output resolution over the canvas, when the source is the canvas. */
  function OutputCapScale(in_: Input): (cap: real)
    ensures 0.0 < cap <= 1.0
  {
    if !in_.capToOutput then 1.0
    else if in_.baseWidth == 0 || in_.baseHeight == 0 || in_.outputWidth == 0 || in_.outputHeight == 0 then 1.0
    else if in_.sourceWidth != in_.baseWidth || in_.sourceHeight != in_.baseHeight then 1.0
    else
      var sx := in_.outputWidth as real / in_.baseWidth as real;
      var sy := in_.outputHeight as real / in_.baseHeight as real;
      assert sx > 0.0 && sy > 0.0;
      MinReal(1.0, MaxReal(sx, sy))
  }

  /** The cap applies: it is wanted, and the source is the canvas, of a size known. */
  predicate CapApplies(in_: Input) {
    && in_.capToOutput && in_.baseWidth > 0 && in_.baseHeight > 0 && in_.outputWidth > 0 && in_.outputHeight > 0
    && in_.sourceWidth == in_.baseWidth && in_.sourceHeight == in_.baseHeight
  }

  /** The canvas at this scale is no smaller than the output, on either side. */
  predicate Covers(in_: Input, scale: real) {
    scale * in_.baseWidth as real >= in_.outputWidth as real && scale * in_.baseHeight as real >= in_.outputHeight as real
  }

  /** Where the cap applies it is the least scale that covers the output, or 1 if that is less; elsewhere there is none. */
  lemma CapIsLeast(in_: Input)
    ensures var cap := OutputCapScale(in_);
            if !CapApplies(in_) then cap == 1.0
            else (cap == 1.0 || Covers(in_, cap)) && forall scale: real :: Covers(in_, scale) ==> cap <= scale
  {
    if CapApplies(in_) {
      CapIs(in_);
      CoversIff(in_, OutputCapScale(in_));
      forall scale: real | Covers(in_, scale)
        ensures OutputCapScale(in_) <= scale
      {
        CoversIff(in_, scale);
      }
    }
  }

  lemma CapIs(in_: Input)
    requires CapApplies(in_)
    ensures OutputCapScale(in_) == MinReal(1.0, MaxReal(in_.outputWidth as real / in_.baseWidth as real,
                                                        in_.outputHeight as real / in_.baseHeight as real))
  {
  }

  lemma CoversIff(in_: Input, scale: real)
    requires CapApplies(in_)
    ensures Covers(in_, scale) <==> MaxReal(in_.outputWidth as real / in_.baseWidth as real,
                                            in_.outputHeight as real / in_.baseHeight as real) <= scale
  {
    QuotientOrder(in_.outputWidth as real, in_.baseWidth as real, scale);
    QuotientOrder(in_.outputHeight as real, in_.baseHeight as real, scale);
  }

  lemma QuotientOrder(a: real, b: real, x: real)
    requires b > 0.0
    ensures a / b <= x <==> a <= x * b
    ensures x <= a / b <==> x * b <= a
  {
    var q := a / b;
    assert q * b == a;
    if q < x {
      LargerProduct(x, q, b);
    } else if x < q {
      LargerProduct(q, x, b);
    }
  }

  /** The floor is the height asked for, where the cap allows it. */
  lemma FloorIs(in_: Input)
    requires Sized(in_)
    ensures var rows := FloorScale(in_) * in_.sourceHeight as real;
            rows <= in_.minResolutionHeight as real && (rows == in_.minResolutionHeight as real || FloorScale(in_) == OutputCapScale(in_))
  {
    hide OutputCapScale;
    QuotientOrder(in_.minResolutionHeight as real, in_.sourceHeight as real, FloorScale(in_));
  }

  function FloorScale(in_: Input): (floor: real)
    requires Sized(in_)
    ensures 0.0 <= floor <= OutputCapScale(in_)
  {
    var asked := in_.minResolutionHeight as real / in_.sourceHeight as real;
    assert asked >= 0.0;
    MinReal(OutputCapScale(in_), MinReal(1.0, asked))
  }

  function Ratio(in_: Input): (r: real)
    ensures r > 0.0
  {
    if in_.compressionRatio > 0.0 then in_.compressionRatio else 1.0
  }

  function Desired(in_: Input): nat {
    DesiredFrames(in_.delaySeconds, in_.fpsNum, in_.fpsDen, in_.keyframeIntervalFrames)
  }

  function BytesAt(in_: Input, scale: real): (bytes: real)
    ensures bytes > 0.0
  {
    var w, h := AlignedWidth(in_.sourceWidth, scale), EvenDim(in_.sourceHeight, scale);
    FrameBytesGrow(8, w, 2, h);
    assert Nv12FrameBytes(8, 2) == 24;
    PositiveQuotient(Nv12FrameBytes(w, h) as real, Ratio(in_));
    Nv12FrameBytes(w, h) as real / Ratio(in_)
  }

  lemma PositiveQuotient(a: real, b: real)
    requires a > 0.0 && b > 0.0
    ensures a / b > 0.0
  {
  }

  predicate Fits(in_: Input, scale: real) { FitIn(Desired(in_), BytesAt(in_, scale), in_.budgetBytes) }

  predicate FitIn(frames: nat, bytes: real, budget: nat) { frames as real * bytes <= budget as real }

  /** ideal is the square root of the budget over the cost of the full delay at full resolution. */
  ghost predicate IsIdeal(in_: Input, ideal: real) {
    ideal >= 0.0 &&
    ideal * ideal * FullCost(in_) == in_.budgetBytes as real
  }

  function FullCost(in_: Input): real {
    Desired(in_) as real * (Nv12FrameBytes(in_.sourceWidth, in_.sourceHeight) as real / Ratio(in_))
  }

  /** What keeps a scale a hair below a whole row from losing that row. */
  const GUARD: real := 0.000001

  function WholeRows(scale: real, height: nat): int { (scale * height as real + GUARD).Floor }

  function FloorRows(in_: Input): int
    requires Sized(in_)
  {
    Round(FloorScale(in_) * in_.sourceHeight as real)
  }

  function TargetRows(in_: Input, ideal: real): int
    requires Sized(in_)
  {
    Max(WholeRows(Clamped(ideal, FloorScale(in_), OutputCapScale(in_)), in_.sourceHeight), FloorRows(in_))
  }

  function RowScale(in_: Input, rows: int): real
    requires Sized(in_)
  {
    rows as real / in_.sourceHeight as real
  }

  /** The first of rows, rows - 1, ... that fits, or the floor's. */
  function WalkDown(in_: Input, rows: int): (r: int)
    requires Sized(in_) && rows >= FloorRows(in_)
    ensures FloorRows(in_) <= r <= rows
    ensures r > FloorRows(in_) ==> Fits(in_, RowScale(in_, r))
    ensures forall k :: r < k <= rows ==> !Fits(in_, RowScale(in_, k))
    decreases rows - FloorRows(in_)
  {
    if rows > FloorRows(in_) && !Fits(in_, RowScale(in_, rows)) then WalkDown(in_, rows - 1) else rows
  }

  function Scale(in_: Input, ideal: real): real
    requires Sized(in_)
  {
    if Fits(in_, OutputCapScale(in_)) then OutputCapScale(in_)
    else
      var rows := WalkDown(in_, TargetRows(in_, ideal));
      if rows > FloorRows(in_) then RowScale(in_, rows) else FloorScale(in_)
  }

  function FramesKept(in_: Input, scale: real): (frames: nat)
    requires Sized(in_)
    ensures 1 <= frames <= Desired(in_)
  {
    var fit := in_.budgetBytes as real / BytesAt(in_, scale);
    if fit >= Desired(in_) as real then Desired(in_) else Max(1, fit.Floor)
  }

  /** Whole seconds that so many frame intervals last. */
  function WholeSeconds(frames: nat, fpsNum: nat, fpsDen: nat): (seconds: nat)
    requires fpsNum > 0
    ensures seconds * fpsNum <= frames * fpsDen
  {
    FloorDiv(frames * fpsDen, fpsNum)
  }

  function FloorDiv(a: nat, b: nat): (q: nat)
    requires b > 0
    ensures q * b <= a
  {
    assert a == b * (a / b) + a % b;
    a / b
  }

  function Slack(in_: Input): nat {
    SlackFrames(in_.delaySeconds, in_.fpsNum, in_.fpsDen, in_.keyframeIntervalFrames)
  }

  /** All of it if everything fits; otherwise what the ring spans less the slack, or all it spans if that is nothing. */
  function EffectiveDelay(in_: Input, frames: nat): nat
    requires Sized(in_) && frames >= 1
  {
    if frames >= Desired(in_) then in_.delaySeconds
    else
      var withMargin := if frames - 1 > Slack(in_) then frames - 1 - Slack(in_) else 0;
      var seconds := WholeSeconds(withMargin, in_.fpsNum, in_.fpsDen);
      Min(if seconds == 0 then WholeSeconds(frames - 1, in_.fpsNum, in_.fpsDen) else seconds, in_.delaySeconds)
  }

  function Computed(in_: Input, ideal: real): Result {
    if !Sized(in_) then NO_RESULT
    else
      var cap, scale := OutputCapScale(in_), Scale(in_, ideal);
      var frames := FramesKept(in_, scale);
      Result(AlignedWidth(in_.sourceWidth, scale), EvenDim(in_.sourceHeight, scale), frames, Desired(in_), scale, cap,
             cap < 1.0, scale < cap, frames >= Desired(in_), EffectiveDelay(in_, frames))
  }

  lemma WalkStep(in_: Input, rows: int)
    requires Sized(in_) && rows >= FloorRows(in_)
    ensures rows > FloorRows(in_) && !Fits(in_, RowScale(in_, rows)) ==> WalkDown(in_, rows) == WalkDown(in_, rows - 1)
    ensures !(rows > FloorRows(in_) && !Fits(in_, RowScale(in_, rows))) ==> WalkDown(in_, rows) == rows
  {
    hide Fits, RowScale, FloorRows;
  }

  /** The whole rows of the floor, and those the walk starts from. */
  method RowsToWalk(in_: Input, ideal: real, floorScale: real, capScale: real) returns (floorRows: int, rows: int)
    requires Sized(in_) && floorScale == FloorScale(in_) && capScale == OutputCapScale(in_)
    ensures floorRows == FloorRows(in_) && rows == TargetRows(in_, ideal) >= floorRows
  {
    hide OutputCapScale, FloorScale;
    floorRows := Round(floorScale * in_.sourceHeight as real);
    var target := Clamped(ideal, floorScale, capScale);
    rows := Max(WholeRows(target, in_.sourceHeight), floorRows);
  }

  /** Walks row by row from the target down to the first that fits. */
  method ChooseScale(in_: Input, ideal: real) returns (scale: real)
    requires Sized(in_)
    ensures scale == Scale(in_, ideal)
  {
    hide BytesAt, Desired, OutputCapScale, RowScale, Fits, FloorRows, TargetRows, FloorScale, WalkDown;
    var capScale, floorScale := OutputCapScale(in_), FloorScale(in_);
    if Fits(in_, capScale) {
      return capScale;
    }
    var floorRows, rows := RowsToWalk(in_, ideal, floorScale, capScale);
    while rows > floorRows && !Fits(in_, RowScale(in_, rows))
      invariant rows >= floorRows == FloorRows(in_)
      invariant WalkDown(in_, rows) == WalkDown(in_, TargetRows(in_, ideal))
    {
      WalkStep(in_, rows);
      rows := rows - 1;
    }
    WalkStep(in_, rows);
    scale := if rows > floorRows then RowScale(in_, rows) else floorScale;
  }

  method ChooseDelay(in_: Input, actualFrames: nat, desired: nat) returns (effective: nat)
    requires Sized(in_) && actualFrames >= 1 && desired == Desired(in_)
    ensures effective == EffectiveDelay(in_, actualFrames)
  {
    hide Desired, WholeSeconds, Slack;
    if actualFrames >= desired {
      return in_.delaySeconds;
    }
    var span := actualFrames - 1;
    var withMargin := if span > Slack(in_) then span - Slack(in_) else 0;
    var seconds := WholeSeconds(withMargin, in_.fpsNum, in_.fpsDen);
    if seconds == 0 {
      seconds := WholeSeconds(span, in_.fpsNum, in_.fpsDen);
    }
    effective := Min(seconds, in_.delaySeconds);
  }

  method Compute(in_: Input, ideal: real) returns (r: Result)
    ensures r == Computed(in_, ideal)
  {
    if in_.sourceWidth == 0 || in_.sourceHeight == 0 || in_.fpsNum == 0 || in_.fpsDen == 0 {
      return NO_RESULT;
    }
    hide BytesAt, Desired, OutputCapScale, EvenDim, AlignedWidth, Scale, EffectiveDelay;
    var desired, capScale := Desired(in_), OutputCapScale(in_);
    var scale := ChooseScale(in_, ideal);
    var framesThatFit := in_.budgetBytes as real / BytesAt(in_, scale);
    var actualFrames := if framesThatFit >= desired as real then desired else Max(1, framesThatFit.Floor);
    assert actualFrames == FramesKept(in_, scale);
    hide FramesKept;
    var effective := ChooseDelay(in_, actualFrames, desired);
    r := Result(AlignedWidth(in_.sourceWidth, scale), EvenDim(in_.sourceHeight, scale), actualFrames, desired, scale, capScale,
                capScale < 1.0, scale < capScale, actualFrames >= desired, effective);
  }

  // --- Bounds ---

  lemma QuotientTimes(a: real, b: real, x: real)
    requires b > 0.0 && x <= a / b
    ensures x * b <= a
  {
    assert (a / b - x) * b >= 0.0;
    assert a / b * b == a;
  }

  /** The frames kept fit the budget, unless only one is. */
  lemma KeptFit(in_: Input, scale: real)
    requires Sized(in_)
    ensures FramesKept(in_, scale) as real * BytesAt(in_, scale) <= in_.budgetBytes as real || FramesKept(in_, scale) == 1
  {
    hide BytesAt, Desired;
    var fit, bytes := in_.budgetBytes as real / BytesAt(in_, scale), BytesAt(in_, scale);
    if FramesKept(in_, scale) as real <= fit {
      QuotientTimes(in_.budgetBytes as real, bytes, FramesKept(in_, scale) as real);
    }
  }

  /** The delay promised is one the ring really spans, in every branch. */
  lemma DelayIsSpanned(in_: Input, frames: nat)
    requires Sized(in_) && 1 <= frames <= Desired(in_)
    ensures EffectiveDelay(in_, frames) <= in_.delaySeconds
    ensures EffectiveDelay(in_, frames) * in_.fpsNum <= (frames - 1) * in_.fpsDen
  {
    if frames >= Desired(in_) {
      FullSpan(in_);
    } else {
      hide Desired, Slack;
      var withMargin := if frames - 1 > Slack(in_) then frames - 1 - Slack(in_) else 0;
      TimesGrows(withMargin, frames - 1, in_.fpsDen);
      var seconds := WholeSeconds(withMargin, in_.fpsNum, in_.fpsDen);
      var chosen := if seconds == 0 then WholeSeconds(frames - 1, in_.fpsNum, in_.fpsDen) else seconds;
      hide WholeSeconds;
      assert chosen * in_.fpsNum <= (frames - 1) * in_.fpsDen;
      TimesGrows(Min(chosen, in_.delaySeconds), chosen, in_.fpsNum);
    }
  }

  /** No more frames would fit: all that are wanted are kept exactly when they fit, and otherwise one more would not. */
  lemma FramesAreMost(in_: Input, scale: real)
    requires Sized(in_)
    ensures FramesKept(in_, scale) == Desired(in_) <==> Desired(in_) == 1 || Desired(in_) as real * BytesAt(in_, scale) <= in_.budgetBytes as real
    ensures FramesKept(in_, scale) < Desired(in_) ==>
              (FramesKept(in_, scale) + 1) as real * BytesAt(in_, scale) > in_.budgetBytes as real
  {
    hide BytesAt, Desired;
    var bytes, frames := BytesAt(in_, scale), FramesKept(in_, scale);
    var fit := in_.budgetBytes as real / bytes;
    TimesOver(fit, bytes, in_.budgetBytes as real, Desired(in_) as real);
    TimesOver(fit, bytes, in_.budgetBytes as real, (frames + 1) as real);
  }

  lemma TimesOver(quotient: real, b: real, a: real, x: real)
    requires b > 0.0 && quotient == a / b
    ensures x * b <= a <==> x <= quotient
  {
    assert quotient * b == a;
    assert x * b - a == (x - quotient) * b;
    if x > quotient {
      assert (x - quotient) * b > 0.0;
    } else {
      assert (quotient - x) * b >= 0.0;
    }
  }

  /** No longer delay would do: with all the frames wanted it is the one asked for; with fewer, one more second is more than
      the frames span -- less the slack, where a second and the slack have room. */
  lemma DelayIsMost(in_: Input, frames: nat)
    requires Sized(in_) && frames >= 1
    ensures var delay, spare := EffectiveDelay(in_, frames), frames - 1 - Slack(in_);
            if frames >= Desired(in_) then delay == in_.delaySeconds
            else delay < in_.delaySeconds ==>
                   (delay + 1) * in_.fpsNum > (if spare * in_.fpsDen >= in_.fpsNum then spare else frames - 1) * in_.fpsDen
  {
    hide Desired, Slack;
    if frames < Desired(in_) {
      var withMargin: nat := if frames - 1 > Slack(in_) then frames - 1 - Slack(in_) else 0;
      SecondsAreMost(withMargin, in_.fpsNum, in_.fpsDen);
      SecondsAreMost(frames - 1, in_.fpsNum, in_.fpsDen);
      NoSpare(frames - 1 - Slack(in_), in_.fpsDen);
      hide WholeSeconds;
    }
  }

  lemma NoSpare(spare: int, fpsDen: nat)
    ensures spare <= 0 ==> spare * fpsDen <= 0
  {
  }

  lemma SecondsAreMost(frames: nat, fpsNum: nat, fpsDen: nat)
    requires fpsNum > 0
    ensures (WholeSeconds(frames, fpsNum, fpsDen) + 1) * fpsNum > frames * fpsDen
    ensures WholeSeconds(frames, fpsNum, fpsDen) == 0 <==> frames * fpsDen < fpsNum
  {
    var a := frames * fpsDen;
    assert a == fpsNum * (a / fpsNum) + a % fpsNum;
    var q := a / fpsNum;
    assert (q + 1) * fpsNum == q * fpsNum + fpsNum;
    if q == 0 {
      assert fpsNum * q == 0;
    } else {
      TimesGrows(1, q, fpsNum);
    }
  }

  /** No higher resolution would do: unless the highest of all fits, none of the whole rows above the one chosen, up to what
      the budget pays for at no rounding, lets all the frames wanted fit. */
  lemma RowsAreMost(in_: Input, ideal: real, row: int)
    requires Sized(in_) && !Fits(in_, OutputCapScale(in_))
    requires FloorRows(in_) < row && RowScale(in_, row) > Scale(in_, ideal)
    requires row as real <= Clamped(ideal, FloorScale(in_), OutputCapScale(in_)) * in_.sourceHeight as real
    ensures !Fits(in_, RowScale(in_, row))
  {
    hide Fits, OutputCapScale, FloorScale, FloorRows, Clamped;
    var rows := WalkDown(in_, TargetRows(in_, ideal));
    if rows > FloorRows(in_) && row <= rows {
      QuotientGrows(row as real, rows as real, in_.sourceHeight as real);
    }
    assert row <= TargetRows(in_, ideal);
  }

  lemma TimesGrows(a: nat, b: nat, c: nat)
    requires a <= b
    ensures a * c <= b * c
  {
  }

  lemma FullSpan(in_: Input)
    requires Sized(in_)
    ensures in_.delaySeconds * in_.fpsNum <= (Desired(in_) - 1) * in_.fpsDen
  {
    var frames := CeilDiv(in_.delaySeconds * in_.fpsNum, in_.fpsDen);
    hide CeilDiv, SlackFrames;
    assert Desired(in_) - 1 >= frames;
    TimesGrows(frames, Desired(in_) - 1, in_.fpsDen);
  }

  /** The scale never leaves [floor, cap]: the guard can put the walk's first row above the cap, but no row up there
      fits when the cap itself does not. */
  lemma ScaleWithin(in_: Input, ideal: real)
    requires Sized(in_)
    ensures FloorScale(in_) <= Scale(in_, ideal) <= OutputCapScale(in_)
  {
    hide Fits, OutputCapScale, FloorScale, WalkDown, FloorRows, TargetRows, RowScale;
    var cap := OutputCapScale(in_);
    if !Fits(in_, cap) {
      TargetBounds(in_, ideal);
      var rows := WalkDown(in_, TargetRows(in_, ideal));
      if rows > FloorRows(in_) {
        RowScaleTimes(in_, rows);
        LessThan(FloorScale(in_), RowScale(in_, rows), in_.sourceHeight as real, rows as real);
        if RowScale(in_, rows) > cap {
          SmallerFits(in_, cap, RowScale(in_, rows));
        }
      }
    }
  }

  lemma TargetBounds(in_: Input, ideal: real)
    requires Sized(in_)
    ensures TargetRows(in_, ideal) >= FloorRows(in_)
    ensures FloorScale(in_) * in_.sourceHeight as real < (FloorRows(in_) + 1) as real
  {
    hide OutputCapScale, FloorScale;
    RoundNear(FloorScale(in_) * in_.sourceHeight as real);
    hide Round;
  }

  lemma RowScaleTimes(in_: Input, rows: int)
    requires Sized(in_)
    ensures RowScale(in_, rows) * in_.sourceHeight as real == rows as real
  {
  }

  lemma LessThan(a: real, b: real, h: real, product: real)
    requires h > 0.0 && a * h < product && b * h == product
    ensures a < b
  {
    if a >= b {
      ProductGrows(h, b, a);
      assert false;
    }
  }

  lemma QuotientBack(a: real, b: real)
    requires b > 0.0
    ensures a / b * b == a
  {
  }

  lemma AtMost(a: real, b: real, h: real)
    requires h > 0.0 && a * h <= b * h
    ensures a <= b
  {
  }

  // --- More memory is never worse ---

  lemma BytesGrow(in_: Input, s: real, s': real)
    requires s <= s'
    ensures BytesAt(in_, s) <= BytesAt(in_, s')
  {
    DimensionsGrow(in_.sourceWidth, s, s');
    DimensionsGrow(in_.sourceHeight, s, s');
    var w, h := AlignedWidth(in_.sourceWidth, s), EvenDim(in_.sourceHeight, s);
    var w', h' := AlignedWidth(in_.sourceWidth, s'), EvenDim(in_.sourceHeight, s');
    hide AlignedWidth, EvenDim, Nv12FrameBytes, Ratio;
    FrameBytesGrow(w, w', h, h');
    QuotientGrows(Nv12FrameBytes(w, h) as real, Nv12FrameBytes(w', h') as real, Ratio(in_));
  }

  lemma QuotientGrows(a: real, a': real, b: real)
    requires b > 0.0 && a <= a'
    ensures a / b <= a' / b
  {
    QuotientBack(a, b);
    QuotientBack(a', b);
    AtMost(a / b, a' / b, b);
  }

  lemma SmallerFits(in_: Input, s: real, s': real)
    requires s <= s' && Fits(in_, s')
    ensures Fits(in_, s)
  {
    hide BytesAt, Desired;
    BytesGrow(in_, s, s');
    ProductGrows(Desired(in_) as real, BytesAt(in_, s), BytesAt(in_, s'));
  }

  /** The same request with at least as large a budget. */
  predicate Richer(in_: Input, rich: Input) {
    rich == in_.(budgetBytes := rich.budgetBytes) && in_.budgetBytes <= rich.budgetBytes
  }

  lemma SameCap(in_: Input, rich: Input)
    requires Richer(in_, rich)
    ensures OutputCapScale(in_) == OutputCapScale(rich) && Desired(in_) == Desired(rich) && Sized(in_) == Sized(rich)
    ensures Ratio(in_) == Ratio(rich)
  {
    hide DesiredFrames;
  }

  lemma SameFloor(in_: Input, rich: Input)
    requires Sized(in_) && Richer(in_, rich)
    ensures Sized(rich) && FloorScale(in_) == FloorScale(rich) && FloorRows(in_) == FloorRows(rich)
  {
    SameCap(in_, rich);
    hide OutputCapScale, Round;
  }

  lemma SameBytes(in_: Input, rich: Input, scale: real)
    requires Richer(in_, rich)
    ensures BytesAt(in_, scale) == BytesAt(rich, scale)
  {
    SameCap(in_, rich);
    hide AlignedWidth, EvenDim, Nv12FrameBytes, Ratio;
  }

  lemma FitsStill(in_: Input, rich: Input, scale: real)
    requires Richer(in_, rich) && Fits(in_, scale)
    ensures Fits(rich, scale)
  {
    hide BytesAt, Desired, FitIn;
    SameBytes(in_, rich, scale);
    SameCap(in_, rich);
    FitInMore(Desired(in_), BytesAt(in_, scale), in_.budgetBytes, rich.budgetBytes);
  }

  lemma FitInMore(frames: nat, bytes: real, budget: nat, more: nat)
    requires FitIn(frames, bytes, budget) && budget <= more
    ensures FitIn(frames, bytes, more)
  {
  }

  lemma SameCost(in_: Input, rich: Input)
    requires Richer(in_, rich)
    ensures FullCost(in_) == FullCost(rich)
  {
    SameCap(in_, rich);
    hide Desired, Ratio, Nv12FrameBytes;
  }

  lemma LargerSquare(x: real, y: real)
    requires x > y >= 0.0
    ensures x * x > y * y
  {
    PositiveProduct(x - y, x + y);
    assert x * x == y * y + (x - y) * (x + y);
  }

  lemma IdealGrows(in_: Input, rich: Input, ideal: real, ideal': real)
    requires Sized(in_) && Richer(in_, rich) && IsIdeal(in_, ideal) && IsIdeal(rich, ideal')
    ensures ideal <= ideal'
  {
    hide FullCost;
    SameCost(in_, rich);
    CostIsPositive(in_);
    RootGrows(ideal, ideal', FullCost(in_));
  }

  lemma RootGrows(ideal: real, ideal': real, cost: real)
    requires ideal >= 0.0 && ideal' >= 0.0 && cost > 0.0 && ideal * ideal * cost <= ideal' * ideal' * cost
    ensures ideal <= ideal'
  {
    if ideal > ideal' {
      LargerSquare(ideal, ideal');
      LargerProduct(ideal * ideal, ideal' * ideal', cost);
      assert false;
    }
  }

  lemma LargerProduct(a: real, b: real, c: real)
    requires a > b && c > 0.0
    ensures a * c > b * c
  {
  }

  lemma CostIsPositive(in_: Input)
    requires Sized(in_)
    ensures FullCost(in_) > 0.0
  {
    FrameBytesGrow(1, in_.sourceWidth, 1, in_.sourceHeight);
    var bytes := Nv12FrameBytes(in_.sourceWidth, in_.sourceHeight);
    assert bytes >= 1;
    PositiveQuotient(bytes as real, Ratio(in_));
    hide Nv12FrameBytes, Ratio;
    PositiveProduct(Desired(in_) as real, bytes as real / Ratio(in_));
  }

  lemma PositiveProduct(a: real, b: real)
    requires a > 0.0 && b > 0.0
    ensures a * b > 0.0
  {
  }

  lemma TargetGrows(in_: Input, rich: Input, ideal: real, ideal': real)
    requires Sized(in_) && Richer(in_, rich) && ideal <= ideal'
    ensures Sized(rich) && TargetRows(in_, ideal) <= TargetRows(rich, ideal')
  {
    SameCap(in_, rich);
    SameFloor(in_, rich);
    hide OutputCapScale, FloorScale, FloorRows;
    ClampedGrows(ideal, ideal', FloorScale(in_), OutputCapScale(in_));
    hide Clamped, WholeRows;
    WholeRowsGrow(Clamped(ideal, FloorScale(in_), OutputCapScale(in_)),
                  Clamped(ideal', FloorScale(in_), OutputCapScale(in_)), in_.sourceHeight);
  }

  lemma WholeRowsGrow(s: real, s': real, height: nat)
    requires s <= s'
    ensures WholeRows(s, height) <= WholeRows(s', height)
  {
    ProductGrows(height as real, s, s');
    FloorGrows(s * height as real + GUARD, s' * height as real + GUARD);
  }

  lemma ClampedGrows(x: real, x': real, lo: real, hi: real)
    requires x <= x' && lo <= hi
    ensures Clamped(x, lo, hi) <= Clamped(x', lo, hi)
  {
  }

  lemma FloorGrows(x: real, y: real)
    requires x <= y
    ensures x.Floor <= y.Floor
  {
  }

  lemma WalkGrows(in_: Input, rich: Input, rows: int, rows': int)
    requires Sized(in_) && Richer(in_, rich) && FloorRows(in_) == FloorRows(rich)
    requires FloorRows(in_) <= rows <= rows' && Sized(rich)
    ensures WalkDown(in_, rows) <= WalkDown(rich, rows')
  {
    hide Fits, RowScale, FloorRows;
    var r, r' := WalkDown(in_, rows), WalkDown(rich, rows');
    if r > FloorRows(in_) {
      FitsStill(in_, rich, RowScale(in_, r));
      SameRow(in_, rich, r);
    }
  }

  lemma SameRow(in_: Input, rich: Input, rows: int)
    requires Sized(in_) && Richer(in_, rich)
    ensures Sized(rich) && RowScale(in_, rows) == RowScale(rich, rows)
  {
  }

  lemma ScaleGrows(in_: Input, rich: Input, ideal: real, ideal': real)
    requires Sized(in_) && Richer(in_, rich) && ideal <= ideal'
    ensures Sized(rich) && Scale(in_, ideal) <= Scale(rich, ideal')
  {
    hide Fits, OutputCapScale, FloorScale, WalkDown, FloorRows, TargetRows;
    SameCap(in_, rich);
    SameFloor(in_, rich);
    ScaleWithin(in_, ideal);
    ScaleWithin(rich, ideal');
    TargetGrows(in_, rich, ideal, ideal');
    if !Fits(rich, OutputCapScale(rich)) {
      if Fits(in_, OutputCapScale(in_)) {
        FitsStill(in_, rich, OutputCapScale(in_));
      }
      TargetBounds(in_, ideal);
      WalkGrows(in_, rich, TargetRows(in_, ideal), TargetRows(rich, ideal'));
      var rows, rows' := WalkDown(in_, TargetRows(in_, ideal)), WalkDown(rich, TargetRows(rich, ideal'));
      QuotientGrows(rows as real, rows' as real, in_.sourceHeight as real);
    }
  }

  lemma FittingKeepsAll(in_: Input, scale: real)
    requires Sized(in_) && Fits(in_, scale)
    ensures FramesKept(in_, scale) == Desired(in_)
  {
    hide BytesAt, Desired;
    var d, bytes, budget := Desired(in_) as real, BytesAt(in_, scale), in_.budgetBytes as real;
    QuotientBack(budget, bytes);
    AtMost(d, budget / bytes, bytes);
  }

  lemma FramesGrow(in_: Input, rich: Input, ideal: real, ideal': real)
    requires Sized(in_) && Sized(rich) && Richer(in_, rich) && ideal <= ideal'
    ensures FramesKept(in_, Scale(in_, ideal)) <= FramesKept(rich, Scale(rich, ideal'))
  {
    hide BytesAt, Desired, OutputCapScale, FloorScale, WalkDown, FloorRows, TargetRows, RowScale, Fits, FramesKept;
    var scale' := Scale(rich, ideal');
    SameCap(in_, rich);
    SameFloor(in_, rich);
    TargetGrows(in_, rich, ideal, ideal');
    if Fits(rich, scale') {
      FittingKeepsAll(rich, scale');
      assert FramesKept(in_, Scale(in_, ideal)) <= Desired(in_);
    } else {
      if Fits(in_, OutputCapScale(in_)) {
        FitsStill(in_, rich, OutputCapScale(in_));
      }
      TargetBounds(in_, ideal);
      WalkGrows(in_, rich, TargetRows(in_, ideal), TargetRows(rich, ideal'));
      WalkFits(in_, TargetRows(in_, ideal));
      WalkFits(rich, TargetRows(rich, ideal'));
      assert Scale(in_, ideal) == FloorScale(in_) == scale';
      KeptGrow(in_, rich, scale');
    }
  }

  lemma WalkFits(in_: Input, rows: int)
    requires Sized(in_) && rows >= FloorRows(in_)
    ensures var r := WalkDown(in_, rows); FloorRows(in_) <= r && (r > FloorRows(in_) ==> Fits(in_, RowScale(in_, r)))
  {
  }

  lemma KeptGrow(in_: Input, rich: Input, scale: real)
    requires Sized(in_) && Sized(rich) && Richer(in_, rich)
    ensures FramesKept(in_, scale) <= FramesKept(rich, scale)
  {
    SameBytes(in_, rich, scale);
    SameCap(in_, rich);
    hide BytesAt, Desired;
    var fit, fit' := in_.budgetBytes as real / BytesAt(in_, scale), rich.budgetBytes as real / BytesAt(rich, scale);
    QuotientGrows(in_.budgetBytes as real, rich.budgetBytes as real, BytesAt(in_, scale));
    FloorGrows(fit, fit');
  }

  /** A larger budget never costs a row, a column or a frame. */
  lemma BudgetNeverHurts(in_: Input, rich: Input, ideal: real, ideal': real)
    requires Sized(in_) && Richer(in_, rich) && IsIdeal(in_, ideal) && IsIdeal(rich, ideal')
    ensures var r, r' := Computed(in_, ideal), Computed(rich, ideal');
            r.bufferWidth <= r'.bufferWidth && r.bufferHeight <= r'.bufferHeight && r.actualFrames <= r'.actualFrames
  {
    hide Scale, FramesKept, BytesAt, Desired, OutputCapScale, EvenDim, AlignedWidth;
    IdealGrows(in_, rich, ideal, ideal');
    ScaleGrows(in_, rich, ideal, ideal');
    DimensionsGrow(in_.sourceWidth, Scale(in_, ideal), Scale(rich, ideal'));
    DimensionsGrow(in_.sourceHeight, Scale(in_, ideal), Scale(rich, ideal'));
    FramesGrow(in_, rich, ideal, ideal');
  }

  /** What every result keeps to. */
  lemma ComputedBounds(in_: Input, ideal: real)
    requires Sized(in_)
    ensures var r := Computed(in_, ideal);
            && FloorScale(in_) <= r.scale <= r.capScale <= 1.0
            && r.bufferWidth % 8 == 0 && r.bufferHeight % 2 == 0 && 1 <= r.actualFrames <= r.desiredFrames
            && (r.actualFrames as real * BytesAt(in_, r.scale) <= in_.budgetBytes as real || r.actualFrames == 1)
            && r.effectiveDelaySeconds <= in_.delaySeconds
            && r.effectiveDelaySeconds * in_.fpsNum <= (r.actualFrames - 1) * in_.fpsDen
  {
    hide Scale, FramesKept, BytesAt, Desired, EvenDim, AlignedWidth, EffectiveDelay, FloorScale, OutputCapScale;
    ScaleWithin(in_, ideal);
    KeptFit(in_, Scale(in_, ideal));
    DelayIsSpanned(in_, FramesKept(in_, Scale(in_, ideal)));
  }
}
