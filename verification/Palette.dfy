/**
 The derivation of a palette in `colors.py`. Contrast follows success criterion 1.4.3 of WCAG 2.1,
 with real numbers; how a channel becomes light is a parameter.
 */
module Palette {
  import opened Wrappers

  type Channel = c: int | 0 <= c <= 255

  datatype Rgb = Rgb(red: Channel, green: Channel, blue: Channel)

  const BLACK := Rgb(0, 0, 0)
  const WHITE := Rgb(255, 255, 255)

  const MIN_CONTRAST := 4.5
  const PREFERRED_CONTRAST := 7.0
  const MAX_DARK_PICK_CONTRAST := 17.35
  const STEPS: nat := 20
  const SIMILARITY := 60

  /** The light of a channel value, from none to full. */
  type Curve = Channel -> real

  ghost predicate IsCurve(curve: Curve) {
    curve(0) == 0.0 && curve(255) == 1.0 && forall c: Channel :: 0.0 <= curve(c) <= 1.0
  }

  function Luminance(curve: Curve, color: Rgb): real {
    0.2126 * curve(color.red) + 0.7152 * curve(color.green) + 0.0722 * curve(color.blue)
  }

  function Contrast(curve: Curve, a: Rgb, b: Rgb): real
    requires IsCurve(curve)
  {
    var la, lb := Luminance(curve, a), Luminance(curve, b);
    if la >= lb then (la + 0.05) / (lb + 0.05) else (lb + 0.05) / (la + 0.05)
  }

  lemma RatioBounds(a: real, b: real)
    requires 0.05 <= b <= a <= 1.05
    ensures 1.0 <= a / b <= 21.0
  {
    var q := a / b;
    assert q * b == a;
    assert q < 1.0 ==> (1.0 - q) * b > 0.0;
    assert q > 21.0 ==> (q - 21.0) * b > 0.0;
  }

  lemma ContrastBounds(curve: Curve, a: Rgb, b: Rgb)
    requires IsCurve(curve)
    ensures Contrast(curve, a, b) == Contrast(curve, b, a)
    ensures 1.0 <= Contrast(curve, a, b) <= 21.0
  {
    var la, lb := Luminance(curve, a), Luminance(curve, b);
    assert 0.0 <= la <= 1.0 && 0.0 <= lb <= 1.0;
    if la >= lb { RatioBounds(la + 0.05, lb + 0.05); } else { RatioBounds(lb + 0.05, la + 0.05); }
  }

  /** The lighter over the darker one, each with the light of the surroundings. */
  lemma ContrastMeaning(curve: Curve, a: Rgb, b: Rgb)
    requires IsCurve(curve) && Luminance(curve, b) <= Luminance(curve, a)
    ensures Contrast(curve, a, b) == (Luminance(curve, a) + 0.05) / (Luminance(curve, b) + 0.05)
    ensures Contrast(curve, b, a) == Contrast(curve, a, b)
  {
  }

  /** Each channel has its own share of the light, and the shares add up. */
  lemma LuminanceMeaning(curve: Curve, color: Rgb)
    requires IsCurve(curve)
    ensures Luminance(curve, Rgb(255, 0, 0)) == 0.2126
    ensures Luminance(curve, Rgb(0, 255, 0)) == 0.7152
    ensures Luminance(curve, Rgb(0, 0, 255)) == 0.0722
    ensures Luminance(curve, color) ==
            Luminance(curve, Rgb(color.red, 0, 0)) + Luminance(curve, Rgb(0, color.green, 0))
            + Luminance(curve, Rgb(0, 0, color.blue))
    ensures forall c: Channel :: Luminance(curve, Rgb(c, c, c)) == curve(c)
  {
  }

  lemma BlackOnWhite(curve: Curve)
    requires IsCurve(curve)
    ensures Contrast(curve, BLACK, WHITE) == 21.0 == Contrast(curve, WHITE, BLACK)
  {
  }

  // ----- blending

  /** To the nearest integer, ties to the even one. */
  function Round(x: real): (n: int)
    ensures -0.5 <= n as real - x <= 0.5
  {
    var low := x.Floor;
    var rest := x - low as real;
    if rest < 0.5 || (rest == 0.5 && low % 2 == 0) then low else low + 1
  }

  function Portion(d: real, factor: real): real {
    d * factor
  }

  lemma Between(d: real, factor: real)
    requires 0.0 <= factor <= 1.0
    ensures d >= 0.0 ==> 0.0 <= Portion(d, factor) <= d
    ensures d <= 0.0 ==> d <= Portion(d, factor) <= 0.0
  {
    if d >= 0.0 {
      assert d * (1.0 - factor) >= 0.0;
    } else {
      assert d * (1.0 - factor) <= 0.0;
    }
  }

  lemma RoundBetween(x: real, low: int, high: int)
    requires low as real <= x <= high as real
    ensures low <= Round(x) <= high
  {
  }

  function Blend(a: real, b: real, factor: real): real {
    a + Portion(b - a, factor)
  }

  lemma BlendBetween(a: real, b: real, factor: real)
    requires 0.0 <= factor <= 1.0
    ensures a <= b ==> a <= Blend(a, b, factor) <= b
    ensures b <= a ==> b <= Blend(a, b, factor) <= a
  {
    hide Portion;
    Between(b - a, factor);
  }

  lemma MixChannelBetween(from: int, to: int, factor: real)
    requires 0.0 <= factor <= 1.0
    ensures
      var c := Round(Blend(from as real, to as real, factor));
      from <= c <= to || to <= c <= from
  {
    hide Blend, Round;
    var x := Blend(from as real, to as real, factor);
    BlendBetween(from as real, to as real, factor);
    if from <= to { RoundBetween(x, from, to); } else { RoundBetween(x, to, from); }
  }

  function MixChannel(from: Channel, to: Channel, factor: real): (c: Channel)
    requires 0.0 <= factor <= 1.0
    ensures from <= c <= to || to <= c <= from
  {
    MixChannelBetween(from, to, factor);
    Round(Blend(from as real, to as real, factor))
  }

  lemma MixChannelEnds(from: Channel, to: Channel)
    ensures MixChannel(from, to, 0.0) == from && MixChannel(from, to, 1.0) == to
  {
  }

  function Mix(color: Rgb, target: Rgb, factor: real): Rgb
    requires 0.0 <= factor <= 1.0
  {
    Rgb(MixChannel(color.red, target.red, factor),
        MixChannel(color.green, target.green, factor),
        MixChannel(color.blue, target.blue, factor))
  }

  /** The color after `step` of the steps towards the target. */
  function MixStep(color: Rgb, target: Rgb, step: nat): Rgb
    requires step <= STEPS
  {
    Mix(color, target, step as real / STEPS as real)
  }

  /** Each channel goes one twentieth of its way at every step, to the nearest integer, ties to the even one. */
  lemma MixStepMeaning(color: Rgb, target: Rgb, step: nat)
    requires step <= 20
    ensures IsNearest(MixStep(color, target, step).red, color.red, target.red, step)
    ensures IsNearest(MixStep(color, target, step).green, color.green, target.green, step)
    ensures IsNearest(MixStep(color, target, step).blue, color.blue, target.blue, step)
  {
    hide Round;
    ChannelIsNearest(color.red, target.red, step);
    ChannelIsNearest(color.green, target.green, step);
    ChannelIsNearest(color.blue, target.blue, step);
  }

  /** `c` is closest to the exact blend, in fortieths at most twenty away, and even where that leaves a choice. */
  predicate IsNearest(c: int, from: int, to: int, step: nat) {
    var off := 40 * (c - from) - 2 * step * (to - from);
    -20 <= off <= 20 && (off == 20 || off == -20 ==> c % 2 == 0)
  }

  lemma RoundIsNearest(x: real)
    ensures -0.5 <= Round(x) as real - x <= 0.5
    ensures Round(x) as real - x == 0.5 || Round(x) as real - x == -0.5 ==> Round(x) % 2 == 0
  {
  }

  lemma ProductOfCasts(a: int, b: int)
    ensures a as real * b as real == (a * b) as real
  {
  }

  lemma PortionInTwentieths(way: int, step: nat)
    ensures Portion(way as real, step as real / 20.0) == (way * step) as real / 20.0
  {
    ProductOfCasts(way, step);
    var d, s := way as real, step as real;
    assert d * (s / 20.0) == d * s / 20.0;
  }

  /** From twentieths to fortieths, so that the tie is a whole number. */
  lemma InFortieths(c: int, from: int, n: int, x: real)
    requires x == from as real + n as real / 20.0 && -0.5 <= c as real - x <= 0.5
    ensures -20 <= 40 * (c - from) - 2 * n <= 20
    ensures 40 * (c - from) - 2 * n == 20 ==> c as real - x == 0.5
    ensures 40 * (c - from) - 2 * n == -20 ==> c as real - x == -0.5
  {
    assert 40.0 * (c as real - x) == (40 * (c - from) - 2 * n) as real;
  }

  lemma ChannelIsNearest(from: Channel, to: Channel, step: nat)
    requires step <= 20
    ensures IsNearest(MixChannel(from, to, step as real / 20.0), from, to, step)
  {
    hide Round, Portion;
    var n := (to - from) * step;
    var x := Blend(from as real, to as real, step as real / 20.0);
    PortionInTwentieths(to - from, step);
    RoundIsNearest(x);
    InFortieths(Round(x), from, n, x);
    SameProduct(step, to - from);
  }

  lemma SameProduct(step: int, way: int)
    ensures 2 * step * way == 2 * (way * step)
  {
  }

  lemma MixEnds(color: Rgb, target: Rgb)
    ensures MixStep(color, target, 0) == color
    ensures MixStep(color, target, STEPS) == target
  {
    assert 0.0 / STEPS as real == 0.0 && STEPS as real / STEPS as real == 1.0;
    MixChannelEnds(color.red, target.red);
    MixChannelEnds(color.green, target.green);
    MixChannelEnds(color.blue, target.blue);
    hide MixChannel;
  }

  // ----- adjusting until the contrast suffices

  predicate Clears(curve: Curve, color: Rgb, refs: seq<Rgb>, min: real)
    requires IsCurve(curve)
  {
    forall i | 0 <= i < |refs| :: Contrast(curve, color, refs[i]) >= min
  }

  /** The first step that clears, if any. */
  ghost predicate IsFirstClear(curve: Curve, color: Rgb, toward: Rgb, refs: seq<Rgb>, min: real, r: Option<Rgb>)
    requires IsCurve(curve)
  {
    match r
    case None =>
      forall s: nat | s <= 20 :: !Clears(curve, MixStep(color, toward, s), refs, min)
    case Some(c) =>
      exists step: nat | step <= 20 ::
        && c == MixStep(color, toward, step) && Clears(curve, c, refs, min)
        && forall s: nat | s < step :: !Clears(curve, MixStep(color, toward, s), refs, min)
  }

  method AdjustUntilContrast(curve: Curve, color: Rgb, toward: Rgb, refs: seq<Rgb>, min: real)
    returns (r: Option<Rgb>)
    requires IsCurve(curve)
    ensures IsFirstClear(curve, color, toward, refs, min, r)
  {
    hide MixStep, Clears;
    for step := 0 to STEPS + 1
      invariant forall s: nat | s < step :: !Clears(curve, MixStep(color, toward, s), refs, min)
    {
      var candidate := MixStep(color, toward, step);
      if Clears(curve, candidate, refs, min) {
        return Some(candidate);
      }
    }
    return None;
  }

  /** Blending all the way succeeds if the target itself clears. */
  lemma ClearingTargetIsReached(curve: Curve, color: Rgb, toward: Rgb, refs: seq<Rgb>, min: real, r: Option<Rgb>)
    requires IsCurve(curve) && Clears(curve, toward, refs, min)
    requires IsFirstClear(curve, color, toward, refs, min, r)
    ensures r.Some? && Clears(curve, r.value, refs, min)
    ensures Clears(curve, color, refs, min) ==> r.value == color
  {
    MixEnds(color, toward);
    hide MixStep, Clears;
    assert MixStep(color, toward, STEPS) == toward;
  }

  /** At the preferred contrast if some step has it. */
  ghost predicate IsPreferredClear(curve: Curve, color: Rgb, toward: Rgb, refs: seq<Rgb>, r: Option<Rgb>)
    requires IsCurve(curve)
  {
    || (r.Some? && IsFirstClear(curve, color, toward, refs, 7.0, r))
    || (IsFirstClear(curve, color, toward, refs, 7.0, None) && IsFirstClear(curve, color, toward, refs, 4.5, r))
  }

  method AdjustWithFallback(curve: Curve, color: Rgb, toward: Rgb, refs: seq<Rgb>) returns (r: Option<Rgb>)
    requires IsCurve(curve)
    ensures IsPreferredClear(curve, color, toward, refs, r)
  {
    hide IsFirstClear;
    r := AdjustUntilContrast(curve, color, toward, refs, PREFERRED_CONTRAST);
    if r.None? {
      r := AdjustUntilContrast(curve, color, toward, refs, MIN_CONTRAST);
    }
  }

  lemma PreferredClears(curve: Curve, color: Rgb, toward: Rgb, refs: seq<Rgb>, r: Option<Rgb>)
    requires IsCurve(curve) && Clears(curve, toward, refs, MIN_CONTRAST)
    requires IsPreferredClear(curve, color, toward, refs, r)
    ensures r.Some? && Clears(curve, r.value, refs, MIN_CONTRAST)
  {
    hide MixStep;
    if IsFirstClear(curve, color, toward, refs, MIN_CONTRAST, r) {
      ClearingTargetIsReached(curve, color, toward, refs, MIN_CONTRAST, r);
    }
  }

  // ----- picking a color of the image

  predicate InRange(ratio: real, min: real, max: Option<real>) {
    min <= ratio && (max.Some? ==> ratio <= max.value)
  }

  predicate Qualifies(curve: Curve, color: Rgb, target: Rgb, min: real, max: Option<real>)
    requires IsCurve(curve)
  {
    InRange(Contrast(curve, color, target), min, max)
  }

  /** Candidate `k` is the first of those with the highest contrast in the range. */
  predicate IsBest(curve: Curve, candidates: seq<Rgb>, target: Rgb, min: real, max: Option<real>, k: nat)
    requires IsCurve(curve)
  {
    && k < |candidates| && Qualifies(curve, candidates[k], target, min, max)
    && forall i | 0 <= i < |candidates| && Qualifies(curve, candidates[i], target, min, max) ::
         var mine, theirs := Contrast(curve, candidates[k], target), Contrast(curve, candidates[i], target);
         if i < k then theirs < mine else theirs <= mine
  }

  ghost predicate IsPick(curve: Curve, candidates: seq<Rgb>, target: Rgb, min: real, max: Option<real>, r: Option<Rgb>)
    requires IsCurve(curve)
  {
    match r
    case None => forall i | 0 <= i < |candidates| :: !Qualifies(curve, candidates[i], target, min, max)
    case Some(c) => exists k: nat :: IsBest(curve, candidates, target, min, max, k) && candidates[k] == c
  }

  /** Candidate `k` is the best of the first `n`. */
  predicate IsBestOf(curve: Curve, candidates: seq<Rgb>, n: nat, target: Rgb, min: real, max: Option<real>, k: nat)
    requires IsCurve(curve) && n <= |candidates|
  {
    IsBest(curve, candidates[..n], target, min, max, k)
  }

  lemma NewBest(curve: Curve, candidates: seq<Rgb>, n: nat, target: Rgb, min: real, max: Option<real>)
    requires IsCurve(curve) && n < |candidates| && Qualifies(curve, candidates[n], target, min, max)
    requires forall i | 0 <= i < n && Qualifies(curve, candidates[i], target, min, max) ::
               Contrast(curve, candidates[i], target) < Contrast(curve, candidates[n], target)
    ensures IsBestOf(curve, candidates, n + 1, target, min, max, n)
  {
    hide Contrast, Qualifies;
    assert forall j | 0 <= j < n + 1 :: candidates[..n + 1][j] == candidates[j];
  }

  lemma SameBest(curve: Curve, candidates: seq<Rgb>, n: nat, target: Rgb, min: real, max: Option<real>, k: nat)
    requires IsCurve(curve) && n < |candidates| && IsBestOf(curve, candidates, n, target, min, max, k)
    requires Qualifies(curve, candidates[n], target, min, max) ==>
               Contrast(curve, candidates[n], target) <= Contrast(curve, candidates[k], target)
    ensures IsBestOf(curve, candidates, n + 1, target, min, max, k)
  {
    hide Contrast, Qualifies;
    assert forall j | 0 <= j < n :: candidates[..n + 1][j] == candidates[..n][j] == candidates[j];
  }

  lemma BestIsHighest(curve: Curve, candidates: seq<Rgb>, n: nat, target: Rgb, min: real, max: Option<real>, k: nat)
    requires IsCurve(curve) && n <= |candidates| && IsBestOf(curve, candidates, n, target, min, max, k)
    ensures k < n && forall i | 0 <= i < n && Qualifies(curve, candidates[i], target, min, max) ::
              Contrast(curve, candidates[i], target) <= Contrast(curve, candidates[k], target)
  {
    hide Contrast, Qualifies;
    assert forall j | 0 <= j < n :: candidates[..n][j] == candidates[j];
  }

  method PickOnColor(curve: Curve, candidates: seq<Rgb>, target: Rgb, min: real, max: Option<real>)
    returns (best: Option<Rgb>)
    requires IsCurve(curve)
    ensures IsPick(curve, candidates, target, min, max, best)
  {
    hide Contrast, InRange, IsBest, IsBestOf;
    best := None;
    var bestRatio := 0.0;
    ghost var k: nat := 0;
    for i := 0 to |candidates|
      invariant best.None? ==> forall j | 0 <= j < i :: !Qualifies(curve, candidates[j], target, min, max)
      invariant best.None? ==> bestRatio == 0.0
      invariant best.Some? ==>
        && k < i && best.value == candidates[k] && bestRatio == Contrast(curve, candidates[k], target)
        && IsBestOf(curve, candidates, i, target, min, max, k)
    {
      var ratio := Contrast(curve, candidates[i], target);
      ContrastBounds(curve, candidates[i], target);
      if best.Some? { BestIsHighest(curve, candidates, i, target, min, max, k); }
      if InRange(ratio, min, max) && ratio > bestRatio {
        NewBest(curve, candidates, i, target, min, max);
        best, bestRatio := Some(candidates[i]), ratio;
        k := i;
      } else if best.Some? {
        SameBest(curve, candidates, i, target, min, max, k);
      }
    }
    if best.Some? { WholeBest(curve, candidates, target, min, max, k); }
  }

  lemma WholeBest(curve: Curve, candidates: seq<Rgb>, target: Rgb, min: real, max: Option<real>, k: nat)
    requires IsCurve(curve) && IsBestOf(curve, candidates, |candidates|, target, min, max, k)
    ensures IsBest(curve, candidates, target, min, max, k)
  {
    hide IsBest;
    assert candidates[..|candidates|] == candidates;
  }

  ghost predicate IsPreferredPick(curve: Curve, candidates: seq<Rgb>, target: Rgb, max: Option<real>, r: Option<Rgb>)
    requires IsCurve(curve)
  {
    || (r.Some? && IsPick(curve, candidates, target, 7.0, max, r))
    || (IsPick(curve, candidates, target, 7.0, max, None) && IsPick(curve, candidates, target, 4.5, max, r))
  }

  method PickOnColorWithFallback(curve: Curve, candidates: seq<Rgb>, target: Rgb, max: Option<real>)
    returns (r: Option<Rgb>)
    requires IsCurve(curve)
    ensures IsPreferredPick(curve, candidates, target, max, r)
  {
    hide IsPick;
    r := PickOnColor(curve, candidates, target, PREFERRED_CONTRAST, max);
    if r.None? {
      r := PickOnColor(curve, candidates, target, MIN_CONTRAST, max);
    }
  }

  lemma PickIsReadable(curve: Curve, candidates: seq<Rgb>, target: Rgb, max: Option<real>, r: Option<Rgb>)
    requires IsCurve(curve) && IsPreferredPick(curve, candidates, target, max, r)
    ensures r.Some? ==> r.value in candidates && Qualifies(curve, r.value, target, MIN_CONTRAST, max)
    ensures r.None? <==> forall i | 0 <= i < |candidates| :: !Qualifies(curve, candidates[i], target, MIN_CONTRAST, max)
  {
    hide Contrast;
  }

  function DistanceSquared(a: Rgb, b: Rgb): int {
    var red, green, blue := a.red - b.red, a.green - b.green, a.blue - b.blue;
    red * red + green * green + blue * blue
  }

  predicate IsDistant(color: Rgb, primary: Rgb) {
    var (red, green, blue) := (color.red - primary.red, color.green - primary.green, color.blue - primary.blue);
    color != primary && red * red + green * green + blue * blue >= 60 * 60
  }

  ghost predicate IsAccent(primary: Rgb, candidates: seq<Rgb>, r: Option<Rgb>) {
    match r
    case None => forall i | 0 <= i < |candidates| :: !IsDistant(candidates[i], primary)
    case Some(c) =>
      exists k | 0 <= k < |candidates| ::
        && candidates[k] == c && IsDistant(candidates[k], primary)
        && forall i | 0 <= i < k :: !IsDistant(candidates[i], primary)
  }

  method PickAccent(primary: Rgb, candidates: seq<Rgb>) returns (r: Option<Rgb>)
    ensures IsAccent(primary, candidates, r)
  {
    for i := 0 to |candidates|
      invariant forall j | 0 <= j < i :: !IsDistant(candidates[j], primary)
    {
      if candidates[i] == primary {
        continue;
      }
      if DistanceSquared(candidates[i], primary) >= SIMILARITY * SIMILARITY {
        assert IsDistant(candidates[i], primary);
        return Some(candidates[i]);
      }
    }
    return None;
  }

  // ----- the palette

  datatype Palette = Palette(
    backgroundDark: Option<Rgb>,
    backgroundLight: Option<Rgb>,
    primary: Option<Rgb>,
    accent: Option<Rgb>,
    onDark: Option<Rgb>,
    onLight: Option<Rgb>
  )

  const EMPTY := Palette(None, None, None, None, None, None)

  /** Text of the second color can be read on the first. */
  predicate Readable(curve: Curve, a: Rgb, b: Rgb)
    requires IsCurve(curve)
  {
    Contrast(curve, a, b) >= 4.5
  }

  /** Both backgrounds and both text colors are there, and every pair they are made for is readable. */
  predicate AllReadable(curve: Curve, p: Palette)
    requires IsCurve(curve)
  {
    && p.backgroundDark.Some? && p.backgroundLight.Some? && p.onDark.Some? && p.onLight.Some?
    && Readable(curve, p.backgroundDark.value, WHITE)
    && Readable(curve, p.backgroundDark.value, p.onDark.value)
    && Readable(curve, p.backgroundLight.value, BLACK)
    && Readable(curve, p.backgroundLight.value, p.onLight.value)
    && Readable(curve, p.onDark.value, BLACK)
    && Readable(curve, p.onLight.value, WHITE)
  }

  /** A color of the image if one can be read on the ground, the primary blended away from it if not. */
  ghost predicate IsOnColor(curve: Curve, candidates: seq<Rgb>, ground: Rgb, away: Rgb, max: Option<real>, c: Rgb)
    requires IsCurve(curve) && candidates != []
  {
    || IsPreferredPick(curve, candidates, ground, max, Some(c))
    || (IsPreferredPick(curve, candidates, ground, max, None)
        && IsFirstClear(curve, candidates[0], away, [ground], 4.5, Some(c)))
  }

  /** Blending away from the ground always gives a color to read on it. */
  lemma OnColorIsReadable(curve: Curve, candidates: seq<Rgb>, ground: Rgb, away: Rgb, max: Option<real>,
                          picked: Option<Rgb>, r: Option<Rgb>)
    requires IsCurve(curve) && candidates != [] && Readable(curve, away, ground)
    requires IsPreferredPick(curve, candidates, ground, max, picked)
    requires if picked.Some? then r == picked else IsFirstClear(curve, candidates[0], away, [ground], MIN_CONTRAST, r)
    ensures r.Some? && IsOnColor(curve, candidates, ground, away, max, r.value)
    ensures Readable(curve, r.value, ground)
  {
    hide Contrast, IsFirstClear, IsPreferredPick;
    if picked.Some? {
      PickIsReadable(curve, candidates, ground, max, picked);
    } else {
      ClearingTargetIsReached(curve, candidates[0], away, [ground], MIN_CONTRAST, r);
      assert Contrast(curve, r.value, [ground][0]) >= MIN_CONTRAST;
    }
  }

  /** So does blending the background towards the ground both its texts can be read on. */
  lemma BackgroundIsReadable(curve: Curve, primary: Rgb, ground: Rgb, text: Rgb, on: Rgb, r: Option<Rgb>)
    requires IsCurve(curve) && Readable(curve, ground, text) && Readable(curve, on, ground)
    requires IsPreferredClear(curve, primary, ground, [text, on], r)
    ensures r.Some? && Readable(curve, r.value, text) && Readable(curve, r.value, on)
  {
    ContrastBounds(curve, on, ground);
    hide Contrast, IsPreferredClear;
    PreferredClears(curve, primary, ground, [text, on], r);
    assert Contrast(curve, r.value, [text, on][0]) >= MIN_CONTRAST;
    assert Contrast(curve, r.value, [text, on][1]) >= MIN_CONTRAST;
  }

  method DerivePalette(curve: Curve, candidates: seq<Rgb>) returns (p: Palette)
    requires IsCurve(curve)
    ensures candidates == [] ==> p == EMPTY
    ensures candidates != [] ==>
      && AllReadable(curve, p)
      && p.primary == Some(candidates[0]) && IsAccent(candidates[0], candidates, p.accent)
      && IsOnColor(curve, candidates, BLACK, WHITE, None, p.onDark.value)
      && IsOnColor(curve, candidates, WHITE, BLACK, Some(17.35), p.onLight.value)
      && IsPreferredClear(curve, candidates[0], BLACK, [WHITE, p.onDark.value], p.backgroundDark)
      && IsPreferredClear(curve, candidates[0], WHITE, [BLACK, p.onLight.value], p.backgroundLight)
  {
    if candidates == [] {
      return EMPTY;
    }
    BlackOnWhite(curve);
    assert Readable(curve, BLACK, WHITE) && Readable(curve, WHITE, BLACK);
    hide IsFirstClear, IsPreferredPick, IsPreferredClear, IsOnColor, Contrast, Readable, IsAccent;
    var primary := candidates[0];
    var onDark := PickOnColorWithFallback(curve, candidates, BLACK, None);
    var onLight := PickOnColorWithFallback(curve, candidates, WHITE, Some(MAX_DARK_PICK_CONTRAST));
    ghost var pickedDark, pickedLight := onDark, onLight;
    if onDark.None? {
      onDark := AdjustUntilContrast(curve, primary, WHITE, [BLACK], MIN_CONTRAST);
    }
    if onLight.None? {
      onLight := AdjustUntilContrast(curve, primary, BLACK, [WHITE], MIN_CONTRAST);
    }
    OnColorIsReadable(curve, candidates, BLACK, WHITE, None, pickedDark, onDark);
    OnColorIsReadable(curve, candidates, WHITE, BLACK, Some(MAX_DARK_PICK_CONTRAST), pickedLight, onLight);
    var darkRefs := [WHITE];
    if onDark.Some? {
      darkRefs := [WHITE, onDark.value];
    }
    var backgroundDark := AdjustWithFallback(curve, primary, BLACK, darkRefs);
    var lightRefs := [BLACK];
    if onLight.Some? {
      lightRefs := [BLACK, onLight.value];
    }
    var backgroundLight := AdjustWithFallback(curve, primary, WHITE, lightRefs);
    BackgroundIsReadable(curve, primary, BLACK, WHITE, onDark.value, backgroundDark);
    BackgroundIsReadable(curve, primary, WHITE, BLACK, onLight.value, backgroundLight);
    var accent := PickAccent(primary, candidates);
    p := Palette(backgroundDark, backgroundLight, Some(primary), accent, onDark, onLight);
  }
}
