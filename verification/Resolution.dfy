/** Choice of a detailed history's resolution for a period and a number of points. */
module Resolution {
  import opened Basics

  type Seconds = s: int | s > 0 witness 1

  const RESOLUTIONS: seq<Seconds> := [60, 120, 300, 600, 900, 1800, 3600, 7200, 10800, 21600, 43200, 86400]
  const TARGET_MIN := 60
  const TARGET_MAX := 120
  const DETAILED_HISTORY_MAX: Time := 90 * 86_400 * SECOND

  /** The least integer no smaller than a / b. */
  function Ceil(a: int, b: int): (q: int)
    requires b > 0
    ensures (q - 1) * b < a <= q * b
  {
    -((-a) / b)
  }

  function BucketCount(span: Time, resolution: Seconds): int {
    var count := Ceil(span, resolution * SECOND);
    if count < 1 then 1 else count
  }

  predicate InTargetRange(count: int) { TARGET_MIN <= count <= TARGET_MAX }

  function Distance(a: int, b: int): int { if a < b then b - a else a - b }

  predicate Allowed(r: Seconds) { r in RESOLUTIONS }

  /** Candidates in the target range are preferred to all others. */
  ghost predicate IsCandidate(span: Time, r: Seconds) {
    && Allowed(r)
    && (InTargetRange(BucketCount(span, r)) || forall q: Seconds :: Allowed(q) ==> !InTargetRange(BucketCount(span, q)))
  }

  /** Closer to the target, or as close and finer. */
  predicate NoWorse(span: Time, target: int, r: Seconds, q: Seconds) {
    var here, there := Distance(BucketCount(span, r), target), Distance(BucketCount(span, q), target);
    here < there || (here == there && r <= q)
  }

  ghost predicate IsChoice(span: Time, target: int, r: Seconds) {
    IsCandidate(span, r) && forall q :: IsCandidate(span, q) ==> NoWorse(span, target, r, q)
  }

  method ChooseHistoryResolutionSeconds(periodFrom: Time, periodTo: Time, target: int) returns (resolution: Seconds)
    ensures IsChoice(periodTo - periodFrom, target, resolution)
  {
    var span := periodTo - periodFrom;
    var inRange := Fitting(span, RESOLUTIONS);
    var candidates := if inRange != [] then inRange else RESOLUTIONS;
    forall r: Seconds
      ensures IsCandidate(span, r) <==> r in candidates
    {
      CandidatesAre(span, inRange, r);
    }
    resolution := Best(span, target, candidates);
  }

  method Fitting(span: Time, resolutions: seq<Seconds>) returns (inRange: seq<Seconds>)
    ensures forall r: Seconds :: r in inRange <==> r in resolutions && InTargetRange(BucketCount(span, r))
  {
    inRange := [];
    for i := 0 to |resolutions|
      invariant forall r: Seconds :: r in inRange <==> r in resolutions[..i] && InTargetRange(BucketCount(span, r))
    {
      var r := resolutions[i];
      assert resolutions[..i + 1] == resolutions[..i] + [r];
      if InTargetRange(BucketCount(span, r)) { inRange := inRange + [r]; }
    }
    assert resolutions[..|resolutions|] == resolutions;
  }

  lemma CandidatesAre(span: Time, inRange: seq<Seconds>, r: Seconds)
    requires forall q: Seconds :: q in inRange <==> Allowed(q) && InTargetRange(BucketCount(span, q))
    ensures IsCandidate(span, r) <==> r in if inRange != [] then inRange else RESOLUTIONS
  {
    if inRange != [] {
      assert inRange[0] in inRange;
    }
  }

  method Best(span: Time, target: int, candidates: seq<Seconds>) returns (best: Seconds)
    requires candidates != []
    ensures best in candidates && forall q :: q in candidates ==> NoWorse(span, target, best, q)
  {
    best := candidates[0];
    for i := 1 to |candidates|
      invariant best in candidates
      invariant forall j :: 0 <= j < i ==> NoWorse(span, target, best, candidates[j])
    {
      if !NoWorse(span, target, best, candidates[i]) { best := candidates[i]; }
    }
  }

  /** Spans for which some resolution gives between 60 and 120 points, in seconds: two ranges. */
  predicate HasFittingResolution(span: Time) {
    3540 * SECOND < span <= 14_400 * SECOND || 17_700 * SECOND < span <= 120 * 86_400 * SECOND
  }

  /** A resolution fits exactly the spans longer than 59 of its buckets and no longer than 120. */
  lemma FitsExactly(span: Time, r: Seconds)
    ensures InTargetRange(BucketCount(span, r)) <==> 59 * (r * SECOND) < span <= 120 * (r * SECOND)
  {
    var b := r * SECOND;
    var c := Ceil(span, b);
    CountIsMonotone(59, c, span, b);
    CountIsMonotone(120, c, span, b);
  }

  lemma CountIsMonotone(n: int, c: int, span: int, b: int)
    requires b > 0 && (c - 1) * b < span <= c * b
    ensures n < c <==> n * b < span
  {
    if n < c {
      assert n * b <= (c - 1) * b;
    } else {
      assert c * b <= n * b;
    }
  }

  lemma FittingResolutionExists(span: Time)
    ensures (exists r: Seconds :: Allowed(r) && InTargetRange(BucketCount(span, r))) <==> HasFittingResolution(span)
  {
    forall i | 0 <= i < |RESOLUTIONS|
      ensures InTargetRange(BucketCount(span, RESOLUTIONS[i])) ==
              (59 * (RESOLUTIONS[i] * SECOND) < span <= 120 * (RESOLUTIONS[i] * SECOND))
    {
      FitsExactly(span, RESOLUTIONS[i]);
    }
    if HasFittingResolution(span) {
      var s := span / SECOND + if span % SECOND == 0 then 0 else 1;
      var i := if s <= 7200 then 0 else if s <= 14_400 then 1 else if s <= 36_000 then 2 else if s <= 72_000 then 3
               else if s <= 108_000 then 4 else if s <= 216_000 then 5
               else if s <= 432_000 then 6 else if s <= 864_000 then 7
               else if s <= 1_296_000 then 8 else if s <= 2_592_000 then 9 else if s <= 5_184_000 then 10 else 11;
      assert 59 * (RESOLUTIONS[i] * SECOND) < span <= 120 * (RESOLUTIONS[i] * SECOND);
      assert Allowed(RESOLUTIONS[i]);
    }
  }

  /** The choice gives 60 to 120 points exactly when the span allows it. */
  lemma ChoiceFitsIff(span: Time, target: int, r: Seconds)
    requires IsChoice(span, target, r)
    ensures InTargetRange(BucketCount(span, r)) <==> HasFittingResolution(span)
  {
    FittingResolutionExists(span);
  }

  lemma CountBounds(span: Time, r: Seconds, low: int, high: int)
    requires low >= 1 && low * (r * SECOND) < span <= high * (r * SECOND)
    ensures low < BucketCount(span, r) <= high
  {
    CountIsMonotone(low, Ceil(span, r * SECOND), span, r * SECOND);
    CountIsMonotone(high, Ceil(span, r * SECOND), span, r * SECOND);
  }

  /** Coarser resolutions never give more points. */
  lemma CoarserGivesFewer(span: Time, r: Seconds, q: Seconds)
    requires r <= q
    ensures BucketCount(span, q) <= BucketCount(span, r)
  {
    var c, d := Ceil(span, r * SECOND), Ceil(span, q * SECOND);
    if 1 <= c {
      assert c * (r * SECOND) <= c * (q * SECOND);
      CountIsMonotone(c, d, span, q * SECOND);
    } else {
      CountIsMonotone(0, c, span, r * SECOND);
      CountIsMonotone(0, d, span, q * SECOND);
    }
  }

  /** Up to 90 days, whatever the target allowed to callers, at most 148 points. */
  lemma NeverMoreThan148(span: Time, target: int, r: Seconds)
    requires span <= DETAILED_HISTORY_MAX && InTargetRange(target) && IsChoice(span, target, r)
    ensures BucketCount(span, r) <= 148
  {
    ChoiceFitsIff(span, target, r);
    FittingResolutionExists(span);
    if span <= 3540 * SECOND {
      CoarserGivesFewer(span, 60, r);
      if span > 60 * SECOND {
        CountBounds(span, 60, 1, 59);
      } else if span > 0 {
        CountIsMonotone(1, Ceil(span, 60 * SECOND), span, 60 * SECOND);
      }
    } else if !HasFittingResolution(span) {
      CountBounds(span, 60, 240, 295);
      CountBounds(span, 120, 120, 148);
      assert Allowed(60) && Allowed(120) && IsCandidate(span, 120);
      assert NoWorse(span, target, r, 120);
      if r != 60 { CoarserGivesFewer(span, 120, r); }
    }
  }

  /** 148 is reached: 17 700 seconds with 120 points asked for. */
  lemma OneHundredFortyEightIsReached(r: Seconds)
    requires IsChoice(17_700 * SECOND, 120, r)
    ensures r == 120 && BucketCount(17_700 * SECOND, r) == 148
  {
    var span := 17_700 * SECOND;
    FittingResolutionExists(span);
    assert Allowed(60) && Allowed(120) && Allowed(300) && IsCandidate(span, 120);
    CountBounds(span, 60, 294, 295);
    CountBounds(span, 120, 147, 148);
    CountBounds(span, 300, 58, 59);
    assert NoWorse(span, 120, r, 120);
    if r > 120 { CoarserGivesFewer(span, 300, r); }
  }
}
