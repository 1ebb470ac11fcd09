/** The curve smoother (`smooth_reward_curve`): it picks a resolution and an
    odd Savitzky-Golay window, falls back to the raw data when the filter is
    undefined, and otherwise resamples the rewards over a cumulative time
    axis. The two numeric library calls (linear interpolation and the
    filter) are abstract: all that is assumed of them is their output length. */
module Smoothing {
  import opened Wrappers
  import opened Evaluations

  /** The default `resolution` and `polyorder` arguments. */
  const DEFAULT_RESOLUTION: nat := 1000
  const DEFAULT_POLYORDER: nat := 3

  /** `np.interp(xs, xp, fp)`: one interpolated value per query point. */
  type Interpolator = f: (seq<real>, seq<real>, seq<real>) -> seq<real>
    | forall xs, xp, fp :: |f(xs, xp, fp)| == |xs|
    witness (xs: seq<real>, xp: seq<real>, fp: seq<real>) => xs

  /** `signal.savgol_filter(y, window, polyorder)`: one filtered value per sample. */
  type SavgolFilter = f: (seq<real>, nat, nat) -> seq<real>
    | forall y, window, polyorder :: |f(y, window, polyorder)| == |y|
    witness (y: seq<real>, window: nat, polyorder: nat) => y

  /** The result of smoothing: the original pair untouched on the fallback
      path, or a resampled, filtered curve. */
  datatype Curve =
    | Unsmoothed(lengths: seq<nat>, rewards: seq<real>)
    | Smoothed(xs: seq<real>, ys: seq<real>)

  /** The errors the library calls raise: interpolation over an empty or
      mismatched sample set, or a filter window wider than the curve. */
  datatype SmoothError = InterpolationError | FilterError

  /** Never resample to more points than there are rewards. */
  function EffectiveResolution(numRewards: nat, requested: nat): (r: nat)
    ensures r <= numRewards && r <= requested
    ensures r == numRewards || r == requested
  {
    if numRewards <= requested then numRewards else requested
  }

  /** A window of about a tenth of the resolution: the least odd number that
      is at least `resolution / 10`. */
  function Window(resolution: nat): (w: nat)
    ensures w % 2 == 1
    ensures resolution / 10 <= w <= resolution / 10 + 1
    ensures resolution >= 1 ==> w <= resolution
  {
    var base := resolution / 10;
    if base % 2 == 0 then base + 1 else base
  }

  /** The running sum of the lengths, offset by `acc`. */
  function RunningSum(acc: real, lengths: seq<nat>): (x: seq<real>)
    ensures |x| == |lengths|
    decreases lengths
  {
    if lengths == [] then []
    else
      var next := acc + lengths[0] as real;
      [next] + RunningSum(next, lengths[1..])
  }

  /** `np.cumsum` of the episode lengths: the time step at which each episode ends. */
  function CumSum(lengths: seq<nat>): (x: seq<real>)
    ensures |x| == |lengths|
  {
    RunningSum(0.0, lengths)
  }

  /** `np.linspace(start, stop, num)`: `num` evenly spaced points, the last
      one set to `stop` exactly. */
  function Linspace(start: real, stop: real, num: nat): (r: seq<real>)
    ensures |r| == num
    ensures num >= 1 ==> r[0] == start
    ensures num >= 2 ==> r[num - 1] == stop
  {
    var step := if num > 1 then (stop - start) / ((num - 1) as real) else 0.0;
    seq(num, i requires 0 <= i < num =>
      if num > 1 && i == num - 1 then stop else start + (i as real) * step)
  }

  function SmoothRewardCurve(rewards: seq<real>, lengths: seq<nat>, maxTimestep: real,
                             requested: nat, polyorder: nat,
                             interp: Interpolator, savgol: SavgolFilter): (r: Result<Curve, SmoothError>)
    ensures var window := Window(EffectiveResolution(|rewards|, requested));
      polyorder >= window ==> r == Success(Unsmoothed(lengths, rewards))
    ensures var window := Window(EffectiveResolution(|rewards|, requested));
      polyorder < window ==>
        (r.Success? <==> |lengths| == |rewards| && 0 < |rewards| && 0 < requested)
        && (r.Success? ==> r.value.Smoothed?)
        && (r == Failure(InterpolationError) <==> !(|lengths| == |rewards| && 0 < |rewards|))
        && (r == Failure(FilterError) <==> |lengths| == |rewards| && 0 < |rewards| && requested == 0)
    ensures r.Success? && r.value.Smoothed? ==>
      var resolution := EffectiveResolution(|rewards|, requested);
      |r.value.xs| == resolution && |r.value.ys| == resolution
      && r.value.xs == Linspace(0.0, maxTimestep, resolution)
      && r.value.ys == savgol(interp(r.value.xs, CumSum(lengths), rewards), Window(resolution), polyorder)
  {
    var resolution := EffectiveResolution(|rewards|, requested);
    var window := Window(resolution);
    if polyorder >= window then
      Success(Unsmoothed(lengths, rewards))
    else
      var x := CumSum(lengths);
      var y := rewards;
      if |x| == 0 || |x| != |y| then
        Failure(InterpolationError)
      else
        var xSpaced := Linspace(0.0, maxTimestep, resolution);
        var yInterpolated := interp(xSpaced, x, y);
        if window > |yInterpolated| then
          Failure(FilterError)
        else
          Success(Smoothed(xSpaced, savgol(yInterpolated, window, polyorder)))
  }

  // ---------------------------------------------------------------------
  // Properties

  /** The window is `resolution / 10` when that is odd and one more otherwise. */
  lemma WindowCases(resolution: nat)
    ensures (resolution / 10) % 2 == 1 ==> Window(resolution) == resolution / 10
    ensures (resolution / 10) % 2 == 0 ==> Window(resolution) == resolution / 10 + 1
  {
  }

  /** With the default resolution and polynomial order, the curve is
      returned unsmoothed exactly when there are fewer than 40 rewards. */
  lemma DefaultsFallBackBelowForty(numRewards: nat)
    ensures DEFAULT_POLYORDER >= Window(EffectiveResolution(numRewards, DEFAULT_RESOLUTION)) <==> numRewards < 40
  {
    var resolution := EffectiveResolution(numRewards, DEFAULT_RESOLUTION);
    if numRewards < 40 {
      assert resolution / 10 <= 3;
    } else {
      assert resolution >= 40;
      assert resolution / 10 >= 4;
    }
  }

  lemma {:induction false} RunningSumAt(acc: real, lengths: seq<nat>, i: nat)
    requires i < |lengths|
    ensures RunningSum(acc, lengths)[i] == acc + TotalLength(lengths[..i + 1]) as real
    decreases lengths
  {
    var next := acc + lengths[0] as real;
    assert lengths[..i + 1][1..] == lengths[1..][..i];
    if i > 0 {
      RunningSumAt(next, lengths[1..], i - 1);
    }
  }

  /** Element `i` of the time axis is the total length of the first `i + 1` episodes. */
  lemma CumSumIsPrefixTotal(lengths: seq<nat>, i: nat)
    requires i < |lengths|
    ensures CumSum(lengths)[i] == TotalLength(lengths[..i + 1]) as real
  {
    RunningSumAt(0.0, lengths, i);
  }

  /** The time axis never goes backwards. */
  lemma CumSumNonDecreasing(lengths: seq<nat>)
    ensures forall i, j :: 0 <= i <= j < |lengths| ==> CumSum(lengths)[i] <= CumSum(lengths)[j]
  {
    forall i, j | 0 <= i <= j < |lengths|
      ensures CumSum(lengths)[i] <= CumSum(lengths)[j]
    {
      CumSumIsPrefixTotal(lengths, i);
      CumSumIsPrefixTotal(lengths, j);
      assert lengths[..j + 1] == lengths[..i + 1] + lengths[i + 1..j + 1];
      TotalLengthAppend(lengths[..i + 1], lengths[i + 1..j + 1]);
    }
  }

  /** The time axis ends at the total length of all episodes. */
  lemma CumSumLast(lengths: seq<nat>)
    requires |lengths| > 0
    ensures CumSum(lengths)[|lengths| - 1] == TotalLength(lengths) as real
  {
    CumSumIsPrefixTotal(lengths, |lengths| - 1);
    assert lengths[..|lengths|] == lengths;
  }

  /** Consecutive points of `Linspace` are one step apart. */
  lemma LinspaceEvenlySpaced(start: real, stop: real, num: nat, i: nat)
    requires 2 <= num && 0 < i < num
    ensures Linspace(start, stop, num)[i] - Linspace(start, stop, num)[i - 1]
            == (stop - start) / ((num - 1) as real)
  {
    var step := (stop - start) / ((num - 1) as real);
    assert step * ((num - 1) as real) == stop - start;
    assert (i as real) * step == ((i - 1) as real) * step + step;
  }

  /** `Linspace` rises from `start` to `stop` when `start <= stop`. */
  lemma LinspaceNonDecreasing(start: real, stop: real, num: nat)
    requires start <= stop
    ensures forall i, j :: 0 <= i <= j < num ==> Linspace(start, stop, num)[i] <= Linspace(start, stop, num)[j]
  {
    var r := Linspace(start, stop, num);
    if num >= 2 {
      var step := (stop - start) / ((num - 1) as real);
      assert step >= 0.0;
      assert step * ((num - 1) as real) == stop - start;
      forall i, j | 0 <= i <= j < num
        ensures r[i] <= r[j]
      {
        assert (i as real) * step <= (j as real) * step;
        assert (j as real) * step <= ((num - 1) as real) * step;
        assert r[i] == if i == num - 1 then stop else start + (i as real) * step;
        assert r[j] == if j == num - 1 then stop else start + (j as real) * step;
      }
    }
  }

  /** On the smoothing path the filter is called with a valid window: odd,
      wider than the polynomial order and no wider than the curve. */
  lemma SmoothFilterArguments(rewards: seq<real>, lengths: seq<nat>, requested: nat, polyorder: nat)
    requires polyorder < Window(EffectiveResolution(|rewards|, requested))
    requires |lengths| == |rewards| && 0 < |rewards| && 0 < requested
    ensures var window := Window(EffectiveResolution(|rewards|, requested));
      window % 2 == 1 && polyorder < window && window <= EffectiveResolution(|rewards|, requested)
  {
  }

  /** On the smoothing path the curve is smoothed, and its time axis starts
      at 0, ends at `maxTimestep` and, for a non-negative `maxTimestep`, is
      non-decreasing. */
  lemma SmoothedTimeAxis(rewards: seq<real>, lengths: seq<nat>, maxTimestep: real,
                         requested: nat, polyorder: nat,
                         interp: Interpolator, savgol: SavgolFilter)
    requires polyorder < Window(EffectiveResolution(|rewards|, requested))
    requires |lengths| == |rewards| && 0 < |rewards| && 0 < requested
    ensures SmoothRewardCurve(rewards, lengths, maxTimestep, requested, polyorder, interp, savgol).Success?
    ensures SmoothRewardCurve(rewards, lengths, maxTimestep, requested, polyorder, interp, savgol).value.Smoothed?
    ensures var xs := SmoothRewardCurve(rewards, lengths, maxTimestep, requested, polyorder, interp, savgol).value.xs;
      |xs| >= 1 && xs[0] == 0.0
      && (|xs| >= 2 ==> xs[|xs| - 1] == maxTimestep)
      && (maxTimestep >= 0.0 ==> forall i, j :: 0 <= i <= j < |xs| ==> xs[i] <= xs[j])
  {
    var resolution := EffectiveResolution(|rewards|, requested);
    if maxTimestep >= 0.0 {
      LinspaceNonDecreasing(0.0, maxTimestep, resolution);
    }
  }

}
