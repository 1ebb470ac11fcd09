/** The score reducer: the discrete area under a (lengths, rewards) curve,
    its time-normalised mean, and the score of one evaluation under an
    external benchmark scorer, which reports several repetitions of which
    only the first is used. */
module Scoring {
  import opened Wrappers
  import opened Evaluations

  /** The floor on the divisor of the mean area. */
  const EPSILON: real := 0.0001

  /** Python's `zip`: pairs up the two sequences, stopping at the shorter one. */
  function Zip(lengths: seq<nat>, rewards: seq<real>): (z: seq<(nat, real)>)
    ensures |z| == if |lengths| <= |rewards| then |lengths| else |rewards|
    ensures forall i :: 0 <= i < |z| ==> z[i] == (lengths[i], rewards[i])
    decreases lengths
  {
    if lengths == [] || rewards == [] then []
    else [(lengths[0], rewards[0])] + Zip(lengths[1..], rewards[1..])
  }

  /** The sum of `l * r` over the pairs, starting from 0. */
  function SumOfProducts(pairs: seq<(nat, real)>): real
  {
    if pairs == [] then 0.0 else (pairs[0].0 as real) * pairs[0].1 + SumOfProducts(pairs[1..])
  }

  /** `area_under_curve`: each episode's reward weighted by its length. */
  function AreaUnderCurve(lengths: seq<nat>, rewards: seq<real>): real
  {
    SumOfProducts(Zip(lengths, rewards))
  }

  /** Reference definition: the sum of `lengths[i] * rewards[i]` for `i < n`. */
  function IndexedArea(lengths: seq<nat>, rewards: seq<real>, n: nat): real
    requires n <= |lengths| && n <= |rewards|
  {
    if n == 0 then 0.0
    else IndexedArea(lengths, rewards, n - 1) + (lengths[n - 1] as real) * rewards[n - 1]
  }

  /** The divisor `max(1e-4, sum(lengths))`. */
  function Divisor(lengths: seq<nat>): (d: real)
    ensures d >= EPSILON && d >= TotalLength(lengths) as real
    ensures d == EPSILON || d == TotalLength(lengths) as real
  {
    if EPSILON >= TotalLength(lengths) as real then EPSILON else TotalLength(lengths) as real
  }

  /** `mean_area_under_curve`: the area per unit of time. */
  function MeanAreaUnderCurve(lengths: seq<nat>, rewards: seq<real>): (m: real)
    ensures m * Divisor(lengths) == AreaUnderCurve(lengths, rewards)
  {
    AreaUnderCurve(lengths, rewards) / Divisor(lengths)
  }

  /** What the benchmark scorer reports: one lengths and one rewards
      sequence per repetition. */
  datatype ScoreResults = ScoreResults(lengths: seq<seq<nat>>, rewards: seq<seq<real>>)

  /** A benchmark's `score_evaluation`, given the fields of an evaluation. */
  type Scorer = Evaluation -> ScoreResults

  /** No scorer is registered for the benchmark id, or the scorer reported
      no repetition to index. */
  datatype ScoreError = UnregisteredBenchmark | NoRepetitions

  /** `score_evaluation`: look the benchmark up, score the evaluation and
      reduce the first repetition to its mean area. */
  function ScoreEvaluation(registry: map<string, Scorer>, benchmarkId: string,
                           evaluation: Evaluation): (r: Result<real, ScoreError>)
    ensures r == Failure(UnregisteredBenchmark) <==> benchmarkId !in registry
    ensures benchmarkId in registry ==>
      var results := registry[benchmarkId](evaluation);
      (r.Success? <==> |results.lengths| > 0 && |results.rewards| > 0)
      && (r.Success? ==> r.value == MeanAreaUnderCurve(results.lengths[0], results.rewards[0]))
  {
    if benchmarkId !in registry then
      Failure(UnregisteredBenchmark)
    else
      var results := registry[benchmarkId](evaluation);
      if |results.lengths| == 0 || |results.rewards| == 0 then
        Failure(NoRepetitions)
      else
        Success(MeanAreaUnderCurve(results.lengths[0], results.rewards[0]))
  }

  // ---------------------------------------------------------------------
  // Properties of the area

  lemma AreaCons(lengths: seq<nat>, rewards: seq<real>)
    requires lengths != [] && rewards != []
    ensures AreaUnderCurve(lengths, rewards)
            == (lengths[0] as real) * rewards[0] + AreaUnderCurve(lengths[1..], rewards[1..])
  {
    assert Zip(lengths, rewards)[1..] == Zip(lengths[1..], rewards[1..]);
  }

  lemma {:induction false} SumOfProductsAppend(a: seq<(nat, real)>, b: seq<(nat, real)>)
    ensures SumOfProducts(a + b) == SumOfProducts(a) + SumOfProducts(b)
  {
    if a == [] {
      assert a + b == b;
    } else {
      assert (a + b)[1..] == a[1..] + b;
      SumOfProductsAppend(a[1..], b);
    }
  }

  lemma {:induction false} IndexedAreaIsSumOfPrefix(lengths: seq<nat>, rewards: seq<real>, n: nat)
    requires n <= |lengths| && n <= |rewards|
    ensures IndexedArea(lengths, rewards, n) == SumOfProducts(Zip(lengths, rewards)[..n])
  {
    var z := Zip(lengths, rewards);
    if n > 0 {
      IndexedAreaIsSumOfPrefix(lengths, rewards, n - 1);
      assert z[..n] == z[..n - 1] + [z[n - 1]];
      SumOfProductsAppend(z[..n - 1], [z[n - 1]]);
    } else {
      assert z[..0] == [];
    }
  }

  /** The area is the sum of `lengths[i] * rewards[i]` over the indices both
      sequences have: `zip` drops the unmatched tail of the longer one. */
  lemma AreaIsIndexedSum(lengths: seq<nat>, rewards: seq<real>)
    ensures var n := if |lengths| <= |rewards| then |lengths| else |rewards|;
      AreaUnderCurve(lengths, rewards) == IndexedArea(lengths, rewards, n)
  {
    var z := Zip(lengths, rewards);
    IndexedAreaIsSumOfPrefix(lengths, rewards, |z|);
    assert z[..|z|] == z;
  }

  /** The worked example: `area_under_curve([1, 2, 3], [1, 1, 1]) == 6`. */
  lemma AreaExample()
    ensures AreaUnderCurve([1, 2, 3], [1.0, 1.0, 1.0]) == 6.0
  {
    AreaCons([1, 2, 3], [1.0, 1.0, 1.0]);
    AreaCons([2, 3], [1.0, 1.0]);
    AreaCons([3], [1.0]);
  }

  /** The area of two curves laid end to end is the sum of their areas. */
  lemma {:induction false} AreaAppend(l1: seq<nat>, r1: seq<real>, l2: seq<nat>, r2: seq<real>)
    requires |l1| == |r1|
    ensures AreaUnderCurve(l1 + l2, r1 + r2) == AreaUnderCurve(l1, r1) + AreaUnderCurve(l2, r2)
  {
    if l1 == [] {
      assert l1 + l2 == l2 && r1 + r2 == r2;
    } else if l2 == [] || r2 == [] {
      assert Zip(l1 + l2, r1 + r2) == Zip(l1, r1) by {
        ZipTruncates(l1, r1, l2, r2);
      }
    } else {
      AreaCons(l1 + l2, r1 + r2);
      AreaCons(l1, r1);
      assert (l1 + l2)[1..] == l1[1..] + l2 && (r1 + r2)[1..] == r1[1..] + r2;
      AreaAppend(l1[1..], r1[1..], l2, r2);
    }
  }

  lemma ZipTruncates(l1: seq<nat>, r1: seq<real>, l2: seq<nat>, r2: seq<real>)
    requires |l1| == |r1| && (l2 == [] || r2 == [])
    ensures Zip(l1 + l2, r1 + r2) == Zip(l1, r1)
  {
    var z, z1 := Zip(l1 + l2, r1 + r2), Zip(l1, r1);
    assert |z| == |z1|;
    forall i | 0 <= i < |z| ensures z[i] == z1[i] {
    }
  }

  /** When all episodes have length zero, so does the area. */
  lemma {:induction false} AreaOfZeroLengths(lengths: seq<nat>, rewards: seq<real>)
    requires TotalLength(lengths) == 0
    ensures AreaUnderCurve(lengths, rewards) == 0.0
  {
    if lengths != [] && rewards != [] {
      AreaCons(lengths, rewards);
      AreaOfZeroLengths(lengths[1..], rewards[1..]);
    }
  }

  /** Rewards between `lo` and `hi` give an area between `lo` and `hi`
      times the total length. */
  lemma {:induction false} AreaBounds(lengths: seq<nat>, rewards: seq<real>, lo: real, hi: real)
    requires |lengths| <= |rewards|
    requires forall i :: 0 <= i < |lengths| ==> lo <= rewards[i] <= hi
    ensures lo * (TotalLength(lengths) as real) <= AreaUnderCurve(lengths, rewards)
                                               <= hi * (TotalLength(lengths) as real)
  {
    if lengths != [] {
      AreaCons(lengths, rewards);
      AreaBounds(lengths[1..], rewards[1..], lo, hi);
      var l, r := lengths[0] as real, rewards[0];
      var rest := TotalLength(lengths[1..]) as real;
      assert (r - lo) * l >= 0.0;
      assert (hi - r) * l >= 0.0;
      assert lo * (l + rest) == lo * l + lo * rest;
      assert hi * (l + rest) == hi * l + hi * rest;
    }
  }

  // ---------------------------------------------------------------------
  // Properties of the mean area

  /** With a total length of zero the divisor is `1e-4`, and since the area
      is then zero too, so is the mean. */
  lemma MeanAreaOfZeroTotal(lengths: seq<nat>, rewards: seq<real>)
    requires TotalLength(lengths) == 0
    ensures MeanAreaUnderCurve(lengths, rewards) == AreaUnderCurve(lengths, rewards) / EPSILON
    ensures MeanAreaUnderCurve(lengths, rewards) == 0.0
  {
    AreaOfZeroLengths(lengths, rewards);
  }

  /** Any positive total length is at least 1, so it is the divisor itself. */
  lemma MeanAreaOfPositiveTotal(lengths: seq<nat>, rewards: seq<real>)
    requires TotalLength(lengths) > 0
    ensures MeanAreaUnderCurve(lengths, rewards)
            == AreaUnderCurve(lengths, rewards) / (TotalLength(lengths) as real)
  {
  }

  /** The mean area is a length-weighted average of the rewards: it lies
      between their lower and upper bounds. */
  lemma MeanAreaIsWeightedAverage(lengths: seq<nat>, rewards: seq<real>, lo: real, hi: real)
    requires |lengths| <= |rewards| && TotalLength(lengths) > 0
    requires forall i :: 0 <= i < |lengths| ==> lo <= rewards[i] <= hi
    ensures lo <= MeanAreaUnderCurve(lengths, rewards) <= hi
  {
    AreaPerTimeBounds(lengths, rewards, lo, hi, TotalLength(lengths) as real);
    MeanAreaOfPositiveTotal(lengths, rewards);
  }

  /** The area divided by the total length `total` lies within the reward
      bounds. (`total` is a parameter so that the division is by a real
      variable: the solver handles that far more cheaply.) */
  lemma AreaPerTimeBounds(lengths: seq<nat>, rewards: seq<real>, lo: real, hi: real, total: real)
    requires |lengths| <= |rewards| && TotalLength(lengths) > 0
    requires total == TotalLength(lengths) as real
    requires forall i :: 0 <= i < |lengths| ==> lo <= rewards[i] <= hi
    ensures lo <= AreaUnderCurve(lengths, rewards) / total <= hi
  {
    AreaBounds(lengths, rewards, lo, hi);
    QuotientBounds(AreaUnderCurve(lengths, rewards), total, lo, hi);
  }

  lemma QuotientBounds(area: real, total: real, lo: real, hi: real)
    requires total > 0.0
    requires lo * total <= area <= hi * total
    ensures lo <= area / total <= hi
  {
  }

  /** A constant reward is its own mean area. */
  lemma MeanAreaOfConstantReward(lengths: seq<nat>, rewards: seq<real>, c: real)
    requires |lengths| <= |rewards| && TotalLength(lengths) > 0
    requires forall i :: 0 <= i < |lengths| ==> rewards[i] == c
    ensures MeanAreaUnderCurve(lengths, rewards) == c
  {
    MeanAreaIsWeightedAverage(lengths, rewards, c, c);
  }

  // ---------------------------------------------------------------------
  // Properties of the evaluation score

  /** Only the first repetition matters: two scorers that agree on it give
      the same score, whatever the later repetitions are. */
  lemma ScoreUsesFirstRepetitionOnly(s1: Scorer, s2: Scorer, benchmarkId: string, evaluation: Evaluation)
    requires |s1(evaluation).lengths| > 0 && |s1(evaluation).rewards| > 0
    requires |s2(evaluation).lengths| > 0 && |s2(evaluation).rewards| > 0
    requires s1(evaluation).lengths[0] == s2(evaluation).lengths[0]
    requires s1(evaluation).rewards[0] == s2(evaluation).rewards[0]
    ensures ScoreEvaluation(map[benchmarkId := s1], benchmarkId, evaluation)
            == ScoreEvaluation(map[benchmarkId := s2], benchmarkId, evaluation)
  {
  }

  /** A successful score lies within the bounds of the first repetition's
      rewards, once that repetition covers some time. */
  lemma ScoreWithinRewardBounds(registry: map<string, Scorer>, benchmarkId: string,
                                evaluation: Evaluation, lo: real, hi: real)
    requires benchmarkId in registry
    requires var results := registry[benchmarkId](evaluation);
      |results.lengths| > 0 && |results.rewards| > 0
      && |results.lengths[0]| <= |results.rewards[0]| && TotalLength(results.lengths[0]) > 0
      && forall i :: 0 <= i < |results.lengths[0]| ==> lo <= results.rewards[0][i] <= hi
    ensures ScoreEvaluation(registry, benchmarkId, evaluation).Success?
    ensures lo <= ScoreEvaluation(registry, benchmarkId, evaluation).value <= hi
  {
    var results := registry[benchmarkId](evaluation);
    MeanAreaIsWeightedAverage(results.lengths[0], results.rewards[0], lo, hi);
  }

}
