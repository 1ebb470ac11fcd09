/** The record of one evaluation run (the viewer's `Evaluation` class) and the
    total-length sum that both the smoother and the score reducer rely on. */
module Evaluations {

  /** One training run of one environment, as the monitor's result loader
      returns it. All per-episode sequences are in episode order. */
  datatype Evaluation = Evaluation(
    envId: string,
    episodeRewards: seq<real>,
    episodeLengths: seq<nat>,
    episodeTypes: seq<string>,
    timestamps: seq<real>,
    initialResetTimestamps: seq<real>,
    dataSources: seq<nat>)

  /** The sum of a sequence of episode lengths (numpy's `sum`). */
  function TotalLength(lengths: seq<nat>): nat
  {
    if lengths == [] then 0 else lengths[0] + TotalLength(lengths[1..])
  }

  lemma {:induction false} TotalLengthAppend(a: seq<nat>, b: seq<nat>)
    ensures TotalLength(a + b) == TotalLength(a) + TotalLength(b)
  {
    if a == [] {
      assert a + b == b;
    } else {
      assert (a + b)[1..] == a[1..] + b;
      TotalLengthAppend(a[1..], b);
    }
  }

  /** A total of zero means that every episode had length zero. */
  lemma {:induction false} TotalLengthZero(lengths: seq<nat>)
    ensures TotalLength(lengths) == 0 <==> forall i :: 0 <= i < |lengths| ==> lengths[i] == 0
  {
    if lengths != [] {
      TotalLengthZero(lengths[1..]);
      assert forall i :: 1 <= i < |lengths| ==> lengths[i] == lengths[1..][i - 1];
    }
  }

}
