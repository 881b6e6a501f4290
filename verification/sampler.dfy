/** The threshold sampler: unit i is switched on exactly when its uniform draw
    does not exceed its probability. The draws are an explicit argument. */
module Sampler {

  /** Every entry is 0 or 1. */
  predicate Binary(s: seq<int>) {
    forall i :: 0 <= i < |s| ==> s[i] == 0 || s[i] == 1
  }

  /** Draws a uniform distribution on [0, 1) can produce. */
  predicate UnitDraws(draws: seq<real>) {
    forall i :: 0 <= i < |draws| ==> 0.0 <= draws[i] < 1.0
  }

  /** One bit per probability; `draws[i]` is the uniform variate consumed for
      entry i. */
  function Sample(prob: seq<real>, draws: seq<real>): (s: seq<int>)
    requires |draws| >= |prob|
    ensures |s| == |prob|
    ensures Binary(s)
    ensures forall i :: 0 <= i < |s| ==> (s[i] == 1 <==> draws[i] <= prob[i])
  {
    seq(|prob|, (i: int) requires 0 <= i < |prob| => if draws[i] <= prob[i] then 1 else 0)
  }

  /** The sampling loop as the source writes it: size the output to the input,
      then set each entry from one comparison with its draw. */
  method DrawSample(prob: seq<real>, draws: seq<real>) returns (s: seq<int>)
    requires |draws| >= |prob|
    ensures s == Sample(prob, draws)
  {
    s := seq(|prob|, _ => 0);
    var i := 0;
    while i < |prob|
      invariant i <= |prob| && |s| == |prob|
      invariant forall k :: 0 <= k < i ==> s[k] == (if draws[k] <= prob[k] then 1 else 0)
      invariant forall k :: i <= k < |prob| ==> s[k] == 0
    {
      if draws[i] <= prob[i] {
        s := s[i := 1];
      } else {
        s := s[i := 0];
      }
      i := i + 1;
    }
  }

  /** A probability of at least 1 always yields 1. */
  lemma SampleCertain(prob: seq<real>, draws: seq<real>, i: nat)
    requires |draws| >= |prob| && UnitDraws(draws)
    requires i < |prob| && prob[i] >= 1.0
    ensures Sample(prob, draws)[i] == 1
  {
  }

  /** A negative probability always yields 0. */
  lemma SampleImpossible(prob: seq<real>, draws: seq<real>, i: nat)
    requires |draws| >= |prob| && UnitDraws(draws)
    requires i < |prob| && prob[i] < 0.0
    ensures Sample(prob, draws)[i] == 0
  {
  }

  /** Because the comparison is `<=`, a probability of exactly 0 still yields
      1 when its draw is exactly 0. */
  lemma SampleZeroBoundary(prob: seq<real>, draws: seq<real>, i: nat)
    requires |draws| >= |prob|
    requires i < |prob| && prob[i] == 0.0 && draws[i] == 0.0
    ensures Sample(prob, draws)[i] == 1
  {
  }

  /** All-certain probabilities give the all-ones vector whatever the draws. */
  lemma SampleAllCertain(prob: seq<real>, draws: seq<real>)
    requires |draws| >= |prob| && UnitDraws(draws)
    requires forall i :: 0 <= i < |prob| ==> prob[i] >= 1.0
    ensures Sample(prob, draws) == seq(|prob|, _ => 1)
  {
  }

  /** With the same draws, raising probabilities can only switch units on. */
  lemma SampleMonotone(prob: seq<real>, prob': seq<real>, draws: seq<real>)
    requires |prob| == |prob'| && |draws| >= |prob|
    requires forall i :: 0 <= i < |prob| ==> prob[i] <= prob'[i]
    ensures forall i :: 0 <= i < |prob| ==> Sample(prob, draws)[i] <= Sample(prob', draws)[i]
  {
  }
}
