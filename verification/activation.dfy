/** The two conditional activations: hidden-unit probabilities given a visible
    vector (squashed by the logistic function) and visible-unit values given a
    hidden vector (left as the raw affine sum). */
module Activation {
  import opened Numerics
  import opened Machines

  /** The input to hidden unit j: c[j] + sum_i w[i][j] * visible[i]. */
  function HiddenField(m: Machine, visible: seq<int>, j: nat): real
    requires m.Valid() && |visible| == m.nVisible && j < m.nHidden
  {
    m.c[j] + ColumnDot(m.w, visible, j, m.nVisible)
  }

  /** The input to visible unit i: b[i] + sum_j w[i][j] * hidden[j]. */
  function VisibleField(m: Machine, hidden: seq<int>, i: nat): real
    requires m.Valid() && |hidden| == m.nHidden && i < m.nVisible
  {
    m.b[i] + RowDot(m.w[i], hidden, m.nHidden)
  }

  /** Hidden-unit firing probabilities given a visible vector. The length
      requirement is the assertion the source checks on entry. */
  function ProbabilityHidden(m: Machine, exp: PositiveFn, visible: seq<int>): (prob: seq<real>)
    requires m.Valid() && |visible| == m.nVisible
    ensures |prob| == m.nHidden
    ensures forall j :: 0 <= j < |prob| ==> 0.0 < prob[j] < 1.0
  {
    seq(m.nHidden, (j: int) requires 0 <= j < m.nHidden => Logistic(exp, HiddenField(m, visible, j)))
  }

  /** Visible-unit values given a hidden vector: the affine field itself,
      with no squashing applied. */
  function ProbabilityVisible(m: Machine, hidden: seq<int>): (prob: seq<real>)
    requires m.Valid() && |hidden| == m.nHidden
    ensures |prob| == m.nVisible
  {
    seq(m.nVisible, (i: int) requires 0 <= i < m.nVisible => VisibleField(m, hidden, i))
  }

  /** The accumulation loop for hidden unit j: start from c[j] and add the
      weighted visible inputs in increasing i. */
  method AccumulateHiddenField(m: Machine, visible: seq<int>, j: nat) returns (field: real)
    requires m.Valid() && |visible| == m.nVisible && j < m.nHidden
    ensures field == m.c[j] + ColumnDot(m.w, visible, j, m.nVisible)
  {
    field := m.c[j];
    var i := 0;
    while i < m.nVisible
      invariant i <= m.nVisible
      invariant field == m.c[j] + ColumnDot(m.w, visible, j, i)
    {
      field := field + m.w[i][j] * (visible[i] as real);
      i := i + 1;
    }
  }

  /** The accumulation loop for visible unit i: start from b[i] and add the
      weighted hidden inputs in increasing j. */
  method AccumulateVisibleField(m: Machine, hidden: seq<int>, i: nat) returns (field: real)
    requires m.Valid() && |hidden| == m.nHidden && i < m.nVisible
    ensures field == m.b[i] + RowDot(m.w[i], hidden, m.nHidden)
  {
    field := m.b[i];
    var j := 0;
    while j < m.nHidden
      invariant j <= m.nHidden
      invariant field == m.b[i] + RowDot(m.w[i], hidden, j)
    {
      field := field + m.w[i][j] * (hidden[j] as real);
      j := j + 1;
    }
  }

  /** The hidden probabilities as the source computes them: one accumulated
      field per hidden unit, squashed with exp(field) / (1 + exp(field)). */
  method ComputeProbabilityHidden(m: Machine, exp: PositiveFn, visible: seq<int>) returns (prob: seq<real>)
    requires m.Valid() && |visible| == m.nVisible
    ensures |prob| == m.nHidden
    ensures forall j :: 0 <= j < m.nHidden ==> prob[j] == Logistic(exp, HiddenField(m, visible, j))
    ensures prob == ProbabilityHidden(m, exp, visible)
  {
    prob := [];
    var j := 0;
    while j < m.nHidden
      invariant j <= m.nHidden && |prob| == j
      invariant forall k :: 0 <= k < j ==> prob[k] == Logistic(exp, HiddenField(m, visible, k))
    {
      var field := AccumulateHiddenField(m, visible, j);
      assert exp(field) / (1.0 + exp(field)) == Logistic(exp, HiddenField(m, visible, j));
      prob := prob + [exp(field) / (1.0 + exp(field))];
      j := j + 1;
    }
  }

  /** The visible values as the source computes them: one accumulated field
      per visible unit, stored unsquashed. */
  method ComputeProbabilityVisible(m: Machine, hidden: seq<int>) returns (prob: seq<real>)
    requires m.Valid() && |hidden| == m.nHidden
    ensures |prob| == m.nVisible
    ensures forall i :: 0 <= i < m.nVisible ==> prob[i] == m.b[i] + RowDot(m.w[i], hidden, m.nHidden)
    ensures prob == ProbabilityVisible(m, hidden)
  {
    prob := [];
    var i := 0;
    while i < m.nVisible
      invariant i <= m.nVisible && |prob| == i
      invariant forall k :: 0 <= k < i ==> prob[k] == VisibleField(m, hidden, k)
    {
      var field := AccumulateVisibleField(m, hidden, i);
      prob := prob + [field];
      i := i + 1;
    }
  }

  /** With every hidden unit off, the visible values are exactly the visible
      biases, so they range over every real the biases take: nothing bounds
      them to [0, 1]. */
  lemma VisibleOfSilentHidden(m: Machine, hidden: seq<int>)
    requires m.Valid() && |hidden| == m.nHidden
    requires forall j :: 0 <= j < |hidden| ==> hidden[j] == 0
    ensures ProbabilityVisible(m, hidden) == m.b
  {
    var p := ProbabilityVisible(m, hidden);
    forall i | 0 <= i < m.nVisible
      ensures p[i] == m.b[i]
    {
      RowDotOfZero(m.w[i], hidden, m.nHidden);
    }
  }

  /** With every visible unit off, hidden unit j fires with the logistic of
      its bias alone. */
  lemma HiddenOfSilentVisible(m: Machine, exp: PositiveFn, visible: seq<int>)
    requires m.Valid() && |visible| == m.nVisible
    requires forall i :: 0 <= i < |visible| ==> visible[i] == 0
    ensures forall j :: 0 <= j < m.nHidden ==> ProbabilityHidden(m, exp, visible)[j] == Logistic(exp, m.c[j])
  {
    forall j | 0 <= j < m.nHidden
      ensures ProbabilityHidden(m, exp, visible)[j] == Logistic(exp, m.c[j])
    {
      ColumnDotOfZero(m.w, visible, j, m.nVisible);
    }
  }

  /** A concrete machine whose visible value is 2: the unsquashed branch
      leaves [0, 1]. */
  lemma VisibleValueAboveOne()
    ensures ProbabilityVisible(Machine(1, 1, [2.0], [0.0], [[0.0]]), [0]) == [2.0]
  {
    VisibleOfSilentHidden(Machine(1, 1, [2.0], [0.0], [[0.0]]), [0]);
  }
}
