/** The training and reconstruction calls as the source writes them: the
    sampling pipeline as a sequence of calls, then three in-place update
    loops over w, b and c. */
module TrainingLoops {
  import opened Numerics
  import opened Machines
  import opened Activation
  import opened Sampler
  import opened Training

  /** The weight loop of the source: for i below nVisible and j below
      nVisible, add rate * (visible0[i] * hidden0[j] - visible1[i] * prob1[j])
      to w[i][j] in place. In bounds only when nVisible <= nHidden. */
  method UpdateWeightsAsWritten(m: Machine, rate: real, g: GibbsStep) returns (w: seq<seq<real>>)
    requires m.Valid() && Fits(m, g) && m.nVisible <= m.nHidden
    ensures w == ApplyUpdate(m, rate, g, m.nVisible).w
  {
    var target := ApplyUpdate(m, rate, g, m.nVisible).w;
    w := m.w;
    var i := 0;
    while i < m.nVisible
      invariant i <= m.nVisible && |w| == m.nVisible
      invariant forall k :: 0 <= k < i ==> w[k] == target[k]
      invariant forall k :: i <= k < m.nVisible ==> w[k] == m.w[k]
    {
      var j := 0;
      while j < m.nVisible
        invariant j <= m.nVisible && |w| == m.nVisible && |w[i]| == m.nHidden
        invariant forall k :: 0 <= k < i ==> w[k] == target[k]
        invariant forall k :: i < k < m.nVisible ==> w[k] == m.w[k]
        invariant forall l :: 0 <= l < j ==> w[i][l] == target[i][l]
        invariant forall l :: j <= l < m.nHidden ==> w[i][l] == m.w[i][l]
      {
        var delta := rate * ((g.visible0[i] * g.hidden0[j]) as real - (g.visible1[i] as real) * g.prob1[j]);
        assert target[i][j] == m.w[i][j] + delta;
        w := w[i := w[i][j := w[i][j] + delta]];
        j := j + 1;
      }
      assert w[i] == target[i];
      i := i + 1;
    }
    assert w == target;
  }

  /** The visible-bias loop: b[i] += rate * (visible0[i] - visible1[i]). */
  method UpdateVisibleBiases(m: Machine, rate: real, g: GibbsStep) returns (b: seq<real>)
    requires m.Valid() && Fits(m, g)
    ensures |b| == m.nVisible
    ensures forall i :: 0 <= i < m.nVisible ==> b[i] == m.b[i] + rate * VisibleBiasGradient(g, i)
  {
    b := m.b;
    var i := 0;
    while i < m.nVisible
      invariant i <= m.nVisible && |b| == m.nVisible
      invariant forall k :: 0 <= k < i ==> b[k] == m.b[k] + rate * VisibleBiasGradient(g, k)
      invariant forall k :: i <= k < m.nVisible ==> b[k] == m.b[k]
    {
      b := b[i := b[i] + rate * ((g.visible0[i] - g.visible1[i]) as real)];
      i := i + 1;
    }
  }

  /** The hidden-bias loop: c[j] += rate * (hidden0[j] - prob1[j]). */
  method UpdateHiddenBiases(m: Machine, rate: real, g: GibbsStep) returns (c: seq<real>)
    requires m.Valid() && Fits(m, g)
    ensures |c| == m.nHidden
    ensures forall j :: 0 <= j < m.nHidden ==> c[j] == m.c[j] + rate * HiddenBiasGradient(g, j)
  {
    c := m.c;
    var j := 0;
    while j < m.nHidden
      invariant j <= m.nHidden && |c| == m.nHidden
      invariant forall k :: 0 <= k < j ==> c[k] == m.c[k] + rate * HiddenBiasGradient(g, k)
      invariant forall k :: j <= k < m.nHidden ==> c[k] == m.c[k]
    {
      c := c[j := c[j] + rate * ((g.hidden0[j] as real) - g.prob1[j])];
      j := j + 1;
    }
  }

  /** The sampling half of a training call: two probability computations and
      two samples, then the hidden probabilities of the reconstruction. */
  method RunGibbsStep(m: Machine, exp: PositiveFn, visible0: seq<int>,
                      hiddenDraws: seq<real>, visibleDraws: seq<real>) returns (g: GibbsStep)
    requires m.Valid() && |visible0| == m.nVisible && DrawsSuffice(m, hiddenDraws, visibleDraws)
    ensures g == Gibbs(m, exp, visible0, hiddenDraws, visibleDraws)
  {
    var prob0 := ComputeProbabilityHidden(m, exp, visible0);
    var hidden0 := DrawSample(prob0, hiddenDraws);
    var field := ComputeProbabilityVisible(m, hidden0);
    var visible1 := DrawSample(field, visibleDraws);
    var prob1 := ComputeProbabilityHidden(m, exp, visible1);
    g := GibbsStep(visible0, hidden0, visible1, prob1);
  }

  /** The update half of a training call: the three loops in source order. */
  method RunUpdateAsWritten(m: Machine, rate: real, g: GibbsStep) returns (m': Machine)
    requires m.Valid() && Fits(m, g) && m.nVisible <= m.nHidden
    ensures m' == ApplyUpdate(m, rate, g, m.nVisible)
  {
    var w := UpdateWeightsAsWritten(m, rate, g);
    var b := UpdateVisibleBiases(m, rate, g);
    var c := UpdateHiddenBiases(m, rate, g);
    var expected := ApplyUpdate(m, rate, g, m.nVisible);
    assert |expected.b| == |b| && forall i :: 0 <= i < |b| ==> b[i] == expected.b[i];
    assert b == expected.b;
    assert |expected.c| == |c| && forall j :: 0 <= j < |c| ==> c[j] == expected.c[j];
    assert c == expected.c;
    m' := Machine(m.nVisible, m.nHidden, b, c, w);
  }

  /** One training call in the order the source runs it. */
  method TrainStep(m: Machine, exp: PositiveFn, visible0: seq<int>, rate: real,
                   hiddenDraws: seq<real>, visibleDraws: seq<real>) returns (m': Machine)
    requires m.Valid() && |visible0| == m.nVisible && DrawsSuffice(m, hiddenDraws, visibleDraws)
    requires m.nVisible <= m.nHidden
    ensures m' == TrainAsWritten(m, exp, visible0, rate, hiddenDraws, visibleDraws)
  {
    var g := RunGibbsStep(m, exp, visible0, hiddenDraws, visibleDraws);
    m' := RunUpdateAsWritten(m, rate, g);
  }

  /** Reconstruction in the order the source runs it; nothing is written back
      to the machine. */
  method Reconstruct(m: Machine, exp: PositiveFn, visible: seq<int>,
                     hiddenDraws: seq<real>, visibleDraws: seq<real>) returns (r: seq<int>)
    requires m.Valid() && |visible| == m.nVisible && DrawsSuffice(m, hiddenDraws, visibleDraws)
    ensures r == Reconstruction(m, exp, visible, hiddenDraws, visibleDraws)
  {
    var prob := ComputeProbabilityHidden(m, exp, visible);
    var hidden := DrawSample(prob, hiddenDraws);
    var field := ComputeProbabilityVisible(m, hidden);
    r := DrawSample(field, visibleDraws);
  }
}
