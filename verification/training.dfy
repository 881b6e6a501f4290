/** Single-step contrastive divergence (CD-1) and reconstruction. One Gibbs
    step runs visible -> hidden sample -> visible sample -> hidden
    probabilities; the update then moves every parameter by the learning rate
    times the difference of the positive and negative phase terms. */
module Training {
  import opened Numerics
  import opened Machines
  import opened Activation
  import opened Sampler

  /** The four vectors one Gibbs step produces and the update consumes:
      the training input, its hidden sample, the reconstructed visible sample
      and the hidden probabilities of that reconstruction. */
  datatype GibbsStep = GibbsStep(visible0: seq<int>, hidden0: seq<int>, visible1: seq<int>, prob1: seq<real>)

  /** The step's vectors have the lengths the machine's layers have. */
  predicate Fits(m: Machine, g: GibbsStep) {
    && |g.visible0| == m.nVisible && |g.visible1| == m.nVisible
    && |g.hidden0| == m.nHidden && |g.prob1| == m.nHidden
  }

  /** Enough uniform draws for the hidden-layer sample and the visible-layer
      sample of one step. */
  predicate DrawsSuffice(m: Machine, hiddenDraws: seq<real>, visibleDraws: seq<real>) {
    |hiddenDraws| >= m.nHidden && |visibleDraws| >= m.nVisible
  }

  /** The Gibbs step of a training call. The hidden layer is resampled once;
      the negative-phase hidden term keeps the probabilities. */
  function Gibbs(m: Machine, exp: PositiveFn, visible0: seq<int>, hiddenDraws: seq<real>, visibleDraws: seq<real>): (g: GibbsStep)
    requires m.Valid() && |visible0| == m.nVisible && DrawsSuffice(m, hiddenDraws, visibleDraws)
    ensures Fits(m, g) && g.visible0 == visible0
    ensures Binary(g.hidden0) && Binary(g.visible1)
    ensures forall j :: 0 <= j < |g.prob1| ==> 0.0 < g.prob1[j] < 1.0
  {
    var hidden0 := Sample(ProbabilityHidden(m, exp, visible0), hiddenDraws);
    var visible1 := Sample(ProbabilityVisible(m, hidden0), visibleDraws);
    GibbsStep(visible0, hidden0, visible1, ProbabilityHidden(m, exp, visible1))
  }

  /** visible0[i] * hidden0[j] - visible1[i] * prob1[j]. */
  function WeightGradient(g: GibbsStep, i: nat, j: nat): real
    requires i < |g.visible0| && i < |g.visible1| && j < |g.hidden0| && j < |g.prob1|
  {
    (g.visible0[i] * g.hidden0[j]) as real - (g.visible1[i] as real) * g.prob1[j]
  }

  /** visible0[i] - visible1[i]. */
  function VisibleBiasGradient(g: GibbsStep, i: nat): real
    requires i < |g.visible0| && i < |g.visible1|
  {
    (g.visible0[i] - g.visible1[i]) as real
  }

  /** hidden0[j] - prob1[j]. */
  function HiddenBiasGradient(g: GibbsStep, j: nat): real
    requires j < |g.hidden0| && j < |g.prob1|
  {
    (g.hidden0[j] as real) - g.prob1[j]
  }

  /** The update equations of one training call, with the weight loop's
      column index running below `columns`: every visible bias, every hidden
      bias and every weight in those columns moves by the learning rate times
      its gradient; weights in later columns keep their value; the shape of
      the machine is kept. */
  predicate UpdatedBy(m: Machine, trained: Machine, rate: real, g: GibbsStep, columns: nat)
    requires m.Valid() && Fits(m, g) && columns <= m.nHidden
  {
    && trained.Valid() && trained.nVisible == m.nVisible && trained.nHidden == m.nHidden
    && (forall i :: 0 <= i < m.nVisible ==> trained.b[i] == m.b[i] + rate * VisibleBiasGradient(g, i))
    && (forall j :: 0 <= j < m.nHidden ==> trained.c[j] == m.c[j] + rate * HiddenBiasGradient(g, j))
    && (forall i, j :: 0 <= i < m.nVisible && 0 <= j < columns ==>
          trained.w[i][j] == m.w[i][j] + rate * WeightGradient(g, i, j))
    && (forall i, j :: 0 <= i < m.nVisible && columns <= j < m.nHidden ==> trained.w[i][j] == m.w[i][j])
  }

  /** The visible biases after the update. */
  function UpdatedVisibleBiases(m: Machine, rate: real, g: GibbsStep): (b: seq<real>)
    requires m.Valid() && Fits(m, g)
    ensures |b| == m.nVisible
    ensures forall i :: 0 <= i < m.nVisible ==> b[i] == m.b[i] + rate * VisibleBiasGradient(g, i)
  {
    seq(m.nVisible, (i: int) requires 0 <= i < m.nVisible => m.b[i] + rate * VisibleBiasGradient(g, i))
  }

  /** The hidden biases after the update. */
  function UpdatedHiddenBiases(m: Machine, rate: real, g: GibbsStep): (c: seq<real>)
    requires m.Valid() && Fits(m, g)
    ensures |c| == m.nHidden
    ensures forall j :: 0 <= j < m.nHidden ==> c[j] == m.c[j] + rate * HiddenBiasGradient(g, j)
  {
    seq(m.nHidden, (j: int) requires 0 <= j < m.nHidden => m.c[j] + rate * HiddenBiasGradient(g, j))
  }

  /** Row i of the weights after the update, with the column index of the
      weight loop running below `columns`. */
  function UpdatedWeightRow(m: Machine, rate: real, g: GibbsStep, columns: nat, i: nat): (row: seq<real>)
    requires m.Valid() && Fits(m, g) && columns <= m.nHidden && i < m.nVisible
    ensures |row| == m.nHidden
    ensures forall j :: 0 <= j < columns ==> row[j] == m.w[i][j] + rate * WeightGradient(g, i, j)
    ensures forall j :: columns <= j < m.nHidden ==> row[j] == m.w[i][j]
  {
    seq(m.nHidden, (j: int) requires 0 <= j < m.nHidden =>
      if j < columns then m.w[i][j] + rate * WeightGradient(g, i, j) else m.w[i][j])
  }

  /** The parameters after the update, with the weight loop's column index
      running below `columns`. */
  function ApplyUpdate(m: Machine, rate: real, g: GibbsStep, columns: nat): (trained: Machine)
    requires m.Valid() && Fits(m, g) && columns <= m.nHidden
    ensures UpdatedBy(m, trained, rate, g, columns)
  {
    var w := seq(m.nVisible, (i: int) requires 0 <= i < m.nVisible => UpdatedWeightRow(m, rate, g, columns, i));
    Machine(m.nVisible, m.nHidden, UpdatedVisibleBiases(m, rate, g), UpdatedHiddenBiases(m, rate, g), w)
  }

  /** The column indices the source's weight loop visits, in order. */
  function VisitedColumns(nVisible: nat): seq<nat> {
    seq(nVisible, (j: int) requires 0 <= j < nVisible => j)
  }

  /** Every column the weight loop visits exists in the weight rows (and in
      hidden0 and prob1, which have the same length). The loop itself is
      TrainingLoops.UpdateWeightsAsWritten, whose indexing of w[i], hidden0
      and prob1 is in range only under its requires nVisible <= nHidden; this
      predicate states the same condition over the visited index set. */
  predicate WeightLoopInBounds(nVisible: nat, nHidden: nat) {
    var cols := VisitedColumns(nVisible);
    forall k :: 0 <= k < |cols| ==> cols[k] < nHidden
  }

  /** The weight loop stays in bounds exactly when there are no more visible
      than hidden units. */
  lemma WeightLoopInBoundsIff(nVisible: nat, nHidden: nat)
    ensures WeightLoopInBounds(nVisible, nHidden) <==> nVisible <= nHidden
  {
    if nVisible > nHidden {
      assert VisitedColumns(nVisible)[nHidden] == nHidden;
    }
  }

  /** With more visible than hidden units the weight loop visits column
      nHidden, and for every row i its access w[i][nHidden], like its reads
      of hidden0[nHidden] and prob1[nHidden], lies past the end. */
  lemma WeightLoopOverrun(m: Machine, g: GibbsStep)
    requires m.Valid() && Fits(m, g) && m.nVisible > m.nHidden
    ensures VisitedColumns(m.nVisible)[m.nHidden] == m.nHidden
    ensures forall i :: 0 <= i < m.nVisible ==> |m.w[i]| <= m.nHidden
    ensures |g.hidden0| <= m.nHidden && |g.prob1| <= m.nHidden
  {
  }

  /** The only caller builds a machine with 2500 visible and 25 hidden units.
      For it the weight loop reaches column 25, one past the end of every
      weight row and of hidden0 and prob1. */
  lemma CallerDimensionsOutOfBounds(m: Machine, g: GibbsStep)
    requires m.Valid() && Fits(m, g) && m.nVisible == 2500 && m.nHidden == 25
    ensures !WeightLoopInBounds(m.nVisible, m.nHidden)
    ensures VisitedColumns(m.nVisible)[25] == 25
    ensures forall i :: 0 <= i < m.nVisible ==> |m.w[i]| == 25
    ensures |g.hidden0| == 25 && |g.prob1| == 25
  {
    WeightLoopInBoundsIff(m.nVisible, m.nHidden);
    WeightLoopOverrun(m, g);
  }

  /** The training call as the source writes it: the weight loop's column index
      is bounded by nVisible, so the call is only defined when nVisible <=
      nHidden, and it leaves the weights in columns nVisible.. untouched. */
  function TrainAsWritten(m: Machine, exp: PositiveFn, visible0: seq<int>, rate: real,
                          hiddenDraws: seq<real>, visibleDraws: seq<real>): (trained: Machine)
    requires m.Valid() && |visible0| == m.nVisible && DrawsSuffice(m, hiddenDraws, visibleDraws)
    requires m.nVisible <= m.nHidden
    ensures UpdatedBy(m, trained, rate, Gibbs(m, exp, visible0, hiddenDraws, visibleDraws), m.nVisible)
  {
    ApplyUpdate(m, rate, Gibbs(m, exp, visible0, hiddenDraws, visibleDraws), m.nVisible)
  }

  /** The CD-1 training call with the weight loop running over every hidden
      column: each of the three parameter structures moves by the learning
      rate times its gradient, at every index, whatever the layer sizes. */
  function Train(m: Machine, exp: PositiveFn, visible0: seq<int>, rate: real,
                 hiddenDraws: seq<real>, visibleDraws: seq<real>): (trained: Machine)
    requires m.Valid() && |visible0| == m.nVisible && DrawsSuffice(m, hiddenDraws, visibleDraws)
    ensures UpdatedBy(m, trained, rate, Gibbs(m, exp, visible0, hiddenDraws, visibleDraws), m.nHidden)
  {
    ApplyUpdate(m, rate, Gibbs(m, exp, visible0, hiddenDraws, visibleDraws), m.nHidden)
  }

  /** A zero learning rate leaves every parameter where it was, whatever
      the column bound of the weight loop. */
  lemma UpdateZeroRate(m: Machine, g: GibbsStep, columns: nat)
    requires m.Valid() && Fits(m, g) && columns <= m.nHidden
    ensures ApplyUpdate(m, 0.0, g, columns) == m
  {
    var trained := ApplyUpdate(m, 0.0, g, columns);
    assert trained.b == m.b;
    assert trained.c == m.c;
    forall i | 0 <= i < m.nVisible
      ensures trained.w[i] == m.w[i]
    {
    }
    assert trained.w == m.w;
  }

  /** The source's training call with a zero learning rate changes nothing. */
  lemma AsWrittenZeroRate(m: Machine, exp: PositiveFn, visible0: seq<int>, hiddenDraws: seq<real>, visibleDraws: seq<real>)
    requires m.Valid() && |visible0| == m.nVisible && DrawsSuffice(m, hiddenDraws, visibleDraws)
    requires m.nVisible <= m.nHidden
    ensures TrainAsWritten(m, exp, visible0, 0.0, hiddenDraws, visibleDraws) == m
  {
    UpdateZeroRate(m, Gibbs(m, exp, visible0, hiddenDraws, visibleDraws), m.nVisible);
  }

  /** The corrected training call with a zero learning rate changes nothing. */
  lemma TrainZeroRate(m: Machine, exp: PositiveFn, visible0: seq<int>, hiddenDraws: seq<real>, visibleDraws: seq<real>)
    requires m.Valid() && |visible0| == m.nVisible && DrawsSuffice(m, hiddenDraws, visibleDraws)
    ensures Train(m, exp, visible0, 0.0, hiddenDraws, visibleDraws) == m
  {
    UpdateZeroRate(m, Gibbs(m, exp, visible0, hiddenDraws, visibleDraws), m.nHidden);
  }

  /** With as many visible as hidden units the source's loop bound is the
      right one, and the source's call agrees with CD-1. */
  lemma AsWrittenAgreesWhenSquare(m: Machine, exp: PositiveFn, visible0: seq<int>, rate: real,
                                  hiddenDraws: seq<real>, visibleDraws: seq<real>)
    requires m.Valid() && |visible0| == m.nVisible && DrawsSuffice(m, hiddenDraws, visibleDraws)
    requires m.nVisible == m.nHidden
    ensures TrainAsWritten(m, exp, visible0, rate, hiddenDraws, visibleDraws)
            == Train(m, exp, visible0, rate, hiddenDraws, visibleDraws)
  {
  }

  /** Bounding the weight loop by nVisible instead of nHidden leaves a weight
      in column nVisible or later where it was; the two updates disagree on
      it exactly when the rate and its gradient are both nonzero. */
  lemma UpdateSkipsColumn(m: Machine, rate: real, g: GibbsStep, i: nat, j: nat)
    requires m.Valid() && Fits(m, g)
    requires i < m.nVisible <= j < m.nHidden
    ensures ApplyUpdate(m, rate, g, m.nVisible).w[i][j] == m.w[i][j]
    ensures ApplyUpdate(m, rate, g, m.nVisible).w[i][j] != ApplyUpdate(m, rate, g, m.nHidden).w[i][j]
            <==> rate != 0.0 && WeightGradient(g, i, j) != 0.0
  {
    var gradient := WeightGradient(g, i, j);
    assert ApplyUpdate(m, rate, g, m.nHidden).w[i][j] == m.w[i][j] + rate * gradient;
    if rate != 0.0 && gradient != 0.0 {
      assert rate * gradient != 0.0;
    }
  }

  /** With fewer visible than hidden units the source's call leaves every
      weight in column nVisible or later untouched, so it disagrees with CD-1
      on exactly those whose update rate * gradient is not zero. */
  lemma AsWrittenSkipsColumn(m: Machine, exp: PositiveFn, visible0: seq<int>, rate: real,
                             hiddenDraws: seq<real>, visibleDraws: seq<real>, i: nat, j: nat)
    requires m.Valid() && |visible0| == m.nVisible && DrawsSuffice(m, hiddenDraws, visibleDraws)
    requires i < m.nVisible <= j < m.nHidden
    ensures TrainAsWritten(m, exp, visible0, rate, hiddenDraws, visibleDraws).w[i][j] == m.w[i][j]
    ensures TrainAsWritten(m, exp, visible0, rate, hiddenDraws, visibleDraws).w[i][j]
            != Train(m, exp, visible0, rate, hiddenDraws, visibleDraws).w[i][j]
            <==> rate != 0.0 && WeightGradient(Gibbs(m, exp, visible0, hiddenDraws, visibleDraws), i, j) != 0.0
  {
    UpdateSkipsColumn(m, rate, Gibbs(m, exp, visible0, hiddenDraws, visibleDraws), i, j);
  }

  /** One visible and two hidden units with every parameter zero. */
  const SkipExample := Machine(1, 2, [0.0], [0.0, 0.0], [[0.0, 0.0]])

  /** On that machine, from input [0] with both hidden draws 0, both hidden
      units are sampled on: their probabilities are positive. */
  lemma SkipExampleHidden(exp: PositiveFn)
    ensures Sample(ProbabilityHidden(SkipExample, exp, [0]), [0.0, 0.0]) == [1, 1]
  {
    var prob0 := ProbabilityHidden(SkipExample, exp, [0]);
    assert 0.0 <= prob0[0] && 0.0 <= prob0[1];
  }

  /** With both hidden units on and the visible draw 0, the visible unit is
      sampled on: its value is the zero bias plus zero weights. */
  lemma SkipExampleVisible()
    ensures Sample(ProbabilityVisible(SkipExample, [1, 1]), [0.0]) == [1]
  {
    var m := SkipExample;
    var field := ProbabilityVisible(m, [1, 1]);
    assert field == [0.0] by {
      assert RowDot(m.w[0], [1, 1], 1) == 0.0;
      assert RowDot(m.w[0], [1, 1], 2) == 0.0;
    }
  }

  /** On that machine, from input [0] with all draws 0, both hidden units and
      the visible unit are sampled on. */
  lemma SkipExampleGibbs(exp: PositiveFn)
    ensures Gibbs(SkipExample, exp, [0], [0.0, 0.0], [0.0]).hidden0 == [1, 1]
    ensures Gibbs(SkipExample, exp, [0], [0.0, 0.0], [0.0]).visible1 == [1]
  {
    SkipExampleHidden(exp);
    SkipExampleVisible();
  }

  /** There the source's call leaves weight (0, 1) at 0 while CD-1 moves it:
      its gradient is 0 * 1 - 1 * prob1[1], and prob1[1] is positive. */
  lemma AsWrittenSkipsColumnExample(exp: PositiveFn)
    ensures TrainAsWritten(SkipExample, exp, [0], 1.0, [0.0, 0.0], [0.0]).w[0][1]
            != Train(SkipExample, exp, [0], 1.0, [0.0, 0.0], [0.0]).w[0][1]
  {
    var g := Gibbs(SkipExample, exp, [0], [0.0, 0.0], [0.0]);
    SkipExampleGibbs(exp);
    assert WeightGradient(g, 0, 1) == -g.prob1[1];
    UpdateSkipsColumn(SkipExample, 1.0, g, 0, 1);
  }

  /** The arguments of one training call: its input pattern, its learning
      rate and the uniform draws its two samples consume. */
  datatype Call = Call(visible0: seq<int>, rate: real, hiddenDraws: seq<real>, visibleDraws: seq<real>)

  /** Every call brings an input pattern and enough draws for a machine of
      this shape. */
  predicate CallsFit(m: Machine, calls: seq<Call>) {
    forall k :: 0 <= k < |calls| ==>
      |calls[k].visible0| == m.nVisible && DrawsSuffice(m, calls[k].hiddenDraws, calls[k].visibleDraws)
  }

  /** The calls after the first still fit a machine of the same shape. */
  lemma CallsFitRest(m: Machine, next: Machine, calls: seq<Call>)
    requires |calls| > 0 && CallsFit(m, calls)
    requires next.nVisible == m.nVisible && next.nHidden == m.nHidden
    ensures CallsFit(next, calls[1..])
  {
    forall k | 0 <= k < |calls| - 1
      ensures |calls[1..][k].visible0| == next.nVisible
      ensures DrawsSuffice(next, calls[1..][k].hiddenDraws, calls[1..][k].visibleDraws)
    {
      assert calls[1..][k] == calls[k + 1];
    }
  }

  /** A run of the source's training calls, in order, on any input patterns.
      Every call keeps the unit counts, so the in-bounds condition of the
      first call holds for all of them, and the machine keeps its shape. */
  function TrainAllAsWritten(m: Machine, exp: PositiveFn, calls: seq<Call>): (trained: Machine)
    requires m.Valid() && CallsFit(m, calls) && m.nVisible <= m.nHidden
    ensures trained.Valid() && trained.nVisible == m.nVisible && trained.nHidden == m.nHidden
    decreases |calls|
  {
    if |calls| == 0 then m
    else
      var next := TrainAsWritten(m, exp, calls[0].visible0, calls[0].rate, calls[0].hiddenDraws, calls[0].visibleDraws);
      CallsFitRest(m, next, calls);
      TrainAllAsWritten(next, exp, calls[1..])
  }

  /** A run of corrected training calls, in order, on any input patterns;
      the machine keeps its unit counts and parameter shapes throughout. */
  function TrainAll(m: Machine, exp: PositiveFn, calls: seq<Call>): (trained: Machine)
    requires m.Valid() && CallsFit(m, calls)
    ensures trained.Valid() && trained.nVisible == m.nVisible && trained.nHidden == m.nHidden
    decreases |calls|
  {
    if |calls| == 0 then m
    else
      var next := Train(m, exp, calls[0].visible0, calls[0].rate, calls[0].hiddenDraws, calls[0].visibleDraws);
      CallsFitRest(m, next, calls);
      TrainAll(next, exp, calls[1..])
  }

  /** A run of the source's calls that all have learning rate zero changes
      nothing. */
  lemma {:induction false} TrainAllAsWrittenZeroRate(m: Machine, exp: PositiveFn, calls: seq<Call>)
    requires m.Valid() && CallsFit(m, calls) && m.nVisible <= m.nHidden
    requires forall k :: 0 <= k < |calls| ==> calls[k].rate == 0.0
    ensures TrainAllAsWritten(m, exp, calls) == m
    decreases |calls|
  {
    if |calls| > 0 {
      AsWrittenZeroRate(m, exp, calls[0].visible0, calls[0].hiddenDraws, calls[0].visibleDraws);
      CallsFitRest(m, m, calls);
      assert forall k :: 0 <= k < |calls| - 1 ==> calls[1..][k] == calls[k + 1];
      TrainAllAsWrittenZeroRate(m, exp, calls[1..]);
    }
  }

  /** A run of corrected calls that all have learning rate zero changes
      nothing. */
  lemma {:induction false} TrainAllZeroRate(m: Machine, exp: PositiveFn, calls: seq<Call>)
    requires m.Valid() && CallsFit(m, calls)
    requires forall k :: 0 <= k < |calls| ==> calls[k].rate == 0.0
    ensures TrainAll(m, exp, calls) == m
    decreases |calls|
  {
    if |calls| > 0 {
      TrainZeroRate(m, exp, calls[0].visible0, calls[0].hiddenDraws, calls[0].visibleDraws);
      CallsFitRest(m, m, calls);
      assert forall k :: 0 <= k < |calls| - 1 ==> calls[1..][k] == calls[k + 1];
      TrainAllZeroRate(m, exp, calls[1..]);
    }
  }

  /** Reconstruction: sample the hidden layer from the input, then sample the
      visible layer from that. The machine is only read. */
  function Reconstruction(m: Machine, exp: PositiveFn, visible: seq<int>, hiddenDraws: seq<real>, visibleDraws: seq<real>): (r: seq<int>)
    requires m.Valid() && |visible| == m.nVisible && DrawsSuffice(m, hiddenDraws, visibleDraws)
    ensures |r| == m.nVisible && Binary(r)
  {
    var hidden := Sample(ProbabilityHidden(m, exp, visible), hiddenDraws);
    Sample(ProbabilityVisible(m, hidden), visibleDraws)
  }

  /** Given the same draws, reconstruction yields exactly the negative-phase
      visible sample a training call on the same input would use. */
  lemma ReconstructionIsNegativePhase(m: Machine, exp: PositiveFn, visible: seq<int>, hiddenDraws: seq<real>, visibleDraws: seq<real>)
    requires m.Valid() && |visible| == m.nVisible && DrawsSuffice(m, hiddenDraws, visibleDraws)
    ensures Reconstruction(m, exp, visible, hiddenDraws, visibleDraws) == Gibbs(m, exp, visible, hiddenDraws, visibleDraws).visible1
  {
  }
}
