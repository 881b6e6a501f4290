# Restricted Boltzmann machine with CD-1 training, in Dafny

This project models the `RBM` class of the restricted-boltzmann-machine
repository. The class is a bipartite network of `n_visible` visible and
`n_hidden` hidden units, with:

- visible biases `b`;
- hidden biases `c`;
- a weight matrix `w`, sized `n_visible x n_hidden`.

The model covers five parts of the class:

- the constructor;
- the two conditional activations;
- the threshold sampler;
- the single-step contrastive-divergence (CD-1) training call;
- reconstruction.

The numbers are modelled as follows:

- `float` is modelled as `real`.
- `exp` is an argument of type `Numerics.PositiveFn`: any function on the reals whose values are strictly positive. Nothing else about the exponential is used.
- The random draws are explicit arguments. `normals` is the constructor's stream of weight draws, a function from draw number to value, read in row-major order; as the generator never runs dry, the stream has no end. `hiddenDraws` and `visibleDraws` hold the uniform draws of the two samples in one call.

The C++ class mutates itself in place. Here every operation is a pure function
of an immutable `Machines.Machine` value. A second set of methods repeats the
source's loops, and each of them is proved to compute the same value as its
function. Where the source resizes a vector and then assigns its entries, the
method appends the entries in the same order instead:

- `Machines.Construct`;
- `Activation.ComputeProbabilityHidden` and `Activation.ComputeProbabilityVisible`;
- `Sampler.DrawSample`;
- `TrainingLoops.TrainStep` and `TrainingLoops.Reconstruct`.

`Reconstruction` returns only a vector, so it cannot change the parameters.

Modules: `Numerics` (positive exponential, logistic, inner products),
`Machines` (parameter store, constructor), `Activation` (conditional
activations), `Sampler`, `Training` (Gibbs step, update, training calls,
reconstruction), `TrainingLoops` (the source's loops).

Behaviour of the code worth knowing:

- `get_probability_visible` returns the raw affine sum, with no logistic squashing. `Activation.VisibleOfSilentHidden` shows that its values are the visible biases when every hidden unit is off, so nothing bounds them to [0, 1].
- The sampler switches a unit on when the draw is `<=` the probability, not `<`. So a probability of exactly 0 can still give 1 (`Sampler.SampleZeroBoundary`). An all-zero probability vector therefore does not always give the all-zero sample.
- The constructor accepts zero sizes. Only negative sizes fail, because `std::vector::resize` then throws `length_error`.
- `train` does not check the learning rate. Any real rate is accepted.
- The logistic is computed as `exp(x) / (1 + exp(x))`, as the code writes it.
- The weight loop bounds its column index by `n_visible` (see Findings).

## Model

| member | source | states |
|---|---|---|
| Numerics.Logistic | RBM.h:62 | the hidden squashing exp(x)/(1+exp(x)) lies strictly between 0 and 1 for every positive exp |
| Numerics.LogisticOdds | RBM.h:62 | the odds p/(1-p) of the squashed value give back exp(x), so the squashing is inverted by the odds |
| Numerics.LogisticMonotone | RBM.h:62 | an exp(x) no larger than exp(y) gives an activation no larger, and a strictly smaller one a strictly smaller activation |
| Numerics.ColumnDotOfZero | RBM.h:58-61 | an all-zero visible vector adds nothing to a hidden unit's field |
| Numerics.RowDotOfZero | RBM.h:79-82 | an all-zero hidden vector adds nothing to a visible unit's field |
| Machines.Create | RBM.h:21-43 | construction fails exactly when a size is negative; otherwise b has n_visible zeros, c has n_hidden zeros, w has n_visible rows of n_hidden entries, and w[i][j] is the draw at row-major position i*n_hidden+j |
| Machines.Construct | RBM.h:21-43 | the resize-and-fill loops, with one normal draw consumed per weight in row-major order, build exactly the machine Create describes |
| Activation.ProbabilityHidden | RBM.h:45-65 | given a visible vector of length n_visible, the result has length n_hidden and every entry lies strictly in (0,1) |
| Activation.AccumulateHiddenField | RBM.h:57-61 | the accumulation loop ends with c[j] plus the sum over i of w[i][j]*visible[i] |
| Activation.ComputeProbabilityHidden | RBM.h:45-65 | entry j is the logistic of c[j] + sum_i w[i][j]*visible[i], and the loop agrees with ProbabilityHidden |
| Activation.ProbabilityVisible | RBM.h:67-86 | given a hidden vector of length n_hidden, the result has length n_visible |
| Activation.AccumulateVisibleField | RBM.h:78-82 | the accumulation loop ends with b[i] plus the sum over j of w[i][j]*hidden[j] |
| Activation.ComputeProbabilityVisible | RBM.h:67-86 | entry i is the unsquashed b[i] + sum_j w[i][j]*hidden[j], and the loop agrees with ProbabilityVisible |
| Activation.VisibleOfSilentHidden | RBM.h:76-84 | with every hidden unit off, the visible values equal the visible biases, so they are not confined to [0,1] |
| Activation.HiddenOfSilentVisible | RBM.h:55-63 | with every visible unit off, hidden unit j fires with the logistic of c[j] alone |
| Activation.VisibleValueAboveOne | RBM.h:83 | a concrete machine whose visible value is 2 |
| Sampler.Sample | RBM.h:88-110 | the sample has the input's length, every entry is 0 or 1, and entry i is 1 exactly when draw i is <= prob[i] |
| Sampler.DrawSample | RBM.h:88-110 | the sampling loop produces exactly Sample |
| Sampler.SampleCertain | RBM.h:99-106 | with draws in [0,1), a probability >= 1 always yields 1 |
| Sampler.SampleImpossible | RBM.h:99-106 | with draws in [0,1), a negative probability always yields 0 |
| Sampler.SampleZeroBoundary | RBM.h:99-106 | a probability of exactly 0 still yields 1 when its draw is 0, because the comparison is <= |
| Sampler.SampleAllCertain | RBM.h:97-107 | an all-ones probability vector yields the all-ones sample for any draws in [0,1) |
| Sampler.SampleMonotone | RBM.h:99-106 | with the same draws, raising probabilities can only switch units on |
| Training.Gibbs | RBM.h:115-118 | the Gibbs step keeps the input, gives binary hidden0 and visible1 of the layer lengths, and gives prob1 of length n_hidden with entries in (0,1) |
| Training.ApplyUpdate | RBM.h:120-139 | b[i] moves by rate*(visible0[i]-visible1[i]) and c[j] by rate*(hidden0[j]-prob1[j]); weights in the loop's columns move by rate*(visible0[i]*hidden0[j]-visible1[i]*prob1[j]); weights in later columns are unchanged; shapes are kept |
| Training.WeightLoopInBoundsIff | RBM.h:121-127 | the columns the weight loop visits all exist exactly when n_visible <= n_hidden |
| Training.WeightLoopOverrun | RBM.h:121-127 | with more visible than hidden units, the weight loop visits column n_hidden, which is at or past the end of every weight row, of hidden0 and of prob1 |
| Training.CallerDimensionsOutOfBounds | image.cpp:33 | for a machine of the only caller's sizes, 2500 visible and 25 hidden units, the weight loop is out of bounds: it reaches column 25, and every weight row, hidden0 and prob1 have exactly 25 entries |
| Training.TrainAsWritten | RBM.h:112-140 | the training call as written, defined only when n_visible <= n_hidden: shapes kept, the bias updates at every index, the weight update for columns below n_visible, later columns unchanged |
| Training.Train | RBM.h:112-140 | the corrected training call: shapes kept, and every b[i], c[j] and w[i][j] moves by rate times its CD-1 gradient, for any layer sizes |
| Training.TrainZeroRate | RBM.h:121-139 | the corrected call with a zero learning rate leaves the machine unchanged |
| Training.UpdateZeroRate | RBM.h:121-139 | a zero learning rate leaves every bias and weight unchanged, whatever bound the weight loop uses |
| Training.AsWrittenZeroRate | RBM.h:112-140 | the source's training call with a zero learning rate leaves the machine unchanged |
| Training.AsWrittenAgreesWhenSquare | RBM.h:121-127 | when n_visible == n_hidden, the as-written call and the corrected call agree |
| Training.UpdateSkipsColumn | RBM.h:123-125 | with the loop bounded by n_visible, a weight in a later column keeps its value, and it differs from the full update exactly when the rate and its gradient are both nonzero |
| Training.AsWrittenSkipsColumn | RBM.h:121-127 | when n_visible < n_hidden, the as-written call leaves every weight in column n_visible or later unchanged, and disagrees with the corrected call on it exactly when rate and gradient are both nonzero |
| Training.SkipExampleHidden | RBM.h:115-116 | on the zero 1x2 machine with input [0] and hidden draws 0, both hidden probabilities are positive, so both hidden units are sampled on |
| Training.SkipExampleVisible | RBM.h:116-117 | on that machine with both hidden units on and visible draw 0, the visible value is 0, so the visible unit is sampled on |
| Training.SkipExampleGibbs | RBM.h:115-117 | on the zero 1x2 machine, with input [0] and zero draws, both hidden units and the visible unit are sampled on |
| Training.AsWrittenSkipsColumnExample | RBM.h:123 | on that machine the as-written call leaves w[0][1] where the corrected call moves it |
| Training.TrainAll | RBM.h:7-10 | any run of corrected training calls, each with its own input pattern, rate and draws, keeps n_visible, n_hidden and every parameter shape |
| Training.TrainAllAsWritten | RBM.h:7-10 | any run of the source's training calls, each with its own input pattern, rate and draws, keeps n_visible, n_hidden and every parameter shape, so the in-bounds condition n_visible <= n_hidden holds at every call once it holds at the first |
| Training.TrainAllZeroRate | RBM.h:121-139 | a run of corrected calls that all have rate zero leaves the machine unchanged |
| Training.TrainAllAsWrittenZeroRate | RBM.h:112-140 | a run of the source's calls that all have rate zero leaves the machine unchanged |
| Training.Reconstruction | RBM.h:142-146 | the reconstruction is a 0/1 vector of length n_visible |
| Training.ReconstructionIsNegativePhase | RBM.h:142-146 | with the same draws, the reconstruction is exactly the negative-phase visible sample visible1 of a training call on the same input |
| TrainingLoops.UpdateWeightsAsWritten | RBM.h:120-127 | the in-place weight loop, with j < n_visible, produces the as-written updated weights |
| TrainingLoops.UpdateVisibleBiases | RBM.h:129-133 | the in-place loop adds rate*(visible0[i]-visible1[i]) to each b[i] |
| TrainingLoops.UpdateHiddenBiases | RBM.h:135-139 | the in-place loop adds rate*(hidden0[j]-prob1[j]) to each c[j] |
| TrainingLoops.RunGibbsStep | RBM.h:115-118 | the four calls at the head of train produce exactly the Gibbs step |
| TrainingLoops.RunUpdateAsWritten | RBM.h:120-139 | the three update loops in source order produce the as-written update |
| TrainingLoops.TrainStep | RBM.h:112-140 | the whole training call as written computes TrainAsWritten |
| TrainingLoops.Reconstruct | RBM.h:142-146 | the two sample calls of get_reconstruction compute Reconstruction |

## Left out

- `image.cpp` as a whole: OpenCV image loading, resizing, Otsu thresholding, pixel conversion and `imwrite` output are I/O over a library that is not part of this model. Only its constructor sizes appear, in `Training.CallerDimensionsOutOfBounds`.
- The driver's two-phase schedule of 100 calls at rate 0.1 and 1000 at rate 0.001 is not modelled. `Training.TrainAllAsWritten` and `Training.TrainAll` accept any sequence of calls, patterns and rates.
- Floating-point rounding, overflow and NaN: values are exact reals. A numerically stable logistic formulation is not modelled, because the code does not use one.
- Integer overflow of `visible0[i]*hidden0[j]` in `int` is not modelled, because integers are unbounded here.
- The real exponential: only its positivity is used.
- Random number generation: the `std::random_device`/`mt19937` seeding and the normal(0, 0.01) distribution are not modelled. The uniform distribution is not modelled either. A single-precision `uniform_real_distribution` can return exactly 1.0; `Sampler.UnitDraws` assumes [0, 1). The model takes the draws as arguments instead.
- The misspelled `std::random_devide` on RBM.h lines 32 and 92 stops the file compiling as written. It does not change what the code means.
- Learning or convergence claims, such as reproducing a pattern after many calls: these are statistical statements, not properties of one execution.
- Concurrency: the class is single-threaded.
- The default learning rate of `train`, 0.01 (RBM.h:17): every training member takes the rate as an explicit argument, so a call that leaves it out is modelled by passing 0.01.

## Findings

| source | as written | input that shows it | evidently intended | confidence | as-written member | corrected member |
|---|---|---|---|---|---|---|
| RBM.h:123 | the inner weight loop bounds the hidden index j by n_visible | the machine built at image.cpp:33 with 2500 visible and 25 hidden units: j reaches 25 and reads past the end of every weight row, hidden0 and prob1 | j bounded by n_hidden, so every weight is updated | high; not executed | Training.CallerDimensionsOutOfBounds | Training.Train |
| RBM.h:123 | the inner weight loop bounds the hidden index j by n_visible | a machine with 1 visible and 2 hidden units and all parameters zero, input [0], all draws 0, rate 1: w[0][1] is never updated, though its gradient is nonzero | j bounded by n_hidden, so every weight is updated | high; not executed | Training.AsWrittenSkipsColumnExample | Training.Train |
