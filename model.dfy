/** The training and inference wrapper `MNISTModel` (model.js): the fixed
    layer list and compile settings, the step and progress bookkeeping of
    `train`, and the batch-dimension rule of `predict`. Fitting and predicting
    themselves belong to the tensor library; only their shapes and their
    callbacks are modelled. */
module Model {
  import opened Results
  import opened Numbers
  import opened Tensors
  import Data

  // ---------------------------------------------------------------------------
  // Layers and compile settings, as plain data

  datatype Activation = Relu | Softmax
  datatype Initializer = VarianceScaling

  datatype Layer =
    | Flatten(inputShape: seq<nat>)
    | Dense(units: nat, activation: Activation, kernelInitializer: Initializer)
    | Dropout(rate: real)

  datatype Optimizer = Adam
  datatype Loss = CategoricalCrossentropy
  datatype Metric = Accuracy

  datatype CompileConfig = CompileConfig(optimizer: Optimizer, loss: Loss, metrics: seq<Metric>)

  /** The options `train` hands to the library's `fit`. */
  datatype FitOptions = FitOptions(epochs: nat, batchSize: nat, shuffle: bool, validationSplit: real)

  datatype ModelError =
    | InputShapeMismatch   // the library refuses an input of the wrong shape
    | FitFailed            // the library's fit rejected

  const DEFAULT_EPOCHS: nat := 5
  const DEFAULT_BATCH_SIZE: nat := 128
  const VALIDATION_SPLIT: real := 0.1
  const DROPOUT_RATE: real := 0.3

  /** The six layers `createModel` adds, in order. */
  function Topology(): seq<Layer>
  {
    [ Flatten([28, 28, 1]),
      Dense(128, Relu, VarianceScaling),
      Dropout(DROPOUT_RATE),
      Dense(64, Relu, VarianceScaling),
      Dropout(DROPOUT_RATE),
      Dense(10, Softmax, VarianceScaling) ]
  }

  const COMPILE_CONFIG: CompileConfig := CompileConfig(Adam, CategoricalCrossentropy, [Accuracy])

  // ---------------------------------------------------------------------------
  // Shapes through the layers (batch dimension first)

  /** Output shape of one layer, `None` when the layer refuses its input. A
      Flatten layer that carries an input shape is the model's input layer:
      it takes `[b] ++ inputShape` to `[b, Size(inputShape)]`. Dense replaces
      the last dimension by its unit count; dropout keeps the shape. */
  function LayerOutput(layer: Layer, shape: seq<nat>): Option<seq<nat>>
  {
    match layer
    case Flatten(inputShape) =>
      if |shape| == |inputShape| + 1 && shape[1..] == inputShape
      then Some([shape[0], Size(inputShape)]) else None
    case Dense(units, _, _) =>
      if |shape| >= 2 then Some(shape[..|shape| - 1] + [units]) else None
    case Dropout(_) => Some(shape)
  }

  function OutputShape(layers: seq<Layer>, shape: seq<nat>): Option<seq<nat>>
    decreases |layers|
  {
    if layers == [] then Some(shape)
    else
      match LayerOutput(layers[0], shape)
      case None => None
      case Some(next) => OutputShape(layers[1..], next)
  }

  /** The fixed topology accepts exactly batches of images in the dataset's
      image shape and gives one score per dataset class for each of them. */
  lemma TopologyShapes(shape: seq<nat>)
    ensures OutputShape(Topology(), shape).Some?
            <==> |shape| == 4 && shape[1..] == Data.IMAGE_ROW_SHAPE
    ensures OutputShape(Topology(), shape).Some? ==>
              OutputShape(Topology(), shape).value == [shape[0], Data.N_CLASSES]
  {
    if |shape| == 4 && shape[1..] == [28, 28, 1] {
      assert shape == [shape[0], 28, 28, 1];
      TopologyOnBatch(shape[0]);
    } else {
      assert LayerOutput(Topology()[0], shape) == None;
    }
  }

  lemma TopologyOnBatch(b: nat)
    ensures OutputShape(Topology(), [b, 28, 28, 1]) == Some([b, 10])
  {
    var l5 := [Dense(10, Softmax, VarianceScaling)];
    var l4 := [Dropout(DROPOUT_RATE)] + l5;
    var l3 := [Dense(64, Relu, VarianceScaling)] + l4;
    var l2 := [Dropout(DROPOUT_RATE)] + l3;
    var l1 := [Dense(128, Relu, VarianceScaling)] + l2;
    assert Topology() == [Flatten([28, 28, 1])] + l1;
    assert [b, 64][..1] + [10] == [b, 10];
    assert OutputShape(l5, [b, 64]) == Some([b, 10]);
    assert OutputShape(l4, [b, 64]) == Some([b, 10]);
    assert [b, 128][..1] + [64] == [b, 64];
    assert OutputShape(l3, [b, 128]) == Some([b, 10]);
    assert OutputShape(l2, [b, 128]) == Some([b, 10]);
    assert [b, 784][..1] + [128] == [b, 128];
    assert OutputShape(l1, [b, 784]) == Some([b, 10]);
    FlattenedImageSize();
    assert [b, 28, 28, 1][1..] == [28, 28, 1];
    assert LayerOutput(Flatten([28, 28, 1]), [b, 28, 28, 1]) == Some([b, 784]);
  }

  lemma FlattenedImageSize()
    ensures Size([28, 28, 1]) == 784
  {
    assert Size([1]) == 1;
    assert [28, 1][1..] == [1];
    assert Size([28, 1]) == 28;
    assert [28, 28, 1][1..] == [28, 1];
  }

  // ---------------------------------------------------------------------------
  // Step and progress bookkeeping of `train`

  /** `epochs * Math.ceil(n / batchSize)`: the batches of all epochs. */
  function TotalSteps(n: nat, epochs: nat, batchSize: nat): (t: nat)
    requires batchSize > 0
    ensures t == 0 <==> epochs == 0 || n == 0
    ensures t * batchSize >= epochs * n
  {
    var perEpoch := CeilDiv(n, batchSize);
    assert perEpoch == 0 <==> n == 0;
    MulMonotone(n, perEpoch * batchSize, epochs);
    assert epochs * (perEpoch * batchSize) == (epochs * perEpoch) * batchSize;
    epochs * perEpoch
  }

  /** Progress after `step` of `total` batches: `step / total * 100`. */
  function ProgressPercent(step: nat, total: nat): (p: real)
    requires total > 0
    ensures 0.0 <= p
    ensures step <= total ==> p <= 100.0
    ensures p == 100.0 <==> step == total
  {
    var f := step as real / total as real;
    assert f * total as real == step as real;
    assert step <= total ==> f <= 1.0;
    assert f == 1.0 ==> step as real == total as real;
    assert step == total ==> f == 1.0 by {
      if step == total { DivSelf(total as real); }
    }
    f * 100.0
  }

  lemma DivSelf(x: real)
    requires x > 0.0
    ensures x / x == 1.0
  {
  }

  /** Progress strictly increases with the step. */
  lemma ProgressIncreases(step: nat, step': nat, total: nat)
    requires step < step' && total > 0
    ensures ProgressPercent(step, total) < ProgressPercent(step', total)
  {
    assert (step as real) / (total as real) < (step' as real) / (total as real);
  }

  /** The state the `onBatchEnd` callback of `train` closes over. */
  class BatchCounter {
    const totalSteps: nat
    var currentStep: nat

    constructor (totalSteps: nat)
      ensures this.totalSteps == totalSteps && currentStep == 0
    {
      this.totalSteps := totalSteps;
      currentStep := 0;
    }

    /** One batch ended: count it and report the new progress. */
    method OnBatchEnd() returns (progress: real)
      requires totalSteps > 0
      modifies this
      ensures currentStep == old(currentStep) + 1
      ensures progress == ProgressPercent(currentStep, totalSteps)
    {
      currentStep := currentStep + 1;
      progress := ProgressPercent(currentStep, totalSteps);
    }
  }

  // ---------------------------------------------------------------------------
  // `predict`'s batch-dimension rule

  /** An input of rank 3 gets a leading batch dimension of 1; any other input
      is passed on as it is. */
  function BatchedInput<T>(input: Tensor<T>): (r: Tensor<T>)
    ensures r.values == input.values
    ensures WellFormed(r) <==> WellFormed(input)
    ensures |input.shape| == 3 ==> r.shape == [1] + input.shape
    ensures |input.shape| != 3 ==> r == input
  {
    if |input.shape| == 3 then ExpandDims(input) else input
  }

  /** Batching an input twice is batching it once. */
  lemma BatchedInputIdempotent<T>(input: Tensor<T>)
    ensures BatchedInput(BatchedInput(input)) == BatchedInput(input)
  {
  }

  // ---------------------------------------------------------------------------
  // The model object

  class MnistModel {
    var layers: seq<Layer>
    var compileConfig: Option<CompileConfig>

    /** The model holds the fixed topology, compiled. */
    ghost predicate Valid()
      reads this
    {
      layers == Topology() && compileConfig == Some(COMPILE_CONFIG)
    }

    constructor ()
      ensures Valid()
      ensures layers == Topology() && compileConfig == Some(COMPILE_CONFIG)
    {
      layers := [];
      compileConfig := None;
      new;
      CreateModel();
    }

    /** `this.model.add(layer)`. */
    method Add(layer: Layer)
      modifies this
      ensures layers == old(layers) + [layer] && compileConfig == old(compileConfig)
    {
      layers := layers + [layer];
    }

    /** `createModel`: a fresh sequential model, the six layers added one by
        one, then compiled with adam, categorical cross-entropy and accuracy. */
    method CreateModel()
      modifies this
      ensures Valid()
      ensures layers == Topology() && compileConfig == Some(COMPILE_CONFIG)
    {
      layers := [];
      compileConfig := None;
      Add(Flatten([28, 28, 1]));
      Add(Dense(128, Relu, VarianceScaling));
      Add(Dropout(DROPOUT_RATE));
      Add(Dense(64, Relu, VarianceScaling));
      Add(Dropout(DROPOUT_RATE));
      Add(Dense(10, Softmax, VarianceScaling));
      compileConfig := Some(CompileConfig(Adam, CategoricalCrossentropy, [Accuracy]));
    }

    /** `train(xTrain, yTrain, epochs, batchSize)`. The library's fit is
        represented by what it does to the wrapper: it calls `onBatchEnd`
        `batchEnds` times and then resolves, or rejects when `fitFails`.
        Returns the outcome, the options given to fit, and the progress
        values reported, in order. */
    method Train(xTrain: Tensor<real>, batchEnds: nat, fitFails: bool,
                 epochs: nat := DEFAULT_EPOCHS, batchSize: nat := DEFAULT_BATCH_SIZE)
      returns (r: Outcome<ModelError>, fit: FitOptions, progress: seq<real>)
      requires |xTrain.shape| > 0 && batchSize > 0
      requires batchEnds <= TotalSteps(xTrain.shape[0], epochs, batchSize)
      ensures fit == FitOptions(epochs, batchSize, true, VALIDATION_SPLIT)
      ensures r == if fitFails then Fail(FitFailed) else Pass
      ensures |progress| == batchEnds + (if fitFails then 1 else 2)
      ensures progress[0] == 0.0
      ensures forall s | 1 <= s <= batchEnds ::
                progress[s] == ProgressPercent(s, TotalSteps(xTrain.shape[0], epochs, batchSize))
      ensures !fitFails ==> progress[batchEnds + 1] == 100.0
      ensures forall a, b | 0 <= a < b < |progress| :: progress[a] <= progress[b]
      ensures forall a, b | 1 <= a < b <= batchEnds :: progress[a] < progress[b]
    {
      progress := [0.0];
      var totalSteps := TotalSteps(xTrain.shape[0], epochs, batchSize);
      var counter := new BatchCounter(totalSteps);
      fit := FitOptions(epochs, batchSize, true, VALIDATION_SPLIT);
      while counter.currentStep < batchEnds
        invariant counter.totalSteps == totalSteps
        invariant counter.currentStep <= batchEnds
        invariant |progress| == counter.currentStep + 1
        invariant progress[0] == 0.0
        invariant forall s | 1 <= s <= counter.currentStep ::
                    progress[s] == ProgressPercent(s, totalSteps)
        invariant forall a, b | 0 <= a < b < |progress| :: progress[a] < progress[b]
        decreases batchEnds - counter.currentStep
      {
        var p := counter.OnBatchEnd();
        forall a | 0 <= a < |progress|
          ensures progress[a] < p
        {
          if a > 0 {
            ProgressIncreases(a, counter.currentStep, totalSteps);
          }
        }
        progress := progress + [p];
      }
      if fitFails {
        return Fail(FitFailed), fit, progress;
      }
      progress := progress + [100.0];
      r := Pass;
    }

    /** `predict(input)`: the batch-dimension rule, then the library's
        prediction, whose values are opaque here; the result is the shape of
        the prediction. */
    method Predict(input: Tensor<real>) returns (r: Result<seq<nat>, ModelError>)
      requires Valid()
      ensures r.Success? <==> input.shape == Data.IMAGE_ROW_SHAPE
                              || (|input.shape| == 4 && input.shape[1..] == Data.IMAGE_ROW_SHAPE)
      ensures r.Success? ==>
                r.value == [if |input.shape| == 3 then 1 else input.shape[0], Data.N_CLASSES]
    {
      var batched := BatchedInput(input);
      TopologyShapes(batched.shape);
      match OutputShape(layers, batched.shape)
      case None =>
        r := Failure(InputShapeMismatch);
      case Some(shape) =>
        r := Success(shape);
    }
  }
}
