# MNIST browser demo: dataset pipeline and training wrapper

This project models the two parts of the MNIST browser demo that have logic of their own. It is written in Dafny, and the properties below are proved about the model.

- **`MnistData` (data.js)** loads the dataset. It decodes a sprite sheet of 65000 images into one flat buffer of
  `N_DATA * IMAGE_SIZE` floats. It does this in bands of 5000 example rows. Within band `i`, element `j` of the
  band's window gets the red byte of RGBA pixel `j` divided by 255. The label bytes are used as they are, as a
  one-hot matrix. The code then cuts a train prefix and the test block right after it, and assembles both as
  tensors.
- **`MNISTModel` (model.js)** defines a fixed six-layer classifier and its compile settings. `train` keeps a
  step counter and a progress percentage while the library fits. `predict` adds a leading batch dimension to
  rank-3 inputs.

Modules, one per source file, plus three shared modules:

- `Results`: `Option`, `Result` and `Outcome`, used for the operations that throw.
- `Numbers`: `Math.ceil(n / d)` on naturals.
- `Tensors`: a tensor as a flat value sequence plus a shape. It also holds the shape checks that the tensor
  constructor, `slice` and `expandDims` perform.
- `Data`: data.js. The decode is `DecodeSprite`, a method with nested loops. It writes a zero-initialised
  `array<real>`, as the code writes a zeroed `ArrayBuffer` through a `Float32Array` window. It is proved equal to
  the function `Decoded`, which states what the loops compute. Class `MnistData` holds the fields that `load` assigns.
- `Model`: model.js. Class `MnistModel` holds the layer list and the compile settings. Class `BatchCounter` is
  the state that the `onBatchEnd` closure captures. `Topology`, `OutputShape`, `TotalSteps` and
  `ProgressPercent` give the fixed values and formulas.

Inputs from the outside world are parameters:

- the RGBA bytes that the canvas returns for each band;
- the label bytes, or a failure;
- for `train`, how many `onBatchEnd` events the library delivers, and whether `fit` rejects.

Behaviour of the code worth noting:

- **No partial band.** The decode loop runs while `i < N_DATA / chunkSize` (data.js:51), so it has no case for a
  short final band. The model requires `chunkSize` to divide `nData`, which holds for 65000 and 5000. Under that
  condition the count in the status text, `Math.ceil(N_DATA / chunkSize)` (data.js:53), equals the loop count
  (`Numbers.CeilDivExact`).
- **HTTP status.** The code never checks `response.ok` (data.js:84-90), so the body of an HTTP error response
  becomes the label bytes. Only a rejected request, or a failure to read the body, fails the load.
- **Partial state after a failure.** The image `onload` handler assigns `datasetImages` (data.js:69) even when the
  label request fails. `Load` models that: the four split arrays and `isDownloaded` keep their old values, but
  `datasetImages` is replaced. After a successful earlier load, a failed reload therefore leaves `isDownloaded`
  true and the old splits in place.

## Model

| member | source | states |
|---|---|---|
| `Data.ImageSizeIsArea` | data.js:1-3 | the image size 784 is the image height times the image width |
| `Data.BandsFillBuffer` | data.js:46-51 | when `chunkSize` divides `nData`, the `nData / chunkSize` band windows laid end to end are exactly the `nData * IMAGE_SIZE` floats of the buffer |
| `Data.BandInsideBuffer` | data.js:46-57 | every window `[i*IMAGE_SIZE*chunkSize, (i+1)*IMAGE_SIZE*chunkSize)` that the loop visits ends inside the buffer |
| `Data.BandOfIndex` | data.js:55-57 | every buffer index lies in the window of band `k / (IMAGE_SIZE*chunkSize)` |
| `Data.BandOfIndexVisited` | data.js:51-57 | the band of every buffer index is one that the loop visits, so the visited windows cover the buffer |
| `Data.BandsDisjoint` | data.js:55-57 | no index lies in the windows of two different bands, so the windows are pairwise disjoint |
| `Data.BandProgress` | data.js:52 | the progress reported before band `i`, `20 + i/(N_DATA/chunkSize)*30`, lies in [20, 50) |
| `Data.BandProgressIncreases` | data.js:51-53 | band progress strictly increases with the band index |
| `Numbers.CeilDivExact` | data.js:51-53 | when `chunkSize` divides `N_DATA`, the `Math.ceil` count in the status text equals the loop count `N_DATA / chunkSize` |
| `Data.DecodeBand` | data.js:63-67 | a band's window has `IMAGE_SIZE * chunkSize` elements, and every element lies in [0, 1] |
| `Data.Decoded` | data.js:46-69 | the decoded buffer has one window per band, and every value lies in [0, 1] |
| `Data.DecodedAt` | data.js:55-66 | buffer element `i*IMAGE_SIZE*chunkSize + j` is the red byte of RGBA pixel `j` of band `i` over 255, or 0 when the band has no pixel `j` |
| `Data.BandFromCanvas` | data.js:48-49 | a canvas `width` pixels wide and `chunkSize` rows high makes the inner loop write `width*chunkSize` elements; with `width == IMAGE_SIZE` the whole window comes from pixels |
| `Data.DecodeSprite` | data.js:46-69 | the nested loops yield a buffer of length `nData*IMAGE_SIZE` that equals `Decoded` of the band bytes, and report one progress value per band as `BandProgress` gives it |
| `Data.JsSlice` | data.js:94-97 | `slice(from, to)` returns `s[from..to]` when both bounds are in range, the rest of `s` when only `to` is past the end, and nothing when `to <= from` or `from` is past the end |
| `Data.SplitIsContiguous` | data.js:94-97 | when the data holds `nTrain + nTest` rows of `stride` elements, the train part has `stride*nTrain` elements and the test part `stride*nTest`, and together they are the prefix of length `stride*(nTrain+nTest)` |
| `Data.SliceKeepsRows` | data.js:94-95 | slicing whole-row data at row boundaries yields whole rows, however the bounds are clamped |
| `Data.SplitFacts` | data.js:94-97 | for a buffer of `N_DATA` images, both image splits hold whole images; with `nTrain + nTest <= N_DATA` they have the exact lengths and are contiguous; labels behave the same with stride `N_CLASSES` when the label bytes are long enough |
| `Data.SliceKeepsOneHot` | data.js:90-97 | the label view transforms nothing, so label bytes made of one-hot rows give one-hot rows in every split cut at row boundaries |
| `Data.MnistData.constructor` | data.js:11-12 | a new dataset object is not downloaded and holds no data |
| `Data.MnistData.Load` | data.js:28-125 | image failure gives `ImageLoadFailed` and label failure gives `LabelFetchFailed`; `datasetImages` is the decoded sprite whenever the image loaded; a failure leaves the labels, the four splits and `isDownloaded` unchanged; on success, `isDownloaded` is set with all four splits assigned by `slice`, with their exact lengths and contiguity when the data holds them, and one-hot labels stay one-hot |
| `Tensors.FromRows` | data.js:136-140 | building a tensor with `length / rowSize` rows succeeds exactly when the length is a whole number of rows; the tensor is then well formed over the same values |
| `Tensors.TakeRows` | data.js:162-165 | slicing the first `n` rows succeeds exactly when `n` is at most the row count; the result is the first `n*rowSize` values with leading dimension `n` |
| `Data.ExampleTensors` | data.js:136-140 | the image tensor has shape `[length/784, 28, 28, 1]` and the label tensor shape `[length/10, 10]`; both succeed exactly when the lengths are whole rows |
| `Data.MnistData.TrainData` | data.js:135-142 | `getTrainData` fails before any load; otherwise it returns the train arrays with `length / IMAGE_SIZE` image rows and `length / N_CLASSES` label rows, exactly when these are whole; after a load, which keeps the image splits whole, it succeeds exactly when the train labels are whole rows |
| `Data.MnistData.TestData` | data.js:155-167 | without `numExamples` it returns all test rows; with `numExamples = n` it returns exactly the first `n` images and labels, with leading dimension `n`, and fails when `n` exceeds either row count; after a load, without `numExamples`, it succeeds exactly when the test labels are whole rows |
| `Model.TopologyShapes` | model.js:26-48 | the six layers accept an input exactly when it is a batch `[b, 28, 28, 1]` of the dataset's image shape, and they then produce `[b, N_CLASSES]` |
| `Model.MnistModel.constructor` | model.js:4-8 | construction builds the model through `createModel` and leaves it valid: the fixed topology, compiled |
| `Model.MnistModel.Add` | model.js:26-48 | `add` appends one layer and changes nothing else |
| `Model.MnistModel.CreateModel` | model.js:21-64 | the model is flatten `[28,28,1]`, dense 128 relu, dropout 0.3, dense 64 relu, dropout 0.3, dense 10 softmax, in that order, all dense layers with variance-scaling initialisation, compiled with adam, categorical cross-entropy and accuracy |
| `Numbers.CeilDiv` | model.js:70 | `Math.ceil(n / d)` is the least `q` with `q*d >= n` |
| `Model.TotalSteps` | model.js:70 | `epochs * ceil(n / batchSize)` is zero exactly when there are no epochs or no examples, and provides a batch slot for every example of every epoch |
| `Model.ProgressPercent` | model.js:81 | `step / total * 100` is non-negative, at most 100 while `step <= total`, and equals 100 exactly when `step == total` |
| `Model.ProgressIncreases` | model.js:79-85 | progress strictly increases with the step count |
| `Model.BatchCounter.constructor` | model.js:71 | the step counter starts at 0 |
| `Model.BatchCounter.OnBatchEnd` | model.js:79-85 | each batch-end event increases the counter by exactly 1 and reports `ProgressPercent` of the new count |
| `Model.MnistModel.Train` | model.js:66-112 | fit always receives the given epochs and batch size (defaults 5 and 128), `shuffle = true` and `validationSplit = 0.1`; the reports are 0, then `k / totalSteps * 100` for each batch `k`, then 100 on success; they never decrease, strictly increase across batch events, and a failed fit rethrows |
| `Tensors.ExpandDims` | model.js:124-125 | `expandDims(0)` keeps the values, puts a dimension of 1 in front, and keeps the tensor well formed |
| `Model.BatchedInput` | model.js:124-127 | a rank-3 input gets shape `[1] ++ shape`; an input of any other rank, such as an already batched `[1,28,28,1]`, passes through unchanged; the values are never changed |
| `Model.BatchedInputIdempotent` | model.js:124-127 | applying the batch rule twice is the same as applying it once |
| `Model.MnistModel.Predict` | model.js:114-138 | on a valid model (the fixed topology, compiled, as the constructor leaves it), prediction succeeds exactly for `[28,28,1]` and `[b,28,28,1]` inputs and gives a `[1, 10]` or `[b, 10]` result |

## Left out

- Image loading (`new Image`, `onload`/`onerror`), `fetch`, the promise and `async` sequencing, and `setTimeout` are I/O and event-loop plumbing. The decoded band bytes and the label bytes, or their failure, are inputs to `Load`.
- When both the image and the label request fail, the code rethrows whichever rejection comes first, which depends on timing. `Load` reports `ImageLoadFailed` in that case.
- `ctx.drawImage` and `getImageData` (canvas rasterisation) are foreign calls. Each band's RGBA bytes are taken as given.
- `updateStatus`, DOM lookups, `console.log`, the status wording and the `onEpochEnd` log only observe. Only the progress numbers are recorded: per band by `DecodeSprite`, and per report by `Train`. `load` also emits 0, 20, 50, 70, 80 and 100; these are not modelled. (In the code, the 50% label notice is emitted before the band notices at 20–50%.)
- `Data.DecodeSprite`: values are exact reals `red / 255`. The rounding of a `Float32Array` store is not modelled.
- A failure while allocating or viewing the 204 MB buffer is not modelled.
- `Data.MnistData.Load`: `nTrain` and `nTest` are naturals. Negative or fractional values, which `slice` would read differently, are not modelled.
- `Data.MnistData.TestData`: `numExamples` is a natural. Negative or fractional values are not modelled.
- `Data.BandProgress`: band progress is computed as an exact real, not as a JavaScript double. Double rounding is not modelled.
- `Model.ProgressPercent`: batch progress is computed as an exact real, not as a JavaScript double. Double rounding is not modelled.
- `Model.MnistModel.Train`: the library's `fit` is represented only by how many `onBatchEnd` events it delivers and by whether it rejects. Training numerics, dropout, softmax, the optimiser, shuffling and the validation split are the library's and are left out.
- `Model.MnistModel.Train`: the batch-event count is required to be at most `totalSteps`. The library runs at most `epochs * ceil(m / batchSize)` batches for `m <= n` training examples, so this always holds. (Because the library trains on the first 90% of the examples, batch reports usually stop below 100 before the final "complete" report of 100.)
- `Model.MnistModel.Train` requires `batchSize > 0`. The code passes the value straight to the library, and JavaScript would compute an infinite `totalSteps` for 0.
- `yTrain` is only passed to `fit` and is not modelled. The returned training history is not modelled either.
- `Model.MnistModel.Predict`: the result is the shape of the prediction only, because its values come from the library. The library's input-shape check is modelled by `OutputShape`, where a flatten layer with an `inputShape` accepts `[b] ++ inputShape`.
- The conversion of a non-tensor input to a tensor in `predict` (model.js:119-121) is a library call. The input is always a tensor here.
- The `try`/`catch` of `createModel` is not modelled. It only rethrows library failures, which the fixed configuration does not cause.
- The unused module-level `const model = tf.sequential()` (model.js:1) has no behaviour.
- The weights that `train` changes inside the library are opaque, so `Train` has no `modifies` clause.
- index.js (drawing, charting, the grayscale inversion and the argmax) is UI glue and is not part of this model.
