/** The dataset pipeline of `MnistData` (data.js): decoding the sprite sheet
    into one flat buffer of normalised floats, viewing the label bytes as a
    one-hot matrix, cutting both into a train prefix and a test block, and
    handing them out as tensors. */
module Data {
  import opened Results
  import opened Numbers
  import opened Tensors

  const IMAGE_H: nat := 28
  const IMAGE_W: nat := 28
  /** `IMAGE_H * IMAGE_W`, written out so that the verifier reads products
      with it as linear arithmetic (see ImageSizeIsArea). */
  const IMAGE_SIZE: nat := 784
  const N_CLASSES: nat := 10
  const N_DATA: nat := 65000
  /** Example rows of the sprite decoded per band (`chunkSize` in `load`). */
  const CHUNK_SIZE: nat := 5000
  const DEFAULT_N_TRAIN: nat := 40000
  const DEFAULT_N_TEST: nat := 10000

  type byte = x: int | 0 <= x < 256

  lemma ImageSizeIsArea()
    ensures IMAGE_SIZE == IMAGE_H * IMAGE_W
  {
  }

  // ---------------------------------------------------------------------------
  // Band windows of the decode buffer

  /** Floats in the window of one band. */
  function BandLength(chunkSize: nat): nat
  {
    IMAGE_SIZE * chunkSize
  }

  /** First buffer index of the window of band `i`. */
  function BandStart(i: nat, chunkSize: nat): nat
  {
    i * BandLength(chunkSize)
  }

  predicate InBand(k: nat, i: nat, chunkSize: nat)
  {
    BandStart(i, chunkSize) <= k < BandStart(i + 1, chunkSize)
  }

  /** With `chunkSize` dividing `nData`, the bands laid end to end are exactly
      the `nData * IMAGE_SIZE` floats of the buffer. */
  lemma BandsFillBuffer(nData: nat, chunkSize: nat)
    requires chunkSize > 0 && nData % chunkSize == 0
    ensures (nData / chunkSize) * BandLength(chunkSize) == nData * IMAGE_SIZE
  {
    var q := nData / chunkSize;
    assert nData == q * chunkSize;
    calc {
      q * BandLength(chunkSize);
      q * (IMAGE_SIZE * chunkSize);
      IMAGE_SIZE * (q * chunkSize);
      IMAGE_SIZE * nData;
    }
  }

  /** Every band window the decode loop visits lies inside the buffer. */
  lemma BandInsideBuffer(nData: nat, chunkSize: nat, i: nat)
    requires chunkSize > 0 && nData % chunkSize == 0
    requires i < nData / chunkSize
    ensures BandStart(i + 1, chunkSize) <= nData * IMAGE_SIZE
  {
    MulMonotone(i + 1, nData / chunkSize, BandLength(chunkSize));
    BandsFillBuffer(nData, chunkSize);
  }

  /** Every index lies in the window of band `k / BandLength`. */
  lemma BandOfIndex(chunkSize: nat, k: nat)
    requires chunkSize > 0
    ensures InBand(k, k / BandLength(chunkSize), chunkSize)
  {
    var len := BandLength(chunkSize);
    DivBounds(k, len);
    var q := k / len;
    assert BandStart(q, chunkSize) == q * len;
  }

  /** The band of every buffer index is one the decode loop visits: together
      with BandOfIndex, the visited windows cover the buffer. */
  lemma BandOfIndexVisited(nData: nat, chunkSize: nat, k: nat)
    requires chunkSize > 0 && nData % chunkSize == 0
    requires k < nData * IMAGE_SIZE
    ensures k / BandLength(chunkSize) < nData / chunkSize
  {
    var len := BandLength(chunkSize);
    var count := nData / chunkSize;
    BandsFillBuffer(nData, chunkSize);
    WindowOf(k, len, count);
  }

  lemma DivBounds(k: nat, len: nat)
    requires len > 0
    ensures (k / len) * len <= k < (k / len + 1) * len
  {
    var q := k / len;
    assert k == q * len + k % len;
    assert (q + 1) * len == q * len + len;
  }

  lemma WindowOf(k: nat, len: nat, count: nat)
    requires k < count * len
    ensures k / len < count
  {
    DivBounds(k, len);
    if k / len >= count {
      MulMonotone(count, k / len, len);
    }
  }

  /** No index lies in the windows of two different bands: the windows are
      pairwise disjoint. */
  lemma BandsDisjoint(chunkSize: nat, k: nat, i: nat, i': nat)
    requires InBand(k, i, chunkSize) && InBand(k, i', chunkSize)
    ensures i == i'
  {
    if i < i' {
      MulMonotone(i + 1, i', BandLength(chunkSize));
    } else if i' < i {
      MulMonotone(i' + 1, i, BandLength(chunkSize));
    }
  }

  /** Progress reported before band `i` of `nBands`: `20 + i / nBands * 30`. */
  function BandProgress(i: nat, nBands: nat): (p: real)
    requires i < nBands
    ensures 20.0 <= p < 50.0
  {
    assert (i as real) / (nBands as real) < 1.0;
    20.0 + (i as real / nBands as real * 30.0)
  }

  /** Band progress strictly increases with the band index. */
  lemma BandProgressIncreases(i: nat, i': nat, nBands: nat)
    requires i < i' < nBands
    ensures BandProgress(i, nBands) < BandProgress(i', nBands)
  {
    assert (i as real) / (nBands as real) < (i' as real) / (nBands as real);
  }

  // ---------------------------------------------------------------------------
  // Decoding the sprite

  /** The float written for pixel `j` of a band's RGBA bytes: the pixel's red
      byte over 255, or the buffer's initial 0 when the band has no pixel `j`. */
  function PixelValue(rgba: seq<byte>, j: nat): real
  {
    if 4 * j < |rgba| then rgba[4 * j] as real / 255.0 else 0.0
  }

  /** The window of one band after its inner loop. */
  function DecodeBand(rgba: seq<byte>, bandLen: nat): (w: seq<real>)
    ensures |w| == bandLen
    ensures forall j | 0 <= j < bandLen :: 0.0 <= w[j] <= 1.0
  {
    seq(bandLen, j requires 0 <= j < bandLen => PixelValue(rgba, j))
  }

  /** The whole buffer: the windows of the bands, in band order. */
  function Decoded(bands: seq<seq<byte>>, bandLen: nat): (s: seq<real>)
    ensures |s| == |bands| * bandLen
    ensures forall k | 0 <= k < |s| :: 0.0 <= s[k] <= 1.0
  {
    if bands == [] then []
    else Decoded(bands[..|bands| - 1], bandLen) + DecodeBand(bands[|bands| - 1], bandLen)
  }

  /** Element `i * bandLen + j` of the buffer is pixel `j` of band `i`: its red
      channel over 255. */
  lemma {:induction false} DecodedAt(bands: seq<seq<byte>>, bandLen: nat, i: nat, j: nat)
    requires i < |bands| && j < bandLen
    ensures i * bandLen + j < |Decoded(bands, bandLen)|
    ensures Decoded(bands, bandLen)[i * bandLen + j] == PixelValue(bands[i], j)
  {
    var n := |bands|;
    var init := bands[..n - 1];
    assert Decoded(bands, bandLen) == Decoded(init, bandLen) + DecodeBand(bands[n - 1], bandLen);
    if i < n - 1 {
      DecodedAt(init, bandLen, i, j);
      assert init[i] == bands[i];
      MulMonotone(i + 1, n - 1, bandLen);
    }
  }

  /** The canvas of a band is `width` pixels by `chunkSize` rows, so the inner
      loop visits `width * chunkSize` pixels: a narrower sprite leaves the rest
      of the window at 0, a wider one has its extra pixels dropped by the
      window, and `width == IMAGE_SIZE` fills the window from pixels exactly. */
  lemma BandFromCanvas(rgba: seq<byte>, width: nat, chunkSize: nat, j: nat)
    requires |rgba| == 4 * (width * chunkSize)
    requires j < BandLength(chunkSize)
    ensures DecodeBand(rgba, BandLength(chunkSize))[j]
         == if j < width * chunkSize then rgba[4 * j] as real / 255.0 else 0.0
  {
  }

  /** The decode of `load`: a zeroed buffer of `nData * IMAGE_SIZE` floats,
      filled band by band; band `i` reads its RGBA bytes `bands[i]` and writes
      the window that starts at `i * IMAGE_SIZE * chunkSize`. A write past the
      window is dropped, as a typed-array view drops it. Also returns the
      progress reported before each band. */
  method DecodeSprite(nData: nat, chunkSize: nat, bands: seq<seq<byte>>)
    returns (images: array<real>, progress: seq<real>)
    requires chunkSize > 0 && nData % chunkSize == 0
    requires |bands| == nData / chunkSize
    ensures images.Length == nData * IMAGE_SIZE
    ensures images[..] == Decoded(bands, BandLength(chunkSize))
    ensures |progress| == |bands|
    ensures forall i | 0 <= i < |bands| :: progress[i] == BandProgress(i, |bands|)
  {
    var bandLen := BandLength(chunkSize);
    var nBands := nData / chunkSize;
    BandsFillBuffer(nData, chunkSize);
    images := new real[nData * IMAGE_SIZE](_ => 0.0);
    progress := [];
    for i := 0 to nBands
      invariant i * bandLen <= images.Length
      invariant images[..i * bandLen] == Decoded(bands[..i], bandLen)
      invariant forall k | i * bandLen <= k < images.Length :: images[k] == 0.0
      invariant |progress| == i
      invariant forall b | 0 <= b < i :: progress[b] == BandProgress(b, nBands)
    {
      progress := progress + [BandProgress(i, nBands)];
      var offset := BandStart(i, chunkSize);
      BandInsideBuffer(nData, chunkSize, i);
      ghost var done := images[..offset];
      var rgba := bands[i];
      var j := 0;
      while 4 * j < |rgba|
        invariant j <= |rgba|
        invariant forall k | 0 <= k < offset :: images[k] == done[k]
        invariant forall k | offset <= k < offset + bandLen ::
          images[k] == if k - offset < j then PixelValue(rgba, k - offset) else 0.0
        invariant forall k | offset + bandLen <= k < images.Length :: images[k] == 0.0
        decreases |rgba| - 4 * j
      {
        if j < bandLen {
          images[offset + j] := rgba[4 * j] as real / 255.0;
        }
        j := j + 1;
      }
      assert bands[..i + 1][..i] == bands[..i];
      assert Decoded(bands[..i + 1], bandLen) == done + DecodeBand(rgba, bandLen);
      assert images[..offset + bandLen] == done + DecodeBand(rgba, bandLen);
    }
    assert bands[..nBands] == bands;
  }

  // ---------------------------------------------------------------------------
  // Train / test split

  /** `typedArray.slice(from, to)` for non-negative bounds: both bounds are
      clamped to the length, and the result is empty when `to <= from`. */
  function JsSlice<T>(s: seq<T>, from: nat, to: nat): (r: seq<T>)
    ensures from <= to <= |s| ==> r == s[from..to]
    ensures from <= |s| <= to ==> r == s[from..]
    ensures to <= from || |s| <= from ==> r == []
  {
    var lo := if from < |s| then from else |s|;
    var hi := if to < |s| then to else |s|;
    if lo <= hi then s[lo..hi] else []
  }

  /** Cutting `nTrain` then `nTest` examples of `stride` elements each out of
      data that holds them all: the two parts have the exact lengths and,
      laid end to end, are the prefix of the data they were cut from. */
  lemma SplitIsContiguous<T>(data: seq<T>, stride: nat, nTrain: nat, nTest: nat)
    requires stride * (nTrain + nTest) <= |data|
    ensures |JsSlice(data, 0, stride * nTrain)| == stride * nTrain
    ensures |JsSlice(data, stride * nTrain, stride * (nTrain + nTest))| == stride * nTest
    ensures JsSlice(data, 0, stride * nTrain)
              + JsSlice(data, stride * nTrain, stride * (nTrain + nTest))
            == data[..stride * (nTrain + nTest)]
  {
    var a, b := stride * nTrain, stride * (nTrain + nTest);
    assert b == a + stride * nTest;
    assert data[..a] + data[a..b] == data[..b];
  }

  /** Slicing data made of whole `stride`-element rows at row boundaries gives
      whole rows, however far the bounds are clamped. */
  lemma SliceKeepsRows<T>(data: seq<T>, stride: nat, from: nat, to: nat)
    requires stride > 0 && |data| % stride == 0
    ensures |JsSlice(data, stride * from, stride * to)| % stride == 0
  {
    var m := WholeRows(|data|, stride);
    var x := ClampRow(stride, m, from);
    var y := ClampRow(stride, m, to);
    JsSliceLength(data, stride * from, stride * to);
    RowDifference(stride, x, y);
    var len := |JsSlice(data, stride * from, stride * to)|;
    if x <= y {
      assert len == stride * y - stride * x;
    } else {
      assert len == 0;
    }
  }

  /** A length that is a multiple of `stride` is `m` rows of it. */
  lemma WholeRows(len: nat, stride: nat) returns (m: nat)
    requires stride > 0 && len % stride == 0
    ensures len == stride * m
  {
    m := len / stride;
  }

  /** The distance between two row boundaries is a whole number of rows. */
  lemma RowDifference(stride: nat, x: nat, y: nat)
    requires stride > 0
    ensures x <= y ==> stride * x <= stride * y && (stride * y - stride * x) % stride == 0
    ensures y < x ==> stride * y <= stride * x
  {
    if x <= y {
      MulMonotone(x, y, stride);
      assert stride * y - stride * x == stride * (y - x);
      MultipleMod(stride, y - x);
    } else {
      MulMonotone(y, x, stride);
    }
  }

  /** Length of a clamped slice. */
  lemma JsSliceLength<T>(s: seq<T>, from: nat, to: nat)
    ensures var lo := if from < |s| then from else |s|;
            var hi := if to < |s| then to else |s|;
            |JsSlice(s, from, to)| == if lo <= hi then hi - lo else 0
  {
  }

  /** Clamping a row-boundary bound to the length of data made of `m` rows
      gives the row boundary `min(row, m)`. */
  function ClampRow(stride: nat, m: nat, row: nat): (c: nat)
    ensures c <= m && c <= row
    ensures (if stride * row < stride * m then stride * row else stride * m) == stride * c
  {
    if row < m then
      MulMonotone(row, m, stride);
      row
    else
      MulMonotone(m, row, stride);
      m
  }

  lemma MultipleMod(stride: nat, n: nat)
    requires stride > 0
    ensures (stride * n) % stride == 0
  {
    var q, r := (stride * n) / stride, (stride * n) % stride;
    assert stride * n == stride * q + r;
    if q < n {
      MulMonotone(q + 1, n, stride);
    } else if q > n {
      MulMonotone(n + 1, q, stride);
    }
  }

  /** A label row: `N_CLASSES` bytes, one of them 1 and the others 0. */
  predicate IsOneHot(row: seq<byte>)
  {
    |row| == N_CLASSES &&
    exists c | 0 <= c < N_CLASSES :: row[c] == 1 && forall j | 0 <= j < N_CLASSES && j != c :: row[j] == 0
  }

  /** Label bytes made of whole one-hot rows. */
  predicate OneHotRows(labels: seq<byte>)
  {
    |labels| % N_CLASSES == 0 &&
    forall r | 0 <= r < |labels| / N_CLASSES :: IsOneHot(labels[r * N_CLASSES .. (r + 1) * N_CLASSES])
  }

  /** The label view applies no transformation, so cutting one-hot label bytes
      at row boundaries, as the train and test label splits do, gives one-hot
      rows again. */
  lemma SliceKeepsOneHot(labels: seq<byte>, from: nat, to: nat)
    requires OneHotRows(labels)
    ensures OneHotRows(JsSlice(labels, N_CLASSES * from, N_CLASSES * to))
  {
    var m := |labels| / N_CLASSES;
    var lo := if from < m then from else m;
    var hi := if to < m then to else m;
    var part := JsSlice(labels, N_CLASSES * from, N_CLASSES * to);
    if lo <= hi {
      assert part == labels[N_CLASSES * lo .. N_CLASSES * hi];
      assert |part| == N_CLASSES * (hi - lo);
      forall r | 0 <= r < |part| / N_CLASSES
        ensures IsOneHot(part[r * N_CLASSES .. (r + 1) * N_CLASSES])
      {
        assert lo + r < m;
        SubSlice(labels, N_CLASSES * lo, N_CLASSES * hi, r * N_CLASSES, (r + 1) * N_CLASSES);
        assert N_CLASSES * lo + r * N_CLASSES == (lo + r) * N_CLASSES;
        assert N_CLASSES * lo + (r + 1) * N_CLASSES == (lo + r + 1) * N_CLASSES;
      }
    } else {
      assert part == [];
    }
  }

  lemma SubSlice<T>(s: seq<T>, a: nat, b: nat, c: nat, d: nat)
    requires a <= b <= |s| && c <= d <= b - a
    ensures s[a..b][c..d] == s[a + c .. a + d]
  {
    forall i | 0 <= i < d - c
      ensures s[a..b][c..d][i] == s[a + c .. a + d][i]
    {
      assert s[a..b][c..d][i] == s[a..b][c + i] == s[a + c + i];
    }
  }

  /** Both label splits of one-hot label bytes are one-hot. */
  lemma LabelSplitsOneHot(labels: seq<byte>, nTrain: nat, nTest: nat)
    ensures OneHotRows(labels) ==>
              OneHotRows(JsSlice(labels, 0, N_CLASSES * nTrain))
              && OneHotRows(JsSlice(labels, N_CLASSES * nTrain, N_CLASSES * (nTrain + nTest)))
  {
    if OneHotRows(labels) {
      SliceKeepsOneHot(labels, 0, nTrain);
      SliceKeepsOneHot(labels, nTrain, nTrain + nTest);
    }
  }

  /** The four cuts `load` makes of a decoded buffer of `N_DATA` images and
      of the label bytes: image splits always hold whole images, and each
      pair is contiguous whenever the data holds both parts. */
  lemma SplitFacts(images: seq<real>, labels: seq<byte>, nTrain: nat, nTest: nat)
    requires |images| == N_DATA * IMAGE_SIZE
    ensures |JsSlice(images, 0, IMAGE_SIZE * nTrain)| % IMAGE_SIZE == 0
    ensures |JsSlice(images, IMAGE_SIZE * nTrain, IMAGE_SIZE * (nTrain + nTest))| % IMAGE_SIZE == 0
    ensures nTrain + nTest <= N_DATA ==>
              |JsSlice(images, 0, IMAGE_SIZE * nTrain)| == IMAGE_SIZE * nTrain
              && |JsSlice(images, IMAGE_SIZE * nTrain, IMAGE_SIZE * (nTrain + nTest))| == IMAGE_SIZE * nTest
              && JsSlice(images, 0, IMAGE_SIZE * nTrain)
                   + JsSlice(images, IMAGE_SIZE * nTrain, IMAGE_SIZE * (nTrain + nTest))
                 == images[..IMAGE_SIZE * (nTrain + nTest)]
    ensures N_CLASSES * (nTrain + nTest) <= |labels| ==>
              |JsSlice(labels, 0, N_CLASSES * nTrain)| == N_CLASSES * nTrain
              && |JsSlice(labels, N_CLASSES * nTrain, N_CLASSES * (nTrain + nTest))| == N_CLASSES * nTest
              && JsSlice(labels, 0, N_CLASSES * nTrain)
                   + JsSlice(labels, N_CLASSES * nTrain, N_CLASSES * (nTrain + nTest))
                 == labels[..N_CLASSES * (nTrain + nTest)]
  {
    MultipleMod(IMAGE_SIZE, N_DATA);
    SliceKeepsRows(images, IMAGE_SIZE, 0, nTrain);
    SliceKeepsRows(images, IMAGE_SIZE, nTrain, nTrain + nTest);
    if nTrain + nTest <= N_DATA {
      MulMonotone(nTrain + nTest, N_DATA, IMAGE_SIZE);
      SplitIsContiguous(images, IMAGE_SIZE, nTrain, nTest);
    }
    if N_CLASSES * (nTrain + nTest) <= |labels| {
      SplitIsContiguous(labels, N_CLASSES, nTrain, nTest);
    }
  }

  // ---------------------------------------------------------------------------
  // The dataset object

  /** Shape of one image row of the image tensor. */
  const IMAGE_ROW_SHAPE: seq<nat> := [IMAGE_H, IMAGE_W, 1]

  datatype LoadError =
    | ImageLoadFailed    // the sprite did not load or could not be decoded
    | LabelFetchFailed   // the label request or reading its body failed

  datatype DataError =
    | NotLoaded                     // no load has completed yet
    | BadTensor(cause: TensorError)

  /** Image and label tensors, as `getTrainData` and `getTestData` return them. */
  type Examples = (Tensor<real>, Tensor<byte>)

  lemma ImageRowSize()
    ensures Size(IMAGE_ROW_SHAPE) == IMAGE_SIZE && Size([N_CLASSES]) == N_CLASSES
  {
    assert Size([1]) == 1;
    assert [IMAGE_W, 1][1..] == [1];
    assert Size([IMAGE_W, 1]) == IMAGE_W;
    assert IMAGE_ROW_SHAPE[1..] == [IMAGE_W, 1];
    assert [N_CLASSES][1..] == [];
  }

  /** The image tensor `[n, 28, 28, 1]` and label tensor `[n, 10]` over flat
      image and label data, failing as the tensor constructor does. */
  function ExampleTensors(images: seq<real>, labels: seq<byte>): (r: Result<Examples, DataError>)
    ensures r.Success? <==> |images| % IMAGE_SIZE == 0 && |labels| % N_CLASSES == 0
    ensures r.Success? ==> WellFormed(r.value.0) && WellFormed(r.value.1)
    ensures r.Success? ==>
              r.value.0.values == images && r.value.0.shape == [|images| / IMAGE_SIZE] + IMAGE_ROW_SHAPE
    ensures r.Success? ==>
              r.value.1.values == labels && r.value.1.shape == [|labels| / N_CLASSES, N_CLASSES]
  {
    ImageRowSize();
    match FromRows(images, IMAGE_ROW_SHAPE)
    case Failure(e) => Failure(BadTensor(e))
    case Success(x) =>
      match FromRows(labels, [N_CLASSES])
      case Failure(e) => Failure(BadTensor(e))
      case Success(y) =>
        assert x.shape == [x.shape[0]] + x.shape[1..];
        assert y.shape == [y.shape[0]] + y.shape[1..];
        Success((x, y))
  }

  class MnistData {
    var isDownloaded: bool
    var datasetImages: seq<real>
    var datasetLabels: seq<byte>
    var trainImages: seq<real>
    var testImages: seq<real>
    var trainLabels: seq<byte>
    var testLabels: seq<byte>

    /** The decoded buffer and, once a load completed, the image splits hold
        whole images. */
    ghost predicate Valid()
      reads this
    {
      |datasetImages| % IMAGE_SIZE == 0 &&
      (isDownloaded ==> |trainImages| % IMAGE_SIZE == 0 && |testImages| % IMAGE_SIZE == 0)
    }

    constructor ()
      ensures Valid() && !isDownloaded
      ensures datasetImages == [] && datasetLabels == []
      ensures trainImages == [] && testImages == [] && trainLabels == [] && testLabels == []
    {
      isDownloaded := false;
      datasetImages, datasetLabels := [], [];
      trainImages, testImages, trainLabels, testLabels := [], [], [], [];
    }

    /** `load(nTrain, nTest)`. `sprite` is the RGBA data of each band as the
        canvas returns it (`None` when the image fails to load); `labels` is
        the body of the label request (`None` when the request or reading its
        body fails). */
    method Load(sprite: Option<seq<seq<byte>>>, labels: Option<seq<byte>>,
                nTrain: nat := DEFAULT_N_TRAIN, nTest: nat := DEFAULT_N_TEST)
      returns (r: Outcome<LoadError>)
      requires Valid()
      requires sprite.Some? ==> |sprite.value| == N_DATA / CHUNK_SIZE
      modifies this
      ensures Valid()
      ensures r == if sprite.None? then Fail(ImageLoadFailed)
                   else if labels.None? then Fail(LabelFetchFailed)
                   else Pass
      ensures datasetImages == if sprite.Some? then Decoded(sprite.value, BandLength(CHUNK_SIZE))
                               else old(datasetImages)
      // a failed load leaves the label view, the splits and the flag as they were
      ensures r.Fail? ==> isDownloaded == old(isDownloaded) && datasetLabels == old(datasetLabels)
      ensures r.Fail? ==>
                trainImages == old(trainImages) && testImages == old(testImages)
                && trainLabels == old(trainLabels) && testLabels == old(testLabels)
      // a successful one sets the flag after all four splits
      ensures r.Pass? ==> isDownloaded && datasetLabels == labels.value
      ensures r.Pass? ==>
                trainImages == JsSlice(datasetImages, 0, IMAGE_SIZE * nTrain)
                && testImages == JsSlice(datasetImages, IMAGE_SIZE * nTrain, IMAGE_SIZE * (nTrain + nTest))
                && trainLabels == JsSlice(datasetLabels, 0, N_CLASSES * nTrain)
                && testLabels == JsSlice(datasetLabels, N_CLASSES * nTrain, N_CLASSES * (nTrain + nTest))
      ensures r.Pass? && nTrain + nTest <= N_DATA ==>
                |trainImages| == IMAGE_SIZE * nTrain && |testImages| == IMAGE_SIZE * nTest
                && trainImages + testImages == datasetImages[..IMAGE_SIZE * (nTrain + nTest)]
      ensures r.Pass? && N_CLASSES * (nTrain + nTest) <= |datasetLabels| ==>
                |trainLabels| == N_CLASSES * nTrain && |testLabels| == N_CLASSES * nTest
                && trainLabels + testLabels == datasetLabels[..N_CLASSES * (nTrain + nTest)]
      ensures r.Pass? && OneHotRows(datasetLabels) ==> OneHotRows(trainLabels) && OneHotRows(testLabels)
    {
      if sprite.None? {
        return Fail(ImageLoadFailed);
      }
      var images, bandProgress := DecodeSprite(N_DATA, CHUNK_SIZE, sprite.value);
      datasetImages := images[..];
      MultipleMod(IMAGE_SIZE, N_DATA);
      if labels.None? {
        return Fail(LabelFetchFailed);
      }
      var lab := labels.value;
      var trI := JsSlice(datasetImages, 0, IMAGE_SIZE * nTrain);
      var teI := JsSlice(datasetImages, IMAGE_SIZE * nTrain, IMAGE_SIZE * (nTrain + nTest));
      var trL := JsSlice(lab, 0, N_CLASSES * nTrain);
      var teL := JsSlice(lab, N_CLASSES * nTrain, N_CLASSES * (nTrain + nTest));
      SplitFacts(datasetImages, lab, nTrain, nTest);
      LabelSplitsOneHot(lab, nTrain, nTest);
      datasetLabels := lab;
      trainImages, testImages, trainLabels, testLabels := trI, teI, trL, teL;
      isDownloaded := true;
      r := Pass;
    }

    /** `getTrainData()`: all training examples, with as many rows as the
        splits hold whole images and labels. */
    function TrainData(): (r: Result<Examples, DataError>)
      reads this
      ensures r.Success? <==> isDownloaded && |trainImages| % IMAGE_SIZE == 0
                              && |trainLabels| % N_CLASSES == 0
      ensures !isDownloaded ==> r == Failure(NotLoaded)
      ensures Valid() && isDownloaded ==> (r.Success? <==> |trainLabels| % N_CLASSES == 0)
      ensures r.Success? ==> WellFormed(r.value.0) && WellFormed(r.value.1)
      ensures r.Success? ==>
                r.value.0.values == trainImages
                && r.value.0.shape == [|trainImages| / IMAGE_SIZE, IMAGE_H, IMAGE_W, 1]
      ensures r.Success? ==>
                r.value.1.values == trainLabels
                && r.value.1.shape == [|trainLabels| / N_CLASSES, N_CLASSES]
    {
      if !isDownloaded then Failure(NotLoaded) else ExampleTensors(trainImages, trainLabels)
    }

    /** `getTestData(numExamples)`: all test examples, or only the first
        `numExamples` of them when it is given. */
    function TestData(numExamples: Option<nat>): (r: Result<Examples, DataError>)
      reads this
      ensures !isDownloaded ==> r == Failure(NotLoaded)
      ensures numExamples.None? ==>
                (r.Success? <==> isDownloaded && |testImages| % IMAGE_SIZE == 0
                                 && |testLabels| % N_CLASSES == 0)
      ensures Valid() && isDownloaded && numExamples.None? ==>
                (r.Success? <==> |testLabels| % N_CLASSES == 0)
      ensures numExamples.None? && r.Success? ==>
                r.value.0.values == testImages
                && r.value.0.shape == [|testImages| / IMAGE_SIZE, IMAGE_H, IMAGE_W, 1]
                && r.value.1.values == testLabels
                && r.value.1.shape == [|testLabels| / N_CLASSES, N_CLASSES]
      ensures numExamples.Some? ==>
                (r.Success? <==> isDownloaded && |testImages| % IMAGE_SIZE == 0
                                 && |testLabels| % N_CLASSES == 0
                                 && numExamples.value <= |testImages| / IMAGE_SIZE
                                 && numExamples.value <= |testLabels| / N_CLASSES)
      ensures numExamples.Some? && r.Success? ==>
                var n := numExamples.value;
                r.value.0.values == testImages[..n * IMAGE_SIZE]
                && r.value.0.shape == [n, IMAGE_H, IMAGE_W, 1]
                && r.value.1.values == testLabels[..n * N_CLASSES]
                && r.value.1.shape == [n, N_CLASSES]
      ensures r.Success? ==> WellFormed(r.value.0) && WellFormed(r.value.1)
    {
      if !isDownloaded then Failure(NotLoaded)
      else
        match ExampleTensors(testImages, testLabels)
        case Failure(e) => Failure(e)
        case Success(all) =>
          match numExamples
          case None => Success(all)
          case Some(n) =>
            ImageRowSize();
            assert RowSize(all.0.shape) == IMAGE_SIZE && RowSize(all.1.shape) == N_CLASSES;
            match TakeRows(all.0, n)
            case Failure(e) => Failure(BadTensor(e))
            case Success(x) =>
              match TakeRows(all.1, n)
              case Failure(e) => Failure(BadTensor(e))
              case Success(y) => Success((x, y))
    }
  }
}
