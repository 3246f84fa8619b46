/** Tensors as the demo uses them: a flat sequence of values read row-major
    against a shape. Only the shape bookkeeping of the tensor library is
    modelled; the numerics are not. */
module Tensors {
  import opened Results
  import opened Numbers

  datatype Tensor<T> = Tensor(values: seq<T>, shape: seq<nat>)

  datatype TensorError =
    | ShapeMismatch     // the values do not fill a whole number of rows
    | SliceOutOfRange   // a slice asks for more rows than the tensor has

  /** Number of elements a shape describes. */
  function Size(shape: seq<nat>): nat
  {
    if shape == [] then 1 else shape[0] * Size(shape[1..])
  }

  predicate WellFormed<T>(t: Tensor<T>)
  {
    |t.values| == Size(t.shape)
  }

  /** Elements in one row (everything after the leading dimension). */
  function RowSize(shape: seq<nat>): nat
    requires |shape| > 0
  {
    Size(shape[1..])
  }

  /** `tf.tensorNd(values, [values.length / rowSize, ...rowShape])`: the row count
      is the length divided by the row size, and a length that is not a whole
      number of rows is refused by the tensor constructor. */
  function FromRows<T>(values: seq<T>, rowShape: seq<nat>): (r: Result<Tensor<T>, TensorError>)
    requires Size(rowShape) > 0
    ensures r.Success? <==> |values| % Size(rowShape) == 0
    ensures r.Success? ==> WellFormed(r.value) && r.value.values == values
    ensures r.Success? ==> |r.value.shape| == |rowShape| + 1 && r.value.shape[1..] == rowShape
    ensures r.Success? ==> r.value.shape[0] * Size(rowShape) == |values|
  {
    if |values| % Size(rowShape) == 0 then
      var t := Tensor(values, [|values| / Size(rowShape)] + rowShape);
      assert t.shape[1..] == rowShape;
      Success(t)
    else
      Failure(ShapeMismatch)
  }

  /** `t.slice([0, 0, ...], [n, ...rest])`: the first `n` rows; asking for more
      rows than there are is an error of the tensor library. */
  function TakeRows<T>(t: Tensor<T>, n: nat): (r: Result<Tensor<T>, TensorError>)
    requires WellFormed(t) && |t.shape| > 0
    ensures r.Success? <==> n <= t.shape[0]
    ensures r.Success? ==> WellFormed(r.value)
    ensures r.Success? ==> r.value.shape == [n] + t.shape[1..]
    ensures r.Success? ==> r.value.values == t.values[..n * RowSize(t.shape)]
  {
    if n <= t.shape[0] then
      assert t.shape == [t.shape[0]] + t.shape[1..];
      MulMonotone(n, t.shape[0], RowSize(t.shape));
      var s := Tensor(t.values[..n * RowSize(t.shape)], [n] + t.shape[1..]);
      assert s.shape[1..] == t.shape[1..];
      Success(s)
    else
      Failure(SliceOutOfRange)
  }

  /** `t.expandDims(0)`: a leading dimension of 1 over the same values. */
  function ExpandDims<T>(t: Tensor<T>): (r: Tensor<T>)
    ensures r.values == t.values
    ensures |r.shape| == |t.shape| + 1 && r.shape[0] == 1 && r.shape[1..] == t.shape
    ensures WellFormed(r) <==> WellFormed(t)
  {
    var r := Tensor(t.values, [1] + t.shape);
    assert r.shape[1..] == t.shape;
    r
  }
}
