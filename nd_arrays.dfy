/** n-dimensional arrays as the reshape nodes see them: a shape and the elements
    in logical (row-major) order, which is the order `iter()` visits them. */
module NdArrays {
  import opened Flow

  /** The number of elements of an array of the given shape. */
  function Product(dims: seq<nat>): nat
    decreases |dims|
  {
    if dims == [] then 1 else dims[0] * Product(dims[1..])
  }

  datatype NdArray = NdArray(shape: seq<nat>, data: seq<real>) {
    /** The shape accounts for exactly the elements held. */
    predicate Valid() {
      Product(shape) == |data|
    }
  }

  /** The configuration both reshape nodes receive: the target shape. */
  datatype ArrayReshapeNodeConfig = ArrayReshapeNodeConfig(dimension: seq<nat>)

  /** idx is a multi-index inside an array of the given shape. */
  ghost predicate InBounds(shape: seq<nat>, idx: seq<nat>) {
    |idx| == |shape| && forall k :: 0 <= k < |idx| ==> idx[k] < shape[k]
  }

  /** The row-major position of a multi-index. */
  function Offset(shape: seq<nat>, idx: seq<nat>): nat
    requires |idx| == |shape|
    decreases |shape|
  {
    if shape == [] then 0 else idx[0] * Product(shape[1..]) + Offset(shape[1..], idx[1..])
  }

  lemma MulLeftMono(a: nat, b: nat, c: nat)
    requires a <= b
    ensures a * c <= b * c
  {
  }

  /** Every multi-index inside the shape has a position among the elements. */
  lemma {:induction false} OffsetInRange(shape: seq<nat>, idx: seq<nat>)
    requires InBounds(shape, idx)
    ensures Offset(shape, idx) < Product(shape)
    decreases |shape|
  {
    if shape != [] {
      var p := Product(shape[1..]);
      OffsetInRange(shape[1..], idx[1..]);
      MulLeftMono(idx[0] + 1, shape[0], p);
      assert (idx[0] + 1) * p == idx[0] * p + p;
    }
  }

  lemma PositiveFactor(a: nat, b: nat)
    requires a * b > 0
    ensures b > 0
  {
  }

  /** Quotient and remainder of a position by the size of one slice. */
  lemma DivMod(offset: nat, p: nat, s: nat)
    requires p > 0 && offset < s * p
    ensures offset / p < s && offset % p < p
    ensures (offset / p) * p + offset % p == offset
  {
    if offset / p >= s {
      MulLeftMono(s, offset / p, p);
    }
  }

  /** The multi-index at a row-major position. */
  function Unravel(shape: seq<nat>, offset: nat): (idx: seq<nat>)
    requires offset < Product(shape)
    ensures |idx| == |shape|
    decreases |shape|
  {
    if shape == [] then []
    else
      var p := Product(shape[1..]);
      PositiveFactor(shape[0], p);
      DivMod(offset, p, shape[0]);
      [offset / p] + Unravel(shape[1..], offset % p)
  }

  /** Unravel inverts Offset: it yields an in-bounds index at the given position. */
  lemma {:induction false} UnravelIsInverse(shape: seq<nat>, offset: nat)
    requires offset < Product(shape)
    ensures InBounds(shape, Unravel(shape, offset))
    ensures Offset(shape, Unravel(shape, offset)) == offset
    decreases |shape|
  {
    if shape != [] {
      var p := Product(shape[1..]);
      PositiveFactor(shape[0], p);
      DivMod(offset, p, shape[0]);
      var q, m := offset / p, offset % p;
      var idx := Unravel(shape, offset);
      UnravelIsInverse(shape[1..], m);
      assert idx == [q] + Unravel(shape[1..], m);
      assert idx[1..] == Unravel(shape[1..], m);
      assert Offset(shape, idx) == q * p + Offset(shape[1..], idx[1..]);
    }
  }

  /** The element at a multi-index. */
  function Get(a: NdArray, idx: seq<nat>): real
    requires a.Valid() && InBounds(a.shape, idx)
  {
    OffsetInRange(a.shape, idx);
    a.data[Offset(a.shape, idx)]
  }

  /** The message of ndarray's ShapeError for an element-count mismatch. */
  const IncompatibleShape := "ShapeError/IncompatibleShape: incompatible shapes"
  const OutOfBounds := "ShapeError/OutOfBounds: out of bounds indexing"

  /** `into_shape` on an array in standard layout: it succeeds exactly when the
      new shape holds as many elements, and keeps the elements in row-major order. */
  function IntoShape(a: NdArray, dimension: seq<nat>): (r: Result<NdArray, string>)
    requires a.Valid()
    ensures r.Ok? <==> Product(dimension) == |a.data|
    ensures r.Ok? ==> r.value.Valid() && r.value.shape == dimension && r.value.data == a.data
    ensures r.Err? ==> r.error == IncompatibleShape
  {
    if Product(dimension) == |a.data| then Ok(NdArray(dimension, a.data)) else Err(IncompatibleShape)
  }

  /** `Array::from_iter(array.iter().cloned())`: a one-dimensional array of the
      elements in logical order. */
  function FromIter(elements: seq<real>): (a: NdArray)
    ensures a.Valid() && a.shape == [|elements|] && a.data == elements
  {
    assert Product([|elements|][1..]) == 1;
    NdArray([|elements|], elements)
  }

  /** After a reshape, the element at any multi-index of the new shape is the
      element of the input at the same row-major position. */
  lemma ReshapeKeepsPositions(a: NdArray, dimension: seq<nat>, idx: seq<nat>)
    requires a.Valid() && IntoShape(a, dimension).Ok?
    requires InBounds(dimension, idx)
    ensures Offset(dimension, idx) < Product(a.shape)
    ensures InBounds(a.shape, Unravel(a.shape, Offset(dimension, idx)))
    ensures Get(IntoShape(a, dimension).value, idx) == Get(a, Unravel(a.shape, Offset(dimension, idx)))
  {
    var r := IntoShape(a, dimension).value;
    var o := Offset(dimension, idx);
    OffsetInRange(dimension, idx);
    UnravelIsInverse(a.shape, o);
    var u := Unravel(a.shape, o);
    assert Get(r, idx) == a.data[o];
    assert Get(a, u) == a.data[o];
  }

  /** Reshaping back to the original shape restores the original array. */
  lemma IntoShapeRoundTrip(a: NdArray, dimension: seq<nat>)
    requires a.Valid() && IntoShape(a, dimension).Ok?
    ensures IntoShape(IntoShape(a, dimension).value, a.shape) == Ok(a)
  {
  }
}
