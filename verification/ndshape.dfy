/** The part of `ndarray` the wrapper relies on: turning a flat, standard-layout
    sequence into an N-dimensional array with `into_shape`, and the row-major
    order in which such an array is indexed. */
module NdShape {
  import opened OrtTypes

  /** Number of elements of an array of shape `dims`. */
  function Product(dims: seq<nat>): nat
  {
    if dims == [] then 1 else dims[0] * Product(dims[1..])
  }

  /** An owned or borrowed N-dimensional array in standard (row-major) layout. */
  datatype NdArray<T> = NdArray(shape: seq<usize>, data: seq<T>)

  /** `idx` addresses an element of an array of shape `dims`. */
  ghost predicate InBounds(dims: seq<nat>, idx: seq<nat>)
  {
    |idx| == |dims| && forall i :: 0 <= i < |dims| ==> idx[i] < dims[i]
  }

  /** The position, in the flat data, of the element at `idx` (row-major). */
  function FlatIndex(dims: seq<nat>, idx: seq<nat>): (k: nat)
    requires InBounds(dims, idx)
    ensures k < Product(dims)
    decreases |dims|
  {
    if dims == [] then 0
    else
      var inner := FlatIndex(dims[1..], idx[1..]);
      MulBound(idx[0], dims[0], Product(dims[1..]), inner);
      idx[0] * Product(dims[1..]) + inner
  }

  /** `q * d + r < n * d` whenever `q < n` and `r < d`. */
  lemma MulBound(q: nat, n: nat, d: nat, r: nat)
    requires q < n && r < d
    ensures q * d + r < n * d
  {
    calc {
      q * d + r;
    <  q * d + d;
    == (q + 1) * d;
    <= { assert q + 1 <= n; } n * d;
    }
  }

  /** Multiplication by a natural number is monotone. */
  lemma MulMonotone(a: nat, b: nat, c: nat)
    requires a <= b
    ensures a * c <= b * c
  {
  }

  /** Euclidean division recovers quotient and remainder of `q * d + r`. */
  lemma DivModOfMulAdd(q: nat, d: nat, r: nat)
    requires r < d
    ensures (q * d + r) / d == q && (q * d + r) % d == r
  {
    var n := q * d + r;
    var q', r' := n / d, n % d;
    assert q' * d + r' == q * d + r;
    if q' < q {
      MulBound(q', q, d, r');
      assert false;
    } else if q' > q {
      MulBound(q, q', d, r);
      assert false;
    }
  }

  /** The multi-index of flat position `k`: the inverse of FlatIndex. */
  function Unflatten(dims: seq<nat>, k: nat): (idx: seq<nat>)
    requires k < Product(dims)
    ensures InBounds(dims, idx) && FlatIndex(dims, idx) == k
    decreases |dims|
  {
    if dims == [] then []
    else
      var inner := Product(dims[1..]);
      DivBound(k, dims[0], inner);
      var q: nat, rest := k / inner, Unflatten(dims[1..], k % inner);
      var idx: seq<nat> := [q] + rest;
      assert idx[0] == q && idx[1..] == rest;
      idx
  }

  /** Quotient and remainder of a position below `n * d`. */
  lemma DivBound(k: nat, n: nat, d: nat)
    requires k < n * d
    ensures d > 0 && k / d < n && k % d < d && (k / d) * d + k % d == k
  {
    if k / d >= n {
      MulMonotone(n, k / d, d);
    }
  }

  /** Row-major indexing is one-to-one: distinct in-bounds indices name
      distinct positions, so every flat element has exactly one index. */
  lemma {:induction false} FlatIndexInjective(dims: seq<nat>, i: seq<nat>, j: seq<nat>)
    requires InBounds(dims, i) && InBounds(dims, j)
    requires FlatIndex(dims, i) == FlatIndex(dims, j)
    ensures i == j
    decreases |dims|
  {
    if dims != [] {
      var inner := Product(dims[1..]);
      var fi, fj := FlatIndex(dims[1..], i[1..]), FlatIndex(dims[1..], j[1..]);
      DivModOfMulAdd(i[0], inner, fi);
      DivModOfMulAdd(j[0], inner, fj);
      FlatIndexInjective(dims[1..], i[1..], j[1..]);
      assert i == [i[0]] + i[1..] && j == [j[0]] + j[1..];
    }
  }

  /** `ArrayBase::into_shape` on a flat, standard-layout sequence: it succeeds
      exactly when the shape holds as many elements as the sequence, and the
      array then has that shape and those elements in that order. */
  function IntoShape<T>(flat: seq<T>, dims: seq<usize>): (r: Option<NdArray<T>>)
    ensures r.Some? <==> Product(dims) == |flat|
    ensures r.Some? ==> r.value.shape == dims && r.value.data == flat
  {
    if Product(dims) == |flat| then Some(NdArray(dims, flat)) else None
  }

  /** `into_shape(dims).expect(..)` (or `.unwrap()`): a shape mismatch panics with `fault`. */
  function ShapeOrPanic<T>(flat: seq<T>, dims: seq<usize>, fault: Fault): (r: Outcome<NdArray<T>>)
    ensures !r.Err?
  {
    match IntoShape(flat, dims)
    case Some(a) => Ok(a)
    case None => Panic(fault)
  }

  /** The element of `a` at multi-index `idx`. */
  function At<T>(a: NdArray<T>, idx: seq<nat>): T
    requires |a.data| == Product(a.shape) && InBounds(a.shape, idx)
  {
    a.data[FlatIndex(a.shape, idx)]
  }

  /** A successful reshape neither truncates nor pads: every element of the
      flat sequence is the element of exactly one index of the array, in
      row-major order, and a shape mismatch always panics with `fault`. */
  lemma ShapeOrPanicKeepsElements<T>(flat: seq<T>, dims: seq<usize>, fault: Fault)
    ensures ShapeOrPanic(flat, dims, fault).Ok? <==> Product(dims) == |flat|
    ensures !ShapeOrPanic(flat, dims, fault).Ok? ==> ShapeOrPanic(flat, dims, fault) == Panic(fault)
    ensures ShapeOrPanic(flat, dims, fault).Ok? ==>
      var a := ShapeOrPanic(flat, dims, fault).value;
      && a.shape == dims && |a.data| == Product(a.shape)
      && (forall idx :: InBounds(dims, idx) ==> At(a, idx) == flat[FlatIndex(dims, idx)])
      && (forall k :: 0 <= k < |flat| ==> At(a, Unflatten(dims, k)) == flat[k])
  {
  }

  /** Example: the flat data 1..6 viewed with shape [2, 3] is
      [[1, 2, 3], [4, 5, 6]]. */
  lemma ReshapeTwoByThree()
    ensures ShapeOrPanic([1, 2, 3, 4, 5, 6], [2, 3], ShapeIncorrect).Ok?
    ensures var a := ShapeOrPanic([1, 2, 3, 4, 5, 6], [2, 3], ShapeIncorrect).value;
      && At(a, [0, 0]) == 1 && At(a, [0, 1]) == 2 && At(a, [0, 2]) == 3
      && At(a, [1, 0]) == 4 && At(a, [1, 1]) == 5 && At(a, [1, 2]) == 6
  {
    var a := ShapeOrPanic([1, 2, 3, 4, 5, 6], [2, 3], ShapeIncorrect).value;
    assert Product([3]) == 3;
  }
}
