/** The part of a numpy array the writer depends on: its shape and its
    elements in C order (what `tostring()` serialises). */
module NdArrays {

  /** Sum of a sequence of integers (`np.sum`). */
  function Sum(s: seq<int>): int {
    if s == [] then 0 else s[0] + Sum(s[1..])
  }

  /** Number of elements of an array of the given shape (`np.size`). */
  function Product(shape: seq<nat>): nat {
    if shape == [] then 1 else shape[0] * Product(shape[1..])
  }

  datatype NdArray<T> = NdArray(shape: seq<nat>, flat: seq<T>)

  /** A numpy array always holds exactly as many elements as its shape says. */
  type Array<T> = a: NdArray<T> | |a.flat| == Product(a.shape) witness NdArray([0], [])

  /** `np.zeros(shape)`, with `zero` standing for the zero of the element type. */
  function Filled<T>(shape: seq<nat>, zero: T): (a: Array<T>)
    ensures a.shape == shape
    ensures forall i :: 0 <= i < |a.flat| ==> a.flat[i] == zero
  {
    NdArray(shape, seq(Product(shape), _ => zero))
  }

  /** A one-dimensional array holding `s`. */
  function Vector<T>(s: seq<T>): (a: Array<T>)
    ensures a.shape == [|s|] && a.flat == s
  {
    assert Product([|s|]) == |s| * Product([]);
    NdArray([|s|], s)
  }

  /** A two-dimensional array of `rows` rows and 3 columns is `3 * rows` elements long. */
  lemma {:induction false} RowsOfThree<T>(a: Array<T>, rows: nat)
    requires a.shape == [rows, 3]
    ensures |a.flat| == 3 * rows
  {
    assert Product([3]) == 3 * Product([]);
    assert Product([rows, 3]) == rows * Product([3]);
  }
}
