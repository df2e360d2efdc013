/** `georithm::Vector<T, N>` with `T = int`: a fixed-size tuple of N integer
    coordinates with element-wise arithmetic and the reductions `lengthSq`,
    `scalarProduct` and `abs`. A vector is the sequence of its coordinates in
    index order; its dimension N is the sequence's length, which every
    operation keeps. Where C++ checks at compile time that two vectors have the
    same dimension, the model requires it. */
module Vectors {
  import CppArith

  type Vector = seq<int>

  // ---------------------------------------------------------------------------
  // Construction and element access
  // ---------------------------------------------------------------------------

  /** The private `make`: a vector of dimension `n` whose every coordinate is `value`. */
  function Fill(n: nat, value: int): (v: Vector)
    ensures |v| == n
    ensures forall i :: 0 <= i < n ==> v[i] == value
  {
    if n == 0 then [] else Fill(n - 1, value) + [value]
  }

  /** `Vector::zero()`: every coordinate is the integer zero. */
  function Zero(n: nat): (v: Vector)
    ensures |v| == n
    ensures forall i :: 0 <= i < n ==> v[i] == 0
  {
    Fill(n, 0)
  }

  /** The constructor from exactly two coordinates. */
  function Make2(x: int, y: int): (v: Vector)
    ensures |v| == 2
    ensures v[0] == x && v[1] == y
  {
    [x, y]
  }

  /** The constructor from exactly three coordinates. */
  function Make3(x: int, y: int, z: int): (v: Vector)
    ensures |v| == 3
    ensures v[0] == x && v[1] == y && v[2] == z
  {
    [x, y, z]
  }

  /** `x()`, available from dimension 1 on. */
  function X(v: Vector): (c: int)
    requires 1 <= |v|
    ensures c == v[0]
  {
    v[0]
  }

  /** `y()`, available from dimension 2 on. */
  function Y(v: Vector): (c: int)
    requires 2 <= |v|
    ensures c == v[1]
  {
    v[1]
  }

  /** `z()`, available from dimension 3 on. */
  function Z(v: Vector): (c: int)
    requires 3 <= |v|
    ensures c == v[2]
  {
    v[2]
  }

  /** Writing through the mutable `operator[]`: coordinate `i` becomes `value`
      and no other coordinate changes. */
  function SetAt(v: Vector, i: nat, value: int): (r: Vector)
    requires i < |v|
    ensures |r| == |v|
    ensures r[i] == value
    ensures forall j :: 0 <= j < |v| && j != i ==> r[j] == v[j]
  {
    v[..i] + [value] + v[i + 1..]
  }

  /** The defaulted `operator==`, comparing coordinates in index order and
      stopping at the first pair that differs. */
  method Equals(a: Vector, b: Vector) returns (eq: bool)
    requires |a| == |b|
    ensures eq <==> a == b
  {
    var i := 0;
    while i < |a|
      invariant 0 <= i <= |a|
      invariant forall j :: 0 <= j < i ==> a[j] == b[j]
    {
      if a[i] != b[i] {
        return false;
      }
      i := i + 1;
    }
    return true;
  }

  // ---------------------------------------------------------------------------
  // Element-wise updates
  // ---------------------------------------------------------------------------

  /** `std::for_each` with a lambda that updates each coordinate in place:
      coordinate `i` becomes `f(v[i])`. */
  function ForEach(v: Vector, f: int -> int): (r: Vector)
    ensures |r| == |v|
    ensures forall i :: 0 <= i < |v| ==> r[i] == f(v[i])
  {
    if |v| == 0 then [] else [f(v[0])] + ForEach(v[1..], f)
  }

  /** `zip_elements` over the receiver and a second range of at least the same
      length: coordinate `i` of the receiver is overwritten with `f(a[i], b[i])`. */
  function ZipElements(a: Vector, b: Vector, f: (int, int) -> int): (r: Vector)
    requires |a| <= |b|
    ensures |r| == |a|
    ensures forall i :: 0 <= i < |a| ==> r[i] == f(a[i], b[i])
  {
    if |a| == 0 then [] else [f(a[0], b[0])] + ZipElements(a[1..], b[1..], f)
  }

  /** `a += b` for a vector `b` of the same dimension. */
  function AddAssign(a: Vector, b: Vector): (r: Vector)
    requires |a| == |b|
    ensures |r| == |a|
    ensures forall i :: 0 <= i < |a| ==> r[i] == a[i] + b[i]
  {
    ZipElements(a, b, (lhs, rhs) => lhs + rhs)
  }

  /** `a -= b` for a vector `b` of the same dimension. */
  function SubAssign(a: Vector, b: Vector): (r: Vector)
    requires |a| == |b|
    ensures |r| == |a|
    ensures forall i :: 0 <= i < |a| ==> r[i] == a[i] - b[i]
  {
    ZipElements(a, b, (lhs, rhs) => lhs - rhs)
  }

  /** `v += k` for a scalar `k`. */
  function AddScalar(v: Vector, k: int): (r: Vector)
    ensures |r| == |v|
    ensures forall i :: 0 <= i < |v| ==> r[i] == v[i] + k
  {
    ForEach(v, lhs => lhs + k)
  }

  /** `v -= k` for a scalar `k`. */
  function SubScalar(v: Vector, k: int): (r: Vector)
    ensures |r| == |v|
    ensures forall i :: 0 <= i < |v| ==> r[i] == v[i] - k
  {
    ForEach(v, lhs => lhs - k)
  }

  /** `v *= k` for a scalar `k`. */
  function MulScalar(v: Vector, k: int): (r: Vector)
    ensures |r| == |v|
    ensures forall i :: 0 <= i < |v| ==> r[i] == v[i] * k
  {
    ForEach(v, lhs => lhs * k)
  }

  /** The friend `k * v`: a copy of `v` whose every coordinate is multiplied by `k`. */
  function ScalarTimes(k: int, v: Vector): (r: Vector)
    ensures |r| == |v|
    ensures forall i :: 0 <= i < |v| ==> r[i] == k * v[i]
  {
    ForEach(v, el => el * k)
  }

  /** `v /= k`, which asserts `k != 0`: every coordinate becomes its C++
      truncating quotient by `k`. */
  function DivScalar(v: Vector, k: int): (r: Vector)
    requires k != 0
    ensures |r| == |v|
    // The first element-wise clause spells out, for readability, what
    // `CppArith.Quot`'s own contract already says of the second.
    ensures forall i :: 0 <= i < |v| ==>
      CppArith.Abs(r[i]) * CppArith.Abs(k) <= CppArith.Abs(v[i]) < (CppArith.Abs(r[i]) + 1) * CppArith.Abs(k)
    ensures forall i :: 0 <= i < |v| ==> r[i] == CppArith.Quot(v[i], k)
  {
    ForEach(v, lhs => CppArith.Quot(lhs, k))
  }

  /** `v %= k`, which asserts `k != 0`: every coordinate becomes its C++
      remainder by `k`, smaller than `k` in magnitude and never of the opposite
      sign to the coordinate it replaces. */
  function ModScalar(v: Vector, k: int): (r: Vector)
    requires k != 0
    ensures |r| == |v|
    // The first two element-wise clauses spell out, for readability, what
    // `CppArith.Rem`'s own contract already says of the third.
    ensures forall i :: 0 <= i < |v| ==> CppArith.Abs(r[i]) < CppArith.Abs(k)
    ensures forall i :: 0 <= i < |v| ==> r[i] == 0 || ((r[i] < 0) <==> (v[i] < 0))
    ensures forall i :: 0 <= i < |v| ==> r[i] == CppArith.Rem(v[i], k)
  {
    ForEach(v, lhs => CppArith.Rem(lhs, k))
  }

  // ---------------------------------------------------------------------------
  // Reductions
  // ---------------------------------------------------------------------------

  /** The mathematical sum of the squares of the coordinates. */
  function SumOfSquares(s: seq<int>): (r: int)
    ensures r >= 0
  {
    if |s| == 0 then 0 else s[0] * s[0] + SumOfSquares(s[1..])
  }

  /** The mathematical inner product of two sequences of the same length. */
  function Dot(a: seq<int>, b: seq<int>): (r: int)
    requires |a| == |b|
  {
    if |a| == 0 then 0 else a[0] * b[0] + Dot(a[1..], b[1..])
  }

  /** `std::accumulate` with `value + element * element`, folding from the left
      starting at `acc`. */
  function AccumulateSquares(acc: int, s: seq<int>): (r: int)
    ensures r == acc + SumOfSquares(s)
    decreases |s|
  {
    if |s| == 0 then acc else AccumulateSquares(acc + s[0] * s[0], s[1..])
  }

  /** `std::inner_product` with its default `+` and `*`, folding from the left
      starting at `acc`. */
  function InnerProduct(acc: int, a: seq<int>, b: seq<int>): (r: int)
    requires |a| == |b|
    ensures r == acc + Dot(a, b)
    decreases |a|
  {
    if |a| == 0 then acc else InnerProduct(acc + a[0] * b[0], a[1..], b[1..])
  }

  /** A sum of squares is zero exactly when every term is. */
  lemma {:induction false} SumOfSquaresZeroIff(s: seq<int>)
    ensures SumOfSquares(s) == 0 <==> forall i :: 0 <= i < |s| ==> s[i] == 0
  {
    if |s| > 0 {
      SumOfSquaresZeroIff(s[1..]);
      assert s[0] * s[0] >= 0;
      if s[0] != 0 {
        assert s[0] * s[0] > 0;
      }
      assert forall i :: 1 <= i < |s| ==> s[i] == s[1..][i - 1];
    }
  }

  /** `lengthSq(v)`: the sum of the squared coordinates, accumulated from zero;
      never negative. */
  function LengthSq(v: Vector): (r: int)
    ensures r == SumOfSquares(v)
    ensures r >= 0
  {
    AccumulateSquares(0, v)
  }

  /** `scalarProduct(a, b)` for vectors of the same dimension: the inner
      product accumulated from zero. */
  function ScalarProduct(a: Vector, b: Vector): (r: int)
    requires |a| == |b|
    ensures r == Dot(a, b)
  {
    InnerProduct(0, a, b)
  }

  /** `abs(v)`: every coordinate replaced by its absolute value. */
  function Abs(v: Vector): (r: Vector)
    ensures |r| == |v|
    ensures forall i :: 0 <= i < |v| ==> r[i] >= 0 && (r[i] == v[i] || r[i] == -v[i])
  {
    ForEach(v, el => CppArith.Abs(el))
  }
}
