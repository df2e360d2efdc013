/** Laws that relate the operations of `Vectors` to one another: inverse pairs,
    commutativity of scalar multiplication, symmetry of the scalar product and
    what `abs` keeps. */
module VectorLaws {
  import CppArith
  import opened Vectors

  // ---------------------------------------------------------------------------
  // Construction and access
  // ---------------------------------------------------------------------------

  /** The named accessors read back what the constructor was given. */
  lemma AccessorsReadConstructor(x: int, y: int, z: int)
    ensures X(Make2(x, y)) == x && Y(Make2(x, y)) == y
    ensures X(Make3(x, y, z)) == x && Y(Make3(x, y, z)) == y && Z(Make3(x, y, z)) == z
  {
  }

  /** A vector of dimension two or three is rebuilt from its accessors. */
  lemma ConstructorOfAccessors(v: Vector)
    ensures |v| == 2 ==> Make2(X(v), Y(v)) == v
    ensures |v| == 3 ==> Make3(X(v), Y(v), Z(v)) == v
  {
  }

  /** Writing a coordinate's own value back through `operator[]` changes nothing. */
  lemma SetAtOwnValue(v: Vector, i: nat)
    requires i < |v|
    ensures SetAt(v, i, v[i]) == v
  {
  }

  /** The zero vector has squared length zero, and it is the only vector of
      its dimension that has. */
  lemma ZeroIsOnlyNullLength(v: Vector)
    ensures LengthSq(Zero(|v|)) == 0
    ensures LengthSq(v) == 0 <==> v == Zero(|v|)
  {
    SumOfSquaresZeroIff(v);
    SumOfSquaresZeroIff(Zero(|v|));
  }

  // ---------------------------------------------------------------------------
  // Inverse pairs
  // ---------------------------------------------------------------------------

  /** `a += b` followed by `a -= b` restores `a`. */
  lemma AddThenSubRestores(a: Vector, b: Vector)
    requires |a| == |b|
    ensures SubAssign(AddAssign(a, b), b) == a
  {
  }

  /** `a -= b` followed by `a += b` restores `a`. */
  lemma SubThenAddRestores(a: Vector, b: Vector)
    requires |a| == |b|
    ensures AddAssign(SubAssign(a, b), b) == a
  {
  }

  /** Scalar `v += k` followed by `v -= k` restores `v`, and the other way round. */
  lemma ScalarAddSubRestore(v: Vector, k: int)
    ensures SubScalar(AddScalar(v, k), k) == v
    ensures AddScalar(SubScalar(v, k), k) == v
  {
  }

  /** `v *= k` followed by `v /= k` restores `v` for any non-zero `k`: integer
      division of an exact multiple loses nothing. */
  lemma MulThenDivRestores(v: Vector, k: int)
    requires k != 0
    ensures DivScalar(MulScalar(v, k), k) == v
  {
    var m := MulScalar(v, k);
    forall i | 0 <= i < |v|
      ensures DivScalar(m, k)[i] == v[i]
    {
      CppArith.QuotOfMultiple(v[i], k);
    }
  }

  /** `(v / k) * k + v % k == v` coordinate by coordinate, the identity C++
      guarantees for its truncating `/` and `%`. */
  lemma DivModReconstructs(v: Vector, k: int)
    requires k != 0
    ensures AddAssign(MulScalar(DivScalar(v, k), k), ModScalar(v, k)) == v
  {
  }

  // ---------------------------------------------------------------------------
  // Scalar multiplication
  // ---------------------------------------------------------------------------

  /** Scalar multiplication commutes: the friend `k * v` equals `v *= k`. */
  lemma ScalarTimesCommutes(k: int, v: Vector)
    ensures ScalarTimes(k, v) == MulScalar(v, k)
  {
  }

  // ---------------------------------------------------------------------------
  // Reductions
  // ---------------------------------------------------------------------------

  /** The inner product does not depend on the order of its operands. */
  lemma {:induction false} DotSymmetric(a: seq<int>, b: seq<int>)
    requires |a| == |b|
    ensures Dot(a, b) == Dot(b, a)
  {
    if |a| > 0 {
      DotSymmetric(a[1..], b[1..]);
      assert a[0] * b[0] == b[0] * a[0];
    }
  }

  /** `scalarProduct` is symmetric. */
  lemma ScalarProductSymmetric(a: Vector, b: Vector)
    requires |a| == |b|
    ensures ScalarProduct(a, b) == ScalarProduct(b, a)
  {
    DotSymmetric(a, b);
  }

  /** The inner product of a sequence with itself is its sum of squares. */
  lemma {:induction false} DotSelf(s: seq<int>)
    ensures Dot(s, s) == SumOfSquares(s)
  {
    if |s| > 0 {
      DotSelf(s[1..]);
    }
  }

  /** The scalar product of a vector with itself is its squared length. */
  lemma ScalarProductWithSelf(v: Vector)
    ensures ScalarProduct(v, v) == LengthSq(v)
  {
    DotSelf(v);
  }

  /** Two sequences whose coordinates have equal squares have equal sums of squares. */
  lemma {:induction false} SumOfSquaresBySquares(a: seq<int>, b: seq<int>)
    requires |a| == |b|
    requires forall i :: 0 <= i < |a| ==> a[i] * a[i] == b[i] * b[i]
    ensures SumOfSquares(a) == SumOfSquares(b)
  {
    if |a| > 0 {
      assert a[0] * a[0] == b[0] * b[0];
      assert forall i :: 0 <= i < |a| - 1 ==> a[1..][i] == a[i + 1] && b[1..][i] == b[i + 1];
      SumOfSquaresBySquares(a[1..], b[1..]);
    }
  }

  /** `abs` is idempotent. */
  lemma AbsIdempotent(v: Vector)
    ensures Abs(Abs(v)) == Abs(v)
  {
  }

  /** `abs` keeps the squared length. */
  lemma AbsKeepsLengthSq(v: Vector)
    ensures LengthSq(Abs(v)) == LengthSq(v)
  {
    var r := Abs(v);
    forall i | 0 <= i < |v|
      ensures r[i] * r[i] == v[i] * v[i]
    {
      if r[i] != v[i] {
        assert r[i] == -v[i];
      }
    }
    SumOfSquaresBySquares(r, v);
  }
}
