# georithm: integer vectors and bounding boxes, in Dafny

This project models two pieces of the georithm C++ geometry library, with the
element type fixed to unbounded integers:

- `Vector<T, N>` (include/georithm/Vector.hpp): a tuple of N coordinates with the
  zero vector, the two- and three-argument constructors, indexed access and the
  `x/y/z` accessors, structural equality, element-wise `+=`/`-=` with another
  vector, scalar `+=`, `-=`, `*=`, `/=`, `%=`, the friend `k * v`, and the free
  functions `lengthSq`, `scalarProduct` and `abs`.
- Bounding extraction and normalisation (include/georithm/Bounding.hpp): `left`,
  `right`, `top` and `bottom` of an axis-aligned box stored as
  `position + span` with a possibly negative span, and `makeBoundingRect`, which
  rebuilds the box from `(left, top)` with a non-negative span. The public
  `georithm::` functions forward unchanged to the `detail::` ones and are
  modelled by the same members.

Layout:

- `cpp_arith.dfy`, module `CppArith`: C++ integer `/` (truncating toward zero),
  `%` (sign of the dividend) and `std::abs`, written out because Dafny's own
  `/` and `%` are Euclidean.
- `vector.dfy`, module `Vectors`: a vector is a `seq<int>` whose length is its
  dimension N. Compound assignments are pure functions returning the new
  receiver. The right-hand operand, vector or scalar, is taken as a value
  separate from the receiver; the source's scalar operators take it by
  reference, and what that changes when it is a coordinate of the receiver is
  listed under "Left out". `std::for_each` with an
  in-place lambda is `ForEach`, and `zip_elements` (whose header is not part of
  this model) is `ZipElements`, which writes each lambda result back into the
  first range, the way the integral `rotate` relies on it. The read-only
  `operator[]` is sequence indexing. The source does not assert the index:
  an index of N or more is undefined behaviour of `std::array`, and the model
  makes `index < N` a precondition. The default constructor value-initialises,
  which is `Zero`.
  `lengthSq` and `scalarProduct` are left folds from zero exactly like
  `std::accumulate` and `std::inner_product`, proved equal to the plain sums
  `SumOfSquares` and `Dot`.
- `vector_laws.dfy`, module `VectorLaws`: inverse pairs, commutativity,
  symmetry and what `abs` keeps.
- `bounding.dfy`, module `Bounding`: the box record `Aabb` (two 2-vectors) and
  the extraction and normalisation functions. The null predicate and the
  vertex count come from headers that are not part of this model; they are
  the two function-valued fields of `Traits`, passed to every function, and
  appear only in preconditions. Every assertion in the modelled operations (`!isNull`,
  `2 <= vertexCount`, a non-zero divisor) is a `requires`. The equal
  dimensions that C++ enforces at compile time, through the shared template
  parameter and the `dimensions` constraint of `scalarProduct`, are a
  `requires` as well.

## Model

| member | source | states |
|---|---|---|
| CppArith.Abs | include/georithm/Vector.hpp:334-335 | `std::abs` gives a non-negative value equal to the argument or its negation |
| CppArith.Quot | include/georithm/Vector.hpp:190-200 | C++ `a / b` for `b != 0`: its magnitude is the whole number of times `abs(b)` fits into `abs(a)`, and it is negative only when the operands' signs differ (truncation toward zero) |
| CppArith.Rem | include/georithm/Vector.hpp:202-212 | C++ `a % b` for `b != 0`: `(a / b) * b + a % b == a`, the remainder is smaller than the divisor in magnitude and is zero or has the sign of the dividend |
| CppArith.TruncatedDivisionUnique | include/georithm/Vector.hpp:190-212 | any quotient and remainder meeting the C++ identity, bound and sign rule are exactly `Quot` and `Rem` |
| CppArith.AgreesWithEuclideanOnNaturals | include/georithm/Vector.hpp:190-212 | for a non-negative dividend and positive divisor, C++ and Euclidean division coincide |
| CppArith.DiffersFromEuclideanOnNegatives | include/georithm/Vector.hpp:190-212 | `-7 / 2` is `-3` with remainder `-1` in C++, while the Euclidean pair is `-4` and `1` |
| CppArith.QuotOfMultiple | include/georithm/Vector.hpp:190-212 | dividing `a * k` by `k != 0` gives `a` with remainder 0 |
| Vectors.Fill | include/georithm/Vector.hpp:277-282 | the private `make` gives a vector of dimension N whose every coordinate is the given value |
| Vectors.Zero | include/georithm/Vector.hpp:63-66 | `zero()` has dimension N and every coordinate 0 |
| Vectors.Make2 | include/georithm/Vector.hpp:45-50 | the constructor from two coordinates gives a vector of dimension 2 holding them in order |
| Vectors.Make3 | include/georithm/Vector.hpp:45-50 | the constructor from three coordinates gives a vector of dimension 3 holding them in order |
| Vectors.X | include/georithm/Vector.hpp:78-90 | `x()` needs dimension at least 1 and reads coordinate 0 |
| Vectors.Y | include/georithm/Vector.hpp:92-104 | `y()` needs dimension at least 2 and reads coordinate 1 |
| Vectors.Z | include/georithm/Vector.hpp:106-118 | `z()` needs dimension at least 3 and reads coordinate 2 |
| Vectors.SetAt | include/georithm/Vector.hpp:73-76 | writing through the mutable `operator[]` at `i < N` sets coordinate `i`, keeps the dimension and leaves every other coordinate alone |
| Vectors.Equals | include/georithm/Vector.hpp:120 | the defaulted `==` on vectors of one dimension answers true exactly when all coordinates are pairwise equal |
| Vectors.ForEach | include/georithm/Vector.hpp:150-154 | an in-place `std::for_each` keeps the dimension and replaces each coordinate by the lambda applied to it |
| Vectors.ZipElements | include/georithm/Vector.hpp:126-130 | `zip_elements` keeps the first range's length and writes the lambda of each coordinate pair back into it |
| Vectors.AddAssign | include/georithm/Vector.hpp:122-132 | vector `+=` keeps dimension N and coordinate `i` becomes `a[i] + b[i]` |
| Vectors.SubAssign | include/georithm/Vector.hpp:134-144 | vector `-=` keeps dimension N and coordinate `i` becomes `a[i] - b[i]` |
| Vectors.AddScalar | include/georithm/Vector.hpp:146-155 | scalar `+= k` adds `k` to every coordinate and keeps the dimension |
| Vectors.SubScalar | include/georithm/Vector.hpp:157-166 | scalar `-= k` subtracts `k` from every coordinate and keeps the dimension |
| Vectors.MulScalar | include/georithm/Vector.hpp:168-177 | scalar `*= k` multiplies every coordinate by `k` and keeps the dimension |
| Vectors.ScalarTimes | include/georithm/Vector.hpp:179-188 | the friend `k * v` multiplies every coordinate of a copy of `v` by `k` |
| Vectors.DivScalar | include/georithm/Vector.hpp:190-200 | `/= k` requires `k != 0`, keeps the dimension and makes each coordinate its truncating quotient by `k` |
| Vectors.ModScalar | include/georithm/Vector.hpp:202-212 | `%= k` requires `k != 0`, keeps the dimension and makes each coordinate a remainder smaller than `k` in magnitude with the coordinate's sign |
| Vectors.AccumulateSquares | include/georithm/Vector.hpp:292-296 | the left fold `value + element * element` from `acc` equals `acc` plus the sum of squares |
| Vectors.InnerProduct | include/georithm/Vector.hpp:305 | the left fold of `std::inner_product` from `acc` equals `acc` plus the inner product |
| Vectors.SumOfSquaresZeroIff | include/georithm/Vector.hpp:288-297 | a sum of integer squares is zero exactly when every term is zero |
| Vectors.LengthSq | include/georithm/Vector.hpp:288-297 | `lengthSq` is the sum of the squared coordinates and is never negative |
| Vectors.ScalarProduct | include/georithm/Vector.hpp:299-306 | `scalarProduct` of two vectors of one dimension is their inner product |
| Vectors.Abs | include/georithm/Vector.hpp:330-337 | `abs` keeps the dimension and makes each coordinate non-negative and equal to the original or its negation |
| VectorLaws.AccessorsReadConstructor | include/georithm/Vector.hpp:45-118 | `x()`, `y()` and `z()` read back the arguments given to the constructor |
| VectorLaws.ConstructorOfAccessors | include/georithm/Vector.hpp:45-118 | a vector of dimension two or three is rebuilt from its accessors |
| VectorLaws.SetAtOwnValue | include/georithm/Vector.hpp:68-76 | writing a coordinate's own value back changes nothing |
| VectorLaws.ZeroIsOnlyNullLength | include/georithm/Vector.hpp:63-66 | `lengthSq(zero()) == 0`, and no other vector of the dimension has squared length zero |
| VectorLaws.AddThenSubRestores | include/georithm/Vector.hpp:122-144 | `a += b` then `a -= b` restores `a` |
| VectorLaws.SubThenAddRestores | include/georithm/Vector.hpp:122-144 | `a -= b` then `a += b` restores `a` |
| VectorLaws.ScalarAddSubRestore | include/georithm/Vector.hpp:146-166 | scalar `+= k` then `-= k` restores the vector, and so does the opposite order |
| VectorLaws.MulThenDivRestores | include/georithm/Vector.hpp:168-200 | `*= k` then `/= k` restores the vector for any `k != 0` |
| VectorLaws.DivModReconstructs | include/georithm/Vector.hpp:190-212 | `(v /= k) *= k` plus `v %= k` gives back `v` |
| VectorLaws.ScalarTimesCommutes | include/georithm/Vector.hpp:168-188 | `k * v` equals `v *= k` |
| VectorLaws.ScalarProductSymmetric | include/georithm/Vector.hpp:299-306 | `scalarProduct(a, b) == scalarProduct(b, a)` |
| VectorLaws.ScalarProductWithSelf | include/georithm/Vector.hpp:290-306 | `scalarProduct(v, v) == lengthSq(v)` |
| VectorLaws.AbsIdempotent | include/georithm/Vector.hpp:330-337 | `abs(abs(v)) == abs(v)` |
| VectorLaws.AbsKeepsLengthSq | include/georithm/Vector.hpp:330-337 | `lengthSq(abs(v)) == lengthSq(v)` |
| Bounding.Min | include/georithm/Bounding.hpp:27 | `std::min` is a lower bound of both arguments and equal to one of them |
| Bounding.Max | include/georithm/Bounding.hpp:34 | `std::max` is an upper bound of both arguments and equal to one of them |
| Bounding.Left | include/georithm/Bounding.hpp:23-28 | for a non-null box, `left` is the smaller of the two corners' x coordinates |
| Bounding.Right | include/georithm/Bounding.hpp:30-35 | for a non-null box, `right` is the larger of the two corners' x coordinates |
| Bounding.Top | include/georithm/Bounding.hpp:37-42 | for a non-null box, `top` is the smaller of the two corners' y coordinates |
| Bounding.Bottom | include/georithm/Bounding.hpp:44-49 | for a non-null box, `bottom` is the larger of the two corners' y coordinates |
| Bounding.MakeBoundingRect | include/georithm/Bounding.hpp:51-58 | for a non-null box with at least two vertices, the result has corner `(left, top)`, span `(right - left, bottom - top)`, hence opposite corner `(right, bottom)`, and a span non-negative in both axes |
| Bounding.ExtentsOrdered | include/georithm/Bounding.hpp:23-49 | `left <= right` and `top <= bottom` |
| Bounding.ExtentsAreCorners | include/georithm/Bounding.hpp:23-49 | `{left, right}` is exactly `{position.x, position.x + span.x}` and `{top, bottom}` exactly `{position.y, position.y + span.y}` |
| Bounding.FlipKeepsExtents | include/georithm/Bounding.hpp:23-49 | flipping a box's orientation leaves `left`, `right`, `top` and `bottom` unchanged |
| Bounding.FlipKeepsBoundingRect | include/georithm/Bounding.hpp:51-58 | a box and its flip normalise to the same rectangle |
| Bounding.MakeBoundingRectKeepsExtents | include/georithm/Bounding.hpp:51-58 | the result of `makeBoundingRect` has the input's four extents |
| Bounding.NormalBoxUnchanged | include/georithm/Bounding.hpp:51-58 | a box whose span is non-negative in both axes is returned unchanged |
| Bounding.MakeBoundingRectIdempotent | include/georithm/Bounding.hpp:51-58 | normalising twice gives the same box as normalising once |
| Bounding.CoversWithinExtents | include/georithm/Bounding.hpp:23-49 | a point lies in the box (in either orientation) exactly when it lies within `left..right` and `top..bottom` |
| Bounding.MakeBoundingRectKeepsPoints | include/georithm/Bounding.hpp:51-58 | the normalised box covers exactly the points the input box covers |
| Bounding.ExtentsExample | include/georithm/Bounding.hpp:23-49 | position (2, 2) with span (3, -5) has left 2, right 5, top -3, bottom 2 |
| Bounding.MakeBoundingRectExample | include/georithm/Bounding.hpp:51-58 | position (0, 0) with span (-4, 6) normalises to position (-4, 0) with span (4, 6) |

## Left out

- Both `length` overloads, `normalize` and both `rotate` overloads (Vector.hpp:308-359): they go through `std::sqrt`, `sin`/`cos` and `llround` on floating point, which this model does not represent.
- Vectors.AddScalar: takes the scalar `+=` operand by value, so it describes a scalar that is not a coordinate of the receiver (aliasing note below).
- Vectors.SubScalar: takes the scalar `-=` operand by value, so it describes a scalar that is not a coordinate of the receiver (aliasing note below).
- Vectors.MulScalar: takes the scalar `*=` operand by value, so it describes a scalar that is not a coordinate of the receiver (aliasing note below).
- Vectors.DivScalar: takes the scalar `/=` operand by value, so it describes a scalar that is not a coordinate of the receiver (aliasing note below).
- Vectors.ModScalar: takes the scalar `%=` operand by value, so it describes a scalar that is not a coordinate of the receiver (aliasing note below).
- Aliasing note: the source captures `const T2& other` by reference (Vector.hpp:148-209). When `other` names a coordinate of the receiver, the coordinates after it see the updated value: `{2, 4} /= v[0]` gives `{1, 4}`, and `{2, 5} %= v[0]` divides by zero at the second coordinate although the assertion held on entry. The laws ScalarAddSubRestore, ScalarTimesCommutes, MulThenDivRestores and DivModReconstructs hold for a scalar that is not such a coordinate.
- Floating-point element types: only `T = int` is modelled.
- Machine-integer width: coordinates are unbounded, so overflow of `+`, `-`, `*`, `std::abs` of the most negative value and the most negative value divided by -1 are not modelled.
- The iterator surface (`begin`, `end`, `rbegin`, `crend`, ...): a vector is a sequence, traversed in index order.
- The converting constructor and the heterogeneous right-hand element types `T2` with their `static_cast`: every operand is an integer already.
- The capability concepts (`Addable`, `Multiplicable`, `Cardinality`, ...): compile-time gating with no run-time behaviour; equal dimensions become a `requires`.
- `GeometricTraits` dispatch and any polygon reduction of `left/right/top/bottom`: those headers are not part of this model, so `makeBoundingRect` is modelled on boxes only.
- `isNull`, `vertexCount` and the `AABB_t` storage type come from headers that are not part of this model; `isNull` and `vertexCount` stay undefined fields of `Traits`.
- The mutable `y()` (include/georithm/Vector.hpp:99-104) lacks the `TDim2 == TDim` constraint its five sibling accessors carry, so `v.template y<2>()` compiles on a one-dimensional vector and reads past the end; `Vectors.Y` models the intended gating, dimension at least 2, for both overloads.
- The binary vector `-` used by `makeBoundingRect` comes from ArithmeticOperators.hpp, which is not part of this model; it is modelled as a copy of the left operand followed by `-=`.
- Bounding.MakeBoundingRectKeepsExtents: also requires the result to be non-null, because `isNull` is undefined here and the extractions assert it.
- Bounding.MakeBoundingRectIdempotent: also requires the result to be non-null with at least two vertices, the assertions the second call makes.
- Bounding.FlipKeepsExtents: also requires the flipped box to be non-null, for the same reason.
- Bounding.FlipKeepsBoundingRect: also requires the flipped box to be non-null with at least two vertices.
