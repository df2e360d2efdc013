/** Integer arithmetic as C++ defines it for signed integral types (section 7.6.5
    [expr.mul] of ISO/IEC 14882:2020): `/` discards the fractional part (it
    truncates toward zero) and `%` is what is left over, so the remainder takes
    the sign of the dividend. Dafny's own `/` and `%` are Euclidean, so they are
    not used for the C++ operators. Machine width is not modelled. */
module CppArith {

  /** `std::abs` on a signed integral value. */
  function Abs(a: int): (r: nat)
    ensures r == a || r == -a
  {
    if a < 0 then -a else a
  }

  /** The product of two absolute values is the absolute value of the product. */
  lemma AbsMul(a: int, b: int)
    ensures Abs(a * b) == Abs(a) * Abs(b)
  {
    if a < 0 && b >= 0 {
      assert a * b == -(Abs(a) * b);
    } else if a >= 0 && b < 0 {
      assert a * b == -(a * Abs(b));
    } else if a < 0 && b < 0 {
      assert a * b == Abs(a) * Abs(b);
    }
  }

  /** A non-zero multiple of `b` is at least as large as `b` in magnitude. */
  lemma NonZeroMultipleBound(k: int, b: int)
    requires k != 0
    ensures Abs(k * b) >= Abs(b)
  {
    AbsMul(k, b);
    AtLeastOnce(Abs(k), Abs(b));
  }

  /** `x` copies of `y`, for `x >= 1`, are at least one copy. */
  lemma {:induction false} AtLeastOnce(x: nat, y: nat)
    requires x >= 1
    ensures x * y >= y
  {
    if x > 1 {
      AtLeastOnce(x - 1, y);
      assert x * y == (x - 1) * y + y;
    }
  }

  /** Euclidean division of a natural number by a positive one. */
  lemma Euclid(n: nat, d: int)
    requires d > 0
    ensures 0 <= n / d && (n / d) * d <= n < (n / d + 1) * d
  {
    var q, r := n / d, n % d;
    assert n == q * d + r && 0 <= r < d;
    assert (q + 1) * d == q * d + d;
  }

  /** C++ `a / b`: the quotient truncated toward zero. */
  function Quot(a: int, b: int): (q: int)
    requires b != 0
    ensures Abs(q) * Abs(b) <= Abs(a) < (Abs(q) + 1) * Abs(b)
    ensures q == 0 || ((q < 0) <==> ((a < 0) != (b < 0)))
  {
    Euclid(Abs(a), Abs(b));
    var m := Abs(a) / Abs(b);
    var q := if (a < 0) == (b < 0) then m else -m;
    assert Abs(q) == m;
    q
  }

  /** C++ `a % b`: the remainder left by the truncating quotient. */
  function Rem(a: int, b: int): (r: int)
    requires b != 0
    ensures Quot(a, b) * b + r == a
    ensures Abs(r) < Abs(b)
    ensures r == 0 || ((r < 0) <==> (a < 0))
  {
    QuotRemIdentity(a, b);
    var m := Abs(a) % Abs(b);
    if a < 0 then -m else m
  }

  /** Splits `Abs(a)` into whole multiples of `Abs(b)` and a rest, then restores
      the signs, case by case. */
  lemma QuotRemIdentity(a: int, b: int)
    requires b != 0
    ensures Quot(a, b) * b + (if a < 0 then -(Abs(a) % Abs(b)) else Abs(a) % Abs(b)) == a
  {
    var n, m := Abs(a) / Abs(b), Abs(a) % Abs(b);
    assert Abs(a) == n * Abs(b) + m;
    var q := Quot(a, b);
    assert q == n || q == -n;
    SignedProduct(q, n, b);
  }

  /** `±n` times `b` is `±(n * |b|)`, the sign being the product of the two signs. */
  lemma SignedProduct(q: int, n: int, b: int)
    requires q == n || q == -n
    ensures q * b == (if (q == n) == (b >= 0) then n * Abs(b) else -(n * Abs(b)))
  {
    if q == n && b < 0 {
      assert n * b == -(n * -b);
    } else if q != n && b >= 0 {
      assert (-n) * b == -(n * b);
    } else if q != n {
      assert (-n) * b == n * -b;
    }
  }

  /** Truncating division is the only quotient/remainder pair with the C++
      identity, a remainder smaller than the divisor and the dividend's sign. */
  lemma TruncatedDivisionUnique(a: int, b: int, q: int, r: int)
    requires b != 0
    requires q * b + r == a
    requires Abs(r) < Abs(b)
    requires r == 0 || ((r < 0) <==> (a < 0))
    ensures q == Quot(a, b) && r == Rem(a, b)
  {
    SamePairs(a, b, q, r, Quot(a, b), Rem(a, b));
  }

  /** Two quotient/remainder pairs with the identity, the bound and the sign
      rule are the same pair. */
  lemma SamePairs(a: int, b: int, q: int, r: int, q': int, r': int)
    requires b != 0
    requires q * b + r == a && q' * b + r' == a
    requires Abs(r) < Abs(b) && Abs(r') < Abs(b)
    requires r == 0 || ((r < 0) <==> (a < 0))
    requires r' == 0 || ((r' < 0) <==> (a < 0))
    ensures q == q' && r == r'
  {
    if q != q' {
      assert (q - q') * b == q * b - q' * b;
      assert (q - q') * b == r' - r;
      assert Abs(r' - r) < Abs(b);
      NonZeroMultipleBound(q - q', b);
      assert false;
    }
  }

  /** On a non-negative dividend and a positive divisor C++ and Euclidean
      division agree. */
  lemma AgreesWithEuclideanOnNaturals(a: nat, b: int)
    requires b > 0
    ensures Quot(a, b) == a / b && Rem(a, b) == a % b
  {
    TruncatedDivisionUnique(a, b, a / b, a % b);
  }

  /** On a negative dividend they differ: C++ gives -7 / 2 == -3 and
      -7 % 2 == -1, where the Euclidean pair is -4 and 1. */
  lemma DiffersFromEuclideanOnNegatives()
    ensures Quot(-7, 2) == -3 && Rem(-7, 2) == -1
    ensures -7 / 2 == -4 && -7 % 2 == 1
  {
  }

  /** Dividing an exact multiple gives back the factor, with nothing left over. */
  lemma QuotOfMultiple(a: int, k: int)
    requires k != 0
    ensures Quot(a * k, k) == a && Rem(a * k, k) == 0
  {
    TruncatedDivisionUnique(a * k, k, a, 0);
  }
}
