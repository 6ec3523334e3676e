/**
 * Integer facts the timestamp encodings rest on: Euclidean division by
 * positive divisors, fixed-width wrap-around, and bitwise exclusive or on
 * non-negative integers.
 */
module Arith {

  /** 2 to the power `k`. */
  function Pow2(k: nat): (r: nat)
    ensures r >= 1
  {
    if k == 0 then 1 else 2 * Pow2(k - 1)
  }

  /** Powers add. */
  lemma {:induction false} Pow2Add(j: nat, k: nat)
    ensures Pow2(j + k) == Pow2(j) * Pow2(k)
  {
    if k > 0 {
      Pow2Add(j, k - 1);
      MulAssocLeft(Pow2(j), Pow2(k - 1));
    }
  }

  lemma MulAssocLeft(x: int, y: int)
    ensures 2 * (x * y) == x * (2 * y)
  {
  }

  /** A quotient and remainder that fit are the quotient and remainder. */
  lemma DivModUnique(n: int, d: int, q: int, r: int)
    requires d > 0 && 0 <= r < d && n == q * d + r
    ensures n / d == q && n % d == r
  {
    var q0, r0 := n / d, n % d;
    assert (q0 - q) * d == q0 * d - q * d == r - r0;
    MulZero(q0 - q, d);
  }

  /** The only multiple of `d` strictly between `-d` and `d` is zero. */
  lemma MulZero(k: int, d: int)
    requires d > 0 && -d < k * d < d
    ensures k == 0
  {
    if k >= 1 {
      MulAtLeast(k, d);
      assert false;
    } else if k <= -1 {
      assert (-k) * d == -(k * d);
      MulAtLeast(-k, d);
      assert false;
    }
  }

  lemma MulAtLeast(k: int, d: int)
    requires k >= 1 && d > 0
    ensures k * d >= d
  {
  }

  /** A larger leading digit decides, whatever the digits after it. */
  lemma LeadingDigit(x: nat, u: nat, y: nat, v: nat, p: nat)
    requires u < p && v < p && x < y
    ensures x * p + u < y * p + v
  {
    MulAtLeast(y - x, p);
    assert x * p + (y - x) * p == y * p;
  }

  /** Adding whole multiples of the divisor does not change the remainder. */
  lemma ModAddMultiple(t: nat, x: nat, m: nat)
    requires m > 0
    ensures (t * m + x) % m == x % m
  {
    var n := t * m + x;
    assert n == (t + x / m) * m + x % m;
    DivModUnique(n, m, t + x / m, x % m);
  }

  /** Reducing a factor first does not change the remainder of a product. */
  lemma ModMul(x: nat, c: nat, m: nat)
    requires m > 0
    ensures (x * c) % m == ((x % m) * c) % m
  {
    var q, r := x / m, x % m;
    assert x * c == (q * c) * m + r * c;
    ModAddMultiple(q * c, r * c, m);
  }

  /** Reducing before an affine step does not change the remainder. */
  lemma ModAffine(x: nat, c: nat, y: nat, m: nat)
    requires m > 0
    ensures (x * c + y) % m == ((x % m) * c + y) % m
  {
    var q, r := x / m, x % m;
    assert x * c + y == (q * c) * m + (r * c + y);
    ModAddMultiple(q * c, r * c + y, m);
  }

  /** Dividing twice is dividing by the product. */
  lemma DivDiv(a: nat, m: nat, k: nat)
    requires m > 0 && k > 0
    ensures a / m / k == a / (m * k)
    ensures (a % (m * k)) / m == (a / m) % k
  {
    var q, r := a / (m * k), a % (m * k);
    assert a == q * (m * k) + r;
    assert a == (q * k + r / m) * m + r % m;
    DivModUnique(a, m, q * k + r / m, r % m);
    DivBound(r, m, k);
    DivModUnique(a / m, k, q, r / m);
  }

  lemma DivBound(r: nat, m: nat, k: nat)
    requires m > 0 && r < m * k
    ensures r / m < k
  {
  }

  /** A remainder by a multiple of `m` has the same remainder by `m`. */
  lemma ModMod(a: nat, m: nat, k: nat)
    requires m > 0 && k > 0
    ensures (a % (m * k)) % m == a % m
  {
    var q, r := a / (m * k), a % (m * k);
    assert a == (q * k) * m + r;
    ModAddMultiple(q * k, r, m);
  }

  /** Bitwise exclusive or of non-negative integers (Python's `^`). */
  function Xor(a: nat, b: nat): nat
    decreases a + b
  {
    if a == 0 && b == 0 then 0 else 2 * Xor(a / 2, b / 2) + (a % 2 + b % 2) % 2
  }

  /** The lowest bit, then the rest: also when both are zero. */
  lemma XorUnfold(a: nat, b: nat)
    ensures Xor(a, b) == 2 * Xor(a / 2, b / 2) + (a % 2 + b % 2) % 2
  {
  }

  /** The low `k` bits of an exclusive or depend only on the low `k` bits of its operands. */
  lemma {:induction false} XorMod(a: nat, b: nat, k: nat)
    ensures Xor(a, b) % Pow2(k) == Xor(a % Pow2(k), b % Pow2(k))
  {
    if k == 0 {
      assert a % 1 == 0 && b % 1 == 0;
    } else {
      var p := Pow2(k - 1);
      var m := 2 * p;
      XorMod(a / 2, b / 2, k - 1);
      XorUnfold(a, b);
      XorUnfold(a % m, b % m);
      HalfMod(a, p);
      HalfMod(b, p);
      ModDouble(Xor(a / 2, b / 2), (a % 2 + b % 2) % 2, p);
    }
  }

  /** The remainder of `2 x + bit` by `2 p`. */
  lemma ModDouble(x: nat, bit: nat, p: nat)
    requires bit < 2 && p > 0
    ensures (2 * x + bit) % (2 * p) == 2 * (x % p) + bit
  {
    var t := x / p;
    assert x == t * p + x % p;
    assert 2 * x + bit == t * (2 * p) + (2 * (x % p) + bit);
    DivModUnique(2 * x + bit, 2 * p, t, 2 * (x % p) + bit);
  }

  /** Halving commutes with the remainder by an even modulus. */
  lemma HalfMod(a: nat, p: nat)
    requires p > 0
    ensures (a % (2 * p)) / 2 == (a / 2) % p && (a % (2 * p)) % 2 == a % 2
  {
    DivDiv(a, 2, p);
    ModMod(a, 2, p);
  }

  /** An exclusive or of two `k`-bit values is a `k`-bit value. */
  lemma XorBound(a: nat, b: nat, k: nat)
    requires a < Pow2(k) && b < Pow2(k)
    ensures Xor(a, b) < Pow2(k)
  {
    XorMod(a, b, k);
    DivModUnique(a, Pow2(k), 0, a);
    DivModUnique(b, Pow2(k), 0, b);
  }
}
