/** Integer arithmetic the CDMA code relies on: powers of two and the integer
    logarithm that replaces the floating-point `std::log2`, C++'s division
    (which truncates toward zero, unlike Dafny's Euclidean `/`), and the
    row-major index arithmetic `i * p + ii` used to address a Kronecker product. */
module IntArith {

  /** 2 raised to the power k. */
  function Pow2(k: nat): (r: nat)
    ensures r >= 1
  {
    if k == 0 then 1 else 2 * Pow2(k - 1)
  }

  /** The floor of the base-2 logarithm of n, as `size_t(std::log2(n))` gives
      it for every positive 32-bit `int` n. */
  function Log2(n: nat): (r: nat)
    requires n >= 1
    ensures Pow2(r) <= n < Pow2(r + 1)
    decreases n
  {
    if n == 1 then 0 else 1 + Log2(n / 2)
  }

  lemma {:induction false} Log2OfPow2(k: nat)
    ensures Log2(Pow2(k)) == k
  {
    if k > 0 {
      assert Pow2(k) / 2 == Pow2(k - 1);
      Log2OfPow2(k - 1);
    }
  }

  /** C++ integer division of a by a positive b: the quotient rounded toward zero. */
  function TruncDiv(a: int, b: int): (q: int)
    requires b > 0
    ensures a >= 0 ==> 0 <= q * b <= a < (q + 1) * b
    ensures a < 0 ==> (q - 1) * b < a <= q * b <= 0
  {
    if a >= 0 then DivBounds(a, b); a / b
    else DivBounds(-a, b); -((-a) / b)
  }

  lemma DivBounds(n: nat, b: int)
    requires b > 0
    ensures n / b >= 0 && (n / b) * b <= n < (n / b + 1) * b
  {
    var t, r := n / b, n % b;
    assert n == t * b + r && 0 <= r < b;
    assert (t + 1) * b == t * b + b;
  }

  /** The C++ test `a / b < 0` holds exactly when a is at most -b. */
  lemma TruncDivNegative(a: int, b: int)
    requires b > 0
    ensures TruncDiv(a, b) < 0 <==> a <= -b
  {
    if a < 0 {
      var t := (-a) / b;
      DivBounds(-a, b);
      if t == 0 {
        assert -a < b;
      } else {
        MulMono(1, t, b);
      }
    }
  }

  lemma MulMono(a: nat, b: nat, p: nat)
    requires a <= b
    ensures a * p <= b * p
  {
    assert b * p == a * p + (b - a) * p;
  }

  lemma MulAddLeft(z: int, x: int, y: int)
    ensures z * x + z * y == z * (x + y)
  {
  }

  lemma MulAddRight(x: int, y: int, z: int)
    ensures x * z + y * z == (x + y) * z
  {
  }

  lemma MulRearrange(a: int, b: int, c: int, d: int)
    ensures (a * b) * (c * d) == (a * c) * (b * d)
  {
  }

  /** Row-major position of block i, offset c, for blocks of size p. */
  function Flat(i: nat, c: nat, p: nat): nat
  {
    i * p + c
  }

  lemma FlatBound(i: nat, c: nat, p: nat, m: nat)
    requires i < m && c < p
    ensures Flat(i, c, p) < m * p
  {
    MulMono(i + 1, m, p);
  }

  lemma FlatUnique(i: nat, c: nat, i2: nat, c2: nat, p: nat)
    requires c < p && c2 < p
    requires Flat(i, c, p) == Flat(i2, c2, p)
    ensures i == i2 && c == c2
  {
    if i < i2 {
      FlatBound(i, c, p, i2);
    } else if i2 < i {
      FlatBound(i2, c2, p, i);
    }
  }

  /** Every position below m * p is the flat position of exactly one
      (block, offset) pair, namely (I / p, I % p). */
  lemma FlatSplit(I: nat, p: nat, m: nat)
    requires I < m * p
    ensures p > 0 && I / p < m && I % p < p && Flat(I / p, I % p, p) == I
  {
    if p == 0 {
      assert false;
    } else if I / p >= m {
      MulMono(m, I / p, p);
    }
  }

  /** The (block, offset) pair of a position below m * p. */
  lemma Unflatten(I: nat, p: nat, m: nat) returns (i: nat, c: nat)
    requires I < m * p
    ensures i < m && c < p && Flat(i, c, p) == I
  {
    FlatSplit(I, p, m);
    i, c := I / p, I % p;
  }
}
