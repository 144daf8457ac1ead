/** Integer arithmetic as Solidity does it, and the few nonlinear facts the other modules rest on. */
module Arithmetic {
  const MAX_UINT128: nat := 0xFFFF_FFFF_FFFF_FFFF_FFFF_FFFF_FFFF_FFFF
  const MAX_UINT256: nat := 0xFFFF_FFFF_FFFF_FFFF_FFFF_FFFF_FFFF_FFFF_FFFF_FFFF_FFFF_FFFF_FFFF_FFFF_FFFF_FFFF
  const MAX_INT256: nat := MAX_UINT256 / 2

  const MIN_INT256: int := -0x8000_0000_0000_0000_0000_0000_0000_0000_0000_0000_0000_0000_0000_0000_0000_0000

  /** An allowance that covers an amount; the largest value stands for an infinite one. */
  predicate Covers(allowance: nat, amount: nat) {
    allowance == MAX_UINT256 || allowance >= amount
  }

  function Min(a: nat, b: nat): nat {
    if a <= b then a else b
  }

  function Abs(a: int): nat {
    if a < 0 then -a else a
  }

  function Pow10(e: nat): (p: nat)
    ensures p > 0
  {
    if e == 0 then 1 else 10 * Pow10(e - 1)
  }

  /** Solidity's signed division: it truncates toward zero, where Dafny's / on ints is Euclidean. */
  function TruncDiv(a: int, b: int): int
    requires b != 0
  {
    if (a < 0) == (b < 0) then Abs(a) / Abs(b) else -(Abs(a) / Abs(b))
  }

  /** The product over the divisor, rounded down. */
  function MulDiv(a: nat, b: nat, d: nat): nat
    requires d > 0
  {
    DivFloor(a * b, d, 0);
    a * b / d
  }

  /** The rounding-up quotient. */
  function CeilDiv(a: nat, b: nat): nat
    requires b > 0
  {
    (a + b - 1) / b
  }

  /** Division by a positive number is the upper adjoint of multiplication by it. */
  lemma DivFloor(n: int, d: int, k: int)
    requires d > 0
    ensures k <= n / d <==> k * d <= n
  {
    var q := n / d;
    assert n == q * d + n % d;
    if k <= q {
      assert k * d <= q * d;
    } else {
      assert (q + 1) * d <= k * d;
    }
  }

  lemma DivBounds(n: int, d: int)
    requires d > 0
    ensures n / d * d <= n < n / d * d + d
  {
  }

  lemma DivMono(a: int, b: int, d: int)
    requires d > 0 && a <= b
    ensures a / d <= b / d
  {
    DivBounds(a, d);
    DivFloor(b, d, a / d);
  }

  lemma MulMono(a: int, b: int, k: int)
    requires a <= b && 0 <= k
    ensures a * k <= b * k
  {
  }

  /** What is below d after scaling by a positive k was below before. */
  lemma MulCancel(a: int, b: int, k: int)
    requires k > 0 && a * k <= b * k
    ensures a <= b
  {
    if b + 1 <= a {
      MulMono(b + 1, a, k);
    }
  }

  lemma DivUnique(n: int, d: int, q: int)
    requires d > 0 && q * d <= n < q * d + d
    ensures n / d == q
  {
    DivFloor(n, d, q);
    DivFloor(n, d, q + 1);
  }

  /** A common positive factor cancels, also under the floor. */
  lemma DivCancel(n: int, d: int, k: int)
    requires d > 0 && k > 0
    ensures (n * k) / (d * k) == n / d
  {
    var q := n / d;
    DivBounds(n, d);
    assert q * (d * k) == q * d * k;
    MulMono(q * d, n, k);
    MulMono(n + 1, q * d + d, k);
    assert d * k > 0;
    DivUnique(n * k, d * k, q);
  }

  /** Flooring twice is flooring once. */
  lemma DivDiv(n: int, d: int, e: int)
    requires d > 0 && e > 0
    ensures n / d / e == n / (d * e)
  {
    var q := n / d / e;
    DivBounds(n, d);
    DivBounds(n / d, e);
    assert q * (d * e) == q * e * d;
    MulMono(q * e, n / d, d);
    MulMono(n / d + 1, q * e + e, d);
    assert d * e > 0;
    DivUnique(n, d * e, q);
  }

  /** What is a multiple apart stays that far apart after flooring. */
  lemma DivShift(n: int, d: int, k: int)
    requires d > 0
    ensures (n - k * d) / d == n / d - k
  {
    DivBounds(n, d);
    assert (n / d - k) * d == n / d * d - k * d;
    DivUnique(n - k * d, d, n / d - k);
  }

  lemma CeilBounds(a: nat, b: nat)
    requires b > 0
    ensures (CeilDiv(a, b) - 1) * b < a <= CeilDiv(a, b) * b
    ensures a / b <= CeilDiv(a, b) <= a / b + 1
  {
    var c := CeilDiv(a, b);
    DivBounds(a + b - 1, b);
    assert (c - 1) * b == c * b - b;
    DivMono(a, a + b - 1, b);
    DivShift(a + b, b, 1);
    DivMono(a + b - 1, a + b, b);
  }

  lemma {:induction false} Pow10Sum(a: nat, b: nat)
    ensures Pow10(a + b) == Pow10(a) * Pow10(b)
  {
    if a > 0 {
      Pow10Sum(a - 1, b);
      assert Pow10(a) * Pow10(b) == 10 * (Pow10(a - 1) * Pow10(b));
    }
  }

  lemma Pow10Values()
    ensures Pow10(5) == 100000
  {
    assert Pow10(5) == 10 * 10 * 10 * 10 * 10 * Pow10(0);
  }

  /** 78 decimal digits are more than a uint256 holds. */
  lemma Pow10TooLarge()
    ensures MAX_UINT256 < Pow10(78)
  {
    Pow10Values();
    assert Pow10(3) == 1000;
    Pow10Sum(5, 5);
    Pow10Sum(10, 3);
    Pow10Sum(13, 13);
    Pow10Sum(26, 26);
    Pow10Sum(52, 26);
  }
}
