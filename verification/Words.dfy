/**
 * Bit operations on 32-bit words. A word stands for its bit pattern: `v >>> 0` for a JavaScript number `v`.
 */
module Words {
  import opened Numbers
  import opened Base32Spec

  const WORD: nat := 0x1_0000_0000

  type Word = n: nat | n < WORD

  /** `v << k` */
  function ShiftLeft(v: Word, k: nat): Word {
    v * Pow2(k) % WORD
  }

  /** `v >>> k` */
  function ShiftRight(v: Word, k: nat): Word {
    Quotient(v, Pow2(k))
  }

  function Quotient(v: nat, d: nat): (q: nat)
    requires d > 0
    ensures q <= v
  {
    Shorter(v, d);
    v / d
  }

  /** `a | b`, bit by bit */
  function Or(a: nat, b: nat): nat {
    if a == 0 && b == 0 then 0
    else 2 * Or(a / 2, b / 2) + (if a % 2 == 1 || b % 2 == 1 then 1 else 0)
  }

  /** `a & b`, bit by bit */
  function And(a: nat, b: nat): nat {
    if a == 0 || b == 0 then 0
    else 2 * And(a / 2, b / 2) + (if a % 2 == 1 && b % 2 == 1 then 1 else 0)
  }

  // ---------------------------------------------------------------- quotients and remainders

  lemma AtLeast(d: nat, q: nat)
    requires d > 0
    ensures d * q >= q
  {
    assert (d - 1) * q >= 0;
  }

  lemma Shorter(v: nat, d: nat)
    requires d > 0
    ensures v / d <= v
  {
    AtLeast(d, v / d);
  }

  lemma SmallMultiple(d: int, t: int)
    requires d > 0 && -d < d * t < d
    ensures t == 0
  {
    assert t >= 1 ==> d * t >= d;
    assert t <= -1 ==> d * t <= -d;
  }

  lemma Split(x: nat, d: nat, q: nat, r: nat)
    requires r < d && x == d * q + r
    ensures x / d == q && x % d == r
  {
    assert x == d * (x / d) + x % d;
    assert d * (q - x / d) == d * q - d * (x / d);
    SmallMultiple(d, q - x / d);
  }

  lemma Regroup(m: nat, q: nat, t: nat, u: nat)
    ensures (m * q) * t + m * u == m * (q * t + u)
  {
    assert (m * q) * t == m * (q * t);
  }

  lemma ModParts(x: nat, m: nat, q: nat, t: nat, u: nat, r: nat)
    requires r < m && x == (m * q) * t + (m * u + r)
    ensures x % m == r
  {
    Regroup(m, q, t, u);
    Split(x, m, q * t + u, r);
  }

  /** The remainder by a divisor of the modulus. */
  lemma ModDivisor(x: nat, m: nat, q: nat, d: nat)
    requires m > 0 && d > 0 && d == m * q
    ensures (x % d) % m == x % m
  {
    ModParts(x, m, q, x / d, (x % d) / m, (x % d) % m);
  }

  lemma {:induction false} Pow2Sum(a: nat, b: nat)
    ensures Pow2(a + b) == Pow2(a) * Pow2(b)
  {
    if a > 0 {
      Pow2Sum(a - 1, b);
      TwiceProduct(Pow2(a - 1), Pow2(b));
    }
  }

  lemma TwiceProduct(p: nat, q: nat)
    ensures 2 * (p * q) == (2 * p) * q
  {
  }

  lemma Pow2Word()
    ensures Pow2(32) == WORD
  {
    assert Pow2(8) == 256;
    Pow2Sum(8, 8);
    Pow2Sum(16, 16);
  }

  /** Only the low bits of a shifted word matter. */
  lemma LowBits(x: nat, n: nat)
    requires n <= 32
    ensures (x % WORD) % Pow2(n) == x % Pow2(n)
  {
    Pow2Word();
    Pow2Sum(n, 32 - n);
    ModDivisor(x, Pow2(n), Pow2(32 - n), WORD);
  }

  // ---------------------------------------------------------------- masks

  lemma {:induction false} OrLow(a: nat, b: nat, k: nat)
    requires a % Pow2(k) == 0 && b < Pow2(k)
    ensures Or(a, b) == a + b
    decreases k
  {
    if k == 0 {
      OrNothing(a);
    } else {
      var p := Pow2(k - 1);
      assert a == (2 * p) * (a / (2 * p));
      var q := a / (2 * p);
      assert (2 * p) * q == 2 * (p * q);
      Split(a, 2, p * q, 0);
      Split(p * q, p, q, 0);
      OrLow(a / 2, b / 2, k - 1);
    }
  }

  lemma {:induction false} OrNothing(a: nat)
    ensures Or(a, 0) == a
  {
    if a > 0 {
      OrNothing(a / 2);
    }
  }

  /** One more bit below. */
  lemma OneBit(a: nat, p: nat, d: nat)
    requires p > 0 && d == 2 * p
    ensures a % d == 2 * (a / 2 % p) + a % 2
  {
    var q, r := a / 2 / p, a / 2 % p;
    assert a / 2 == p * q + r;
    assert 2 * (p * q) == (2 * p) * q;
    Split(a, d, q, 2 * r + a % 2);
  }

  lemma {:induction false} AndLow(a: nat, k: nat)
    ensures And(a, Pow2(k) - 1) == a % Pow2(k)
    decreases k
  {
    if k == 0 {
      AndNone(a);
    } else {
      var p := Pow2(k - 1);
      AndLow(a / 2, k - 1);
      AndStep(a, p, Pow2(k));
    }
  }

  lemma AndNone(a: nat)
    ensures And(a, 1 - 1) == 0 == a % 1
  {
  }

  lemma AndStep(a: nat, p: nat, d: nat)
    requires p > 0 && d == 2 * p
    ensures And(a / 2, p - 1) == a / 2 % p ==> And(a, d - 1) == a % d
  {
    AndOdd(a, d - 1, p - 1);
    OneBit(a, p, d);
  }

  lemma AndOdd(a: nat, n: nat, m: nat)
    requires n == 2 * m + 1
    ensures And(a, n) == 2 * And(a / 2, m) + a % 2
  {
    Split(n, 2, m, 1);
  }
}
