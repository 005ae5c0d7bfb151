/** Unsigned bit arithmetic on naturals, used where the engine masks a queue
    index and tests region flag bits. */
module Bits {

  /** Bitwise AND of two unsigned integers (C `&` on unsigned operands). */
  function BitAnd(a: nat, b: nat): nat
    decreases a
  {
    if a == 0 || b == 0 then 0 else 2 * BitAnd(a / 2, b / 2) + (a % 2) * (b % 2)
  }

  /** `n` is a power of two: 1, 2, 4, 8, ... */
  predicate IsPow2(n: nat)
    decreases n
  {
    n == 1 || (n > 1 && n % 2 == 0 && IsPow2(n / 2))
  }

  /** 2 to the power `k`. */
  function Pow2(k: nat): (r: nat)
    ensures r >= 1 && IsPow2(r)
  {
    if k == 0 then 1 else 2 * Pow2(k - 1)
  }

  lemma MulAtLeast(d: int, k: int)
    requires d > 0 && k >= 1
    ensures d * k >= d
  {
    assert d * k == d * (k - 1) + d;
  }

  lemma MulSplit(d: int, a: int, b: int)
    ensures d * a - d * b == d * (a - b)
  {
  }

  /** Quotient and remainder are unique. */
  lemma ModUnique(x: int, d: int, q: int, r: int)
    requires d > 0 && 0 <= r < d && x == d * q + r
    ensures x % d == r
  {
    var q0, r0 := x / d, x % d;
    assert d * q0 + r0 == x;
    MulSplit(d, q0, q);
    if q0 > q {
      MulAtLeast(d, q0 - q);
    } else if q0 < q {
      MulAtLeast(d, q - q0);
      MulSplit(d, q, q0);
    }
  }

  lemma ModHalf(x: nat, t: nat)
    requires t > 0
    ensures x % (2 * t) == 2 * ((x / 2) % t) + x % 2
  {
    var q := (x / 2) / t;
    var r := (x / 2) % t;
    assert x / 2 == q * t + r;
    assert x == 2 * (x / 2) + x % 2;
    assert x == (2 * t) * q + (2 * r + x % 2);
    ModUnique(x, 2 * t, q, 2 * r + x % 2);
  }

  /** Masking with `s - 1` is reduction modulo `s` when `s` is a power of two;
      this is why a ring whose size is a power of two can be indexed by mask. */
  lemma {:induction false} MaskIsMod(x: nat, s: nat)
    requires IsPow2(s)
    ensures BitAnd(x, s - 1) == x % s
    decreases s
  {
    if s == 1 {
    } else if x == 0 {
    } else {
      var t := s / 2;
      MaskIsMod(x / 2, t);
      assert (s - 1) / 2 == t - 1;
      assert (s - 1) % 2 == 1;
      ModHalf(x, t);
    }
  }

  /** AND with a single bit 2^k is nonzero exactly when bit k of `x` is set. */
  lemma {:induction false} BitAndSingleBit(x: nat, k: nat)
    ensures BitAnd(x, Pow2(k)) != 0 <==> (x / Pow2(k)) % 2 == 1
  {
    if k == 0 {
      if x != 0 {
        assert BitAnd(x, 1) == 2 * BitAnd(x / 2, 0) + (x % 2);
      }
    } else if x == 0 {
    } else {
      BitAndSingleBit(x / 2, k - 1);
      assert Pow2(k) / 2 == Pow2(k - 1);
      assert Pow2(k) % 2 == 0;
      DivDiv(x, Pow2(k - 1));
    }
  }

  /** x / (2 * p) == (x / 2) / p */
  lemma DivDiv(x: nat, p: nat)
    requires p > 0
    ensures x / (2 * p) == (x / 2) / p
  {
    var q := (x / 2) / p;
    var r := (x / 2) % p;
    assert x == (2 * p) * q + (2 * r + x % 2);
    assert 0 <= 2 * r + x % 2 < 2 * p;
    DivUnique(x, 2 * p, q, 2 * r + x % 2);
  }

  lemma DivUnique(x: int, d: int, q: int, r: int)
    requires d > 0 && 0 <= r < d && x == d * q + r
    ensures x / d == q
  {
    ModUnique(x, d, q, r);
    assert d * (x / d) + x % d == x;
    MulSplit(d, x / d, q);
  }

  /** Two indices less than `s` apart have different residues modulo `s`. */
  lemma DistinctResidues(i: nat, j: nat, s: nat)
    requires s > 0 && i < j < i + s
    ensures i % s != j % s
  {
    var k := j / s - i / s;
    assert j - i == s * (j / s) - s * (i / s) + (j % s - i % s);
    MulSplit(s, j / s, i / s);
    if k >= 1 {
      MulAtLeast(s, k);
    } else if k < 0 {
      MulAtLeast(s, -k);
    }
  }
}
