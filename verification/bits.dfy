/** Bitwise and on numbers, and the two idioms src/memory.c builds from it. */
module Bits {
  import Words
  import Bytes

  function And(a: nat, b: nat): nat {
    if a == 0 || b == 0 then 0 else 2 * And(a / 2, b / 2) + (if a % 2 == 1 && b % 2 == 1 then 1 else 0)
  }

  predicate PowerOfTwo(n: nat) {
    n == 1 || (n > 1 && n % 2 == 0 && PowerOfTwo(n / 2))
  }

  lemma {:induction false} AndSelf(n: nat)
    ensures And(n, n) == n
  {
    if n > 0 {
      AndSelf(n / 2);
    }
  }

  /** n & (n - 1) is zero exactly for the powers of two. */
  lemma {:induction false} AndBelow(n: nat)
    requires n > 0
    ensures And(n, n - 1) == 0 <==> PowerOfTwo(n)
  {
    var h := n / 2;
    if n % 2 == 1 {
      AndSelf(h);
      assert (n - 1) / 2 == h;
    } else {
      AndBelow(h);
      assert (n - 1) / 2 == h - 1;
    }
  }

  lemma {:induction false} AndOnes(x: nat, n: nat)
    requires x < Words.Pow2(n)
    ensures And(x, Words.Pow2(n) - 1) == x
  {
    if n > 0 && x > 0 {
      AndOnes(x / 2, n - 1);
      assert (Words.Pow2(n) - 1) / 2 == Words.Pow2(n - 1) - 1;
    }
  }

  /** In n bits, x & ~(m - 1) is the multiple of m at or below x, for a power of two m. */
  lemma {:induction false} AndMask(x: nat, n: nat, m: nat)
    requires PowerOfTwo(m) && m <= Words.Pow2(n) && x < Words.Pow2(n)
    ensures And(x, Words.Pow2(n) - m) == x / m * m
  {
    if m == 1 {
      AndOnes(x, n);
    } else {
      var h := m / 2;
      AndMask(x / 2, n - 1, h);
      assert (Words.Pow2(n) - m) / 2 == Words.Pow2(n - 1) - h;
      HalfDiv(x, h);
    }
  }

  lemma HalfDiv(x: nat, h: nat)
    requires h > 0
    ensures 2 * (x / 2 / h * h) == x / (2 * h) * (2 * h)
  {
    var q, r := x / 2 / h, x / 2 % h;
    assert x / 2 == q * h + r;
    assert x == q * (2 * h) + (2 * r + x % 2);
    Bytes.ModUnique(x, 2 * h, q, 2 * r + x % 2);
  }
}
