/**
 * Thirty-two bit words as strings of bits, most significant bit first, which is
 * how src/crypt.c numbers them: bits32[o] is the word whose only bit is bit o.
 */
module Words {
  type Word = w: seq<bool> | |w| == 32 witness seq(32, i => false)

  function Zero(): Word {
    seq(32, i => false)
  }

  /** bits32[o]. */
  function Single(o: nat): Word {
    seq(32, i => i == o)
  }

  /** The constant whose set bits are lo, ..., hi - 1. */
  function Span(lo: nat, hi: nat): Word {
    seq(32, i => lo <= i < hi)
  }

  function Or(a: Word, b: Word): Word {
    seq(32, i requires 0 <= i < 32 => a[i] || b[i])
  }

  function And(a: Word, b: Word): Word {
    seq(32, i requires 0 <= i < 32 => a[i] && b[i])
  }

  function Xor(a: Word, b: Word): Word {
    seq(32, i requires 0 <= i < 32 => a[i] != b[i])
  }

  function Shl(a: Word, n: nat): Word {
    seq(32, i requires 0 <= i < 32 => i + n < 32 && a[i + n])
  }

  function Shr(a: Word, n: nat): Word {
    seq(32, i requires 0 <= i < 32 => i >= n && a[i - n])
  }

  function Pow2(n: nat): (p: nat)
    ensures p >= 1
  {
    if n == 0 then 1 else 2 * Pow2(n - 1)
  }

  /** The number a bit string denotes. */
  function Value(b: seq<bool>): (v: nat)
    ensures v < Pow2(|b|)
  {
    if |b| == 0 then 0 else 2 * Value(b[..|b| - 1]) + (if b[|b| - 1] then 1 else 0)
  }

  /** Bit j, counted from the most significant end, of v written in n bits. */
  predicate BitAt(v: nat, n: nat, j: nat)
    requires j < n
  {
    if j == n - 1 then v % 2 == 1 else BitAt(v / 2, n - 1, j)
  }

  lemma {:induction false} BitOfValue(b: seq<bool>, j: nat)
    requires j < |b|
    ensures BitAt(Value(b), |b|, j) == b[j]
  {
    if j < |b| - 1 {
      BitOfValue(b[..|b| - 1], j);
    }
  }

  lemma {:induction false} BitsDetermine(v: nat, b: seq<bool>)
    requires v < Pow2(|b|) && forall j :: 0 <= j < |b| ==> BitAt(v, |b|, j) == b[j]
    ensures Value(b) == v
  {
    if |b| > 0 {
      var n := |b| - 1;
      forall j | 0 <= j < n
        ensures BitAt(v / 2, n, j) == b[..n][j]
      {
        assert BitAt(v, |b|, j) == b[j];
      }
      BitsDetermine(v / 2, b[..n]);
      assert BitAt(v, |b|, n) == b[n];
    }
  }

  lemma {:induction false} ValueOfZeros(b: seq<bool>)
    requires forall j :: 0 <= j < |b| ==> !b[j]
    ensures Value(b) == 0
  {
    if |b| > 0 {
      ValueOfZeros(b[..|b| - 1]);
    }
  }

  lemma Doubled(a: nat, p: nat)
    ensures a * (2 * p) == 2 * (a * p)
  {
  }

  lemma {:induction false} ValueOfConcat(a: seq<bool>, b: seq<bool>)
    ensures Value(a + b) == Value(a) * Pow2(|b|) + Value(b)
  {
    if |b| == 0 {
      assert a + b == a;
    } else {
      var n := |b| - 1;
      var front := a + b[..n];
      assert Value(a + b) == 2 * Value(front) + (if b[n] then 1 else 0) by {
        assert (a + b)[..|a + b| - 1] == front && (a + b)[|a + b| - 1] == b[n];
      }
      ValueOfConcat(a, b[..n]);
      Doubled(Value(a), Pow2(n));
    }
  }

  /** Two numbers side by side: the bits of hi * 2^m + lo. */
  lemma {:induction false} BitOfPair(hi: nat, lo: nat, n: nat, m: nat, j: nat)
    requires lo < Pow2(m) && j < n + m
    ensures BitAt(hi * Pow2(m) + lo, n + m, j) == if j < n then BitAt(hi, n, j) else BitAt(lo, m, j - n)
  {
    if m > 0 {
      var q := hi * Pow2(m - 1);
      Doubled(hi, Pow2(m - 1));
      assert (2 * q + lo) / 2 == q + lo / 2 && (2 * q + lo) % 2 == lo % 2;
      if j < n + m - 1 {
        BitOfPair(hi, lo / 2, n, m - 1, j);
      }
    }
  }
}
