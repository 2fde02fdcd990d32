/** Little-endian machine words in byte-addressed memory. */
module Bytes {

  type byte = x: int | 0 <= x < 256

  function Pow256(n: nat): (p: nat)
    ensures p > 0
  {
    if n == 0 then 1 else 256 * Pow256(n - 1)
  }

  function Encode(v: nat, n: nat): (s: seq<byte>)
    ensures |s| == n
  {
    if n == 0 then [] else [v % 256] + Encode(v / 256, n - 1)
  }

  function Decode(s: seq<byte>): nat {
    if s == [] then 0 else s[0] + 256 * Decode(s[1..])
  }

  /** Reading back n bytes gives the value modulo 256^n. */
  lemma {:induction false} DecodeEncode(v: nat, n: nat)
    ensures Decode(Encode(v, n)) == v % Pow256(n)
  {
    if n > 0 {
      var q, p := v / 256, Pow256(n - 1);
      DecodeEncode(q, n - 1);
      assert Encode(v, n)[1..] == Encode(q, n - 1);
      ModSplit(v, p);
    }
  }

  lemma ModSplit(v: nat, p: nat)
    requires p > 0
    ensures v % 256 + 256 * (v / 256 % p) == v % (256 * p)
  {
    var q := v / 256;
    var r := v % 256 + 256 * (q % p);
    assert q == q / p * p + q % p;
    assert v == 256 * q + v % 256;
    assert v == q / p * (256 * p) + r;
    assert 256 * (q % p) <= 256 * (p - 1);
    ModUnique(v, 256 * p, q / p, r);
  }

  lemma {:induction false} MulAtLeast(x: nat, m: nat)
    requires x >= 1
    ensures x * m >= m
  {
    if x > 1 {
      MulAtLeast(x - 1, m);
      assert x * m == (x - 1) * m + m;
    }
  }

  lemma ProductGap(a: int, q: int, m: nat)
    requires a > q
    ensures a * m >= q * m + m
  {
    MulAtLeast(a - q, m);
    assert a * m == q * m + (a - q) * m;
  }

  lemma ModUnique(v: int, m: int, q: int, r: int)
    requires m > 0 && v == q * m + r && 0 <= r < m
    ensures v % m == r && v / m == q
  {
    var a := v / m;
    assert a * m + v % m == q * m + r;
    if a > q {
      ProductGap(a, q, m);
    } else if a < q {
      ProductGap(q, a, m);
    }
  }

  lemma {:induction false} DecodeBound(s: seq<byte>)
    ensures Decode(s) < Pow256(|s|)
  {
    if s != [] {
      DecodeBound(s[1..]);
    }
  }

  /** The low bytes of a word are the word modulo a power of 256. */
  lemma {:induction false} DecodePrefix(s: seq<byte>, k: nat)
    requires k <= |s|
    ensures Decode(s[..k]) == Decode(s) % Pow256(k)
  {
    if k > 0 {
      var v, d, p, low := Decode(s), Decode(s[1..]), Pow256(k - 1), s[..k];
      DecodePrefix(s[1..], k - 1);
      assert low[1..] == s[1..][..k - 1] && low[0] == s[0];
      assert Decode(low) == s[0] + 256 * (d % p);
      assert v % 256 == s[0] && v / 256 == d;
      ModSplit(v, p);
    } else {
      assert s[..k] == [];
    }
  }

  lemma {:induction false} DecodeConcat(s: seq<byte>, t: seq<byte>)
    ensures Decode(s + t) == Decode(s) + Pow256(|s|) * Decode(t)
  {
    if s == [] {
      assert s + t == t;
    } else {
      assert (s + t)[1..] == s[1..] + t;
      DecodeConcat(s[1..], t);
      Distribute(s[0], Decode(s[1..]), Pow256(|s| - 1), Decode(t));
      assert Decode(s) == s[0] + 256 * Decode(s[1..]);
    }
  }

  lemma Distribute(c: nat, x: nat, p: nat, d: nat)
    ensures c + 256 * (x + p * d) == (c + 256 * x) + 256 * p * d
  {
  }

  lemma Pow256Values()
    ensures Pow256(4) == 0x1_0000_0000 && Pow256(8) == 0x1_0000_0000_0000_0000
  {
    assert Pow256(1) == 256;
    assert Pow256(2) == 256 * 256;
    assert Pow256(4) == 256 * (256 * Pow256(2));
    assert Pow256(6) == 256 * (256 * Pow256(4));
    assert Pow256(8) == 256 * (256 * Pow256(6));
  }

  const WORD_SPAN := 0x1_0000_0000_0000_0000

  lemma Word64(v: nat)
    requires v < WORD_SPAN
    ensures Decode(Encode(v, 8)) == v
  {
    Pow256Values();
    DecodeEncode(v, 8);
  }

  lemma Low32(s: seq<byte>)
    requires |s| == 8
    ensures Decode(s[..4]) == Decode(s) % 0x1_0000_0000
  {
    Pow256Values();
    DecodePrefix(s, 4);
  }
}
