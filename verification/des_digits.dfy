/**
 * DES without salt as a computation on hexadecimal digits: eight lookups and a
 * shuffle a round, with the permutations written out bit by bit. Each step is
 * proved to follow the tables and the bit-by-bit definition of the cipher.
 */
module DesDigits {
  import opened Words
  import opened Masks
  import opened DesTables
  import opened DesReference

  // ---- Digits ----

  predicate B8(n: Nibble) { n >= 8 }
  predicate B4(n: Nibble) { 4 <= n < 8 || n >= 12 }
  predicate B2(n: Nibble) { n == 2 || n == 3 || n == 6 || n == 7 || n == 10 || n == 11 || n >= 14 }
  predicate B1(n: Nibble) { n == 1 || n == 3 || n == 5 || n == 7 || n == 9 || n == 11 || n == 13 || n == 15 }

  /** Bit j of a digit, most significant bit first. */
  predicate Bit(n: Nibble, j: nat) {
    if j == 0 then B8(n) else if j == 1 then B4(n) else if j == 2 then B2(n) else B1(n)
  }

  lemma BitIsBitAt(n: Nibble, j: nat)
    requires j < 4
    ensures BitAt(n, 4, j) == Bit(n, j)
  {
  }

  /** The digit with these bits. */
  function Digit(b8: bool, b4: bool, b2: bool, b1: bool): (n: Nibble)
    ensures B8(n) == b8 && B4(n) == b4 && B2(n) == b2 && B1(n) == b1
  {
    if b8 then
      if b4 then (if b2 then (if b1 then 15 else 14) else (if b1 then 13 else 12))
      else (if b2 then (if b1 then 11 else 10) else (if b1 then 9 else 8))
    else
      if b4 then (if b2 then (if b1 then 7 else 6) else (if b1 then 5 else 4))
      else (if b2 then (if b1 then 3 else 2) else (if b1 then 1 else 0))
  }

  /** A word as eight hexadecimal digits. */
  datatype Hex = Hex(a: Nibble, b: Nibble, c: Nibble, d: Nibble, e: Nibble, f: Nibble, g: Nibble, h: Nibble) {
    function At(i: nat): Nibble {
      if i == 0 then a else if i == 1 then b else if i == 2 then c else if i == 3 then d
      else if i == 4 then e else if i == 5 then f else if i == 6 then g else h
    }

    predicate Has(p: nat) { Bit(At(p / 4), p % 4) }
  }

  /** Half of a key as the key permutation leaves it: twenty-eight bits in seven digits. */
  datatype Half = Half(a: Nibble, b: Nibble, c: Nibble, d: Nibble, e: Nibble, f: Nibble, g: Nibble) {
    function At(i: nat): Nibble {
      if i == 0 then a else if i == 1 then b else if i == 2 then c else if i == 3 then d
      else if i == 4 then e else if i == 5 then f else g
    }

    predicate Has(p: nat) { Bit(At(p / 4), p % 4) }
  }

  /** A subkey in eight groups of six bits: the outer two of each group apart from the inner four. */
  datatype Groups = Groups(outer: Hex, inner: Hex) {
    predicate Has(i: nat) {
      if i % 6 == 0 then B2(outer.At(i / 6)) else if i % 6 == 5 then B1(outer.At(i / 6))
      else Bit(inner.At(i / 6), i % 6 - 1)
    }
  }

  function W(x: Hex): (w: Word)
    ensures forall p :: 0 <= p < 32 ==> w[p] == x.Has(p)
  {
    seq(32, p requires 0 <= p < 32 => x.Has(p))
  }

  // ---- A round on digits ----

  /** An S-box lookup: the two outer bits choose the row, the inner ones the column. */
  function Sdigit(box: seq<seq<Nibble>>, first: bool, last: bool, e: Nibble, k: Nibble): Nibble {
    Cell(box, (if first then 2 else 0) + (if last then 1 else 0),
         SumDigit(e, k))
  }

  /** An entry of an S-box kept in rows of eight. */
  function Cell(box: seq<seq<Nibble>>, row: nat, col: nat): Nibble {
    if 2 * row + 1 >= |box| || |box[2 * row]| != 8 || |box[2 * row + 1]| != 8 || col >= 16 then 0
    else if col < 8 then box[2 * row][col] else box[2 * row + 1][col - 8]
  }

  /** The eight S-boxes applied to a half of the block and a subkey. */
  function Boxed(r: Hex, k: Groups): Hex {
    Hex(
      Sdigit(S1, B1(r.h) != B2(k.outer.a), B8(r.b) != B1(k.outer.a), r.a, k.inner.a),
      Sdigit(S2, B1(r.a) != B2(k.outer.b), B8(r.c) != B1(k.outer.b), r.b, k.inner.b),
      Sdigit(S3, B1(r.b) != B2(k.outer.c), B8(r.d) != B1(k.outer.c), r.c, k.inner.c),
      Sdigit(S4, B1(r.c) != B2(k.outer.d), B8(r.e) != B1(k.outer.d), r.d, k.inner.d),
      Sdigit(S5, B1(r.d) != B2(k.outer.e), B8(r.f) != B1(k.outer.e), r.e, k.inner.e),
      Sdigit(S6, B1(r.e) != B2(k.outer.f), B8(r.g) != B1(k.outer.f), r.f, k.inner.f),
      Sdigit(S7, B1(r.f) != B2(k.outer.g), B8(r.h) != B1(k.outer.g), r.g, k.inner.g),
      Sdigit(S8, B1(r.g) != B2(k.outer.h), B8(r.a) != B1(k.outer.h), r.h, k.inner.h))
  }

  /** The permutation P. */
  function Permuted(s: Hex): Hex {
    Hex(
      Digit(B1(s.d), B2(s.b), B1(s.e), B8(s.f)),
      Digit(B8(s.h), B1(s.c), B1(s.g), B8(s.e)),
      Digit(B8(s.a), B2(s.d), B2(s.f), B4(s.g)),
      Digit(B8(s.b), B4(s.e), B2(s.h), B4(s.c)),
      Digit(B4(s.a), B1(s.b), B1(s.f), B4(s.d)),
      Digit(B1(s.h), B2(s.g), B2(s.a), B8(s.c)),
      Digit(B2(s.e), B8(s.d), B4(s.h), B4(s.b)),
      Digit(B4(s.f), B2(s.c), B1(s.a), B8(s.g)))
  }

  function SumDigit(x: Nibble, y: Nibble): Nibble {
    Digit(B8(x) != B8(y), B4(x) != B4(y), B2(x) != B2(y), B1(x) != B1(y))
  }

  function Sum(x: Hex, y: Hex): Hex {
    Hex(SumDigit(x.a, y.a), SumDigit(x.b, y.b), SumDigit(x.c, y.c), SumDigit(x.d, y.d),
        SumDigit(x.e, y.e), SumDigit(x.f, y.f), SumDigit(x.g, y.g), SumDigit(x.h, y.h))
  }

  /** A half of the key turned one place to the left. */
  function Turn(c: Half): Half {
    Half(
      Digit(B4(c.a), B2(c.a), B1(c.a), B8(c.b)),
      Digit(B4(c.b), B2(c.b), B1(c.b), B8(c.c)),
      Digit(B4(c.c), B2(c.c), B1(c.c), B8(c.d)),
      Digit(B4(c.d), B2(c.d), B1(c.d), B8(c.e)),
      Digit(B4(c.e), B2(c.e), B1(c.e), B8(c.f)),
      Digit(B4(c.f), B2(c.f), B1(c.f), B8(c.g)),
      Digit(B4(c.g), B2(c.g), B1(c.g), B8(c.a)))
  }

  /** The same, two places. */
  function TurnTwice(c: Half): Half {
    Half(
      Digit(B2(c.a), B1(c.a), B8(c.b), B4(c.b)),
      Digit(B2(c.b), B1(c.b), B8(c.c), B4(c.c)),
      Digit(B2(c.c), B1(c.c), B8(c.d), B4(c.d)),
      Digit(B2(c.d), B1(c.d), B8(c.e), B4(c.e)),
      Digit(B2(c.e), B1(c.e), B8(c.f), B4(c.f)),
      Digit(B2(c.f), B1(c.f), B8(c.g), B4(c.g)),
      Digit(B2(c.g), B1(c.g), B8(c.a), B4(c.a)))
  }

  function TurnBy(c: Half, n: nat): Half {
    if n == 1 then Turn(c) else TurnTwice(c)
  }

  function LeftKey(l: Hex, r: Hex): Half {
    Half(
      Digit(B8(r.g), B8(r.e), B8(r.c), B8(r.a)),
      Digit(B8(l.g), B8(l.e), B8(l.c), B8(l.a)),
      Digit(B4(r.g), B4(r.e), B4(r.c), B4(r.a)),
      Digit(B4(l.g), B4(l.e), B4(l.c), B4(l.a)),
      Digit(B2(r.g), B2(r.e), B2(r.c), B2(r.a)),
      Digit(B2(l.g), B2(l.e), B2(l.c), B2(l.a)),
      Digit(B1(r.g), B1(r.e), B1(r.c), B1(r.a)))
  }

  function RightKey(l: Hex, r: Hex): Half {
    Half(
      Digit(B2(r.h), B2(r.f), B2(r.d), B2(r.b)),
      Digit(B2(l.h), B2(l.f), B2(l.d), B2(l.b)),
      Digit(B4(r.h), B4(r.f), B4(r.d), B4(r.b)),
      Digit(B4(l.h), B4(l.f), B4(l.d), B4(l.b)),
      Digit(B8(r.h), B8(r.f), B8(r.d), B8(r.b)),
      Digit(B8(l.h), B8(l.f), B8(l.d), B8(l.b)),
      Digit(B1(l.g), B1(l.e), B1(l.c), B1(l.a)))
  }

  /** The key compression. */
  function Compress(c: Half, d: Half): Groups {
    Groups(
      Hex(
        Digit(false, false, B4(c.d), B8(c.b)),
        Digit(false, false, B2(c.a), B4(c.c)),
        Digit(false, false, B2(c.f), B1(c.b)),
        Digit(false, false, B1(c.d), B4(c.a)),
        Digit(false, false, B8(d.d), B2(d.g)),
        Digit(false, false, B4(d.a), B1(d.e)),
        Digit(false, false, B1(d.d), B8(d.g)),
        Digit(false, false, B4(d.e), B1(d.a))),
      Hex(
        Digit(B8(c.e), B2(c.c), B1(c.f), B8(c.a)),
        Digit(B1(c.g), B2(c.d), B4(c.b), B8(c.f)),
        Digit(B2(c.e), B1(c.c), B1(c.a), B4(c.g)),
        Digit(B2(c.b), B2(c.g), B1(c.e), B8(c.d)),
        Digit(B1(d.f), B2(d.a), B8(d.c), B2(d.e)),
        Digit(B1(d.c), B2(d.f), B8(d.e), B8(d.b)),
        Digit(B8(d.f), B2(d.c), B1(d.g), B4(d.b)),
        Digit(B4(d.d), B4(d.f), B1(d.b), B8(d.a))))
  }

  function InitialLeft(l: Hex, r: Hex): Hex {
    Hex(
      Digit(B4(r.g), B4(r.e), B4(r.c), B4(r.a)),
      Digit(B4(l.g), B4(l.e), B4(l.c), B4(l.a)),
      Digit(B1(r.g), B1(r.e), B1(r.c), B1(r.a)),
      Digit(B1(l.g), B1(l.e), B1(l.c), B1(l.a)),
      Digit(B4(r.h), B4(r.f), B4(r.d), B4(r.b)),
      Digit(B4(l.h), B4(l.f), B4(l.d), B4(l.b)),
      Digit(B1(r.h), B1(r.f), B1(r.d), B1(r.b)),
      Digit(B1(l.h), B1(l.f), B1(l.d), B1(l.b)))
  }

  function InitialRight(l: Hex, r: Hex): Hex {
    Hex(
      Digit(B8(r.g), B8(r.e), B8(r.c), B8(r.a)),
      Digit(B8(l.g), B8(l.e), B8(l.c), B8(l.a)),
      Digit(B2(r.g), B2(r.e), B2(r.c), B2(r.a)),
      Digit(B2(l.g), B2(l.e), B2(l.c), B2(l.a)),
      Digit(B8(r.h), B8(r.f), B8(r.d), B8(r.b)),
      Digit(B8(l.h), B8(l.f), B8(l.d), B8(l.b)),
      Digit(B2(r.h), B2(r.f), B2(r.d), B2(r.b)),
      Digit(B2(l.h), B2(l.f), B2(l.d), B2(l.b)))
  }

  /** Bit p of two words, or of two halves of a key, read one after the other. */
  predicate Joined(l: Hex, r: Hex, p: int) {
    if 0 <= p < 32 then l.Has(p) else if 32 <= p < 64 then r.Has(p - 32) else false
  }

  predicate Halves(c: Half, d: Half, p: int) {
    if 0 <= p < 28 then c.Has(p) else if 28 <= p < 56 then d.Has(p - 28) else false
  }

  // ---- The digits follow the tables ----

  lemma PermutedHas0(s: Hex, i: nat)
    requires 0 <= i < 16
    ensures 1 <= At(PBOX_ROWS, i) <= 32 && Permuted(s).Has(i) == s.Has(At(PBOX_ROWS, i) - 1)
  {
    hide Digit, B8, B4, B2, B1;
  }

  lemma PermutedHas1(s: Hex, i: nat)
    requires 16 <= i < 32
    ensures 1 <= At(PBOX_ROWS, i) <= 32 && Permuted(s).Has(i) == s.Has(At(PBOX_ROWS, i) - 1)
  {
    hide Digit, B8, B4, B2, B1;
  }

  lemma PermutedHas(s: Hex, i: nat)
    requires i < 32
    ensures 1 <= At(PBOX_ROWS, i) <= 32 && Permuted(s).Has(i) == s.Has(At(PBOX_ROWS, i) - 1)
  {
    hide *;
    if i < 16 {
      PermutedHas0(s, i);
    } else {
      PermutedHas1(s, i);
    }
  }

  lemma CompressHas0(c: Half, d: Half, i: nat)
    requires 0 <= i < 12
    ensures 1 <= At(COMP_ROWS, i) <= 56 && Compress(c, d).Has(i) == Halves(c, d, At(COMP_ROWS, i) - 1)
  {
    hide Digit, B8, B4, B2, B1;
  }

  lemma CompressHas1(c: Half, d: Half, i: nat)
    requires 12 <= i < 24
    ensures 1 <= At(COMP_ROWS, i) <= 56 && Compress(c, d).Has(i) == Halves(c, d, At(COMP_ROWS, i) - 1)
  {
    hide Digit, B8, B4, B2, B1;
  }

  lemma CompressHas2(c: Half, d: Half, i: nat)
    requires 24 <= i < 36
    ensures 1 <= At(COMP_ROWS, i) <= 56 && Compress(c, d).Has(i) == Halves(c, d, At(COMP_ROWS, i) - 1)
  {
    hide Digit, B8, B4, B2, B1;
  }

  lemma CompressHas3(c: Half, d: Half, i: nat)
    requires 36 <= i < 48
    ensures 1 <= At(COMP_ROWS, i) <= 56 && Compress(c, d).Has(i) == Halves(c, d, At(COMP_ROWS, i) - 1)
  {
    hide Digit, B8, B4, B2, B1;
  }

  lemma CompressHas(c: Half, d: Half, i: nat)
    requires i < 48
    ensures 1 <= At(COMP_ROWS, i) <= 56 && Compress(c, d).Has(i) == Halves(c, d, At(COMP_ROWS, i) - 1)
  {
    hide *;
    if i < 12 {
      CompressHas0(c, d, i);
    } else if i < 24 {
      CompressHas1(c, d, i);
    } else if i < 36 {
      CompressHas2(c, d, i);
    } else {
      CompressHas3(c, d, i);
    }
  }

  lemma LeftKeyHas0(l: Hex, r: Hex, i: nat)
    requires 0 <= i < 14
    ensures 1 <= At(KEY_ROWS, i) <= 64 && LeftKey(l, r).Has(i) == Joined(l, r, At(KEY_ROWS, i) - 1)
  {
    hide Digit, B8, B4, B2, B1;
  }

  lemma LeftKeyHas1(l: Hex, r: Hex, i: nat)
    requires 14 <= i < 28
    ensures 1 <= At(KEY_ROWS, i) <= 64 && LeftKey(l, r).Has(i) == Joined(l, r, At(KEY_ROWS, i) - 1)
  {
    hide Digit, B8, B4, B2, B1;
  }

  lemma LeftKeyHas(l: Hex, r: Hex, i: nat)
    requires i < 28
    ensures 1 <= At(KEY_ROWS, i) <= 64 && LeftKey(l, r).Has(i) == Joined(l, r, At(KEY_ROWS, i) - 1)
  {
    hide *;
    if i < 14 {
      LeftKeyHas0(l, r, i);
    } else {
      LeftKeyHas1(l, r, i);
    }
  }

  lemma RightKeyHas0(l: Hex, r: Hex, i: nat)
    requires 0 <= i < 14
    ensures 1 <= At(KEY_ROWS, 28 + i) <= 64 && RightKey(l, r).Has(i) == Joined(l, r, At(KEY_ROWS, 28 + i) - 1)
  {
    hide Digit, B8, B4, B2, B1;
  }

  lemma RightKeyHas1(l: Hex, r: Hex, i: nat)
    requires 14 <= i < 28
    ensures 1 <= At(KEY_ROWS, 28 + i) <= 64 && RightKey(l, r).Has(i) == Joined(l, r, At(KEY_ROWS, 28 + i) - 1)
  {
    hide Digit, B8, B4, B2, B1;
  }

  lemma RightKeyHas(l: Hex, r: Hex, i: nat)
    requires i < 28
    ensures 1 <= At(KEY_ROWS, 28 + i) <= 64 && RightKey(l, r).Has(i) == Joined(l, r, At(KEY_ROWS, 28 + i) - 1)
  {
    hide *;
    if i < 14 {
      RightKeyHas0(l, r, i);
    } else {
      RightKeyHas1(l, r, i);
    }
  }

  lemma InitialLeftHas0(l: Hex, r: Hex, i: nat)
    requires 0 <= i < 16
    ensures 1 <= At(IP_ROWS, i) <= 64 && InitialLeft(l, r).Has(i) == Joined(l, r, At(IP_ROWS, i) - 1)
  {
    hide Digit, B8, B4, B2, B1;
  }

  lemma InitialLeftHas1(l: Hex, r: Hex, i: nat)
    requires 16 <= i < 32
    ensures 1 <= At(IP_ROWS, i) <= 64 && InitialLeft(l, r).Has(i) == Joined(l, r, At(IP_ROWS, i) - 1)
  {
    hide Digit, B8, B4, B2, B1;
  }

  lemma InitialLeftHas(l: Hex, r: Hex, i: nat)
    requires i < 32
    ensures 1 <= At(IP_ROWS, i) <= 64 && InitialLeft(l, r).Has(i) == Joined(l, r, At(IP_ROWS, i) - 1)
  {
    hide *;
    if i < 16 {
      InitialLeftHas0(l, r, i);
    } else {
      InitialLeftHas1(l, r, i);
    }
  }

  lemma InitialRightHas0(l: Hex, r: Hex, i: nat)
    requires 0 <= i < 16
    ensures 1 <= At(IP_ROWS, 32 + i) <= 64 && InitialRight(l, r).Has(i) == Joined(l, r, At(IP_ROWS, 32 + i) - 1)
  {
    hide Digit, B8, B4, B2, B1;
  }

  lemma InitialRightHas1(l: Hex, r: Hex, i: nat)
    requires 16 <= i < 32
    ensures 1 <= At(IP_ROWS, 32 + i) <= 64 && InitialRight(l, r).Has(i) == Joined(l, r, At(IP_ROWS, 32 + i) - 1)
  {
    hide Digit, B8, B4, B2, B1;
  }

  lemma InitialRightHas(l: Hex, r: Hex, i: nat)
    requires i < 32
    ensures 1 <= At(IP_ROWS, 32 + i) <= 64 && InitialRight(l, r).Has(i) == Joined(l, r, At(IP_ROWS, 32 + i) - 1)
  {
    hide *;
    if i < 16 {
      InitialRightHas0(l, r, i);
    } else {
      InitialRightHas1(l, r, i);
    }
  }

  lemma SumHas(x: Hex, y: Hex, i: nat)
    requires i < 32
    ensures Sum(x, y).Has(i) == (x.Has(i) != y.Has(i))
  {
    assert Sum(x, y).At(i / 4) == SumDigit(x.At(i / 4), y.At(i / 4)) by {
      hide SumDigit;
    }
    hide Digit, B8, B4, B2, B1, Sum;
  }

  lemma TurnOnceHas0(c: Half, i: nat)
    requires 0 <= i < 14
    ensures Turn(c).Has(i) == c.Has((i + 1) % 28)
  {
    hide Digit, B8, B4, B2, B1;
  }

  lemma TurnOnceHas1(c: Half, i: nat)
    requires 14 <= i < 28
    ensures Turn(c).Has(i) == c.Has((i + 1) % 28)
  {
    hide Digit, B8, B4, B2, B1;
  }

  lemma TurnOnceHas(c: Half, i: nat)
    requires i < 28
    ensures Turn(c).Has(i) == c.Has((i + 1) % 28)
  {
    hide *;
    if i < 14 {
      TurnOnceHas0(c, i);
    } else {
      TurnOnceHas1(c, i);
    }
  }

  lemma TurnTwiceHas0(c: Half, i: nat)
    requires 0 <= i < 14
    ensures TurnTwice(c).Has(i) == c.Has((i + 2) % 28)
  {
    hide Digit, B8, B4, B2, B1;
  }

  lemma TurnTwiceHas1(c: Half, i: nat)
    requires 14 <= i < 28
    ensures TurnTwice(c).Has(i) == c.Has((i + 2) % 28)
  {
    hide Digit, B8, B4, B2, B1;
  }

  lemma TurnTwiceHas(c: Half, i: nat)
    requires i < 28
    ensures TurnTwice(c).Has(i) == c.Has((i + 2) % 28)
  {
    hide *;
    if i < 14 {
      TurnTwiceHas0(c, i);
    } else {
      TurnTwiceHas1(c, i);
    }
  }

  // ---- The digits follow the reference ----

  function Box(g: nat): seq<seq<Nibble>> {
    if g == 0 then S1 else if g == 1 then S2 else if g == 2 then S3 else if g == 3 then S4
    else if g == 4 then S5 else if g == 5 then S6 else if g == 6 then S7 else S8
  }

  function RowOf(first: bool, last: bool): (row: nat)
    ensures row < 4
  {
    (if first then 2 else 0) + (if last then 1 else 0)
  }

  lemma ValueOfTwo(x: bool, y: bool)
    ensures Value([x, y]) == RowOf(x, y)
  {
    assert [x, y][..1] == [x];
    assert [x][..0] == [];
    assert Value([x]) == if x then 1 else 0;
  }

  lemma ValueOfFour(b: seq<bool>)
    requires |b| == 4
    ensures Value(b) == Digit(b[0], b[1], b[2], b[3])
  {
    var n := Digit(b[0], b[1], b[2], b[3]);
    forall j | 0 <= j < 4
      ensures BitAt(n, 4, j) == b[j]
    {
      BitIsBitAt(n, j);
    }
    assert Pow2(4) == 16;
    BitsDetermine(n, b);
  }

  /** A box of eight rows of eight. */
  predicate Square(box: seq<seq<Nibble>>) {
    |box| == 8 && forall k :: 0 <= k < 8 ==> |box[k]| == 8
  }

  lemma FlatBoxCell(box: seq<seq<Nibble>>, row: nat, col: nat)
    requires Square(box) && row < 4 && col < 16
    ensures FlatBox(box)[16 * row + col] == Cell(box, row, col)
  {
    var i := 16 * row + col;
    if col < 8 {
      assert i / 8 == 2 * row && i % 8 == col;
    } else {
      assert i / 8 == 2 * row + 1 && i % 8 == col - 8;
    }
  }

  lemma EntryIsCell(g: nat, row: nat, col: nat)
    requires g < 8 && row < 4 && col < 16
    ensures Entry(Sboxes(), g, 16 * row + col) == Cell(Box(g), row, col)
  {
    assert Square(S1) && Square(S2) && Square(S3) && Square(S4) && Square(S5) && Square(S6) && Square(S7) && Square(S8);
    assert Sboxes()[g] == FlatBox(Box(g));
    FlatBoxCell(Box(g), row, col);
  }

  lemma SubstituteIsCell(g: nat, c: seq<bool>)
    requires g < 8 && |c| == 6
    ensures Substitute(Sboxes(), g, c) == Cell(Box(g), RowOf(c[0], c[5]), Digit(c[1], c[2], c[3], c[4]))
  {
    hide Cell, Digit, Box, Sboxes, Entry;
    ValueOfTwo(c[0], c[5]);
    ValueOfFour(c[1..5]);
    EntryIsCell(g, RowOf(c[0], c[5]), Digit(c[1], c[2], c[3], c[4]));
  }

  /** What enters the S-boxes. */
  function Entering(x: Hex, k: Subkey): (y: seq<bool>)
    ensures |y| == 48
  {
    Mixed(Salted(Expansion(W(x)), Zero()), k)
  }

  ghost predicate SameKey(k: Subkey, q: Groups) {
    forall i :: 0 <= i < 48 ==> KeyBits(k)[i] == q.Has(i)
  }

  lemma EnteringBit(x: Hex, k: Subkey, q: Groups, g: nat, j: nat)
    requires g < 8 && j < 6 && SameKey(k, q)
    ensures Entering(x, k)[6 * g + j] == (x.Has((4 * g + j + 31) % 32) != q.Has(6 * g + j))
  {
    hide Hex.Has, Groups.Has, KeyBits;
    var i := 6 * g + j;
    assert i / 6 == g && i % 6 == j;
    assert !Zero()[8 + i % 24];
  }

  lemma HexHas(x: Hex, g: nat, j: nat)
    requires g < 8 && j < 4
    ensures x.Has(4 * g + j) == Bit(x.At(g), j)
  {
    assert (4 * g + j) / 4 == g && (4 * g + j) % 4 == j;
  }

  lemma GroupsHas(q: Groups, g: nat, j: nat)
    requires g < 8 && j < 4
    ensures q.Has(6 * g) == B2(q.outer.At(g)) && q.Has(6 * g + 5) == B1(q.outer.At(g))
    ensures q.Has(6 * g + 1 + j) == Bit(q.inner.At(g), j)
  {
    hide B8, B4, B2, B1, Hex.At, Bit;
    assert (6 * g + 1 + j) / 6 == g && (6 * g + 1 + j) % 6 == 1 + j;
  }

  lemma InnerBit(x: Hex, k: Subkey, q: Groups, g: nat, j: nat)
    requires g < 8 && j < 4 && SameKey(k, q)
    ensures Entering(x, k)[6 * g + 1 + j] == (Bit(x.At(g), j) != Bit(q.inner.At(g), j))
  {
    hide *;
    EnteringBit(x, k, q, g, 1 + j);
    assert (4 * g + 1 + j + 31) % 32 == 4 * g + j;
    HexHas(x, g, j);
    GroupsHas(q, g, j);
  }

  function Before(g: nat): (p: nat)
    requires g < 8
    ensures p < 8 && (4 * g + 31) % 32 == 4 * p + 3
  {
    if g == 0 then 7 else g - 1
  }

  function After(g: nat): (n: nat)
    requires g < 8
    ensures n < 8 && (4 * g + 36) % 32 == 4 * n
  {
    if g == 7 then 0 else g + 1
  }

  lemma OuterBits(x: Hex, k: Subkey, q: Groups, g: nat)
    requires g < 8 && SameKey(k, q)
    ensures Entering(x, k)[6 * g] == (Bit(x.At(Before(g)), 3) != B2(q.outer.At(g)))
    ensures Entering(x, k)[6 * g + 5] == (Bit(x.At(After(g)), 0) != B1(q.outer.At(g)))
  {
    hide *;
    EnteringBit(x, k, q, g, 0);
    EnteringBit(x, k, q, g, 5);
    HexHas(x, Before(g), 3);
    HexHas(x, After(g), 0);
    GroupsHas(q, g, 0);
  }

  lemma BoxedAt(x: Hex, q: Groups, g: nat)
    requires g < 8
    ensures Boxed(x, q).At(g) ==
            Cell(Box(g), RowOf(B1(x.At(Before(g))) != B2(q.outer.At(g)), B8(x.At(After(g))) != B1(q.outer.At(g))),
                 SumDigit(x.At(g), q.inner.At(g)))
  {
    hide Cell, SumDigit, B8, B4, B2, B1;
  }

  lemma SumOfBits(x: Nibble, k: Nibble, c: seq<bool>)
    requires |c| == 6 && forall j: nat :: j < 4 ==> c[1 + j] == (Bit(x, j) != Bit(k, j))
    ensures Digit(c[1], c[2], c[3], c[4]) == SumDigit(x, k)
  {
    hide Digit, B8, B4, B2, B1;
    assert c[1 + 0] == (Bit(x, 0) != Bit(k, 0)) && c[1 + 1] == (Bit(x, 1) != Bit(k, 1));
    assert c[1 + 2] == (Bit(x, 2) != Bit(k, 2)) && c[1 + 3] == (Bit(x, 3) != Bit(k, 3));
  }

  lemma GroupSubstituted(x: Hex, k: Subkey, q: Groups, g: nat)
    requires g < 8 && SameKey(k, q)
    ensures Substitute(Sboxes(), g, Entering(x, k)[6 * g..6 * g + 6]) == Boxed(x, q).At(g)
  {
    hide *;
    var c := Entering(x, k)[6 * g..6 * g + 6];
    OuterBits(x, k, q, g);
    LastAndFirst(x.At(Before(g)), x.At(After(g)));
    forall j: nat | j < 4
      ensures c[1 + j] == (Bit(x.At(g), j) != Bit(q.inner.At(g), j))
    {
      InnerBit(x, k, q, g, j);
    }
    SumOfBits(x.At(g), q.inner.At(g), c);
    BoxedAt(x, q, g);
    SubstituteIsCell(g, c);
  }

  lemma LastAndFirst(x: Nibble, y: Nibble)
    ensures Bit(x, 3) == B1(x) && Bit(y, 0) == B8(y)
  {
  }

  /** The cipher function without salt is a lookup and a shuffle of digits. */
  lemma CipherFunctionIsDigits(x: Hex, k: Subkey, q: Groups)
    requires SameKey(k, q)
    ensures CipherFunction(W(x), k, Zero()) == W(Permuted(Boxed(x, q)))
  {
    var s := Boxed(x, q);
    hide Boxed, Permuted, SameKey, Substitute, Hex.At, Bit;
    var y := Substitution(Sboxes(), Entering(x, k));
    forall p: nat | p < 32
      ensures y[p] == s.Has(p)
    {
      GroupSubstituted(x, k, q, p / 4);
      BitIsBitAt(s.At(p / 4), p % 4);
    }
    var f := CipherFunction(W(x), k, Zero());
    forall o: nat | o < 32
      ensures f[o] == W(Permuted(s))[o]
    {
      PermutedHas(s, o);
      assert PFrom()[o] == At(PBOX_ROWS, o) - 1;
    }
  }

  ghost predicate Halved(c: Half, w: seq<bool>) {
    |w| == 28 && forall p: nat :: p < 28 ==> w[p] == c.Has(p)
  }

  lemma RotatedTwice(w: seq<bool>, t: nat, s: nat, p: nat)
    requires |w| == 28 && p < 28
    ensures Rotated(w, t + s)[p] == Rotated(w, t)[(p + s) % 28]
  {
    assert ((p + s) % 28 + t) % 28 == (p + (t + s)) % 28;
  }

  lemma TurnByRotated(c: Half, w: seq<bool>, t: nat, s: nat)
    requires |w| == 28 && Halved(c, Rotated(w, t)) && 1 <= s <= 2
    ensures Halved(TurnBy(c, s), Rotated(w, t + s))
  {
    hide Turn, TurnTwice, Half.Has, Rotated;
    forall p: nat | p < 28
      ensures Rotated(w, t + s)[p] == TurnBy(c, s).Has(p)
    {
      RotatedTwice(w, t, s, p);
      if s == 1 {
        TurnOnceHas(c, p);
      } else {
        TurnTwiceHas(c, p);
      }
    }
  }

  lemma RoundKeyBit(key: Block, n: nat, cd: seq<bool>, i: nat)
    requires i < 48 && cd == Rotated(KeyHalf(key, 0), TotalShift(n)) + Rotated(KeyHalf(key, 1), TotalShift(n))
    ensures 1 <= At(COMP_ROWS, i) <= 56 && KeyBits(RoundKey(key, n))[i] == cd[At(COMP_ROWS, i) - 1]
  {
    hide Rotated, KeyHalf, TotalShift, At;
    if i < 24 {
      assert CompFrom(0)[i] == At(COMP_ROWS, i) - 1;
    } else {
      assert CompFrom(1)[i - 24] == At(COMP_ROWS, i) - 1;
    }
  }

  lemma RoundKeyIsCompress(key: Block, n: nat, c: Half, d: Half)
    requires Halved(c, Rotated(KeyHalf(key, 0), TotalShift(n))) && Halved(d, Rotated(KeyHalf(key, 1), TotalShift(n)))
    ensures SameKey(RoundKey(key, n), Compress(c, d))
  {
    hide Rotated, KeyHalf, TotalShift, At, Compress, RoundKey, KeyBits, Half.Has, Groups.Has;
    var cd := Rotated(KeyHalf(key, 0), TotalShift(n)) + Rotated(KeyHalf(key, 1), TotalShift(n));
    forall i | 0 <= i < 48
      ensures KeyBits(RoundKey(key, n))[i] == Compress(c, d).Has(i)
    {
      RoundKeyBit(key, n, cd, i);
      CompressHas(c, d, i);
    }
  }

  /** The two words as a block. */
  function Pair(l: Hex, r: Hex): Block {
    Block(W(l), W(r))
  }

  lemma PairBit(l: Hex, r: Hex, p: nat)
    requires p < 64
    ensures Pair(l, r).Bits()[p] == Joined(l, r, p)
  {
    hide Hex.Has;
  }

  lemma KeyHalvesLeft(l: Hex, r: Hex)
    ensures Halved(LeftKey(l, r), Rotated(KeyHalf(Pair(l, r), 0), 0))
  {
    hide LeftKey, Half.Has, Joined, At, Pair;
    forall p: nat | p < 28
      ensures KeyHalf(Pair(l, r), 0)[p] == LeftKey(l, r).Has(p)
    {
      LeftKeyHas(l, r, p);
      PairBit(l, r, At(KEY_ROWS, p) - 1);
      assert KeyFrom(0)[p] == At(KEY_ROWS, p) - 1;
    }
  }

  lemma KeyHalvesRight(l: Hex, r: Hex)
    ensures Halved(RightKey(l, r), Rotated(KeyHalf(Pair(l, r), 1), 0))
  {
    hide RightKey, Half.Has, Joined, At, Pair;
    forall p: nat | p < 28
      ensures KeyHalf(Pair(l, r), 1)[p] == RightKey(l, r).Has(p)
    {
      RightKeyHas(l, r, p);
      PairBit(l, r, At(KEY_ROWS, 28 + p) - 1);
      assert KeyFrom(1)[p] == At(KEY_ROWS, 28 + p) - 1;
    }
  }

  lemma InitialIsDigits(l: Hex, r: Hex)
    ensures InitialPermutation(Pair(l, r)) == Pair(InitialLeft(l, r), InitialRight(l, r))
  {
    var x, y := InitialPermutation(Pair(l, r)), Pair(InitialLeft(l, r), InitialRight(l, r));
    hide InitialLeft, InitialRight, InitialPermutation, Hex.Has, At, Pair, Block.Bits;
    forall p | 0 <= p < 64
      ensures x.Bits()[p] == y.Bits()[p]
    {
      InitialBit(Pair(l, r), p);
      PairBit(l, r, At(IP_ROWS, p) - 1);
      PairBit(InitialLeft(l, r), InitialRight(l, r), p);
      if p < 32 {
        InitialLeftHas(l, r, p);
      } else {
        InitialRightHas(l, r, p - 32);
      }
    }
    SameBits(x, y);
  }

  lemma RoundIsDigits(l: Hex, r: Hex, k: Subkey, q: Groups)
    requires SameKey(k, q)
    ensures Round(Pair(l, r), k, Salting(Zero())) == Pair(r, Sum(Permuted(Boxed(r, q)), l))
  {
    hide SameKey, Permuted, Boxed, Sum, CipherFunction, Hex.Has;
    CipherFunctionIsDigits(r, k, q);
    var f := Permuted(Boxed(r, q));
    forall p: nat | p < 32
      ensures Xor(W(f), W(l))[p] == W(Sum(f, l))[p]
    {
      SumHas(f, l, p);
    }
    assert Xor(W(f), W(l)) == W(Sum(f, l));
  }

  /** How far the key has been turned before round n. */
  function Turned(n: nat): nat {
    if n == 0 then 0 else TotalShift(n - 1)
  }

  /** After n rounds the block is (l, r) and the halves of the key are c and d. */
  ghost predicate Reached(key: Block, b: Block, n: nat, l: Hex, r: Hex, c: Half, d: Half) {
    n <= 16 && Rounds(b, Schedule(key)[..n], Salting(Zero())) == Pair(l, r) &&
    Halved(c, Rotated(KeyHalf(key, 0), Turned(n))) && Halved(d, Rotated(KeyHalf(key, 1), Turned(n)))
  }

  lemma Advance(key: Block, b: Block, n: nat, l: Hex, r: Hex, c: Half, d: Half, c1: Half, d1: Half)
    requires n < 16 && Reached(key, b, n, l, r, c, d) && 1 <= At(SHIFT_ROWS, n) <= 2
    requires c1 == TurnBy(c, At(SHIFT_ROWS, n)) && d1 == TurnBy(d, At(SHIFT_ROWS, n))
    ensures Reached(key, b, n + 1, r, Sum(Permuted(Boxed(r, Compress(c1, d1))), l), c1, d1)
  {
    hide Sum, Permuted, Boxed, Compress, TurnBy, Halved, Rotated, KeyHalf, RoundKey, Round, At, Pair;
    assert Turned(n + 1) == Turned(n) + At(SHIFT_ROWS, n);
    TurnByRotated(c, KeyHalf(key, 0), Turned(n), At(SHIFT_ROWS, n));
    TurnByRotated(d, KeyHalf(key, 1), Turned(n), At(SHIFT_ROWS, n));
    RoundKeyIsCompress(key, n, c1, d1);
    var ks := Schedule(key);
    assert ks[..n + 1][..n] == ks[..n] && ks[..n + 1][n] == RoundKey(key, n);
    RoundIsDigits(l, r, RoundKey(key, n), Compress(c1, d1));
  }
}
