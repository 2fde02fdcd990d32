/**
 * The character classes of include/ctype.h: a table of flags in src/ctype.c,
 * proved to be what it is meant to be, range by range.
 */
module Ctype {
  const UPPER := 1
  const LOWER := 2
  const DIGIT := 4
  const SPACE := 8
  const XDIGIT := 16
  const CNTRL := 32
  const PUNCT := 64
  const BLANK := 128

  /** __ctype_table, in rows of eight. */
  const TABLE: seq<seq<nat>> := [
    [32, 32, 32, 32, 32, 32, 32, 32],
    [32, 168, 40, 40, 40, 40, 32, 32],
    [32, 32, 32, 32, 32, 32, 32, 32],
    [32, 32, 32, 32, 32, 32, 32, 32],
    [136, 64, 64, 64, 64, 64, 64, 64],
    [64, 64, 64, 64, 64, 64, 64, 64],
    [20, 20, 20, 20, 20, 20, 20, 20],
    [20, 20, 64, 64, 64, 64, 64, 64],
    [64, 17, 17, 17, 17, 17, 17, 1],
    [1, 1, 1, 1, 1, 1, 1, 1],
    [1, 1, 1, 1, 1, 1, 1, 1],
    [1, 1, 1, 64, 64, 64, 64, 64],
    [64, 18, 18, 18, 18, 18, 18, 2],
    [2, 2, 2, 2, 2, 2, 2, 2],
    [2, 2, 2, 2, 2, 2, 2, 2],
    [2, 2, 2, 64, 64, 64, 64, 32]
  ]

  function Entry(c: nat): nat {
    if c / 8 < |TABLE| && c % 8 < |TABLE[c / 8]| then TABLE[c / 8][c % 8] else 0
  }

  /** Whether a flag, a power of two, is set in a number. */
  predicate Has(v: nat, flag: nat)
    requires flag > 0
  {
    v / flag % 2 == 1
  }

  /** __ctype_isflag for one flag. */
  predicate Is(c: char, flag: nat)
    requires flag > 0
  {
    c as int < 128 && Has(Entry(c as int), flag)
  }

  predicate Upper(c: char) { 'A' <= c <= 'Z' }
  predicate Lower(c: char) { 'a' <= c <= 'z' }
  predicate Digit(c: char) { '0' <= c <= '9' }
  predicate Space(c: char) { c == ' ' || 9 <= c as int <= 13 }
  predicate HexDigit(c: char) { '0' <= c <= '9' || 'A' <= c <= 'F' || 'a' <= c <= 'f' }
  predicate Control(c: char) { c as int < 32 || c as int == 127 }
  predicate Blank(c: char) { c == ' ' || c == '\t' }

  /** Neither a letter, a digit, the blank nor a control character. */
  predicate Punctuation(c: char) {
    32 < c as int < 127 && !Upper(c) && !Lower(c) && !Digit(c)
  }

  function Bit(b: bool, flag: nat): nat {
    if b then flag else 0
  }

  /** The flags a character ought to have. */
  function Flags(c: char): nat {
    Bit(Upper(c), 1) + Bit(Lower(c), 2) + Bit(Digit(c), 4) + Bit(Space(c), 8) +
    Bit(HexDigit(c), 16) + Bit(Control(c), 32) + Bit(Punctuation(c), 64) + Bit(Blank(c), 128)
  }

  lemma Entries0(c: char)
    requires 0 <= c as int < 16
    ensures Entry(c as int) == Flags(c)
  {
  }

  lemma Entries1(c: char)
    requires 16 <= c as int < 32
    ensures Entry(c as int) == Flags(c)
  {
  }

  lemma Entries2(c: char)
    requires 32 <= c as int < 48
    ensures Entry(c as int) == Flags(c)
  {
  }

  lemma Entries3(c: char)
    requires 48 <= c as int < 64
    ensures Entry(c as int) == Flags(c)
  {
  }

  lemma Entries4(c: char)
    requires 64 <= c as int < 80
    ensures Entry(c as int) == Flags(c)
  {
  }

  lemma Entries5(c: char)
    requires 80 <= c as int < 96
    ensures Entry(c as int) == Flags(c)
  {
  }

  lemma Entries6(c: char)
    requires 96 <= c as int < 112
    ensures Entry(c as int) == Flags(c)
  {
  }

  lemma Entries7(c: char)
    requires 112 <= c as int < 128
    ensures Entry(c as int) == Flags(c)
  {
  }

  lemma Entries(c: char)
    requires c as int < 128
    ensures Entry(c as int) == Flags(c)
  {
    hide *;
    var n := c as int;
    if n < 16 {
      Entries0(c);
    } else if n < 32 {
      Entries1(c);
    } else if n < 48 {
      Entries2(c);
    } else if n < 64 {
      Entries3(c);
    } else if n < 80 {
      Entries4(c);
    } else if n < 96 {
      Entries5(c);
    } else if n < 112 {
      Entries6(c);
    } else {
      Entries7(c);
    }
  }

  lemma UpperFlag(high: nat, b: bool, low: nat)
    requires low < 1
    ensures Has(2 * high + Bit(b, 1) + low, 1) == b
  {
  }

  lemma LowerFlag(high: nat, b: bool, low: nat)
    requires low < 2
    ensures Has(4 * high + Bit(b, 2) + low, 2) == b
  {
  }

  lemma DigitFlag(high: nat, b: bool, low: nat)
    requires low < 4
    ensures Has(8 * high + Bit(b, 4) + low, 4) == b
  {
  }

  lemma SpaceFlag(high: nat, b: bool, low: nat)
    requires low < 8
    ensures Has(16 * high + Bit(b, 8) + low, 8) == b
  {
  }

  lemma XdigitFlag(high: nat, b: bool, low: nat)
    requires low < 16
    ensures Has(32 * high + Bit(b, 16) + low, 16) == b
  {
  }

  lemma CntrlFlag(high: nat, b: bool, low: nat)
    requires low < 32
    ensures Has(64 * high + Bit(b, 32) + low, 32) == b
  {
  }

  lemma PunctFlag(high: nat, b: bool, low: nat)
    requires low < 64
    ensures Has(128 * high + Bit(b, 64) + low, 64) == b
  {
  }

  lemma BlankFlag(high: nat, b: bool, low: nat)
    requires low < 128
    ensures Has(256 * high + Bit(b, 128) + low, 128) == b
  {
  }

  lemma Lowest(a: bool, b: bool, c: bool, d: bool, e: bool, f: bool, g: bool, h: bool)
    ensures var v := Bit(a, 1) + Bit(b, 2) + Bit(c, 4) + Bit(d, 8) + Bit(e, 16) + Bit(f, 32) + Bit(g, 64) + Bit(h, 128);
            Has(v, 1) == a && Has(v, 2) == b
  {
    hide Has;
    UpperFlag(Bit(b, 1) + Bit(c, 2) + Bit(d, 4) + Bit(e, 8) + Bit(f, 16) + Bit(g, 32) + Bit(h, 64), a, 0);
    LowerFlag(Bit(c, 1) + Bit(d, 2) + Bit(e, 4) + Bit(f, 8) + Bit(g, 16) + Bit(h, 32), b, Bit(a, 1));
  }

  lemma LowHalf(a: bool, b: bool, c: bool, d: bool, e: bool, f: bool, g: bool, h: bool)
    ensures var v := Bit(a, 1) + Bit(b, 2) + Bit(c, 4) + Bit(d, 8) + Bit(e, 16) + Bit(f, 32) + Bit(g, 64) + Bit(h, 128);
            Has(v, 4) == c && Has(v, 8) == d
  {
    hide Has;
    DigitFlag(Bit(d, 1) + Bit(e, 2) + Bit(f, 4) + Bit(g, 8) + Bit(h, 16), c, Bit(a, 1) + Bit(b, 2));
    SpaceFlag(Bit(e, 1) + Bit(f, 2) + Bit(g, 4) + Bit(h, 8), d, Bit(a, 1) + Bit(b, 2) + Bit(c, 4));
  }

  lemma HighHalf(a: bool, b: bool, c: bool, d: bool, e: bool, f: bool, g: bool, h: bool)
    ensures var v := Bit(a, 1) + Bit(b, 2) + Bit(c, 4) + Bit(d, 8) + Bit(e, 16) + Bit(f, 32) + Bit(g, 64) + Bit(h, 128);
            Has(v, 16) == e && Has(v, 32) == f && Has(v, 64) == g && Has(v, 128) == h
  {
    hide Has;
    XdigitFlag(Bit(f, 1) + Bit(g, 2) + Bit(h, 4), e, Bit(a, 1) + Bit(b, 2) + Bit(c, 4) + Bit(d, 8));
    CntrlFlag(Bit(g, 1) + Bit(h, 2), f, Bit(a, 1) + Bit(b, 2) + Bit(c, 4) + Bit(d, 8) + Bit(e, 16));
    PunctFlag(Bit(h, 1), g, Bit(a, 1) + Bit(b, 2) + Bit(c, 4) + Bit(d, 8) + Bit(e, 16) + Bit(f, 32));
    BlankFlag(0, h, Bit(a, 1) + Bit(b, 2) + Bit(c, 4) + Bit(d, 8) + Bit(e, 16) + Bit(f, 32) + Bit(g, 64));
  }

  /** The table says of every character what the C locale says of it; beyond 127 there is nothing. */
  lemma TableMeans(c: char)
    ensures Is(c, UPPER) == Upper(c) && Is(c, LOWER) == Lower(c) && Is(c, DIGIT) == Digit(c)
    ensures Is(c, SPACE) == Space(c) && Is(c, XDIGIT) == HexDigit(c) && Is(c, CNTRL) == Control(c)
    ensures Is(c, PUNCT) == Punctuation(c) && Is(c, BLANK) == Blank(c)
  {
    if c as int < 128 {
      hide Entry, Has, Upper, Lower, Digit, Space, HexDigit, Control, Punctuation, Blank, Bit;
      Entries(c);
      Lowest(Upper(c), Lower(c), Digit(c), Space(c), HexDigit(c), Control(c), Punctuation(c), Blank(c));
      LowHalf(Upper(c), Lower(c), Digit(c), Space(c), HexDigit(c), Control(c), Punctuation(c), Blank(c));
      HighHalf(Upper(c), Lower(c), Digit(c), Space(c), HexDigit(c), Control(c), Punctuation(c), Blank(c));
    }
  }
}
