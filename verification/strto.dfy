/**
 * Integer parsing of src/strto.c. long and long long are both 64 bits wide, so
 * strtol and strtoll are one method here, and so are strtoul and strtoull.
 */
module Strto {
  const LLONG_MAX: int := 0x7FFF_FFFF_FFFF_FFFF
  const LLONG_MIN: int := -0x8000_0000_0000_0000
  const ULLONG_MAX: int := 0xFFFF_FFFF_FFFF_FFFF
  const SPAN: int := 0x1_0000_0000_0000_0000

  /** digit_val. */
  function DigitVal(c: char): (d: int)
    ensures -1 <= d < 36
  {
    if '0' <= c <= '9' then c as int - '0' as int
    else if 'a' <= c <= 'z' then c as int - 'a' as int + 10
    else if 'A' <= c <= 'Z' then c as int - 'A' as int + 10
    else -1
  }

  predicate IsDigit(c: char, base: nat) {
    0 <= DigitVal(c) < base
  }

  predicate IsBlank(c: char) {
    c == ' ' || c == '\t' || c == '\n' || c == '\r' || c as int == 12 || c as int == 11
  }

  function Blanks(s: string): (n: nat)
    ensures n <= |s|
  {
    if |s| == 0 || !IsBlank(s[0]) then 0 else 1 + Blanks(s[1..])
  }

  predicate HasSign(s: string) {
    |s| > 0 && (s[0] == '+' || s[0] == '-')
  }

  predicate HexPrefix(s: string) {
    |s| > 1 && s[0] == '0' && (s[1] == 'x' || s[1] == 'X')
  }

  /** The base in force and the length of the prefix that announces it. */
  function Prefix(s: string, base: nat): (r: (nat, nat))
    ensures r.1 <= |s|
    ensures base == 0 || 2 <= base <= 36 ==> 2 <= r.0 <= 36
  {
    if base == 0 then
      if |s| > 0 && s[0] == '0' then if HexPrefix(s) then (16, 2) else (8, 1) else (10, 0)
    else if base == 16 && HexPrefix(s) then (16, 2)
    else (base, 0)
  }

  /** How many digits s starts with, and the number they write. */
  function RunLength(s: string, base: nat): (n: nat)
    ensures n <= |s|
  {
    if |s| == 0 || !IsDigit(s[0], base) then 0 else 1 + RunLength(s[1..], base)
  }

  function RunValue(s: string, base: nat, acc: nat): nat {
    if |s| == 0 || !IsDigit(s[0], base) then acc else RunValue(s[1..], base, acc * base + DigitVal(s[0]))
  }

  lemma RunStep(s: string, e: nat, base: nat, acc: nat)
    requires e < |s| && IsDigit(s[e], base)
    ensures RunLength(s[e..], base) == 1 + RunLength(s[e + 1..], base)
    ensures RunValue(s[e..], base, acc) == RunValue(s[e + 1..], base, acc * base + DigitVal(s[e]))
  {
    assert s[e..][1..] == s[e + 1..];
  }

  lemma {:induction false} RunValueGrows(s: string, base: nat, acc: nat)
    requires base >= 1
    ensures RunValue(s, base, acc) >= acc
  {
    if |s| > 0 && IsDigit(s[0], base) {
      assert acc * base >= acc;
      RunValueGrows(s[1..], base, acc * base + DigitVal(s[0]));
    }
  }

  /** The division test before each step is the overflow test after it. */
  lemma CutoffTest(val: nat, d: nat, base: nat, cutoff: nat)
    requires base >= 2 && d < base
    ensures val > cutoff / base || (val == cutoff / base && d > cutoff % base) <==> val * base + d > cutoff
  {
    var q, r := cutoff / base, cutoff % base;
    assert cutoff == q * base + r && 0 <= r < base;
    if val > q {
      assert val * base >= (q + 1) * base;
      assert (q + 1) * base == q * base + base;
    } else if val < q {
      assert (val + 1) * base <= q * base;
      assert (val + 1) * base == val * base + base;
    }
  }

  /** One digit more, or the news that the cutoff would be passed. */
  method AddDigit(val: nat, d: nat, base: nat, cutoff: nat) returns (over: bool, v: nat)
    requires base >= 2 && d < base
    ensures over <==> val * base + d > cutoff
    ensures !over ==> v == val * base + d
  {
    var cutdiv, cutlim := cutoff / base, cutoff % base;
    CutoffTest(val, d, base, cutoff);
    over := val > cutdiv || (val == cutdiv && d > cutlim);
    v := if over then val else val * base + d;
  }

  /** Where the digits stop, so does the reading. */
  lemma RunStops(s: string, e: nat, base: nat, acc: nat)
    requires e <= |s| && (e == |s| || !IsDigit(s[e], base))
    ensures RunLength(s[e..], base) == 0 && RunValue(s[e..], base, acc) == acc
  {
  }

  /** The accumulation loop: the value, unless it exceeds the cutoff. */
  method Accumulate(s: string, start: nat, base: nat, cutoff: nat) returns (val: nat, overflow: bool, e: nat)
    requires start <= |s| && 2 <= base <= 36
    ensures e == start + RunLength(s[start..], base)
    ensures overflow <==> RunValue(s[start..], base, 0) > cutoff
    ensures !overflow ==> val == RunValue(s[start..], base, 0)
  {
    hide RunValue, RunLength;
    val, overflow, e := 0, false, start;
    while e < |s| && IsDigit(s[e], base)
      invariant start <= e <= |s|
      invariant e + RunLength(s[e..], base) == start + RunLength(s[start..], base)
      invariant !overflow ==> val <= cutoff && RunValue(s[e..], base, val) == RunValue(s[start..], base, 0)
      invariant overflow ==> RunValue(s[start..], base, 0) > cutoff
    {
      var d := DigitVal(s[e]);
      RunStep(s, e, base, val);
      if !overflow {
        RunValueGrows(s[e + 1..], base, val * base + d);
        overflow, val := AddDigit(val, d, base, cutoff);
      }
      e := e + 1;
    }
    RunStops(s, e, base, val);
  }

  method SkipBlanks(s: string) returns (i: nat)
    ensures i == Blanks(s)
  {
    i := 0;
    assert s[0..] == s;
    while i < |s| && IsBlank(s[i])
      invariant 0 <= i <= |s| && i + Blanks(s[i..]) == Blanks(s)
    {
      assert s[i..][1..] == s[i + 1..];
      i := i + 1;
    }
  }

  /** Where the digits start, in which base, and whether a minus sign came before them. */
  datatype Lead = Lead(start: nat, base: nat, neg: bool)

  function LeadOf(s: string, base: nat): (l: Lead)
    ensures l.start <= |s|
    ensures base == 0 || 2 <= base <= 36 ==> 2 <= l.base <= 36
  {
    var b := Blanks(s);
    var t := s[b..];
    var n := if HasSign(t) then 1 else 0;
    var (inForce, p) := Prefix(t[n..], base);
    Lead(b + n + p, inForce, n == 1 && t[0] == '-')
  }

  method ReadLead(s: string, base: nat) returns (l: Lead)
    requires base == 0 || 2 <= base <= 36
    ensures l == LeadOf(s, base)
  {
    var i := SkipBlanks(s);
    ghost var b := i;
    var neg := false;
    if i < |s| && (s[i] == '+' || s[i] == '-') {
      neg := s[i] == '-';
      i := i + 1;
    }
    assert s[b..][i - b..] == s[i..];
    var inForce := base;
    var hex := i + 1 < |s| && s[i] == '0' && (s[i + 1] == 'x' || s[i + 1] == 'X');
    assert hex == HexPrefix(s[i..]);
    if base == 0 {
      if i < |s| && s[i] == '0' {
        if hex {
          inForce, i := 16, i + 2;
        } else {
          inForce, i := 8, i + 1;
        }
      } else {
        inForce := 10;
      }
    } else if base == 16 {
      if hex {
        i := i + 2;
      }
    }
    l := Lead(i, inForce, neg);
  }

  /** The unsigned number a string writes, and the position after its last digit. */
  function Magnitude(s: string, base: nat): nat {
    var l := LeadOf(s, base);
    RunValue(s[l.start..], l.base, 0)
  }

  function DigitCount(s: string, base: nat): nat {
    var l := LeadOf(s, base);
    RunLength(s[l.start..], l.base)
  }

  /** The number a string writes, sign included. */
  function Written(s: string, base: nat): int {
    if LeadOf(s, base).neg then -(Magnitude(s, base) as int) else Magnitude(s, base)
  }

  predicate BadBase(base: int) {
    base != 0 && (base < 2 || base > 36)
  }

  /** What the functions report through errno. */
  datatype Errno = Fine | EINVAL | ERANGE

  /** Conversion of an unsigned 64-bit word to a signed one. */
  function ToSigned(v: nat): int {
    if v > LLONG_MAX then v - SPAN else v
  }

  /** Two's complement negation. */
  function Negate(x: int): int {
    if x == LLONG_MIN then LLONG_MIN else -x
  }

  function Clamp(x: int, lo: int, hi: int): int {
    if x < lo then lo else if x > hi then hi else x
  }

  /** strtol and strtoll: the written number clamped to the type, with ERANGE exactly when it does not fit. */
  method Strtoll(s: string, base: int) returns (r: int, e: nat, errno: Errno)
    ensures BadBase(base) ==> r == 0 && e == 0 && errno == EINVAL
    ensures !BadBase(base) && DigitCount(s, base) == 0 ==> r == 0 && e == 0 && errno == Fine
    ensures !BadBase(base) && DigitCount(s, base) > 0 ==>
      r == Clamp(Written(s, base), LLONG_MIN, LLONG_MAX) &&
      e == LeadOf(s, base).start + DigitCount(s, base) &&
      errno == (if LLONG_MIN <= Written(s, base) <= LLONG_MAX then Fine else ERANGE)
  {
    if base != 0 && (base < 2 || base > 36) {
      return 0, 0, EINVAL;
    }
    hide RunValue, RunLength, LeadOf;
    var l := ReadLead(s, base);
    var val, overflow, i := Accumulate(s, l.start, l.base, if l.neg then LLONG_MAX + 1 else LLONG_MAX);
    if i == l.start {
      return 0, 0, Fine;
    }
    if overflow {
      return if l.neg then LLONG_MIN else LLONG_MAX, i, ERANGE;
    }
    r := ToSigned(val);
    if l.neg {
      r := Negate(r);
    }
    e, errno := i, Fine;
  }

  lemma NegatedWord(val: nat)
    requires val <= ULLONG_MAX
    ensures val % SPAN == val
    ensures var n := Negate(ToSigned(val)); (-(val as int)) % SPAN == if n < 0 then n + SPAN else n
  {
  }

  /** strtoul and strtoull: the magnitude must fit, and a minus sign negates it modulo 2^64. */
  method Strtoull(s: string, base: int) returns (r: nat, e: nat, errno: Errno)
    ensures BadBase(base) ==> r == 0 && e == 0 && errno == EINVAL
    ensures !BadBase(base) && DigitCount(s, base) == 0 ==> r == 0 && e == 0 && errno == Fine
    ensures !BadBase(base) && DigitCount(s, base) > 0 ==>
      e == LeadOf(s, base).start + DigitCount(s, base) &&
      (if Magnitude(s, base) <= ULLONG_MAX then errno == Fine && r == Written(s, base) % SPAN
       else errno == ERANGE && r == ULLONG_MAX)
  {
    if base != 0 && (base < 2 || base > 36) {
      return 0, 0, EINVAL;
    }
    hide RunValue, RunLength, LeadOf;
    var l := ReadLead(s, base);
    var val, overflow, i := Accumulate(s, l.start, l.base, ULLONG_MAX);
    if i == l.start {
      return 0, 0, Fine;
    }
    if overflow {
      return ULLONG_MAX, i, ERANGE;
    }
    var n: int := Negate(ToSigned(val));
    r := if !l.neg then val else if n < 0 then n + SPAN else n;
    NegatedWord(val);
    e, errno := i, Fine;
  }
}
