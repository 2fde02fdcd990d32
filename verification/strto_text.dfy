/**
 * The strings strtol and its relatives read, written out piece by piece: white
 * space, a sign, a prefix, digits, and whatever follows. What the functions
 * answer is stated by the pieces alone, and every string is such a text.
 */
module StrtoText {
  import opened Strto

  const LOWER: string := "0123456789abcdefghijklmnopqrstuvwxyz"
  const UPPER: string := "0123456789ABCDEFGHIJKLMNOPQRSTUVWXYZ"

  /** Space, tab, newline, vertical tab, form feed and carriage return. */
  predicate Space(c: char) {
    c == ' ' || 9 <= c as int <= 13
  }

  /** The character is a digit of this worth, in either case. */
  predicate Worth(c: char, d: nat) {
    d < 36 && |LOWER| == |UPPER| == 36 && (c == LOWER[d] || c == UPPER[d])
  }

  /** The number that digits write, least significant last. */
  function Positional(ds: seq<nat>, base: nat): nat {
    if |ds| == 0 then 0 else Positional(ds[..|ds| - 1], base) * base + ds[|ds| - 1]
  }

  /** The pieces of a string; `worths` are those of the digits and `radix` is the base in force. */
  datatype Text = Text(blanks: string, sign: string, prefix: string, digits: string, worths: seq<nat>, radix: nat, rest: string) {
    function Whole(): string {
      blanks + (sign + (prefix + (digits + rest)))
    }

    function Value(): int {
      if sign == "-" then -(Positional(worths, radix) as int) else Positional(worths, radix)
    }
  }

  predicate StartsWith(s: string, cs: set<char>) {
    |s| > 0 && s[0] in cs
  }

  /** The prefix announces the radix; `tail` is what follows it. */
  predicate Announces(prefix: string, radix: nat, base: nat, tail: string) {
    if base == 0 then
      || (prefix in {"0x", "0X"} && radix == 16)
      || (prefix == "0" && radix == 8 && !StartsWith(tail, {'x', 'X'}))
      || (prefix == "" && radix == 10 && !StartsWith(tail, {'0'}))
    else if base == 16 then
      radix == 16 && (prefix in {"0x", "0X"} ||
                      (prefix == "" && !(StartsWith(tail, {'0'}) && StartsWith(tail[1..], {'x', 'X'}))))
    else prefix == "" && radix == base
  }

  /** The pieces are what they are meant to be, and none could be longer. */
  ghost predicate Wellformed(t: Text, base: nat) {
    && (forall k :: 0 <= k < |t.blanks| ==> Space(t.blanks[k]))
    && t.sign in {"", "+", "-"}
    && Announces(t.prefix, t.radix, base, t.digits + t.rest)
    && |t.worths| == |t.digits|
    && (forall k :: 0 <= k < |t.digits| ==> Worth(t.digits[k], t.worths[k]) && t.worths[k] < t.radix)
    && (|t.rest| > 0 ==> forall d: nat :: Worth(t.rest[0], d) ==> d >= t.radix)
    && (t.sign + t.prefix + t.digits == "" && |t.rest| > 0 ==> !Space(t.rest[0]) && t.rest[0] !in {'+', '-'})
  }

  // ---- Characters ----

  lemma LowerAt(d: nat)
    requires d < 36
    ensures |LOWER| == 36 && LOWER[d] as int == (if d < 10 then '0' as int + d else 'a' as int + d - 10)
  {
  }

  lemma UpperAt(d: nat)
    requires d < 36
    ensures |UPPER| == 36 && UPPER[d] as int == (if d < 10 then '0' as int + d else 'A' as int + d - 10)
  {
  }

  lemma WorthIsDigitVal(c: char, d: nat)
    ensures Worth(c, d) <==> DigitVal(c) == d
  {
    if d < 36 {
      LowerAt(d);
      UpperAt(d);
    }
  }

  lemma SpaceIsBlank(c: char)
    ensures Space(c) <==> IsBlank(c)
  {
  }

  // ---- Reading the pieces ----

  lemma {:induction false} BlanksOf(w: string, u: string)
    requires forall k :: 0 <= k < |w| ==> Space(w[k])
    requires |u| > 0 ==> !Space(u[0])
    ensures Blanks(w + u) == |w|
  {
    if |w| > 0 {
      SpaceIsBlank(w[0]);
      assert (w + u)[1..] == w[1..] + u;
      BlanksOf(w[1..], u);
    } else {
      assert w + u == u;
      if |u| > 0 {
        SpaceIsBlank(u[0]);
      }
    }
  }

  /** What the digits leave behind when they are read on top of a number. */
  function ReadOn(ds: seq<nat>, base: nat, acc: nat): nat {
    if |ds| == 0 then acc else ReadOn(ds[1..], base, acc * base + ds[0])
  }

  lemma {:induction false} ReadOnLast(ds: seq<nat>, base: nat, acc: nat)
    requires |ds| > 0
    ensures ReadOn(ds, base, acc) == ReadOn(ds[..|ds| - 1], base, acc) * base + ds[|ds| - 1]
  {
    if |ds| > 1 {
      ReadOnLast(ds[1..], base, acc * base + ds[0]);
      assert ds[1..][..|ds| - 2] == ds[..|ds| - 1][1..];
    }
  }

  lemma {:induction false} ReadOnIsPositional(ds: seq<nat>, base: nat)
    ensures ReadOn(ds, base, 0) == Positional(ds, base)
  {
    if |ds| > 0 {
      ReadOnLast(ds, base, 0);
      ReadOnIsPositional(ds[..|ds| - 1], base);
    }
  }

  lemma {:induction false} DigitsRead(d: string, ds: seq<nat>, rest: string, base: nat, acc: nat)
    requires |d| == |ds| && forall k :: 0 <= k < |d| ==> Worth(d[k], ds[k]) && ds[k] < base
    requires |rest| > 0 ==> forall v: nat :: Worth(rest[0], v) ==> v >= base
    ensures RunLength(d + rest, base) == |d| && RunValue(d + rest, base, acc) == ReadOn(ds, base, acc)
  {
    hide Worth;
    if |d| > 0 {
      WorthIsDigitVal(d[0], ds[0]);
      assert (d + rest)[1..] == d[1..] + rest;
      DigitsRead(d[1..], ds[1..], rest, base, acc * base + ds[0]);
    } else {
      assert d + rest == rest;
      if |rest| > 0 && IsDigit(rest[0], base) {
        WorthIsDigitVal(rest[0], DigitVal(rest[0]));
      }
    }
  }

  lemma PrefixOf(t: Text, base: nat)
    requires Announces(t.prefix, t.radix, base, t.digits + t.rest)
    ensures Prefix(t.prefix + (t.digits + t.rest), base) == (t.radix, |t.prefix|)
  {
    var tail := t.digits + t.rest;
    var u := t.prefix + tail;
    if t.prefix == "" {
      assert u == tail;
    } else if t.prefix == "0" {
      assert u[0] == '0' && (|tail| > 0 ==> u[1] == tail[0]);
    } else {
      assert u[0] == t.prefix[0] && u[1] == t.prefix[1];
    }
  }

  /** What follows the white space starts neither with white space nor, without a sign, with one. */
  lemma TailStarts(t: Text, base: nat)
    requires Wellformed(t, base)
    ensures var u := t.prefix + (t.digits + t.rest);
            && (|t.sign + u| > 0 ==> !Space((t.sign + u)[0]))
            && (t.sign == "" ==> !HasSign(u))
  {
    var u := t.prefix + (t.digits + t.rest);
    if t.sign != "" {
      assert (t.sign + u)[0] == t.sign[0];
    } else if t.prefix != "" {
      assert t.sign + u == u && u[0] == t.prefix[0] == '0';
    } else if t.digits != "" {
      assert t.sign + u == u && u[0] == t.digits[0];
      WorthIsDigitVal(u[0], t.worths[0]);
    } else {
      assert t.sign + t.prefix + t.digits == "";
      assert t.sign + u == u == t.rest;
    }
  }

  lemma LeadRead(t: Text, base: nat)
    requires Wellformed(t, base)
    ensures LeadOf(t.Whole(), base) == Lead(|t.blanks| + |t.sign| + |t.prefix|, t.radix, t.sign == "-")
  {
    var u := t.prefix + (t.digits + t.rest);
    var s := t.Whole();
    TailStarts(t, base);
    BlanksOf(t.blanks, t.sign + u);
    PrefixOf(t, base);
    hide Wellformed, Announces, Blanks, Prefix, Space;
    assert s[|t.blanks|..] == t.sign + u;
    assert (t.sign + u)[|t.sign|..] == u;
    if t.sign == "" {
      assert t.sign + u == u;
    }
  }

  lemma WholeFromDigits(t: Text)
    ensures var n := |t.blanks| + |t.sign| + |t.prefix|;
            n <= |t.Whole()| && t.Whole()[n..] == t.digits + t.rest
  {
    var u := t.digits + t.rest;
    assert t.Whole() == (t.blanks + t.sign + t.prefix) + u;
  }

  /** A text is read as far as its digits go, and as the number they write. */
  lemma TextReads(t: Text, base: nat)
    requires Wellformed(t, base)
    ensures DigitCount(t.Whole(), base) == |t.digits| && Written(t.Whole(), base) == t.Value()
    ensures LeadOf(t.Whole(), base).start == |t.blanks| + |t.sign| + |t.prefix|
    ensures Magnitude(t.Whole(), base) == Positional(t.worths, t.radix)
  {
    hide LeadOf, RunLength, RunValue, Positional, ReadOn, Text.Whole, Announces, Space, Worth;
    LeadRead(t, base);
    DigitsRead(t.digits, t.worths, t.rest, t.radix, 0);
    ReadOnIsPositional(t.worths, t.radix);
    WholeFromDigits(t);
  }

  /** strtol of a text: its value clamped to the type, ERANGE exactly when it does not fit, and
      the place after the last digit. Without a digit nothing is read, prefix or not. */
  method ReadSigned(t: Text, base: nat) returns (r: int, e: nat, errno: Errno)
    requires base == 0 || 2 <= base <= 36
    requires Wellformed(t, base)
    ensures |t.digits| == 0 ==> r == 0 && e == 0 && errno == Fine
    ensures |t.digits| > 0 ==>
      && e == |t.blanks| + |t.sign| + |t.prefix| + |t.digits|
      && r == Clamp(t.Value(), LLONG_MIN, LLONG_MAX)
      && errno == (if LLONG_MIN <= t.Value() <= LLONG_MAX then Fine else ERANGE)
  {
    hide Wellformed, LeadOf, DigitCount, Written;
    r, e, errno := Strtoll(t.Whole(), base);
    TextReads(t, base);
  }

  /** strtoul of a text: its value modulo 2^64, unless the digits alone are out of range. */
  method ReadUnsigned(t: Text, base: nat) returns (r: nat, e: nat, errno: Errno)
    requires base == 0 || 2 <= base <= 36
    requires Wellformed(t, base)
    ensures |t.digits| == 0 ==> r == 0 && e == 0 && errno == Fine
    ensures |t.digits| > 0 ==>
      && e == |t.blanks| + |t.sign| + |t.prefix| + |t.digits|
      && (if Positional(t.worths, t.radix) <= ULLONG_MAX then errno == Fine && r == t.Value() % SPAN
          else errno == ERANGE && r == ULLONG_MAX)
  {
    hide Wellformed, LeadOf, DigitCount, Written, Magnitude, Positional;
    r, e, errno := Strtoull(t.Whole(), base);
    TextReads(t, base);
  }

  // ---- Every string is a text ----

  function Worths(d: string): (ds: seq<nat>)
    requires forall k :: 0 <= k < |d| ==> DigitVal(d[k]) >= 0
    ensures |ds| == |d|
  {
    seq(|d|, k requires 0 <= k < |d| => DigitVal(d[k]))
  }

  lemma {:induction false} RunIsDigits(s: string, base: nat)
    ensures forall k :: 0 <= k < RunLength(s, base) ==> IsDigit(s[k], base)
    ensures RunLength(s, base) < |s| ==> !IsDigit(s[RunLength(s, base)], base)
  {
    if |s| > 0 && IsDigit(s[0], base) {
      RunIsDigits(s[1..], base);
      forall k | 0 <= k < RunLength(s, base)
        ensures IsDigit(s[k], base)
      {
        assert k > 0 ==> s[k] == s[1..][k - 1];
      }
    }
  }

  lemma {:induction false} BlanksAreBlank(s: string)
    ensures forall k :: 0 <= k < Blanks(s) ==> IsBlank(s[k])
    ensures Blanks(s) < |s| ==> !IsBlank(s[Blanks(s)])
  {
    if |s| > 0 && IsBlank(s[0]) {
      BlanksAreBlank(s[1..]);
      forall k | 0 <= k < Blanks(s)
        ensures IsBlank(s[k])
      {
        assert k > 0 ==> s[k] == s[1..][k - 1];
      }
    }
  }

  /** The longest run of digits. */
  lemma SplitDigits(s: string, radix: nat) returns (digits: string, worths: seq<nat>, rest: string)
    ensures s == digits + rest && |worths| == |digits|
    ensures forall k :: 0 <= k < |digits| ==> Worth(digits[k], worths[k]) && worths[k] < radix
    ensures |rest| > 0 ==> forall d: nat :: Worth(rest[0], d) ==> d >= radix
  {
    hide Worth;
    RunIsDigits(s, radix);
    var n := RunLength(s, radix);
    digits, rest := s[..n], s[n..];
    worths := Worths(digits);
    forall k | 0 <= k < |digits|
      ensures Worth(digits[k], worths[k]) && worths[k] < radix
    {
      assert IsDigit(s[k], radix);
      WorthIsDigitVal(digits[k], worths[k]);
    }
    if |rest| > 0 {
      forall d: nat | Worth(rest[0], d)
        ensures d >= radix
      {
        WorthIsDigitVal(rest[0], d);
      }
    }
  }

  lemma SplitPrefix(u: string, base: nat) returns (prefix: string, radix: nat, tail: string)
    ensures u == prefix + tail && Announces(prefix, radix, base, tail)
  {
    var (b, p) := Prefix(u, base);
    prefix, radix, tail := u[..p], b, u[p..];
    if p == 2 {
      assert prefix == [u[0], u[1]];
    } else if p == 1 {
      assert prefix == [u[0]];
    }
  }

  lemma SplitBlanks(s: string) returns (blanks: string, v: string)
    ensures s == blanks + v && forall k :: 0 <= k < |blanks| ==> Space(blanks[k])
    ensures |v| > 0 ==> !Space(v[0])
  {
    BlanksAreBlank(s);
    var b := Blanks(s);
    blanks, v := s[..b], s[b..];
    hide Blanks, Space;
    forall k | 0 <= k < |blanks|
      ensures Space(blanks[k])
    {
      SpaceIsBlank(s[k]);
    }
    if |v| > 0 {
      SpaceIsBlank(v[0]);
    }
  }

  lemma SplitSign(v: string) returns (sign: string, u: string)
    ensures v == sign + u && sign in {"", "+", "-"} && (sign == "" ==> !HasSign(u))
  {
    if HasSign(v) {
      sign, u := v[..1], v[1..];
      assert sign == [v[0]];
    } else {
      sign, u := "", v;
    }
  }

  /** Every string is a text, for every base. */
  lemma EveryText(s: string, base: nat) returns (t: Text)
    ensures t.Whole() == s && Wellformed(t, base)
  {
    hide Space, Worth, Announces;
    var blanks, v := SplitBlanks(s);
    var sign, u := SplitSign(v);
    var prefix, radix, tail := SplitPrefix(u, base);
    var digits, worths, rest := SplitDigits(tail, radix);
    t := Text(blanks, sign, prefix, digits, worths, radix, rest);
    if sign + prefix + digits == "" {
      assert sign == "" && prefix == "" && digits == "";
      assert v == u == tail == rest;
    }
  }

  /** With base 0 a lone 0 counts as an octal prefix without digits, so nothing of it is read. */
  lemma LoneZero(t: Text)
    requires Wellformed(t, 0) && t.prefix == "0" && |t.digits| == 0
    ensures DigitCount(t.Whole(), 0) == 0
    ensures Wellformed(Text("", "", "0", "", [], 8, ""), 0) && Text("", "", "0", "", [], 8, "").Whole() == "0"
  {
    TextReads(t, 0);
  }
}
