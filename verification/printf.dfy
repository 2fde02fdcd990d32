/**
 * Integer directives of src/printf.c: digit generation, padding, and the bounded
 * output of vsnprintf; and the proof that what is printed parses back.
 */
module Printf {
  import opened Strto
  import opened Words

  // ---- Digits ----

  function DigitChar(d: nat, upper: bool): (c: char)
    requires d < 16
    ensures DigitVal(c) == d
  {
    if d < 10 then '0' + d as char else (if upper then 'A' else 'a') + (d - 10) as char
  }

  /** The bases the directives use. */
  predicate PrintBase(base: nat) {
    base == 8 || base == 10 || base == 16
  }

  function Quot(v: nat, base: nat): (q: nat)
    requires PrintBase(base)
    ensures v < base ==> q == 0
    ensures v >= base ==> 0 < q < v && 2 * q <= v
  {
    if base == 8 then v / 8 else if base == 10 then v / 10 else v / 16
  }

  function Rem(v: nat, base: nat): (r: nat)
    requires PrintBase(base)
    ensures r < base
    ensures v < base ==> r == v
  {
    if base == 8 then v % 8 else if base == 10 then v % 10 else v % 16
  }

  /** The numeral of v, most significant digit first. */
  function Digits(v: nat, base: nat, upper: bool): (s: string)
    requires PrintBase(base)
    ensures |s| >= 1
    decreases v
  {
    if v < base then [DigitChar(v, upper)]
    else Digits(Quot(v, base), base, upper) + [DigitChar(Rem(v, base), upper)]
  }

  /** A numeral is no longer than the binary width of the number. */
  lemma {:induction false} DigitsFit(v: nat, base: nat, upper: bool, n: nat)
    requires PrintBase(base) && v < Pow2(n) && n >= 1
    ensures |Digits(v, base, upper)| <= n
    decreases v
  {
    if v >= base {
      assert n > 1;
      DigitsFit(Quot(v, base), base, upper, n - 1);
    }
  }

  /** The digits still to be generated. */
  function Rest(v: nat, base: nat, upper: bool): string
    requires PrintBase(base)
  {
    if v == 0 then "" else Digits(v, base, upper)
  }

  lemma DigitsLast(v: nat, base: nat, upper: bool)
    requires PrintBase(base)
    ensures Digits(v, base, upper) == Rest(Quot(v, base), base, upper) + [DigitChar(Rem(v, base), upper)]
  {
  }

  /** One turn: the last outstanding digit goes behind those already there. */
  method PutDigit(tmp: array<char>, n: nat, v: nat, base: nat, upper: bool, ghost done: string)
    returns (q: nat, ghost more: string)
    requires n < tmp.Length && PrintBase(base) && n == |done|
    requires forall j :: 0 <= j < n ==> tmp[j] == done[n - 1 - j]
    modifies tmp
    ensures q == Quot(v, base) && n + 1 == |more|
    ensures Rest(q, base, upper) + more == Digits(v, base, upper) + done
    ensures forall j :: 0 <= j < n + 1 ==> tmp[j] == more[n - j]
  {
    hide Digits, Quot, Rem, Rest;
    DigitsLast(v, base, upper);
    var c := DigitChar(Rem(v, base), upper);
    q := Quot(v, base);
    tmp[n] := c;
    more := [c] + done;
    assert Rest(q, base, upper) + [c] + done == Rest(q, base, upper) + more;
  }

  /** The digit loop: least significant first, into a scratch array of 64. */
  method Scratch(value: nat, base: nat, upper: bool) returns (tmp: array<char>, n: nat)
    requires value <= ULLONG_MAX && PrintBase(base)
    ensures fresh(tmp) && tmp.Length == 64 && n <= 64
    ensures n == |Digits(value, base, upper)|
    ensures forall j :: 0 <= j < n ==> tmp[j] == Digits(value, base, upper)[n - 1 - j]
  {
    hide Digits, Quot;
    SixtyFour(value, base, upper);
    tmp := new char[64];
    ghost var whole := Digits(value, base, upper);
    var v;
    ghost var done;
    v, done := PutDigit(tmp, 0, value, base, upper, "");
    assert whole + "" == whole;
    n := 1;
    while v > 0 && n < 64
      invariant 1 <= n <= 64 && |whole| <= 64 && n == |done|
      invariant whole == Rest(v, base, upper) + done
      invariant forall j :: 0 <= j < n ==> tmp[j] == done[n - 1 - j]
    {
      v, done := PutDigit(tmp, n, v, base, upper, done);
      n := n + 1;
    }
    assert whole == done;
  }

  lemma Pow2Of64()
    ensures ULLONG_MAX < Pow2(64)
  {
    assert Pow2(8) == 256 && Pow2(16) == 65536;
    assert Pow2(24) == 0x100_0000 && Pow2(32) == 0x1_0000_0000;
    assert Pow2(40) == 0x100_0000_0000 && Pow2(48) == 0x1_0000_0000_0000;
    assert Pow2(56) == 0x100_0000_0000_0000 && Pow2(64) == 0x1_0000_0000_0000_0000;
  }

  lemma SixtyFour(v: nat, base: nat, upper: bool)
    requires v <= ULLONG_MAX && PrintBase(base)
    ensures 1 <= |Digits(v, base, upper)| <= 64
  {
    hide Digits;
    Pow2Of64();
    DigitsFit(v, base, upper, 64);
  }

  /** ull_to_base: when the buffer is large enough it receives the numeral. */
  method UllToBase(value: nat, base: nat, upper: bool, buf: array<char>) returns (n: nat)
    requires value <= ULLONG_MAX && PrintBase(base)
    modifies buf
    ensures n == if |Digits(value, base, upper)| <= buf.Length then |Digits(value, base, upper)| else buf.Length
    ensures |Digits(value, base, upper)| <= buf.Length ==> buf[..n] == Digits(value, base, upper)
  {
    var tmp;
    tmp, n := Scratch(value, base, upper);
    ghost var whole := Digits(value, base, upper);
    if n > buf.Length {
      n := buf.Length;
    }
    for j := 0 to n
      invariant forall k :: 0 <= k < j ==> buf[k] == tmp[n - k - 1]
      invariant forall j :: 0 <= j < |whole| ==> tmp[j] == whole[|whole| - 1 - j]
    {
      buf[j] := tmp[n - j - 1];
    }
  }

  // ---- Bounded output ----

  /** The destination of vsnprintf: characters beyond the last but one place are counted, not stored. */
  class Sink {
    const dst: array<char>
    var pos: nat
    ghost var text: string

    ghost predicate Valid()
      reads this, dst
    {
      pos == |text| && forall k :: 0 <= k < pos && k + 1 < dst.Length ==> dst[k] == text[k]
    }

    constructor (dst: array<char>)
      ensures Valid() && this.dst == dst && text == ""
    {
      this.dst := dst;
      pos, text := 0, "";
    }

    /** out_char. */
    method OutChar(c: char)
      requires Valid()
      modifies this, dst
      ensures Valid() && text == old(text) + [c]
    {
      if pos + 1 < dst.Length {
        dst[pos] := c;
      }
      pos := pos + 1;
      text := text + [c];
    }

    /** out_str. */
    method OutStr(s: string)
      requires Valid()
      modifies this, dst
      ensures Valid() && text == old(text) + s
    {
      for i := 0 to |s|
        invariant Valid() && text == old(text) + s[..i]
      {
        OutChar(s[i]);
      }
      assert s[..|s|] == s;
    }

    method OutFill(c: char, n: nat)
      requires Valid()
      modifies this, dst
      ensures Valid() && text == old(text) + Fill(c, n)
    {
      for i := 0 to n
        invariant Valid() && text == old(text) + Fill(c, i)
      {
        OutChar(c);
      }
    }

    /** The end of vsnprintf: as much of the text as fits, terminated; the full length is returned. */
    method Finish() returns (r: nat)
      requires Valid()
      modifies dst
      ensures text == old(text) && r == |text|
      ensures dst.Length > 0 ==>
        var kept := if |text| < dst.Length then |text| else dst.Length - 1;
        dst[..kept] == text[..kept] && dst[kept] == '\0'
    {
      if dst.Length > 0 {
        if pos >= dst.Length {
          dst[dst.Length - 1] := '\0';
        } else {
          dst[pos] := '\0';
        }
      }
      r := pos;
    }
  }

  function Fill(c: char, n: nat): (s: string)
    ensures |s| == n && forall i :: 0 <= i < n ==> s[i] == c
  {
    if n == 0 then "" else Fill(c, n - 1) + [c]
  }

  // ---- Directives ----

  datatype Flags = Flags(left: bool, plus: bool, space: bool, zero: bool, alt: bool)

  /** d, u, x, X and o. */
  datatype Conversion = Signed | Unsigned | Hex(upper: bool) | Octal

  function Base(c: Conversion): (b: nat)
    ensures PrintBase(b)
  {
    match c
    case Hex(_) => 16
    case Octal => 8
    case _ => 10
  }

  predicate Upper(c: Conversion) {
    c.Hex? && c.upper
  }

  predicate InRange(c: Conversion, v: int) {
    if c.Signed? then LLONG_MIN <= v <= LLONG_MAX else 0 <= v <= ULLONG_MAX
  }

  function SignOf(c: Conversion, f: Flags, v: int): string {
    if !c.Signed? then "" else if v < 0 then "-" else if f.plus then "+" else if f.space then " " else ""
  }

  function PrefixOf(c: Conversion, f: Flags, precision: int, v: int): string {
    match c
    case Hex(upper) => if f.alt && v != 0 then if upper then "0X" else "0x" else ""
    case Octal => if f.alt && (v != 0 || precision == 0) then "0" else ""
    case _ => ""
  }

  function Abs(v: int): nat {
    if v < 0 then -v else v
  }

  /** How many zeros come before the digits, and how many blanks before and after everything. */
  datatype Layout = Layout(before: nat, zeros: nat, after: nat)

  function LayoutOf(f: Flags, width: nat, precision: int, lead: nat, digits: nat): (l: Layout)
    ensures var all := l.before + lead + l.zeros + digits + l.after;
            all >= width && (all == width || l.before + l.after == 0) &&
            l.zeros + digits >= precision && (if f.left then l.before == 0 else l.after == 0)
  {
    var numLen := if precision > digits then precision else digits;
    var zeroPad := if f.zero && precision < 0 && !f.left && width > lead + numLen then width - (lead + numLen) else 0;
    var total := lead + zeroPad + numLen;
    var room := if width > total then width - total else 0;
    Layout(if f.left then 0 else room, zeroPad + numLen - digits, if f.left then room else 0)
  }

  function Assembled(l: Layout, sign: string, prefix: string, digits: string): string {
    Fill(' ', l.before) + (sign + (prefix + (Fill('0', l.zeros) + (digits + Fill(' ', l.after)))))
  }

  /** The text of one directive. */
  function Formatted(c: Conversion, f: Flags, width: nat, precision: int, v: int): string {
    var sign, prefix, digits := SignOf(c, f, v), PrefixOf(c, f, precision, v), Digits(Abs(v), Base(c), Upper(c));
    Assembled(LayoutOf(f, width, precision, |prefix| + |sign|, |digits|), sign, prefix, digits)
  }

  lemma Pieces(a: string, b: string, c: string, d: string, e: string, g: string, h: string)
    ensures ((((a + b) + c) + d) + e) + g + h == a + (b + (c + (d + (e + (g + h)))))
  {
  }

  lemma FillSum(c: char, a: nat, b: nat)
    ensures Fill(c, a) + Fill(c, b) == Fill(c, a + b)
  {
  }

  method Numeral(v: nat, base: nat, upper: bool) returns (digits: string)
    requires v <= ULLONG_MAX && PrintBase(base)
    ensures digits == Digits(v, base, upper)
  {
    var buf := new char[64];
    hide Digits;
    SixtyFour(v, base, upper);
    var len := UllToBase(v, base, upper, buf);
    digits := buf[..len];
  }

  /** The padding arithmetic and the output loops. */
  method Pad(sink: Sink, f: Flags, width: nat, precision: int, sign: string, prefix: string, digits: string)
    requires sink.Valid()
    modifies sink, sink.dst
    ensures sink.Valid()
    ensures sink.text == old(sink.text) +
            Assembled(LayoutOf(f, width, precision, |prefix| + |sign|, |digits|), sign, prefix, digits)
  {
    var len := |digits|;
    var numLen := if precision > len then precision else len;
    var lead := |prefix| + |sign|;
    var zeroPad := if f.zero && precision < 0 && !f.left && width > lead + numLen then width - (lead + numLen) else 0;
    var total := lead + zeroPad + numLen;
    var before := if !f.left && width > total then width - total else 0;
    var after := if f.left && width > total then width - total else 0;
    Emit(sink, before, sign, prefix, zeroPad, numLen - len, digits, after);
  }

  /** One integer directive of vsnprintf_impl, from the value on. */
  method Directive(sink: Sink, c: Conversion, f: Flags, width: nat, precision: int, v: int)
    requires sink.Valid() && InRange(c, v)
    modifies sink, sink.dst
    ensures sink.Valid() && sink.text == old(sink.text) + Formatted(c, f, width, precision, v)
  {
    hide Digits, Assembled, LayoutOf, SignOf, PrefixOf;
    var digits := Numeral(Abs(v), Base(c), Upper(c));
    Pad(sink, f, width, precision, SignOf(c, f, v), PrefixOf(c, f, precision, v), digits);
  }

  method Emit(sink: Sink, before: nat, sign: string, prefix: string, zeroPad: nat, more: nat, digits: string, after: nat)
    requires sink.Valid()
    modifies sink, sink.dst
    ensures sink.Valid()
    ensures sink.text == old(sink.text) + Assembled(Layout(before, zeroPad + more, after), sign, prefix, digits)
  {
    sink.OutFill(' ', before);
    sink.OutStr(sign);
    sink.OutStr(prefix);
    sink.OutFill('0', zeroPad);
    sink.OutFill('0', more);
    sink.OutStr(digits);
    sink.OutFill(' ', after);
    FillSum('0', zeroPad, more);
    ghost var was := old(sink.text);
    assert was + Fill(' ', before) + sign + prefix + Fill('0', zeroPad) + Fill('0', more) ==
           was + Fill(' ', before) + sign + prefix + Fill('0', zeroPad + more);
    Pieces(was, Fill(' ', before), sign, prefix, Fill('0', zeroPad + more), digits, Fill(' ', after));
  }

  // ---- Reading back ----

  lemma {:induction false} BlanksFill(n: nat, t: string)
    requires |t| > 0 && !IsBlank(t[0])
    ensures Blanks(Fill(' ', n) + t) == n
  {
    if n > 0 {
      FillSum(' ', 1, n - 1);
      assert Fill(' ', 1) == [' '];
      assert (Fill(' ', n) + t)[1..] == Fill(' ', n - 1) + t;
      BlanksFill(n - 1, t);
    } else {
      assert Fill(' ', 0) + t == t;
    }
  }

  lemma {:induction false} RunZeros(n: nat, t: string, base: nat)
    requires base >= 2
    ensures RunValue(Fill('0', n) + t, base, 0) == RunValue(t, base, 0)
    ensures RunLength(Fill('0', n) + t, base) == n + RunLength(t, base)
  {
    if n > 0 {
      FillSum('0', 1, n - 1);
      assert Fill('0', 1) == ['0'];
      assert (Fill('0', n) + t)[1..] == Fill('0', n - 1) + t;
      RunZeros(n - 1, t, base);
    } else {
      assert Fill('0', 0) + t == t;
    }
  }

  lemma QuotRem(v: nat, base: nat)
    requires PrintBase(base)
    ensures Quot(v, base) * base + Rem(v, base) == v
  {
  }

  lemma RunOne(d: nat, upper: bool, t: string, base: nat, acc: nat)
    requires PrintBase(base) && d < base
    ensures RunValue([DigitChar(d, upper)] + t, base, acc) == RunValue(t, base, acc * base + d)
    ensures RunLength([DigitChar(d, upper)] + t, base) == 1 + RunLength(t, base)
  {
    assert ([DigitChar(d, upper)] + t)[1..] == t;
  }

  /** Reading a numeral yields the number, ready to read on. */
  lemma {:induction false} RunDigits(v: nat, base: nat, upper: bool, t: string)
    requires PrintBase(base)
    ensures RunValue(Digits(v, base, upper) + t, base, 0) == RunValue(t, base, v)
    ensures RunLength(Digits(v, base, upper) + t, base) == |Digits(v, base, upper)| + RunLength(t, base)
    decreases v
  {
    if v < base {
      RunOne(v, upper, t, base, 0);
    } else {
      var q, c := Quot(v, base), [DigitChar(Rem(v, base), upper)];
      assert Digits(v, base, upper) + t == Digits(q, base, upper) + (c + t);
      RunDigits(q, base, upper, c + t);
      RunOne(Rem(v, base), upper, t, base, q);
      QuotRem(v, base);
    }
  }

  /** Zeros, the numeral and trailing blanks. */
  function Tail(l: Layout, digits: string): string {
    Fill('0', l.zeros) + (digits + Fill(' ', l.after))
  }

  lemma TailReads(l: Layout, v: nat, base: nat, upper: bool)
    requires PrintBase(base)
    ensures var t := Tail(l, Digits(v, base, upper));
            RunValue(t, base, 0) == v && RunLength(t, base) == |t| - l.after >= 1
  {
    var end := Fill(' ', l.after);
    RunZeros(l.zeros, Digits(v, base, upper) + end, base);
    RunDigits(v, base, upper, end);
    assert RunLength(end, base) == 0 && RunValue(end, base, v) == v;
  }

  lemma {:induction false} DigitsAreDigits(v: nat, base: nat, upper: bool, k: nat)
    requires PrintBase(base) && k < |Digits(v, base, upper)|
    ensures IsDigit(Digits(v, base, upper)[k], base)
    decreases v
  {
    if v >= base && k < |Digits(v, base, upper)| - 1 {
      DigitsAreDigits(Quot(v, base), base, upper, k);
    }
  }

  lemma TailStarts(l: Layout, v: nat, base: nat, upper: bool)
    requires PrintBase(base)
    ensures var t := Tail(l, Digits(v, base, upper));
            |t| >= 1 && IsDigit(t[0], base) && !HexPrefix(t) && !IsBlank(t[0]) && !HasSign(t)
  {
    var digits := Digits(v, base, upper);
    var t := Tail(l, digits);
    DigitsAreDigits(v, base, upper, 0);
    if l.zeros == 0 {
      assert t[0] == digits[0];
    } else {
      assert t[0] == '0';
    }
    if |t| > 1 {
      if 1 >= l.zeros && 1 - l.zeros < |digits| {
        DigitsAreDigits(v, base, upper, 1 - l.zeros);
        assert t[1] == digits[1 - l.zeros];
      }
      assert IsDigit(t[1], base) || t[1] == ' ';
    }
  }

  /** The prefix is skipped or read as a zero. */
  lemma PrefixReads(c: Conversion, f: Flags, precision: int, v: int, l: Layout, t: string)
    requires t == Tail(l, Digits(Abs(v), Base(c), Upper(c)))
    ensures Reads(PrefixOf(c, f, precision, v) + t, Base(c), v, l.after)
  {
    var base := Base(c);
    var prefix := PrefixOf(c, f, precision, v);
    var u := prefix + t;
    TailReads(l, Abs(v), base, Upper(c));
    TailStarts(l, Abs(v), base, Upper(c));
    if prefix == "" {
      assert u == t && u[0..] == u;
    } else if c.Octal? {
      assert u == Fill('0', 1) + t by {
        assert Fill('0', 1) == ['0'];
      }
      RunZeros(1, t, base);
      assert u[0..] == u;
    } else {
      assert u[2..] == t;
    }
  }

  lemma SignShape(c: Conversion, f: Flags, v: int)
    requires InRange(c, v)
    ensures var sign := SignOf(c, f, v);
            (sign == "" || sign == " " || sign == "+" || sign == "-") && (sign == "-" <==> v < 0)
  {
  }

  lemma EndsBlank(l: Layout, sign: string, prefix: string, digits: string)
    ensures var s := Assembled(l, sign, prefix, digits);
            |s| >= l.after && forall k :: |s| - l.after <= k < |s| ==> s[k] == ' '
  {
    var end := Fill(' ', l.after);
    var head := Fill(' ', l.before) + (sign + (prefix + (Fill('0', l.zeros) + digits)));
    assert Assembled(l, sign, prefix, digits) == head + end;
  }

  /** How many blanks the text of a directive ends with. */
  function Trailing(c: Conversion, f: Flags, width: nat, precision: int, v: int): (n: nat)
    ensures n <= |Formatted(c, f, width, precision, v)|
  {
    var lead := |PrefixOf(c, f, precision, v)| + |SignOf(c, f, v)|;
    LayoutOf(f, width, precision, lead, |Digits(Abs(v), Base(c), Upper(c))|).after
  }

  /** Whatever the flags, the width and the precision, the text of a directive writes its value. */
  lemma PrintedWrites(c: Conversion, f: Flags, width: nat, precision: int, v: int)
    requires InRange(c, v)
    ensures var s := Formatted(c, f, width, precision, v);
            Parses(s, Base(c), v, Trailing(c, f, width, precision, v)) &&
            forall k :: |s| - Trailing(c, f, width, precision, v) <= k < |s| ==> s[k] == ' '
  {
    hide Parses, Reads, Digits, SignOf, PrefixOf, LayoutOf, Fill;
    var sign, prefix, digits := SignOf(c, f, v), PrefixOf(c, f, precision, v), Digits(Abs(v), Base(c), Upper(c));
    var l := LayoutOf(f, width, precision, |prefix| + |sign|, |digits|);
    var t := Tail(l, digits);
    var s := Formatted(c, f, width, precision, v);
    assert s == Fill(' ', l.before) + (sign + (prefix + t));
    PrefixReads(c, f, precision, v, l, t);
    SignShape(c, f, v);
    SignReads(s, l.before, sign, prefix + t, Base(c), v, l.after);
    EndsBlank(l, sign, prefix, digits);
  }

  /** Once the blanks, the sign and the prefix are known, so is the number. */
  lemma LeadReads(s: string, b: nat, n: nat, u: string, base: nat, v: int, after: nat)
    requires b == Blanks(s) && n == (if HasSign(s[b..]) then 1 else 0) && u == s[b + n..]
    requires Reads(u, base, v, after) && (n == 1 && s[b] == '-' <==> v < 0)
    ensures Parses(s, base, v, after)
  {
    hide RunValue, RunLength, Prefix, Blanks;
    var (inForce, p) := Prefix(u, base);
    assert s[b..][n..] == u;
    assert s[b + n + p..] == u[p..];
    assert LeadOf(s, base) == Lead(b + n + p, base, v < 0);
  }

  /** u is a number of magnitude |v| in this base, without blanks or sign before it and `after` characters behind it. */
  ghost predicate Reads(u: string, base: nat, v: int, after: nat) {
    var (b, p) := Prefix(u, base);
    && b == base && RunValue(u[p..], b, 0) == Abs(v) && RunLength(u[p..], b) == |u| - p - after >= 1
    && |u| >= 1 && !IsBlank(u[0]) && !HasSign(u)
  }

  /** The string writes v, and the number ends `after` characters before the end. */
  ghost predicate Parses(s: string, base: nat, v: int, after: nat) {
    Written(s, base) == v && DigitCount(s, base) >= 1 && LeadOf(s, base).start + DigitCount(s, base) == |s| - after
  }

  /** Blanks in front of a number without a sign of its own. */
  lemma BlanksRead(s: string, n: nat, u: string, base: nat, v: int, after: nat)
    requires s == Fill(' ', n) + u && Reads(u, base, v, after) && v >= 0
    ensures Parses(s, base, v, after)
  {
    assert |u| >= 1 && !IsBlank(u[0]) && !HasSign(u);
    hide Parses, Reads, Blanks, Fill, HasSign;
    BlanksFill(n, u);
    assert s[n..] == u;
    LeadReads(s, n, 0, u, base, v, after);
  }

  /** Blanks and a plus or minus sign. */
  lemma SignRead(s: string, n: nat, sign: char, u: string, base: nat, v: int, after: nat)
    requires s == Fill(' ', n) + ([sign] + u) && Reads(u, base, v, after)
    requires (sign == '+' && v >= 0) || (sign == '-' && v < 0)
    ensures Parses(s, base, v, after)
  {
    hide Parses, Reads, Blanks, Fill;
    BlanksFill(n, [sign] + u);
    assert s[n..] == [sign] + u;
    assert s[n + 1..] == u;
    LeadReads(s, n, 1, u, base, v, after);
  }

  /** Blanks and a sign in front of a number. */
  lemma SignReads(s: string, before: nat, sign: string, u: string, base: nat, v: int, after: nat)
    requires s == Fill(' ', before) + (sign + u) && Reads(u, base, v, after)
    requires sign == "" || sign == " " || sign == "+" || sign == "-"
    requires sign == "-" <==> v < 0
    ensures Parses(s, base, v, after)
  {
    hide Parses, Reads;
    if sign == "" {
      assert sign + u == u;
      BlanksRead(s, before, u, base, v, after);
    } else if sign == " " {
      assert s == Fill(' ', before + 1) + u;
      BlanksRead(s, before + 1, u, base, v, after);
    } else {
      assert sign == [sign[0]];
      SignRead(s, before, sign[0], u, base, v, after);
    }
  }

  // ---- What the text looks like ----

  /** How many characters each part of a printed directive takes. */
  datatype Parts = Parts(before: nat, sign: nat, prefix: nat, zeros: nat, digits: nat, after: nat) {
    function SignAt(): nat { before }
    function PrefixAt(): nat { before + sign }
    function ZerosAt(): nat { before + sign + prefix }
    function DigitsAt(): nat { before + sign + prefix + zeros }
    function AfterAt(): nat { before + sign + prefix + zeros + digits }
    function Length(): nat { before + sign + prefix + zeros + digits + after }
  }

  predicate All(s: string, from: nat, n: nat, c: char) {
    from + n <= |s| && forall k :: from <= k < from + n ==> s[k] == c
  }

  /** The sign: of a negative number always, of another one when a flag asks for it, of unsigned ones never. */
  predicate SignShown(s: string, p: Parts, c: Conversion, f: Flags, v: int)
    requires |s| == p.Length()
  {
    && (p.sign == 1 <==> c.Signed? && (v < 0 || f.plus || f.space)) && p.sign <= 1
    && (p.sign == 1 ==> s[p.SignAt()] == (if v < 0 then '-' else if f.plus then '+' else ' '))
  }

  /** The prefix, right behind the sign: 0x or 0X for a hexadecimal number other than 0, 0 for an octal
      one other than 0 or with precision 0, and only when the alternate form is asked for. */
  predicate PrefixShown(s: string, p: Parts, c: Conversion, f: Flags, precision: int, v: int)
    requires |s| == p.Length()
  {
    && p.prefix == (if f.alt && c.Hex? && v != 0 then 2
                    else if f.alt && c.Octal? && (v != 0 || precision == 0) then 1 else 0)
    && (p.prefix >= 1 ==> s[p.PrefixAt()] == '0')
    && (p.prefix == 2 ==> s[p.PrefixAt() + 1] == (if c.upper then 'X' else 'x'))
  }

  predicate DigitOf(ch: char, c: Conversion) {
    match c
    case Octal => '0' <= ch <= '7'
    case Hex(upper) => '0' <= ch <= '9' || (if upper then 'A' <= ch <= 'F' else 'a' <= ch <= 'f')
    case _ => '0' <= ch <= '9'
  }

  /** The numeral, as short as it can be, with letters in the case of the directive. */
  predicate DigitsShown(s: string, p: Parts, c: Conversion, v: int)
    requires |s| == p.Length()
  {
    && p.digits >= 1 && (p.digits > 1 ==> s[p.DigitsAt()] != '0')
    && (forall k :: p.DigitsAt() <= k < p.AfterAt() ==> DigitOf(s[k], c))
    && RunValue(s[p.DigitsAt()..p.AfterAt()], if c.Hex? then 16 else if c.Octal? then 8 else 10, 0) ==
       (if v < 0 then -v else v)
  }

  function Max(a: int, b: int): int {
    if a > b then a else b
  }

  /** The padding: blanks before or behind up to the width, as the left flag says; zeros up to the
      precision, or up to the width when the zero flag stands without left flag and precision. */
  predicate PaddingShown(s: string, p: Parts, f: Flags, width: nat, precision: int)
    requires |s| == p.Length()
  {
    var core := p.sign + p.prefix + Max(precision, p.digits);
    && |s| == Max(width, core)
    && All(s, 0, p.before, ' ') && All(s, p.ZerosAt(), p.zeros, '0') && All(s, p.AfterAt(), p.after, ' ')
    && (if f.left then p.before == 0 else p.after == 0)
    && (if f.zero && precision < 0 && !f.left then p.before == 0 else p.zeros == Max(precision - p.digits, 0))
  }

  function PartsOf(c: Conversion, f: Flags, width: nat, precision: int, v: int): Parts {
    var sign, prefix, digits := SignOf(c, f, v), PrefixOf(c, f, precision, v), Digits(Abs(v), Base(c), Upper(c));
    var l := LayoutOf(f, width, precision, |prefix| + |sign|, |digits|);
    Parts(l.before, |sign|, |prefix|, l.zeros, |digits|, l.after)
  }

  /** Where the parts stand in the assembled text. */
  lemma AssembledAt(l: Layout, sign: string, prefix: string, digits: string)
    ensures var s := Assembled(l, sign, prefix, digits);
            var p := Parts(l.before, |sign|, |prefix|, l.zeros, |digits|, l.after);
            && |s| == p.Length()
            && s[p.SignAt()..p.PrefixAt()] == sign && s[p.PrefixAt()..p.ZerosAt()] == prefix
            && s[p.DigitsAt()..p.AfterAt()] == digits
            && All(s, 0, p.before, ' ') && All(s, p.ZerosAt(), p.zeros, '0') && All(s, p.AfterAt(), p.after, ' ')
  {
  }

  lemma {:induction false} DigitsLead(v: nat, base: nat, upper: bool)
    requires PrintBase(base) && |Digits(v, base, upper)| > 1
    ensures Digits(v, base, upper)[0] != '0'
    decreases v
  {
    var q := Quot(v, base);
    if |Digits(q, base, upper)| > 1 {
      DigitsLead(q, base, upper);
    } else {
      assert q > 0;
    }
  }

  lemma {:induction false} DigitsCase(c: Conversion, v: nat, k: nat)
    requires k < |Digits(v, Base(c), Upper(c))|
    ensures DigitOf(Digits(v, Base(c), Upper(c))[k], c)
    decreases v
  {
    if v >= Base(c) && k < |Digits(v, Base(c), Upper(c))| - 1 {
      DigitsCase(c, Quot(v, Base(c)), k);
    }
  }

  lemma SignPlaced(s: string, p: Parts, c: Conversion, f: Flags, v: int)
    requires |s| == p.Length() && s[p.SignAt()..p.PrefixAt()] == SignOf(c, f, v)
    ensures SignShown(s, p, c, f, v)
  {
    assert |SignOf(c, f, v)| == p.sign;
    if p.sign == 1 {
      assert s[p.SignAt()..p.PrefixAt()][0] == s[p.SignAt()];
    }
  }

  lemma PrefixPlaced(s: string, p: Parts, c: Conversion, f: Flags, precision: int, v: int)
    requires |s| == p.Length() && s[p.PrefixAt()..p.ZerosAt()] == PrefixOf(c, f, precision, v)
    ensures PrefixShown(s, p, c, f, precision, v)
  {
    var prefix := PrefixOf(c, f, precision, v);
    assert |prefix| == p.prefix;
    assert forall k :: 0 <= k < p.prefix ==> prefix[k] == s[p.PrefixAt() + k];
  }

  lemma DigitsPlaced(s: string, p: Parts, c: Conversion, v: int)
    requires |s| == p.Length() && s[p.DigitsAt()..p.AfterAt()] == Digits(Abs(v), Base(c), Upper(c))
    ensures DigitsShown(s, p, c, v)
  {
    var digits := Digits(Abs(v), Base(c), Upper(c));
    hide Digits;
    assert |digits| == p.digits && forall k :: 0 <= k < p.digits ==> digits[k] == s[p.DigitsAt() + k];
    if |digits| > 1 {
      DigitsLead(Abs(v), Base(c), Upper(c));
    }
    forall k | p.DigitsAt() <= k < p.AfterAt()
      ensures DigitOf(s[k], c)
    {
      DigitsCase(c, Abs(v), k - p.DigitsAt());
      assert s[k] == digits[k - p.DigitsAt()];
    }
    RunDigits(Abs(v), Base(c), Upper(c), "");
    assert digits + "" == digits;
  }

  /** Sign, prefix, zeros, digits and blanks of a printed directive, each in its place for every flag. */
  lemma PrintedShape(c: Conversion, f: Flags, width: nat, precision: int, v: int)
    requires InRange(c, v)
    ensures var s, p := Formatted(c, f, width, precision, v), PartsOf(c, f, width, precision, v);
            && |s| == p.Length()
            && SignShown(s, p, c, f, v) && PrefixShown(s, p, c, f, precision, v)
            && DigitsShown(s, p, c, v) && PaddingShown(s, p, f, width, precision)
  {
    hide SignOf, PrefixOf, Digits, Assembled, SignShown, PrefixShown, DigitsShown, All;
    var sign, prefix, digits := SignOf(c, f, v), PrefixOf(c, f, precision, v), Digits(Abs(v), Base(c), Upper(c));
    var s, p := Formatted(c, f, width, precision, v), PartsOf(c, f, width, precision, v);
    AssembledAt(LayoutOf(f, width, precision, |prefix| + |sign|, |digits|), sign, prefix, digits);
    SignPlaced(s, p, c, f, v);
    PrefixPlaced(s, p, c, f, precision, v);
    DigitsPlaced(s, p, c, v);
  }

  /**
   * Printing into a buffer and parsing what is in it, in the same base: if the
   * text fits, the number comes back, nothing is out of range, and only blanks
   * follow the place where parsing stopped.
   */
  method RoundTrip(dst: array<char>, c: Conversion, f: Flags, width: nat, precision: int, v: int)
    returns (len: nat, r: int, e: nat, errno: Errno)
    requires InRange(c, v)
    modifies dst
    ensures len == |Formatted(c, f, width, precision, v)|
    ensures len < dst.Length ==> dst[..len] == Formatted(c, f, width, precision, v) && dst[len] == '\0'
    ensures len < dst.Length ==> r == v && errno == Fine && e <= len && forall k :: e <= k < len ==> dst[k] == ' '
  {
    hide Formatted, Magnitude, DigitCount, LeadOf, Trailing;
    var sink := new Sink(dst);
    Directive(sink, c, f, width, precision, v);
    len := sink.Finish();
    ghost var whole := Formatted(c, f, width, precision, v);
    assert "" + whole == whole;
    PrintedWrites(c, f, width, precision, v);
    var s := if len < dst.Length then dst[..len] else if dst.Length > 0 then dst[..dst.Length - 1] else "";
    assert len < dst.Length ==> s == whole;
    if c.Signed? {
      r, e, errno := Strtoll(s, Base(c));
    } else {
      r, e, errno := Strtoull(s, Base(c));
    }
  }
}
