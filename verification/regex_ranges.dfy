/**
 * expand_ranges of src/regex.c: the ranges {m}, {m,} and {m,n} are rewritten
 * into copies of the atom. The method works on the text with a growing buffer;
 * Ranges is the text it is proved to produce.
 */
module RegexRanges {
  import opened RegexLanguage
  import opened RegexScan

  const SIZE_MAX: nat := 0xFFFF_FFFF_FFFF_FFFF

  datatype Range = NoRange | Range(consumed: nat, m: nat, n: nat, open: bool)

  datatype Option<T> = None | Some(value: T)

  /** Where the digits that start at i end. */
  function DigitEnd(s: string, i: nat): (e: nat)
    requires i <= |s|
    ensures i <= e <= |s|
    decreases |s| - i
  {
    if i < |s| && IsDigit(s[i]) then DigitEnd(s, i + 1) else i
  }

  /** The number those digits write, after the digits already read. */
  function RunValue(s: string, i: nat, acc: nat): nat
    requires i <= |s|
    decreases |s| - i
  {
    if i < |s| && IsDigit(s[i]) then RunValue(s, i + 1, WithDigit(acc, s[i])) else acc
  }

  predicate Is(s: string, i: nat, c: char) {
    i < |s| && s[i] == c
  }

  /** The range, if any, that s starts with. */
  function RangeAt(s: string): (r: Range)
    ensures r.Range? ==> r.consumed <= |s|
  {
    if |s| < 2 || s[0] != '{' || !IsDigit(s[1]) then NoRange
    else
      var a := DigitEnd(s, 1);
      if Is(s, a, ',') then
        if Is(s, a + 1, '}') then Range(a + 2, RunValue(s, 1, 0), 0, true)
        else
          var b := DigitEnd(s, a + 1);
          if Is(s, b, '}') then Range(b + 1, RunValue(s, 1, 0), RunValue(s, a + 1, 0), false) else NoRange
      else if Is(s, a, '}') then Range(a + 1, RunValue(s, 1, 0), RunValue(s, 1, 0), false)
      else NoRange
  }

  function Times(s: string, k: nat): string {
    if k == 0 then "" else Times(s, k - 1) + s
  }

  lemma {:induction false} TimesLength(s: string, k: nat)
    ensures |Times(s, k)| == |s| * k
  {
    if k > 0 {
      TimesLength(s, k - 1);
      assert |s| * k == |s| * (k - 1) + |s|;
    }
  }

  lemma {:induction false} TimesGrows(s: string, a: nat, b: nat)
    requires a <= b
    ensures |Times(s, a)| <= |Times(s, b)|
  {
    if a < b {
      TimesGrows(s, a, b - 1);
    }
  }

  function Copies(item: string, r: Range): string {
    if r.NoRange? then item
    else if r.open then Times(item, r.m) + item + "*"
    else if r.n >= r.m then Times(item, r.m) + Times(item + "?", r.n - r.m)
    else item
  }

  function Consumed(r: Range): nat {
    if r.NoRange? then 0 else r.consumed
  }

  /** What becomes of the first k characters, an item, and of the range after it. */
  function Ranged(s: string, k: nat): string
    requires k <= |s|
  {
    Copies(s[..k], RangeAt(s[k..]))
  }

  /** The text after the item and its range. */
  function Beyond(s: string, k: nat): (t: string)
    requires 0 < k <= |s|
    ensures |t| < |s|
  {
    s[k + Consumed(RangeAt(s[k..]))..]
  }

  /** The rewritten text. */
  function Ranges(s: string): string
    decreases |s|
  {
    if |s| == 0 then "" else Ranged(s, ItemLen(s)) + Ranges(Beyond(s, ItemLen(s)))
  }

  method Digits(pat: string, i: nat) returns (p: nat, v: nat)
    requires i <= |pat|
    ensures p == DigitEnd(pat, i) && v == RunValue(pat, i, 0)
  {
    p, v := i, 0;
    while p < |pat| && IsDigit(pat[p])
      invariant i <= p <= |pat|
      invariant DigitEnd(pat, p) == DigitEnd(pat, i) && RunValue(pat, p, v) == RunValue(pat, i, 0)
    {
      v := WithDigit(v, pat[p]);
      p := p + 1;
    }
  }

  /** Reading digits of a suffix is reading them in place. */
  lemma {:induction false} DigitsInPlace(pat: string, at: nat, i: nat, acc: nat)
    requires at + i <= |pat|
    ensures at + DigitEnd(pat[at..], i) == DigitEnd(pat, at + i)
    ensures RunValue(pat[at..], i, acc) == RunValue(pat, at + i, acc)
    decreases |pat| - i
  {
    if at + i < |pat| && IsDigit(pat[at + i]) {
      DigitsInPlace(pat, at, i + 1, WithDigit(acc, pat[at + i]));
    }
  }

  /** The range parser; m is -1 when there is no range. */
  method ParseRange(pat: string, at: nat) returns (i: nat, m: int, n: int, open: bool)
    requires at <= |pat|
    ensures i == at + Consumed(RangeAt(pat[at..])) && Encodes(m, n, open, RangeAt(pat[at..]))
  {
    i, m, n, open := at, -1, -1, false;
    if i + 1 < |pat| && pat[i] == '{' && IsDigit(pat[i + 1]) {
      var p;
      DigitsInPlace(pat, at, 1, 0);
      p, m := Digits(pat, i + 1);
      if p < |pat| && pat[p] == ',' {
        p := p + 1;
        if p < |pat| && pat[p] == '}' {
          open := true;
          i := p + 1;
        } else {
          DigitsInPlace(pat, at, p - at, 0);
          p, n := Digits(pat, p);
          if p < |pat| && pat[p] == '}' {
            i := p + 1;
          } else {
            m := -1;
          }
        }
      } else if p < |pat| && pat[p] == '}' {
        n := m;
        i := p + 1;
      } else {
        m := -1;
      }
    }
  }

  /** memcpy at offset o of the buffer. */
  method Put(out: array<char>, o: nat, s: string) returns (q: nat)
    requires o + |s| <= out.Length
    modifies out
    ensures q == o + |s| && out[..q] == old(out[..o]) + s
  {
    for k := 0 to |s|
      invariant out[..o + k] == old(out[..o]) + s[..k]
    {
      out[o + k] := s[k];
      assert out[..o + k + 1] == out[..o + k] + [s[k]];
    }
    q := o + |s|;
  }

  method PutTimes(out: array<char>, o: nat, s: string, times: nat) returns (q: nat)
    requires o + |Times(s, times)| <= out.Length
    modifies out
    ensures q == o + |Times(s, times)| && out[..q] == old(out[..o]) + Times(s, times)
  {
    q := o;
    for k := 0 to times
      invariant q == o + |Times(s, k)| && q <= out.Length
      invariant out[..q] == old(out[..o]) + Times(s, k)
    {
      TimesGrows(s, k + 1, times);
      q := Put(out, q, s);
      assert old(out[..o]) + Times(s, k) + s == old(out[..o]) + Times(s, k + 1);
    }
  }

  /** The buffer is grown when the next item might not fit with its terminator. */
  method Grow(out: array<char>, o: nat, need: nat) returns (r: Option<array<char>>)
    requires o < out.Length
    ensures r.Some? ==> o + need < r.value.Length && r.value[..o] == out[..o]
    ensures r.Some? ==> r.value == out || fresh(r.value)
    ensures o + need + 1 < out.Length ==> r == Some(out)
    ensures r.None? ==> 4 * (o + need) + 4 > SIZE_MAX / 2
    ensures r.Some? ==> r.value.Length <= out.Length || r.value.Length <= 4 * (o + need) + 4
  {
    var cap := out.Length;
    if o + need + 1 >= cap {
      if cap > SIZE_MAX / 2 || need > SIZE_MAX - cap - 1 {
        return None;
      }
      var req := cap + need + 1;
      if req > SIZE_MAX / 2 {
        return None;
      }
      var bigger := new char[req * 2](i requires 0 <= i < req * 2 reads out => if i < out.Length then out[i] else '\0');
      return Some(bigger);
    }
    r := Some(out);
  }

  lemma CopiesLength(item: string, r: Range)
    ensures |Copies(item, r)| ==
            if r.NoRange? then |item|
            else if r.open then |item| * (r.m + 1) + 1
            else if r.n >= r.m then |item| * r.n + (r.n - r.m)
            else |item|
  {
    if r.Range? && r.open {
      TimesLength(item, r.m);
      assert |item| * (r.m + 1) == |item| * r.m + |item|;
    } else if r.Range? && r.n >= r.m {
      var d := r.n - r.m;
      TimesLength(item, r.m);
      TimesLength(item + "?", d);
      assert (|item| + 1) * d == |item| * d + d;
      assert |item| * (r.m + d) == |item| * r.m + |item| * d;
    }
  }

  method PutCopies(out: array<char>, o: nat, item: string, m: int, n: int, open: bool, ghost r: Range) returns (q: nat)
    requires Encodes(m, n, open, r)
    requires o + |Copies(item, r)| < out.Length
    modifies out
    ensures q < out.Length && out[..q] == old(out[..o]) + Copies(item, r)
  {
    hide Times;
    ghost var before := out[..o];
    if m >= 0 && open {
      q := PutTimes(out, o, item, m);
      q := Put(out, q, item);
      q := Put(out, q, "*");
      assert before + Times(item, m) + item + "*" == before + (Times(item, m) + item + "*");
    } else if m >= 0 && n >= m {
      q := PutTimes(out, o, item, m);
      q := PutTimes(out, q, item + "?", n - m);
      assert before + Times(item, m) + Times(item + "?", n - m) == before + (Times(item, m) + Times(item + "?", n - m));
    } else {
      q := Put(out, o, item);
    }
  }

  /** The space the next item takes once it is copied. */
  function Need(len: nat, m: int, n: int, open: bool): nat {
    if m >= 0 && open then len * (m + 1) + 1
    else if m >= 0 && n >= m then len * n + (n - m)
    else len
  }

  /** The source's encoding of a range: m is -1 for none, n is unused for an open one. */
  predicate Encodes(m: int, n: int, open: bool, r: Range) {
    (m < 0 <==> r.NoRange?) && (r.Range? ==> m == r.m && open == r.open && (!r.open ==> n == r.n))
  }

  lemma NeedIsLength(item: string, m: int, n: int, open: bool, r: Range)
    requires Encodes(m, n, open, r)
    ensures Need(|item|, m, n, open) == |Copies(item, r)|
  {
    CopiesLength(item, r);
  }

  method ReadItem(pat: string, i: nat) returns (e: nat, next: nat, m: int, n: int, open: bool, ghost range: Range)
    requires i < |pat|
    ensures i < e <= next <= |pat| && Encodes(m, n, open, range)
    ensures Ranges(pat[i..]) == Copies(pat[i..e], range) + Ranges(pat[next..])
  {
    hide RangeAt, Ranges, Copies;
    e := ItemEnd(pat, i);
    next, m, n, open := ParseRange(pat, e);
    range := RangeAt(pat[e..]);
    RangesStep(pat, i, e, range);
  }

  /** One turn of the main loop: an item is read, its range is read, the copies are written. */
  method Turn(pat: string, i: nat, out: array<char>, o: nat) returns (next: nat, r: Option<array<char>>, q: nat)
    requires i < |pat| && o < out.Length
    modifies out
    ensures i < next <= |pat|
    ensures r.Some? ==> r.value == out || fresh(r.value)
    ensures r.Some? ==> q < r.value.Length && r.value[..q] + Ranges(pat[next..]) == old(out[..o]) + Ranges(pat[i..])
    ensures r.None? ==> 4 * (o + |Ranges(pat[i..])|) + 4 > SIZE_MAX / 2
    ensures r.Some? ==> r.value.Length <= out.Length || r.value.Length <= 4 * (o + |Ranges(pat[i..])|) + 4
  {
    var e, m, n, open;
    ghost var range;
    e, next, m, n, open, range := ReadItem(pat, i);
    var item := pat[i..e];
    NeedIsLength(item, m, n, open, range);
    r := Grow(out, o, Need(|item|, m, n, open));
    q := 0;
    if r.Some? {
      q := PutCopies(r.value, o, item, m, n, open, range);
      Regroup(old(out[..o]), Copies(item, range), Ranges(pat[next..]));
    }
  }

  /** The buffer for a pattern never has to grow past half the address space. */
  predicate Manageable(pat: string) {
    4 * (|pat| + |Ranges(pat)|) + 4 <= SIZE_MAX / 2
  }

  /** expand_ranges: every write stays inside the buffer, and the result is the rewritten text. */
  method ExpandRanges(pat: string) returns (r: Option<string>)
    ensures r.Some? ==> r.value == Ranges(pat)
    ensures Manageable(pat) ==> r.Some?
  {
    var len := |pat|;
    var out := new char[len * 4 + 1];
    var o, i := 0, 0;
    assert pat[0..] == pat;
    while i < len
      invariant 0 <= i <= len && 0 <= o < out.Length && fresh(out)
      invariant out[..o] + Ranges(pat[i..]) == Ranges(pat)
      decreases len - i
    {
      assert o + |Ranges(pat[i..])| == |Ranges(pat)|;
      var next, grown, q := Turn(pat, i, out, o);
      if grown.None? {
        return None;
      }
      i, out, o := next, grown.value, q;
    }
    assert out[..o] + "" == out[..o];
    out[o] := '\0';
    r := Some(out[..o]);
  }

  lemma RangesUnfold(s: string)
    requires |s| > 0
    ensures Ranges(s) == Ranged(s, ItemLen(s)) + Ranges(Beyond(s, ItemLen(s)))
  {
  }

  lemma PiecesInPlace(pat: string, i: nat, k: nat, r: Range)
    requires 0 < k && i + k <= |pat| && r == RangeAt(pat[i + k..])
    ensures i + k + Consumed(r) <= |pat|
    ensures Ranged(pat[i..], k) == Copies(pat[i..i + k], r) && Beyond(pat[i..], k) == pat[i + k + Consumed(r)..]
  {
    Dropped(pat, i, k);
    Dropped(pat, i, k + Consumed(r));
  }

  lemma RangesStep(pat: string, i: nat, e: nat, r: Range)
    requires i < |pat| && e == i + ItemLen(pat[i..]) && r == RangeAt(pat[e..])
    ensures e + Consumed(r) <= |pat| && Ranges(pat[i..]) == Copies(pat[i..e], r) + Ranges(pat[e + Consumed(r)..])
  {
    hide RangeAt, Ranged, Beyond, Copies;
    RangesUnfold(pat[i..]);
    PiecesInPlace(pat, i, e - i, r);
  }
}
