/**
 * The glob matcher of src/fnmatch.c, proved against the language of the
 * pattern's tokens. FNM_NOESCAPE is the parameter `raw`; it is the only flag
 * the source reads.
 */
module Fnmatch {
  import opened RegexLanguage

  // ---- Bracket expressions ----

  /** A possibly escaped character and the number of pattern characters it takes. */
  function Member(s: string, raw: bool): (r: (char, nat))
    requires |s| > 0
    ensures 1 <= r.1 <= |s|
  {
    if s[0] == '\\' && !raw && |s| >= 2 then (s[1], 2) else (s[0], 1)
  }

  datatype Interval = Interval(lo: char, hi: char)

  /** A single character or a range, and the number of pattern characters it takes. */
  function Stretch(s: string, raw: bool): (r: (Interval, nat))
    requires |s| > 0
    ensures 1 <= r.1 <= |s|
  {
    var (lo, n) := Member(s, raw);
    if n + 1 < |s| && s[n] == '-' && s[n + 1] != ']' then
      var (hi, m) := Member(s[n + 1..], raw);
      (Interval(lo, hi), n + 1 + m)
    else (Interval(lo, lo), n)
  }

  /** The intervals up to the closing bracket or the end of the pattern. */
  function Intervals(s: string, raw: bool): seq<Interval> {
    if |s| == 0 || s[0] == ']' then []
    else [Stretch(s, raw).0] + Intervals(s[Stretch(s, raw).1..], raw)
  }

  function Length(s: string, raw: bool): (n: nat)
    ensures n <= |s|
  {
    if |s| == 0 then 0
    else if s[0] == ']' then 1
    else Stretch(s, raw).1 + Length(s[Stretch(s, raw).1..], raw)
  }

  predicate Holds(t: Interval, c: char) {
    t.lo <= c <= t.hi
  }

  predicate Within(ts: seq<Interval>, c: char) {
    exists k :: 0 <= k < |ts| && Holds(ts[k], c)
  }

  function Members(ts: seq<Interval>): set<char> {
    set c: char | Within(ts, c)
  }

  predicate Negated(s: string) {
    |s| > 0 && (s[0] == '!' || s[0] == '^')
  }

  /** What follows the opening bracket and the negation sign, if any. */
  function SetBody(s: string): string {
    if Negated(s) then s[1..] else s
  }

  function SetAtom(s: string, raw: bool): Atom {
    if Negated(s) then NotClass(Members(Intervals(SetBody(s), raw))) else Class(Members(Intervals(SetBody(s), raw)))
  }

  function SetLength(s: string, raw: bool): (n: nat)
    ensures n <= |s|
  {
    (if Negated(s) then 1 else 0) + Length(SetBody(s), raw)
  }

  // ---- The tokens of a pattern as items ----

  const ANY: Atom := NotClass({})

  function Exactly(a: Atom): Item {
    Rep(a, 1, Upto(1))
  }

  /** The first token and the number of pattern characters it takes. */
  function Token(p: string, raw: bool): (r: (Item, nat))
    requires |p| > 0
    ensures 1 <= r.1 <= |p|
  {
    if p[0] == '?' then (Exactly(ANY), 1)
    else if p[0] == '*' then (Rep(ANY, 0, Endless), 1)
    else if p[0] == '[' then (Exactly(SetAtom(p[1..], raw)), 1 + SetLength(p[1..], raw))
    else if p[0] == '\\' && !raw && |p| >= 2 then (Exactly(Char(p[1])), 2)
    else (Exactly(Char(p[0])), 1)
  }

  function Glob(p: string, raw: bool): seq<Item> {
    if |p| == 0 then [] else [Token(p, raw).0] + Glob(p[Token(p, raw).1..], raw)
  }

  /** The pattern does not end in an escape that escapes nothing. */
  predicate Complete(p: string, raw: bool) {
    if |p| == 0 then true
    else if p[0] == '\\' && !raw && |p| == 1 then false
    else Complete(p[Token(p, raw).1..], raw)
  }

  /** The whole of text[j..] is in the language of the pattern. */
  ghost predicate Accepted(p: string, raw: bool, text: string, j: int) {
    Matches(Glob(p, raw), text, j, |text|)
  }

  // ---- Matching ----

  method ReadMember(p: string, i: nat, raw: bool) returns (c: char, e: nat)
    requires i < |p|
    ensures (c, e - i) == Member(p[i..], raw) && e <= |p|
  {
    if p[i] == '\\' && !raw && i + 1 < |p| {
      return p[i + 1], i + 2;
    }
    return p[i], i + 1;
  }

  method ReadStretch(p: string, i: nat, raw: bool) returns (t: Interval, e: nat)
    requires i < |p|
    ensures (t, e - i) == Stretch(p[i..], raw) && i < e <= |p|
  {
    var lo, hi;
    lo, e := ReadMember(p, i, raw);
    hi := lo;
    if e + 1 < |p| && p[e] == '-' && p[e + 1] != ']' {
      assert p[i..][e - i + 1..] == p[e + 1..];
      hi, e := ReadMember(p, e + 1, raw);
    }
    t := Interval(lo, hi);
  }

  lemma WithinFirst(t: Interval, ts: seq<Interval>, c: char)
    ensures Within([t] + ts, c) <==> Holds(t, c) || Within(ts, c)
  {
    var us := [t] + ts;
    if k :| 0 <= k < |ts| && Holds(ts[k], c) {
      assert Holds(us[k + 1], c);
    }
    if Holds(t, c) {
      assert Holds(us[0], c);
    }
  }

  lemma IntervalsStep(p: string, e: nat, f: nat, t: Interval, c: char, raw: bool)
    requires e < f <= |p| && p[e] != ']' && (t, f - e) == Stretch(p[e..], raw)
    ensures Within(Intervals(p[e..], raw), c) <==> Holds(t, c) || Within(Intervals(p[f..], raw), c)
    ensures e + Length(p[e..], raw) == f + Length(p[f..], raw)
  {
    assert p[e..][f - e..] == p[f..];
    WithinFirst(t, Intervals(p[f..], raw), c);
  }

  /** The loop over the set. */
  method ScanSet(p: string, body: nat, c: char, raw: bool) returns (hit: bool, e: nat)
    requires body <= |p|
    ensures hit == Within(Intervals(p[body..], raw), c)
    ensures e == body + Length(p[body..], raw)
  {
    hit, e := false, body;
    while e < |p| && p[e] != ']'
      invariant body <= e <= |p|
      invariant Within(Intervals(p[body..], raw), c) <==> hit || Within(Intervals(p[e..], raw), c)
      invariant body + Length(p[body..], raw) == e + Length(p[e..], raw)
    {
      var t, f := ReadStretch(p, e, raw);
      IntervalsStep(p, e, f, t, c, raw);
      if t.lo <= c <= t.hi {
        hit := true;
      }
      e := f;
    }
    if e < |p| {
      e := e + 1;
    }
  }

  /** match_range: whether c belongs to the set, and where the set ends. */
  method MatchRange(p: string, at: nat, c: char, raw: bool) returns (ok: bool, e: nat)
    requires at <= |p|
    ensures ok == MatchOne(SetAtom(p[at..], raw), c)
    ensures e == at + SetLength(p[at..], raw)
  {
    var neg := at < |p| && (p[at] == '!' || p[at] == '^');
    var body := if neg then at + 1 else at;
    assert SetBody(p[at..]) == p[body..];
    var hit;
    hit, e := ScanSet(p, body, c, raw);
    ok := if neg then !hit else hit;
  }

  // ---- The matcher ----

  lemma AcceptedOne(p: string, raw: bool, text: string, j: nat, a: Atom, rest: string)
    requires |p| > 0 && Token(p, raw).0 == Exactly(a) && rest == p[Token(p, raw).1..] && j <= |text|
    ensures Accepted(p, raw, text, j) <==>
            j < |text| && MatchOne(a, text[j]) && Accepted(rest, raw, text, j + 1)
  {
    if Accepted(p, raw, text, j) {
      var k := MatchesSplit(Exactly(a), Glob(rest, raw), text, j, |text|);
      assert k == j + 1;
    }
    if j < |text| && MatchOne(a, text[j]) && Accepted(rest, raw, text, j + 1) {
      assert Covers(Exactly(a), text, j, j + 1);
      MatchesJoin(Exactly(a), Glob(rest, raw), text, j, j + 1, |text|);
    }
  }

  lemma AcceptedStar(p: string, raw: bool, text: string, j: nat)
    requires |p| > 0 && p[0] == '*' && j <= |text|
    ensures Accepted(p, raw, text, j) <==> exists k: int :: j <= k <= |text| && Accepted(p[1..], raw, text, k)
  {
    var star := Rep(ANY, 0, Endless);
    if Accepted(p, raw, text, j) {
      var k := MatchesSplit(star, Glob(p[1..], raw), text, j, |text|);
      assert Accepted(p[1..], raw, text, k);
    }
    if k: int :| j <= k <= |text| && Accepted(p[1..], raw, text, k) {
      assert Covers(star, text, j, k);
      MatchesJoin(star, Glob(p[1..], raw), text, j, k, |text|);
    }
  }

  lemma AcceptedEmpty(raw: bool, text: string, j: nat)
    requires j <= |text|
    ensures Accepted("", raw, text, j) <==> j == |text|
  {
    MatchesNothing(text, |text|);
    if Accepted("", raw, text, j) {
      var cuts: seq<int> :| CutBetween([], text, cuts, j, |text|);
    }
  }

  /** After a star that is not followed by a star, the empty rest of the text is only accepted by the empty pattern. */
  lemma NoEmptySuffix(p: string, raw: bool, text: string)
    requires |p| > 0 && p[0] != '*'
    ensures !Accepted(p, raw, text, |text|)
  {
    var (item, n) := Token(p, raw);
    AcceptedOne(p, raw, text, |text|, item.atom, p[n..]);
  }

  /** A run of stars is one star. */
  lemma StarsCollapse(p: string, raw: bool, text: string, j: nat)
    requires |p| > 1 && p[0] == '*' && p[1] == '*' && j <= |text|
    ensures Accepted(p, raw, text, j) <==> Accepted(p[1..], raw, text, j)
  {
    AcceptedStar(p, raw, text, j);
    AcceptedStar(p[1..], raw, text, j);
    forall k: int | j <= k <= |text|
      ensures Accepted(p[1..], raw, text, k) <==> exists m: int :: k <= m <= |text| && Accepted(p[1..][1..], raw, text, m)
    {
      AcceptedStar(p[1..], raw, text, k);
    }
  }

  lemma StarAtEnd(raw: bool, text: string, j: nat)
    requires j <= |text|
    ensures Accepted("*", raw, text, j)
  {
    AcceptedStar("*", raw, text, j);
    assert "*"[1..] == "";
    AcceptedEmpty(raw, text, |text|);
  }

  /** The pattern is complete from i on. */
  ghost predicate Sound(p: string, i: nat, raw: bool) {
    i <= |p| && Complete(p[i..], raw)
  }

  /** The loop over a run of stars; i is the first position after it. */
  method SkipStars(p: string, star: nat, raw: bool, ghost text: string, ghost from: nat) returns (i: nat)
    requires star < |p| && p[star] == '*' && from <= |text| && Sound(p, star, raw)
    ensures star < i <= |p| && (i < |p| ==> p[i] != '*') && Sound(p, i, raw)
    ensures i == |p| ==> Accepted(p[star..], raw, text, from)
    ensures i < |p| ==> (Accepted(p[star..], raw, text, from) <==>
                         exists k: int :: from <= k <= |text| && Accepted(p[i..], raw, text, k))
  {
    hide Sound;
    i := star + 1;
    while i < |p| && p[i] == '*'
      invariant star < i <= |p| && p[i - 1] == '*'
      invariant Accepted(p[star..], raw, text, from) <==> Accepted(p[i - 1..], raw, text, from)
      invariant Sound(p, i - 1, raw)
    {
      StarThenStar(p, i, raw, text, from);
      i := i + 1;
    }
    StarThenOther(p, i, raw, text, from);
  }

  lemma StarThenStar(p: string, i: nat, raw: bool, text: string, from: nat)
    requires 0 < i < |p| && p[i - 1] == '*' && p[i] == '*' && from <= |text| && Sound(p, i - 1, raw)
    ensures Accepted(p[i - 1..], raw, text, from) <==> Accepted(p[i..], raw, text, from)
    ensures Sound(p, i, raw)
  {
    assert p[i - 1..][1..] == p[i..];
    StarsCollapse(p[i - 1..], raw, text, from);
  }

  lemma StarThenOther(p: string, i: nat, raw: bool, text: string, from: nat)
    requires 0 < i <= |p| && p[i - 1] == '*' && from <= |text| && Sound(p, i - 1, raw)
    ensures Sound(p, i, raw)
    ensures i == |p| ==> Accepted(p[i - 1..], raw, text, from)
    ensures Accepted(p[i - 1..], raw, text, from) <==>
            exists k: int :: from <= k <= |text| && Accepted(p[i..], raw, text, k)
  {
    assert p[i - 1..][1..] == p[i..];
    AcceptedStar(p[i - 1..], raw, text, from);
    if i == |p| {
      assert p[i - 1..] == "*";
      StarAtEnd(raw, text, from);
    }
  }

  /** The star branch: every non-empty rest of the text is tried. */
  method MatchStar(p: string, star: nat, text: string, from: nat, raw: bool) returns (ok: bool)
    requires star < |p| && p[star] == '*' && from <= |text| && Sound(p, star, raw)
    ensures ok <==> Accepted(p[star..], raw, text, from)
    decreases |p| - star, 0
  {
    hide Sound;
    var i := SkipStars(p, star, raw, text, from);
    if i == |p| {
      return true;
    }
    NoEmptySuffix(p[i..], raw, text);
    var j := from;
    while j < |text|
      invariant from <= j <= |text|
      invariant forall k: int :: from <= k < j ==> !Accepted(p[i..], raw, text, k)
    {
      ok := DoMatch(p, i, text, j, raw);
      if ok {
        return;
      }
      j := j + 1;
    }
    ok := false;
  }

  /** Reading one token other than a star: whether it fits text[j], and where the next token starts. */
  method ReadSingle(p: string, i: nat, text: string, j: nat, raw: bool) returns (ok: bool, e: nat)
    requires i < |p| && p[i] != '*' && j <= |text| && Sound(p, i, raw)
    ensures var (item, n) := Token(p[i..], raw);
            (ok <==> j < |text| && MatchOne(item.atom, text[j])) && (ok ==> e == i + n)
  {
    assert p[i..][1..] == p[i + 1..];
    e := i + 1;
    if p[i] == '?' {
      return j < |text|, e;
    }
    if p[i] == '[' {
      if j == |text| {
        return false, e;
      }
      ok, e := MatchRange(p, i + 1, text[j], raw);
      return;
    }
    var c := p[i];
    if c == '\\' && !raw {
      c := p[e];
      e := e + 1;
    }
    ok := j < |text| && text[j] == c;
  }

  lemma NotStar(p: string, raw: bool)
    requires |p| > 0 && p[0] != '*'
    ensures var item := Token(p, raw).0; item.Rep? && item == Exactly(item.atom)
  {
  }

  lemma CompleteNext(p: string, raw: bool)
    requires |p| > 0 && Complete(p, raw)
    ensures Complete(p[Token(p, raw).1..], raw)
  {
  }

  lemma SingleStep(p: string, i: nat, text: string, j: nat, raw: bool, item: Item, n: nat)
    requires i < |p| && p[i] != '*' && j <= |text| && Sound(p, i, raw) && Token(p[i..], raw) == (item, n)
    ensures 0 < n && i + n <= |p| && Sound(p, i + n, raw)
    ensures Accepted(p[i..], raw, text, j) <==>
            j < |text| && MatchOne(item.atom, text[j]) && Accepted(p[i + n..], raw, text, j + 1)
  {
    hide Token, Complete, Accepted;
    NotStar(p[i..], raw);
    CompleteNext(p[i..], raw);
    assert p[i..][n..] == p[i + n..];
    AcceptedOne(p[i..], raw, text, j, item.atom, p[i + n..]);
  }

  /** What a turn tells: the token fits and the rest decides, or the text is rejected. */
  ghost predicate Told(p: string, i: nat, text: string, j: nat, raw: bool, ok: bool, e: nat)
    requires i <= |p|
  {
    if ok then
      i < e <= |p| && j < |text| && Sound(p, e, raw) &&
      (Accepted(p[i..], raw, text, j) <==> Accepted(p[e..], raw, text, j + 1))
    else !Accepted(p[i..], raw, text, j)
  }

  lemma SingleTold(p: string, i: nat, text: string, j: nat, raw: bool, ok: bool, e: nat, item: Item, n: nat)
    requires i < |p| && p[i] != '*' && j <= |text| && Sound(p, i, raw) && Token(p[i..], raw) == (item, n)
    requires (ok <==> j < |text| && MatchOne(item.atom, text[j])) && (ok ==> e == i + n)
    ensures Told(p, i, text, j, raw, ok, e)
  {
    hide Sound;
    SingleStep(p, i, text, j, raw, item, n);
  }

  /** One turn for a token other than a star. */
  method MatchSingle(p: string, i: nat, text: string, j: nat, raw: bool) returns (ok: bool, e: nat)
    requires i < |p| && p[i] != '*' && j <= |text| && Sound(p, i, raw)
    ensures Told(p, i, text, j, raw, ok, e)
  {
    hide Sound;
    ok, e := ReadSingle(p, i, text, j, raw);
    SingleTold(p, i, text, j, raw, ok, e, Token(p[i..], raw).0, Token(p[i..], raw).1);
  }

  lemma EmptyTold(p: string, raw: bool, text: string, j: nat)
    requires j <= |text|
    ensures Accepted(p[|p|..], raw, text, j) <==> j == |text|
  {
    assert p[|p|..] == "";
    AcceptedEmpty(raw, text, j);
  }

  /** do_match: it accepts exactly the language of the pattern. */
  method DoMatch(p: string, start: nat, text: string, from: nat, raw: bool) returns (ok: bool)
    requires start <= |p| && from <= |text| && Sound(p, start, raw)
    ensures ok <==> Accepted(p[start..], raw, text, from)
    decreases |p| - start, 1
  {
    hide Accepted, Sound;
    ghost var goal := Accepted(p[start..], raw, text, from);
    var i, j := start, from;
    while i < |p|
      invariant start <= i <= |p| && 0 <= j <= |text| && Sound(p, i, raw)
      invariant goal <==> Accepted(p[i..], raw, text, j)
    {
      if p[i] == '*' {
        ok := MatchStar(p, i, text, j, raw);
        return;
      }
      var fits, e := MatchSingle(p, i, text, j, raw);
      if !fits {
        return false;
      }
      i, j := e, j + 1;
    }
    EmptyTold(p, raw, text, j);
    ok := j == |text|;
  }

  /** fnmatch: 0 on a match, FNM_NOMATCH (1) otherwise. */
  method Fnmatch(pattern: string, text: string, raw: bool) returns (r: int)
    requires Complete(pattern, raw)
    ensures r == 0 <==> Matches(Glob(pattern, raw), text, 0, |text|)
    ensures r == 0 || r == 1
  {
    assert pattern[0..] == pattern;
    var ok := DoMatch(pattern, 0, text, 0, raw);
    r := if ok then 0 else 1;
  }
}
