/**
 * Patterns as lists of pieces, spelled out as text and matched by fnmatch: the
 * text is accepted exactly when it fits the pieces, whose meaning is written
 * here without tokens, atoms or repetition.
 */
module FnmatchPatterns {
  import opened RegexLanguage
  import F = Fnmatch

  /** A character, any character, any string, or a set of ranges, possibly complemented. */
  datatype Piece = One(c: char) | Any | Many | OneOf(neg: bool, ranges: seq<F.Interval>)

  predicate Between(t: F.Interval, c: char) {
    t.lo as int <= c as int <= t.hi as int
  }

  predicate InRanges(ranges: seq<F.Interval>, c: char) {
    |ranges| > 0 && (Between(ranges[0], c) || InRanges(ranges[1..], c))
  }

  predicate Takes(p: Piece, c: char) {
    match p
    case One(d) => c == d
    case Any => true
    case Many => true
    case OneOf(neg, ranges) => InRanges(ranges, c) != neg
  }

  /** What is left of the text from j on fits the pieces. */
  predicate Fits(ps: seq<Piece>, text: string, j: nat)
    requires j <= |text|
    decreases |ps|, |text| - j
  {
    if |ps| == 0 then j == |text|
    else if ps[0].Many? then Fits(ps[1..], text, j) || (j < |text| && Fits(ps, text, j + 1))
    else j < |text| && Takes(ps[0], text[j]) && Fits(ps[1..], text, j + 1)
  }

  // ---- Spelling ----

  /** A character on its own: behind a backslash, unless backslashes are ordinary. */
  function Quoted(c: char, raw: bool): string {
    if raw then [c] else ['\\', c]
  }

  function SpellRange(t: F.Interval, raw: bool): string {
    Quoted(t.lo, raw) + (['-'] + Quoted(t.hi, raw))
  }

  function SpellRanges(ranges: seq<F.Interval>, raw: bool): string {
    if |ranges| == 0 then "" else SpellRange(ranges[0], raw) + SpellRanges(ranges[1..], raw)
  }

  /** What stands between the brackets, with the closing one. */
  function Inside(neg: bool, ranges: seq<F.Interval>, raw: bool): string {
    (if neg then "!" else "") + (SpellRanges(ranges, raw) + "]")
  }

  function SpellPiece(p: Piece, raw: bool): (s: string)
    ensures |s| > 0
  {
    match p
    case One(c) => Quoted(c, raw)
    case Any => "?"
    case Many => "*"
    case OneOf(neg, ranges) => "[" + Inside(neg, ranges, raw)
  }

  function Spell(ps: seq<Piece>, raw: bool): string {
    if |ps| == 0 then "" else SpellPiece(ps[0], raw) + Spell(ps[1..], raw)
  }

  /** Without escapes some characters cannot stand for themselves. */
  predicate Spellable(p: Piece, raw: bool) {
    raw ==>
      match p
      case One(c) => c !in {'?', '*', '['}
      case OneOf(neg, ranges) =>
        && (forall k :: 0 <= k < |ranges| ==> ranges[k].lo != ']' && ranges[k].hi != ']')
        && (!neg && |ranges| > 0 ==> ranges[0].lo !in {'!', '^'})
      case _ => true
  }

  predicate AllSpellable(ps: seq<Piece>, raw: bool) {
    forall k :: 0 <= k < |ps| ==> Spellable(ps[k], raw)
  }

  // ---- Reading the spelling back ----

  lemma QuotedMember(c: char, raw: bool, rest: string)
    ensures F.Member(Quoted(c, raw) + rest, raw) == (c, |Quoted(c, raw)|)
  {
  }

  lemma RangeRead(t: F.Interval, raw: bool, rest: string)
    requires raw ==> t.hi != ']'
    ensures F.Stretch(SpellRange(t, raw) + rest, raw) == (t, |SpellRange(t, raw)|)
  {
    var a, b := Quoted(t.lo, raw), Quoted(t.hi, raw);
    var s := SpellRange(t, raw) + rest;
    assert s == a + (['-'] + (b + rest));
    QuotedMember(t.lo, raw, ['-'] + (b + rest));
    QuotedMember(t.hi, raw, rest);
    assert s[|a| + 1..] == b + rest;
    assert s[|a|] == '-' && s[|a| + 1] == b[0];
  }

  lemma {:induction false} RangesRead(ranges: seq<F.Interval>, raw: bool, rest: string)
    requires raw ==> forall k :: 0 <= k < |ranges| ==> ranges[k].lo != ']' && ranges[k].hi != ']'
    ensures F.Intervals(SpellRanges(ranges, raw) + ("]" + rest), raw) == ranges
    ensures F.Length(SpellRanges(ranges, raw) + ("]" + rest), raw) == |SpellRanges(ranges, raw)| + 1
  {
    var end := "]" + rest;
    if |ranges| == 0 {
      assert SpellRanges(ranges, raw) + end == end;
    } else {
      var a, b := SpellRange(ranges[0], raw), SpellRanges(ranges[1..], raw);
      var s := SpellRanges(ranges, raw) + end;
      assert s == a + (b + end);
      RangeRead(ranges[0], raw, b + end);
      assert s[|a|..] == b + end;
      RangesRead(ranges[1..], raw, rest);
      assert [ranges[0]] + ranges[1..] == ranges;
    }
  }

  lemma {:induction false} RangesWithin(ranges: seq<F.Interval>, c: char)
    ensures InRanges(ranges, c) <==> F.Within(ranges, c)
  {
    if |ranges| > 0 {
      RangesWithin(ranges[1..], c);
      F.WithinFirst(ranges[0], ranges[1..], c);
      assert [ranges[0]] + ranges[1..] == ranges;
    }
  }

  /** The negation sign is where it was put, and nowhere else. */
  lemma InsideRead(neg: bool, ranges: seq<F.Interval>, raw: bool, rest: string)
    requires Spellable(OneOf(neg, ranges), raw)
    ensures var s := Inside(neg, ranges, raw) + rest;
            F.Negated(s) == neg && F.SetBody(s) == SpellRanges(ranges, raw) + ("]" + rest)
  {
    var body := SpellRanges(ranges, raw) + ("]" + rest);
    var s := Inside(neg, ranges, raw) + rest;
    if neg {
      assert s == "!" + body && s[1..] == body;
    } else {
      assert s == body;
      assert |ranges| > 0 ==> body[0] == Quoted(ranges[0].lo, raw)[0];
    }
  }

  lemma SetRead(neg: bool, ranges: seq<F.Interval>, raw: bool, rest: string, c: char)
    requires Spellable(OneOf(neg, ranges), raw)
    ensures var s := Inside(neg, ranges, raw) + rest;
            && MatchOne(F.SetAtom(s, raw), c) == Takes(OneOf(neg, ranges), c)
            && F.SetLength(s, raw) == |Inside(neg, ranges, raw)|
  {
    hide F.Intervals, F.Length, F.Negated, F.SetBody, InRanges, F.Within, SpellRanges;
    InsideRead(neg, ranges, raw, rest);
    RangesRead(ranges, raw, rest);
    RangesWithin(ranges, c);
  }

  /** The first token of a spelled pattern is its first piece. */
  ghost predicate Reads(p: Piece, raw: bool, s: string, c: char) {
    |s| > 0 &&
    var (item, n) := F.Token(s, raw);
    && n == |SpellPiece(p, raw)|
    && (s[0] == '*' <==> p.Many?)
    && (!p.Many? ==> item.Rep? && item == F.Exactly(item.atom) && MatchOne(item.atom, c) == Takes(p, c))
    && !(s[0] == '\\' && !raw && |s| == 1)
  }

  lemma SetPieceRead(p: Piece, raw: bool, rest: string, c: char)
    requires Spellable(p, raw) && p.OneOf?
    ensures Reads(p, raw, SpellPiece(p, raw) + rest, c)
  {
    hide F.SetAtom, F.SetLength, SpellRanges, MatchOne, Takes, Inside;
    SetRead(p.neg, p.ranges, raw, rest, c);
    var s := SpellPiece(p, raw) + rest;
    assert s[0] == '[' && s[1..] == Inside(p.neg, p.ranges, raw) + rest;
  }

  lemma PieceRead(p: Piece, raw: bool, rest: string, c: char)
    requires Spellable(p, raw)
    ensures Reads(p, raw, SpellPiece(p, raw) + rest, c)
  {
    if p.OneOf? {
      SetPieceRead(p, raw, rest, c);
    } else {
      var s := SpellPiece(p, raw) + rest;
      assert s[0] == SpellPiece(p, raw)[0] && (p.One? && !raw ==> s[1] == p.c);
    }
  }

  lemma SpellRest(ps: seq<Piece>, raw: bool)
    requires |ps| > 0
    ensures var s := Spell(ps, raw); |SpellPiece(ps[0], raw)| <= |s| && s[|SpellPiece(ps[0], raw)|..] == Spell(ps[1..], raw)
  {
  }

  lemma {:induction false} SpelledComplete(ps: seq<Piece>, raw: bool)
    requires AllSpellable(ps, raw)
    ensures F.Complete(Spell(ps, raw), raw)
  {
    if |ps| > 0 {
      SpellRest(ps, raw);
      PieceRead(ps[0], raw, Spell(ps[1..], raw), 'a');
      SpelledComplete(ps[1..], raw);
    }
  }

  lemma {:induction false} ManyFits(ps: seq<Piece>, text: string, j: nat, k: nat)
    requires |ps| > 0 && ps[0].Many? && j <= k <= |text| && Fits(ps[1..], text, k)
    ensures Fits(ps, text, j)
    decreases k - j
  {
    if j < k {
      ManyFits(ps, text, j + 1, k);
    }
  }

  lemma {:induction false} ManySplits(ps: seq<Piece>, text: string, j: nat) returns (k: nat)
    requires |ps| > 0 && ps[0].Many? && j <= |text| && Fits(ps, text, j)
    ensures j <= k <= |text| && Fits(ps[1..], text, k)
    decreases |text| - j
  {
    if Fits(ps[1..], text, j) {
      k := j;
    } else {
      k := ManySplits(ps, text, j + 1);
    }
  }

  /** A star in front: the rest of the text may start anywhere. */
  lemma ManyMeans(ps: seq<Piece>, raw: bool, text: string, j: nat)
    requires |ps| > 0 && ps[0].Many? && j <= |text|
    requires forall k: nat :: j <= k <= |text| ==> (F.Accepted(Spell(ps[1..], raw), raw, text, k) <==> Fits(ps[1..], text, k))
    ensures F.Accepted(Spell(ps, raw), raw, text, j) <==> Fits(ps, text, j)
  {
    var s, rest := Spell(ps, raw), Spell(ps[1..], raw);
    SpellRest(ps, raw);
    assert s[1..] == rest;
    F.AcceptedStar(s, raw, text, j);
    if F.Accepted(s, raw, text, j) {
      var k: int :| j <= k <= |text| && F.Accepted(rest, raw, text, k);
      ManyFits(ps, text, j, k);
    }
    if Fits(ps, text, j) {
      var k := ManySplits(ps, text, j);
      assert F.Accepted(rest, raw, text, k);
    }
  }

  /** A piece for one character in front. */
  lemma OneMeans(ps: seq<Piece>, raw: bool, text: string, j: nat)
    requires |ps| > 0 && !ps[0].Many? && Spellable(ps[0], raw) && j <= |text|
    ensures F.Accepted(Spell(ps, raw), raw, text, j) <==>
            j < |text| && Takes(ps[0], text[j]) && F.Accepted(Spell(ps[1..], raw), raw, text, j + 1)
  {
    var s, rest := Spell(ps, raw), Spell(ps[1..], raw);
    var c := if j < |text| then text[j] else 'a';
    SpellRest(ps, raw);
    PieceRead(ps[0], raw, rest, c);
    hide Spell, SpellPiece, Takes, F.Accepted;
    F.AcceptedOne(s, raw, text, j, F.Token(s, raw).0.atom, rest);
  }

  lemma NothingMeans(raw: bool, text: string, j: nat)
    requires j <= |text|
    ensures F.Accepted(Spell([], raw), raw, text, j) <==> Fits([], text, j)
  {
    F.AcceptedEmpty(raw, text, j);
  }

  /** A spelled pattern accepts exactly the texts that fit its pieces. */
  lemma {:induction false} SpelledMeans(ps: seq<Piece>, raw: bool, text: string, j: nat)
    requires AllSpellable(ps, raw) && j <= |text|
    ensures F.Accepted(Spell(ps, raw), raw, text, j) <==> Fits(ps, text, j)
    decreases |ps|
  {
    hide F.Accepted, Spell, Takes, Spellable;
    if |ps| == 0 {
      assert ps == [];
      NothingMeans(raw, text, j);
    } else if ps[0].Many? {
      forall k: nat | j <= k <= |text|
        ensures F.Accepted(Spell(ps[1..], raw), raw, text, k) <==> Fits(ps[1..], text, k)
      {
        SpelledMeans(ps[1..], raw, text, k);
      }
      ManyMeans(ps, raw, text, j);
    } else {
      OneMeans(ps, raw, text, j);
      if j < |text| {
        SpelledMeans(ps[1..], raw, text, j + 1);
      }
    }
  }

  /** fnmatch of a spelled pattern: 0 exactly when the whole text fits the pieces. */
  method MatchPieces(ps: seq<Piece>, raw: bool, text: string) returns (r: int)
    requires AllSpellable(ps, raw)
    ensures r == if Fits(ps, text, 0) then 0 else 1
  {
    SpelledComplete(ps, raw);
    SpelledMeans(ps, raw, text, 0);
    r := F.Fnmatch(Spell(ps, raw), text, raw);
  }
}
