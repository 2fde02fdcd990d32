/**
 * The backtracking matcher and the search loop of src/regex.c, proved against
 * the language of the token list.
 */
module Regex {
  import opened RegexLanguage

  datatype Token = One(atom: Atom) | Question | Star | Plus | Begin | End | Open(group: nat) | Close(group: nat)
                 | Back(group: nat)

  predicate Quantifier(t: Token) {
    t.Question? || t.Star? || t.Plus?
  }

  /** Every quantifier follows a token that stands for one character, and there is no back-reference. */
  predicate WellFormed(pat: seq<Token>) {
    (forall p :: 0 <= p < |pat| ==> !pat[p].Back?) &&
    (forall p :: 0 <= p < |pat| && Quantifier(pat[p]) ==> p > 0 && pat[p - 1].One?)
  }

  function Repeated(a: Atom, q: Token): Item
    requires Quantifier(q)
  {
    match q
    case Question => Rep(a, 0, Upto(1))
    case Star => Rep(a, 0, Endless)
    case Plus => Rep(a, 1, Endless)
  }

  /** The items that the tokens from p on stand for; parentheses only record positions. */
  function Items(pat: seq<Token>, p: nat): seq<Item>
    decreases |pat| - p
  {
    if p >= |pat| then []
    else
      match pat[p]
      case Open(_) => Items(pat, p + 1)
      case Close(_) => Items(pat, p + 1)
      case Begin => [AtStart] + Items(pat, p + 1)
      case End => [AtEnd] + Items(pat, p + 1)
      case One(a) =>
        if p + 1 < |pat| && Quantifier(pat[p + 1]) then [Repeated(a, pat[p + 1])] + Items(pat, p + 2)
        else [Rep(a, 1, Upto(1))] + Items(pat, p + 1)
      case _ => Items(pat, p + 1)
  }

  /** A token that matchpattern may be asked to start at. */
  predicate Startable(pat: seq<Token>, p: nat) {
    p <= |pat| && (p < |pat| ==> !Quantifier(pat[p]))
  }

  ghost predicate Accepts(pat: seq<Token>, p: nat, text: string, i: int) {
    MatchesFrom(Items(pat, p), text, i)
  }

  lemma AcceptsSingle(pat: seq<Token>, p: nat, text: string, i: nat)
    requires WellFormed(pat) && p < |pat| && pat[p].One? && i <= |text|
    requires p + 1 < |pat| ==> !Quantifier(pat[p + 1])
    ensures Accepts(pat, p, text, i) <==> i < |text| && MatchOne(pat[p].atom, text[i]) && Accepts(pat, p + 1, text, i + 1)
  {
    var item := Rep(pat[p].atom, 1, Upto(1));
    FromFirst(item, Items(pat, p + 1), text, i);
    if i < |text| && MatchOne(pat[p].atom, text[i]) {
      assert Covers(item, text, i, i + 1);
    }
    forall k: int | Covers(item, text, i, k)
      ensures k == i + 1 && i < |text| && MatchOne(pat[p].atom, text[i])
    {
    }
  }

  lemma AcceptsRepeated(pat: seq<Token>, p: nat, text: string, i: nat, item: Item, q: nat)
    requires p + 1 < |pat| && pat[p].One? && Quantifier(pat[p + 1])
    requires item == Repeated(pat[p].atom, pat[p + 1]) && q == p + 2
    ensures Accepts(pat, p, text, i) <==> exists k: int :: Covers(item, text, i, k) && Accepts(pat, q, text, k)
  {
    FromFirst(item, Items(pat, q), text, i);
  }

  lemma AcceptsAnchor(pat: seq<Token>, p: nat, text: string, i: nat)
    requires p < |pat| && i <= |text|
    ensures pat[p].Begin? ==> (Accepts(pat, p, text, i) <==> i == 0 && Accepts(pat, p + 1, text, i))
    ensures pat[p].End? ==> (Accepts(pat, p, text, i) <==> i == |text| && Accepts(pat, p + 1, text, i))
  {
    FromFirst(AtStart, Items(pat, p + 1), text, i);
    FromFirst(AtEnd, Items(pat, p + 1), text, i);
    assert i == 0 ==> Covers(AtStart, text, i, i);
    assert i == |text| ==> Covers(AtEnd, text, i, i);
  }

  /** The longest run of the atom from i. */
  method Extent(a: Atom, text: string, i: nat) returns (m: nat)
    requires i <= |text|
    ensures i <= m <= |text| && forall k: int :: Run(a, text, i, k) <==> i <= k <= m
  {
    m := i;
    while m < |text| && MatchOne(a, text[m])
      invariant i <= m <= |text| && Run(a, text, i, m)
    {
      m := m + 1;
    }
    forall k: int | Run(a, text, i, k)
      ensures k <= m
    {
    }
  }

  /** Greedy star: the longest run first, then shorter ones, down to none. */
  method MatchStar(a: Atom, pat: seq<Token>, p: nat, text: string, i: nat) returns (ok: bool)
    requires WellFormed(pat) && Startable(pat, p) && i <= |text|
    ensures ok <==> exists k: int :: Run(a, text, i, k) && Accepts(pat, p, text, k)
    decreases |pat| - p, 1
  {
    var m := Extent(a, text, i);
    var t: int := m;
    while t >= i
      invariant i - 1 <= t <= m
      invariant forall k: int :: t < k <= m ==> !Accepts(pat, p, text, k)
    {
      var found := MatchPattern(pat, p, text, t);
      if found {
        assert Run(a, text, i, t);
        return true;
      }
      t := t - 1;
    }
    ok := false;
  }

  /** Greedy plus: as star, but stops before the empty run. */
  method MatchPlus(a: Atom, pat: seq<Token>, p: nat, text: string, i: nat) returns (ok: bool)
    requires WellFormed(pat) && Startable(pat, p) && i <= |text|
    ensures ok <==> exists k: int :: k > i && Run(a, text, i, k) && Accepts(pat, p, text, k)
    decreases |pat| - p, 1
  {
    var m := Extent(a, text, i);
    var t: int := m;
    while t > i
      invariant i <= t <= m
      invariant forall k: int :: t < k <= m ==> !Accepts(pat, p, text, k)
    {
      var found := MatchPattern(pat, p, text, t);
      if found {
        assert Run(a, text, i, t);
        return true;
      }
      t := t - 1;
    }
    ok := false;
  }

  /** Lazy option: without the character first. */
  method MatchQuestion(a: Atom, pat: seq<Token>, p: nat, text: string, i: nat) returns (ok: bool)
    requires WellFormed(pat) && Startable(pat, p) && i <= |text|
    ensures ok <==> exists k: int :: k <= i + 1 && Run(a, text, i, k) && Accepts(pat, p, text, k)
    decreases |pat| - p, 1
  {
    assert Run(a, text, i, i);
    ok := MatchPattern(pat, p, text, i);
    if ok {
      return;
    }
    if i < |text| && MatchOne(a, text[i]) {
      assert Run(a, text, i, i + 1);
      ok := MatchPattern(pat, p, text, i + 1);
    } else {
      assert !Run(a, text, i, i + 1);
    }
  }

  /** The matcher: it succeeds exactly when some stretch from i on is in the language of the tokens. */
  method MatchPattern(pat: seq<Token>, start: nat, text: string, from: nat) returns (ok: bool)
    requires WellFormed(pat) && Startable(pat, start) && from <= |text|
    ensures ok <==> Accepts(pat, start, text, from)
    decreases |pat| - start, 0
  {
    var p, i := start, from;
    while true
      invariant start <= p && Startable(pat, p) && 0 <= i <= |text|
      invariant Accepts(pat, start, text, from) <==> Accepts(pat, p, text, i)
      decreases |pat| - p
    {
      if p == |pat| {
        MatchesNothing(text, i);
        return true;
      }
      match pat[p] {
        case Open(_) => p := p + 1;
        case Close(_) => p := p + 1;
        case Begin =>
          AcceptsAnchor(pat, p, text, i);
          if i != 0 {
            return false;
          }
          p := p + 1;
        case End =>
          AcceptsAnchor(pat, p, text, i);
          if i != |text| {
            return false;
          }
          p := p + 1;
        case One(a) =>
          if p + 1 < |pat| && Quantifier(pat[p + 1]) {
            AcceptsRepeated(pat, p, text, i, Repeated(a, pat[p + 1]), p + 2);
            match pat[p + 1] {
              case Question => ok := MatchQuestion(a, pat, p + 2, text, i);
              case Star => ok := MatchStar(a, pat, p + 2, text, i);
              case Plus => ok := MatchPlus(a, pat, p + 2, text, i);
            }
            return;
          }
          AcceptsSingle(pat, p, text, i);
          if i < |text| && MatchOne(a, text[i]) {
            p, i := p + 1, i + 1;
          } else {
            return false;
          }
      }
    }
  }

  datatype Outcome = NoMatch | Match(alternative: nat, start: nat)

  ghost predicate Nowhere(pat: seq<Token>, text: string) {
    forall i :: 0 <= i <= |text| ==> !Accepts(pat, 0, text, i)
  }

  /** The start search for one alternative. */
  method Search(pat: seq<Token>, text: string) returns (pos: int)
    requires WellFormed(pat)
    ensures pos < 0 ==> Nowhere(pat, text)
    ensures pos >= 0 ==> pos <= |text| && Accepts(pat, 0, text, pos) && forall i :: 0 <= i < pos ==> !Accepts(pat, 0, text, i)
  {
    assert Startable(pat, 0);
    if |pat| > 0 && pat[0].Begin? {
      forall i | 0 <= i <= |text|
        ensures Accepts(pat, 0, text, i) <==> i == 0 && Accepts(pat, 1, text, i)
      {
        AcceptsAnchor(pat, 0, text, i);
      }
      var found := MatchPattern(pat, 1, text, 0);
      return if found then 0 else -1;
    }
    var idx := 0;
    while idx <= |text|
      invariant 0 <= idx <= |text| + 1
      invariant forall i :: 0 <= i < idx ==> !Accepts(pat, 0, text, i)
    {
      var found := MatchPattern(pat, 0, text, idx);
      if found {
        return idx;
      }
      idx := idx + 1;
    }
    pos := -1;
  }

  /** regexec: the first alternative that matches anywhere, at its smallest start. */
  method Exec(alts: seq<seq<Token>>, text: string) returns (r: Outcome)
    requires forall a :: 0 <= a < |alts| ==> WellFormed(alts[a])
    ensures r.NoMatch? <==> forall a :: 0 <= a < |alts| ==> Nowhere(alts[a], text)
    ensures r.Match? ==>
      r.alternative < |alts| && r.start <= |text| &&
      (forall a :: 0 <= a < r.alternative ==> Nowhere(alts[a], text)) &&
      Accepts(alts[r.alternative], 0, text, r.start) &&
      forall i :: 0 <= i < r.start ==> !Accepts(alts[r.alternative], 0, text, i)
  {
    for a := 0 to |alts|
      invariant forall b :: 0 <= b < a ==> Nowhere(alts[b], text)
    {
      var pos := Search(alts[a], text);
      if pos >= 0 {
        assert !Nowhere(alts[a], text);
        return Match(a, pos);
      }
    }
    r := NoMatch;
  }
}
