/**
 * Where regcomp stops doing what the pattern says: the tenth group, ranges on
 * bracket expressions with named classes, bars inside them, and captures of an
 * alternative with more groups than the last.
 */
module RegexLimits {
  import opened RegexLanguage
  import opened RegexScan
  import opened RegexSyntax
  import opened RegexRanges
  import opened RegexRangesProof
  import opened RegexAlts
  import opened RegexAltsProof
  import opened RegexTokens
  import opened RegexLexProof
  import opened RegexWhole
  import R = Regex

  // ---- Ten groups ----

  const LETTER := Elem("a", Once)

  function Run(p: Piece, n: nat): (b: Branch)
    ensures |b| == n && forall k :: 0 <= k < n ==> b[k] == p
  {
    seq(n, _ => p)
  }

  /** The letter a in n groups, one inside the other. */
  function Nested(n: nat): Branch {
    Run(OpenParen, n) + ([Unit(LETTER)] + Run(CloseParen, n))
  }

  function JustOne(a: Atom): Item {
    Rep(a, 1, Upto(1))
  }

  lemma RunFirst(p: Piece, n: nat, rest: Branch)
    ensures n == 0 ==> Run(p, n) + rest == rest
    ensures n > 0 ==> Run(p, n) + rest == [p] + (Run(p, n - 1) + rest)
  {
  }

  /** Opening parentheses within the limit only mark. */
  lemma {:induction false} OpensMark(sense: Sense, n: nat, rest: Branch, groups: nat, stack: seq<nat>) returns (deeper: seq<nat>)
    requires PlainBranch(rest) && groups + n <= MAX_GROUPS
    ensures |deeper| == |stack| + n && PlainBranch(Run(OpenParen, n) + rest)
    ensures R.Items(BranchTokens(sense, Run(OpenParen, n) + rest, groups, stack), 0) ==
            R.Items(BranchTokens(sense, rest, groups + n, deeper), 0)
    decreases n
  {
    RunFirst(OpenParen, n, rest);
    hide R.Items, BranchTokens, Run, PlainBranch;
    if n == 0 {
      deeper := stack;
    } else {
      var more := Run(OpenParen, n - 1) + rest;
      deeper := OpensMark(sense, n - 1, rest, groups + 1, stack + [groups + 1]);
      OpenStep(sense, more, groups, stack);
      MarkFirst(R.Open(groups + 1), BranchTokens(sense, more, groups + 1, stack + [groups + 1]));
    }
  }

  /** Closing parentheses of open groups only mark. */
  lemma {:induction false} ClosesMark(sense: Sense, n: nat, rest: Branch, groups: nat, stack: seq<nat>) returns (outer: seq<nat>)
    requires PlainBranch(rest) && n <= |stack|
    ensures |outer| == |stack| - n && PlainBranch(Run(CloseParen, n) + rest)
    ensures R.Items(BranchTokens(sense, Run(CloseParen, n) + rest, groups, stack), 0) ==
            R.Items(BranchTokens(sense, rest, groups, outer), 0)
    decreases n
  {
    RunFirst(CloseParen, n, rest);
    hide R.Items, BranchTokens, Run, PlainBranch;
    if n == 0 {
      outer := stack;
    } else {
      var s, more := stack[..|stack| - 1], Run(CloseParen, n - 1) + rest;
      outer := ClosesMark(sense, n - 1, rest, groups, s);
      CloseStep(sense, more, groups, stack);
      MarkFirst(R.Close(stack[|stack| - 1]), BranchTokens(sense, more, groups, s));
    }
  }

  function Literals(c: char, n: nat): (items: seq<Item>)
    ensures |items| == n
  {
    seq(n, _ => JustOne(Char(c)))
  }

  lemma LiteralsFirst(c: char, n: nat, rest: seq<Item>)
    ensures n == 0 ==> Literals(c, n) + rest == rest
    ensures n > 0 ==> Literals(c, n) + rest == [JustOne(Char(c))] + (Literals(c, n - 1) + rest)
  {
  }

  /** Beyond the limit opening parentheses are characters. */
  lemma {:induction false} OpensLiteral(sense: Sense, n: nat, rest: Branch, stack: seq<nat>)
    requires PlainBranch(rest)
    ensures PlainBranch(Run(OpenParen, n) + rest)
    ensures R.Items(BranchTokens(sense, Run(OpenParen, n) + rest, MAX_GROUPS, stack), 0) ==
            Literals('(', n) + R.Items(BranchTokens(sense, rest, MAX_GROUPS, stack), 0)
  {
    RunFirst(OpenParen, n, rest);
    LiteralsFirst('(', n, R.Items(BranchTokens(sense, rest, MAX_GROUPS, stack), 0));
    hide R.Items, BranchTokens, Run, PlainBranch, Literals;
    if n > 0 {
      var more := Run(OpenParen, n - 1) + rest;
      OpensLiteral(sense, n - 1, rest, stack);
      OpenStep(sense, more, MAX_GROUPS, stack);
      TokensFit(sense, more, MAX_GROUPS, stack);
      AtomFirst(Char('('), BranchTokens(sense, more, MAX_GROUPS, stack));
    }
  }

  /** Closing parentheses with no group open are characters. */
  lemma {:induction false} ClosesLiteral(sense: Sense, n: nat, groups: nat)
    ensures PlainBranch(Run(CloseParen, n))
    ensures R.Items(BranchTokens(sense, Run(CloseParen, n), groups, []), 0) == Literals(')', n)
  {
    if n > 0 {
      ClosesLiteral(sense, n - 1, groups);
      RunFirst(CloseParen, n, []);
      LiteralsFirst(')', n, []);
      assert Run(CloseParen, n) + [] == Run(CloseParen, n) && Run(CloseParen, n - 1) + [] == Run(CloseParen, n - 1);
      assert Literals(')', n) + [] == Literals(')', n) && Literals(')', n - 1) + [] == Literals(')', n - 1);
      hide R.Items, BranchTokens, Run, PlainBranch, Literals;
      CloseStep(sense, Run(CloseParen, n - 1), groups, []);
      TokensFit(sense, Run(CloseParen, n - 1), groups, []);
      AtomFirst(Char(')'), BranchTokens(sense, Run(CloseParen, n - 1), groups, []));
    }
  }

  lemma LetterThen(sense: Sense, rest: Branch, groups: nat, stack: seq<nat>)
    requires PlainBranch(rest)
    ensures PlainBranch([Unit(LETTER)] + rest)
    ensures R.Items(BranchTokens(sense, [Unit(LETTER)] + rest, groups, stack), 0) ==
            [JustOne(sense("a"))] + R.Items(BranchTokens(sense, rest, groups, stack), 0)
  {
    var b := [Unit(LETTER)] + rest;
    assert GoodNode(LETTER, false) && GoodNode(LETTER, true) && PlainPiece(Unit(LETTER)) && GoodPiece(Unit(LETTER));
    assert b[1..] == rest && b[0] == Unit(LETTER);
    TokensFit(sense, rest, groups, stack);
    UnitFirst(sense, LETTER, BranchTokens(sense, rest, groups, stack));
  }

  lemma NestedSplit(m: nat, k: nat)
    ensures Nested(m + k) == Run(OpenParen, m) + (Run(OpenParen, k) + ([Unit(LETTER)] + (Run(CloseParen, m) + Run(CloseParen, k))))
  {
    assert Run(OpenParen, m + k) == Run(OpenParen, m) + Run(OpenParen, k);
    assert Run(CloseParen, m + k) == Run(CloseParen, m) + Run(CloseParen, k);
  }

  /** A letter in n groups, n beyond nine, has to be matched with the parentheses of n - 9 of them. */
  lemma NestedItems(reading: Reading, n: nat)
    requires n >= MAX_GROUPS
    ensures PlainBranch(Nested(n)) && Legible(BranchText(Nested(n)))
    ensures R.Items(Lex(reading, BranchText(Nested(n)), 0, []), 0) ==
            Literals('(', n - MAX_GROUPS) + ([JustOne(Char('a'))] + Literals(')', n - MAX_GROUPS))
  {
    var sense, k := CodeSense(reading), n - MAX_GROUPS;
    assert sense("a") == Char('a');
    NestedSplit(MAX_GROUPS, k);
    hide R.Items, BranchTokens, Lex, Legible, PlainBranch, CodeSense, Run, Literals, Nested, BranchText;
    var last: Branch := Run(CloseParen, k);
    var closing: Branch := Run(CloseParen, MAX_GROUPS) + last;
    var tail: Branch := [Unit(LETTER)] + closing;
    ClosesLiteral(sense, k, MAX_GROUPS);
    PlainCloses(MAX_GROUPS, last);
    LetterThen(sense, closing, 0, []);
    OpensLiteral(sense, k, tail, []);
    var deeper := OpensMark(sense, MAX_GROUPS, Run(OpenParen, k) + tail, 0, []);
    OpensLiteral(sense, k, tail, deeper);
    LetterThen(sense, closing, MAX_GROUPS, deeper);
    var outer := ClosesMark(sense, MAX_GROUPS, last, MAX_GROUPS, deeper);
    LexBranch(reading, Nested(n), 0, []);
  }

  lemma PlainCloses(n: nat, rest: Branch)
    requires PlainBranch(rest)
    ensures PlainBranch(Run(CloseParen, n) + rest)
  {
  }

  lemma Three(c: char, d: char, e: char, text: string, i: int)
    ensures MatchesFrom([JustOne(Char(c)), JustOne(Char(d)), JustOne(Char(e))], text, i) <==>
            0 <= i && i + 3 <= |text| && text[i] == c && text[i + 1] == d && text[i + 2] == e
  {
    var items := [JustOne(Char(c)), JustOne(Char(d)), JustOne(Char(e))];
    if MatchesFrom(items, text, i) {
      var j: int :| Matches(items, text, i, j);
      var cuts: seq<int> :| CutBetween(items, text, cuts, i, j);
      assert Covers(items[0], text, cuts[0], cuts[1]) && Covers(items[1], text, cuts[1], cuts[2]) && Covers(items[2], text, cuts[2], cuts[3]);
    }
    if 0 <= i && i + 3 <= |text| && text[i] == c && text[i + 1] == d && text[i + 2] == e {
      assert CutBetween(items, text, [i, i + 1, i + 2, i + 3], i, i + 3);
      assert Matches(items, text, i, i + 3);
    }
  }

  /** Ten groups around the letter a match "(a)" and not "a". */
  lemma TenthGroup(reading: Reading)
    ensures Legible(BranchText(Nested(10)))
    ensures R.Nowhere(Lex(reading, BranchText(Nested(10)), 0, []), "a")
    ensures R.Accepts(Lex(reading, BranchText(Nested(10)), 0, []), 0, "(a)", 0)
  {
    NestedItems(reading, 10);
    var tokens := Lex(reading, BranchText(Nested(10)), 0, []);
    assert R.Items(tokens, 0) == [JustOne(Char('(')), JustOne(Char('a')), JustOne(Char(')'))];
    forall i | 0 <= i <= 1
      ensures !R.Accepts(tokens, 0, "a", i)
    {
      Three('(', 'a', ')', "a", i);
    }
    Three('(', 'a', ')', "(a)", 0);
  }

  // ---- Ranges on bracket expressions with named classes ----

  /** A range that comes to the same as none, ? or *. */
  predicate Single(c: Count)
    requires GoodCount(c)
  {
    match c
    case Exactly(d) => NumberValue(d) == 1
    case AtLeast(d) => NumberValue(d) == 0
    case Between(d, e) => NumberValue(e) == 1 && NumberValue(d) <= 1
    case _ => true
  }

  /** What follows the bracket expression once its range is expanded. */
  function Surplus(v: string, c: Count): string
    requires GoodCount(c) && !Simple(c) && !Vanishes(c)
  {
    match c
    case Exactly(d) => Times(v, NumberValue(d) - 1)
    case AtLeast(d) => if NumberValue(d) == 0 then "*" else Times(v, NumberValue(d) - 1) + (v + "*")
    case Between(d, e) =>
      if NumberValue(d) > NumberValue(e) then ""
      else if NumberValue(d) == 0 then "?" + Times(v + "?", NumberValue(e) - 1)
      else Times(v, NumberValue(d) - 1) + Times(v + "?", NumberValue(e) - NumberValue(d))
  }

  /** {0} and {0,0}. */
  predicate Vanishes(c: Count)
    requires GoodCount(c)
  {
    (c.Exactly? && NumberValue(c.d) == 0) || (c.Between? && NumberValue(c.d) == 0 && NumberValue(c.e) == 0)
  }

  lemma TimesFirst(v: string, k: nat)
    requires k > 0
    ensures Times(v, k) == v + Times(v, k - 1)
  {
    TimesFront(v, k - 1);
  }

  lemma RewrittenSurplus(v: string, c: Count)
    requires GoodCount(c) && !Simple(c)
    ensures Rewritten(v, c) == if Vanishes(c) then "" else v + Surplus(v, c)
  {
    hide Times;
    match c
    case Exactly(d) =>
      var m := NumberValue(d);
      TimesNone(v + "?");
      TimesNone(v);
      assert Times(v, m) + "" == Times(v, m);
      if m > 0 {
        TimesFirst(v, m);
      }
    case AtLeast(d) =>
      var m := NumberValue(d);
      TimesNone(v);
      assert "" + v + "*" == v + "*";
      if m > 0 {
        TimesFirst(v, m);
        assert v + Times(v, m - 1) + v + "*" == v + (Times(v, m - 1) + (v + "*"));
      }
    case Between(d, e) =>
      var m, n := NumberValue(d), NumberValue(e);
      TimesNone(v);
      TimesNone(v + "?");
      assert v + "" == v;
      if m <= n {
        if m > 0 {
          TimesFirst(v, m);
          Regroup(v, Times(v, m - 1), Times(v + "?", n - m));
        } else if n > 0 {
          TimesFirst(v + "?", n);
          assert "" + Times(v + "?", n) == Times(v + "?", n);
          Regroup(v, "?", Times(v + "?", n - 1));
        } else {
          assert "" + "" == "";
        }
      }
  }

  lemma TimesNone(v: string)
    ensures Times(v, 0) == ""
  {
  }

  /** The range of a bracket expression with named classes goes to the last item the passes see in it. */
  lemma NamedRangeCut(u: string, v: string, c: Count)
    requires PassText(u) && PassItem(v) && GoodCount(c) && !Simple(c)
    ensures Ranges((u + v) + RenderCount(c)) == u + Rewritten(v, c)
  {
    var q := RenderCount(c);
    Regroup(u, v, q);
    RangesText(u, v + q);
    assert q + "" == q;
    RangesRanged(v, c, "");
    assert Ranges("") == "";
    assert Rewritten(v, c) + "" == Rewritten(v, c);
  }

  lemma PrefixOpen(r: string, k: nat)
    requires BracketClosed(r) && BracketRest(r) == |r| && k < |r|
    ensures !BracketClosed(r[..k])
  {
    hide BracketRest, BracketClosed;
    assert r[..k] + r[k..] == r;
    if BracketClosed(r[..k]) {
      BracketStable(r[..k], r[k..]);
    }
  }

  lemma CutStart(t: string, k: nat)
    requires BracketStart(t) <= k <= |t| && |t| >= 2
    ensures BracketStart(t[..k]) == BracketStart(t) && t[..k][BracketStart(t)..] == t[BracketStart(t)..][..k - BracketStart(t)]
  {
  }

  /** A bracket expression cut short does not close. */
  lemma CutShort(t: string, k: nat)
    requires BracketText(t) && 0 < k < |t|
    ensures !Legible(t[..k])
  {
    var s, n := t[..k], BracketStart(t);
    hide BracketRest, BracketClosed, Legible;
    if k < n {
      assert s[1..] == "";
      EmptyOpen();
    } else {
      CutStart(t, k);
      PrefixOpen(t[n..], k - n);
    }
    assert !BracketClosed(s[BracketStart(s)..]);
    if Legible(s) {
      LegibleFirst(s);
    }
  }

  lemma EmptyOpen()
    ensures !BracketClosed("")
  {
  }

  /** The tokens of a bracket expression and of what follows it. */
  lemma NamedThen(reading: Reading, t: string, y: string)
    requires NamedText(t) && Legible(t + y)
    ensures Legible(y)
    ensures Lex(reading, t + y, 0, []) == [R.One(AtomOf(reading, t))] + Lex(reading, y, 0, [])
  {
    ElemBracket(t, y);
    assert (t + y)[|t|..] == y;
    LexAtom(reading, t, y, 0, []);
  }

  /** The first token of another copy is an atom. */
  lemma CopyFirst(reading: Reading, v: string, z: string)
    requires PassItem(v) && v[|v| - 1] == ']' && Legible(v + z)
    ensures var ts := Lex(reading, v + z, 0, []); |ts| > 0 && ts[0].One? && |R.Items(ts, 0)| > 0
  {
    LexTurn(reading, v + z, 0, []);
    var t := FirstTurn(reading, v + z, 0, []);
    var rest := Lex(reading, (v + z)[t.n..], t.groups, t.stack);
    assert t.token.One?;
  }

  lemma QuestionFirst(reading: Reading, w: string)
    requires Legible("?" + w)
    ensures Legible(w) && Lex(reading, "?" + w, 0, []) == [R.Question] + Lex(reading, w, 0, [])
  {
    assert ("?" + w)[1..] == w;
  }

  lemma OnlyItem(reading: Reading, t: string, y: string, v: string, z: string)
    requires NamedText(t) && PassItem(v) && v[|v| - 1] == ']' && Legible(t + y) && (y == v + z || y == "?" + (v + z))
    ensures |R.Items(Lex(reading, t + y, 0, []), 0)| >= 2
  {
    NamedThen(reading, t, y);
    var atom := AtomOf(reading, t);
    hide NamedText, PassItem, AtomOf, Legible, R.Items;
    if y == v + z {
      CopyFirst(reading, v, z);
      AtomFirst(atom, Lex(reading, y, 0, []));
    } else {
      QuestionFirst(reading, v + z);
      hide Lex;
      CopyFirst(reading, v, z);
      var rest := Lex(reading, v + z, 0, []);
      assert [R.One(atom)] + ([R.Question] + rest) == [R.One(atom), R.Question] + rest;
      RepeatedFirst(atom, R.Question, rest);
    }
  }

  lemma {:induction false} BracketEnds(r: string)
    requires BracketClosed(r) && BracketRest(r) == |r|
    ensures |r| > 0 && r[|r| - 1] == ']'
    decreases |r|
  {
    BracketNotEmpty(r);
    BracketUnfold(r);
    hide BracketRest, BracketClosed, NamedRest, NamedClosed;
    if AtEscape(r) {
      BracketEnds(r[2..]);
    } else if AtNamed(r) {
      BracketEnds(r[1 + NamedRest(r[1..])..]);
    } else if r[0] != ']' {
      BracketEnds(r[1..]);
    }
  }

  /** Another copy follows when the range does not come to none, ? or *. */
  lemma SurplusShape(v: string, c: Count) returns (z: string)
    requires GoodCount(c) && !Simple(c) && !Vanishes(c) && !Single(c) && OrderedCount(c)
    ensures Surplus(v, c) == v + z || Surplus(v, c) == "?" + (v + z)
  {
    hide Times;
    TimesNone(v);
    match c
    case Exactly(d) =>
      var m := NumberValue(d);
      TimesFirst(v, m - 1);
      z := Times(v, m - 2);
    case AtLeast(d) =>
      var m := NumberValue(d);
      if m == 1 {
        z := "*";
        assert "" + (v + "*") == v + "*";
      } else {
        TimesFirst(v, m - 1);
        z := Times(v, m - 2) + (v + "*");
        Regroup(v, Times(v, m - 2), v + "*");
      }
    case Between(d, e) =>
      var m, n := NumberValue(d), NumberValue(e);
      if m == 0 {
        TimesFirst(v + "?", n - 1);
        z := "?" + Times(v + "?", n - 2);
        Regroup(v, "?", Times(v + "?", n - 2));
      } else if m == 1 {
        TimesFirst(v + "?", n - 1);
        z := "?" + Times(v + "?", n - 2);
        Regroup(v, "?", Times(v + "?", n - 2));
        assert "" + Times(v + "?", n - 1) == Times(v + "?", n - 1);
      } else {
        TimesFirst(v, m - 1);
        z := Times(v, m - 2) + Times(v + "?", n - m);
        Regroup(v, Times(v, m - 2), Times(v + "?", n - m));
      }
  }

  /** The pass keeps a range that comes to none, ? or *. */
  lemma SingleKept(reading: Reading, t: string, v: string, c: Count)
    requires NamedText(t) && GoodCount(c) && !Simple(c) && Single(c)
    ensures !Vanishes(c) && Legible(t + Surplus(v, c))
    ensures R.Items(Lex(reading, t + Surplus(v, c), 0, []), 0) == [ElemItem(CodeSense(reading), t, c)]
  {
    var atom, y := AtomOf(reading, t), Surplus(v, c);
    TimesNone(v);
    TimesNone(v + "?");
    assert y == "" || y == "*" || y == "?";
    if y == "" {
      LexAtom(reading, t, y, 0, []);
      AtomFirst(atom, []);
      assert [R.One(atom)] + [] == [R.One(atom)];
    } else {
      LexSymbol(reading, y[0], "", 0, []);
      assert y == [y[0]] + "";
      LexAtom(reading, t, y, 0, []);
      var q := SymbolToken(y[0]);
      assert [R.One(atom)] + ([q] + []) == [R.One(atom), q] + [];
      RepeatedFirst(atom, q, []);
    }
  }

  lemma BackwardKeepsOne(reading: Reading, t: string, c: Count)
    requires NamedText(t) && GoodCount(c) && !OrderedCount(c) && Legible(t + "")
    ensures R.Items(Lex(reading, t + "", 0, []), 0) != [ElemItem(CodeSense(reading), t, c)]
  {
    var atom := AtomOf(reading, t);
    LexAtom(reading, t, "", 0, []);
    AtomFirst(atom, []);
    assert [R.One(atom)] + [] == [R.One(atom)];
    assert R.Items(Lex(reading, t + "", 0, []), 0) == [JustOne(atom)];
    var item := ElemItem(CodeSense(reading), t, c);
    assert item.min != 1 || item.max != Upto(1);
    assert [JustOne(atom)][0] != [item][0];
  }

  /** The rewritten text is compiled to what the element means. */
  ghost predicate Kept(reading: Reading, t: string, c: Count)
    requires GoodCount(c)
  {
    var s := Ranges(t + RenderCount(c));
    Legible(s) && R.Items(Lex(reading, s, 0, []), 0) == [ElemItem(CodeSense(reading), t, c)]
  }

  /** The same for a text that is the bracket expression and a surplus. */
  lemma SurplusKeptIff(reading: Reading, t: string, v: string, c: Count)
    requires NamedText(t) && PassItem(v) && v[|v| - 1] == ']' && GoodCount(c) && !Simple(c) && !Vanishes(c)
    ensures var s := t + Surplus(v, c);
            Legible(s) && R.Items(Lex(reading, s, 0, []), 0) == [ElemItem(CodeSense(reading), t, c)] <==> Single(c)
  {
    hide Lex, Legible, R.Items, NamedText, PassItem, Surplus;
    if Single(c) {
      SingleKept(reading, t, v, c);
    } else if !OrderedCount(c) {
      SurplusBackward(v, c);
      if Legible(t + "") {
        BackwardKeepsOne(reading, t, c);
      }
    } else {
      var z := SurplusShape(v, c);
      if Legible(t + Surplus(v, c)) {
        OnlyItem(reading, t, Surplus(v, c), v, z);
      }
    }
  }

  lemma NamedEnds(u: string, v: string)
    requires NamedText(u + v) && PassItem(v)
    ensures v[|v| - 1] == ']'
  {
    var t := u + v;
    hide BracketRest, BracketClosed, OpensNamed, PassText;
    BracketEnds(t[BracketStart(t)..]);
    assert t[|t| - 1] == v[|v| - 1];
  }

  /** A bracket expression with named classes keeps a range exactly when it comes to none, ? or *. */
  lemma NamedRangeKeptIff(reading: Reading, u: string, v: string, c: Count)
    requires NamedText(u + v) && |u| > 0 && PassText(u) && PassItem(v) && GoodCount(c) && !Simple(c)
    ensures Kept(reading, u + v, c) <==> Single(c)
  {
    var t := u + v;
    assert |v| > 0 && BracketText(t);
    hide Lex, Legible, Ranges, R.Items, NamedText, PassItem, PassText, BracketText, Surplus, Rewritten;
    NamedEnds(u, v);
    NamedRangeCut(u, v, c);
    RewrittenSurplus(v, c);
    if Vanishes(c) {
      assert u + "" == u == t[..|u|];
      CutShort(t, |u|);
    } else {
      Regroup(u, v, Surplus(v, c));
      SurplusKeptIff(reading, t, v, c);
    }
  }

  lemma SurplusBackward(v: string, c: Count)
    requires GoodCount(c) && !Simple(c) && !OrderedCount(c)
    ensures !Vanishes(c) && Surplus(v, c) == ""
  {
  }

  /** The name of a class. */
  predicate Word(name: string) {
    forall k :: 0 <= k < |name| ==> 'a' <= name[k] <= 'z'
  }

  lemma {:induction false} NameCloses(name: string)
    requires Word(name)
    ensures ClosesClass(name + ":]")
  {
    if |name| == 0 {
      assert name + ":]" == ":]";
      assert ":]"[1..] == "]";
    } else {
      NameCloses(name[1..]);
      assert (name + ":]")[1..] == name[1..] + ":]";
    }
  }

  lemma {:induction false} NameEnds(name: string, x: string)
    requires Word(name)
    ensures NamedClosed(name + (":]" + x)) && NamedRest(name + (":]" + x)) == |name| + 2
  {
    var s := name + (":]" + x);
    if |name| == 0 {
      assert s == ":]" + x;
    } else {
      NameEnds(name[1..], x);
      assert s[1..] == name[1..] + (":]" + x);
    }
  }

  /** The text [[:name:] without the last bracket. */
  function Front(name: string): string {
    "[[:" + name + ":]"
  }

  lemma FrontPasses(name: string)
    requires Word(name)
    ensures PassItem(Front(name)) && PassText(Front(name)) && PassItem("]")
    ensures PassText(Front(name) + "]") && NoParens(Front(name) + "]")
  {
    var u := Front(name);
    NameCloses(name);
    assert u[1..][1..][1..] == name + ":]";
    assert ClosesClass(u[1..][1..]) && ClosesClass(u[1..]);
    assert NoParens(u);
    assert PassItem(u);
    ItemOfAtom(u, "");
    assert u + "" == u && u[..|u|] == u && u[|u|..] == "";
    ItemOfAtom(u, "]");
    assert (u + "]")[..|u|] == u && (u + "]")[|u|..] == "]";
    assert ItemLen("]") == 1 && "]"[..1] == "]" && "]"[1..] == "";
    assert PassText("]");
  }

  lemma FrontBracket(name: string)
    requires Word(name)
    ensures BracketText(Front(name) + "]") && OpensNamed((Front(name) + "]")[1..])
  {
    var t := Front(name) + "]";
    var r := t[1..];
    assert BracketStart(t) == 1;
    assert r[1..][1..] == name + (":]" + "]");
    NameEnds(name, "]");
    assert NamedClosed(r[1..]) && NamedRest(r[1..]) == |name| + 3;
    assert r[1 + NamedRest(r[1..])..] == "]";
    BracketUnfold(r);
    BracketUnfold("]");
  }

  /** A named class alone in brackets, such as [[:alpha:]], with a range: kept exactly for {1}, {1,1}, {0,1} and {0,}. */
  lemma NamedAlone(reading: Reading, name: string, c: Count)
    requires Word(name) && GoodCount(c) && !Simple(c)
    ensures NamedText(Front(name) + "]") && (Kept(reading, Front(name) + "]", c) <==> Single(c))
    ensures Ranges((Front(name) + "]") + RenderCount(c)) == Front(name) + Rewritten("]", c)
  {
    FrontPasses(name);
    FrontBracket(name);
    hide PassText, PassItem, BracketText, OpensNamed, Kept, Ranges, Rewritten, Front;
    assert NamedText(Front(name) + "]");
    FrontLong(name);
    NamedRangeKeptIff(reading, Front(name), "]", c);
    NamedRangeCut(Front(name), "]", c);
  }

  lemma FrontLong(name: string)
    ensures |Front(name)| > 0
  {
  }

  /** [[:alpha:]]{2} becomes one letter and a closing bracket. */
  lemma AlphaTwice(reading: Reading)
    ensures Ranges((Front("alpha") + "]") + RenderCount(Exactly("2"))) == Front("alpha") + "]]"
    ensures !Kept(reading, Front("alpha") + "]", Exactly("2"))
  {
    var c := Exactly("2");
    assert "2"[1..] == "" && NumberValue("2") == 2;
    NamedAlone(reading, "alpha", c);
    RewrittenSurplus("]", c);
    hide Ranges, Kept;
    assert Times("]", 1) == "" + "]" == "]";
    assert "]" + "]" == "]]";
  }

  // ---- Bars ----

  /** A bar after text the passes read through splits, also inside a bracket expression as compile_single sees it. */
  lemma BarSplits(u: string, x: string)
    requires PassText(u)
    ensures Segments(u + ("|" + x), "", 0, false) == [u] + Segments(x, "", 0, false)
  {
    SegmentsText(u, "|" + x, "", 0);
    assert "" + u == u;
    assert ("|" + x)[1..] == x;
  }

  // ---- Captures ----

  predicate Marks(t: R.Token) {
    t.Open? || t.Close?
  }

  /** Every capture that matchpattern can record has its place: regexec allots nsub + 1, or none at all for nsub 0. */
  ghost predicate CapturesFit(p: Program) {
    p.nsub == 0 || forall a :: 0 <= a < |p.alts| ==> Within(p.alts[a], p.nsub)
  }

  ghost predicate Within(ts: seq<R.Token>, m: nat) {
    forall k :: 0 <= k < |ts| && Marks(ts[k]) ==> ts[k].group <= m
  }

  lemma {:induction false} OpenTokensCons(t: R.Token, ts: seq<R.Token>)
    ensures OpenTokens([t] + ts) == (if t.Open? then 1 else 0) + OpenTokens(ts)
  {
    var all := [t] + ts;
    if |ts| == 0 {
      assert all[..0] == [] && all == [t];
    } else {
      var n := |ts| - 1;
      assert all[..|all| - 1] == [t] + ts[..n];
      OpenTokensCons(t, ts[..n]);
    }
  }

  /** The groups that are open and those to come are numbered through. */
  lemma {:induction false} GroupNumbers(reading: Reading, s: string, groups: nat, stack: seq<nat>, m: nat)
    requires Legible(s) && forall k :: 0 <= k < |stack| ==> stack[k] <= groups
    ensures var ts := Lex(reading, s, groups, stack);
            groups <= m ==> (Within(ts, m) <==> groups + OpenTokens(ts) <= m)
    decreases |s|
  {
    if |s| > 0 {
      LexTurn(reading, s, groups, stack);
      var t := FirstTurn(reading, s, groups, stack);
      var rest := Lex(reading, s[t.n..], t.groups, t.stack);
      assert t.token.Open? ==> t.token.group == t.groups;
      assert t.token.Close? ==> t.token.group <= groups;
      assert forall k :: 0 <= k < |t.stack| ==> t.stack[k] <= t.groups;
      GroupNumbers(reading, s[t.n..], t.groups, t.stack, m);
      OpenTokensCons(t.token, rest);
      hide Lex, Legible, FirstTurn;
      WithinCons(t.token, rest, m);
    }
  }

  lemma WithinCons(t: R.Token, ts: seq<R.Token>, m: nat)
    ensures Within([t] + ts, m) <==> (Marks(t) ==> t.group <= m) && Within(ts, m)
  {
    var all := [t] + ts;
    if Within(all, m) {
      assert all[0] == t;
      forall k | 0 <= k < |ts| && Marks(ts[k])
        ensures ts[k].group <= m
      {
        assert all[k + 1] == ts[k];
      }
    }
  }

  /** The captures of a compiled pattern fit exactly when the last alternative has no groups or none has more. */
  lemma CapturesFitIff(reading: Reading, texts: seq<string>)
    requires AllLegible(texts) && |texts| > 0
    ensures var alts := LexAll(reading, texts);
            var p := Program(alts, OpenTokens(alts[|alts| - 1]));
            CapturesFit(p) <==> p.nsub == 0 || forall a :: 0 <= a < |alts| ==> OpenTokens(alts[a]) <= p.nsub
  {
    var alts := LexAll(reading, texts);
    var nsub := OpenTokens(alts[|alts| - 1]);
    forall a | 0 <= a < |alts|
      ensures Within(alts[a], nsub) <==> OpenTokens(alts[a]) <= nsub
    {
      GroupNumbers(reading, texts[a], 0, [], nsub);
    }
  }

  lemma {:induction false} BranchOpens(sense: Sense, b: Branch, groups: nat, stack: seq<nat>)
    requires PlainBranch(b) && groups <= MAX_GROUPS
    ensures OpenTokens(BranchTokens(sense, b, groups, stack)) ==
            if groups + Opens(b) <= MAX_GROUPS then Opens(b) else MAX_GROUPS - groups
    decreases |b|
  {
    if |b| > 0 {
      assert PlainPiece(b[0]);
      var rest := b[1..];
      match b[0] {
        case Unit(n) =>
          BranchOpens(sense, rest, groups, stack);
          UnitOpens(sense, n, BranchTokens(sense, rest, groups, stack));
        case OpenParen =>
          var g, s := if groups < MAX_GROUPS then groups + 1 else groups, if groups < MAX_GROUPS then stack + [groups + 1] else stack;
          BranchOpens(sense, rest, g, s);
          OpenTokensCons(if groups < MAX_GROUPS then R.Open(groups + 1) else R.One(Char('(')), BranchTokens(sense, rest, g, s));
        case CloseParen =>
          var s := if |stack| > 0 then stack[..|stack| - 1] else stack;
          BranchOpens(sense, rest, groups, s);
          OpenTokensCons(if |stack| > 0 then R.Close(stack[|stack| - 1]) else R.One(Char(')')), BranchTokens(sense, rest, groups, s));
      }
    }
  }

  lemma UnitOpens(sense: Sense, n: Node, ts: seq<R.Token>)
    requires !n.Group? && GoodNode(n, false)
    ensures OpenTokens(UnitTokens(sense, n) + ts) == OpenTokens(ts)
  {
    var us := UnitTokens(sense, n);
    if |us| == 1 {
      OpenTokensCons(us[0], ts);
      assert us + ts == [us[0]] + ts;
    } else {
      OpenTokensCons(us[1], ts);
      OpenTokensCons(us[0], [us[1]] + ts);
      assert us + ts == [us[0]] + ([us[1]] + ts);
    }
  }

  function LastBranch(a: Alts): Branch
    requires GoodAlts(a, true) && |Branches(UnrolledAlts(a))| > 0
  {
    var bs := Branches(UnrolledAlts(a));
    bs[|bs| - 1]
  }

  /** The captures of a pattern fit exactly when its last branch has no groups or as many as any branch. */
  lemma PatternCaptures(reading: Reading, a: Alts)
    requires GoodAlts(a, true) && OrderedAlts(a) && MostGroups(a) <= MAX_GROUPS
    ensures AllLegible(Alternatives(Ranges(RenderAlts(a)))) && |Branches(UnrolledAlts(a))| > 0
    ensures var alts := LexAll(reading, Alternatives(Ranges(RenderAlts(a))));
            var last := Opens(LastBranch(a));
            CapturesFit(Program(alts, OpenTokens(alts[|alts| - 1]))) <==> last == 0 || MostGroups(a) <= last
  {
    CompiledTexts(a);
    FlatBranches(a);
    hide Alternatives, Ranges, Legible, Branches, Lex, CapturesFit, UnrolledAlts, MostGroups, AllReady, LexAll, Opens;
    PeakNotEmpty(Branches(UnrolledAlts(a)), MostGroups(a));
    BranchCaptures(reading, Branches(UnrolledAlts(a)), MostGroups(a));
  }

  lemma PeakNotEmpty(bs: seq<Branch>, m: nat)
    requires Peak(bs, m)
    ensures |bs| > 0
  {
  }

  lemma BranchCaptures(reading: Reading, bs: seq<Branch>, m: nat)
    requires |bs| > 0 && AllReady(bs) && Peak(bs, m) && m <= MAX_GROUPS
    ensures AllLegible(Texts(bs))
    ensures var alts := LexAll(reading, Texts(bs));
            var last := Opens(bs[|bs| - 1]);
            CapturesFit(Program(alts, OpenTokens(alts[|alts| - 1]))) <==> last == 0 || m <= last
  {
    hide Legible, Lex, CapturesFit, Ready, Opens, OpenTokens, BranchText;
    forall k | 0 <= k < |bs|
      ensures Legible(BranchText(bs[k])) && OpenTokens(Lex(reading, BranchText(bs[k]), 0, [])) == Opens(bs[k])
    {
      TextOpens(reading, bs[k]);
    }
    CapturesFitIff(reading, Texts(bs));
    var k :| 0 <= k < |bs| && Opens(bs[k]) == m;
    assert OpenTokens(LexAll(reading, Texts(bs))[k]) == m;
  }

  lemma TextOpens(reading: Reading, b: Branch)
    requires Ready(b) && Opens(b) <= MAX_GROUPS
    ensures Legible(BranchText(b)) && OpenTokens(Lex(reading, BranchText(b), 0, [])) == Opens(b)
  {
    LexBranch(reading, b, 0, []);
    BranchOpens(CodeSense(reading), b, 0, []);
  }

  function Grouped(letter: string): Node {
    Group(Only(Cons(Elem(letter, Once), Nil)))
  }

  /** (a)(b)|(c). */
  const TWO_THEN_ONE := Either(Cons(Grouped("a"), Cons(Grouped("b"), Nil)), Only(Cons(Grouped("c"), Nil)))

  lemma CrossOne(c: Branch, b: Branch)
    ensures BranchCross([c], [b]) == [Enclosed(c, b)]
  {
    assert [c][..0] == [];
    assert BranchRow(c, [b]) == [Enclosed(c, b)];
  }

  lemma LetterBranch(n: Node)
    requires !n.Group?
    ensures Branches(Only(Cons(n, Nil))) == [[Unit(n)]]
  {
    var start: seq<Branch> := [[]];
    assert start[0] + [Unit(n)] == [Unit(n)];
    assert BranchNodes(Cons(n, Nil), start) == BranchNodes(Nil, Grown(start, n)) == Grown(start, n);
    assert Grown(start, n) == [[Unit(n)]];
  }

  lemma GroupedBranches(letter: string)
    ensures Branches(Only(Cons(Grouped(letter), Nil))) == [Enclosed([], [Unit(Elem(letter, Once))])]
  {
    var n := Elem(letter, Once);
    var start: seq<Branch> := [[]];
    LetterBranch(n);
    CrossOne([], [Unit(n)]);
    hide BranchCross, Enclosed;
    assert BranchNodes(Cons(Grouped(letter), Nil), start) == BranchNodes(Nil, BranchCross(start, [[Unit(n)]]));
  }

  lemma GroupedGood(letter: string)
    requires AtomText(letter)
    ensures GoodNode(Grouped(letter), true) && GoodNode(Grouped(letter), false)
    ensures RenderNode(Grouped(letter)) == "(" + letter + ")" && MostGroups(Only(Cons(Grouped(letter), Nil))) == 1
  {
    var ns := Cons(Elem(letter, Once), Nil);
    LetterNodes(letter);
    hide RenderNodes, NodeGroups, GoodNodes;
    assert GoodAlts(Only(ns), false) && RenderAlts(Only(ns)) == letter && MostGroups(Only(ns)) == 0;
    OnlyGroup(Grouped(letter));
  }

  lemma OnlyGroup(n: Node)
    requires n.Group?
    ensures MostGroups(Only(Cons(n, Nil))) == 1 + MostGroups(n.body)
  {
    assert NodeGroups(Nil) == 0;
  }

  lemma LetterNodes(letter: string)
    requires AtomText(letter)
    ensures var ns := Cons(Elem(letter, Once), Nil);
            GoodNodes(ns, false) && RenderNodes(ns) == letter && NodeGroups(ns) == 0
  {
    var n := Elem(letter, Once);
    assert GoodNode(n, false) && GoodNodes(Nil, false);
    assert NodeGroups(Nil) == 0 && RenderNodes(Nil) == "" && RenderNode(n) == letter + "" == letter;
  }

  lemma OneGroup(letter: string, rest: Nodes)
    requires AtomText(letter) && GoodNodes(rest, true) && Ordered(rest)
    ensures var ns := Cons(Grouped(letter), rest);
            && GoodNodes(ns, true) && Ordered(ns) && NodeGroups(ns) == 1 + NodeGroups(rest)
            && RenderNodes(ns) == "(" + letter + ")" + RenderNodes(rest) && Unrolled(ns) == Cons(Grouped(letter), Unrolled(rest))
  {
    GroupedGood(letter);
  }

  lemma TwoThenOneGood()
    ensures GoodAlts(TWO_THEN_ONE, true) && RenderAlts(TWO_THEN_ONE) == "(a)(b)|(c)"
    ensures OrderedAlts(TWO_THEN_ONE) && UnrolledAlts(TWO_THEN_ONE) == TWO_THEN_ONE && MostGroups(TWO_THEN_ONE) == 2
  {
    assert GoodNodes(Nil, true) && Ordered(Nil) && NodeGroups(Nil) == 0 && RenderNodes(Nil) == "" && Unrolled(Nil) == Nil;
    hide GoodNodes, Ordered, NodeGroups, RenderNodes, Unrolled, Grouped;
    OneGroup("c", Nil);
    OneGroup("b", Nil);
    OneGroup("a", Cons(Grouped("b"), Nil));
    assert RenderAlts(TWO_THEN_ONE) == ("(" + "a" + ")" + ("(" + "b" + ")" + "")) + "|" + ("(" + "c" + ")" + "");
    TwoThenOneText();
  }

  lemma TwoThenOneText()
    ensures ("(" + "a" + ")" + ("(" + "b" + ")" + "")) + "|" + ("(" + "c" + ")" + "") == "(a)(b)|(c)"
  {
  }

  /** In (a)(b)|(c) the second group of the first alternative has no place. */
  lemma TwoThenOne(reading: Reading)
    ensures GoodAlts(TWO_THEN_ONE, true) && RenderAlts(TWO_THEN_ONE) == "(a)(b)|(c)"
    ensures AllLegible(Alternatives(Ranges("(a)(b)|(c)")))
    ensures var alts := LexAll(reading, Alternatives(Ranges("(a)(b)|(c)")));
            !CapturesFit(Program(alts, OpenTokens(alts[|alts| - 1])))
  {
    TwoThenOneGood();
    var end: Branch := [Unit(Elem("c", Once))];
    GroupedBranches("c");
    EnclosedOpens([], end);
    assert end[1..] == [] && Opens(end) == 0 && Opens([]) == 0;
    LastOfEither(Cons(Grouped("a"), Cons(Grouped("b"), Nil)), Only(Cons(Grouped("c"), Nil)));
    hide Alternatives, Ranges, GoodAlts, OrderedAlts, RenderAlts, CapturesFit, LexAll, Branches, UnrolledAlts, MostGroups, Enclosed, Opens, Legible;
    PatternCaptures(reading, TWO_THEN_ONE);
  }

  lemma LastOfEither(ns: Nodes, others: Alts)
    requires |Branches(others)| > 0
    ensures var bs, cs := Branches(Either(ns, others)), Branches(others); |bs| > 0 && bs[|bs| - 1] == cs[|cs| - 1]
  {
  }
}
