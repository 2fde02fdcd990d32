/**
 * What compile_single makes of the text of a branch: the text of an element
 * becomes the token of its atom, and parentheses become group marks as long as
 * there are no more than nine.
 */
module RegexLexProof {
  import opened RegexLanguage
  import opened RegexScan
  import opened RegexSyntax
  import opened RegexRanges
  import opened RegexRangesProof
  import opened RegexAlts
  import opened RegexAltsProof
  import opened RegexTokens
  import R = Regex

  // ---- Bracket expressions ----

  lemma {:induction false} NamedStable(r: string, x: string)
    requires NamedClosed(r)
    ensures NamedClosed(r + x) && NamedRest(r + x) == NamedRest(r)
  {
    if !(r[0] == ':' && r[1] == ']') {
      assert (r + x)[1..] == r[1..] + x;
      NamedStable(r[1..], x);
    }
  }

  /** Where a bracket expression ends does not depend on what follows it. */
  lemma {:induction false} BracketStable(r: string, x: string)
    requires BracketClosed(r)
    ensures BracketClosed(r + x) && BracketRest(r + x) == BracketRest(r)
    decreases |r|
  {
    BracketNotEmpty(r);
    BracketUnfold(r);
    if r[0] != ']' {
      assert |r| >= 2;
      hide BracketRest, BracketClosed, NamedRest, NamedClosed;
      Heads(r, x);
      BracketUnfold(r + x);
      hide AtEscape, AtNamed;
      if AtEscape(r) {
        Tails(r, x, 2);
        BracketStable(r[2..], x);
      } else if AtNamed(r) {
        Tails(r, x, 1);
        NamedStable(r[1..], x);
        Tails(r, x, 1 + NamedRest(r[1..]));
        BracketStable(r[1 + NamedRest(r[1..])..], x);
      } else {
        Tails(r, x, 1);
        BracketStable(r[1..], x);
      }
    }
  }

  lemma Heads(r: string, x: string)
    requires |r| >= 2
    ensures (AtEscape(r + x) <==> AtEscape(r)) && (AtNamed(r + x) <==> AtNamed(r)) && (r + x)[0] == r[0]
  {
  }

  lemma Tails(r: string, x: string, n: nat)
    requires n <= |r|
    ensures (r + x)[n..] == r[n..] + x
  {
  }

  /** Without a named class compile_single ends a bracket expression where the passes do. */
  lemma {:induction false} CutsAgree(r: string, x: string)
    requires ClosesClass(r) && !OpensNamed(r)
    ensures BracketClosed(r + x) && BracketRest(r + x) == |r|
  {
    var s := r + x;
    if r[0] == '\\' {
      assert s[2..] == r[2..] + x;
      CutsAgree(r[2..], x);
    } else if r[0] != ']' {
      assert s[1..] == r[1..] + x;
      assert |r| >= 2 && s[1] == r[1];
      CutsAgree(r[1..], x);
    }
  }

  /** A named class swallows the bracket at which the passes stop. */
  lemma {:induction false} NamedReaches(r: string, x: string)
    requires ClosesClass(r)
    ensures NamedRest(r + x) >= |r|
  {
    var s := r + x;
    if r[0] == '\\' {
      assert s[1..][1..] == r[2..] + x;
      NamedReaches(r[2..], x);
    } else if r[0] != ']' {
      assert s[1..] == r[1..] + x;
      NamedReaches(r[1..], x);
    }
  }

  lemma {:induction false} CutsDiffer(r: string, x: string)
    requires ClosesClass(r) && OpensNamed(r) && BracketClosed(r + x)
    ensures BracketRest(r + x) > |r|
  {
    var s := r + x;
    if r[0] == '\\' {
      assert s[2..] == r[2..] + x;
      CutsDiffer(r[2..], x);
    } else if r[0] == '[' && |r| >= 2 && r[1] == ':' {
      assert s[1..] == r[1..] + x;
      NamedReaches(r[1..], x);
      ClosedTakes(s[1 + NamedRest(s[1..])..]);
    } else {
      assert s[1..] == r[1..] + x;
      assert |r| >= 2 && s[1] == r[1];
      CutsDiffer(r[1..], x);
    }
  }

  /** What the passes take for a bracket expression is one for compile_single exactly when no named class opens in it. */
  lemma CutsAgreeIff(r: string, x: string)
    requires ClosesClass(r)
    ensures BracketClosed(r + x) && BracketRest(r + x) == |r| <==> !OpensNamed(r)
  {
    if OpensNamed(r) {
      if BracketClosed(r + x) {
        CutsDiffer(r, x);
      }
    } else {
      CutsAgree(r, x);
    }
  }

  // ---- Elements ----

  /** What the code reads an element's text as. */
  function AtomOf(reading: Reading, t: string): Atom {
    if |t| == 1 then if t[0] == '.' then Dot else Char(t[0])
    else if |t| == 2 && t[0] == '\\' then EscapeAtom(t[1])
    else if |t| > BracketStart(t) then BracketAtom(reading, t)
    else Dot
  }

  function CodeSense(reading: Reading): Sense {
    t => AtomOf(reading, t)
  }

  /** The bracket expressions of both kinds are bracket expressions of compile_single. */
  lemma ElemBracket(t: string, x: string)
    requires t != [] && t[0] == '[' && (AtomText(t) || NamedText(t))
    ensures |t| > BracketStart(t) == BracketStart(t + x)
    ensures var r := (t + x)[BracketStart(t)..]; BracketClosed(r) && BracketStart(t) + BracketRest(r) == |t|
  {
    var n := BracketStart(t);
    assert (t + x)[n..] == t[n..] + x;
    if NamedText(t) {
      BracketStable(t[n..], x);
    } else {
      if n == 2 {
        assert t[1..][1..] == t[2..];
      }
      CutsAgree(t[n..], x);
    }
  }

  /** The text of an element's atom becomes one token. */
  lemma LexAtom(reading: Reading, t: string, x: string, groups: nat, stack: seq<nat>)
    requires (AtomText(t) || NamedText(t)) && Legible(x)
    ensures Legible(t + x)
    ensures Lex(reading, t + x, groups, stack) == [R.One(AtomOf(reading, t))] + Lex(reading, x, groups, stack)
  {
    var s := t + x;
    if t[0] == '[' {
      ElemBracket(t, x);
      assert s[|t|..] == x && s[..|t|] == t;
    } else if |t| == 1 {
      assert s[1..] == x;
    } else {
      assert s[2..] == x;
    }
  }

  lemma LexSymbol(reading: Reading, c: char, x: string, groups: nat, stack: seq<nat>)
    requires c !in "\\[()" && Legible(x)
    ensures Legible([c] + x)
    ensures Lex(reading, [c] + x, groups, stack) == [SymbolToken(c)] + Lex(reading, x, groups, stack)
  {
    assert ([c] + x)[1..] == x;
  }

  // ---- Branches ----

  /** No range is left in the piece. */
  predicate PlainPiece(p: Piece) {
    p.Unit? ==> !p.node.Group? && GoodNode(p.node, false)
  }

  predicate PlainBranch(b: Branch) {
    forall k :: 0 <= k < |b| ==> PlainPiece(b[k])
  }

  /** The tokens of an element or anchor without a range. */
  function UnitTokens(sense: Sense, n: Node): (ts: seq<R.Token>)
    requires !n.Group? && GoodNode(n, false)
    ensures |ts| > 0
  {
    match n
    case Anchor(start) => [if start then R.Begin else R.End]
    case Elem(t, c) => [R.One(sense(t))] + CountTokens(c)
  }

  function CountTokens(c: Count): seq<R.Token> {
    match c
    case Optional => [R.Question]
    case Many => [R.Star]
    case AtLeastOne => [R.Plus]
    case _ => []
  }

  /** The tokens of a branch, after some groups of which those on the stack are open. */
  function BranchTokens(sense: Sense, b: Branch, groups: nat, stack: seq<nat>): seq<R.Token>
    requires PlainBranch(b)
  {
    if |b| == 0 then []
    else
      var rest := b[1..];
      match b[0]
      case Unit(n) => assert PlainPiece(b[0]); UnitTokens(sense, n) + BranchTokens(sense, rest, groups, stack)
      case OpenParen =>
        if groups < MAX_GROUPS then
          [R.Open(groups + 1)] + BranchTokens(sense, rest, groups + 1, stack + [groups + 1])
        else [R.One(Char('('))] + BranchTokens(sense, rest, groups, stack)
      case CloseParen =>
        if |stack| > 0 then
          [R.Close(stack[|stack| - 1])] + BranchTokens(sense, rest, groups, stack[..|stack| - 1])
        else [R.One(Char(')'))] + BranchTokens(sense, rest, groups, stack)
  }

  lemma OpenStep(sense: Sense, rest: Branch, groups: nat, stack: seq<nat>)
    requires PlainBranch(rest)
    ensures PlainBranch([OpenParen] + rest)
    ensures groups < MAX_GROUPS ==>
              BranchTokens(sense, [OpenParen] + rest, groups, stack) ==
              [R.Open(groups + 1)] + BranchTokens(sense, rest, groups + 1, stack + [groups + 1])
    ensures groups >= MAX_GROUPS ==>
              BranchTokens(sense, [OpenParen] + rest, groups, stack) ==
              [R.One(Char('('))] + BranchTokens(sense, rest, groups, stack)
  {
    assert ([OpenParen] + rest)[1..] == rest;
  }

  lemma CloseStep(sense: Sense, rest: Branch, groups: nat, stack: seq<nat>)
    requires PlainBranch(rest)
    ensures PlainBranch([CloseParen] + rest)
    ensures |stack| > 0 ==>
              BranchTokens(sense, [CloseParen] + rest, groups, stack) ==
              [R.Close(stack[|stack| - 1])] + BranchTokens(sense, rest, groups, stack[..|stack| - 1])
    ensures |stack| == 0 ==>
              BranchTokens(sense, [CloseParen] + rest, groups, stack) ==
              [R.One(Char(')'))] + BranchTokens(sense, rest, groups, stack)
  {
    assert ([CloseParen] + rest)[1..] == rest;
  }

  lemma LexCount(reading: Reading, c: Count, x: string, groups: nat, stack: seq<nat>)
    requires Simple(c) && Legible(x)
    ensures Legible(RenderCount(c) + x)
    ensures Lex(reading, RenderCount(c) + x, groups, stack) == CountTokens(c) + Lex(reading, x, groups, stack)
  {
    hide Lex, Legible;
    if c.Once? {
      assert RenderCount(c) + x == x;
    } else {
      LexSymbol(reading, RenderCount(c)[0], x, groups, stack);
      assert RenderCount(c) == [RenderCount(c)[0]];
    }
  }

  lemma LexUnit(reading: Reading, n: Node, x: string, groups: nat, stack: seq<nat>)
    requires !n.Group? && GoodNode(n, false) && Legible(x)
    ensures Legible(RenderNode(n) + x)
    ensures Lex(reading, RenderNode(n) + x, groups, stack) ==
            UnitTokens(CodeSense(reading), n) + Lex(reading, x, groups, stack)
  {
    hide Lex, Legible, AtomText, NamedText, AtomOf, RenderCount;
    match n
    case Anchor(start) =>
      LexSymbol(reading, if start then '^' else '$', x, groups, stack);
    case Elem(t, c) =>
      var q := RenderCount(c);
      Regroup(t, q, x);
      LexCount(reading, c, x, groups, stack);
      LexAtom(reading, t, q + x, groups, stack);
  }

  lemma TextOne(p: Piece)
    ensures BranchText([p]) == PieceText(p)
  {
    assert [p][..0] == [];
    assert "" + PieceText(p) == PieceText(p);
  }

  lemma TextFirst(b: Branch)
    requires |b| > 0
    ensures BranchText(b) == PieceText(b[0]) + BranchText(b[1..])
  {
    hide BranchText, PieceText;
    assert [b[0]] + b[1..] == b;
    BranchTextConcat([b[0]], b[1..]);
    TextOne(b[0]);
  }

  /** compile_single turns the text of a branch into the tokens of the branch. */
  lemma {:induction false} LexBranch(reading: Reading, b: Branch, groups: nat, stack: seq<nat>)
    requires PlainBranch(b)
    ensures Legible(BranchText(b))
    ensures Lex(reading, BranchText(b), groups, stack) == BranchTokens(CodeSense(reading), b, groups, stack)
    decreases |b|
  {
    if |b| > 0 {
      var rest := b[1..];
      var x := BranchText(rest);
      TextFirst(b);
      assert PlainPiece(b[0]);
      match b[0] {
        case Unit(n) =>
          LexBranch(reading, rest, groups, stack);
          hide Lex, Legible;
          LexUnit(reading, n, x, groups, stack);
        case OpenParen =>
          LexBranch(reading, rest, groups + 1, stack + [groups + 1]);
          LexBranch(reading, rest, groups, stack);
          assert ("(" + x)[1..] == x;
        case CloseParen =>
          LexBranch(reading, rest, groups, if |stack| > 0 then stack[..|stack| - 1] else stack);
          assert (")" + x)[1..] == x;
      }
    }
  }

  // ---- What the tokens of a branch mean ----

  lemma {:induction false} ItemsShift(x: seq<R.Token>, y: seq<R.Token>, p: nat)
    requires p <= |y|
    ensures R.Items(x + y, |x| + p) == R.Items(y, p)
    decreases |y| - p
  {
    if p < |y| {
      ItemsShift(x, y, p + 1);
      if p + 1 < |y| {
        ItemsShift(x, y, p + 2);
      }
    }
  }

  predicate Starts(ts: seq<R.Token>) {
    |ts| > 0 ==> !R.Quantifier(ts[0])
  }

  lemma AtomFirst(a: Atom, rest: seq<R.Token>)
    requires Starts(rest)
    ensures R.Items([R.One(a)] + rest, 0) == [Rep(a, 1, Upto(1))] + R.Items(rest, 0)
  {
    ItemsShift([R.One(a)], rest, 0);
  }

  lemma RepeatedFirst(a: Atom, q: R.Token, rest: seq<R.Token>)
    requires R.Quantifier(q)
    ensures R.Items([R.One(a), q] + rest, 0) == [R.Repeated(a, q)] + R.Items(rest, 0)
  {
    ItemsShift([R.One(a), q], rest, 0);
  }

  lemma MarkFirst(x: R.Token, rest: seq<R.Token>)
    requires x.Open? || x.Close? || x.Begin? || x.End?
    ensures R.Items([x] + rest, 0) == (if x.Begin? then [AtStart] else if x.End? then [AtEnd] else []) + R.Items(rest, 0)
  {
    ItemsShift([x], rest, 0);
  }

  lemma UnitFirst(sense: Sense, n: Node, rest: seq<R.Token>)
    requires !n.Group? && GoodNode(n, false) && GoodPiece(Unit(n)) && Starts(rest)
    ensures R.Items(UnitTokens(sense, n) + rest, 0) == PieceItems(sense, Unit(n)) + R.Items(rest, 0)
  {
    hide R.Items;
    if n.Elem? {
      var atom, q := sense(n.text), CountTokens(n.count);
      if |q| == 0 {
        assert [R.One(atom)] + q == [R.One(atom)];
        AtomFirst(atom, rest);
      } else {
        assert [R.One(atom)] + q == [R.One(atom), q[0]];
        RepeatedFirst(atom, q[0], rest);
      }
    } else {
      MarkFirst(UnitTokens(sense, n)[0], rest);
    }
  }

  /** The first token of a branch is no quantifier, and every quantifier follows an atom. */
  lemma {:induction false} TokensFit(sense: Sense, b: Branch, groups: nat, stack: seq<nat>)
    requires PlainBranch(b)
    ensures var ts := BranchTokens(sense, b, groups, stack); R.WellFormed(ts) && Starts(ts)
    decreases |b|
  {
    if |b| > 0 {
      assert PlainPiece(b[0]);
      var rest := b[1..];
      match b[0] {
        case Unit(n) =>
          TokensFit(sense, rest, groups, stack);
          FitJoin(UnitTokens(sense, n), BranchTokens(sense, rest, groups, stack));
        case OpenParen =>
          var g, s := if groups < MAX_GROUPS then groups + 1 else groups, if groups < MAX_GROUPS then stack + [groups + 1] else stack;
          TokensFit(sense, rest, g, s);
          FitJoin([BranchTokens(sense, b, groups, stack)[0]], BranchTokens(sense, rest, g, s));
        case CloseParen =>
          var s := if |stack| > 0 then stack[..|stack| - 1] else stack;
          TokensFit(sense, rest, groups, s);
          FitJoin([BranchTokens(sense, b, groups, stack)[0]], BranchTokens(sense, rest, groups, s));
      }
    }
  }

  lemma FitJoin(x: seq<R.Token>, y: seq<R.Token>)
    requires R.WellFormed(x) && R.WellFormed(y) && |x| > 0 && Starts(x) && Starts(y)
    ensures R.WellFormed(x + y) && Starts(x + y)
  {
    forall p | 0 <= p < |x + y| && R.Quantifier((x + y)[p])
      ensures p > 0 && (x + y)[p - 1].One?
    {
      if p >= |x| {
        assert R.Quantifier(y[p - |x|]);
      } else {
        assert R.Quantifier(x[p]);
      }
    }
  }

  /** How many groups a branch opens. */
  function Opens(b: Branch): nat {
    if |b| == 0 then 0 else (if b[0].OpenParen? then 1 else 0) + Opens(b[1..])
  }

  /** Every closing parenthesis has an opening one, given how many are open. */
  predicate Closes(b: Branch, depth: nat) {
    |b| == 0 ||
    match b[0]
    case Unit(_) => Closes(b[1..], depth)
    case OpenParen => Closes(b[1..], depth + 1)
    case CloseParen => depth > 0 && Closes(b[1..], depth - 1)
  }

  lemma PlainIsGood(b: Branch)
    requires PlainBranch(b)
    ensures GoodBranch(b)
  {
    forall k | 0 <= k < |b|
      ensures GoodPiece(b[k])
    {
      assert PlainPiece(b[k]);
      if b[k].Unit? && b[k].node.Elem? {
        assert GoodNode(b[k].node, true);
      }
    }
  }

  lemma ItemsOne(sense: Sense, p: Piece)
    requires GoodPiece(p)
    ensures GoodBranch([p]) && BranchItems(sense, [p]) == PieceItems(sense, p)
  {
    PieceAdded(sense, [], p);
    assert [] + [p] == [p];
    assert BranchItems(sense, []) == [];
    assert [] + PieceItems(sense, p) == PieceItems(sense, p);
  }

  lemma ItemsFirst(sense: Sense, b: Branch)
    requires |b| > 0 && GoodBranch(b)
    ensures GoodBranch(b[1..]) && GoodPiece(b[0])
    ensures BranchItems(sense, b) == PieceItems(sense, b[0]) + BranchItems(sense, b[1..])
  {
    assert GoodPiece(b[0]) && GoodBranch(b[1..]);
    hide BranchItems, PieceItems, GoodBranch, GoodPiece;
    ItemsOne(sense, b[0]);
    BranchItemsConcat(sense, [b[0]], b[1..]);
    assert [b[0]] + b[1..] == b;
  }

  /** With at most nine groups the matcher reads the tokens as the items of the branch. */
  lemma {:induction false} TokensMean(sense: Sense, b: Branch, groups: nat, stack: seq<nat>)
    requires PlainBranch(b) && Closes(b, |stack|) && groups + Opens(b) <= MAX_GROUPS
    ensures GoodBranch(b) && R.Items(BranchTokens(sense, b, groups, stack), 0) == BranchItems(sense, b)
    decreases |b|
  {
    PlainIsGood(b);
    if |b| > 0 {
      var rest := b[1..];
      assert PlainPiece(b[0]);
      ItemsFirst(sense, b);
      hide R.Items, BranchItems;
      match b[0] {
        case Unit(n) =>
          TokensMean(sense, rest, groups, stack);
          TokensFit(sense, rest, groups, stack);
          UnitFirst(sense, n, BranchTokens(sense, rest, groups, stack));
        case OpenParen =>
          TokensMean(sense, rest, groups + 1, stack + [groups + 1]);
          MarkFirst(R.Open(groups + 1), BranchTokens(sense, rest, groups + 1, stack + [groups + 1]));
        case CloseParen =>
          var s := stack[..|stack| - 1];
          TokensMean(sense, rest, groups, s);
          MarkFirst(R.Close(stack[|stack| - 1]), BranchTokens(sense, rest, groups, s));
      }
    } else {
      assert BranchTokens(sense, b, groups, stack) == [];
    }
  }

  /** From the tenth group on, parentheses are characters to match. */
  lemma {:induction false} TokensExceed(sense: Sense, b: Branch, groups: nat, stack: seq<nat>)
    requires PlainBranch(b) && groups <= MAX_GROUPS
    ensures GoodBranch(b)
    ensures |R.Items(BranchTokens(sense, b, groups, stack), 0)| >=
            |BranchItems(sense, b)| + (if groups + Opens(b) > MAX_GROUPS then 1 else 0)
    decreases |b|
  {
    PlainIsGood(b);
    if |b| > 0 {
      var rest := b[1..];
      assert PlainPiece(b[0]);
      ItemsFirst(sense, b);
      hide R.Items, BranchItems;
      match b[0] {
        case Unit(n) =>
          TokensExceed(sense, rest, groups, stack);
          TokensFit(sense, rest, groups, stack);
          UnitFirst(sense, n, BranchTokens(sense, rest, groups, stack));
        case OpenParen =>
          var g, s := if groups < MAX_GROUPS then groups + 1 else groups, if groups < MAX_GROUPS then stack + [groups + 1] else stack;
          TokensExceed(sense, rest, g, s);
          TokensFit(sense, rest, g, s);
          if groups < MAX_GROUPS {
            MarkFirst(R.Open(g), BranchTokens(sense, rest, g, s));
          } else {
            AtomFirst(Char('('), BranchTokens(sense, rest, g, s));
          }
        case CloseParen =>
          var s := if |stack| > 0 then stack[..|stack| - 1] else stack;
          TokensExceed(sense, rest, groups, s);
          TokensFit(sense, rest, groups, s);
          if |stack| > 0 {
            MarkFirst(R.Close(stack[|stack| - 1]), BranchTokens(sense, rest, groups, s));
          } else {
            AtomFirst(Char(')'), BranchTokens(sense, rest, groups, s));
          }
      }
    }
  }

  /** The tokens of a branch mean the branch exactly when it has at most nine groups. */
  lemma NineGroupsIff(sense: Sense, b: Branch)
    requires PlainBranch(b) && Closes(b, 0)
    ensures GoodBranch(b)
    ensures R.Items(BranchTokens(sense, b, 0, []), 0) == BranchItems(sense, b) <==> Opens(b) <= MAX_GROUPS
  {
    TokensExceed(sense, b, 0, []);
    if Opens(b) <= MAX_GROUPS {
      TokensMean(sense, b, 0, []);
    }
  }
}
