/**
 * compile_single of src/regex.c: one alternative becomes a list of tokens.
 * Lex is the list the method is proved to produce, for every pattern that does
 * not end inside an escape or a bracket expression.
 */
module RegexTokens {
  import opened RegexLanguage
  import opened RegexScan
  import opened RegexSyntax
  import R = Regex

  /** The characters that the contents of a bracket expression stand for. */
  type Reading = string -> set<char>

  const MAX_GROUPS := 9

  function EscapeAtom(c: char): Atom {
    match c
    case 'd' => Digit
    case 'D' => NotDigit
    case 'w' => Alpha
    case 'W' => NotAlpha
    case 's' => Space
    case 'S' => NotSpace
    case _ => Char(c)
  }

  function EscapeToken(c: char): R.Token {
    if '1' <= c <= '9' then R.Back(c as int - '0' as int) else R.One(EscapeAtom(c))
  }

  /** A character that is neither an escape nor a bracket nor a parenthesis. */
  function SymbolToken(c: char): R.Token {
    match c
    case '^' => R.Begin
    case '$' => R.End
    case '.' => R.One(Dot)
    case '*' => R.Star
    case '+' => R.Plus
    case '?' => R.Question
    case _ => R.One(Char(c))
  }

  /** A whole bracket expression, given by its text. */
  function BracketAtom(reading: Reading, s: string): Atom
    requires |s| > BracketStart(s)
  {
    var contents := s[BracketStart(s)..|s| - 1];
    if s[1] == '^' then NotClass(reading(contents)) else Class(reading(contents))
  }

  function BracketLen(s: string): (n: nat)
    requires |s| > 0
    ensures BracketStart(s) <= n <= |s|
  {
    BracketStart(s) + BracketRest(s[BracketStart(s)..])
  }

  /** Every escape and every bracket expression is complete. */
  predicate Legible(s: string)
    decreases |s|
  {
    |s| == 0 ||
    if s[0] == '\\' then |s| >= 2 && Legible(s[2..])
    else if s[0] == '[' then BracketClosed(s[BracketStart(s)..]) && Legible(s[BracketLen(s)..])
    else Legible(s[1..])
  }

  lemma ClosedTakes(r: string)
    requires BracketClosed(r)
    ensures BracketRest(r) > 0
  {
  }

  /** The tokens of s, after some groups of which those on the stack are still open. */
  function Lex(reading: Reading, s: string, groups: nat, stack: seq<nat>): seq<R.Token>
    requires Legible(s)
    decreases |s|
  {
    if |s| == 0 then []
    else if s[0] == '\\' then [EscapeToken(s[1])] + Lex(reading, s[2..], groups, stack)
    else if s[0] == '[' then
      ClosedTakes(s[BracketStart(s)..]);
      [R.One(BracketAtom(reading, s[..BracketLen(s)]))] + Lex(reading, s[BracketLen(s)..], groups, stack)
    else if s[0] == '(' then
      if groups < MAX_GROUPS then
        [R.Open(groups + 1)] + Lex(reading, s[1..], groups + 1, stack + [groups + 1])
      else [R.One(Char('('))] + Lex(reading, s[1..], groups, stack)
    else if s[0] == ')' then
      if |stack| > 0 then
        [R.Close(stack[|stack| - 1])] + Lex(reading, s[1..], groups, stack[..|stack| - 1])
      else [R.One(Char(')'))] + Lex(reading, s[1..], groups, stack)
    else [SymbolToken(s[0])] + Lex(reading, s[1..], groups, stack)
  }

  // ---- compile_single ----

  /** One character of the pattern goes to the buffer. */
  method Put(pattern: string, k: nat, ccl: array<char>, q: nat)
    requires k < |pattern| && q < ccl.Length
    modifies ccl
    ensures ccl[..q + 1] == old(ccl[..q]) + [pattern[k]]
  {
    ccl[q] := pattern[k];
  }

  lemma NamedLong(r: string)
    requires NamedClosed(r)
    ensures |r| >= 2
  {
  }

  lemma NamedStep(s: string, k: nat)
    requires k + 1 < |s| && NamedClosed(s[k..])
    ensures s[k] == ':' && s[k + 1] == ']' ==> NamedRest(s[k..]) == 2
    ensures !(s[k] == ':' && s[k + 1] == ']') ==> k + 2 < |s| && NamedClosed(s[k + 1..]) && NamedRest(s[k..]) == 1 + NamedRest(s[k + 1..])
  {
    Dropped(s, k, 1);
  }

  /** A named class, from its colon on, goes to the buffer. */
  method PutNamed(pattern: string, from: nat, ccl: array<char>, start: nat) returns (k: nat, q: nat)
    requires from <= |pattern| && NamedClosed(pattern[from..]) && start + (|pattern| - from) <= ccl.Length
    modifies ccl
    ensures k == from + NamedRest(pattern[from..]) <= |pattern| && q == start + (k - from)
    ensures ccl[..q] == old(ccl[..start]) + pattern[from..k]
  {
    NamedLong(pattern[from..]);
    ghost var before, goal := ccl[..start], from + NamedRest(pattern[from..]);
    hide NamedRest, NamedClosed;
    k, q := from, start;
    assert pattern[from..from] == [];
    while !(pattern[k] == ':' && pattern[k + 1] == ']')
      invariant from <= k && k + 1 < |pattern| && q == start + (k - from)
      invariant NamedClosed(pattern[k..]) && k + NamedRest(pattern[k..]) == goal
      invariant ccl[..q] == before + pattern[from..k]
      decreases |pattern| - k
    {
      NamedStep(pattern, k);
      Put(pattern, k, ccl, q);
      Longer(before, pattern, from, k);
      k, q := k + 1, q + 1;
    }
    NamedStep(pattern, k);
    Put(pattern, k, ccl, q);
    Longer(before, pattern, from, k);
    Put(pattern, k + 1, ccl, q + 1);
    Longer(before, pattern, from, k + 1);
    k, q := k + 2, q + 2;
  }

  lemma Longer(before: string, s: string, a: nat, b: nat)
    requires a <= b < |s|
    ensures (before + s[a..b]) + [s[b]] == before + s[a..b + 1]
  {
  }

  lemma BracketStep(s: string, k: nat)
    requires k < |s| && BracketClosed(s[k..])
    ensures s[k] == '\\' && k + 1 < |s| ==>
              k + 2 < |s| && BracketClosed(s[k + 2..]) && BracketRest(s[k..]) == 2 + BracketRest(s[k + 2..])
    ensures s[k] == '[' && k + 1 < |s| && s[k + 1] == ':' ==>
              var n := k + 1 + NamedRest(s[k + 1..]);
              NamedClosed(s[k + 1..]) && n < |s| && BracketClosed(s[n..]) && k + BracketRest(s[k..]) == n + BracketRest(s[n..])
    ensures s[k] == ']' ==> BracketRest(s[k..]) == 1
    ensures s[k] != ']' && !(s[k] == '\\' && k + 1 < |s|) && !(s[k] == '[' && k + 1 < |s| && s[k + 1] == ':') ==>
              k + 1 < |s| && BracketClosed(s[k + 1..]) && BracketRest(s[k..]) == 1 + BracketRest(s[k + 1..])
  {
    hide BracketRest, BracketClosed, NamedRest, NamedClosed;
    var r := s[k..];
    BracketUnfold(r);
    Dropped(s, k, 1);
    if AtEscape(r) {
      Dropped(s, k, 2);
      BracketNotEmpty(s[k + 2..]);
    } else if AtNamed(r) {
      Dropped(s, k, 1 + NamedRest(s[k + 1..]));
      BracketNotEmpty(s[k + 1 + NamedRest(s[k + 1..])..]);
    } else if r[0] != ']' {
      BracketNotEmpty(s[k + 1..]);
    }
  }

  /** One step of the scan inside a bracket expression. */
  method BracketTurn(pattern: string, from: nat, ccl: array<char>, start: nat) returns (k: nat, q: nat)
    requires from < |pattern| && pattern[from] != ']' && BracketClosed(pattern[from..])
    requires start + (|pattern| - from) <= ccl.Length
    modifies ccl
    ensures from < k < |pattern| && BracketClosed(pattern[k..])
    ensures k + BracketRest(pattern[k..]) == from + BracketRest(pattern[from..])
    ensures q == start + (k - from) && ccl[..q] == old(ccl[..start]) + pattern[from..k]
  {
    hide BracketRest, BracketClosed, NamedRest, NamedClosed;
    BracketStep(pattern, from);
    k, q := from, start;
    if pattern[k] == '\\' && k + 1 < |pattern| {
      Put(pattern, k, ccl, q);
      Put(pattern, k + 1, ccl, q + 1);
      assert pattern[from..k + 2] == [pattern[k]] + [pattern[k + 1]];
      k, q := k + 2, q + 2;
    } else if pattern[k] == '[' && k + 1 < |pattern| && pattern[k + 1] == ':' {
      Put(pattern, k, ccl, q);
      k, q := PutNamed(pattern, k + 1, ccl, q + 1);
      assert pattern[from..k] == [pattern[from]] + pattern[from + 1..k];
    } else {
      Put(pattern, k, ccl, q);
      assert pattern[from..k + 1] == [pattern[k]];
      k, q := k + 1, q + 1;
    }
  }

  lemma SliceOfSlice(s: string, i: nat, e: nat, a: nat, b: nat)
    requires i <= e <= |s| && a <= b <= e - i
    ensures s[i..e][a..b] == s[i + a..i + b]
  {
    var u, v := s[i..e][a..b], s[i + a..i + b];
    forall k | 0 <= k < b - a
      ensures u[k] == v[k]
    {
      assert u[k] == s[i..e][a + k];
    }
    assert |u| == |v|;
  }

  lemma PrefixParts(s: string, a: string, b: string)
    requires s == a + b
    ensures s[..|a|] == a && s[|a|..] == b
  {
  }

  /** The loop over the contents of a bracket expression. */
  method PutContents(pattern: string, from: nat, ccl: array<char>, start: nat) returns (k: nat, q: nat)
    requires from < |pattern| && BracketClosed(pattern[from..]) && start + (|pattern| - from) <= ccl.Length
    modifies ccl
    ensures from <= k && k + 1 == from + BracketRest(pattern[from..]) <= |pattern|
    ensures q == start + (k - from) && ccl[..q] == old(ccl[..start]) + pattern[from..k]
  {
    hide BracketRest;
    k, q := from, start;
    ghost var before := ccl[..start];
    assert pattern[from..from] == [];
    while pattern[k] != ']'
      invariant from <= k < |pattern| && q == start + (k - from)
      invariant BracketClosed(pattern[k..]) && k + BracketRest(pattern[k..]) == from + BracketRest(pattern[from..])
      invariant ccl[..q] == before + pattern[from..k]
      decreases |pattern| - k
    {
      hide BracketClosed;
      ghost var was := k;
      k, q := BracketTurn(pattern, k, ccl, q);
      JoinSlices(pattern, from, was, k);
      Regroup(before, pattern[from..was], pattern[was..k]);
    }
    BracketStep(pattern, k);
  }

  lemma JoinSlices(s: string, a: nat, b: nat, c: nat)
    requires a <= b <= c <= |s|
    ensures s[a..b] + s[b..c] == s[a..c]
  {
  }

  /** The scan of one bracket expression; its contents go to the buffer, terminated. */
  method ReadBracket(pattern: string, i: nat, ccl: array<char>, start: nat) returns (e: nat, q: nat)
    requires i < |pattern| && pattern[i] == '[' && BracketClosed(pattern[i..][BracketStart(pattern[i..])..])
    requires start <= i + 1 && ccl.Length == 2 * |pattern| + 1
    modifies ccl
    ensures e == i + BracketLen(pattern[i..]) <= |pattern| && e > i + BracketStart(pattern[i..])
    ensures start < q <= start + (e - i) - 1 && q <= ccl.Length
    ensures ccl[start..q - 1] == pattern[i..e][BracketStart(pattern[i..])..e - i - 1] && ccl[q - 1] == '\0'
    ensures ccl[..start] == old(ccl[..start])
  {
    var c0 := i + BracketStart(pattern[i..]);
    Dropped(pattern, i, c0 - i);
    hide BracketRest, BracketClosed;
    var k;
    k, q := PutContents(pattern, c0, ccl, start);
    PrefixParts(ccl[..q], old(ccl[..start]), pattern[c0..k]);
    assert ccl[start..q] == ccl[..q][start..] && ccl[..start] == ccl[..q][..start];
    ccl[q] := '\0';
    q := q + 1;
    e := k + 1;
    SliceOfSlice(pattern, i, e, c0 - i, e - i - 1);
  }

  /** What the first character of a text makes of it: a token, how long its text is, and the groups after it. */
  datatype Turn = Turn(token: R.Token, n: nat, groups: nat, stack: seq<nat>)

  function FirstTurn(reading: Reading, s: string, groups: nat, stack: seq<nat>): (t: Turn)
    requires |s| > 0 && Legible(s)
    ensures 0 < t.n <= |s| && Legible(s[t.n..])
    ensures t.groups == groups + (if t.token.Open? then 1 else 0)
    ensures groups <= MAX_GROUPS ==> t.groups <= MAX_GROUPS
  {
    if s[0] == '\\' then Turn(EscapeToken(s[1]), 2, groups, stack)
    else if s[0] == '[' then
      ClosedTakes(s[BracketStart(s)..]);
      Turn(R.One(BracketAtom(reading, s[..BracketLen(s)])), BracketLen(s), groups, stack)
    else if s[0] == '(' && groups < MAX_GROUPS then Turn(R.Open(groups + 1), 1, groups + 1, stack + [groups + 1])
    else if s[0] == ')' && |stack| > 0 then Turn(R.Close(stack[|stack| - 1]), 1, groups, stack[..|stack| - 1])
    else if s[0] == '(' || s[0] == ')' then Turn(R.One(Char(s[0])), 1, groups, stack)
    else Turn(SymbolToken(s[0]), 1, groups, stack)
  }

  lemma LexTurn(reading: Reading, s: string, groups: nat, stack: seq<nat>)
    requires |s| > 0 && Legible(s)
    ensures var t := FirstTurn(reading, s, groups, stack);
            Lex(reading, s, groups, stack) == [t.token] + Lex(reading, s[t.n..], t.groups, t.stack)
  {
  }

  /** One turn of the main loop. */
  method Next(reading: Reading, pattern: string, i: nat, ccl: array<char>, idx: nat, groups: nat, stack: array<nat>, depth: nat)
    returns (token: R.Token, e: nat, q: nat, g: nat, d: nat)
    requires i < |pattern| && Legible(pattern[i..]) && ccl.Length == 2 * |pattern| + 1
    requires 1 <= idx <= i + 1 && (idx == 1 || idx <= i)
    requires stack.Length == 10 && depth <= groups <= MAX_GROUPS
    modifies ccl, stack
    ensures i < e <= |pattern| && Legible(pattern[e..])
    ensures 1 <= q && (q == 1 || q <= e)
    ensures d <= g <= MAX_GROUPS
    ensures FirstTurn(reading, pattern[i..], groups, old(stack[..depth])) == Turn(token, e - i, g, stack[..d])
    ensures ccl[..idx] == old(ccl[..idx])
  {
    hide BracketRest, BracketClosed, Legible;
    var c := pattern[i];
    e, q, g, d := i + 1, idx, groups, depth;
    TurnInPlace(reading, pattern, i, groups, stack[..depth]);
    if c == '\\' {
      e := i + 2;
      token := EscapeToken(pattern[i + 1]);
    } else if c == '(' {
      if groups < MAX_GROUPS {
        g, d := groups + 1, depth + 1;
        stack[d - 1] := g;
        token := R.Open(g);
      } else {
        token := R.One(Char(c));
      }
    } else if c == ')' {
      if depth > 0 {
        d := depth - 1;
        token := R.Close(stack[d]);
      } else {
        token := R.One(Char(c));
      }
    } else if c == '[' {
      token, e, q := NextBracket(reading, pattern, i, ccl, idx);
    } else {
      token := SymbolToken(c);
    }
  }

  /** The turn that a position of the pattern takes. */
  lemma TurnInPlace(reading: Reading, pattern: string, i: nat, groups: nat, stack: seq<nat>)
    requires i < |pattern| && Legible(pattern[i..])
    ensures var t := FirstTurn(reading, pattern[i..], groups, stack);
            i + t.n <= |pattern| && Legible(pattern[i + t.n..])
    ensures pattern[i] == '\\' ==> i + 1 < |pattern|
    ensures pattern[i] == '[' ==> BracketClosed(pattern[i..][BracketStart(pattern[i..])..])
  {
    hide FirstTurn, Legible, BracketClosed;
    Dropped(pattern, i, FirstTurn(reading, pattern[i..], groups, stack).n);
    LegibleFirst(pattern[i..]);
  }

  lemma LegibleFirst(s: string)
    requires |s| > 0 && Legible(s)
    ensures s[0] == '\\' ==> |s| >= 2
    ensures s[0] == '[' ==> BracketClosed(s[BracketStart(s)..])
  {
  }

  /** The turn at a bracket expression. */
  method NextBracket(reading: Reading, pattern: string, i: nat, ccl: array<char>, idx: nat)
    returns (token: R.Token, e: nat, q: nat)
    requires i < |pattern| && pattern[i] == '[' && BracketClosed(pattern[i..][BracketStart(pattern[i..])..])
    requires 1 <= idx <= i + 1 && ccl.Length == 2 * |pattern| + 1
    modifies ccl
    ensures e == i + BracketLen(pattern[i..]) <= |pattern| && BracketLen(pattern[i..]) > BracketStart(pattern[i..])
    ensures token == R.One(BracketAtom(reading, pattern[i..][..e - i]))
    ensures 1 <= q <= e && ccl[..idx] == old(ccl[..idx])
  {
    hide BracketRest, BracketClosed, BracketLen;
    e, q := ReadBracket(pattern, i, ccl, idx);
    Dropped(pattern, i, e - i);
    var contents := ccl[idx..q - 1];
    token := R.One(if pattern[i + 1] == '^' then NotClass(reading(contents)) else Class(reading(contents)));
  }

  /** The tokens so far and those of the rest are the tokens of the pattern. */
  ghost predicate Tokenized(reading: Reading, pattern: string, i: nat, done: seq<R.Token>, groups: nat, stack: seq<nat>)
    requires Legible(pattern)
  {
    i <= |pattern| && Legible(pattern[i..]) &&
    done + Lex(reading, pattern[i..], groups, stack) == Lex(reading, pattern, 0, [])
  }

  lemma TurnTaken(reading: Reading, pattern: string, i: nat, done: seq<R.Token>, groups: nat, stack: seq<nat>)
    requires Legible(pattern) && i < |pattern| && Tokenized(reading, pattern, i, done, groups, stack)
    ensures var t := FirstTurn(reading, pattern[i..], groups, stack);
            Tokenized(reading, pattern, i + t.n, done + [t.token], t.groups, t.stack)
  {
    hide Lex, FirstTurn, Legible;
    var t := FirstTurn(reading, pattern[i..], groups, stack);
    LexTurn(reading, pattern[i..], groups, stack);
    Dropped(pattern, i, t.n);
    Rejoin(done, t.token, Lex(reading, pattern[i + t.n..], t.groups, t.stack));
  }

  lemma TokensStart(reading: Reading, pattern: string)
    requires Legible(pattern)
    ensures Tokenized(reading, pattern, 0, [], 0, [])
  {
    assert pattern[0..] == pattern;
    assert [] + Lex(reading, pattern, 0, []) == Lex(reading, pattern, 0, []);
  }

  lemma TokensEnd(reading: Reading, pattern: string, done: seq<R.Token>, groups: nat, stack: seq<nat>)
    requires Legible(pattern) && Tokenized(reading, pattern, |pattern|, done, groups, stack)
    ensures done == Lex(reading, pattern, 0, [])
  {
    assert pattern[|pattern|..] == "";
    assert done + [] == done;
  }

  /** How many groups the tokens open. */
  function OpenTokens(ts: seq<R.Token>): nat {
    if |ts| == 0 then 0 else OpenTokens(ts[..|ts| - 1]) + (if ts[|ts| - 1].Open? then 1 else 0)
  }

  lemma OpenTokensAppend(ts: seq<R.Token>, t: R.Token)
    ensures OpenTokens(ts + [t]) == OpenTokens(ts) + (if t.Open? then 1 else 0)
  {
    assert (ts + [t])[..|ts|] == ts;
  }

  /** compile_single: every write stays inside its buffer, the tokens are those of the text, and the groups are counted. */
  method CompileSingle(reading: Reading, pattern: string) returns (tokens: seq<R.Token>, groups: nat)
    requires Legible(pattern)
    ensures tokens == Lex(reading, pattern, 0, []) && groups == OpenTokens(tokens)
  {
    hide Lex, Legible, FirstTurn, Tokenized, OpenTokens;
    var len := |pattern|;
    var patcap := len * 8 + 1;
    var pat := new R.Token[patcap](_ => R.Begin);
    var ccl := new char[len * 2 + 1];
    var stack := new nat[10];
    var idx, i, j, depth := 1, 0, 0, 0;
    groups := 0;
    TokensStart(reading, pattern);
    assert stack[..0] == [] && pat[..0] == [];
    NoneOpen();
    while i < len && j + 1 < patcap - 1
      invariant 0 <= j <= i <= len && 1 <= idx && (idx == 1 || idx <= i) && 0 <= depth <= groups <= MAX_GROUPS
      invariant Tokenized(reading, pattern, i, pat[..j], groups, stack[..depth]) && groups == OpenTokens(pat[..j])
    {
      ghost var was := pat[..j];
      TurnTaken(reading, pattern, i, pat[..j], groups, stack[..depth]);
      RestLegible(reading, pattern, i, pat[..j], groups, stack[..depth]);
      var token, e, q, g, d := Next(reading, pattern, i, ccl, idx, groups, stack, depth);
      pat[j] := token;
      assert pat[..j + 1] == was + [token];
      OpenTokensAppend(was, token);
      i, j, idx, groups, depth := e, j + 1, q, g, d;
      if idx + 1 >= len * 2 {
        break;
      }
    }
    tokens := pat[..j];
    TokensEnd(reading, pattern, tokens, groups, stack[..depth]);
  }

  lemma RestLegible(reading: Reading, pattern: string, i: nat, done: seq<R.Token>, groups: nat, stack: seq<nat>)
    requires Legible(pattern) && Tokenized(reading, pattern, i, done, groups, stack)
    ensures i <= |pattern| && Legible(pattern[i..])
  {
  }

  lemma NoneOpen()
    ensures OpenTokens([]) == 0
  {
  }

  lemma Rejoin(a: seq<R.Token>, t: R.Token, b: seq<R.Token>)
    ensures a + ([t] + b) == (a + [t]) + b
  {
  }
}
