/**
 * What regcomp and regexec do with a pattern of one atom, in terms of
 * characters: a plain character, the dot, every escape and every bracket
 * expression, for every text.
 */
module RegexAtoms {
  import opened RegexLanguage
  import opened RegexSyntax
  import opened RegexRanges
  import opened RegexRangesProof
  import opened RegexAltsProof
  import opened RegexTokens
  import opened RegexLexProof
  import opened RegexWhole
  import R = Regex

  /** The characters an escape stands for. */
  predicate EscapeMeans(c: char, x: char) {
    if c == 'd' then '0' <= x <= '9'
    else if c == 'D' then x < '0' || '9' < x
    else if c == 'w' then '0' <= x <= '9' || 'A' <= x <= 'Z' || x == '_' || 'a' <= x <= 'z'
    else if c == 'W' then x < '0' || '9' < x < 'A' || 'Z' < x < '_' || '_' < x < 'a' || 'z' < x
    else if c == 's' then x == ' ' || 9 <= x as int <= 13
    else if c == 'S' then x as int < 9 || (13 < x as int && x != ' ')
    else x == c
  }

  /** The characters the text of an atom stands for; `reading` says what the contents of brackets stand for. */
  predicate AtomMeans(reading: Reading, t: string, x: char)
    requires |t| > 0
  {
    if t == "." then x as int != 10 && x as int != 13
    else if |t| == 1 then x == t[0]
    else if |t| == 2 && t[0] == '\\' then EscapeMeans(t[1], x)
    else if t[1] == '^' then |t| >= 3 && x !in reading(t[2..|t| - 1])
    else x in reading(t[1..|t| - 1])
  }

  lemma EscapeMatches(c: char, x: char)
    ensures MatchOne(EscapeAtom(c), x) <==> EscapeMeans(c, x)
  {
  }

  lemma AtomMatches(reading: Reading, t: string, x: char)
    requires AtomText(t) || NamedText(t)
    ensures |t| > 0 && (MatchOne(CodeSense(reading)(t), x) <==> AtomMeans(reading, t, x))
  {
    if t[0] == '[' {
      ElemBracket(t, "");
    } else if |t| == 2 {
      EscapeMatches(t[1], x);
    }
  }

  /** The pattern that is one atom. */
  function Alone(t: string): Alts {
    Only(Cons(Elem(t, Once), Nil))
  }

  lemma AloneGood(t: string)
    requires AtomText(t) || NamedText(t)
    ensures GoodAlts(Alone(t), true) && OrderedAlts(Alone(t)) && MostGroups(Alone(t)) == 0
    ensures RenderAlts(Alone(t)) == t && UnrolledAlts(Alone(t)) == Alone(t)
    ensures Branches(Alone(t)) == [[Unit(Elem(t, Once))]]
  {
    var n := Elem(t, Once);
    assert GoodNode(n, true) && GoodNodes(Nil, true) && NodeGroups(Nil) == 0;
    assert Unrolled(Nil) == Nil && Unrolled(Cons(n, Nil)) == UnrolledElem(t, Once, Nil) == Cons(n, Nil);
    assert RenderNode(n) == t + "" == t && RenderNodes(Cons(n, Nil)) == t + "" == t;
    var start: seq<Branch> := [[]];
    assert start[0] + [Unit(n)] == [Unit(n)];
    assert BranchNodes(Cons(n, Nil), start) == BranchNodes(Nil, Grown(start, n)) == Grown(start, n) == [[Unit(n)]];
  }

  /** The pattern matches exactly at the characters its atom stands for. */
  lemma AloneAt(reading: Reading, t: string, text: string, i: int)
    requires (AtomText(t) || NamedText(t)) && GoodAlts(Alone(t), true) && 0 <= i <= |text|
    ensures MatchesAt(CodeSense(reading), Alone(t), text, i) <==> i < |text| && AtomMeans(reading, t, text[i])
  {
    var sense, n := CodeSense(reading), Elem(t, Once);
    assert GoodNode(n, true) && GoodNodes(Nil, true);
    if i < |text| {
      AtomMatches(reading, t, text[i]);
    }
    hide AtomMeans, AtomText, NamedText, AtomOf;
    if MatchesAt(sense, Alone(t), text, i) {
      var j: int :| InAlts(sense, Alone(t), text, i, j);
      var k := ConsSplit(sense, n, Nil, text, i, j);
    }
    if i < |text| && AtomMeans(reading, t, text[i]) {
      OnceCovers(sense, t, text, i);
      assert InAlts(sense, Alone(t), text, i, i + 1);
    }
  }

  /** The first place of the text that has such a character, or none. */
  ghost predicate FirstPlace(reading: Reading, t: string, text: string, r: R.Outcome)
    requires |t| > 0
  {
    && (r.NoMatch? <==> forall i :: 0 <= i < |text| ==> !AtomMeans(reading, t, text[i]))
    && (r.Match? ==> r.alternative == 0 && r.start < |text| && AtomMeans(reading, t, text[r.start])
                     && forall i :: 0 <= i < r.start ==> !AtomMeans(reading, t, text[i]))
  }

  lemma VerdictPlace(reading: Reading, t: string, text: string, r: R.Outcome)
    requires (AtomText(t) || NamedText(t)) && GoodAlts(Alone(t), true) && OrderedAlts(Alone(t))
    requires UnrolledAlts(Alone(t)) == Alone(t) && |Branches(Alone(t))| == 1
    requires GoodBranches(Branches(Alone(t))) && Verdict(CodeSense(reading), Alone(t), text, r)
    ensures |t| > 0 && FirstPlace(reading, t, text, r)
  {
    AtomMatches(reading, t, 'a');
    forall i | 0 <= i <= |text|
      ensures MatchesAt(CodeSense(reading), Alone(t), text, i) <==> i < |text| && AtomMeans(reading, t, text[i])
      ensures MatchesAt(CodeSense(reading), Alone(t), text, i) <==> BranchAt(CodeSense(reading), Branches(Alone(t))[0], text, i)
    {
      AloneAt(reading, t, text, i);
      SomeBranchAt(CodeSense(reading), Alone(t), text, i);
    }
    hide MatchesAt, BranchAt, AtomMeans, AtomText, NamedText;
    if r.NoMatch? {
      forall i | 0 <= i < |text|
        ensures !AtomMeans(reading, t, text[i])
      {
        assert !MatchesAt(CodeSense(reading), Alone(t), text, i);
      }
    }
  }

  /** regcomp on the text of one atom and regexec: the first character it stands for, or no match if there is
      none. Only a text longer than a thirty-second part of the address space might not be compiled. */
  method SearchAtom(reading: Reading, t: string, text: string) returns (r: Option<R.Outcome>)
    requires AtomText(t) || NamedText(t)
    ensures |t| <= SIZE_MAX / 32 ==> r.Some?
    ensures |t| > 0 && (r.Some? ==> FirstPlace(reading, t, text, r.value))
  {
    AloneGood(t);
    RangesUnroll(Alone(t));
    r := CompileAndExec(reading, Alone(t), text);
    if r.Some? {
      VerdictPlace(reading, t, text, r.value);
    } else {
      AtomMatches(reading, t, 'a');
    }
  }
}
