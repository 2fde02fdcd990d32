/**
 * matchclass of src/regex.c: whether a character belongs to the contents of a
 * bracket expression, and what contents written piece by piece stand for.
 * Strings end where their terminator stands, so they hold no zero character.
 */
module RegexClasses {
  import opened Ctype
  import opened RegexLanguage
  import opened RegexTokens
  import A = RegexAtoms
  import G = RegexRanges
  import R = Regex
  import X = RegexSyntax

  // ---- Named classes ----

  /** What a named class stands for; tabs and line ends count as printing characters. */
  predicate InNamed(name: string, c: char) {
    if name == "alnum" then 'A' <= c <= 'Z' || 'a' <= c <= 'z' || '0' <= c <= '9'
    else if name == "alpha" then 'A' <= c <= 'Z' || 'a' <= c <= 'z'
    else if name == "digit" then '0' <= c <= '9'
    else if name == "lower" then 'a' <= c <= 'z'
    else if name == "upper" then 'A' <= c <= 'Z'
    else if name == "space" then c == ' ' || 9 <= c as int <= 13
    else if name == "xdigit" then '0' <= c <= '9' || 'A' <= c <= 'F' || 'a' <= c <= 'f'
    else if name == "print" then 32 <= c as int < 127 || 9 <= c as int <= 13
    else if name == "graph" then 32 < c as int < 127
    else if name == "cntrl" then c as int < 32 || c as int == 127
    else if name == "punct" then '!' <= c <= '/' || ':' <= c <= '@' || '[' <= c <= '`' || '{' <= c <= '~'
    else if name == "blank" then c == ' ' || c == '\t'
    else false
  }

  /** match_posix_class, by the flags of the character table. */
  method PosixClass(name: string, c: char) returns (r: bool)
    ensures r == InNamed(name, c)
  {
    TableMeans(c);
    hide Is;
    var alpha := Is(c, UPPER) || Is(c, LOWER);
    if name == "alnum" { return alpha || Is(c, DIGIT); }
    if name == "alpha" { return alpha; }
    if name == "digit" { return Is(c, DIGIT); }
    if name == "lower" { return Is(c, LOWER); }
    if name == "upper" { return Is(c, UPPER); }
    if name == "space" { return Is(c, SPACE); }
    if name == "xdigit" { return Is(c, XDIGIT); }
    if name == "print" { return alpha || Is(c, DIGIT) || Is(c, PUNCT) || Is(c, SPACE); }
    if name == "graph" { return alpha || Is(c, DIGIT) || Is(c, PUNCT); }
    if name == "cntrl" { return Is(c, CNTRL); }
    if name == "punct" { return Is(c, PUNCT); }
    if name == "blank" { return c == ' ' || c == '\t'; }
    return false;
  }

  // ---- The scan ----

  /** The character at a place, or the terminator. */
  function CharAt(s: string, p: nat): char {
    if p < |s| then s[p] else '\0'
  }

  /** strstr for ":]": its place from p on, or the end. */
  function NameEnd(s: string, p: nat): (q: nat)
    requires p <= |s|
    ensures p <= q <= |s| && (q < |s| ==> q + 1 < |s| && s[q] == ':' && s[q + 1] == ']')
    decreases |s| - p
  {
    if p + 1 >= |s| then |s| else if s[p] == ':' && s[p + 1] == ']' then p else NameEnd(s, p + 1)
  }

  predicate OpensName(s: string, p: nat) {
    p + 2 <= |s| && s[p] == '[' && s[p + 1] == ':' && NameEnd(s, p + 2) < |s|
  }

  /** matchrange. */
  predicate InRange(c: char, s: string, p: nat) {
    c != '-' && CharAt(s, p) != '\0' && CharAt(s, p + 1) == '-' && CharAt(s, p + 2) != '\0' &&
    CharAt(s, p) <= c <= CharAt(s, p + 2)
  }

  /** What matchclass answers from place p on; `lead` is whether a zero stands before the contents. */
  predicate In(c: char, s: string, p: nat, lead: bool)
    decreases |s| - p
  {
    if p >= |s| then false
    else if OpensName(s, p) then
      var q := NameEnd(s, p + 2);
      InNamed(s[p + 2..q], c) || (q + 2 < |s| && In(c, s, q + 3, lead))
    else if InRange(c, s, p) then true
    else if s[p] == '\\' then (p + 1 < |s| && MatchOne(EscapeAtom(s[p + 1]), c)) || In(c, s, p + 2, lead)
    else if c == s[p] then c != '-' || (p == 0 && lead) || p + 1 == |s|
    else In(c, s, p + 1, lead)
  }

  predicate NoZero(s: string) {
    forall k :: 0 <= k < |s| ==> s[k] != '\0'
  }

  /** matchclass, turn by turn. */
  method MatchClass(c: char, s: string, lead: bool) returns (ok: bool)
    requires c != '\0' && NoZero(s)
    ensures ok == In(c, s, 0, lead)
  {
    var p := 0;
    while true
      invariant 0 <= p <= |s| && In(c, s, p, lead) == In(c, s, 0, lead)
      decreases |s| - p
    {
      if CharAt(s, p) == '[' && CharAt(s, p + 1) == ':' && NameEnd(s, p + 2) < |s| {
        var q := NameEnd(s, p + 2);
        ok := PosixClass(s[p + 2..q], c);
        if ok {
          return;
        }
        p := q + 2;
      } else if InRange(c, s, p) {
        return true;
      } else if CharAt(s, p) == '\\' {
        p := p + 1;
        if p < |s| && MatchOne(EscapeAtom(s[p]), c) {
          return true;
        }
      } else if c == CharAt(s, p) {
        return c != '-' || (p == 0 && lead) || p + 1 == |s|;
      }
      if p >= |s| {
        return false;
      }
      p := p + 1;
    }
  }

  // ---- Contents in pieces ----

  datatype Piece = Single(c: char) | Range(lo: char, hi: char) | Escape(c: char) | Named(name: string)

  /** What a piece stands for; a range that runs backwards still has its two ends. */
  predicate Member(p: Piece, c: char) {
    match p
    case Single(d) => c == d
    case Range(lo, hi) => lo <= c <= hi || c == lo || c == hi
    case Escape(d) => A.EscapeMeans(d, c)
    case Named(name) => InNamed(name, c)
  }

  function SpellPiece(p: Piece): (s: string)
    ensures |s| > 0
  {
    match p
    case Single(c) => [c]
    case Range(lo, hi) => [lo, '-', hi]
    case Escape(c) => ['\\', c]
    case Named(name) => "[:" + name + ":]"
  }

  /** The pieces one behind the other, and a dash at the end if there is to be one. */
  function Spell(ps: seq<Piece>, dash: bool): string {
    if |ps| == 0 then (if dash then "-" else "") else SpellPiece(ps[0]) + Spell(ps[1..], dash)
  }

  predicate Plain(c: char) {
    c !in {'-', '[', '\\', '\0'}
  }

  /** Single characters and the ends of ranges are plain; an escaped dash and a named class stand at the very end. */
  predicate Tidy(ps: seq<Piece>, dash: bool) {
    |ps| == 0 ||
    (Tidy(ps[1..], dash) &&
     match ps[0]
     case Single(c) => Plain(c)
     case Range(lo, hi) => Plain(lo) && Plain(hi)
     case Escape(c) => c != '\0' && (c == '-' ==> |ps| == 1 && !dash)
     case Named(name) => |ps| == 1 && !dash && ':' !in name && '\0' !in name)
  }

  /** Whether the scan comes upon a dash it counts: one inside a range ends it. */
  predicate HasDash(ps: seq<Piece>, dash: bool) {
    if |ps| == 0 then dash
    else if ps[0].Range? then false
    else Member(ps[0], '-') || HasDash(ps[1..], dash)
  }

  ghost predicate HasMember(ps: seq<Piece>, c: char) {
    exists k :: 0 <= k < |ps| && Member(ps[k], c)
  }

  lemma HasMemberFirst(ps: seq<Piece>, c: char)
    requires |ps| > 0
    ensures HasMember(ps, c) <==> Member(ps[0], c) || HasMember(ps[1..], c)
  {
    if k :| 0 <= k < |ps| && Member(ps[k], c) {
      assert k > 0 ==> Member(ps[1..][k - 1], c);
    }
    if k :| 0 <= k < |ps[1..]| && Member(ps[1..][k], c) {
      assert Member(ps[k + 1], c);
    }
  }

  /** Tidy contents start with anything but a dash, unless that is all there is. */
  lemma SpellStarts(ps: seq<Piece>, dash: bool)
    requires Tidy(ps, dash)
    ensures var s := Spell(ps, dash); |ps| > 0 ==> |s| > 0 && s[0] !in {'-', '\0'}
    ensures |ps| == 0 ==> Spell(ps, dash) == if dash then "-" else ""
  {
  }

  /** The tail of s from p on, one place further. */
  lemma TailAt(s: string, p: nat, t: string, k: nat)
    requires p <= |s| && s[p..] == t && k <= |t|
    ensures |s| == p + |t| && s[p + k..] == t[k..] && (k < |t| ==> s[p + k] == t[k])
  {
    assert s[p..][k..] == s[p + k..];
  }

  lemma {:induction false} NameEndFirst(s: string, p: nat, name: string)
    requires p + |name| + 1 < |s| && s[p..p + |name|] == name && ':' !in name
    requires s[p + |name|] == ':' && s[p + |name| + 1] == ']'
    ensures NameEnd(s, p) == p + |name|
    decreases |name|
  {
    if |name| > 0 {
      assert s[p] == s[p..p + |name|][0] == name[0];
      assert s[p + 1..p + |name|] == name[1..];
      NameEndFirst(s, p + 1, name[1..]);
    }
  }

  lemma NamedIn(c: char, s: string, p: nat, lead: bool, name: string)
    requires p <= |s| && s[p..] == "[:" + name + ":]" && ':' !in name
    ensures In(c, s, p, lead) == InNamed(name, c)
  {
    var t := "[:" + name + ":]";
    assert |s| == p + |name| + 4;
    assert forall k :: 0 <= k < |t| ==> s[p + k] == s[p..][k] == t[k];
    assert s[p + 2..p + 2 + |name|] == name;
    assert t[|name| + 2] == ':' && t[|name| + 3] == ']';
    NameEndFirst(s, p + 2, name);
  }

  lemma EscapeIn(c: char, s: string, p: nat, lead: bool, d: char, rest: string)
    requires p <= |s| && s[p..] == ['\\', d] + rest && (d == '-' ==> rest == "")
    ensures In(c, s, p, lead) == (A.EscapeMeans(d, c) || In(c, s, p + 2, lead))
    ensures s[p + 2..] == rest
  {
    var t := ['\\', d] + rest;
    TailAt(s, p, t, 0);
    TailAt(s, p, t, 1);
    TailAt(s, p, t, 2);
    A.EscapeMatches(d, c);
    assert !OpensName(s, p) && !InRange(c, s, p);
  }

  lemma SingleIn(c: char, s: string, p: nat, lead: bool, d: char, rest: string)
    requires p <= |s| && s[p..] == [d] + rest && Plain(d)
    requires rest == "-" || (|rest| > 0 ==> rest[0] != '-')
    ensures In(c, s, p, lead) == (c == d || In(c, s, p + 1, lead))
    ensures s[p + 1..] == rest
  {
    var t := [d] + rest;
    TailAt(s, p, t, 0);
    TailAt(s, p, t, 1);
    if |rest| > 0 {
      assert s[p + 1] == rest[0];
    }
    assert !OpensName(s, p) && !InRange(c, s, p);
  }

  lemma RangeIn(c: char, s: string, p: nat, lead: bool, lo: char, hi: char, rest: string)
    requires p <= |s| && s[p..] == [lo, '-', hi] + rest && Plain(lo) && Plain(hi)
    requires rest == "-" || (|rest| > 0 ==> rest[0] != '-')
    ensures In(c, s, p, lead) == if c == '-' then false else Member(Range(lo, hi), c) || In(c, s, p + 3, lead)
    ensures s[p + 3..] == rest
  {
    var t := [lo, '-', hi] + rest;
    TailAt(s, p, t, 0);
    TailAt(s, p, t, 1);
    TailAt(s, p, t, 2);
    TailAt(s, p, t, 3);
    assert t[1..] == ['-', hi] + rest && t[2..] == [hi] + rest;
    assert !OpensName(s, p) && !OpensName(s, p + 1);
    assert !InRange(c, s, p + 1);
    if c != '-' {
      SingleIn(c, s, p + 2, lead, hi, rest);
    }
  }

  /** From any place on, tidy contents stand for the union of their pieces; the dash for itself is a matter of its own. */
  lemma {:induction false} SpelledIn(c: char, s: string, p: nat, lead: bool, ps: seq<Piece>, dash: bool)
    requires c != '\0' && p <= |s| && s[p..] == Spell(ps, dash) && Tidy(ps, dash)
    ensures c != '-' ==> (In(c, s, p, lead) <==> HasMember(ps, c))
    ensures c == '-' ==> (In(c, s, p, lead) <==> HasDash(ps, dash))
    decreases |ps|
  {
    if |ps| == 0 {
      DashAlone(c, s, p, lead, dash);
    } else {
      var rest := Spell(ps[1..], dash);
      SpellStarts(ps[1..], dash);
      HasMemberFirst(ps, c);
      match ps[0] {
        case Single(d) =>
          SingleIn(c, s, p, lead, d, rest);
          SpelledIn(c, s, p + 1, lead, ps[1..], dash);
        case Range(lo, hi) =>
          RangeIn(c, s, p, lead, lo, hi, rest);
          SpelledIn(c, s, p + 3, lead, ps[1..], dash);
        case Escape(d) =>
          EscapeIn(c, s, p, lead, d, rest);
          SpelledIn(c, s, p + 2, lead, ps[1..], dash);
        case Named(name) =>
          assert rest == "" && Spell(ps, dash) == "[:" + name + ":]";
          NamedIn(c, s, p, lead, name);
          assert !HasMember(ps[1..], c);
      }
    }
  }

  lemma DashAlone(c: char, s: string, p: nat, lead: bool, dash: bool)
    requires c != '\0' && p <= |s| && s[p..] == if dash then "-" else ""
    ensures In(c, s, p, lead) == (dash && c == '-')
  {
    TailAt(s, p, if dash then "-" else "", 0);
  }

  /** Contents with a dash in front. */
  lemma DashFirst(c: char, lead: bool, ps: seq<Piece>, dash: bool)
    requires c != '\0' && Tidy(ps, dash)
    ensures var s := "-" + Spell(ps, dash);
            && (c != '-' ==> (In(c, s, 0, lead) <==> HasMember(ps, c)))
            && (c == '-' ==> (In(c, s, 0, lead) <==> lead || s == "-"))
  {
    var s := "-" + Spell(ps, dash);
    SpellStarts(ps, dash);
    assert s[1..] == Spell(ps, dash);
    assert !OpensName(s, 0) && !InRange(c, s, 0);
    if c != '-' {
      SpelledIn(c, s, 1, lead, ps, dash);
    }
  }

  // ---- Where it goes wrong ----

  /** The character right behind a named class has no say, whatever it is and whatever follows. */
  lemma NamedSwallows(c: char, lead: bool, name: string, x: char, y: char, rest: string)
    requires ':' !in name
    ensures In(c, "[:" + name + ":]" + [x] + rest, 0, lead) == In(c, "[:" + name + ":]" + [y] + rest, 0, lead)
  {
    var s, t := "[:" + name + ":]" + [x] + rest, "[:" + name + ":]" + [y] + rest;
    BehindName(c, lead, name, x, rest);
    BehindName(c, lead, name, y, rest);
    var n := |name| + 5;
    assert SameFrom(s, t, n);
    SameTail(c, s, t, n, lead);
  }

  lemma BehindName(c: char, lead: bool, name: string, x: char, rest: string)
    requires ':' !in name
    ensures var s := "[:" + name + ":]" + [x] + rest;
            In(c, s, 0, lead) == (InNamed(name, c) || In(c, s, |name| + 5, lead))
  {
    var s := "[:" + name + ":]" + [x] + rest;
    assert s[2..2 + |name|] == name;
    NameEndFirst(s, 2, name);
  }

  predicate SameFrom(s: string, t: string, p: nat) {
    |s| == |t| && forall k :: p <= k < |s| ==> s[k] == t[k]
  }

  lemma {:induction false} NameEndSame(s: string, t: string, p: nat)
    requires SameFrom(s, t, p) && p <= |s|
    ensures NameEnd(s, p) == NameEnd(t, p)
    decreases |s| - p
  {
    if p + 1 < |s| {
      NameEndSame(s, t, p + 1);
    }
  }

  /** From inside on, the scan depends on the tail alone. */
  lemma {:induction false} SameTail(c: char, s: string, t: string, p: nat, lead: bool)
    requires SameFrom(s, t, p) && 0 < p <= |s|
    ensures In(c, s, p, lead) == In(c, t, p, lead)
    decreases |s| - p
  {
    hide InNamed, MatchOne, EscapeAtom, NameEnd;
    if p < |s| {
      if p + 2 <= |s| {
        NameEndSame(s, t, p + 2);
      }
      if OpensName(s, p) {
        var q := NameEnd(s, p + 2);
        assert s[p + 2..q] == t[p + 2..q];
        if q + 3 <= |s| {
          SameTail(c, s, t, q + 3, lead);
        }
      } else if s[p] == '\\' {
        if p + 2 <= |s| {
          SameTail(c, s, t, p + 2, lead);
        }
      } else {
        SameTail(c, s, t, p + 1, lead);
      }
    }
  }

  /** A digit class and an a in one bracket, and yet no a. */
  lemma NamedHidesNext()
    ensures !In('a', "[:digit:]a", 0, true)
  {
    BehindName('a', true, "digit", 'a', "");
    assert "[:" + "digit" + ":]" + ['a'] + "" == "[:digit:]a";
  }

  /** A dash at the end is a member exactly when no range comes before it. */
  lemma RangeHidesDash(ps: seq<Piece>, lead: bool)
    requires Tidy(ps, true) && forall k :: 0 <= k < |ps| ==> ps[k].Single? || ps[k].Range?
    ensures In('-', Spell(ps, true), 0, lead) <==> forall k :: 0 <= k < |ps| ==> !ps[k].Range?
  {
    SpelledIn('-', Spell(ps, true), 0, lead, ps, true);
    DashUnlessRange(ps);
  }

  lemma {:induction false} DashUnlessRange(ps: seq<Piece>)
    requires Tidy(ps, true) && forall k :: 0 <= k < |ps| ==> ps[k].Single? || ps[k].Range?
    ensures HasDash(ps, true) <==> forall k :: 0 <= k < |ps| ==> !ps[k].Range?
  {
    if |ps| > 0 {
      DashUnlessRange(ps[1..]);
      assert forall k :: 0 < k < |ps| ==> ps[k] == ps[1..][k - 1];
      assert forall k :: 0 <= k < |ps| - 1 ==> ps[1..][k] == ps[k + 1];
    }
  }

  /** An escaped dash with a character behind it is taken for a range from the backslash on. */
  lemma EscapedDashRange(c: char, hi: char, rest: string, lead: bool)
    requires c != '-' && '\\' <= c <= hi && hi != '\0'
    ensures In(c, ['\\', '-', hi] + rest, 0, lead)
  {
    var s := ['\\', '-', hi] + rest;
    assert s[0] == '\\' && s[1] == '-' && s[2] == hi;
    assert InRange(c, s, 0);
  }

  // ---- Brackets in a search ----

  /** What the contents of brackets stand for. */
  function ReadingOf(lead: bool): Reading {
    (s: string) => set c: char | c != '\0' && In(c, s, 0, lead)
  }

  /** The text of a bracket expression. */
  function BracketOf(neg: bool, ps: seq<Piece>, dash: bool): string {
    (if neg then "[^" else "[") + (Spell(ps, dash) + "]")
  }

  /** Whether a character belongs to the pieces, as the code sees it. */
  ghost predicate Belongs(ps: seq<Piece>, dash: bool, c: char) {
    if c == '-' then HasDash(ps, dash) else HasMember(ps, c)
  }

  lemma BracketMeans(lead: bool, neg: bool, ps: seq<Piece>, dash: bool, x: char)
    requires Tidy(ps, dash) && x != '\0' && (!neg ==> !(|Spell(ps, dash)| > 0 && Spell(ps, dash)[0] == '^'))
    ensures A.AtomMeans(ReadingOf(lead), BracketOf(neg, ps, dash), x) <==> Belongs(ps, dash, x) != neg
  {
    var s, t := Spell(ps, dash), BracketOf(neg, ps, dash);
    SpelledIn(x, s, 0, lead, ps, dash);
    assert s[0..] == s;
    assert t[if neg then 2 else 1..|t| - 1] == s;
  }

  ghost predicate FirstBelongs(neg: bool, ps: seq<Piece>, dash: bool, text: string, r: R.Outcome) {
    && (r.NoMatch? <==> forall i :: 0 <= i < |text| ==> Belongs(ps, dash, text[i]) == neg)
    && (r.Match? ==> r.alternative == 0 && r.start < |text| && Belongs(ps, dash, text[r.start]) != neg
                     && forall i :: 0 <= i < r.start ==> Belongs(ps, dash, text[i]) == neg)
  }

  /** regcomp on a bracket expression and regexec: the first character of the text that belongs to the pieces,
      or does not if the bracket is negated. */
  method SearchBracket(lead: bool, neg: bool, ps: seq<Piece>, dash: bool, text: string) returns (r: G.Option<R.Outcome>)
    requires Tidy(ps, dash) && (!neg ==> !(|Spell(ps, dash)| > 0 && Spell(ps, dash)[0] == '^')) && NoZero(text)
    requires X.AtomText(BracketOf(neg, ps, dash)) || X.NamedText(BracketOf(neg, ps, dash))
    ensures |BracketOf(neg, ps, dash)| <= G.SIZE_MAX / 32 ==> r.Some?
    ensures r.Some? ==> FirstBelongs(neg, ps, dash, text, r.value)
  {
    var t := BracketOf(neg, ps, dash);
    r := A.SearchAtom(ReadingOf(lead), t, text);
    forall i | 0 <= i < |text|
      ensures A.AtomMeans(ReadingOf(lead), t, text[i]) <==> Belongs(ps, dash, text[i]) != neg
    {
      BracketMeans(lead, neg, ps, dash, text[i]);
    }
  }
}
