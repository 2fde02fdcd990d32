/**
 * Range expansion preserves meaning: on the text of a well-formed pattern it
 * produces the text of the unrolled pattern, and the two patterns have the same
 * language.
 */
module RegexRangesProof {
  import opened RegexLanguage
  import opened RegexSyntax
  import opened RegexScan
  import opened RegexRanges

  // ---- Unrolling on the syntax ----

  function Copied(t: string, c: Count, k: nat, rest: Nodes): Nodes {
    if k == 0 then rest else Cons(Elem(t, c), Copied(t, c, k - 1, rest))
  }

  function UnrolledElem(t: string, c: Count, rest: Nodes): Nodes
    requires GoodCount(c)
  {
    match c
    case Exactly(d) => Copied(t, Once, NumberValue(d), rest)
    case AtLeast(d) => Copied(t, Once, NumberValue(d), Cons(Elem(t, Many), rest))
    case Between(d, e) =>
      if NumberValue(d) <= NumberValue(e) then
        Copied(t, Once, NumberValue(d), Copied(t, Optional, NumberValue(e) - NumberValue(d), rest))
      else Cons(Elem(t, Once), rest)
    case _ => Cons(Elem(t, c), rest)
  }

  function Unrolled(ns: Nodes): Nodes
    requires GoodNodes(ns, true)
  {
    match ns
    case Nil => Nil
    case Cons(n, rest) =>
      assert GoodNode(n, true);
      if n.Elem? then UnrolledElem(n.text, n.count, Unrolled(rest)) else Cons(n, Unrolled(rest))
  }

  function UnrolledAlts(a: Alts): Alts
    requires GoodAlts(a, true)
  {
    match a
    case Only(ns) => Only(Unrolled(ns))
    case Either(ns, others) => Either(Unrolled(ns), UnrolledAlts(others))
  }

  // ---- Reading items ----

  lemma {:induction false} ClassRestClosed(s: string, x: string)
    requires ClosesClass(s)
    ensures ClassRest(s + x) == |s|
  {
    if s[0] == ']' {
    } else if s[0] == '\\' {
      assert (s + x)[2..] == s[2..] + x;
      ClassRestClosed(s[2..], x);
    } else {
      assert (s + x)[1..] == s[1..] + x;
      ClassRestClosed(s[1..], x);
    }
  }

  lemma ItemOfAtom(t: string, x: string)
    requires PassItem(t)
    ensures ItemLen(t + x) == |t|
  {
    if t[0] == '[' {
      assert (t + x)[1..] == t[1..] + x;
      ClassRestClosed(t[1..], x);
    }
  }

  lemma {:induction false} GroupRestClass(s: string, x: string, depth: nat)
    requires ClosesClass(s) && '(' !in s && ')' !in s && depth > 0
    ensures GroupRest(s + x, depth) == |s| + GroupRest(x, depth)
  {
    if s[0] == ']' {
      assert (s + x)[1..] == x;
    } else if s[0] == '\\' {
      assert (s + x)[2..] == s[2..] + x;
      GroupRestClass(s[2..], x, depth);
    } else {
      assert (s + x)[1..] == s[1..] + x;
      GroupRestClass(s[1..], x, depth);
    }
  }

  lemma GroupRestAtom(t: string, x: string, depth: nat)
    requires PassItem(t) && depth > 0
    ensures GroupRest(t + x, depth) == |t| + GroupRest(x, depth)
  {
    if |t| == 1 {
      assert (t + x)[1..] == x;
    } else if t[0] == '\\' {
      assert (t + x)[2..] == x;
    } else {
      assert (t + x)[1..] == t[1..] + x;
      GroupRestClass(t[1..], x, depth);
    }
  }

  lemma {:induction false} GroupRestText(t: string, x: string, depth: nat)
    requires PassText(t) && depth > 0
    ensures GroupRest(t + x, depth) == |t| + GroupRest(x, depth)
    decreases |t|
  {
    if |t| == 0 {
      assert t + x == x;
    } else {
      var n := ItemLen(t);
      Regroup(t[..n], t[n..], x);
      assert t[..n] + t[n..] == t;
      GroupRestAtom(t[..n], t[n..] + x, depth);
      GroupRestText(t[n..], x, depth);
    }
  }

  /** The text of an element is a list of items for the passes. */
  lemma ElemPasses(t: string, c: Count)
    requires ElemText(t, c)
    ensures PassText(t) && |t| > 0 && t[0] != '{'
  {
    if AtomText(t) {
      assert t + "" == t;
      ItemOfAtom(t, "");
      assert t[..|t|] == t && t[|t|..] == "";
    }
  }

  lemma GroupRestPlain(c: char, x: string, depth: nat)
    requires c !in "\\()" && depth > 0
    ensures GroupRest([c] + x, depth) == 1 + GroupRest(x, depth)
  {
    assert ([c] + x)[1..] == x;
  }

  lemma {:induction false} GroupRestNode(n: Node, x: string, depth: nat)
    requires GoodNode(n, false) && depth > 0
    ensures GroupRest(RenderNode(n) + x, depth) == |RenderNode(n)| + GroupRest(x, depth)
    decreases n
  {
    match n
    case Elem(t, c) =>
      assert RenderNode(n) + x == t + (RenderCount(c) + x);
      ElemPasses(t, c);
      GroupRestText(t, RenderCount(c) + x, depth);
      if c.Once? {
        assert RenderCount(c) + x == x;
      } else {
        GroupRestPlain(RenderCount(c)[0], x, depth);
        assert RenderCount(c) + x == [RenderCount(c)[0]] + x;
      }
    case Anchor(start) =>
      GroupRestPlain(if start then '^' else '$', x, depth);
    case Group(body) =>
      var y := RenderAlts(body) + (")" + x);
      assert RenderNode(n) + x == "(" + y;
      assert ("(" + y)[1..] == y;
      GroupRestAlts(body, ")" + x, depth + 1);
      assert (")" + x)[1..] == x;
  }

  lemma {:induction false} GroupRestNodes(ns: Nodes, x: string, depth: nat)
    requires GoodNodes(ns, false) && depth > 0
    ensures GroupRest(RenderNodes(ns) + x, depth) == |RenderNodes(ns)| + GroupRest(x, depth)
    decreases ns
  {
    match ns
    case Nil =>
      assert RenderNodes(ns) + x == x;
    case Cons(n, rest) =>
      assert RenderNodes(ns) + x == RenderNode(n) + (RenderNodes(rest) + x);
      GroupRestNode(n, RenderNodes(rest) + x, depth);
      GroupRestNodes(rest, x, depth);
  }

  lemma {:induction false} GroupRestAlts(a: Alts, x: string, depth: nat)
    requires GoodAlts(a, false) && depth > 0
    ensures GroupRest(RenderAlts(a) + x, depth) == |RenderAlts(a)| + GroupRest(x, depth)
    decreases a
  {
    match a
    case Only(ns) =>
      GroupRestNodes(ns, x, depth);
    case Either(ns, others) =>
      assert RenderAlts(a) + x == RenderNodes(ns) + (['|'] + (RenderAlts(others) + x));
      GroupRestNodes(ns, ['|'] + (RenderAlts(others) + x), depth);
      GroupRestPlain('|', RenderAlts(others) + x, depth);
      GroupRestAlts(others, x, depth);
  }

  lemma ItemOfGroup(body: Alts, x: string)
    requires GoodAlts(body, false)
    ensures ItemLen(RenderNode(Group(body)) + x) == |RenderNode(Group(body))|
  {
    var s := RenderNode(Group(body)) + x;
    assert s[1..] == RenderAlts(body) + (")" + x);
    GroupRestAlts(body, ")" + x, 1);
    assert (")" + x)[1..] == x;
  }

  // ---- Reading ranges ----

  predicate NoBrace(x: string) {
    |x| == 0 || x[0] != '{'
  }

  /** The digits d stand at position i of s, and no digit follows them. */
  predicate DigitsAt(s: string, i: nat, d: string) {
    i + |d| <= |s| && AllDigits(d) && s[i..i + |d|] == d && (i + |d| == |s| || !IsDigit(s[i + |d|]))
  }

  lemma {:induction false} DigitsThen(s: string, i: nat, d: string, acc: nat)
    requires DigitsAt(s, i, d)
    ensures DigitEnd(s, i) == i + |d| && RunValue(s, i, acc) == DigitsValue(d, acc)
    decreases |d|
  {
    if |d| > 0 {
      assert s[i] == d[0];
      assert s[i + 1..i + |d|] == s[i..i + |d|][1..] == d[1..];
      DigitsThen(s, i + 1, d[1..], WithDigit(acc, d[0]));
    }
  }

  function RangeOf(c: Count): Range
    requires GoodCount(c)
  {
    match c
    case Exactly(d) => Range(|d| + 2, NumberValue(d), NumberValue(d), false)
    case AtLeast(d) => Range(|d| + 3, NumberValue(d), 0, true)
    case Between(d, e) => Range(|d| + |e| + 3, NumberValue(d), NumberValue(e), false)
    case _ => NoRange
  }

  lemma ExactlyRead(d: string, x: string)
    requires Number(d)
    ensures RangeAt(RenderCount(Exactly(d)) + x) == RangeOf(Exactly(d))
  {
    var s := RenderCount(Exactly(d)) + x;
    assert s[1..1 + |d|] == d && s[1 + |d|] == '}' && s[1] == d[0];
    DigitsThen(s, 1, d, 0);
  }

  lemma AtLeastRead(d: string, x: string)
    requires Number(d)
    ensures RangeAt(RenderCount(AtLeast(d)) + x) == RangeOf(AtLeast(d))
  {
    var s := RenderCount(AtLeast(d)) + x;
    assert s[1..1 + |d|] == d && s[1 + |d|] == ',' && s[2 + |d|] == '}' && s[1] == d[0];
    DigitsThen(s, 1, d, 0);
  }

  lemma BetweenRead(d: string, e: string, x: string)
    requires Number(d) && Number(e)
    ensures RangeAt(RenderCount(Between(d, e)) + x) == RangeOf(Between(d, e))
  {
    var s := RenderCount(Between(d, e)) + x;
    var k := 2 + |d|;
    assert s[1..1 + |d|] == d && s[1 + |d|] == ',' && s[1] == d[0];
    assert s[k..k + |e|] == e && s[k] == e[0] && s[k + |e|] == '}';
    DigitsThen(s, 1, d, 0);
    DigitsThen(s, k, e, 0);
  }

  // ---- One element at a time ----

  /** A whole item with no range after it is copied. */
  lemma RangesCopy(t: string, x: string)
    requires |t| > 0 && ItemLen(t + x) == |t| && NoBrace(x)
    ensures Ranges(t + x) == t + Ranges(x)
  {
    RangesSplit(t + x, t, x, NoRange);
    assert x[0..] == x;
  }

  lemma RangesSplit(s: string, t: string, rest: string, r: Range)
    requires |t| > 0 && s == t + rest && ItemLen(s) == |t| && r == RangeAt(rest)
    ensures Consumed(r) <= |rest| && Ranges(s) == Copies(t, r) + Ranges(rest[Consumed(r)..])
  {
    assert s[|t|..] == rest && s[..|t|] == t;
    Dropped(s, |t|, Consumed(r));
    RangesUnfold(s);
  }

  /** An item with a range after it is replaced by its copies. */
  lemma RangesRepeat(t: string, q: string, x: string, r: Range)
    requires |t| > 0 && ItemLen(t + (q + x)) == |t| && r == RangeAt(q + x) && r.Range? && r.consumed == |q|
    ensures Ranges(t + (q + x)) == Copies(t, r) + Ranges(x)
  {
    RangesSplit(t + (q + x), t, q + x, r);
    assert (q + x)[|q|..] == x;
  }

  /** A text without a range after it is copied. */
  lemma {:induction false} RangesText(t: string, x: string)
    requires PassText(t) && NoBrace(x)
    ensures Ranges(t + x) == t + Ranges(x)
    decreases |t|
  {
    if |t| == 0 {
      assert t + x == x;
      assert t + Ranges(x) == Ranges(x);
    } else {
      var n := ItemLen(t);
      var u, v := t[..n], t[n..];
      assert u + v == t;
      Regroup(u, v, x);
      TextNoBrace(v, x);
      ItemOfAtom(u, v + x);
      RangesCopy(u, v + x);
      RangesText(v, x);
      Regroup(u, v, Ranges(x));
    }
  }

  lemma TextNoBrace(v: string, x: string)
    requires PassText(v) && NoBrace(x)
    ensures NoBrace(v + x)
  {
    if |v| == 0 {
      assert v + x == x;
    } else {
      assert v[..ItemLen(v)][0] == v[0];
    }
  }

  /** What the pass makes of an element. */
  function Rewritten(t: string, c: Count): string
    requires GoodCount(c)
  {
    if Simple(c) then t + RenderCount(c) else Copies(t, RangeOf(c))
  }

  lemma RangeRead(c: Count, x: string)
    requires GoodCount(c) && !Simple(c)
    ensures RangeAt(RenderCount(c) + x) == RangeOf(c) && RangeOf(c).Range? && RangeOf(c).consumed == |RenderCount(c)|
  {
    match c
    case Exactly(d) => ExactlyRead(d, x);
    case AtLeast(d) => AtLeastRead(d, x);
    case Between(d, e) => BetweenRead(d, e, x);
  }

  /** A range applies to the one item before it. */
  lemma RangesRanged(t: string, c: Count, x: string)
    requires PassItem(t) && GoodCount(c) && !Simple(c)
    ensures Ranges(t + (RenderCount(c) + x)) == Rewritten(t, c) + Ranges(x)
  {
    ItemOfAtom(t, RenderCount(c) + x);
    RangeRead(c, x);
    RangesRepeat(t, RenderCount(c), x, RangeOf(c));
  }

  lemma RangesElem(t: string, c: Count, x: string)
    requires ElemText(t, c) && GoodCount(c) && NoBrace(x)
    ensures Ranges(t + (RenderCount(c) + x)) == Rewritten(t, c) + Ranges(x)
  {
    var q := RenderCount(c);
    if !Simple(c) {
      RangesRanged(t, c, x);
    } else {
      ElemPasses(t, c);
      RangesText(t, q + x);
      if c.Once? {
        assert q + x == x && t + q == t;
      } else {
        RangesCopy(q, x);
        Regroup(t, q, Ranges(x));
      }
    }
  }

  lemma {:induction false} TimesFront(s: string, k: nat)
    ensures s + Times(s, k) == Times(s, k) + s
  {
    if k > 0 {
      TimesFront(s, k - 1);
      assert s + (Times(s, k - 1) + s) == (s + Times(s, k - 1)) + s;
    }
  }

  lemma {:induction false} RenderCopied(t: string, c: Count, k: nat, rest: Nodes)
    ensures RenderNodes(Copied(t, c, k, rest)) == Times(t + RenderCount(c), k) + RenderNodes(rest)
  {
    var u := t + RenderCount(c);
    if k == 0 {
      assert "" + RenderNodes(rest) == RenderNodes(rest);
    } else {
      RenderCopied(t, c, k - 1, rest);
      TimesFront(u, k - 1);
      Regroup(u, Times(u, k - 1), RenderNodes(rest));
    }
  }

  lemma RenderAtLeast(t: string, d: string, rest: Nodes)
    requires Number(d)
    ensures RenderNodes(UnrolledElem(t, AtLeast(d), rest)) == Rewritten(t, AtLeast(d)) + RenderNodes(rest)
  {
    var k := NumberValue(d);
    RenderCopied(t, Once, k, Cons(Elem(t, Many), rest));
    assert t + "" == t;
    Regroup(Times(t, k), t + "*", RenderNodes(rest));
    Regroup(Times(t, k), t, "*");
  }

  lemma RenderBetween(t: string, d: string, e: string, rest: Nodes)
    requires Number(d) && Number(e) && NumberValue(d) <= NumberValue(e)
    ensures RenderNodes(UnrolledElem(t, Between(d, e), rest)) == Rewritten(t, Between(d, e)) + RenderNodes(rest)
  {
    var k := NumberValue(e) - NumberValue(d);
    RenderCopied(t, Once, NumberValue(d), Copied(t, Optional, k, rest));
    RenderCopied(t, Optional, k, rest);
    assert t + "" == t;
    Regroup(Times(t, NumberValue(d)), Times(t + "?", k), RenderNodes(rest));
  }

  lemma RenderUnrolledElem(t: string, c: Count, rest: Nodes)
    requires GoodCount(c)
    ensures RenderNodes(UnrolledElem(t, c, rest)) == Rewritten(t, c) + RenderNodes(rest)
  {
    match c
    case Exactly(d) =>
      RenderCopied(t, Once, NumberValue(d), rest);
      assert t + "" == t;
      assert Times(t, NumberValue(d)) + "" == Times(t, NumberValue(d));
    case AtLeast(d) =>
      RenderAtLeast(t, d, rest);
    case Between(d, e) =>
      if NumberValue(d) <= NumberValue(e) {
        RenderBetween(t, d, e, rest);
      } else {
        assert t + "" == t;
      }
    case _ =>
  }

  lemma RenderNoBrace(ns: Nodes)
    requires GoodNodes(ns, true)
    ensures NoBrace(RenderNodes(ns))
  {
    if ns.Cons? {
      assert GoodNode(ns.node, true);
      if ns.node.Elem? {
        ElemPasses(ns.node.text, ns.node.count);
      }
      assert |RenderNode(ns.node)| > 0 && RenderNode(ns.node)[0] != '{';
    }
  }

  function Head(n: Node): string
    requires GoodNode(n, true)
  {
    if n.Elem? then Rewritten(n.text, n.count) else RenderNode(n)
  }

  lemma RangesNode(n: Node, y: string)
    requires GoodNode(n, true) && NoBrace(y)
    ensures Ranges(RenderNode(n) + y) == Head(n) + Ranges(y)
  {
    match n
    case Elem(t, c) =>
      Regroup(t, RenderCount(c), y);
      RangesElem(t, c, y);
    case Anchor(start) =>
      RangesCopy(RenderNode(n), y);
    case Group(body) =>
      ItemOfGroup(body, y);
      RangesCopy(RenderNode(n), y);
  }

  lemma RenderUnrolled(n: Node, rest: Nodes)
    requires GoodNode(n, true) && GoodNodes(rest, true)
    ensures RenderNodes(Unrolled(Cons(n, rest))) == Head(n) + RenderNodes(Unrolled(rest))
  {
    if n.Elem? {
      RenderUnrolledElem(n.text, n.count, Unrolled(rest));
    }
  }

  /** The nodes of one alternative followed by any text that does not open a range. */
  lemma {:induction false} RangesNodes(ns: Nodes, x: string)
    requires GoodNodes(ns, true) && NoBrace(x)
    ensures Ranges(RenderNodes(ns) + x) == RenderNodes(Unrolled(ns)) + Ranges(x)
    decreases ns
  {
    match ns
    case Nil =>
      assert RenderNodes(ns) + x == x;
    case Cons(n, rest) =>
      RenderNoBrace(rest);
      RangesNodes(rest, x);
      Regroup(RenderNode(n), RenderNodes(rest), x);
      RangesNode(n, RenderNodes(rest) + x);
      RenderUnrolled(n, rest);
      Regroup(Head(n), RenderNodes(Unrolled(rest)), Ranges(x));
  }

  /** On the text of a well-formed pattern the pass yields the text of the unrolled pattern. */
  lemma {:induction false} RangesUnroll(a: Alts)
    requires GoodAlts(a, true)
    ensures Ranges(RenderAlts(a)) == RenderAlts(UnrolledAlts(a))
  {
    match a
    case Only(ns) =>
      RangesNodes(ns, "");
      assert RenderNodes(ns) + "" == RenderNodes(ns);
      assert RenderNodes(Unrolled(ns)) + "" == RenderNodes(Unrolled(ns));
    case Either(ns, others) =>
      Regroup(RenderNodes(ns), "|", RenderAlts(others));
      RangesNodes(ns, "|" + RenderAlts(others));
      AltsNoBrace(others);
      RangesCopy("|", RenderAlts(others));
      RangesUnroll(others);
      Regroup(RenderNodes(Unrolled(ns)), "|", RenderAlts(UnrolledAlts(others)));
  }

  lemma AltsNoBrace(a: Alts)
    requires GoodAlts(a, true)
    ensures NoBrace(RenderAlts(a))
  {
    RenderNoBrace(a.nodes);
  }

  // ---- Unrolling keeps the language ----

  predicate OrderedCount(c: Count)
    requires GoodCount(c)
  {
    c.Between? ==> NumberValue(c.d) <= NumberValue(c.e)
  }

  /** Every range {m,n} outside groups has m <= n. */
  predicate Ordered(ns: Nodes)
    requires GoodNodes(ns, true)
  {
    match ns
    case Nil => true
    case Cons(n, rest) =>
      assert GoodNode(n, true);
      (n.Elem? ==> OrderedCount(n.count)) && Ordered(rest)
  }

  predicate OrderedAlts(a: Alts)
    requires GoodAlts(a, true)
  {
    match a
    case Only(ns) => Ordered(ns)
    case Either(ns, others) => Ordered(ns) && OrderedAlts(others)
  }

  lemma {:induction false} CopiedGood(t: string, c: Count, k: nat, rest: Nodes, ranges: bool)
    requires AtomText(t) && Simple(c) && GoodNodes(rest, ranges)
    ensures GoodNodes(Copied(t, c, k, rest), ranges)
  {
    if k > 0 {
      CopiedGood(t, c, k - 1, rest, ranges);
      assert GoodNode(Elem(t, c), ranges);
    }
  }

  lemma UnrolledElemGood(t: string, c: Count, rest: Nodes, ranges: bool)
    requires ElemText(t, c) && GoodCount(c) && GoodNodes(rest, ranges)
    ensures GoodNodes(UnrolledElem(t, c, rest), ranges)
  {
    assert !Simple(c) ==> GoodNode(Elem(t, Many), ranges) && GoodNode(Elem(t, Once), ranges);
    match c
    case Exactly(d) => CopiedGood(t, Once, NumberValue(d), rest, ranges);
    case AtLeast(d) => CopiedGood(t, Once, NumberValue(d), Cons(Elem(t, Many), rest), ranges);
    case Between(d, e) =>
      if NumberValue(d) <= NumberValue(e) {
        CopiedGood(t, Optional, NumberValue(e) - NumberValue(d), rest, ranges);
        CopiedGood(t, Once, NumberValue(d), Copied(t, Optional, NumberValue(e) - NumberValue(d), rest), ranges);
      }
    case _ =>
      assert GoodNode(Elem(t, c), ranges);
  }

  /** No range is left. */
  lemma {:induction false} UnrolledGood(ns: Nodes, ranges: bool)
    requires GoodNodes(ns, true)
    ensures GoodNodes(Unrolled(ns), ranges)
  {
    if ns.Cons? {
      var n := ns.node;
      assert GoodNode(n, true);
      UnrolledGood(ns.rest, ranges);
      if n.Elem? {
        UnrolledElemGood(n.text, n.count, Unrolled(ns.rest), ranges);
      } else {
        assert GoodNode(n, ranges);
      }
    }
  }

  lemma {:induction false} UnrolledAltsGood(a: Alts, ranges: bool)
    requires GoodAlts(a, true)
    ensures GoodAlts(UnrolledAlts(a), ranges)
  {
    UnrolledGood(a.nodes, ranges);
    if a.Either? {
      UnrolledAltsGood(a.others, ranges);
    }
  }

  /** The rest matches from p on, after a run of between lo and hi characters. */
  ghost predicate After(sense: Sense, t: string, lo: nat, hi: Bound, rest: Nodes, text: string, i: int, p: int, j: int)
    requires GoodNodes(rest, true)
  {
    Covers(Rep(sense(t), lo, hi), text, i, p) && InNodes(sense, rest, text, p, j)
  }

  ghost predicate Counted(sense: Sense, t: string, lo: nat, hi: Bound, rest: Nodes, text: string, i: int, j: int)
    requires GoodNodes(rest, true)
  {
    exists p: int :: After(sense, t, lo, hi, rest, text, i, p, j)
  }

  lemma ElemCounted(sense: Sense, t: string, c: Count, rest: Nodes, text: string, i: int, j: int)
    requires ElemText(t, c) && GoodCount(c) && GoodNodes(rest, true)
    ensures GoodNodes(Cons(Elem(t, c), rest), true)
    ensures var item := ElemItem(sense, t, c);
            InNodes(sense, Cons(Elem(t, c), rest), text, i, j) <==>
            Counted(sense, t, item.min, item.max, rest, text, i, j)
  {
    assert GoodNode(Elem(t, c), true);
    var item := ElemItem(sense, t, c);
    if InNodes(sense, Cons(Elem(t, c), rest), text, i, j) {
      var k := ConsSplit(sense, Elem(t, c), rest, text, i, j);
      assert After(sense, t, item.min, item.max, rest, text, i, k, j);
    }
    if p: int :| After(sense, t, item.min, item.max, rest, text, i, p, j) {
      ConsJoin(sense, Elem(t, c), rest, text, i, p, j);
    }
  }

  lemma CountedNone(sense: Sense, t: string, rest: Nodes, text: string, i: int, j: int)
    requires GoodNodes(rest, true) && 0 <= i <= |text|
    ensures Counted(sense, t, 0, Upto(0), rest, text, i, j) <==> InNodes(sense, rest, text, i, j)
  {
    if InNodes(sense, rest, text, i, j) {
      assert After(sense, t, 0, Upto(0), rest, text, i, i, j);
    }
  }

  function Plus(a: Bound, n: nat): Bound {
    if a.Endless? then Endless else Upto(a.n + n)
  }

  /** One more mandatory copy in front. */
  lemma CountedStep(sense: Sense, t: string, lo: nat, hi: Bound, front: Nodes, rest: Nodes, text: string, i: int, j: int)
    requires AtomText(t) && GoodNodes(rest, true) && GoodNodes(front, true)
    requires forall k: int :: 0 <= k <= |text| ==>
      (InNodes(sense, front, text, k, j) <==> Counted(sense, t, lo, hi, rest, text, k, j))
    ensures Counted(sense, t, 1, Upto(1), front, text, i, j) <==> Counted(sense, t, lo + 1, Plus(hi, 1), rest, text, i, j)
  {
    var lo1, hi1 := lo + 1, Plus(hi, 1);
    if p: int :| After(sense, t, 1, Upto(1), front, text, i, p, j) {
      assert p == i + 1;
      var q: int :| After(sense, t, lo, hi, rest, text, p, q, j);
      assert After(sense, t, lo1, hi1, rest, text, i, q, j);
    }
    if q: int :| After(sense, t, lo1, hi1, rest, text, i, q, j) {
      assert After(sense, t, lo, hi, rest, text, i + 1, q, j);
      assert InNodes(sense, front, text, i + 1, j);
      assert After(sense, t, 1, Upto(1), front, text, i, i + 1, j);
    }
  }

  /** k mandatory copies in front of something counted. */
  lemma {:induction false} CopiedCounted(sense: Sense, t: string, k: nat, lo: nat, hi: Bound, front: Nodes, rest: Nodes, text: string, i: int, j: int)
    requires AtomText(t) && GoodNodes(rest, true) && GoodNodes(front, true) && 0 <= i <= |text|
    requires forall x: int :: 0 <= x <= |text| ==>
      (InNodes(sense, front, text, x, j) <==> Counted(sense, t, lo, hi, rest, text, x, j))
    ensures GoodNodes(Copied(t, Once, k, front), true)
    ensures InNodes(sense, Copied(t, Once, k, front), text, i, j) <==>
            Counted(sense, t, lo + k, Plus(hi, k), rest, text, i, j)
    decreases k
  {
    hide InNodes, Counted, AtomText, NamedText;
    CopiedGood(t, Once, k, front, true);
    if k > 0 {
      var shorter := Copied(t, Once, k - 1, front);
      CopiedGood(t, Once, k - 1, front, true);
      forall x: int | 0 <= x <= |text|
        ensures InNodes(sense, shorter, text, x, j) <==> Counted(sense, t, lo + k - 1, Plus(hi, k - 1), rest, text, x, j)
      {
        CopiedCounted(sense, t, k - 1, lo, hi, front, rest, text, x, j);
      }
      CountedStep(sense, t, lo + k - 1, Plus(hi, k - 1), shorter, rest, text, i, j);
      ElemCounted(sense, t, Once, shorter, text, i, j);
    }
  }

  /** One more optional copy in front. */
  lemma OptionalStep(sense: Sense, t: string, hi: nat, front: Nodes, rest: Nodes, text: string, i: int, j: int)
    requires AtomText(t) && GoodNodes(rest, true) && GoodNodes(front, true) && 0 <= i <= |text|
    requires forall k: int :: 0 <= k <= |text| ==>
      (InNodes(sense, front, text, k, j) <==> Counted(sense, t, 0, Upto(hi), rest, text, k, j))
    ensures Counted(sense, t, 0, Upto(1), front, text, i, j) <==> Counted(sense, t, 0, Upto(hi + 1), rest, text, i, j)
  {
    var more := Upto(hi + 1);
    if p: int :| After(sense, t, 0, Upto(1), front, text, i, p, j) {
      var q: int :| After(sense, t, 0, Upto(hi), rest, text, p, q, j);
      assert After(sense, t, 0, more, rest, text, i, q, j);
    }
    if q: int :| After(sense, t, 0, more, rest, text, i, q, j) {
      var p := if q == i then i else i + 1;
      assert After(sense, t, 0, Upto(hi), rest, text, p, q, j);
      assert InNodes(sense, front, text, p, j);
      assert After(sense, t, 0, Upto(1), front, text, i, p, j);
    }
  }

  lemma {:induction false} OptionalCounted(sense: Sense, t: string, k: nat, rest: Nodes, text: string, i: int, j: int)
    requires AtomText(t) && GoodNodes(rest, true) && 0 <= i <= |text|
    ensures GoodNodes(Copied(t, Optional, k, rest), true)
    ensures InNodes(sense, Copied(t, Optional, k, rest), text, i, j) <==> Counted(sense, t, 0, Upto(k), rest, text, i, j)
    decreases k
  {
    CopiedGood(t, Optional, k, rest, true);
    if k == 0 {
      CountedNone(sense, t, rest, text, i, j);
    } else {
      var shorter := Copied(t, Optional, k - 1, rest);
      CopiedGood(t, Optional, k - 1, rest, true);
      forall x: int | 0 <= x <= |text|
        ensures InNodes(sense, shorter, text, x, j) <==> Counted(sense, t, 0, Upto(k - 1), rest, text, x, j)
      {
        OptionalCounted(sense, t, k - 1, rest, text, x, j);
      }
      OptionalStep(sense, t, k - 1, shorter, rest, text, i, j);
      ElemCounted(sense, t, Optional, shorter, text, i, j);
    }
  }

  /** The copies of one element have the language of the element. */
  lemma UnrolledElemKeeps(sense: Sense, t: string, c: Count, rest: Nodes, text: string, i: int, j: int)
    requires ElemText(t, c) && GoodCount(c) && OrderedCount(c) && GoodNodes(rest, true) && 0 <= i <= |text|
    ensures GoodNodes(UnrolledElem(t, c, rest), true)
    ensures var item := ElemItem(sense, t, c);
            InNodes(sense, UnrolledElem(t, c, rest), text, i, j) <==>
            Counted(sense, t, item.min, item.max, rest, text, i, j)
  {
    UnrolledElemGood(t, c, rest, true);
    match c
    case Exactly(d) =>
      forall x: int | 0 <= x <= |text|
        ensures InNodes(sense, rest, text, x, j) <==> Counted(sense, t, 0, Upto(0), rest, text, x, j)
      {
        CountedNone(sense, t, rest, text, x, j);
      }
      CopiedCounted(sense, t, NumberValue(d), 0, Upto(0), rest, rest, text, i, j);
    case AtLeast(d) =>
      var front := Cons(Elem(t, Many), rest);
      assert GoodNode(Elem(t, Many), true);
      forall x: int | 0 <= x <= |text|
        ensures InNodes(sense, front, text, x, j) <==> Counted(sense, t, 0, Endless, rest, text, x, j)
      {
        ElemCounted(sense, t, Many, rest, text, x, j);
      }
      CopiedCounted(sense, t, NumberValue(d), 0, Endless, front, rest, text, i, j);
    case Between(d, e) =>
      var k := NumberValue(e) - NumberValue(d);
      var front := Copied(t, Optional, k, rest);
      CopiedGood(t, Optional, k, rest, true);
      forall x: int | 0 <= x <= |text|
        ensures InNodes(sense, front, text, x, j) <==> Counted(sense, t, 0, Upto(k), rest, text, x, j)
      {
        OptionalCounted(sense, t, k, rest, text, x, j);
      }
      CopiedCounted(sense, t, NumberValue(d), 0, Upto(k), front, rest, text, i, j);
    case _ =>
      ElemCounted(sense, t, c, rest, text, i, j);
  }

  lemma {:induction false} UnrolledKeeps(sense: Sense, ns: Nodes, text: string, i: int, j: int)
    requires GoodNodes(ns, true) && Ordered(ns) && 0 <= i <= |text|
    ensures GoodNodes(Unrolled(ns), true)
    ensures InNodes(sense, ns, text, i, j) <==> InNodes(sense, Unrolled(ns), text, i, j)
    decreases ns
  {
    UnrolledGood(ns, true);
    if ns.Cons? {
      var n, rest, tail := ns.node, ns.rest, Unrolled(ns.rest);
      assert GoodNode(n, true);
      UnrolledGood(rest, true);
      forall k: int | 0 <= k <= |text|
        ensures InNodes(sense, rest, text, k, j) <==> InNodes(sense, tail, text, k, j)
      {
        UnrolledKeeps(sense, rest, text, k, j);
      }
      NodesCongruent(sense, n, rest, tail, text, i, j);
      if n.Elem? {
        UnrolledElemKeeps(sense, n.text, n.count, tail, text, i, j);
        ElemCounted(sense, n.text, n.count, tail, text, i, j);
      }
    }
  }

  lemma NodesCongruent(sense: Sense, n: Node, rest: Nodes, tail: Nodes, text: string, i: int, j: int)
    requires GoodNode(n, true) && GoodNodes(rest, true) && GoodNodes(tail, true)
    requires forall k: int :: 0 <= k <= |text| ==> (InNodes(sense, rest, text, k, j) <==> InNodes(sense, tail, text, k, j))
    ensures InNodes(sense, Cons(n, rest), text, i, j) <==> InNodes(sense, Cons(n, tail), text, i, j)
  {
    if InNodes(sense, Cons(n, rest), text, i, j) {
      var k := ConsSplit(sense, n, rest, text, i, j);
      ConsJoin(sense, n, tail, text, i, k, j);
    }
    if InNodes(sense, Cons(n, tail), text, i, j) {
      var k := ConsSplit(sense, n, tail, text, i, j);
      ConsJoin(sense, n, rest, text, i, k, j);
    }
  }

  /** The rewritten pattern has the language of the pattern, for every reading of the atoms and every text. */
  lemma {:induction false} RangesKeepLanguage(sense: Sense, a: Alts, text: string, i: int, j: int)
    requires GoodAlts(a, true) && OrderedAlts(a) && 0 <= i <= |text|
    ensures Ranges(RenderAlts(a)) == RenderAlts(UnrolledAlts(a))
    ensures GoodAlts(UnrolledAlts(a), true) && GoodAlts(UnrolledAlts(a), false)
    ensures InAlts(sense, a, text, i, j) <==> InAlts(sense, UnrolledAlts(a), text, i, j)
    decreases a
  {
    RangesUnroll(a);
    UnrolledAltsGood(a, true);
    UnrolledAltsGood(a, false);
    UnrolledKeeps(sense, a.nodes, text, i, j);
    if a.Either? {
      RangesKeepLanguage(sense, a.others, text, i, j);
    }
  }

  /** An element alone and what the pass makes of it cover the same stretch or neither does. */
  ghost predicate Agrees(sense: Sense, t: string, c: Count, text: string, i: int, j: int)
    requires ElemText(t, c) && GoodCount(c)
  {
    UnrolledElemGood(t, c, Nil, true);
    InNodes(sense, Cons(Elem(t, c), Nil), text, i, j) <==> InNodes(sense, UnrolledElem(t, c, Nil), text, i, j)
  }

  /** For every reading of the atoms, every text and every stretch. */
  ghost predicate SameLanguage(t: string, c: Count)
    requires ElemText(t, c) && GoodCount(c)
  {
    forall sense: Sense, text: string, i: int, j: int :: 0 <= i <= |text| ==> Agrees(sense, t, c, text, i, j)
  }

  lemma BackwardNothing(sense: Sense, t: string, c: Count, text: string, i: int, j: int)
    requires ElemText(t, c) && GoodCount(c) && !OrderedCount(c)
    ensures GoodNode(Elem(t, c), true) && !InNodes(sense, Cons(Elem(t, c), Nil), text, i, j)
  {
    assert GoodNode(Elem(t, c), true);
    if InNodes(sense, Cons(Elem(t, c), Nil), text, i, j) {
      var k := ConsSplit(sense, Elem(t, c), Nil, text, i, j);
    }
  }

  lemma OnceCovers(sense: Sense, t: string, text: string, i: int)
    requires ElemText(t, Once) && 0 <= i < |text| && MatchOne(sense(t), text[i])
    ensures GoodNode(Elem(t, Once), true) && InNodes(sense, Cons(Elem(t, Once), Nil), text, i, i + 1)
  {
    assert Position(text, i + 1) && InNode(sense, Elem(t, Once), text, i, i + 1);
  }

  /** A range {m,n} with m > n denotes nothing, but the pass turns it into one copy of the atom, so any
      character the atom stands for tells them apart. */
  lemma BackwardRange(sense: Sense, t: string, c: Count, x: string, text: string, i: int)
    requires ElemText(t, c) && GoodCount(c) && !OrderedCount(c) && NoBrace(x)
    requires 0 <= i < |text| && MatchOne(sense(t), text[i])
    ensures Ranges(t + (RenderCount(c) + x)) == t + Ranges(x)
    ensures !Agrees(sense, t, c, text, i, i + 1)
  {
    RangesElem(t, c, x);
    hide InNodes, InNode;
    BackwardNothing(sense, t, c, text, i, i + 1);
    OnceCovers(sense, t, text, i);
    assert UnrolledElem(t, c, Nil) == Cons(Elem(t, Once), Nil);
  }

  /** An element keeps its language through the pass exactly when its range is not backward. */
  lemma RangeKeptIff(t: string, c: Count)
    requires ElemText(t, c) && GoodCount(c)
    ensures SameLanguage(t, c) <==> OrderedCount(c)
  {
    if OrderedCount(c) {
      forall sense: Sense, text: string, i: int, j: int | 0 <= i <= |text|
        ensures Agrees(sense, t, c, text, i, j)
      {
        UnrolledElemKeeps(sense, t, c, Nil, text, i, j);
        ElemCounted(sense, t, c, Nil, text, i, j);
      }
    } else {
      var any: Sense := _ => Dot;
      BackwardRange(any, t, c, "", "a", 0);
    }
  }
}
