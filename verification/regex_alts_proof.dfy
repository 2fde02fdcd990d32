/**
 * Alternation expansion preserves meaning: on the text of a well-formed pattern
 * it lists the texts of the pattern's branches, and the language of the pattern
 * is the union of the languages of the branches.
 */
module RegexAltsProof {
  import opened RegexLanguage
  import opened RegexSyntax
  import opened RegexScan
  import opened RegexRanges
  import opened RegexRangesProof
  import opened RegexAlts

  // ---- Branches on the syntax ----

  /** A piece of a branch: an element or anchor, or a parenthesis kept from a group. */
  datatype Piece = Unit(node: Node) | OpenParen | CloseParen

  type Branch = seq<Piece>

  function Grown(cur: seq<Branch>, n: Node): (r: seq<Branch>)
    ensures |r| == |cur| && forall k :: 0 <= k < |cur| ==> r[k] == cur[k] + [Unit(n)]
  {
    seq(|cur|, k requires 0 <= k < |cur| => cur[k] + [Unit(n)])
  }

  function Enclosed(c: Branch, b: Branch): Branch {
    c + [OpenParen] + b + [CloseParen]
  }

  function BranchRow(c: Branch, sub: seq<Branch>): (r: seq<Branch>)
    ensures |r| == |sub| && forall m :: 0 <= m < |sub| ==> r[m] == Enclosed(c, sub[m])
  {
    seq(|sub|, m requires 0 <= m < |sub| => Enclosed(c, sub[m]))
  }

  function BranchCross(cur: seq<Branch>, sub: seq<Branch>): seq<Branch> {
    if |cur| == 0 then [] else BranchCross(cur[..|cur| - 1], sub) + BranchRow(cur[|cur| - 1], sub)
  }

  function BranchNodes(ns: Nodes, cur: seq<Branch>): seq<Branch>
    decreases ns, 0
  {
    match ns
    case Nil => cur
    case Cons(n, rest) =>
      match n
      case Group(body) => BranchNodes(rest, BranchCross(cur, Branches(body)))
      case _ => BranchNodes(rest, Grown(cur, n))
  }

  function Branches(a: Alts): seq<Branch>
    decreases a
  {
    match a
    case Only(ns) => BranchNodes(ns, [[]])
    case Either(ns, others) => BranchNodes(ns, [[]]) + Branches(others)
  }

  function PieceText(p: Piece): string {
    match p
    case Unit(n) => RenderNode(n)
    case OpenParen => "("
    case CloseParen => ")"
  }

  function BranchText(b: Branch): string {
    if |b| == 0 then "" else BranchText(b[..|b| - 1]) + PieceText(b[|b| - 1])
  }

  function Texts(bs: seq<Branch>): (ts: seq<string>)
    ensures |ts| == |bs| && forall k :: 0 <= k < |bs| ==> ts[k] == BranchText(bs[k])
  {
    seq(|bs|, k requires 0 <= k < |bs| => BranchText(bs[k]))
  }

  lemma {:induction false} BranchTextConcat(a: Branch, b: Branch)
    ensures BranchText(a + b) == BranchText(a) + BranchText(b)
  {
    if |b| == 0 {
      assert a + b == a;
    } else {
      var n := |b| - 1;
      assert (a + b)[..|a + b| - 1] == a + b[..n];
      BranchTextConcat(a, b[..n]);
      Regroup(BranchText(a), BranchText(b[..n]), PieceText(b[n]));
    }
  }

  lemma EnclosedText(c: Branch, b: Branch)
    ensures BranchText(Enclosed(c, b)) == BranchText(c) + "(" + BranchText(b) + ")"
  {
    assert (c + [OpenParen] + b + [CloseParen])[..|c| + 1 + |b|] == c + [OpenParen] + b;
    BranchTextConcat(c + [OpenParen], b);
    assert (c + [OpenParen])[..|c|] == c;
  }

  lemma GrownTexts(cur: seq<Branch>, n: Node)
    ensures Texts(Grown(cur, n)) == AppendAll(Texts(cur), RenderNode(n))
  {
    forall k | 0 <= k < |cur|
      ensures BranchText(cur[k] + [Unit(n)]) == BranchText(cur[k]) + RenderNode(n)
    {
      assert (cur[k] + [Unit(n)])[..|cur[k]|] == cur[k];
    }
  }

  lemma RowTexts(c: Branch, sub: seq<Branch>)
    ensures Texts(BranchRow(c, sub)) == Row(BranchText(c), Texts(sub))
  {
    forall m | 0 <= m < |sub|
      ensures Texts(BranchRow(c, sub))[m] == Row(BranchText(c), Texts(sub))[m]
    {
      EnclosedText(c, sub[m]);
    }
  }

  lemma TextsConcat(a: seq<Branch>, b: seq<Branch>)
    ensures Texts(a + b) == Texts(a) + Texts(b)
  {
  }

  lemma {:induction false} CrossTexts(cur: seq<Branch>, sub: seq<Branch>)
    ensures Texts(BranchCross(cur, sub)) == Cross(Texts(cur), Texts(sub))
  {
    if |cur| > 0 {
      var n := |cur| - 1;
      CrossTexts(cur[..n], sub);
      RowTexts(cur[n], sub);
      TextsConcat(BranchCross(cur[..n], sub), BranchRow(cur[n], sub));
      assert Texts(cur)[..n] == Texts(cur[..n]);
    }
  }

  // ---- The scan for top-level bars ----

  lemma {:induction false} SegmentsClass(s: string, x: string, acc: string, level: nat)
    requires ClosesClass(s)
    ensures Segments(s + x, acc, level, true) == Segments(x, acc + s, level, false)
  {
    var y := s + x;
    if s[0] == ']' {
      assert y[1..] == x && y[..1] == s;
    } else if s[0] == '\\' {
      assert y[2..] == s[2..] + x && y[..2] == s[..2];
      SegmentsClass(s[2..], x, acc + s[..2], level);
      assert acc + s[..2] + s[2..] == acc + s;
    } else {
      assert y[1..] == s[1..] + x && y[..1] == s[..1];
      SegmentsClass(s[1..], x, acc + s[..1], level);
      assert acc + s[..1] + s[1..] == acc + s;
    }
  }

  lemma SegmentsPlain(c: char, x: string, acc: string, level: nat)
    requires c !in "\\[()|" || (c == '|' && level > 0)
    ensures Segments([c] + x, acc, level, false) == Segments(x, acc + [c], level, false)
  {
    assert ([c] + x)[1..] == x && ([c] + x)[..1] == [c];
  }

  lemma SegmentsAtom(t: string, x: string, acc: string, level: nat)
    requires PassItem(t)
    ensures Segments(t + x, acc, level, false) == Segments(x, acc + t, level, false)
  {
    var y := t + x;
    if |t| == 1 {
      SegmentsPlain(t[0], x, acc, level);
      assert t == [t[0]];
    } else if t[0] == '\\' {
      assert y[2..] == x && y[..2] == t;
    } else {
      assert y[1..] == t[1..] + x && y[..1] == t[..1];
      SegmentsClass(t[1..], x, acc + t[..1], level);
      assert acc + t[..1] + t[1..] == acc + t;
    }
  }

  lemma {:induction false} SegmentsText(t: string, x: string, acc: string, level: nat)
    requires PassText(t)
    ensures Segments(t + x, acc, level, false) == Segments(x, acc + t, level, false)
    decreases |t|
  {
    if |t| == 0 {
      assert t + x == x && acc + t == acc;
    } else {
      var n := ItemLen(t);
      var u, v := t[..n], t[n..];
      assert u + v == t;
      Regroup(u, v, x);
      SegmentsAtom(u, v + x, acc, level);
      SegmentsText(v, x, acc + u, level);
      Regroup(acc, u, v);
    }
  }

  lemma SegmentsCount(c: Count, x: string, acc: string, level: nat)
    requires Simple(c)
    ensures Segments(RenderCount(c) + x, acc, level, false) == Segments(x, acc + RenderCount(c), level, false)
  {
    if c.Once? {
      assert RenderCount(c) + x == x && acc + RenderCount(c) == acc;
    } else {
      SegmentsPlain(RenderCount(c)[0], x, acc, level);
      assert RenderCount(c) == [RenderCount(c)[0]];
    }
  }

  lemma {:induction false} SegmentsNode(n: Node, x: string, acc: string, level: nat)
    requires GoodNode(n, false)
    ensures Segments(RenderNode(n) + x, acc, level, false) == Segments(x, acc + RenderNode(n), level, false)
    decreases n
  {
    match n
    case Elem(t, c) =>
      Regroup(t, RenderCount(c), x);
      ElemPasses(t, c);
      SegmentsText(t, RenderCount(c) + x, acc, level);
      SegmentsCount(c, x, acc + t, level);
      Regroup(acc, t, RenderCount(c));
    case Anchor(start) =>
      SegmentsPlain(if start then '^' else '$', x, acc, level);
    case Group(body) =>
      SegmentsGroup(body, x, acc, level);
  }

  lemma {:induction false} SegmentsGroup(body: Alts, x: string, acc: string, level: nat)
    requires GoodAlts(body, false)
    ensures var g := RenderNode(Group(body));
            Segments(g + x, acc, level, false) == Segments(x, acc + g, level, false)
    decreases body, 1
  {
    var g := RenderNode(Group(body));
    var y := RenderAlts(body) + (")" + x);
    assert g + x == "(" + y && ("(" + y)[1..] == y && ("(" + y)[..1] == "(";
    SegmentsAlts(body, ")" + x, acc + "(", level + 1);
    assert (")" + x)[1..] == x && (")" + x)[..1] == ")";
    assert acc + "(" + RenderAlts(body) + ")" == acc + g;
  }

  lemma {:induction false} SegmentsNodes(ns: Nodes, x: string, acc: string, level: nat)
    requires GoodNodes(ns, false)
    ensures Segments(RenderNodes(ns) + x, acc, level, false) == Segments(x, acc + RenderNodes(ns), level, false)
    decreases ns
  {
    match ns
    case Nil =>
      assert RenderNodes(ns) + x == x && acc + RenderNodes(ns) == acc;
    case Cons(n, rest) =>
      Regroup(RenderNode(n), RenderNodes(rest), x);
      SegmentsNode(n, RenderNodes(rest) + x, acc, level);
      SegmentsNodes(rest, x, acc + RenderNode(n), level);
      Regroup(acc, RenderNode(n), RenderNodes(rest));
  }

  /** Inside a group the bars do not split. */
  lemma {:induction false} SegmentsAlts(a: Alts, x: string, acc: string, level: nat)
    requires GoodAlts(a, false) && level > 0
    ensures Segments(RenderAlts(a) + x, acc, level, false) == Segments(x, acc + RenderAlts(a), level, false)
    decreases a, 0
  {
    match a
    case Only(ns) =>
      SegmentsNodes(ns, x, acc, level);
    case Either(ns, others) =>
      var y := RenderAlts(others) + x;
      assert RenderAlts(a) + x == RenderNodes(ns) + (['|'] + y);
      SegmentsNodes(ns, ['|'] + y, acc, level);
      SegmentsPlain('|', y, acc + RenderNodes(ns), level);
      SegmentsAlts(others, x, acc + RenderNodes(ns) + ['|'], level);
      assert acc + RenderNodes(ns) + ['|'] + RenderAlts(others) == acc + RenderAlts(a);
  }

  /** The texts of the top-level alternatives. */
  function AltTexts(a: Alts): (ts: seq<string>)
    ensures |ts| >= 1
  {
    match a
    case Only(ns) => [RenderNodes(ns)]
    case Either(ns, others) => [RenderNodes(ns)] + AltTexts(others)
  }

  lemma {:induction false} SegmentsTop(a: Alts)
    requires GoodAlts(a, false)
    ensures Segments(RenderAlts(a), "", 0, false) == AltTexts(a)
  {
    match a
    case Only(ns) =>
      SegmentsNodes(ns, "", "", 0);
      assert RenderNodes(ns) + "" == RenderNodes(ns) && "" + RenderNodes(ns) == RenderNodes(ns);
    case Either(ns, others) =>
      var y := "|" + RenderAlts(others);
      Regroup(RenderNodes(ns), "|", RenderAlts(others));
      SegmentsNodes(ns, y, "", 0);
      assert "" + RenderNodes(ns) == RenderNodes(ns);
      assert y[1..] == RenderAlts(others);
      SegmentsTop(others);
  }

  // ---- The texts of the branches ----

  lemma GroupsItem(t: string, x: string, cur: seq<string>)
    requires |t| > 0 && t[0] != '(' && ItemLen(t + x) == |t|
    ensures Groups(t + x, cur) == Groups(x, AppendAll(cur, t))
  {
    assert (t + x)[|t|..] == x && (t + x)[..|t|] == t;
  }

  lemma AppendTwice(cur: seq<string>, t: string, q: string)
    ensures AppendAll(AppendAll(cur, t), q) == AppendAll(cur, t + q)
  {
    forall k | 0 <= k < |cur|
      ensures AppendAll(AppendAll(cur, t), q)[k] == AppendAll(cur, t + q)[k]
    {
      Regroup(cur[k], t, q);
    }
  }

  lemma AppendNothing(cur: seq<string>)
    ensures AppendAll(cur, "") == cur
  {
    forall k | 0 <= k < |cur|
      ensures AppendAll(cur, "")[k] == cur[k]
    {
      assert cur[k] + "" == cur[k];
    }
  }

  lemma {:induction false} GroupsText(t: string, x: string, cur: seq<string>)
    requires PassText(t)
    ensures Groups(t + x, cur) == Groups(x, AppendAll(cur, t))
    decreases |t|
  {
    if |t| == 0 {
      assert t + x == x;
      AppendNothing(cur);
    } else {
      var n := ItemLen(t);
      var u, v := t[..n], t[n..];
      assert u + v == t;
      Regroup(u, v, x);
      ItemOfAtom(u, v + x);
      GroupsItem(u, v + x, cur);
      GroupsText(v, x, AppendAll(cur, u));
      AppendTwice(cur, u, v);
    }
  }

  lemma GroupsElem(t: string, c: Count, x: string, cur: seq<string>)
    requires ElemText(t, c) && Simple(c)
    ensures Groups(t + RenderCount(c) + x, cur) == Groups(x, AppendAll(cur, t + RenderCount(c)))
  {
    var q := RenderCount(c);
    Regroup(t, q, x);
    ElemPasses(t, c);
    GroupsText(t, q + x, cur);
    AppendTwice(cur, t, q);
    if c.Once? {
      assert q + x == x;
      AppendNothing(AppendAll(cur, t));
    } else {
      GroupsItem(q, x, AppendAll(cur, t));
    }
  }

  lemma GroupsGroup(body: Alts, x: string, cur: seq<string>)
    requires GoodAlts(body, false)
    ensures Groups(RenderNode(Group(body)) + x, cur) == Groups(x, Cross(cur, Alternatives(RenderAlts(body))))
  {
    var g := RenderNode(Group(body));
    ItemOfGroup(body, x);
    assert (g + x)[|g|..] == x;
    assert (g + x)[1..|g| - 1] == RenderAlts(body);
  }

  lemma {:induction false} GroupsNodes(ns: Nodes, cur: seq<Branch>)
    requires GoodNodes(ns, false)
    ensures Groups(RenderNodes(ns), Texts(cur)) == Texts(BranchNodes(ns, cur))
    decreases ns, 0
  {
    if ns.Cons? {
      var n, x := ns.node, RenderNodes(ns.rest);
      assert GoodNode(n, false);
      match n {
        case Elem(t, c) =>
          GroupsElem(t, c, x, Texts(cur));
          GrownTexts(cur, n);
          GroupsNodes(ns.rest, Grown(cur, n));
        case Anchor(start) =>
          GroupsItem(RenderNode(n), x, Texts(cur));
          GrownTexts(cur, n);
          GroupsNodes(ns.rest, Grown(cur, n));
        case Group(body) =>
          GroupsGroup(body, x, Texts(cur));
          BranchesListed(body);
          CrossTexts(cur, Branches(body));
          GroupsNodes(ns.rest, BranchCross(cur, Branches(body)));
      }
    }
  }

  lemma {:induction false} NodesListed(ns: Nodes)
    requires GoodNodes(ns, false)
    ensures Alternatives(RenderNodes(ns)) == Texts(BranchNodes(ns, [[]]))
    decreases ns, 1
  {
    SegmentsTop(Only(ns));
    assert Texts([[]]) == [""];
    GroupsNodes(ns, [[]]);
  }

  lemma {:induction false} AllFromFront(x: string, ys: seq<string>, bound: nat)
    requires |x| < bound && forall k :: 0 <= k < |ys| ==> |ys[k]| < bound
    ensures AllAlternatives([x] + ys, bound) == Alternatives(x) + AllAlternatives(ys, bound)
    decreases |ys|
  {
    var all := [x] + ys;
    if |ys| == 0 {
      assert all[..0] == [] && AllAlternatives(all[..0], bound) == [];
      assert all[|all| - 1] == x;
    } else {
      var n := |ys| - 1;
      assert all[..|all| - 1] == [x] + ys[..n] && all[|all| - 1] == ys[n];
      AllFromFront(x, ys[..n], bound);
    }
  }

  lemma {:induction false} AltsListed(a: Alts, bound: nat)
    requires GoodAlts(a, false) && forall k :: 0 <= k < |AltTexts(a)| ==> |AltTexts(a)[k]| < bound
    ensures AllAlternatives(AltTexts(a), bound) == Texts(Branches(a))
    decreases a, 1
  {
    NodesListed(a.nodes);
    assert |AltTexts(a)[0]| < bound;
    match a
    case Only(ns) =>
      AllFromFront(RenderNodes(ns), [], bound);
      assert AltTexts(a) == [RenderNodes(ns)] + [];
    case Either(ns, others) =>
      forall k | 0 <= k < |AltTexts(others)|
        ensures |AltTexts(others)[k]| < bound
      {
        assert AltTexts(a)[k + 1] == AltTexts(others)[k];
      }
      AltsListed(others, bound);
      AllFromFront(RenderNodes(ns), AltTexts(others), bound);
      TextsConcat(BranchNodes(ns, [[]]), Branches(others));
  }

  /** On the text of a well-formed pattern the pass lists the texts of its branches. */
  lemma {:induction false} BranchesListed(a: Alts)
    requires GoodAlts(a, false)
    ensures Alternatives(RenderAlts(a)) == Texts(Branches(a))
    decreases a, 2
  {
    var s := RenderAlts(a);
    SegmentsTop(a);
    if a.Only? {
      NodesListed(a.nodes);
    } else {
      forall k | 0 <= k < |AltTexts(a)|
        ensures |AltTexts(a)[k]| < |s|
      {
        SegmentsShorter(s, "", 0, false, k);
      }
      AltsListed(a, |s|);
    }
  }

  // ---- The union of the branches ----

  predicate GoodPiece(p: Piece) {
    p.Unit? ==> !p.node.Group? && GoodNode(p.node, true)
  }

  predicate GoodBranch(b: Branch) {
    forall k :: 0 <= k < |b| ==> GoodPiece(b[k])
  }

  predicate GoodBranches(bs: seq<Branch>) {
    forall k :: 0 <= k < |bs| ==> GoodBranch(bs[k])
  }

  function PieceItems(sense: Sense, p: Piece): seq<Item>
    requires GoodPiece(p)
  {
    if !p.Unit? then []
    else if p.node.Elem? then [ElemItem(sense, p.node.text, p.node.count)]
    else [if p.node.start then AtStart else AtEnd]
  }

  /** What a branch means; its parentheses mean nothing. */
  function BranchItems(sense: Sense, b: Branch): seq<Item>
    requires GoodBranch(b)
  {
    if |b| == 0 then [] else BranchItems(sense, b[..|b| - 1]) + PieceItems(sense, b[|b| - 1])
  }

  lemma PieceAdded(sense: Sense, b: Branch, p: Piece)
    requires GoodBranch(b) && GoodPiece(p)
    ensures GoodBranch(b + [p]) && BranchItems(sense, b + [p]) == BranchItems(sense, b) + PieceItems(sense, p)
  {
    assert (b + [p])[..|b|] == b;
  }

  lemma ItemsRegroup(a: seq<Item>, b: seq<Item>, c: seq<Item>)
    ensures a + (b + c) == (a + b) + c
  {
  }

  lemma ConcatStep(sense: Sense, a: Branch, front: Branch, last: Piece)
    requires GoodBranch(a) && GoodBranch(front) && GoodPiece(last) && GoodBranch(a + front)
    requires BranchItems(sense, a + front) == BranchItems(sense, a) + BranchItems(sense, front)
    ensures GoodBranch(a + (front + [last])) && GoodBranch(front + [last])
    ensures BranchItems(sense, a + (front + [last])) == BranchItems(sense, a) + BranchItems(sense, front + [last])
  {
    hide BranchItems, GoodBranch, PieceItems, GoodPiece;
    PieceAdded(sense, a + front, last);
    PieceAdded(sense, front, last);
    assert (a + front) + [last] == a + (front + [last]);
    ItemsRegroup(BranchItems(sense, a), BranchItems(sense, front), PieceItems(sense, last));
  }

  lemma {:induction false} BranchItemsConcat(sense: Sense, a: Branch, b: Branch)
    requires GoodBranch(a) && GoodBranch(b)
    ensures GoodBranch(a + b) && BranchItems(sense, a + b) == BranchItems(sense, a) + BranchItems(sense, b)
    decreases |b|
  {
    if |b| == 0 {
      assert BranchItems(sense, b) == [];
      hide BranchItems;
      assert a + b == a;
    } else {
      var front, last := b[..|b| - 1], b[|b| - 1];
      assert GoodBranch(front) && GoodPiece(last);
      hide BranchItems, GoodBranch, GoodPiece;
      BranchItemsConcat(sense, a, front);
      ConcatStep(sense, a, front, last);
      assert front + [last] == b;
    }
  }

  ghost predicate BranchMatches(sense: Sense, b: Branch, text: string, i: int, j: int)
    requires GoodBranch(b)
  {
    Matches(BranchItems(sense, b), text, i, j)
  }

  /** text[i..j] is in the language of one of the branches. */
  ghost predicate AnyOf(sense: Sense, bs: seq<Branch>, text: string, i: int, j: int)
    requires GoodBranches(bs)
  {
    exists k :: 0 <= k < |bs| && BranchMatches(sense, bs[k], text, i, j)
  }

  lemma GrownMatches(sense: Sense, b: Branch, n: Node, text: string, i: int, j: int)
    requires GoodBranch(b) && !n.Group? && GoodNode(n, true) && 0 <= i <= |text|
    ensures GoodBranch(b + [Unit(n)])
    ensures BranchMatches(sense, b + [Unit(n)], text, i, j) <==>
            exists k: int :: Position(text, k) && BranchMatches(sense, b, text, i, k) && InNode(sense, n, text, k, j)
  {
    var c := b + [Unit(n)];
    var item := PieceItems(sense, Unit(n))[0];
    assert c[..|c| - 1] == b;
    assert GoodPiece(Unit(n));
    assert BranchItems(sense, c) == BranchItems(sense, b) + [item];
    forall k: int
      ensures Matches([item], text, k, j) <==> InNode(sense, n, text, k, j)
    {
      SingleMatches(item, text, k, j);
    }
    if BranchMatches(sense, c, text, i, j) {
      var k := ConcatSplit(BranchItems(sense, b), [item], text, i, j);
      MatchesInside(BranchItems(sense, b), text, i, k);
      assert Position(text, k) && BranchMatches(sense, b, text, i, k) && InNode(sense, n, text, k, j);
    }
    if k: int :| Position(text, k) && BranchMatches(sense, b, text, i, k) && InNode(sense, n, text, k, j) {
      ConcatJoin(BranchItems(sense, b), [item], text, i, k, j);
    }
  }

  lemma EnclosedItems(sense: Sense, c: Branch, b: Branch)
    requires GoodBranch(c) && GoodBranch(b)
    ensures GoodBranch(Enclosed(c, b)) && BranchItems(sense, Enclosed(c, b)) == BranchItems(sense, c) + BranchItems(sense, b)
  {
    hide BranchItems, GoodBranch;
    var open := c + [OpenParen];
    PieceAdded(sense, c, OpenParen);
    BranchItemsConcat(sense, open, b);
    PieceAdded(sense, open + b, CloseParen);
    assert BranchItems(sense, c) + [] == BranchItems(sense, c);
    assert Enclosed(c, b) == (open + b) + [CloseParen];
  }

  lemma EnclosedMatches(sense: Sense, c: Branch, b: Branch, text: string, i: int, j: int)
    requires GoodBranch(c) && GoodBranch(b) && 0 <= i <= |text|
    ensures GoodBranch(Enclosed(c, b))
    ensures BranchMatches(sense, Enclosed(c, b), text, i, j) <==>
            exists k: int :: Position(text, k) && BranchMatches(sense, c, text, i, k) && BranchMatches(sense, b, text, k, j)
  {
    EnclosedItems(sense, c, b);
    if BranchMatches(sense, Enclosed(c, b), text, i, j) {
      var k := ConcatSplit(BranchItems(sense, c), BranchItems(sense, b), text, i, j);
      MatchesInside(BranchItems(sense, c), text, i, k);
      assert Position(text, k) && BranchMatches(sense, c, text, i, k) && BranchMatches(sense, b, text, k, j);
    }
    if k: int :| Position(text, k) && BranchMatches(sense, c, text, i, k) && BranchMatches(sense, b, text, k, j) {
      ConcatJoin(BranchItems(sense, c), BranchItems(sense, b), text, i, k, j);
    }
  }

  /** Every branch of a cross product encloses one of each, and every pair is there. */
  lemma {:induction false} CrossMember(cur: seq<Branch>, sub: seq<Branch>, x: int) returns (k: int, m: int)
    requires 0 <= x < |BranchCross(cur, sub)|
    ensures 0 <= k < |cur| && 0 <= m < |sub| && BranchCross(cur, sub)[x] == Enclosed(cur[k], sub[m])
  {
    var n := |cur| - 1;
    var front := BranchCross(cur[..n], sub);
    if x < |front| {
      k, m := CrossMember(cur[..n], sub, x);
    } else {
      k, m := n, x - |front|;
    }
  }

  lemma {:induction false} CrossHas(cur: seq<Branch>, sub: seq<Branch>, k: int, m: int) returns (x: int)
    requires 0 <= k < |cur| && 0 <= m < |sub|
    ensures 0 <= x < |BranchCross(cur, sub)| && BranchCross(cur, sub)[x] == Enclosed(cur[k], sub[m])
  {
    var n := |cur| - 1;
    var front := BranchCross(cur[..n], sub);
    if k < n {
      x := CrossHas(cur[..n], sub, k, m);
    } else {
      x := |front| + m;
    }
  }

  lemma CrossGood(sense: Sense, cur: seq<Branch>, sub: seq<Branch>)
    requires GoodBranches(cur) && GoodBranches(sub)
    ensures GoodBranches(BranchCross(cur, sub))
  {
    forall x | 0 <= x < |BranchCross(cur, sub)|
      ensures GoodBranch(BranchCross(cur, sub)[x])
    {
      var k, m := CrossMember(cur, sub, x);
      EnclosedItems(sense, cur[k], sub[m]);
    }
  }

  lemma GrownGood(sense: Sense, cur: seq<Branch>, n: Node)
    requires GoodBranches(cur) && !n.Group? && GoodNode(n, true)
    ensures GoodBranches(Grown(cur, n))
  {
    forall k | 0 <= k < |cur|
      ensures GoodBranch(Grown(cur, n)[k])
    {
      GrownMatches(sense, cur[k], n, "", 0, 0);
    }
  }

  lemma CrossAny(sense: Sense, cur: seq<Branch>, sub: seq<Branch>, text: string, i: int, j: int)
    requires GoodBranches(cur) && GoodBranches(sub) && GoodBranches(BranchCross(cur, sub)) && 0 <= i <= |text|
    ensures AnyOf(sense, BranchCross(cur, sub), text, i, j) <==>
            exists k: int :: Position(text, k) && AnyOf(sense, cur, text, i, k) && AnyOf(sense, sub, text, k, j)
  {
    var all := BranchCross(cur, sub);
    if x :| 0 <= x < |all| && BranchMatches(sense, all[x], text, i, j) {
      var a, b := CrossMember(cur, sub, x);
      EnclosedMatches(sense, cur[a], sub[b], text, i, j);
      var k: int :| Position(text, k) && BranchMatches(sense, cur[a], text, i, k) && BranchMatches(sense, sub[b], text, k, j);
      assert AnyOf(sense, cur, text, i, k) && AnyOf(sense, sub, text, k, j);
    }
    if k: int :| Position(text, k) && AnyOf(sense, cur, text, i, k) && AnyOf(sense, sub, text, k, j) {
      var a :| 0 <= a < |cur| && BranchMatches(sense, cur[a], text, i, k);
      var b :| 0 <= b < |sub| && BranchMatches(sense, sub[b], text, k, j);
      EnclosedMatches(sense, cur[a], sub[b], text, i, j);
      var x := CrossHas(cur, sub, a, b);
      assert BranchMatches(sense, all[x], text, i, j);
    }
  }

  lemma GrownAny(sense: Sense, cur: seq<Branch>, n: Node, text: string, i: int, j: int)
    requires GoodBranches(cur) && !n.Group? && GoodNode(n, true) && GoodBranches(Grown(cur, n)) && 0 <= i <= |text|
    ensures AnyOf(sense, Grown(cur, n), text, i, j) <==>
            exists k: int :: Position(text, k) && AnyOf(sense, cur, text, i, k) && InNode(sense, n, text, k, j)
  {
    var all := Grown(cur, n);
    if x :| 0 <= x < |all| && BranchMatches(sense, all[x], text, i, j) {
      GrownMatches(sense, cur[x], n, text, i, j);
      var k: int :| Position(text, k) && BranchMatches(sense, cur[x], text, i, k) && InNode(sense, n, text, k, j);
      assert AnyOf(sense, cur, text, i, k);
    }
    if k: int :| Position(text, k) && AnyOf(sense, cur, text, i, k) && InNode(sense, n, text, k, j) {
      var x :| 0 <= x < |cur| && BranchMatches(sense, cur[x], text, i, k);
      GrownMatches(sense, cur[x], n, text, i, j);
      assert BranchMatches(sense, all[x], text, i, j);
    }
  }

  /** One of the prefixes reaches k, and the nodes lead from there to j. */
  ghost predicate Via(sense: Sense, cur: seq<Branch>, ns: Nodes, text: string, i: int, j: int)
    requires GoodBranches(cur) && GoodNodes(ns, true)
  {
    exists k: int :: Position(text, k) && AnyOf(sense, cur, text, i, k) && InNodes(sense, ns, text, k, j)
  }

  ghost predicate ViaNode(sense: Sense, cur: seq<Branch>, n: Node, text: string, i: int, j: int)
    requires GoodBranches(cur) && GoodNode(n, true)
  {
    exists k: int :: Position(text, k) && AnyOf(sense, cur, text, i, k) && InNode(sense, n, text, k, j)
  }

  lemma AnyInside(sense: Sense, bs: seq<Branch>, text: string, i: int, j: int)
    requires GoodBranches(bs) && AnyOf(sense, bs, text, i, j) && 0 <= i <= |text|
    ensures Position(text, j)
  {
    var k :| 0 <= k < |bs| && BranchMatches(sense, bs[k], text, i, j);
    MatchesInside(BranchItems(sense, bs[k]), text, i, j);
  }

  /** Going through a node and then the rest is going through both. */
  lemma ViaCons(sense: Sense, cur: seq<Branch>, mid: seq<Branch>, n: Node, rest: Nodes, text: string, i: int, j: int)
    requires GoodBranches(cur) && GoodBranches(mid) && GoodNode(n, true) && GoodNodes(rest, true)
    requires forall k: int :: AnyOf(sense, mid, text, i, k) <==> ViaNode(sense, cur, n, text, i, k)
    requires 0 <= i <= |text|
    ensures Via(sense, mid, rest, text, i, j) <==> Via(sense, cur, Cons(n, rest), text, i, j)
  {
    if Via(sense, mid, rest, text, i, j) {
      var m: int :| Position(text, m) && AnyOf(sense, mid, text, i, m) && InNodes(sense, rest, text, m, j);
      assert ViaNode(sense, cur, n, text, i, m);
      var k: int :| Position(text, k) && AnyOf(sense, cur, text, i, k) && InNode(sense, n, text, k, m);
      ConsJoin(sense, n, rest, text, k, m, j);
    }
    if Via(sense, cur, Cons(n, rest), text, i, j) {
      var k: int :| Position(text, k) && AnyOf(sense, cur, text, i, k) && InNodes(sense, Cons(n, rest), text, k, j);
      var m := ConsSplit(sense, n, rest, text, k, j);
      assert ViaNode(sense, cur, n, text, i, m);
    }
  }

  /** The prefixes after one node. */
  function Onward(cur: seq<Branch>, n: Node): seq<Branch> {
    match n
    case Group(body) => BranchCross(cur, Branches(body))
    case _ => Grown(cur, n)
  }

  lemma {:induction false} OnwardAny(sense: Sense, cur: seq<Branch>, n: Node, text: string, i: int)
    requires GoodBranches(cur) && GoodNode(n, true) && 0 <= i <= |text|
    ensures GoodBranches(Onward(cur, n))
    ensures forall k: int :: AnyOf(sense, Onward(cur, n), text, i, k) <==> ViaNode(sense, cur, n, text, i, k)
    decreases n
  {
    if n.Group? {
      GoodLoosely(n.body);
      var sub := Branches(n.body);
      BranchesGood(n.body);
      CrossGood(sense, cur, sub);
      forall k: int
        ensures AnyOf(sense, Onward(cur, n), text, i, k) <==> ViaNode(sense, cur, n, text, i, k)
      {
        CrossAny(sense, cur, sub, text, i, k);
        forall m: int | Position(text, m)
          ensures AnyOf(sense, sub, text, m, k) <==> InNode(sense, n, text, m, k)
        {
          BranchesKeepLanguage(sense, n.body, text, m, k);
        }
      }
    } else {
      GrownGood(sense, cur, n);
      forall k: int
        ensures AnyOf(sense, Onward(cur, n), text, i, k) <==> ViaNode(sense, cur, n, text, i, k)
      {
        GrownAny(sense, cur, n, text, i, k);
      }
    }
  }

  lemma {:induction false} BranchNodesGood(ns: Nodes, cur: seq<Branch>)
    requires GoodNodes(ns, true) && GoodBranches(cur)
    ensures GoodBranches(BranchNodes(ns, cur))
    decreases ns, 0
  {
    if ns.Cons? {
      var n := ns.node;
      assert GoodNode(n, true);
      var any: Sense := _ => Dot;
      if n.Group? {
        GoodLoosely(n.body);
        BranchesGood(n.body);
        CrossGood(any, cur, Branches(n.body));
      } else {
        GrownGood(any, cur, n);
      }
      BranchNodesGood(ns.rest, Onward(cur, n));
    }
  }

  lemma {:induction false} BranchesGood(a: Alts)
    requires GoodAlts(a, true)
    ensures GoodBranches(Branches(a))
    decreases a
  {
    BranchNodesGood(a.nodes, [[]]);
    if a.Either? {
      BranchesGood(a.others);
    }
  }

  lemma {:induction false} NodesKeepLanguage(sense: Sense, ns: Nodes, cur: seq<Branch>, text: string, i: int, j: int)
    requires GoodNodes(ns, true) && GoodBranches(cur) && 0 <= i <= |text|
    ensures GoodBranches(BranchNodes(ns, cur))
    ensures AnyOf(sense, BranchNodes(ns, cur), text, i, j) <==> Via(sense, cur, ns, text, i, j)
    decreases ns
  {
    BranchNodesGood(ns, cur);
    match ns
    case Nil =>
      if AnyOf(sense, cur, text, i, j) {
        AnyInside(sense, cur, text, i, j);
      }
    case Cons(n, rest) =>
      var mid := Onward(cur, n);
      OnwardAny(sense, cur, n, text, i);
      NodesKeepLanguage(sense, rest, mid, text, i, j);
      ViaCons(sense, cur, mid, n, rest, text, i, j);
  }

  lemma ViaStart(sense: Sense, ns: Nodes, text: string, i: int, j: int)
    requires GoodNodes(ns, true) && 0 <= i <= |text|
    ensures GoodBranches([[]])
    ensures Via(sense, [[]], ns, text, i, j) <==> InNodes(sense, ns, text, i, j)
  {
    var start: seq<Branch> := [[]];
    assert BranchItems(sense, start[0]) == [];
    MatchesNothing(text, i);
    assert BranchMatches(sense, start[0], text, i, i);
    assert AnyOf(sense, start, text, i, i) && Position(text, i);
    forall k: int | AnyOf(sense, start, text, i, k)
      ensures k == i
    {
      var x :| 0 <= x < 1 && BranchMatches(sense, start[x], text, i, k);
      var cuts: seq<int> :| CutBetween([], text, cuts, i, k);
    }
  }

  /** The language of the pattern is the union of the languages of its branches. */
  lemma {:induction false} BranchesKeepLanguage(sense: Sense, a: Alts, text: string, i: int, j: int)
    requires GoodAlts(a, true) && 0 <= i <= |text|
    ensures GoodBranches(Branches(a))
    ensures InAlts(sense, a, text, i, j) <==> AnyOf(sense, Branches(a), text, i, j)
    decreases a
  {
    BranchesGood(a);
    ViaStart(sense, a.nodes, text, i, j);
    NodesKeepLanguage(sense, a.nodes, [[]], text, i, j);
    if a.Either? {
      BranchesKeepLanguage(sense, a.others, text, i, j);
      AnyOfUnion(sense, BranchNodes(a.nodes, [[]]), Branches(a.others), text, i, j);
    }
  }

  lemma AnyOfUnion(sense: Sense, xs: seq<Branch>, ys: seq<Branch>, text: string, i: int, j: int)
    requires GoodBranches(xs) && GoodBranches(ys) && GoodBranches(xs + ys)
    ensures AnyOf(sense, xs + ys, text, i, j) <==> AnyOf(sense, xs, text, i, j) || AnyOf(sense, ys, text, i, j)
  {
    var all := xs + ys;
    if k :| 0 <= k < |xs| && BranchMatches(sense, xs[k], text, i, j) {
      assert all[k] == xs[k];
    }
    if k :| 0 <= k < |ys| && BranchMatches(sense, ys[k], text, i, j) {
      assert all[|xs| + k] == ys[k];
    }
  }

  /** Both passes together: the list of texts the compiler is given denotes the language of the source pattern. */
  lemma ExpansionKeepsLanguage(sense: Sense, a: Alts, text: string, i: int, j: int)
    requires GoodAlts(a, true) && OrderedAlts(a) && 0 <= i <= |text|
    ensures var flat := UnrolledAlts(a);
            GoodAlts(flat, true) && GoodBranches(Branches(flat)) &&
            Alternatives(Ranges(RenderAlts(a))) == Texts(Branches(flat)) &&
            (InAlts(sense, a, text, i, j) <==> AnyOf(sense, Branches(flat), text, i, j))
  {
    RangesKeepLanguage(sense, a, text, i, j);
    BranchesListed(UnrolledAlts(a));
    BranchesKeepLanguage(sense, UnrolledAlts(a), text, i, j);
  }
}
