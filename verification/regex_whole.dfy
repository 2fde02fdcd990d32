/**
 * regcomp and regexec together, on the text of a pattern: both passes, the
 * tokens of every alternative and the search.
 */
module RegexWhole {
  import opened RegexLanguage
  import opened RegexSyntax
  import opened RegexRanges
  import opened RegexRangesProof
  import opened RegexAlts
  import opened RegexAltsProof
  import opened RegexTokens
  import opened RegexLexProof
  import R = Regex

  // ---- What the branches of a pattern are like ----

  /** Opening minus closing parentheses. */
  function Net(b: Branch): int {
    if |b| == 0 then 0 else (if b[0].OpenParen? then 1 else if b[0].CloseParen? then -1 else 0) + Net(b[1..])
  }

  /** No range is left and the parentheses match. */
  ghost predicate Ready(b: Branch) {
    PlainBranch(b) && Closes(b, 0) && Net(b) == 0
  }

  ghost predicate AllReady(bs: seq<Branch>) {
    forall k :: 0 <= k < |bs| ==> Ready(bs[k])
  }

  lemma {:induction false} NetConcat(a: Branch, b: Branch)
    ensures Net(a + b) == Net(a) + Net(b)
  {
    if |a| == 0 {
      assert a + b == b;
    } else {
      assert (a + b)[1..] == a[1..] + b;
      NetConcat(a[1..], b);
    }
  }

  lemma {:induction false} ClosesConcat(a: Branch, b: Branch, depth: nat)
    requires Closes(a, depth)
    ensures depth + Net(a) >= 0 && (Closes(b, depth + Net(a)) ==> Closes(a + b, depth))
  {
    if |a| == 0 {
      assert a + b == b;
    } else {
      assert (a + b)[1..] == a[1..] + b;
      ClosesConcat(a[1..], b, if a[0].OpenParen? then depth + 1 else if a[0].CloseParen? then depth - 1 else depth);
    }
  }

  lemma {:induction false} ClosesDeeper(b: Branch, depth: nat)
    requires Closes(b, depth)
    ensures Closes(b, depth + 1)
  {
    if |b| > 0 {
      ClosesDeeper(b[1..], if b[0].OpenParen? then depth + 1 else if b[0].CloseParen? then depth - 1 else depth);
    }
  }

  lemma ReadyUnit(b: Branch, n: Node)
    requires Ready(b) && !n.Group? && GoodNode(n, false)
    ensures Ready(b + [Unit(n)])
  {
    var one: Branch := [Unit(n)];
    assert one[1..] == [];
    assert PlainPiece(one[0]) && Closes(one, 0) && Net(one) == 0;
    NetConcat(b, one);
    ClosesConcat(b, one, 0);
  }

  lemma ReadyEnclosed(c: Branch, b: Branch)
    requires Ready(c) && Ready(b)
    ensures Ready(Enclosed(c, b))
  {
    var open, close: Branch := [OpenParen], [CloseParen];
    ClosesDeeper(b, 0);
    NetConcat(b, close);
    ClosesConcat(b, close, 1);
    NetConcat(open, b + close);
    assert (open + (b + close))[1..] == b + close;
    NetConcat(c, open + (b + close));
    ClosesConcat(c, open + (b + close), 0);
    assert Enclosed(c, b) == c + (open + (b + close));
  }

  lemma {:induction false} CrossReady(cur: seq<Branch>, sub: seq<Branch>)
    requires AllReady(cur) && AllReady(sub)
    ensures AllReady(BranchCross(cur, sub))
  {
    if |cur| > 0 {
      var n := |cur| - 1;
      CrossReady(cur[..n], sub);
      forall m | 0 <= m < |sub|
        ensures Ready(Enclosed(cur[n], sub[m]))
      {
        ReadyEnclosed(cur[n], sub[m]);
      }
    }
  }

  lemma GrownReady(cur: seq<Branch>, n: Node)
    requires AllReady(cur) && !n.Group? && GoodNode(n, false)
    ensures AllReady(Grown(cur, n))
  {
    forall k | 0 <= k < |cur|
      ensures Ready(cur[k] + [Unit(n)])
    {
      ReadyUnit(cur[k], n);
    }
  }

  lemma {:induction false} NodesReady(ns: Nodes, cur: seq<Branch>)
    requires GoodNodes(ns, false) && AllReady(cur)
    ensures AllReady(BranchNodes(ns, cur))
    decreases ns, 0
  {
    if ns.Cons? {
      var n := ns.node;
      assert GoodNode(n, false);
      if n.Group? {
        BranchesReady(n.body);
        CrossReady(cur, Branches(n.body));
        NodesReady(ns.rest, BranchCross(cur, Branches(n.body)));
      } else {
        GrownReady(cur, n);
        NodesReady(ns.rest, Grown(cur, n));
      }
    }
  }

  lemma {:induction false} BranchesReady(a: Alts)
    requires GoodAlts(a, false)
    ensures AllReady(Branches(a))
    decreases a
  {
    NodesReady(a.nodes, [[]]);
    if a.Either? {
      BranchesReady(a.others);
    }
  }

  // ---- How many groups a branch can have ----

  function Larger(a: nat, b: nat): nat {
    if a < b then b else a
  }

  /** The most groups one branch of the pattern opens. */
  function MostGroups(a: Alts): nat {
    match a
    case Only(ns) => NodeGroups(ns)
    case Either(ns, others) => Larger(NodeGroups(ns), MostGroups(others))
  }

  function NodeGroups(ns: Nodes): nat {
    match ns
    case Nil => 0
    case Cons(n, rest) => (if n.Group? then 1 + MostGroups(n.body) else 0) + NodeGroups(rest)
  }

  /** No branch opens more than m groups, and one opens as many. */
  ghost predicate Peak(bs: seq<Branch>, m: nat) {
    (forall k :: 0 <= k < |bs| ==> Opens(bs[k]) <= m) && exists k :: 0 <= k < |bs| && Opens(bs[k]) == m
  }

  lemma {:induction false} OpensConcat(a: Branch, b: Branch)
    ensures Opens(a + b) == Opens(a) + Opens(b)
  {
    if |a| == 0 {
      assert a + b == b;
    } else {
      assert (a + b)[1..] == a[1..] + b;
      OpensConcat(a[1..], b);
    }
  }

  lemma EnclosedOpens(c: Branch, b: Branch)
    ensures Opens(Enclosed(c, b)) == Opens(c) + 1 + Opens(b)
  {
    var open, close: Branch := [OpenParen], [CloseParen];
    OpensConcat(c, open);
    OpensConcat(c + open, b);
    OpensConcat(c + open + b, close);
    assert open[1..] == [] && close[1..] == [];
  }

  lemma GrownPeak(cur: seq<Branch>, n: Node, m: nat)
    requires Peak(cur, m)
    ensures Peak(Grown(cur, n), m)
  {
    var one: Branch := [Unit(n)];
    assert one[1..] == [];
    forall k | 0 <= k < |cur|
      ensures Opens(Grown(cur, n)[k]) == Opens(cur[k])
    {
      OpensConcat(cur[k], one);
    }
  }

  /** Where in the product a prefix and a continuation meet. */
  lemma {:induction false} CrossAt(cur: seq<Branch>, sub: seq<Branch>, i: nat, j: nat) returns (k: nat)
    requires i < |cur| && j < |sub|
    ensures k < |BranchCross(cur, sub)| && BranchCross(cur, sub)[k] == Enclosed(cur[i], sub[j])
    decreases |cur|
  {
    var n := |cur| - 1;
    if i == n {
      k := |BranchCross(cur[..n], sub)| + j;
    } else {
      k := CrossAt(cur[..n], sub, i, j);
    }
  }

  lemma {:induction false} CrossFrom(cur: seq<Branch>, sub: seq<Branch>, k: nat) returns (i: nat, j: nat)
    requires k < |BranchCross(cur, sub)|
    ensures i < |cur| && j < |sub| && BranchCross(cur, sub)[k] == Enclosed(cur[i], sub[j])
    decreases |cur|
  {
    var n := |cur| - 1;
    var front := BranchCross(cur[..n], sub);
    if k < |front| {
      i, j := CrossFrom(cur[..n], sub, k);
    } else {
      i, j := n, k - |front|;
    }
  }

  lemma CrossPeak(cur: seq<Branch>, sub: seq<Branch>, m: nat, n: nat)
    requires Peak(cur, m) && Peak(sub, n)
    ensures Peak(BranchCross(cur, sub), m + 1 + n)
  {
    var all := BranchCross(cur, sub);
    forall k | 0 <= k < |all|
      ensures Opens(all[k]) <= m + 1 + n
    {
      var i, j := CrossFrom(cur, sub, k);
      EnclosedOpens(cur[i], sub[j]);
    }
    var i :| 0 <= i < |cur| && Opens(cur[i]) == m;
    var j :| 0 <= j < |sub| && Opens(sub[j]) == n;
    var k := CrossAt(cur, sub, i, j);
    EnclosedOpens(cur[i], sub[j]);
  }

  lemma {:induction false} NodesPeak(ns: Nodes, cur: seq<Branch>, m: nat)
    requires Peak(cur, m)
    ensures Peak(BranchNodes(ns, cur), m + NodeGroups(ns))
    decreases ns, 0
  {
    if ns.Cons? {
      var n := ns.node;
      if n.Group? {
        BranchesPeak(n.body);
        CrossPeak(cur, Branches(n.body), m, MostGroups(n.body));
        NodesPeak(ns.rest, BranchCross(cur, Branches(n.body)), m + 1 + MostGroups(n.body));
      } else {
        GrownPeak(cur, n, m);
        NodesPeak(ns.rest, Grown(cur, n), m);
      }
    }
  }

  /** MostGroups is the largest number of groups in a branch. */
  lemma {:induction false} BranchesPeak(a: Alts)
    ensures Peak(Branches(a), MostGroups(a))
    decreases a
  {
    var first: seq<Branch> := [[]];
    assert Opens(first[0]) == 0;
    NodesPeak(a.nodes, first, 0);
    if a.Either? {
      BranchesPeak(a.others);
      UnionPeak(BranchNodes(a.nodes, first), Branches(a.others), NodeGroups(a.nodes), MostGroups(a.others));
    }
  }

  lemma UnionPeak(xs: seq<Branch>, ys: seq<Branch>, m: nat, n: nat)
    requires Peak(xs, m) && Peak(ys, n)
    ensures Peak(xs + ys, Larger(m, n))
  {
    var all := xs + ys;
    var i :| 0 <= i < |xs| && Opens(xs[i]) == m;
    var j :| 0 <= j < |ys| && Opens(ys[j]) == n;
    assert all[i] == xs[i] && all[|xs| + j] == ys[j];
  }

  lemma {:induction false} CopiedGroups(t: string, c: Count, k: nat, rest: Nodes)
    ensures NodeGroups(Copied(t, c, k, rest)) == NodeGroups(rest)
  {
    if k > 0 {
      CopiedGroups(t, c, k - 1, rest);
    }
  }

  lemma ElemGroups(t: string, c: Count, rest: Nodes)
    requires GoodCount(c)
    ensures NodeGroups(UnrolledElem(t, c, rest)) == NodeGroups(rest)
  {
    match c
    case Exactly(d) => CopiedGroups(t, Once, NumberValue(d), rest);
    case AtLeast(d) => CopiedGroups(t, Once, NumberValue(d), Cons(Elem(t, Many), rest));
    case Between(d, e) =>
      if NumberValue(d) <= NumberValue(e) {
        CopiedGroups(t, Optional, NumberValue(e) - NumberValue(d), rest);
        CopiedGroups(t, Once, NumberValue(d), Copied(t, Optional, NumberValue(e) - NumberValue(d), rest));
      }
    case _ =>
  }

  lemma {:induction false} UnrolledGroups(ns: Nodes)
    requires GoodNodes(ns, true)
    ensures NodeGroups(Unrolled(ns)) == NodeGroups(ns)
  {
    if ns.Cons? {
      assert GoodNode(ns.node, true);
      UnrolledGroups(ns.rest);
      if ns.node.Elem? {
        ElemGroups(ns.node.text, ns.node.count, Unrolled(ns.rest));
      }
    }
  }

  lemma {:induction false} UnrolledMost(a: Alts)
    requires GoodAlts(a, true)
    ensures MostGroups(UnrolledAlts(a)) == MostGroups(a)
  {
    UnrolledGroups(a.nodes);
    if a.Either? {
      UnrolledMost(a.others);
    }
  }

  /** The branches of a pattern with its ranges unrolled: fit for the tokenizer, and the widest as wide as the pattern. */
  lemma FlatBranches(a: Alts)
    requires GoodAlts(a, true)
    ensures AllReady(Branches(UnrolledAlts(a))) && Peak(Branches(UnrolledAlts(a)), MostGroups(a))
  {
    UnrolledAltsGood(a, false);
    BranchesReady(UnrolledAlts(a));
    BranchesPeak(UnrolledAlts(a));
    UnrolledMost(a);
  }

  // ---- regcomp ----

  /** The tokens of every alternative, and the group count of the last one. */
  datatype Program = Program(alts: seq<seq<R.Token>>, nsub: nat)

  predicate AllLegible(texts: seq<string>) {
    forall k :: 0 <= k < |texts| ==> Legible(texts[k])
  }

  function LexAll(reading: Reading, texts: seq<string>): (alts: seq<seq<R.Token>>)
    requires AllLegible(texts)
    ensures |alts| == |texts| && forall k :: 0 <= k < |texts| ==> alts[k] == Lex(reading, texts[k], 0, [])
  {
    seq(|texts|, k requires 0 <= k < |texts| => Lex(reading, texts[k], 0, []))
  }

  /** regcomp: the tokens of the alternatives of the rewritten text. */
  method Regcomp(reading: Reading, pattern: string) returns (r: Option<Program>)
    requires AllLegible(Alternatives(Ranges(pattern)))
    ensures r.Some? ==> r.value.alts == LexAll(reading, Alternatives(Ranges(pattern)))
    ensures r.Some? ==> r.value.nsub == OpenTokens(r.value.alts[|r.value.alts| - 1])
    ensures Manageable(pattern) ==> r.Some?
  {
    var expanded := ExpandRanges(pattern);
    if expanded.None? {
      return None;
    }
    var texts := ExpandAlts(expanded.value);
    if |texts| == 0 {
      return None;
    }
    var alts, nsub := [], 0;
    for k := 0 to |texts|
      invariant |alts| == k && forall x :: 0 <= x < k ==> alts[x] == Lex(reading, texts[x], 0, [])
      invariant k > 0 ==> nsub == OpenTokens(alts[k - 1])
    {
      var tokens;
      tokens, nsub := CompileSingle(reading, texts[k]);
      alts := alts + [tokens];
    }
    r := Some(Program(alts, nsub));
  }

  // ---- The whole ----

  /** Some stretch from i on is in the language of the pattern. */
  ghost predicate MatchesAt(sense: Sense, a: Alts, text: string, i: int)
    requires GoodAlts(a, true)
  {
    exists j: int :: InAlts(sense, a, text, i, j)
  }

  /** Some stretch from i on is in the language of the branch. */
  ghost predicate BranchAt(sense: Sense, b: Branch, text: string, i: int)
    requires GoodBranch(b)
  {
    exists j: int :: BranchMatches(sense, b, text, i, j)
  }

  /** What compile_single makes of a branch accepts where the branch matches. */
  lemma BranchCompiled(reading: Reading, b: Branch, text: string, i: int)
    requires Ready(b) && Opens(b) <= MAX_GROUPS
    ensures GoodBranch(b) && Legible(BranchText(b))
    ensures R.WellFormed(Lex(reading, BranchText(b), 0, []))
    ensures R.Accepts(Lex(reading, BranchText(b), 0, []), 0, text, i) <==> BranchAt(CodeSense(reading), b, text, i)
  {
    var sense := CodeSense(reading);
    LexBranch(reading, b, 0, []);
    TokensFit(sense, b, 0, []);
    TokensMean(sense, b, 0, []);
    hide BranchItems, R.Items, Lex, Legible, BranchTokens;
    if BranchAt(sense, b, text, i) {
      var j: int :| BranchMatches(sense, b, text, i, j);
      assert Matches(BranchItems(sense, b), text, i, j);
    }
    if R.Accepts(Lex(reading, BranchText(b), 0, []), 0, text, i) {
      var j: int :| Matches(BranchItems(sense, b), text, i, j);
      assert BranchMatches(sense, b, text, i, j);
    }
  }

  /** A pattern matches where one of its branches does. */
  lemma SomeBranchAt(sense: Sense, a: Alts, text: string, i: int)
    requires GoodAlts(a, true) && OrderedAlts(a) && 0 <= i <= |text|
    ensures GoodBranches(Branches(UnrolledAlts(a)))
    ensures MatchesAt(sense, a, text, i) <==>
            exists k :: 0 <= k < |Branches(UnrolledAlts(a))| && BranchAt(sense, Branches(UnrolledAlts(a))[k], text, i)
  {
    var bs := Branches(UnrolledAlts(a));
    ExpansionKeepsLanguage(sense, a, text, i, i);
    hide InAlts, BranchMatches, GoodAlts;
    if j: int :| InAlts(sense, a, text, i, j) {
      ExpansionKeepsLanguage(sense, a, text, i, j);
      var k :| 0 <= k < |bs| && BranchMatches(sense, bs[k], text, i, j);
      assert BranchAt(sense, bs[k], text, i);
    }
    if k :| 0 <= k < |bs| && BranchAt(sense, bs[k], text, i) {
      var j: int :| BranchMatches(sense, bs[k], text, i, j);
      ExpansionKeepsLanguage(sense, a, text, i, j);
      assert InAlts(sense, a, text, i, j);
    }
  }

  /** The alternatives that regcomp tokenizes are the texts of the branches. */
  lemma CompiledTexts(a: Alts)
    requires GoodAlts(a, true) && OrderedAlts(a)
    ensures Alternatives(Ranges(RenderAlts(a))) == Texts(Branches(UnrolledAlts(a)))
    ensures AllLegible(Texts(Branches(UnrolledAlts(a)))) && GoodBranches(Branches(UnrolledAlts(a)))
  {
    var any: Sense := _ => Dot;
    ExpansionKeepsLanguage(any, a, "", 0, 0);
    FlatBranches(a);
    var bs := Branches(UnrolledAlts(a));
    forall k | 0 <= k < |bs|
      ensures Legible(BranchText(bs[k]))
    {
      LexBranch(_ => {}, bs[k], 0, []);
    }
  }

  /** No match exactly when no stretch of the text is in the language; otherwise the first branch that matches
      anywhere, at its smallest start. */
  ghost predicate Verdict(sense: Sense, a: Alts, text: string, r: R.Outcome)
    requires GoodAlts(a, true) && GoodBranches(Branches(UnrolledAlts(a)))
  {
    var bs := Branches(UnrolledAlts(a));
    && (r.NoMatch? <==> forall i :: 0 <= i <= |text| ==> !MatchesAt(sense, a, text, i))
    && (r.Match? ==>
          && r.alternative < |bs| && r.start <= |text| && MatchesAt(sense, a, text, r.start)
          && BranchAt(sense, bs[r.alternative], text, r.start)
          && (forall i :: 0 <= i < r.start ==> !BranchAt(sense, bs[r.alternative], text, i))
          && (forall k, i :: 0 <= k < r.alternative && 0 <= i <= |text| ==> !BranchAt(sense, bs[k], text, i)))
  }

  /** What Exec tells about the tokens, told about the branches. */
  lemma ExecMeans(reading: Reading, a: Alts, text: string, alts: seq<seq<R.Token>>, r: R.Outcome)
    requires GoodAlts(a, true) && OrderedAlts(a) && MostGroups(a) <= MAX_GROUPS
    requires AllLegible(Texts(Branches(UnrolledAlts(a)))) && alts == LexAll(reading, Texts(Branches(UnrolledAlts(a))))
    requires r.NoMatch? <==> forall k :: 0 <= k < |alts| ==> R.Nowhere(alts[k], text)
    requires r.Match? ==>
      r.alternative < |alts| && r.start <= |text| &&
      (forall k :: 0 <= k < r.alternative ==> R.Nowhere(alts[k], text)) &&
      R.Accepts(alts[r.alternative], 0, text, r.start) &&
      forall i :: 0 <= i < r.start ==> !R.Accepts(alts[r.alternative], 0, text, i)
    ensures GoodBranches(Branches(UnrolledAlts(a))) && Verdict(CodeSense(reading), a, text, r)
  {
    var sense, bs := CodeSense(reading), Branches(UnrolledAlts(a));
    CompiledTexts(a);
    AllCompiled(reading, a, text);
    AllMatched(sense, a, text);
    hide MatchesAt, BranchAt, R.Accepts, LexAll, AllLegible, Branches, GoodBranches, CodeSense;
    if r.Match? {
      assert BranchAt(sense, bs[r.alternative], text, r.start);
      assert MatchesAt(sense, a, text, r.start);
    } else {
      forall i | 0 <= i <= |text|
        ensures !MatchesAt(sense, a, text, i)
      {
        forall k | 0 <= k < |bs|
          ensures !BranchAt(sense, bs[k], text, i)
        {
          assert R.Nowhere(alts[k], text);
        }
      }
    }
  }

  lemma AllCompiled(reading: Reading, a: Alts, text: string)
    requires GoodAlts(a, true) && OrderedAlts(a) && MostGroups(a) <= MAX_GROUPS
    ensures var bs := Branches(UnrolledAlts(a));
            GoodBranches(bs) && AllLegible(Texts(bs)) &&
            forall k, i :: 0 <= k < |bs| && 0 <= i <= |text| ==>
              (R.Accepts(LexAll(reading, Texts(bs))[k], 0, text, i) <==> BranchAt(CodeSense(reading), bs[k], text, i))
  {
    var bs := Branches(UnrolledAlts(a));
    FlatBranches(a);
    CompiledTexts(a);
    hide Branches, UnrolledAlts, Lex, R.Accepts, BranchAt, Legible, CodeSense;
    forall k, i | 0 <= k < |bs| && 0 <= i <= |text|
      ensures R.Accepts(LexAll(reading, Texts(bs))[k], 0, text, i) <==> BranchAt(CodeSense(reading), bs[k], text, i)
    {
      BranchCompiled(reading, bs[k], text, i);
    }
  }

  lemma AllMatched(sense: Sense, a: Alts, text: string)
    requires GoodAlts(a, true) && OrderedAlts(a)
    ensures GoodBranches(Branches(UnrolledAlts(a)))
    ensures forall i :: 0 <= i <= |text| ==>
              (MatchesAt(sense, a, text, i) <==>
               exists k :: 0 <= k < |Branches(UnrolledAlts(a))| && BranchAt(sense, Branches(UnrolledAlts(a))[k], text, i))
  {
    SomeBranchAt(sense, a, text, 0);
    hide MatchesAt, BranchAt;
    forall i | 0 <= i <= |text|
      ensures MatchesAt(sense, a, text, i) <==>
              exists k :: 0 <= k < |Branches(UnrolledAlts(a))| && BranchAt(sense, Branches(UnrolledAlts(a))[k], text, i)
    {
      SomeBranchAt(sense, a, text, i);
    }
  }

  /** Compiling the text of a pattern and searching a text. */
  method CompileAndExec(reading: Reading, a: Alts, text: string) returns (r: Option<R.Outcome>)
    requires GoodAlts(a, true) && OrderedAlts(a) && MostGroups(a) <= MAX_GROUPS
    ensures Manageable(RenderAlts(a)) ==> r.Some?
    ensures GoodBranches(Branches(UnrolledAlts(a)))
    ensures r.Some? ==> Verdict(CodeSense(reading), a, text, r.value)
  {
    hide Lex, Alternatives, Ranges, Legible, Verdict, LexAll;
    var pattern := RenderAlts(a);
    CompiledTexts(a);
    var program := Regcomp(reading, pattern);
    if program.None? {
      return None;
    }
    var alts := program.value.alts;
    forall k | 0 <= k < |alts|
      ensures R.WellFormed(alts[k])
    {
      FlatBranches(a);
      BranchCompiled(reading, Branches(UnrolledAlts(a))[k], text, 0);
    }
    var o := R.Exec(alts, text);
    ExecMeans(reading, a, text, alts, o);
    r := Some(o);
  }

  /** Every branch is compiled to tokens that mean it exactly when no branch has more than nine groups. */
  lemma CompiledIff(reading: Reading, a: Alts)
    requires GoodAlts(a, true) && OrderedAlts(a)
    ensures var bs := Branches(UnrolledAlts(a));
            GoodBranches(bs) && AllLegible(Texts(bs)) &&
            ((forall k :: 0 <= k < |bs| ==>
                R.Items(LexAll(reading, Texts(bs))[k], 0) == BranchItems(CodeSense(reading), bs[k])) <==>
             MostGroups(a) <= MAX_GROUPS)
  {
    var sense, bs := CodeSense(reading), Branches(UnrolledAlts(a));
    FlatBranches(a);
    CompiledTexts(a);
    forall k | 0 <= k < |bs|
      ensures R.Items(LexAll(reading, Texts(bs))[k], 0) == BranchItems(sense, bs[k]) <==> Opens(bs[k]) <= MAX_GROUPS
    {
      LexBranch(reading, bs[k], 0, []);
      NineGroupsIff(sense, bs[k]);
    }
  }
}
