/**
 * Source patterns: what they look like as text and what they mean. The two
 * rewriting passes of src/regex.c work on the text; their correctness is stated
 * through this syntax.
 */
module RegexSyntax {
  import opened RegexLanguage
  import opened RegexScan

  /** How often an atom is repeated; the counts of a range keep their digits. */
  datatype Count = Once | Optional | Many | AtLeastOne
                 | Exactly(d: string) | AtLeast(d: string) | Between(d: string, e: string)

  datatype Node = Elem(text: string, count: Count) | Anchor(start: bool) | Group(body: Alts)
  datatype Nodes = Nil | Cons(node: Node, rest: Nodes)
  datatype Alts = Only(nodes: Nodes) | Either(nodes: Nodes, others: Alts)

  // ---- Text ----

  function RenderCount(c: Count): string {
    match c
    case Once => ""
    case Optional => "?"
    case Many => "*"
    case AtLeastOne => "+"
    case Exactly(d) => "{" + d + "}"
    case AtLeast(d) => "{" + d + ",}"
    case Between(d, e) => "{" + d + "," + e + "}"
  }

  function RenderNode(n: Node): string {
    match n
    case Elem(text, c) => text + RenderCount(c)
    case Anchor(start) => if start then "^" else "$"
    case Group(body) => "(" + RenderAlts(body) + ")"
  }

  function RenderNodes(ns: Nodes): string {
    match ns
    case Nil => ""
    case Cons(n, rest) => RenderNode(n) + RenderNodes(rest)
  }

  function RenderAlts(a: Alts): string {
    match a
    case Only(ns) => RenderNodes(ns)
    case Either(ns, others) => RenderNodes(ns) + "|" + RenderAlts(others)
  }

  // ---- Well-formed text ----

  /** Reading s inside a bracket expression, the closing bracket is its last character. */
  predicate ClosesClass(s: string) {
    if |s| == 0 then false
    else if s[0] == ']' then |s| == 1
    else if s[0] == '\\' then |s| >= 2 && ClosesClass(s[2..])
    else ClosesClass(s[1..])
  }

  predicate Plain(c: char) {
    c !in "\\[()|{*+?^$"
  }

  predicate NoParens(s: string) {
    '(' !in s && ')' !in s
  }

  /** Reading s inside a bracket expression, a named class such as [:alpha:] opens before the first closing bracket. */
  predicate OpensNamed(s: string) {
    |s| > 0 && s[0] != ']' &&
    if s[0] == '\\' && |s| >= 2 then OpensNamed(s[2..])
    else (s[0] == '[' && |s| >= 2 && s[1] == ':') || OpensNamed(s[1..])
  }

  /** The text of one atom: a plain character, an escaped one or a bracket expression without parentheses and
      without named classes. */
  predicate AtomText(s: string) {
    (|s| == 1 && Plain(s[0])) ||
    (|s| == 2 && s[0] == '\\' && !('1' <= s[1] <= '9')) ||
    (|s| >= 2 && s[0] == '[' && ClosesClass(s[1..]) && NoParens(s) && !OpensNamed(s[1..]))
  }

  /** What the rewriting passes take for one item that is not a group and opens no range. */
  predicate PassItem(s: string) {
    (|s| == 1 && s[0] !in "\\[()|{") ||
    (|s| == 2 && s[0] == '\\') ||
    (|s| >= 2 && s[0] == '[' && ClosesClass(s[1..]) && NoParens(s))
  }

  /** A text the passes read as a list of such items. */
  predicate PassText(s: string)
    decreases |s|
  {
    |s| == 0 || (PassItem(s[..ItemLen(s)]) && PassText(s[ItemLen(s)..]))
  }

  /** How many characters of a named class are left, from its colon on, or all when it is not closed. */
  function NamedRest(r: string): (n: nat)
    ensures n <= |r|
  {
    if |r| == 0 then 0
    else if r[0] == ':' && |r| >= 2 && r[1] == ']' then 2
    else 1 + NamedRest(r[1..])
  }

  /** The named class is closed. */
  predicate NamedClosed(r: string) {
    |r| >= 2 && ((r[0] == ':' && r[1] == ']') || NamedClosed(r[1..]))
  }

  /** How many characters of r belong to a bracket expression that compile_single has open. */
  function BracketRest(r: string): (n: nat)
    ensures n <= |r|
    decreases |r|
  {
    if |r| == 0 then 0
    else if r[0] == '\\' && |r| >= 2 then 2 + BracketRest(r[2..])
    else if r[0] == '[' && |r| >= 2 && r[1] == ':' then
      var k := 1 + NamedRest(r[1..]);
      k + BracketRest(r[k..])
    else if r[0] == ']' then 1
    else 1 + BracketRest(r[1..])
  }

  /** compile_single finds the end of the bracket expression before the end of the text. */
  predicate BracketClosed(r: string)
    decreases |r|
  {
    |r| > 0 &&
    if r[0] == '\\' && |r| >= 2 then BracketClosed(r[2..])
    else if r[0] == '[' && |r| >= 2 && r[1] == ':' then
      NamedClosed(r[1..]) && BracketClosed(r[1 + NamedRest(r[1..])..])
    else r[0] == ']' || BracketClosed(r[1..])
  }

  predicate AtEscape(r: string) {
    |r| >= 2 && r[0] == '\\'
  }

  predicate AtNamed(r: string) {
    |r| >= 2 && r[0] == '[' && r[1] == ':'
  }

  lemma BracketUnfold(r: string)
    requires |r| > 0
    ensures AtEscape(r) ==> BracketRest(r) == 2 + BracketRest(r[2..]) && (BracketClosed(r) <==> BracketClosed(r[2..]))
    ensures AtNamed(r) ==>
              var k := 1 + NamedRest(r[1..]);
              BracketRest(r) == k + BracketRest(r[k..]) && (BracketClosed(r) <==> NamedClosed(r[1..]) && BracketClosed(r[k..]))
    ensures r[0] == ']' ==> BracketRest(r) == 1 && BracketClosed(r)
    ensures !AtEscape(r) && !AtNamed(r) && r[0] != ']' ==>
              BracketRest(r) == 1 + BracketRest(r[1..]) && (BracketClosed(r) <==> BracketClosed(r[1..]))
  {
  }

  lemma BracketNotEmpty(r: string)
    requires BracketClosed(r)
    ensures |r| > 0
  {
  }

  /** Where the contents of a bracket expression start. */
  function BracketStart(s: string): nat {
    if |s| >= 2 && s[1] == '^' then 2 else 1
  }

  /** A bracket expression for compile_single, to its last character. */
  predicate BracketText(s: string) {
    |s| >= 2 && s[0] == '[' &&
    var r := s[BracketStart(s)..];
    BracketClosed(r) && BracketRest(r) == |r|
  }

  /** A bracket expression with named classes that the passes read through. */
  predicate NamedText(s: string) {
    BracketText(s) && OpensNamed(s[1..]) && PassText(s) && NoParens(s)
  }

  predicate AllDigits(d: string) {
    forall i :: 0 <= i < |d| ==> IsDigit(d[i])
  }

  predicate Number(d: string) {
    |d| >= 1 && AllDigits(d)
  }

  function DigitsValue(d: string, acc: nat): nat
    requires AllDigits(d)
  {
    if |d| == 0 then acc else DigitsValue(d[1..], WithDigit(acc, d[0]))
  }

  function NumberValue(d: string): nat
    requires AllDigits(d)
  {
    DigitsValue(d, 0)
  }

  predicate Simple(c: Count) {
    c.Once? || c.Optional? || c.Many? || c.AtLeastOne?
  }

  predicate GoodCount(c: Count) {
    match c
    case Exactly(d) => Number(d)
    case AtLeast(d) => Number(d)
    case Between(d, e) => Number(d) && Number(e)
    case _ => true
  }

  /** A bracket expression with named classes takes no range. */
  predicate ElemText(text: string, c: Count) {
    AtomText(text) || (NamedText(text) && Simple(c))
  }

  /** Ranges are allowed outside groups only. */
  predicate GoodNode(n: Node, ranges: bool) {
    match n
    case Elem(text, c) => ElemText(text, c) && GoodCount(c) && (ranges || Simple(c))
    case Anchor(_) => true
    case Group(body) => GoodAlts(body, false)
  }

  predicate GoodNodes(ns: Nodes, ranges: bool) {
    match ns
    case Nil => true
    case Cons(n, rest) => GoodNode(n, ranges) && GoodNodes(rest, ranges)
  }

  predicate GoodAlts(a: Alts, ranges: bool) {
    match a
    case Only(ns) => GoodNodes(ns, ranges)
    case Either(ns, others) => GoodNodes(ns, ranges) && GoodAlts(others, ranges)
  }

  // ---- Meaning, for any reading of the atoms ----

  type Sense = string -> Atom

  function ElemItem(sense: Sense, text: string, c: Count): Item
    requires GoodCount(c)
  {
    match c
    case Once => Rep(sense(text), 1, Upto(1))
    case Optional => Rep(sense(text), 0, Upto(1))
    case Many => Rep(sense(text), 0, Endless)
    case AtLeastOne => Rep(sense(text), 1, Endless)
    case Exactly(d) => Rep(sense(text), NumberValue(d), Upto(NumberValue(d)))
    case AtLeast(d) => Rep(sense(text), NumberValue(d), Endless)
    case Between(d, e) => Rep(sense(text), NumberValue(d), Upto(NumberValue(e)))
  }

  ghost predicate InNode(sense: Sense, n: Node, text: string, i: int, j: int)
    requires GoodNode(n, true)
    decreases n
  {
    match n
    case Elem(t, c) => Covers(ElemItem(sense, t, c), text, i, j)
    case Anchor(start) => Covers(if start then AtStart else AtEnd, text, i, j)
    case Group(body) => GoodLoosely(body); InAlts(sense, body, text, i, j)
  }

  predicate Position(text: string, k: int) {
    0 <= k <= |text|
  }

  ghost predicate InNodes(sense: Sense, ns: Nodes, text: string, i: int, j: int)
    requires GoodNodes(ns, true)
    decreases ns
  {
    match ns
    case Nil => i == j
    case Cons(n, rest) =>
      exists k: int {:trigger Position(text, k)} ::
        Position(text, k) && InNode(sense, n, text, i, k) && InNodes(sense, rest, text, k, j)
  }

  /** text[i..j] is in the language of the pattern. */
  ghost predicate InAlts(sense: Sense, a: Alts, text: string, i: int, j: int)
    requires GoodAlts(a, true)
    decreases a
  {
    match a
    case Only(ns) => InNodes(sense, ns, text, i, j)
    case Either(ns, others) => InNodes(sense, ns, text, i, j) || InAlts(sense, others, text, i, j)
  }

  lemma ConsSplit(sense: Sense, n: Node, rest: Nodes, text: string, i: int, j: int) returns (k: int)
    requires GoodNode(n, true) && GoodNodes(rest, true) && InNodes(sense, Cons(n, rest), text, i, j)
    ensures Position(text, k) && InNode(sense, n, text, i, k) && InNodes(sense, rest, text, k, j)
  {
    k :| Position(text, k) && InNode(sense, n, text, i, k) && InNodes(sense, rest, text, k, j);
  }

  lemma ConsJoin(sense: Sense, n: Node, rest: Nodes, text: string, i: int, k: int, j: int)
    requires GoodNode(n, true) && GoodNodes(rest, true)
    requires Position(text, k) && InNode(sense, n, text, i, k) && InNodes(sense, rest, text, k, j)
    ensures InNodes(sense, Cons(n, rest), text, i, j)
  {
  }

  lemma {:induction false} GoodLoosely(a: Alts)
    requires GoodAlts(a, false)
    ensures GoodAlts(a, true)
  {
    GoodNodesLoosely(a.nodes);
    if a.Either? {
      GoodLoosely(a.others);
    }
  }

  lemma {:induction false} GoodNodesLoosely(ns: Nodes)
    requires GoodNodes(ns, false)
    ensures GoodNodes(ns, true)
  {
    if ns.Cons? {
      GoodNodesLoosely(ns.rest);
    }
  }
}
