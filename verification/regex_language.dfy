/**
 * The language of a flat regular expression: a list of items, each of which
 * covers a stretch of the text, so that the stretches follow one another.
 */
module RegexLanguage {
  /** A pattern element that stands for one character. */
  datatype Atom = Dot | Char(c: char) | Digit | NotDigit | Alpha | NotAlpha | Space | NotSpace
                | Class(members: set<char>) | NotClass(members: set<char>)

  predicate IsDigit(c: char) {
    '0' <= c <= '9'
  }

  /** A decimal number with one more digit. */
  function WithDigit(acc: nat, c: char): nat
    requires IsDigit(c)
  {
    acc * 10 + (c as int - '0' as int)
  }

  predicate IsWord(c: char) {
    '0' <= c <= '9' || 'a' <= c <= 'z' || 'A' <= c <= 'Z' || c == '_'
  }

  predicate IsSpace(c: char) {
    c == ' ' || '\t' <= c <= '\r'
  }

  predicate MatchOne(a: Atom, c: char) {
    match a
    case Dot => c != '\n' && c != '\r'
    case Char(d) => c == d
    case Digit => IsDigit(c)
    case NotDigit => !IsDigit(c)
    case Alpha => IsWord(c)
    case NotAlpha => !IsWord(c)
    case Space => IsSpace(c)
    case NotSpace => !IsSpace(c)
    case Class(s) => c in s
    case NotClass(s) => c !in s
  }

  datatype Bound = Upto(n: nat) | Endless

  /** At least min and at most max characters of one kind, or an anchor. */
  datatype Item = Rep(atom: Atom, min: nat, max: Bound) | AtStart | AtEnd

  predicate Run(a: Atom, text: string, i: int, j: int) {
    0 <= i <= j <= |text| && forall k :: i <= k < j ==> MatchOne(a, text[k])
  }

  /** The item covers exactly text[i..j]. */
  predicate Covers(item: Item, text: string, i: int, j: int) {
    match item
    case Rep(a, min, max) => Run(a, text, i, j) && min <= j - i && (max.Upto? ==> j - i <= max.n)
    case AtStart => i == 0 && j == 0
    case AtEnd => i == |text| && j == |text|
  }

  /** cuts[k] and cuts[k + 1] delimit the stretch that item k covers. */
  ghost predicate Cutting(items: seq<Item>, text: string, cuts: seq<int>) {
    |cuts| == |items| + 1 && forall k :: 0 <= k < |items| ==> Covers(items[k], text, cuts[k], cuts[k + 1])
  }

  ghost predicate CutBetween(items: seq<Item>, text: string, cuts: seq<int>, i: int, j: int) {
    Cutting(items, text, cuts) && cuts[0] == i && cuts[|items|] == j
  }

  /** text[i..j] belongs to the language of the items, read in the context of the whole text. */
  ghost predicate Matches(items: seq<Item>, text: string, i: int, j: int) {
    exists cuts: seq<int> :: CutBetween(items, text, cuts, i, j)
  }

  /** Some stretch starting at i belongs to the language. */
  ghost predicate MatchesFrom(items: seq<Item>, text: string, i: int) {
    exists j: int :: Matches(items, text, i, j)
  }

  lemma MatchesNothing(text: string, i: int)
    ensures Matches([], text, i, i)
  {
    assert CutBetween([], text, [i], i, i);
  }

  lemma MatchesJoin(item: Item, rest: seq<Item>, text: string, i: int, k: int, j: int)
    requires Covers(item, text, i, k) && Matches(rest, text, k, j)
    ensures Matches([item] + rest, text, i, j)
  {
    var cuts :| CutBetween(rest, text, cuts, k, j);
    var longer := [i] + cuts;
    var items := [item] + rest;
    forall x | 0 <= x < |items|
      ensures Covers(items[x], text, longer[x], longer[x + 1])
    {
      if x > 0 {
        assert Covers(rest[x - 1], text, cuts[x - 1], cuts[x]);
      }
    }
    assert CutBetween(items, text, longer, i, j);
  }

  lemma MatchesSplit(item: Item, rest: seq<Item>, text: string, i: int, j: int) returns (k: int)
    requires Matches([item] + rest, text, i, j)
    ensures Covers(item, text, i, k) && Matches(rest, text, k, j)
  {
    var items := [item] + rest;
    var cuts :| CutBetween(items, text, cuts, i, j);
    k := cuts[1];
    var tail := cuts[1..];
    forall x | 0 <= x < |rest|
      ensures Covers(rest[x], text, tail[x], tail[x + 1])
    {
      assert Covers(items[x + 1], text, cuts[x + 1], cuts[x + 2]);
    }
    assert Covers(items[0], text, cuts[0], cuts[1]);
    assert CutBetween(rest, text, tail, k, j);
  }

  /** The first item and the rest: the language of a list is the concatenation. */
  lemma FromFirst(item: Item, rest: seq<Item>, text: string, i: int)
    ensures MatchesFrom([item] + rest, text, i) <==> exists k: int :: Covers(item, text, i, k) && MatchesFrom(rest, text, k)
  {
    if MatchesFrom([item] + rest, text, i) {
      var j: int :| Matches([item] + rest, text, i, j);
      var k := MatchesSplit(item, rest, text, i, j);
      assert Covers(item, text, i, k) && MatchesFrom(rest, text, k);
    }
    if k: int :| Covers(item, text, i, k) && MatchesFrom(rest, text, k) {
      var j: int :| Matches(rest, text, k, j);
      MatchesJoin(item, rest, text, i, k, j);
    }
  }

  lemma ConcatJoin(xs: seq<Item>, ys: seq<Item>, text: string, i: int, k: int, j: int)
    requires Matches(xs, text, i, k) && Matches(ys, text, k, j)
    ensures Matches(xs + ys, text, i, j)
  {
    var a: seq<int> :| CutBetween(xs, text, a, i, k);
    var b: seq<int> :| CutBetween(ys, text, b, k, j);
    var cuts := a + b[1..];
    forall x | 0 <= x < |xs + ys|
      ensures Covers((xs + ys)[x], text, cuts[x], cuts[x + 1])
    {
      if x < |xs| {
        assert Covers(xs[x], text, a[x], a[x + 1]);
      } else {
        assert Covers(ys[x - |xs|], text, b[x - |xs|], b[x - |xs| + 1]);
      }
    }
    assert CutBetween(xs + ys, text, cuts, i, j);
  }

  lemma ConcatSplit(xs: seq<Item>, ys: seq<Item>, text: string, i: int, j: int) returns (k: int)
    requires Matches(xs + ys, text, i, j)
    ensures Matches(xs, text, i, k) && Matches(ys, text, k, j)
  {
    var cuts: seq<int> :| CutBetween(xs + ys, text, cuts, i, j);
    k := cuts[|xs|];
    var a, b := cuts[..|xs| + 1], cuts[|xs|..];
    forall x | 0 <= x < |xs|
      ensures Covers(xs[x], text, a[x], a[x + 1])
    {
      assert Covers((xs + ys)[x], text, cuts[x], cuts[x + 1]);
    }
    forall x | 0 <= x < |ys|
      ensures Covers(ys[x], text, b[x], b[x + 1])
    {
      assert Covers((xs + ys)[|xs| + x], text, cuts[|xs| + x], cuts[|xs| + x + 1]);
    }
    assert CutBetween(xs, text, a, i, k);
    assert CutBetween(ys, text, b, k, j);
  }

  lemma SingleMatches(item: Item, text: string, i: int, j: int)
    ensures Matches([item], text, i, j) <==> Covers(item, text, i, j)
  {
    if Covers(item, text, i, j) {
      assert CutBetween([item], text, [i, j], i, j);
    }
    if Matches([item], text, i, j) {
      var cuts: seq<int> :| CutBetween([item], text, cuts, i, j);
      assert Covers([item][0], text, cuts[0], cuts[1]);
    }
  }

  /** A match that starts inside the text ends inside it. */
  lemma {:induction false} MatchesInside(items: seq<Item>, text: string, i: int, j: int)
    requires Matches(items, text, i, j) && 0 <= i <= |text|
    ensures i <= j <= |text|
    decreases |items|
  {
    if |items| > 0 {
      assert items == [items[0]] + items[1..];
      var k := MatchesSplit(items[0], items[1..], text, i, j);
      MatchesInside(items[1..], text, k, j);
    }
  }
}
