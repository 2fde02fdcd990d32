/**
 * The binary search tree of src/search_tree.c: nodes in a store, links
 * overwritten through slots as the source does through pointers to pointers.
 * The ghost shape of the tree is what the theorems speak about.
 */
module Tree {
  /** Keys are compared by rank; keys of equal rank compare equal without being the same. */
  datatype Key = Key(rank: int, id: int)

  datatype Node = Node(key: Key, left: nat, right: nat)

  type Store = map<nat, Node>

  /** The shape of a tree: where its nodes are and what keys they hold. */
  datatype Shape = Nil | Fork(ref: nat, key: Key, left: Shape, right: Shape)

  function Refs(t: Shape): set<nat> {
    if t.Nil? then {} else {t.ref} + Refs(t.left) + Refs(t.right)
  }

  function Keys(t: Shape): set<Key> {
    if t.Nil? then {} else {t.key} + Keys(t.left) + Keys(t.right)
  }

  /** The links from r spell out the shape, without sharing. */
  ghost predicate Models(s: Store, r: nat, t: Shape)
    decreases t
  {
    match t
    case Nil => r == 0
    case Fork(ref, key, left, right) =>
      r == ref && ref != 0 && ref in s && s[ref].key == key &&
      Models(s, s[ref].left, left) && Models(s, s[ref].right, right) &&
      ref !in Refs(left) && ref !in Refs(right) && Refs(left) !! Refs(right)
  }

  predicate Below(t: Shape, rank: int) {
    forall k :: k in Keys(t) ==> k.rank < rank
  }

  predicate Above(t: Shape, rank: int) {
    forall k :: k in Keys(t) ==> k.rank > rank
  }

  /** The search-tree order. */
  predicate Ordered(t: Shape) {
    t.Fork? ==> Ordered(t.left) && Ordered(t.right) && Below(t.left, t.key.rank) && Above(t.right, t.key.rank)
  }

  predicate Has(t: Shape, rank: int) {
    exists k :: k in Keys(t) && k.rank == rank
  }

  lemma {:induction false} Frame(s: Store, u: Store, r: nat, t: Shape)
    requires Models(s, r, t) && forall x :: x in Refs(t) ==> x in s && x in u && u[x] == s[x]
    ensures Models(u, r, t)
    decreases t
  {
    if t.Fork? {
      Frame(s, u, s[r].left, t.left);
      Frame(s, u, s[r].right, t.right);
    }
  }

  lemma {:induction false} RefsInStore(s: Store, r: nat, t: Shape)
    requires Models(s, r, t)
    ensures forall x :: x in Refs(t) ==> x in s && x != 0
    decreases t
  {
    if t.Fork? {
      RefsInStore(s, s[r].left, t.left);
      RefsInStore(s, s[r].right, t.right);
    }
  }

  // ---- Positions in a tree ----

  /** Left is true. */
  type Path = seq<bool>

  ghost predicate Within(t: Shape, p: Path) {
    |p| == 0 || (t.Fork? && Within(if p[0] then t.left else t.right, p[1..]))
  }

  ghost function At(t: Shape, p: Path): Shape
    requires Within(t, p)
  {
    if |p| == 0 then t else At(if p[0] then t.left else t.right, p[1..])
  }

  /** The tree with another subtree at a position. */
  ghost function Graft(t: Shape, p: Path, sub: Shape): Shape
    requires Within(t, p)
  {
    if |p| == 0 then sub
    else if p[0] then Fork(t.ref, t.key, Graft(t.left, p[1..], sub), t.right)
    else Fork(t.ref, t.key, t.left, Graft(t.right, p[1..], sub))
  }

  /** A place that holds a link. */
  datatype Slot = Root | LeftOf(ref: nat) | RightOf(ref: nat)

  ghost function SlotAt(t: Shape, p: Path): Slot
    requires Within(t, p)
  {
    if |p| == 0 then Root
    else if |p| == 1 then if p[0] then LeftOf(t.ref) else RightOf(t.ref)
    else SlotAt(if p[0] then t.left else t.right, p[1..])
  }

  lemma {:induction false} AtStep(t: Shape, p: Path, left: bool)
    requires Within(t, p) && At(t, p).Fork?
    ensures Within(t, p + [left])
    ensures At(t, p + [left]) == if left then At(t, p).left else At(t, p).right
    ensures SlotAt(t, p + [left]) == if left then LeftOf(At(t, p).ref) else RightOf(At(t, p).ref)
  {
    if |p| > 0 {
      assert (p + [left])[1..] == p[1..] + [left];
      AtStep(if p[0] then t.left else t.right, p[1..], left);
    } else {
      assert (p + [left])[1..] == [];
    }
  }

  lemma {:induction false} AtModels(s: Store, r: nat, t: Shape, p: Path) returns (q: nat)
    requires Models(s, r, t) && Within(t, p)
    ensures Models(s, q, At(t, p)) && Refs(At(t, p)) <= Refs(t)
    ensures |p| == 0 ==> q == r
    ensures |p| > 0 ==> var o := SlotAt(t, p);
                        o != Root && o.ref in Refs(t) && o.ref !in Refs(At(t, p)) && o.ref in s &&
                        q == if o.LeftOf? then s[o.ref].left else s[o.ref].right
    decreases t
  {
    if |p| == 0 {
      q := r;
    } else if p[0] {
      q := AtModels(s, s[r].left, t.left, p[1..]);
    } else {
      q := AtModels(s, s[r].right, t.right, p[1..]);
    }
  }

  /** A node after the link in slot o was overwritten. */
  function Wired(n: Node, o: Slot, x: nat, link: nat): Node {
    if o == LeftOf(x) then n.(left := link) else if o == RightOf(x) then n.(right := link) else n
  }

  ghost predicate WiredAt(s: Store, u: Store, o: Slot, link: nat, x: nat) {
    x in s && x in u && u[x] == Wired(s[x], o, x, link)
  }

  /** A store that differs only inside the subtree and in the link to it. */
  ghost predicate Rewired(s: Store, u: Store, t: Shape, p: Path, link: nat)
    requires Within(t, p)
  {
    forall x :: x in Refs(t) && x !in Refs(At(t, p)) ==> WiredAt(s, u, SlotAt(t, p), link, x)
  }

  function Child(t: Shape, left: bool): Shape
    requires t.Fork?
  {
    if left then t.left else t.right
  }

  function Link(n: Node, left: bool): nat {
    if left then n.left else n.right
  }

  /** What descending one step keeps. */
  lemma RewiredBelow(s: Store, u: Store, r: nat, t: Shape, p: Path, link: nat)
    requires Models(s, r, t) && Within(t, p) && |p| > 0 && Rewired(s, u, t, p, link)
    ensures Rewired(s, u, Child(t, p[0]), p[1..], link)
    ensures Models(u, Link(s[r], !p[0]), Child(t, !p[0]))
    ensures r in u && u[r].key == s[r].key && Link(u[r], !p[0]) == Link(s[r], !p[0])
    ensures Link(u[r], p[0]) == if |p| == 1 then link else Link(s[r], p[0])
    ensures Refs(At(t, p)) <= Refs(Child(t, p[0]))
  {
    var next, other := Child(t, p[0]), Child(t, !p[0]);
    var q := AtModels(s, Link(s[r], p[0]), next, p[1..]);
    OwnerInside(s, Link(s[r], p[0]), next, p[1..]);
    assert WiredAt(s, u, SlotAt(t, p), link, r);
    forall x | x in Refs(other)
      ensures x in s && x in u && u[x] == s[x]
    {
      assert WiredAt(s, u, SlotAt(t, p), link, x);
    }
    Frame(s, u, Link(s[r], !p[0]), other);
    forall x | x in Refs(next) && x !in Refs(At(next, p[1..]))
      ensures WiredAt(s, u, SlotAt(next, p[1..]), link, x)
    {
      assert WiredAt(s, u, SlotAt(t, p), link, x);
    }
  }

  /** Writing the link replaces the subtree and nothing else. */
  lemma {:induction false} GraftModels(s: Store, u: Store, r: nat, t: Shape, p: Path, sub: Shape, link: nat)
    requires Models(s, r, t) && Within(t, p) && Rewired(s, u, t, p, link)
    requires Models(u, link, sub) && forall x :: x in Refs(sub) && x in Refs(t) ==> x in Refs(At(t, p))
    ensures Models(u, if |p| == 0 then link else r, Graft(t, p, sub))
    ensures forall x :: x in Refs(Graft(t, p, sub)) ==> x in Refs(sub) || (x in Refs(t) && x !in Refs(At(t, p)))
    decreases t
  {
    if |p| > 0 {
      RewiredBelow(s, u, r, t, p, link);
      var q := AtModels(s, Link(s[r], p[0]), Child(t, p[0]), p[1..]);
      GraftModels(s, u, Link(s[r], p[0]), Child(t, p[0]), p[1..], sub, link);
    }
  }

  /** The owner of a slot deeper down lies in the subtree that is descended into. */
  lemma {:induction false} OwnerInside(s: Store, r: nat, t: Shape, p: Path)
    requires Models(s, r, t) && Within(t, p)
    ensures |p| > 0 ==> SlotAt(t, p) != Root && SlotAt(t, p).ref in Refs(t)
    decreases t
  {
    if |p| > 1 {
      OwnerInside(s, if p[0] then s[r].left else s[r].right, if p[0] then t.left else t.right, p[1..]);
    }
  }

  // ---- Order along a search ----

  /** p is the way the comparisons lead a key of this rank, without meeting its equal. */
  ghost predicate Led(t: Shape, p: Path, rank: int) {
    |p| == 0 ||
    (t.Fork? && t.key.rank != rank && p[0] == (rank < t.key.rank) && Led(Child(t, p[0]), p[1..], rank))
  }

  lemma {:induction false} LedStep(t: Shape, p: Path, rank: int)
    requires Within(t, p) && Led(t, p, rank) && At(t, p).Fork? && At(t, p).key.rank != rank
    ensures Led(t, p + [rank < At(t, p).key.rank], rank)
  {
    var left := rank < At(t, p).key.rank;
    if |p| > 0 {
      assert (p + [left])[1..] == p[1..] + [left];
      LedStep(Child(t, p[0]), p[1..], rank);
    } else {
      assert (p + [left])[1..] == [];
    }
  }

  /** Only the subtree the search has reached can hold the key. */
  lemma {:induction false} LedDecides(t: Shape, p: Path, rank: int)
    requires Ordered(t) && Within(t, p) && Led(t, p, rank)
    ensures Ordered(At(t, p)) && Keys(At(t, p)) <= Keys(t) && (Has(t, rank) <==> Has(At(t, p), rank))
  {
    if |p| > 0 {
      LedDecides(Child(t, p[0]), p[1..], rank);
    }
  }

  /** A subtree may be replaced by one with some of its keys and keys the search leads there. */
  lemma {:induction false} GraftOrdered(t: Shape, p: Path, sub: Shape)
    requires Ordered(t) && Within(t, p) && Ordered(sub)
    requires forall k :: k in Keys(sub) ==> k in Keys(At(t, p)) || Led(t, p, k.rank)
    ensures Ordered(Graft(t, p, sub)) && Keys(At(t, p)) <= Keys(t)
    ensures Keys(Graft(t, p, sub)) == Keys(t) - Keys(At(t, p)) + Keys(sub)
  {
    if |p| > 0 {
      hide Led;
      var next := Child(t, p[0]);
      LedBelow(t, p, sub);
      GraftOrdered(next, p[1..], sub);
      GraftBounds(t, p, sub);
      GraftJoined(t, p, sub, Graft(next, p[1..], sub));
    }
  }

  /** Putting a rebuilt child back under its node. */
  lemma GraftJoined(t: Shape, p: Path, sub: Shape, child: Shape)
    requires Ordered(t) && Within(t, p) && |p| > 0 && Ordered(child) && child == Graft(Child(t, p[0]), p[1..], sub)
    requires Keys(child) == Keys(Child(t, p[0])) - Keys(At(t, p)) + Keys(sub)
    requires forall k :: k in Keys(sub) ==> if p[0] then k.rank < t.key.rank else k.rank > t.key.rank
    requires t.key !in Keys(At(t, p)) && Keys(Child(t, !p[0])) !! Keys(At(t, p))
    ensures Ordered(Graft(t, p, sub)) && Keys(Graft(t, p, sub)) == Keys(t) - Keys(At(t, p)) + Keys(sub)
  {
    var g := Graft(t, p, sub);
    assert Child(g, p[0]) == child && Child(g, !p[0]) == Child(t, !p[0]) && g.key == t.key;
    hide Graft, At;
    KeysOfNode(g, p[0]);
    KeysOfNode(t, p[0]);
    OrderedNode(g, p[0]);
    OrderedNode(t, p[0]);
    hide Keys, Ordered;
    KeysJoined(t.key, Keys(Child(t, p[0])), Keys(Child(t, !p[0])), Keys(At(t, p)), Keys(sub));
  }

  lemma KeysOfNode(t: Shape, side: bool)
    requires t.Fork?
    ensures Keys(t) == {t.key} + Keys(Child(t, side)) + Keys(Child(t, !side))
  {
  }

  /** A node is in order when both subtrees are and lie on their sides of its key. */
  lemma OrderedNode(t: Shape, side: bool)
    requires t.Fork?
    ensures Ordered(t) <==>
            && Ordered(Child(t, side)) && Ordered(Child(t, !side))
            && (forall k :: k in Keys(Child(t, side)) ==> if side then k.rank < t.key.rank else k.rank > t.key.rank)
            && (forall k :: k in Keys(Child(t, !side)) ==> if side then k.rank > t.key.rank else k.rank < t.key.rank)
  {
  }

  lemma KeysJoined(key: Key, near: set<Key>, far: set<Key>, gone: set<Key>, come: set<Key>)
    requires key !in gone && far !! gone
    ensures {key} + (near - gone + come) + far == {key} + near + far - gone + come
  {
  }

  lemma LedBelow(t: Shape, p: Path, sub: Shape)
    requires Within(t, p) && |p| > 0
    requires forall k :: k in Keys(sub) ==> k in Keys(At(t, p)) || Led(t, p, k.rank)
    ensures forall k :: k in Keys(sub) ==> k in Keys(At(Child(t, p[0]), p[1..])) || Led(Child(t, p[0]), p[1..], k.rank)
  {
  }

  /** Keys the search leads below a node stay on their side of it. */
  lemma GraftBounds(t: Shape, p: Path, sub: Shape)
    requires Ordered(t) && Within(t, p) && |p| > 0
    requires forall k :: k in Keys(sub) ==> k in Keys(At(t, p)) || Led(t, p, k.rank)
    requires Keys(At(t, p)) <= Keys(Child(t, p[0]))
    ensures forall k :: k in Keys(sub) ==> if p[0] then k.rank < t.key.rank else k.rank > t.key.rank
    ensures t.key !in Keys(At(t, p)) && Keys(Child(t, !p[0])) !! Keys(At(t, p))
  {
  }

  /** Taking out a node with at most one child: its child takes its place. */
  lemma Spliced(s: Store, u: Store, r: nat, t: Shape, p: Path, only: Shape, link: nat)
    requires Models(s, r, t) && Ordered(t) && Within(t, p) && At(t, p).Fork?
    requires var n := At(t, p); (n.left.Nil? && only == n.right) || (n.right.Nil? && only == n.left)
    requires Models(s, link, only)
    requires forall x :: x in s && x != At(t, p).ref ==> x in u && u[x] == Wired(s[x], SlotAt(t, p), x, link)
    ensures Models(u, if |p| == 0 then link else r, Graft(t, p, only))
    ensures Ordered(Graft(t, p, only)) && Keys(Graft(t, p, only)) == Keys(t) - {At(t, p).key}
  {
    var n := At(t, p);
    RefsInStore(s, r, t);
    var q := AtModels(s, r, t, p);
    forall x | x in Refs(only)
      ensures x in s && x in u && u[x] == s[x]
    {
      assert x in Refs(n) && x != n.ref;
    }
    Frame(s, u, link, only);
    forall x | x in Refs(t) && x !in Refs(n)
      ensures WiredAt(s, u, SlotAt(t, p), link, x)
    {
    }
    GraftModels(s, u, r, t, p, only, link);
    SplicedOrder(t, p, only);
  }

  lemma {:induction false} AtOrdered(t: Shape, p: Path)
    requires Ordered(t) && Within(t, p)
    ensures Ordered(At(t, p)) && Keys(At(t, p)) <= Keys(t)
  {
    if |p| > 0 {
      AtOrdered(Child(t, p[0]), p[1..]);
    }
  }

  lemma SplicedOrder(t: Shape, p: Path, only: Shape)
    requires Ordered(t) && Within(t, p) && At(t, p).Fork?
    requires var n := At(t, p); (n.left.Nil? && only == n.right) || (n.right.Nil? && only == n.left)
    ensures Ordered(Graft(t, p, only)) && Keys(Graft(t, p, only)) == Keys(t) - {At(t, p).key}
  {
    var n := At(t, p);
    AtOrdered(t, p);
    GraftOrdered(t, p, only);
    assert Keys(n) == {n.key} + Keys(only) && n.key !in Keys(only);
  }

  /** The way to the smallest key. */
  ghost predicate AllLeft(p: Path) {
    forall i :: 0 <= i < |p| ==> p[i]
  }

  lemma {:induction false} Leftmost(t: Shape, p: Path)
    requires Ordered(t) && Within(t, p) && AllLeft(p) && At(t, p).Fork? && At(t, p).left.Nil?
    ensures At(t, p).key in Keys(t)
    ensures forall k :: k in Keys(t) ==> k == At(t, p).key || k.rank > At(t, p).key.rank
  {
    if |p| > 0 {
      Leftmost(t.left, p[1..]);
    }
  }

  /** The node that takes over the smallest key of its right subtree. */
  ghost function Promoted(n: Shape, m: Path): Shape
    requires n.Fork? && Within(n.right, m) && At(n.right, m).Fork?
  {
    Fork(n.ref, At(n.right, m).key, n.left, Graft(n.right, m, At(n.right, m).right))
  }

  lemma PromotedOrder(t: Shape, p: Path, m: Path)
    requires Ordered(t) && Within(t, p) && At(t, p).Fork? && At(t, p).right.Fork?
    requires var r := At(t, p).right; Within(r, m) && AllLeft(m) && At(r, m).Fork? && At(r, m).left.Nil?
    ensures var sub := Promoted(At(t, p), m);
            Ordered(Graft(t, p, sub)) && Keys(Graft(t, p, sub)) == Keys(t) - {At(t, p).key}
  {
    var n := At(t, p);
    var sub := Promoted(n, m);
    AtOrdered(t, p);
    Leftmost(n.right, m);
    SplicedOrder(n.right, m, At(n.right, m).right);
    assert Keys(n.right) - {sub.key} + {sub.key} == Keys(n.right);
    assert Keys(sub) == Keys(n) - {n.key};
    GraftOrdered(t, p, sub);
  }

  /** Taking out a node with two children. */
  lemma PromotedModels(s: Store, u: Store, r: nat, t: Shape, p: Path, m: Path)
    requires Models(s, r, t) && Ordered(t) && Within(t, p) && At(t, p).Fork? && At(t, p).right.Fork?
    requires var y := At(t, p).right; Within(y, m) && At(y, m).Fork?
    requires var n := At(t, p); var min := At(n.right, m);
             n.ref in s && min.ref in s && min.ref != n.ref &&
             (forall x :: x in s && x != n.ref && x != min.ref ==>
                x in u && u[x] == Wired(s[x], SlotAt(n.right, m), x, s[min.ref].right)) &&
             n.ref in u && u[n.ref] == Node(min.key, s[n.ref].left, if |m| == 0 then s[min.ref].right else s[n.ref].right)
    ensures Models(u, r, Graft(t, p, Promoted(At(t, p), m)))
  {
    var n := At(t, p);
    var y := n.right;
    var min := At(y, m);
    var q := AtModels(s, r, t, p);
    RefsInStore(s, r, t);
    var mq := AtModels(s, s[n.ref].right, y, m);
    OwnerInside(s, s[n.ref].right, y, m);
    var link := s[min.ref].right;
    forall x | x in Refs(y) && x !in Refs(min)
      ensures WiredAt(s, u, SlotAt(y, m), link, x)
    {
      assert x in Refs(n);
    }
    forall x | x in Refs(min.right)
      ensures x in s && x in u && u[x] == s[x]
    {
      assert x in Refs(min) && x in Refs(y) && x in Refs(n);
    }
    Frame(s, u, link, min.right);
    GraftModels(s, u, s[n.ref].right, y, m, min.right, link);
    PromotedRest(s, u, r, t, p, m);
  }

  lemma PromotedRest(s: Store, u: Store, r: nat, t: Shape, p: Path, m: Path)
    requires Models(s, r, t) && Within(t, p) && At(t, p).Fork?
    requires var y := At(t, p).right; Within(y, m) && At(y, m).Fork?
    requires var n := At(t, p); var min := At(n.right, m);
             n.ref in s && min.ref in s && min.ref in Refs(n.right) && min.ref != n.ref &&
             (|m| > 0 ==> SlotAt(n.right, m) != Root && SlotAt(n.right, m).ref in Refs(n.right)) &&
             (forall x :: x in s && x != n.ref && x != min.ref ==>
                x in u && u[x] == Wired(s[x], SlotAt(n.right, m), x, s[min.ref].right)) &&
             n.ref in u && u[n.ref] == Node(min.key, s[n.ref].left, if |m| == 0 then s[min.ref].right else s[n.ref].right)
    requires var n := At(t, p); var y := n.right; var min := At(y, m);
             Models(u, u[n.ref].right, Graft(y, m, min.right)) &&
             forall x :: x in Refs(Graft(y, m, min.right)) ==> x in Refs(y)
    ensures Models(u, r, Graft(t, p, Promoted(At(t, p), m)))
  {
    var n := At(t, p);
    var sub := Promoted(n, m);
    RefsInStore(s, r, t);
    var q := AtModels(s, r, t, p);
    forall x | x in Refs(n.left)
      ensures x in s && x in u && u[x] == s[x]
    {
      assert x in Refs(n);
    }
    Frame(s, u, s[n.ref].left, n.left);
    assert Models(u, n.ref, sub);
    forall x | x in Refs(t) && x !in Refs(n)
      ensures WiredAt(s, u, SlotAt(t, p), n.ref, x)
    {
      assert u[x] == s[x];
    }
    GraftModels(s, u, r, t, p, sub, n.ref);
  }

  class SearchTree {
    var root: nat
    var nodes: Store
    ghost var shape: Shape

    ghost predicate Valid()
      reads this
    {
      Models(nodes, root, shape) && Ordered(shape)
    }

    constructor ()
      ensures Valid() && shape == Nil
    {
      root, nodes, shape := 0, map[], Nil;
    }

    predicate SlotOk(o: Slot)
      reads this
    {
      o == Root || o.ref in nodes
    }

    function Load(o: Slot): nat
      reads this
      requires SlotOk(o)
    {
      match o
      case Root => root
      case LeftOf(r) => nodes[r].left
      case RightOf(r) => nodes[r].right
    }

    method Save(o: Slot, link: nat)
      requires SlotOk(o)
      modifies this`root, this`nodes
      ensures root == if o == Root then link else old(root)
      ensures nodes.Keys == old(nodes).Keys
      ensures forall x :: x in nodes ==> nodes[x] == Wired(old(nodes)[x], o, x, link)
    {
      match o
      case Root => root := link;
      case LeftOf(r) => nodes := nodes[r := nodes[r].(left := link)];
      case RightOf(r) => nodes := nodes[r := nodes[r].(right := link)];
    }

    lemma SlotHolds(p: Path)
      requires Valid() && Within(shape, p)
      ensures SlotOk(SlotAt(shape, p)) && Models(nodes, Load(SlotAt(shape, p)), At(shape, p))
      ensures Refs(At(shape, p)) <= Refs(shape)
      ensures forall x :: x in Refs(shape) ==> x in nodes && x != 0
    {
      var q := AtModels(nodes, root, shape, p);
      RefsInStore(nodes, root, shape);
    }

    /** tsearch; `spare` is what malloc would return, 0 when it fails. */
    method TSearch(key: Key, o: Slot, spare: nat, ghost p: Path) returns (r: nat)
      requires Valid() && Within(shape, p) && o == SlotAt(shape, p) && Led(shape, p, key.rank)
      requires spare !in nodes
      modifies this
      ensures Valid()
      ensures r == 0 || (r in nodes && nodes[r].key.rank == key.rank)
      ensures old(Has(shape, key.rank)) ==> r != 0 && root == old(root) && nodes == old(nodes) && shape == old(shape)
      ensures !old(Has(shape, key.rank)) && spare == 0 ==> r == 0 && nodes == old(nodes) && shape == old(shape)
      ensures !old(Has(shape, key.rank)) && spare != 0 ==>
        r == spare && nodes[r].key == key && Keys(shape) == old(Keys(shape)) + {key} &&
        nodes.Keys == old(nodes).Keys + {spare}
      decreases At(shape, p)
    {
      SlotHolds(p);
      LedDecides(shape, p, key.rank);
      var here := Load(o);
      if here == 0 {
        if spare == 0 {
          return 0;
        }
        ghost var s := nodes;
        nodes := nodes[spare := Node(key, 0, 0)];
        Save(o, spare);
        ghost var sub := Fork(spare, key, Nil, Nil);
        AddLeaf(s, nodes, old(root), shape, p, sub, key);
        shape := Graft(shape, p, sub);
        return spare;
      }
      var c := nodes[here].key;
      if key.rank == c.rank {
        assert c in Keys(At(shape, p));
        return here;
      }
      AtStep(shape, p, key.rank < c.rank);
      LedStep(shape, p, key.rank);
      if key.rank < c.rank {
        r := TSearch(key, LeftOf(here), spare, p + [true]);
      } else {
        r := TSearch(key, RightOf(here), spare, p + [false]);
      }
    }

    /** tfind. */
    method TFind(key: Key, o: Slot, ghost p: Path) returns (r: nat)
      requires Valid() && Within(shape, p) && o == SlotAt(shape, p) && Led(shape, p, key.rank)
      ensures r != 0 <==> Has(shape, key.rank)
      ensures r != 0 ==> r in nodes && nodes[r].key.rank == key.rank && nodes[r].key in Keys(shape)
      decreases At(shape, p)
    {
      SlotHolds(p);
      LedDecides(shape, p, key.rank);
      var here := Load(o);
      if here == 0 {
        return 0;
      }
      var c := nodes[here].key;
      if key.rank == c.rank {
        assert c in Keys(At(shape, p));
        return here;
      }
      AtStep(shape, p, key.rank < c.rank);
      LedStep(shape, p, key.rank);
      if key.rank < c.rank {
        r := TFind(key, LeftOf(here), p + [true]);
      } else {
        r := TFind(key, RightOf(here), p + [false]);
      }
    }

    /** The search loop of tdelete: the slot that holds the key's node, or an empty one. */
    method Descend(key: Key) returns (o: Slot, parent: nat, ghost p: Path)
      requires Valid()
      ensures Within(shape, p) && o == SlotAt(shape, p) && SlotOk(o) && Led(shape, p, key.rank)
      ensures At(shape, p).Fork? <==> Has(shape, key.rank)
      ensures At(shape, p).Fork? ==> At(shape, p).key.rank == key.rank
      ensures (|p| == 0 <==> o == Root) && parent == if |p| == 0 then 0 else o.ref
    {
      o, parent, p := Root, 0, [];
      SlotHolds(p);
      while Load(o) != 0
        invariant Within(shape, p) && o == SlotAt(shape, p) && SlotOk(o) && Led(shape, p, key.rank)
        invariant Models(nodes, Load(o), At(shape, p))
        invariant (|p| == 0 <==> o == Root) && parent == if |p| == 0 then 0 else o.ref
        decreases At(shape, p)
      {
        var here := Load(o);
        var c := nodes[here].key;
        if key.rank == c.rank {
          LedDecides(shape, p, key.rank);
          assert c in Keys(At(shape, p));
          return;
        }
        AtStep(shape, p, key.rank < c.rank);
        LedStep(shape, p, key.rank);
        parent := here;
        o := if key.rank < c.rank then LeftOf(here) else RightOf(here);
        p := p + [key.rank < c.rank];
        SlotHolds(p);
      }
      LedDecides(shape, p, key.rank);
    }

    /** The inner loop of tdelete: the smallest node of the right subtree and the slot that holds it. */
    method Smallest(t: nat, ghost y: Shape) returns (minp: Slot, min: nat, ghost m: Path)
      requires t in nodes && y.Fork? && Models(nodes, nodes[t].right, y) && t !in Refs(y)
      ensures Within(y, m) && AllLeft(m) && At(y, m).Fork? && At(y, m).left.Nil? && min == At(y, m).ref
      ensures minp == if |m| == 0 then RightOf(t) else SlotAt(y, m)
      ensures min in nodes && min != t && min in Refs(y) && (|m| > 0 ==> minp.LeftOf? && minp.ref in Refs(y) && minp.ref != min)
    {
      minp, min, m := RightOf(t), nodes[t].right, [];
      RefsInStore(nodes, min, y);
      while nodes[min].left != 0
        invariant Within(y, m) && AllLeft(m) && At(y, m).Fork? && min == At(y, m).ref && min in nodes
        invariant Models(nodes, min, At(y, m)) && Refs(At(y, m)) <= Refs(y)
        invariant minp == if |m| == 0 then RightOf(t) else SlotAt(y, m)
        invariant |m| > 0 ==> minp.LeftOf? && minp.ref in Refs(y) && minp.ref != min
        decreases At(y, m)
      {
        AtStep(y, m, true);
        minp, min, m := LeftOf(min), nodes[min].left, m + [true];
      }
    }

    /** tdelete. The result is the parent's node, or the deleted root's own address. */
    method TDelete(key: Key) returns (r: nat)
      requires Valid()
      modifies this
      ensures Valid()
      ensures r == 0 <==> !old(Has(shape, key.rank))
      ensures r == 0 ==> root == old(root) && nodes == old(nodes) && shape == old(shape)
      ensures r != 0 ==> exists k :: k in old(Keys(shape)) && k.rank == key.rank && Keys(shape) == old(Keys(shape)) - {k}
      ensures r != 0 ==> r in old(nodes) && |nodes.Keys| == |old(nodes).Keys| - 1
      ensures !Has(shape, key.rank)
    {
      var o, parent;
      ghost var p;
      o, parent, p := Descend(key);
      SlotHolds(p);
      LedDecides(shape, p, key.rank);
      var t := Load(o);
      if t == 0 {
        return 0;
      }
      r := if parent != 0 then parent else t;
      ghost var was := shape;
      ghost var gone := At(shape, p).key;
      assert gone in Keys(At(shape, p));
      if nodes[t].left == 0 {
        Splice(o, t, nodes[t].right, p, At(shape, p).right);
      } else if nodes[t].right == 0 {
        Splice(o, t, nodes[t].left, p, At(shape, p).left);
      } else {
        Promote(t, p);
      }
      RanksDiffer(was, gone);
    }

    method Splice(o: Slot, t: nat, link: nat, ghost p: Path, ghost only: Shape)
      requires Valid() && Within(shape, p) && o == SlotAt(shape, p) && SlotOk(o) && At(shape, p).Fork? && t == At(shape, p).ref
      requires var n := At(shape, p); (n.left.Nil? && only == n.right) || (n.right.Nil? && only == n.left)
      requires t in nodes && Models(nodes, link, only) && (|p| == 0 <==> o == Root) && (o != Root ==> o.ref != t)
      modifies this
      ensures Valid() && Keys(shape) == old(Keys(shape)) - {old(At(shape, p).key)}
      ensures nodes.Keys == old(nodes).Keys - {t}
    {
      ghost var s := nodes;
      Save(o, link);
      nodes := nodes - {t};
      Spliced(s, nodes, old(root), shape, p, only, link);
      shape := Graft(shape, p, only);
    }

    /** The key moves up, the smallest node is freed and its child takes its place. */
    method Excise(t: nat, minp: Slot, min: nat)
      requires t in nodes && min in nodes && t != min && minp != Root && minp.ref in nodes && minp.ref != min
      requires minp.ref == t ==> minp.RightOf?
      modifies this`nodes, this`root
      ensures root == old(root) && nodes.Keys == old(nodes).Keys - {min}
      ensures forall x :: x in nodes && x != t ==> nodes[x] == Wired(old(nodes)[x], minp, x, old(nodes)[min].right)
      ensures nodes[t] == Node(old(nodes)[min].key, old(nodes)[t].left,
                               if minp == RightOf(t) then old(nodes)[min].right else old(nodes)[t].right)
    {
      nodes := nodes[t := nodes[t].(key := nodes[min].key)];
      var child := nodes[min].right;
      nodes := nodes - {min};
      Save(minp, child);
    }

    method Promote(t: nat, ghost p: Path)
      requires Valid() && Within(shape, p) && At(shape, p).Fork? && t == At(shape, p).ref && t in nodes
      requires Models(nodes, t, At(shape, p)) && nodes[t].left != 0 && nodes[t].right != 0
      modifies this
      ensures Valid() && Keys(shape) == old(Keys(shape)) - {old(At(shape, p).key)}
      ensures exists x :: x in old(nodes) && nodes.Keys == old(nodes).Keys - {x}
    {
      ghost var s := nodes;
      ghost var n := At(shape, p);
      var minp, min;
      ghost var m;
      minp, min, m := Smallest(t, n.right);
      ghost var q := AtModels(s, s[t].right, n.right, m);
      Excise(t, minp, min);
      assert minp == RightOf(t) <==> |m| == 0;
      PromotedModels(s, nodes, old(root), shape, p, m);
      PromotedOrder(shape, p, m);
      shape := Graft(shape, p, Promoted(n, m));
    }
  }

  // ---- Walking ----

  datatype Order = Preorder | Postorder | Endorder | Leaf

  datatype Visit = Visit(key: Key, order: Order, level: int)

  /** What walk reports for a tree. */
  function Visits(t: Shape, level: int): seq<Visit> {
    if t.Nil? then []
    else if t.left.Nil? && t.right.Nil? then [Visit(t.key, Leaf, level)]
    else [Visit(t.key, Preorder, level)] + Visits(t.left, level + 1) + [Visit(t.key, Postorder, level)] +
         Visits(t.right, level + 1) + [Visit(t.key, Endorder, level)]
  }

  /** walk and twalk: the recursion over the nodes. */
  method Walk(nodes: Store, n: nat, level: int, ghost t: Shape) returns (v: seq<Visit>)
    requires Models(nodes, n, t)
    ensures v == Visits(t, level)
    decreases t
  {
    if n == 0 {
      return [];
    }
    var node := nodes[n];
    if node.left == 0 && node.right == 0 {
      return [Visit(node.key, Leaf, level)];
    }
    v := [Visit(node.key, Preorder, level)];
    if node.left != 0 {
      var w := Walk(nodes, node.left, level + 1, t.left);
      v := v + w;
    }
    v := v + [Visit(node.key, Postorder, level)];
    if node.right != 0 {
      var w := Walk(nodes, node.right, level + 1, t.right);
      v := v + w;
    }
    v := v + [Visit(node.key, Endorder, level)];
  }

  /** The keys of the postorder and leaf visits, in the order of the visits. */
  function Listed(v: seq<Visit>): seq<Key> {
    if |v| == 0 then [] else Counted(v[0]) + Listed(v[1..])
  }

  function Counted(v: Visit): seq<Key> {
    if v.order.Postorder? || v.order.Leaf? then [v.key] else []
  }

  lemma {:induction false} ListedConcat(a: seq<Visit>, b: seq<Visit>)
    ensures Listed(a + b) == Listed(a) + Listed(b)
  {
    if |a| == 0 {
      assert a + b == b;
    } else {
      assert (a + b)[1..] == a[1..] + b && (a + b)[0] == a[0];
      ListedConcat(a[1..], b);
      var c := Counted(a[0]);
      assert c + (Listed(a[1..]) + Listed(b)) == (c + Listed(a[1..])) + Listed(b);
    }
  }

  lemma ListedOne(v: Visit)
    ensures Listed([v]) == Counted(v)
  {
    assert [v][1..] == [];
    assert Listed([v][1..]) == [];
    assert Counted(v) + [] == Counted(v);
  }

  function InOrder(t: Shape): seq<Key> {
    if t.Nil? then [] else InOrder(t.left) + [t.key] + InOrder(t.right)
  }

  lemma ListedFork(a: seq<Visit>, b: seq<Visit>, key: Key, level: int)
    ensures Listed([Visit(key, Preorder, level)] + a + [Visit(key, Postorder, level)] + b + [Visit(key, Endorder, level)]) ==
            Listed(a) + [key] + Listed(b)
  {
    var pre, post, end := [Visit(key, Preorder, level)], [Visit(key, Postorder, level)], [Visit(key, Endorder, level)];
    hide Listed;
    ListedOne(pre[0]);
    ListedOne(post[0]);
    ListedOne(end[0]);
    ListedConcat(pre + a + post + b, end);
    ListedConcat(pre + a + post, b);
    ListedConcat(pre + a, post);
    ListedConcat(pre, a);
  }

  lemma {:induction false} VisitsInOrder(t: Shape, level: int)
    ensures Listed(Visits(t, level)) == InOrder(t)
  {
    if t.Fork? {
      VisitsInOrder(t.left, level + 1);
      VisitsInOrder(t.right, level + 1);
      if t.left.Fork? || t.right.Fork? {
        ListedFork(Visits(t.left, level + 1), Visits(t.right, level + 1), t.key, level);
      }
    }
  }

  lemma {:induction false} InOrderKeys(t: Shape, k: Key)
    ensures k in InOrder(t) <==> k in Keys(t)
  {
    if t.Fork? {
      InOrderKeys(t.left, k);
      InOrderKeys(t.right, k);
    }
  }

  lemma {:induction false} InOrderIncreases(t: Shape)
    requires Ordered(t)
    ensures forall i, j :: 0 <= i < j < |InOrder(t)| ==> InOrder(t)[i].rank < InOrder(t)[j].rank
  {
    if t.Fork? {
      InOrderIncreases(t.left);
      InOrderIncreases(t.right);
      var a, b := InOrder(t.left), InOrder(t.right);
      forall i | 0 <= i < |a|
        ensures a[i].rank < t.key.rank
      {
        InOrderKeys(t.left, a[i]);
      }
      forall i | 0 <= i < |b|
        ensures t.key.rank < b[i].rank
      {
        InOrderKeys(t.right, b[i]);
      }
    }
  }

  /** The postorder and leaf visits list exactly the keys, in strictly increasing order. */
  lemma WalkSorts(t: Shape, level: int)
    requires Ordered(t)
    ensures var ks := Listed(Visits(t, level));
            (forall k :: k in ks <==> k in Keys(t)) && forall i, j :: 0 <= i < j < |ks| ==> ks[i].rank < ks[j].rank
  {
    VisitsInOrder(t, level);
    InOrderIncreases(t);
    forall k: Key
      ensures k in InOrder(t) <==> k in Keys(t)
    {
      InOrderKeys(t, k);
    }
  }

  /** A visit of a node with children is one of its own three or one of its children's. */
  lemma VisitOfFork(t: Shape, level: int, i: nat)
    requires t.Fork? && (t.left.Fork? || t.right.Fork?) && i < |Visits(t, level)|
    ensures var a, b := Visits(t.left, level + 1), Visits(t.right, level + 1);
            var v := Visits(t, level)[i];
            if 1 <= i < 1 + |a| then v == a[i - 1]
            else if 2 + |a| <= i < 2 + |a| + |b| then v == b[i - 2 - |a|]
            else v.key == t.key && v.level == level && v.order != Leaf
  {
    hide Visits;
    var a, b := Visits(t.left, level + 1), Visits(t.right, level + 1);
    VisitsUnfold(t, level);
    var pre, post, end := [Visit(t.key, Preorder, level)], [Visit(t.key, Postorder, level)], [Visit(t.key, Endorder, level)];
    assert Visits(t, level) == pre + a + post + b + end;
  }

  lemma VisitsUnfold(t: Shape, level: int)
    requires t.Fork? && (t.left.Fork? || t.right.Fork?)
    ensures Visits(t, level) ==
            [Visit(t.key, Preorder, level)] + Visits(t.left, level + 1) + [Visit(t.key, Postorder, level)] +
            Visits(t.right, level + 1) + [Visit(t.key, Endorder, level)]
  {
  }

  lemma StepDown(t: Shape, left: bool, q: Path)
    requires t.Fork? && Within(Child(t, left), q)
    ensures Within(t, [left] + q) && At(t, [left] + q) == At(Child(t, left), q)
  {
    assert ([left] + q)[1..] == q;
  }

  /** Every visit reports its node's depth. */
  lemma {:induction false} VisitDepth(t: Shape, level: int, i: nat) returns (p: Path)
    requires i < |Visits(t, level)|
    ensures Within(t, p) && At(t, p).Fork? && Visits(t, level)[i].key == At(t, p).key
    ensures Visits(t, level)[i].level == level + |p|
    ensures Visits(t, level)[i].order == Leaf <==> At(t, p).left.Nil? && At(t, p).right.Nil?
  {
    p := [];
    if t.left.Fork? || t.right.Fork? {
      VisitOfFork(t, level, i);
      hide Visits, Within, At;
      var a, b := Visits(t.left, level + 1), Visits(t.right, level + 1);
      if 1 <= i < 1 + |a| {
        var q := VisitDepth(t.left, level + 1, i - 1);
        p := [true] + q;
        StepDown(t, true, q);
      } else if 2 + |a| <= i < 2 + |a| + |b| {
        var q := VisitDepth(t.right, level + 1, i - 2 - |a|);
        p := [false] + q;
        StepDown(t, false, q);
      }
    }
  }

  /** A stretch of a child's visits is a stretch of the parent's. */
  lemma VisitsShift(t: Shape, level: int, left: bool) returns (d: nat)
    requires t.Fork? && (t.left.Fork? || t.right.Fork?)
    ensures var v, w := Visits(t, level), Visits(Child(t, left), level + 1);
            d + |w| <= |v| && v[d..d + |w|] == w
  {
    hide Visits;
    VisitsUnfold(t, level);
    var a, b := Visits(t.left, level + 1), Visits(t.right, level + 1);
    d := if left then 1 else 2 + |a|;
    var pre, post, end := [Visit(t.key, Preorder, level)], [Visit(t.key, Postorder, level)], [Visit(t.key, Endorder, level)];
    assert Visits(t, level) == pre + a + post + b + end;
    if left {
      assert (pre + a + post + b + end)[1..1 + |a|] == a;
    } else {
      assert (pre + a + post + b + end)[2 + |a|..2 + |a| + |b|] == b;
    }
  }

  /** The visits of a node on its own. */
  ghost predicate Nested(v: seq<Visit>, n: Shape, level: int, i: nat, j: nat, e: nat) {
    n.Fork? && i <= j <= e < |v| &&
    if n.left.Nil? && n.right.Nil? then i == j == e && v[i] == Visit(n.key, Leaf, level)
    else
      && i < j < e
      && v[i] == Visit(n.key, Preorder, level) && v[j] == Visit(n.key, Postorder, level)
      && v[e] == Visit(n.key, Endorder, level)
      && v[i + 1..j] == Visits(n.left, level + 1) && v[j + 1..e] == Visits(n.right, level + 1)
  }

  lemma NestedHere(t: Shape, level: int)
    requires t.Fork?
    ensures var a, b := Visits(t.left, level + 1), Visits(t.right, level + 1);
            if t.left.Nil? && t.right.Nil? then Nested(Visits(t, level), t, level, 0, 0, 0)
            else Nested(Visits(t, level), t, level, 0, 1 + |a|, 2 + |a| + |b|)
  {
    if t.left.Fork? || t.right.Fork? {
      VisitsUnfold(t, level);
      hide Visits;
      var v, a, b := Visits(t, level), Visits(t.left, level + 1), Visits(t.right, level + 1);
      assert v[1..1 + |a|] == a && v[2 + |a|..2 + |a| + |b|] == b;
    }
  }

  lemma NestedShift(v: seq<Visit>, w: seq<Visit>, d: nat, n: Shape, level: int, i: nat, j: nat, e: nat)
    requires d + |w| <= |v| && v[d..d + |w|] == w && Nested(w, n, level, i, j, e)
    ensures Nested(v, n, level, d + i, d + j, d + e)
  {
    hide Visits;
    assert forall x :: 0 <= x < |w| ==> w[x] == v[d + x];
    if i < j {
      assert w[i + 1..j] == v[d + i + 1..d + j];
      assert w[j + 1..e] == v[d + j + 1..d + e];
    }
  }

  /** Every node is visited in its place: preorder before all of its left subtree, postorder between the
      two subtrees, endorder after all of its right subtree, and a leaf once. */
  lemma {:induction false} VisitOrder(t: Shape, level: int, p: Path) returns (i: nat, j: nat, e: nat)
    requires Within(t, p) && At(t, p).Fork?
    ensures Nested(Visits(t, level), At(t, p), level + |p|, i, j, e)
    decreases |p|
  {
    hide Visits, Nested;
    if |p| == 0 {
      NestedHere(t, level);
      var a, b := Visits(t.left, level + 1), Visits(t.right, level + 1);
      i := 0;
      j := if t.left.Nil? && t.right.Nil? then 0 else 1 + |a|;
      e := if t.left.Nil? && t.right.Nil? then 0 else 2 + |a| + |b|;
    } else {
      var c := Child(t, p[0]);
      PathStep(t, p);
      hide Within, At;
      var x, y, z := VisitOrder(c, level + 1, p[1..]);
      var d := VisitsShift(t, level, p[0]);
      NestedShift(Visits(t, level), Visits(c, level + 1), d, At(t, p), level + |p|, x, y, z);
      i, j, e := d + x, d + y, d + z;
    }
  }

  lemma PathStep(t: Shape, p: Path)
    requires |p| > 0 && Within(t, p) && At(t, p).Fork?
    ensures t.Fork? && Child(t, p[0]).Fork? && Within(Child(t, p[0]), p[1..])
    ensures At(t, p) == At(Child(t, p[0]), p[1..])
  {
    NoneBelowNil(Child(t, p[0]), p[1..]);
  }

  lemma NoneBelowNil(t: Shape, p: Path)
    requires Within(t, p) && At(t, p).Fork?
    ensures t.Fork?
  {
  }

  lemma {:induction false} KeysByRank(t: Shape, a: Key, b: Key)
    requires Ordered(t) && a in Keys(t) && b in Keys(t) && a.rank == b.rank
    ensures a == b
  {
    if a in Keys(t.left) && b in Keys(t.left) {
      KeysByRank(t.left, a, b);
    } else if a in Keys(t.right) && b in Keys(t.right) {
      KeysByRank(t.right, a, b);
    }
  }

  /** With the one key of its rank gone, no key of that rank is left. */
  lemma RanksDiffer(t: Shape, gone: Key)
    requires Ordered(t) && gone in Keys(t)
    ensures forall k :: k in Keys(t) - {gone} ==> k.rank != gone.rank
  {
    forall k | k in Keys(t) - {gone}
      ensures k.rank != gone.rank
    {
      if k.rank == gone.rank {
        KeysByRank(t, k, gone);
      }
    }
  }

  lemma AddLeaf(s: Store, u: Store, r: nat, t: Shape, p: Path, sub: Shape, key: Key)
    requires Models(s, r, t) && Ordered(t) && Within(t, p) && At(t, p).Nil? && Led(t, p, key.rank)
    requires sub.Fork? && sub == Fork(sub.ref, key, Nil, Nil) && sub.ref !in s && sub.ref != 0
    requires sub.ref in u && u[sub.ref] == Node(key, 0, 0)
    requires forall x :: x in s ==> x in u && u[x] == Wired(s[x], SlotAt(t, p), x, sub.ref)
    ensures Models(u, if |p| == 0 then sub.ref else r, Graft(t, p, sub))
    ensures Ordered(Graft(t, p, sub)) && Keys(Graft(t, p, sub)) == Keys(t) + {key}
  {
    RefsInStore(s, r, t);
    forall x | x in Refs(t) && x !in Refs(At(t, p))
      ensures WiredAt(s, u, SlotAt(t, p), sub.ref, x)
    {
    }
    assert Keys(sub) == {key};
    GraftModels(s, u, r, t, p, sub, sub.ref);
    GraftOrdered(t, p, sub);
  }
}
