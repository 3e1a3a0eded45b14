/** The nodes of a B+ tree, and the tree value that a heap of nodes spells out. */
module BPlusShape {
  import opened SortedItems

  class Node {
    const isLeaf: bool
    var items: seq<Item>
    var keys: seq<Item>
    var children: seq<Node>
    var count: int
    var next: Node?
    var prev: Node?

    constructor (isLeaf: bool, items: seq<Item>, keys: seq<Item>, children: seq<Node>)
      ensures this.isLeaf == isLeaf && this.items == items
      ensures this.keys == keys && this.children == children
      ensures count == 0 && next == null && prev == null
    {
      this.isLeaf, this.items, this.keys, this.children := isLeaf, items, keys, children;
      count, next, prev := 0, null, null;
    }
  }

  datatype Tree =
    | Leaf(node: Node, items: seq<Item>)
    | Inner(node: Node, keys: seq<Item>, kids: seq<Tree>)

  ghost function Flat(t: Tree): seq<Item>
    decreases t, 1
  {
    match t
    case Leaf(_, items) => items
    case Inner(_, _, kids) => FlatAll(kids)
  }

  ghost function FlatAll(kids: seq<Tree>): seq<Item>
    decreases kids, 0
  {
    if kids == [] then [] else Flat(kids[0]) + FlatAll(kids[1..])
  }

  ghost function Nodes(t: Tree): set<Node>
    decreases t, 1
  {
    match t
    case Leaf(node, _) => {node}
    case Inner(node, _, kids) => {node} + NodesAll(kids)
  }

  ghost function NodesAll(kids: seq<Tree>): set<Node>
    decreases kids, 0
  {
    if kids == [] then {} else Nodes(kids[0]) + NodesAll(kids[1..])
  }

  ghost function Leaves(t: Tree): seq<Node>
    decreases t, 1
  {
    match t
    case Leaf(node, _) => [node]
    case Inner(_, _, kids) => LeavesAll(kids)
  }

  ghost function LeavesAll(kids: seq<Tree>): seq<Node>
    decreases kids, 0
  {
    if kids == [] then [] else Leaves(kids[0]) + LeavesAll(kids[1..])
  }

  ghost function Heads(kids: seq<Tree>): (r: seq<Node>)
    ensures |r| == |kids|
    ensures forall i :: 0 <= i < |kids| ==> r[i] == kids[i].node
  {
    seq(|kids|, i requires 0 <= i < |kids| => kids[i].node)
  }

  /** No node occurs twice. */
  ghost predicate Distinct(t: Tree)
    decreases t, 1
  {
    t.Inner? ==> t.node !in NodesAll(t.kids) && DistinctAll(t.kids)
  }

  ghost predicate DistinctAll(kids: seq<Tree>)
    decreases kids, 0
  {
    kids == [] || (Distinct(kids[0]) && DistinctAll(kids[1..]) && Nodes(kids[0]) !! NodesAll(kids[1..]))
  }

  /** The heap spells out the tree. */
  ghost predicate Matches(t: Tree)
    reads Nodes(t)`items, Nodes(t)`keys, Nodes(t)`children
    decreases t, 1
  {
    match t
    case Leaf(node, items) => node.isLeaf && node.items == items
    case Inner(node, keys, kids) =>
      !node.isLeaf && node.keys == keys && node.children == Heads(kids) && MatchesAll(kids)
  }

  ghost predicate MatchesAll(kids: seq<Tree>)
    reads NodesAll(kids)`items, NodesAll(kids)`keys, NodesAll(kids)`children
    decreases kids, 0
  {
    kids == [] || (Matches(kids[0]) && MatchesAll(kids[1..]))
  }

  /** Every `count` is the number of items below its node. */
  ghost predicate Counted(t: Tree)
    reads Nodes(t)`count
    decreases t, 1
  {
    t.node.count == |Flat(t)| && (t.Inner? ==> CountedAll(t.kids))
  }

  ghost predicate CountedAll(kids: seq<Tree>)
    reads NodesAll(kids)`count
    decreases kids, 0
  {
    kids == [] || (Counted(kids[0]) && CountedAll(kids[1..]))
  }

  /** The nodes of a tree value exist, so an object made later is none of them. */
  lemma Exist(nodes: set<Node>)
    ensures forall n :: n in nodes ==> allocated(n)
  {
  }

  lemma ExistAll(chain: seq<Node>)
    ensures forall i :: 0 <= i < |chain| ==> allocated(chain[i])
  {
  }

  // ----- joining lists of subtrees -----

  lemma {:induction false} JoinNodes(a: seq<Tree>, b: seq<Tree>)
    ensures NodesAll(a + b) == NodesAll(a) + NodesAll(b)
  {
    if a == [] {
      assert a + b == b;
    } else {
      JoinNodes(a[1..], b);
      assert (a + b)[1..] == a[1..] + b;
    }
  }

  lemma {:induction false} JoinDistinct(a: seq<Tree>, b: seq<Tree>)
    ensures DistinctAll(a + b) <==> DistinctAll(a) && DistinctAll(b) && NodesAll(a) !! NodesAll(b)
  {
    hide Distinct, Nodes;
    JoinNodes(a, b);
    if a == [] {
      assert a + b == b;
    } else {
      JoinDistinct(a[1..], b);
      JoinNodes(a[1..], b);
      assert (a + b)[1..] == a[1..] + b;
    }
  }

  lemma Associate<T>(x: seq<T>, y: seq<T>, z: seq<T>)
    ensures x + (y + z) == x + y + z
  {
  }

  lemma {:induction false} JoinFlat(a: seq<Tree>, b: seq<Tree>)
    ensures FlatAll(a + b) == FlatAll(a) + FlatAll(b)
    ensures LeavesAll(a + b) == LeavesAll(a) + LeavesAll(b)
  {
    hide Flat, Leaves;
    if a == [] {
      assert a + b == b;
    } else {
      JoinFlat(a[1..], b);
      assert (a + b)[1..] == a[1..] + b;
      Associate(Flat(a[0]), FlatAll(a[1..]), FlatAll(b));
      Associate(Leaves(a[0]), LeavesAll(a[1..]), LeavesAll(b));
    }
  }

  lemma Join(a: seq<Tree>, b: seq<Tree>)
    ensures FlatAll(a + b) == FlatAll(a) + FlatAll(b)
    ensures NodesAll(a + b) == NodesAll(a) + NodesAll(b)
    ensures LeavesAll(a + b) == LeavesAll(a) + LeavesAll(b)
    ensures DistinctAll(a + b) <==> DistinctAll(a) && DistinctAll(b) && NodesAll(a) !! NodesAll(b)
    ensures Heads(a + b) == Heads(a) + Heads(b)
  {
    hide DistinctAll, NodesAll, FlatAll, LeavesAll;
    JoinNodes(a, b);
    JoinDistinct(a, b);
    JoinFlat(a, b);
  }

  lemma {:induction false} JoinMatches(a: seq<Tree>, b: seq<Tree>)
    ensures NodesAll(a + b) == NodesAll(a) + NodesAll(b)
    ensures MatchesAll(a + b) <==> MatchesAll(a) && MatchesAll(b)
    ensures CountedAll(a + b) <==> CountedAll(a) && CountedAll(b)
  {
    JoinNodes(a, b);
    if a == [] {
      assert a + b == b;
    } else {
      JoinMatches(a[1..], b);
      assert (a + b)[1..] == a[1..] + b;
    }
  }

  lemma Single(t: Tree)
    ensures FlatAll([t]) == Flat(t) && NodesAll([t]) == Nodes(t) && LeavesAll([t]) == Leaves(t)
    ensures DistinctAll([t]) <==> Distinct(t)
    ensures MatchesAll([t]) <==> Matches(t)
    ensures CountedAll([t]) <==> Counted(t)
    ensures Heads([t]) == [t.node]
  {
    assert [t][1..] == [];
  }

  lemma PairUp(a: Tree, b: Tree)
    ensures FlatAll([a, b]) == Flat(a) + Flat(b) && NodesAll([a, b]) == Nodes(a) + Nodes(b)
    ensures LeavesAll([a, b]) == Leaves(a) + Leaves(b)
    ensures DistinctAll([a, b]) <==> Distinct(a) && Distinct(b) && Nodes(a) !! Nodes(b)
    ensures MatchesAll([a, b]) <==> Matches(a) && Matches(b)
  {
    assert [a, b] == [a] + [b];
    Join([a], [b]);
    JoinMatches([a], [b]);
    Single(a);
    Single(b);
  }

  lemma NoTrees()
    ensures FlatAll([]) == [] && NodesAll([]) == {} && LeavesAll([]) == []
    ensures DistinctAll([]) && MatchesAll([]) && CountedAll([])
  {
  }

  /** The facts about a list of subtrees, seen as left + middle + right. */
  lemma Split(left: seq<Tree>, mid: seq<Tree>, right: seq<Tree>)
    ensures var all := left + mid + right;
      && FlatAll(all) == FlatAll(left) + FlatAll(mid) + FlatAll(right)
      && NodesAll(all) == NodesAll(left) + NodesAll(mid) + NodesAll(right)
      && LeavesAll(all) == LeavesAll(left) + LeavesAll(mid) + LeavesAll(right)
      && Heads(all) == Heads(left) + Heads(mid) + Heads(right)
      && (DistinctAll(all) <==>
            && DistinctAll(left) && DistinctAll(mid) && DistinctAll(right)
            && NodesAll(left) !! NodesAll(mid)
            && NodesAll(right) !! NodesAll(left) + NodesAll(mid))
      && (MatchesAll(all) <==> MatchesAll(left) && MatchesAll(mid) && MatchesAll(right))
      && (CountedAll(all) <==> CountedAll(left) && CountedAll(mid) && CountedAll(right))
  {
    Join(left + mid, right);
    Join(left, mid);
    JoinMatches(left + mid, right);
    JoinMatches(left, mid);
  }

  lemma Focus(kids: seq<Tree>, i: nat)
    requires i < |kids|
    ensures kids == kids[..i] + [kids[i]] + kids[i + 1..]
  {
  }

  /** The first i + 1 subtrees are the first i and one more. */
  lemma TakeOne(kids: seq<Tree>, i: nat)
    requires i < |kids|
    ensures NodesAll(kids[..i]) + Nodes(kids[i]) <= NodesAll(kids)
    ensures DistinctAll(kids) ==> NodesAll(kids[..i]) !! Nodes(kids[i]) && Distinct(kids[i])
    ensures MatchesAll(kids) ==> Matches(kids[i])
    ensures CountedAll(kids) ==> Counted(kids[i])
    ensures FlatAll(kids[..i + 1]) == FlatAll(kids[..i]) + Flat(kids[i])
    ensures CountedAll(kids[..i + 1]) <==> CountedAll(kids[..i]) && Counted(kids[i])
  {
    hide FlatAll, NodesAll, MatchesAll, DistinctAll, CountedAll, LeavesAll;
    var k := kids[i];
    Focus(kids, i);
    Split(kids[..i], [k], kids[i + 1..]);
    assert kids[..i + 1] == kids[..i] + [k];
    Join(kids[..i], [k]);
    JoinMatches(kids[..i], [k]);
    Single(k);
  }

  // ----- search order, sizes and depth -----

  datatype Bound = Lowest | At(item: Item) | Highest

  ghost predicate FromBound(lo: Bound, x: Item) {
    match lo
    case Lowest => true
    case At(y) => !Less(x, y)
    case Highest => false
  }

  ghost predicate BelowBound(x: Item, hi: Bound) {
    match hi
    case Lowest => false
    case At(y) => Less(x, y)
    case Highest => true
  }

  ghost predicate Between(lo: Bound, x: Item, hi: Bound) {
    FromBound(lo, x) && BelowBound(x, hi)
  }

  ghost function LoOf(keys: seq<Item>, i: nat, lo: Bound): Bound
    requires i <= |keys|
  {
    if i == 0 then lo else At(keys[i - 1])
  }

  ghost function HiOf(keys: seq<Item>, i: nat, hi: Bound): Bound
    requires i <= |keys|
  {
    if i == |keys| then hi else At(keys[i])
  }

  /** A subtree of uniform depth `h` whose items lie in lo <= x < hi: children = keys + 1,
      keys[i-1] <= subtree i < keys[i], leaves non-empty with fewer than `order` items,
      inner nodes with 1..`order` children. */
  ghost predicate WellFormed(t: Tree, order: nat, h: nat, lo: Bound, hi: Bound)
    decreases t
  {
    match t
    case Leaf(_, items) =>
      && h == 0 && 0 < |items| < order && IsSorted(items)
      && forall i :: 0 <= i < |items| ==> Between(lo, items[i], hi)
    case Inner(_, keys, kids) =>
      && h > 0 && 1 <= |kids| <= order && |kids| == |keys| + 1
      && forall i :: 0 <= i < |kids| ==> WellFormed(kids[i], order, h - 1, LoOf(keys, i, lo), HiOf(keys, i, hi))
  }

  /** Deletion may leave a node with nothing below it, to be dropped by its parent. */
  ghost predicate Hollow(t: Tree, h: nat) {
    match t
    case Leaf(_, items) => h == 0 && items == []
    case Inner(_, keys, kids) => h > 0 && kids == [] && keys == []
  }

  ghost predicate BoundsOrdered(a: Bound, b: Bound) {
    a == b || a.Lowest? || b.Highest? || (a.At? && b.At? && Less(a.item, b.item))
  }

  lemma {:induction false} Widen(t: Tree, order: nat, h: nat, lo: Bound, hi: Bound, lo': Bound, hi': Bound)
    requires WellFormed(t, order, h, lo, hi)
    requires BoundsOrdered(lo', lo) && BoundsOrdered(hi, hi')
    ensures WellFormed(t, order, h, lo', hi')
  {
    hide Less;
    LessIsTotalOrder();
    if t.Inner? {
      var n := |t.kids|;
      forall i | 0 <= i < n
        ensures WellFormed(t.kids[i], order, h - 1, LoOf(t.keys, i, lo'), HiOf(t.keys, i, hi'))
      {
        Widen(t.kids[i], order, h - 1, LoOf(t.keys, i, lo), HiOf(t.keys, i, hi), LoOf(t.keys, i, lo'), HiOf(t.keys, i, hi'));
      }
    }
  }

  ghost predicate AllBetween(lo: Bound, s: seq<Item>, hi: Bound) {
    forall i :: 0 <= i < |s| ==> Between(lo, s[i], hi)
  }

  lemma JoinSorted(a: seq<Item>, b: seq<Item>, lo: Bound, k: Item, hi: Bound)
    requires IsSorted(a) && IsSorted(b)
    requires AllBetween(lo, a, At(k)) && AllBetween(At(k), b, hi)
    requires a != [] && b != []
    ensures IsSorted(a + b) && AllBetween(lo, a + b, hi)
  {
    hide Less;
    LessIsTotalOrder();
    var s := a + b;
    forall i | 0 <= i < |s| ensures Between(lo, s[i], hi) {
      assert Between(lo, a[0], At(k)) && Between(At(k), b[0], hi);
    }
    forall i, j | 0 <= i < j < |s| ensures Less(s[i], s[j]) {
      assert i < |a| ==> Between(lo, a[i], At(k));
      assert j >= |a| ==> Between(At(k), b[j - |a|], hi);
    }
  }

  /** In-order items of a well-formed subtree are strictly sorted, within its bounds, and exist. */
  lemma {:induction false} FlatSorted(t: Tree, order: nat, h: nat, lo: Bound, hi: Bound)
    requires WellFormed(t, order, h, lo, hi)
    ensures IsSorted(Flat(t)) && AllBetween(lo, Flat(t), hi) && Flat(t) != []
    decreases t, 1
  {
    if t.Inner? {
      FlatPrefixSorted(t, order, h, lo, hi, |t.kids|);
      assert t.kids[..|t.kids|] == t.kids;
    }
  }

  lemma {:induction false} FlatPrefixSorted(t: Tree, order: nat, h: nat, lo: Bound, hi: Bound, n: nat)
    requires WellFormed(t, order, h, lo, hi) && t.Inner? && 1 <= n <= |t.kids|
    ensures var s := FlatAll(t.kids[..n]);
      IsSorted(s) && AllBetween(lo, s, HiOf(t.keys, n - 1, hi)) && s != []
    decreases t, 0, n
  {
    var kid := t.kids[n - 1];
    FlatSorted(kid, order, h - 1, LoOf(t.keys, n - 1, lo), HiOf(t.keys, n - 1, hi));
    assert t.kids[..n] == t.kids[..n - 1] + [kid];
    Join(t.kids[..n - 1], [kid]);
    Single(kid);
    if n > 1 {
      FlatPrefixSorted(t, order, h, lo, hi, n - 1);
      JoinSorted(FlatAll(t.kids[..n - 1]), Flat(kid), lo, t.keys[n - 2], HiOf(t.keys, n - 1, hi));
    }
  }

  /** Everything from child n on is at or above separator n - 1. */
  lemma {:induction false} FlatSuffixBounded(t: Tree, order: nat, h: nat, lo: Bound, hi: Bound, n: nat)
    requires WellFormed(t, order, h, lo, hi) && t.Inner? && 1 <= n <= |t.kids|
    ensures forall x :: x in FlatAll(t.kids[n..]) ==> !Less(x, t.keys[n - 1])
    decreases |t.kids| - n
  {
    hide Less;
    LessIsTotalOrder();
    if n < |t.kids| {
      FlatSorted(t.kids[n], order, h - 1, LoOf(t.keys, n, lo), HiOf(t.keys, n, hi));
      assert t.kids[n..] == [t.kids[n]] + t.kids[n + 1..];
      FlatSuffixBounded(t, order, h, lo, hi, n + 1);
      assert Between(LoOf(t.keys, n, lo), Flat(t.kids[n])[0], HiOf(t.keys, n, hi));
    } else {
      assert t.kids[n..] == [];
    }
  }

  /** An item is below the one child whose separators enclose it. */
  lemma Locate(t: Tree, order: nat, h: nat, lo: Bound, hi: Bound, i: nat, x: Item)
    requires WellFormed(t, order, h, lo, hi) && t.Inner? && i < |t.kids|
    requires i > 0 ==> !Less(x, t.keys[i - 1])
    requires i < |t.keys| ==> Less(x, t.keys[i])
    ensures x !in FlatAll(t.kids[..i]) && x !in FlatAll(t.kids[i + 1..])
  {
    if i > 0 {
      FlatPrefixSorted(t, order, h, lo, hi, i);
      assert forall y :: y in FlatAll(t.kids[..i]) ==> Between(lo, y, At(t.keys[i - 1]));
    }
    if i < |t.keys| {
      FlatSuffixBounded(t, order, h, lo, hi, i + 1);
    }
  }

  /** What `WellFormed` asks of the children of an inner node, sizes aside. */
  ghost predicate ChildrenOk(keys: seq<Item>, kids: seq<Tree>, order: nat, h: nat, lo: Bound, hi: Bound) {
    && |kids| == |keys| + 1
    && forall i :: 0 <= i < |kids| ==> WellFormed(kids[i], order, h, LoOf(keys, i, lo), HiOf(keys, i, hi))
  }

  lemma ReplaceChild(keys: seq<Item>, kids: seq<Tree>, i: nat, kid: Tree, order: nat, h: nat, lo: Bound, hi: Bound)
    requires ChildrenOk(keys, kids, order, h, lo, hi) && i < |kids|
    requires WellFormed(kid, order, h, LoOf(keys, i, lo), HiOf(keys, i, hi))
    ensures ChildrenOk(keys, kids[..i] + [kid] + kids[i + 1..], order, h, lo, hi)
  {
  }

  /** A child replaced by two halves around a promoted key. */
  lemma SplitChild(keys: seq<Item>, kids: seq<Tree>, i: nat, l: Tree, p: Item, r: Tree, order: nat, h: nat, lo: Bound, hi: Bound)
    requires ChildrenOk(keys, kids, order, h, lo, hi) && i < |kids|
    requires WellFormed(l, order, h, LoOf(keys, i, lo), At(p))
    requires WellFormed(r, order, h, At(p), HiOf(keys, i, hi))
    ensures ChildrenOk(keys[..i] + [p] + keys[i..], kids[..i] + [l, r] + kids[i + 1..], order, h, lo, hi)
  {
    var keys', kids' := keys[..i] + [p] + keys[i..], kids[..i] + [l, r] + kids[i + 1..];
    forall j | 0 <= j < |kids'|
      ensures WellFormed(kids'[j], order, h, LoOf(keys', j, lo), HiOf(keys', j, hi))
    {
      if j < i {
        assert kids'[j] == kids[j];
      } else if j > i + 1 {
        assert kids'[j] == kids[j - 1];
      }
    }
  }

  /** An overfull node cut at its middle key. */
  lemma CutChildren(keys: seq<Item>, kids: seq<Tree>, mid: nat, order: nat, h: nat, lo: Bound, hi: Bound)
    requires ChildrenOk(keys, kids, order, h, lo, hi) && mid < |keys|
    ensures ChildrenOk(keys[..mid], kids[..mid + 1], order, h, lo, At(keys[mid]))
    ensures ChildrenOk(keys[mid + 1..], kids[mid + 1..], order, h, At(keys[mid]), hi)
  {
    var keys', kids' := keys[mid + 1..], kids[mid + 1..];
    forall j | 0 <= j < |kids'|
      ensures WellFormed(kids'[j], order, h, LoOf(keys', j, At(keys[mid])), HiOf(keys', j, hi))
    {
      assert kids'[j] == kids[mid + 1 + j];
    }
  }

  /** Consecutive separators are ordered, because the subtree between them has items. */
  lemma SeparatorsOrdered(keys: seq<Item>, kids: seq<Tree>, i: nat, order: nat, h: nat, lo: Bound, hi: Bound)
    requires ChildrenOk(keys, kids, order, h, lo, hi) && i < |kids|
    ensures BoundsOrdered(LoOf(keys, i, lo), HiOf(keys, i, hi))
  {
    hide Less;
    LessIsTotalOrder();
    FlatSorted(kids[i], order, h, LoOf(keys, i, lo), HiOf(keys, i, hi));
    assert Between(LoOf(keys, i, lo), Flat(kids[i])[0], HiOf(keys, i, hi));
  }

  /** A dropped child leaves its range to a neighbour. */
  lemma DropChild(keys: seq<Item>, kids: seq<Tree>, i: nat, order: nat, h: nat, lo: Bound, hi: Bound)
    requires ChildrenOk(keys, kids, order, h, lo, hi) && i < |kids| && |kids| > 1
    ensures var keys' := if i < |keys| then keys[..i] + keys[i + 1..] else keys[..i - 1];
      ChildrenOk(keys', kids[..i] + kids[i + 1..], order, h, lo, hi)
  {
    hide WellFormed;
    SeparatorsOrdered(keys, kids, i, order, h, lo, hi);
    var keys' := if i < |keys| then keys[..i] + keys[i + 1..] else keys[..i - 1];
    var kids' := kids[..i] + kids[i + 1..];
    forall j | 0 <= j < |kids'|
      ensures WellFormed(kids'[j], order, h, LoOf(keys', j, lo), HiOf(keys', j, hi))
    {
      var from := if j < i then j else j + 1;
      assert kids'[j] == kids[from];
      if i < |keys| && j == i {
        Widen(kids[i + 1], order, h, LoOf(keys, i + 1, lo), HiOf(keys, i + 1, hi), LoOf(keys, i, lo), HiOf(keys, i + 1, hi));
      } else if i == |keys| && j == i - 1 {
        Widen(kids[j], order, h, LoOf(keys, j, lo), HiOf(keys, j, hi), LoOf(keys, j, lo), hi);
      }
    }
  }

  /** An inner node in the heap above matching, distinct, ordered children. */
  lemma MakeInner(node: Node, kids: seq<Tree>, order: nat, h: nat, lo: Bound, hi: Bound)
    requires !node.isLeaf && node.children == Heads(kids) && node !in NodesAll(kids)
    requires MatchesAll(kids) && DistinctAll(kids) && 1 <= |kids| <= order && h > 0
    requires ChildrenOk(node.keys, kids, order, h - 1, lo, hi)
    ensures var t := Inner(node, node.keys, kids);
      && WellFormed(t, order, h, lo, hi) && Matches(t) && Distinct(t)
      && Nodes(t) == {node} + NodesAll(kids) && Flat(t) == FlatAll(kids) && Leaves(t) == LeavesAll(kids)
  {
  }

  // ----- the leaf chain -----

  ghost function NodeAt(chain: seq<Node>, i: int): Node? {
    if 0 <= i < |chain| then chain[i] else null
  }

  /** `next` and `prev` thread exactly this list of leaves. */
  ghost predicate Linked(chain: seq<Node>)
    reads chain`next, chain`prev
  {
    && (forall i, j :: 0 <= i < j < |chain| ==> chain[i] != chain[j])
    && (forall i :: 0 <= i < |chain| ==> chain[i].next == NodeAt(chain, i + 1))
    && (forall i :: 0 <= i < |chain| ==> chain[i].prev == NodeAt(chain, i - 1))
  }

  /** A node put in place k + 1 shifts its followers by one. */
  lemma InsertedAt(chain: seq<Node>, k: nat, x: Node)
    requires k < |chain| && x !in chain && forall i, j :: 0 <= i < j < |chain| ==> chain[i] != chain[j]
    ensures var now := chain[..k + 1] + [x] + chain[k + 1..];
      && |now| == |chain| + 1 && now[k + 1] == x
      && (forall i :: 0 <= i <= k ==> now[i] == chain[i])
      && (forall i :: k + 1 < i < |now| ==> now[i] == chain[i - 1])
      && (forall i, j :: 0 <= i < j < |now| ==> now[i] != now[j])
    ensures forall i :: 0 <= i < |chain| ==> chain[i] != x
    ensures forall n :: n in chain[k + 1..] ==> n in chain && n != chain[k]
    ensures k + 1 < |chain| ==> chain[k + 1] in chain[k + 1..]
  {
    assert k + 1 < |chain| ==> chain[k + 1..][0] == chain[k + 1];
  }

  /** A node taken out of place k. */
  lemma RemovedAt(chain: seq<Node>, k: nat)
    requires k < |chain| && forall i, j :: 0 <= i < j < |chain| ==> chain[i] != chain[j]
    ensures var now := chain[..k] + chain[k + 1..];
      && |now| == |chain| - 1
      && (forall i :: 0 <= i < k ==> now[i] == chain[i])
      && (forall i :: k <= i < |now| ==> now[i] == chain[i + 1])
      && (forall i, j :: 0 <= i < j < |now| ==> now[i] != now[j])
  {
  }

  ghost function HeadOf(chain: seq<Node>): Node? {
    if chain == [] then null else chain[0]
  }

  /** The items met by walking a chain of leaves. */
  ghost function Walk(chain: seq<Node>): seq<Item>
    reads chain`items
  {
    if chain == [] then [] else chain[0].items + Walk(chain[1..])
  }

  lemma {:induction false} WalkJoin(a: seq<Node>, b: seq<Node>)
    ensures Walk(a + b) == Walk(a) + Walk(b)
  {
    if a == [] {
      assert a + b == b;
    } else {
      WalkJoin(a[1..], b);
      assert (a + b)[1..] == a[1..] + b;
      Associate(a[0].items, Walk(a[1..]), Walk(b));
    }
  }

  /** Walking the leaves in tree order meets the items in order. */
  lemma {:induction false} WalkLeaves(t: Tree)
    requires Matches(t)
    ensures Walk(Leaves(t)) == Flat(t)
    decreases t, 1
  {
    match t
    case Leaf(node, items) =>
      assert [node][1..] == [];
    case Inner(_, _, kids) =>
      WalkLeavesAll(kids);
  }

  lemma {:induction false} WalkLeavesAll(kids: seq<Tree>)
    requires MatchesAll(kids)
    ensures Walk(LeavesAll(kids)) == FlatAll(kids)
    decreases kids, 0
  {
    if kids != [] {
      WalkLeaves(kids[0]);
      WalkLeavesAll(kids[1..]);
      WalkJoin(Leaves(kids[0]), LeavesAll(kids[1..]));
    }
  }

  lemma {:induction false} LeavesAreNodes(t: Tree)
    ensures forall n :: n in Leaves(t) ==> n in Nodes(t)
    decreases t, 1
  {
    if t.Inner? {
      LeavesAllAreNodes(t.kids);
    }
  }

  lemma {:induction false} LeavesAllAreNodes(kids: seq<Tree>)
    ensures forall n :: n in LeavesAll(kids) ==> n in NodesAll(kids)
    decreases kids, 0
  {
    if kids != [] {
      LeavesAreNodes(kids[0]);
      LeavesAllAreNodes(kids[1..]);
    }
  }
}
