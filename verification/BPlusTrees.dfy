/** The B+ tree index: splits on insert, lazy deletion, subtree counts and a leaf chain. */
module BPlusTrees {
  import opened Bytes
  import opened Options
  import opened SortedItems
  import opened BPlusShape

  const DEFAULT_ORDER := 32

  /** Go's sort.Search for the first index whose item is not below x. */
  method LowerBound(items: seq<Item>, x: Item) returns (k: nat)
    requires IsSorted(items)
    ensures k <= |items|
    ensures forall j :: 0 <= j < k ==> Less(items[j], x)
    ensures forall j :: k <= j < |items| ==> !Less(items[j], x)
  {
    hide Less;
    LessIsTotalOrder();
    var hi := |items|;
    k := 0;
    while k < hi
      invariant k <= hi <= |items|
      invariant forall j :: 0 <= j < k ==> Less(items[j], x)
      invariant forall j :: hi <= j < |items| ==> !Less(items[j], x)
    {
      var mid := (k + hi) / 2;
      if Less(items[mid], x) {
        k := mid + 1;
      } else {
        hi := mid;
      }
    }
  }

  /** Go's sort.Search for the first separator above x; separators ascend. */
  method UpperBound(keys: seq<Item>, x: Item) returns (k: nat)
    ensures k <= |keys|
    ensures k > 0 ==> !Less(x, keys[k - 1])
    ensures k < |keys| ==> Less(x, keys[k])
  {
    var hi := |keys|;
    k := 0;
    while k < hi
      invariant k <= hi <= |keys|
      invariant k > 0 ==> !Less(x, keys[k - 1])
      invariant hi < |keys| ==> Less(x, keys[hi])
    {
      var mid := (k + hi) / 2;
      if !Less(x, keys[mid]) {
        k := mid + 1;
      } else {
        hi := mid;
      }
    }
  }

  /** Where a subtree sits: its depth, its key range, and the leaves around it. */
  datatype Place = Place(h: nat, lo: Bound, hi: Bound, before: seq<Node>, after: seq<Node>)

  /** The whole leaf chain around a subtree with the given leaves. */
  ghost function Around(at: Place, leaves: seq<Node>): seq<Node> {
    at.before + leaves + at.after
  }

  /** The place of child i of an inner node. */
  ghost function ChildPlace(t: Tree, i: nat, at: Place): Place
    requires t.Inner? && at.h > 0 && i < |t.kids| == |t.keys| + 1
  {
    Place(at.h - 1, LoOf(t.keys, i, at.lo), HiOf(t.keys, i, at.hi),
          at.before + LeavesAll(t.kids[..i]), LeavesAll(t.kids[i + 1..]) + at.after)
  }

  ghost predicate EmptyLeaf(t: Tree, h: nat) {
    t.Leaf? && h == 0 && t.items == []
  }

  /** One or two subtrees in place of one: same node first, a promoted key between two. */
  ghost predicate Grown(out: seq<Tree>, node: Node, promoted: Option<Item>, order: nat, at: Place) {
    if promoted.None? then
      |out| == 1 && out[0].node == node && WellFormed(out[0], order, at.h, at.lo, at.hi)
    else
      && |out| == 2 && out[0].node == node
      && WellFormed(out[0], order, at.h, at.lo, At(promoted.value))
      && WellFormed(out[1], order, at.h, At(promoted.value), at.hi)
  }

  lemma GrownOne(t: Tree, order: nat, at: Place)
    requires WellFormed(t, order, at.h, at.lo, at.hi)
    ensures Grown([t], t.node, None, order, at)
  {
  }

  lemma GrownTwo(l: Tree, p: Item, r: Tree, order: nat, at: Place)
    requires WellFormed(l, order, at.h, at.lo, At(p)) && WellFormed(r, order, at.h, At(p), at.hi)
    ensures Grown([l, r], l.node, Some(p), order, at)
  {
  }

  /** An inner node seen as left siblings, one child, right siblings. */
  lemma OpenInner(t: Tree, i: nat, order: nat, at: Place)
    requires Matches(t) && Distinct(t) && WellFormed(t, order, at.h, at.lo, at.hi) && t.Inner? && i < |t.kids|
    ensures var L, k, R, there := t.kids[..i], t.kids[i], t.kids[i + 1..], ChildPlace(t, i, at);
      && t.kids == L + [k] + R && ChildrenOk(t.keys, t.kids, order, there.h, at.lo, at.hi)
      && Matches(k) && Distinct(k) && WellFormed(k, order, there.h, there.lo, there.hi)
      && MatchesAll(L) && MatchesAll(R) && DistinctAll(L) && DistinctAll(R)
      && t.node.children[i] == k.node && t.node !in NodesAll(L) + Nodes(k) + NodesAll(R)
      && NodesAll(L) !! Nodes(k) && NodesAll(R) !! NodesAll(L) + Nodes(k)
      && Nodes(t) == {t.node} + NodesAll(L) + Nodes(k) + NodesAll(R)
      && Flat(t) == FlatAll(L) + Flat(k) + FlatAll(R)
      && Elems(Flat(t)) == Elems(FlatAll(L)) + Elems(Flat(k)) + Elems(FlatAll(R))
      && Around(at, Leaves(t)) == Around(there, Leaves(k))
  {
    hide Less, NodesAll, MatchesAll, DistinctAll, FlatAll, LeavesAll, IsSorted, AllBetween;
    Focus(t.kids, i);
    Split(t.kids[..i], [t.kids[i]], t.kids[i + 1..]);
    Single(t.kids[i]);
  }

  /** A child's replacement put between its siblings. */
  lemma Regraft(t: Tree, i: nat, out: seq<Tree>, order: nat, at: Place)
    requires t.Inner? && at.h > 0 && i < |t.kids| == |t.keys| + 1
    requires var L, R := t.kids[..i], t.kids[i + 1..];
      MatchesAll(L) && MatchesAll(R) && DistinctAll(L) && DistinctAll(R) && NodesAll(L) !! NodesAll(R)
    requires MatchesAll(out) && DistinctAll(out)
    requires NodesAll(out) !! NodesAll(t.kids[..i]) + NodesAll(t.kids[i + 1..])
    ensures var L, R, there := t.kids[..i], t.kids[i + 1..], ChildPlace(t, i, at);
      var kids := L + out + R;
      && MatchesAll(kids) && DistinctAll(kids) && NodesAll(kids) == NodesAll(L) + NodesAll(out) + NodesAll(R)
      && Around(there, LeavesAll(out)) == Around(at, LeavesAll(kids))
      && Elems(FlatAll(kids)) == Elems(FlatAll(L)) + Elems(FlatAll(out)) + Elems(FlatAll(R))
  {
    hide NodesAll, MatchesAll, DistinctAll, FlatAll, LeavesAll, Heads;
    Split(t.kids[..i], out, t.kids[i + 1..]);
  }

  /** Stepping down to a child moves its left siblings' items to the prefix. */
  lemma Descend(t: Tree, i: nat, pre: seq<Item>, post: seq<Item>)
    requires t.Inner? && i < |t.kids|
    ensures pre + Flat(t) + post
         == (pre + FlatAll(t.kids[..i])) + Flat(t.kids[i]) + (FlatAll(t.kids[i + 1..]) + post)
    ensures CountedAll(t.kids) ==> Counted(t.kids[i])
  {
    Focus(t.kids, i);
    Split(t.kids[..i], [t.kids[i]], t.kids[i + 1..]);
    Single(t.kids[i]);
  }

  lemma PlaceInLeaf(items: seq<Item>, k: nat, x: Item)
    requires IsSorted(items) && x in items && k <= |items|
    requires forall j :: 0 <= j < k ==> Less(items[j], x)
    requires forall j :: k <= j < |items| ==> !Less(items[j], x)
    ensures k < |items| && items[k] == x
  {
    hide Less;
    LessIsTotalOrder();
    var j :| 0 <= j < |items| && items[j] == x;
  }

  lemma DeleteLeafItems(items: seq<Item>, k: nat, x: Item, lo: Bound, hi: Bound)
    requires IsSorted(items) && AllBetween(lo, items, hi) && k < |items| && items[k] == x
    ensures var s := items[..k] + items[k + 1..];
      IsSorted(s) && AllBetween(lo, s, hi) && Elems(s) == Elems(items) - {x}
  {
    hide Less, Between;
    LessIsTotalOrder();
    var s := items[..k] + items[k + 1..];
    assert items == items[..k] + [x] + items[k + 1..];
    assert forall j :: 0 <= j < k ==> Less(items[j], x);
  }

  lemma NotElems(a: seq<Item>, b: seq<Item>, x: Item)
    requires x !in a && x !in b
    ensures x !in Elems(a) + Elems(b)
  {
  }

  /** A child with nothing below it adds nothing but, if it is a leaf, its place in the chain. */
  lemma WithoutHollow(L: seq<Tree>, kid: Tree, R: seq<Tree>, at: Place)
    requires MatchesAll(L + [kid] + R) && DistinctAll(L + [kid] + R)
    ensures Matches(kid) && MatchesAll(L + R) && DistinctAll(L + R) && NodesAll(L + R) <= NodesAll(L + [kid] + R)
    ensures (if kid.Leaf? then kid.items == [] else kid.kids == []) ==> FlatAll(L + R) == FlatAll(L + [kid] + R)
    ensures kid.Inner? && kid.kids == [] ==> LeavesAll(L + R) == LeavesAll(L + [kid] + R)
    ensures var chain, k := Around(at, LeavesAll(L + [kid] + R)), |at.before + LeavesAll(L)|;
      kid.Leaf? ==>
        k < |chain| && chain[k] == kid.node && Around(at, LeavesAll(L + R)) == chain[..k] + chain[k + 1..]
  {
    hide NodesAll, MatchesAll, DistinctAll, FlatAll, LeavesAll, CountedAll, Heads, Matches, Distinct, Nodes;
    Split(L, [kid], R);
    Single(kid);
    Join(L, R);
    JoinMatches(L, R);
    NoTrees();
  }

  /** What a walk has collected on reaching position `index`. */
  ghost function Collected(all: seq<Item>, from: nat, index: nat): seq<Bytes>
    requires index <= |all|
  {
    if index <= from then [] else MembersOf(all[from..index])
  }

  lemma WalkOne(chain: seq<Node>, p: nat)
    requires p < |chain|
    ensures Walk(chain[..p + 1]) == Walk(chain[..p]) + chain[p].items
  {
    assert Walk([chain[p]]) == chain[p].items by {
      assert [chain[p]][1..] == [];
    }
    assert chain[..p + 1] == chain[..p] + [chain[p]];
    hide Walk;
    WalkJoin(chain[..p], [chain[p]]);
  }

  lemma WalkStep(chain: seq<Node>, p: nat)
    requires p < |chain|
    ensures Walk(chain[..p + 1]) == Walk(chain[..p]) + chain[p].items
    ensures Walk(chain) == Walk(chain[..p + 1]) + Walk(chain[p + 1..])
  {
    hide Walk;
    WalkOne(chain, p);
    assert chain == chain[..p + 1] + chain[p + 1..];
    WalkJoin(chain[..p + 1], chain[p + 1..]);
  }

  /** The inner loop of the range walk: one leaf, starting at position `base`. */
  method WalkLeaf(items: seq<Item>, from: nat, to: nat, base: nat, got: seq<Bytes>, ghost all: seq<Item>)
    returns (index: nat, names: seq<Bytes>)
    requires from <= to < |all| && base <= to && base + |items| <= |all| && all[base..base + |items|] == items
    requires got == Collected(all, from, base)
    ensures index <= to + 1 && (index == base + |items| || index == to + 1)
    ensures names == Collected(all, from, index)
  {
    index, names := base, got;
    for j := 0 to |items|
      invariant index == base + j <= to && names == Collected(all, from, index)
    {
      assert items[j] == all[base + j];
      if from <= index <= to {
        assert all[from..index + 1] == all[from..index] + [items[j]];
        names := names + [items[j].member];
      }
      index := index + 1;
      if index > to {
        break;
      }
    }
  }

  /** A new root above the two halves of the old one. */
  lemma MakeRoot(top: Node, out: seq<Tree>, p: Item, order: nat, at: Place)
    requires order >= 2 && |out| == 2 && Grown(out, out[0].node, Some(p), order, at)
    requires !top.isLeaf && top.keys == [p] && top.children == Heads(out) && top !in NodesAll(out)
    requires MatchesAll(out) && DistinctAll(out)
    ensures var t := Inner(top, [p], out);
      && WellFormed(t, order, at.h + 1, at.lo, at.hi) && Matches(t) && Distinct(t)
      && Nodes(t) == {top} + NodesAll(out) && Flat(t) == FlatAll(out) && Leaves(t) == LeavesAll(out)
  {
    hide NodesAll, MatchesAll, DistinctAll, FlatAll, LeavesAll;
    MakeInner(top, out, order, at.h + 1, at.lo, at.hi);
  }

  lemma InsertLeafItems(items: seq<Item>, k: nat, x: Item, lo: Bound, hi: Bound)
    requires IsSorted(items) && AllBetween(lo, items, hi) && Between(lo, x, hi) && x !in items
    requires k <= |items|
    requires forall j :: 0 <= j < k ==> Less(items[j], x)
    requires forall j :: k <= j < |items| ==> !Less(items[j], x)
    ensures var s := items[..k] + [x] + items[k..];
      IsSorted(s) && AllBetween(lo, s, hi) && Elems(s) == Elems(items) + {x}
  {
    hide Less, Between;
    LessIsTotalOrder();
    var s := items[..k] + [x] + items[k..];
    assert items == items[..k] + items[k..];
  }

  lemma CutLeaf(items: seq<Item>, mid: nat, lo: Bound, hi: Bound)
    requires IsSorted(items) && AllBetween(lo, items, hi) && 0 < mid < |items|
    ensures IsSorted(items[..mid]) && IsSorted(items[mid..])
    ensures AllBetween(lo, items[..mid], At(items[mid]))
    ensures AllBetween(At(items[mid]), items[mid..], hi)
  {
    hide Less;
    LessIsTotalOrder();
    forall j | 0 <= j < mid ensures Between(lo, items[..mid][j], At(items[mid])) {
      assert Between(lo, items[j], hi);
    }
    forall j | 0 <= j < |items| - mid ensures Between(At(items[mid]), items[mid..][j], hi) {
      assert Between(lo, items[mid + j], hi);
    }
  }

  class BPlusTree {
    var root: Node
    var leafHead: Node?
    var members: map<Bytes, Score>
    var length: int
    const order: nat
    ghost var tree: Tree
    ghost var height: nat
    ghost var repr: set<Node>

    /** The heap is a valid search tree over `members`, its leaves are chained in order, and
        every subtree count is right. */
    ghost predicate Valid()
      reads this, repr
    {
      && repr == Nodes(tree) && Shaped(height) && Counted(tree)
      && Elems(Flat(tree)) == ItemsOf(members) && length == |members|
    }

    ghost predicate Shaped(h: nat)
      reads this, Nodes(tree)
    {
      && order >= 3 && tree.node == root && Matches(tree) && Distinct(tree)
      && (WellFormed(tree, order, h, Lowest, Highest) || EmptyLeaf(tree, h))
      && (LeavesAreNodes(tree); Linked(Leaves(tree))) && leafHead == HeadOf(Leaves(tree))
    }

    constructor (order: int)
      ensures Valid() && fresh(repr) && members == map[]
      ensures this.order == if order < 3 then 32 else order
    {
      this.order := if order < 3 then DEFAULT_ORDER else order;
      var leaf := new Node(true, [], [], []);
      root, leafHead, members, length := leaf, leaf, map[], 0;
      tree, height, repr := Leaf(leaf, []), 0, {leaf};
    }

    /** Splice a fresh right leaf behind leaf k of the chain. */
    static method LinkAfter(node: Node, right: Node, ghost chain: seq<Node>, ghost k: nat)
      requires Linked(chain) && right !in chain && k < |chain| && chain[k] == node
      modifies right`next, right`prev, node`next, chain[k + 1..]`prev
      ensures Linked(chain[..k + 1] + [right] + chain[k + 1..])
    {
      ghost var now := chain[..k + 1] + [right] + chain[k + 1..];
      InsertedAt(chain, k, right);
      right.next := node.next;
      right.prev := node;
      if node.next != null {
        node.next.prev := right;
      }
      node.next := right;
      forall i | 0 <= i < |now|
        ensures now[i].next == NodeAt(now, i + 1) && now[i].prev == NodeAt(now, i - 1)
      {
        if i < k {
          assert now[i] == chain[i] && now[i + 1] == chain[i + 1];
        } else if i > k + 1 {
          assert now[i] == chain[i - 1] && now[i - 1] == NodeAt(now, i - 1);
        }
      }
    }

    method InsertLeaf(node: Node, item: Item, ghost t: Tree, ghost at: Place)
      returns (promoted: Option<Item>, newChild: Node?, ghost out: seq<Tree>)
      requires order >= 3 && t.Leaf? && t.node == node && Matches(t)
      requires WellFormed(t, order, at.h, at.lo, at.hi) || EmptyLeaf(t, at.h)
      requires Between(at.lo, item, at.hi) && item !in t.items
      requires Linked(Around(at, [node]))
      modifies node`items, node`next, at.after`prev
      ensures Grown(out, node, promoted, order, at)
      ensures promoted.Some? ==> newChild == out[1].node
      ensures MatchesAll(out) && DistinctAll(out) && forall n :: n in NodesAll(out) ==> n == node || fresh(n)
      ensures Elems(FlatAll(out)) == Elems(t.items) + {item}
      ensures Linked(Around(at, LeavesAll(out)))
      ensures HeadOf(Around(at, LeavesAll(out))) == HeadOf(Around(at, Leaves(t)))
    {
      hide Less, Linked, Between;
      var idx := LowerBound(node.items, item);
      InsertLeafItems(t.items, idx, item, at.lo, at.hi);
      node.items := node.items[..idx] + [item] + node.items[idx..];
      if |node.items| >= order {
        promoted, newChild, out := CutLeafNode(node, at);
      } else {
        promoted, newChild, out := None, null, [Leaf(node, node.items)];
        Single(out[0]);
      }
    }

    /** Cut a full leaf in half and chain the right half behind it. */
    method CutLeafNode(node: Node, ghost at: Place) returns (promoted: Option<Item>, newChild: Node?, ghost out: seq<Tree>)
      requires order >= 3 && |node.items| == order && node.isLeaf && at.h == 0
      requires IsSorted(node.items) && AllBetween(at.lo, node.items, at.hi)
      requires Linked(Around(at, [node]))
      modifies node`items, node`next, at.after`prev
      ensures promoted.Some? && Grown(out, node, promoted, order, at) && newChild == out[1].node
      ensures MatchesAll(out) && DistinctAll(out) && forall n :: n in NodesAll(out) ==> n == node || fresh(n)
      ensures FlatAll(out) == old(node.items)
      ensures Linked(Around(at, LeavesAll(out)))
      ensures HeadOf(Around(at, LeavesAll(out))) == HeadOf(Around(at, [node]))
    {
      hide Less, Linked, Between, IsSorted;
      var mid := |node.items| / 2;
      CutLeaf(node.items, mid, at.lo, at.hi);
      var right := new Node(true, node.items[mid..], [], []);
      ghost var chain, k := Around(at, [node]), |at.before|;
      assert chain[k + 1..] == at.after;
      LinkAfter(node, right, chain, k);
      PairUp(Leaf(node, []), Leaf(right, []));
      assert LeavesAll([Leaf(node, []), Leaf(right, [])]) == [node, right];
      assert Around(at, [node, right]) == chain[..k + 1] + [right] + chain[k + 1..];
      node.items := node.items[..mid];
      promoted, newChild := Some(right.items[0]), right;
      out := [Leaf(node, node.items), Leaf(right, right.items)];
      PairUp(out[0], out[1]);
    }

    /** Put the outcome of child `idx` back into its parent, cutting the parent when it overflows. */
    method AdoptChildren(node: Node, idx: nat, split: Option<Item>, child: Node?, ghost t: Tree, ghost kid: seq<Tree>, ghost at: Place)
      returns (promoted: Option<Item>, newChild: Node?, ghost out: seq<Tree>)
      requires order >= 3 && t.Inner? && t.node == node && at.h > 0 && 1 <= |t.kids| <= order && |t.kids| == |t.keys| + 1
      requires ChildrenOk(t.keys, t.kids, order, at.h - 1, at.lo, at.hi)
      requires !node.isLeaf && node.keys == t.keys && node.children == Heads(t.kids) && idx < |t.kids|
      requires Grown(kid, t.kids[idx].node, split, order, ChildPlace(t, idx, at))
      requires split.Some? ==> child == kid[1].node
      requires var kids := t.kids[..idx] + kid + t.kids[idx + 1..];
        MatchesAll(kids) && DistinctAll(kids) && node !in NodesAll(kids)
      modifies node`keys, node`children
      ensures Grown(out, node, promoted, order, at)
      ensures promoted.Some? ==> newChild == out[1].node
      ensures MatchesAll(out) && DistinctAll(out)
      ensures var kids := t.kids[..idx] + kid + t.kids[idx + 1..];
        && (forall n :: n in NodesAll(out) ==> n == node || n in NodesAll(kids) || fresh(n))
        && FlatAll(out) == FlatAll(kids) && LeavesAll(out) == LeavesAll(kids)
    {
      hide Flat, FlatAll, Nodes, NodesAll, Leaves, LeavesAll, Distinct, DistinctAll, Matches, MatchesAll, WellFormed, ChildrenOk, Less;
      ghost var kids := t.kids[..idx] + kid + t.kids[idx + 1..];
      promoted, newChild := None, null;
      if split.None? {
        ReplaceChild(t.keys, t.kids, idx, kid[0], order, at.h - 1, at.lo, at.hi);
        assert kid == [kid[0]];
        assert Heads(kids) == Heads(t.kids);
        out := Whole(node, kids, at);
        return;
      }
      assert kid == [kid[0], kid[1]];
      SplitChild(t.keys, t.kids, idx, kid[0], split.value, kid[1], order, at.h - 1, at.lo, at.hi);
      node.keys := node.keys[..idx] + [split.value] + node.keys[idx..];
      node.children := node.children[..idx + 1] + [child] + node.children[idx + 1..];
      assert node.children == Heads(kids);
      if |node.children| > order {
        promoted, newChild, out := CutNode(node, kids, at);
      } else {
        out := Whole(node, kids, at);
      }
    }

    /** A node that did not overflow stays whole. */
    lemma Whole(node: Node, kids: seq<Tree>, at: Place) returns (out: seq<Tree>)
      requires !node.isLeaf && node.children == Heads(kids) && at.h > 0 && 1 <= |kids| <= order
      requires ChildrenOk(node.keys, kids, order, at.h - 1, at.lo, at.hi)
      requires MatchesAll(kids) && DistinctAll(kids) && node !in NodesAll(kids)
      ensures Grown(out, node, None, order, at)
      ensures MatchesAll(out) && DistinctAll(out) && NodesAll(out) == {node} + NodesAll(kids)
      ensures FlatAll(out) == FlatAll(kids) && LeavesAll(out) == LeavesAll(kids)
    {
      hide *;
      MakeInner(node, kids, order, at.h, at.lo, at.hi);
      out := [Inner(node, node.keys, kids)];
      Single(out[0]);
      GrownOne(out[0], order, at);
    }

    /** Cut an overfull inner node at its middle key. */
    method CutNode(node: Node, ghost kids: seq<Tree>, ghost at: Place)
      returns (promoted: Option<Item>, newChild: Node?, ghost out: seq<Tree>)
      requires order >= 3 && |kids| == order + 1 == |node.keys| + 1 && at.h > 0
      requires !node.isLeaf && node.children == Heads(kids)
      requires ChildrenOk(node.keys, kids, order, at.h - 1, at.lo, at.hi)
      requires MatchesAll(kids) && DistinctAll(kids) && node !in NodesAll(kids)
      modifies node`keys, node`children
      ensures Grown(out, node, promoted, order, at)
      ensures promoted.Some? ==> newChild == out[1].node
      ensures MatchesAll(out) && DistinctAll(out)
      ensures forall n :: n in NodesAll(out) ==> n == node || n in NodesAll(kids) || fresh(n)
      ensures FlatAll(out) == FlatAll(kids) && LeavesAll(out) == LeavesAll(kids)
    {
      hide *;
      var mid := |node.keys| / 2;
      ghost var l, r, p, below := kids[..mid + 1], kids[mid + 1..], node.keys[mid], NodesAll(kids);
      Exist(below);
      CutChildren(node.keys, kids, mid, order, at.h - 1, at.lo, at.hi);
      assert kids == l + r;
      Join(l, r);
      JoinMatches(l, r);
      promoted := Some(node.keys[mid]);
      var right := new Node(false, [], node.keys[mid + 1..], node.children[mid + 1..]);
      node.keys := node.keys[..mid];
      node.children := node.children[..mid + 1];
      newChild := right;
      assert right.children == Heads(r);
      MakeInner(node, l, order, at.h, at.lo, At(p));
      MakeInner(right, r, order, at.h, At(p), at.hi);
      out := [Inner(node, node.keys, l), Inner(right, right.keys, r)];
      PairUp(out[0], out[1]);
      GrownTwo(out[0], p, out[1], order, at);
    }

    method InsertInternal(node: Node, item: Item, ghost t: Tree, ghost at: Place)
      returns (promoted: Option<Item>, newChild: Node?, ghost out: seq<Tree>)
      requires order >= 3 && t.node == node && Matches(t) && Distinct(t)
      requires WellFormed(t, order, at.h, at.lo, at.hi) || EmptyLeaf(t, at.h)
      requires Between(at.lo, item, at.hi) && item !in Flat(t)
      requires Linked(Around(at, Leaves(t)))
      modifies Nodes(t)`items, Nodes(t)`keys, Nodes(t)`children
      modifies Around(at, Leaves(t))`next, Around(at, Leaves(t))`prev
      ensures Grown(out, node, promoted, order, at)
      ensures promoted.Some? ==> newChild == out[1].node
      ensures MatchesAll(out) && DistinctAll(out) && forall n :: n in NodesAll(out) ==> n in Nodes(t) || fresh(n)
      ensures Elems(FlatAll(out)) == Elems(Flat(t)) + {item}
      ensures Linked(Around(at, LeavesAll(out)))
      ensures HeadOf(Around(at, LeavesAll(out))) == HeadOf(Around(at, Leaves(t)))
      decreases t, 1
    {
      hide Less, Linked, Grown, ChildrenOk, Elems, Between, NodesAll, MatchesAll, DistinctAll, FlatAll, LeavesAll;
      if node.isLeaf {
        ghost var chain := Around(at, Leaves(t));
        assert Leaves(t) == [node];
        assert chain[|at.before|] == node;
        assert forall i :: 0 <= i < |at.after| ==> at.after[i] == chain[|at.before| + 1 + i];
        promoted, newChild, out := InsertLeaf(node, item, t, at);
        return;
      }
      var idx;
      ghost var kid, kids;
      idx, promoted, newChild, kid, kids := InsertBelow(node, item, t, at);
      Exist(NodesAll(kids));
      ExistAll(Around(at, LeavesAll(kids)));
      promoted, newChild, out := AdoptChildren(node, idx, promoted, newChild, t, kid, at);
    }

    /** The recursive step: insert below the child that covers the item. */
    method InsertBelow(node: Node, item: Item, ghost t: Tree, ghost at: Place)
      returns (idx: nat, promoted: Option<Item>, newChild: Node?, ghost kid: seq<Tree>, ghost kids: seq<Tree>)
      requires order >= 3 && t.node == node && Matches(t) && Distinct(t)
      requires t.Inner? && WellFormed(t, order, at.h, at.lo, at.hi)
      requires Between(at.lo, item, at.hi) && item !in Flat(t)
      requires Linked(Around(at, Leaves(t)))
      modifies NodesAll(t.kids)`items, NodesAll(t.kids)`keys, NodesAll(t.kids)`children
      modifies Around(at, Leaves(t))`next, Around(at, Leaves(t))`prev
      ensures idx < |t.kids| == |t.keys| + 1 && at.h > 0 && kids == t.kids[..idx] + kid + t.kids[idx + 1..]
      ensures |t.kids| <= order && ChildrenOk(t.keys, t.kids, order, at.h - 1, at.lo, at.hi)
      ensures Grown(kid, t.kids[idx].node, promoted, order, ChildPlace(t, idx, at))
      ensures promoted.Some? ==> newChild == kid[1].node
      ensures !node.isLeaf && node.keys == t.keys && node.children == Heads(t.kids)
      ensures MatchesAll(kids) && DistinctAll(kids) && node !in NodesAll(kids)
      ensures forall n :: n in NodesAll(kids) ==> n in Nodes(t) || fresh(n)
      ensures Elems(FlatAll(kids)) == Elems(Flat(t)) + {item}
      ensures Linked(Around(at, LeavesAll(kids)))
      ensures HeadOf(Around(at, LeavesAll(kids))) == HeadOf(Around(at, Leaves(t)))
      decreases t, 0
    {
      hide Less, Linked, Grown, ChildrenOk, Elems, NodesAll, MatchesAll, DistinctAll, FlatAll, LeavesAll;
      Exist(Nodes(t));
      ExistAll(Around(at, Leaves(t)));
      idx := UpperBound(node.keys, item);
      ghost var L, k, R, there := t.kids[..idx], t.kids[idx], t.kids[idx + 1..], ChildPlace(t, idx, at);
      OpenInner(t, idx, order, at);
      ghost var kept := NodesAll(L) + NodesAll(R) + {node};
      promoted, newChild, kid := InsertInternal(node.children[idx], item, k, there);
      assert NodesAll(kid) !! kept;
      Regraft(t, idx, kid, order, at);
      kids := L + kid + R;
    }

    /** Recompute every subtree count bottom-up. */
    method RefreshCounts(node: Node, ghost t: Tree) returns (n: int)
      requires t.node == node && Matches(t) && Distinct(t)
      modifies Nodes(t)`count
      ensures Counted(t) && n == |Flat(t)|
      decreases t
    {
      if node.isLeaf {
        node.count := |node.items|;
        return node.count;
      }
      hide FlatAll, NodesAll, MatchesAll, DistinctAll, CountedAll, LeavesAll;
      NoTrees();
      node.count := 0;
      for i := 0 to |node.children|
        invariant node.children == Heads(t.kids) && MatchesAll(t.kids)
        invariant CountedAll(t.kids[..i]) && node.count == |FlatAll(t.kids[..i])|
      {
        TakeOne(t.kids, i);
        Exist(NodesAll(t.kids));
        var m := RefreshCounts(node.children[i], t.kids[i]);
        node.count := node.count + m;
        TakeOne(t.kids, i);
      }
      assert t.kids[..|node.children|] == t.kids;
      return node.count;
    }

    /** Facts about a valid tree seen as one sorted list. */
    lemma Listed()
      requires Valid()
      ensures IsSorted(Flat(tree)) && Flat(tree) == Ordered(members) && |Flat(tree)| == length
      ensures forall n :: n in Leaves(tree) ==> n in Nodes(tree)
    {
      hide Less;
      if !EmptyLeaf(tree, height) {
        FlatSorted(tree, order, height, Lowest, Highest);
      }
      OrderedIs(members, Flat(tree));
      OrderedSize(members);
      LeavesAreNodes(tree);
    }

    /** The leaf chain of a valid tree walks the sorted list. */
    lemma Chained()
      requires Valid()
      ensures Linked(Leaves(tree)) && leafHead == NodeAt(Leaves(tree), 0)
      ensures Walk(Leaves(tree)) == Ordered(members) && Walk([]) == []
    {
      Listed();
      WalkLeaves(tree);
    }

    /** The number of items in the first k children of a node. */
    static method SumCounts(children: seq<Node>, k: nat, ghost kids: seq<Tree>) returns (n: int)
      requires k <= |children| && children == Heads(kids) && CountedAll(kids)
      ensures n == |FlatAll(kids[..k])|
    {
      Exist(NodesAll(kids));
      n := 0;
      for i := 0 to k
        invariant n == |FlatAll(kids[..i])|
      {
        TakeOne(kids, i);
        n := n + children[i].count;
      }
    }

    method GetRank(member: Bytes) returns (rank: int, found: bool)
      requires Valid()
      ensures found == (member in members)
      ensures rank == if found then RankOf(members, member) else 0
    {
      if member !in members {
        return 0, false;
      }
      Listed();
      var item := Item(members[member], member);
      assert item in Elems(Flat(tree));
      ghost var t, at, pre, post;
      var node;
      node, rank, t, at, pre, post := FindLeaf(item);
      var idx := LowerBound(node.items, item);
      found := idx < |node.items| && node.items[idx] == item;
      PlaceInLeaf(t.items, idx, item);
      assert Ordered(members)[|pre| + idx] == item;
      rank := if found then rank + idx else 0;
      RankFromOrder(members, member, rank);
    }

    /** Descend to the leaf that holds the item, adding up the counts passed over. */
    method FindLeaf(item: Item)
      returns (node: Node, rank: int, ghost t: Tree, ghost at: Place, ghost pre: seq<Item>, ghost post: seq<Item>)
      requires Valid() && item in Flat(tree)
      ensures t.Leaf? && node == t.node && node.items == t.items && item in t.items && IsSorted(t.items)
      ensures Flat(tree) == pre + t.items + post && rank == |pre|
    {
      hide Less, FlatAll, NodesAll, MatchesAll, DistinctAll, CountedAll, LeavesAll, ChildrenOk, IsSorted, Linked;
      node, rank := root, 0;
      t, at, pre, post := tree, Place(height, Lowest, Highest, [], []), [], [];
      while !node.isLeaf
        invariant t.node == node && Matches(t) && Distinct(t) && Counted(t)
        invariant WellFormed(t, order, at.h, at.lo, at.hi) && item in Flat(t)
        invariant Flat(tree) == pre + Flat(t) + post && rank == |pre|
        decreases t
      {
        Exist(Nodes(t));
        var idx := UpperBound(node.keys, item);
        OpenInner(t, idx, order, at);
        Locate(t, order, at.h, at.lo, at.hi, idx, item);
        var n := SumCounts(node.children, idx, t.kids);
        Descend(t, idx, pre, post);
        rank := rank + n;
        pre, post := pre + FlatAll(t.kids[..idx]), FlatAll(t.kids[idx + 1..]) + post;
        node, t, at := node.children[idx], t.kids[idx], ChildPlace(t, idx, at);
      }
    }

    method GetRange(start: int, stop: int) returns (names: seq<Bytes>)
      requires Valid()
      ensures names == RangeOf(members, start, stop)
    {
      hide Shaped, Counted, Flat, RangeOf, Ordered, Elems, ItemsOf;
      RangeIs(members, start, stop);
      var from := ClampStart(start, length);
      var to := ClampStop(stop, length);
      if from > to || from >= length {
        return [];
      }
      names := WalkRange(from, to);
    }

    /** Follow the leaf chain, collecting positions from..to. */
    method WalkRange(from: nat, to: nat) returns (names: seq<Bytes>)
      requires Valid() && from <= to < length == |Ordered(members)|
      ensures names == MembersOf(Ordered(members)[from..to + 1])
    {
      hide Shaped, Counted, Flat, Walk, Ordered, Elems, ItemsOf, IsSorted;
      Chained();
      ghost var all, chain, p := Ordered(members), Leaves(tree), 0;
      names := [];
      var index := 0;
      var node := leafHead;
      while node != null && index <= to
        invariant p <= |chain| && node == NodeAt(chain, p)
        invariant index == |Walk(chain[..p])| || index == to + 1
        invariant 0 <= index <= to + 1 && names == Collected(all, from, index)
        decreases |chain| - p
      {
        WalkStep(chain, p);
        index, names := WalkLeaf(node.items, from, to, index, names, all);
        node := node.next;
        p := p + 1;
      }
      assert p == |chain| ==> chain[..p] == chain;
      assert all[from..to + 1] == all[from..index];
    }

    /** Take the outcome of an insertion as the new tree, under a new root when the old one split. */
    method GrowRoot(promoted: Option<Item>, newChild: Node?, ghost out: seq<Tree>)
      requires order >= 3 && Grown(out, root, promoted, order, Place(height, Lowest, Highest, [], []))
      requires promoted.Some? ==> newChild == out[1].node
      requires MatchesAll(out) && DistinctAll(out)
      requires Linked(LeavesAll(out)) && leafHead == HeadOf(LeavesAll(out))
      modifies `root, `tree, `height
      ensures Shaped(height) && Flat(tree) == FlatAll(out)
      ensures forall n :: n in Nodes(tree) ==> n in NodesAll(out) || fresh(n)
    {
      hide NodesAll, MatchesAll, DistinctAll, FlatAll, LeavesAll, WellFormed;
      if promoted.Some? {
        assert out == [out[0], out[1]];
        Exist(NodesAll(out));
        ExistAll(LeavesAll(out));
        var top := new Node(false, [], [promoted.value], [root, newChild]);
        MakeRoot(top, out, promoted.value, order, Place(height, Lowest, Highest, [], []));
        root, tree, height := top, Inner(top, [promoted.value], out), height + 1;
      } else {
        assert out == [out[0]];
        Single(out[0]);
        tree := out[0];
      }
    }

    /** Insert a member the tree does not hold. */
    method InsertNew(member: Bytes, score: Score)
      requires Valid() && member !in members
      modifies this, repr
      ensures Valid() && members == old(members)[member := score]
      ensures forall n :: n in repr ==> n in old(repr) || fresh(n)
    {
      hide Less, Flat, Leaves, FlatAll, NodesAll, MatchesAll, DistinctAll, LeavesAll, Linked, HeadOf, Grown, Ordered, IsSorted, EmptyLeaf, WellFormed;
      Listed();
      var item := Item(score, member);
      ItemsPut(members, member, score);
      assert item !in Elems(Flat(tree));
      assert [] + Leaves(tree) + [] == Leaves(tree);
      var promoted, newChild, out := InsertInternal(root, item, tree, Place(height, Lowest, Highest, [], []));
      assert [] + LeavesAll(out) + [] == LeavesAll(out);
      GrowRoot(promoted, newChild, out);
      members := members[member := score];
      length := length + 1;
      Recount();
    }

    /** Take an emptied leaf out of the chain. */
    method Unlink(leaf: Node, ghost chain: seq<Node>, ghost k: nat)
      requires Linked(chain) && k < |chain| && chain[k] == leaf && leafHead == HeadOf(chain)
      modifies `leafHead, chain`next, chain`prev
      ensures var now := chain[..k] + chain[k + 1..]; Linked(now) && leafHead == HeadOf(now)
    {
      ghost var now := chain[..k] + chain[k + 1..];
      RemovedAt(chain, k);
      if leaf.prev != null {
        assert leaf.prev == chain[k - 1];
        leaf.prev.next := leaf.next;
      } else {
        leafHead := leaf.next;
      }
      if leaf.next != null {
        assert leaf.next == chain[k + 1];
        leaf.next.prev := leaf.prev;
      }
      forall i | 0 <= i < |now|
        ensures now[i].next == NodeAt(now, i + 1) && now[i].prev == NodeAt(now, i - 1)
      {
        if i < k {
          assert now[i] == chain[i];
        } else {
          assert now[i] == chain[i + 1];
        }
      }
    }

    method DeleteLeafItem(node: Node, item: Item, ghost t: Tree, ghost at: Place) returns (removed: bool, ghost after: Tree)
      requires t.Leaf? && t.node == node && Matches(t) && WellFormed(t, order, at.h, at.lo, at.hi)
      modifies node`items
      ensures removed == (item in t.items) && (!removed ==> after == t)
      ensures after.Leaf? && after.node == node && Matches(after)
      ensures WellFormed(after, order, at.h, at.lo, at.hi) || Hollow(after, at.h)
      ensures Elems(after.items) == Elems(t.items) - {item}
    {
      hide Less, Between;
      var idx := LowerBound(node.items, item);
      removed, after := false, t;
      if item in t.items {
        PlaceInLeaf(t.items, idx, item);
      }
      if idx < |node.items| && node.items[idx] == item {
        DeleteLeafItems(t.items, idx, item, at.lo, at.hi);
        node.items := node.items[..idx] + node.items[idx + 1..];
        removed, after := true, Leaf(node, node.items);
      }
    }

    method DeleteItem(node: Node, item: Item, ghost t: Tree, ghost at: Place) returns (removed: bool, ghost now: Tree)
      requires t.node == node && Matches(t) && Distinct(t) && WellFormed(t, order, at.h, at.lo, at.hi)
      requires Between(at.lo, item, at.hi)
      requires Linked(Around(at, Leaves(t))) && leafHead == HeadOf(Around(at, Leaves(t)))
      modifies `leafHead, Nodes(t)`items, Nodes(t)`keys, Nodes(t)`children
      modifies Around(at, Leaves(t))`next, Around(at, Leaves(t))`prev
      ensures removed == (item in Flat(t)) && (!removed ==> now == t)
      ensures now.node == node && Matches(now) && Distinct(now) && Nodes(now) <= Nodes(t)
      ensures WellFormed(now, order, at.h, at.lo, at.hi) || Hollow(now, at.h)
      ensures Elems(Flat(now)) == Elems(Flat(t)) - {item}
      ensures forall n :: n in Around(at, Leaves(now)) ==> n in Around(at, Leaves(t))
      ensures Linked(Around(at, Leaves(now))) && leafHead == HeadOf(Around(at, Leaves(now)))
      decreases t, 1
    {
      hide Less, Linked, HeadOf, ChildrenOk, Elems, Between, NodesAll, MatchesAll, DistinctAll, FlatAll, LeavesAll;
      if node.isLeaf {
        Exist(Nodes(t));
        ExistAll(Around(at, Leaves(t)));
        removed, now := DeleteLeafItem(node, item, t, at);
        assert Leaves(now) == Leaves(t);
        return;
      }
      var idx;
      ghost var kid;
      idx, removed, kid := DeleteBelow(node, item, t, at);
      if !removed {
        Focus(t.kids, idx);
        return removed, t;
      }
      ghost var kids := t.kids[..idx] + [kid] + t.kids[idx + 1..];
      ghost var was, chain := Around(at, Leaves(t)), Around(at, LeavesAll(kids));
      assert forall i :: 0 <= i < |chain| ==> chain[i] in was;
      now := DropHollow(node, idx, kid, t, at);
    }

    /** The recursive step: delete below the child that covers the item. */
    method DeleteBelow(node: Node, item: Item, ghost t: Tree, ghost at: Place)
      returns (idx: nat, removed: bool, ghost kid: Tree)
      requires t.node == node && Matches(t) && Distinct(t) && WellFormed(t, order, at.h, at.lo, at.hi) && t.Inner?
      requires Between(at.lo, item, at.hi)
      requires Linked(Around(at, Leaves(t))) && leafHead == HeadOf(Around(at, Leaves(t)))
      modifies `leafHead, NodesAll(t.kids)`items, NodesAll(t.kids)`keys, NodesAll(t.kids)`children
      modifies Around(at, Leaves(t))`next, Around(at, Leaves(t))`prev
      ensures idx < |t.kids| == |t.keys| + 1 && at.h > 0 && kid.node == t.kids[idx].node
      ensures |t.kids| <= order && ChildrenOk(t.keys, t.kids, order, at.h - 1, at.lo, at.hi)
      ensures var at' := ChildPlace(t, idx, at); WellFormed(kid, order, at'.h, at'.lo, at'.hi) || Hollow(kid, at'.h)
      ensures !node.isLeaf && node.keys == t.keys && node.children == Heads(t.kids)
      ensures removed == (item in Flat(t)) && (!removed ==> kid == t.kids[idx])
      ensures var kids := t.kids[..idx] + [kid] + t.kids[idx + 1..];
        && MatchesAll(kids) && DistinctAll(kids) && NodesAll(kids) <= Nodes(t) && node !in NodesAll(kids)
        && Elems(FlatAll(kids)) == Elems(Flat(t)) - {item}
        && (forall n :: n in Around(at, LeavesAll(kids)) ==> n in Around(at, Leaves(t)))
        && Linked(Around(at, LeavesAll(kids))) && leafHead == HeadOf(Around(at, LeavesAll(kids)))
      decreases t, 0
    {
      hide Less, Linked, HeadOf, ChildrenOk, Elems, Around, NodesAll, MatchesAll, DistinctAll, FlatAll, LeavesAll;
      Exist(Nodes(t));
      ExistAll(Around(at, Leaves(t)));
      idx := UpperBound(node.keys, item);
      ghost var L, k, R, there := t.kids[..idx], t.kids[idx], t.kids[idx + 1..], ChildPlace(t, idx, at);
      OpenInner(t, idx, order, at);
      Locate(t, order, at.h, at.lo, at.hi, idx, item);
      ghost var kept := NodesAll(L) + NodesAll(R) + {node};
      removed, kid := DeleteItem(node.children[idx], item, k, there);
      Single(kid);
      assert NodesAll([kid]) !! kept;
      Regraft(t, idx, [kid], order, at);
      NotElems(FlatAll(L), FlatAll(R), item);
    }

    /** Drop child `idx` if deletion emptied it, with one adjacent separator. */
    method DropHollow(node: Node, idx: nat, ghost kid: Tree, ghost t: Tree, ghost at: Place) returns (ghost now: Tree)
      requires t.Inner? && t.node == node && idx < |t.kids| == |t.keys| + 1 && at.h > 0 && |t.kids| <= order
      requires ChildrenOk(t.keys, t.kids, order, at.h - 1, at.lo, at.hi) && kid.node == t.kids[idx].node
      requires var at' := ChildPlace(t, idx, at); WellFormed(kid, order, at'.h, at'.lo, at'.hi) || Hollow(kid, at'.h)
      requires !node.isLeaf && node.keys == t.keys && node.children == Heads(t.kids)
      requires var kids := t.kids[..idx] + [kid] + t.kids[idx + 1..];
        && MatchesAll(kids) && DistinctAll(kids) && node !in NodesAll(kids)
        && Linked(Around(at, LeavesAll(kids))) && leafHead == HeadOf(Around(at, LeavesAll(kids)))
      modifies `leafHead, node`keys, node`children
      modifies Around(at, LeavesAll(t.kids[..idx] + [kid] + t.kids[idx + 1..]))`next
      modifies Around(at, LeavesAll(t.kids[..idx] + [kid] + t.kids[idx + 1..]))`prev
      ensures now.node == node && Matches(now) && Distinct(now)
      ensures WellFormed(now, order, at.h, at.lo, at.hi) || Hollow(now, at.h)
      ensures var kids := t.kids[..idx] + [kid] + t.kids[idx + 1..];
        && Flat(now) == FlatAll(kids) && Nodes(now) <= {node} + NodesAll(kids)
        && forall n :: n in Around(at, Leaves(now)) ==> n in Around(at, LeavesAll(kids))
      ensures Linked(Around(at, Leaves(now))) && leafHead == HeadOf(Around(at, Leaves(now)))
    {
      hide Less, Linked, HeadOf, ChildrenOk, NodesAll, MatchesAll, DistinctAll, FlatAll, LeavesAll;
      ghost var L, R := t.kids[..idx], t.kids[idx + 1..];
      ghost var kids := L + [kid] + R;
      WithoutHollow(L, kid, R, at);
      Exist(NodesAll(kids));
      ExistAll(Around(at, LeavesAll(kids)));
      ExistAll(Around(at, LeavesAll(L + R)));
      assert node.children[idx] == kid.node;
      if node.children[idx].isLeaf && |node.children[idx].items| == 0 {
        ghost var chain, k := Around(at, LeavesAll(kids)), |at.before + LeavesAll(L)|;
        Unlink(node.children[idx], chain, k);
        now := RemoveChild(node, idx, t, at);
      } else if !node.children[idx].isLeaf && |node.children[idx].children| == 0 {
        now := RemoveChild(node, idx, t, at);
      } else {
        ReplaceChild(t.keys, t.kids, idx, kid, order, at.h - 1, at.lo, at.hi);
        assert Heads(kids) == Heads(t.kids);
        MakeInner(node, kids, order, at.h, at.lo, at.hi);
        now := Inner(node, node.keys, kids);
      }
    }

    /** Splice out child `idx` and one adjacent separator. */
    method RemoveChild(node: Node, idx: nat, ghost t: Tree, ghost at: Place) returns (ghost now: Tree)
      requires t.Inner? && t.node == node && idx < |t.kids| == |t.keys| + 1 && at.h > 0 && |t.kids| <= order
      requires ChildrenOk(t.keys, t.kids, order, at.h - 1, at.lo, at.hi)
      requires !node.isLeaf && node.keys == t.keys && node.children == Heads(t.kids)
      requires var kids := t.kids[..idx] + t.kids[idx + 1..];
        MatchesAll(kids) && DistinctAll(kids) && node !in NodesAll(kids)
      modifies node`keys, node`children
      ensures now.node == node && Matches(now) && Distinct(now)
      ensures WellFormed(now, order, at.h, at.lo, at.hi) || Hollow(now, at.h)
      ensures var kids := t.kids[..idx] + t.kids[idx + 1..];
        Flat(now) == FlatAll(kids) && Nodes(now) == {node} + NodesAll(kids) && Leaves(now) == LeavesAll(kids)
    {
      hide Less, ChildrenOk, NodesAll, MatchesAll, DistinctAll, FlatAll, LeavesAll;
      ghost var kids := t.kids[..idx] + t.kids[idx + 1..];
      node.children := node.children[..idx] + node.children[idx + 1..];
      if idx < |node.keys| {
        node.keys := node.keys[..idx] + node.keys[idx + 1..];
      } else if |node.keys| > 0 {
        node.keys := node.keys[..|node.keys| - 1];
      }
      assert node.children == Heads(kids);
      now := Inner(node, node.keys, kids);
      if |t.kids| > 1 {
        DropChild(t.keys, t.kids, idx, order, at.h - 1, at.lo, at.hi);
        MakeInner(node, kids, order, at.h, at.lo, at.hi);
      }
    }

    /** Drop roots that have a single child. */
    method CollapseRoot()
      requires order >= 3 && tree.node == root && Matches(tree) && Distinct(tree)
      requires WellFormed(tree, order, height, Lowest, Highest)
      requires Linked(Leaves(tree)) && leafHead == HeadOf(Leaves(tree))
      modifies `root, `tree, `height
      ensures Shaped(height) && Flat(tree) == old(Flat(tree)) && Nodes(tree) <= old(Nodes(tree))
    {
      hide Linked, HeadOf, FlatAll, NodesAll, MatchesAll, DistinctAll, LeavesAll;
      ghost var was := tree;
      Exist(Nodes(was));
      ExistAll(Leaves(was));
      while !root.isLeaf && |root.children| == 1
        invariant tree.node == root && Matches(tree) && Distinct(tree) && Leaves(tree) == Leaves(was)
        invariant WellFormed(tree, order, height, Lowest, Highest)
        invariant Flat(tree) == Flat(was) && Nodes(tree) <= Nodes(was)
        decreases tree
      {
        assert tree.kids == [tree.kids[0]];
        Single(tree.kids[0]);
        root, tree, height := root.children[0], tree.kids[0], height - 1;
      }
    }

    method Remove(member: Bytes) returns (removed: bool)
      requires Valid()
      modifies this, repr
      ensures Valid() && members == old(members) - {member} && removed == (member in old(members))
      ensures forall n :: n in repr ==> n in old(repr) || fresh(n)
    {
      if member !in members {
        assert members - {member} == members;
        return false;
      }
      RemoveHeld(member);
      removed := true;
    }

    /** After a deletion: start afresh when nothing is left, otherwise drop idle roots. */
    method SettleRoot()
      requires order >= 3 && tree.node == root && Matches(tree) && Distinct(tree)
      requires WellFormed(tree, order, height, Lowest, Highest) || Hollow(tree, height)
      requires Linked(Leaves(tree)) && leafHead == HeadOf(Leaves(tree))
      requires length == |Flat(tree)|
      modifies `root, `leafHead, `tree, `height
      ensures Shaped(height) && Flat(tree) == old(Flat(tree))
      ensures forall n :: n in Nodes(tree) ==> n in old(Nodes(tree)) || fresh(n)
    {
      if length == 0 {
        var leaf := new Node(true, [], [], []);
        root, leafHead, tree, height := leaf, leaf, Leaf(leaf, []), 0;
      } else {
        NoTrees();
        CollapseRoot();
      }
    }

    /** Recount a well-shaped tree whose items are those of `members`. */
    method Recount()
      requires Shaped(height) && Elems(Flat(tree)) == ItemsOf(members) && length == |members|
      modifies `repr, Nodes(tree)`count
      ensures Valid() && repr == old(Nodes(tree))
    {
      hide Less, Flat, Leaves, Nodes, Matches, Distinct, Linked, HeadOf, WellFormed, EmptyLeaf, Elems;
      Exist(Nodes(tree));
      ExistAll(Leaves(tree));
      var _ := RefreshCounts(root, tree);
      repr := Nodes(tree);
    }

    /** Remove a member the tree holds. */
    method RemoveHeld(member: Bytes)
      requires Valid() && member in members
      modifies this, repr
      ensures Valid() && members == old(members) - {member}
      ensures forall n :: n in repr ==> n in old(repr) || fresh(n)
    {
      hide Less, Flat, Leaves, Nodes, Matches, Distinct, Linked, HeadOf, Ordered, IsSorted, Counted, WellFormed, EmptyLeaf, Hollow;
      Listed();
      ItemsDrop(members, member);
      var item := Item(members[member], member);
      assert item in Elems(Flat(tree));
      NotEmptyLeaf(item);
      ghost var at := Place(height, Lowest, Highest, [], []);
      assert Around(at, Leaves(tree)) == Leaves(tree);
      var _, now := DeleteItem(root, item, tree, at);
      assert Around(at, Leaves(now)) == Leaves(now);
      tree := now;
      members := members - {member};
      length := length - 1;
      ListedSize(now, height);
      SettleRoot();
      Recount();
    }

    lemma NotEmptyLeaf(item: Item)
      requires item in Flat(tree)
      ensures !EmptyLeaf(tree, height)
    {
    }

    /** The number of items is the number of members, once their sets agree. */
    lemma ListedSize(t: Tree, h: nat)
      requires WellFormed(t, order, h, Lowest, Highest) || Hollow(t, h)
      requires Elems(Flat(t)) == ItemsOf(members)
      ensures |Flat(t)| == |members|
    {
      if Hollow(t, h) {
        assert Flat(t) == [];
      } else {
        FlatSorted(t, order, h, Lowest, Highest);
      }
      OrderedIs(members, Flat(t));
      OrderedSize(members);
    }

    /** Put a member at a score; true when the member is new. */
    method Add(member: Bytes, score: Score) returns (added: bool)
      requires Valid()
      modifies this, repr
      ensures Valid() && members == old(members)[member := score] && added == (member !in old(members))
      ensures forall n :: n in repr ==> n in old(repr) || fresh(n)
      decreases if member in members then 2 else 0
    {
      if member in members {
        if members[member] != score {
          var _ := Update(member, score);
        }
        return false;
      }
      InsertNew(member, score);
      added := true;
    }

    /** Move a member to a score by removing and adding it; false when there is no such member. */
    method Update(member: Bytes, score: Score) returns (found: bool)
      requires Valid()
      modifies this, repr
      ensures Valid() && found == (member in old(members))
      ensures members == if found then old(members)[member := score] else old(members)
      ensures forall n :: n in repr ==> n in old(repr) || fresh(n)
      decreases 1
    {
      if member !in members {
        return false;
      }
      if members[member] == score {
        return true;
      }
      var _ := Remove(member);
      var _ := Add(member, score);
      found := true;
    }

    method GetMemberScore(member: Bytes) returns (score: Score, found: bool)
      requires Valid()
      ensures found == (member in members) && score == if found then members[member] else Finite(0.0)
    {
      found := member in members;
      score := if found then members[member] else Finite(0.0);
    }

    method Len() returns (n: int)
      requires Valid()
      ensures n == |members|
    {
      n := length;
    }
  }
}
