/** The skip list index: 32 linked levels whose heights are drawn at random. */
module SkipLists {
  import opened Bytes
  import opened SortedItems

  const MAX_HEIGHT := 32

  class SkipNode {
    const item: Item
    var next: seq<SkipNode?>

    constructor (member: Bytes, score: Score)
      ensures item == Item(score, member) && next == seq(MAX_HEIGHT, _ => null)
    {
      item := Item(score, member);
      next := seq(MAX_HEIGHT, _ => null);
    }
  }

  /** `y` comes after `x`, where the head comes before everything. */
  ghost predicate After(head: SkipNode, x: SkipNode, y: SkipNode) {
    x == head || Less(x.item, y.item)
  }

  /** `n` is the first node of the level after `x`, or null when there is none. */
  ghost predicate IsNext(level: set<SkipNode>, head: SkipNode, x: SkipNode, n: SkipNode?) {
    if n == null then
      forall y :: y in level ==> !After(head, x, y)
    else
      n in level && After(head, x, n) && forall y :: y in level && After(head, x, y) ==> y == n || Less(n.item, y.item)
  }

  /** `x` is the last node of the level (or the head) below `item`. */
  ghost predicate IsLast(level: set<SkipNode>, head: SkipNode, x: SkipNode, item: Item) {
    && Below(level, head, x, item)
    && forall y :: y in level && Less(y.item, item) ==> y == x || !After(head, x, y)
  }

  ghost predicate Below(level: set<SkipNode>, head: SkipNode, x: SkipNode, item: Item) {
    x == head || (x in level && Less(x.item, item))
  }

  ghost function Later(level: set<SkipNode>, head: SkipNode, x: SkipNode): set<SkipNode> {
    set y | y in level && After(head, x, y)
  }

  lemma StepShrinks(level: set<SkipNode>, head: SkipNode, x: SkipNode, n: SkipNode)
    requires IsNext(level, head, x, n) && n != head
    ensures Later(level, head, n) < Later(level, head, x)
  {
    hide Less;
    LessIsTotalOrder();
    assert n in Later(level, head, x) && n !in Later(level, head, n);
  }

  lemma LastFound(level: set<SkipNode>, head: SkipNode, x: SkipNode, n: SkipNode?, item: Item)
    requires Below(level, head, x, item) && IsNext(level, head, x, n) && (n != null ==> !Less(n.item, item))
    ensures IsLast(level, head, x, item)
  {
    hide Less;
    LessIsTotalOrder();
  }

  /** Every `next[l]` pointer of level l leads to the next node of that level. */
  ghost predicate Threaded(level: set<SkipNode>, head: SkipNode, l: nat)
    reads level`next, head`next
  {
    l < MAX_HEIGHT && head !in level && forall x :: x in level + {head} ==> |x.next| == MAX_HEIGHT && IsNext(level, head, x, x.next[l])
  }

  /** Distinct nodes hold distinct items. */
  ghost predicate Apart(level: set<SkipNode>) {
    forall y, z :: y in level && z in level && y.item == z.item ==> y == z
  }

  lemma Linking(level: set<SkipNode>, head: SkipNode, pred: SkipNode, node: SkipNode, n: SkipNode?, x: SkipNode, xn: SkipNode?)
    requires head !in level && node !in level + {head} && Apart(level + {node})
    requires IsLast(level, head, pred, node.item) && IsNext(level, head, pred, n)
    requires x in level + {head} && IsNext(level, head, x, xn)
    ensures IsNext(level + {node}, head, pred, node) && IsNext(level + {node}, head, node, n)
    ensures x != pred ==> IsNext(level + {node}, head, x, xn)
  {
    hide Less;
    LessIsTotalOrder();
  }

  lemma Unlinking(level: set<SkipNode>, head: SkipNode, pred: SkipNode, node: SkipNode, n: SkipNode?, x: SkipNode, xn: SkipNode?)
    requires head !in level && Apart(level)
    requires IsLast(level, head, pred, node.item) && node in level && IsNext(level, head, node, n)
    requires x in level + {head} && IsNext(level, head, x, xn)
    ensures IsNext(level, head, pred, node)
    ensures IsNext(level - {node}, head, pred, n)
    ensures x != pred ==> IsNext(level - {node}, head, x, xn)
  {
    hide Less;
    LessIsTotalOrder();
  }

  lemma NextUnique(level: set<SkipNode>, head: SkipNode, x: SkipNode, n: SkipNode?, m: SkipNode)
    requires IsNext(level, head, x, n) && IsNext(level, head, x, m)
    ensures n == m
  {
    hide Less;
    LessIsTotalOrder();
  }

  /** Each level is part of every level below it. */
  ghost predicate Nested(levels: seq<set<SkipNode>>) {
    && |levels| == MAX_HEIGHT
    && (forall l :: 0 <= l < MAX_HEIGHT ==> levels[l] <= levels[0])
    && (forall l, m :: 0 <= l <= m < MAX_HEIGHT ==> levels[m] <= levels[l])
  }

  /** The member map leads to exactly the nodes of the bottom level. */
  ghost predicate Indexes(members: map<Bytes, SkipNode>, nodes: set<SkipNode>) {
    && (forall k :: k in members ==> members[k].item.member == k && members[k] in nodes)
    && (forall n :: n in nodes ==> n.item.member in members && members[n.item.member] == n)
  }

  /** Scores by member. */
  ghost function ScoresOf(members: map<Bytes, SkipNode>): (m: map<Bytes, Score>)
    ensures m.Keys == members.Keys && |m| == |members|
  {
    var m := map k | k in members :: members[k].item.score;
    assert m.Keys == members.Keys;
    m
  }

  /** The nodes carry the items of the score map, one node each. */
  lemma Listed(members: map<Bytes, SkipNode>, nodes: set<SkipNode>)
    requires Indexes(members, nodes)
    ensures (set n | n in nodes :: n.item) == ItemsOf(ScoresOf(members)) && Apart(nodes)
  {
    var items := set n | n in nodes :: n.item;
    forall x ensures x in items <==> x in ItemsOf(ScoresOf(members)) {
      if x in ItemsOf(ScoresOf(members)) {
        assert members[x.member].item == x;
      }
    }
  }

  lemma PutNode(members: map<Bytes, SkipNode>, nodes: set<SkipNode>, node: SkipNode)
    requires Indexes(members, nodes) && node.item.member !in members
    ensures node !in nodes && Apart(nodes + {node}) && Indexes(members[node.item.member := node], nodes + {node})
  {
    PutApart(members, nodes, node);
  }

  lemma PutApart(members: map<Bytes, SkipNode>, nodes: set<SkipNode>, node: SkipNode)
    requires Indexes(members, nodes) && node.item.member !in members
    ensures Apart(nodes + {node})
  {
    forall y, z | y in nodes + {node} && z in nodes + {node} && y.item == z.item ensures y == z {
      assert y in nodes ==> y.item.member in members && members[y.item.member] == y;
      assert z in nodes ==> z.item.member in members && members[z.item.member] == z;
    }
  }

  lemma PutScore(members: map<Bytes, SkipNode>, node: SkipNode)
    ensures ScoresOf(members[node.item.member := node]) == ScoresOf(members)[node.item.member := node.item.score]
  {
  }

  lemma DropNode(members: map<Bytes, SkipNode>, nodes: set<SkipNode>, k: Bytes)
    requires Indexes(members, nodes) && k in members
    ensures Indexes(members - {k}, nodes - {members[k]})
    ensures ScoresOf(members - {k}) == ScoresOf(members) - {k}
  {
  }

  lemma NestedGrow(was: seq<set<SkipNode>>, now: seq<set<SkipNode>>, node: SkipNode, top: nat)
    requires Nested(was) && |now| == MAX_HEIGHT && top >= 1
    requires forall l :: 0 <= l < MAX_HEIGHT ==> now[l] == was[l] + if l < top then {node} else {}
    ensures Nested(now) && now[0] == was[0] + {node}
  {
  }

  lemma NestedShrink(was: seq<set<SkipNode>>, now: seq<set<SkipNode>>, node: SkipNode)
    requires Nested(was) && |now| == MAX_HEIGHT
    requires forall l :: 0 <= l < MAX_HEIGHT ==> now[l] == was[l] - {node}
    ensures Nested(now)
  {
  }

  /** The node stands at position i of the sorted list; null is the position past its end. */
  ghost predicate Stands(level: set<SkipNode>, n: SkipNode?, s: seq<Item>, i: nat) {
    if n == null then i == |s| else n in level && i < |s| && n.item == s[i]
  }

  /** Following a bottom-level pointer moves one position on. */
  lemma WalkNext(level: set<SkipNode>, head: SkipNode, x: SkipNode, n: SkipNode?, s: seq<Item>, i: int)
    requires IsSorted(s) && (set m | m in level :: m.item) == Elems(s) && head !in level
    requires IsNext(level, head, x, n)
    requires if i == -1 then x == head else 0 <= i && Stands(level, x, s, i)
    ensures Stands(level, n, s, i + 1)
  {
    hide Less;
    LessIsTotalOrder();
    if i + 1 < |s| {
      assert s[i + 1] in Elems(s);
      var y :| y in level && y.item == s[i + 1];
      assert After(head, x, y);
    }
    if n != null {
      assert n.item in Elems(s);
      var j :| 0 <= j < |s| && s[j] == n.item;
    }
  }

  lemma TakeNext(s: seq<Item>, from: nat, index: nat)
    requires from <= index < |s|
    ensures MembersOf(s[from..index + 1]) == MembersOf(s[from..index]) + [s[index].member]
  {
    assert s[from..index + 1] == s[from..index] + [s[index]];
  }

  class SkipList {
    const head: SkipNode
    var members: map<Bytes, SkipNode>
    var length: int
    ghost var levels: seq<set<SkipNode>>

    /** Scores by member. */
    ghost function Scores(): map<Bytes, Score>
      reads this
    {
      ScoresOf(members)
    }

    ghost predicate Valid()
      reads this, head, Nodes()
    {
      && Nested(levels) && head !in levels[0]
      && (forall l :: 0 <= l < MAX_HEIGHT ==> Threaded(levels[l], head, l))
      && Indexes(members, levels[0]) && length == |members|
    }

    ghost function Nodes(): set<SkipNode>
      reads this
    {
      if levels == [] then {} else levels[0]
    }

    constructor ()
      ensures Valid() && fresh(head) && Nodes() == {} && Scores() == map[]
    {
      head := new SkipNode([], Finite(0.0));
      members, length := map[], 0;
      levels := seq(MAX_HEIGHT, _ => {});
    }

    /** A height between 1 and MAX_HEIGHT, one coin toss per level. */
    static method RandomHeight() returns (height: nat)
      ensures 1 <= height <= MAX_HEIGHT
    {
      height := 1;
      var heads: bool := *;
      while height < MAX_HEIGHT && heads
        invariant 1 <= height <= MAX_HEIGHT
        decreases MAX_HEIGHT - height
      {
        height := height + 1;
        heads := *;
      }
    }

    /** At every level, the last node below (score, member), or the head. */
    method Predecessors(item: Item) returns (update: seq<SkipNode>)
      requires Valid()
      ensures |update| == MAX_HEIGHT
      ensures forall l :: 0 <= l < MAX_HEIGHT ==> IsLast(levels[l], head, update[l], item)
    {
      var node := head;
      update := seq(MAX_HEIGHT, _ => head);
      var level := MAX_HEIGHT;
      while level > 0
        invariant 0 <= level <= MAX_HEIGHT == |levels| && |update| == MAX_HEIGHT
        invariant level == MAX_HEIGHT ==> node == head
        invariant level < MAX_HEIGHT ==> Below(levels[level], head, node, item)
        invariant forall l :: level <= l < MAX_HEIGHT ==> IsLast(levels[l], head, update[l], item)
      {
        level := level - 1;
        node := Advance(node, level, item, levels[level]);
        update := update[level := node];
      }
    }

    /** Walk one level as long as the next node is below `item`. */
    method Advance(start: SkipNode, l: nat, item: Item, ghost level: set<SkipNode>) returns (node: SkipNode)
      requires Threaded(level, head, l) && Below(level, head, start, item)
      ensures IsLast(level, head, node, item)
    {
      node := start;
      var next := node.next[l];
      while next != null && Less(next.item, item)
        invariant Below(level, head, node, item) && IsNext(level, head, node, next) && next == node.next[l]
        decreases Later(level, head, node)
      {
        hide Less;
        StepShrinks(level, head, node, next);
        node := next;
        next := node.next[l];
      }
      LastFound(level, head, node, next, item);
    }

    /** Link a node into level l right after its predecessor. */
    method Link(l: nat, node: SkipNode, pred: SkipNode, ghost level: set<SkipNode>)
      requires Threaded(level, head, l) && node !in level + {head} && |node.next| == MAX_HEIGHT
      requires IsLast(level, head, pred, node.item) && Apart(level + {node})
      modifies node`next, pred`next
      ensures Threaded(level + {node}, head, l)
      ensures node.next == old(node.next[l := pred.next[l]]) && pred.next == old(pred.next)[l := node]
    {
      forall x | x in level + {head} {
        Linking(level, head, pred, node, pred.next[l], x, x.next[l]);
      }
      node.next := node.next[l := pred.next[l]];
      pred.next := pred.next[l := node];
    }

    /** Take a node out of level l, if it is there. */
    method Bypass(l: nat, node: SkipNode, pred: SkipNode, ghost level: set<SkipNode>)
      requires Threaded(level, head, l) && node != head && |node.next| == MAX_HEIGHT
      requires IsLast(level, head, pred, node.item) && Apart(level)
      modifies pred`next
      ensures Threaded(level - {node}, head, l)
      ensures |pred.next| == MAX_HEIGHT && forall m :: 0 <= m < MAX_HEIGHT && m != l ==> pred.next[m] == old(pred.next[m])
    {
      if node in level {
        forall x | x in level + {head} {
          Unlinking(level, head, pred, node, node.next[l], x, x.next[l]);
        }
        NextUnique(level, head, pred, pred.next[l], node);
      }
      if pred.next[l] == node {
        pred.next := pred.next[l := node.next[l]];
      }
    }

    /** Insert a member the list does not hold. */
    method InsertNew(member: Bytes, score: Score)
      requires Valid() && member !in members
      modifies this, head, Nodes()
      ensures Valid() && Scores() == old(Scores())[member := score]
      ensures forall n :: n in Nodes() ==> n in old(Nodes()) || fresh(n)
    {
      hide Less, IsNext, IsLast, Threaded, Indexes, Apart, ScoresOf;
      var update := Predecessors(Item(score, member));
      var node := new SkipNode(member, score);
      PutNode(members, levels[0], node);
      PutScore(members, node);
      ghost var was := levels;
      var top := LinkUp(node, update);
      NestedGrow(was, levels, node, top);
      members := members[member := node];
      length := length + 1;
    }

    /** Link a node into levels 0 up to a height drawn afresh before every level. */
    method LinkUp(node: SkipNode, update: seq<SkipNode>) returns (ghost top: nat)
      requires |levels| == MAX_HEIGHT == |update| == |node.next| && node !in levels[0] + {head} && Apart(levels[0] + {node})
      requires forall l :: 0 <= l < MAX_HEIGHT ==> levels[l] <= levels[0]
      requires forall l :: 0 <= l < MAX_HEIGHT ==> Threaded(levels[l], head, l)
      requires forall l :: 0 <= l < MAX_HEIGHT ==> IsLast(levels[l], head, update[l], node.item)
      modifies `levels, head`next, Nodes()`next, node`next
      ensures 1 <= top <= MAX_HEIGHT == |levels|
      ensures forall l :: 0 <= l < MAX_HEIGHT ==> levels[l] == old(levels[l]) + if l < top then {node} else {}
      ensures forall l :: 0 <= l < MAX_HEIGHT ==> Threaded(levels[l], head, l)
    {
      hide Less, IsNext, Threaded;
      ghost var was := levels;
      var level := 0;
      var height := RandomHeight();
      while level < height
        invariant 0 <= level <= MAX_HEIGHT == |levels| == |node.next| && 1 <= height <= MAX_HEIGHT
        invariant forall l :: 0 <= l < MAX_HEIGHT ==> levels[l] == was[l] + if l < level then {node} else {}
        invariant forall l :: 0 <= l < MAX_HEIGHT ==> Threaded(levels[l], head, l)
        decreases MAX_HEIGHT - level
      {
        assert levels[level] == was[level];
        LinkLevel(level, node, update[level]);
        level := level + 1;
        height := RandomHeight();
      }
      top := level;
    }

    /** Link a node into one level, leaving every other level threaded. */
    method LinkLevel(l: nat, node: SkipNode, pred: SkipNode)
      requires |levels| == MAX_HEIGHT && l < MAX_HEIGHT && |node.next| == MAX_HEIGHT
      requires forall m :: 0 <= m < MAX_HEIGHT ==> Threaded(levels[m], head, m)
      requires node !in levels[l] + {head} && IsLast(levels[l], head, pred, node.item) && Apart(levels[l] + {node})
      modifies `levels, node`next, pred`next
      ensures levels == old(levels)[l := old(levels[l]) + {node}] && |node.next| == MAX_HEIGHT
      ensures forall m :: 0 <= m < MAX_HEIGHT ==> Threaded(levels[m], head, m)
    {
      hide IsNext, IsLast;
      Link(l, node, pred, levels[l]);
      levels := levels[l := levels[l] + {node}];
    }

    /** Take a node out of one level, leaving every other level threaded. */
    method BypassLevel(l: nat, node: SkipNode, pred: SkipNode)
      requires |levels| == MAX_HEIGHT && l < MAX_HEIGHT && |node.next| == MAX_HEIGHT && node != head
      requires forall m :: 0 <= m < MAX_HEIGHT ==> Threaded(levels[m], head, m)
      requires IsLast(levels[l], head, pred, node.item) && Apart(levels[l])
      modifies `levels, pred`next
      ensures levels == old(levels)[l := old(levels[l]) - {node}] && |node.next| == MAX_HEIGHT
      ensures forall m :: 0 <= m < MAX_HEIGHT ==> Threaded(levels[m], head, m)
    {
      hide IsNext, IsLast;
      Bypass(l, node, pred, levels[l]);
      levels := levels[l := levels[l] - {node}];
    }

    /** Unlink a node from every level it is in. */
    method TakeOut(node: SkipNode)
      requires Valid() && node in levels[0]
      modifies `levels, head`next, Nodes()`next
      ensures Nested(levels) && levels[0] == old(levels[0]) - {node}
      ensures forall l :: 0 <= l < MAX_HEIGHT ==> Threaded(levels[l], head, l)
    {
      hide Less, IsNext, IsLast, Threaded, Apart, Indexes;
      var update := Predecessors(node.item);
      Listed(members, levels[0]);
      ghost var was := levels;
      BypassAll(node, update);
      NestedShrink(was, levels, node);
    }

    /** Remove a member the list holds. */
    method RemoveHeld(member: Bytes)
      requires Valid() && member in members
      modifies this, head`next, Nodes()`next
      ensures Valid() && Scores() == old(Scores()) - {member}
      ensures Nodes() <= old(Nodes())
    {
      hide Less, Threaded, Apart, ScoresOf;
      var node := members[member];
      DropNode(members, levels[0], member);
      TakeOut(node);
      hide Indexes, Nested;
      members := members - {member};
      length := length - 1;
    }

    /** Walk all 32 levels, unlinking the node wherever it is linked. */
    method BypassAll(node: SkipNode, update: seq<SkipNode>)
      requires |levels| == MAX_HEIGHT == |update| && node in levels[0] && head !in levels[0] && Apart(levels[0])
      requires forall l :: 0 <= l < MAX_HEIGHT ==> levels[l] <= levels[0]
      requires forall l :: 0 <= l < MAX_HEIGHT ==> Threaded(levels[l], head, l)
      requires forall l :: 0 <= l < MAX_HEIGHT ==> IsLast(levels[l], head, update[l], node.item)
      modifies `levels, head`next, Nodes()`next
      ensures |levels| == MAX_HEIGHT && forall l :: 0 <= l < MAX_HEIGHT ==> levels[l] == old(levels[l]) - {node}
      ensures forall l :: 0 <= l < MAX_HEIGHT ==> Threaded(levels[l], head, l)
    {
      hide Less, IsNext;
      ghost var was := levels;
      assert Threaded(levels[0], head, 0) && node in levels[0] + {head};
      for level := 0 to MAX_HEIGHT
        invariant |levels| == MAX_HEIGHT == |node.next|
        invariant forall l :: 0 <= l < MAX_HEIGHT ==> levels[l] == if l < level then was[l] - {node} else was[l]
        invariant forall l :: 0 <= l < MAX_HEIGHT ==> Threaded(levels[l], head, l)
      {
        assert levels[level] == was[level];
        BypassLevel(level, node, update[level]);
      }
    }

    method Remove(member: Bytes) returns (removed: bool)
      requires Valid()
      modifies this, head`next, Nodes()`next
      ensures Valid() && Scores() == old(Scores()) - {member} && removed == (member in old(Scores()))
      ensures Nodes() <= old(Nodes())
    {
      if member !in members {
        assert Scores() - {member} == Scores();
        return false;
      }
      RemoveHeld(member);
      removed := true;
    }

    /** Put a member at a score; true when the member is new. */
    method Add(member: Bytes, score: Score) returns (added: bool)
      requires Valid()
      modifies this, head, Nodes()
      ensures Valid() && Scores() == old(Scores())[member := score] && added == (member !in old(Scores()))
      ensures forall n :: n in Nodes() ==> n in old(Nodes()) || fresh(n)
      decreases if member in members then 2 else 0
    {
      if member in members {
        if members[member].item.score != score {
          var _ := Update(member, score);
        } else {
          assert Scores()[member := score] == Scores();
        }
        return false;
      }
      InsertNew(member, score);
      added := true;
    }

    /** Move a member to a score by removing and adding it; false when there is no such member. */
    method Update(member: Bytes, score: Score) returns (found: bool)
      requires Valid()
      modifies this, head, Nodes()
      ensures Valid() && found == (member in old(Scores()))
      ensures Scores() == if found then old(Scores())[member := score] else old(Scores())
      ensures forall n :: n in Nodes() ==> n in old(Nodes()) || fresh(n)
      decreases 1
    {
      if member !in members {
        return false;
      }
      if members[member].item.score == score {
        assert Scores()[member := score] == Scores();
        return true;
      }
      ghost var was := Scores();
      var _ := Remove(member);
      assert Scores()[member := score] == was[member := score];
      var _ := Add(member, score);
      found := true;
    }

    method GetMemberScore(member: Bytes) returns (score: Score, found: bool)
      requires Valid()
      ensures found == (member in Scores()) && score == if found then Scores()[member] else Finite(0.0)
    {
      found := member in members;
      score := if found then members[member].item.score else Finite(0.0);
    }

    method Len() returns (n: int)
      requires Valid()
      ensures n == |Scores()|
    {
      n := length;
    }

    /** The bottom level starts the sorted list. */
    lemma Begins()
      requires Valid()
      ensures |head.next| == MAX_HEIGHT && Stands(Nodes(), head.next[0], Ordered(Scores()), 0)
    {
      hide Less;
      Listed(members, Nodes());
      WalkNext(Nodes(), head, head, head.next[0], Ordered(Scores()), -1);
    }

    lemma Continues(node: SkipNode, i: nat)
      requires Valid() && Stands(Nodes(), node, Ordered(Scores()), i)
      ensures |node.next| == MAX_HEIGHT && Stands(Nodes(), node.next[0], Ordered(Scores()), i + 1)
    {
      hide Less;
      Listed(members, Nodes());
      assert node in Nodes() + {head};
      WalkNext(Nodes(), head, node, node.next[0], Ordered(Scores()), i);
    }

    method GetRank(member: Bytes) returns (rank: nat, found: bool)
      requires Valid()
      ensures found == (member in Scores())
      ensures rank == if found then RankOf(Scores(), member) else 0
    {
      hide Less, Nested, Threaded, Ordered;
      ghost var s := Ordered(Scores());
      Begins();
      rank := 0;
      var node := head.next[0];
      while node != null
        invariant rank <= |s| && Stands(Nodes(), node, s, rank)
        invariant forall i :: 0 <= i < rank ==> s[i].member != member
        decreases |s| - rank
      {
        if node.item.member == member {
          RankFromOrder(Scores(), member, rank);
          return rank, true;
        }
        Continues(node, rank);
        node := node.next[0];
        rank := rank + 1;
      }
      if member in members {
        assert Item(Scores()[member], member) in Elems(Ordered(Scores())) by { OrderedElems(Scores()); }
      }
      return 0, false;
    }

    method GetRange(start: int, stop: int) returns (names: seq<Bytes>)
      requires Valid()
      ensures names == RangeOf(Scores(), start, stop)
    {
      hide Less, Nested, Threaded, Ordered, RangeOf, Indexes;
      RangeIs(Scores(), start, stop);
      var from, to := ClampStart(start, length), ClampStop(stop, length);
      names := [];
      if from > to || from >= length {
        return;
      }
      ghost var s := Ordered(Scores());
      Begins();
      var index := 0;
      var node := head.next[0];
      while node != null && index <= to
        invariant index <= to + 1 && Stands(Nodes(), node, s, index)
        invariant names == if index <= from then [] else MembersOf(s[from..index])
        decreases |s| - index
      {
        if index >= from {
          TakeNext(s, from, index);
          names := names + [node.item.member];
        }
        Continues(node, index);
        node := node.next[0];
        index := index + 1;
      }
    }
  }
}
