/** One sorted-set interface over either index, and the answers both must give. */
module SortedSets {
  import opened Bytes
  import opened SortedItems
  import opened FiniteSums
  import BPlusTrees
  import SkipLists

  datatype Index = Skip(list: SkipLists.SkipList) | BPlus(tree: BPlusTrees.BPlusTree)

  datatype SortedSetType = SkipListType | BPlusTreeType

  const SORTED_SET_ENTRY_OVERHEAD := 8

  function MemberSize(member: Bytes): int {
    |member| + SORTED_SET_ENTRY_OVERHEAD
  }

  ghost function SetOf(names: seq<Bytes>): set<Bytes> {
    set x | x in names
  }

  ghost function MembersSize(members: set<Bytes>): int {
    Sum(members, MemberSize)
  }

  /** The full range lists every member once. */
  lemma AllNames(m: map<Bytes, Score>)
    requires |m| > 0
    ensures var names := RangeOf(m, 0, |m| - 1);
      && SetOf(names) == m.Keys
      && forall i, j :: 0 <= i < j < |names| ==> names[i] != names[j]
  {
    hide Ordered;
    var s := Ordered(m);
    RangeIs(m, 0, |m| - 1);
    assert s[..|m|] == s;
    NamesDistinct(m, MembersOf(s));
  }

  lemma NamesDistinct(m: map<Bytes, Score>, names: seq<Bytes>)
    requires names == MembersOf(Ordered(m))
    ensures SetOf(names) == m.Keys
    ensures forall i, j :: 0 <= i < j < |names| ==> names[i] != names[j]
  {
    var s := Ordered(m);
    OrderedElems(m);
    hide Less, Ordered;
    LessIsTotalOrder();
    assert forall i :: 0 <= i < |s| ==> s[i] in Elems(s);
    forall k | k in m ensures k in names {
      assert Item(m[k], k) in Elems(s);
      var i :| 0 <= i < |s| && s[i] == Item(m[k], k);
      assert names[i] == k;
    }
  }

  datatype Op =
    | Add(member: Bytes, score: Score)
    | Update(member: Bytes, score: Score)
    | Remove(member: Bytes)
    | GetScore(member: Bytes)
    | GetRank(member: Bytes)
    | GetRange(start: int, stop: int)
    | Count

  datatype Answer =
    | Flag(value: bool)
    | Scored(score: Score, found: bool)
    | Ranked(rank: int, found: bool)
    | Names(names: seq<Bytes>)

  /** What an operation means on a plain map. */
  ghost function Step(m: map<Bytes, Score>, op: Op): (map<Bytes, Score>, Answer) {
    match op
    case Add(k, s) => (m[k := s], Flag(k !in m))
    case Update(k, s) => (if k in m then m[k := s] else m, Flag(k in m))
    case Remove(k) => (m - {k}, Flag(k in m))
    case GetScore(k) => (m, if k in m then Scored(m[k], true) else Scored(Finite(0.0), false))
    case GetRank(k) => (m, if k in m then Ranked(RankOf(m, k), true) else Ranked(0, false))
    case GetRange(start, stop) => (m, Names(RangeOf(m, start, stop)))
    case Count => (m, Ranked(|m|, true))
  }

  ghost function Steps(m: map<Bytes, Score>, ops: seq<Op>): (map<Bytes, Score>, seq<Answer>) {
    if ops == [] then (m, []) else
      var (m', answers) := Steps(m, ops[..|ops| - 1]);
      var (m'', answer) := Step(m', ops[|ops| - 1]);
      (m'', answers + [answer])
  }

  /** What ZSCORE, ZRANK and ZRANGE ask of a set. */
  datatype Question = ScoreOf(member: Bytes) | RankIn(member: Bytes) | Between(start: int, stop: int)

  ghost function Asked(m: map<Bytes, Score>, question: Question): Answer {
    match question
    case ScoreOf(member) => Step(m, GetScore(member)).1
    case RankIn(member) => Step(m, GetRank(member)).1
    case Between(start, stop) => Step(m, GetRange(start, stop)).1
  }

  /** The score a member is answered to have. */
  ghost function ScoreIn(m: map<Bytes, Score>, x: Bytes): Answer {
    Step(m, GetScore(x)).1
  }

  /** Reads after writes: what an operation answers, and the score that each member then has. */
  lemma ReadAfterWrite(m: map<Bytes, Score>, k: Bytes, score: Score, x: Bytes)
    ensures ScoreIn(m, x) == if x in m then Scored(m[x], true) else Scored(Finite(0.0), false)
    ensures Step(m, Add(k, score)).1 == Flag(k !in m) && Step(m, Update(k, score)).1 == Step(m, Remove(k)).1 == Flag(k in m)
    ensures ScoreIn(Step(m, Add(k, score)).0, x) == if x == k then Scored(score, true) else ScoreIn(m, x)
    ensures ScoreIn(Step(m, Update(k, score)).0, x) == if x == k && k in m then Scored(score, true) else ScoreIn(m, x)
    ensures ScoreIn(Step(m, Remove(k)).0, x) == if x == k then Scored(Finite(0.0), false) else ScoreIn(m, x)
  {
    hide RankOf, RangeOf;
  }

  lemma NamesStart(names: seq<Bytes>)
    ensures SetOf(names[..0]) == {} && names[..|names|] == names
  {
  }

  lemma NamesStep(names: seq<Bytes>, i: nat)
    requires i < |names|
    ensures SetOf(names[..i + 1]) == SetOf(names[..i]) + {names[i]}
  {
  }

  class SortedSet {
    const index: Index

    ghost predicate Valid()
      reads Parts()
    {
      match index
      case Skip(list) => list.Valid()
      case BPlus(tree) => tree.Valid()
    }

    ghost function Anchor(): set<object> {
      match index
      case Skip(list) => {list, list.head}
      case BPlus(tree) => {tree}
    }

    ghost function Parts(): set<object>
      reads Anchor()
    {
      match index
      case Skip(list) => {list, list.head} + list.Nodes()
      case BPlus(tree) => {tree} + tree.repr
    }

    /** What the set means: its members and their scores. */
    ghost function Scores(): map<Bytes, Score>
      reads Anchor()
    {
      match index
      case Skip(list) => list.Scores()
      case BPlus(tree) => tree.members
    }

    constructor (t: SortedSetType)
      ensures Valid() && fresh(Parts()) && Scores() == map[]
    {
      hide BPlusTrees.BPlusTree.Valid, SkipLists.SkipList.Valid;
      if t == BPlusTreeType {
        var tree := new BPlusTrees.BPlusTree(BPlusTrees.DEFAULT_ORDER);
        index := BPlus(tree);
      } else {
        var list := new SkipLists.SkipList();
        index := Skip(list);
      }
    }

    method Add(member: Bytes, score: Score) returns (added: bool)
      requires Valid()
      modifies Parts()
      ensures Valid() && (forall o :: o in Parts() ==> o in old(Parts()) || fresh(o))
      ensures Scores() == old(Scores())[member := score] && added == (member !in old(Scores()))
    {
      match index
      case Skip(list) => added := list.Add(member, score);
      case BPlus(tree) => added := tree.Add(member, score);
    }

    method Update(member: Bytes, score: Score) returns (found: bool)
      requires Valid()
      modifies Parts()
      ensures Valid() && (forall o :: o in Parts() ==> o in old(Parts()) || fresh(o))
      ensures found == (member in old(Scores()))
      ensures Scores() == if found then old(Scores())[member := score] else old(Scores())
    {
      match index
      case Skip(list) => found := list.Update(member, score);
      case BPlus(tree) => found := tree.Update(member, score);
    }

    method Remove(member: Bytes) returns (removed: bool)
      requires Valid()
      modifies Parts()
      ensures Valid() && (forall o :: o in Parts() ==> o in old(Parts()) || fresh(o))
      ensures Scores() == old(Scores()) - {member} && removed == (member in old(Scores()))
    {
      match index
      case Skip(list) => removed := list.Remove(member);
      case BPlus(tree) => removed := tree.Remove(member);
    }

    method GetMemberScore(member: Bytes) returns (score: Score, found: bool)
      requires Valid()
      ensures Valid() && found == (member in Scores()) && score == if found then Scores()[member] else Finite(0.0)
    {
      match index
      case Skip(list) => score, found := list.GetMemberScore(member);
      case BPlus(tree) => score, found := tree.GetMemberScore(member);
    }

    method GetRank(member: Bytes) returns (rank: int, found: bool)
      requires Valid()
      ensures Valid() && found == (member in Scores()) && rank == if found then RankOf(Scores(), member) else 0
    {
      match index
      case Skip(list) => rank, found := list.GetRank(member);
      case BPlus(tree) => rank, found := tree.GetRank(member);
    }

    method GetRange(start: int, stop: int) returns (names: seq<Bytes>)
      requires Valid()
      ensures Valid() && names == RangeOf(Scores(), start, stop)
    {
      match index
      case Skip(list) => names := list.GetRange(start, stop);
      case BPlus(tree) => names := tree.GetRange(start, stop);
    }

    method Len() returns (n: int)
      requires Valid()
      ensures Valid() && n == |Scores()|
    {
      match index
      case Skip(list) => n := list.Len();
      case BPlus(tree) => n := tree.Len();
    }

    /** The footprint the store accounts for: the sum over all members, each counted once. */
    method Size() returns (total: int)
      requires Valid()
      ensures total == MembersSize(Scores().Keys)
    {
      hide BPlusTrees.BPlusTree.Valid, SkipLists.SkipList.Valid, RangeOf, Ordered;
      var n := Len();
      total := 0;
      if n == 0 {
        assert Scores().Keys == {};
        return;
      }
      var names := GetRange(0, n - 1);
      AllNames(Scores());
      for i := 0 to |names|
        invariant total == MembersSize(SetOf(names[..i]))
      {
        assert SetOf(names[..i + 1]) == SetOf(names[..i]) + {names[i]};
        assert names[i] !in names[..i];
        SumInsert(SetOf(names[..i]), MemberSize, names[i]);
        total := total + MemberSize(names[i]);
      }
      assert names[..|names|] == names;
    }

    method Ask(question: Question) returns (answer: Answer)
      requires Valid()
      ensures Scores() == old(Scores()) && answer == Asked(Scores(), question)
    {
      hide BPlusTrees.BPlusTree.Valid, SkipLists.SkipList.Valid, RangeOf, RankOf;
      match question
      case ScoreOf(member) => { var s, b := GetMemberScore(member); answer := Scored(s, b); }
      case RankIn(member) => { var r, b := GetRank(member); answer := Ranked(r, b); }
      case Between(start, stop) => { var names := GetRange(start, stop); answer := Names(names); }
    }

    /** Carry out one operation. */
    method Perform(op: Op) returns (answer: Answer)
      requires Valid()
      modifies Parts()
      ensures Valid() && (forall o :: o in Parts() ==> o in old(Parts()) || fresh(o))
      ensures (Scores(), answer) == Step(old(Scores()), op)
    {
      hide BPlusTrees.BPlusTree.Valid, SkipLists.SkipList.Valid, RangeOf, RankOf;
      match op
      case Add(member, score) => { var b := Add(member, score); answer := Flag(b); }
      case Update(member, score) => { var b := Update(member, score); answer := Flag(b); }
      case Remove(member) => { var b := Remove(member); answer := Flag(b); }
      case GetScore(member) => { var s, b := GetMemberScore(member); answer := Scored(s, b); }
      case GetRank(member) => { var r, b := GetRank(member); answer := Ranked(r, b); }
      case GetRange(start, stop) => { var names := GetRange(start, stop); answer := Names(names); }
      case Count => { var n := Len(); answer := Ranked(n, true); }
    }

    /** Carry out a whole sequence of operations. */
    method Run(ops: seq<Op>) returns (answers: seq<Answer>)
      requires Valid()
      modifies Parts()
      ensures Valid() && (Scores(), answers) == Steps(old(Scores()), ops)
    {
      answers := [];
      ghost var start := Scores();
      for i := 0 to |ops|
        invariant Valid() && (forall o :: o in Parts() ==> o in old(Parts()) || fresh(o))
        invariant (Scores(), answers) == Steps(start, ops[..i])
      {
        assert ops[..i + 1][..i] == ops[..i];
        var answer := Perform(ops[i]);
        answers := answers + [answer];
      }
      assert ops[..|ops|] == ops;
    }
  }

  /** Both indexes, driven through the same operations, give the same answers: those of a plain map. */
  method IndexesAgree(ops: seq<Op>) returns (skip: seq<Answer>, bplus: seq<Answer>)
    ensures skip == bplus == Steps(map[], ops).1
  {
    var a := new SortedSet(SkipListType);
    skip := a.Run(ops);
    var b := new SortedSet(BPlusTreeType);
    bplus := b.Run(ops);
  }
}
