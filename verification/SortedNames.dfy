/** Go's `sort.Strings` on the members of a set. */
module SortedNames {
  import opened Bytes
  import opened SortedItems

  predicate Ascend(names: seq<Bytes>) {
    forall i, j :: 0 <= i < j < |names| ==> BytesLess(names[i], names[j])
  }

  /** Members in ascending order: the order of a sorted set whose scores are all equal. */
  ghost function NamesOf(members: set<Bytes>): seq<Bytes> {
    MembersOf(Ordered(Level(members)))
  }

  ghost function Level(members: set<Bytes>): map<Bytes, Score> {
    map m | m in members :: Finite(0.0)
  }

  lemma LevelItems(members: set<Bytes>, x: Item)
    ensures x in ItemsOf(Level(members)) <==> x.score == Finite(0.0) && x.member in members
  {
    if x.score == Finite(0.0) && x.member in members {
      assert x.member in Level(members) && x == Item(Level(members)[x.member], x.member);
    }
  }

  /** The ascending list of a set is unique. */
  lemma NamesAre(members: set<Bytes>, names: seq<Bytes>)
    requires Ascend(names) && (set x | x in names) == members
    ensures NamesOf(members) == names
  {
    var level := Level(members);
    var items := seq(|names|, i requires 0 <= i < |names| => Item(Finite(0.0), names[i]));
    forall x ensures x in Elems(items) <==> x in ItemsOf(level) {
      LevelItems(members, x);
      if x in ItemsOf(level) {
        assert x.member in names;
        var i :| 0 <= i < |names| && names[i] == x.member;
        assert items[i] == x;
      }
    }
    OrderedIs(level, items);
    hide Ordered;
    assert MembersOf(items) == names;
  }

  /** And it has the members, each once, in order. */
  lemma NamesAscend(members: set<Bytes>)
    ensures Ascend(NamesOf(members)) && (set x | x in NamesOf(members)) == members
  {
    var level := Level(members);
    var items, names := Ordered(level), NamesOf(members);
    OrderedElems(level);
    hide Ordered, Less;
    assert forall i :: 0 <= i < |items| ==> items[i] in Elems(items);
    forall i, j | 0 <= i < j < |names| ensures BytesLess(names[i], names[j]) {
      LevelItems(members, items[i]);
      LevelItems(members, items[j]);
      SameScore(items[i], items[j]);
    }
    forall k ensures k in names <==> k in members {
      LevelItems(members, Item(Finite(0.0), k));
      if k in names {
        var i :| 0 <= i < |names| && names[i] == k;
        LevelItems(members, items[i]);
      }
      if k in members {
        assert Item(Finite(0.0), k) in Elems(items);
        var i :| 0 <= i < |items| && items[i] == Item(Finite(0.0), k);
        assert names[i] == k;
      }
    }
  }

  lemma SameScore(a: Item, b: Item)
    requires a.score == b.score
    ensures Less(a, b) <==> BytesLess(a.member, b.member)
  {
  }

  /** Put a name into its place. */
  method InsertName(names: seq<Bytes>, name: Bytes) returns (more: seq<Bytes>)
    requires Ascend(names) && name !in names
    ensures Ascend(more) && (set x | x in more) == (set x | x in names) + {name}
  {
    var i := 0;
    while i < |names| && BytesLess(names[i], name)
      invariant 0 <= i <= |names| && forall j :: 0 <= j < i ==> BytesLess(names[j], name)
    {
      i := i + 1;
    }
    more := names[..i] + [name] + names[i..];
    forall j | i <= j < |names| ensures BytesLess(name, names[j]) {
      BytesLessTotal(names[i], name);
      if i < j {
        BytesLessTransitive(name, names[i], names[j]);
      }
    }
  }

  method SortNames(members: set<Bytes>) returns (names: seq<Bytes>)
    ensures names == NamesOf(members)
  {
    names := [];
    var rest := members;
    while rest != {}
      invariant rest <= members && Ascend(names) && (set x | x in names) == members - rest
      decreases rest
    {
      var member :| member in rest;
      names := InsertName(names, member);
      rest := rest - {member};
    }
    NamesAre(members, names);
  }
}
