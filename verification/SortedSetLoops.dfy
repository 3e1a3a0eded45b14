/** The loops of ZADD and ZREM on the index object itself, with the memory they account for. */
module SortedSetLoops {
  import opened Bytes
  import opened SortedItems
  import opened SortedSets
  import opened StoreSpec
  import opened FiniteSums

  lemma MembersSizeInsert(keys: set<Bytes>, k: Bytes)
    requires k !in keys
    ensures MembersSize(keys + {k}) == MembersSize(keys) + MemberSize(k)
  {
    SumInsert(keys, MemberSize, k);
  }

  lemma MembersSizeRemove(keys: set<Bytes>, k: Bytes)
    requires k in keys
    ensures MembersSize(keys - {k}) == MembersSize(keys) - MemberSize(k)
  {
    SumSplit(keys, MemberSize, k);
  }

  lemma ScorePut(m: map<Bytes, Score>, k: Bytes, v: Score)
    ensures var put := m[k := v];
      && |put.Keys| == |m.Keys| + (if k in m then 0 else 1)
      && MembersSize(put.Keys)
         == MembersSize(m.Keys) + if k in m then 0 else MemberSize(k)
  {
    hide MembersSize;
    assert m[k := v].Keys == m.Keys + {k};
    if k in m {
      assert m.Keys + {k} == m.Keys;
    } else {
      MembersSizeInsert(m.Keys, k);
    }
  }

  /** The part of a score map on some keys. */
  ghost function Part(m: map<Bytes, Score>, keys: set<Bytes>): map<Bytes, Score> {
    map k | k in m && k in keys :: m[k]
  }

  lemma PartEnds(base: map<Bytes, Score>, m: map<Bytes, Score>)
    ensures base + Part(m, {}) == base && Part(m, m.Keys) == m
    ensures (base + m).Keys == base.Keys + m.Keys
  {
  }

  lemma PartStep(base: map<Bytes, Score>, m: map<Bytes, Score>, keys: set<Bytes>, k: Bytes)
    requires k in m
    ensures var now := base + Part(m, keys);
      && base + Part(m, keys + {k}) == now[k := m[k]] && (now[k := m[k]]).Keys == now.Keys + {k}
  {
  }

  /** The loop of ZADD: the members done so far, the new ones among them, and the memory they take. */
  ghost predicate Adding(base: map<Bytes, Score>, m: map<Bytes, Score>, done: set<Bytes>, now: map<Bytes, Score>, added: int, memory: int) {
    && now == base + Part(m, done) && added == |now.Keys| - |base.Keys|
    && memory == MembersSize(now.Keys) - MembersSize(base.Keys)
  }

  lemma AddingStarts(base: map<Bytes, Score>, m: map<Bytes, Score>)
    ensures Adding(base, m, {}, base, 0, 0)
  {
    PartEnds(base, m);
  }

  lemma AddingStep(base: map<Bytes, Score>, m: map<Bytes, Score>, done: set<Bytes>, now: map<Bytes, Score>, added: int, memory: int, k: Bytes)
    requires Adding(base, m, done, now, added, memory) && k in m
    ensures Adding(base, m, done + {k}, now[k := m[k]], if k in now then added else added + 1,
                   if k in now then memory else memory + MemberSize(k))
  {
    PartStep(base, m, done, k);
    ScorePut(now, k, m[k]);
  }

  lemma AddingEnds(base: map<Bytes, Score>, m: map<Bytes, Score>, now: map<Bytes, Score>, added: int, memory: int)
    requires Adding(base, m, m.Keys, now, added, memory)
    ensures now == base + m && added == |m.Keys - base.Keys|
    ensures memory == MembersSize(now.Keys) - MembersSize(base.Keys)
  {
    PartEnds(base, m);
    NewOnes(base.Keys, m.Keys);
  }

  lemma AddingToSet(base: map<Bytes, Score>, m: map<Bytes, Score>, now: map<Bytes, Score>, added: int, memory: int)
    requires Adding(base, m, m.Keys, now, added, memory)
    ensures ZSetV(now) == ZSetV(base + m) && added == |m.Keys - base.Keys|
    ensures ValueSize(ZSetV(now)) == ValueSize(ZSetV(base)) + memory
  {
    AddingEnds(base, m, now, added, memory);
  }

  lemma MinusNothing(m: map<Bytes, Score>)
    ensures m - {} == m
  {
  }

  lemma MinusStep(m: map<Bytes, Score>, keys: set<Bytes>, k: Bytes)
    ensures m - (keys + {k}) == (m - keys) - {k} && (m - keys - {k}).Keys == (m - keys).Keys - {k}
    ensures k !in m - keys ==> m - (keys + {k}) == m - keys
  {
  }

  lemma MinusCommon(m: map<Bytes, Score>, keys: set<Bytes>)
    ensures m - keys == m - keys * m.Keys && (m - keys).Keys == m.Keys - keys
  {
  }

  /** One round of the ZADD loop. */
  method AddOne(set_: SortedSet, member: Bytes, score: Score, count: int, size: int,
                ghost base: map<Bytes, Score>, ghost members: map<Bytes, Score>, ghost done: set<Bytes>)
    returns (added: int, memory: int)
    requires set_.Valid() && member in members && members[member] == score
    requires Adding(base, members, done, set_.Scores(), count, size)
    modifies set_.Parts()
    ensures set_.Valid() && forall o :: o in set_.Parts() ==> o in old(set_.Parts()) || fresh(o)
    ensures Adding(base, members, done + {member}, set_.Scores(), added, memory)
  {
    hide MembersSize, Part, Adding, SortedSet.Valid, SortedSet.Parts, SortedSet.Scores;
    AddingStep(base, members, done, set_.Scores(), count, size, member);
    var isNew := set_.Add(member, score);
    added, memory := if isNew then count + 1 else count, if isNew then size + MemberSize(member) else size;
  }

  /** Add or re-score every member of a map, in any order: only new members count and take memory,
      and the footprint of the set grows by exactly that. */
  method AddAll(set_: SortedSet, members: map<Bytes, Score>) returns (added: int, memory: int)
    requires set_.Valid()
    modifies set_.Parts()
    ensures set_.Valid() && forall o :: o in set_.Parts() ==> o in old(set_.Parts()) || fresh(o)
    ensures ZSetV(set_.Scores()) == ZSetV(old(set_.Scores()) + members)
    ensures added == |members.Keys - old(set_.Scores()).Keys|
    ensures ValueSize(ZSetV(set_.Scores())) == ValueSize(ZSetV(old(set_.Scores()))) + memory
  {
    hide ValueSize, Adding, SortedSet.Valid, SortedSet.Parts, SortedSet.Scores;
    ghost var base := set_.Scores();
    added, memory := 0, 0;
    var rest := members.Keys;
    ghost var done: set<Bytes> := {};
    AddingStarts(base, members);
    while rest != {}
      invariant set_.Valid() && (forall o :: o in set_.Parts() ==> o in old(set_.Parts()) || fresh(o))
      invariant done !! rest && done + rest == members.Keys
      invariant Adding(base, members, done, set_.Scores(), added, memory)
      decreases rest
    {
      var member :| member in rest;
      added, memory := AddOne(set_, member, members[member], added, memory, base, members, done);
      rest, done := rest - {member}, done + {member};
    }
    assert done == members.Keys;
    AddingToSet(base, members, set_.Scores(), added, memory);
  }

  /** Remove listed members: those that were there count once, and free exactly their memory. */
  method RemoveAll(set_: SortedSet, members: seq<Bytes>) returns (removed: nat, memory: int)
    requires set_.Valid()
    modifies set_.Parts()
    ensures set_.Valid() && forall o :: o in set_.Parts() ==> o in old(set_.Parts()) || fresh(o)
    ensures var gone := SetOf(members) * old(set_.Scores()).Keys;
      set_.Scores() == old(set_.Scores()) - gone && removed == |gone|
    ensures MembersSize(set_.Scores().Keys) == MembersSize(old(set_.Scores()).Keys) + memory && memory <= 0
  {
    hide MembersSize, SetOf, SortedSet.Valid, SortedSet.Parts, SortedSet.Scores;
    ghost var base := set_.Scores();
    removed, memory := 0, 0;
    NamesStart(members);
    MinusNothing(base);
    for i := 0 to |members|
      invariant set_.Valid() && (forall o :: o in set_.Parts() ==> o in old(set_.Parts()) || fresh(o))
      invariant set_.Scores() == base - SetOf(members[..i]) && removed == |base.Keys| - |set_.Scores().Keys|
      invariant MembersSize(set_.Scores().Keys) == MembersSize(base.Keys) + memory && memory <= 0
    {
      NamesStep(members, i);
      MinusStep(base, SetOf(members[..i]), members[i]);
      if members[i] in set_.Scores() {
        MembersSizeRemove(set_.Scores().Keys, members[i]);
      }
      var gone := set_.Remove(members[i]);
      if gone {
        removed, memory := removed + 1, memory - MemberSize(members[i]);
      }
    }
    GoneOnes(base.Keys, SetOf(members));
    MinusCommon(base, SetOf(members));
  }
}
