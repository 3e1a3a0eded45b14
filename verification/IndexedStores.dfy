/** The store with its sorted-set objects: ZADD and ZREM work on the index that a key points at, and the
    records mirror what the indexes hold. */
module IndexedStores {
  import opened Bytes
  import opened Options
  import opened Policies
  import opened SortedItems
  import opened StoreSpec
  import opened StoreRuns
  import opened SortedSetLoops
  import opened Inheritance
  import Ops = StoreOps
  import SortedSets
  import Stores

  /** An index none of whose parts were written keeps its shape and its scores. */
  twostate lemma IndexKept(set_: SortedSets.SortedSet)
    requires old(set_.Valid()) && unchanged(old(set_.Parts()))
    ensures set_.Valid() && set_.Parts() == old(set_.Parts()) && set_.Scores() == old(set_.Scores())
  {
    assert set_.Anchor() <= old(set_.Parts());
    hide SortedSets.SortedSet.Valid, SortedSets.SortedSet.Parts, SortedSets.SortedSet.Scores, SortedSets.SortedSet.Anchor;
  }

  /** What an object set holds exists. */
  lemma Exist(objects: set<object>)
    ensures forall o :: o in objects ==> allocated(o)
  {
  }

  lemma PurgeFrom(s: State, k: Bytes, now: int)
    ensures ZSetsFrom(s.data, Ops.Purge(s, k, now).data)
  {
    hide Without;
  }

  lemma MissFrom(s: State, k: Bytes, now: int)
    ensures ZSetsFrom(s.data, Ops.Purge(s, k, now).data) && ZSetsFrom(s.data, Ops.Miss(Ops.Purge(s, k, now)).data)
  {
    PurgeFrom(s, k, now);
    hide Ops.Purge;
  }

  lemma TouchFrom(s: State, k: Bytes)
    ensures ZSetsFrom(s.data, Touch(s, k).data)
  {
    hide Front;
  }

  /** Every sorted set of `now` is the given one at `k`, or was there before with the same scores. */
  ghost predicate ZSetsBut(old_: Data, k: Bytes, scores: map<Bytes, Score>, now: Data) {
    forall j :: j in now && now[j].value.ZSetV? ==>
      if j == k then now[j].value.scores == scores else j in old_ && now[j].value == old_[j].value
  }

  lemma SettledZSets(lim: Limits, exact: bool, m: State, t: State, old_: Data, k: Bytes, scores: map<Bytes, Score>)
    requires Settled(lim, exact, m, t) && ZSetsBut(old_, k, scores, m.data)
    ensures ZSetsBut(old_, k, scores, t.data)
  {
    SettledInherits(lim, exact, m, t);
    hide Consistent, Over, Fit, Restrict, EvictsInTurn;
  }

  lemma PutZSetsBut(s: State, k: Bytes, record: Record, now: int)
    requires record.value.ZSetV?
    ensures ZSetsBut(s.data, k, record.value.scores, Ops.Store(s, k, record, now).data)
    ensures ZSetsBut(s.data, k, record.value.scores, Overwrite(s, k, record).data)
    ensures ZSetsBut(s.data, k, record.value.scores, DropEmptied(s, k).data)
  {
    hide Front, Without;
  }

  /** Every sorted set of the records mirrors its index. */
  ghost predicate Mirrors(data: Data, contents: map<Bytes, map<Bytes, Score>>) {
    forall k :: k in data && data[k].value.ZSetV? ==> k in contents && contents[k] == data[k].value.scores
  }

  lemma MirrorKept(before: Data, contents: map<Bytes, map<Bytes, Score>>, now: Data)
    requires Mirrors(before, contents) && ZSetsFrom(before, now)
    ensures Mirrors(now, contents)
  {
  }

  lemma MirrorBut(before: Data, contents: map<Bytes, map<Bytes, Score>>, now: Data, k: Bytes, scores: map<Bytes, Score>)
    requires Mirrors(before, contents) && ZSetsBut(before, k, scores, now)
    ensures Mirrors(now, contents[k := scores])
  {
  }

  /** What ZADD leaves to the eviction run. */
  lemma ZAddData(s: State, k: Bytes, members: map<Bytes, Score>, now: int)
    ensures var t := Ops.ZAdd(s, k, members, now).0;
      if !Ops.Live(s, k, now) then ZSetsBut(s.data, k, members, t.data)
      else if s.data[k].value.ZSetV? then ZSetsBut(s.data, k, s.data[k].value.scores + members, t.data)
      else t == s
  {
    hide Ops.Store, Overwrite, ZSetsBut;
    PutZSetsBut(s, k, Record(ZSetV(members), None), now);
    if Ops.Live(s, k, now) && s.data[k].value.ZSetV? {
      PutZSetsBut(s, k, s.data[k].(value := ZSetV(s.data[k].value.scores + members)), now);
    }
  }

  lemma ZRemData(s: State, k: Bytes, members: seq<Bytes>, now: int)
    requires Ops.Live(s, k, now) && s.data[k].value.ZSetV?
    ensures var old_ := s.data[k].value.scores;
      ZSetsBut(s.data, k, old_ - SortedSets.SetOf(members) * old_.Keys, Ops.ZRem(s, k, members, now).0.data)
  {
    hide Overwrite, DropEmptied, ZSetsBut, SortedSets.SetOf;
    var old_ := s.data[k].value.scores;
    PutZSetsBut(s, k, s.data[k].(value := ZSetV(old_ - SortedSets.SetOf(members) * old_.Keys)), now);
  }

  lemma OntoNothing(members: map<Bytes, Score>)
    ensures var none: map<Bytes, Score> := map[];
      none + members == members && members.Keys - none.Keys == members.Keys && |members.Keys| == |members|
  {
  }

  /** The answers about a set that is not there. */
  function NothingAsked(question: SortedSets.Question): (answer: SortedSets.Answer) {
    match question
    case ScoreOf(_) => SortedSets.Scored(Finite(0.0), false)
    case RankIn(_) => SortedSets.Ranked(0, false)
    case Between(_, _) => SortedSets.Names([])
  }

  lemma NothingIsAsked(question: SortedSets.Question)
    ensures SortedSets.Asked(map[], question) == NothingAsked(question)
  {
    match question
    case Between(start, stop) => RangeIs(map[], start, stop);
    case _ =>
  }

  class IndexedStore {
    const store: Stores.Store
    var sortedSetType: SortedSets.SortedSetType
    var sets: map<Bytes, SortedSets.SortedSet>

    ghost function Anchors(): set<object>
      reads this
    {
      set k, o | k in sets && o in sets[k].Anchor() :: o
    }

    /** What belongs to the indexes. */
    ghost function Footprint(): set<object>
      reads this, Anchors()
    {
      set k, o | k in sets && o in sets[k].Parts() :: o
    }

    /** What the indexes hold. */
    ghost function Contents(): map<Bytes, map<Bytes, Score>>
      reads this, Anchors()
    {
      map k | k in sets :: sets[k].Scores()
    }

    /** Every index is sound, shares nothing with another, and nothing with the store. */
    ghost predicate Owned()
      reads this, Anchors(), Footprint()
    {
      && (forall k :: k in sets ==> sets[k].Valid())
      && (forall k :: k in sets ==> this !in sets[k].Parts() && store !in sets[k].Parts() && store.policy !in sets[k].Parts())
      && (forall k, j :: k in sets && j in sets && k != j ==> sets[k].Parts() !! sets[j].Parts())
    }

    ghost predicate Valid()
      reads this, store, store.policy, Anchors(), Footprint()
    {
      store.Valid() && Owned() && Mirrors(store.data, Contents())
    }

    lemma ValidIs()
      ensures Valid() <==> store.Valid() && Owned() && Mirrors(store.State().data, Contents())
    {
    }

    lemma LiveIs(key: Bytes, now: int)
      ensures store.IsLive(key, now) <==> Ops.Live(store.State(), key, now)
      ensures store.IsLive(key, now) ==> key in store.data
      ensures store.State().data == store.data
    {
    }

    constructor (store: Stores.Store)
      requires store.Valid() && store.data == map[]
      ensures Valid() && this.store == store && sets == map[] && Footprint() == {}
    {
      this.store, sortedSetType, sets := store, SortedSets.SkipListType, map[];
    }

    method SetSortedSetType(t: SortedSets.SortedSetType)
      requires Valid()
      modifies this
      ensures Valid() && sortedSetType == t && sets == old(sets)
      ensures Footprint() == old(Footprint())
    {
      hide *;
      ValidIs();
      Separate();
      ghost var parts := Footprint();
      label Before:
      sortedSetType := t;
      IndexesKept@Before(parts);
      ValidIs();
    }

    // ----- the indexes -----

    /** The indexes exist, apart from the store and from this object. */
    lemma Separate()
      requires Owned()
      ensures forall o :: o in Footprint() ==> allocated(o) && o != store && o != store.policy && o != this
    {
      Exist(Footprint());
    }

    lemma AnchorsInside()
      ensures Anchors() <= Footprint()
    {
      forall o | o in Anchors() ensures o in Footprint() {
        var k :| k in sets && o in sets[k].Anchor();
        assert o in sets[k].Parts();
      }
    }

    /** A live sorted set has its index, which holds its scores. */
    lemma MirroredAt(key: Bytes, now: int)
      requires Valid() && store.IsLive(key, now) && store.data[key].value.ZSetV?
      ensures key in sets && sets[key].Valid() && sets[key].Scores() == store.data[key].value.scores
      ensures store.State().data == store.data && Ops.Live(store.State(), key, now)
      ensures sets[key].Parts() <= Footprint()
    {
    }

    /** Indexes none of whose parts were written stay as they were. */
    twostate lemma IndexesKept(parts: set<object>)
      requires old(Owned()) && sets == old(sets) && old(Footprint()) <= parts && unchanged(parts)
      ensures Owned() && Contents() == old(Contents())
      ensures Footprint() == old(Footprint())
    {
      forall k | k in sets
        ensures sets[k].Valid() && sets[k].Parts() == old(sets[k].Parts()) && sets[k].Scores() == old(sets[k].Scores())
      {
        assert old(sets[k].Parts()) <= parts;
        IndexKept(sets[k]);
      }
      hide SortedSets.SortedSet.Valid, SortedSets.SortedSet.Parts, SortedSets.SortedSet.Scores;
    }

    /** Indexes other than one, none of whose parts were written, stay as they were. */
    twostate lemma RestKept(key: Bytes)
      requires old(Owned()) && sets == old(sets) && key in sets
      requires forall k, o :: k in sets && k != key && o in old(sets[k].Parts()) ==> old(allocated(o)) && unchanged(o)
      ensures forall k :: k in sets && k != key ==>
        sets[k].Valid() && sets[k].Parts() == old(sets[k].Parts()) && sets[k].Scores() == old(sets[k].Scores())
    {
      forall k | k in sets && k != key
        ensures sets[k].Valid() && sets[k].Parts() == old(sets[k].Parts()) && sets[k].Scores() == old(sets[k].Scores())
      {
        IndexKept(sets[k]);
      }
      hide *;
    }

    /** Everything that exists in an index. */
    lemma PartsExist()
      requires Owned()
      ensures forall k, o :: k in sets && o in sets[k].Parts() ==> allocated(o) && o != store && o != store.policy && o != this
    {
      forall k | k in sets ensures forall o :: o in sets[k].Parts() ==> allocated(o) {
        Exist(sets[k].Parts());
      }
    }

    /** One index changed within itself or by new parts; so it is still apart from the others. */
    twostate lemma StillApart(key: Bytes)
      requires old(Owned()) && sets == old(sets) && key in sets
      requires sets[key].Valid() && forall o :: o in sets[key].Parts() ==> o in old(sets[key].Parts()) || fresh(o)
      requires forall k :: k in sets && k != key ==>
        sets[k].Valid() && sets[k].Parts() == old(sets[k].Parts()) && sets[k].Scores() == old(sets[k].Scores())
      requires forall k, o :: k in sets && o in old(sets[k].Parts()) ==> old(allocated(o))
      ensures Owned() && Contents() == old(Contents())[key := sets[key].Scores()]
      ensures forall o :: o in Footprint() ==> o in old(Footprint()) || fresh(o)
    {
      hide SortedSets.SortedSet.Valid, SortedSets.SortedSet.Parts, SortedSets.SortedSet.Scores, SortedSets.SortedSet.Anchor;
    }

    /** Add members to the index of one key; the other indexes stay as they were. */
    method GrowIndex(key: Bytes, members: map<Bytes, Score>) returns (added: int, memory: int)
      requires Owned() && key in sets
      modifies sets[key].Parts()
      ensures Owned() && Contents() == old(Contents())[key := old(sets[key].Scores()) + members]
      ensures added == |members.Keys - old(sets[key].Scores()).Keys|
      ensures ValueSize(ZSetV(old(sets[key].Scores()) + members)) == ValueSize(ZSetV(old(sets[key].Scores()))) + memory
      ensures forall o :: o in Footprint() ==> o in old(Footprint()) || fresh(o)
    {
      hide SortedSets.SortedSet.Valid, SortedSets.SortedSet.Parts, SortedSets.SortedSet.Scores, ValueSize, Contents;
      PartsExist();
      label Before:
      added, memory := AddAll(sets[key], members);
      RestKept@Before(key);
      StillApart@Before(key);
    }

    /** Remove members from the index of one key. */
    method ShrinkIndex(key: Bytes, members: seq<Bytes>) returns (removed: nat, memory: int, ghost gone: set<Bytes>)
      requires Owned() && key in sets
      modifies sets[key].Parts()
      ensures Owned() && Contents() == old(Contents())[key := old(sets[key].Scores()) - gone]
      ensures gone == SortedSets.SetOf(members) * old(sets[key].Scores()).Keys && removed == |gone|
      ensures ValueSize(ZSetV(old(sets[key].Scores()) - gone)) == ValueSize(ZSetV(old(sets[key].Scores()))) + memory && memory <= 0
      ensures forall o :: o in Footprint() ==> o in old(Footprint()) || fresh(o)
    {
      hide SortedSets.SortedSet.Valid, SortedSets.SortedSet.Parts, SortedSets.SortedSet.Scores, SortedSets.SetOf, Contents;
      hide SortedSets.MembersSize;
      PartsExist();
      gone := SortedSets.SetOf(members) * sets[key].Scores().Keys;
      label Before:
      removed, memory := RemoveAll(sets[key], members);
      RestKept@Before(key);
      StillApart@Before(key);
    }

    /** A new index of the configured kind. */
    method NewIndex(key: Bytes)
      requires Owned()
      modifies this
      ensures Owned() && sortedSetType == old(sortedSetType) && key in sets && fresh(sets[key].Parts())
      ensures sets[key].Scores() == map[] && Contents() == old(Contents())[key := map[]]
      ensures forall o :: o in Footprint() ==> o in old(Footprint()) || fresh(o)
    {
      hide *;
      PartsExist();
      label Before:
      var set_ := new SortedSets.SortedSet(sortedSetType);
      label Made:
      sets := sets[key := set_];
      IndexKept@Made(set_);
      OldKept@Before();
      IndexAdded@Before(key, set_);
    }

    /** Indexes that were there, and were not written, are as they were. */
    twostate lemma OldKept()
      requires old(Owned())
      requires forall k, o :: k in old(sets) && o in old(sets[k].Parts()) ==> old(allocated(o)) && unchanged(o)
      ensures forall k :: k in old(sets) ==>
        old(sets)[k].Valid() && old(sets)[k].Parts() == old(sets[k].Parts()) && old(sets)[k].Scores() == old(sets[k].Scores())
    {
      forall k | k in old(sets)
        ensures old(sets)[k].Valid() && old(sets)[k].Parts() == old(sets[k].Parts()) && old(sets)[k].Scores() == old(sets[k].Scores())
      {
        IndexKept(old(sets)[k]);
      }
      hide *;
    }

    /** A new index is apart from all that were there. */
    twostate lemma IndexAdded(key: Bytes, new set_: SortedSets.SortedSet)
      requires old(Owned()) && sets == old(sets)[key := set_] && set_.Valid() && fresh(set_.Parts())
      requires forall k :: k in old(sets) ==>
        old(sets)[k].Valid() && old(sets)[k].Parts() == old(sets[k].Parts()) && old(sets)[k].Scores() == old(sets[k].Scores())
      requires forall k, o :: k in old(sets) && o in old(sets[k].Parts()) ==> old(allocated(o))
      ensures Owned() && Contents() == old(Contents())[key := set_.Scores()]
      ensures forall o :: o in Footprint() ==> o in old(Footprint()) || fresh(o)
    {
      hide SortedSets.SortedSet.Valid, SortedSets.SortedSet.Parts, SortedSets.SortedSet.Scores, SortedSets.SortedSet.Anchor;
    }

    /** A new index with these members. */
    method MakeIndex(key: Bytes, members: map<Bytes, Score>) returns (added: int)
      requires Owned()
      modifies this
      ensures Owned() && sortedSetType == old(sortedSetType)
      ensures Contents() == old(Contents())[key := members] && added == |members|
      ensures forall o :: o in Footprint() ==> o in old(Footprint()) || fresh(o)
    {
      hide *;
      NewIndex(key);
      var memory: int;
      added, memory := GrowIndex(key, members);
      OntoNothing(members);
    }

    // ----- commands -----

    /** A command on anything but a sorted set. */
    method PerformPlain(op: Op, now: int) returns (answer: Ops.Answer)
      requires Valid() && !OnSortedSets(op)
      modifies store, store.policy
      ensures Valid() && sets == old(sets)
      ensures Step(ConfigOf(store), old(store.State()), op, now, store.State(), answer)
      ensures Footprint() == old(Footprint())
    {
      hide *;
      ValidIs();
      Separate();
      StoreFacts(store);
      ghost var s, parts := store.State(), Footprint();
      label Before:
      answer := StoreRuns.Perform(store, op, now);
      IndexesKept@Before(parts);
      StepZSets(ConfigOf(store), s, op, now, store.State(), answer);
      MirrorKept(s.data, Contents(), store.State().data);
      ValidIs();
    }

    /** ZADD on an absent or expired key: a new index, then a record for it. */
    method ZAddNew(key: Bytes, members: map<Bytes, Score>, now: int) returns (n: int)
      requires Valid() && !store.IsLive(key, now)
      modifies this, store, store.policy
      ensures Valid() && n == |members|
      ensures Settled(store.Lim(), store.Exact(), Ops.ZAdd(old(store.State()), key, members, now).0, store.State())
      ensures forall o :: o in Footprint() ==> o in old(Footprint()) || fresh(o)
    {
      hide *;
      ghost var s, was := store.State(), Contents();
      ValidIs();
      LiveIs(key, now);
      n := MakeIndex(key, members);
      Separate();
      ghost var parts := Footprint();
      label Indexed:
      store.RecordNewZSet(key, members, now);
      IndexesKept@Indexed(parts);
      ZAddData(s, key, members, now);
      SettledZSets(store.Lim(), store.Exact(), Ops.ZAdd(s, key, members, now).0, store.State(), s.data, key, members);
      MirrorBut(s.data, was, store.State().data, key, members);
      ValidIs();
    }

    /** ZADD on a live sorted set: its index grows, and its record with it. */
    method ZAddLive(key: Bytes, members: map<Bytes, Score>, now: int) returns (n: int)
      requires Valid() && store.IsLive(key, now) && store.data[key].value.ZSetV?
      modifies store, store.policy, Footprint()
      ensures Valid() && n == |members.Keys - old(store.data)[key].value.scores.Keys|
      ensures Settled(store.Lim(), store.Exact(), Ops.ZAdd(old(store.State()), key, members, now).0, store.State())
      ensures forall o :: o in Footprint() ==> o in old(Footprint()) || fresh(o)
    {
      hide *;
      ghost var s, was := store.State(), Contents();
      ValidIs();
      Separate();
      MirroredAt(key, now);
      var memory: int;
      n, memory := GrowIndex(key, members);
      Separate();
      ghost var parts := Footprint();
      label Indexed:
      store.RecordGrownZSet(key, members, memory, now);
      IndexesKept@Indexed(parts);
      ZAddData(s, key, members, now);
      SettledZSets(store.Lim(), store.Exact(), Ops.ZAdd(s, key, members, now).0, store.State(), s.data, key,
                   s.data[key].value.scores + members);
      MirrorBut(s.data, was, store.State().data, key, s.data[key].value.scores + members);
      ValidIs();
    }

    /** ZREM on a live sorted set: its index shrinks, and its record with it. */
    method ZRemLive(key: Bytes, members: seq<Bytes>, now: int) returns (n: nat)
      requires Valid() && store.IsLive(key, now) && store.data[key].value.ZSetV?
      modifies store, store.policy, Footprint()
      ensures Valid() && n == |SortedSets.SetOf(members) * old(store.data)[key].value.scores.Keys|
      ensures store.State() == Ops.ZRem(old(store.State()), key, members, now).0
      ensures forall o :: o in Footprint() ==> o in old(Footprint()) || fresh(o)
    {
      hide *;
      ghost var s, was := store.State(), Contents();
      ValidIs();
      Separate();
      MirroredAt(key, now);
      ghost var gone;
      var memory: int;
      n, memory, gone := ShrinkIndex(key, members);
      Separate();
      ghost var parts := Footprint();
      label Indexed:
      store.RecordShrunkZSet(key, members, memory, now);
      IndexesKept@Indexed(parts);
      ZRemData(s, key, members, now);
      MirrorBut(s.data, was, store.State().data, key, s.data[key].value.scores - gone);
      ValidIs();
    }

    method ZAdd(key: Bytes, members: map<Bytes, Score>, now: int) returns (answer: Ops.Answer)
      requires Valid()
      modifies this, store, store.policy, Footprint()
      ensures Valid()
      ensures Settled(store.Lim(), store.Exact(), Ops.ZAdd(old(store.State()), key, members, now).0, store.State())
      ensures answer == Ops.ZAdd(old(store.State()), key, members, now).1
      ensures forall o :: o in Footprint() ==> o in old(Footprint()) || fresh(o)
    {
      hide Valid, Footprint, Contents, Stores.Store.Valid, Stores.Store.State, Settled, Ops.Store, Overwrite;
      ValidIs();
      LiveIs(key, now);
      if !store.IsLive(key, now) {
        var n := ZAddNew(key, members, now);
        return Ops.Number(n);
      }
      if !store.data[key].value.ZSetV? {
        store.SettledHere();
        return Ops.WrongType;
      }
      var n := ZAddLive(key, members, now);
      answer := Ops.Number(n);
    }

    /** A change to the store that only touches or purges leaves the mirror. */
    twostate lemma StoreMoved(parts: set<object>)
      requires old(Valid()) && sets == old(sets) && old(Footprint()) <= parts && unchanged(parts) && store.Valid()
      requires ZSetsFrom(old(store.State()).data, store.State().data)
      ensures Valid()
      ensures Footprint() == old(Footprint())
    {
      IndexesKept(parts);
      MirrorKept(old(store.State()).data, Contents(), store.State().data);
      hide Contents, Footprint, Owned, Stores.Store.Valid, ZSetsFrom, Mirrors;
    }

    method ZRem(key: Bytes, members: seq<Bytes>, now: int) returns (answer: Ops.Answer)
      requires Valid()
      modifies store, store.policy, Footprint()
      ensures Valid() && (store.State(), answer) == Ops.ZRem(old(store.State()), key, members, now)
      ensures forall o :: o in Footprint() ==> o in old(Footprint()) || fresh(o)
    {
      hide Valid, Footprint, Contents, Owned, Stores.Store.Valid, Stores.Store.State, Ops.Purge, Overwrite, DropEmptied, SortedSets.SetOf;
      ValidIs();
      LiveIs(key, now);
      Separate();
      ghost var parts := Footprint();
      if !store.IsLive(key, now) {
        PurgeFrom(store.State(), key, now);
        PurgeExpired(key, now);
        StoreMoved(parts);
        return Ops.Number(0);
      }
      if !store.data[key].value.ZSetV? {
        return Ops.WrongType;
      }
      var n := ZRemLive(key, members, now);
      answer := Ops.Number(n);
    }

    method PurgeExpired(key: Bytes, now: int)
      requires store.Valid()
      modifies store, store.policy
      ensures store.Valid() && store.State() == Ops.Purge(old(store.State()), key, now)
    {
      store.DeleteIfExpired(key, now);
    }

    method TouchKey(key: Bytes)
      requires store.Valid() && key in store.data
      modifies store.policy
      ensures store.Valid() && store.State() == Touch(old(store.State()), key)
    {
      store.NotifyAccess(key);
    }

    /** ZSCORE, ZRANK and ZRANGE: the index answers. */
    method ZAsk(key: Bytes, question: SortedSets.Question, now: int) returns (answer: Ops.Answer)
      requires Valid()
      modifies store, store.policy
      ensures Valid() && sets == old(sets)
      ensures (store.State(), answer) == Ops.ZAsk(old(store.State()), key, question, now)
      ensures Footprint() == old(Footprint())
    {
      hide Valid, Footprint, Contents, Owned, Stores.Store.Valid, Stores.Store.State, Touch, SortedSets.Asked;
      hide SortedSets.SortedSet.Valid, SortedSets.SortedSet.Scores;
      ValidIs();
      LiveIs(key, now);
      Separate();
      ghost var parts := Footprint();
      if !store.IsLive(key, now) {
        NothingIsAsked(question);
        return Ops.Sorted(NothingAsked(question));
      }
      if !store.data[key].value.ZSetV? {
        return Ops.WrongType;
      }
      MirroredAt(key, now);
      ghost var s := store.State();
      var found := sets[key].Ask(question);
      TouchFrom(s, key);
      TouchKey(key);
      StoreMoved(parts);
      answer := Ops.Sorted(found);
    }

    method PerformOnSortedSet(op: Op, now: int) returns (answer: Ops.Answer)
      requires Valid() && OnSortedSets(op)
      modifies this, store, store.policy, Footprint()
      ensures Valid() && Step(ConfigOf(store), old(store.State()), op, now, store.State(), answer)
      ensures forall o :: o in Footprint() ==> o in old(Footprint()) || fresh(o)
    {
      assert op.ZAdd? || op.ZAsk? || op.ZRem?;
      hide *;
      ValidIs();
      StoreFacts(store);
      ghost var s := store.State();
      match op {
        case ZAdd(k, scores) => answer := ZAdd(k, scores, now);
        case ZAsk(k, question) => answer := ZAsk(k, question, now);
        case ZRem(k, members) => answer := ZRem(k, members, now);
      }
      ValidIs();
      StoreFacts(store);
      SortedSetSteps(ConfigOf(store), s, op, now, store.State(), answer);
    }

    /** Every command is one step of the run machine. */
    method Perform(op: Op, now: int) returns (answer: Ops.Answer)
      requires Valid()
      modifies this, store, store.policy, Footprint()
      ensures Valid() && Step(ConfigOf(store), old(store.State()), op, now, store.State(), answer)
      ensures forall o :: o in Footprint() ==> o in old(Footprint()) || fresh(o)
    {
      hide *;
      if OnSortedSets(op) {
        answer := PerformOnSortedSet(op, now);
      } else {
        answer := PerformPlain(op, now);
      }
    }

    /** The upgrade to the write lock: drop the key if its time is over by now. */
    method ComeBack(key: Bytes, missed: bool, now: int)
      requires Valid()
      modifies store, store.policy
      ensures Valid() && sets == old(sets)
      ensures var t := Ops.Purge(old(store.State()), key, now); store.State() == if missed then Ops.Miss(t) else t
      ensures Footprint() == old(Footprint())
    {
      hide *;
      ValidIs();
      Separate();
      ghost var s, parts := store.State(), Footprint();
      label Before:
      PurgeExpired(key, now);
      if missed {
        store.CountMiss();
      }
      MissFrom(s, key, now);
      StoreMoved@Before(parts);
    }
  }
}
