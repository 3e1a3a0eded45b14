/** Where the values of a store come from: which commands leave every value as it was, and that only ZADD and
    ZREM change a sorted set. */
module Inheritance {
  import opened Bytes
  import opened Options
  import opened Policies
  import opened StoreSpec
  import opened StoreRuns
  import Ops = StoreOps
  import Decimals
  import CountMin
  import BloomFilters
  import SortedSets

  /** Every value was there before, under the same key. */
  ghost predicate Inherits(old_: Data, now: Data) {
    forall k :: k in now ==> k in old_ && now[k].value == old_[k].value
  }

  lemma {:induction false} DeleteInherits(s: State, keys: seq<Bytes>)
    ensures Inherits(s.data, Ops.DeleteEach(s, keys).0.data)
    decreases |keys|
  {
    if keys != [] {
      DeleteInherits(if keys[0] in s.data then DropDeleted(s, keys[0]) else s, keys[1..]);
    }
  }

  lemma {:induction false} ExistsInherits(s: State, keys: seq<Bytes>, now: int)
    ensures Inherits(s.data, Ops.ExistsEach(s, keys, now).0.data)
    decreases |keys|
  {
    if keys != [] {
      ExistsInherits(Ops.Purge(s, keys[0], now), keys[1..], now);
    }
  }

  lemma ReadInherits(c: Config, s: State, op: Op, now: int)
    requires Consistent(s)
    requires op.Get? || op.Ttl? || op.SIsMember? || op.SMembers? || op.ZAsk? || op.CmsQuery? || op.CmsInfo?
      || op.BfExists? || op.BfInfo? || op.Sweep?
    ensures Inherits(s.data, Effect(c, s, op, now).0.data)
  {
    hide Consistent, Without, Front, WithoutAll, CountMin.Query, BloomFilters.Has;
  }

  lemma ExpireInherits(s: State, k: Bytes, ttl: int, now: int)
    ensures Inherits(s.data, Ops.Expire(s, k, ttl, now).0.data)
  {
    DeleteInherits(s, [k]);
    hide Without, Front, Ops.DeleteEach;
  }

  lemma SettledInherits(lim: Limits, exact: bool, s: State, t: State)
    requires Settled(lim, exact, s, t)
    ensures Inherits(s.data, t.data)
  {
    RestrictIsPart(s.data, t.data);
    hide Consistent, Over, Fit;
  }

  // ----- sorted sets -----

  /** Every sorted set was there before, with the same scores. */
  ghost predicate ZSetsFrom(old_: Data, now: Data) {
    forall k :: k in now && now[k].value.ZSetV? ==> k in old_ && now[k].value == old_[k].value
  }

  lemma InheritZSets(old_: Data, mid: Data, now: Data)
    requires ZSetsFrom(old_, mid) && Inherits(mid, now)
    ensures ZSetsFrom(old_, now)
  {
  }

  lemma PutZSets(s: State, k: Bytes, record: Record, now: int)
    requires !record.value.ZSetV?
    ensures ZSetsFrom(s.data, Ops.Store(s, k, record, now).data) && ZSetsFrom(s.data, Ops.Purge(s, k, now).data)
    ensures ZSetsFrom(s.data, Overwrite(s, k, record).data) && ZSetsFrom(s.data, DropEmptied(s, k).data)
    ensures ZSetsFrom(s.data, s.data[k := record]) && ZSetsFrom(s.data, s.data)
  {
    hide Front, Without;
  }

  lemma SetOpZSets(s: State, k: Bytes, members: seq<Bytes>, now: int)
    ensures ZSetsFrom(s.data, Ops.SAdd(s, k, members, now).0.data) && ZSetsFrom(s.data, Ops.SRem(s, k, members, now).0.data)
  {
    hide ZSetsFrom, Ops.Store, Ops.Purge, Overwrite, DropEmptied, SortedSets.SetOf;
    var m := SortedSets.SetOf(members);
    PutZSets(s, k, Record(SetV(m), None), now);
    if Ops.Live(s, k, now) && s.data[k].value.SetV? {
      var old_ := s.data[k].value.members;
      PutZSets(s, k, s.data[k].(value := SetV(old_ + m)), now);
      PutZSets(s, k, s.data[k].(value := SetV(old_ - m * old_)), now);
    }
  }

  lemma IncrZSets(s: State, k: Bytes, now: int)
    ensures ZSetsFrom(s.data, Ops.Incr(s, k, now).0.data)
  {
    hide ZSetsFrom, Ops.Store, Overwrite, Decimals.FormatInt, Decimals.ParseInt;
    PutZSets(s, k, Record(StringV(Decimals.FormatInt(1)), None), now);
    if Ops.Live(s, k, now) && s.data[k].value.StringV? {
      var parsed := Decimals.ParseInt(s.data[k].value.text);
      if parsed.Some? {
        PutZSets(s, k, s.data[k].(value := StringV(Decimals.FormatInt(Ops.Wrap64(parsed.value + 1)))), now);
      }
    }
  }

  lemma InitZSets(s: State, k: Bytes, width: nat, depth: nat, now: int)
    ensures ZSetsFrom(s.data, Ops.CmsInit(s, k, width, depth, now).0.data)
  {
    hide ZSetsFrom, Ops.Store;
    PutZSets(s, k, Record(SketchV(CountMin.EmptySketch(width, depth)), None), now);
  }

  lemma IncrByZSets(s: State, h: Hash, k: Bytes, batch: seq<CountMin.Increment>, now: int)
    requires Consistent(s)
    ensures ZSetsFrom(s.data, Ops.CmsIncrBy(s, h, k, batch, now).0.data)
  {
    hide ZSetsFrom, NoDuplicates, KeySet, Front, CountMin.IncrementAll;
    PutZSets(s, k, Record(StringV([]), None), now);
    if Ops.SketchError(s, k, now).None? {
      PutZSets(s, k, s.data[k].(value := SketchV(CountMin.IncrementAll(h, s.data[k].value.sketch, batch).0)), now);
    }
  }

  lemma ReserveZSets(s: State, k: Bytes, size: Option<Ops.BloomSize>, now: int)
    ensures ZSetsFrom(s.data, Ops.BfReserve(s, k, size, now).0.data)
  {
    hide ZSetsFrom, Ops.Store, Ops.EmptyBloom;
    PutZSets(s, k, Record(StringV([]), None), now);
    if size.Some? {
      PutZSets(s, k, Record(BloomV(Ops.EmptyBloom(size.value)), None), now);
    }
  }

  lemma {:induction false} SourcesData(s: State, keys: seq<Bytes>, now: int)
    ensures Ops.CmsSources(s, keys, now).0.data == s.data
    decreases |keys|
  {
    hide Front;
    if keys != [] && Ops.SketchError(s, keys[0], now).None? {
      SourcesData(Touch(s, keys[0]), keys[1..], now);
    }
  }

  lemma MergeZSets(s: State, k: Bytes, keys: seq<Bytes>, weights: seq<CountMin.uint64>, now: int)
    requires Consistent(s)
    ensures ZSetsFrom(s.data, Ops.CmsMerge(s, k, keys, weights, now).0.data)
  {
    hide ZSetsFrom, Consistent, Ops.Store, Ops.CmsSources, CountMin.MergeAll;
    PutZSets(s, k, Record(StringV([]), None), now);
    if 0 < |keys| == |weights| {
      SourcesData(s, keys, now);
      Ops.CmsSourcesShaped(s, keys, now);
      var (t, error, sources) := Ops.CmsSources(s, keys, now);
      if error.None? && CountMin.MergeAll(sources, weights).Merged? {
        PutZSets(t, k, Record(SketchV(CountMin.MergeAll(sources, weights).sketch), None), now);
      }
    }
  }

  lemma FillZSets(mid: State, h: Hash, k: Bytes, items: seq<Bytes>, size: Ops.BloomSize)
    ensures ZSetsFrom(mid.data, Ops.BfFilled(mid, h, k, items, size).0.data)
  {
    hide Ops.AddEach, Ops.EmptyBloom;
  }

  lemma BfAddLiveZSets(s: State, h: Hash, k: Bytes, items: seq<Bytes>)
    requires Consistent(s) && k in s.data
    ensures ZSetsFrom(s.data, Ops.BfAddLive(s, h, k, items).0.data)
  {
    hide Ops.AddEach, Front, NoDuplicates, KeySet;
  }

  /** Before any eviction, commands other than ZADD and ZREM leave the sorted sets they do not drop alone. */
  lemma EffectZSets(c: Config, s: State, op: Op, now: int)
    requires Consistent(s) && !OnSortedSets(op) && (op.BfAdd? ==> Ops.Live(s, op.key, now))
    ensures ZSetsFrom(s.data, Effect(c, s, op, now).0.data)
  {
    hide ZSetsFrom, Inherits, Consistent, Ops.Store, Ops.DeleteEach, Ops.ExistsEach, Ops.Expire, Ops.Incr, Ops.SAdd, Ops.SRem,
      Ops.CmsInit, Ops.CmsIncrBy, Ops.BfReserve, Ops.CmsMerge, Ops.BfAddLive;
    PutZSets(s, [], Record(StringV([]), None), now);
    if op.Set? {
      PutZSets(s, op.key, Record(StringV(op.text), if op.ttl > 0 then Some(now + op.ttl) else None), now);
    } else if op.Delete? {
      DeleteInherits(s, op.keys);
      InheritZSets(s.data, s.data, Effect(c, s, op, now).0.data);
    } else if op.Exists? {
      ExistsInherits(s, op.keys, now);
      InheritZSets(s.data, s.data, Effect(c, s, op, now).0.data);
    } else if op.Expire? {
      ExpireInherits(s, op.key, op.ttl, now);
      InheritZSets(s.data, s.data, Effect(c, s, op, now).0.data);
    } else if op.Incr? {
      IncrZSets(s, op.key, now);
    } else if op.SAdd? || op.SRem? {
      SetOpZSets(s, op.key, op.members, now);
    } else if op.CmsInit? {
      InitZSets(s, op.key, op.width, op.depth, now);
    } else if op.CmsIncrBy? {
      IncrByZSets(s, c.hash, op.key, op.increments, now);
    } else if op.BfReserve? {
      ReserveZSets(s, op.key, op.size, now);
    } else if op.CmsMerge? {
      MergeZSets(s, op.key, op.keys, op.weights, now);
    } else if op.BfAdd? {
      BfAddLiveZSets(s, c.hash, op.key, op.items);
    } else {
      hide Effect;
      ReadInherits(c, s, op, now);
      InheritZSets(s.data, s.data, Effect(c, s, op, now).0.data);
    }
  }

  /** Commands other than ZADD and ZREM leave the sorted sets they do not drop alone. */
  lemma StepZSets(c: Config, s: State, op: Op, now: int, t: State, answer: Ops.Answer)
    requires Consistent(s) && Step(c, s, op, now, t, answer) && !OnSortedSets(op)
    ensures ZSetsFrom(s.data, t.data)
  {
    hide ZSetsFrom, Inherits, Consistent, Settled, Effect, Ops.BfAddLive, Ops.BfFilled, Ops.Store;
    if op.BfAdd? && !Ops.Live(s, op.key, now) {
      var made := Ops.BfCreate(s, op.key, c.size, now);
      var mid :| Settled(c.lim, c.exact, made, mid) && Ops.BfFilled(mid, c.hash, op.key, op.items, c.size) == (t, answer);
      PutZSets(s, op.key, Record(BloomV(Ops.EmptyBloom(c.size)), None), now);
      SettledInherits(c.lim, c.exact, made, mid);
      InheritZSets(s.data, made.data, mid.data);
      FillZSets(mid, c.hash, op.key, op.items, c.size);
      ZSetsThen(s.data, mid.data, t.data);
    } else {
      EffectZSets(c, s, op, now);
      if Evicts(op) {
        SettledInherits(c.lim, c.exact, Effect(c, s, op, now).0, t);
        InheritZSets(s.data, Effect(c, s, op, now).0.data, t.data);
      } else {
        BfAddLiveIs(c, s, op, now, t, answer);
      }
    }
  }

  lemma ZSetsThen(a: Data, b: Data, c: Data)
    requires ZSetsFrom(a, b) && ZSetsFrom(b, c)
    ensures ZSetsFrom(a, c)
  {
  }
}
