/** Why a key is gone: what each command may take away, key by key. */
module Removals {
  import opened Bytes
  import opened Options
  import opened FiniteSums
  import opened Policies
  import opened SortedItems
  import opened StoreSpec
  import opened StoreRuns
  import Ops = StoreOps
  import Decimals
  import CountMin
  import BloomFilters
  import SortedSets

  /** The command itself takes a live key away: it deletes the key, or empties its container. */
  ghost predicate Takes(s: State, op: Op, k: Bytes)
    requires k in s.data
  {
    match op
    case Delete(keys) => k in keys
    case Expire(j, ttl) => k == j && ttl <= 0
    case SRem(j, members) => k == j && s.data[k].value.SetV? && s.data[k].value.members <= SortedSets.SetOf(members)
    case ZRem(j, members) => k == j && s.data[k].value.ZSetV? && s.data[k].value.scores.Keys <= SortedSets.SetOf(members)
    case _ => false
  }

  // ----- live keys -----

  lemma StoreKeeps(s: State, j: Bytes, record: Record, now: int, k: Bytes)
    requires Ops.Live(s, k, now)
    ensures k in Ops.Store(s, j, record, now).data
  {
  }

  lemma {:induction false} DeleteTakes(s: State, keys: seq<Bytes>, k: Bytes)
    requires k in s.data
    ensures k !in Ops.DeleteEach(s, keys).0.data <==> k in keys
    decreases |keys|
  {
    if keys != [] && k != keys[0] {
      DeleteTakes(if keys[0] in s.data then DropDeleted(s, keys[0]) else s, keys[1..], k);
    } else if keys != [] {
      DeleteOnly(DropDeleted(s, k), keys[1..], k);
    }
  }

  lemma {:induction false} DeleteOnly(s: State, keys: seq<Bytes>, k: Bytes)
    requires k !in s.data
    ensures k !in Ops.DeleteEach(s, keys).0.data
    decreases |keys|
  {
    if keys != [] {
      DeleteOnly(if keys[0] in s.data then DropDeleted(s, keys[0]) else s, keys[1..], k);
    }
  }

  lemma {:induction false} ExistsTakesNone(s: State, keys: seq<Bytes>, now: int, k: Bytes)
    requires Ops.Live(s, k, now)
    ensures k in Ops.ExistsEach(s, keys, now).0.data
    decreases |keys|
  {
    if keys != [] {
      ExistsTakesNone(Ops.Purge(s, keys[0], now), keys[1..], now, k);
    }
  }

  lemma DropsOnly(s: State, j: Bytes, record: Record, now: int, k: Bytes)
    requires Ops.Live(s, k, now)
    ensures k in Ops.Purge(s, j, now).data && k in Overwrite(s, j, record).data
    ensures k in DropEmptied(s, j).data <==> k != j
  {
    hide Front, Without;
  }

  lemma SRemTakes(s: State, j: Bytes, members: seq<Bytes>, now: int, k: Bytes)
    requires Ops.Live(s, k, now)
    ensures k !in Ops.SRem(s, j, members, now).0.data <==> Takes(s, SRem(j, members), k)
  {
    hide SortedSets.SetOf, Ops.Purge, Overwrite, DropEmptied;
    if Ops.Live(s, j, now) && s.data[j].value.SetV? {
      var all, gone := s.data[j].value.members, SortedSets.SetOf(members);
      EmptiedWhen(all, gone);
      DropsOnly(s, j, s.data[j].(value := SetV(all - gone * all)), now, k);
    } else {
      DropsOnly(s, j, s.data[k], now, k);
    }
  }

  lemma ZRemTakes(s: State, j: Bytes, members: seq<Bytes>, now: int, k: Bytes)
    requires Ops.Live(s, k, now)
    ensures k !in Ops.ZRem(s, j, members, now).0.data <==> Takes(s, ZRem(j, members), k)
  {
    hide SortedSets.SetOf, Ops.Purge, Overwrite, DropEmptied;
    if Ops.Live(s, j, now) && s.data[j].value.ZSetV? {
      var all, gone := s.data[j].value.scores, SortedSets.SetOf(members);
      EmptiedWhen(all.Keys, gone);
      DropsOnly(s, j, s.data[j].(value := ZSetV(all - gone * all.Keys)), now, k);
    } else {
      DropsOnly(s, j, s.data[k], now, k);
    }
  }

  lemma EmptiedWhen(all: set<Bytes>, gone: set<Bytes>)
    ensures all - gone * all == {} <==> all <= gone
    ensures all - gone == all - gone * all
  {
    if all - gone * all == {} {
      forall x | x in all ensures x in gone {
        assert x !in all - gone * all;
      }
    }
  }

  /** Reads of a string, a container, a sketch or a filter take no live key, and neither does a sweep. */
  lemma ReadTakesNone(c: Config, s: State, op: Op, now: int, k: Bytes)
    requires Consistent(s) && Ops.Live(s, k, now)
    requires op.Get? || op.Ttl? || op.SIsMember? || op.SMembers? || op.ZAsk? || op.CmsQuery? || op.CmsInfo?
      || op.BfExists? || op.BfInfo? || op.Sweep?
    ensures k in Effect(c, s, op, now).0.data
  {
    hide Consistent, Front, Without, WithoutAll, CountMin.Query, BloomFilters.Has;
  }

  lemma SketchTakesNone(c: Config, s: State, op: Op, now: int, k: Bytes)
    requires Consistent(s) && Ops.Live(s, k, now) && (op.CmsIncrBy? || op.CmsMerge? || op.BfAdd?)
    ensures k in Effect(c, s, op, now).0.data
  {
    hide NoDuplicates, KeySet, Front, Ops.Store, Ops.CmsSources, Ops.AddEach, Ops.EmptyBloom, CountMin.IncrementAll, CountMin.MergeAll;
    match op
    case CmsIncrBy(j, increments) =>
    case CmsMerge(j, keys, weights) =>
      if 0 < |keys| == |weights| {
        Ops.CmsSourcesShaped(s, keys, now);
        var (t, error, sources) := Ops.CmsSources(s, keys, now);
        if error.None? && CountMin.MergeAll(sources, weights).Merged? {
          StoreKeeps(t, j, Record(SketchV(CountMin.MergeAll(sources, weights).sketch), None), now, k);
        }
      }
    case BfAdd(j, items) => StoreKeeps(s, j, Record(BloomV(Ops.EmptyBloom(c.size)), None), now, k);
  }

  lemma WriteTakesNone(c: Config, s: State, op: Op, now: int, k: Bytes)
    requires Consistent(s) && Ops.Live(s, k, now)
    requires op.Set? || op.Incr? || op.SAdd? || op.ZAdd? || op.CmsInit? || op.BfReserve?
    ensures k in Effect(c, s, op, now).0.data
  {
    hide Consistent, Front, Ops.Store, Ops.EmptyBloom, SortedSets.SetOf, Decimals.FormatInt, Decimals.ParseInt;
    match op
    case Set(j, text, ttl) => StoreKeeps(s, j, Record(StringV(text), if ttl > 0 then Some(now + ttl) else None), now, k);
    case Incr(j) => StoreKeeps(s, j, Record(StringV(Decimals.FormatInt(1)), None), now, k);
    case SAdd(j, members) => StoreKeeps(s, j, Record(SetV(SortedSets.SetOf(members)), None), now, k);
    case ZAdd(j, scores) => StoreKeeps(s, j, Record(ZSetV(scores), None), now, k);
    case CmsInit(j, width, depth) => StoreKeeps(s, j, Record(SketchV(CountMin.EmptySketch(width, depth)), None), now, k);
    case BfReserve(j, size) =>
      if size.Some? {
        StoreKeeps(s, j, Record(BloomV(Ops.EmptyBloom(size.value)), None), now, k);
      }
  }

  lemma ExpireTakes(s: State, j: Bytes, ttl: int, now: int, k: Bytes)
    requires Ops.Live(s, k, now)
    ensures k !in Ops.Expire(s, j, ttl, now).0.data <==> k == j && ttl <= 0
  {
    DeleteTakes(s, [j], k);
    hide Front, Without, Ops.DeleteEach;
  }

  /** Of the live keys a command takes away exactly those it deletes or empties, before any eviction. */
  lemma EffectTakes(c: Config, s: State, op: Op, now: int, k: Bytes)
    requires Consistent(s) && Ops.Live(s, k, now)
    ensures k !in Effect(c, s, op, now).0.data <==> Takes(s, op, k)
  {
    hide Consistent, Ops.DeleteEach, Ops.ExistsEach, Ops.Expire, Ops.SRem, Ops.ZRem;
    if op.Delete? {
      DeleteTakes(s, op.keys, k);
    } else if op.Exists? {
      ExistsTakesNone(s, op.keys, now, k);
    } else if op.Expire? {
      ExpireTakes(s, op.key, op.ttl, now, k);
    } else if op.SRem? {
      SRemTakes(s, op.key, op.members, now, k);
    } else if op.ZRem? {
      ZRemTakes(s, op.key, op.members, now, k);
    } else {
      hide Effect;
      if op.CmsIncrBy? || op.CmsMerge? || op.BfAdd? {
        SketchTakesNone(c, s, op, now, k);
      } else if op.Set? || op.Incr? || op.SAdd? || op.ZAdd? || op.CmsInit? || op.BfReserve? {
        WriteTakesNone(c, s, op, now, k);
      } else {
        ReadTakesNone(c, s, op, now, k);
      }
    }
  }

  // ----- expired keys -----

  /** The keys at which a command would notice that their time is over. */
  ghost function Noticed(c: Config, s: State, op: Op, now: int): set<Bytes>
    requires Consistent(s)
  {
    match op
    case Get(k) => {k}
    case Set(k, _, _) => {k}
    case Expire(k, ttl) => if ttl > 0 then {k} else {}
    case Ttl(k) => {k}
    case Exists(keys) => SortedSets.SetOf(keys)
    case Incr(k) => {k}
    case SAdd(k, _) => {k}
    case SRem(k, _) => {k}
    case SIsMember(k, _) => {k}
    case SMembers(k) => {k}
    case ZAdd(k, _) => {k}
    case ZRem(k, _) => {k}
    case CmsInit(k, _, _) => if Effect(c, s, op, now).1.Done? then {k} else {}
    case CmsMerge(k, _, _) => if Effect(c, s, op, now).1.Done? then {k} else {}
    case BfReserve(k, _) => if Effect(c, s, op, now).1.Done? then {k} else {}
    case BfAdd(k, _) => {k}
    case Sweep => Ops.StaleKeys(s, now)
    case _ => {}
  }

  /** The keys a command removes because their time is over. */
  ghost function ExpiredBy(c: Config, s: State, op: Op, now: int): set<Bytes>
    requires Consistent(s)
  {
    Noticed(c, s, op, now) * Ops.StaleKeys(s, now)
  }

  ghost function Expirations(s: State, t: State): int {
    t.tally.expired - s.tally.expired
  }

  lemma StaleOne(s: State, k: Bytes, now: int)
    ensures {k} * Ops.StaleKeys(s, now) == if Ops.Stale(s, k, now) then {k} else {}
  {
  }

  lemma PurgeExpires(s: State, k: Bytes, now: int)
    ensures Expirations(s, Ops.Purge(s, k, now)) == |{k} * Ops.StaleKeys(s, now)|
  {
    StaleOne(s, k, now);
    hide Without;
  }

  lemma StoreExpires(s: State, k: Bytes, record: Record, now: int)
    ensures Expirations(s, Ops.Store(s, k, record, now)) == |{k} * Ops.StaleKeys(s, now)|
  {
    StaleOne(s, k, now);
    PurgeExpires(s, k, now);
    hide Front, Without, Ops.StaleKeys;
  }

  lemma {:induction false} DeleteExpiresNone(s: State, keys: seq<Bytes>)
    ensures Expirations(s, Ops.DeleteEach(s, keys).0) == 0
    decreases |keys|
  {
    hide Without;
    if keys != [] {
      DeleteExpiresNone(if keys[0] in s.data then DropDeleted(s, keys[0]) else s, keys[1..]);
    }
  }

  lemma {:induction false} ExistsExpires(s: State, keys: seq<Bytes>, now: int)
    ensures Expirations(s, Ops.ExistsEach(s, keys, now).0) == |SortedSets.SetOf(keys) * Ops.StaleKeys(s, now)|
    decreases |keys|
  {
    if keys == [] {
      assert SortedSets.SetOf(keys) * Ops.StaleKeys(s, now) == {};
    } else {
      FirstOf(keys);
      hide Ops.Purge, Ops.StaleKeys, SortedSets.SetOf;
      var m, stale := Ops.Purge(s, keys[0], now), Ops.StaleKeys(s, now);
      ExistsExpires(m, keys[1..], now);
      PurgeExpires(s, keys[0], now);
      StalePurged(s, keys[0], now);
      SplitFirst(keys[0], SortedSets.SetOf(keys[1..]), stale);
    }
  }

  lemma FirstOf(keys: seq<Bytes>)
    requires keys != []
    ensures SortedSets.SetOf(keys) == {keys[0]} + SortedSets.SetOf(keys[1..])
  {
  }

  lemma StalePurged(s: State, k: Bytes, now: int)
    ensures Ops.StaleKeys(Ops.Purge(s, k, now), now) == Ops.StaleKeys(s, now) - {k}
  {
    hide Without;
  }

  lemma SplitFirst(k: Bytes, rest: set<Bytes>, stale: set<Bytes>)
    ensures |({k} + rest) * stale| == |{k} * stale| + |rest * (stale - {k})|
  {
    assert ({k} + rest) * stale == {k} * stale + rest * (stale - {k});
  }

  lemma GetExpires(s: State, k: Bytes, now: int)
    ensures Expirations(s, Ops.Get(s, k, now).0) == |{k} * Ops.StaleKeys(s, now)|
    ensures Expirations(s, Ops.Ttl(s, k, now).0) == |{k} * Ops.StaleKeys(s, now)|
  {
    PurgeExpires(s, k, now);
    StaleOne(s, k, now);
    hide Front, Without, Ops.StaleKeys;
  }

  lemma SetReadExpires(s: State, k: Bytes, member: Bytes, now: int)
    ensures Expirations(s, Ops.SIsMember(s, k, member, now).0) == |{k} * Ops.StaleKeys(s, now)|
    ensures Expirations(s, Ops.SMembers(s, k, now).0) == |{k} * Ops.StaleKeys(s, now)|
  {
    PurgeExpires(s, k, now);
    StaleOne(s, k, now);
    hide Front, Without, Ops.StaleKeys;
  }

  lemma RemovalExpires(s: State, k: Bytes, members: seq<Bytes>, now: int)
    ensures Expirations(s, Ops.SRem(s, k, members, now).0) == |{k} * Ops.StaleKeys(s, now)|
    ensures Expirations(s, Ops.ZRem(s, k, members, now).0) == |{k} * Ops.StaleKeys(s, now)|
  {
    PurgeExpires(s, k, now);
    StaleOne(s, k, now);
    hide Front, Without, Ops.StaleKeys, SortedSets.SetOf;
  }

  lemma ReadExpires(c: Config, s: State, op: Op, now: int)
    requires Consistent(s)
    requires op.Get? || op.Ttl? || op.SIsMember? || op.SMembers? || op.SRem? || op.ZRem?
    ensures Expirations(s, Effect(c, s, op, now).0) == |{op.key} * Ops.StaleKeys(s, now)|
  {
    hide Consistent, Expirations, Ops.StaleKeys, Ops.Get, Ops.Ttl, Ops.SIsMember, Ops.SMembers, Ops.SRem, Ops.ZRem;
    match op
    case SIsMember(k, member) => SetReadExpires(s, k, member, now);
    case SMembers(k) => SetReadExpires(s, k, [], now);
    case SRem(k, members) => RemovalExpires(s, k, members, now);
    case ZRem(k, members) => RemovalExpires(s, k, members, now);
    case Get(k) => GetExpires(s, k, now);
    case Ttl(k) => GetExpires(s, k, now);
  }

  lemma SketchExpiresNone(s: State, h: Hash, k: Bytes, items: seq<Bytes>, batch: seq<CountMin.Increment>, now: int)
    requires Consistent(s)
    ensures Expirations(s, Ops.CmsQuery(s, h, k, items, now).0) == 0 && Expirations(s, Ops.CmsInfo(s, k, now).0) == 0
    ensures Expirations(s, Ops.CmsIncrBy(s, h, k, batch, now).0) == 0
  {
    hide NoDuplicates, KeySet, Front, CountMin.Query, CountMin.IncrementAll;
  }

  lemma FilterExpiresNone(s: State, h: Hash, k: Bytes, items: seq<Bytes>, question: SortedSets.Question, now: int)
    requires Consistent(s)
    ensures Expirations(s, Ops.BfExists(s, h, k, items, now).0) == 0 && Expirations(s, Ops.BfInfo(s, k, now).0) == 0
    ensures Expirations(s, Ops.ZAsk(s, k, question, now).0) == 0
  {
    hide NoDuplicates, KeySet, Front, BloomFilters.Has, SortedSets.Asked;
  }

  lemma LookupExpiresNone(c: Config, s: State, op: Op, now: int)
    requires Consistent(s)
    requires op.ZAsk? || op.CmsQuery? || op.CmsInfo? || op.CmsIncrBy? || op.BfExists? || op.BfInfo?
    ensures Expirations(s, Effect(c, s, op, now).0) == 0
  {
    hide Consistent, Expirations, Ops.ZAsk, Ops.CmsQuery, Ops.CmsInfo, Ops.CmsIncrBy, Ops.BfExists, Ops.BfInfo;
    match op
    case ZAsk(k, question) => FilterExpiresNone(s, c.hash, k, [], question, now);
    case CmsQuery(k, items) => SketchExpiresNone(s, c.hash, k, items, [], now);
    case CmsInfo(k) => SketchExpiresNone(s, c.hash, k, [], [], now);
    case CmsIncrBy(k, batch) => SketchExpiresNone(s, c.hash, k, [], batch, now);
    case BfExists(k, items) => FilterExpiresNone(s, c.hash, k, items, SortedSets.RankIn([]), now);
    case BfInfo(k) => FilterExpiresNone(s, c.hash, k, [], SortedSets.RankIn([]), now);
  }

  lemma MergeExpires(s: State, k: Bytes, keys: seq<Bytes>, weights: seq<CountMin.uint64>, now: int)
    requires Consistent(s)
    ensures var (t, answer) := Ops.CmsMerge(s, k, keys, weights, now);
      Expirations(s, t) == if answer.Done? then |{k} * Ops.StaleKeys(s, now)| else 0
  {
    hide Consistent, Ops.Store, Ops.CmsSources, CountMin.MergeAll;
    if 0 < |keys| == |weights| {
      Ops.CmsSourcesShaped(s, keys, now);
      SourcesFail(s, keys, now);
      var (t, error, sources) := Ops.CmsSources(s, keys, now);
      if error.None? && CountMin.MergeAll(sources, weights).Merged? {
        StoreExpires(t, k, Record(SketchV(CountMin.MergeAll(sources, weights).sketch), None), now);
        assert Ops.StaleKeys(t, now) == Ops.StaleKeys(s, now);
      }
    }
  }

  lemma {:induction false} SourcesFail(s: State, keys: seq<Bytes>, now: int)
    ensures Ops.CmsSources(s, keys, now).1 != Some(Ops.Done)
    decreases |keys|
  {
    hide Front;
    if keys != [] && Ops.SketchError(s, keys[0], now).None? {
      SourcesFail(Touch(s, keys[0]), keys[1..], now);
    }
  }

  lemma IncrExpires(s: State, k: Bytes, now: int)
    ensures Expirations(s, Ops.Incr(s, k, now).0) == |{k} * Ops.StaleKeys(s, now)|
  {
    StaleOne(s, k, now);
    StoreExpires(s, k, Record(StringV(Decimals.FormatInt(1)), None), now);
    hide Front, Ops.Store, Ops.StaleKeys, Decimals.FormatInt, Decimals.ParseInt;
  }

  lemma GrowthExpires(s: State, k: Bytes, members: seq<Bytes>, scores: map<Bytes, Score>, now: int)
    ensures Expirations(s, Ops.SAdd(s, k, members, now).0) == |{k} * Ops.StaleKeys(s, now)|
    ensures Expirations(s, Ops.ZAdd(s, k, scores, now).0) == |{k} * Ops.StaleKeys(s, now)|
  {
    StaleOne(s, k, now);
    StoreExpires(s, k, Record(SetV(SortedSets.SetOf(members)), None), now);
    StoreExpires(s, k, Record(ZSetV(scores), None), now);
    hide Front, Ops.Store, Ops.StaleKeys, SortedSets.SetOf;
  }

  lemma BfAddExpires(c: Config, s: State, k: Bytes, items: seq<Bytes>, now: int)
    requires Consistent(s)
    ensures Expirations(s, Effect(c, s, BfAdd(k, items), now).0) == |{k} * Ops.StaleKeys(s, now)|
  {
    StaleOne(s, k, now);
    StoreExpires(s, k, Record(BloomV(Ops.EmptyBloom(c.size)), None), now);
    hide NoDuplicates, KeySet, Front, Ops.Store, Ops.StaleKeys, Ops.EmptyBloom, Ops.AddEach;
  }

  lemma CreateExpires(c: Config, s: State, op: Op, now: int)
    requires Consistent(s) && (op.CmsInit? || op.BfReserve?)
    ensures var (t, answer) := Effect(c, s, op, now);
      Expirations(s, t) == if answer.Done? then |{op.key} * Ops.StaleKeys(s, now)| else 0
  {
    hide Consistent, Ops.Store, Ops.StaleKeys, Ops.EmptyBloom;
    match op
    case CmsInit(k, width, depth) => StoreExpires(s, k, Record(SketchV(CountMin.EmptySketch(width, depth)), None), now);
    case BfReserve(k, size) =>
      if size.Some? {
        StoreExpires(s, k, Record(BloomV(Ops.EmptyBloom(size.value)), None), now);
      }
  }

  lemma ExpireExpires(s: State, k: Bytes, ttl: int, now: int)
    ensures Expirations(s, Ops.Expire(s, k, ttl, now).0) == if ttl > 0 then |{k} * Ops.StaleKeys(s, now)| else 0
  {
    DeleteExpiresNone(s, [k]);
    PurgeExpires(s, k, now);
    StaleOne(s, k, now);
    hide Front, Without, Ops.DeleteEach, Ops.StaleKeys;
  }

  lemma SetExpires(s: State, k: Bytes, text: Bytes, ttl: int, now: int)
    ensures Expirations(s, Ops.Set(s, k, text, ttl, now).0) == |{k} * Ops.StaleKeys(s, now)|
  {
    hide Ops.Store, Ops.StaleKeys;
    StoreExpires(s, k, Record(StringV(text), if ttl > 0 then Some(now + ttl) else None), now);
  }

  lemma WriteExpires(c: Config, s: State, op: Op, now: int)
    requires Consistent(s) && (op.Set? || op.Incr? || op.SAdd? || op.ZAdd?)
    ensures Expirations(s, Effect(c, s, op, now).0) == |{op.key} * Ops.StaleKeys(s, now)|
  {
    hide Consistent, Expirations, Ops.StaleKeys, Ops.Set, Ops.Incr, Ops.SAdd, Ops.ZAdd;
    match op
    case Set(k, text, ttl) => SetExpires(s, k, text, ttl, now);
    case Incr(k) => IncrExpires(s, k, now);
    case SAdd(k, members) => GrowthExpires(s, k, members, map[], now);
    case ZAdd(k, scores) => GrowthExpires(s, k, [], scores, now);
  }

  lemma SweepExpires(s: State, now: int)
    ensures Expirations(s, Ops.Sweep(s, now)) == |Ops.StaleKeys(s, now) * Ops.StaleKeys(s, now)|
  {
    assert Ops.StaleKeys(s, now) * Ops.StaleKeys(s, now) == Ops.StaleKeys(s, now);
    hide WithoutAll, Ops.StaleKeys;
  }

  lemma KeyExpires(c: Config, s: State, op: Op, now: int)
    requires Consistent(s) && (op.Delete? || op.Expire? || op.Exists?)
    ensures Expirations(s, Effect(c, s, op, now).0) == |ExpiredBy(c, s, op, now)|
  {
    hide Consistent, Expirations, Ops.StaleKeys, Ops.DeleteEach, Ops.ExistsEach, Ops.Expire, SortedSets.SetOf;
    match op
    case Delete(keys) => DeleteExpiresNone(s, keys);
    case Expire(k, ttl) => ExpireExpires(s, k, ttl, now);
    case Exists(keys) => ExistsExpires(s, keys, now);
  }

  lemma MergeOrSweepExpires(c: Config, s: State, op: Op, now: int)
    requires Consistent(s) && (op.CmsMerge? || op.Sweep?)
    ensures Expirations(s, Effect(c, s, op, now).0) == |ExpiredBy(c, s, op, now)|
  {
    hide Consistent, Expirations, Ops.StaleKeys, Ops.CmsMerge, Ops.Sweep;
    match op
    case CmsMerge(k, keys, weights) => MergeExpires(s, k, keys, weights, now);
    case Sweep => SweepExpires(s, now);
  }

  /** The count of expirations grows by exactly the stale keys the command noticed. */
  lemma EffectExpires(c: Config, s: State, op: Op, now: int)
    requires Consistent(s)
    ensures Expirations(s, Effect(c, s, op, now).0) == |ExpiredBy(c, s, op, now)|
  {
    hide Consistent, Expirations, Ops.StaleKeys, Effect;
    if op.Get? || op.Ttl? || op.SIsMember? || op.SMembers? || op.SRem? || op.ZRem? {
      ReadExpires(c, s, op, now);
    } else if op.ZAsk? || op.CmsQuery? || op.CmsInfo? || op.CmsIncrBy? || op.BfExists? || op.BfInfo? {
      LookupExpiresNone(c, s, op, now);
    } else if op.CmsInit? || op.BfReserve? {
      CreateExpires(c, s, op, now);
    } else if op.BfAdd? {
      BfAddExpires(c, s, op.key, op.items, now);
    } else if op.Set? || op.Incr? || op.SAdd? || op.ZAdd? {
      WriteExpires(c, s, op, now);
    } else if op.CmsMerge? || op.Sweep? {
      MergeOrSweepExpires(c, s, op, now);
    } else {
      KeyExpires(c, s, op, now);
    }
  }

  // ----- with the eviction -----

  /** The state in which a command leaves the store to the eviction run. */
  ghost function ToEvict(c: Config, s: State, op: Op, now: int): State
    requires Consistent(s)
  {
    if op.BfAdd? && !Ops.Live(s, op.key, now) then Ops.BfCreate(s, op.key, c.size, now) else Effect(c, s, op, now).0
  }

  lemma FilledKeys(mid: State, h: Hash, k: Bytes, items: seq<Bytes>, size: Ops.BloomSize)
    ensures var t := Ops.BfFilled(mid, h, k, items, size).0; t.data.Keys == mid.data.Keys && t.tally == mid.tally
  {
    hide Ops.AddEach, Ops.EmptyBloom;
  }

  /** A step with an eviction is a settled state, into which at most bits of a new filter are set. */
  lemma StepSettles(c: Config, s: State, op: Op, now: int, t: State, answer: Ops.Answer) returns (mid: State)
    requires Consistent(s) && Step(c, s, op, now, t, answer)
    requires Evicts(op) || (op.BfAdd? && !Ops.Live(s, op.key, now))
    ensures Settled(c.lim, c.exact, ToEvict(c, s, op, now), mid)
    ensures t.data.Keys == mid.data.Keys && t.tally == mid.tally
  {
    hide Consistent, Settled, Effect, Ops.BfFilled, Ops.BfCreate;
    if op.BfAdd? {
      mid :| Settled(c.lim, c.exact, Ops.BfCreate(s, op.key, c.size, now), mid)
        && Ops.BfFilled(mid, c.hash, op.key, op.items, c.size) == (t, answer);
      FilledKeys(mid, c.hash, op.key, op.items, c.size);
    } else {
      mid := t;
    }
  }

  lemma ToEvictIs(c: Config, s: State, op: Op, now: int)
    requires Consistent(s)
    ensures var m, e := ToEvict(c, s, op, now), Effect(c, s, op, now).0;
      m.data.Keys == e.data.Keys && m.tally == e.tally && m.tracked == s.tracked && Consistent(m)
  {
    hide Consistent, Ops.BfFilled, Ops.BfCreate, Effect;
    if op.BfAdd? && !Ops.Live(s, op.key, now) {
      BfEffectIs(c, s, op, now);
      FilledKeys(Ops.BfCreate(s, op.key, c.size, now), c.hash, op.key, op.items, c.size);
      BfCreateOrderly(s, op.key, c.size, now);
      OrderlyConsistent(s, Ops.BfCreate(s, op.key, c.size, now), now);
    } else if Evicts(op) {
      EffectOrderly(c, s, op, now);
      OrderlyConsistent(s, Effect(c, s, op, now).0, now);
    } else {
      EffectMoves(c, s, op, now);
      MovesConsistent(s, Effect(c, s, op, now).0, now);
    }
  }

  lemma BfEffectIs(c: Config, s: State, op: Op, now: int)
    requires Consistent(s) && op.BfAdd? && !Ops.Live(s, op.key, now)
    ensures Effect(c, s, op, now) == Ops.BfFilled(Ops.BfCreate(s, op.key, c.size, now), c.hash, op.key, op.items, c.size)
  {
    hide Consistent, Ops.BfFilled, Ops.BfCreate;
  }

  /** The eviction run took a key: the store was over its limits, and the eviction was counted. */
  ghost predicate Evicted(c: Config, s: State, op: Op, now: int, t: State, k: Bytes)
    requires Consistent(s)
  {
    var m := ToEvict(c, s, op, now);
    k in m.data && m.tracked && Over(m.data, c.lim) && t.tally.evicted > m.tally.evicted
  }

  /** Key by key: a live key that a command loses was deleted or emptied by that very command, or evicted
      over the limits; no other live key goes. And expiry takes exactly the stale keys it noticed. */
  ghost predicate Rightful(c: Config, s: State, op: Op, now: int, t: State)
    requires Consistent(s)
  {
    && (forall k :: Ops.Live(s, k, now) && k !in t.data ==> Takes(s, op, k) || Evicted(c, s, op, now, t, k))
    && (forall k :: Ops.Live(s, k, now) && Takes(s, op, k) ==> k !in t.data)
    && Expirations(s, t) == |ExpiredBy(c, s, op, now)|
  }

  lemma SettledLoses(c: Config, m: State, mid: State, k: Bytes)
    requires Consistent(m) && Settled(c.lim, c.exact, m, mid)
    ensures k in m.data && k !in mid.data ==> m.tracked && Over(m.data, c.lim) && mid.tally.evicted > m.tally.evicted
    ensures k !in m.data ==> k !in mid.data
    ensures mid.tally == m.tally.(evicted := mid.tally.evicted)
  {
    SettledFacts(c.lim, c.exact, m, mid);
    if k in m.data && k !in mid.data {
      CardinalityBelow({k}, m.data.Keys - mid.data.Keys);
    }
    hide Consistent, Over, Fit, Restrict, EvictsInTurn;
  }

  lemma StepRightfulAt(c: Config, s: State, op: Op, now: int, t: State, answer: Ops.Answer, k: Bytes)
    requires Consistent(s) && Step(c, s, op, now, t, answer) && Ops.Live(s, k, now)
    ensures k !in t.data ==> Takes(s, op, k) || Evicted(c, s, op, now, t, k)
    ensures Takes(s, op, k) ==> k !in t.data
  {
    hide Consistent, Settled, Effect, Step, Takes, Over;
    EffectTakes(c, s, op, now, k);
    ToEvictIs(c, s, op, now);
    if Evicts(op) || (op.BfAdd? && !Ops.Live(s, op.key, now)) {
      var mid := StepSettles(c, s, op, now, t, answer);
      hide ToEvict;
      SettledLoses(c, ToEvict(c, s, op, now), mid, k);
    } else {
      BfAddLiveIs(c, s, op, now, t, answer);
    }
  }

  lemma StepRightful(c: Config, s: State, op: Op, now: int, t: State, answer: Ops.Answer)
    requires Consistent(s) && Step(c, s, op, now, t, answer)
    ensures Rightful(c, s, op, now, t)
  {
    hide Consistent, Settled, Effect, Step, Takes, Evicted, ExpiredBy;
    forall k | Ops.Live(s, k, now)
      ensures (k !in t.data ==> Takes(s, op, k) || Evicted(c, s, op, now, t, k)) && (Takes(s, op, k) ==> k !in t.data)
    {
      StepRightfulAt(c, s, op, now, t, answer, k);
    }
    EffectExpires(c, s, op, now);
    ToEvictIs(c, s, op, now);
    if Evicts(op) || (op.BfAdd? && !Ops.Live(s, op.key, now)) {
      var mid := StepSettles(c, s, op, now, t, answer);
      hide ToEvict;
      SettledLoses(c, ToEvict(c, s, op, now), mid, []);
    } else {
      BfAddLiveIs(c, s, op, now, t, answer);
    }
  }
}
