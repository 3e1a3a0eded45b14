/** What can be seen of a store at an instant, and that every command depends on nothing else. */
module LiveViews {
  import opened Bytes
  import opened Options
  import opened Policies
  import opened SortedItems
  import opened StoreSpec
  import opened StoreRuns
  import Ops = StoreOps
  import Decimals
  import CountMin
  import BloomFilters
  import SortedSets

  /** The records whose time is not over. */
  ghost function View(data: Data, now: int): Data {
    map k | k in data && !Ops.Expired(data[k], now) :: data[k]
  }

  ghost predicate Alike(s: State, t: State, now: int) {
    View(s.data, now) == View(t.data, now)
  }

  lemma AlikeLater(s: State, t: State, now: int, later: int)
    requires Alike(s, t, now) && now <= later
    ensures Alike(s, t, later)
  {
    forall k ensures k in View(s.data, later) <==> k in View(t.data, later) {
      ViewAt(s, k, now);
      ViewAt(t, k, now);
    }
    forall k | k in View(s.data, later) ensures View(s.data, later)[k] == View(t.data, later)[k] {
      ViewAt(s, k, now);
      ViewAt(t, k, now);
    }
  }

  lemma ViewAt(s: State, k: Bytes, now: int)
    ensures Ops.Live(s, k, now) <==> k in View(s.data, now)
    ensures Ops.Live(s, k, now) ==> View(s.data, now)[k] == s.data[k]
  {
  }

  lemma ViewDrop(data: Data, k: Bytes, now: int)
    ensures View(data - {k}, now) == View(data, now) - {k}
    ensures k in data && Ops.Expired(data[k], now) ==> View(data - {k}, now) == View(data, now)
  {
  }

  lemma ViewPut(data: Data, k: Bytes, record: Record, now: int)
    requires !Ops.Expired(record, now)
    ensures View(data[k := record], now) == View(data, now)[k := record]
  {
  }

  lemma ViewPurge(s: State, k: Bytes, now: int)
    ensures View(Ops.Purge(s, k, now).data, now) == View(s.data, now)
  {
    ViewDrop(s.data, k, now);
  }

  lemma ViewStore(s: State, k: Bytes, record: Record, now: int)
    requires !Ops.Expired(record, now)
    ensures View(Ops.Store(s, k, record, now).data, now) == View(s.data, now)[k := record]
  {
    ViewPurge(s, k, now);
    ViewPut(s.data, k, record, now);
    ViewPut(Ops.Purge(s, k, now).data, k, record, now);
    hide View;
  }

  lemma {:induction false} ViewDelete(s: State, keys: seq<Bytes>, now: int)
    ensures View(Ops.DeleteEach(s, keys).0.data, now) == View(s.data, now) - SortedSets.SetOf(keys)
    decreases |keys|
  {
    if keys != [] {
      var m := if keys[0] in s.data then DropDeleted(s, keys[0]) else s;
      ViewDelete(m, keys[1..], now);
      ViewDrop(s.data, keys[0], now);
      assert SortedSets.SetOf(keys) == {keys[0]} + SortedSets.SetOf(keys[1..]);
      assert View(m.data, now) == View(s.data, now) - {keys[0]};
    }
  }

  lemma ViewExpireAll(s: State, gone: set<Bytes>, now: int)
    requires gone <= Ops.StaleKeys(s, now)
    ensures View(Ops.ExpireAll(s, gone).data, now) == View(s.data, now)
  {
  }

  // ----- one command on two stores that look alike -----

  lemma AlikeStore(s: State, t: State, k: Bytes, record: Record, now: int)
    requires Alike(s, t, now) && !Ops.Expired(record, now)
    ensures Alike(Ops.Store(s, k, record, now), Ops.Store(t, k, record, now), now)
  {
    ViewStore(s, k, record, now);
    ViewStore(t, k, record, now);
  }

  lemma AlikeGet(s: State, t: State, k: Bytes, now: int)
    requires Alike(s, t, now)
    ensures Alike(Ops.Get(s, k, now).0, Ops.Get(t, k, now).0, now) && Ops.Get(s, k, now).1 == Ops.Get(t, k, now).1
    ensures Alike(Ops.Ttl(s, k, now).0, Ops.Ttl(t, k, now).0, now) && Ops.Ttl(s, k, now).1 == Ops.Ttl(t, k, now).1
  {
    ViewPurge(s, k, now);
    ViewPurge(t, k, now);
    ViewAt(s, k, now);
    ViewAt(t, k, now);
    hide View, Ops.Purge, Front;
  }

  lemma AlikeSetReads(s: State, t: State, k: Bytes, member: Bytes, now: int)
    requires Alike(s, t, now)
    ensures Alike(Ops.SIsMember(s, k, member, now).0, Ops.SIsMember(t, k, member, now).0, now)
    ensures Ops.SIsMember(s, k, member, now).1 == Ops.SIsMember(t, k, member, now).1
    ensures Alike(Ops.SMembers(s, k, now).0, Ops.SMembers(t, k, now).0, now)
    ensures Ops.SMembers(s, k, now).1 == Ops.SMembers(t, k, now).1
  {
    ViewPurge(s, k, now);
    ViewPurge(t, k, now);
    ViewAt(s, k, now);
    ViewAt(t, k, now);
    hide View, Ops.Purge, Front;
  }

  lemma AlikeZAsk(s: State, t: State, k: Bytes, question: SortedSets.Question, now: int)
    requires Alike(s, t, now)
    ensures Alike(Ops.ZAsk(s, k, question, now).0, Ops.ZAsk(t, k, question, now).0, now)
    ensures Ops.ZAsk(s, k, question, now).1 == Ops.ZAsk(t, k, question, now).1
  {
    ViewAt(s, k, now);
    ViewAt(t, k, now);
    hide View, Front, SortedSets.Asked;
  }

  lemma AlikeReads(c: Config, s: State, t: State, op: Op, now: int)
    requires Consistent(s) && Consistent(t) && Alike(s, t, now)
    requires op.Get? || op.Ttl? || op.SIsMember? || op.SMembers? || op.ZAsk?
    ensures Alike(Effect(c, s, op, now).0, Effect(c, t, op, now).0, now)
    ensures Effect(c, s, op, now).1 == Effect(c, t, op, now).1
  {
    hide Consistent, Alike, Ops.Get, Ops.Ttl, Ops.SIsMember, Ops.SMembers, Ops.ZAsk;
    match op
    case SIsMember(k, member) => AlikeSetReads(s, t, k, member, now);
    case SMembers(k) => AlikeSetReads(s, t, k, [], now);
    case ZAsk(k, question) => AlikeZAsk(s, t, k, question, now);
    case Get(k) => AlikeGet(s, t, k, now);
    case Ttl(k) => AlikeGet(s, t, k, now);
  }

  lemma AlikeSketch(s: State, t: State, h: Hash, k: Bytes, items: seq<Bytes>, now: int)
    requires Consistent(s) && Consistent(t) && Alike(s, t, now)
    ensures Alike(Ops.CmsQuery(s, h, k, items, now).0, Ops.CmsQuery(t, h, k, items, now).0, now)
    ensures Ops.CmsQuery(s, h, k, items, now).1 == Ops.CmsQuery(t, h, k, items, now).1
    ensures Alike(Ops.CmsInfo(s, k, now).0, Ops.CmsInfo(t, k, now).0, now)
    ensures Ops.CmsInfo(s, k, now).1 == Ops.CmsInfo(t, k, now).1
  {
    ViewAt(s, k, now);
    ViewAt(t, k, now);
    hide View, CountMin.Query, Front, NoDuplicates, KeySet;
  }

  lemma AlikeFilter(s: State, t: State, h: Hash, k: Bytes, items: seq<Bytes>, now: int)
    requires Consistent(s) && Consistent(t) && Alike(s, t, now)
    ensures Alike(Ops.BfExists(s, h, k, items, now).0, Ops.BfExists(t, h, k, items, now).0, now)
    ensures Ops.BfExists(s, h, k, items, now).1 == Ops.BfExists(t, h, k, items, now).1
    ensures Alike(Ops.BfInfo(s, k, now).0, Ops.BfInfo(t, k, now).0, now)
    ensures Ops.BfInfo(s, k, now).1 == Ops.BfInfo(t, k, now).1
  {
    ViewAt(s, k, now);
    ViewAt(t, k, now);
    hide View, BloomFilters.Has, Front, NoDuplicates, KeySet;
  }

  lemma AlikeSketchReads(c: Config, s: State, t: State, op: Op, now: int)
    requires Consistent(s) && Consistent(t) && Alike(s, t, now)
    requires op.BfExists? || op.BfInfo? || op.CmsInfo? || op.CmsQuery?
    ensures Alike(Effect(c, s, op, now).0, Effect(c, t, op, now).0, now)
    ensures Effect(c, s, op, now).1 == Effect(c, t, op, now).1
  {
    hide Consistent, Alike, Ops.CmsQuery, Ops.CmsInfo, Ops.BfExists, Ops.BfInfo;
    match op
    case CmsQuery(k, items) => AlikeSketch(s, t, c.hash, k, items, now);
    case CmsInfo(k) => AlikeSketch(s, t, c.hash, k, [], now);
    case BfExists(k, items) => AlikeFilter(s, t, c.hash, k, items, now);
    case BfInfo(k) => AlikeFilter(s, t, c.hash, k, [], now);
  }

  lemma {:induction false} AlikeExists(s: State, t: State, keys: seq<Bytes>, now: int)
    requires Alike(s, t, now)
    ensures Alike(Ops.ExistsEach(s, keys, now).0, Ops.ExistsEach(t, keys, now).0, now)
    ensures Ops.ExistsEach(s, keys, now).1 == Ops.ExistsEach(t, keys, now).1
    decreases |keys|
  {
    hide View, Ops.Purge;
    if keys != [] {
      ViewPurge(s, keys[0], now);
      ViewPurge(t, keys[0], now);
      ViewAt(s, keys[0], now);
      ViewAt(t, keys[0], now);
      AlikeExists(Ops.Purge(s, keys[0], now), Ops.Purge(t, keys[0], now), keys[1..], now);
    }
  }

  lemma AlikePut(s: State, t: State, k: Bytes, record: Record, now: int)
    requires Alike(s, t, now) && !Ops.Expired(record, now)
    ensures View(s.data[k := record], now) == View(t.data[k := record], now)
  {
    ViewPut(s.data, k, record, now);
    ViewPut(t.data, k, record, now);
  }

  lemma AlikeExpire(s: State, t: State, k: Bytes, ttl: int, now: int)
    requires Alike(s, t, now)
    ensures Alike(Ops.Expire(s, k, ttl, now).0, Ops.Expire(t, k, ttl, now).0, now)
    ensures ttl > 0 ==> Ops.Expire(s, k, ttl, now).1 == Ops.Expire(t, k, ttl, now).1
  {
    ViewDelete(s, [k], now);
    ViewDelete(t, [k], now);
    ViewPurge(s, k, now);
    ViewPurge(t, k, now);
    ViewAt(s, k, now);
    ViewAt(t, k, now);
    hide View, Ops.Purge, Ops.DeleteEach, Front;
    if ttl > 0 && Ops.Live(s, k, now) {
      AlikePut(s, t, k, s.data[k].(ttl := Some(now + ttl)), now);
    }
  }

  lemma AlikeIncr(s: State, t: State, k: Bytes, now: int)
    requires Alike(s, t, now)
    ensures Alike(Ops.Incr(s, k, now).0, Ops.Incr(t, k, now).0, now) && Ops.Incr(s, k, now).1 == Ops.Incr(t, k, now).1
  {
    AlikeStore(s, t, k, Record(StringV(Decimals.FormatInt(1)), None), now);
    ViewAt(s, k, now);
    ViewAt(t, k, now);
    hide View, Ops.Store, Overwrite, DropEmptied, Decimals.FormatInt, Decimals.ParseInt;
    if Ops.Live(s, k, now) && s.data[k].value.StringV? {
      var parsed := Decimals.ParseInt(s.data[k].value.text);
      if parsed.Some? {
        AlikeRemoval(s, t, k, s.data[k].(value := StringV(Decimals.FormatInt(Ops.Wrap64(parsed.value + 1)))), now);
      }
    }
  }

  lemma AlikeSAdd(s: State, t: State, k: Bytes, members: seq<Bytes>, now: int)
    requires Alike(s, t, now)
    ensures Alike(Ops.SAdd(s, k, members, now).0, Ops.SAdd(t, k, members, now).0, now)
    ensures Ops.SAdd(s, k, members, now).1 == Ops.SAdd(t, k, members, now).1
  {
    var new_ := SortedSets.SetOf(members);
    AlikeStore(s, t, k, Record(SetV(new_), None), now);
    ViewAt(s, k, now);
    ViewAt(t, k, now);
    hide View, Ops.Store, Front, SortedSets.SetOf;
    if Ops.Live(s, k, now) && s.data[k].value.SetV? {
      AlikePut(s, t, k, s.data[k].(value := SetV(s.data[k].value.members + new_)), now);
    }
  }

  lemma AlikeZAdd(s: State, t: State, k: Bytes, scores: map<Bytes, Score>, now: int)
    requires Alike(s, t, now)
    ensures Alike(Ops.ZAdd(s, k, scores, now).0, Ops.ZAdd(t, k, scores, now).0, now)
    ensures Ops.ZAdd(s, k, scores, now).1 == Ops.ZAdd(t, k, scores, now).1
  {
    AlikeStore(s, t, k, Record(ZSetV(scores), None), now);
    ViewAt(s, k, now);
    ViewAt(t, k, now);
    hide View, Ops.Store, Front;
    if Ops.Live(s, k, now) && s.data[k].value.ZSetV? {
      AlikePut(s, t, k, s.data[k].(value := ZSetV(s.data[k].value.scores + scores)), now);
    }
  }

  /** An emptied container, or a smaller one put back, looks the same either way. */
  lemma AlikeRemoval(s: State, t: State, k: Bytes, record: Record, now: int)
    requires Alike(s, t, now) && !Ops.Expired(record, now)
    ensures Alike(DropEmptied(s, k), DropEmptied(t, k), now)
    ensures Alike(Overwrite(s, k, record), Overwrite(t, k, record), now)
  {
    AlikePut(s, t, k, record, now);
    ViewDrop(s.data, k, now);
    ViewDrop(t.data, k, now);
    hide View, Front, Without;
  }

  lemma AlikeSRem(s: State, t: State, k: Bytes, members: seq<Bytes>, now: int)
    requires Alike(s, t, now)
    ensures Alike(Ops.SRem(s, k, members, now).0, Ops.SRem(t, k, members, now).0, now)
    ensures Ops.SRem(s, k, members, now).1 == Ops.SRem(t, k, members, now).1
  {
    ViewPurge(s, k, now);
    ViewPurge(t, k, now);
    ViewAt(s, k, now);
    ViewAt(t, k, now);
    hide View, Ops.Purge, Overwrite, DropEmptied, SortedSets.SetOf;
    if Ops.Live(s, k, now) && s.data[k].value.SetV? {
      var old_ := s.data[k].value.members;
      AlikeRemoval(s, t, k, s.data[k].(value := SetV(old_ - SortedSets.SetOf(members) * old_)), now);
    }
  }

  lemma AlikeZRem(s: State, t: State, k: Bytes, members: seq<Bytes>, now: int)
    requires Alike(s, t, now)
    ensures Alike(Ops.ZRem(s, k, members, now).0, Ops.ZRem(t, k, members, now).0, now)
    ensures Ops.ZRem(s, k, members, now).1 == Ops.ZRem(t, k, members, now).1
  {
    ViewPurge(s, k, now);
    ViewPurge(t, k, now);
    ViewAt(s, k, now);
    ViewAt(t, k, now);
    hide View, Ops.Purge, Overwrite, DropEmptied, SortedSets.SetOf;
    if Ops.Live(s, k, now) && s.data[k].value.ZSetV? {
      var old_ := s.data[k].value.scores;
      AlikeRemoval(s, t, k, s.data[k].(value := ZSetV(old_ - SortedSets.SetOf(members) * old_.Keys)), now);
    }
  }

  lemma AlikeCmsIncrBy(s: State, t: State, h: Hash, k: Bytes, batch: seq<CountMin.Increment>, now: int)
    requires Consistent(s) && Consistent(t) && Alike(s, t, now)
    ensures Alike(Ops.CmsIncrBy(s, h, k, batch, now).0, Ops.CmsIncrBy(t, h, k, batch, now).0, now)
    ensures Ops.CmsIncrBy(s, h, k, batch, now).1 == Ops.CmsIncrBy(t, h, k, batch, now).1
  {
    ViewAt(s, k, now);
    ViewAt(t, k, now);
    hide View, Front, NoDuplicates, KeySet, CountMin.IncrementAll;
    if Ops.SketchError(s, k, now).None? {
      var sketch := CountMin.IncrementAll(h, s.data[k].value.sketch, batch).0;
      AlikePut(s, t, k, s.data[k].(value := SketchV(sketch)), now);
    }
  }

  lemma {:induction false} AlikeSources(s: State, t: State, keys: seq<Bytes>, now: int)
    requires Alike(s, t, now)
    ensures Ops.CmsSources(s, keys, now).0.data == s.data && Ops.CmsSources(t, keys, now).0.data == t.data
    ensures Ops.CmsSources(s, keys, now).1 == Ops.CmsSources(t, keys, now).1
    ensures Ops.CmsSources(s, keys, now).2 == Ops.CmsSources(t, keys, now).2
    decreases |keys|
  {
    hide View, Front;
    if keys != [] {
      ViewAt(s, keys[0], now);
      ViewAt(t, keys[0], now);
      if Ops.SketchError(s, keys[0], now).None? {
        AlikeSources(Touch(s, keys[0]), Touch(t, keys[0]), keys[1..], now);
      }
    }
  }

  lemma AlikeCmsMerge(s: State, t: State, k: Bytes, keys: seq<Bytes>, weights: seq<CountMin.uint64>, now: int)
    requires Consistent(s) && Consistent(t) && Alike(s, t, now)
    ensures Alike(Ops.CmsMerge(s, k, keys, weights, now).0, Ops.CmsMerge(t, k, keys, weights, now).0, now)
    ensures Ops.CmsMerge(s, k, keys, weights, now).1 == Ops.CmsMerge(t, k, keys, weights, now).1
  {
    hide View, Consistent, Ops.CmsSources, Ops.Store, CountMin.MergeAll;
    if 0 < |keys| == |weights| {
      AlikeSources(s, t, keys, now);
      Ops.CmsSourcesShaped(s, keys, now);
      Ops.CmsSourcesShaped(t, keys, now);
      var (s1, error, sources) := Ops.CmsSources(s, keys, now);
      var t1 := Ops.CmsSources(t, keys, now).0;
      if error.None? && CountMin.MergeAll(sources, weights).Merged? {
        ViewAt(s1, k, now);
        ViewAt(t1, k, now);
        AlikeStore(s1, t1, k, Record(SketchV(CountMin.MergeAll(sources, weights).sketch), None), now);
      }
    }
  }

  lemma AlikeBfAdd(c: Config, s: State, t: State, op: Op, now: int)
    requires Consistent(s) && Consistent(t) && Alike(s, t, now) && op.BfAdd?
    ensures Alike(Effect(c, s, op, now).0, Effect(c, t, op, now).0, now)
    ensures Effect(c, s, op, now).1 == Effect(c, t, op, now).1
  {
    var k := op.key;
    var empty := Ops.EmptyBloom(c.size);
    ViewAt(s, k, now);
    ViewAt(t, k, now);
    AlikeStore(s, t, k, Record(BloomV(empty), None), now);
    StoredIs(s, k, Record(BloomV(empty), None), now);
    StoredIs(t, k, Record(BloomV(empty), None), now);
    hide View, Front, NoDuplicates, KeySet, Ops.AddEach, Ops.EmptyBloom, Ops.Store;
    if !Ops.Live(s, k, now) {
      var f := Ops.AddEach(c.hash, empty, op.items).0;
      AlikePut(Ops.BfCreate(s, k, c.size, now), Ops.BfCreate(t, k, c.size, now), k, Record(BloomV(f), None), now);
    } else if s.data[k].value.BloomV? {
      var f := Ops.AddEach(c.hash, s.data[k].value.filter, op.items).0;
      AlikePut(s, t, k, s.data[k].(value := BloomV(f)), now);
    }
  }

  lemma StoredIs(s: State, k: Bytes, record: Record, now: int)
    ensures k in Ops.Store(s, k, record, now).data && Ops.Store(s, k, record, now).data[k] == record
  {
  }

  /** The answers that do tell: how many records a DELETE found, stale ones included. */
  predicate Telling(op: Op) {
    op.Delete? || (op.Expire? && op.ttl <= 0)
  }

  /** Stores that look alike go on looking alike, and answer alike. */
  lemma AlikeEffect(c: Config, s: State, t: State, op: Op, now: int)
    requires Consistent(s) && Consistent(t) && Alike(s, t, now)
    ensures Alike(Effect(c, s, op, now).0, Effect(c, t, op, now).0, now)
    ensures !Telling(op) ==> Effect(c, s, op, now).1 == Effect(c, t, op, now).1
  {
    if op.Get? || op.Ttl? || op.SIsMember? || op.SMembers? || op.ZAsk? {
      AlikeReads(c, s, t, op, now);
    } else if op.BfExists? || op.BfInfo? || op.CmsInfo? || op.CmsQuery? {
      AlikeSketchReads(c, s, t, op, now);
    } else if op.BfAdd? {
      AlikeBfAdd(c, s, t, op, now);
    } else {
      AlikeWrites(c, s, t, op, now);
    }
  }

  lemma AlikeSet(s: State, t: State, k: Bytes, text: Bytes, ttl: int, now: int)
    requires Alike(s, t, now)
    ensures Alike(Ops.Set(s, k, text, ttl, now).0, Ops.Set(t, k, text, ttl, now).0, now)
    ensures Ops.Set(s, k, text, ttl, now).1 == Ops.Set(t, k, text, ttl, now).1
  {
    hide Alike, Ops.Store;
    AlikeStore(s, t, k, Record(StringV(text), if ttl > 0 then Some(now + ttl) else None), now);
  }

  lemma AlikeDelete(s: State, t: State, keys: seq<Bytes>, now: int)
    requires Alike(s, t, now)
    ensures Alike(Ops.Delete(s, keys).0, Ops.Delete(t, keys).0, now)
  {
    hide View, Ops.DeleteEach;
    ViewDelete(s, keys, now);
    ViewDelete(t, keys, now);
  }

  lemma AlikeExistsAll(s: State, t: State, keys: seq<Bytes>, now: int)
    requires Alike(s, t, now)
    ensures Alike(Ops.Exists(s, keys, now).0, Ops.Exists(t, keys, now).0, now)
    ensures Ops.Exists(s, keys, now).1 == Ops.Exists(t, keys, now).1
  {
    hide Alike, Ops.ExistsEach;
    AlikeExists(s, t, keys, now);
  }

  lemma AlikeInit(s: State, t: State, k: Bytes, width: nat, depth: nat, now: int)
    requires Alike(s, t, now)
    ensures Alike(Ops.CmsInit(s, k, width, depth, now).0, Ops.CmsInit(t, k, width, depth, now).0, now)
    ensures Ops.CmsInit(s, k, width, depth, now).1 == Ops.CmsInit(t, k, width, depth, now).1
  {
    LiveAlike(s, t, k, now);
    hide Alike, Ops.Live, Ops.Store;
    AlikeStore(s, t, k, Record(SketchV(CountMin.EmptySketch(width, depth)), None), now);
  }

  lemma AlikeReserve(s: State, t: State, k: Bytes, size: Option<Ops.BloomSize>, now: int)
    requires Alike(s, t, now)
    ensures Alike(Ops.BfReserve(s, k, size, now).0, Ops.BfReserve(t, k, size, now).0, now)
    ensures Ops.BfReserve(s, k, size, now).1 == Ops.BfReserve(t, k, size, now).1
  {
    LiveAlike(s, t, k, now);
    hide Alike, Ops.Live, Ops.Store, Ops.EmptyBloom;
    if size.Some? {
      AlikeStore(s, t, k, Record(BloomV(Ops.EmptyBloom(size.value)), None), now);
    }
  }

  lemma AlikeSweep(s: State, t: State, now: int)
    requires Alike(s, t, now)
    ensures Alike(Ops.Sweep(s, now), Ops.Sweep(t, now), now)
  {
    hide View, Ops.ExpireAll, Ops.StaleKeys;
    ViewExpireAll(s, Ops.StaleKeys(s, now), now);
    ViewExpireAll(t, Ops.StaleKeys(t, now), now);
  }

  lemma AlikeWrites(c: Config, s: State, t: State, op: Op, now: int)
    requires Consistent(s) && Consistent(t) && Alike(s, t, now)
    requires !(op.Get? || op.Ttl? || op.SIsMember? || op.SMembers? || op.ZAsk?)
    requires !(op.BfExists? || op.BfInfo? || op.CmsInfo? || op.CmsQuery? || op.BfAdd?)
    ensures Alike(Effect(c, s, op, now).0, Effect(c, t, op, now).0, now)
    ensures !Telling(op) ==> Effect(c, s, op, now).1 == Effect(c, t, op, now).1
  {
    hide Consistent, View, Ops.Set, Ops.Delete, Ops.Exists, Ops.Expire, Ops.Incr, Ops.SAdd, Ops.SRem, Ops.ZAdd, Ops.ZRem,
      Ops.CmsInit, Ops.CmsIncrBy, Ops.CmsMerge, Ops.BfReserve, Ops.Sweep;
    hide Alike;
    match op
    case Set(k, text, ttl) => AlikeSet(s, t, k, text, ttl, now);
    case Delete(keys) => AlikeDelete(s, t, keys, now);
    case Expire(k, ttl) => AlikeExpire(s, t, k, ttl, now);
    case Exists(keys) => AlikeExistsAll(s, t, keys, now);
    case Incr(k) => AlikeIncr(s, t, k, now);
    case SAdd(k, members) => AlikeSAdd(s, t, k, members, now);
    case SRem(k, members) => AlikeSRem(s, t, k, members, now);
    case ZAdd(k, scores) => AlikeZAdd(s, t, k, scores, now);
    case ZRem(k, members) => AlikeZRem(s, t, k, members, now);
    case CmsInit(k, width, depth) => AlikeInit(s, t, k, width, depth, now);
    case CmsIncrBy(k, increments) => AlikeCmsIncrBy(s, t, c.hash, k, increments, now);
    case CmsMerge(k, keys, weights) => AlikeCmsMerge(s, t, k, keys, weights, now);
    case BfReserve(k, size) => AlikeReserve(s, t, k, size, now);
    case Sweep => AlikeSweep(s, t, now);
  }

  lemma LiveAlike(s: State, t: State, k: Bytes, now: int)
    requires Alike(s, t, now)
    ensures Ops.Live(s, k, now) <==> Ops.Live(t, k, now)
  {
    ViewAt(s, k, now);
    ViewAt(t, k, now);
  }
}
