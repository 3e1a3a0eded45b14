/** Runs of store commands: what every run keeps, whatever the commands, limits and times. */
module StoreRuns {
  import opened Bytes
  import opened Options
  import opened FiniteSums
  import opened Policies
  import opened SortedItems
  import opened StoreSpec
  import Ops = StoreOps
  import Decimals
  import CountMin
  import SortedSets
  import Stores

  datatype Op =
    | Set(key: Bytes, text: Bytes, ttl: int)
    | Get(key: Bytes)
    | Delete(keys: seq<Bytes>)
    | Expire(key: Bytes, ttl: int)
    | Ttl(key: Bytes)
    | Exists(keys: seq<Bytes>)
    | Incr(key: Bytes)
    | SAdd(key: Bytes, members: seq<Bytes>)
    | SRem(key: Bytes, members: seq<Bytes>)
    | SIsMember(key: Bytes, member: Bytes)
    | SMembers(key: Bytes)
    | ZAdd(key: Bytes, scores: map<Bytes, Score>)
    | ZAsk(key: Bytes, question: SortedSets.Question)
    | ZRem(key: Bytes, members: seq<Bytes>)
    | CmsInit(key: Bytes, width: nat, depth: nat)
    | CmsIncrBy(key: Bytes, increments: seq<CountMin.Increment>)
    | CmsQuery(key: Bytes, items: seq<Bytes>)
    | CmsInfo(key: Bytes)
    | CmsMerge(key: Bytes, keys: seq<Bytes>, weights: seq<CountMin.uint64>)
    | BfReserve(key: Bytes, size: Option<Ops.BloomSize>)
    | BfAdd(key: Bytes, items: seq<Bytes>)
    | BfExists(key: Bytes, items: seq<Bytes>)
    | BfInfo(key: Bytes)
    | Sweep

  /** What is fixed when the store is made. */
  datatype Config = Config(lim: Limits, exact: bool, hash: Hash, size: Ops.BloomSize)

  /** The commands that end with an eviction run. */
  predicate Evicts(op: Op) {
    op.Set? || op.Incr? || op.SAdd? || op.ZAdd? || op.CmsInit? || op.CmsMerge? || op.BfReserve?
  }

  /** A command's effect, before any eviction, and its answer. */
  ghost function Effect(c: Config, s: State, op: Op, now: int): (State, Ops.Answer)
    requires Consistent(s)
  {
    match op
    case Set(k, text, ttl) => Ops.Set(s, k, text, ttl, now)
    case Get(k) => Ops.Get(s, k, now)
    case Delete(keys) => Ops.Delete(s, keys)
    case Expire(k, ttl) => Ops.Expire(s, k, ttl, now)
    case Ttl(k) => Ops.Ttl(s, k, now)
    case Exists(keys) => Ops.Exists(s, keys, now)
    case Incr(k) => Ops.Incr(s, k, now)
    case SAdd(k, members) => Ops.SAdd(s, k, members, now)
    case SRem(k, members) => Ops.SRem(s, k, members, now)
    case SIsMember(k, member) => Ops.SIsMember(s, k, member, now)
    case SMembers(k) => Ops.SMembers(s, k, now)
    case ZAdd(k, scores) => Ops.ZAdd(s, k, scores, now)
    case ZAsk(k, question) => Ops.ZAsk(s, k, question, now)
    case ZRem(k, members) => Ops.ZRem(s, k, members, now)
    case CmsInit(k, width, depth) => Ops.CmsInit(s, k, width, depth, now)
    case CmsIncrBy(k, increments) => Ops.CmsIncrBy(s, c.hash, k, increments, now)
    case CmsQuery(k, items) => Ops.CmsQuery(s, c.hash, k, items, now)
    case CmsInfo(k) => Ops.CmsInfo(s, k, now)
    case CmsMerge(k, keys, weights) => Ops.CmsMerge(s, k, keys, weights, now)
    case BfReserve(k, size) => Ops.BfReserve(s, k, size, now)
    case BfAdd(k, items) =>
      if Ops.Live(s, k, now) then Ops.BfAddLive(s, c.hash, k, items)
      else Ops.BfFilled(Ops.BfCreate(s, k, c.size, now), c.hash, k, items, c.size)
    case BfExists(k, items) => Ops.BfExists(s, c.hash, k, items, now)
    case BfInfo(k) => Ops.BfInfo(s, k, now)
    case Sweep => (Ops.Sweep(s, now), Ops.Done)
  }

  /** One command at `now` may lead from `s` to `t` with this answer. */
  ghost predicate Step(c: Config, s: State, op: Op, now: int, t: State, answer: Ops.Answer)
    requires Consistent(s)
  {
    if op.BfAdd? then Ops.BfAdded(c.lim, c.exact, s, c.hash, op.key, op.items, c.size, now, t, answer)
    else if Evicts(op) then Settled(c.lim, c.exact, Effect(c, s, op, now).0, t) && answer == Effect(c, s, op, now).1
    else (t, answer) == Effect(c, s, op, now)
  }

  ghost function ConfigOf(store: Stores.Store): Config {
    Config(store.Lim(), store.Exact(), store.hash, store.bloomDefault)
  }

  /** Commands on strings. */
  predicate OnStrings(op: Op) {
    op.Set? || op.Get? || op.Incr?
  }

  /** Commands on keys of any type. */
  predicate OnKeys(op: Op) {
    op.Delete? || op.Expire? || op.Ttl? || op.Exists? || op.Sweep?
  }

  /** Commands on sets. */
  predicate OnSets(op: Op) {
    op.SAdd? || op.SRem? || op.SIsMember? || op.SMembers?
  }

  /** Commands on sorted sets. */
  predicate OnSortedSets(op: Op) {
    op.ZAdd? || op.ZAsk? || op.ZRem?
  }

  /** Commands on sketches. */
  predicate OnSketches(op: Op) {
    op.CmsInit? || op.CmsIncrBy? || op.CmsQuery? || op.CmsInfo? || op.CmsMerge?
  }

  /** Commands on filters. */
  predicate OnFilters(op: Op) {
    op.BfReserve? || op.BfAdd? || op.BfExists? || op.BfInfo?
  }

  lemma StringSteps(c: Config, s: State, op: Op, now: int, t: State, a: Ops.Answer)
    requires Consistent(s) && OnStrings(op)
    requires op.Set? ==> a == Ops.Done && Settled(c.lim, c.exact, Ops.Set(s, op.key, op.text, op.ttl, now).0, t)
    requires op.Get? ==> (t, a) == Ops.Get(s, op.key, now)
    requires op.Incr? ==> Settled(c.lim, c.exact, Ops.Incr(s, op.key, now).0, t) && a == Ops.Incr(s, op.key, now).1
    ensures Step(c, s, op, now, t, a)
  {
    hide Consistent, Settled, Ops.Get, Ops.Incr, Ops.Store;
  }

  lemma KeySteps(c: Config, s: State, op: Op, now: int, t: State, a: Ops.Answer)
    requires Consistent(s) && OnKeys(op)
    requires op.Delete? ==> a.Number? && (t, a.n) == Ops.DeleteEach(s, op.keys)
    requires op.Expire? ==> (t, a) == Ops.Expire(s, op.key, op.ttl, now)
    requires op.Ttl? ==> (t, a) == Ops.Ttl(s, op.key, now)
    requires op.Exists? ==> a.Number? && (t, a.n) == Ops.ExistsEach(s, op.keys, now)
    requires op.Sweep? ==> t == Ops.Sweep(s, now) && a == Ops.Done
    ensures Step(c, s, op, now, t, a)
  {
    hide Consistent, Settled, Ops.Expire, Ops.Ttl, Ops.DeleteEach, Ops.ExistsEach, Ops.ExpireAll;
  }

  lemma SetSteps(c: Config, s: State, op: Op, now: int, t: State, a: Ops.Answer)
    requires Consistent(s) && OnSets(op)
    requires op.SAdd? ==> Settled(c.lim, c.exact, Ops.SAdd(s, op.key, op.members, now).0, t) && a == Ops.SAdd(s, op.key, op.members, now).1
    requires op.SRem? ==> (t, a) == Ops.SRem(s, op.key, op.members, now)
    requires op.SIsMember? ==> (t, a) == Ops.SIsMember(s, op.key, op.member, now)
    requires op.SMembers? ==> (t, a) == Ops.SMembers(s, op.key, now)
    ensures Step(c, s, op, now, t, a)
  {
    hide Consistent, Settled, Ops.SAdd, Ops.SRem, Ops.SIsMember, Ops.SMembers;
  }

  lemma SortedSetSteps(c: Config, s: State, op: Op, now: int, t: State, a: Ops.Answer)
    requires Consistent(s) && OnSortedSets(op)
    requires op.ZAdd? ==> Settled(c.lim, c.exact, Ops.ZAdd(s, op.key, op.scores, now).0, t) && a == Ops.ZAdd(s, op.key, op.scores, now).1
    requires op.ZAsk? ==> (t, a) == Ops.ZAsk(s, op.key, op.question, now)
    requires op.ZRem? ==> (t, a) == Ops.ZRem(s, op.key, op.members, now)
    ensures Step(c, s, op, now, t, a)
  {
    hide Consistent, Settled, Ops.ZAdd, Ops.ZAsk, Ops.ZRem;
  }

  lemma SketchSteps(c: Config, s: State, op: Op, now: int, t: State, a: Ops.Answer)
    requires Consistent(s) && OnSketches(op)
    requires op.CmsInit? ==>
      Settled(c.lim, c.exact, Ops.CmsInit(s, op.key, op.width, op.depth, now).0, t) && a == Ops.CmsInit(s, op.key, op.width, op.depth, now).1
    requires op.CmsIncrBy? ==> (t, a) == Ops.CmsIncrBy(s, c.hash, op.key, op.increments, now)
    requires op.CmsQuery? ==> (t, a) == Ops.CmsQuery(s, c.hash, op.key, op.items, now)
    requires op.CmsInfo? ==> (t, a) == Ops.CmsInfo(s, op.key, now)
    requires op.CmsMerge? ==>
      Settled(c.lim, c.exact, Ops.CmsMerge(s, op.key, op.keys, op.weights, now).0, t) && a == Ops.CmsMerge(s, op.key, op.keys, op.weights, now).1
    ensures Step(c, s, op, now, t, a)
  {
    hide Consistent, Settled, Ops.CmsInit, Ops.CmsIncrBy, Ops.CmsQuery, Ops.CmsInfo, Ops.CmsMerge;
  }

  lemma FilterSteps(c: Config, s: State, op: Op, now: int, t: State, a: Ops.Answer)
    requires Consistent(s) && OnFilters(op)
    requires op.BfReserve? ==> Settled(c.lim, c.exact, Ops.BfReserve(s, op.key, op.size, now).0, t) && a == Ops.BfReserve(s, op.key, op.size, now).1
    requires op.BfAdd? ==> Ops.BfAdded(c.lim, c.exact, s, c.hash, op.key, op.items, c.size, now, t, a)
    requires op.BfExists? ==> (t, a) == Ops.BfExists(s, c.hash, op.key, op.items, now)
    requires op.BfInfo? ==> (t, a) == Ops.BfInfo(s, op.key, now)
    ensures Step(c, s, op, now, t, a)
  {
    hide Consistent, Settled, Ops.BfReserve, Ops.BfAdded, Ops.BfExists, Ops.BfInfo;
  }

  /** What a store's state and settings are for the steps it takes. */
  lemma StoreFacts(store: Stores.Store)
    requires store.Valid()
    ensures Consistent(store.State())
    ensures ConfigOf(store) == Config(store.Lim(), store.Exact(), store.hash, store.bloomDefault)
  {
  }

  method PerformStrings(store: Stores.Store, op: Op, now: int) returns (answer: Ops.Answer)
    requires store.Valid() && OnStrings(op)
    modifies store, store.policy
    ensures store.Valid() && Step(ConfigOf(store), old(store.State()), op, now, store.State(), answer)
  {
    assert op.Set? || op.Get? || op.Incr?;
    hide *;
    StoreFacts(store);
    ghost var s := store.State();
    match op {
      case Set(k, text, ttl) => { store.Set(k, text, ttl, now); answer := Ops.Done; }
      case Get(k) => { var text := store.Get(k, now); answer := Ops.Text(text); }
      case Incr(k) => answer := store.Incr(k, now);
    }
    StoreFacts(store);
    StringSteps(ConfigOf(store), s, op, now, store.State(), answer);
  }

  method PerformKeys(store: Stores.Store, op: Op, now: int) returns (answer: Ops.Answer)
    requires store.Valid() && OnKeys(op)
    modifies store, store.policy
    ensures store.Valid() && Step(ConfigOf(store), old(store.State()), op, now, store.State(), answer)
  {
    assert op.Delete? || op.Expire? || op.Ttl? || op.Exists? || op.Sweep?;
    hide *;
    StoreFacts(store);
    ghost var s := store.State();
    match op {
      case Delete(keys) => { var n := store.Delete(keys); answer := Ops.Number(n); }
      case Expire(k, ttl) => { var done := store.Expire(k, ttl, now); answer := Ops.Flag(done); }
      case Ttl(k) => { var n := store.Ttl(k, now); answer := Ops.Number(n); }
      case Exists(keys) => { var n := store.Exists(keys, now); answer := Ops.Number(n); }
      case Sweep => { var _, _ := store.Sweep(now); answer := Ops.Done; }
    }
    StoreFacts(store);
    KeySteps(ConfigOf(store), s, op, now, store.State(), answer);
  }

  method PerformSets(store: Stores.Store, op: Op, now: int) returns (answer: Ops.Answer)
    requires store.Valid() && OnSets(op)
    modifies store, store.policy
    ensures store.Valid() && Step(ConfigOf(store), old(store.State()), op, now, store.State(), answer)
  {
    assert op.SAdd? || op.SRem? || op.SIsMember? || op.SMembers?;
    hide *;
    StoreFacts(store);
    ghost var s := store.State();
    match op {
      case SAdd(k, members) => answer := store.SAdd(k, members, now);
      case SRem(k, members) => answer := store.SRem(k, members, now);
      case SIsMember(k, member) => answer := store.SIsMember(k, member, now);
      case SMembers(k) => answer := store.SMembers(k, now);
    }
    StoreFacts(store);
    SetSteps(ConfigOf(store), s, op, now, store.State(), answer);
  }

  method PerformSketches(store: Stores.Store, op: Op, now: int) returns (answer: Ops.Answer)
    requires store.Valid() && OnSketches(op)
    modifies store, store.policy
    ensures store.Valid() && Step(ConfigOf(store), old(store.State()), op, now, store.State(), answer)
  {
    assert op.CmsInit? || op.CmsIncrBy? || op.CmsQuery? || op.CmsInfo? || op.CmsMerge?;
    hide *;
    StoreFacts(store);
    ghost var s := store.State();
    match op {
      case CmsInit(k, width, depth) => answer := store.CmsInit(k, width, depth, now);
      case CmsIncrBy(k, increments) => answer := store.CmsIncrBy(k, increments, now);
      case CmsQuery(k, items) => answer := store.CmsQuery(k, items, now);
      case CmsInfo(k) => answer := store.CmsInfo(k, now);
      case CmsMerge(k, keys, weights) => answer := store.CmsMerge(k, keys, weights, now);
    }
    StoreFacts(store);
    SketchSteps(ConfigOf(store), s, op, now, store.State(), answer);
  }

  method PerformFilters(store: Stores.Store, op: Op, now: int) returns (answer: Ops.Answer)
    requires store.Valid() && OnFilters(op)
    modifies store, store.policy
    ensures store.Valid() && Step(ConfigOf(store), old(store.State()), op, now, store.State(), answer)
  {
    assert op.BfReserve? || op.BfAdd? || op.BfExists? || op.BfInfo?;
    hide *;
    StoreFacts(store);
    ghost var s := store.State();
    match op {
      case BfReserve(k, size) => answer := store.BfReserve(k, size, now);
      case BfAdd(k, items) => answer := store.BfMultiAdd(k, items, now);
      case BfExists(k, items) => answer := store.BfExists(k, items, now);
      case BfInfo(k) => answer := store.BfInfo(k, now);
    }
    StoreFacts(store);
    FilterSteps(ConfigOf(store), s, op, now, store.State(), answer);
  }

  /** The store's methods take exactly these steps; commands on sorted sets are in `IndexedStores`. */
  method Perform(store: Stores.Store, op: Op, now: int) returns (answer: Ops.Answer)
    requires store.Valid() && !OnSortedSets(op)
    modifies store, store.policy
    ensures store.Valid() && Step(ConfigOf(store), old(store.State()), op, now, store.State(), answer)
  {
    hide Consistent, Used, Over, Settled, Fit, Step, Effect;
    if OnStrings(op) {
      answer := PerformStrings(store, op, now);
    } else if OnKeys(op) {
      answer := PerformKeys(store, op, now);
    } else if OnSets(op) {
      answer := PerformSets(store, op, now);
    } else if OnSketches(op) {
      answer := PerformSketches(store, op, now);
    } else {
      answer := PerformFilters(store, op, now);
    }
  }

  // ----- what every command keeps -----

  ghost function LiveKeys(s: State, now: int): set<Bytes> {
    s.data.Keys - Ops.StaleKeys(s, now)
  }

  /** From `s` to `t` at `now`, in numbers: every key stays accounted for, no key becomes stale, no more
      keys expire than were stale, and no more live keys go than are deleted, emptied or evicted. Which
      keys may go, one by one, is the matter of `Removals`. */
  ghost predicate Orderly(s: State, t: State, now: int) {
    && Consistent(t) && t.tracked == s.tracked
    && Ops.StaleKeys(t, now) <= Ops.StaleKeys(s, now)
    && 0 <= t.tally.expired - s.tally.expired <= |Ops.StaleKeys(s, now)| - |Ops.StaleKeys(t, now)|
    && |LiveKeys(s, now) - t.data.Keys|
       <= t.tally.deleted - s.tally.deleted + t.tally.emptied - s.tally.emptied + t.tally.evicted - s.tally.evicted
  }

  lemma OrderlyThen(s: State, m: State, t: State, now: int)
    requires Orderly(s, m, now) && Orderly(m, t, now)
    ensures Orderly(s, t, now)
  {
    var a, b := LiveKeys(s, now) - m.data.Keys, LiveKeys(m, now) - t.data.Keys;
    assert LiveKeys(s, now) - t.data.Keys <= a + b;
    CardinalityBelow(LiveKeys(s, now) - t.data.Keys, a + b);
    CardinalityUnion(a, b);
  }

  /** The same keys, none of them newly stale, and no key counted out. */
  lemma SameKeysOrderly(s: State, t: State, now: int)
    requires Consistent(t) && t.tracked == s.tracked && t.data.Keys == s.data.Keys
    requires forall k :: k in t.data && Ops.Expired(t.data[k], now) ==> Ops.Expired(s.data[k], now)
    requires t.tally == s.tally.(hits := t.tally.hits, misses := t.tally.misses)
    ensures Orderly(s, t, now)
  {
    CardinalityBelow(Ops.StaleKeys(t, now), Ops.StaleKeys(s, now));
    assert LiveKeys(s, now) - t.data.Keys == {};
  }

  lemma TouchOrderly(s: State, k: Bytes, now: int)
    requires Consistent(s) && k in s.data
    ensures Orderly(s, Touch(s, k), now) && Orderly(s, Touch(Ops.Hit(s), k), now)
  {
    TouchConsistent(s, k);
    TouchConsistent(Ops.Hit(s), k);
    hide Consistent, Front;
    SameKeysOrderly(s, Touch(s, k), now);
    SameKeysOrderly(s, Touch(Ops.Hit(s), k), now);
  }

  lemma MissOrderly(s: State, now: int)
    requires Consistent(s)
    ensures Orderly(s, s, now) && Orderly(s, Ops.Miss(s), now)
  {
    SameKeysOrderly(s, s, now);
    SameKeysOrderly(s, Ops.Miss(s), now);
  }

  lemma OverwriteOrderly(s: State, k: Bytes, record: Record, now: int)
    requires Consistent(s) && k in s.data && ShapedValue(record.value)
    requires Ops.Expired(record, now) ==> Ops.Expired(s.data[k], now)
    ensures Orderly(s, Overwrite(s, k, record), now)
  {
    OverwriteConsistent(s, k, record);
    hide Consistent, Front, ShapedValue;
    assert Overwrite(s, k, record).data.Keys == s.data.Keys;
    SameKeysOrderly(s, Overwrite(s, k, record), now);
  }

  /** A new value under an old key, without an access. */
  lemma PutOrderly(s: State, k: Bytes, value: Value, now: int)
    requires Consistent(s) && k in s.data && ShapedValue(value)
    ensures Orderly(s, s.(data := s.data[k := s.data[k].(value := value)]), now)
  {
    hide NoDuplicates, KeySet, ShapedValue;
    var t := s.(data := s.data[k := s.data[k].(value := value)]);
    assert t.data.Keys == s.data.Keys;
    assert |t.data| == |t.data.Keys| == |s.data|;
    SameKeysOrderly(s, t, now);
  }

  lemma InsertIs(s: State, k: Bytes, record: Record)
    ensures var t := Insert(s, k, record);
      t.data == s.data[k := record] && t.tracked == s.tracked && t.tally == s.tally.(inserted := s.tally.inserted + 1)
  {
  }

  lemma InsertOrderly(s: State, k: Bytes, record: Record, now: int)
    requires Consistent(s) && k !in s.data && ShapedValue(record.value) && !Ops.Expired(record, now)
    ensures Orderly(s, Insert(s, k, record), now)
  {
    InsertConsistent(s, k, record);
    InsertIs(s, k, record);
    hide Consistent, Insert, ShapedValue;
    PutUnderNewKey(s, Insert(s, k, record), k, record, now);
    hide Ops.StaleKeys, LiveKeys;
  }

  lemma PutUnderNewKey(s: State, t: State, k: Bytes, record: Record, now: int)
    requires k !in s.data && t.data == s.data[k := record] && !Ops.Expired(record, now)
    ensures Ops.StaleKeys(t, now) == Ops.StaleKeys(s, now) && LiveKeys(s, now) - t.data.Keys == {}
  {
  }

  lemma PurgeOrderly(s: State, k: Bytes, now: int)
    requires Consistent(s)
    ensures Orderly(s, Ops.Purge(s, k, now), now)
  {
    if Ops.Stale(s, k, now) {
      DropConsistent(s, k);
      hide Consistent, Without;
      var t := DropExpired(s, k);
      assert Ops.StaleKeys(t, now) == Ops.StaleKeys(s, now) - {k};
      assert LiveKeys(s, now) - t.data.Keys == {};
    } else {
      MissOrderly(s, now);
    }
  }

  /** One key less, counted as deleted or as emptied. */
  lemma OneLessOrderly(s: State, t: State, k: Bytes, now: int)
    requires k in s.data && t.data == s.data - {k} && Consistent(t) && t.tracked == s.tracked
    requires t.tally == s.tally.(deleted := t.tally.deleted, emptied := t.tally.emptied)
    requires t.tally.deleted + t.tally.emptied == s.tally.deleted + s.tally.emptied + 1
    ensures Orderly(s, t, now)
  {
    hide Consistent;
    assert Ops.StaleKeys(t, now) == Ops.StaleKeys(s, now) - {k};
    CardinalityBelow(LiveKeys(s, now) - t.data.Keys, {k});
  }

  lemma DropOrderly(s: State, k: Bytes, now: int)
    requires Consistent(s) && k in s.data
    ensures Orderly(s, DropDeleted(s, k), now) && Orderly(s, DropEmptied(s, k), now)
  {
    DropConsistent(s, k);
    hide Consistent, Without, Orderly;
    OneLessOrderly(s, DropDeleted(s, k), k, now);
    OneLessOrderly(s, DropEmptied(s, k), k, now);
  }

  lemma RestrictIsPart(all: Data, part: Data)
    requires part == Restrict(all, part.Keys)
    ensures part.Keys <= all.Keys && forall k :: k in part ==> part[k] == all[k]
  {
  }

  /** An eviction run takes records away and counts them. */
  lemma SettledFacts(lim: Limits, exact: bool, s: State, t: State)
    requires Consistent(s) && Settled(lim, exact, s, t)
    ensures Consistent(t) && t.tracked == s.tracked && t.data.Keys <= s.data.Keys
    ensures forall k :: k in t.data ==> t.data[k] == s.data[k]
    ensures t.tally == s.tally.(evicted := t.tally.evicted)
    ensures |s.data.Keys - t.data.Keys| == t.tally.evicted - s.tally.evicted
  {
    hide NoDuplicates, KeySet, ShapedValue, Fit, Over, Restrict;
    RestrictIsPart(s.data, t.data);
    assert s.data.Keys == t.data.Keys + (s.data.Keys - t.data.Keys);
    assert |s.data.Keys| == |s.data| && |t.data.Keys| == |t.data|;
  }

  lemma FewerStale(s: State, t: State, now: int)
    requires t.data.Keys <= s.data.Keys && forall k :: k in t.data ==> t.data[k] == s.data[k]
    ensures Ops.StaleKeys(t, now) <= Ops.StaleKeys(s, now) && LiveKeys(s, now) - t.data.Keys <= s.data.Keys - t.data.Keys
  {
  }

  /** Records gone, each counted as evicted. */
  lemma FewerOrderly(s: State, t: State, now: int)
    requires Consistent(t) && t.tracked == s.tracked && t.data.Keys <= s.data.Keys
    requires forall k :: k in t.data ==> t.data[k] == s.data[k]
    requires t.tally == s.tally.(evicted := t.tally.evicted)
    requires |s.data.Keys - t.data.Keys| == t.tally.evicted - s.tally.evicted
    ensures Orderly(s, t, now)
  {
    FewerStale(s, t, now);
    hide Consistent, Ops.StaleKeys, LiveKeys;
    CardinalityBelow(Ops.StaleKeys(t, now), Ops.StaleKeys(s, now));
    CardinalityBelow(LiveKeys(s, now) - t.data.Keys, s.data.Keys - t.data.Keys);
  }

  lemma SettledOrderly(lim: Limits, exact: bool, s: State, t: State, now: int)
    requires Consistent(s) && Settled(lim, exact, s, t)
    ensures Orderly(s, t, now)
  {
    SettledFacts(lim, exact, s, t);
    hide Consistent, Settled, Orderly;
    FewerOrderly(s, t, now);
  }

  lemma StoreOrderly(s: State, k: Bytes, record: Record, now: int)
    requires Consistent(s) && ShapedValue(record.value) && !Ops.Expired(record, now)
    ensures Orderly(s, Ops.Store(s, k, record, now), now)
  {
    hide Consistent, Orderly, ShapedValue;
    if Ops.Live(s, k, now) {
      OverwriteOrderly(s, k, record, now);
    } else {
      PurgeOrderly(s, k, now);
      var m := Ops.Purge(s, k, now);
      OrderlyConsistent(s, m, now);
      InsertOrderly(m, k, record, now);
      OrderlyThen(s, m, Insert(m, k, record), now);
    }
  }

  lemma OrderlyConsistent(s: State, t: State, now: int)
    requires Orderly(s, t, now)
    ensures Consistent(t) && t.tracked == s.tracked
  {
  }

  // ----- commands that never need an eviction -----

  ghost predicate NoLarger(s: State, t: State) {
    t.data.Keys <= s.data.Keys && forall k :: k in t.data ==> RecordSize(k, t.data[k]) <= RecordSize(k, s.data[k])
  }

  lemma NoLargerFits(s: State, t: State, lim: Limits)
    requires NoLarger(s, t) && !Over(s.data, lim)
    ensures !Over(t.data, lim)
  {
    var rest := s.data.Keys - t.data.Keys;
    assert s.data.Keys == t.data.Keys + rest;
    SumUnion(t.data.Keys, rest, SizeIn(s.data));
    forall k | k in rest ensures SizeIn(s.data)(k) >= 0 {
      SizesNonNegative(s.data, k);
    }
    SumNonNegative(rest, SizeIn(s.data));
    SumMonotone(t.data.Keys, SizeIn(t.data), SizeIn(s.data));
  }

  /** An orderly step that leaves no record larger. */
  ghost predicate Moves(s: State, t: State, now: int) {
    Orderly(s, t, now) && NoLarger(s, t)
  }

  lemma MovesThen(s: State, m: State, t: State, now: int)
    requires Moves(s, m, now) && Moves(m, t, now)
    ensures Moves(s, t, now)
  {
    OrderlyThen(s, m, t, now);
    hide Orderly, RecordSize;
  }

  lemma MovesConsistent(s: State, t: State, now: int)
    requires Moves(s, t, now)
    ensures Consistent(t) && t.tracked == s.tracked
  {
  }

  lemma StayMoves(s: State, now: int)
    requires Consistent(s)
    ensures Moves(s, s, now) && Moves(s, Ops.Miss(s), now)
  {
    MissOrderly(s, now);
    hide Orderly, Consistent, RecordSize;
  }

  lemma PurgeMoves(s: State, k: Bytes, now: int)
    requires Consistent(s)
    ensures Moves(s, Ops.Purge(s, k, now), now) && Moves(s, Ops.Miss(Ops.Purge(s, k, now)), now)
  {
    PurgeOrderly(s, k, now);
    OrderlyConsistent(s, Ops.Purge(s, k, now), now);
    MissOrderly(Ops.Purge(s, k, now), now);
    OrderlyThen(s, Ops.Purge(s, k, now), Ops.Miss(Ops.Purge(s, k, now)), now);
    hide Orderly, Consistent, RecordSize, Without;
  }

  lemma TouchMoves(s: State, k: Bytes, now: int)
    requires Consistent(s) && k in s.data
    ensures Moves(s, Touch(s, k), now) && Moves(s, Touch(Ops.Hit(s), k), now)
  {
    TouchOrderly(s, k, now);
    hide Orderly, Consistent, RecordSize, Front;
  }

  lemma DropMoves(s: State, k: Bytes, now: int)
    requires Consistent(s) && k in s.data
    ensures Moves(s, DropDeleted(s, k), now) && Moves(s, DropEmptied(s, k), now)
  {
    DropOrderly(s, k, now);
    hide Orderly, Consistent, RecordSize, Without;
  }

  lemma ReadMoves(s: State, k: Bytes, now: int)
    requires Consistent(s)
    ensures Moves(s, Ops.Purge(s, k, now), now) && Moves(s, Ops.Miss(Ops.Purge(s, k, now)), now)
    ensures k in s.data ==> Moves(s, Touch(s, k), now) && Moves(s, Touch(Ops.Hit(s), k), now)
  {
    PurgeMoves(s, k, now);
    if k in s.data {
      TouchMoves(s, k, now);
    }
  }

  lemma PutNoLarger(s: State, k: Bytes, record: Record)
    requires k in s.data && RecordSize(k, record) <= RecordSize(k, s.data[k])
    ensures NoLarger(s, s.(data := s.data[k := record])) && NoLarger(s, Overwrite(s, k, record))
  {
    hide RecordSize, Front;
  }

  /** A live record rewritten no larger, with or without an access. */
  lemma RewriteMoves(s: State, k: Bytes, value: Value, now: int)
    requires Consistent(s) && k in s.data && ShapedValue(value) && ValueSize(value) <= ValueSize(s.data[k].value)
    ensures Moves(s, Overwrite(s, k, s.data[k].(value := value)), now)
    ensures Moves(s, s.(data := s.data[k := s.data[k].(value := value)]), now)
  {
    OverwriteOrderly(s, k, s.data[k].(value := value), now);
    PutOrderly(s, k, value, now);
    hide Orderly, NoLarger, Consistent, Front, Overwrite, ValueSize, ShapedValue;
    PutNoLarger(s, k, s.data[k].(value := value));
  }

  /** A live record given a later end. */
  lemma ProlongMoves(s: State, k: Bytes, ttl: Option<int>, now: int)
    requires Consistent(s) && Ops.Live(s, k, now) && (ttl.Some? ==> ttl.value >= now)
    ensures Moves(s, Overwrite(s, k, s.data[k].(ttl := ttl)), now)
  {
    OverwriteOrderly(s, k, s.data[k].(ttl := ttl), now);
    hide Orderly, NoLarger, Consistent, Front, Overwrite, ValueSize, ShapedValue;
    PutNoLarger(s, k, s.data[k].(ttl := ttl));
  }

  lemma {:induction false} DeleteMoves(s: State, keys: seq<Bytes>, now: int)
    requires Consistent(s)
    ensures Moves(s, Ops.DeleteEach(s, keys).0, now)
    decreases |keys|
  {
    hide Consistent, Moves, DropDeleted;
    if keys == [] {
      StayMoves(s, now);
    } else if keys[0] in s.data {
      DropMoves(s, keys[0], now);
      var m := DropDeleted(s, keys[0]);
      MovesConsistent(s, m, now);
      DeleteMoves(m, keys[1..], now);
      MovesThen(s, m, Ops.DeleteEach(m, keys[1..]).0, now);
    } else {
      DeleteMoves(s, keys[1..], now);
    }
  }

  lemma {:induction false} ExistsMoves(s: State, keys: seq<Bytes>, now: int)
    requires Consistent(s)
    ensures Moves(s, Ops.ExistsEach(s, keys, now).0, now)
    decreases |keys|
  {
    hide Consistent, Moves;
    if keys == [] {
      StayMoves(s, now);
    } else {
      PurgeMoves(s, keys[0], now);
      var m := Ops.Purge(s, keys[0], now);
      MovesConsistent(s, m, now);
      ExistsMoves(m, keys[1..], now);
      MovesThen(s, m, Ops.ExistsEach(m, keys[1..], now).0, now);
    }
  }

  lemma {:induction false} ExpireAllMoves(s: State, gone: set<Bytes>, now: int)
    requires Consistent(s) && gone <= Ops.StaleKeys(s, now)
    ensures Moves(s, Ops.ExpireAll(s, gone), now)
  {
    hide Consistent, Moves;
    if gone == {} {
      Ops.ExpireNone(s);
      StayMoves(s, now);
    } else {
      var k :| k in gone;
      ExpireAllMoves(s, gone - {k}, now);
      var m := Ops.ExpireAll(s, gone - {k});
      MovesConsistent(s, m, now);
      assert Ops.Stale(m, k, now);
      PurgeMoves(m, k, now);
      Ops.ExpireOneMore(s, gone - {k}, k);
      assert gone - {k} + {k} == gone;
      MovesThen(s, m, Ops.ExpireAll(s, gone), now);
    }
  }

  lemma {:induction false} SourcesMove(s: State, keys: seq<Bytes>, now: int)
    requires Consistent(s)
    ensures Moves(s, Ops.CmsSources(s, keys, now).0, now)
    decreases |keys|
  {
    hide Consistent, Moves, Touch;
    StayMoves(s, now);
    if keys != [] && Ops.SketchError(s, keys[0], now).None? {
      TouchMoves(s, keys[0], now);
      var m := Touch(s, keys[0]);
      MovesConsistent(s, m, now);
      SourcesMove(m, keys[1..], now);
      MovesThen(s, m, Ops.CmsSources(m, keys[1..], now).0, now);
    }
  }

  lemma ExpireMoves(s: State, k: Bytes, ttl: int, now: int)
    requires Consistent(s)
    ensures Moves(s, Ops.Expire(s, k, ttl, now).0, now)
  {
    hide Moves, Consistent, Overwrite, Ops.Purge, Ops.DeleteEach;
    DeleteMoves(s, [k], now);
    PurgeMoves(s, k, now);
    if ttl > 0 && Ops.Live(s, k, now) {
      ProlongMoves(s, k, Some(now + ttl), now);
    }
  }

  lemma MembersSizeBelow(some: set<Bytes>, all: set<Bytes>)
    requires some <= all
    ensures Sum(some, Length) <= Sum(all, Length) && SortedSets.MembersSize(some) <= SortedSets.MembersSize(all)
  {
    assert all == some + (all - some);
    SumUnion(some, all - some, Length);
    SumUnion(some, all - some, SortedSets.MemberSize);
    SumNonNegative(all - some, Length);
    SumNonNegative(all - some, SortedSets.MemberSize);
  }

  lemma RemovalMoves(s: State, k: Bytes, members: seq<Bytes>, now: int)
    requires Consistent(s)
    ensures Moves(s, Ops.SRem(s, k, members, now).0, now) && Moves(s, Ops.ZRem(s, k, members, now).0, now)
  {
    hide Consistent, Moves, SortedSets.SetOf, SortedSets.MembersSize, Sum, Overwrite, DropEmptied;
    PurgeMoves(s, k, now);
    StayMoves(s, now);
    if Ops.Live(s, k, now) {
      DropMoves(s, k, now);
      var value, gone := s.data[k].value, SortedSets.SetOf(members);
      if value.SetV? {
        MembersSizeBelow(value.members - gone * value.members, value.members);
        RewriteMoves(s, k, SetV(value.members - gone * value.members), now);
      } else if value.ZSetV? {
        var left := value.scores - gone * value.scores.Keys;
        MembersSizeBelow(left.Keys, value.scores.Keys);
        RewriteMoves(s, k, ZSetV(left), now);
      }
    }
  }

  lemma CmsIncrByMoves(s: State, h: Hash, k: Bytes, batch: seq<CountMin.Increment>, now: int)
    requires Consistent(s)
    ensures Moves(s, Ops.CmsIncrBy(s, h, k, batch, now).0, now)
  {
    hide Moves, NoDuplicates, KeySet, CountMin.IncrementAll, Touch;
    StayMoves(s, now);
    if Ops.SketchError(s, k, now).None? {
      var value := SketchV(CountMin.IncrementAll(h, s.data[k].value.sketch, batch).0);
      RewriteMoves(s, k, value, now);
      var t := s.(data := s.data[k := s.data[k].(value := value)]);
      MovesConsistent(s, t, now);
      TouchMoves(t, k, now);
      MovesThen(s, t, Touch(t, k), now);
    }
  }

  lemma BfAddLiveMoves(s: State, h: Hash, k: Bytes, items: seq<Bytes>, now: int)
    requires Consistent(s) && k in s.data
    ensures Moves(s, Ops.BfAddLive(s, h, k, items).0, now)
  {
    hide Moves, NoDuplicates, KeySet, Ops.AddEach, Front;
    StayMoves(s, now);
    if s.data[k].value.BloomV? {
      var value := BloomV(Ops.AddEach(h, s.data[k].value.filter, items).0);
      TouchMoves(s, k, now);
      var m := Touch(s, k);
      MovesConsistent(s, m, now);
      RewriteMoves(m, k, value, now);
      MovesThen(s, m, Ops.SetFilter(m, k, value.filter), now);
    }
  }

  /** Commands without an eviction are orderly and leave no record larger. */
  lemma EffectMoves(c: Config, s: State, op: Op, now: int)
    requires Consistent(s) && !Evicts(op) && (op.BfAdd? ==> Ops.Live(s, op.key, now))
    ensures Moves(s, Effect(c, s, op, now).0, now)
  {
    hide Consistent, Moves, Touch, Ops.Purge, Ops.Hit, Ops.Miss, Ops.Expire, Ops.DeleteEach, Ops.ExistsEach, Ops.SRem, Ops.ZRem,
      Ops.CmsIncrBy, Ops.BfAddLive, Ops.ExpireAll;
    StayMoves(s, now);
    match op
    case Delete(keys) => DeleteMoves(s, keys, now);
    case Exists(keys) => ExistsMoves(s, keys, now);
    case Expire(k, ttl) => ExpireMoves(s, k, ttl, now);
    case SRem(k, members) => RemovalMoves(s, k, members, now);
    case ZRem(k, members) => RemovalMoves(s, k, members, now);
    case CmsIncrBy(k, increments) => CmsIncrByMoves(s, c.hash, k, increments, now);
    case BfAdd(k, items) => BfAddLiveMoves(s, c.hash, k, items, now);
    case Sweep => ExpireAllMoves(s, Ops.StaleKeys(s, now), now);
    case Get(k) => ReadMoves(s, k, now);
    case Ttl(k) => ReadMoves(s, k, now);
    case SIsMember(k, _) => ReadMoves(s, k, now);
    case SMembers(k) => ReadMoves(s, k, now);
    case ZAsk(k, _) => ReadMoves(s, k, now);
    case CmsQuery(k, _) => ReadMoves(s, k, now);
    case CmsInfo(k) => ReadMoves(s, k, now);
    case BfExists(k, _) => ReadMoves(s, k, now);
    case BfInfo(k) => ReadMoves(s, k, now);
  }

  // ----- commands that end with an eviction -----

  lemma IncrOrderly(s: State, k: Bytes, now: int)
    requires Consistent(s)
    ensures Orderly(s, Ops.Incr(s, k, now).0, now)
  {
    hide Consistent, Orderly, Overwrite, Ops.Store;
    StoreOrderly(s, k, Record(StringV(Decimals.FormatInt(1)), None), now);
    MissOrderly(s, now);
    if Ops.Live(s, k, now) && s.data[k].value.StringV? {
      var parsed := Decimals.ParseInt(s.data[k].value.text);
      if parsed.Some? {
        OverwriteOrderly(s, k, s.data[k].(value := StringV(Decimals.FormatInt(Ops.Wrap64(parsed.value + 1)))), now);
      }
    }
  }

  lemma GrowthOrderly(s: State, k: Bytes, members: seq<Bytes>, scores: map<Bytes, Score>, now: int)
    requires Consistent(s)
    ensures Orderly(s, Ops.SAdd(s, k, members, now).0, now) && Orderly(s, Ops.ZAdd(s, k, scores, now).0, now)
  {
    hide Consistent, Orderly, Overwrite, Ops.Store, SortedSets.SetOf;
    var new_ := SortedSets.SetOf(members);
    StoreOrderly(s, k, Record(SetV(new_), None), now);
    StoreOrderly(s, k, Record(ZSetV(scores), None), now);
    MissOrderly(s, now);
    if Ops.Live(s, k, now) {
      var value := s.data[k].value;
      if value.SetV? {
        OverwriteOrderly(s, k, s.data[k].(value := SetV(value.members + new_)), now);
      } else if value.ZSetV? {
        OverwriteOrderly(s, k, s.data[k].(value := ZSetV(value.scores + scores)), now);
      }
    }
  }

  lemma CmsMergeOrderly(s: State, k: Bytes, keys: seq<Bytes>, weights: seq<CountMin.uint64>, now: int)
    requires Consistent(s)
    ensures Orderly(s, Ops.CmsMerge(s, k, keys, weights, now).0, now)
  {
    hide Consistent, Orderly, NoLarger, Ops.Store, Ops.CmsSources, CountMin.MergeAll;
    MissOrderly(s, now);
    if 0 < |keys| == |weights| {
      Ops.CmsSourcesShaped(s, keys, now);
      SourcesMove(s, keys, now);
      var (t, error, sources) := Ops.CmsSources(s, keys, now);
      if error.None? && CountMin.MergeAll(sources, weights).Merged? {
        var record := Record(SketchV(CountMin.MergeAll(sources, weights).sketch), None);
        StoreOrderly(t, k, record, now);
        OrderlyThen(s, t, Ops.Store(t, k, record, now), now);
      }
    }
  }

  lemma EffectOrderly(c: Config, s: State, op: Op, now: int)
    requires Consistent(s) && Evicts(op)
    ensures Orderly(s, Effect(c, s, op, now).0, now)
  {
    hide Consistent, Orderly, Ops.Store, Ops.Incr, Ops.SAdd, Ops.ZAdd, Ops.CmsMerge;
    MissOrderly(s, now);
    match op
    case Set(k, text, ttl) => StoreOrderly(s, k, Record(StringV(text), if ttl > 0 then Some(now + ttl) else None), now);
    case Incr(k) => IncrOrderly(s, k, now);
    case SAdd(k, members) => GrowthOrderly(s, k, members, map[], now);
    case ZAdd(k, scores) => GrowthOrderly(s, k, [], scores, now);
    case CmsInit(k, width, depth) =>
      if width > 0 && depth > 0 {
        StoreOrderly(s, k, Record(SketchV(CountMin.EmptySketch(width, depth)), None), now);
      }
    case CmsMerge(k, keys, weights) => CmsMergeOrderly(s, k, keys, weights, now);
    case BfReserve(k, size) =>
      if size.Some? {
        StoreOrderly(s, k, Record(BloomV(Ops.EmptyBloom(size.value)), None), now);
      }
  }

  /** Creating the default filter, and setting bits in it if it survived the eviction. */
  lemma BfCreateOrderly(s: State, k: Bytes, size: Ops.BloomSize, now: int)
    requires Consistent(s)
    ensures Orderly(s, Ops.BfCreate(s, k, size, now), now)
  {
    hide Consistent, Orderly, Ops.Store, Ops.EmptyBloom;
    StoreOrderly(s, k, Record(BloomV(Ops.EmptyBloom(size)), None), now);
  }

  lemma BfFillMoves(mid: State, c: Config, k: Bytes, items: seq<Bytes>, now: int)
    requires Consistent(mid) && (k in mid.data ==> mid.data[k] == Record(BloomV(Ops.EmptyBloom(c.size)), None))
    ensures Moves(mid, Ops.BfFilled(mid, c.hash, k, items, c.size).0, now)
  {
    hide Consistent, Moves, Ops.AddEach, Ops.EmptyBloom;
    if k in mid.data {
      RewriteMoves(mid, k, BloomV(Ops.AddEach(c.hash, Ops.EmptyBloom(c.size), items).0), now);
    } else {
      StayMoves(mid, now);
    }
  }

  lemma BfAddKeeps(c: Config, s: State, k: Bytes, items: seq<Bytes>, now: int, t: State, answer: Ops.Answer)
    requires Consistent(s) && !Ops.Live(s, k, now)
    requires Ops.BfAdded(c.lim, c.exact, s, c.hash, k, items, c.size, now, t, answer)
    ensures Orderly(s, t, now) && (t.tracked ==> !Over(t.data, c.lim))
  {
    var made := Ops.BfCreate(s, k, c.size, now);
    var mid :| Settled(c.lim, c.exact, made, mid) && Ops.BfFilled(mid, c.hash, k, items, c.size) == (t, answer);
    assert Consistent(mid) && (mid.tracked ==> !Over(mid.data, c.lim));
    if k in mid.data {
      Stores.WrittenKept(s, k, Record(BloomV(Ops.EmptyBloom(c.size)), None), now, c.lim, c.exact, mid);
    }
    hide Consistent, Orderly, NoLarger, Over, Settled, Ops.BfCreate, Ops.BfFilled, Ops.EmptyBloom;
    BfCreateOrderly(s, k, c.size, now);
    OrderlyConsistent(s, made, now);
    SettledOrderly(c.lim, c.exact, made, mid, now);
    OrderlyThen(s, made, mid, now);
    BfFillMoves(mid, c, k, items, now);
    OrderlyThen(s, mid, t, now);
    OrderlyConsistent(mid, t, now);
    if t.tracked {
      NoLargerFits(mid, t, c.lim);
    }
  }

  /** Every command keeps the books straight and leaves a store that was within its limits within
      them again. */
  lemma StepKeeps(c: Config, s: State, op: Op, now: int, t: State, answer: Ops.Answer)
    requires Consistent(s) && Step(c, s, op, now, t, answer)
    ensures Orderly(s, t, now) && ((s.tracked ==> !Over(s.data, c.lim)) ==> t.tracked ==> !Over(t.data, c.lim))
  {
    hide Consistent, Orderly, NoLarger, Over, Fit, Restrict, Effect, Ops.BfAddLive, Ops.BfFilled, Ops.BfCreate;
    if op.BfAdd? && !Ops.Live(s, op.key, now) {
      BfAddKeeps(c, s, op.key, op.items, now, t, answer);
    } else if Evicts(op) {
      var m := Effect(c, s, op, now).0;
      EffectOrderly(c, s, op, now);
      OrderlyConsistent(s, m, now);
      SettledOrderly(c.lim, c.exact, m, t, now);
      OrderlyThen(s, m, t, now);
    } else {
      BfAddLiveIs(c, s, op, now, t, answer);
      EffectMoves(c, s, op, now);
      OrderlyConsistent(s, t, now);
      if s.tracked && !Over(s.data, c.lim) {
        NoLargerFits(s, t, c.lim);
      }
    }
  }

  lemma BfAddLiveIs(c: Config, s: State, op: Op, now: int, t: State, answer: Ops.Answer)
    requires Consistent(s) && Step(c, s, op, now, t, answer) && !Evicts(op)
    requires op.BfAdd? ==> Ops.Live(s, op.key, now)
    ensures (t, answer) == Effect(c, s, op, now)
  {
    hide Consistent, Ops.BfAddLive, Ops.BfFilled;
  }
}
