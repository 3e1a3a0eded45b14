/** What the store's operations do, on plain values: records, recency order and tallies. */
module StoreSpec {
  import opened Bytes
  import opened Options
  import opened FiniteSums
  import opened Policies
  import opened SortedItems
  import CountMin
  import BloomFilters
  import SortedSets

  /** The five value types. A sorted set is the score map that both indexes refine. */
  datatype Value =
    | StringV(text: Bytes)
    | SetV(members: set<Bytes>)
    | ZSetV(scores: map<Bytes, Score>)
    | SketchV(sketch: CountMin.Sketch)
    | BloomV(filter: BloomFilters.Bloom)

  /** A value and the instant after which it is gone, if any. */
  datatype Record = Record(value: Value, ttl: Option<int>)

  type Data = map<Bytes, Record>

  /** How keys came and went; Go counts the first four, the rest complete the balance. */
  datatype Tally = Tally(hits: nat, misses: nat, expired: nat, evicted: nat, inserted: nat, deleted: nat, emptied: nat)

  /** Records, tracked keys (most recently used first, when a policy is installed), tallies. */
  datatype State = State(data: Data, order: seq<Bytes>, tracked: bool, tally: Tally)

  // ----- memory -----

  function Length(key: Bytes): int {
    |key|
  }

  ghost function ValueSize(v: Value): int {
    match v
    case StringV(text) => |text|
    case SetV(members) => Sum(members, Length)
    case ZSetV(scores) => SortedSets.MembersSize(scores.Keys)
    case SketchV(s) => s.width * s.depth * 8
    case BloomV(f) => |f.bits| * 8
  }

  ghost function RecordSize(key: Bytes, record: Record): int {
    |key| + ValueSize(record.value)
  }

  ghost function SizeIn(data: Data): Bytes -> int {
    k => if k in data then RecordSize(k, data[k]) else 0
  }

  /** The memory a set of records takes. */
  ghost function Used(data: Data): int {
    Sum(data.Keys, SizeIn(data))
  }

  lemma UsedPut(data: Data, k: Bytes, record: Record)
    ensures Used(data[k := record]) == Used(data) - SizeIn(data)(k) + RecordSize(k, record)
  {
    var after := data[k := record];
    assert after.Keys == data.Keys + {k};
    if k in data {
      assert after.Keys == data.Keys;
      SumChange(data.Keys, SizeIn(data), SizeIn(after), k);
    } else {
      SumInsert(data.Keys, SizeIn(after), k);
      SumSame(data.Keys, SizeIn(data), SizeIn(after));
    }
  }

  lemma UsedDrop(data: Data, k: Bytes)
    requires k in data
    ensures Used(data - {k}) == Used(data) - RecordSize(k, data[k])
  {
    var after := data - {k};
    assert after.Keys == data.Keys - {k};
    SumSplit(data.Keys, SizeIn(data), k);
    SumSame(after.Keys, SizeIn(data), SizeIn(after));
  }

  // ----- elementary steps -----

  ghost function Touch(s: State, k: Bytes): State {
    if s.tracked then s.(order := Front(s.order, k)) else s
  }

  ghost function Insert(s: State, k: Bytes, record: Record): State {
    Touch(s.(data := s.data[k := record], tally := s.tally.(inserted := s.tally.inserted + 1)), k)
  }

  ghost function Overwrite(s: State, k: Bytes, record: Record): State {
    Touch(s.(data := s.data[k := record]), k)
  }

  ghost function Drop(s: State, k: Bytes): State {
    s.(data := s.data - {k}, order := Without(s.order, k))
  }

  ghost function DropExpired(s: State, k: Bytes): State {
    Drop(s, k).(tally := s.tally.(expired := s.tally.expired + 1))
  }

  ghost function DropEvicted(s: State, k: Bytes): State {
    Drop(s, k).(tally := s.tally.(evicted := s.tally.evicted + 1))
  }

  ghost function DropDeleted(s: State, k: Bytes): State {
    Drop(s, k).(tally := s.tally.(deleted := s.tally.deleted + 1))
  }

  ghost function DropEmptied(s: State, k: Bytes): State {
    Drop(s, k).(tally := s.tally.(emptied := s.tally.emptied + 1))
  }

  ghost predicate ShapedValue(v: Value) {
    match v
    case SketchV(s) => CountMin.Shaped(s)
    case BloomV(f) => BloomFilters.Shaped(f)
    case _ => true
  }

  /** Tracked keys are the stored keys, each once, and every key ever inserted is accounted for. */
  ghost predicate Consistent(s: State) {
    && NoDuplicates(s.order) && (if s.tracked then KeySet(s.order) == s.data.Keys else s.order == [])
    && s.tally.inserted == |s.data| + s.tally.expired + s.tally.evicted + s.tally.deleted + s.tally.emptied
    && forall k :: k in s.data ==> ShapedValue(s.data[k].value)
  }

  lemma TouchConsistent(s: State, k: Bytes)
    requires Consistent(s) && k in s.data
    ensures Consistent(Touch(s, k))
  {
    hide NoDuplicates, KeySet, Front, ShapedValue;
    FrontKeys(s.order, k);
  }

  lemma InsertConsistent(s: State, k: Bytes, record: Record)
    requires Consistent(s) && k !in s.data && ShapedValue(record.value)
    ensures Consistent(Insert(s, k, record))
  {
    hide NoDuplicates, KeySet, Front, ShapedValue;
    FrontKeys(s.order, k);
    assert (s.data[k := record]).Keys == s.data.Keys + {k};
  }

  lemma OverwriteConsistent(s: State, k: Bytes, record: Record)
    requires Consistent(s) && k in s.data && ShapedValue(record.value)
    ensures Consistent(Overwrite(s, k, record))
  {
    hide NoDuplicates, KeySet, Front, ShapedValue;
    assert (s.data[k := record]).Keys == s.data.Keys;
    assert |s.data[k := record]| == |s.data[k := record].Keys| == |s.data|;
    FrontKeys(s.order, k);
  }

  lemma DropConsistent(s: State, k: Bytes)
    requires Consistent(s) && k in s.data
    ensures Consistent(DropExpired(s, k)) && Consistent(DropEvicted(s, k))
    ensures Consistent(DropDeleted(s, k)) && Consistent(DropEmptied(s, k))
  {
    hide NoDuplicates, KeySet, Without, ShapedValue;
    WithoutKeys(s.order, k);
    assert (s.data - {k}).Keys == s.data.Keys - {k};
    assert |s.data - {k}| == |s.data| - 1;
  }

  // ----- eviction -----

  /** Zero means no limit. */
  datatype Limits = Limits(maxEntries: int, maxMemory: int)

  ghost predicate Over(data: Data, lim: Limits) {
    || (lim.maxEntries > 0 && |data| > lim.maxEntries)
    || (lim.maxMemory > 0 && Used(data) > lim.maxMemory)
  }

  lemma NothingIsOver(lim: Limits)
    ensures !Over(map[], lim)
  {
  }

  ghost function LastKey(s: State): Bytes
    requires s.order != []
  {
    s.order[|s.order| - 1]
  }

  /** Least-recently-used eviction: drop the last key until the limits are met. */
  ghost function Fit(s: State, lim: Limits): State
    decreases |s.order|
  {
    if s.tracked && Over(s.data, lim) && s.order != [] then Fit(DropEvicted(s, LastKey(s)), lim) else s
  }

  ghost function Restrict(data: Data, keys: set<Bytes>): Data {
    map k | k in data && k in keys :: data[k]
  }

  /** What an eviction run may leave: nothing changed unless the store was over its limits; no
      record altered; the evicted keys counted; within the limits; for exact LRU exactly `Fit`; and each
      victim taken while the store was over its limits. */
  ghost predicate Settled(lim: Limits, exact: bool, pre: State, post: State) {
    && Consistent(post) && post.tracked == pre.tracked
    && post.data == Restrict(pre.data, post.data.Keys)
    && post.tally == pre.tally.(evicted := post.tally.evicted)
    && (!pre.tracked || !Over(pre.data, lim) ==> post == pre)
    && (post.tracked ==> !Over(post.data, lim))
    && (exact && pre.tracked ==> post == Fit(pre, lim))
    && EvictsInTurn(lim, pre, post)
  }

  /** Dropping the victims one after another, each while the store was over its limits. */
  ghost predicate EvictsAll(lim: Limits, pre: State, victims: seq<Bytes>, post: State)
    decreases |victims|
  {
    if victims == [] then post == pre
    else pre.tracked && Over(pre.data, lim) && victims[0] in pre.data && EvictsAll(lim, DropEvicted(pre, victims[0]), victims[1..], post)
  }

  ghost predicate EvictsInTurn(lim: Limits, pre: State, post: State) {
    exists victims :: EvictsAll(lim, pre, victims, post)
  }

  lemma {:induction false} EvictsOneMore(lim: Limits, pre: State, victims: seq<Bytes>, cur: State, k: Bytes)
    requires EvictsAll(lim, pre, victims, cur) && cur.tracked && Over(cur.data, lim) && k in cur.data
    ensures EvictsAll(lim, pre, victims + [k], DropEvicted(cur, k))
    decreases |victims|
  {
    hide Over, DropEvicted;
    if victims == [] {
      assert ([] + [k])[1..] == [];
      assert EvictsAll(lim, DropEvicted(cur, k), [], DropEvicted(cur, k));
    } else {
      EvictsOneMore(lim, DropEvicted(pre, victims[0]), victims[1..], cur, k);
      assert (victims + [k])[1..] == victims[1..] + [k];
    }
  }

  lemma EvictsInTurnStep(lim: Limits, pre: State, cur: State, k: Bytes)
    requires EvictsInTurn(lim, pre, cur) && cur.tracked && Over(cur.data, lim) && k in cur.data
    ensures EvictsInTurn(lim, pre, DropEvicted(cur, k))
  {
    hide Over, DropEvicted, EvictsAll;
    var victims :| EvictsAll(lim, pre, victims, cur);
    EvictsOneMore(lim, pre, victims, cur, k);
  }

  lemma SettledNow(lim: Limits, exact: bool, s: State)
    requires Consistent(s) && (s.tracked ==> !Over(s.data, lim))
    ensures Settled(lim, exact, s, s)
  {
    assert Restrict(s.data, s.data.Keys) == s.data;
    assert EvictsAll(lim, s, [], s);
  }

  /** An eviction run under way. */
  ghost predicate Evicting(lim: Limits, exact: bool, pre: State, cur: State) {
    && Consistent(cur) && cur.tracked == pre.tracked
    && cur.data == Restrict(pre.data, cur.data.Keys)
    && cur.tally == pre.tally.(evicted := cur.tally.evicted)
    && (cur == pre || (pre.tracked && Over(pre.data, lim)))
    && (exact ==> Fit(cur, lim) == Fit(pre, lim))
    && EvictsInTurn(lim, pre, cur)
  }

  lemma EvictingStarts(lim: Limits, exact: bool, s: State)
    requires Consistent(s)
    ensures Evicting(lim, exact, s, s)
  {
    assert Restrict(s.data, s.data.Keys) == s.data;
    assert EvictsAll(lim, s, [], s);
  }

  lemma EvictingStep(lim: Limits, exact: bool, pre: State, cur: State, k: Bytes)
    requires Evicting(lim, exact, pre, cur) && cur.tracked && Over(cur.data, lim) && k in cur.data
    requires cur.order != [] && (exact ==> k == LastKey(cur))
    ensures Evicting(lim, exact, pre, DropEvicted(cur, k))
  {
    DropConsistent(cur, k);
    EvictsInTurnStep(lim, pre, cur, k);
    hide Over, Consistent, Without, EvictsInTurn;
    var next := DropEvicted(cur, k);
    forall j ensures j in next.data <==> j in pre.data && j in next.data.Keys {
    }
    assert next.data == Restrict(pre.data, next.data.Keys);
  }

  lemma EvictingEnds(lim: Limits, exact: bool, pre: State, cur: State)
    requires Evicting(lim, exact, pre, cur) && (cur.tracked ==> !Over(cur.data, lim))
    ensures Settled(lim, exact, pre, cur)
  {
  }

  lemma SizesNonNegative(data: Data, k: Bytes)
    ensures SizeIn(data)(k) >= 0
  {
    if k in data {
      match data[k].value
      case SetV(members) => SumNonNegative(members, Length);
      case ZSetV(scores) => SumNonNegative(scores.Keys, SortedSets.MemberSize);
      case _ =>
    }
  }

  /** Removing a key, or replacing its record by one no larger, cannot break a limit. */
  lemma DropNotOver(data: Data, k: Bytes, lim: Limits)
    requires !Over(data, lim) && k in data
    ensures !Over(data - {k}, lim)
  {
    UsedDrop(data, k);
    SizesNonNegative(data, k);
    assert (data - {k}).Keys == data.Keys - {k};
  }

  lemma ReplaceNotOver(data: Data, k: Bytes, record: Record, lim: Limits)
    requires !Over(data, lim) && k in data && RecordSize(k, record) <= RecordSize(k, data[k])
    ensures !Over(data[k := record], lim)
  {
    UsedPut(data, k, record);
    assert data[k := record].Keys == data.Keys;
    assert |data[k := record]| == |data[k := record].Keys|;
  }

  /** The records of the n most recently used keys. */
  ghost function Newest(s: State, n: nat): Data
    requires n <= |s.order|
  {
    Restrict(s.data, KeySet(s.order[..n]))
  }

  /** Evicting the last key leaves the others, and their records, as they were. */
  lemma EvictLast(s: State)
    requires Consistent(s) && s.tracked && s.order != []
    ensures var rest, last := DropEvicted(s, LastKey(s)), |s.order| - 1;
      && Consistent(rest) && rest.order == s.order[..last]
      && forall n :: 0 <= n <= last ==> Newest(rest, n) == Newest(s, n)
  {
    var k, rest, last := LastKey(s), DropEvicted(s, LastKey(s)), |s.order| - 1;
    assert k in KeySet(s.order);
    WithoutLast(s.order);
    forall n | 0 <= n <= last ensures Newest(rest, n) == Newest(s, n) {
      assert rest.order[..n] == s.order[..n];
      assert k !in KeySet(s.order[..n]);
    }
    hide NoDuplicates, KeySet, Without, Newest;
    DropConsistent(s, k);
  }

  lemma NewestIsAll(s: State)
    requires Consistent(s) && s.tracked
    ensures Newest(s, |s.order|) == s.data
  {
    assert s.order[..|s.order|] == s.order;
  }

  /** `t` keeps the most recently used keys of `s`: the limits hold, and would not with any more. */
  ghost predicate ShortestRun(s: State, t: State, lim: Limits) {
    && |t.order| <= |s.order| && t.order == s.order[..|t.order|] && t.data == Newest(s, |t.order|)
    && !Over(t.data, lim)
    && forall n :: |t.order| < n <= |s.order| ==> Over(Newest(s, n), lim)
  }

  lemma ShortestStep(s: State, rest: State, t: State, lim: Limits)
    requires s.order != [] && rest.order == s.order[..|s.order| - 1] && Over(Newest(s, |s.order|), lim)
    requires forall n :: 0 <= n < |s.order| ==> Newest(rest, n) == Newest(s, n)
    requires ShortestRun(rest, t, lim)
    ensures ShortestRun(s, t, lim)
  {
    hide Over, Newest;
    assert rest.order[..|t.order|] == s.order[..|t.order|];
    forall n | |t.order| < n <= |s.order| ensures Over(Newest(s, n), lim) {
      assert n < |s.order| ==> Newest(rest, n) == Newest(s, n);
    }
  }

  /** Exact LRU evicts the shortest least-recently-used suffix that restores capacity. */
  lemma {:induction false} FitIsShortest(s: State, lim: Limits)
    requires Consistent(s) && s.tracked
    ensures ShortestRun(s, Fit(s, lim), lim)
    decreases |s.order|
  {
    NewestIsAll(s);
    if !Over(s.data, lim) {
      assert s.order[..|s.order|] == s.order;
    } else if s.order == [] {
      NothingTracked(s, lim);
    } else {
      EvictLast(s);
      hide Over, Consistent, Newest, DropEvicted;
      FitIsShortest(DropEvicted(s, LastKey(s)), lim);
      ShortestStep(s, DropEvicted(s, LastKey(s)), Fit(s, lim), lim);
    }
  }

  /** A store over its limits tracks some key, and every tracked key has a record. */
  lemma VictimsHaveRecords(s: State, lim: Limits)
    requires Consistent(s) && s.tracked
    ensures Over(s.data, lim) ==> s.order != []
    ensures forall k :: k in s.order ==> k in s.data
  {
    if s.order == [] {
      NothingTracked(s, lim);
    }
    assert forall k :: k in s.order ==> k in KeySet(s.order);
  }

  lemma NothingTracked(s: State, lim: Limits)
    requires Consistent(s) && s.tracked && s.order == []
    ensures !Over(s.data, lim)
  {
    assert s.data.Keys == {};
    assert s.data == map[];
    NothingIsOver(lim);
  }
}
