/** What each store command does to the state, and what it answers, at an instant `now`. */
module StoreOps {
  import opened Bytes
  import opened Options
  import opened Policies
  import opened SortedItems
  import opened StoreSpec
  import Decimals
  import CountMin
  import BloomFilters
  import SortedSets
  import SortedNames

  datatype Answer =
    | Done
    | Text(text: Option<Bytes>)
    | Flag(value: bool)
    | Number(n: int)
    | Names(names: seq<Bytes>)
    | Sorted(answer: SortedSets.Answer)
    | Counts(counts: seq<CountMin.uint64>)
    | Info(numbers: seq<int>)
    | Bits(bits: seq<bool>)
    | NotInteger
    | WrongType
    | KeyExists
    | NotFound
    | Incompatible
    | Overflow

  /** The sizes a Bloom filter is made with. */
  datatype BloomSize = BloomSize(bitCount: pos, hashCount: pos, capacity: nat)

  type pos = n: int | n > 0 witness 1

  predicate Expired(record: Record, now: int) {
    record.ttl.Some? && now > record.ttl.value
  }

  ghost predicate Stale(s: State, k: Bytes, now: int) {
    k in s.data && Expired(s.data[k], now)
  }

  ghost predicate Live(s: State, k: Bytes, now: int) {
    k in s.data && !Expired(s.data[k], now)
  }

  /** Drop a key if its time is over. */
  ghost function Purge(s: State, k: Bytes, now: int): State {
    if Stale(s, k, now) then DropExpired(s, k) else s
  }

  ghost function Hit(s: State): State {
    s.(tally := s.tally.(hits := s.tally.hits + 1))
  }

  ghost function Miss(s: State): State {
    s.(tally := s.tally.(misses := s.tally.misses + 1))
  }

  /** Write a record over a live key, or as a new key once an expired one is gone. */
  ghost function Store(s: State, k: Bytes, record: Record, now: int): State {
    if Live(s, k, now) then Overwrite(s, k, record) else Insert(Purge(s, k, now), k, record)
  }

  // ----- strings -----

  ghost function Set(s: State, k: Bytes, text: Bytes, ttl: int, now: int): (State, Answer) {
    (Store(s, k, Record(StringV(text), if ttl > 0 then Some(now + ttl) else None), now), Done)
  }

  ghost function Get(s: State, k: Bytes, now: int): (State, Answer) {
    if !Live(s, k, now) then (Miss(Purge(s, k, now)), Text(None))
    else if !s.data[k].value.StringV? then (Miss(s), Text(None))
    else (Touch(Hit(s), k), Text(Some(s.data[k].value.text)))
  }

  ghost function DeleteEach(s: State, keys: seq<Bytes>): (State, int)
    decreases |keys|
  {
    if keys == [] then (s, 0)
    else if keys[0] in s.data then
      var (t, n) := DeleteEach(DropDeleted(s, keys[0]), keys[1..]);
      (t, n + 1)
    else DeleteEach(s, keys[1..])
  }

  ghost function Delete(s: State, keys: seq<Bytes>): (State, Answer) {
    var (t, n) := DeleteEach(s, keys);
    (t, Number(n))
  }

  ghost function Expire(s: State, k: Bytes, ttl: int, now: int): (State, Answer) {
    if ttl <= 0 then
      var (t, n) := DeleteEach(s, [k]);
      (t, Flag(n > 0))
    else if !Live(s, k, now) then (Purge(s, k, now), Flag(false))
    else (Overwrite(s, k, s.data[k].(ttl := Some(now + ttl))), Flag(true))
  }

  /** Nanoseconds in a second. */
  const SECOND := 1_000_000_000

  /** -2 for no key, -1 for no expiry, otherwise the remaining time in whole seconds; the exact
      instant of expiry already answers -2 although the key is still there. */
  ghost function Ttl(s: State, k: Bytes, now: int): (State, Answer) {
    if !Live(s, k, now) then (Purge(s, k, now), Number(-2))
    else if s.data[k].ttl.None? then (s, Number(-1))
    else if s.data[k].ttl.value - now <= 0 then (s, Number(-2))
    else (s, Number((s.data[k].ttl.value - now) / SECOND))
  }

  ghost function ExistsEach(s: State, keys: seq<Bytes>, now: int): (State, int)
    decreases |keys|
  {
    if keys == [] then (s, 0) else
      var (t, n) := ExistsEach(Purge(s, keys[0], now), keys[1..], now);
      (t, n + if Live(s, keys[0], now) then 1 else 0)
  }

  ghost function Exists(s: State, keys: seq<Bytes>, now: int): (State, Answer) {
    var (t, n) := ExistsEach(s, keys, now);
    (t, Number(n))
  }

  /** Go's int64 addition. */
  function Wrap64(n: int): int {
    if n > Decimals.MAX_INT64 then n - 0x1_0000_0000_0000_0000 else n
  }

  ghost function Incr(s: State, k: Bytes, now: int): (State, Answer) {
    if !Live(s, k, now) then
      (Store(s, k, Record(StringV(Decimals.FormatInt(1)), None), now), Number(1))
    else if !s.data[k].value.StringV? then (s, NotInteger)
    else
      match Decimals.ParseInt(s.data[k].value.text)
      case None => (s, NotInteger)
      case Some(n) =>
        var next := Wrap64(n + 1);
        (Overwrite(s, k, s.data[k].(value := StringV(Decimals.FormatInt(next)))), Number(next))
  }

  /** INCR adds one exactly when the integer is not the largest; that one wraps around. */
  lemma IncrAddsOne(s: State, k: Bytes, now: int)
    requires Live(s, k, now) && s.data[k].value.StringV? && Decimals.ParseInt(s.data[k].value.text).Some?
    ensures var n := Decimals.ParseInt(s.data[k].value.text).value;
      && (Incr(s, k, now).1 == Number(n + 1) <==> n != Decimals.MAX_INT64)
      && (n == Decimals.MAX_INT64 ==> Incr(s, k, now).1 == Number(-n - 1))
  {
    hide Overwrite, Decimals.FormatInt;
  }

  /** A store that shows it: one key, holding the largest integer. */
  lemma LargestWraps(now: int)
    ensures var s := State(map[[107] := Record(StringV(Decimals.LARGEST), None)], [], false, Tally(0, 0, 0, 0, 1, 0, 0));
      Consistent(s) && Incr(s, [107], now).1 == Number(Decimals.MIN_INT64)
  {
    Decimals.LargestParses();
    hide Decimals.ParseInt, Decimals.FormatInt;
    assert |map[[107] := Record(StringV(Decimals.LARGEST), None)]| == 1;
  }

  /** At the exact instant of expiry GET still finds the value while TTL already denies the key. */
  lemma AtTheInstant(s: State, k: Bytes, now: int)
    requires k in s.data && s.data[k].value.StringV? && s.data[k].ttl.Some?
    ensures Get(s, k, now).1 == Text(Some(s.data[k].value.text)) && Ttl(s, k, now).1 == Number(-2)
      <==> s.data[k].ttl.value == now
  {
    hide Front, Without;
  }

  /** A store that shows it: one key that expires at 5, read at 5. */
  lemma InstantDisagrees()
    ensures var s := State(map[[107] := Record(StringV([1]), Some(5))], [], false, Tally(0, 0, 0, 0, 1, 0, 0));
      Consistent(s) && Get(s, [107], 5).1 == Text(Some([1])) && Ttl(s, [107], 5).1 == Number(-2)
  {
    assert |map[[107] := Record(StringV([1]), Some(5))]| == 1;
  }

  // ----- sets -----

  ghost function SAdd(s: State, k: Bytes, members: seq<Bytes>, now: int): (State, Answer) {
    var new_ := SortedSets.SetOf(members);
    if !Live(s, k, now) then (Store(s, k, Record(SetV(new_), None), now), Number(|new_|))
    else if !s.data[k].value.SetV? then (s, WrongType)
    else
      var old_ := s.data[k].value.members;
      (Overwrite(s, k, s.data[k].(value := SetV(old_ + new_))), Number(|new_ - old_|))
  }

  ghost function SRem(s: State, k: Bytes, members: seq<Bytes>, now: int): (State, Answer) {
    if !Live(s, k, now) then (Purge(s, k, now), Number(0))
    else if !s.data[k].value.SetV? then (s, WrongType)
    else
      var old_ := s.data[k].value.members;
      var gone := SortedSets.SetOf(members) * old_;
      if old_ - gone == {} then (DropEmptied(s, k), Number(|gone|))
      else (Overwrite(s, k, s.data[k].(value := SetV(old_ - gone))), Number(|gone|))
  }

  ghost function SIsMember(s: State, k: Bytes, member: Bytes, now: int): (State, Answer) {
    if !Live(s, k, now) then (Purge(s, k, now), Number(0))
    else if !s.data[k].value.SetV? then (s, WrongType)
    else (Touch(s, k), Number(if member in s.data[k].value.members then 1 else 0))
  }

  ghost function SMembers(s: State, k: Bytes, now: int): (State, Answer) {
    if !Live(s, k, now) then (Purge(s, k, now), Names([]))
    else if !s.data[k].value.SetV? then (s, WrongType)
    else (Touch(s, k), Names(SortedNames.NamesOf(s.data[k].value.members)))
  }

  // ----- sorted sets -----

  ghost function ZAdd(s: State, k: Bytes, members: map<Bytes, Score>, now: int): (State, Answer) {
    if !Live(s, k, now) then (Store(s, k, Record(ZSetV(members), None), now), Number(|members|))
    else if !s.data[k].value.ZSetV? then (s, WrongType)
    else
      var old_ := s.data[k].value.scores;
      (Overwrite(s, k, s.data[k].(value := ZSetV(old_ + members))), Number(|members.Keys - old_.Keys|))
  }

  /** ZSCORE, ZRANK and ZRANGE: an absent set answers like an empty one, and asking never purges. */
  ghost function ZAsk(s: State, k: Bytes, question: SortedSets.Question, now: int): (State, Answer) {
    if !Live(s, k, now) then (s, Sorted(SortedSets.Asked(map[], question)))
    else if !s.data[k].value.ZSetV? then (s, WrongType)
    else (Touch(s, k), Sorted(SortedSets.Asked(s.data[k].value.scores, question)))
  }

  ghost function ZRem(s: State, k: Bytes, members: seq<Bytes>, now: int): (State, Answer) {
    if !Live(s, k, now) then (Purge(s, k, now), Number(0))
    else if !s.data[k].value.ZSetV? then (s, WrongType)
    else
      var old_ := s.data[k].value.scores;
      var gone := SortedSets.SetOf(members) * old_.Keys;
      if old_.Keys - gone == {} then (DropEmptied(s, k), Number(|gone|))
      else (Overwrite(s, k, s.data[k].(value := ZSetV(old_ - gone))), Number(|gone|))
  }

  // ----- Count-Min sketches -----

  ghost function CmsInit(s: State, k: Bytes, width: nat, depth: nat, now: int): (State, Answer) {
    if width == 0 || depth == 0 || width > Decimals.MAX_INT64 || depth > Decimals.MAX_INT64 then (s, Incompatible)
    else if Live(s, k, now) then (s, KeyExists)
    else (Store(s, k, Record(SketchV(CountMin.EmptySketch(width, depth)), None), now), Done)
  }

  /** What looking up a sketch answers when it fails. */
  ghost function SketchError(s: State, k: Bytes, now: int): Option<Answer> {
    if !Live(s, k, now) then Some(NotFound)
    else if !s.data[k].value.SketchV? then Some(WrongType)
    else None
  }

  /** A batch cut short by overflow keeps its earlier increments, and is not an access. */
  ghost function CmsIncrBy(s: State, h: Hash, k: Bytes, batch: seq<CountMin.Increment>, now: int): (State, Answer)
    requires Consistent(s)
  {
    var error := SketchError(s, k, now);
    if error.Some? then (s, error.value) else
      var (sketch, counts) := CountMin.IncrementAll(h, s.data[k].value.sketch, batch);
      var t := s.(data := s.data[k := s.data[k].(value := SketchV(sketch))]);
      if counts.None? then (t, Overflow) else (Touch(t, k), Counts(counts.value))
  }

  ghost function CmsQuery(s: State, h: Hash, k: Bytes, items: seq<Bytes>, now: int): (State, Answer)
    requires Consistent(s)
  {
    var error := SketchError(s, k, now);
    if error.Some? then (s, error.value) else
      var sketch := s.data[k].value.sketch;
      (Touch(s, k), Counts(seq(|items|, i requires 0 <= i < |items| => CountMin.Query(h, sketch, items[i]))))
  }

  ghost function CmsInfo(s: State, k: Bytes, now: int): (State, Answer) {
    var error := SketchError(s, k, now);
    if error.Some? then (s, error.value) else
      var sketch := s.data[k].value.sketch;
      (Touch(s, k), Info([sketch.width, sketch.depth, sketch.count]))
  }

  /** The sources of a merge, looked up in order and touched, up to the first failure. */
  ghost function CmsSources(s: State, keys: seq<Bytes>, now: int): (State, Option<Answer>, seq<CountMin.Sketch>)
    decreases |keys|
  {
    if keys == [] then (s, None, []) else
      var error := SketchError(s, keys[0], now);
      if error.Some? then (s, error, []) else
        var (t, e, sketches) := CmsSources(Touch(s, keys[0]), keys[1..], now);
        (t, e, [s.data[keys[0]].value.sketch] + sketches)
  }

  lemma {:induction false} CmsSourcesShaped(s: State, keys: seq<Bytes>, now: int)
    requires Consistent(s)
    ensures var (t, e, sketches) := CmsSources(s, keys, now);
      && Consistent(t) && t.data == s.data && t.tracked == s.tracked && t.tally == s.tally
      && (e.None? ==> |sketches| == |keys|)
      && forall i :: 0 <= i < |sketches| ==> CountMin.Shaped(sketches[i])
    decreases |keys|
  {
    if keys != [] && SketchError(s, keys[0], now).None? {
      TouchConsistent(s, keys[0]);
      CmsSourcesShaped(Touch(s, keys[0]), keys[1..], now);
    }
  }

  ghost function CmsMerge(s: State, destination: Bytes, keys: seq<Bytes>, weights: seq<CountMin.uint64>, now: int): (State, Answer)
    requires Consistent(s)
  {
    if |keys| == 0 || |keys| != |weights| then (s, Incompatible) else
      CmsSourcesShaped(s, keys, now);
      var (t, error, sources) := CmsSources(s, keys, now);
      if error.Some? then (t, error.value) else
        match CountMin.MergeAll(sources, weights)
        case Incompatible => (t, Incompatible)
        case Overflow => (t, Overflow)
        case Merged(sketch) =>
          if Live(t, destination, now) && !t.data[destination].value.SketchV? then (t, WrongType)
          else (Store(t, destination, Record(SketchV(sketch), None), now), Done)
  }

  // ----- Bloom filters -----

  function EmptyBloom(size: BloomSize): (f: BloomFilters.Bloom)
    ensures BloomFilters.Shaped(f)
  {
    BloomFilters.Bloom(seq((size.bitCount + 63) / 64, _ => 0), size.bitCount, size.hashCount, size.capacity, 0)
  }

  /** `size` is None when the requested configuration is rejected. */
  ghost function BfReserve(s: State, k: Bytes, size: Option<BloomSize>, now: int): (State, Answer) {
    if size.None? then (s, Incompatible)
    else if Live(s, k, now) then (s, KeyExists)
    else (Store(s, k, Record(BloomV(EmptyBloom(size.value)), None), now), Done)
  }

  ghost function AddEach(h: Hash, f: BloomFilters.Bloom, items: seq<Bytes>): (r: (BloomFilters.Bloom, seq<bool>))
    requires BloomFilters.Shaped(f)
    ensures BloomFilters.Shaped(r.0) && |r.0.bits| == |f.bits|
    decreases |items|
  {
    if items == [] then (f, []) else
      var (g, added) := AddEach(h, BloomFilters.Add(h, f, items[0]), items[1..]);
      (g, [!BloomFilters.Has(h, f, items[0])] + added)
  }

  /** Adding to an absent key first creates a filter of the default size; eviction then runs before
      any bit is set, so the bits may land in a filter that is already gone. */
  ghost function BfCreate(s: State, k: Bytes, size: BloomSize, now: int): State {
    Store(s, k, Record(BloomV(EmptyBloom(size)), None), now)
  }

  ghost function SetFilter(s: State, k: Bytes, f: BloomFilters.Bloom): State {
    if k in s.data then s.(data := s.data[k := s.data[k].(value := BloomV(f))]) else s
  }

  ghost function BfAddLive(s: State, h: Hash, k: Bytes, items: seq<Bytes>): (State, Answer)
    requires Consistent(s) && k in s.data
  {
    if !s.data[k].value.BloomV? then (s, WrongType) else
      var (f, added) := AddEach(h, s.data[k].value.filter, items);
      (SetFilter(Touch(s, k), k, f), Bits(added))
  }

  ghost function BfFilled(mid: State, h: Hash, k: Bytes, items: seq<Bytes>, size: BloomSize): (State, Answer)
  {
    var (f, added) := AddEach(h, EmptyBloom(size), items);
    (SetFilter(mid, k, f), Bits(added))
  }

  /** From `s`, adding items to the filter at `k` may lead to `t`. */
  ghost predicate BfAdded(lim: Limits, exact: bool, s: State, h: Hash, k: Bytes, items: seq<Bytes>, size: BloomSize, now: int, t: State, answer: Answer)
    requires Consistent(s)
  {
    if Live(s, k, now) then (t, answer) == BfAddLive(s, h, k, items)
    else exists mid :: Settled(lim, exact, BfCreate(s, k, size, now), mid) && BfFilled(mid, h, k, items, size) == (t, answer)
  }

  ghost function BfExists(s: State, h: Hash, k: Bytes, items: seq<Bytes>, now: int): (State, Answer)
    requires Consistent(s)
  {
    if !Live(s, k, now) then (s, Bits(seq(|items|, _ => false)))
    else if !s.data[k].value.BloomV? then (s, WrongType)
    else
      var f := s.data[k].value.filter;
      (Touch(s, k), Bits(seq(|items|, i requires 0 <= i < |items| => BloomFilters.Has(h, f, items[i]))))
  }

  ghost function BfInfo(s: State, k: Bytes, now: int): (State, Answer) {
    if !Live(s, k, now) then (s, NotFound)
    else if !s.data[k].value.BloomV? then (s, WrongType)
    else
      var f := s.data[k].value.filter;
      (Touch(s, k), Info([f.capacity, |f.bits| * 8, f.hashCount, f.count]))
  }

  // ----- expiry -----

  ghost function StaleKeys(s: State, now: int): set<Bytes> {
    set k | k in s.data && Expired(s.data[k], now)
  }

  /** The given keys expire. */
  ghost function ExpireAll(s: State, gone: set<Bytes>): State {
    s.(data := s.data - gone, order := WithoutAll(s.order, gone), tally := s.tally.(expired := s.tally.expired + |gone|))
  }

  /** A sweep leaves exactly the records whose time is not over, in their order of use. */
  ghost function Sweep(s: State, now: int): State {
    ExpireAll(s, StaleKeys(s, now))
  }

  lemma ExpireNone(s: State)
    ensures ExpireAll(s, {}) == s
  {
    WithoutNone(s.order);
    assert s.data - {} == s.data;
  }

  lemma ExpireOneMore(s: State, gone: set<Bytes>, k: Bytes)
    requires k !in gone
    ensures DropExpired(ExpireAll(s, gone), k) == ExpireAll(s, gone + {k})
  {
    WithoutOneMore(s.order, gone, k);
    assert s.data - gone - {k} == s.data - (gone + {k});
  }
}
