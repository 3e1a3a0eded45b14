/** Sketches and filters inside the store: over every run they count and hold exactly what the commands of the
    run added, so overflow is decided by counts alone. */
module StoredSketches {
  import opened Bytes
  import opened Options
  import opened FiniteSums
  import opened Policies
  import opened SortedItems
  import opened StoreSpec
  import opened StoreRuns
  import opened Removals
  import opened Interleavings
  import opened FreshFilters
  import opened Inheritance
  import Ops = StoreOps
  import Decimals
  import CountMin
  import BloomFilters
  import SortedSets

  /** What the commands of a run have put under each key since its sketch or filter was made: how much of
      every item, and which items. */
  datatype Truth = Truth(totals: map<Bytes, CountMin.Totals>, items: map<Bytes, set<Bytes>>)

  ghost function TotalsAt(truth: Truth, k: Bytes): CountMin.Totals {
    if k in truth.totals then truth.totals[k] else map[]
  }

  ghost function ItemsAt(truth: Truth, k: Bytes): set<Bytes> {
    if k in truth.items then truth.items[k] else {}
  }

  ghost function Whole(t: CountMin.Totals): nat {
    SumNonNegative(t.Keys, CountMin.TotalOf(t));
    Sum(t.Keys, CountMin.TotalOf(t))
  }

  ghost function AllTotals(truth: Truth, keys: seq<Bytes>): seq<CountMin.Totals> {
    seq(|keys|, i requires 0 <= i < |keys| => TotalsAt(truth, keys[i]))
  }

  /** What one more command teaches: a new sketch or filter starts afresh, a merge is the weighted sum of its
      sources, a batch counts as far as the total allows. */
  ghost function Learn(s: State, truth: Truth, op: Op, now: int, answer: Ops.Answer): Truth {
    match op
    case CmsInit(k, _, _) => if answer.Done? then truth.(totals := truth.totals[k := map[]]) else truth
    case CmsIncrBy(k, batch) =>
      if !answer.Counts? && !answer.Overflow? then truth else
        var t := TotalsAt(truth, k);
        truth.(totals := truth.totals[k := CountMin.AddedAll(t, batch[..CountMin.Accepted(Whole(t), batch)])])
    case CmsMerge(k, keys, weights) =>
      if !answer.Done? || |keys| != |weights| then truth else
        truth.(totals := truth.totals[k := CountMin.WeightedTotals(map[], AllTotals(truth, keys), weights)])
    case BfReserve(k, _) => if answer.Done? then truth.(items := truth.items[k := {}]) else truth
    case BfAdd(k, items) =>
      if !answer.Bits? then truth
      else truth.(items := truth.items[k := (if Ops.Live(s, k, now) then ItemsAt(truth, k) else {}) + SortedSets.SetOf(items)])
    case _ => truth
  }

  /** The counters of a sketch and the bits of a filter are what the truth makes them. */
  ghost predicate Genuine(h: Hash, truth: Truth, k: Bytes, v: Value) {
    match v
    case SketchV(s) => CountMin.Exact(h, s, TotalsAt(truth, k))
    case BloomV(f) => BloomFilters.Faithful(h, f, ItemsAt(truth, k))
    case _ => true
  }

  ghost predicate AllGenuine(h: Hash, truth: Truth, data: Data) {
    forall k :: k in data ==> Genuine(h, truth, k, data[k].value)
  }

  /** Two truths that differ at one key at most. */
  ghost predicate Off(truth: Truth, other: Truth, k: Bytes) {
    forall j :: j != k ==> TotalsAt(truth, j) == TotalsAt(other, j) && ItemsAt(truth, j) == ItemsAt(other, j)
  }

  lemma InheritGenuine(h: Hash, truth: Truth, old_: Data, now: Data)
    requires AllGenuine(h, truth, old_) && Inherits(old_, now)
    ensures AllGenuine(h, truth, now)
  {
    hide Genuine;
  }

  lemma OffGenuine(h: Hash, truth: Truth, other: Truth, k: Bytes, j: Bytes, v: Value)
    requires Off(truth, other, k) && j != k && Genuine(h, truth, j, v)
    ensures Genuine(h, other, j, v)
  {
  }

  /** A value written under one key, explained by what is learnt there. */
  lemma PutGenuine(h: Hash, truth: Truth, other: Truth, data: Data, k: Bytes, record: Record)
    requires AllGenuine(h, truth, data) && Off(truth, other, k) && Genuine(h, other, k, record.value)
    ensures AllGenuine(h, other, data[k := record])
  {
    forall j | j in data && j != k ensures Genuine(h, other, j, data[j].value) {
      OffGenuine(h, truth, other, k, j, data[j].value);
    }
    hide Genuine, Off;
  }

  lemma StoreGenuine(h: Hash, truth: Truth, other: Truth, s: State, k: Bytes, record: Record, now: int)
    requires AllGenuine(h, truth, s.data) && Off(truth, other, k) && Genuine(h, other, k, record.value)
    ensures AllGenuine(h, other, Ops.Store(s, k, record, now).data)
  {
    PutGenuine(h, truth, other, s.data, k, record);
    hide Genuine, Off, Front, Without;
  }

  lemma SameOff(truth: Truth, k: Bytes)
    ensures Off(truth, truth, k)
  {
  }

  // ----- sketches -----

  lemma {:induction false} SourcesGenuine(h: Hash, truth: Truth, s: State, keys: seq<Bytes>, now: int)
    requires AllGenuine(h, truth, s.data)
    ensures var (t, error, sketches) := Ops.CmsSources(s, keys, now);
      && t.data == s.data && |sketches| <= |keys| && (error.None? ==> |sketches| == |keys|)
      && forall i :: 0 <= i < |sketches| ==> CountMin.Exact(h, sketches[i], TotalsAt(truth, keys[i]))
    decreases |keys|
  {
    hide CountMin.Exact, TotalsAt, Front;
    if keys != [] && Ops.SketchError(s, keys[0], now).None? {
      SourcesGenuine(h, truth, Touch(s, keys[0]), keys[1..], now);
      assert Genuine(h, truth, keys[0], s.data[keys[0]].value);
    }
  }

  lemma {:induction false} MergedAlike(acc: CountMin.Sketch, sources: seq<CountMin.Sketch>, weights: seq<CountMin.uint64>)
    requires CountMin.Shaped(acc) && |sources| == |weights| && forall i :: 0 <= i < |sources| ==> CountMin.Shaped(sources[i])
    requires CountMin.MergeFrom(acc, sources, weights).Merged?
    ensures forall i :: 0 <= i < |sources| ==> CountMin.SameShape(acc, sources[i])
    decreases |sources|
  {
    hide CountMin.Shaped, CountMin.SumFits, CountMin.PlusTimes;
    if sources != [] {
      MergedAlike(CountMin.PlusTimes(acc, sources[0], weights[0]), sources[1..], weights[1..]);
    }
  }

  lemma MergedExact(h: Hash, sources: seq<CountMin.Sketch>, totals: seq<CountMin.Totals>, weights: seq<CountMin.uint64>)
    requires 0 < |sources| == |weights| == |totals| && forall i :: 0 <= i < |sources| ==> CountMin.Shaped(sources[i])
    requires forall i :: 0 <= i < |sources| ==> CountMin.Exact(h, sources[i], totals[i])
    requires CountMin.MergeAll(sources, weights).Merged?
    ensures CountMin.Exact(h, CountMin.MergeAll(sources, weights).sketch, CountMin.WeightedTotals(map[], totals, weights))
  {
    assert CountMin.Shaped(sources[0]);
    MergedAlike(CountMin.EmptySketch(sources[0].width, sources[0].depth), sources, weights);
    CountMin.MergeAllExact(h, sources, totals, weights);
  }

  lemma CmsMergeGenuine(h: Hash, truth: Truth, s: State, k: Bytes, keys: seq<Bytes>, weights: seq<CountMin.uint64>, now: int)
    requires Consistent(s) && AllGenuine(h, truth, s.data)
    ensures var (t, answer) := Ops.CmsMerge(s, k, keys, weights, now);
      AllGenuine(h, Learn(s, truth, CmsMerge(k, keys, weights), now, answer), t.data)
  {
    hide Genuine, AllGenuine, Consistent, Ops.CmsSources, Ops.Store, CountMin.MergeAll, CountMin.WeightedTotals, CountMin.Exact, AllTotals;
    if 0 < |keys| == |weights| {
      SourcesGenuine(h, truth, s, keys, now);
      Ops.CmsSourcesShaped(s, keys, now);
      SourcesFail(s, keys, now);
      var (t, error, sources) := Ops.CmsSources(s, keys, now);
      if error.None? && CountMin.MergeAll(sources, weights).Merged? {
        var totals := AllTotals(truth, keys);
        AllTotalsAt(truth, keys);
        MergedExact(h, sources, totals, weights);
        var learnt := truth.(totals := truth.totals[k := CountMin.WeightedTotals(map[], totals, weights)]);
        var sketch := CountMin.MergeAll(sources, weights).sketch;
        SketchGenuine(h, learnt, k, sketch);
        LearntOff(truth, k, learnt.totals[k]);
        StoreGenuine(h, truth, learnt, t, k, Record(SketchV(sketch), None), now);
      }
    }
  }

  lemma AllTotalsAt(truth: Truth, keys: seq<Bytes>)
    ensures |AllTotals(truth, keys)| == |keys|
    ensures forall i :: 0 <= i < |keys| ==> AllTotals(truth, keys)[i] == TotalsAt(truth, keys[i])
  {
  }

  lemma SketchGenuine(h: Hash, truth: Truth, k: Bytes, sketch: CountMin.Sketch)
    requires CountMin.Exact(h, sketch, TotalsAt(truth, k))
    ensures Genuine(h, truth, k, SketchV(sketch))
  {
  }

  lemma LearntOff(truth: Truth, k: Bytes, t: CountMin.Totals)
    ensures var learnt := truth.(totals := truth.totals[k := t]); Off(truth, learnt, k) && TotalsAt(learnt, k) == t
  {
  }

  lemma SketchAt(h: Hash, truth: Truth, data: Data, k: Bytes)
    requires AllGenuine(h, truth, data) && k in data && data[k].value.SketchV?
    ensures var sketch := data[k].value.sketch;
      CountMin.Exact(h, sketch, TotalsAt(truth, k)) && Whole(TotalsAt(truth, k)) == sketch.count
  {
    assert Genuine(h, truth, k, data[k].value);
    ExactWhole(h, data[k].value.sketch, TotalsAt(truth, k));
  }

  /** A sketch with more counts in the place of one that was explained. */
  lemma MoreCounts(h: Hash, truth: Truth, data: Data, k: Bytes, g: CountMin.Sketch, t: CountMin.Totals)
    requires AllGenuine(h, truth, data) && k in data && CountMin.Exact(h, g, t)
    ensures AllGenuine(h, truth.(totals := truth.totals[k := t]), data[k := data[k].(value := SketchV(g))])
  {
    hide CountMin.Exact, AllGenuine, Genuine, Off;
    var other := truth.(totals := truth.totals[k := t]);
    LearntOff(truth, k, t);
    SketchGenuine(h, other, k, g);
    PutGenuine(h, truth, other, data, k, data[k].(value := SketchV(g)));
  }

  lemma CmsIncrByGenuine(h: Hash, truth: Truth, s: State, k: Bytes, batch: seq<CountMin.Increment>, now: int)
    requires Consistent(s) && AllGenuine(h, truth, s.data)
    ensures var (t, answer) := Ops.CmsIncrBy(s, h, k, batch, now);
      AllGenuine(h, Learn(s, truth, CmsIncrBy(k, batch), now, answer), t.data)
  {
    hide AllGenuine, CountMin.Exact, CountMin.IncrementAll, CountMin.AddedAll, CountMin.Accepted;
    hide Front, NoDuplicates, KeySet, Whole, TotalsAt;
    if Ops.SketchError(s, k, now).None? {
      var sketch, t := s.data[k].value.sketch, TotalsAt(truth, k);
      SketchAt(h, truth, s.data, k);
      CountMin.BatchExact(h, sketch, t, batch);
      var after := CountMin.AddedAll(t, batch[..CountMin.Accepted(sketch.count, batch)]);
      MoreCounts(h, truth, s.data, k, CountMin.IncrementAll(h, sketch, batch).0, after);
    }
  }

  lemma ExactWhole(h: Hash, sketch: CountMin.Sketch, t: CountMin.Totals)
    requires CountMin.Exact(h, sketch, t)
    ensures Whole(t) == sketch.count
  {
  }

  // ----- filters -----

  lemma FilterLearntOff(truth: Truth, k: Bytes, items: set<Bytes>)
    ensures var learnt := truth.(items := truth.items[k := items]); Off(truth, learnt, k) && ItemsAt(learnt, k) == items
  {
  }

  lemma FilterGenuine(h: Hash, truth: Truth, k: Bytes, f: BloomFilters.Bloom)
    requires BloomFilters.Faithful(h, f, ItemsAt(truth, k))
    ensures Genuine(h, truth, k, BloomV(f))
  {
  }

  lemma AddEachFaithful(h: Hash, f: BloomFilters.Bloom, before: set<Bytes>, items: seq<Bytes>)
    requires BloomFilters.Shaped(f) && BloomFilters.Faithful(h, f, before)
    ensures BloomFilters.Faithful(h, Ops.AddEach(h, f, items).0, before + SortedSets.SetOf(items))
  {
    BloomFilters.AddAllFaithful(h, f, before, items);
    AddEachIs(h, f, items);
    hide BloomFilters.Faithful, BloomFilters.AddAll, Ops.AddEach;
  }

  lemma EmptyFaithful(h: Hash, size: Ops.BloomSize)
    ensures BloomFilters.Faithful(h, Ops.EmptyBloom(size), {})
  {
    BloomFilters.ZeroWords(Ops.EmptyBloom(size));
  }

  lemma FilterAt(h: Hash, truth: Truth, data: Data, k: Bytes)
    requires AllGenuine(h, truth, data) && k in data && data[k].value.BloomV?
    ensures BloomFilters.Faithful(h, data[k].value.filter, ItemsAt(truth, k)) && BloomFilters.Shaped(data[k].value.filter)
  {
    assert Genuine(h, truth, k, data[k].value);
  }

  /** A filter with more items in the place of one that was explained. */
  lemma MoreItems(h: Hash, truth: Truth, data: Data, k: Bytes, g: BloomFilters.Bloom, items: set<Bytes>)
    requires AllGenuine(h, truth, data) && k in data && BloomFilters.Faithful(h, g, items)
    ensures AllGenuine(h, truth.(items := truth.items[k := items]), data[k := data[k].(value := BloomV(g))])
  {
    hide BloomFilters.Faithful, AllGenuine, Genuine, Off;
    var other := truth.(items := truth.items[k := items]);
    FilterLearntOff(truth, k, items);
    FilterGenuine(h, other, k, g);
    PutGenuine(h, truth, other, data, k, data[k].(value := BloomV(g)));
  }

  lemma BfAddLiveGenuine(h: Hash, truth: Truth, s: State, k: Bytes, items: seq<Bytes>, now: int)
    requires Consistent(s) && Ops.Live(s, k, now) && AllGenuine(h, truth, s.data)
    ensures var (t, answer) := Ops.BfAddLive(s, h, k, items);
      AllGenuine(h, Learn(s, truth, BfAdd(k, items), now, answer), t.data)
  {
    hide BloomFilters.Faithful, AllGenuine, ItemsAt, Ops.AddEach, Front, NoDuplicates, KeySet, SortedSets.SetOf;
    if s.data[k].value.BloomV? {
      FilterAt(h, truth, s.data, k);
      var f := s.data[k].value.filter;
      AddEachFaithful(h, f, ItemsAt(truth, k), items);
      MoreItems(h, truth, s.data, k, Ops.AddEach(h, f, items).0, ItemsAt(truth, k) + SortedSets.SetOf(items));
    }
  }

  lemma FilledOthers(mid: State, h: Hash, k: Bytes, items: seq<Bytes>, size: Ops.BloomSize, j: Bytes)
    requires j in Ops.BfFilled(mid, h, k, items, size).0.data
    ensures var v := Ops.BfFilled(mid, h, k, items, size).0.data[j].value;
      && j in mid.data && v == if j == k then BloomV(Ops.AddEach(h, Ops.EmptyBloom(size), items).0) else mid.data[j].value
  {
    hide Ops.AddEach, Ops.EmptyBloom;
  }

  /** The new filter holds just the items, in whatever store it landed; the rest is as it was. */
  lemma BfFilledGenuine(c: Config, truth: Truth, s: State, mid: State, k: Bytes, items: seq<Bytes>, now: int)
    requires AllGenuine(c.hash, truth, s.data) && !Ops.Live(s, k, now)
    requires Inherits(Ops.BfCreate(s, k, c.size, now).data, mid.data)
    ensures var (t, answer) := Ops.BfFilled(mid, c.hash, k, items, c.size);
      AllGenuine(c.hash, Learn(s, truth, BfAdd(k, items), now, answer), t.data)
  {
    hide Genuine, Off, BloomFilters.Faithful, ItemsAt, Ops.AddEach, Ops.EmptyBloom, Ops.BfCreate, SortedSets.SetOf;
    var t := Ops.BfFilled(mid, c.hash, k, items, c.size).0;
    var learnt: set<Bytes> := {} + SortedSets.SetOf(items);
    var other := truth.(items := truth.items[k := learnt]);
    EmptyFaithful(c.hash, c.size);
    AddEachFaithful(c.hash, Ops.EmptyBloom(c.size), {}, items);
    FilterLearntOff(truth, k, learnt);
    FilterGenuine(c.hash, other, k, Ops.AddEach(c.hash, Ops.EmptyBloom(c.size), items).0);
    forall j | j in t.data ensures Genuine(c.hash, other, j, t.data[j].value) {
      FilledOthers(mid, c.hash, k, items, c.size, j);
      if j != k {
        CreatedOthers(c, s, k, now, j);
        OffGenuine(c.hash, truth, other, k, j, s.data[j].value);
      }
    }
  }

  lemma CreatedOthers(c: Config, s: State, k: Bytes, now: int, j: Bytes)
    requires j != k && j in Ops.BfCreate(s, k, c.size, now).data
    ensures j in s.data && Ops.BfCreate(s, k, c.size, now).data[j] == s.data[j]
  {
    hide Ops.EmptyBloom, Front, Without;
  }

  // ----- plain values -----

  /** Strings, sets and sorted sets have nothing to explain. */
  lemma PlainGenuine(h: Hash, truth: Truth, k: Bytes, v: Value)
    requires !v.SketchV? && !v.BloomV?
    ensures Genuine(h, truth, k, v)
  {
  }

  /** The ways a container's record goes or is rewritten. */
  lemma RewriteGenuine(h: Hash, truth: Truth, s: State, k: Bytes, v: Value, now: int)
    requires AllGenuine(h, truth, s.data) && !v.SketchV? && !v.BloomV?
    ensures AllGenuine(h, truth, Ops.Purge(s, k, now).data) && AllGenuine(h, truth, DropEmptied(s, k).data)
    ensures k in s.data ==> AllGenuine(h, truth, Overwrite(s, k, s.data[k].(value := v)).data)
    ensures AllGenuine(h, truth, Ops.Store(s, k, Record(v, None), now).data)
  {
    PlainGenuine(h, truth, k, v);
    SameOff(truth, k);
    StoreGenuine(h, truth, truth, s, k, Record(v, None), now);
    hide Genuine, Off, Without, Front, Ops.Store;
  }

  lemma GrowthGenuine(h: Hash, truth: Truth, s: State, k: Bytes, members: seq<Bytes>, scores: map<Bytes, Score>, now: int)
    requires AllGenuine(h, truth, s.data)
    ensures AllGenuine(h, truth, Ops.SAdd(s, k, members, now).0.data) && AllGenuine(h, truth, Ops.ZAdd(s, k, scores, now).0.data)
  {
    hide AllGenuine, Ops.Store, Overwrite, SortedSets.SetOf;
    var added := SortedSets.SetOf(members);
    RewriteGenuine(h, truth, s, k, SetV(added), now);
    RewriteGenuine(h, truth, s, k, ZSetV(scores), now);
    if Ops.Live(s, k, now) && s.data[k].value.SetV? {
      RewriteGenuine(h, truth, s, k, SetV(s.data[k].value.members + added), now);
    } else if Ops.Live(s, k, now) && s.data[k].value.ZSetV? {
      RewriteGenuine(h, truth, s, k, ZSetV(s.data[k].value.scores + scores), now);
    }
  }

  lemma RemovalGenuine(h: Hash, truth: Truth, s: State, k: Bytes, members: seq<Bytes>, now: int)
    requires AllGenuine(h, truth, s.data)
    ensures AllGenuine(h, truth, Ops.SRem(s, k, members, now).0.data) && AllGenuine(h, truth, Ops.ZRem(s, k, members, now).0.data)
  {
    hide AllGenuine, Ops.Purge, Overwrite, DropEmptied, SortedSets.SetOf;
    var gone := SortedSets.SetOf(members);
    RewriteGenuine(h, truth, s, k, SetV({}), now);
    if Ops.Live(s, k, now) && s.data[k].value.SetV? {
      var old_ := s.data[k].value.members;
      RewriteGenuine(h, truth, s, k, SetV(old_ - gone * old_), now);
    } else if Ops.Live(s, k, now) && s.data[k].value.ZSetV? {
      var old_ := s.data[k].value.scores;
      RewriteGenuine(h, truth, s, k, ZSetV(old_ - gone * old_.Keys), now);
    }
  }

  lemma IncrGenuine(h: Hash, truth: Truth, s: State, k: Bytes, now: int)
    requires AllGenuine(h, truth, s.data)
    ensures AllGenuine(h, truth, Ops.Incr(s, k, now).0.data)
  {
    hide AllGenuine, Ops.Store, Overwrite, Decimals.FormatInt, Decimals.ParseInt;
    RewriteGenuine(h, truth, s, k, StringV(Decimals.FormatInt(1)), now);
    if Ops.Live(s, k, now) && s.data[k].value.StringV? {
      var parsed := Decimals.ParseInt(s.data[k].value.text);
      if parsed.Some? {
        RewriteGenuine(h, truth, s, k, StringV(Decimals.FormatInt(Ops.Wrap64(parsed.value + 1))), now);
      }
    }
  }

  lemma CreateGenuine(c: Config, truth: Truth, s: State, op: Op, now: int)
    requires Consistent(s) && AllGenuine(c.hash, truth, s.data) && (op.CmsInit? || op.BfReserve?)
    ensures var (t, answer) := Effect(c, s, op, now); AllGenuine(c.hash, Learn(s, truth, op, now, answer), t.data)
  {
    hide Genuine, AllGenuine, Off, Consistent, Ops.Store, Ops.EmptyBloom, BloomFilters.Faithful, CountMin.Exact;
    if op.CmsInit? && op.width > 0 && op.depth > 0 {
      var learnt := truth.(totals := truth.totals[op.key := map[]]);
      LearntOff(truth, op.key, map[]);
      CountMin.EmptyExact(c.hash, op.width, op.depth);
      SketchGenuine(c.hash, learnt, op.key, CountMin.EmptySketch(op.width, op.depth));
      StoreGenuine(c.hash, truth, learnt, s, op.key, Record(SketchV(CountMin.EmptySketch(op.width, op.depth)), None), now);
    } else if op.BfReserve? && op.size.Some? {
      var learnt := truth.(items := truth.items[op.key := {}]);
      FilterLearntOff(truth, op.key, {});
      EmptyFaithful(c.hash, op.size.value);
      FilterGenuine(c.hash, learnt, op.key, Ops.EmptyBloom(op.size.value));
      StoreGenuine(c.hash, truth, learnt, s, op.key, Record(BloomV(Ops.EmptyBloom(op.size.value)), None), now);
    }
  }

  // ----- every command -----

  /** A command that teaches nothing keeps the sketches and filters it does not drop as they were. */
  lemma PlainEffectGenuine(c: Config, truth: Truth, s: State, op: Op, now: int)
    requires Consistent(s) && AllGenuine(c.hash, truth, s.data)
    requires !op.CmsInit? && !op.CmsIncrBy? && !op.CmsMerge? && !op.BfReserve? && !op.BfAdd?
    ensures AllGenuine(c.hash, truth, Effect(c, s, op, now).0.data)
  {
    hide AllGenuine, Inherits, Consistent, Ops.Store, Ops.DeleteEach, Ops.ExistsEach, Ops.Expire, Ops.Incr, Ops.SAdd, Ops.SRem, Ops.ZAdd, Ops.ZRem;
    if op.Set? {
      var record := Record(StringV(op.text), if op.ttl > 0 then Some(now + op.ttl) else None);
      PlainGenuine(c.hash, truth, op.key, record.value);
      SameOff(truth, op.key);
      StoreGenuine(c.hash, truth, truth, s, op.key, record, now);
    } else if op.Delete? {
      DeleteInherits(s, op.keys);
      InheritGenuine(c.hash, truth, s.data, Effect(c, s, op, now).0.data);
    } else if op.Expire? {
      ExpireInherits(s, op.key, op.ttl, now);
      InheritGenuine(c.hash, truth, s.data, Effect(c, s, op, now).0.data);
    } else if op.Exists? {
      ExistsInherits(s, op.keys, now);
      InheritGenuine(c.hash, truth, s.data, Effect(c, s, op, now).0.data);
    } else if op.Incr? {
      IncrGenuine(c.hash, truth, s, op.key, now);
    } else if op.SAdd? {
      GrowthGenuine(c.hash, truth, s, op.key, op.members, map[], now);
    } else if op.ZAdd? {
      GrowthGenuine(c.hash, truth, s, op.key, [], op.scores, now);
    } else if op.SRem? || op.ZRem? {
      RemovalGenuine(c.hash, truth, s, op.key, op.members, now);
    } else {
      hide Effect;
      ReadInherits(c, s, op, now);
      InheritGenuine(c.hash, truth, s.data, Effect(c, s, op, now).0.data);
    }
  }

  lemma EffectGenuine(c: Config, truth: Truth, s: State, op: Op, now: int)
    requires Consistent(s) && AllGenuine(c.hash, truth, s.data) && (op.BfAdd? ==> Ops.Live(s, op.key, now))
    ensures var (t, answer) := Effect(c, s, op, now); AllGenuine(c.hash, Learn(s, truth, op, now, answer), t.data)
  {
    hide AllGenuine, Consistent, Ops.CmsIncrBy, Ops.CmsMerge, Ops.BfAddLive;
    if op.CmsInit? || op.BfReserve? {
      hide Effect, Learn;
      CreateGenuine(c, truth, s, op, now);
    } else if op.CmsIncrBy? {
      hide Learn;
      CmsIncrByGenuine(c.hash, truth, s, op.key, op.increments, now);
    } else if op.CmsMerge? {
      hide Learn;
      CmsMergeGenuine(c.hash, truth, s, op.key, op.keys, op.weights, now);
    } else if op.BfAdd? {
      hide Learn;
      BfAddLiveGenuine(c.hash, truth, s, op.key, op.items, now);
    } else {
      hide Effect;
      PlainEffectGenuine(c, truth, s, op, now);
    }
  }

  lemma StepGenuine(c: Config, truth: Truth, s: State, op: Op, now: int, t: State, answer: Ops.Answer)
    requires Consistent(s) && AllGenuine(c.hash, truth, s.data) && Step(c, s, op, now, t, answer)
    ensures AllGenuine(c.hash, Learn(s, truth, op, now, answer), t.data)
  {
    hide AllGenuine, Inherits, Consistent, Settled, Effect, Learn, Ops.BfAddLive, Ops.BfFilled, Ops.BfCreate;
    if op.BfAdd? && !Ops.Live(s, op.key, now) {
      var made := Ops.BfCreate(s, op.key, c.size, now);
      var mid :| Settled(c.lim, c.exact, made, mid) && Ops.BfFilled(mid, c.hash, op.key, op.items, c.size) == (t, answer);
      SettledInherits(c.lim, c.exact, made, mid);
      BfFilledGenuine(c, truth, s, mid, op.key, op.items, now);
    } else {
      EffectGenuine(c, truth, s, op, now);
      if Evicts(op) {
        SettledInherits(c.lim, c.exact, Effect(c, s, op, now).0, t);
        InheritGenuine(c.hash, Learn(s, truth, op, now, answer), Effect(c, s, op, now).0.data, t.data);
      } else {
        BfAddLiveIs(c, s, op, now, t, answer);
      }
    }
  }

  // ----- runs -----

  /** What a run has taught. */
  ghost function Learnt(m: Machine, truth: Truth, moments: seq<Moment>): Truth
    decreases |moments|
  {
    if moments == [] then truth else
      var first := moments[0];
      var next := if first.event.Whole? then Learn(m.store, truth, first.event.op, first.now, first.answer) else truth;
      Learnt(first.after, next, moments[1..])
  }

  lemma MoveGenuine(c: Config, truth: Truth, m: Machine, e: Event, now: int, n: Machine, answer: Ops.Answer)
    requires Consistent(m.store) && AllGenuine(c.hash, truth, m.store.data) && Move(c, m, e, now, n, answer)
    ensures AllGenuine(c.hash, if e.Whole? then Learn(m.store, truth, e.op, now, answer) else truth, n.store.data)
  {
    hide AllGenuine, Learn, Consistent, Step, LookAt, Without;
    match e
    case Whole(op) => StepGenuine(c, truth, m.store, op, now, n.store, answer);
    case Look(_, op) => LookData(c, m.store, op, now);
    case Upgrade(_) => InheritGenuine(c.hash, truth, m.store.data, n.store.data);
  }

  /** Over every interleaving, each stored sketch counts exactly the increments that the commands of the run made
      to it, merges included, and each stored filter holds exactly the items they added. */
  lemma {:induction false} RunGenuine(c: Config, truth: Truth, m: Machine, moments: seq<Moment>)
    requires Consistent(m.store) && AllGenuine(c.hash, truth, m.store.data) && Run(c, m, moments)
    ensures AllGenuine(c.hash, Learnt(m, truth, moments), Before(m, moments, |moments|).store.data)
    decreases |moments|
  {
    hide AllGenuine, Consistent, Move, Learn;
    if moments != [] {
      var first := moments[0];
      var next := if first.event.Whole? then Learn(m.store, truth, first.event.op, first.now, first.answer) else truth;
      MoveGenuine(c, truth, m, first.event, first.now, first.after, first.answer);
      MoveConsistent(c, m, first);
      RunGenuine(c, next, first.after, moments[1..]);
    }
  }

  /** So in every run of a new store an estimate never undershoots what was really counted for the item, and
      never exceeds the number of all counts; and an item that was added to a filter is found. */
  lemma NewStoreEstimates(c: Config, tracked: bool, moments: seq<Moment>, k: Bytes, item: Bytes)
    requires Run(c, NewMachine(tracked), moments) && k in Before(NewMachine(tracked), moments, |moments|).store.data
    ensures var v := Before(NewMachine(tracked), moments, |moments|).store.data[k].value;
      var t := TotalsAt(Learnt(NewMachine(tracked), Truth(map[], map[]), moments), k);
      v.SketchV? ==>
        CountMin.Shaped(v.sketch) && CountMin.TotalOf(t)(item) <= CountMin.Query(c.hash, v.sketch, item) <= Whole(t)
    ensures var v := Before(NewMachine(tracked), moments, |moments|).store.data[k].value;
      v.BloomV? && item in ItemsAt(Learnt(NewMachine(tracked), Truth(map[], map[]), moments), k) ==>
        BloomFilters.Shaped(v.filter) && BloomFilters.Has(c.hash, v.filter, item)
  {
    var none := Truth(map[], map[]);
    NewMachineKeeps(c, tracked);
    RunGenuine(c, none, NewMachine(tracked), moments);
    var v, truth := Before(NewMachine(tracked), moments, |moments|).store.data[k].value, Learnt(NewMachine(tracked), none, moments);
    assert Genuine(c.hash, truth, k, v);
    hide Run, Learnt, Before, NewMachine;
    if v.SketchV? {
      CountMin.QuerySound(c.hash, v.sketch, TotalsAt(truth, k), item);
    } else if v.BloomV? && item in ItemsAt(truth, k) {
      BloomFilters.NoFalseNegatives(c.hash, v.filter, ItemsAt(truth, k), [], item);
    }
  }

  /** In a store with genuine sketches, a batch of increments overflows exactly when its count would: the guards
      on single cells never decide. */
  lemma IncrOverflowByCount(h: Hash, truth: Truth, s: State, k: Bytes, batch: seq<CountMin.Increment>, now: int)
    requires Consistent(s) && AllGenuine(h, truth, s.data) && Ops.SketchError(s, k, now).None?
    ensures Ops.CmsIncrBy(s, h, k, batch, now).1 == Ops.Overflow
      <==> CountMin.Accepted(s.data[k].value.sketch.count, batch) < |batch|
  {
    var sketch := s.data[k].value.sketch;
    assert Genuine(h, truth, k, SketchV(sketch));
    CountMin.BatchExact(h, sketch, TotalsAt(truth, k), batch);
    hide Front, NoDuplicates, KeySet, CountMin.IncrementAll, CountMin.Accepted, CountMin.Exact, AllGenuine;
  }

  /** A merge of equal-sized sketches overflows exactly when the weighted sum of their counts does. */
  lemma MergeOverflowByCount(h: Hash, truth: Truth, s: State, k: Bytes, keys: seq<Bytes>, weights: seq<CountMin.uint64>, now: int)
    requires Consistent(s) && AllGenuine(h, truth, s.data) && 0 < |keys| == |weights|
    requires var (_, error, sources) := Ops.CmsSources(s, keys, now);
      error.None? && forall i :: 0 <= i < |sources| ==> CountMin.SameShape(sources[0], sources[i])
    ensures var sources := Ops.CmsSources(s, keys, now).2;
      |sources| == |weights| && (Ops.CmsMerge(s, k, keys, weights, now).1 == Ops.Overflow
      <==> CountMin.WeightedCount(sources, weights) > CountMin.MAX_UINT64)
  {
    hide Genuine, AllGenuine, Consistent, Ops.Store, Ops.CmsSources, CountMin.MergeAll, CountMin.WeightedCount, CountMin.Exact, AllTotals;
    SourcesGenuine(h, truth, s, keys, now);
    Ops.CmsSourcesShaped(s, keys, now);
    AllTotalsAt(truth, keys);
    CountMin.MergeAllExact(h, Ops.CmsSources(s, keys, now).2, AllTotals(truth, keys), weights);
  }
}
