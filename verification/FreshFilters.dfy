/** Adding to an absent key makes a filter, evicts, and only then sets bits: when the items survive. */
module FreshFilters {
  import opened Bytes
  import opened Options
  import opened Policies
  import opened StoreSpec
  import opened StoreRuns
  import Ops = StoreOps
  import BloomFilters
  import Stores

  lemma {:induction false} AddEachIs(h: Hash, f: BloomFilters.Bloom, items: seq<Bytes>)
    requires BloomFilters.Shaped(f)
    ensures Ops.AddEach(h, f, items).0 == BloomFilters.AddAll(h, f, items)
    decreases |items|
  {
    hide BloomFilters.Add, BloomFilters.Has;
    if items != [] {
      AddEachIs(h, BloomFilters.Add(h, f, items[0]), items[1..]);
    }
  }

  lemma FilledFinds(h: Hash, size: Ops.BloomSize, items: seq<Bytes>, item: Bytes)
    requires item in items
    ensures BloomFilters.Has(h, Ops.AddEach(h, Ops.EmptyBloom(size), items).0, item)
  {
    AddEachIs(h, Ops.EmptyBloom(size), items);
    BloomFilters.ZeroWords(Ops.EmptyBloom(size));
    assert BloomFilters.Faithful(h, Ops.EmptyBloom(size), {});
    hide Ops.EmptyBloom, BloomFilters.Faithful, BloomFilters.Has;
    BloomFilters.NoFalseNegatives(h, Ops.EmptyBloom(size), {}, items, item);
  }

  /** The store finds an item in the filter at `k`. */
  ghost predicate Finds(c: Config, t: State, k: Bytes, item: Bytes, now: int) {
    Consistent(t) && Ops.BfExists(t, c.hash, k, [item], now).1 == Ops.Bits([true])
  }

  /** The record of a new filter. */
  ghost function NewFilter(c: Config): Record {
    Record(BloomV(Ops.EmptyBloom(c.size)), None)
  }

  /** The memory limit leaves room for a new filter when it is the only record. */
  predicate RoomAlone(c: Config, k: Bytes) {
    c.lim.maxMemory > 0 ==> |k| + (c.size.bitCount + 63) / 64 * 8 <= c.lim.maxMemory
  }

  lemma NewFilterSize(c: Config, k: Bytes)
    ensures RecordSize(k, NewFilter(c)) == |k| + (c.size.bitCount + 63) / 64 * 8
  {
  }

  lemma MadeIs(c: Config, s: State, k: Bytes, now: int)
    requires Consistent(s) && !Ops.Live(s, k, now)
    ensures var made := Ops.BfCreate(s, k, c.size, now);
      && Consistent(made) && made.tracked == s.tracked && k in made.data && made.data[k] == NewFilter(c)
      && (s.tracked ==> made.order != [] && made.order[0] == k)
  {
    BfCreateOrderly(s, k, c.size, now);
    OrderlyConsistent(s, Ops.BfCreate(s, k, c.size, now), now);
    hide Consistent, Ops.EmptyBloom, Without;
  }

  /** One record alone. */
  lemma AloneOver(k: Bytes, record: Record, lim: Limits)
    ensures Over(map[k := record], lim) <==> lim.maxMemory > 0 && RecordSize(k, record) > lim.maxMemory
  {
    UsedPut(map[], k, record);
    assert map[][k := record] == map[k := record];
  }

  lemma NewestOne(s: State)
    requires s.order != [] && s.order[0] in s.data
    ensures Newest(s, 1) == map[s.order[0] := s.data[s.order[0]]]
  {
    assert s.order[..1] == [s.order[0]];
  }

  /** Fewer records are no more over the limits. */
  lemma PartNotOver(all: Data, part: Data, lim: Limits)
    requires !Over(all, lim) && part.Keys <= all.Keys && forall k :: k in part ==> part[k] == all[k]
    ensures !Over(part, lim)
  {
    var nothing := Tally(0, 0, 0, 0, 0, 0, 0);
    NoLargerFits(State(all, [], false, nothing), State(part, [], false, nothing), lim);
  }

  /** Exact LRU: the newest record survives exactly when it fits alone. */
  lemma NewestSurvives(s: State, lim: Limits)
    requires Consistent(s) && s.tracked && s.order != []
    ensures var k := s.order[0];
      k in s.data && (k in Fit(s, lim).data <==> !Over(map[k := s.data[k]], lim))
  {
    var k, t := s.order[0], Fit(s, lim);
    FitIsShortest(s, lim);
    assert k in KeySet(s.order);
    NewestOne(s);
    if |t.order| == 0 {
      assert t.data == map[];
      assert Over(Newest(s, 1), lim);
    } else {
      assert k in KeySet(s.order[..|t.order|]);
      hide Over, Fit, Consistent;
      PartNotOver(t.data, map[k := s.data[k]], lim);
    }
  }

  /** Nothing else than eviction takes the new filter away. */
  lemma SurvivesWhen(c: Config, s: State, k: Bytes, now: int, mid: State)
    requires Consistent(s) && !Ops.Live(s, k, now) && Settled(c.lim, c.exact, Ops.BfCreate(s, k, c.size, now), mid)
    ensures !s.tracked ==> k in mid.data
    ensures s.tracked && c.exact ==> (k in mid.data <==> RoomAlone(c, k))
    ensures !Over(Ops.BfCreate(s, k, c.size, now).data, c.lim) ==> k in mid.data
  {
    var made := Ops.BfCreate(s, k, c.size, now);
    MadeIs(c, s, k, now);
    NewFilterSize(c, k);
    if s.tracked {
      NewestSurvives(made, c.lim);
      AloneOver(k, NewFilter(c), c.lim);
    }
    hide Consistent, Over, Fit, Restrict, Ops.BfCreate, Ops.EmptyBloom, RecordSize;
  }

  lemma FilledFindsIff(c: Config, mid: State, k: Bytes, items: seq<Bytes>, now: int, item: Bytes)
    requires item in items && Consistent(Ops.BfFilled(mid, c.hash, k, items, c.size).0)
    requires k in mid.data ==> mid.data[k] == NewFilter(c)
    ensures Finds(c, Ops.BfFilled(mid, c.hash, k, items, c.size).0, k, item, now) <==> k in mid.data
  {
    FilledFinds(c.hash, c.size, items, item);
    hide NoDuplicates, KeySet, Ops.EmptyBloom, Ops.AddEach, BloomFilters.Has, Front;
    var t := Ops.BfFilled(mid, c.hash, k, items, c.size).0;
    if k in mid.data {
      assert !Ops.Expired(t.data[k], now);
    } else {
      assert Ops.BfExists(t, c.hash, k, [item], now).1 == Ops.Bits([false]);
    }
  }

  /** An item is found after it was added to an absent key exactly when the new filter survived. */
  lemma FoundWhenKept(c: Config, s: State, k: Bytes, items: seq<Bytes>, now: int, mid: State, item: Bytes)
    requires Consistent(s) && !Ops.Live(s, k, now) && Settled(c.lim, c.exact, Ops.BfCreate(s, k, c.size, now), mid)
    requires item in items
    ensures Finds(c, Ops.BfFilled(mid, c.hash, k, items, c.size).0, k, item, now) <==> k in mid.data
  {
    if k in mid.data {
      Stores.WrittenKept(s, k, NewFilter(c), now, c.lim, c.exact, mid);
    }
    assert Consistent(mid);
    hide Consistent, Settled, Ops.BfCreate, Ops.EmptyBloom, Ops.BfFilled, Finds;
    BfFillMoves(mid, c, k, items, now);
    MovesConsistent(mid, Ops.BfFilled(mid, c.hash, k, items, c.size).0, now);
    FilledFindsIff(c, mid, k, items, now, item);
  }

  /** An item just added to an absent key is found: without a policy, always; with exact LRU, exactly
      when the memory limit has room for the new filter alone; with any policy, when the store with the
      new filter is within its limits. */
  lemma FreshFilterFinds(c: Config, s: State, k: Bytes, items: seq<Bytes>, now: int, t: State, answer: Ops.Answer, item: Bytes)
    requires Consistent(s) && !Ops.Live(s, k, now) && item in items
    requires Ops.BfAdded(c.lim, c.exact, s, c.hash, k, items, c.size, now, t, answer)
    ensures !s.tracked ==> Finds(c, t, k, item, now)
    ensures s.tracked && c.exact ==> (Finds(c, t, k, item, now) <==> RoomAlone(c, k))
    ensures !Over(Ops.BfCreate(s, k, c.size, now).data, c.lim) ==> Finds(c, t, k, item, now)
  {
    hide Consistent, Over, Settled, Ops.BfCreate, Ops.BfFilled, Finds;
    var mid :| Settled(c.lim, c.exact, Ops.BfCreate(s, k, c.size, now), mid)
      && Ops.BfFilled(mid, c.hash, k, items, c.size) == (t, answer);
    SurvivesWhen(c, s, k, now, mid);
    FoundWhenKept(c, s, k, items, now, mid, item);
  }

  // ----- any victim -----

  /** An eviction under way can be finished the exact way. */
  lemma {:induction false} FinishEvicting(lim: Limits, pre: State, cur: State)
    requires Evicting(lim, false, pre, cur) && cur.tracked
    ensures Evicting(lim, false, pre, Fit(cur, lim))
    decreases |cur.order|
  {
    hide Over, Consistent, Restrict, EvictsInTurn;
    if Over(cur.data, lim) && cur.order != [] {
      assert Consistent(cur) by {
        EvictingConsistent(lim, pre, cur);
      }
      VictimsHaveRecords(cur, lim);
      EvictingStep(lim, false, pre, cur, LastKey(cur));
      hide Evicting;
      FinishEvicting(lim, pre, DropEvicted(cur, LastKey(cur)));
    }
  }

  lemma EvictingConsistent(lim: Limits, pre: State, cur: State)
    requires Evicting(lim, false, pre, cur)
    ensures Consistent(cur)
  {
  }

  lemma {:induction false} FitShrinks(s: State, lim: Limits)
    ensures Fit(s, lim).data.Keys <= s.data.Keys && Fit(s, lim).tracked == s.tracked
    decreases |s.order|
  {
    hide Over, Without;
    if s.tracked && Over(s.data, lim) && s.order != [] {
      FitShrinks(DropEvicted(s, LastKey(s)), lim);
    }
  }

  /** A policy that may take any tracked key may take this one first. */
  lemma TakeFirst(lim: Limits, s: State, k: Bytes) returns (mid: State)
    requires Consistent(s) && s.tracked && Over(s.data, lim) && k in s.data
    ensures Settled(lim, false, s, mid) && k !in mid.data
  {
    var cur := DropEvicted(s, k);
    EvictingStarts(lim, false, s);
    VictimsHaveRecords(s, lim);
    EvictingStep(lim, false, s, s, k);
    FinishEvicting(lim, s, cur);
    EvictingConsistent(lim, s, cur);
    FitShrinks(cur, lim);
    FitIsShortest(cur, lim);
    mid := Fit(cur, lim);
    assert k !in cur.data;
    hide Over, Consistent, Evicting, Fit;
    EvictingEnds(lim, false, s, mid);
  }

  /** With a policy that may take any key, an item just added is found in every run exactly when the store
      with the new filter is within its limits; otherwise some run loses it. */
  lemma AnyVictimFinds(c: Config, s: State, k: Bytes, items: seq<Bytes>, now: int, item: Bytes)
    requires Consistent(s) && s.tracked && !c.exact && !Ops.Live(s, k, now) && item in items
    ensures (forall t, answer ::
        Ops.BfAdded(c.lim, c.exact, s, c.hash, k, items, c.size, now, t, answer) ==> Finds(c, t, k, item, now))
      <==> !Over(Ops.BfCreate(s, k, c.size, now).data, c.lim)
  {
    hide Over, Finds;
    var made := Ops.BfCreate(s, k, c.size, now);
    if Over(made.data, c.lim) {
      MadeIs(c, s, k, now);
      var mid := TakeFirst(c.lim, made, k);
      FoundWhenKept(c, s, k, items, now, mid, item);
      var (t, answer) := Ops.BfFilled(mid, c.hash, k, items, c.size);
      hide Consistent, Settled, Ops.BfCreate, Ops.BfFilled;
      assert Ops.BfAdded(c.lim, c.exact, s, c.hash, k, items, c.size, now, t, answer);
    } else {
      forall t, answer | Ops.BfAdded(c.lim, c.exact, s, c.hash, k, items, c.size, now, t, answer)
        ensures Finds(c, t, k, item, now)
      {
        FreshFilterFinds(c, s, k, items, now, t, answer, item);
      }
    }
  }

  lemma OverPut(rest: Data, k: Bytes, record: Record, lim: Limits)
    requires k !in rest
    ensures Over(rest[k := record], lim) <==>
      || (lim.maxEntries > 0 && |rest| + 1 > lim.maxEntries)
      || (lim.maxMemory > 0 && Used(rest) + RecordSize(k, record) > lim.maxMemory)
  {
    UsedPut(rest, k, record);
    assert |rest[k := record]| == |rest| + 1 by {
      assert rest[k := record].Keys == rest.Keys + {k};
    }
    hide Used, RecordSize;
  }

  /** That limit, in what a caller can count before the call. */
  lemma OverWithFilter(c: Config, s: State, k: Bytes, now: int)
    requires Consistent(s) && !Ops.Live(s, k, now)
    ensures var rest := s.data - {k};
      Over(Ops.BfCreate(s, k, c.size, now).data, c.lim) <==>
        || (c.lim.maxEntries > 0 && |rest| + 1 > c.lim.maxEntries)
        || (c.lim.maxMemory > 0 && Used(rest) + (|k| + (c.size.bitCount + 63) / 64 * 8) > c.lim.maxMemory)
  {
    hide *;
    CreatedData(c, s, k, now);
    NewFilterSize(c, k);
    OverPut(s.data - {k}, k, NewFilter(c), c.lim);
  }

  lemma CreatedData(c: Config, s: State, k: Bytes, now: int)
    requires !Ops.Live(s, k, now)
    ensures Ops.BfCreate(s, k, c.size, now).data == (s.data - {k})[k := NewFilter(c)]
  {
    hide Ops.EmptyBloom, Front, Without;
  }

  // ----- an item that is lost -----

  /** In some run an item is reported as added, and is not found right afterwards. */
  ghost predicate Loses(c: Config, s: State, k: Bytes, item: Bytes, now: int)
    requires Consistent(s)
  {
    exists t :: Ops.BfAdded(c.lim, c.exact, s, c.hash, k, [item], c.size, now, t, Ops.Bits([true])) && !Finds(c, t, k, item, now)
  }

  /** Exact LRU without room: the run reports an item as added that is not found. */
  lemma AddedAndLost(c: Config, s: State, k: Bytes, item: Bytes, now: int)
    requires Consistent(s) && s.tracked && c.exact && !Ops.Live(s, k, now) && !RoomAlone(c, k)
    ensures Loses(c, s, k, item, now)
  {
    var made := Ops.BfCreate(s, k, c.size, now);
    MadeIs(c, s, k, now);
    FinishExactly(c.lim, made);
    FirstAnswer(c, Fit(made, c.lim), k, item);
    hide Consistent, Settled, Ops.BfCreate, Ops.BfFilled, Finds, Fit, Over, RoomAlone;
    var t := Ops.BfFilled(Fit(made, c.lim), c.hash, k, [item], c.size).0;
    assert Ops.BfAdded(c.lim, c.exact, s, c.hash, k, [item], c.size, now, t, Ops.Bits([true]));
    FreshFilterFinds(c, s, k, [item], now, t, Ops.Bits([true]), item);
  }

  lemma FirstAnswer(c: Config, mid: State, k: Bytes, item: Bytes)
    ensures Ops.BfFilled(mid, c.hash, k, [item], c.size).1 == Ops.Bits([true])
  {
    FirstIsNew(c, item);
    hide Ops.EmptyBloom, BloomFilters.Add, BloomFilters.Has;
    var f := Ops.EmptyBloom(c.size);
    assert [item][1..] == [];
    assert Ops.AddEach(c.hash, BloomFilters.Add(c.hash, f, item), []).1 == [];
    assert Ops.AddEach(c.hash, f, [item]).1 == [true];
  }

  /** A new store with eight bytes of memory, exact LRU and filters of one word: the first item added under
      a key of one byte is reported as added, and lost. */
  lemma TightStoreLoses(h: Hash, item: Bytes, now: int)
    ensures var c := Config(Limits(0, 8), true, h, Ops.BloomSize(64, 1, 1));
      var s := State(map[], [], true, Tally(0, 0, 0, 0, 0, 0, 0));
      Consistent(s) && Loses(c, s, [107], item, now)
  {
    var c := Config(Limits(0, 8), true, h, Ops.BloomSize(64, 1, 1));
    var s := State(map[], [], true, Tally(0, 0, 0, 0, 0, 0, 0));
    assert Consistent(s) && !Ops.Live(s, [107], now) && !RoomAlone(c, [107]);
    hide Consistent, Finds, RoomAlone, Loses, Ops.Live;
    AddedAndLost(c, s, [107], item, now);
  }

  lemma FinishExactly(lim: Limits, s: State)
    requires Consistent(s) && s.tracked
    ensures Settled(lim, true, s, Fit(s, lim))
  {
    EvictingStarts(lim, false, s);
    FinishEvicting(lim, s, s);
    FitShrinks(s, lim);
    FitIsShortest(s, lim);
    hide Over, Consistent, Restrict, EvictsInTurn, Fit;
  }

  lemma FirstIsNew(c: Config, item: Bytes)
    ensures !BloomFilters.Has(c.hash, Ops.EmptyBloom(c.size), item)
  {
    var f := Ops.EmptyBloom(c.size);
    BloomFilters.ZeroWords(f);
    assert BloomFilters.Position(c.hash, f, item, 0) in BloomFilters.Positions(c.hash, f, item);
  }
}
