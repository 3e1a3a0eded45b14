/** Which commands use a key, and that the store's order of use is the order of the last use by any command. */
module Recency {
  import opened Bytes
  import opened Options
  import opened Policies
  import opened StoreSpec
  import opened StoreRuns
  import opened Removals
  import opened Interleavings
  import opened Inheritance
  import Ops = StoreOps
  import Decimals
  import CountMin
  import BloomFilters
  import SortedSets

  // ----- what counts as a use -----

  /** The key is there and its time is not over. */
  ghost predicate There(s: State, k: Bytes, now: int) {
    k in s.data && (s.data[k].ttl == None || s.data[k].ttl.value >= now)
  }

  /** Some member of the container is not among those to be removed. */
  ghost predicate Leaves(all: set<Bytes>, removed: seq<Bytes>) {
    exists x :: x in all && x !in removed
  }

  ghost function If(used: bool, k: Bytes): seq<Use> {
    if used then [Touched(k)] else []
  }

  /** The sources of a merge are used one by one, up to the first that is no sketch. */
  ghost function Sources(s: State, keys: seq<Bytes>, now: int): seq<Use> {
    if keys == [] || !There(s, keys[0], now) || !s.data[keys[0]].value.SketchV? then []
    else [Touched(keys[0])] + Sources(s, keys[1..], now)
  }

  /** The keys that a command uses, in turn. A command that misses, finds another type, fails or takes the key
      away does not use it; neither do TTL, EXISTS, DEL and the sweep. */
  ghost function Uses(c: Config, s: State, op: Op, now: int): seq<Use>
    requires Consistent(s)
  {
    match op
    case Set(k, _, _) => [Touched(k)]
    case Get(k) => If(There(s, k, now) && s.data[k].value.StringV?, k)
    case Delete(_) => []
    case Expire(k, ttl) => If(There(s, k, now) && ttl > 0, k)
    case Ttl(_) => []
    case Exists(_) => []
    case Incr(k) => If(!There(s, k, now) || (s.data[k].value.StringV? && Decimals.ParseInt(s.data[k].value.text).Some?), k)
    case SAdd(k, _) => If(!There(s, k, now) || s.data[k].value.SetV?, k)
    case SRem(k, members) => If(There(s, k, now) && s.data[k].value.SetV? && Leaves(s.data[k].value.members, members), k)
    case SIsMember(k, _) => If(There(s, k, now) && s.data[k].value.SetV?, k)
    case SMembers(k) => If(There(s, k, now) && s.data[k].value.SetV?, k)
    case ZAdd(k, _) => If(!There(s, k, now) || s.data[k].value.ZSetV?, k)
    case ZAsk(k, _) => If(There(s, k, now) && s.data[k].value.ZSetV?, k)
    case ZRem(k, members) => If(There(s, k, now) && s.data[k].value.ZSetV? && Leaves(s.data[k].value.scores.Keys, members), k)
    case CmsInit(k, _, _) => If(Effect(c, s, op, now).1.Done?, k)
    case CmsIncrBy(k, _) => If(Effect(c, s, op, now).1.Counts?, k)
    case CmsQuery(k, _) => If(There(s, k, now) && s.data[k].value.SketchV?, k)
    case CmsInfo(k) => If(There(s, k, now) && s.data[k].value.SketchV?, k)
    case CmsMerge(k, keys, weights) =>
      (if |keys| == |weights| then Sources(s, keys, now) else []) + If(Effect(c, s, op, now).1.Done?, k)
    case BfReserve(k, size) => If(size.Some? && !There(s, k, now), k)
    case BfAdd(k, _) => If(!There(s, k, now) || s.data[k].value.BloomV?, k)
    case BfExists(k, _) => If(There(s, k, now) && s.data[k].value.BloomV?, k)
    case BfInfo(k) => If(There(s, k, now) && s.data[k].value.BloomV?, k)
    case Sweep => []
  }

  lemma ThereLives(s: State, k: Bytes, now: int)
    ensures There(s, k, now) <==> Ops.Live(s, k, now)
  {
  }

  // ----- elementary steps -----

  lemma {:induction false} WithoutAllInOrder(keys: seq<Bytes>, gone: set<Bytes>, events: seq<Use>)
    requires ByLastTouch(keys, events)
    ensures ByLastTouch(WithoutAll(keys, gone), events)
    ensures forall k :: k in WithoutAll(keys, gone) ==> k in keys
  {
    if keys != [] {
      WithoutAllInOrder(keys[1..], gone, events);
      var rest := WithoutAll(keys[1..], gone);
      forall j | 0 <= j < |rest| ensures LastTouch(events, keys[0]) > LastTouch(events, rest[j]) {
        assert rest[j] in rest;
        var i :| 0 <= i < |keys[1..]| && keys[1..][i] == rest[j];
        assert keys[i + 1] == rest[j];
      }
    }
  }

  lemma TouchedLast(events: seq<Use>, key: Bytes, k: Bytes)
    ensures LastTouch(events + [Touched(key)], k) == if k == key then |events| else LastTouch(events, k)
  {
    assert (events + [Touched(key)])[..|events|] == events;
  }

  lemma FrontInOrder(keys: seq<Bytes>, key: Bytes, events: seq<Use>)
    requires ByLastTouch(keys, events)
    ensures ByLastTouch(Front(keys, key), events + [Touched(key)])
  {
    var now, rest := events + [Touched(key)], Without(keys, key);
    WithoutInOrder(keys, key, events);
    forall j | 0 <= j < |rest| ensures LastTouch(now, rest[j]) == LastTouch(events, rest[j]) < |events| {
      WithoutIn(keys, key, rest[j]);
      TouchedLast(events, key, rest[j]);
      LastTouchBelow(events, rest[j]);
    }
    TouchedLast(events, key, key);
  }

  /** The order of the store's keys is that of their last uses. */
  ghost predicate InTurn(s: State, events: seq<Use>) {
    s.tracked ==> ByLastTouch(s.order, events)
  }

  lemma TouchInTurn(s: State, k: Bytes, events: seq<Use>)
    requires InTurn(s, events)
    ensures InTurn(Touch(s, k), events + [Touched(k)])
  {
    hide ByLastTouch, Front;
    if s.tracked {
      FrontInOrder(s.order, k, events);
    }
  }

  lemma DropInTurn(s: State, k: Bytes, events: seq<Use>)
    requires InTurn(s, events)
    ensures InTurn(DropExpired(s, k), events) && InTurn(DropEvicted(s, k), events)
    ensures InTurn(DropDeleted(s, k), events) && InTurn(DropEmptied(s, k), events)
  {
    hide ByLastTouch, Without;
    if s.tracked {
      WithoutInOrder(s.order, k, events);
    }
  }

  lemma PurgeInTurn(s: State, k: Bytes, now: int, events: seq<Use>)
    requires InTurn(s, events)
    ensures InTurn(Ops.Purge(s, k, now), events)
  {
    hide InTurn, DropExpired;
    DropInTurn(s, k, events);
  }

  lemma WriteInTurn(s: State, k: Bytes, record: Record, now: int, events: seq<Use>)
    requires InTurn(s, events)
    ensures InTurn(Overwrite(s, k, record), events + [Touched(k)])
    ensures InTurn(Ops.Store(s, k, record, now), events + [Touched(k)])
  {
    hide ByLastTouch, Front, Ops.Purge;
    var p := Ops.Purge(s, k, now);
    PurgeInTurn(s, k, now, events);
    TouchInTurn(s.(data := s.data[k := record]), k, events);
    TouchInTurn(p.(data := p.data[k := record], tally := p.tally.(inserted := p.tally.inserted + 1)), k, events);
  }

  lemma SameInTurn(s: State, t: State, events: seq<Use>)
    requires InTurn(s, events) && t.order == s.order && t.tracked == s.tracked
    ensures InTurn(t, events + [])
  {
    assert events + [] == events;
  }

  // ----- every command -----

  lemma IfNot(events: seq<Use>, k: Bytes)
    ensures events + If(false, k) == events && If(true, k) == [Touched(k)]
  {
  }

  lemma StringsInTurn(c: Config, s: State, op: Op, now: int, events: seq<Use>)
    requires Consistent(s) && InTurn(s, events) && OnStrings(op)
    ensures InTurn(Effect(c, s, op, now).0, events + Uses(c, s, op, now))
  {
    var k := op.key;
    ThereLives(s, k, now);
    PurgeInTurn(s, k, now, events);
    IfNot(events, k);
    TouchInTurn(Ops.Hit(s), k, events);
    hide Consistent, There, ByLastTouch, Front, Ops.Store, Ops.Purge, Overwrite, Decimals.ParseInt, Decimals.FormatInt;
    if op.Set? {
      WriteInTurn(s, k, Record(StringV(op.text), if op.ttl > 0 then Some(now + op.ttl) else None), now, events);
    } else if op.Incr? {
      WriteInTurn(s, k, Record(StringV(Decimals.FormatInt(1)), None), now, events);
      if Ops.Live(s, k, now) && s.data[k].value.StringV? && Decimals.ParseInt(s.data[k].value.text).Some? {
        var next := Ops.Wrap64(Decimals.ParseInt(s.data[k].value.text).value + 1);
        WriteInTurn(s, k, s.data[k].(value := StringV(Decimals.FormatInt(next))), now, events);
      }
    }
  }

  lemma {:induction false} DeleteInTurn(s: State, keys: seq<Bytes>, events: seq<Use>)
    requires InTurn(s, events)
    ensures InTurn(Ops.DeleteEach(s, keys).0, events)
    decreases |keys|
  {
    hide InTurn, DropDeleted;
    if keys != [] {
      DropInTurn(s, keys[0], events);
      DeleteInTurn(if keys[0] in s.data then DropDeleted(s, keys[0]) else s, keys[1..], events);
    }
  }

  lemma {:induction false} ExistsInTurn(s: State, keys: seq<Bytes>, now: int, events: seq<Use>)
    requires InTurn(s, events)
    ensures InTurn(Ops.ExistsEach(s, keys, now).0, events)
    decreases |keys|
  {
    hide InTurn, Ops.Purge;
    if keys != [] {
      PurgeInTurn(s, keys[0], now, events);
      ExistsInTurn(Ops.Purge(s, keys[0], now), keys[1..], now, events);
    }
  }

  lemma SweepInTurn(s: State, now: int, events: seq<Use>)
    requires InTurn(s, events)
    ensures InTurn(Ops.Sweep(s, now), events)
  {
    hide ByLastTouch, WithoutAll, Ops.StaleKeys;
    if s.tracked {
      WithoutAllInOrder(s.order, Ops.StaleKeys(s, now), events);
    }
  }

  lemma KeysInTurn(c: Config, s: State, op: Op, now: int, events: seq<Use>)
    requires Consistent(s) && InTurn(s, events) && OnKeys(op)
    ensures InTurn(Effect(c, s, op, now).0, events + Uses(c, s, op, now))
  {
    assert events + [] == events;
    hide Consistent, InTurn, There, Ops.Purge, Ops.DeleteEach, Ops.ExistsEach, Ops.Sweep, Overwrite;
    match op
    case Delete(keys) => DeleteInTurn(s, keys, events);
    case Exists(keys) => ExistsInTurn(s, keys, now, events);
    case Sweep => SweepInTurn(s, now, events);
    case Ttl(k) => PurgeInTurn(s, k, now, events);
    case Expire(k, ttl) =>
      IfNot(events, k);
      ThereLives(s, k, now);
      DeleteInTurn(s, [k], events);
      PurgeInTurn(s, k, now, events);
      if Ops.Live(s, k, now) {
        WriteInTurn(s, k, s.data[k].(ttl := Some(now + ttl)), now, events);
      }
  }

  lemma LeavesSome(all: set<Bytes>, removed: seq<Bytes>)
    ensures Leaves(all, removed) <==> all - SortedSets.SetOf(removed) * all != {}
  {
    var rest := all - SortedSets.SetOf(removed) * all;
    if rest != {} {
      var x :| x in rest;
      assert x in all && x !in removed;
    }
    if Leaves(all, removed) {
      var x :| x in all && x !in removed;
      assert x in rest;
    }
  }

  lemma SetsInTurn(c: Config, s: State, op: Op, now: int, events: seq<Use>)
    requires Consistent(s) && InTurn(s, events) && OnSets(op)
    ensures InTurn(Effect(c, s, op, now).0, events + Uses(c, s, op, now))
  {
    var k := op.key;
    ThereLives(s, k, now);
    PurgeInTurn(s, k, now, events);
    IfNot(events, k);
    TouchInTurn(s, k, events);
    DropInTurn(s, k, events);
    hide Consistent, InTurn, There, Leaves, Touch, Ops.Store, Ops.Purge, Overwrite, DropEmptied, SortedSets.SetOf;
    if op.SAdd? {
      var new_ := SortedSets.SetOf(op.members);
      WriteInTurn(s, k, Record(SetV(new_), None), now, events);
      if Ops.Live(s, k, now) && s.data[k].value.SetV? {
        WriteInTurn(s, k, s.data[k].(value := SetV(s.data[k].value.members + new_)), now, events);
      }
    } else if op.SRem? && Ops.Live(s, k, now) && s.data[k].value.SetV? {
      var all := s.data[k].value.members;
      LeavesSome(all, op.members);
      WriteInTurn(s, k, s.data[k].(value := SetV(all - SortedSets.SetOf(op.members) * all)), now, events);
    }
  }

  lemma SortedSetsInTurn(c: Config, s: State, op: Op, now: int, events: seq<Use>)
    requires Consistent(s) && InTurn(s, events) && OnSortedSets(op)
    ensures InTurn(Effect(c, s, op, now).0, events + Uses(c, s, op, now))
  {
    var k := op.key;
    ThereLives(s, k, now);
    PurgeInTurn(s, k, now, events);
    IfNot(events, k);
    TouchInTurn(s, k, events);
    DropInTurn(s, k, events);
    hide Consistent, InTurn, There, Leaves, Touch, Ops.Store, Ops.Purge, Overwrite, DropEmptied, SortedSets.SetOf, SortedSets.Asked;
    if op.ZAdd? {
      WriteInTurn(s, k, Record(ZSetV(op.scores), None), now, events);
      if Ops.Live(s, k, now) && s.data[k].value.ZSetV? {
        WriteInTurn(s, k, s.data[k].(value := ZSetV(s.data[k].value.scores + op.scores)), now, events);
      }
    } else if op.ZRem? && Ops.Live(s, k, now) && s.data[k].value.ZSetV? {
      var all := s.data[k].value.scores;
      LeavesSome(all.Keys, op.members);
      WriteInTurn(s, k, s.data[k].(value := ZSetV(all - SortedSets.SetOf(op.members) * all.Keys)), now, events);
    }
  }

  lemma {:induction false} SourcesInTurn(s: State, keys: seq<Bytes>, now: int, events: seq<Use>)
    requires InTurn(s, events)
    ensures InTurn(Ops.CmsSources(s, keys, now).0, events + Sources(s, keys, now))
    decreases |keys|
  {
    hide InTurn, There;
    assert events + [] == events;
    if keys != [] {
      ThereLives(s, keys[0], now);
      if Ops.SketchError(s, keys[0], now).None? {
        var t, later := Touch(s, keys[0]), events + [Touched(keys[0])];
        TouchInTurn(s, keys[0], events);
        SourcesInTurn(t, keys[1..], now, later);
        SourcesSame(s, t, keys[1..], now);
        assert later + Sources(s, keys[1..], now) == events + ([Touched(keys[0])] + Sources(s, keys[1..], now));
      }
    }
  }

  lemma {:induction false} SourcesSame(s: State, t: State, keys: seq<Bytes>, now: int)
    requires s.data == t.data
    ensures Sources(s, keys, now) == Sources(t, keys, now)
  {
    if keys != [] {
      SourcesSame(s, t, keys[1..], now);
    }
  }

  lemma MergeInTurn(s: State, k: Bytes, keys: seq<Bytes>, weights: seq<CountMin.uint64>, now: int, events: seq<Use>)
    requires Consistent(s) && InTurn(s, events)
    ensures var (t, answer) := Ops.CmsMerge(s, k, keys, weights, now);
      InTurn(t, events + ((if |keys| == |weights| then Sources(s, keys, now) else []) + If(answer.Done?, k)))
  {
    hide Consistent, InTurn, There, Ops.CmsSources, Ops.Store, CountMin.MergeAll;
    assert events + ([] + []) == events;
    if 0 < |keys| == |weights| {
      Ops.CmsSourcesShaped(s, keys, now);
      SourcesFail(s, keys, now);
      SourcesInTurn(s, keys, now, events);
      var (t, error, sources) := Ops.CmsSources(s, keys, now);
      var used := Sources(s, keys, now);
      assert events + (used + []) == events + used;
      assert events + (used + [Touched(k)]) == events + used + [Touched(k)];
      if error.None? && CountMin.MergeAll(sources, weights).Merged? {
        WriteInTurn(t, k, Record(SketchV(CountMin.MergeAll(sources, weights).sketch), None), now, events + used);
      }
    } else if |keys| == |weights| {
      assert Sources(s, keys, now) == [];
    }
  }

  lemma SketchesInTurn(c: Config, s: State, op: Op, now: int, events: seq<Use>)
    requires Consistent(s) && InTurn(s, events) && OnSketches(op) && !op.CmsMerge?
    ensures InTurn(Effect(c, s, op, now).0, events + Uses(c, s, op, now))
  {
    var k := op.key;
    ThereLives(s, k, now);
    IfNot(events, k);
    TouchInTurn(s, k, events);
    hide InTurn, There, Touch, Ops.Store, CountMin.Query, CountMin.IncrementAll, NoDuplicates, KeySet;
    if op.CmsInit? {
      if op.width > 0 && op.depth > 0 {
        WriteInTurn(s, k, Record(SketchV(CountMin.EmptySketch(op.width, op.depth)), None), now, events);
      }
    } else if op.CmsIncrBy? && Ops.SketchError(s, k, now).None? {
      var t := s.(data := s.data[k := s.data[k].(value := SketchV(CountMin.IncrementAll(c.hash, s.data[k].value.sketch, op.increments).0))]);
      SameInTurn(s, t, events);
      TouchInTurn(t, k, events);
    }
  }

  lemma FiltersInTurn(c: Config, s: State, op: Op, now: int, events: seq<Use>)
    requires Consistent(s) && InTurn(s, events) && OnFilters(op)
    ensures InTurn(ToEvict(c, s, op, now), events + Uses(c, s, op, now))
  {
    var k := op.key;
    ThereLives(s, k, now);
    IfNot(events, k);
    TouchInTurn(s, k, events);
    hide ByLastTouch, There, Front, Ops.Store, Ops.AddEach, Ops.EmptyBloom, BloomFilters.Has, NoDuplicates, KeySet;
    if op.BfReserve? && op.size.Some? {
      WriteInTurn(s, k, Record(BloomV(Ops.EmptyBloom(op.size.value)), None), now, events);
    } else if op.BfAdd? {
      WriteInTurn(s, k, Record(BloomV(Ops.EmptyBloom(c.size)), None), now, events);
    }
  }

  /** Up to the eviction, the keys a command uses come last used, in turn; every other key keeps its place. */
  lemma EffectInTurn(c: Config, s: State, op: Op, now: int, events: seq<Use>)
    requires Consistent(s) && InTurn(s, events)
    ensures InTurn(ToEvict(c, s, op, now), events + Uses(c, s, op, now))
  {
    if OnFilters(op) {
      hide *;
      FiltersInTurn(c, s, op, now, events);
    } else if op.CmsMerge? {
      hide Consistent, InTurn, Sources, Ops.CmsMerge;
      MergeInTurn(s, op.key, op.keys, op.weights, now, events);
    } else {
      assert ToEvict(c, s, op, now) == Effect(c, s, op, now).0 by {
        hide Effect, Consistent;
      }
      hide Consistent, InTurn, Uses, Effect, ToEvict;
      if OnStrings(op) {
        StringsInTurn(c, s, op, now, events);
      } else if OnKeys(op) {
        KeysInTurn(c, s, op, now, events);
      } else if OnSets(op) {
        SetsInTurn(c, s, op, now, events);
      } else if OnSortedSets(op) {
        SortedSetsInTurn(c, s, op, now, events);
      } else {
        SketchesInTurn(c, s, op, now, events);
      }
    }
  }

  // ----- with the eviction -----

  lemma {:induction false} VictimsInTurn(lim: Limits, pre: State, victims: seq<Bytes>, post: State, events: seq<Use>)
    requires InTurn(pre, events) && EvictsAll(lim, pre, victims, post)
    ensures InTurn(post, events)
    decreases |victims|
  {
    hide InTurn, Over, DropEvicted;
    if victims != [] {
      DropInTurn(pre, victims[0], events);
      VictimsInTurn(lim, DropEvicted(pre, victims[0]), victims[1..], post, events);
    }
  }

  lemma SettledInTurn(lim: Limits, exact: bool, pre: State, post: State, events: seq<Use>)
    requires InTurn(pre, events) && Settled(lim, exact, pre, post)
    ensures InTurn(post, events)
  {
    hide InTurn, Consistent, Over, Fit, Restrict, EvictsAll;
    var victims :| EvictsAll(lim, pre, victims, post);
    VictimsInTurn(lim, pre, victims, post, events);
  }

  lemma FilledInTurn(mid: State, h: Hash, k: Bytes, items: seq<Bytes>, size: Ops.BloomSize, events: seq<Use>)
    requires InTurn(mid, events)
    ensures InTurn(Ops.BfFilled(mid, h, k, items, size).0, events)
  {
    hide ByLastTouch, Ops.AddEach, Ops.EmptyBloom;
  }

  /** A command moves the keys it uses to the front, in turn, and no other. */
  lemma StepInTurn(c: Config, s: State, op: Op, now: int, t: State, answer: Ops.Answer, events: seq<Use>)
    requires Consistent(s) && InTurn(s, events) && Step(c, s, op, now, t, answer)
    ensures InTurn(t, events + Uses(c, s, op, now))
  {
    EffectInTurn(c, s, op, now, events);
    hide Consistent, InTurn, Settled, Uses, Effect, Ops.BfAddLive, Ops.BfFilled, Ops.BfCreate;
    var used := events + Uses(c, s, op, now);
    if op.BfAdd? && !Ops.Live(s, op.key, now) {
      var made := Ops.BfCreate(s, op.key, c.size, now);
      var mid :| Settled(c.lim, c.exact, made, mid) && Ops.BfFilled(mid, c.hash, op.key, op.items, c.size) == (t, answer);
      SettledInTurn(c.lim, c.exact, made, mid, used);
      FilledInTurn(mid, c.hash, op.key, op.items, c.size, used);
    } else if Evicts(op) {
      SettledInTurn(c.lim, c.exact, Effect(c, s, op, now).0, t, used);
    } else {
      BfAddLiveIs(c, s, op, now, t, answer);
    }
  }

  /** What is tracked is stored, in a list without repetition. */
  lemma TrackedAt(s: State, k: Bytes) returns (i: nat)
    requires Consistent(s) && s.tracked && k in s.data
    ensures i < |s.order| && s.order[i] == k
  {
    assert k in KeySet(s.order);
    i :| 0 <= i < |s.order| && s.order[i] == k;
  }

  /** Exact LRU keeps the keys of a prefix of the order. */
  lemma FitKeepsFirst(m: State, lim: Limits) returns (n: nat)
    requires Consistent(m) && m.tracked
    ensures n <= |m.order|
    ensures forall i :: 0 <= i < |m.order| && m.order[i] in m.data ==> (m.order[i] in Fit(m, lim).data <==> i < n)
  {
    FitIsShortest(m, lim);
    n := |Fit(m, lim).order|;
    hide Over, Fit;
    forall i | 0 <= i < |m.order| && m.order[i] in m.data ensures m.order[i] in KeySet(m.order[..n]) <==> i < n {
      assert i < n ==> m.order[..n][i] == m.order[i];
    }
  }

  lemma {:induction false} FitWasThere(m: State, lim: Limits, j: Bytes)
    requires j in Fit(m, lim).data
    ensures j in m.data
    decreases |m.order|
  {
    hide Over, Without;
    if j !in m.data {
      FitWasThere(DropEvicted(m, LastKey(m)), lim, j);
    }
  }

  lemma FitOldest(m: State, lim: Limits, k: Bytes, j: Bytes, events: seq<Use>)
    requires Consistent(m) && m.tracked && InTurn(m, events)
    requires k in m.data && k !in Fit(m, lim).data && j in Fit(m, lim).data
    ensures LastTouch(events, k) < LastTouch(events, j)
  {
    var n := FitKeepsFirst(m, lim);
    FitWasThere(m, lim, j);
    var a := TrackedAt(m, j);
    var b := TrackedAt(m, k);
    hide Consistent, Fit, LastTouch;
  }

  /** Exact LRU: a key that the eviction run takes was last used before every key that stays. */
  lemma ExactEvictsOldest(c: Config, s: State, op: Op, now: int, t: State, answer: Ops.Answer, events: seq<Use>, k: Bytes, j: Bytes)
    requires Consistent(s) && s.tracked && c.exact && InTurn(s, events) && Step(c, s, op, now, t, answer)
    requires k in ToEvict(c, s, op, now).data && k !in t.data && j in t.data
    ensures LastTouch(events + Uses(c, s, op, now), k) < LastTouch(events + Uses(c, s, op, now), j)
  {
    EffectInTurn(c, s, op, now, events);
    ToEvictIs(c, s, op, now);
    hide Consistent, InTurn, Uses, Effect, Step, EvictsInTurn, Fit, Over;
    if Evicts(op) || (op.BfAdd? && !Ops.Live(s, op.key, now)) {
      var mid := StepSettles(c, s, op, now, t, answer);
      hide ToEvict;
      FitOldest(ToEvict(c, s, op, now), c.lim, k, j, events + Uses(c, s, op, now));
    } else {
      BfAddLiveIs(c, s, op, now, t, answer);
      assert false;
    }
  }

  // ----- one command, read off the list -----

  /** A history that explains an order. */
  ghost function Past(order: seq<Bytes>): seq<Use> {
    if order == [] then [] else Past(order[1..]) + [Touched(order[0])]
  }

  lemma {:induction false} PastExplains(order: seq<Bytes>)
    requires NoDuplicates(order)
    ensures |Past(order)| == |order| && ByLastTouch(order, Past(order))
    ensures forall i :: 0 <= i < |order| ==> LastTouch(Past(order), order[i]) == |order| - 1 - i
  {
    if order != [] {
      PastExplains(order[1..]);
      forall i | 0 <= i < |order| ensures LastTouch(Past(order), order[i]) == |order| - 1 - i {
        TouchedLast(Past(order[1..]), order[0], order[i]);
        assert i > 0 ==> order[i] == order[1..][i - 1];
      }
    }
  }

  lemma {:induction false} OnlyUsed(events: seq<Use>, more: seq<Use>, k: Bytes)
    requires forall i :: 0 <= i < |more| ==> more[i].key != k
    ensures LastTouch(events + more, k) == LastTouch(events, k)
  {
    if more == [] {
      assert events + [] == events;
    } else {
      var n := |more| - 1;
      OnlyUsed(events, more[..n], k);
      assert (events + more)[..|events + more| - 1] == events + more[..n];
      assert (events + more)[|events + more| - 1] == more[n];
    }
  }

  lemma LaterIsEarlier(keys: seq<Bytes>, events: seq<Use>, a: nat, b: nat)
    requires ByLastTouch(keys, events) && a < |keys| && b < |keys| && LastTouch(events, keys[a]) > LastTouch(events, keys[b])
    ensures a < b
  {
    hide LastTouch;
  }

  /** Of the keys that a command does not use, no two change places. */
  lemma UnusedStay(c: Config, s: State, op: Op, now: int, i: nat, j: nat, a: nat, b: nat)
    requires Consistent(s) && s.tracked && i < j < |s.order| && a < |ToEvict(c, s, op, now).order| && b < |ToEvict(c, s, op, now).order|
    requires s.order[i] == ToEvict(c, s, op, now).order[a] && s.order[j] == ToEvict(c, s, op, now).order[b]
    requires forall u :: u in Uses(c, s, op, now) ==> u.key != s.order[i] && u.key != s.order[j]
    ensures a < b
  {
    var past, used := Past(s.order), Uses(c, s, op, now);
    PastExplains(s.order);
    EffectInTurn(c, s, op, now, past);
    ToEvictIs(c, s, op, now);
    hide Consistent, Uses, ToEvict, Past;
    assert ByLastTouch(ToEvict(c, s, op, now).order, past + used);
    hide ByLastTouch;
    OnlyUsed(past, used, s.order[i]);
    OnlyUsed(past, used, s.order[j]);
    LaterIsEarlier(ToEvict(c, s, op, now).order, past + used, a, b);
  }

  /** Uses of keys that are there. */
  ghost predicate Kept(used: seq<Use>, data: Data) {
    forall i :: 0 <= i < |used| ==> used[i].Touched? && used[i].key in data
  }

  lemma LastIsFirst(m: State, past: seq<Use>, used: seq<Use>)
    requires Consistent(m) && m.tracked && InTurn(m, past + used) && used != [] && Kept(used, m.data)
    ensures m.order != [] && m.order[0] == used[|used| - 1].key
  {
    var all, k := past + used, used[|used| - 1].key;
    assert all[|all| - 1] == Touched(k);
    var i := TrackedAt(m, k);
    hide Consistent;
    LastTouchBelow(all, m.order[0]);
  }

  /** A key used last by a command comes first. */
  lemma UsedComesFirst(c: Config, s: State, op: Op, now: int)
    requires Consistent(s) && s.tracked && Uses(c, s, op, now) != []
    ensures var m, used := ToEvict(c, s, op, now), Uses(c, s, op, now);
      var k := used[|used| - 1].key;
      k in m.data && m.order != [] && m.order[0] == k
  {
    UsedIsKept(c, s, op, now);
    PastExplains(s.order);
    EffectInTurn(c, s, op, now, Past(s.order));
    ToEvictIs(c, s, op, now);
    hide Consistent, InTurn, Uses, ToEvict, Past;
    LastIsFirst(ToEvict(c, s, op, now), Past(s.order), Uses(c, s, op, now));
  }

  lemma {:induction false} SourcesKept(s: State, keys: seq<Bytes>, now: int)
    ensures Kept(Sources(s, keys, now), s.data)
  {
    if keys != [] {
      SourcesKept(s, keys[1..], now);
    }
  }

  lemma StoredIsThere(s: State, k: Bytes, record: Record, now: int)
    ensures Ops.Store(s, k, record, now).data.Keys == Overwrite(s, k, record).data.Keys == s.data.Keys + {k}
  {
    hide Front, Without;
  }

  lemma KeptOne(k: Bytes, used: bool, data: Data)
    requires used ==> k in data
    ensures Kept(If(used, k), data)
    ensures used ==> Kept([Touched(k)], data)
  {
  }

  lemma StringWritesKeep(c: Config, s: State, op: Op, now: int)
    requires Consistent(s) && (op.Set? || op.Incr? || op.Expire?)
    ensures Kept(Uses(c, s, op, now), Effect(c, s, op, now).0.data)
  {
    var k, used, t := op.key, Uses(c, s, op, now) != [], Effect(c, s, op, now).0;
    ThereLives(s, k, now);
    assert used ==> k in t.data by {
      hide Consistent, There, Kept, Front, Ops.Store, Ops.DeleteEach, Decimals.ParseInt, Decimals.FormatInt;
      match op
      case Set(_, text, ttl) => StoredIsThere(s, k, Record(StringV(text), if ttl > 0 then Some(now + ttl) else None), now);
      case Incr(_) => StoredIsThere(s, k, Record(StringV(Decimals.FormatInt(1)), None), now);
      case Expire(_, _) =>
    }
    KeptOne(k, used, t.data);
    hide Consistent, There, Kept, Effect, Decimals.ParseInt;
  }

  lemma SetWritesKeep(c: Config, s: State, op: Op, now: int)
    requires Consistent(s) && (op.SAdd? || op.SRem?)
    ensures Kept(Uses(c, s, op, now), Effect(c, s, op, now).0.data)
  {
    var k, used, t := op.key, Uses(c, s, op, now) != [], Effect(c, s, op, now).0;
    ThereLives(s, k, now);
    assert used ==> k in t.data by {
      hide Consistent, There, Kept, Leaves, Front, Ops.Store, DropEmptied, SortedSets.SetOf;
      if op.SAdd? {
        StoredIsThere(s, k, Record(SetV(SortedSets.SetOf(op.members)), None), now);
      } else if k in s.data && s.data[k].value.SetV? {
        LeavesSome(s.data[k].value.members, op.members);
      }
    }
    KeptOne(k, used, t.data);
    hide Consistent, There, Leaves, Kept, Effect;
  }

  lemma SortedSetWritesKeep(c: Config, s: State, op: Op, now: int)
    requires Consistent(s) && (op.ZAdd? || op.ZRem?)
    ensures Kept(Uses(c, s, op, now), Effect(c, s, op, now).0.data)
  {
    var k, used, t := op.key, Uses(c, s, op, now) != [], Effect(c, s, op, now).0;
    ThereLives(s, k, now);
    assert used ==> k in t.data by {
      hide Consistent, There, Kept, Leaves, Front, Ops.Store, DropEmptied, SortedSets.SetOf;
      if op.ZAdd? {
        StoredIsThere(s, k, Record(ZSetV(op.scores), None), now);
      } else if k in s.data && s.data[k].value.ZSetV? {
        LeavesSome(s.data[k].value.scores.Keys, op.members);
      }
    }
    KeptOne(k, used, t.data);
    hide Consistent, There, Leaves, Kept, Effect;
  }

  lemma ReadsKeep(c: Config, s: State, op: Op, now: int)
    requires Consistent(s)
    requires op.Get? || op.SIsMember? || op.SMembers? || op.ZAsk? || op.CmsQuery? || op.CmsInfo? || op.BfExists? || op.BfInfo?
    ensures Kept(Uses(c, s, op, now), Effect(c, s, op, now).0.data)
  {
    ThereLives(s, op.key, now);
    hide Consistent, There, Front, Ops.Purge, CountMin.Query, BloomFilters.Has, SortedSets.Asked;
  }

  lemma MergeKeeps(c: Config, s: State, op: Op, now: int)
    requires Consistent(s) && op.CmsMerge?
    ensures Kept(Uses(c, s, op, now), Effect(c, s, op, now).0.data)
  {
    SourcesKept(s, op.keys, now);
    SourcesData(s, op.keys, now);
    hide Consistent, There, Sources, Front, Ops.CmsSources, Ops.Store, CountMin.MergeAll;
    if 0 < |op.keys| == |op.weights| {
      Ops.CmsSourcesShaped(s, op.keys, now);
      SourcesFail(s, op.keys, now);
      var (t, error, sources) := Ops.CmsSources(s, op.keys, now);
      if error.None? && CountMin.MergeAll(sources, op.weights).Merged? {
        StoredIsThere(t, op.key, Record(SketchV(CountMin.MergeAll(sources, op.weights).sketch), None), now);
      }
    }
  }

  lemma SketchesKeep(c: Config, s: State, op: Op, now: int)
    requires Consistent(s) && (op.CmsInit? || op.CmsIncrBy?)
    ensures Kept(Uses(c, s, op, now), Effect(c, s, op, now).0.data)
  {
    var k, used, t := op.key, Uses(c, s, op, now) != [], Effect(c, s, op, now).0;
    assert used ==> k in t.data by {
      hide Kept, Front, Ops.Store, CountMin.IncrementAll, NoDuplicates, KeySet;
      if op.CmsInit? && op.width > 0 && op.depth > 0 {
        StoredIsThere(s, k, Record(SketchV(CountMin.EmptySketch(op.width, op.depth)), None), now);
      }
    }
    KeptOne(k, used, t.data);
    hide Consistent, Kept, Effect;
  }

  lemma FiltersKeep(c: Config, s: State, op: Op, now: int)
    requires Consistent(s) && (op.BfReserve? || op.BfAdd?)
    ensures Kept(Uses(c, s, op, now), ToEvict(c, s, op, now).data)
  {
    var k, used, t := op.key, Uses(c, s, op, now) != [], ToEvict(c, s, op, now);
    ThereLives(s, k, now);
    assert used ==> k in t.data by {
      hide There, Kept, Front, Ops.Store, Ops.AddEach, Ops.EmptyBloom, NoDuplicates, KeySet;
      if op.BfAdd? {
        StoredIsThere(s, k, Record(BloomV(Ops.EmptyBloom(c.size)), None), now);
      } else if op.size.Some? {
        StoredIsThere(s, k, Record(BloomV(Ops.EmptyBloom(op.size.value)), None), now);
      }
    }
    KeptOne(k, used, t.data);
    hide Consistent, There, Kept, ToEvict;
  }

  /** What a command uses, it leaves in the store. */
  lemma UsedIsKept(c: Config, s: State, op: Op, now: int)
    requires Consistent(s)
    ensures Kept(Uses(c, s, op, now), ToEvict(c, s, op, now).data)
  {
    if op.BfReserve? || op.BfAdd? {
      hide *;
      FiltersKeep(c, s, op, now);
    } else {
      assert ToEvict(c, s, op, now) == Effect(c, s, op, now).0 by {
        hide Effect, Consistent;
      }
      if op.Set? || op.Incr? || op.Expire? {
        hide *;
        StringWritesKeep(c, s, op, now);
      } else if op.SAdd? || op.SRem? {
        hide *;
        SetWritesKeep(c, s, op, now);
      } else if op.ZAdd? || op.ZRem? {
        hide *;
        SortedSetWritesKeep(c, s, op, now);
      } else if op.CmsInit? || op.CmsIncrBy? {
        hide *;
        SketchesKeep(c, s, op, now);
      } else if op.CmsMerge? {
        hide *;
        MergeKeeps(c, s, op, now);
      } else if op.Delete? || op.Ttl? || op.Exists? || op.Sweep? {
        hide Consistent, ToEvict, Effect;
      } else {
        hide *;
        ReadsKeep(c, s, op, now);
      }
    }
  }

  // ----- runs -----

  /** The keys used at one moment. A look uses what its command uses; coming back uses nothing. */
  ghost function UsesAt(c: Config, s: State, e: Event, now: int): seq<Use>
    requires Consistent(s)
  {
    match e
    case Whole(op) => Uses(c, s, op, now)
    case Look(_, op) => Uses(c, s, op, now)
    case Upgrade(_) => []
  }

  ghost function RunUses(c: Config, m: Machine, moments: seq<Moment>): seq<Use>
    requires Run(c, m, moments)
    decreases |moments|
  {
    if moments == [] then []
    else UsesAt(c, m.store, moments[0].event, moments[0].now) + RunUses(c, moments[0].after, moments[1..])
  }

  lemma LookInTurn(c: Config, s: State, op: Op, now: int, events: seq<Use>)
    requires Consistent(s) && Splits(op) && InTurn(s, events)
    ensures InTurn(LookAt(c, s, op, now).0, events + Uses(c, s, op, now))
  {
    EffectInTurn(c, s, op, now, events);
    if Ops.Stale(s, LookedAt(op), now) {
      assert events + [] == events;
    }
    hide InTurn, Consistent, Effect;
  }

  lemma MoveInTurn(c: Config, m: Machine, e: Event, now: int, n: Machine, answer: Ops.Answer, events: seq<Use>)
    requires Consistent(m.store) && InTurn(m.store, events) && Move(c, m, e, now, n, answer)
    ensures InTurn(n.store, events + UsesAt(c, m.store, e, now))
  {
    hide Consistent, ByLastTouch, Uses, Step, LookAt, Ops.Purge;
    match e
    case Whole(op) => StepInTurn(c, m.store, op, now, n.store, answer, events);
    case Look(_, op) => LookInTurn(c, m.store, op, now, events);
    case Upgrade(reader) =>
      PurgeInTurn(m.store, m.waiting[reader].key, now, events);
      SameInTurn(Ops.Purge(m.store, m.waiting[reader].key, now), n.store, events);
  }

  /** Over every interleaving, whatever was evicted, expired or deleted meanwhile: the store's keys stand in the
      order of the last command of the run that used each. */
  lemma {:induction false} RunInTurn(c: Config, m: Machine, moments: seq<Moment>, events: seq<Use>)
    requires Consistent(m.store) && InTurn(m.store, events) && Run(c, m, moments)
    ensures InTurn(Before(m, moments, |moments|).store, events + RunUses(c, m, moments))
    decreases |moments|
  {
    hide Consistent, InTurn, Move, UsesAt;
    if moments == [] {
      assert events + [] == events;
    } else {
      var first := moments[0];
      var used, rest := UsesAt(c, m.store, first.event, first.now), RunUses(c, first.after, moments[1..]);
      MoveInTurn(c, m, first.event, first.now, first.after, first.answer, events);
      MoveConsistent(c, m, first);
      RunInTurn(c, first.after, moments[1..], events + used);
      assert events + used + rest == events + (used + rest);
    }
  }

  lemma {:induction false} RunStays(c: Config, m: Machine, moments: seq<Moment>)
    requires Consistent(m.store) && Run(c, m, moments)
    ensures Consistent(Before(m, moments, |moments|).store) && Before(m, moments, |moments|).store.tracked == m.store.tracked
    decreases |moments|
  {
    hide Consistent, Move;
    if moments != [] {
      MoveConsistent(c, m, moments[0]);
      RunStays(c, moments[0].after, moments[1..]);
    }
  }

  lemma NewMachineInTurn(c: Config)
    ensures Consistent(NewMachine(true).store) && NewMachine(true).store.tracked && InTurn(NewMachine(true).store, [])
  {
    NewMachineKeeps(c, true);
    hide Consistent;
  }

  lemma NewStoreInTurn(c: Config, moments: seq<Moment>)
    requires Run(c, NewMachine(true), moments)
    ensures var s := Before(NewMachine(true), moments, |moments|).store;
      Consistent(s) && s.tracked && InTurn(s, RunUses(c, NewMachine(true), moments))
  {
    hide *;
    NewMachineInTurn(c);
    RunInTurn(c, NewMachine(true), moments, []);
    RunStays(c, NewMachine(true), moments);
    assert [] + RunUses(c, NewMachine(true), moments) == RunUses(c, NewMachine(true), moments);
  }

  /** So in a new store with exact LRU, what a command makes room for is always the key that the commands of the
      run have left unused the longest. */
  lemma NewStoreEvictsOldest(c: Config, moments: seq<Moment>, op: Op, now: int, t: State, answer: Ops.Answer, k: Bytes, j: Bytes)
    requires c.exact && Run(c, NewMachine(true), moments) && Consistent(Before(NewMachine(true), moments, |moments|).store)
    requires Step(c, Before(NewMachine(true), moments, |moments|).store, op, now, t, answer)
    requires k in ToEvict(c, Before(NewMachine(true), moments, |moments|).store, op, now).data && k !in t.data && j in t.data
    ensures var used := RunUses(c, NewMachine(true), moments) + Uses(c, Before(NewMachine(true), moments, |moments|).store, op, now);
      LastTouch(used, k) < LastTouch(used, j)
  {
    hide *;
    NewStoreInTurn(c, moments);
    ExactEvictsOldest(c, Before(NewMachine(true), moments, |moments|).store, op, now, t, answer, RunUses(c, NewMachine(true), moments), k, j);
  }
}
