/** Strings, sets and sorted sets inside the store: over every run they are what the commands of the run wrote,
    so the reads answer what was written. */
module StoredValues {
  import opened Bytes
  import opened Options
  import opened Policies
  import opened SortedItems
  import opened StoreSpec
  import opened StoreRuns
  import opened Removals
  import opened Interleavings
  import opened Recency
  import opened CommandLaws
  import Ops = StoreOps
  import Decimals
  import CountMin
  import SortedSets

  ghost predicate Plain(v: Value) {
    v.StringV? || v.SetV? || v.ZSetV?
  }

  /** The deadline a write keeps: that of the record it changes. */
  ghost function Deadline(truth: Data, k: Bytes, held: bool): Option<int> {
    if held && k in truth then truth[k].ttl else None
  }

  ghost function NamesIn(truth: Data, k: Bytes, held: bool): set<Bytes> {
    if held && k in truth && truth[k].value.SetV? then truth[k].value.members else {}
  }

  ghost function ScoresIn(truth: Data, k: Bytes, held: bool): map<Bytes, Score> {
    if held && k in truth && truth[k].value.ZSetV? then truth[k].value.scores else map[]
  }

  /** What one more command writes under its key, if it does not fail; `held` tells whether the key was live. */
  ghost function Written(truth: Data, op: Op, now: int, answer: Ops.Answer, held: bool): Data {
    match op
    case Set(k, text, ttl) => truth[k := Record(StringV(text), if ttl <= 0 then None else Some(now + ttl))]
    case Incr(k) =>
      if !answer.Number? then truth
      else truth[k := Record(StringV(Decimals.FormatInt(answer.n)), Deadline(truth, k, held))]
    case Expire(k, ttl) =>
      if ttl > 0 && answer == Ops.Flag(true) && k in truth then truth[k := Record(truth[k].value, Some(now + ttl))] else truth
    case SAdd(k, names) =>
      if !answer.Number? then truth
      else truth[k := Record(SetV(NamesIn(truth, k, held) + SortedSets.SetOf(names)), Deadline(truth, k, held))]
    case SRem(k, names) =>
      if !answer.Number? then truth
      else truth[k := Record(SetV(NamesIn(truth, k, held) - SortedSets.SetOf(names)), Deadline(truth, k, held))]
    case ZAdd(k, scores) =>
      if !answer.Number? then truth
      else truth[k := Record(ZSetV(ScoresIn(truth, k, held) + scores), Deadline(truth, k, held))]
    case ZRem(k, names) =>
      if !answer.Number? then truth
      else truth[k := Record(ZSetV(ScoresIn(truth, k, held) - SortedSets.SetOf(names)), Deadline(truth, k, held))]
    case _ => truth
  }

  /** A stored string, set or sorted set is what was written, and so is its deadline. */
  ghost predicate TrueAt(truth: Data, data: Data, k: Bytes) {
    k in data && Plain(data[k].value) ==> k in truth && data[k] == truth[k]
  }

  ghost predicate AllTrue(truth: Data, data: Data) {
    forall k :: k in data ==> TrueAt(truth, data, k)
  }

  predicate WritesPlain(op: Op) {
    op.Set? || op.Incr? || op.Expire? || op.SAdd? || op.SRem? || op.ZAdd? || op.ZRem?
  }

  predicate WritesOther(op: Op) {
    op.CmsInit? || op.CmsIncrBy? || op.CmsMerge? || op.BfReserve? || op.BfAdd?
  }

  // ----- the key a command writes -----

  lemma StringTrue(truth: Data, c: Config, s: State, op: Op, now: int)
    requires Consistent(s) && AllTrue(truth, s.data) && (op.Set? || op.Incr? || op.Expire?)
    ensures var (t, answer) := Effect(c, s, op, now);
      TrueAt(Written(truth, op, now, answer, There(s, op.key, now)), t.data, op.key)
  {
    var k := op.key;
    assert k in s.data ==> TrueAt(truth, s.data, k);
    hide Consistent, AllTrue, Ops.Set, Ops.Incr, Ops.Expire, Decimals.FormatInt;
    match op
    case Set(_, text, ttl) => SetLeaves(s, k, text, ttl, now);
    case Incr(_) => IncrLeaves(s, k, now);
    case Expire(_, ttl) => ExpireSets(s, k, ttl, now);
  }

  lemma InSetOf(names: seq<Bytes>)
    ensures forall x :: x in SortedSets.SetOf(names) <==> x in names
  {
  }

  lemma SAddTrue(truth: Data, s: State, k: Bytes, names: seq<Bytes>, now: int)
    requires k in s.data ==> TrueAt(truth, s.data, k)
    ensures var (t, answer) := Ops.SAdd(s, k, names, now);
      TrueAt(Written(truth, SAdd(k, names), now, answer, There(s, k, now)), t.data, k)
  {
    SAddTells(s, k, names, now);
    InSetOf(names);
    hide Ops.SAdd, SortedSets.SetOf, NewAmong;
    var (t, answer) := Ops.SAdd(s, k, names, now);
    if answer.Number? {
      assert NamesIn(truth, k, There(s, k, now)) == MembersAt(s, k, now);
      assert t.data[k].value.members == MembersAt(s, k, now) + SortedSets.SetOf(names);
    }
  }

  lemma SRemTrue(truth: Data, s: State, k: Bytes, names: seq<Bytes>, now: int)
    requires k in s.data ==> TrueAt(truth, s.data, k)
    ensures var (t, answer) := Ops.SRem(s, k, names, now);
      TrueAt(Written(truth, SRem(k, names), now, answer, There(s, k, now)), t.data, k)
  {
    SRemTells(s, k, names, now);
    InSetOf(names);
    hide Ops.SRem, SortedSets.SetOf, OldAmong, Leaves;
    var (t, answer) := Ops.SRem(s, k, names, now);
    if answer.Number? && k in t.data {
      assert NamesIn(truth, k, There(s, k, now)) == MembersAt(s, k, now);
      assert t.data[k].value.members == MembersAt(s, k, now) - SortedSets.SetOf(names);
    }
  }

  lemma ZAddTrue(truth: Data, s: State, k: Bytes, scores: map<Bytes, Score>, now: int)
    requires k in s.data ==> TrueAt(truth, s.data, k)
    ensures var (t, answer) := Ops.ZAdd(s, k, scores, now);
      TrueAt(Written(truth, ZAdd(k, scores), now, answer, There(s, k, now)), t.data, k)
  {
    ZAddTells(s, k, scores, now);
    hide Ops.ZAdd;
    var (t, answer) := Ops.ZAdd(s, k, scores, now);
    if answer.Number? {
      assert ScoresIn(truth, k, There(s, k, now)) == ScoresAt(s, k, now);
      assert t.data[k].value.scores == ScoresAt(s, k, now) + scores;
    }
  }

  lemma ZRemTrue(truth: Data, s: State, k: Bytes, names: seq<Bytes>, now: int)
    requires k in s.data ==> TrueAt(truth, s.data, k)
    ensures var (t, answer) := Ops.ZRem(s, k, names, now);
      TrueAt(Written(truth, ZRem(k, names), now, answer, There(s, k, now)), t.data, k)
  {
    ZRemTells(s, k, names, now);
    InSetOf(names);
    hide Ops.ZRem, SortedSets.SetOf, OldAmong, Leaves;
    var (t, answer) := Ops.ZRem(s, k, names, now);
    if answer.Number? && k in t.data {
      assert ScoresIn(truth, k, There(s, k, now)) == ScoresAt(s, k, now);
      assert t.data[k].value.scores == ScoresAt(s, k, now) - SortedSets.SetOf(names);
    }
  }

  lemma PlainTrue(truth: Data, c: Config, s: State, op: Op, now: int)
    requires Consistent(s) && AllTrue(truth, s.data) && WritesPlain(op)
    ensures var (t, answer) := Effect(c, s, op, now);
      TrueAt(Written(truth, op, now, answer, There(s, op.key, now)), t.data, op.key)
  {
    if op.Set? || op.Incr? || op.Expire? {
      hide *;
      StringTrue(truth, c, s, op, now);
    } else {
      assert op.key in s.data ==> TrueAt(truth, s.data, op.key);
      hide Consistent, AllTrue, TrueAt, Written, There, Ops.SAdd, Ops.SRem, Ops.ZAdd, Ops.ZRem;
      match op
      case SAdd(k, names) => SAddTrue(truth, s, k, names, now);
      case SRem(k, names) => SRemTrue(truth, s, k, names, now);
      case ZAdd(k, scores) => ZAddTrue(truth, s, k, scores, now);
      case ZRem(k, names) => ZRemTrue(truth, s, k, names, now);
    }
  }

  /** What the other writing commands leave under their key is a sketch or a filter, or what was there. */
  lemma CreatedTrue(truth: Data, s: State, k: Bytes, record: Record, now: int)
    requires !Plain(record.value)
    ensures TrueAt(truth, Ops.Store(s, k, record, now).data, k)
  {
    hide Front, Without;
  }

  lemma CreationTrue(truth: Data, c: Config, s: State, op: Op, now: int)
    requires Consistent(s) && AllTrue(truth, s.data) && (op.CmsInit? || op.BfReserve? || (op.BfAdd? && !Ops.Live(s, op.key, now)))
    ensures TrueAt(truth, ToEvict(c, s, op, now).data, op.key)
  {
    assert op.key in s.data ==> TrueAt(truth, s.data, op.key);
    hide Consistent, AllTrue, TrueAt, Ops.Store, Ops.EmptyBloom;
    match op
    case CmsInit(k, width, depth) =>
      if width > 0 && depth > 0 {
        CreatedTrue(truth, s, k, Record(SketchV(CountMin.EmptySketch(width, depth)), None), now);
      }
    case BfReserve(k, size) =>
      if size.Some? {
        CreatedTrue(truth, s, k, Record(BloomV(Ops.EmptyBloom(size.value)), None), now);
      }
    case BfAdd(k, _) => CreatedTrue(truth, s, k, Record(BloomV(Ops.EmptyBloom(c.size)), None), now);
  }

  lemma CountTrue(truth: Data, c: Config, s: State, op: Op, now: int)
    requires Consistent(s) && AllTrue(truth, s.data) && (op.CmsIncrBy? || (op.BfAdd? && Ops.Live(s, op.key, now)))
    ensures TrueAt(truth, Effect(c, s, op, now).0.data, op.key)
  {
    assert op.key in s.data ==> TrueAt(truth, s.data, op.key);
    hide AllTrue, NoDuplicates, KeySet, Front, Ops.AddEach, CountMin.IncrementAll;
  }

  lemma MergeTrue(truth: Data, c: Config, s: State, op: Op, now: int)
    requires Consistent(s) && AllTrue(truth, s.data) && op.CmsMerge?
    ensures TrueAt(truth, Effect(c, s, op, now).0.data, op.key)
  {
    assert op.key in s.data ==> TrueAt(truth, s.data, op.key);
    hide Consistent, AllTrue, Ops.Store, Ops.CmsSources, CountMin.MergeAll;
    if 0 < |op.keys| == |op.weights| {
      Ops.CmsSourcesShaped(s, op.keys, now);
      var (t, error, sources) := Ops.CmsSources(s, op.keys, now);
      if error.None? && CountMin.MergeAll(sources, op.weights).Merged? {
        CreatedTrue(truth, t, op.key, Record(SketchV(CountMin.MergeAll(sources, op.weights).sketch), None), now);
      }
    }
  }

  lemma OtherTrue(truth: Data, c: Config, s: State, op: Op, now: int)
    requires Consistent(s) && AllTrue(truth, s.data) && WritesOther(op)
    ensures TrueAt(truth, ToEvict(c, s, op, now).data, op.key)
  {
    if op.CmsInit? || op.BfReserve? || (op.BfAdd? && !Ops.Live(s, op.key, now)) {
      CreationTrue(truth, c, s, op, now);
    } else {
      NotCreated(c, s, op, now);
      hide ToEvict, Effect, AllTrue, Consistent, TrueAt;
      if op.CmsMerge? {
        MergeTrue(truth, c, s, op, now);
      } else {
        CountTrue(truth, c, s, op, now);
      }
    }
  }

  // ----- every command -----

  /** Nothing is learnt about other keys. */
  lemma WrittenOthers(truth: Data, op: Op, now: int, answer: Ops.Answer, held: bool, k: Bytes)
    requires !Writes(op, k) || !WritesPlain(op)
    ensures var learnt := Written(truth, op, now, answer, held); (k in learnt <==> k in truth) && (k in truth ==> learnt[k] == truth[k])
  {
    hide Decimals.FormatInt;
  }

  lemma LeftTrue(truth: Data, learnt: Data, before: Data, after: Data, k: Bytes)
    requires k in before ==> TrueAt(truth, before, k)
    requires (k in learnt <==> k in truth) && (k in truth ==> learnt[k] == truth[k])
    requires Left(before, after, k)
    ensures TrueAt(learnt, after, k)
  {
  }

  lemma FillTrue(truth: Data, mid: State, h: Hash, k: Bytes, items: seq<Bytes>, size: Ops.BloomSize)
    ensures TrueAt(truth, Ops.BfFilled(mid, h, k, items, size).0.data, k)
  {
    hide Ops.AddEach, Ops.EmptyBloom;
  }

  ghost predicate HeldBy(s: State, op: Op, now: int) {
    WritesPlain(op) && There(s, op.key, now)
  }

  /** What one more command teaches. */
  ghost function Learn(s: State, truth: Data, op: Op, now: int, answer: Ops.Answer): Data {
    Written(truth, op, now, answer, HeldBy(s, op, now))
  }

  lemma StepTrueAt(c: Config, truth: Data, s: State, op: Op, now: int, t: State, answer: Ops.Answer, k: Bytes)
    requires Consistent(s) && AllTrue(truth, s.data) && Step(c, s, op, now, t, answer)
    ensures TrueAt(Learn(s, truth, op, now, answer), t.data, k)
  {
    var learnt := Learn(s, truth, op, now, answer);
    if !Writes(op, k) {
      OthersUntouched(c, s, op, now, t, answer, k);
      WrittenOthers(truth, op, now, answer, HeldBy(s, op, now), k);
      assert k in s.data ==> TrueAt(truth, s.data, k);
      hide Consistent, Step, Written, Writes, HeldBy;
      LeftTrue(truth, learnt, s.data, t.data, k);
    } else if WritesPlain(op) {
      PlainTrue(truth, c, s, op, now);
      WrittenStep(c, s, op, now, t, answer);
      assert k == op.key;
      hide Consistent, Effect, Step, Written, Writes, There;
      LeftTrue(learnt, learnt, Effect(c, s, op, now).0.data, t.data, k);
    } else {
      StepOtherTrue(c, truth, s, op, now, t, answer, k);
    }
  }

  lemma WrittenStep(c: Config, s: State, op: Op, now: int, t: State, answer: Ops.Answer)
    requires Consistent(s) && WritesPlain(op) && Step(c, s, op, now, t, answer)
    ensures answer == Effect(c, s, op, now).1 && Left(Effect(c, s, op, now).0.data, t.data, op.key)
  {
    hide Consistent, Settled, Effect, Left;
    if Evicts(op) {
      SettledLeaves(c.lim, c.exact, Effect(c, s, op, now).0, t, op.key);
    } else {
      BfAddLiveIs(c, s, op, now, t, answer);
      LeftSelf(t.data, op.key);
    }
  }

  lemma LeftSelf(data: Data, k: Bytes)
    ensures Left(data, data, k)
  {
  }

  lemma StepOtherTrue(c: Config, truth: Data, s: State, op: Op, now: int, t: State, answer: Ops.Answer, k: Bytes)
    requires Consistent(s) && AllTrue(truth, s.data) && Step(c, s, op, now, t, answer)
    requires Writes(op, k) && !WritesPlain(op)
    ensures TrueAt(Learn(s, truth, op, now, answer), t.data, k)
  {
    assert Learn(s, truth, op, now, answer) == truth;
    assert k in s.data ==> TrueAt(truth, s.data, k);
    if op.Delete? {
      DeleteLeaves(s, op.keys, k);
      hide Consistent, AllTrue, Ops.DeleteEach, Learn;
      LeftTrue(truth, truth, s.data, t.data, k);
    } else {
      assert op.CmsInit? || op.CmsIncrBy? || op.CmsMerge? || op.BfReserve? || op.BfAdd?;
      OtherTrue(truth, c, s, op, now);
      assert k == op.key;
      hide Consistent, AllTrue, Learn, Written, Effect, Writes, Settled, ToEvict, Ops.BfAddLive, Ops.BfFilled, Ops.BfCreate;
      if op.BfAdd? && !Ops.Live(s, k, now) {
        var made := Ops.BfCreate(s, k, c.size, now);
        var mid :| Settled(c.lim, c.exact, made, mid) && Ops.BfFilled(mid, c.hash, k, op.items, c.size) == (t, answer);
        FillTrue(truth, mid, c.hash, k, op.items, c.size);
      } else {
        NotCreated(c, s, op, now);
        if Evicts(op) {
          SettledLeaves(c.lim, c.exact, Effect(c, s, op, now).0, t, k);
          LeftTrue(truth, truth, Effect(c, s, op, now).0.data, t.data, k);
        } else {
          BfAddLiveIs(c, s, op, now, t, answer);
        }
      }
    }
  }

  lemma StepTrue(c: Config, truth: Data, s: State, op: Op, now: int, t: State, answer: Ops.Answer)
    requires Consistent(s) && AllTrue(truth, s.data) && Step(c, s, op, now, t, answer)
    ensures AllTrue(Learn(s, truth, op, now, answer), t.data)
  {
    hide Consistent, Step, Learn, TrueAt;
    forall k | k in t.data ensures TrueAt(Learn(s, truth, op, now, answer), t.data, k) {
      StepTrueAt(c, truth, s, op, now, t, answer, k);
    }
  }

  // ----- runs -----

  ghost function LearnAt(m: Machine, truth: Data, first: Moment): Data {
    if first.event.Whole? then Learn(m.store, truth, first.event.op, first.now, first.answer) else truth
  }

  /** What the commands of a run have written. */
  ghost function Learnt(m: Machine, truth: Data, moments: seq<Moment>): Data
    decreases |moments|
  {
    if moments == [] then truth else Learnt(moments[0].after, LearnAt(m, truth, moments[0]), moments[1..])
  }

  lemma PurgeTrue(truth: Data, s: State, k: Bytes, now: int)
    requires AllTrue(truth, s.data)
    ensures AllTrue(truth, Ops.Purge(s, k, now).data)
  {
    hide Without;
    assert forall j :: j in Ops.Purge(s, k, now).data ==> TrueAt(truth, s.data, j);
  }

  lemma MoveTrue(c: Config, truth: Data, m: Machine, first: Moment)
    requires Consistent(m.store) && AllTrue(truth, m.store.data) && Move(c, m, first.event, first.now, first.after, first.answer)
    ensures AllTrue(LearnAt(m, truth, first), first.after.store.data)
  {
    hide Consistent, AllTrue, Step, Learn, LookAt, Ops.Purge;
    match first.event
    case Whole(op) => StepTrue(c, truth, m.store, op, first.now, first.after.store, first.answer);
    case Look(_, op) => LookData(c, m.store, op, first.now);
    case Upgrade(reader) => PurgeTrue(truth, m.store, m.waiting[reader].key, first.now);
  }

  /** Over every interleaving, every stored string, set and sorted set is what the commands of the run wrote, with
      the deadline they gave it. */
  lemma {:induction false} RunTrue(c: Config, truth: Data, m: Machine, moments: seq<Moment>)
    requires Consistent(m.store) && AllTrue(truth, m.store.data) && Run(c, m, moments)
    ensures AllTrue(Learnt(m, truth, moments), Before(m, moments, |moments|).store.data)
    decreases |moments|
  {
    hide AllTrue, Consistent, Move, LearnAt;
    if moments != [] {
      MoveTrue(c, truth, m, moments[0]);
      MoveConsistent(c, m, moments[0]);
      RunTrue(c, LearnAt(m, truth, moments[0]), moments[0].after, moments[1..]);
    }
  }

  /** The reads of a plain record answer what was written under its key. */
  ghost predicate ReadsTrue(s: State, truth: Data, k: Bytes, x: Bytes, now: int)
    requires k in s.data
  {
    match s.data[k].value
    case StringV(_) => k in truth && truth[k].value.StringV? && Ops.Get(s, k, now).1 == Ops.Text(Some(truth[k].value.text))
    case SetV(_) =>
      k in truth && truth[k].value.SetV? && Ops.SIsMember(s, k, x, now).1 == Ops.Number(if x in truth[k].value.members then 1 else 0)
    case ZSetV(_) =>
      && k in truth && truth[k].value.ZSetV?
      && Ops.ZAsk(s, k, SortedSets.ScoreOf(x), now).1
        == Ops.Sorted(if x in truth[k].value.scores then SortedSets.Scored(truth[k].value.scores[x], true) else SortedSets.Scored(Finite(0.0), false))
    case _ => true
  }

  /** So at any moment of any run of a new store, GET answers the text last written under a live key, and the
      other reads what was added and not removed since. */
  lemma NewStoreReads(c: Config, tracked: bool, moments: seq<Moment>, k: Bytes, x: Bytes, now: int)
    requires Run(c, NewMachine(tracked), moments)
    requires There(Before(NewMachine(tracked), moments, |moments|).store, k, now)
    ensures ReadsTrue(Before(NewMachine(tracked), moments, |moments|).store, Learnt(NewMachine(tracked), map[], moments), k, x, now)
  {
    var s, truth := Before(NewMachine(tracked), moments, |moments|).store, Learnt(NewMachine(tracked), map[], moments);
    NewMachineKeeps(c, tracked);
    assert AllTrue(map[], NewMachine(tracked).store.data);
    RunTrue(c, map[], NewMachine(tracked), moments);
    assert TrueAt(truth, s.data, k);
    hide Run, Learnt, Before, NewMachine, Consistent, Ops.Get, Ops.SIsMember, Ops.SMembers, Ops.ZAsk;
    if s.data[k].value.StringV? {
      GetTells(s, k, now, s.data[k].value.text);
    } else if s.data[k].value.SetV? {
      SetReadsTell(s, k, x, now);
    } else if s.data[k].value.ZSetV? {
      ZAskTells(s, k, x, 0, 0, now);
    }
  }

  /** INCR in a run: it answers the integer after the one the commands of the run left, and that is what is
      learnt. */
  lemma NewStoreIncr(c: Config, tracked: bool, moments: seq<Moment>, k: Bytes, now: int, n: int)
    requires Run(c, NewMachine(tracked), moments)
    requires There(Before(NewMachine(tracked), moments, |moments|).store, k, now)
    requires Ops.Incr(Before(NewMachine(tracked), moments, |moments|).store, k, now).1 == Ops.Number(n)
    ensures var truth := Learnt(NewMachine(tracked), map[], moments);
      && k in truth && truth[k].value.StringV?
      && (exists before :: InRange(before) && Decimals.Writes(truth[k].value.text, before) && n == Next(before))
      && Decimals.ParseInt(Decimals.FormatInt(n)) == Some(n)
  {
    var s, truth := Before(NewMachine(tracked), moments, |moments|).store, Learnt(NewMachine(tracked), map[], moments);
    NewMachineKeeps(c, tracked);
    assert AllTrue(map[], NewMachine(tracked).store.data);
    RunTrue(c, map[], NewMachine(tracked), moments);
    assert TrueAt(truth, s.data, k);
    IncrTells(s, k, now);
    IncrLeaves(s, k, now);
    hide Run, Learnt, Before, NewMachine, Consistent, Ops.Incr, Decimals.Writes, Decimals.ParseInt, Decimals.FormatInt;
    Decimals.ParseFormat(n);
  }
}
