/** Expired records are removed only when touched, and nobody can tell: a store that sweeps before
    every command gives the same answers, as long as nothing is ever evicted. */
module LazyExpiry {
  import opened Bytes
  import opened Options
  import opened Policies
  import opened StoreSpec
  import opened StoreRuns
  import opened Removals
  import opened LiveViews
  import opened Interleavings
  import Ops = StoreOps
  import SortedSets

  // ----- the answers that tell -----

  lemma CountStep(k: Bytes, rest: set<Bytes>, keys: set<Bytes>)
    ensures |({k} + rest) * keys| == if k in keys then 1 + |rest * (keys - {k})| else |rest * keys|
  {
    if k in keys {
      assert ({k} + rest) * keys == {k} + rest * (keys - {k});
    } else {
      assert ({k} + rest) * keys == rest * keys;
    }
  }

  lemma {:induction false} DeleteCounts(s: State, keys: seq<Bytes>)
    ensures Ops.DeleteEach(s, keys).1 == |SortedSets.SetOf(keys) * s.data.Keys|
    decreases |keys|
  {
    if keys != [] {
      assert SortedSets.SetOf(keys) == {keys[0]} + SortedSets.SetOf(keys[1..]);
      hide SortedSets.SetOf, Without;
      CountStep(keys[0], SortedSets.SetOf(keys[1..]), s.data.Keys);
      if keys[0] in s.data {
        DeleteCounts(DropDeleted(s, keys[0]), keys[1..]);
        assert DropDeleted(s, keys[0]).data.Keys == s.data.Keys - {keys[0]};
      } else {
        DeleteCounts(s, keys[1..]);
      }
    }
  }

  /** A DELETE counts each listed stale record once more than a swept store would; so the counts
      agree exactly when no listed record is stale. */
  lemma DeleteTells(s: State, keys: seq<Bytes>, now: int)
    ensures var stale := SortedSets.SetOf(keys) * Ops.StaleKeys(s, now);
      && Ops.DeleteEach(s, keys).1 == Ops.DeleteEach(Ops.Sweep(s, now), keys).1 + |stale|
      && (Ops.DeleteEach(s, keys).1 == Ops.DeleteEach(Ops.Sweep(s, now), keys).1 <==> stale == {})
  {
    var all, stale := SortedSets.SetOf(keys), SortedSets.SetOf(keys) * Ops.StaleKeys(s, now);
    var swept := Ops.Sweep(s, now);
    DeleteCounts(s, keys);
    DeleteCounts(swept, keys);
    assert swept.data.Keys == s.data.Keys - Ops.StaleKeys(s, now);
    assert all * s.data.Keys == all * swept.data.Keys + stale;
  }

  // ----- whole runs -----

  /** No limits: eviction never has anything to do. */
  predicate Unlimited(c: Config) {
    c.lim.maxEntries <= 0 && c.lim.maxMemory <= 0
  }

  lemma UnlimitedStep(c: Config, s: State, op: Op, now: int, t: State, answer: Ops.Answer)
    requires Consistent(s) && Unlimited(c) && Step(c, s, op, now, t, answer)
    ensures (t, answer) == Effect(c, s, op, now)
  {
    hide Consistent, Fit, Used, Restrict, Effect, Ops.BfAddLive, Ops.BfFilled, Ops.BfCreate;
    if op.BfAdd? {
      UnlimitedBfAdd(c, s, op, now, t, answer);
    }
  }

  lemma UnlimitedBfAdd(c: Config, s: State, op: Op, now: int, t: State, answer: Ops.Answer)
    requires Consistent(s) && Unlimited(c) && op.BfAdd? && Step(c, s, op, now, t, answer)
    ensures (t, answer) == Effect(c, s, op, now)
  {
    hide Consistent, Fit, Used, Restrict, Ops.BfAddLive, Ops.BfFilled, Ops.BfCreate;
  }

  /** The store that sweeps first, then runs the command. */
  ghost function SweptStep(c: Config, s: State, op: Op, now: int): (r: (State, Ops.Answer))
    requires Consistent(s)
    ensures Consistent(r.0)
  {
    SweepConsistent(s, now);
    EffectConsistent(c, Ops.Sweep(s, now), op, now);
    Effect(c, Ops.Sweep(s, now), op, now)
  }

  lemma SweepConsistent(s: State, now: int)
    requires Consistent(s)
    ensures Consistent(Ops.Sweep(s, now)) && Alike(s, Ops.Sweep(s, now), now)
  {
    ExpireAllMoves(s, Ops.StaleKeys(s, now), now);
    ViewExpireAll(s, Ops.StaleKeys(s, now), now);
  }

  lemma EffectConsistent(c: Config, s: State, op: Op, now: int)
    requires Consistent(s)
    ensures Consistent(Effect(c, s, op, now).0)
  {
    hide Consistent, Effect;
    if Evicts(op) {
      EffectOrderly(c, s, op, now);
    } else if op.BfAdd? && !Ops.Live(s, op.key, now) {
      BfFreshConsistent(c, s, op, now);
    } else {
      EffectMoves(c, s, op, now);
    }
  }

  lemma BfFreshConsistent(c: Config, s: State, op: Op, now: int)
    requires Consistent(s) && op.BfAdd? && !Ops.Live(s, op.key, now)
    ensures Consistent(Effect(c, s, op, now).0)
  {
    hide Consistent, Effect, Ops.EmptyBloom, Ops.Store, Ops.BfFilled;
    BfEffectIs(c, s, op, now);
    BfCreateOrderly(s, op.key, c.size, now);
    StoredIs(s, op.key, Record(BloomV(Ops.EmptyBloom(c.size)), None), now);
    BfFillMoves(Ops.BfCreate(s, op.key, c.size, now), c, op.key, op.items, now);
  }

  /** What a store that always sweeps first answers, when the same commands run one after another.
      It has no use for upgrades. */
  ghost function SweptAnswers(c: Config, s: State, moments: seq<Moment>): (answers: seq<Ops.Answer>)
    requires Consistent(s)
    ensures |answers| == |moments|
    decreases |moments|
  {
    if moments == [] then [] else
      var now := moments[0].now;
      match moments[0].event
      case Upgrade(_) => [Ops.Done] + SweptAnswers(c, s, moments[1..])
      case Whole(op) => var (t, a) := SweptStep(c, s, op, now); [a] + SweptAnswers(c, t, moments[1..])
      case Look(_, op) => var (t, a) := SweptStep(c, s, op, now); [a] + SweptAnswers(c, t, moments[1..])
  }

  ghost predicate InTime(since: int, moments: seq<Moment>) {
    forall i :: 0 <= i < |moments| ==> since <= moments[i].now && (i > 0 ==> moments[i - 1].now <= moments[i].now)
  }

  predicate MayTell(e: Event) {
    e.Whole? && Telling(e.op)
  }

  /** A look answers like the whole command, and leaves what can be seen as the command would. */
  lemma LookAlike(c: Config, s: State, op: Op, now: int)
    requires Consistent(s) && Splits(op)
    ensures LookAt(c, s, op, now).1 == Effect(c, s, op, now).1
    ensures Alike(LookAt(c, s, op, now).0, Effect(c, s, op, now).0, now)
  {
    LookData(c, s, op, now);
    ViewPurge(s, LookedAt(op), now);
    hide Consistent, Front, View, Ops.Purge;
    if op.Exists? {
      assert op.keys[1..] == [];
      assert Ops.ExistsEach(Ops.Purge(s, op.keys[0], now), [], now) == (Ops.Purge(s, op.keys[0], now), 0);
    }
  }

  /** One event of the lazy store against one step of the swept store. */
  lemma LazyMove(c: Config, m: Machine, e: Event, now: int, n: Machine, answer: Ops.Answer, s: State)
    requires Unlimited(c) && Consistent(m.store) && Move(c, m, e, now, n, answer)
    requires Consistent(s) && Alike(m.store, s, now)
    ensures e.Upgrade? ==> Alike(n.store, s, now) && answer == Ops.Done
    ensures !e.Upgrade? ==> Alike(n.store, SweptStep(c, s, e.op, now).0, now)
    ensures !e.Upgrade? && !MayTell(e) ==> answer == SweptStep(c, s, e.op, now).1
  {
    hide Consistent, View, Effect, LookAt, Step, Ops.Purge;
    if e.Upgrade? {
      ViewPurge(m.store, m.waiting[e.reader].key, now);
    } else {
      SweepConsistent(s, now);
      AlikeEffect(c, m.store, Ops.Sweep(s, now), e.op, now);
      if e.Look? {
        LookAlike(c, m.store, e.op, now);
      } else {
        UnlimitedStep(c, m.store, e.op, now, n.store, answer);
      }
    }
  }

  lemma {:induction false} TimesGrow(since: int, moments: seq<Moment>, j: nat)
    requires InTime(since, moments) && j < |moments|
    ensures moments[0].now <= moments[j].now
  {
    if j > 0 {
      TimesGrow(since, moments, j - 1);
    }
  }

  /** Lazy expiry is invisible: with no limits and a clock that never goes back, every answer of every
      run, even with readers upgrading late, is that of a store that sweeps before each command; only
      the counts of DELETE, and of EXPIRE when it deletes, may tell. */
  lemma {:induction false} LazyExpiryInvisible(c: Config, m: Machine, s: State, since: int, moments: seq<Moment>, i: nat)
    requires Unlimited(c) && Run(c, m, moments) && InTime(since, moments) && i < |moments|
    requires Consistent(m.store) && Consistent(s) && Alike(m.store, s, since)
    ensures !MayTell(moments[i].event) ==> moments[i].answer == SweptAnswers(c, s, moments)[i]
    decreases |moments|
  {
    hide Consistent, View, Move, Orderly, SweptStep, Alike;
    var first := moments[0];
    AlikeLater(m.store, s, since, first.now);
    LazyMove(c, m, first.event, first.now, first.after, first.answer, s);
    if i > 0 {
      forall j | 0 <= j < |moments[1..]|
        ensures first.now <= moments[1..][j].now && (j > 0 ==> moments[1..][j - 1].now <= moments[1..][j].now)
      {
        TimesGrow(since, moments, j + 1);
      }
      assert moments[1..][i - 1] == moments[i];
      MoveKeeps(c, m, first.event, first.now, first.after, first.answer);
      OrderlyConsistent(m.store, first.after.store, first.now);
      var s1 := if first.event.Upgrade? then s else SweptStep(c, s, first.event.op, first.now).0;
      LazyExpiryInvisible(c, first.after, s1, first.now, moments[1..], i - 1);
    }
  }

  lemma DeleteOne(s: State, k: Bytes)
    ensures Ops.DeleteEach(s, [k]).1 == if k in s.data then 1 else 0
  {
    DeleteCounts(s, [k]);
    assert SortedSets.SetOf([k]) * s.data.Keys == if k in s.data then {k} else {};
  }

  /** An EXPIRE that deletes answers as on a swept store exactly when its record is not stale. */
  lemma ExpireTells(s: State, k: Bytes, ttl: int, now: int)
    requires ttl <= 0
    ensures Ops.Expire(s, k, ttl, now).1 == Ops.Expire(Ops.Sweep(s, now), k, ttl, now).1 <==> !Ops.Stale(s, k, now)
  {
    DeleteOne(s, k);
    DeleteOne(Ops.Sweep(s, now), k);
    hide Without, WithoutAll, Ops.DeleteEach;
  }

  /** In particular every run of a new store answers like a new store that always sweeps first. */
  lemma NewStoreInvisible(c: Config, tracked: bool, moments: seq<Moment>, i: nat)
    requires Unlimited(c) && Run(c, NewMachine(tracked), moments) && i < |moments| && InTime(moments[0].now, moments)
    ensures Consistent(NewMachine(tracked).store)
    ensures !MayTell(moments[i].event) ==>
      moments[i].answer == SweptAnswers(c, NewMachine(tracked).store, moments)[i]
  {
    NewMachineKeeps(c, tracked);
    hide Run, SweptAnswers, InTime;
    LazyExpiryInvisible(c, NewMachine(tracked), NewMachine(tracked).store, moments[0].now, moments, i);
  }
}
