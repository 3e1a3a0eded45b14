/** Hits and misses over whole runs: every GET is counted once, though a GET that met a stale record counts its
    miss only when it comes back. */
module LookCounts {
  import opened Options
  import opened Policies
  import opened StoreSpec
  import opened StoreRuns
  import opened Interleavings
  import opened Removals
  import opened CommandLaws
  import Ops = StoreOps

  /** The readers that still owe a miss. */
  ghost function Owing(waiting: map<nat, Visit>): set<nat> {
    set r | r in waiting && waiting[r].missed
  }

  /** A moment at which a GET answers, whole or under the read lock. */
  predicate Gets(e: Event) {
    (e.Whole? || e.Look?) && e.op.Get?
  }

  /** How many GETs of a run found a text, or none. */
  ghost function Found(moments: seq<Moment>, some: bool): nat {
    if moments == [] then 0
    else Found(moments[1..], some) + if Gets(moments[0].event) && (moments[0].answer != Ops.Text(None)) == some then 1 else 0
  }

  /** A look leaves a visit exactly for a record whose time is over, or for TTL at the very end of it. */
  lemma LookVisits(c: Config, s: State, op: Op, now: int)
    requires Consistent(s) && Splits(op)
    ensures var k, visit := LookedAt(op), LookAt(c, s, op, now).2;
      && (visit.Some? <==> k in s.data && s.data[k].ttl.Some? && (s.data[k].ttl.value < now || (op.Ttl? && s.data[k].ttl.value == now)))
      && (visit.Some? ==> visit.value == Visit(k, op.Get?))
  {
    hide Consistent, Effect;
  }

  lemma LookLooks(c: Config, s: State, op: Op, now: int)
    requires Consistent(s) && Splits(op)
    ensures var (t, answer, visit) := LookAt(c, s, op, now);
      && t.tally.hits == s.tally.hits + (if op.Get? && answer != Ops.Text(None) then 1 else 0)
      && t.tally.misses + (if visit.Some? && visit.value.missed then 1 else 0)
        == s.tally.misses + if op.Get? && answer == Ops.Text(None) then 1 else 0
  {
    if op.Get? {
      hide Consistent, Front, Without;
    } else {
      EffectLooks(c, s, op, now);
      NotCreated(c, s, op, now);
      hide Consistent, Effect, ToEvict;
    }
  }

  lemma OweMore(waiting: map<nat, Visit>, reader: nat, visit: Visit)
    requires reader !in waiting
    ensures |Owing(waiting[reader := visit])| == |Owing(waiting)| + if visit.missed then 1 else 0
  {
    assert Owing(waiting[reader := visit]) == if visit.missed then Owing(waiting) + {reader} else Owing(waiting);
  }

  lemma OweLess(waiting: map<nat, Visit>, reader: nat)
    requires reader in waiting
    ensures |Owing(waiting)| == |Owing(waiting - {reader})| + if waiting[reader].missed then 1 else 0
  {
    assert Owing(waiting) == if waiting[reader].missed then Owing(waiting - {reader}) + {reader} else Owing(waiting - {reader});
  }

  /** Misses counted, and misses still to be counted. */
  ghost function Due(m: Machine): int {
    m.store.tally.misses + |Owing(m.waiting)|
  }

  lemma MoveLooks(c: Config, m: Machine, first: Moment)
    requires Consistent(m.store) && Move(c, m, first.event, first.now, first.after, first.answer)
    ensures first.after.store.tally.hits == m.store.tally.hits + Found([first], true)
    ensures Due(first.after) == Due(m) + Found([first], false)
  {
    assert forall some :: Found([first][1..], some) == 0;
    hide Consistent, Step, LookAt, Without, Owing;
    match first.event
    case Whole(op) => StepLooks(c, m.store, op, first.now, first.after.store, first.answer);
    case Look(reader, op) =>
      LookLooks(c, m.store, op, first.now);
      var visit := LookAt(c, m.store, op, first.now).2;
      if visit.Some? {
        OweMore(m.waiting, reader, visit.value);
      }
    case Upgrade(reader) => OweLess(m.waiting, reader);
  }

  lemma FoundFirst(moments: seq<Moment>, some: bool)
    requires moments != []
    ensures Found(moments, some) == Found([moments[0]], some) + Found(moments[1..], some)
  {
    assert [moments[0]][1..] == [];
  }

  /** Over every interleaving: the hits are the GETs that found a text, the misses those that found none, except
      for the readers that have still to come back. */
  lemma {:induction false} RunLooks(c: Config, m: Machine, moments: seq<Moment>)
    requires Consistent(m.store) && Run(c, m, moments)
    ensures Before(m, moments, |moments|).store.tally.hits == m.store.tally.hits + Found(moments, true)
    ensures Due(Before(m, moments, |moments|)) == Due(m) + Found(moments, false)
    decreases |moments|
  {
    hide Consistent, Move, Due;
    if moments != [] {
      MoveLooks(c, m, moments[0]);
      MoveConsistent(c, m, moments[0]);
      RunLooks(c, moments[0].after, moments[1..]);
      FoundFirst(moments, true);
      FoundFirst(moments, false);
      hide Found;
    }
  }

  /** So with nobody waiting, hits and misses of a new store add up to the GETs of the run. */
  lemma NewStoreLooks(c: Config, tracked: bool, moments: seq<Moment>)
    requires Run(c, NewMachine(tracked), moments)
    ensures var m := Before(NewMachine(tracked), moments, |moments|);
      && m.store.tally.hits == Found(moments, true)
      && m.store.tally.misses == Found(moments, false) - |Owing(m.waiting)|
  {
    NewMachineKeeps(c, tracked);
    RunLooks(c, NewMachine(tracked), moments);
    assert Owing(map[]) == {};
    hide Run, Found, Consistent;
  }
}
