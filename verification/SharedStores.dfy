/** The store as its clients share it: looks under the read lock, upgrades later, and everything in between. */
module SharedStores {
  import opened Options
  import opened StoreSpec
  import opened StoreRuns
  import opened Interleavings
  import opened IndexedStores
  import Ops = StoreOps
  import Stores

  lemma SplitStep(c: Config, s: State, op: Op, now: int, t: State, answer: Ops.Answer)
    requires Consistent(s) && Splits(op) && Step(c, s, op, now, t, answer)
    ensures (t, answer) == Effect(c, s, op, now)
  {
    hide Consistent, Effect;
  }

  lemma SplitsPlain(op: Op)
    requires Splits(op)
    ensures !OnSortedSets(op)
  {
  }

  /** The moments are those of the events, with these answers, and the memory in use at each is the sum of the
      sizes of the records. */
  ghost predicate Told(events: seq<(Event, int)>, moments: seq<Moment>, answers: seq<Ops.Answer>, used: seq<int>) {
    && |answers| == |used| == |moments| <= |events|
    && (forall i :: 0 <= i < |moments| ==> (moments[i].event, moments[i].now) == events[i])
    && (forall i :: 0 <= i < |moments| ==> answers[i] == moments[i].answer)
    && (forall i :: 0 <= i < |moments| ==> used[i] == Used(moments[i].after.store.data))
  }

  lemma ToldNone(events: seq<(Event, int)>)
    ensures Told(events, [], [], [])
  {
  }

  lemma ToldOneMore(events: seq<(Event, int)>, moments: seq<Moment>, answers: seq<Ops.Answer>, used: seq<int>, last: Moment, size: int)
    requires Told(events, moments, answers, used) && |moments| < |events|
    requires (last.event, last.now) == events[|moments|] && size == Used(last.after.store.data)
    ensures Told(events, moments + [last], answers + [last.answer], used + [size])
  {
    hide Used;
  }

  lemma RunNone(c: Config, m: Machine)
    ensures Run(c, m, []) && Before(m, [], 0) == m
  {
  }

  class SharedStore {
    const inner: IndexedStore
    var waiting: map<nat, Visit>

    ghost function Machine(): Interleavings.Machine
      reads this, inner.store, inner.store.policy
    {
      Interleavings.Machine(inner.store.State(), waiting)
    }

    /** The store is sound, with used memory and limits; and apart from this object. */
    ghost predicate Valid()
      reads this, inner, inner.store, inner.store.policy, inner.Anchors(), inner.Footprint()
    {
      inner.Valid() && this !in inner.Footprint()
    }

    constructor (store: Stores.Store)
      requires store.Valid() && store.data == map[]
      ensures Valid() && inner.store == store && waiting == map[]
    {
      hide IndexedStore.Valid, Stores.Store.Valid;
      var made := new IndexedStore(store);
      inner, waiting := made, map[];
      new;
      assert made.Anchors() == {};
    }

    /** Under the read lock: a stale record is answered as absent, and left for an upgrade. */
    method Look(op: Op, now: int) returns (answer: Ops.Answer, visit: Option<Visit>)
      requires inner.Valid() && Splits(op)
      modifies inner.store, inner.store.policy
      ensures inner.Valid() && inner.sets == old(inner.sets) && inner.Footprint() == old(inner.Footprint())
      ensures (inner.store.State(), answer, visit) == LookAt(ConfigOf(inner.store), old(inner.store.State()), op, now)
    {
      hide IndexedStore.Valid, Stores.Store.Valid, Consistent, Effect, Step;
      var k := LookedAt(op);
      inner.ValidIs();
      StoreFacts(inner.store);
      ghost var s := inner.store.State();
      inner.LiveIs(k, now);
      if k in inner.store.data && Ops.Expired(inner.store.data[k], now) {
        return Nothing(op), Some(Visit(k, op.Get?));
      }
      var due := op.Ttl? && k in inner.store.data && inner.store.data[k].ttl == Some(now);
      SplitsPlain(op);
      answer := inner.PerformPlain(op, now);
      SplitStep(ConfigOf(inner.store), s, op, now, inner.store.State(), answer);
      visit := if due then Some(Visit(k, false)) else None;
    }

    /** An event that can happen now: a reader waits at most once, and comes back only if it waits. */
    predicate Possible(e: Event)
      reads this
    {
      match e
      case Whole(_) => true
      case Look(reader, op) => reader !in waiting && Splits(op)
      case Upgrade(reader) => reader in waiting
    }

    /** Who waits is no part of the store. */
    method Remember(now: map<nat, Visit>)
      requires Valid()
      modifies this
      ensures Valid() && waiting == now && inner.Footprint() == old(inner.Footprint())
      ensures inner.store.State() == old(inner.store.State())
    {
      hide IndexedStore.Valid, IndexedStore.Footprint, IndexedStore.Anchors, Stores.Store.State;
      inner.AnchorsInside();
      waiting := now;
    }

    /** One event takes the shared store one move on. */
    method Play(e: Event, now: int) returns (answer: Ops.Answer)
      requires Valid() && Possible(e)
      modifies this, inner, inner.store, inner.store.policy, inner.Footprint()
      ensures Valid() && forall o :: o in inner.Footprint() ==> o in old(inner.Footprint()) || fresh(o)
      ensures Consistent(old(Machine()).store)
      ensures Move(ConfigOf(inner.store), old(Machine()), e, now, Machine(), answer)
    {
      hide IndexedStore.Valid, IndexedStore.Footprint, Stores.Store.Valid, Stores.Store.State, Consistent, Effect, Step, LookAt, Ops.Purge;
      inner.ValidIs();
      StoreFacts(inner.store);
      match e {
        case Whole(op) => answer := inner.Perform(op, now);
        case Look(reader, op) => {
          var visit;
          answer, visit := Look(op, now);
          if visit.Some? {
            Remember(waiting[reader := visit.value]);
          }
        }
        case Upgrade(reader) => {
          inner.ComeBack(waiting[reader].key, waiting[reader].missed, now);
          Remember(waiting - {reader});
          answer := Ops.Done;
        }
      }
    }

    lemma UsedIsRight()
      requires Valid()
      ensures inner.store.usedMemory == Used(inner.store.State().data) && Consistent(inner.store.State())
    {
    }

    /** One event, and the moment it makes. */
    method PlayMoment(e: Event, now: int) returns (answer: Ops.Answer, used: int, ghost last: Moment)
      requires Valid() && Possible(e)
      modifies this, inner, inner.store, inner.store.policy, inner.Footprint()
      ensures Valid() && forall o :: o in inner.Footprint() ==> o in old(inner.Footprint()) || fresh(o)
      ensures Consistent(old(Machine()).store) && last == Moment(e, now, Machine(), answer)
      ensures Move(ConfigOf(inner.store), old(Machine()), e, now, Machine(), answer)
      ensures used == Used(Machine().store.data)
    {
      hide *;
      answer := Play(e, now);
      UsedIsRight();
      MachineIs();
      last := Moment(e, now, Machine(), answer);
      used := inner.store.usedMemory;
    }

    /** Play events as long as they are possible. The answers are those of a run of the machine, and at every
        moment of it the memory in use is the sum of the sizes of the records. */
    method PlayAll(events: seq<(Event, int)>) returns (answers: seq<Ops.Answer>, used: seq<int>, ghost moments: seq<Moment>)
      requires Valid()
      modifies this, inner, inner.store, inner.store.policy, inner.Footprint()
      ensures Valid() && Run(ConfigOf(inner.store), old(Machine()), moments) && Told(events, moments, answers, used)
    {
      hide Valid, Run, Move, Used, Machine, Told, Consistent, ConfigOf;
      ghost var c, m := ConfigOf(inner.store), Machine();
      answers, used, moments := [], [], [];
      RunNone(c, m);
      ToldNone(events);
      while |answers| < |events| && Possible(events[|answers|].0)
        invariant Valid() && c == ConfigOf(inner.store) && |answers| == |moments|
        invariant forall o :: o in inner.Footprint() ==> o in old(inner.Footprint()) || fresh(o)
        invariant Run(c, m, moments) && Before(m, moments, |moments|) == Machine() && Told(events, moments, answers, used)
        decreases |events| - |answers|
      {
        var e, now := events[|answers|].0, events[|answers|].1;
        var answer, size, last := PlayMoment(e, now);
        ConfigStays();
        RunOneMore(c, m, moments, last);
        ToldOneMore(events, moments, answers, used, last, size);
        answers, used, moments := answers + [answer], used + [size], moments + [last];
      }
    }

    lemma ConfigStays()
      ensures ConfigOf(inner.store) == Config(inner.store.Lim(), inner.store.Exact(), inner.store.hash, inner.store.bloomDefault)
    {
    }

    lemma MachineIs()
      ensures Machine().store == inner.store.State()
    {
    }
  }
}
