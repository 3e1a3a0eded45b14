/** Readers that give up the read lock, and come back with the write lock to drop a stale record,
    while other commands run in between. */
module Interleavings {
  import opened Bytes
  import opened Options
  import opened Policies
  import opened StoreSpec
  import opened StoreRuns
  import opened Removals
  import Ops = StoreOps

  /** What a reader comes back for; a GET counts its miss only then. */
  datatype Visit = Visit(key: Bytes, missed: bool)

  datatype Machine = Machine(store: State, waiting: map<nat, Visit>)

  datatype Event =
    | Whole(op: Op)
    | Look(reader: nat, op: Op)
    | Upgrade(reader: nat)

  /** The commands that look under the read lock and upgrade only for a stale record. */
  predicate Splits(op: Op) {
    op.Get? || op.Ttl? || op.SIsMember? || op.SMembers? || (op.Exists? && |op.keys| == 1)
  }

  function LookedAt(op: Op): Bytes
    requires Splits(op)
  {
    if op.Exists? then op.keys[0] else op.key
  }

  /** The answer for a key that is not there. */
  function Nothing(op: Op): Ops.Answer
    requires Splits(op)
  {
    match op
    case Get(_) => Ops.Text(None)
    case Ttl(_) => Ops.Number(-2)
    case SMembers(_) => Ops.Names([])
    case _ => Ops.Number(0)
  }

  /** Look under the read lock; a stale record is answered as absent and left for an upgrade. TTL also
      comes back at the very instant of expiry, when the record is not yet stale. */
  ghost function LookAt(c: Config, s: State, op: Op, now: int): (State, Ops.Answer, Option<Visit>)
    requires Consistent(s) && Splits(op)
  {
    var k := LookedAt(op);
    if Ops.Stale(s, k, now) then (s, Nothing(op), Some(Visit(k, op.Get?)))
    else
      var (t, answer) := Effect(c, s, op, now);
      var due := op.Ttl? && k in s.data && s.data[k].ttl == Some(now);
      (t, answer, if due then Some(Visit(k, false)) else None)
  }

  /** One event at `now` may lead from `m` to `n`. An upgrade checks the expiry time again. */
  ghost predicate Move(c: Config, m: Machine, e: Event, now: int, n: Machine, answer: Ops.Answer)
    requires Consistent(m.store)
  {
    match e
    case Whole(op) => Step(c, m.store, op, now, n.store, answer) && n.waiting == m.waiting
    case Look(reader, op) =>
      && reader !in m.waiting && Splits(op)
      && var (t, a, visit) := LookAt(c, m.store, op, now);
      n == Machine(t, if visit.Some? then m.waiting[reader := visit.value] else m.waiting) && answer == a
    case Upgrade(reader) =>
      && reader in m.waiting
      && var t := Ops.Purge(m.store, m.waiting[reader].key, now);
      n == Machine(if m.waiting[reader].missed then Ops.Miss(t) else t, m.waiting - {reader}) && answer == Ops.Done
  }

  datatype Moment = Moment(event: Event, now: int, after: Machine, answer: Ops.Answer)

  ghost predicate Run(c: Config, m: Machine, moments: seq<Moment>)
    decreases |moments|
  {
    moments == [] ||
    (&& Consistent(m.store) && Move(c, m, moments[0].event, moments[0].now, moments[0].after, moments[0].answer)
     && Run(c, moments[0].after, moments[1..]))
  }

  ghost function Before(m: Machine, moments: seq<Moment>, i: nat): Machine
    requires i <= |moments|
  {
    if i == 0 then m else moments[i - 1].after
  }

  /** One more move makes a run one moment longer. */
  lemma {:induction false} RunOneMore(c: Config, m: Machine, moments: seq<Moment>, last: Moment)
    requires Run(c, m, moments) && Consistent(Before(m, moments, |moments|).store)
    requires Move(c, Before(m, moments, |moments|), last.event, last.now, last.after, last.answer)
    ensures Run(c, m, moments + [last]) && Before(m, moments + [last], |moments| + 1) == last.after
    decreases |moments|
  {
    hide Consistent, Move;
    if moments == [] {
      assert [last][1..] == [];
    } else {
      RunOneMore(c, moments[0].after, moments[1..], last);
      assert (moments + [last])[1..] == moments[1..] + [last];
    }
  }

  ghost predicate Fits(c: Config, s: State) {
    s.tracked ==> !Over(s.data, c.lim)
  }

  /** A store as it is made, with or without an eviction policy, and nobody waiting. */
  ghost function NewMachine(tracked: bool): Machine {
    Machine(State(map[], [], tracked, Tally(0, 0, 0, 0, 0, 0, 0)), map[])
  }

  lemma NewMachineKeeps(c: Config, tracked: bool)
    ensures Consistent(NewMachine(tracked).store) && Fits(c, NewMachine(tracked).store)
  {
    NothingIsOver(c.lim);
  }

  /** Looking changes no record. */
  lemma LookData(c: Config, s: State, op: Op, now: int)
    requires Consistent(s) && Splits(op)
    ensures LookAt(c, s, op, now).0.data == s.data
  {
    hide Consistent, Front;
    if op.Exists? {
      assert op.keys[1..] == [];
      assert Ops.ExistsEach(Ops.Purge(s, op.keys[0], now), [], now).0 == Ops.Purge(s, op.keys[0], now);
    }
  }

  lemma LookMoves(c: Config, s: State, op: Op, now: int)
    requires Consistent(s) && Splits(op)
    ensures Moves(s, LookAt(c, s, op, now).0, now)
  {
    hide Consistent, Moves, Effect;
    StayMoves(s, now);
    EffectMoves(c, s, op, now);
  }

  lemma MovesFit(c: Config, s: State, t: State, now: int)
    requires Moves(s, t, now)
    ensures Orderly(s, t, now) && (Fits(c, s) ==> Fits(c, t))
  {
    hide Over, Consistent;
    if !Over(s.data, c.lim) {
      NoLargerFits(s, t, c.lim);
    }
  }

  /** Key by key, what an event may take away: a command, what `Rightful` lets it; a look, nothing; an upgrade,
      the key it came back for, if its time is over at that moment. */
  ghost predicate RightfulMove(c: Config, m: Machine, e: Event, now: int, n: Machine)
    requires Consistent(m.store)
  {
    match e
    case Whole(op) => Rightful(c, m.store, op, now, n.store)
    case Look(_, _) => n.store.data == m.store.data && Expirations(m.store, n.store) == 0
    case Upgrade(reader) =>
      && reader in m.waiting
      && var gone := {m.waiting[reader].key} * Ops.StaleKeys(m.store, now);
      n.store.data == m.store.data - gone && Expirations(m.store, n.store) == |gone|
  }

  lemma LookExpiresNone(c: Config, s: State, op: Op, now: int)
    requires Consistent(s) && Splits(op)
    ensures Expirations(s, LookAt(c, s, op, now).0) == 0
  {
    hide Consistent, Front;
    if op.Exists? {
      assert op.keys[1..] == [];
      assert Ops.ExistsEach(Ops.Purge(s, op.keys[0], now), [], now).0 == Ops.Purge(s, op.keys[0], now);
    }
  }

  lemma MoveRightful(c: Config, m: Machine, e: Event, now: int, n: Machine, answer: Ops.Answer)
    requires Consistent(m.store) && Move(c, m, e, now, n, answer)
    ensures RightfulMove(c, m, e, now, n)
  {
    hide Consistent, Rightful, Step, LookAt, Without, Ops.StaleKeys;
    match e
    case Whole(op) => StepRightful(c, m.store, op, now, n.store, answer);
    case Look(_, op) =>
      LookData(c, m.store, op, now);
      LookExpiresNone(c, m.store, op, now);
    case Upgrade(reader) =>
      StaleOne(m.store, m.waiting[reader].key, now);
      assert m.store.data - {} == m.store.data;
  }

  lemma MoveKeeps(c: Config, m: Machine, e: Event, now: int, n: Machine, answer: Ops.Answer)
    requires Consistent(m.store) && Move(c, m, e, now, n, answer)
    ensures Orderly(m.store, n.store, now) && (Fits(c, m.store) ==> Fits(c, n.store))
  {
    hide Consistent, Orderly, NoLarger, Over, Step, LookAt;
    match e
    case Whole(op) => StepKeeps(c, m.store, op, now, n.store, answer);
    case Look(_, op) =>
      LookMoves(c, m.store, op, now);
      MovesFit(c, m.store, n.store, now);
    case Upgrade(reader) =>
      PurgeMoves(m.store, m.waiting[reader].key, now);
      MovesFit(c, m.store, n.store, now);
  }

  lemma MoveConsistent(c: Config, m: Machine, first: Moment)
    requires Consistent(m.store) && Move(c, m, first.event, first.now, first.after, first.answer)
    ensures Consistent(first.after.store) && first.after.store.tracked == m.store.tracked
  {
    hide Consistent, Move, Fits;
    MoveKeeps(c, m, first.event, first.now, first.after, first.answer);
  }

  /** However readers, upgrades and commands interleave, and whatever the clock does: at every moment
      the books balance, the limits hold, expiry takes only records that are stale at that moment, and
      every live key that goes is deleted or emptied by the command at work, or evicted over the limits. */
  lemma {:induction false} RunKeeps(c: Config, m: Machine, moments: seq<Moment>, i: nat)
    requires Consistent(m.store) && Fits(c, m.store) && Run(c, m, moments) && i < |moments|
    ensures Orderly(Before(m, moments, i).store, moments[i].after.store, moments[i].now)
    ensures Consistent(Before(m, moments, i).store)
    ensures RightfulMove(c, Before(m, moments, i), moments[i].event, moments[i].now, moments[i].after)
    ensures Fits(c, moments[i].after.store)
    decreases |moments|
  {
    hide Orderly, Consistent, Move, Fits, RightfulMove;
    var first := moments[0];
    MoveRightful(c, m, first.event, first.now, first.after, first.answer);
    MoveKeeps(c, m, first.event, first.now, first.after, first.answer);
    if i > 0 {
      OrderlyConsistent(m.store, first.after.store, first.now);
      assert moments[1..][i - 1] == moments[i];
      assert Before(first.after, moments[1..], i - 1) == Before(m, moments, i);
      RunKeeps(c, first.after, moments[1..], i - 1);
    }
  }

  /** Every key ever inserted is stored, or was expired, evicted, deleted or emptied: at every moment. */
  lemma RunBalances(c: Config, m: Machine, moments: seq<Moment>, i: nat)
    requires Consistent(m.store) && Fits(c, m.store) && Run(c, m, moments) && i < |moments|
    ensures var s := moments[i].after.store;
      s.tally.inserted == |s.data| + s.tally.expired + s.tally.evicted + s.tally.deleted + s.tally.emptied
    ensures var s := moments[i].after.store; s.tracked ==> KeySet(s.order) == s.data.Keys
  {
    RunKeeps(c, m, moments, i);
  }

  /** So the limits hold and the books balance in every run of a new store. */
  lemma NewStoreRuns(c: Config, tracked: bool, moments: seq<Moment>, i: nat)
    requires Run(c, NewMachine(tracked), moments) && i < |moments|
    ensures var s := moments[i].after.store;
      && Fits(c, s)
      && s.tally.inserted == |s.data| + s.tally.expired + s.tally.evicted + s.tally.deleted + s.tally.emptied
  {
    NewMachineKeeps(c, tracked);
    RunKeeps(c, NewMachine(tracked), moments, i);
    RunBalances(c, NewMachine(tracked), moments, i);
    hide Fits, Run;
  }

  /** Coming back late is safe: an upgrade or a look never touches a live record, even one written
      after the reader saw a stale one. */
  lemma LateUpgradeSafe(c: Config, m: Machine, e: Event, now: int, n: Machine, answer: Ops.Answer, k: Bytes)
    requires Consistent(m.store) && Move(c, m, e, now, n, answer) && !e.Whole? && Ops.Live(m.store, k, now)
    ensures Ops.Live(n.store, k, now) && n.store.data[k] == m.store.data[k]
  {
    hide Consistent, Front, Without, LookAt;
    if e.Look? {
      LookData(c, m.store, e.op, now);
    }
  }
}
