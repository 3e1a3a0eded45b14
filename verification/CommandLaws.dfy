/** What the commands answer, in terms of one another and of the records there were. */
module CommandLaws {
  import opened Bytes
  import opened Options
  import opened FiniteSums
  import opened Policies
  import opened SortedItems
  import opened StoreSpec
  import opened StoreRuns
  import opened Removals
  import opened Inheritance
  import opened Recency
  import opened FreshFilters
  import Ops = StoreOps
  import Decimals
  import CountMin
  import BloomFilters
  import SortedSets
  import SortedNames

  // ----- what a command leaves alone -----

  /** The keys whose records a command may write. */
  predicate Writes(op: Op, k: Bytes) {
    match op
    case Get(_) => false
    case Ttl(_) => false
    case Exists(_) => false
    case Sweep => false
    case SIsMember(_, _) => false
    case SMembers(_) => false
    case ZAsk(_, _) => false
    case CmsQuery(_, _) => false
    case CmsInfo(_) => false
    case BfExists(_, _) => false
    case BfInfo(_) => false
    case Delete(keys) => k in keys
    case _ => k == op.key
  }

  /** The record of a key is as it was, or gone. */
  ghost predicate Left(before: Data, after: Data, k: Bytes) {
    k in after ==> k in before && after[k] == before[k]
  }

  lemma StoreLeaves(s: State, j: Bytes, record: Record, now: int, k: Bytes)
    requires k != j
    ensures Left(s.data, Ops.Store(s, j, record, now).data, k) && Left(s.data, Overwrite(s, j, record).data, k)
    ensures Left(s.data, DropEmptied(s, j).data, k)
  {
    hide Front, Without;
  }

  lemma PurgeLeaves(s: State, j: Bytes, now: int, k: Bytes)
    ensures Left(s.data, Ops.Purge(s, j, now).data, k)
  {
    hide Without;
  }

  lemma {:induction false} DeleteLeaves(s: State, keys: seq<Bytes>, k: Bytes)
    ensures Left(s.data, Ops.DeleteEach(s, keys).0.data, k)
    decreases |keys|
  {
    hide Without;
    if keys != [] {
      DeleteLeaves(if keys[0] in s.data then DropDeleted(s, keys[0]) else s, keys[1..], k);
    }
  }

  lemma {:induction false} ExistsLeaves(s: State, keys: seq<Bytes>, now: int, k: Bytes)
    ensures Left(s.data, Ops.ExistsEach(s, keys, now).0.data, k)
    decreases |keys|
  {
    hide Without;
    if keys != [] {
      ExistsLeaves(Ops.Purge(s, keys[0], now), keys[1..], now, k);
    }
  }

  lemma ReadLeaves(c: Config, s: State, op: Op, now: int, k: Bytes)
    requires Consistent(s)
    requires op.Get? || op.Ttl? || op.SIsMember? || op.SMembers? || op.ZAsk? || op.CmsQuery? || op.CmsInfo?
      || op.BfExists? || op.BfInfo? || op.Sweep?
    ensures Left(s.data, Effect(c, s, op, now).0.data, k)
  {
    hide Consistent, Without, Front, WithoutAll, CountMin.Query, BloomFilters.Has;
  }

  lemma StringsLeave(c: Config, s: State, op: Op, now: int, k: Bytes)
    requires Consistent(s) && (op.Set? || op.Incr? || op.Expire? || op.Delete? || op.Exists?) && !Writes(op, k)
    ensures Left(s.data, Effect(c, s, op, now).0.data, k)
  {
    hide Consistent, Front, Ops.Store, Overwrite, Ops.DeleteEach, Ops.ExistsEach, Ops.Purge, Decimals.FormatInt, Decimals.ParseInt;
    match op
    case Set(j, text, ttl) => StoreLeaves(s, j, Record(StringV(text), if ttl > 0 then Some(now + ttl) else None), now, k);
    case Delete(keys) => DeleteLeaves(s, keys, k);
    case Exists(keys) => ExistsLeaves(s, keys, now, k);
    case Expire(j, ttl) =>
      DeleteLeaves(s, [j], k);
      PurgeLeaves(s, j, now, k);
      if Ops.Live(s, j, now) {
        StoreLeaves(s, j, s.data[j].(ttl := Some(now + ttl)), now, k);
      }
    case Incr(j) =>
      StoreLeaves(s, j, Record(StringV(Decimals.FormatInt(1)), None), now, k);
      if Ops.Live(s, j, now) && s.data[j].value.StringV? && Decimals.ParseInt(s.data[j].value.text).Some? {
        var next := Ops.Wrap64(Decimals.ParseInt(s.data[j].value.text).value + 1);
        StoreLeaves(s, j, s.data[j].(value := StringV(Decimals.FormatInt(next))), now, k);
      }
  }

  lemma ContainersLeave(c: Config, s: State, op: Op, now: int, k: Bytes)
    requires Consistent(s) && (op.SAdd? || op.SRem? || op.ZAdd? || op.ZRem?) && !Writes(op, k)
    ensures Left(s.data, Effect(c, s, op, now).0.data, k)
  {
    var j := op.key;
    PurgeLeaves(s, j, now, k);
    StoreLeaves(s, j, Record(StringV([]), None), now, k);
    hide Consistent, Ops.Store, Overwrite, DropEmptied, Ops.Purge, SortedSets.SetOf;
    if op.SAdd? {
      var new_ := SortedSets.SetOf(op.members);
      StoreLeaves(s, j, Record(SetV(new_), None), now, k);
      if Ops.Live(s, j, now) && s.data[j].value.SetV? {
        StoreLeaves(s, j, s.data[j].(value := SetV(s.data[j].value.members + new_)), now, k);
      }
    } else if op.ZAdd? {
      StoreLeaves(s, j, Record(ZSetV(op.scores), None), now, k);
      if Ops.Live(s, j, now) && s.data[j].value.ZSetV? {
        StoreLeaves(s, j, s.data[j].(value := ZSetV(s.data[j].value.scores + op.scores)), now, k);
      }
    } else if op.SRem? && Ops.Live(s, j, now) && s.data[j].value.SetV? {
      var all := s.data[j].value.members;
      StoreLeaves(s, j, s.data[j].(value := SetV(all - SortedSets.SetOf(op.members) * all)), now, k);
    } else if op.ZRem? && Ops.Live(s, j, now) && s.data[j].value.ZSetV? {
      var all := s.data[j].value.scores;
      StoreLeaves(s, j, s.data[j].(value := ZSetV(all - SortedSets.SetOf(op.members) * all.Keys)), now, k);
    }
  }

  lemma CreationsLeave(c: Config, s: State, op: Op, now: int, k: Bytes)
    requires Consistent(s) && (op.CmsInit? || op.BfReserve?) && !Writes(op, k)
    ensures Left(s.data, Effect(c, s, op, now).0.data, k)
  {
    hide Consistent, Front, Ops.Store, Ops.EmptyBloom;
    if op.CmsInit? && op.width > 0 && op.depth > 0 {
      StoreLeaves(s, op.key, Record(SketchV(CountMin.EmptySketch(op.width, op.depth)), None), now, k);
    } else if op.BfReserve? && op.size.Some? {
      StoreLeaves(s, op.key, Record(BloomV(Ops.EmptyBloom(op.size.value)), None), now, k);
    }
  }

  lemma IncrByLeaves(c: Config, s: State, op: Op, now: int, k: Bytes)
    requires Consistent(s) && op.CmsIncrBy? && !Writes(op, k)
    ensures Left(s.data, Effect(c, s, op, now).0.data, k)
  {
    hide NoDuplicates, KeySet, Front, CountMin.IncrementAll;
  }

  lemma MergeLeaves(c: Config, s: State, op: Op, now: int, k: Bytes)
    requires Consistent(s) && op.CmsMerge? && !Writes(op, k)
    ensures Left(s.data, Effect(c, s, op, now).0.data, k)
  {
    hide Consistent, Ops.Store, Ops.CmsSources, CountMin.MergeAll;
    if 0 < |op.keys| == |op.weights| {
      SourcesData(s, op.keys, now);
      Ops.CmsSourcesShaped(s, op.keys, now);
      var (t, error, sources) := Ops.CmsSources(s, op.keys, now);
      if error.None? && CountMin.MergeAll(sources, op.weights).Merged? {
        StoreLeaves(t, op.key, Record(SketchV(CountMin.MergeAll(sources, op.weights).sketch), None), now, k);
      }
    }
  }

  lemma AdditionLeaves(c: Config, s: State, op: Op, now: int, k: Bytes)
    requires Consistent(s) && op.BfAdd? && !Writes(op, k)
    ensures Left(s.data, Effect(c, s, op, now).0.data, k) && Left(s.data, Ops.BfCreate(s, op.key, c.size, now).data, k)
  {
    hide NoDuplicates, KeySet, Front, Ops.Store, Ops.EmptyBloom, Ops.AddEach;
    StoreLeaves(s, op.key, Record(BloomV(Ops.EmptyBloom(c.size)), None), now, k);
  }

  lemma EffectLeaves(c: Config, s: State, op: Op, now: int, k: Bytes)
    requires Consistent(s) && !Writes(op, k)
    ensures Left(s.data, Effect(c, s, op, now).0.data, k)
  {
    hide Consistent, Left, Effect;
    if op.Set? || op.Incr? || op.Expire? || op.Delete? || op.Exists? {
      StringsLeave(c, s, op, now, k);
    } else if op.SAdd? || op.SRem? || op.ZAdd? || op.ZRem? {
      ContainersLeave(c, s, op, now, k);
    } else if op.CmsInit? || op.BfReserve? {
      CreationsLeave(c, s, op, now, k);
    } else if op.CmsIncrBy? {
      IncrByLeaves(c, s, op, now, k);
    } else if op.CmsMerge? {
      MergeLeaves(c, s, op, now, k);
    } else if op.BfAdd? {
      AdditionLeaves(c, s, op, now, k);
    } else {
      ReadLeaves(c, s, op, now, k);
    }
  }

  lemma SettledLeaves(lim: Limits, exact: bool, pre: State, post: State, k: Bytes)
    requires Settled(lim, exact, pre, post)
    ensures Left(pre.data, post.data, k)
  {
    hide Consistent, Over, Fit, EvictsInTurn;
  }

  lemma FilledLeaves(mid: State, h: Hash, j: Bytes, items: seq<Bytes>, size: Ops.BloomSize, k: Bytes)
    requires k != j
    ensures Left(mid.data, Ops.BfFilled(mid, h, j, items, size).0.data, k)
  {
    hide Ops.AddEach, Ops.EmptyBloom;
  }

  /** A command leaves the records of all other keys alone: whatever is still there is as it was. */
  lemma OthersUntouched(c: Config, s: State, op: Op, now: int, t: State, answer: Ops.Answer, k: Bytes)
    requires Consistent(s) && Step(c, s, op, now, t, answer) && !Writes(op, k)
    ensures k in t.data ==> k in s.data && t.data[k] == s.data[k]
  {
    EffectLeaves(c, s, op, now, k);
    hide Consistent, Settled, Effect, Ops.BfAddLive, Ops.BfFilled, Ops.BfCreate;
    if op.BfAdd? && !Ops.Live(s, op.key, now) {
      var made := Ops.BfCreate(s, op.key, c.size, now);
      var mid :| Settled(c.lim, c.exact, made, mid) && Ops.BfFilled(mid, c.hash, op.key, op.items, c.size) == (t, answer);
      AdditionLeaves(c, s, op, now, k);
      SettledLeaves(c.lim, c.exact, made, mid, k);
      FilledLeaves(mid, c.hash, op.key, op.items, c.size, k);
    } else if Evicts(op) {
      SettledLeaves(c.lim, c.exact, Effect(c, s, op, now).0, t, k);
    } else {
      BfAddLiveIs(c, s, op, now, t, answer);
    }
  }

  // ----- strings and times -----

  /** GET answers the text of a live string, and nothing else; it changes no record but a stale one. */
  lemma GetTells(s: State, k: Bytes, now: int, text: Bytes)
    ensures Ops.Get(s, k, now).1 == Ops.Text(Some(text)) <==> There(s, k, now) && s.data[k].value == StringV(text)
    ensures Ops.Get(s, k, now).1 == Ops.Text(None) <==> !There(s, k, now) || !s.data[k].value.StringV?
  {
    hide Front, Without;
  }

  /** What SET leaves, whatever was there. */
  lemma SetLeaves(s: State, k: Bytes, text: Bytes, ttl: int, now: int)
    ensures var t := Ops.Set(s, k, text, ttl, now).0;
      k in t.data && t.data[k].value == StringV(text) && t.data[k].ttl == if ttl <= 0 then None else Some(now + ttl)
  {
    hide Front, Without;
  }

  /** After a SET that was not evicted at once, GET answers the text until its time is over, and not after. */
  lemma SetThenGet(c: Config, s: State, k: Bytes, text: Bytes, ttl: int, now: int, t: State, answer: Ops.Answer, later: int)
    requires Consistent(s) && Step(c, s, Set(k, text, ttl), now, t, answer) && k in t.data && later >= now
    ensures Ops.Get(t, k, later).1 == if ttl <= 0 || later <= now + ttl then Ops.Text(Some(text)) else Ops.Text(None)
    ensures answer == Ops.Done
  {
    SetLeaves(s, k, text, ttl, now);
    SettledLeaves(c.lim, c.exact, Ops.Set(s, k, text, ttl, now).0, t, k);
    hide Consistent, Settled, Ops.Set;
    GetTells(t, k, later, text);
    hide Ops.Get;
  }

  /** TTL: -2 for no key and at the very end, -1 for no deadline, otherwise whole seconds left, rounded down. */
  lemma TtlTells(s: State, k: Bytes, now: int) returns (n: int)
    ensures Ops.Ttl(s, k, now).1 == Ops.Number(n)
    ensures n == -2 <==> !There(s, k, now) || s.data[k].ttl == Some(now)
    ensures n == -1 <==> There(s, k, now) && s.data[k].ttl == None
    ensures n < -2 ==> false
    ensures n >= 0 ==> There(s, k, now) && s.data[k].ttl.Some? && n * 1_000_000_000 <= s.data[k].ttl.value - now < (n + 1) * 1_000_000_000
  {
    hide Without;
    n := Ops.Ttl(s, k, now).1.n;
  }

  /** EXPIRE: a positive time is set on a live key, whose value stays; no time at all deletes. */
  lemma ExpireSets(s: State, k: Bytes, ttl: int, now: int)
    ensures var (t, answer) := Ops.Expire(s, k, ttl, now);
      && (ttl > 0 ==> answer == Ops.Flag(There(s, k, now)))
      && (ttl > 0 && There(s, k, now) ==> k in t.data && t.data[k] == Record(s.data[k].value, Some(now + ttl)))
      && (ttl > 0 && !There(s, k, now) ==> k !in t.data)
      && (ttl <= 0 ==> answer == Ops.Flag(k in s.data) && k !in t.data)
  {
    DeleteOne(s, k);
    hide Front, Without, Ops.DeleteEach;
  }

  lemma DeleteOne(s: State, k: Bytes)
    ensures Ops.DeleteEach(s, [k]) == if k in s.data then (DropDeleted(s, k), 1) else (s, 0)
  {
    hide Without;
    var t := if k in s.data then DropDeleted(s, k) else s;
    assert [k][1..] == [];
    assert Ops.DeleteEach(t, []) == (t, 0);
  }

  /** The key listed i-th from the end is live. */
  ghost predicate LiveAt(s: State, keys: seq<Bytes>, now: int, i: nat) {
    1 <= i <= |keys| && There(s, keys[|keys| - i], now)
  }

  ghost function LiveAmong(s: State, keys: seq<Bytes>, now: int): set<nat> {
    set i: nat | i <= |keys| && LiveAt(s, keys, now, i)
  }

  /** EXISTS counts the listed live keys, repetitions included. */
  lemma {:induction false} ExistsCounts(s: State, keys: seq<Bytes>, now: int)
    ensures Ops.ExistsEach(s, keys, now).1 == |LiveAmong(s, keys, now)|
    decreases |keys|
  {
    if keys == [] {
      assert LiveAmong(s, keys, now) == {};
    } else {
      ExistsCounts(Ops.Purge(s, keys[0], now), keys[1..], now);
      ThereLives(s, keys[0], now);
      LiveSplit(s, keys, now);
      hide LiveAmong, There, Ops.Live, Ops.Purge;
    }
  }

  lemma LiveSplit(s: State, keys: seq<Bytes>, now: int)
    requires keys != []
    ensures |LiveAmong(s, keys, now)|
      == |LiveAmong(Ops.Purge(s, keys[0], now), keys[1..], now)| + if There(s, keys[0], now) then 1 else 0
  {
    var all, rest := LiveAmong(s, keys, now), LiveAmong(Ops.Purge(s, keys[0], now), keys[1..], now);
    assert LiveAt(s, keys, now, |keys|) <==> There(s, keys[0], now);
    forall i: nat | i < |keys| ensures LiveAt(Ops.Purge(s, keys[0], now), keys[1..], now, i) <==> LiveAt(s, keys, now, i) {
      if i > 0 {
        PurgeThere(s, keys[0], now, keys[|keys| - i]);
      }
      hide There, Ops.Purge;
    }
    hide LiveAt;
    assert all == if There(s, keys[0], now) then rest + {|keys|} else rest by {
      hide There, Ops.Purge;
    }
  }

  lemma PurgeThere(s: State, j: Bytes, now: int, k: Bytes)
    ensures There(Ops.Purge(s, j, now), k, now) <==> There(s, k, now)
  {
    hide Without;
  }

  /** The integer after n, around the end of the 64-bit range. */
  function Next(n: int): int {
    if n == 9223372036854775807 then -9223372036854775808 else n + 1
  }

  /** What INCR answers: 1 for an absent key, the next integer for a text that writes one, an error for the rest. */
  lemma IncrTells(s: State, k: Bytes, now: int)
    ensures var answer := Ops.Incr(s, k, now).1;
      if !There(s, k, now) then answer == Ops.Number(1)
      else if !s.data[k].value.StringV? then answer == Ops.NotInteger
      else if exists n :: InRange(n) && Decimals.Writes(s.data[k].value.text, n) then
        exists n :: InRange(n) && Decimals.Writes(s.data[k].value.text, n) && answer == Ops.Number(Next(n))
      else answer == Ops.NotInteger
  {
    ThereLives(s, k, now);
    if There(s, k, now) && s.data[k].value.StringV? {
      var text := s.data[k].value.text;
      forall n ensures Decimals.ParseInt(text) == Some(n) <==> InRange(n) && Decimals.Writes(text, n) {
        Decimals.ParseMeans(text, n);
      }
    }
    hide There, Front, Ops.Store, Decimals.ParseInt, Decimals.FormatInt, Decimals.Writes;
  }

  predicate InRange(n: int) {
    -9223372036854775808 <= n <= 9223372036854775807
  }

  /** What INCR leaves: an error leaves everything; otherwise the key holds the answer in decimal, and keeps its
      deadline. */
  lemma IncrLeaves(s: State, k: Bytes, now: int)
    ensures var (t, answer) := Ops.Incr(s, k, now);
      if !answer.Number? then t == s
      else
        && (There(s, k, now) ==> s.data[k].value.StringV?)
        && k in t.data && t.data[k].value == StringV(Decimals.FormatInt(answer.n))
        && Decimals.ParseInt(Decimals.FormatInt(answer.n)) == Some(answer.n)
        && t.data[k].ttl == if There(s, k, now) then s.data[k].ttl else None
  {
    ThereLives(s, k, now);
    var answer := Ops.Incr(s, k, now).1;
    if There(s, k, now) && s.data[k].value.StringV? && Decimals.ParseInt(s.data[k].value.text).Some? {
      Decimals.ParseMeans(s.data[k].value.text, Decimals.ParseInt(s.data[k].value.text).value);
    }
    if answer.Number? {
      hide There, Front, Without, Ops.Store, Decimals.ParseInt, Decimals.FormatInt, Decimals.Writes;
      Decimals.ParseFormat(answer.n);
    }
    hide There, Front, Without, Decimals.ParseInt, Decimals.FormatInt, Decimals.Writes;
  }

  // ----- sets -----

  /** Some of `names` that were not in `old_`, or that were. */
  ghost function NewAmong(names: seq<Bytes>, old_: set<Bytes>): set<Bytes> {
    set x | x in names && x !in old_
  }

  ghost function OldAmong(names: seq<Bytes>, old_: set<Bytes>): set<Bytes> {
    set x | x in names && x in old_
  }

  /** The members of the live set at a key; none if there is none. */
  ghost function MembersAt(s: State, k: Bytes, now: int): set<Bytes> {
    if There(s, k, now) && s.data[k].value.SetV? then s.data[k].value.members else {}
  }

  lemma SetOfIs(names: seq<Bytes>, old_: set<Bytes>)
    ensures SortedSets.SetOf(names) - old_ == NewAmong(names, old_) && SortedSets.SetOf(names) * old_ == OldAmong(names, old_)
    ensures old_ == {} ==> SortedSets.SetOf(names) == NewAmong(names, old_)
  {
  }

  /** SADD answers how many of the names are new, and leaves the old members and all the names. */
  lemma SAddTells(s: State, k: Bytes, names: seq<Bytes>, now: int)
    ensures var (t, answer) := Ops.SAdd(s, k, names, now);
      if There(s, k, now) && !s.data[k].value.SetV? then (t, answer) == (s, Ops.WrongType)
      else
        && answer == Ops.Number(|NewAmong(names, MembersAt(s, k, now))|)
        && k in t.data && t.data[k].value.SetV?
        && (forall x :: x in t.data[k].value.members <==> x in names || x in MembersAt(s, k, now))
        && t.data[k].ttl == if There(s, k, now) then s.data[k].ttl else None
  {
    ThereLives(s, k, now);
    SetOfIs(names, MembersAt(s, k, now));
    hide There, Front, Without, NewAmong, OldAmong;
  }

  /** SREM answers how many of the names were members, and leaves the others; without any, the key goes. */
  lemma SRemTells(s: State, k: Bytes, names: seq<Bytes>, now: int)
    ensures var (t, answer) := Ops.SRem(s, k, names, now);
      if There(s, k, now) && !s.data[k].value.SetV? then (t, answer) == (s, Ops.WrongType)
      else
        && answer == Ops.Number(|OldAmong(names, MembersAt(s, k, now))|)
        && (k in t.data <==> There(s, k, now) && Leaves(MembersAt(s, k, now), names))
        && (k in t.data ==> t.data[k].value.SetV? && t.data[k].ttl == s.data[k].ttl)
        && (k in t.data ==> forall x :: x in t.data[k].value.members <==> x in MembersAt(s, k, now) && x !in names)
  {
    ThereLives(s, k, now);
    SetOfIs(names, MembersAt(s, k, now));
    if There(s, k, now) && s.data[k].value.SetV? {
      LeavesSome(s.data[k].value.members, names);
      assert forall x :: x in SortedSets.SetOf(names) <==> x in names;
    }
    hide There, Leaves, Front, Without, NewAmong, OldAmong, SortedSets.SetOf;
  }

  /** SISMEMBER and SMEMBERS read the same set. */
  lemma SetReadsTell(s: State, k: Bytes, x: Bytes, now: int)
    ensures var (member, all) := (Ops.SIsMember(s, k, x, now).1, Ops.SMembers(s, k, now).1);
      if There(s, k, now) && !s.data[k].value.SetV? then member == all == Ops.WrongType
      else
        && member == Ops.Number(if x in MembersAt(s, k, now) then 1 else 0)
        && all.Names? && (x in all.names <==> x in MembersAt(s, k, now))
  {
    ThereLives(s, k, now);
    SortedNames.NamesAscend(MembersAt(s, k, now));
    hide There, Front, Without, SortedNames.NamesOf;
  }

  // ----- sorted sets -----

  ghost function ScoresAt(s: State, k: Bytes, now: int): map<Bytes, Score> {
    if There(s, k, now) && s.data[k].value.ZSetV? then s.data[k].value.scores else map[]
  }

  /** ZADD answers how many members are new, and leaves the given scores over the old ones. */
  lemma ZAddTells(s: State, k: Bytes, scores: map<Bytes, Score>, now: int)
    ensures var (t, answer) := Ops.ZAdd(s, k, scores, now);
      if There(s, k, now) && !s.data[k].value.ZSetV? then (t, answer) == (s, Ops.WrongType)
      else
        && answer == Ops.Number(|set x | x in scores && x !in ScoresAt(s, k, now)|)
        && k in t.data && t.data[k].value.ZSetV?
        && (forall x :: x in scores ==> x in t.data[k].value.scores && t.data[k].value.scores[x] == scores[x])
        && (forall x :: x !in scores && x in ScoresAt(s, k, now) ==>
          x in t.data[k].value.scores && t.data[k].value.scores[x] == ScoresAt(s, k, now)[x])
        && (forall x :: x in t.data[k].value.scores ==> x in scores || x in ScoresAt(s, k, now))
        && t.data[k].ttl == if There(s, k, now) then s.data[k].ttl else None
  {
    ThereLives(s, k, now);
    var old_ := ScoresAt(s, k, now);
    assert scores.Keys - old_.Keys == set x | x in scores && x !in old_;
    assert old_ == map[] ==> scores.Keys == set x | x in scores && x !in old_;
    hide There, Front, Without;
  }

  /** ZREM answers how many of the names were members, and leaves the others their scores. */
  lemma ZRemTells(s: State, k: Bytes, names: seq<Bytes>, now: int)
    ensures var (t, answer) := Ops.ZRem(s, k, names, now);
      if There(s, k, now) && !s.data[k].value.ZSetV? then (t, answer) == (s, Ops.WrongType)
      else
        && answer == Ops.Number(|OldAmong(names, ScoresAt(s, k, now).Keys)|)
        && (k in t.data <==> There(s, k, now) && Leaves(ScoresAt(s, k, now).Keys, names))
        && (k in t.data ==> t.data[k].value.ZSetV? && t.data[k].ttl == s.data[k].ttl)
        && (k in t.data ==> forall x :: x in t.data[k].value.scores <==> x in ScoresAt(s, k, now) && x !in names)
        && (k in t.data ==> forall x :: x in t.data[k].value.scores ==> t.data[k].value.scores[x] == ScoresAt(s, k, now)[x])
  {
    ThereLives(s, k, now);
    SetOfIs(names, ScoresAt(s, k, now).Keys);
    if There(s, k, now) && s.data[k].value.ZSetV? {
      LeavesSome(s.data[k].value.scores.Keys, names);
      assert forall x :: x in SortedSets.SetOf(names) <==> x in names;
    }
    hide There, Leaves, Front, Without, NewAmong, OldAmong, SortedSets.SetOf;
  }

  /** ZSCORE, ZRANK and ZRANGE read the scores; an absent set is an empty one. */
  lemma ZAskTells(s: State, k: Bytes, x: Bytes, start: int, stop: int, now: int)
    ensures var m := ScoresAt(s, k, now);
      if There(s, k, now) && !s.data[k].value.ZSetV? then
        Ops.ZAsk(s, k, SortedSets.ScoreOf(x), now).1 == Ops.ZAsk(s, k, SortedSets.RankIn(x), now).1
          == Ops.ZAsk(s, k, SortedSets.Between(start, stop), now).1 == Ops.WrongType
      else
        && Ops.ZAsk(s, k, SortedSets.ScoreOf(x), now).1
          == Ops.Sorted(if x in m then SortedSets.Scored(m[x], true) else SortedSets.Scored(Finite(0.0), false))
        && Ops.ZAsk(s, k, SortedSets.RankIn(x), now).1
          == Ops.Sorted(if x in m then SortedSets.Ranked(RankOf(m, x), true) else SortedSets.Ranked(0, false))
        && Ops.ZAsk(s, k, SortedSets.Between(start, stop), now).1 == Ops.Sorted(SortedSets.Names(RangeOf(m, start, stop)))
  {
    ThereLives(s, k, now);
    hide There, Front, RankOf, RangeOf;
  }

  // ----- sketches -----

  /** CMS.INIT makes an empty sketch of the size asked for, unless the size is none or the key is taken. */
  lemma CmsInitTells(s: State, k: Bytes, width: nat, depth: nat, now: int)
    ensures var (t, answer) := Ops.CmsInit(s, k, width, depth, now);
      if !(1 <= width <= 0x7FFF_FFFF_FFFF_FFFF && 1 <= depth <= 0x7FFF_FFFF_FFFF_FFFF) then (t, answer) == (s, Ops.Incompatible)
      else if There(s, k, now) then (t, answer) == (s, Ops.KeyExists)
      else answer == Ops.Done && k in t.data && t.data[k].ttl == None && t.data[k].value.SketchV? && Untouched(t.data[k].value.sketch, width, depth)
  {
    ThereLives(s, k, now);
    hide There, Front, Without;
  }

  /** A sketch in which nothing was counted. */
  ghost predicate Untouched(sketch: CountMin.Sketch, width: nat, depth: nat) {
    && sketch.width == width && sketch.depth == depth == |sketch.rows| && sketch.count == 0
    && forall r :: 0 <= r < depth ==> |sketch.rows[r]| == width && forall c :: 0 <= c < width ==> sketch.rows[r][c] == 0
  }

  /** Looking for a sketch where there is none, or something else. */
  lemma NoSketch(c: Config, s: State, op: Op, now: int)
    requires Consistent(s) && (op.CmsIncrBy? || op.CmsQuery? || op.CmsInfo?)
    ensures Effect(c, s, op, now).1 == Ops.NotFound <==> !There(s, op.key, now)
    ensures Effect(c, s, op, now).1 == Ops.WrongType <==> There(s, op.key, now) && !s.data[op.key].value.SketchV?
    ensures !There(s, op.key, now) || !s.data[op.key].value.SketchV? ==> Effect(c, s, op, now).0 == s
  {
    ThereLives(s, op.key, now);
    hide There, Front, NoDuplicates, KeySet, CountMin.Query, CountMin.IncrementAll;
  }

  /** CMS.QUERY answers, item by item, the smallest of the item's counters; CMS.INFO the sizes and the count. */
  lemma CmsReadsTell(c: Config, s: State, k: Bytes, items: seq<Bytes>, now: int, i: nat)
    requires Consistent(s) && There(s, k, now) && s.data[k].value.SketchV? && i < |items|
    ensures var f := s.data[k].value.sketch;
      && CountMin.Shaped(f)
      && Ops.CmsInfo(s, k, now).1 == Ops.Info([f.width, f.depth, f.count])
      && var answer := Ops.CmsQuery(s, c.hash, k, items, now).1;
      answer.Counts? && |answer.counts| == |items| && CountMin.SmallestFrom(c.hash, f, items[i], 0, answer.counts[i])
  {
    var f := s.data[k].value.sketch;
    assert ShapedValue(SketchV(f));
    CountMin.QueryFromIsSmallest(c.hash, f, items[i], 0);
    CountMin.QueryIs(c.hash, f, items[i]);
    hide CountMin.SmallestFrom, CountMin.Query, CountMin.QueryFrom, Front, NoDuplicates, KeySet;
  }

  /** CMS.INCRBY answers, for each increment, the smallest counter of its item right after it. */
  lemma CmsIncrByTells(c: Config, s: State, k: Bytes, batch: seq<CountMin.Increment>, now: int, i: nat)
    requires Consistent(s) && There(s, k, now) && s.data[k].value.SketchV? && i < |batch|
    requires Ops.CmsIncrBy(s, c.hash, k, batch, now).1 != Ops.Overflow
    ensures var answer := Ops.CmsIncrBy(s, c.hash, k, batch, now).1;
      answer.Counts? && |answer.counts| == |batch|
      && CountMin.Shaped(s.data[k].value.sketch)
      && CountMin.SmallestFrom(c.hash, CountMin.IncrementAll(c.hash, s.data[k].value.sketch, batch[..i + 1]).0, batch[i].item, 0, answer.counts[i])
  {
    var f := s.data[k].value.sketch;
    assert ShapedValue(SketchV(f));
    hide CountMin.SmallestFrom, CountMin.IncrementAll, CountMin.Shaped, Front, NoDuplicates, KeySet;
    assert CountMin.IncrementAll(c.hash, f, batch).1.Some?;
    CountMin.BatchAnswers(c.hash, f, batch, i);
  }

  /** CMS.MERGE takes its sources in order, and fails at the first that is none. */
  lemma {:induction false} SourcesTell(s: State, keys: seq<Bytes>, now: int)
    ensures var (_, error, sketches) := Ops.CmsSources(s, keys, now);
      && |sketches| <= |keys|
      && (forall i :: 0 <= i < |sketches| ==> There(s, keys[i], now) && s.data[keys[i]].value == SketchV(sketches[i]))
      && (error == None <==> |sketches| == |keys|)
      && (error == Some(Ops.NotFound) <==> |sketches| < |keys| && !There(s, keys[|sketches|], now))
      && (error == Some(Ops.WrongType) <==> |sketches| < |keys| && There(s, keys[|sketches|], now) && !s.data[keys[|sketches|]].value.SketchV?)
    decreases |keys|
  {
    hide Front;
    if keys != [] {
      ThereLives(s, keys[0], now);
      if Ops.SketchError(s, keys[0], now).None? {
        SourcesTell(Touch(s, keys[0]), keys[1..], now);
      }
    }
  }

  /** What CMS.MERGE makes of its sources; it writes only over a sketch, or where nothing is. */
  lemma MergeTells(s: State, k: Bytes, keys: seq<Bytes>, weights: seq<CountMin.uint64>, now: int)
    requires Consistent(s)
    ensures var (t, answer) := Ops.CmsMerge(s, k, keys, weights, now);
      if keys == [] || |keys| != |weights| then (t, answer) == (s, Ops.Incompatible)
      else if Ops.CmsSources(s, keys, now).1.Some? then answer == Ops.CmsSources(s, keys, now).1.value
      else
        var sketches := Ops.CmsSources(s, keys, now).2;
        |sketches| == |weights| && (forall i :: 0 <= i < |sketches| ==> CountMin.Shaped(sketches[i]))
        && match CountMin.MergeAll(sketches, weights)
        case Incompatible => answer == Ops.Incompatible
        case Overflow => answer == Ops.Overflow
        case Merged(sketch) =>
          if There(s, k, now) && !s.data[k].value.SketchV? then answer == Ops.WrongType
          else answer == Ops.Done && k in t.data && t.data[k] == Record(SketchV(sketch), None)
  {
    if 0 < |keys| == |weights| {
      Ops.CmsSourcesShaped(s, keys, now);
      ThereLives(s, k, now);
      ThereLives(Ops.CmsSources(s, keys, now).0, k, now);
      hide Consistent, Ops.CmsSources, CountMin.MergeAll, CountMin.Shaped, Front, Without;
    }
  }

  // ----- filters -----

  /** BF.RESERVE makes an empty filter of the size worked out, unless there is none or the key is taken. */
  lemma BfReserveTells(s: State, k: Bytes, size: Option<Ops.BloomSize>, now: int, p: nat)
    ensures var (t, answer) := Ops.BfReserve(s, k, size, now);
      if size == None then (t, answer) == (s, Ops.Incompatible)
      else if There(s, k, now) then (t, answer) == (s, Ops.KeyExists)
      else answer == Ops.Done && k in t.data && t.data[k].ttl == None && t.data[k].value.BloomV? && Blank(t.data[k].value.filter, size.value)
  {
    ThereLives(s, k, now);
    if size.Some? {
      BloomFilters.ZeroWords(Ops.EmptyBloom(size.value));
    }
    hide There, Front, Without;
  }

  /** A filter of the given size to which nothing was added. */
  ghost predicate Blank(f: BloomFilters.Bloom, size: Ops.BloomSize) {
    && BloomFilters.Shaped(f) && BloomFilters.Ones(f) == {}
    && f.bitCount == size.bitCount && f.hashCount == size.hashCount && f.capacity == size.capacity && f.count == 0
  }

  /** BF.ADD on an absent key starts from an empty filter of the default size. */
  lemma BfAddCreates(c: Config, s: State, k: Bytes, items: seq<Bytes>, now: int)
    requires Consistent(s) && !There(s, k, now)
    ensures var m := ToEvict(c, s, BfAdd(k, items), now);
      k in m.data && m.data[k].ttl == None && m.data[k].value.BloomV? && Blank(m.data[k].value.filter, c.size)
  {
    ThereLives(s, k, now);
    BloomFilters.ZeroWords(Ops.EmptyBloom(c.size));
    hide Consistent, There, Front, Without, Ops.AddEach;
  }

  /** BF.EXISTS answers, item by item, whether all the bits of the item are set; without a filter, no. BF.INFO
      answers the capacity, the bytes of its words, the hash functions and the items that were new. */
  lemma BfReadsTell(c: Config, s: State, k: Bytes, items: seq<Bytes>, now: int, i: nat)
    requires Consistent(s) && i < |items|
    ensures var (found, info) := (Ops.BfExists(s, c.hash, k, items, now).1, Ops.BfInfo(s, k, now).1);
      if !There(s, k, now) then found.Bits? && |found.bits| == |items| && !found.bits[i] && info == Ops.NotFound
      else if !s.data[k].value.BloomV? then found == info == Ops.WrongType
      else
        var f := s.data[k].value.filter;
        && BloomFilters.Shaped(f)
        && found.Bits? && |found.bits| == |items|
        && (found.bits[i] <==> forall n :: 0 <= n < f.hashCount ==> BloomFilters.HasBit(f.bits, c.hash(items[i], n) % f.bitCount))
        && info == Ops.Info([f.capacity, (f.bitCount + 63) / 64 * 8, f.hashCount, f.count])
  {
    ThereLives(s, k, now);
    if There(s, k, now) && s.data[k].value.BloomV? {
      assert ShapedValue(s.data[k].value);
      BloomFilters.HasMeans(c.hash, s.data[k].value.filter, items[i]);
    }
    hide There, BloomFilters.HasBit, BloomFilters.Has, Front, NoDuplicates, KeySet;
  }

  /** BF.ADD and BF.MADD answer, item by item, whether it was not found in the filter with the earlier ones in. */
  lemma {:induction false} AdditionsTell(h: Hash, f: BloomFilters.Bloom, items: seq<Bytes>, i: nat)
    requires BloomFilters.Shaped(f) && i < |items|
    ensures |Ops.AddEach(h, f, items).1| == |items|
    ensures Ops.AddEach(h, f, items).1[i] <==> !BloomFilters.Has(h, BloomFilters.AddAll(h, f, items[..i]), items[i])
    decreases |items|
  {
    hide BloomFilters.Add, BloomFilters.Has, BloomFilters.Shaped;
    var g := BloomFilters.Add(h, f, items[0]);
    if i > 0 {
      AdditionsTell(h, g, items[1..], i - 1);
      assert items[..i][1..] == items[1..][..i - 1];
    } else {
      AdditionsLength(h, g, items[1..]);
    }
  }

  lemma {:induction false} AdditionsLength(h: Hash, f: BloomFilters.Bloom, items: seq<Bytes>)
    requires BloomFilters.Shaped(f)
    ensures |Ops.AddEach(h, f, items).1| == |items|
    decreases |items|
  {
    hide BloomFilters.Add, BloomFilters.Has, BloomFilters.Shaped;
    if items != [] {
      AdditionsLength(h, BloomFilters.Add(h, f, items[0]), items[1..]);
    }
  }

  /** The filter that BF.ADD works on: the live one, or an empty one of the default size. */
  ghost function FilterFor(c: Config, s: State, k: Bytes, now: int): (f: BloomFilters.Bloom)
    requires Consistent(s) && (There(s, k, now) ==> s.data[k].value.BloomV?)
    ensures BloomFilters.Shaped(f)
  {
    assert There(s, k, now) ==> ShapedValue(s.data[k].value);
    if There(s, k, now) then s.data[k].value.filter else Ops.EmptyBloom(c.size)
  }

  lemma FillingTells(mid: State, h: Hash, k: Bytes, items: seq<Bytes>, size: Ops.BloomSize)
    ensures var (t, answer) := Ops.BfFilled(mid, h, k, items, size);
      && answer == Ops.Bits(Ops.AddEach(h, Ops.EmptyBloom(size), items).1)
      && (k in t.data ==> k in mid.data && t.data[k] == Record(BloomV(BloomFilters.AddAll(h, Ops.EmptyBloom(size), items)), mid.data[k].ttl))
  {
    AddEachIs(h, Ops.EmptyBloom(size), items);
    hide Ops.AddEach, Ops.EmptyBloom, BloomFilters.AddAll;
  }

  lemma LiveAdditionTells(s: State, h: Hash, k: Bytes, items: seq<Bytes>)
    requires Consistent(s) && k in s.data && s.data[k].value.BloomV?
    ensures BloomFilters.Shaped(s.data[k].value.filter)
    ensures var (t, answer) := Ops.BfAddLive(s, h, k, items);
      && answer == Ops.Bits(Ops.AddEach(h, s.data[k].value.filter, items).1)
      && k in t.data && t.data[k] == Record(BloomV(BloomFilters.AddAll(h, s.data[k].value.filter, items)), s.data[k].ttl)
  {
    assert ShapedValue(s.data[k].value);
    AddEachIs(h, s.data[k].value.filter, items);
    hide Ops.AddEach, BloomFilters.AddAll, BloomFilters.Shaped, Front, NoDuplicates, KeySet;
  }

  /** BF.ADD and BF.MADD, live or new filter: each answer, and the filter that is left, if it is. */
  lemma BfAddTells(c: Config, s: State, k: Bytes, items: seq<Bytes>, now: int, t: State, answer: Ops.Answer, i: nat)
    requires Consistent(s) && Step(c, s, BfAdd(k, items), now, t, answer) && i < |items|
    ensures if There(s, k, now) && !s.data[k].value.BloomV? then (t, answer) == (s, Ops.WrongType)
      else
        var f := FilterFor(c, s, k, now);
        && answer.Bits? && |answer.bits| == |items|
        && (answer.bits[i] <==> !BloomFilters.Has(c.hash, BloomFilters.AddAll(c.hash, f, items[..i]), items[i]))
        && (k in t.data ==> t.data[k].value == BloomV(BloomFilters.AddAll(c.hash, f, items)))
  {
    ThereLives(s, k, now);
    if !There(s, k, now) || s.data[k].value.BloomV? {
      AdditionsTell(c.hash, FilterFor(c, s, k, now), items, i);
    }
    if !Ops.Live(s, k, now) {
      hide Consistent, There, Settled, Ops.BfCreate, Ops.BfFilled, Ops.AddEach, BloomFilters.AddAll, BloomFilters.Has, BloomFilters.Shaped;
      var mid :| Settled(c.lim, c.exact, Ops.BfCreate(s, k, c.size, now), mid) && Ops.BfFilled(mid, c.hash, k, items, c.size) == (t, answer);
      FillingTells(mid, c.hash, k, items, c.size);
    } else if s.data[k].value.BloomV? {
      LiveAdditionTells(s, c.hash, k, items);
      hide Consistent, There, Settled, Ops.BfAddLive, Ops.BfFilled, Ops.AddEach, BloomFilters.AddAll, BloomFilters.Has, BloomFilters.Shaped;
    } else {
      hide Consistent, There, Settled, Ops.BfFilled;
    }
  }

  // ----- sizes -----

  /** What a record weighs, piece by piece: its key, the bytes of a text, of every member, 8 more for a score, 8
      for every counter, 8 for every word of bits. */
  lemma Weights(k: Bytes, text: Bytes, members: set<Bytes>, scores: map<Bytes, Score>, x: Bytes, score: Score, ttl: Option<int>)
    ensures RecordSize(k, Record(StringV(text), ttl)) == |k| + |text|
    ensures RecordSize(k, Record(SetV({}), ttl)) == RecordSize(k, Record(ZSetV(map[]), ttl)) == |k|
    ensures x !in members ==> RecordSize(k, Record(SetV(members + {x}), ttl)) == RecordSize(k, Record(SetV(members), ttl)) + |x|
    ensures RecordSize(k, Record(ZSetV(scores[x := score]), ttl)) == RecordSize(k, Record(ZSetV(scores), ttl)) + if x in scores then 0 else |x| + 8
  {
    if x !in members {
      SumInsert(members, Length, x);
    }
    assert scores[x := score].Keys == scores.Keys + {x};
    if x !in scores {
      SumInsert(scores.Keys, SortedSets.MemberSize, x);
    } else {
      assert scores[x := score].Keys == scores.Keys;
    }
    var none: map<Bytes, Score> := map[];
    assert none.Keys == {};
  }

  lemma SketchWeights(k: Bytes, sketch: CountMin.Sketch, f: BloomFilters.Bloom, ttl: Option<int>)
    requires BloomFilters.Shaped(f)
    ensures RecordSize(k, Record(SketchV(sketch), ttl)) == |k| + sketch.width * sketch.depth * 8
    ensures RecordSize(k, Record(BloomV(f), ttl)) == |k| + (f.bitCount + 63) / 64 * 8
  {
  }

  // ----- hits and misses -----

  ghost predicate SameLooks(s: State, t: State) {
    t.tally.hits == s.tally.hits && t.tally.misses == s.tally.misses
  }

  lemma WritesUnlooked(s: State, k: Bytes, record: Record, now: int)
    ensures SameLooks(s, Ops.Store(s, k, record, now)) && SameLooks(s, Overwrite(s, k, record))
    ensures SameLooks(s, Ops.Purge(s, k, now)) && SameLooks(s, DropEmptied(s, k))
  {
    hide Front, Without;
  }

  lemma {:induction false} DeletesUnlooked(s: State, keys: seq<Bytes>)
    ensures SameLooks(s, Ops.DeleteEach(s, keys).0)
    decreases |keys|
  {
    hide Without;
    if keys != [] {
      DeletesUnlooked(if keys[0] in s.data then DropDeleted(s, keys[0]) else s, keys[1..]);
    }
  }

  lemma {:induction false} ExistsUnlooked(s: State, keys: seq<Bytes>, now: int)
    ensures SameLooks(s, Ops.ExistsEach(s, keys, now).0)
    decreases |keys|
  {
    hide Without;
    if keys != [] {
      ExistsUnlooked(Ops.Purge(s, keys[0], now), keys[1..], now);
    }
  }

  lemma StringsUnlooked(c: Config, s: State, op: Op, now: int)
    requires Consistent(s) && (op.Set? || op.Incr? || OnKeys(op))
    ensures SameLooks(s, Effect(c, s, op, now).0)
  {
    hide Consistent, SameLooks, Ops.Store, Ops.Purge, Overwrite, Ops.DeleteEach, Ops.ExistsEach, Decimals.ParseInt, Decimals.FormatInt;
    assert SameLooks(s, s) by { hide *; SameSelf(s); }
    match op
    case Set(k, text, ttl) => WritesUnlooked(s, k, Record(StringV(text), if ttl > 0 then Some(now + ttl) else None), now);
    case Delete(keys) => DeletesUnlooked(s, keys);
    case Exists(keys) => ExistsUnlooked(s, keys, now);
    case Ttl(k) => WritesUnlooked(s, k, Record(StringV([]), None), now);
    case Expire(k, ttl) =>
      DeletesUnlooked(s, [k]);
      WritesUnlooked(s, k, if k in s.data then s.data[k].(ttl := Some(now + ttl)) else Record(StringV([]), None), now);
    case Incr(k) =>
      WritesUnlooked(s, k, Record(StringV(Decimals.FormatInt(1)), None), now);
      if Ops.Live(s, k, now) && s.data[k].value.StringV? && Decimals.ParseInt(s.data[k].value.text).Some? {
        var next := Ops.Wrap64(Decimals.ParseInt(s.data[k].value.text).value + 1);
        WritesUnlooked(s, k, s.data[k].(value := StringV(Decimals.FormatInt(next))), now);
      }
    case Sweep => SweepUnlooked(s, now);
  }

  lemma SameSelf(s: State)
    ensures SameLooks(s, s)
  {
  }

  lemma SweepUnlooked(s: State, now: int)
    ensures SameLooks(s, Ops.Sweep(s, now))
  {
    hide Ops.StaleKeys, WithoutAll;
  }

  lemma ContainersUnlooked(c: Config, s: State, op: Op, now: int)
    requires Consistent(s) && (OnSets(op) || OnSortedSets(op))
    ensures SameLooks(s, Effect(c, s, op, now).0)
  {
    hide Consistent, Front, Without, SortedSets.SetOf, SortedSets.Asked;
  }

  lemma SketchesUnlooked(c: Config, s: State, op: Op, now: int)
    requires Consistent(s) && OnSketches(op) && !op.CmsMerge?
    ensures SameLooks(s, ToEvict(c, s, op, now))
  {
    hide NoDuplicates, KeySet, Front, Without, CountMin.Query, CountMin.IncrementAll;
  }

  lemma FiltersUnlooked(c: Config, s: State, op: Op, now: int)
    requires Consistent(s) && OnFilters(op)
    ensures SameLooks(s, ToEvict(c, s, op, now))
  {
    hide NoDuplicates, KeySet, Front, Without, Ops.EmptyBloom, Ops.AddEach, BloomFilters.Has;
  }

  lemma MergeUnlooked(c: Config, s: State, op: Op, now: int)
    requires Consistent(s) && op.CmsMerge?
    ensures SameLooks(s, ToEvict(c, s, op, now))
  {
    hide Consistent, Ops.CmsSources, CountMin.MergeAll, Front, Without;
    if 0 < |op.keys| == |op.weights| {
      Ops.CmsSourcesShaped(s, op.keys, now);
    }
  }

  lemma EffectLooks(c: Config, s: State, op: Op, now: int)
    requires Consistent(s) && !op.Get?
    ensures SameLooks(s, ToEvict(c, s, op, now))
  {
    if op.CmsMerge? {
      hide *;
      MergeUnlooked(c, s, op, now);
    } else if OnSketches(op) {
      hide *;
      SketchesUnlooked(c, s, op, now);
    } else if OnFilters(op) {
      hide *;
      FiltersUnlooked(c, s, op, now);
    } else {
      hide Consistent, Effect, SameLooks;
      if OnSets(op) || OnSortedSets(op) {
        ContainersUnlooked(c, s, op, now);
      } else {
        StringsUnlooked(c, s, op, now);
      }
    }
  }

  /** A GET that finds its key is a hit, any other GET a miss; nothing else counts as either. */
  lemma StepLooks(c: Config, s: State, op: Op, now: int, t: State, answer: Ops.Answer)
    requires Consistent(s) && Step(c, s, op, now, t, answer)
    ensures t.tally.hits == s.tally.hits + if op.Get? && answer != Ops.Text(None) then 1 else 0
    ensures t.tally.misses == s.tally.misses + if op.Get? && answer == Ops.Text(None) then 1 else 0
  {
    if op.Get? {
      hide Consistent, Front, Without;
    } else {
      EffectLooks(c, s, op, now);
      hide Consistent, Effect, Step, ToEvict, Settled;
      if Evicts(op) || (op.BfAdd? && !Ops.Live(s, op.key, now)) {
        var mid := StepSettles(c, s, op, now, t, answer);
        SettledLooks(c.lim, c.exact, ToEvict(c, s, op, now), mid);
      } else {
        BfAddLiveIs(c, s, op, now, t, answer);
        NotCreated(c, s, op, now);
      }
    }
  }

  lemma NotCreated(c: Config, s: State, op: Op, now: int)
    requires Consistent(s) && !(op.BfAdd? && !Ops.Live(s, op.key, now))
    ensures ToEvict(c, s, op, now) == Effect(c, s, op, now).0
  {
    hide Consistent, Effect;
  }

  lemma SettledLooks(lim: Limits, exact: bool, pre: State, post: State)
    requires Settled(lim, exact, pre, post)
    ensures SameLooks(pre, post)
  {
    hide Consistent, Over, Fit, Restrict, EvictsInTurn;
  }
}
