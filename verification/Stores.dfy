/** The in-memory store: records, memory accounting, lazy expiry and eviction, updated in place. */
module Stores {
  import opened Bytes
  import opened Options
  import opened FiniteSums
  import opened Policies
  import opened SortedItems
  import opened StoreSpec
  import Ops = StoreOps
  import Decimals
  import CountMin
  import BloomFilters
  import SortedSets
  import SortedNames

  lemma Append<T>(done: seq<T>, one: T, rest: seq<T>)
    ensures [] + rest == rest && done + [] == done && done + [one] + rest == done + ([one] + rest)
  {
  }

  /** What is left of a sorted set without the listed members. */
  function Left(scores: map<Bytes, Score>, members: seq<Bytes>): (left: map<Bytes, Score>)
    ensures var gone := SortedSets.SetOf(members) * scores.Keys;
      left == scores - gone && left.Keys == scores.Keys - gone
  {
    map m | m in scores && m !in members :: scores[m]
  }

  /** If a record just written survives the eviction that follows, it is unchanged. */
  lemma WrittenKept(s: State, k: Bytes, record: Record, now: int, lim: Limits, exact: bool, mid: State)
    requires Settled(lim, exact, Ops.Store(s, k, record, now), mid) && k in mid.data
    ensures mid.data[k] == record
  {
    hide Fit, Over, Consistent;
  }

  class Store {
    const policy: Policy?
    const maxEntries: int
    const maxMemory: int
    const hash: Hash
    const bloomDefault: Ops.BloomSize

    var data: Data
    var hits: nat
    var misses: nat
    var expiredKeys: nat
    var evictedKeys: nat
    var usedMemory: int

    ghost var inserted: nat
    ghost var deleted: nat
    ghost var emptied: nat

    ghost function State(): State
      reads this, policy
    {
      StoreSpec.State(data, if policy == null then [] else policy.Keys(), policy != null,
                      Tally(hits, misses, expiredKeys, evictedKeys, inserted, deleted, emptied))
    }

    ghost function Lim(): Limits {
      Limits(maxEntries, maxMemory)
    }

    ghost predicate Exact() {
      policy != null && policy.exact
    }

    /** Tracked keys, tallies and used memory all agree with the records. */
    ghost predicate Sound()
      reads this, policy
    {
      && (policy != null ==> policy.Valid())
      && Consistent(State()) && usedMemory == Used(data)
    }

    ghost predicate Within()
      reads this
    {
      policy != null ==> !Over(data, Lim())
    }

    /** Between operations the store is also within its limits. */
    ghost predicate Valid()
      reads this, policy
    {
      Sound() && Within()
    }

    constructor (policy: Policy?, maxEntries: int, maxMemory: int, hash: Hash, bloomDefault: Ops.BloomSize)
      requires policy != null ==> policy.Valid() && policy.Keys() == []
      ensures Valid() && data == map[] && this.policy == policy
      ensures this.maxEntries == maxEntries && this.maxMemory == maxMemory
    {
      this.policy, this.maxEntries, this.maxMemory := policy, maxEntries, maxMemory;
      this.hash, this.bloomDefault := hash, bloomDefault;
      data, hits, misses, expiredKeys, evictedKeys, usedMemory := map[], 0, 0, 0, 0, 0;
      inserted, deleted, emptied := 0, 0, 0;
    }

    // ----- accounting -----

    method SumLengths(members: set<Bytes>) returns (total: int)
      ensures total == Sum(members, Length)
    {
      total := 0;
      var rest := members;
      while rest != {}
        invariant rest <= members && total + Sum(rest, Length) == Sum(members, Length)
        decreases rest
      {
        var member :| member in rest;
        SumSplit(rest, Length, member);
        total := total + |member|;
        rest := rest - {member};
      }
    }

    method SumMemberSizes(members: set<Bytes>) returns (total: int)
      ensures total == SortedSets.MembersSize(members)
    {
      total := 0;
      var rest := members;
      while rest != {}
        invariant rest <= members && total + SortedSets.MembersSize(rest) == SortedSets.MembersSize(members)
        decreases rest
      {
        var member :| member in rest;
        SumSplit(rest, SortedSets.MemberSize, member);
        total := total + SortedSets.MemberSize(member);
        rest := rest - {member};
      }
    }

    method SizeOf(key: Bytes, record: Record) returns (total: int)
      ensures total == RecordSize(key, record)
    {
      match record.value
      case StringV(text) => total := |key| + |text|;
      case SetV(members) => { var n := SumLengths(members); total := |key| + n; }
      case ZSetV(scores) => { var n := SumMemberSizes(scores.Keys); total := |key| + n; }
      case SketchV(s) => total := |key| + s.width * s.depth * 8;
      case BloomV(f) => total := |key| + |f.bits| * 8;
    }

    method NotifyAccess(key: Bytes)
      requires Sound() && key in data
      modifies policy
      ensures Sound() && State() == Touch(old(State()), key)
    {
      TouchConsistent(State(), key);
      if policy != null {
        policy.Touch(key);
      }
    }

    /** Store a record under a key that is not there. */
    method InsertRecord(key: Bytes, record: Record)
      requires Sound() && key !in data && ShapedValue(record.value)
      modifies this, policy
      ensures Sound() && State() == Insert(old(State()), key, record)
    {
      hide Consistent, Used, Over, Front, ValueSize, ShapedValue, Indexed, Values, Replay, Without;
      InsertConsistent(State(), key, record);
      UsedPut(data, key, record);
      data := data[key := record];
      inserted := inserted + 1;
      var n := SizeOf(key, record);
      usedMemory := usedMemory + n;
      if policy != null {
        policy.Touch(key);
      }
    }

    /** Replace the record of a live key. */
    method OverwriteRecord(key: Bytes, record: Record)
      requires Sound() && key in data && ShapedValue(record.value)
      modifies this, policy
      ensures Sound() && State() == Overwrite(old(State()), key, record)
      ensures old(Within()) && RecordSize(key, record) <= RecordSize(key, old(data)[key]) ==> Within()
    {
      hide Consistent, Used, Over, Front, ValueSize, ShapedValue, Indexed, Values, Replay, Without;
      OverwriteConsistent(State(), key, record);
      UsedPut(data, key, record);
      if Within() && policy != null && RecordSize(key, record) <= RecordSize(key, data[key]) {
        ReplaceNotOver(data, key, record, Lim());
      }
      var next := SizeOf(key, record);
      var previous := SizeOf(key, data[key]);
      data := data[key := record];
      usedMemory := usedMemory + (next - previous);
      if policy != null {
        policy.Touch(key);
      }
    }

    /** Take a key's record, memory and tracking away. */
    method DropRecord(key: Bytes)
      requires (policy != null ==> policy.Valid()) && key in data && usedMemory == Used(data)
      modifies `data, `usedMemory, policy
      ensures (policy != null ==> policy.Valid()) && usedMemory == Used(data)
      ensures State() == Drop(old(State()), key)
      ensures old(Within()) ==> Within()
    {
      if Within() && policy != null {
        DropNotOver(data, key, Lim());
      }
      UsedDrop(data, key);
      var n := SizeOf(key, data[key]);
      data := data - {key};
      usedMemory := usedMemory - n;
      if policy != null {
        policy.OnRemove(key);
      }
    }

    method RemoveExpired(key: Bytes)
      requires Sound() && key in data
      modifies this, policy
      ensures Sound() && State() == DropExpired(old(State()), key) && (old(Within()) ==> Within())
    {
      hide Consistent, Used, Over, Without, Indexed, Values, Replay, Front;
      DropConsistent(State(), key);
      DropRecord(key);
      expiredKeys := expiredKeys + 1;
    }

    // ----- eviction -----

    method OverCapacity() returns (over: bool)
      requires usedMemory == Used(data)
      ensures over == Over(data, Lim())
    {
      over := (maxEntries > 0 && |data| > maxEntries) || (maxMemory > 0 && usedMemory > maxMemory);
    }

    method Evict(key: Bytes)
      requires Sound() && key in data
      modifies this, policy
      ensures Sound() && State() == DropEvicted(old(State()), key)
    {
      hide Consistent, Used, Over, Without, Indexed, Values, Replay, Front;
      DropConsistent(State(), key);
      DropRecord(key);
      evictedKeys := evictedKeys + 1;
    }

    /** Remove victims until the store is within its limits. The policy always has a victim, and the
        victim always has a record. */
    method EvictLocked() returns (evicted: nat)
      requires Sound()
      modifies this, policy
      ensures Valid() && Settled(Lim(), Exact(), old(State()), State())
      ensures evicted == evictedKeys - old(evictedKeys)
    {
      hide Consistent, Used, Over, Evicting, Settled, Without, Restrict, Indexed, Values, Replay, Front;
      evicted := 0;
      if policy == null {
        SettledNow(Lim(), false, State());
        return;
      }
      ghost var start := State();
      EvictingStarts(Lim(), Exact(), start);
      var over := OverCapacity();
      while over
        invariant Sound() && Evicting(Lim(), Exact(), start, State()) && over == Over(data, Lim())
        invariant evicted == evictedKeys - start.tally.evicted
        decreases |data|
      {
        VictimsHaveRecords(State(), Lim());
        var victim := policy.Victim();
        if victim.None? {
          assert false;
        }
        var key := victim.value;
        if key !in data {
          assert false;
        }
        EvictingStep(Lim(), Exact(), start, State(), key);
        Evict(key);
        evicted := evicted + 1;
        over := OverCapacity();
      }
      EvictingEnds(Lim(), Exact(), start, State());
    }

    // ----- helpers shared by the commands -----

    predicate IsLive(key: Bytes, now: int)
      reads this
    {
      key in data && !Ops.Expired(data[key], now)
    }

    /** The upgrade to the write lock: drop the key if its time is over by now. */
    method DeleteIfExpired(key: Bytes, now: int)
      requires Sound()
      modifies this, policy
      ensures Sound() && State() == Ops.Purge(old(State()), key, now) && (old(Within()) ==> Within())
    {
      if key in data && Ops.Expired(data[key], now) {
        RemoveExpired(key);
      }
    }

    /** Write a record over a live key, or as a new key once an expired one is gone. */
    method PutRecord(key: Bytes, record: Record, now: int)
      requires Sound() && ShapedValue(record.value)
      modifies this, policy
      ensures Sound() && State() == Ops.Store(old(State()), key, record, now)
    {
      hide Consistent, Used, Over, Without, Front, Indexed, Values, Replay;
      if key in data {
        if Ops.Expired(data[key], now) {
          RemoveExpired(key);
        } else {
          OverwriteRecord(key, record);
          return;
        }
      }
      InsertRecord(key, record);
    }

    lemma RecordShaped(key: Bytes)
      requires Sound() && key in data
      ensures ShapedValue(data[key].value)
    {
    }

    // ----- strings -----

    method Set(key: Bytes, text: Bytes, ttl: int, now: int)
      requires Valid()
      modifies this, policy
      ensures Valid() && Settled(Lim(), Exact(), Ops.Set(old(State()), key, text, ttl, now).0, State())
    {
      hide Consistent, Used, Over, Settled, Ops.Store, Indexed, Values, Replay, Front, Without;
      PutRecord(key, Record(StringV(text), if ttl > 0 then Some(now + ttl) else None), now);
      var _ := EvictLocked();
    }

    /** A reader that came back to a stale record counts its miss only now. */
    method CountMiss()
      requires Valid()
      modifies this
      ensures Valid() && State() == Ops.Miss(old(State()))
    {
      hide Used, Over, NoDuplicates, KeySet, ShapedValue, Indexed, Values, Replay;
      misses := misses + 1;
    }

    method Get(key: Bytes, now: int) returns (text: Option<Bytes>)
      requires Valid()
      modifies this, policy
      ensures Valid() && (State(), Ops.Text(text)) == Ops.Get(old(State()), key, now)
    {
      hide Used, Over, Without, Front, NoDuplicates, KeySet, ShapedValue, Indexed, Values, Replay;
      if !IsLive(key, now) {
        DeleteIfExpired(key, now);
        misses := misses + 1;
        return None;
      }
      if !data[key].value.StringV? {
        misses := misses + 1;
        return None;
      }
      hits := hits + 1;
      NotifyAccess(key);
      text := Some(data[key].value.text);
    }

    method DeleteOne(key: Bytes)
      requires Sound() && key in data
      modifies this, policy
      ensures Sound() && State() == DropDeleted(old(State()), key) && (old(Within()) ==> Within())
    {
      hide Consistent, Used, Over, Without, Indexed, Values, Replay, Front;
      DropConsistent(State(), key);
      DropRecord(key);
      deleted := deleted + 1;
    }

    /** Expired keys are deleted and counted like any other. */
    method Delete(keys: seq<Bytes>) returns (n: nat)
      requires Valid()
      modifies this, policy
      ensures Valid() && (State(), n) == Ops.DeleteEach(old(State()), keys)
    {
      hide Consistent, Used, Over, DropDeleted, Indexed, Values, Replay, Front, Without;
      n := 0;
      ghost var whole := Ops.DeleteEach(State(), keys);
      for i := 0 to |keys|
        invariant Valid()
        invariant whole == var rest := Ops.DeleteEach(State(), keys[i..]); (rest.0, n + rest.1)
      {
        assert keys[i..][1..] == keys[i + 1..];
        if keys[i] in data {
          DeleteOne(keys[i]);
          n := n + 1;
        }
      }
    }

    method Expire(key: Bytes, ttl: int, now: int) returns (done: bool)
      requires Valid()
      modifies this, policy
      ensures Valid() && (State(), Ops.Flag(done)) == Ops.Expire(old(State()), key, ttl, now)
    {
      hide Consistent, Used, Over, Ops.DeleteEach, ShapedValue, Indexed, Values, Replay, Front, Without;
      if ttl <= 0 {
        var n := Delete([key]);
        return n > 0;
      }
      if key !in data {
        return false;
      }
      if Ops.Expired(data[key], now) {
        RemoveExpired(key);
        return false;
      }
      RecordShaped(key);
      OverwriteRecord(key, data[key].(ttl := Some(now + ttl)));
      done := true;
    }

    method Ttl(key: Bytes, now: int) returns (seconds: int)
      requires Valid()
      modifies this, policy
      ensures Valid() && (State(), Ops.Number(seconds)) == Ops.Ttl(old(State()), key, now)
    {
      hide Consistent, Used, Over, Indexed, Values, Replay, Front, Without;
      if !IsLive(key, now) {
        DeleteIfExpired(key, now);
        return -2;
      }
      if data[key].ttl.None? {
        return -1;
      }
      var remaining := data[key].ttl.value - now;
      if remaining <= 0 {
        DeleteIfExpired(key, now);
        return -2;
      }
      seconds := remaining / Ops.SECOND;
    }

    method Exists(keys: seq<Bytes>, now: int) returns (count: nat)
      requires Valid()
      modifies this, policy
      ensures Valid() && (State(), count) == Ops.ExistsEach(old(State()), keys, now)
    {
      hide Consistent, Used, Over, DropExpired, Indexed, Values, Replay, Front, Without;
      count := 0;
      ghost var whole := Ops.ExistsEach(State(), keys, now);
      for i := 0 to |keys|
        invariant Valid()
        invariant whole == var rest := Ops.ExistsEach(State(), keys[i..], now); (rest.0, count + rest.1)
      {
        assert keys[i..][1..] == keys[i + 1..];
        if IsLive(keys[i], now) {
          count := count + 1;
        } else {
          DeleteIfExpired(keys[i], now);
        }
      }
    }

    method Incr(key: Bytes, now: int) returns (answer: Ops.Answer)
      requires Valid()
      modifies this, policy
      ensures Valid() && Settled(Lim(), Exact(), Ops.Incr(old(State()), key, now).0, State())
      ensures answer == Ops.Incr(old(State()), key, now).1
    {
      hide Consistent, Used, Over, Settled, Ops.Store, Decimals.ParseInt, Decimals.FormatInt;
      hide Indexed, Values, Replay, Front, Without;
      if !IsLive(key, now) {
        PutRecord(key, Record(StringV(Decimals.FormatInt(1)), None), now);
        var _ := EvictLocked();
        return Ops.Number(1);
      }
      if !data[key].value.StringV? {
        SettledHere();
        return Ops.NotInteger;
      }
      var parsed := Decimals.ParseInt(data[key].value.text);
      if parsed.None? {
        SettledHere();
        return Ops.NotInteger;
      }
      var next := Ops.Wrap64(parsed.value + 1);
      OverwriteRecord(key, data[key].(value := StringV(Decimals.FormatInt(next))));
      var _ := EvictLocked();
      answer := Ops.Number(next);
    }

    lemma SettledHere()
      requires Valid()
      ensures Settled(Lim(), Exact(), State(), State())
    {
      SettledNow(Lim(), false, State());
    }

    // ----- containers changed in place -----

    /** A container grew or shrank inside its record by `delta` bytes. */
    method Resize(key: Bytes, value: Value, delta: int)
      requires key in data && usedMemory == Used(data) && ValueSize(value) == ValueSize(data[key].value) + delta
      modifies `data, `usedMemory
      ensures data == old(data)[key := old(data)[key].(value := value)] && usedMemory == Used(data)
      ensures old(Within()) && delta <= 0 ==> Within()
    {
      var record := data[key].(value := value);
      if Within() && policy != null && delta <= 0 {
        ReplaceNotOver(data, key, record, Lim());
      }
      UsedPut(data, key, record);
      data := data[key := record];
      usedMemory := usedMemory + delta;
    }

    /** A container changed by `delta` bytes, and the change counts as an access. */
    method ResizeAndTouch(key: Bytes, value: Value, delta: int)
      requires Sound() && key in data && ShapedValue(value) && ValueSize(value) == ValueSize(data[key].value) + delta
      modifies this, policy
      ensures Sound() && State() == Overwrite(old(State()), key, old(data)[key].(value := value))
      ensures old(Within()) && delta <= 0 ==> Within()
    {
      hide Consistent, Used, Over, Front, ShapedValue, ValueSize, Indexed, Values, Replay, Without;
      OverwriteConsistent(State(), key, data[key].(value := value));
      Resize(key, value, delta);
      if policy != null {
        policy.Touch(key);
      }
    }

    /** A container was emptied: its record goes, without an access. */
    method DropEmpty(key: Bytes, value: Value, delta: int)
      requires Valid() && key in data && delta <= 0 && ValueSize(value) == ValueSize(data[key].value) + delta
      modifies this, policy
      ensures Valid() && State() == DropEmptied(old(State()), key)
    {
      hide Consistent, Used, Over, Without, ValueSize, Indexed, Values, Replay, Front;
      DropConsistent(State(), key);
      ghost var was := data;
      Resize(key, value, delta);
      DropRecord(key);
      assert data == was - {key};
      emptied := emptied + 1;
    }

    // ----- sets -----

    /** Insert members one by one; repeated and present ones do not count. */
    method AddMembers(old_: set<Bytes>, members: seq<Bytes>) returns (now: set<Bytes>, added: nat, memory: int)
      ensures now == old_ + SortedSets.SetOf(members) && added == |SortedSets.SetOf(members) - old_|
      ensures memory == Sum(now, Length) - Sum(old_, Length)
    {
      hide SortedSets.SetOf, Sum;
      now, added, memory := old_, 0, 0;
      SortedSets.NamesStart(members);
      for i := 0 to |members|
        invariant now == old_ + SortedSets.SetOf(members[..i]) && added == |now| - |old_|
        invariant memory == Sum(now, Length) - Sum(old_, Length)
      {
        SortedSets.NamesStep(members, i);
        var member := members[i];
        if member !in now {
          SumInsert(now, Length, member);
          now, added, memory := now + {member}, added + 1, memory + |member|;
        }
      }
      NewOnes(old_, SortedSets.SetOf(members));
    }

    method RemoveMembers(old_: set<Bytes>, members: seq<Bytes>) returns (now: set<Bytes>, removed: nat, memory: int)
      ensures now == old_ - SortedSets.SetOf(members) * old_ && removed == |SortedSets.SetOf(members) * old_|
      ensures memory == Sum(now, Length) - Sum(old_, Length) && memory <= 0
    {
      hide SortedSets.SetOf, Sum;
      now, removed, memory := old_, 0, 0;
      SortedSets.NamesStart(members);
      for i := 0 to |members|
        invariant now == old_ - SortedSets.SetOf(members[..i]) && removed == |old_| - |now|
        invariant memory == Sum(now, Length) - Sum(old_, Length) && memory <= 0
      {
        SortedSets.NamesStep(members, i);
        var member := members[i];
        if member in now {
          SumSplit(now, Length, member);
          now, removed, memory := now - {member}, removed + 1, memory - |member|;
        }
      }
      GoneOnes(old_, SortedSets.SetOf(members));
    }

    method SAdd(key: Bytes, members: seq<Bytes>, now: int) returns (answer: Ops.Answer)
      requires Valid()
      modifies this, policy
      ensures Valid() && Settled(Lim(), Exact(), Ops.SAdd(old(State()), key, members, now).0, State())
      ensures answer == Ops.SAdd(old(State()), key, members, now).1
    {
      hide Consistent, Used, Over, Settled, Ops.Store, SortedSets.SetOf, Sum, Indexed, Values, Replay, Front, Without;
      if !IsLive(key, now) {
        var fresh_, n, _ := AddMembers({}, members);
        assert {} + SortedSets.SetOf(members) == SortedSets.SetOf(members) == SortedSets.SetOf(members) - {};
        PutRecord(key, Record(SetV(fresh_), None), now);
        var _ := EvictLocked();
        return Ops.Number(n);
      }
      if !data[key].value.SetV? {
        SettledHere();
        return Ops.WrongType;
      }
      var grown, added, memory := AddMembers(data[key].value.members, members);
      ResizeAndTouch(key, SetV(grown), memory);
      var _ := EvictLocked();
      answer := Ops.Number(added);
    }

    method SRem(key: Bytes, members: seq<Bytes>, now: int) returns (answer: Ops.Answer)
      requires Valid()
      modifies this, policy
      ensures Valid() && (State(), answer) == Ops.SRem(old(State()), key, members, now)
    {
      hide Consistent, Used, Over, SortedSets.SetOf, Sum, Indexed, Values, Replay, Front, Without;
      if !IsLive(key, now) {
        DeleteIfExpired(key, now);
        return Ops.Number(0);
      }
      if !data[key].value.SetV? {
        return Ops.WrongType;
      }
      var left, removed, memory := RemoveMembers(data[key].value.members, members);
      if left == {} {
        DropEmpty(key, SetV(left), memory);
      } else {
        ResizeAndTouch(key, SetV(left), memory);
      }
      answer := Ops.Number(removed);
    }

    method SIsMember(key: Bytes, member: Bytes, now: int) returns (answer: Ops.Answer)
      requires Valid()
      modifies this, policy
      ensures Valid() && (State(), answer) == Ops.SIsMember(old(State()), key, member, now)
    {
      hide Consistent, Used, Over, Indexed, Values, Replay, Front, Without;
      if !IsLive(key, now) {
        DeleteIfExpired(key, now);
        return Ops.Number(0);
      }
      if !data[key].value.SetV? {
        return Ops.WrongType;
      }
      NotifyAccess(key);
      answer := Ops.Number(if member in data[key].value.members then 1 else 0);
    }

    method SMembers(key: Bytes, now: int) returns (answer: Ops.Answer)
      requires Valid()
      modifies this, policy
      ensures Valid() && (State(), answer) == Ops.SMembers(old(State()), key, now)
    {
      hide Consistent, Used, Over, Indexed, Values, Replay, Front, Without;
      if !IsLive(key, now) {
        DeleteIfExpired(key, now);
        return Ops.Names([]);
      }
      if !data[key].value.SetV? {
        return Ops.WrongType;
      }
      NotifyAccess(key);
      var names := SortedNames.SortNames(data[key].value.members);
      answer := Ops.Names(names);
    }

    // ----- records of sorted sets -----

    /** A new sorted set gets its record, and the store makes room. */
    method RecordNewZSet(key: Bytes, scores: map<Bytes, Score>, now: int)
      requires Valid() && !IsLive(key, now)
      modifies this, policy
      ensures Valid() && Settled(Lim(), Exact(), Ops.ZAdd(old(State()), key, scores, now).0, State())
    {
      hide Consistent, Used, Over, Settled, Ops.Store, Indexed, Values, Replay, Front, Without;
      PutRecord(key, Record(ZSetV(scores), None), now);
      var _ := EvictLocked();
    }

    /** A sorted set grew by `memory` bytes: its record follows, and the store makes room. */
    method RecordGrownZSet(key: Bytes, members: map<Bytes, Score>, memory: int, now: int)
      requires Valid() && IsLive(key, now) && data[key].value.ZSetV?
      requires ValueSize(ZSetV(data[key].value.scores + members)) == ValueSize(data[key].value) + memory
      modifies this, policy
      ensures Valid() && Settled(Lim(), Exact(), Ops.ZAdd(old(State()), key, members, now).0, State())
    {
      hide Consistent, Used, Over, Settled, ValueSize, Front, Indexed, Values, Replay, Without;
      ResizeAndTouch(key, ZSetV(data[key].value.scores + members), memory);
      var _ := EvictLocked();
    }

    /** A sorted set shrank by `-memory` bytes: its record follows, and goes when it is empty. */
    method RecordShrunkZSet(key: Bytes, members: seq<Bytes>, memory: int, now: int)
      requires Valid() && IsLive(key, now) && data[key].value.ZSetV? && memory <= 0
      requires var gone := SortedSets.SetOf(members) * data[key].value.scores.Keys;
        ValueSize(ZSetV(data[key].value.scores - gone)) == ValueSize(data[key].value) + memory
      modifies this, policy
      ensures Valid() && State() == Ops.ZRem(old(State()), key, members, now).0
    {
      hide Consistent, Used, Over, ValueSize, Front, Without, SortedSets.SetOf, Indexed, Values, Replay;
      var left := Left(data[key].value.scores, members);
      if |left| == 0 {
        DropEmpty(key, ZSetV(left), memory);
      } else {
        ResizeAndTouch(key, ZSetV(left), memory);
      }
    }

    // ----- sketches -----

    /** A sketch or filter of unchanged size was updated inside its record. */
    method WriteBack(key: Bytes, value: Value)
      requires Valid() && key in data && ShapedValue(value) && ValueSize(value) == ValueSize(data[key].value)
      modifies `data, `usedMemory
      ensures Valid() && State() == old(State()).(data := old(data)[key := old(data)[key].(value := value)])
    {
      hide Used, Over, NoDuplicates, KeySet, ValueSize, Indexed, Values, Replay;
      Resize(key, value, 0);
      assert data.Keys == old(data).Keys;
      assert |data| == |data.Keys| == |old(data)|;
    }

    method CmsInit(key: Bytes, width: nat, depth: nat, now: int) returns (answer: Ops.Answer)
      requires Valid()
      modifies this, policy
      ensures Valid() && Settled(Lim(), Exact(), Ops.CmsInit(old(State()), key, width, depth, now).0, State())
      ensures answer == Ops.CmsInit(old(State()), key, width, depth, now).1
    {
      hide Consistent, Used, Over, Settled, Ops.Store, Indexed, Values, Replay, Front, Without;
      if width == 0 || depth == 0 || width > Decimals.MAX_INT64 || depth > Decimals.MAX_INT64 {
        SettledHere();
        return Ops.Incompatible;
      }
      if IsLive(key, now) {
        SettledHere();
        return Ops.KeyExists;
      }
      PutRecord(key, Record(SketchV(CountMin.EmptySketch(width, depth)), None), now);
      var _ := EvictLocked();
      answer := Ops.Done;
    }

    /** What looking up a sketch answers when it fails. */
    method FindSketch(key: Bytes, now: int) returns (error: Option<Ops.Answer>)
      ensures error == Ops.SketchError(State(), key, now)
    {
      if !IsLive(key, now) {
        return Some(Ops.NotFound);
      }
      if !data[key].value.SketchV? {
        return Some(Ops.WrongType);
      }
      error := None;
    }

    method CmsIncrBy(key: Bytes, increments: seq<CountMin.Increment>, now: int) returns (answer: Ops.Answer)
      requires Valid()
      modifies this, policy
      ensures Valid() && (State(), answer) == Ops.CmsIncrBy(old(State()), hash, key, increments, now)
    {
      hide Used, Over, NoDuplicates, KeySet, CountMin.IncrementAll, CountMin.AddedAll, CountMin.Exact, Front;
      hide Indexed, Values, Replay;
      var error := FindSketch(key, now);
      if error.Some? {
        return error.value;
      }
      var sketch := new CountMin.CountMinSketch.Of(hash, data[key].value.sketch);
      var results := sketch.IncrBy(increments);
      WriteBack(key, SketchV(sketch.State()));
      if results.None? {
        return Ops.Overflow;
      }
      NotifyAccess(key);
      answer := Ops.Counts(results.value);
    }

    method QueryItems(s: CountMin.Sketch, items: seq<Bytes>) returns (counts: seq<CountMin.uint64>)
      requires CountMin.Shaped(s)
      ensures counts == seq(|items|, i requires 0 <= i < |items| => CountMin.Query(hash, s, items[i]))
    {
      hide CountMin.Query;
      var sketch := new CountMin.CountMinSketch.Of(hash, s);
      counts := [];
      for index := 0 to |items|
        invariant |counts| == index && sketch.State() == s && sketch.hash == hash
        invariant forall i :: 0 <= i < index ==> counts[i] == CountMin.Query(hash, s, items[i])
      {
        var count := sketch.QueryItem(items[index]);
        counts := counts + [count];
      }
    }

    method CmsQuery(key: Bytes, items: seq<Bytes>, now: int) returns (answer: Ops.Answer)
      requires Valid()
      modifies this, policy
      ensures Valid() && (State(), answer) == Ops.CmsQuery(old(State()), hash, key, items, now)
    {
      hide Used, Over, NoDuplicates, KeySet, Front, CountMin.Query, Indexed, Values, Replay;
      var error := FindSketch(key, now);
      if error.Some? {
        return error.value;
      }
      RecordShaped(key);
      NotifyAccess(key);
      var counts := QueryItems(data[key].value.sketch, items);
      answer := Ops.Counts(counts);
    }

    method CmsInfo(key: Bytes, now: int) returns (answer: Ops.Answer)
      requires Valid()
      modifies this, policy
      ensures Valid() && (State(), answer) == Ops.CmsInfo(old(State()), key, now)
    {
      hide Consistent, Used, Over, Indexed, Values, Replay, Front, Without;
      var error := FindSketch(key, now);
      if error.Some? {
        return error.value;
      }
      NotifyAccess(key);
      var sketch := data[key].value.sketch;
      answer := Ops.Info([sketch.width, sketch.depth, sketch.count]);
    }

    /** Look up the sources of a merge in order, touching each. */
    method FindSources(keys: seq<Bytes>, now: int) returns (error: Option<Ops.Answer>, sources: seq<CountMin.Sketch>)
      requires Valid()
      modifies this, policy
      ensures Valid() && (State(), error, sources) == Ops.CmsSources(old(State()), keys, now)
    {
      hide Consistent, Used, Over, Touch, Indexed, Values, Replay, Front, Without;
      ghost var whole := Ops.CmsSources(State(), keys, now);
      sources := [];
      assert [] + whole.2 == whole.2 && keys[0..] == keys;
      for i := 0 to |keys|
        invariant Valid()
        invariant whole == var rest := Ops.CmsSources(State(), keys[i..], now); (rest.0, rest.1, sources + rest.2)
      {
        assert keys[i..][1..] == keys[i + 1..];
        error := FindSketch(keys[i], now);
        if error.Some? {
          assert sources + [] == sources;
          assert Ops.CmsSources(State(), keys[i..], now) == (State(), error, []);
          return;
        }
        Append(sources, data[keys[i]].value.sketch, Ops.CmsSources(Touch(State(), keys[i]), keys[i + 1..], now).2);
        NotifyAccess(keys[i]);
        sources := sources + [data[keys[i]].value.sketch];
      }
      assert keys[|keys|..] == [] && sources + [] == sources;
      error := None;
    }

    method CmsMerge(destination: Bytes, keys: seq<Bytes>, weights: seq<CountMin.uint64>, now: int) returns (answer: Ops.Answer)
      requires Valid()
      modifies this, policy
      ensures Valid() && Settled(Lim(), Exact(), Ops.CmsMerge(old(State()), destination, keys, weights, now).0, State())
      ensures answer == Ops.CmsMerge(old(State()), destination, keys, weights, now).1
    {
      hide Consistent, Used, Over, Settled, Ops.Store, Ops.CmsSources, CountMin.MergeAll;
      hide Indexed, Values, Replay, Front, Without;
      if |keys| == 0 || |keys| != |weights| {
        SettledHere();
        return Ops.Incompatible;
      }
      Ops.CmsSourcesShaped(State(), keys, now);
      var error, sources := FindSources(keys, now);
      if error.Some? {
        SettledHere();
        return error.value;
      }
      var merged := CountMin.MergeSketches(sources, weights);
      if !merged.Merged? {
        SettledHere();
        return if merged.Overflow? then Ops.Overflow else Ops.Incompatible;
      }
      if IsLive(destination, now) && !data[destination].value.SketchV? {
        SettledHere();
        return Ops.WrongType;
      }
      PutRecord(destination, Record(SketchV(merged.sketch), None), now);
      var _ := EvictLocked();
      answer := Ops.Done;
    }

    // ----- Bloom filters -----

    method BfReserve(key: Bytes, size: Option<Ops.BloomSize>, now: int) returns (answer: Ops.Answer)
      requires Valid()
      modifies this, policy
      ensures Valid() && Settled(Lim(), Exact(), Ops.BfReserve(old(State()), key, size, now).0, State())
      ensures answer == Ops.BfReserve(old(State()), key, size, now).1
    {
      hide Consistent, Used, Over, Settled, Ops.Store, Indexed, Values, Replay, Front, Without;
      if size.None? {
        SettledHere();
        return Ops.Incompatible;
      }
      if IsLive(key, now) {
        SettledHere();
        return Ops.KeyExists;
      }
      PutRecord(key, Record(BloomV(Ops.EmptyBloom(size.value)), None), now);
      var _ := EvictLocked();
      answer := Ops.Done;
    }

    /** Add items to a filter one by one. */
    method AddItems(f: BloomFilters.Bloom, items: seq<Bytes>) returns (g: BloomFilters.Bloom, added: seq<bool>)
      requires BloomFilters.Shaped(f)
      ensures (g, added) == Ops.AddEach(hash, f, items)
    {
      hide BloomFilters.Add, BloomFilters.Has, BloomFilters.Faithful;
      ghost var whole := Ops.AddEach(hash, f, items);
      var filter := new BloomFilters.BloomFilter.Of(hash, f);
      added := [];
      assert [] + whole.1 == whole.1 && items[0..] == items;
      for index := 0 to |items|
        invariant BloomFilters.Shaped(filter.State()) && filter.hash == hash
        invariant whole == var rest := Ops.AddEach(hash, filter.State(), items[index..]); (rest.0, added + rest.1)
      {
        assert items[index..][1..] == items[index + 1..];
        ghost var before := added;
        var isNew := filter.AddItem(items[index]);
        Append(before, isNew, Ops.AddEach(hash, filter.State(), items[index + 1..]).1);
        added := added + [isNew];
      }
      assert items[|items|..] == [] && added + [] == added;
      g := filter.State();
    }

    /** Create a default filter, evict, and only then set bits: in a filter that may be gone already. */
    method BfAddFresh(key: Bytes, items: seq<Bytes>, now: int) returns (added: seq<bool>, ghost mid: State)
      requires Valid()
      modifies this, policy
      ensures Valid() && Settled(Lim(), Exact(), Ops.BfCreate(old(State()), key, bloomDefault, now), mid)
      ensures var r := Ops.AddEach(hash, Ops.EmptyBloom(bloomDefault), items);
        State() == Ops.SetFilter(mid, key, r.0) && added == r.1
    {
      hide Used, Over, NoDuplicates, KeySet, Front, Ops.AddEach, Ops.EmptyBloom, Ops.Store, Settled, Without;
      hide Indexed, Values, Replay;
      PutRecord(key, Record(BloomV(Ops.EmptyBloom(bloomDefault)), None), now);
      var _ := EvictLocked();
      mid := State();
      var f, results := AddItems(Ops.EmptyBloom(bloomDefault), items);
      if key in data {
        WrittenKept(old(State()), key, Record(BloomV(Ops.EmptyBloom(bloomDefault)), None), now, Lim(), Exact(), mid);
        WriteBack(key, BloomV(f));
      }
      added := results;
    }

    method BfMultiAdd(key: Bytes, items: seq<Bytes>, now: int) returns (answer: Ops.Answer)
      requires Valid()
      modifies this, policy
      ensures Valid() && Ops.BfAdded(Lim(), Exact(), old(State()), hash, key, items, bloomDefault, now, State(), answer)
    {
      hide Used, Over, NoDuplicates, KeySet, Front, Ops.AddEach, Ops.EmptyBloom, Ops.BfCreate, Settled, Without;
      hide Indexed, Values, Replay;
      if IsLive(key, now) {
        if !data[key].value.BloomV? {
          return Ops.WrongType;
        }
        NotifyAccess(key);
        var f, added := AddItems(data[key].value.filter, items);
        WriteBack(key, BloomV(f));
        return Ops.Bits(added);
      }
      var added, mid := BfAddFresh(key, items, now);
      answer := Ops.Bits(added);
      assert Ops.BfFilled(mid, hash, key, items, bloomDefault) == (State(), answer);
    }

    method TestItems(f: BloomFilters.Bloom, items: seq<Bytes>) returns (results: seq<bool>)
      requires BloomFilters.Shaped(f)
      ensures results == seq(|items|, i requires 0 <= i < |items| => BloomFilters.Has(hash, f, items[i]))
    {
      hide BloomFilters.Has;
      var filter := new BloomFilters.BloomFilter.Of(hash, f);
      results := [];
      for index := 0 to |items|
        invariant |results| == index && filter.State() == f && filter.hash == hash
        invariant forall i :: 0 <= i < index ==> results[i] == BloomFilters.Has(hash, f, items[i])
      {
        var found := filter.Exists(items[index]);
        results := results + [found];
      }
    }

    method BfExists(key: Bytes, items: seq<Bytes>, now: int) returns (answer: Ops.Answer)
      requires Valid()
      modifies this, policy
      ensures Valid() && (State(), answer) == Ops.BfExists(old(State()), hash, key, items, now)
    {
      hide Used, Over, NoDuplicates, KeySet, Front, BloomFilters.Has, Indexed, Values, Replay;
      if !IsLive(key, now) {
        return Ops.Bits(seq(|items|, _ => false));
      }
      if !data[key].value.BloomV? {
        return Ops.WrongType;
      }
      RecordShaped(key);
      NotifyAccess(key);
      var results := TestItems(data[key].value.filter, items);
      answer := Ops.Bits(results);
    }

    method BfInfo(key: Bytes, now: int) returns (answer: Ops.Answer)
      requires Valid()
      modifies this, policy
      ensures Valid() && (State(), answer) == Ops.BfInfo(old(State()), key, now)
    {
      hide Consistent, Used, Over, Indexed, Values, Replay, Front, Without;
      if !IsLive(key, now) {
        return Ops.NotFound;
      }
      if !data[key].value.BloomV? {
        return Ops.WrongType;
      }
      NotifyAccess(key);
      var f := data[key].value.filter;
      answer := Ops.Info([f.capacity, |f.bits| * 8, f.hashCount, f.count]);
    }

    // ----- sweeping -----

    /** Remove every expired key, then evict. A store that was within its limits has nothing to evict. */
    method Sweep(now: int) returns (expired: nat, evicted: nat)
      requires Valid()
      modifies this, policy
      ensures Valid() && State() == Ops.Sweep(old(State()), now)
      ensures expired == |Ops.StaleKeys(old(State()), now)| && evicted == 0
    {
      hide Consistent, Used, Over, Without, WithoutAll, Fit, Restrict, Indexed, Values, Replay, Front;
      ghost var start, gone := State(), {};
      Ops.ExpireNone(start);
      expired := 0;
      var rest := data.Keys;
      while rest != {}
        invariant Valid() && gone !! rest && expired == |gone|
        invariant State() == Ops.ExpireAll(start, gone) && rest <= data.Keys
        invariant gone <= Ops.StaleKeys(start, now) <= gone + rest
        decreases rest
      {
        var key :| key in rest;
        rest := rest - {key};
        if Ops.Expired(data[key], now) {
          Ops.ExpireOneMore(start, gone, key);
          RemoveExpired(key);
          gone := gone + {key};
          expired := expired + 1;
        }
      }
      assert gone == Ops.StaleKeys(start, now);
      evicted := EvictLocked();
    }
  }
}
