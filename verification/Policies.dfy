/** Eviction policies: which keys are tracked, and which one goes next. */
module Policies {
  import opened Bytes
  import opened Options

  /** Keys, most recently used first, without `key`. */
  ghost function Without(keys: seq<Bytes>, key: Bytes): (r: seq<Bytes>)
    ensures |r| <= |keys| && (key in keys ==> |r| < |keys|)
  {
    if keys == [] then []
    else if keys[0] == key then Without(keys[1..], key)
    else [keys[0]] + Without(keys[1..], key)
  }

  /** `key` becomes the most recently used. */
  ghost function Front(keys: seq<Bytes>, key: Bytes): seq<Bytes> {
    [key] + Without(keys, key)
  }

  ghost predicate NoDuplicates(keys: seq<Bytes>) {
    forall i, j :: 0 <= i < j < |keys| ==> keys[i] != keys[j]
  }

  ghost function KeySet(keys: seq<Bytes>): set<Bytes> {
    set k | k in keys
  }

  lemma {:induction false} WithoutIn(keys: seq<Bytes>, key: Bytes, k: Bytes)
    ensures k in Without(keys, key) <==> k in keys && k != key
  {
    if keys != [] {
      WithoutIn(keys[1..], key, k);
    }
  }

  lemma {:induction false} WithoutKeys(keys: seq<Bytes>, key: Bytes)
    requires NoDuplicates(keys)
    ensures NoDuplicates(Without(keys, key)) && KeySet(Without(keys, key)) == KeySet(keys) - {key}
    ensures key !in keys ==> Without(keys, key) == keys
  {
    forall k ensures k in KeySet(Without(keys, key)) <==> k in KeySet(keys) - {key} {
      WithoutIn(keys, key, k);
    }
    if keys != [] {
      WithoutKeys(keys[1..], key);
      WithoutIn(keys[1..], key, keys[0]);
      assert keys[0] !in keys[1..];
    }
  }

  lemma WithoutTwice(keys: seq<Bytes>, key: Bytes)
    requires NoDuplicates(keys)
    ensures Without(Without(keys, key), key) == Without(keys, key)
  {
    WithoutKeys(keys, key);
    WithoutIn(keys, key, key);
    WithoutKeys(Without(keys, key), key);
  }

  lemma FrontKeys(keys: seq<Bytes>, key: Bytes)
    requires NoDuplicates(keys)
    ensures NoDuplicates(Front(keys, key)) && KeySet(Front(keys, key)) == KeySet(keys) + {key}
  {
    WithoutKeys(keys, key);
    assert forall k :: k in Without(keys, key) <==> k in KeySet(Without(keys, key));
  }

  /** Dropping position i of a duplicate-free list drops its key. */
  lemma {:induction false} WithoutAt(keys: seq<Bytes>, i: nat)
    requires NoDuplicates(keys) && i < |keys|
    ensures Without(keys, keys[i]) == keys[..i] + keys[i + 1..]
  {
    if i == 0 {
      WithoutKeys(keys[1..], keys[0]);
    } else {
      WithoutAt(keys[1..], i - 1);
      assert keys[1..][..i - 1] == keys[..i][1..];
    }
  }

  lemma WithoutLast(keys: seq<Bytes>)
    requires NoDuplicates(keys) && keys != []
    ensures Without(keys, keys[|keys| - 1]) == keys[..|keys| - 1]
  {
    WithoutAt(keys, |keys| - 1);
  }

  // ----- recency over whole histories -----

  datatype Use = Touched(key: Bytes) | Removed(key: Bytes)

  /** The recency list after a history of touches and removals. */
  ghost function Replay(events: seq<Use>): seq<Bytes> {
    if events == [] then [] else
      var before, last := Replay(events[..|events| - 1]), events[|events| - 1];
      if last.Touched? then Front(before, last.key) else Without(before, last.key)
  }

  lemma ReplayOne(events: seq<Use>, last: Use)
    ensures Replay(events + [last]) == if last.Touched? then Front(Replay(events), last.key) else Without(Replay(events), last.key)
  {
    assert (events + [last])[..|events|] == events;
  }

  /** When a key was last touched, or -1 if it never was or has been removed since. */
  ghost function LastTouch(events: seq<Use>, key: Bytes): int {
    if events == [] then -1 else
      var last := events[|events| - 1];
      if last.key != key then LastTouch(events[..|events| - 1], key)
      else if last.Touched? then |events| - 1 else -1
  }

  lemma {:induction false} LastTouchBelow(events: seq<Use>, key: Bytes)
    ensures -1 <= LastTouch(events, key) < |events|
  {
    if events != [] {
      LastTouchBelow(events[..|events| - 1], key);
    }
  }

  /** Most recently touched first. */
  ghost predicate ByLastTouch(keys: seq<Bytes>, events: seq<Use>) {
    forall i, j :: 0 <= i < j < |keys| ==> LastTouch(events, keys[i]) > LastTouch(events, keys[j])
  }

  /** Dropping a key keeps the others in their order. */
  lemma {:induction false} WithoutInOrder(keys: seq<Bytes>, key: Bytes, events: seq<Use>)
    requires ByLastTouch(keys, events)
    ensures ByLastTouch(Without(keys, key), events)
  {
    if keys != [] {
      WithoutInOrder(keys[1..], key, events);
      var rest := Without(keys[1..], key);
      forall j | 0 <= j < |rest| ensures LastTouch(events, keys[0]) > LastTouch(events, rest[j]) {
        WithoutIn(keys[1..], key, rest[j]);
        var i :| 0 <= i < |keys[1..]| && keys[1..][i] == rest[j];
        assert keys[i + 1] == rest[j];
      }
    }
  }

  /** After any history the list holds exactly the keys touched and not removed since, most recently
      touched first; so its last key is the least recently used. */
  lemma {:induction false} ReplayByRecency(events: seq<Use>)
    ensures forall k :: k in Replay(events) <==> LastTouch(events, k) >= 0
    ensures ByLastTouch(Replay(events), events)
  {
    if events != [] {
      var past, last := events[..|events| - 1], events[|events| - 1];
      var before, rest := Replay(past), Without(Replay(past), last.key);
      ReplayByRecency(past);
      WithoutInOrder(before, last.key, past);
      forall k ensures k in rest <==> k in before && k != last.key {
        WithoutIn(before, last.key, k);
      }
      forall k | k in rest ensures LastTouch(events, k) == LastTouch(past, k) < |events| - 1 {
        LastTouchBelow(past, k);
      }
      forall i, j | 0 <= i < j < |rest| ensures LastTouch(events, rest[i]) > LastTouch(events, rest[j]) {
        assert rest[i] in rest && rest[j] in rest;
      }
    }
  }

  /** The keys that are not in `gone`, in the same order. */
  ghost function WithoutAll(keys: seq<Bytes>, gone: set<Bytes>): seq<Bytes> {
    if keys == [] then []
    else if keys[0] in gone then WithoutAll(keys[1..], gone)
    else [keys[0]] + WithoutAll(keys[1..], gone)
  }

  lemma {:induction false} WithoutNone(keys: seq<Bytes>)
    ensures WithoutAll(keys, {}) == keys
  {
    if keys != [] {
      WithoutNone(keys[1..]);
    }
  }

  lemma {:induction false} WithoutOneMore(keys: seq<Bytes>, gone: set<Bytes>, k: Bytes)
    ensures Without(WithoutAll(keys, gone), k) == WithoutAll(keys, gone + {k})
  {
    if keys != [] {
      WithoutOneMore(keys[1..], gone, k);
    }
  }

  /** A node of the recency list. */
  class Element {
    const value: Bytes

    constructor (value: Bytes)
      ensures this.value == value
    {
      this.value := value;
    }
  }

  ghost function Values(order: seq<Element>): (keys: seq<Bytes>)
    ensures |keys| == |order| && forall i :: 0 <= i < |keys| ==> keys[i] == order[i].value
  {
    seq(|order|, i requires 0 <= i < |order| => order[i].value)
  }

  /** The map points each key at its own list node, and every node is pointed at. */
  ghost predicate Indexed(order: seq<Element>, entries: map<Bytes, Element>) {
    && NoDuplicates(Values(order))
    && (forall i :: 0 <= i < |order| ==> order[i].value in entries && entries[order[i].value] == order[i])
    && (forall k :: k in entries ==> entries[k] in order && entries[k].value == k)
  }

  lemma DropNode(order: seq<Element>, entries: map<Bytes, Element>, i: nat)
    requires Indexed(order, entries) && i < |order|
    ensures var rest := order[..i] + order[i + 1..];
      && Values(rest) == Without(Values(order), order[i].value)
      && Indexed(rest, entries - {order[i].value})
  {
    var rest := order[..i] + order[i + 1..];
    WithoutAt(Values(order), i);
    assert Values(rest) == Values(order)[..i] + Values(order)[i + 1..];
    WithoutKeys(Values(order), order[i].value);
    assert forall j :: 0 <= j < |rest| ==> rest[j] == order[if j < i then j else j + 1];
    forall k | k in entries && k != order[i].value ensures entries[k] in rest {
      var j :| 0 <= j < |order| && order[j] == entries[k];
      assert rest[if j < i then j else j - 1] == entries[k];
    }
  }

  lemma PushValue(order: seq<Element>, e: Element)
    ensures Values([e] + order) == [e.value] + Values(order)
  {
  }

  lemma PushNode(order: seq<Element>, entries: map<Bytes, Element>, e: Element)
    requires Indexed(order, entries) && e.value !in entries
    ensures Values([e] + order) == Front(Values(order), e.value) && Indexed([e] + order, entries[e.value := e])
  {
    assert e.value !in Values(order) by {
      assert forall j :: 0 <= j < |order| ==> Values(order)[j] in entries;
    }
    hide Without, NoDuplicates;
    WithoutKeys(Values(order), e.value);
    FrontKeys(Values(order), e.value);
    PushValue(order, e);
    hide Values;
    var now, entries' := [e] + order, entries[e.value := e];
    forall j | 0 <= j < |now| ensures now[j].value in entries' && entries'[now[j].value] == now[j] {
      assert j > 0 ==> now[j] == order[j - 1] && order[j - 1].value in entries;
    }
    forall k | k in entries' ensures entries'[k] in now {
      assert k != e.value ==> entries[k] in order;
      assert now[0] == e;
    }
  }

  /** A policy that tracks keys in recency order. `exact` is least-recently-used eviction; otherwise
      the victim is any tracked key, which is all that random and sampled policies promise. */
  class Policy {
    const exact: bool
    var order: seq<Element>
    var entries: map<Bytes, Element>
    ghost var history: seq<Use>

    /** The map indexes the list, and the list is what the whole history of uses makes it. */
    ghost predicate Valid()
      reads this
    {
      Indexed(order, entries) && Keys() == Replay(history)
    }

    /** Tracked keys, most recently used first. */
    ghost function Keys(): seq<Bytes>
      reads this
    {
      Values(order)
    }

    constructor (exact: bool)
      ensures Valid() && this.exact == exact && Keys() == []
    {
      this.exact, order, entries, history := exact, [], map[], [];
    }

    /** Where an element stands in the list. */
    method IndexOf(element: Element) returns (i: nat)
      requires element in order
      ensures i < |order| && order[i] == element
    {
      i := 0;
      while order[i] != element
        invariant i < |order| && element in order[i..]
        decreases |order| - i
      {
        i := i + 1;
      }
    }

    /** Move a key to the front of the list, inserting it when it is not yet tracked. */
    method Touch(key: Bytes)
      requires Valid()
      modifies this
      ensures Valid() && Keys() == Front(old(Keys()), key) && history == old(history) + [Touched(key)]
    {
      hide Replay, Without, LastTouch;
      ReplayOne(history, Touched(key));
      history := history + [Touched(key)];
      if key in entries {
        var element := entries[key];
        var i := IndexOf(element);
        DropNode(order, entries, i);
        ghost var rest := entries - {key};
        order := order[..i] + order[i + 1..];
        PushNode(order, rest, element);
        WithoutTwice(old(Keys()), key);
        assert rest[key := element] == entries;
        order := [element] + order;
      } else {
        var element := new Element(key);
        PushNode(order, entries, element);
        order, entries := [element] + order, entries[key := element];
      }
    }

    method OnRemove(key: Bytes)
      requires Valid()
      modifies this
      ensures Valid() && Keys() == Without(old(Keys()), key) && history == old(history) + [Removed(key)]
    {
      hide Replay;
      ReplayOne(history, Removed(key));
      history := history + [Removed(key)];
      if key in entries {
        var i := IndexOf(entries[key]);
        DropNode(order, entries, i);
        order, entries := order[..i] + order[i + 1..], entries - {key};
      } else {
        assert forall j :: 0 <= j < |order| ==> Values(order)[j] in entries;
        WithoutKeys(Keys(), key);
      }
    }

    /** The next key to evict, or None when nothing is tracked. */
    method Victim() returns (key: Option<Bytes>)
      requires Valid()
      ensures key.None? <==> Keys() == []
      ensures key.Some? ==> key.value in Keys() && (exact ==> key.value == Keys()[|Keys()| - 1])
      ensures key.Some? && exact ==>
        forall k :: k in Keys() ==> 0 <= LastTouch(history, key.value) <= LastTouch(history, k)
    {
      ReplayByRecency(history);
      if |order| == 0 {
        return None;
      }
      var i := |order| - 1;
      if !exact {
        i :| 0 <= i < |order|;
      }
      assert Keys()[i] == order[i].value;
      key := Some(order[i].value);
    }
  }
}
