/** The plain meaning of a sorted set: a map from members to scores, listed by (score, member). */
module SortedItems {
  import opened Bytes

  /** A float64 score without NaN, which the command layer rejects. */
  datatype Score = NegInf | Finite(value: real) | PosInf

  predicate ScoreLess(a: Score, b: Score) {
    a != b && (a.NegInf? || b.PosInf? || (a.Finite? && b.Finite? && a.value < b.value))
  }

  datatype Item = Item(score: Score, member: Bytes)

  predicate Less(a: Item, b: Item) {
    ScoreLess(a.score, b.score) || (a.score == b.score && BytesLess(a.member, b.member))
  }

  lemma LessTotal(a: Item, b: Item)
    ensures Less(a, b) || Less(b, a) || a == b
    ensures !(Less(a, b) && Less(b, a))
    ensures !Less(a, a)
  {
    BytesLessTotal(a.member, b.member);
    BytesLessTotal(a.member, a.member);
  }

  lemma LessTransitive(a: Item, b: Item, c: Item)
    requires Less(a, b) && Less(b, c)
    ensures Less(a, c)
  {
    if a.score == b.score && b.score == c.score {
      BytesLessTransitive(a.member, b.member, c.member);
    }
  }

  /** (score, member) order is a strict total order. */
  lemma LessIsTotalOrder()
    ensures forall a, b :: Less(a, b) || Less(b, a) || a == b
    ensures forall a, b :: Less(a, b) ==> !Less(b, a)
    ensures forall a :: !Less(a, a)
    ensures forall a, b, c :: Less(a, b) && Less(b, c) ==> Less(a, c)
  {
    forall a, b ensures Less(a, b) || Less(b, a) || a == b {
      LessTotal(a, b);
    }
    forall a, b | Less(a, b) ensures !Less(b, a) {
      LessTotal(a, b);
    }
    forall a ensures !Less(a, a) {
      LessTotal(a, a);
    }
    forall a, b, c | Less(a, b) && Less(b, c) ensures Less(a, c) {
      LessTransitive(a, b, c);
    }
  }

  ghost predicate IsSorted(s: seq<Item>) {
    forall i, j :: 0 <= i < j < |s| ==> Less(s[i], s[j])
  }

  ghost function Elems(s: seq<Item>): set<Item> {
    set x | x in s
  }

  ghost function ItemsOf(m: map<Bytes, Score>): set<Item> {
    set k | k in m :: Item(m[k], k)
  }

  /** A strictly sorted sequence is determined by its elements. */
  lemma {:induction false} SortedUnique(a: seq<Item>, b: seq<Item>)
    requires IsSorted(a) && IsSorted(b) && Elems(a) == Elems(b)
    ensures a == b
  {
    hide Less;
    LessIsTotalOrder();
    if a == [] || b == [] {
      SortedSize(a);
      SortedSize(b);
    } else {
      assert a[0] in Elems(b);
      assert b[0] in Elems(a);
      assert a[0] == b[0];
      assert Elems(a[1..]) == Elems(a) - {a[0]} by { DropHead(a); }
      assert Elems(b[1..]) == Elems(b) - {b[0]} by { DropHead(b); }
      SortedUnique(a[1..], b[1..]);
      assert a == [a[0]] + a[1..] && b == [b[0]] + b[1..];
    }
  }

  lemma DropHead(s: seq<Item>)
    requires IsSorted(s) && s != []
    ensures Elems(s[1..]) == Elems(s) - {s[0]}
  {
    hide Less;
    LessIsTotalOrder();
    assert s == [s[0]] + s[1..];
  }

  lemma {:induction false} SortedSize(s: seq<Item>)
    requires IsSorted(s)
    ensures |Elems(s)| == |s|
  {
    if s == [] {
      assert Elems(s) == {};
    } else {
      DropHead(s);
      SortedSize(s[1..]);
      assert s[0] in Elems(s);
    }
  }

  ghost function Least(s: set<Item>): (x: Item)
    requires s != {}
    ensures x in s && forall y :: y in s ==> x == y || Less(x, y)
  {
    LeastExists(s);
    var x :| x in s && forall y :: y in s ==> x == y || Less(x, y);
    x
  }

  lemma {:induction false} LeastExists(s: set<Item>)
    requires s != {}
    ensures exists x :: x in s && forall y :: y in s ==> x == y || Less(x, y)
  {
    hide Less;
    var z :| z in s;
    if s != {z} {
      LeastExists(s - {z});
      var x :| x in s - {z} && forall y :: y in s - {z} ==> x == y || Less(x, y);
      var w := if Less(x, z) then x else z;
      forall y | y in s ensures w == y || Less(w, y) {
        LessTotal(x, z);
        if y != z && w != x && y != x {
          LessTransitive(z, x, y);
        }
      }
    }
  }

  /** The items of a set in ascending order. */
  ghost function Ascending(s: set<Item>): (r: seq<Item>)
    ensures IsSorted(r) && Elems(r) == s
  {
    if s == {} then [] else
      var x := Least(s);
      var rest := Ascending(s - {x});
      assert forall i :: 0 <= i < |rest| ==> rest[i] in Elems(rest);
      assert Elems([x] + rest) == {x} + Elems(rest);
      [x] + rest
  }

  /** The items of a member map, ordered by (score, member). */
  ghost function Ordered(m: map<Bytes, Score>): seq<Item> {
    Ascending(ItemsOf(m))
  }

  lemma OrderedIs(m: map<Bytes, Score>, s: seq<Item>)
    requires IsSorted(s) && Elems(s) == ItemsOf(m)
    ensures Ordered(m) == s
  {
    SortedUnique(s, Ordered(m));
  }

  lemma {:induction false} ItemsSize(m: map<Bytes, Score>)
    ensures |ItemsOf(m)| == |m|
  {
    if m == map[] {
      assert ItemsOf(m) == {};
    } else {
      var k :| k in m;
      var rest := m - {k};
      ItemsSize(rest);
      assert ItemsOf(m) == ItemsOf(rest) + {Item(m[k], k)};
      assert Item(m[k], k) !in ItemsOf(rest);
    }
  }

  lemma OrderedElems(m: map<Bytes, Score>)
    ensures IsSorted(Ordered(m)) && Elems(Ordered(m)) == ItemsOf(m)
  {
  }

  lemma OrderedSize(m: map<Bytes, Score>)
    ensures |Ordered(m)| == |m|
  {
    ItemsSize(m);
    SortedSize(Ordered(m));
  }

  lemma ItemsPut(m: map<Bytes, Score>, k: Bytes, v: Score)
    requires k !in m
    ensures ItemsOf(m[k := v]) == ItemsOf(m) + {Item(v, k)}
    ensures Item(v, k) !in ItemsOf(m)
  {
    var put := m[k := v];
    forall x ensures x in ItemsOf(put) <==> x in ItemsOf(m) + {Item(v, k)} {
      if x in ItemsOf(m) { assert x.member in put; }
      assert k in put;
    }
  }

  lemma ItemsDrop(m: map<Bytes, Score>, k: Bytes)
    requires k in m
    ensures ItemsOf(m - {k}) == ItemsOf(m) - {Item(m[k], k)}
  {
    var rest := m - {k};
    forall x ensures x in ItemsOf(rest) <==> x in ItemsOf(m) - {Item(m[k], k)} {
      if x in ItemsOf(m) && x.member != k { assert x.member in rest; }
    }
  }

  /** The zero-based position of a member: how many items come before it. */
  ghost function RankOf(m: map<Bytes, Score>, k: Bytes): nat
    requires k in m
  {
    |set x | x in ItemsOf(m) && Less(x, Item(m[k], k))|
  }

  function MembersOf(s: seq<Item>): (r: seq<Bytes>)
    ensures |r| == |s|
    ensures forall i :: 0 <= i < |s| ==> r[i] == s[i].member
  {
    seq(|s|, i requires 0 <= i < |s| => s[i].member)
  }

  function FromEnd(index: int, length: nat): int {
    if index < 0 then index + length else index
  }

  /** Members at positions start..stop inclusive, negative positions counting from the end. */
  ghost function RangeOf(m: map<Bytes, Score>, start: int, stop: int): seq<Bytes> {
    var names := MembersOf(Ordered(m));
    var lo := if FromEnd(start, |names|) < 0 then 0 else FromEnd(start, |names|);
    var hi := if FromEnd(stop, |names|) >= |names| then |names| else FromEnd(stop, |names|) + 1;
    if lo < hi then names[lo..hi] else []
  }

  function ClampStart(start: int, length: nat): nat {
    if FromEnd(start, length) < 0 then 0 else FromEnd(start, length)
  }

  function ClampStop(stop: int, length: nat): int {
    if FromEnd(stop, length) >= length then length - 1 else FromEnd(stop, length)
  }

  /** The window both indexes walk once start and stop are clamped. */
  lemma RangeIs(m: map<Bytes, Score>, start: int, stop: int)
    ensures var from, to, n := ClampStart(start, |m|), ClampStop(stop, |m|), |m|;
      && |Ordered(m)| == n
      && RangeOf(m, start, stop) == if from > to || from >= n then [] else MembersOf(Ordered(m)[from..to + 1])
  {
    hide Ordered;
    OrderedSize(m);
    var s, from, to := Ordered(m), ClampStart(start, |m|), ClampStop(stop, |m|);
    if from <= to && from < |m| {
      assert MembersOf(s)[from..to + 1] == MembersOf(s[from..to + 1]);
    }
  }

  /** The element at index i of a sorted sequence has exactly i elements below it. */
  lemma {:induction false} RankInSorted(s: seq<Item>, i: nat)
    requires IsSorted(s) && i < |s|
    ensures |set x | x in Elems(s) && Less(x, s[i])| == i
  {
    hide Less;
    LessIsTotalOrder();
    var below := set x | x in Elems(s) && Less(x, s[i]);
    forall x ensures x in below <==> x in Elems(s[..i]) {
      if x in below {
        var j :| 0 <= j < |s| && s[j] == x;
        assert j < i;
        assert s[..i][j] == x;
      }
      if x in s[..i] {
        var j :| 0 <= j < i && s[..i][j] == x;
        assert s[j] == x;
      }
    }
    assert below == Elems(s[..i]);
    SortedSize(s[..i]);
  }

  lemma RankFromOrder(m: map<Bytes, Score>, k: Bytes, i: nat)
    requires k in m && i < |Ordered(m)| && Ordered(m)[i] == Item(m[k], k)
    ensures RankOf(m, k) == i
  {
    RankInSorted(Ordered(m), i);
    assert ItemsOf(m) == Elems(Ordered(m));
    assert (set x | x in ItemsOf(m) && Less(x, Item(m[k], k)))
        == (set x | x in Elems(Ordered(m)) && Less(x, Ordered(m)[i]));
  }

  /** Rank and range answer the same question: position r holds m exactly when m has rank r. */
  lemma RankRangeAgree(m: map<Bytes, Score>, k: Bytes, r: nat)
    requires k in m && r < |m|
    ensures RankOf(m, k) == r <==> RangeOf(m, r, r) == [k]
  {
    hide Less;
    LessIsTotalOrder();
    OrderedSize(m);
    var s := Ordered(m);
    assert Item(m[k], k) in Elems(s);
    var i :| 0 <= i < |s| && s[i] == Item(m[k], k);
    RankFromOrder(m, k, i);
    assert RangeOf(m, r, r) == [s[r].member];
    if s[r].member == k {
      assert s[r] in ItemsOf(m);
      assert s[r] == s[i];
    }
  }
}
