/** Which member comes first, and which positions a range covers, said without the comparison the indexes use. */
module OrderLaws {
  import opened Bytes
  import opened SortedItems

  /** `a` ends where `b` goes on, or has the smaller byte where they first differ. */
  ghost predicate Earlier(a: Bytes, b: Bytes) {
    exists i: nat :: DiffersAt(a, b, i)
  }

  ghost predicate DiffersAt(a: Bytes, b: Bytes, i: nat) {
    && i <= |a| && i < |b| && a[..i] == b[..i] && (i < |a| ==> a[i] < b[i])
  }

  /** A lower score comes first, minus infinity before all others and plus infinity after; equal scores are
      ordered by member. */
  ghost predicate Before(m: map<Bytes, Score>, j: Bytes, k: Bytes)
    requires j in m && k in m
  {
    match m[j]
    case NegInf => !m[k].NegInf? || Earlier(j, k)
    case PosInf => m[k].PosInf? && Earlier(j, k)
    case Finite(x) => m[k].PosInf? || (m[k].Finite? && (x < m[k].value || (x == m[k].value && Earlier(j, k))))
  }

  lemma DiffersLater(a: Bytes, b: Bytes, i: nat)
    requires DiffersAt(a, b, i)
    ensures if i > 0 then a != [] && a[0] == b[0] else a != [] ==> a[0] < b[0]
  {
    if i > 0 {
      assert a[0] == a[..i][0] && b[0] == b[..i][0];
    }
  }

  lemma {:induction false} EarlierIs(a: Bytes, b: Bytes)
    ensures BytesLess(a, b) <==> Earlier(a, b)
  {
    if a == [] || b == [] || a[0] != b[0] {
      if b != [] && (a == [] || a[0] < b[0]) {
        assert DiffersAt(a, b, 0);
      }
      if Earlier(a, b) {
        var i: nat :| DiffersAt(a, b, i);
        DiffersLater(a, b, i);
      }
    } else {
      EarlierIs(a[1..], b[1..]);
      if Earlier(a[1..], b[1..]) {
        var i: nat :| DiffersAt(a[1..], b[1..], i);
        assert a[..i + 1] == [a[0]] + a[1..][..i] && b[..i + 1] == [b[0]] + b[1..][..i];
        assert DiffersAt(a, b, i + 1);
      }
      if Earlier(a, b) {
        var i: nat :| DiffersAt(a, b, i);
        assert a[1..][..i - 1] == a[..i][1..] && b[1..][..i - 1] == b[..i][1..];
        assert DiffersAt(a[1..], b[1..], i - 1);
      }
    }
  }

  lemma LessIs(m: map<Bytes, Score>, j: Bytes, k: Bytes)
    requires j in m && k in m
    ensures Less(Item(m[j], j), Item(m[k], k)) <==> Before(m, j, k)
  {
    EarlierIs(j, k);
    hide BytesLess, Earlier;
  }

  lemma BelowGrows(m: map<Bytes, Score>, j: Bytes, k: Bytes)
    requires j in m && k in m && Less(Item(m[j], j), Item(m[k], k))
    ensures RankOf(m, j) < RankOf(m, k)
  {
    var x, y := Item(m[j], j), Item(m[k], k);
    var low, high := set z | z in ItemsOf(m) && Less(z, x), set z | z in ItemsOf(m) && Less(z, y);
    LessTotal(x, x);
    forall z | z in low ensures z in high {
      LessTransitive(z, x, y);
    }
    hide Less;
    assert x in high && x !in low;
    assert high == low + (high - low);
    assert x in high - low;
  }

  /** Ranks follow scores, and members where scores are equal. */
  lemma RankFollowsScore(m: map<Bytes, Score>, j: Bytes, k: Bytes)
    requires j in m && k in m
    ensures RankOf(m, j) < RankOf(m, k) <==> Before(m, j, k)
    ensures j != k ==> Before(m, j, k) || Before(m, k, j)
  {
    LessIs(m, j, k);
    LessIs(m, k, j);
    LessTotal(Item(m[j], j), Item(m[k], k));
    hide Less, Before;
    if Before(m, j, k) {
      BelowGrows(m, j, k);
    } else if Before(m, k, j) {
      BelowGrows(m, k, j);
    }
  }

  lemma RankAt(m: map<Bytes, Score>, i: nat)
    requires i < |Ordered(m)|
    ensures var k := Ordered(m)[i].member; k in m && Ordered(m)[i] == Item(m[k], k) && RankOf(m, k) == i
  {
    OrderedElems(m);
    hide Ordered, Less;
    assert Ordered(m)[i] in ItemsOf(m);
    RankFromOrder(m, Ordered(m)[i].member, i);
  }

  lemma RankBelowSize(m: map<Bytes, Score>, k: Bytes)
    requires k in m
    ensures RankOf(m, k) < |m| && |Ordered(m)| == |m| && Ordered(m)[RankOf(m, k)] == Item(m[k], k)
  {
    OrderedElems(m);
    OrderedSize(m);
    hide Ordered, Less, RankOf;
    assert Item(m[k], k) in Elems(Ordered(m));
    var i :| 0 <= i < |Ordered(m)| && Ordered(m)[i] == Item(m[k], k);
    RankFromOrder(m, k, i);
  }

  /** A segment of the keys listed by rank. */
  lemma SegmentCovers(all: seq<Bytes>, rank: map<Bytes, int>, from: int, to: int, names: seq<Bytes>)
    requires forall i :: 0 <= i < |all| ==> all[i] in rank && rank[all[i]] == i
    requires forall k :: k in rank ==> 0 <= rank[k] < |all| && all[rank[k]] == k
    requires var lo, hi := if from < 0 then 0 else from, if to >= |all| then |all| else to + 1;
      names == if lo < hi then all[lo..hi] else []
    ensures forall k :: k in names <==> k in rank && from <= rank[k] <= to
    ensures forall i, j :: 0 <= i < j < |names| ==> names[i] in rank && names[j] in rank && rank[names[i]] < rank[names[j]]
  {
    var lo, hi := if from < 0 then 0 else from, if to >= |all| then |all| else to + 1;
    forall i | 0 <= i < |names| ensures names[i] == all[lo + i] && rank[names[i]] == lo + i {
    }
    forall k | k in rank && from <= rank[k] <= to ensures k in names {
      assert names[rank[k] - lo] == k;
    }
  }

  ghost function Ranks(m: map<Bytes, Score>): map<Bytes, int> {
    map k | k in m :: RankOf(m, k)
  }

  lemma ListedByRank(m: map<Bytes, Score>)
    ensures var all, rank := MembersOf(Ordered(m)), Ranks(m);
      && |all| == |m| && (forall i :: 0 <= i < |all| ==> all[i] in rank && rank[all[i]] == i)
      && (forall k :: k in rank ==> 0 <= rank[k] < |all| && all[rank[k]] == k)
  {
    hide Ordered, RankOf;
    OrderedSize(m);
    var all, rank := MembersOf(Ordered(m)), Ranks(m);
    forall i | 0 <= i < |all| ensures all[i] in rank && rank[all[i]] == i {
      RankAt(m, i);
    }
    forall k | k in rank ensures rank[k] < |all| && all[rank[k]] == k {
      RankBelowSize(m, k);
    }
  }

  lemma RangeIsSegment(m: map<Bytes, Score>, start: int, stop: int)
    ensures var all := MembersOf(Ordered(m));
      var from, to := if start < 0 then start + |m| else start, if stop < 0 then stop + |m| else stop;
      var lo, hi := if from < 0 then 0 else from, if to >= |all| then |all| else to + 1;
      |all| == |m| && RangeOf(m, start, stop) == if lo < hi then all[lo..hi] else []
  {
    hide Ordered;
    OrderedSize(m);
  }

  /** The names of a range are, in rank order, those ranked from `start` to `stop`, both included; a negative
      position counts from the end, and positions outside the set are left out. */
  lemma RangeCovers(m: map<Bytes, Score>, start: int, stop: int)
    ensures var names := RangeOf(m, start, stop);
      var from, to := if start < 0 then start + |m| else start, if stop < 0 then stop + |m| else stop;
      && (forall k :: k in names <==> k in m && from <= RankOf(m, k) <= to)
      && (forall i, j :: 0 <= i < j < |names| ==>
            names[i] in m && names[j] in m && RankOf(m, names[i]) < RankOf(m, names[j]))
  {
    var from, to := if start < 0 then start + |m| else start, if stop < 0 then stop + |m| else stop;
    ListedByRank(m);
    RangeIsSegment(m, start, stop);
    hide RangeOf, RankOf, Ordered, MembersOf;
    SegmentCovers(MembersOf(Ordered(m)), Ranks(m), from, to, RangeOf(m, start, stop));
  }

  /** So the names of a range are listed from the lowest score to the highest. */
  lemma RangeFollowsScore(m: map<Bytes, Score>, start: int, stop: int, i: nat, j: nat)
    requires i < j < |RangeOf(m, start, stop)|
    ensures var names := RangeOf(m, start, stop); names[i] in m && names[j] in m && Before(m, names[i], names[j])
  {
    RangeCovers(m, start, stop);
    hide RangeOf, RankOf, Before;
    var names := RangeOf(m, start, stop);
    assert names[i] in m && names[j] in m;
    RankFollowsScore(m, names[i], names[j]);
  }
}
