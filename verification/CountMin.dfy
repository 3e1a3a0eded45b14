/** Count-Min sketches over an arbitrary hash: exact collision sums and exact overflow. */
module CountMin {
  import opened Bytes
  import opened Options
  import opened FiniteSums

  const MAX_UINT64 := 0xFFFF_FFFF_FFFF_FFFF

  /** Every value stored in a sketch must be shown to fit a Go uint64. */
  type uint64 = n: int | 0 <= n <= MAX_UINT64

  datatype Sketch = Sketch(width: nat, depth: nat, rows: seq<seq<uint64>>, count: uint64)

  datatype Increment = Increment(item: Bytes, value: uint64)

  ghost predicate Shaped(s: Sketch) {
    && s.width > 0 && s.depth > 0 && |s.rows| == s.depth
    && forall r :: 0 <= r < s.depth ==> |s.rows[r]| == s.width
  }

  function Column(h: Hash, s: Sketch, item: Bytes, row: nat): nat
    requires s.width > 0
  {
    h(item, row) % s.width
  }

  /** The smallest counter of an item's cells in rows `row` and on. */
  ghost function QueryFrom(h: Hash, s: Sketch, item: Bytes, row: nat): uint64
    requires Shaped(s) && row <= s.depth
    decreases s.depth - row
  {
    if row == s.depth then MAX_UINT64 else
      var rest, cell := QueryFrom(h, s, item, row + 1), s.rows[row][Column(h, s, item, row)];
      if cell < rest then cell else rest
  }

  ghost function Query(h: Hash, s: Sketch, item: Bytes): uint64
    requires Shaped(s)
  {
    QueryFrom(h, s, item, 0)
  }

  /** The guards of one increment: on the count and on each of the item's cells. */
  ghost predicate CountFits(s: Sketch, v: uint64) {
    s.count + v <= MAX_UINT64
  }

  ghost predicate CellsFit(h: Hash, s: Sketch, item: Bytes, v: uint64)
    requires Shaped(s)
  {
    forall r :: 0 <= r < s.depth ==> s.rows[r][Column(h, s, item, r)] + v <= MAX_UINT64
  }

  ghost function Bump(h: Hash, s: Sketch, item: Bytes, v: uint64): (b: Sketch)
    requires Shaped(s) && CountFits(s, v) && CellsFit(h, s, item, v)
    ensures Shaped(b) && b.width == s.width && b.depth == s.depth && b.count == s.count + v
  {
    var rows := seq(s.depth, r requires 0 <= r < s.depth =>
      var c := Column(h, s, item, r); var cell: uint64 := s.rows[r][c] + v; s.rows[r][c := cell]);
    Sketch(s.width, s.depth, rows, s.count + v)
  }

  /** A batch of increments: it stops at the first that would overflow and keeps the earlier ones. */
  ghost function IncrementAll(h: Hash, s: Sketch, batch: seq<Increment>): (r: (Sketch, Option<seq<uint64>>))
    requires Shaped(s)
    ensures Shaped(r.0) && r.0.width == s.width && r.0.depth == s.depth
    decreases |batch|
  {
    if batch == [] then (s, Some([])) else
      var one := batch[0];
      if !CountFits(s, one.value) || !CellsFit(h, s, one.item, one.value) then (s, None) else
        var s1 := Bump(h, s, one.item, one.value);
        var (s2, rest) := IncrementAll(h, s1, batch[1..]);
        (s2, if rest.Some? then Some([Query(h, s1, one.item)] + rest.value) else None)
  }

  /** The smallest counter of an item over the rows from `row` on. */
  ghost predicate SmallestFrom(h: Hash, s: Sketch, item: Bytes, row: nat, least: uint64)
    requires Shaped(s)
  {
    && (forall r :: row <= r < s.depth ==> least <= s.rows[r][h(item, r) % s.width])
    && (row < s.depth ==> exists r :: row <= r < s.depth && s.rows[r][h(item, r) % s.width] == least)
  }

  lemma {:induction false} QueryFromIsSmallest(h: Hash, s: Sketch, item: Bytes, row: nat)
    requires Shaped(s) && row <= s.depth
    ensures SmallestFrom(h, s, item, row, QueryFrom(h, s, item, row))
    decreases s.depth - row
  {
    if row < s.depth {
      QueryFromIsSmallest(h, s, item, row + 1);
      var rest, cell := QueryFrom(h, s, item, row + 1), s.rows[row][h(item, row) % s.width];
      if row + 1 < s.depth && rest <= cell {
        var r :| row + 1 <= r < s.depth && s.rows[r][h(item, r) % s.width] == rest;
        assert row <= r < s.depth && s.rows[r][h(item, r) % s.width] == QueryFrom(h, s, item, row);
      } else {
        assert s.rows[row][h(item, row) % s.width] == QueryFrom(h, s, item, row);
      }
    }
  }

  /** The estimate of an item is the smallest of its counters, one in every row. */
  lemma QueryIsSmallest(h: Hash, s: Sketch, item: Bytes)
    requires Shaped(s)
    ensures forall r :: 0 <= r < s.depth ==> Query(h, s, item) <= s.rows[r][h(item, r) % s.width]
    ensures exists r :: 0 <= r < s.depth && s.rows[r][h(item, r) % s.width] == Query(h, s, item)
  {
    QueryFromIsSmallest(h, s, item, 0);
  }

  /** The answers of a batch are the estimates after each of its increments. */
  lemma {:induction false} BatchAnswers(h: Hash, s: Sketch, batch: seq<Increment>, i: nat)
    requires Shaped(s) && IncrementAll(h, s, batch).1.Some? && i < |batch|
    ensures |IncrementAll(h, s, batch).1.value| == |batch|
    ensures var after := IncrementAll(h, s, batch[..i + 1]).0;
      SmallestFrom(h, after, batch[i].item, 0, IncrementAll(h, s, batch).1.value[i])
    decreases |batch|
  {
    hide Bump, Query, CellsFit, SmallestFrom;
    var s1 := Bump(h, s, batch[0].item, batch[0].value);
    assert batch[..i + 1][1..] == batch[1..][..i];
    if i > 0 {
      BatchAnswers(h, s1, batch[1..], i - 1);
    } else {
      BatchLength(h, s1, batch[1..]);
      assert batch[1..][..0] == [];
      QueryFromIsSmallest(h, s1, batch[0].item, 0);
      QueryIs(h, s1, batch[0].item);
    }
  }

  lemma QueryIs(h: Hash, s: Sketch, item: Bytes)
    requires Shaped(s)
    ensures Query(h, s, item) == QueryFrom(h, s, item, 0)
  {
  }

  lemma {:induction false} BatchLength(h: Hash, s: Sketch, batch: seq<Increment>)
    requires Shaped(s) && IncrementAll(h, s, batch).1.Some?
    ensures |IncrementAll(h, s, batch).1.value| == |batch|
    decreases |batch|
  {
    hide Bump, Query, CellsFit;
    if batch != [] {
      BatchLength(h, Bump(h, s, batch[0].item, batch[0].value), batch[1..]);
    }
  }

  // ----- what the counters mean -----

  /** How often each item was really added. */
  type Totals = map<Bytes, nat>

  ghost function TotalOf(t: Totals): Bytes -> int {
    k => if k in t then t[k] else 0
  }

  /** What each item contributes to one cell: its total, if it hashes there. */
  ghost function PartOf(h: Hash, t: Totals, width: nat, r: nat, c: nat): Bytes -> int
    requires width > 0
  {
    k => if k in t && h(k, r) % width == c then t[k] else 0
  }

  /** Each cell is the sum of the true totals of the items hashing to it; the count sums them all. */
  ghost predicate Exact(h: Hash, s: Sketch, t: Totals) {
    && Shaped(s) && s.count == Sum(t.Keys, TotalOf(t))
    && forall r, c :: 0 <= r < s.depth && 0 <= c < s.width ==>
         s.rows[r][c] == Sum(t.Keys, PartOf(h, t, s.width, r, c))
  }

  ghost function Added(t: Totals, item: Bytes, v: nat): (t': Totals)
    ensures t'.Keys == t.Keys + {item}
  {
    t[item := TotalOf(t)(item) + v]
  }

  /** A sum whose terms change at one element only, which may be new with an old term of zero. */
  lemma SumBumped(keys: set<Bytes>, f: Bytes -> int, g: Bytes -> int, x: Bytes)
    requires forall k :: k in keys && k != x ==> f(k) == g(k)
    requires x !in keys ==> f(x) == 0
    ensures Sum(keys + {x}, g) == Sum(keys, f) + g(x) - f(x)
  {
    if x in keys {
      assert keys + {x} == keys;
      SumChange(keys, f, g, x);
    } else {
      SumInsert(keys, g, x);
      SumSame(keys, f, g);
    }
  }

  lemma BumpCell(h: Hash, s: Sketch, t: Totals, item: Bytes, v: uint64, r: nat, c: nat)
    requires Exact(h, s, t) && CountFits(s, v) && CellsFit(h, s, item, v) && r < s.depth && c < s.width
    ensures Bump(h, s, item, v).rows[r][c] == Sum(Added(t, item, v).Keys, PartOf(h, Added(t, item, v), s.width, r, c))
  {
    SumBumped(t.Keys, PartOf(h, t, s.width, r, c), PartOf(h, Added(t, item, v), s.width, r, c), item);
  }

  /** An increment keeps the sketch exact. */
  lemma BumpExact(h: Hash, s: Sketch, t: Totals, item: Bytes, v: uint64)
    requires Exact(h, s, t) && CountFits(s, v) && CellsFit(h, s, item, v)
    ensures Exact(h, Bump(h, s, item, v), Added(t, item, v))
  {
    SumBumped(t.Keys, TotalOf(t), TotalOf(Added(t, item, v)), item);
    forall r, c | 0 <= r < s.depth && 0 <= c < s.width
      ensures Bump(h, s, item, v).rows[r][c] == Sum(Added(t, item, v).Keys, PartOf(h, Added(t, item, v), s.width, r, c))
    {
      BumpCell(h, s, t, item, v, r, c);
    }
  }

  /** No cell exceeds the count, so the guard on the count decides alone. */
  lemma CellsBelowCount(h: Hash, s: Sketch, t: Totals)
    requires Exact(h, s, t)
    ensures forall r, c :: 0 <= r < s.depth && 0 <= c < s.width ==> s.rows[r][c] <= s.count
  {
    forall r, c | 0 <= r < s.depth && 0 <= c < s.width ensures s.rows[r][c] <= s.count {
      SumMonotone(t.Keys, PartOf(h, t, s.width, r, c), TotalOf(t));
    }
  }

  lemma CountGuardDecides(h: Hash, s: Sketch, t: Totals, item: Bytes, v: uint64)
    requires Exact(h, s, t)
    ensures CountFits(s, v) ==> CellsFit(h, s, item, v)
  {
    CellsBelowCount(h, s, t);
  }

  lemma {:induction false} QueryBounds(h: Hash, s: Sketch, t: Totals, item: Bytes, row: nat)
    requires Exact(h, s, t) && row <= s.depth
    ensures TotalOf(t)(item) <= QueryFrom(h, s, item, row) && (row < s.depth ==> QueryFrom(h, s, item, row) <= s.count)
    decreases s.depth - row
  {
    SumAtLeast(t.Keys, TotalOf(t), item);
    if row < s.depth {
      QueryBounds(h, s, t, item, row + 1);
      var c := Column(h, s, item, row);
      SumAtLeast(t.Keys, PartOf(h, t, s.width, row, c), item);
      CellsBelowCount(h, s, t);
    }
  }

  /** A query never undershoots the truth and never exceeds the number of additions. */
  lemma QuerySound(h: Hash, s: Sketch, t: Totals, item: Bytes)
    requires Exact(h, s, t)
    ensures TotalOf(t)(item) <= Query(h, s, item) <= s.count
  {
    QueryBounds(h, s, t, item, 0);
  }

  ghost function RowSum(row: seq<uint64>, n: nat): int
    requires n <= |row|
  {
    if n == 0 then 0 else RowSum(row, n - 1) + row[n - 1]
  }

  /** Every row spreads the same additions: each row sums to the count. */
  lemma RowsSumToCount(h: Hash, s: Sketch, t: Totals, r: nat)
    requires Exact(h, s, t) && r < s.depth
    ensures RowSum(s.rows[r], s.width) == s.count
  {
    RowPrefix(h, s, t, r, s.width);
    SumSame(t.Keys, (k: Bytes) => if k in t && h(k, r) % s.width < s.width then t[k] else 0, TotalOf(t));
  }

  lemma {:induction false} RowPrefix(h: Hash, s: Sketch, t: Totals, r: nat, n: nat)
    requires Exact(h, s, t) && r < s.depth && n <= s.width
    ensures RowSum(s.rows[r], n) == Sum(t.Keys, (k: Bytes) => if k in t && h(k, r) % s.width < n then t[k] else 0)
  {
    var upto := (k: Bytes) => if k in t && h(k, r) % s.width < n then t[k] else 0;
    if n == 0 {
      SumZero(t.Keys, upto);
    } else {
      RowPrefix(h, s, t, r, n - 1);
      var below := (k: Bytes) => if k in t && h(k, r) % s.width < n - 1 then t[k] else 0;
      SumPlus(t.Keys, below, PartOf(h, t, s.width, r, n - 1), upto, 1);
    }
  }

  /** How many leading increments the count alone admits. */
  ghost function Accepted(count: nat, batch: seq<Increment>): (n: nat)
    ensures n <= |batch|
    decreases |batch|
  {
    if batch == [] || count + batch[0].value > MAX_UINT64 then 0
    else 1 + Accepted(count + batch[0].value, batch[1..])
  }

  ghost function AddedAll(t: Totals, batch: seq<Increment>): Totals
    decreases |batch|
  {
    if batch == [] then t else AddedAll(Added(t, batch[0].item, batch[0].value), batch[1..])
  }

  /** A batch counts exactly its accepted prefix, and fails exactly when the count would overflow. */
  lemma {:induction false} BatchExact(h: Hash, s: Sketch, t: Totals, batch: seq<Increment>)
    requires Exact(h, s, t)
    ensures var (s', results) := IncrementAll(h, s, batch);
      var n := Accepted(s.count, batch);
      && Exact(h, s', AddedAll(t, batch[..n]))
      && (results.Some? <==> n == |batch|) && (results.Some? ==> |results.value| == |batch|)
    decreases |batch|
  {
    hide Bump, Query, CellsFit, Added, TotalOf, PartOf, Sum;
    if batch != [] && CountFits(s, batch[0].value) {
      var one := batch[0];
      CountGuardDecides(h, s, t, one.item, one.value);
      BumpExact(h, s, t, one.item, one.value);
      var s1 := Bump(h, s, one.item, one.value);
      BatchExact(h, s1, Added(t, one.item, one.value), batch[1..]);
      var n := Accepted(s.count, batch);
      assert batch[..n][1..] == batch[1..][..n - 1];
    }
  }

  // ----- merging -----

  datatype Merge = Merged(sketch: Sketch) | Incompatible | Overflow

  function EmptySketch(width: nat, depth: nat): (s: Sketch)
    ensures width > 0 && depth > 0 ==> Shaped(s)
  {
    Sketch(width, depth, seq(depth, _ => seq(width, _ => 0)), 0)
  }

  ghost predicate SameShape(a: Sketch, b: Sketch) {
    a.width == b.width && a.depth == b.depth
  }

  ghost predicate RowFits(row: seq<uint64>, source: seq<uint64>, w: uint64)
    requires |row| == |source|
  {
    forall c :: 0 <= c < |row| ==> row[c] + source[c] * w <= MAX_UINT64
  }

  ghost function PlusRow(row: seq<uint64>, source: seq<uint64>, w: uint64): (sum: seq<uint64>)
    requires |row| == |source| && RowFits(row, source, w)
    ensures |sum| == |row| && forall c :: 0 <= c < |row| ==> sum[c] == row[c] + source[c] * w
  {
    seq(|row|, c requires 0 <= c < |row| => var cell: uint64 := row[c] + source[c] * w; cell)
  }

  /** No counter overflows when `w` times a source is added. */
  ghost predicate SumFits(acc: Sketch, s: Sketch, w: uint64)
    requires Shaped(acc) && Shaped(s) && SameShape(acc, s)
  {
    acc.count + s.count * w <= MAX_UINT64 && forall r :: 0 <= r < s.depth ==> RowFits(acc.rows[r], s.rows[r], w)
  }

  ghost function PlusTimes(acc: Sketch, s: Sketch, w: uint64): (m: Sketch)
    requires Shaped(acc) && Shaped(s) && SameShape(acc, s) && SumFits(acc, s, w)
    ensures Shaped(m) && SameShape(m, acc)
  {
    var rows := seq(s.depth, r requires 0 <= r < s.depth => PlusRow(acc.rows[r], s.rows[r], w));
    Sketch(acc.width, acc.depth, rows, acc.count + s.count * w)
  }

  ghost function MergeFrom(acc: Sketch, sources: seq<Sketch>, weights: seq<uint64>): (m: Merge)
    requires Shaped(acc) && |sources| == |weights| && forall i :: 0 <= i < |sources| ==> Shaped(sources[i])
    ensures m.Merged? ==> Shaped(m.sketch) && SameShape(m.sketch, acc)
    decreases |sources|
  {
    if sources == [] then Merged(acc)
    else if !SameShape(acc, sources[0]) then Incompatible
    else if !SumFits(acc, sources[0], weights[0]) then Overflow
    else MergeFrom(PlusTimes(acc, sources[0], weights[0]), sources[1..], weights[1..])
  }

  /** The sketch made by adding up weighted sources, all shaped like the first. */
  ghost function MergeAll(sources: seq<Sketch>, weights: seq<uint64>): (m: Merge)
    requires 0 < |sources| == |weights| && forall i :: 0 <= i < |sources| ==> Shaped(sources[i])
    ensures m.Merged? ==> Shaped(m.sketch) && SameShape(m.sketch, sources[0])
  {
    assert Shaped(sources[0]);
    MergeFrom(EmptySketch(sources[0].width, sources[0].depth), sources, weights)
  }

  /** Totals of an accumulated sketch plus `w` times those of a source. */
  ghost function PlusTotals(t: Totals, u: Totals, w: nat): Totals {
    map k | k in t.Keys + u.Keys :: (if k in t then t[k] else 0) + w * (if k in u then u[k] else 0)
  }

  lemma SumPad(keys: set<Bytes>, more: set<Bytes>, f: Bytes -> int)
    requires forall k :: k in more && k !in keys ==> f(k) == 0
    ensures Sum(keys + more, f) == Sum(keys, f)
  {
    assert keys + more == keys + (more - keys);
    SumUnion(keys, more - keys, f);
    SumZero(more - keys, f);
  }

  lemma SumPlusTotals(t: Totals, u: Totals, w: nat, f: Bytes -> int, g: Bytes -> int, fg: Bytes -> int)
    requires forall k :: k !in t ==> f(k) == 0
    requires forall k :: k !in u ==> g(k) == 0
    requires forall k :: k in t.Keys + u.Keys ==> fg(k) == f(k) + w * g(k)
    ensures Sum(PlusTotals(t, u, w).Keys, fg) == Sum(t.Keys, f) + w * Sum(u.Keys, g)
  {
    var all := t.Keys + u.Keys;
    assert PlusTotals(t, u, w).Keys == all && all == u.Keys + t.Keys;
    SumPlus(all, f, g, fg, w);
    SumPad(t.Keys, u.Keys, f);
    SumPad(u.Keys, t.Keys, g);
  }

  lemma PartPlus(h: Hash, t: Totals, u: Totals, w: nat, width: nat, r: nat, c: nat)
    requires width > 0
    ensures Sum(PlusTotals(t, u, w).Keys, PartOf(h, PlusTotals(t, u, w), width, r, c))
         == Sum(t.Keys, PartOf(h, t, width, r, c)) + w * Sum(u.Keys, PartOf(h, u, width, r, c))
  {
    var f, g, fg := PartOf(h, t, width, r, c), PartOf(h, u, width, r, c), PartOf(h, PlusTotals(t, u, w), width, r, c);
    forall k | k in t.Keys + u.Keys ensures fg(k) == f(k) + w * g(k) {
      if h(k, r) % width != c {
        assert fg(k) == 0 && f(k) == 0 && g(k) == 0;
      }
    }
    SumPlusTotals(t, u, w, f, g, fg);
  }

  /** Adding a weighted exact sketch to an exact sketch is exact for the weighted totals. */
  lemma PlusTimesExact(h: Hash, acc: Sketch, t: Totals, s: Sketch, u: Totals, w: uint64)
    requires Exact(h, acc, t) && Exact(h, s, u) && SameShape(acc, s) && SumFits(acc, s, w)
    ensures Exact(h, PlusTimes(acc, s, w), PlusTotals(t, u, w))
  {
    var tu, m := PlusTotals(t, u, w), PlusTimes(acc, s, w);
    SumPlusTotals(t, u, w, TotalOf(t), TotalOf(u), TotalOf(tu));
    hide Sum, PartOf, TotalOf, PlusTotals;
    forall r, c | 0 <= r < s.depth && 0 <= c < s.width
      ensures m.rows[r][c] == Sum(tu.Keys, PartOf(h, tu, s.width, r, c))
    {
      PartPlus(h, t, u, w, s.width, r, c);
      TimesCommutes(s.rows[r][c], w);
    }
    TimesCommutes(s.count, w);
  }

  lemma TimesCommutes(a: int, b: int)
    ensures a * b == b * a
  {
  }

  /** For exact sketches the count alone decides whether a weighted sum fits. */
  lemma SumFitsByCount(h: Hash, acc: Sketch, t: Totals, s: Sketch, u: Totals, w: uint64)
    requires Exact(h, acc, t) && Exact(h, s, u) && SameShape(acc, s)
    ensures SumFits(acc, s, w) <==> acc.count + s.count * w <= MAX_UINT64
  {
    CellsBelowCount(h, acc, t);
    CellsBelowCount(h, s, u);
    forall r, c | 0 <= r < s.depth && 0 <= c < s.width
      ensures acc.rows[r][c] + s.rows[r][c] * w <= acc.count + s.count * w
    {
      TimesMonotone(s.rows[r][c], s.count, w);
    }
  }

  lemma TimesMonotone(a: nat, b: nat, w: nat)
    requires a <= b
    ensures a * w <= b * w
  {
  }

  ghost function WeightedCount(sources: seq<Sketch>, weights: seq<uint64>): nat
    requires |sources| == |weights|
    decreases |sources|
  {
    if sources == [] then 0 else sources[0].count * weights[0] + WeightedCount(sources[1..], weights[1..])
  }

  ghost function WeightedTotals(t: Totals, totals: seq<Totals>, weights: seq<uint64>): Totals
    requires |totals| == |weights|
    decreases |totals|
  {
    if totals == [] then t else WeightedTotals(PlusTotals(t, totals[0], weights[0]), totals[1..], weights[1..])
  }

  /** Merging equal-sized exact sketches overflows exactly when the weighted sum of their counts
      does; otherwise every cell and the count are the exact weighted sums. */
  lemma {:induction false} MergeExact(h: Hash, acc: Sketch, t: Totals, sources: seq<Sketch>, totals: seq<Totals>, weights: seq<uint64>)
    requires |sources| == |weights| == |totals| && Exact(h, acc, t)
    requires forall i :: 0 <= i < |sources| ==> Shaped(sources[i]) && SameShape(acc, sources[i])
    requires forall i :: 0 <= i < |sources| ==> Exact(h, sources[i], totals[i])
    ensures var m := MergeFrom(acc, sources, weights);
      && (m.Overflow? <==> acc.count + WeightedCount(sources, weights) > MAX_UINT64) && !m.Incompatible?
      && (m.Merged? ==> Exact(h, m.sketch, WeightedTotals(t, totals, weights)))
      && (m.Merged? ==> m.sketch.count == acc.count + WeightedCount(sources, weights))
    decreases |sources|
  {
    if sources != [] {
      SumFitsByCount(h, acc, t, sources[0], totals[0], weights[0]);
      if SumFits(acc, sources[0], weights[0]) {
        PlusTimesExact(h, acc, t, sources[0], totals[0], weights[0]);
        MergeExact(h, PlusTimes(acc, sources[0], weights[0]), PlusTotals(t, totals[0], weights[0]), sources[1..], totals[1..], weights[1..]);
      }
    }
  }

  /** Source i is the first of another shape, and the counts before it fit. */
  ghost predicate MisfitAt(acc: Sketch, sources: seq<Sketch>, weights: seq<uint64>, i: nat)
    requires |sources| == |weights|
  {
    && i < |sources| && !(sources[i].width == acc.width && sources[i].depth == acc.depth)
    && (forall j :: 0 <= j < i ==> sources[j].width == acc.width && sources[j].depth == acc.depth)
    && acc.count + WeightedCount(sources[..i], weights[..i]) <= MAX_UINT64
  }

  /** A merge is rejected as incompatible exactly when a source of another size comes up before an overflow. */
  lemma {:induction false} MergeIncompatible(h: Hash, acc: Sketch, t: Totals, sources: seq<Sketch>, totals: seq<Totals>, weights: seq<uint64>)
    requires |sources| == |weights| == |totals| && Shaped(acc) && Exact(h, acc, t)
    requires forall i :: 0 <= i < |sources| ==> Shaped(sources[i]) && Exact(h, sources[i], totals[i])
    ensures MergeFrom(acc, sources, weights).Incompatible? <==> exists i: nat :: MisfitAt(acc, sources, weights, i)
    decreases |sources|
  {
    hide Exact, SumFits, PlusTimes;
    if sources != [] && SameShape(acc, sources[0]) {
      SumFitsByCount(h, acc, t, sources[0], totals[0], weights[0]);
      if SumFits(acc, sources[0], weights[0]) {
        var next := PlusTimes(acc, sources[0], weights[0]);
        PlusTimesExact(h, acc, t, sources[0], totals[0], weights[0]);
        MergeIncompatible(h, next, PlusTotals(t, totals[0], weights[0]), sources[1..], totals[1..], weights[1..]);
        PlusTimesCount(acc, sources[0], weights[0]);
        if i: nat :| MisfitAt(acc, sources, weights, i) {
          MisfitLater(acc, next, sources, weights, i - 1);
        }
        if i: nat :| MisfitAt(next, sources[1..], weights[1..], i) {
          MisfitLater(acc, next, sources, weights, i);
          assert MisfitAt(acc, sources, weights, i + 1);
        }
      } else {
        forall i: nat ensures !MisfitAt(acc, sources, weights, i) {
          TooMuch(acc, sources, weights, i);
        }
      }
    } else if sources != [] {
      assert MisfitAt(acc, sources, weights, 0);
    }
  }

  lemma PlusTimesCount(acc: Sketch, s: Sketch, w: uint64)
    requires Shaped(acc) && Shaped(s) && SameShape(acc, s) && SumFits(acc, s, w)
    ensures PlusTimes(acc, s, w).count == acc.count + s.count * w && SameShape(PlusTimes(acc, s, w), acc)
  {
  }

  lemma FirstWeighted(sources: seq<Sketch>, weights: seq<uint64>, i: nat)
    requires |sources| == |weights| && i < |sources|
    ensures WeightedCount(sources[..i + 1], weights[..i + 1])
         == sources[0].count * weights[0] + WeightedCount(sources[1..][..i], weights[1..][..i])
  {
    assert sources[..i + 1][1..] == sources[1..][..i] && weights[..i + 1][1..] == weights[1..][..i];
  }

  lemma MisfitLater(acc: Sketch, next: Sketch, sources: seq<Sketch>, weights: seq<uint64>, i: nat)
    requires |sources| == |weights| && sources != [] && SameShape(acc, sources[0]) && SameShape(next, acc)
    requires next.count == acc.count + sources[0].count * weights[0]
    ensures MisfitAt(acc, sources, weights, i + 1) <==> MisfitAt(next, sources[1..], weights[1..], i)
  {
    if i < |sources| {
      FirstWeighted(sources, weights, i);
    }
    hide WeightedCount;
    var rest := sources[1..];
    assert forall j :: 0 <= j < |rest| ==> rest[j] == sources[j + 1];
    if MisfitAt(next, rest, weights[1..], i) {
      forall j | 0 <= j < i + 1 ensures sources[j].width == acc.width && sources[j].depth == acc.depth {
        assert j > 0 ==> sources[j] == rest[j - 1];
      }
    }
  }

  lemma TooMuch(acc: Sketch, sources: seq<Sketch>, weights: seq<uint64>, i: nat)
    requires |sources| == |weights| && sources != [] && SameShape(acc, sources[0])
    requires acc.count + sources[0].count * weights[0] > MAX_UINT64
    ensures !MisfitAt(acc, sources, weights, i)
  {
    if 0 < i < |sources| {
      FirstWeighted(sources, weights, i - 1);
    }
  }

  lemma EmptyExact(h: Hash, width: nat, depth: nat)
    requires width > 0 && depth > 0
    ensures Exact(h, EmptySketch(width, depth), map[])
  {
  }

  lemma MergeAllExact(h: Hash, sources: seq<Sketch>, totals: seq<Totals>, weights: seq<uint64>)
    requires 0 < |sources| == |weights| == |totals|
    requires forall i :: 0 <= i < |sources| ==> Shaped(sources[i]) && SameShape(sources[0], sources[i])
    requires forall i :: 0 <= i < |sources| ==> Exact(h, sources[i], totals[i])
    ensures var m := MergeAll(sources, weights);
      && (m.Overflow? <==> WeightedCount(sources, weights) > MAX_UINT64) && !m.Incompatible?
      && (m.Merged? ==> Exact(h, m.sketch, WeightedTotals(map[], totals, weights)))
      && (m.Merged? ==> m.sketch.count == WeightedCount(sources, weights))
  {
    assert Shaped(sources[0]);
    EmptyExact(h, sources[0].width, sources[0].depth);
    MergeExact(h, EmptySketch(sources[0].width, sources[0].depth), map[], sources, totals, weights);
  }

  // ----- the mutable sketch -----

  /** Row `r` with its cell for the item raised by v. */
  ghost function BumpedRow(h: Hash, s: Sketch, item: Bytes, v: uint64, r: nat): seq<uint64>
    requires Shaped(s) && CellsFit(h, s, item, v) && r < s.depth
  {
    var c := Column(h, s, item, r);
    var cell: uint64 := s.rows[r][c] + v;
    s.rows[r][c := cell]
  }

  lemma BumpedRows(h: Hash, s: Sketch, item: Bytes, v: uint64, rows: seq<seq<uint64>>)
    requires Shaped(s) && CountFits(s, v) && CellsFit(h, s, item, v) && |rows| == s.depth
    requires forall r :: 0 <= r < s.depth ==> rows[r] == BumpedRow(h, s, item, v, r)
    ensures Sketch(s.width, s.depth, rows, s.count + v) == Bump(h, s, item, v)
  {
    assert rows == Bump(h, s, item, v).rows;
  }

  class CountMinSketch {
    const hash: Hash
    const width: nat
    const depth: nat
    var counters: seq<seq<uint64>>
    var count: uint64
    ghost var totals: Totals

    function State(): Sketch
      reads this
    {
      Sketch(width, depth, counters, count)
    }

    ghost predicate Valid()
      reads this
    {
      Exact(hash, State(), totals)
    }

    constructor (hash: Hash, width: nat, depth: nat)
      requires width > 0 && depth > 0
      ensures Valid() && totals == map[] && State() == EmptySketch(width, depth)
    {
      this.hash, this.width, this.depth := hash, width, depth;
      counters, count, totals := seq(depth, _ => seq(width, _ => 0)), 0, map[];
    }

    /** A sketch with the given counters, whatever was counted into them. */
    constructor Of(hash: Hash, s: Sketch)
      ensures State() == s && this.hash == hash
    {
      this.hash, this.width, this.depth := hash, s.width, s.depth;
      counters, count, totals := s.rows, s.count, map[];
    }

    method QueryItem(item: Bytes) returns (minimum: uint64)
      requires Shaped(State())
      ensures minimum == Query(hash, State(), item)
    {
      minimum := MAX_UINT64;
      ghost var whole := Query(hash, State(), item);
      for row := 0 to depth
        invariant whole == var rest := QueryFrom(hash, State(), item, row); if minimum < rest then minimum else rest
      {
        var cell := counters[row][hash(item, row) % width];
        if cell < minimum {
          minimum := cell;
        }
      }
    }

    /** The two guards of an increment. */
    method Admits(item: Bytes, value: uint64) returns (ok: bool)
      requires Shaped(State())
      ensures ok <==> CountFits(State(), value) && CellsFit(hash, State(), item, value)
    {
      if MAX_UINT64 - count < value {
        return false;
      }
      for row := 0 to depth
        invariant forall r :: 0 <= r < row ==> counters[r][Column(hash, State(), item, r)] + value <= MAX_UINT64
      {
        if MAX_UINT64 - counters[row][hash(item, row) % width] < value {
          return false;
        }
      }
      ok := true;
    }

    /** Raise the item's cell in every row, and the count. */
    method Apply(item: Bytes, value: uint64)
      requires Shaped(State()) && CountFits(State(), value) && CellsFit(hash, State(), item, value)
      modifies `counters, `count
      ensures State() == Bump(hash, old(State()), item, value)
    {
      ghost var s := State();
      for row := 0 to depth
        invariant |counters| == depth && count == s.count
        invariant forall r :: 0 <= r < depth ==> counters[r] == if r < row then BumpedRow(hash, s, item, value, r) else s.rows[r]
      {
        var column := hash(item, row) % width;
        var cell: uint64 := counters[row][column] + value;
        var cells: seq<uint64> := counters[row][column := cell];
        counters := counters[row := cells];
      }
      count := count + value;
      BumpedRows(hash, s, item, value, counters);
    }

    /** A batch of increments. On overflow the earlier increments stay, as the totals record. */
    method IncrBy(increments: seq<Increment>) returns (results: Option<seq<uint64>>)
      requires Shaped(State())
      modifies this
      ensures (State(), results) == IncrementAll(hash, old(State()), increments)
      ensures totals == AddedAll(old(totals), increments[..Accepted(old(count), increments)])
      ensures old(Valid()) ==> Valid() && (results.Some? <==> Accepted(old(count), increments) == |increments|)
    {
      hide Bump, Query, CellsFit, Added, Sum, PartOf, TotalOf, Resume;
      if Valid() {
        BatchExact(hash, State(), totals, increments);
      }
      ghost var whole, n, t := IncrementAll(hash, State(), increments), Accepted(count, increments), totals;
      var answers := [];
      ResumeNothing(whole);
      assert increments[0..] == increments;
      for index := 0 to |increments|
        invariant Shaped(State()) && |answers| == index && totals == t
        invariant whole == Resume(answers, IncrementAll(hash, State(), increments[index..]))
      {
        var one := increments[index];
        assert increments[index..][1..] == increments[index + 1..];
        var ok := Admits(one.item, one.value);
        if !ok {
          ResumeEnd(answers, State());
          totals := AddedAll(t, increments[..n]);
          return None;
        }
        Apply(one.item, one.value);
        var answer := QueryItem(one.item);
        ResumeOne(answers, answer, IncrementAll(hash, State(), increments[index + 1..]));
        answers := answers + [answer];
      }
      ResumeEnd(answers, State());
      totals := AddedAll(t, increments[..n]);
      results := Some(answers);
    }
  }

  lemma ProductGuard(c: nat, w: nat)
    requires c > 0
    ensures w > MAX_UINT64 / c <==> c * w > MAX_UINT64
  {
    var q := MAX_UINT64 / c;
    assert q * c <= MAX_UINT64 < (q + 1) * c;
    if w > q {
      TimesMonotone(q + 1, w, c);
    } else {
      TimesMonotone(w, q, c);
    }
    TimesCommutes(c, w);
  }

  /** m + c * w behind the two overflow guards of a merge. */
  method PlusProduct(m: uint64, c: uint64, w: uint64) returns (r: Option<uint64>)
    ensures r == if m + c * w <= MAX_UINT64 then Some(m + c * w) else None
  {
    if c != 0 {
      ProductGuard(c, w);
      if w > MAX_UINT64 / c {
        return None;
      }
    }
    var addition := c * w;
    if MAX_UINT64 - m < addition {
      return None;
    }
    r := Some(m + addition);
  }

  /** One row of a merge: every cell plus its weighted source cell, or None on overflow. */
  method AddRow(row: seq<uint64>, source: seq<uint64>, w: uint64) returns (r: Option<seq<uint64>>)
    requires |row| == |source|
    ensures r.Some? <==> RowFits(row, source, w)
    ensures r.Some? ==> r.value == PlusRow(row, source, w)
  {
    var cells: seq<uint64> := row;
    for column := 0 to |row|
      invariant |cells| == |row|
      invariant forall c :: 0 <= c < column ==> cells[c] == row[c] + source[c] * w
      invariant forall c :: column <= c < |row| ==> cells[c] == row[c]
    {
      var cell := PlusProduct(cells[column], source[column], w);
      if cell.None? {
        assert !(row[column] + source[column] * w <= MAX_UINT64);
        return None;
      }
      cells := cells[column := cell.value];
    }
    r := Some(cells);
  }

  /** Add a weighted source to an accumulator of the same shape, all cells before the count. */
  method AddSource(acc: Sketch, source: Sketch, w: uint64) returns (r: Option<Sketch>)
    requires Shaped(acc) && Shaped(source) && SameShape(acc, source)
    ensures r.Some? <==> SumFits(acc, source, w)
    ensures r.Some? ==> r.value == PlusTimes(acc, source, w)
  {
    var rows: seq<seq<uint64>> := acc.rows;
    for row := 0 to acc.depth
      invariant |rows| == acc.depth
      invariant forall i :: 0 <= i < row ==> RowFits(acc.rows[i], source.rows[i], w)
      invariant forall i :: 0 <= i < row ==> rows[i] == PlusRow(acc.rows[i], source.rows[i], w)
      invariant forall i :: row <= i < acc.depth ==> rows[i] == acc.rows[i]
    {
      var cells := AddRow(rows[row], source.rows[row], w);
      if cells.None? {
        return None;
      }
      rows := rows[row := cells.value];
    }
    var count := PlusProduct(acc.count, source.count, w);
    if count.None? {
      return None;
    }
    r := Some(Sketch(acc.width, acc.depth, rows, count.value));
    assert rows == PlusTimes(acc, source, w).rows;
  }

  /** Merge weighted sources into a fresh sketch, in order, stopping at the first problem. */
  method MergeSketches(sources: seq<Sketch>, weights: seq<uint64>) returns (r: Merge)
    requires 0 < |sources| == |weights| && forall i :: 0 <= i < |sources| ==> Shaped(sources[i])
    ensures r == MergeAll(sources, weights)
  {
    hide PlusTimes, SumFits;
    assert Shaped(sources[0]);
    var width, depth := sources[0].width, sources[0].depth;
    var merged := Sketch(width, depth, seq(depth, _ => seq(width, _ => 0)), 0);
    assert merged == EmptySketch(width, depth);
    for index := 0 to |sources|
      invariant Shaped(merged) && merged.width == width && merged.depth == depth
      invariant MergeAll(sources, weights) == MergeFrom(merged, sources[index..], weights[index..])
    {
      assert sources[index..][1..] == sources[index + 1..] && weights[index..][1..] == weights[index + 1..];
      var source := sources[index];
      assert Shaped(source);
      if source.width != width || source.depth != depth {
        return Incompatible;
      }
      var next := AddSource(merged, source, weights[index]);
      if next.None? {
        return Overflow;
      }
      merged := next.value;
    }
    r := Merged(merged);
  }

  ghost function Resume(answers: seq<uint64>, rest: (Sketch, Option<seq<uint64>>)): (Sketch, Option<seq<uint64>>) {
    (rest.0, if rest.1.Some? then Some(answers + rest.1.value) else None)
  }

  lemma ResumeNothing(rest: (Sketch, Option<seq<uint64>>))
    ensures Resume([], rest) == rest
  {
    assert rest.1.Some? ==> [] + rest.1.value == rest.1.value;
  }

  lemma ResumeEnd(answers: seq<uint64>, s: Sketch)
    ensures Resume(answers, (s, Some([]))) == (s, Some(answers)) && Resume(answers, (s, None)) == (s, None)
  {
    assert answers + [] == answers;
  }

  lemma ResumeOne(answers: seq<uint64>, answer: uint64, rest: (Sketch, Option<seq<uint64>>))
    ensures Resume(answers + [answer], rest)
         == Resume(answers, (rest.0, if rest.1.Some? then Some([answer] + rest.1.value) else None))
  {
    if rest.1.Some? {
      assert answers + [answer] + rest.1.value == answers + ([answer] + rest.1.value);
    }
  }
}
