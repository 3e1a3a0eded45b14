/** Bloom filters over an arbitrary hash: a bit array in 64-bit words. */
module BloomFilters {
  import opened Bytes
  import opened FiniteSums

  datatype Bloom = Bloom(bits: seq<bv64>, bitCount: nat, hashCount: nat, capacity: nat, count: nat)

  ghost predicate Shaped(f: Bloom) {
    f.bitCount > 0 && f.hashCount > 0 && |f.bits| == (f.bitCount + 63) / 64
  }

  function Mask(i: nat): bv64
    requires i < 64
  {
    1 << i
  }

  predicate Meets(word: bv64, mask: bv64) {
    word & mask != 0
  }

  function Join(word: bv64, mask: bv64): bv64 {
    word | mask
  }

  predicate TestBit(word: bv64, i: nat)
    requires i < 64
  {
    Meets(word, Mask(i))
  }

  function SetBit(word: bv64, i: nat): bv64
    requires i < 64
  {
    Join(word, Mask(i))
  }

  lemma MasksApartLow(i: nat, j: nat)
    requires i < j < 32
    ensures !Meets(Mask(i), Mask(j))
  {
  }

  lemma MasksApartMiddle(i: nat, j: nat)
    requires 32 <= i < j < 48
    ensures !Meets(Mask(i), Mask(j))
  {
  }

  lemma MasksApartHigh(i: nat, j: nat)
    requires 48 <= i < j < 64
    ensures !Meets(Mask(i), Mask(j))
  {
  }

  lemma MasksApartAcross(i: nat, j: nat)
    requires i < j < 64 && (i < 32 <= j || i < 48 <= j)
    ensures !Meets(Mask(i), Mask(j))
  {
  }

  lemma MasksApart(i: nat, j: nat)
    requires i < j < 64
    ensures !Meets(Mask(i), Mask(j))
  {
    hide Mask, Meets;
    if j < 32 {
      MasksApartLow(i, j);
    } else if 32 <= i && j < 48 {
      MasksApartMiddle(i, j);
    } else if 48 <= i {
      MasksApartHigh(i, j);
    } else {
      MasksApartAcross(i, j);
    }
  }

  lemma MaskNotZero(i: nat)
    requires i < 64
    ensures Meets(Mask(i), Mask(i))
  {
  }

  lemma MeetsIs(word: bv64, mask: bv64)
    ensures Meets(word, mask) <==> word & mask != 0
    ensures Join(word, mask) == word | mask
  {
  }

  lemma OrThenAnd(word: bv64, a: bv64, b: bv64)
    ensures (word | a) & b != 0 ==> a & b != 0 || word & b != 0
    ensures a & b != 0 || word & b != 0 ==> (word | a) & b != 0
  {
  }

  lemma JoinMeets(word: bv64, a: bv64, b: bv64)
    ensures Meets(Join(word, a), b) <==> Meets(a, b) || Meets(word, b)
  {
    hide *;
    MeetsIs(word, a);
    MeetsIs(word, b);
    MeetsIs(a, b);
    MeetsIs(word | a, b);
    OrThenAnd(word, a, b);
  }

  lemma SetThenTest(word: bv64, i: nat, j: nat)
    requires i < 64 && j < 64
    ensures TestBit(SetBit(word, i), j) <==> i == j || TestBit(word, j)
  {
    hide Mask, Meets, Join;
    MasksDiffer(i, j);
    JoinMeets(word, Mask(i), Mask(j));
  }

  lemma MasksDiffer(i: nat, j: nat)
    requires i < 64 && j < 64
    ensures Meets(Mask(i), Mask(i)) && (Mask(i) == Mask(j) <==> i == j) && (i == j || !Meets(Mask(i), Mask(j)))
  {
    MaskNotZero(i);
    MaskNotZero(j);
    hide Mask, Meets;
    if i < j {
      MasksApart(i, j);
    } else if j < i {
      MasksApart(j, i);
      MeetsCommutes(Mask(i), Mask(j));
    }
  }

  lemma MeetsCommutes(a: bv64, b: bv64)
    ensures Meets(a, b) == Meets(b, a)
  {
  }

  /** Whether position p of the array is set. */
  predicate HasBit(bits: seq<bv64>, p: nat)
    requires p / 64 < |bits|
  {
    TestBit(bits[p / 64], p % 64)
  }

  function PutBit(bits: seq<bv64>, p: nat): (r: seq<bv64>)
    requires p / 64 < |bits|
    ensures |r| == |bits|
  {
    bits[p / 64 := SetBit(bits[p / 64], p % 64)]
  }

  lemma PutThenHas(bits: seq<bv64>, p: nat, q: nat)
    requires p / 64 < |bits| && q / 64 < |bits|
    ensures HasBit(PutBit(bits, p), q) <==> p == q || HasBit(bits, q)
  {
    hide SetBit, TestBit;
    SetThenTest(bits[p / 64], p % 64, q % 64);
    if p / 64 == q / 64 && p % 64 == q % 64 {
      assert p == 64 * (p / 64) + p % 64 && q == 64 * (q / 64) + q % 64;
    }
  }

  function Position(h: Hash, f: Bloom, item: Bytes, i: nat): (p: nat)
    requires Shaped(f)
    ensures p < f.bitCount && p / 64 < |f.bits|
  {
    h(item, i) % f.bitCount
  }

  /** The positions an item hashes to. */
  ghost function Positions(h: Hash, f: Bloom, item: Bytes): set<nat>
    requires Shaped(f)
  {
    set i | 0 <= i < f.hashCount :: Position(h, f, item, i)
  }

  ghost function Ones(f: Bloom): set<nat>
    requires Shaped(f)
  {
    set p | 0 <= p < f.bitCount && HasBit(f.bits, p)
  }

  ghost predicate Has(h: Hash, f: Bloom, item: Bytes)
    requires Shaped(f)
  {
    Positions(h, f, item) <= Ones(f)
  }

  /** An item is found exactly when, for each of the hash functions, the bit it picks is set. */
  lemma HasMeans(h: Hash, f: Bloom, item: Bytes)
    requires Shaped(f)
    ensures Has(h, f, item) <==> forall i :: 0 <= i < f.hashCount ==> HasBit(f.bits, h(item, i) % f.bitCount)
  {
    hide HasBit;
    if Has(h, f, item) {
      forall i | 0 <= i < f.hashCount ensures HasBit(f.bits, h(item, i) % f.bitCount) {
        assert Position(h, f, item, i) in Positions(h, f, item);
      }
    }
    if forall i :: 0 <= i < f.hashCount ==> HasBit(f.bits, h(item, i) % f.bitCount) {
      forall p | p in Positions(h, f, item) ensures p in Ones(f) {
        var i :| 0 <= i < f.hashCount && p == Position(h, f, item, i);
        assert HasBit(f.bits, h(item, i) % f.bitCount);
      }
    }
  }

  /** Set the item's positions i, i + 1, ... one after another. */
  ghost function Mark(h: Hash, f: Bloom, item: Bytes, i: nat): (m: Bloom)
    requires Shaped(f) && i <= f.hashCount
    ensures Shaped(m) && m == f.(bits := m.bits)
    decreases f.hashCount - i
  {
    if i == f.hashCount then f else Mark(h, f.(bits := PutBit(f.bits, Position(h, f, item, i))), item, i + 1)
  }

  ghost function Add(h: Hash, f: Bloom, item: Bytes): (m: Bloom)
    requires Shaped(f)
    ensures Shaped(m) && m == f.(bits := m.bits, count := m.count)
  {
    Mark(h, f, item, 0).(count := if Has(h, f, item) then f.count else f.count + 1)
  }

  lemma PutOnes(f: Bloom, p: nat)
    requires Shaped(f) && p < f.bitCount
    ensures Shaped(f.(bits := PutBit(f.bits, p))) && Ones(f.(bits := PutBit(f.bits, p))) == Ones(f) + {p}
  {
    var g := f.(bits := PutBit(f.bits, p));
    hide PutBit, HasBit;
    forall q | 0 <= q < f.bitCount ensures q in Ones(g) <==> q in Ones(f) + {p} {
      PutThenHas(f.bits, p, q);
    }
  }

  /** The positions of hash indexes i, i + 1, ... */
  ghost function PositionsFrom(h: Hash, f: Bloom, item: Bytes, i: nat): set<nat>
    requires Shaped(f)
  {
    set j | i <= j < f.hashCount :: Position(h, f, item, j)
  }

  lemma PositionsStep(h: Hash, f: Bloom, g: Bloom, item: Bytes, i: nat)
    requires Shaped(f) && Shaped(g) && g == f.(bits := g.bits) && i < f.hashCount
    ensures PositionsFrom(h, f, item, i) == {Position(h, f, item, i)} + PositionsFrom(h, g, item, i + 1)
  {
    assert forall j :: Position(h, g, item, j) == Position(h, f, item, j);
    var all, rest := PositionsFrom(h, f, item, i), PositionsFrom(h, g, item, i + 1);
    forall p | p in all ensures p == Position(h, f, item, i) || p in rest {
      var j :| i <= j < f.hashCount && p == Position(h, f, item, j);
      if j > i {
        assert p == Position(h, g, item, j);
      }
    }
    forall p | p in rest ensures p in all {
      var j :| i + 1 <= j < f.hashCount && p == Position(h, g, item, j);
      assert p == Position(h, f, item, j);
    }
  }

  lemma {:induction false} MarkOnes(h: Hash, f: Bloom, item: Bytes, i: nat)
    requires Shaped(f) && i <= f.hashCount
    ensures Ones(Mark(h, f, item, i)) == Ones(f) + PositionsFrom(h, f, item, i)
    decreases f.hashCount - i
  {
    hide Ones, PutBit, Shaped;
    if i < f.hashCount {
      var p := Position(h, f, item, i);
      var g := f.(bits := PutBit(f.bits, p));
      PutOnes(f, p);
      MarkOnes(h, g, item, i + 1);
      PositionsStep(h, f, g, item, i);
    } else {
      assert PositionsFrom(h, f, item, i) == {};
    }
  }

  lemma SamePositions(h: Hash, f: Bloom, g: Bloom, item: Bytes)
    requires Shaped(f) && Shaped(g) && f.bitCount == g.bitCount && f.hashCount == g.hashCount
    ensures Positions(h, f, item) == Positions(h, g, item)
  {
    assert forall i :: Position(h, f, item, i) == Position(h, g, item, i);
    forall p ensures p in Positions(h, f, item) <==> p in Positions(h, g, item) {
      if p in Positions(h, f, item) {
        var i :| 0 <= i < f.hashCount && p == Position(h, f, item, i);
        assert p == Position(h, g, item, i);
      }
      if p in Positions(h, g, item) {
        var i :| 0 <= i < f.hashCount && p == Position(h, g, item, i);
        assert p == Position(h, f, item, i);
      }
    }
  }

  /** Adding an item sets exactly its positions. */
  lemma AddOnes(h: Hash, f: Bloom, item: Bytes)
    requires Shaped(f)
    ensures Ones(Add(h, f, item)) == Ones(f) + Positions(h, f, item)
  {
    MarkOnes(h, f, item, 0);
    hide HasBit, Mark;
    var g := Mark(h, f, item, 0);
    assert Ones(Add(h, f, item)) == Ones(g);
    assert PositionsFrom(h, f, item, 0) == Positions(h, f, item);
  }

  // ----- what the bits mean -----

  /** The union of the positions of all items. */
  ghost function Covered(h: Hash, f: Bloom, items: set<Bytes>): set<nat>
    requires Shaped(f)
  {
    set x, p | x in items && p in Positions(h, f, x) :: p
  }

  /** The set bits are those of the items ever added; the count lies between what they allow. */
  ghost predicate Faithful(h: Hash, f: Bloom, items: set<Bytes>) {
    && Shaped(f) && Ones(f) == Covered(h, f, items)
    && f.count <= |Ones(f)| <= f.bitCount && |Ones(f)| <= f.hashCount * f.count
  }

  lemma {:induction false} FewPositions(h: Hash, f: Bloom, item: Bytes, i: nat)
    requires Shaped(f) && i <= f.hashCount
    ensures |PositionsFrom(h, f, item, i)| <= f.hashCount - i
    decreases f.hashCount - i
  {
    if i < f.hashCount {
      PositionsStep(h, f, f, item, i);
      FewPositions(h, f, item, i + 1);
    } else {
      assert PositionsFrom(h, f, item, i) == {};
    }
  }

  lemma {:induction false} Bounded(s: set<nat>, n: nat)
    requires forall p :: p in s ==> p < n
    ensures |s| <= n
  {
    if n == 0 {
      assert s == {};
    } else {
      Bounded(s - {n - 1}, n - 1);
    }
  }

  lemma SubsetSize(s: set<nat>, t: set<nat>)
    requires s <= t
    ensures |t| == |s| + |t - s|
  {
    assert t == s + (t - s);
  }

  /** How the number of set bits and the count move together. */
  lemma AddCount(h: Hash, f: Bloom, item: Bytes)
    requires Shaped(f)
    ensures var n, n' := |Ones(f)|, |Ones(Add(h, f, item))|;
      if Has(h, f, item) then n' == n && Add(h, f, item).count == f.count
      else n < n' <= n + f.hashCount && Add(h, f, item).count == f.count + 1
  {
    AddOnes(h, f, item);
    hide Ones, Positions;
    var ones, more := Ones(f), Positions(h, f, item);
    if more <= ones {
      assert ones + more == ones;
    } else {
      SubsetSize(ones, ones + more);
      assert (ones + more) - ones == more - ones;
      SubsetSize(more - ones, more);
      assert PositionsFrom(h, f, item, 0) == more by { PositionsAre(h, f, item); }
      FewPositions(h, f, item, 0);
      assert more - ones != {};
    }
  }

  lemma PositionsAre(h: Hash, f: Bloom, item: Bytes)
    requires Shaped(f)
    ensures PositionsFrom(h, f, item, 0) == Positions(h, f, item)
  {
  }

  /** An addition keeps the filter faithful to everything added. */
  lemma AddFaithful(h: Hash, f: Bloom, items: set<Bytes>, item: Bytes)
    requires Faithful(h, f, items)
    ensures Faithful(h, Add(h, f, item), items + {item})
  {
    hide Ones, Positions, Has, Add, Covered, Shaped;
    var g := Add(h, f, item);
    AddOnes(h, f, item);
    AddCount(h, f, item);
    AddCovered(h, f, g, items, item);
    OnesBounded(g);
    if Has(h, f, item) {
      assert Ones(f) <= Ones(g);
      SubsetSize(Ones(f), Ones(g));
    } else {
      OneMoreTime(f.hashCount, f.count);
    }
  }

  lemma OnesBounded(f: Bloom)
    requires Shaped(f)
    ensures |Ones(f)| <= f.bitCount
  {
    Bounded(Ones(f), f.bitCount);
  }

  lemma AddCovered(h: Hash, f: Bloom, g: Bloom, items: set<Bytes>, item: Bytes)
    requires Shaped(f) && Shaped(g) && f.bitCount == g.bitCount && f.hashCount == g.hashCount
    ensures Covered(h, g, items + {item}) == Covered(h, f, items) + Positions(h, f, item)
  {
    forall p ensures p in Covered(h, g, items + {item}) <==> p in Covered(h, f, items) + Positions(h, f, item) {
      CoveredBy(h, f, g, items, item, p);
    }
  }

  lemma CoveredBy(h: Hash, f: Bloom, g: Bloom, items: set<Bytes>, item: Bytes, p: nat)
    requires Shaped(f) && Shaped(g) && f.bitCount == g.bitCount && f.hashCount == g.hashCount
    ensures p in Covered(h, g, items + {item}) <==> p in Covered(h, f, items) + Positions(h, f, item)
  {
    hide Positions, Ones;
    if p in Covered(h, g, items + {item}) {
      var x :| x in items + {item} && p in Positions(h, g, x);
      SamePositions(h, f, g, x);
    }
    if p in Covered(h, f, items) {
      var x :| x in items && p in Positions(h, f, x);
      SamePositions(h, f, g, x);
      assert x in items + {item};
    }
    SamePositions(h, f, g, item);
  }

  ghost function AddAll(h: Hash, f: Bloom, items: seq<Bytes>): (g: Bloom)
    requires Shaped(f)
    ensures Shaped(g)
    decreases |items|
  {
    if items == [] then f else AddAll(h, Add(h, f, items[0]), items[1..])
  }

  lemma {:induction false} AddAllFaithful(h: Hash, f: Bloom, before: set<Bytes>, items: seq<Bytes>)
    requires Faithful(h, f, before)
    ensures Faithful(h, AddAll(h, f, items), before + set x | x in items)
    decreases |items|
  {
    if items == [] {
      assert before + (set x | x in items) == before;
    } else {
      AddFaithful(h, f, before, items[0]);
      AddAllFaithful(h, Add(h, f, items[0]), before + {items[0]}, items[1..]);
      assert before + (set x | x in items) == before + {items[0]} + set x | x in items[1..];
    }
  }

  /** No false negatives: whatever was added is found, and stays found. */
  lemma NoFalseNegatives(h: Hash, f: Bloom, before: set<Bytes>, items: seq<Bytes>, x: Bytes)
    requires Faithful(h, f, before) && (x in before || x in items)
    ensures Has(h, AddAll(h, f, items), x)
  {
    AddAllFaithful(h, f, before, items);
    var g, all := AddAll(h, f, items), before + set y | y in items;
    assert x in all;
    forall p | p in Positions(h, g, x) ensures p in Covered(h, g, all) {
    }
  }

  /** The bits depend on which items were added, not on their order or repetition. */
  lemma OrderIrrelevant(h: Hash, f: Bloom, before: set<Bytes>, a: seq<Bytes>, b: seq<Bytes>)
    requires Faithful(h, f, before) && (set x | x in a) == (set x | x in b)
    ensures Ones(AddAll(h, f, a)) == Ones(AddAll(h, f, b))
  {
    AddAllFaithful(h, f, before, a);
    AddAllFaithful(h, f, before, b);
    AddAllSizes(h, f, a);
    AddAllSizes(h, f, b);
    var g, k, all := AddAll(h, f, a), AddAll(h, f, b), before + set x | x in a;
    forall p ensures p in Covered(h, g, all) <==> p in Covered(h, k, all) {
      SameCovered(h, g, k, all, p);
    }
  }

  lemma {:induction false} AddAllSizes(h: Hash, f: Bloom, items: seq<Bytes>)
    requires Shaped(f)
    ensures AddAll(h, f, items).bitCount == f.bitCount && AddAll(h, f, items).hashCount == f.hashCount
    decreases |items|
  {
    if items != [] {
      AddAllSizes(h, Add(h, f, items[0]), items[1..]);
    }
  }

  lemma SameCovered(h: Hash, f: Bloom, g: Bloom, items: set<Bytes>, p: nat)
    requires Shaped(f) && Shaped(g) && f.bitCount == g.bitCount && f.hashCount == g.hashCount
    ensures p in Covered(h, f, items) <==> p in Covered(h, g, items)
  {
    hide Positions;
    if p in Covered(h, f, items) {
      var x :| x in items && p in Positions(h, f, x);
      SamePositions(h, f, g, x);
    }
    if p in Covered(h, g, items) {
      var x :| x in items && p in Positions(h, g, x);
      SamePositions(h, f, g, x);
    }
  }

  // ----- the mutable filter -----

  class BloomFilter {
    const hash: Hash
    const bitCount: nat
    const hashCount: nat
    const capacity: nat
    var bits: seq<bv64>
    var count: nat
    ghost var added: set<Bytes>

    function State(): Bloom
      reads this
    {
      Bloom(bits, bitCount, hashCount, capacity, count)
    }

    ghost predicate Valid()
      reads this
    {
      Faithful(hash, State(), added)
    }

    constructor (hash: Hash, bitCount: nat, hashCount: nat, capacity: nat)
      requires bitCount > 0 && hashCount > 0
      ensures Valid() && added == {} && count == 0
    {
      this.hash, this.bitCount, this.hashCount, this.capacity := hash, bitCount, hashCount, capacity;
      bits, count, added := seq((bitCount + 63) / 64, _ => 0), 0, {};
      new;
      ZeroWords(State());
    }

    /** A filter with the given bits, whatever was added to it. */
    constructor Of(hash: Hash, f: Bloom)
      ensures State() == f && this.hash == hash
    {
      this.hash, this.bitCount, this.hashCount, this.capacity := hash, f.bitCount, f.hashCount, f.capacity;
      bits, count, added := f.bits, f.count, {};
    }

    method Exists(item: Bytes) returns (found: bool)
      requires Shaped(State())
      ensures found == Has(hash, State(), item)
    {
      for hashIndex := 0 to hashCount
        invariant forall i :: 0 <= i < hashIndex ==> Position(hash, State(), item, i) in Ones(State())
      {
        var position := hash(item, hashIndex) % bitCount;
        if !TestBit(bits[position / 64], position % 64) {
          assert Position(hash, State(), item, hashIndex) in Positions(hash, State(), item);
          return false;
        }
      }
      found := true;
    }

    /** Add an item; true when it was not already there. */
    method AddItem(item: Bytes) returns (isNew: bool)
      requires Shaped(State())
      modifies this
      ensures (old(Valid()) ==> Valid()) && added == old(added) + {item}
      ensures State() == Add(hash, old(State()), item) && isNew == !Has(hash, old(State()), item)
    {
      hide Covered, Has, Positions, Ones, SetBit, Mask, TestBit;
      ghost var was := State();
      if Valid() {
        AddFaithful(hash, was, added, item);
      }
      var exists_ := Exists(item);
      for hashIndex := 0 to hashCount
        invariant Shaped(State()) && count == was.count && added == old(added)
        invariant Mark(hash, State(), item, hashIndex) == Mark(hash, was, item, 0)
      {
        var position := hash(item, hashIndex) % bitCount;
        bits := bits[position / 64 := SetBit(bits[position / 64], position % 64)];
      }
      if !exists_ {
        count := count + 1;
      }
      added := added + {item};
      isNew := !exists_;
    }
  }

  lemma ZeroWords(f: Bloom)
    requires Shaped(f) && f.count == 0 && forall w :: 0 <= w < |f.bits| ==> f.bits[w] == 0
    ensures Ones(f) == {}
  {
    forall p | 0 <= p < f.bitCount ensures p !in Ones(f) {
      ZeroMeets(Mask(p % 64));
    }
  }

  lemma ZeroMeets(mask: bv64)
    ensures !Meets(0, mask)
  {
  }
}
