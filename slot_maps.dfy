/**
 The value semantics of a GCounter's Count map (gcounter/gcounter.go): a map from node name to
 count. As with a Go map, a node that is absent reads as 0. Everything here is a pure value; the
 in-place updates of the Go code are in module GCounters, and are specified by these functions.
 */
module SlotMaps {

  /** The contents of one Count map: node name to count. */
  type Slots = map<string, int>

  /** Reading a Go map: an absent key yields the zero value. */
  function Get(m: Slots, k: string): (v: int)
    ensures k in m ==> v == m[k]
    ensures k !in m ==> v == 0
  {
    if k in m then m[k] else 0
  }

  /** Max of gcounter.go: the larger of two counts, the second one on a tie. */
  function Max(value1: int, value2: int): (r: int)
    ensures r >= value1 && r >= value2
    ensures r == value1 || r == value2
  {
    if value1 > value2 then value1 else value2
  }

  /**
   Every slot holds a count of at least 0. A grow-only counter's slots are meant to be
   non-negative, but SetCount accepts any value, so the properties that need it say so.
   */
  ghost predicate NonNegative(m: Slots)
  {
    forall k :: k in m ==> m[k] >= 0
  }

  /** The grow-only order: every slot of `small` is present in `big` with at least its count. */
  ghost predicate Below(small: Slots, big: Slots)
  {
    forall k :: k in small ==> k in big && small[k] <= big[k]
  }

  lemma BelowTransitive(a: Slots, b: Slots, c: Slots)
    requires Below(a, b) && Below(b, c)
    ensures Below(a, c)
  {
  }

  /** Two maps below each other are the same map. */
  lemma BelowAntisymmetric(a: Slots, b: Slots)
    requires Below(a, b) && Below(b, a)
    ensures a == b
  {
    assert a.Keys == b.Keys;
  }

  /**
   One pass of Merge's inner loop: every slot of `v` is written into the accumulator as the
   larger of the accumulator's count (0 when the node is absent) and `v`'s count.
   */
  function Join(acc: Slots, v: Slots): (r: Slots)
    ensures r.Keys == acc.Keys + v.Keys
    ensures Below(acc, r) && Below(v, r)
    ensures forall k :: k in r ==> r[k] == Get(acc, k) || (k in v && r[k] == v[k])
    ensures NonNegative(acc) ==> NonNegative(r)
  {
    map k | k in acc.Keys + v.Keys :: if k in v then Max(Get(acc, k), v[k]) else acc[k]
  }

  /** Writing one more slot of a view into the accumulator extends the part of the view joined in. */
  lemma JoinOneMore(acc: Slots, done: Slots, k: string, value: int)
    requires k !in done
    ensures Join(acc, done)[k := Max(Get(Join(acc, done), k), value)] == Join(acc, done[k := value])
  {
    var left, right := Join(acc, done)[k := Max(Get(Join(acc, done), k), value)], Join(acc, done[k := value]);
    assert Get(Join(acc, done), k) == Get(acc, k);
    assert left.Keys == right.Keys;
  }

  /** The fold over one more view is one more join. */
  lemma JoinAllSnoc(acc: Slots, vs: seq<Slots>, v: Slots)
    ensures JoinAll(acc, vs + [v]) == Join(JoinAll(acc, vs), v)
  {
    assert (vs + [v])[..|vs|] == vs;
  }

  /** Joining a map that is already below the accumulator changes nothing, whatever the signs. */
  lemma JoinAbsorbs(acc: Slots, v: Slots)
    requires Below(v, acc)
    ensures Join(acc, v) == acc
  {
    var r := Join(acc, v);
    assert r.Keys == acc.Keys;
    forall k | k in r ensures r[k] == acc[k] {
      if k in v {
        assert r[k] == Max(acc[k], v[k]);
      }
    }
  }

  /** Any non-negative map above both arguments is above their join. */
  lemma JoinLeast(acc: Slots, v: Slots, u: Slots)
    requires NonNegative(u) && Below(acc, u) && Below(v, u)
    ensures Below(Join(acc, v), u)
  {
    var r := Join(acc, v);
    forall k | k in r ensures k in u && r[k] <= u[k] {
      if k in v {
        assert r[k] == Max(Get(acc, k), v[k]);
      }
    }
  }

  /** Over a non-negative accumulator, every slot of a join, present or not, is the larger count. */
  lemma JoinGet(acc: Slots, v: Slots, k: string)
    requires NonNegative(acc)
    ensures Get(Join(acc, v), k) == Max(Get(acc, k), Get(v, k))
  {
  }

  /** Merge(a, b) == Merge(b, a) for non-negative counters. */
  lemma JoinCommutative(a: Slots, b: Slots)
    requires NonNegative(a) && NonNegative(b)
    ensures Join(a, b) == Join(b, a)
  {
    var ab, ba := Join(a, b), Join(b, a);
    forall k | k in ab ensures ab[k] == ba[k] {
      JoinGet(a, b, k);
      JoinGet(b, a, k);
    }
    assert ab.Keys == ba.Keys;
  }

  lemma JoinAssociativeAt(a: Slots, b: Slots, c: Slots, k: string)
    requires NonNegative(a) && NonNegative(b)
    ensures Get(Join(Join(a, b), c), k) == Get(Join(a, Join(b, c)), k)
  {
    JoinGet(a, b, k);
    JoinGet(b, c, k);
    JoinGet(Join(a, b), c, k);
    JoinGet(a, Join(b, c), k);
  }

  /** Merge(Merge(a, b), c) == Merge(a, Merge(b, c)) for non-negative counters. */
  lemma JoinAssociative(a: Slots, b: Slots, c: Slots)
    requires NonNegative(a) && NonNegative(b)
    ensures Join(Join(a, b), c) == Join(a, Join(b, c))
  {
    var left, right := Join(Join(a, b), c), Join(a, Join(b, c));
    assert left.Keys == right.Keys;
    forall k | k in left ensures left[k] == right[k] {
      JoinAssociativeAt(a, b, c, k);
    }
  }

  /** One step of the fold keeps the bounds JoinAll promises. */
  lemma JoinAllStep(acc: Slots, vs: seq<Slots>, init: seq<Slots>, front: Slots)
    requires vs != [] && init == vs[..|vs| - 1]
    requires Below(acc, front)
    requires forall i :: 0 <= i < |init| ==> Below(init[i], front)
    requires forall k :: k in front ==> k in acc || exists i :: 0 <= i < |init| && k in init[i]
    ensures Below(acc, Join(front, vs[|vs| - 1]))
    ensures forall i :: 0 <= i < |vs| ==> Below(vs[i], Join(front, vs[|vs| - 1]))
    ensures forall k :: k in Join(front, vs[|vs| - 1]) ==> k in acc || exists i :: 0 <= i < |vs| && k in vs[i]
  {
    var last := vs[|vs| - 1];
    var r := Join(front, last);
    BelowTransitive(acc, front, r);
    forall i | 0 <= i < |vs| - 1 ensures Below(vs[i], r) {
      assert init[i] == vs[i];
      BelowTransitive(vs[i], front, r);
    }
    forall k | k in r ensures k in acc || exists i :: 0 <= i < |vs| && k in vs[i] {
      if k in front && k !in acc {
        var i :| 0 <= i < |init| && k in init[i];
        assert init[i] == vs[i];
      }
    }
  }

  /**
   The accumulator after folding the views `vs` into `acc`, first to last: the outer loop of
   Merge, and the loop of Sync.
   */
  function JoinAll(acc: Slots, vs: seq<Slots>): (r: Slots)
    ensures Below(acc, r)
    ensures forall i :: 0 <= i < |vs| ==> Below(vs[i], r)
    ensures forall k :: k in r ==> k in acc || exists i :: 0 <= i < |vs| && k in vs[i]
    ensures NonNegative(acc) ==> NonNegative(r)
    decreases |vs|
  {
    if vs == [] then acc
    else
      var front := JoinAll(acc, vs[..|vs| - 1]);
      JoinAllStep(acc, vs, vs[..|vs| - 1], front);
      Join(front, vs[|vs| - 1])
  }

  /**
   What Merge(GCounters...) computes: the accumulator starts as the first input and every input,
   the first one included, is joined into it in order.
   */
  function MergeAll(ms: seq<Slots>): (r: Slots)
    requires |ms| > 0
    ensures forall i :: 0 <= i < |ms| ==> Below(ms[i], r)
    ensures forall k :: k in r <==> exists i :: 0 <= i < |ms| && k in ms[i]
  {
    JoinAll(ms[0], ms)
  }

  /**
   Reference definition of one merged slot: the largest count any input holds for node `k`,
   an absent node counting as 0.
   */
  function SlotMax(ms: seq<Slots>, k: string): (r: int)
    requires |ms| > 0
    ensures forall i :: 0 <= i < |ms| ==> Get(ms[i], k) <= r
    ensures exists i :: 0 <= i < |ms| && r == Get(ms[i], k)
    decreases |ms|
  {
    if |ms| == 1 then Get(ms[0], k)
    else
      var front := ms[..|ms| - 1];
      var r := Max(SlotMax(front, k), Get(ms[|ms| - 1], k));
      assert forall i :: 0 <= i < |ms| - 1 ==> ms[i] == front[i];
      r
  }

  /** Two maxima over the same inputs agree. */
  lemma SlotMaxSameInputs(ms: seq<Slots>, ns: seq<Slots>, k: string)
    requires |ms| > 0 && |ns| > 0
    requires forall m :: m in ms <==> m in ns
    ensures SlotMax(ms, k) == SlotMax(ns, k)
  {
    var i :| 0 <= i < |ms| && SlotMax(ms, k) == Get(ms[i], k);
    var j :| 0 <= j < |ns| && SlotMax(ns, k) == Get(ns[j], k);
    assert ms[i] in ns;
    assert ns[j] in ms;
  }

  ghost predicate AllNonNegative(ms: seq<Slots>)
  {
    forall i :: 0 <= i < |ms| ==> NonNegative(ms[i])
  }

  /** The maximum over an accumulator and its views, taken one view at a time. */
  lemma SlotMaxLastView(acc: Slots, vs: seq<Slots>, k: string)
    requires vs != []
    ensures SlotMax([acc] + vs, k) == Max(SlotMax([acc] + vs[..|vs| - 1], k), Get(vs[|vs| - 1], k))
    ensures SlotMax([acc] + vs[..|vs| - 1], k) >= Get(acc, k)
  {
    var ms, front := [acc] + vs, [acc] + vs[..|vs| - 1];
    assert ms[..|ms| - 1] == front;
    assert ms[|ms| - 1] == vs[|vs| - 1];
    assert SlotMax(ms, k) == Max(SlotMax(front, k), Get(ms[|ms| - 1], k));
    assert Get(front[0], k) <= SlotMax(front, k);
  }

  /** A node absent from the fold is absent from every input, so its maximum is 0. */
  lemma AbsentFromFold(acc: Slots, vs: seq<Slots>, k: string)
    requires k !in JoinAll(acc, vs)
    ensures SlotMax([acc] + vs, k) == 0
  {
    var ms := [acc] + vs;
    forall i | 0 <= i < |ms| ensures Get(ms[i], k) == 0 {
      if i > 0 {
        assert ms[i] == vs[i - 1];
      }
    }
  }

  lemma AllNonNegativeCons(m: Slots, vs: seq<Slots>)
    requires NonNegative(m) && AllNonNegative(vs)
    ensures AllNonNegative([m] + vs)
  {
    forall i | 0 < i < |vs| + 1 ensures NonNegative(([m] + vs)[i]) {
      assert ([m] + vs)[i] == vs[i - 1];
    }
  }

  lemma AllNonNegativePrefix(vs: seq<Slots>, n: nat)
    requires AllNonNegative(vs) && n <= |vs|
    ensures AllNonNegative(vs[..n])
  {
    forall i | 0 <= i < n ensures NonNegative(vs[..n][i]) {
      assert vs[..n][i] == vs[i];
    }
  }

  /** For non-negative inputs the fold keeps, in each slot, the per-node maximum of its inputs. */
  lemma {:induction false} JoinAllIsSlotMax(acc: Slots, vs: seq<Slots>, k: string)
    requires NonNegative(acc) && AllNonNegative(vs)
    requires k in JoinAll(acc, vs)
    ensures JoinAll(acc, vs)[k] == SlotMax([acc] + vs, k)
    decreases |vs|
  {
    if vs != [] {
      var front, last := vs[..|vs| - 1], vs[|vs| - 1];
      var prev := JoinAll(acc, front);
      SlotMaxLastView(acc, vs, k);
      var m := SlotMax([acc] + front, k);
      if k in prev {
        AllNonNegativePrefix(vs, |vs| - 1);
        JoinAllIsSlotMax(acc, front, k);
      } else {
        AbsentFromFold(acc, front, k);
      }
      assert Get(prev, k) == m;
    }
  }

  /** Per-key maximum: each slot of a merge of non-negative counters is the largest input count. */
  lemma MergeAllIsSlotMax(ms: seq<Slots>, k: string)
    requires |ms| > 0 && AllNonNegative(ms)
    requires k in MergeAll(ms)
    ensures MergeAll(ms)[k] == SlotMax(ms, k)
  {
    JoinAllIsSlotMax(ms[0], ms, k);
    SlotMaxSameInputs([ms[0]] + ms, ms, k);
  }

  /** The fold stays below any non-negative upper bound of its inputs. */
  lemma {:induction false} JoinAllLeast(acc: Slots, vs: seq<Slots>, u: Slots)
    requires NonNegative(u) && Below(acc, u)
    requires forall i :: 0 <= i < |vs| ==> Below(vs[i], u)
    ensures Below(JoinAll(acc, vs), u)
    decreases |vs|
  {
    if vs != [] {
      var front := vs[..|vs| - 1];
      JoinAllLeast(acc, front, u);
      JoinLeast(JoinAll(acc, front), vs[|vs| - 1], u);
    }
  }

  /** Merge is the least upper bound of its inputs among non-negative counters. */
  lemma MergeAllLeast(ms: seq<Slots>, u: Slots)
    requires |ms| > 0 && NonNegative(u)
    requires forall i :: 0 <= i < |ms| ==> Below(ms[i], u)
    ensures Below(MergeAll(ms), u)
  {
    JoinAllLeast(ms[0], ms, u);
  }

  /**
   Order independence and insensitivity to duplicates: merging non-negative counters gives the
   same result for any two argument lists holding the same counters.
   */
  lemma MergeAllOrderIndependent(ms: seq<Slots>, ns: seq<Slots>)
    requires |ms| > 0 && |ns| > 0 && AllNonNegative(ms)
    requires forall m :: m in ms <==> m in ns
    ensures MergeAll(ms) == MergeAll(ns)
  {
    var a, b := MergeAll(ms), MergeAll(ns);
    assert NonNegative(a) by {
      assert NonNegative(ms[0]);
    }
    assert NonNegative(b) by {
      assert ns[0] in ms;
    }
    forall j | 0 <= j < |ns| ensures Below(ns[j], a) {
      assert ns[j] in ms;
    }
    forall i | 0 <= i < |ms| ensures Below(ms[i], b) {
      assert ms[i] in ns;
    }
    MergeAllLeast(ns, a);
    MergeAllLeast(ms, b);
    BelowAntisymmetric(a, b);
  }

  /** Folding maps that are all below the accumulator leaves it as it was. */
  lemma {:induction false} JoinAllAbsorbs(acc: Slots, vs: seq<Slots>)
    requires forall i :: 0 <= i < |vs| ==> Below(vs[i], acc)
    ensures JoinAll(acc, vs) == acc
    decreases |vs|
  {
    if vs != [] {
      JoinAllAbsorbs(acc, vs[..|vs| - 1]);
      JoinAbsorbs(acc, vs[|vs| - 1]);
    }
  }

  /** Idempotence: merging copies of one counter yields that counter, whatever its counts. */
  lemma MergeAllIdempotent(ms: seq<Slots>, m: Slots)
    requires |ms| > 0
    requires forall i :: 0 <= i < |ms| ==> ms[i] == m
    ensures MergeAll(ms) == m
  {
    JoinAllAbsorbs(ms[0], ms);
  }

  /** Merging counters that are all empty yields an empty counter. */
  lemma MergeAllOfEmpty(ms: seq<Slots>)
    requires |ms| > 0
    requires forall i :: 0 <= i < |ms| ==> ms[i] == map[]
    ensures MergeAll(ms) == map[]
  {
  }

  /** Merging with an empty second counter changes nothing. */
  lemma MergeWithEmptySecond(m: Slots)
    ensures MergeAll([m, map[]]) == m
  {
    MergeOfTwo(m, map[]);
    JoinAbsorbs(m, map[]);
  }

  /** Merging with an empty first counter changes nothing when the counts are non-negative. */
  lemma MergeWithEmptyFirst(m: Slots)
    requires NonNegative(m)
    ensures MergeAll([map[], m]) == m
  {
    MergeOfTwo(map[], m);
    var r := Join(map[], m);
    forall k | k in r ensures r[k] == m[k] {
      JoinGet(map[], m, k);
    }
  }

  /** Merge(acc, view) of two counters is one join of the view into acc. */
  lemma MergeOfTwo(acc: Slots, view: Slots)
    ensures MergeAll([acc, view]) == Join(acc, view)
  {
    JoinAllSelfFirst(acc, [view]);
    assert [acc] + [view] == [acc, view];
    assert [view][..0] == [];
  }

  /**
   Merging an accumulator with itself first changes nothing: Merge(local, v1, ..., vn), which
   starts by joining `local` into itself, equals the plain fold of v1..vn into `local`.
   */
  lemma {:induction false} JoinAllSelfFirst(acc: Slots, vs: seq<Slots>)
    ensures MergeAll([acc] + vs) == JoinAll(acc, vs)
    decreases |vs|
  {
    var ms := [acc] + vs;
    if vs == [] {
      JoinAbsorbs(acc, acc);
    } else {
      assert ms[..|ms| - 1] == [acc] + vs[..|vs| - 1];
      JoinAllSelfFirst(acc, vs[..|vs| - 1]);
    }
  }

  /**
   Without the non-negativity premise, order independence fails: an absent slot reads as 0 in
   the accumulator (gcounter.go:86), so a negative count survives only as the first argument.
   */
  lemma NegativeCountBreaksOrderIndependence()
    ensures MergeAll([map["a" := -3], map[]]) == map["a" := -3]
    ensures MergeAll([map[], map["a" := -3]]) == map["a" := 0]
  {
    var negative: Slots := map["a" := -3];
    MergeWithEmptySecond(negative);
    MergeOfTwo(map[], negative);
    var r := Join(map[], negative);
    assert r.Keys == {"a"};
    assert r["a"] == Max(Get(map[], "a"), negative["a"]) == 0;
    assert r == map["a" := 0];
  }

  /** The sum of the slots of `m` named in `ks`. */
  ghost function SumKeys(m: Slots, ks: set<string>): (r: int)
    requires ks <= m.Keys
    ensures ks == {} ==> r == 0
    ensures (forall k :: k in ks ==> m[k] >= 0) ==> r >= 0
    decreases ks
  {
    if ks == {} then 0 else var k :| k in ks; m[k] + SumKeys(m, ks - {k})
  }

  /** The counter's total: the sum of all its slots. */
  ghost function Total(m: Slots): (t: int)
    ensures m == map[] ==> t == 0
    ensures NonNegative(m) ==> t >= 0
  {
    SumKeys(m, m.Keys)
  }

  /** Any slot can be taken out of the sum first. */
  lemma {:induction false} SumKeysRemove(m: Slots, ks: set<string>, k: string)
    requires ks <= m.Keys && k in ks
    ensures SumKeys(m, ks) == m[k] + SumKeys(m, ks - {k})
    decreases ks
  {
    var j :| j in ks && SumKeys(m, ks) == m[j] + SumKeys(m, ks - {j});
    if j != k {
      SumKeysRemove(m, ks - {j}, k);
      SumKeysRemove(m, ks - {k}, j);
      assert ks - {j} - {k} == ks - {k} - {j};
    }
  }

  /** Sums over slots on which two maps agree are equal. */
  lemma {:induction false} SumKeysAgree(m1: Slots, m2: Slots, ks: set<string>)
    requires ks <= m1.Keys && ks <= m2.Keys
    requires forall k :: k in ks ==> m1[k] == m2[k]
    ensures SumKeys(m1, ks) == SumKeys(m2, ks)
    decreases ks
  {
    if ks != {} {
      var k :| k in ks;
      SumKeysRemove(m1, ks, k);
      SumKeysRemove(m2, ks, k);
      SumKeysAgree(m1, m2, ks - {k});
    }
  }

  /** Overwriting one slot changes the total by the difference (SetCount). */
  lemma TotalAfterSet(m: Slots, k: string, value: int)
    ensures Total(m[k := value]) == Total(m) - Get(m, k) + value
  {
    var m' := m[k := value];
    var rest := m.Keys - {k};
    SumKeysAgree(m, m', rest);
    SumKeysRemove(m', m'.Keys, k);
    assert m'.Keys - {k} == rest;
    if k in m {
      SumKeysRemove(m, m.Keys, k);
    } else {
      assert rest == m.Keys;
    }
  }

  /** Increment raises the total by exactly one. */
  lemma TotalAfterIncrement(m: Slots, k: string)
    ensures Total(m[k := Get(m, k) + 1]) == Total(m) + 1
  {
    TotalAfterSet(m, k, Get(m, k) + 1);
  }

  /** The total of a counter whose every slot is 0, the empty counter included, is 0. */
  lemma {:induction false} TotalOfZeros(m: Slots, ks: set<string>)
    requires ks <= m.Keys
    requires forall k :: k in ks ==> m[k] == 0
    ensures SumKeys(m, ks) == 0
    decreases ks
  {
    if ks != {} {
      var k :| k in ks;
      SumKeysRemove(m, ks, k);
      TotalOfZeros(m, ks - {k});
    }
  }

  /** A sum of non-negative slots over fewer keys is no larger. */
  lemma {:induction false} SumKeysSubset(m: Slots, small: set<string>, big: set<string>)
    requires NonNegative(m) && small <= big <= m.Keys
    ensures SumKeys(m, small) <= SumKeys(m, big)
    decreases big
  {
    if small != big {
      var k :| k in big && k !in small;
      SumKeysRemove(m, big, k);
      SumKeysSubset(m, small, big - {k});
    }
  }

  /** Raising slots does not lower their sum. */
  lemma {:induction false} SumKeysMonotone(a: Slots, b: Slots, ks: set<string>)
    requires ks <= a.Keys && Below(a, b)
    ensures SumKeys(a, ks) <= SumKeys(b, ks)
    decreases ks
  {
    if ks != {} {
      var k :| k in ks;
      SumKeysRemove(a, ks, k);
      SumKeysRemove(b, ks, k);
      SumKeysMonotone(a, b, ks - {k});
    }
  }

  /**
   The total never goes down along the grow-only order: a counter that only gained slots or
   counts (by Increment, Merge or Sync) reports at least its old total.
   */
  lemma TotalMonotone(a: Slots, b: Slots)
    requires NonNegative(b) && Below(a, b)
    ensures Total(a) <= Total(b)
  {
    SumKeysMonotone(a, b, a.Keys);
    SumKeysSubset(b, a.Keys, b.Keys);
  }

  /** In a non-negative counter every slot is at most the total. */
  lemma SlotAtMostTotal(m: Slots, k: string)
    requires NonNegative(m) && k in m
    ensures m[k] <= Total(m)
  {
    SumKeysRemove(m, m.Keys, k);
    SumKeysSubset(m, {}, m.Keys - {k});
  }
}
