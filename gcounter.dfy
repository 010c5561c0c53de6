/**
 The GCounter of gcounter/gcounter.go with Go's reference semantics kept visible. The struct
 GCounter is a value whose one field refers to a map; copying the struct copies the reference, so
 the value-receiver methods Increment, SetCount and Clear still change the caller's map, and
 Merge returns a struct that shares its map with its first argument. The map object is the class
 CountMap, and a nil map is `null`.
 */
module GCounters {
  import opened SlotMaps

  /** The node name used when the node is the only one in the cluster. */
  const SingleNodeName := "node"

  /** The name a slot is stored under: the empty name stands for the single node. */
  function NodeName(node: string): (n: string)
    ensures node == "" ==> n == SingleNodeName
    ensures node != "" ==> n == node
  {
    if node == "" then SingleNodeName else node
  }

  /** A Go map[string]int object; every copy of a GCounter struct refers to the same one. */
  class CountMap {
    var entries: Slots

    constructor (entries: Slots)
      ensures this.entries == entries
    {
      this.entries := entries;
    }
  }

  /** The GCounter struct; `count == null` is a nil Count map, as in the zero value GCounter{}. */
  datatype GCounter = GCounter(count: CountMap?)

  /** What ranging over or reading the Count map sees: a nil map reads as empty. */
  function Contents(g: GCounter): (m: Slots)
    reads g.count
    ensures g.count == null ==> m == map[]
    ensures g.count != null ==> m == g.count.entries
  {
    if g.count == null then map[] else g.count.entries
  }

  /** The slots of a freshly initialised counter: the one node at 0. */
  function InitialSlots(node: string): (m: Slots)
    ensures m.Keys == {NodeName(node)}
    ensures forall k :: k in m ==> m[k] == 0
    ensures NonNegative(m) && Total(m) == 0
  {
    var m := map[NodeName(node) := 0];
    TotalOfZeros(m, m.Keys);
    m
  }

  /** Initialize: a new counter with its own new map holding exactly {node: 0}. */
  method Initialize(node: string) returns (g: GCounter)
    ensures g.count != null && fresh(g.count)
    ensures g.count.entries == InitialSlots(node)
  {
    var countMap := new CountMap(map[]);
    countMap.entries := countMap.entries[NodeName(node) := 0];
    g := GCounter(countMap);
  }

  /**
   Increment: raises the node's slot by one in the shared map (an absent slot becomes 1) and
   returns that same map. A nil map would panic in Go, hence the precondition.
   */
  method Increment(g: GCounter, node: string) returns (count: CountMap)
    requires g.count != null
    modifies g.count
    ensures count == g.count
    ensures count.entries == old(count.entries)[NodeName(node) := Get(old(count.entries), NodeName(node)) + 1]
    ensures Below(old(count.entries), count.entries)
    ensures Total(count.entries) == old(Total(count.entries)) + 1
  {
    var n := NodeName(node);
    TotalAfterIncrement(g.count.entries, n);
    g.count.entries := g.count.entries[n := Get(g.count.entries, n) + 1];
    count := g.count;
  }

  /** GetCount: the struct's own map, not a copy; reads through it see every later update. */
  function GetCount(g: GCounter): (count: CountMap?)
    ensures count == g.count
  {
    g.count
  }

  /** GetTotal: sums the slots one at a time; a nil or empty map sums to 0. */
  method GetTotal(g: GCounter) returns (total: int)
    ensures total == Total(Contents(g))
  {
    var m := Contents(g);
    var rest := m.Keys;
    total := 0;
    while rest != {}
      invariant rest <= m.Keys
      invariant total + SumKeys(m, rest) == Total(m)
      decreases rest
    {
      var k :| k in rest;
      SumKeysRemove(m, rest, k);
      total := total + m[k];
      rest := rest - {k};
    }
  }

  /** The contents of every counter passed to Merge, in argument order. */
  function Views(gs: seq<GCounter>): (vs: seq<Slots>)
    reads set i | 0 <= i < |gs| :: gs[i].count
    ensures |vs| == |gs|
    ensures forall i :: 0 <= i < |gs| ==> vs[i] == Contents(gs[i])
  {
    seq(|gs|, i reads set i | 0 <= i < |gs| :: gs[i].count requires 0 <= i < |gs| => Contents(gs[i]))
  }

  lemma ViewsOfTwo(a: GCounter, b: GCounter)
    ensures Views([a, b]) == [Contents(a), Contents(b)]
  {
  }

  /** A Merge whose first map is nil must find nothing to write. */
  ghost predicate MergeAllowed(gs: seq<GCounter>)
    reads set i | 0 <= i < |gs| :: gs[i].count
  {
    |gs| > 0 && (gs[0].count != null || forall i :: 0 <= i < |gs| ==> Contents(gs[i]) == map[])
  }

  /**
   The inner loop of Merge: ranges over the slots of one argument `v` and writes each into the
   accumulator map as the larger of the two counts. A nil accumulator is only ever given an
   empty `v`, so nothing is written to it.
   */
  method JoinInto(acc: CountMap?, v: Slots)
    requires acc != null || v == map[]
    modifies acc
    ensures acc != null ==> acc.entries == Join(old(acc.entries), v)
  {
    ghost var done: Slots := map[];
    var keys := v.Keys;
    while keys != {}
      invariant keys <= v.Keys
      invariant done.Keys == v.Keys - keys
      invariant forall k :: k in done ==> done[k] == v[k]
      invariant acc != null ==> acc.entries == Join(old(acc.entries), done)
      decreases keys
    {
      var k :| k in keys;
      JoinOneMore(old(acc.entries), done, k, v[k]);
      acc.entries := acc.entries[k := Max(Get(acc.entries, k), v[k])];
      done := done[k := v[k]];
      keys := keys - {k};
    }
    assert done == v;
  }

  /**
   An argument that shares the accumulator's map is read as the accumulator itself; since the
   accumulator is already above that argument's old contents, both readings add nothing.
   */
  lemma JoinSharedMap(acc: Slots, shared: Slots)
    requires Below(shared, acc)
    ensures Join(acc, acc) == Join(acc, shared) == acc
  {
    JoinAbsorbs(acc, shared);
    JoinAbsorbs(acc, acc);
  }

  /**
   Merge: folds every argument, the first included, into the first argument's map by taking the
   larger count per node, and returns the first argument itself. An argument that shares the
   first argument's map is read as that map stands when its turn comes.
   */
  method Merge(gs: seq<GCounter>) returns (merged: GCounter)
    requires MergeAllowed(gs)
    modifies gs[0].count
    ensures merged == gs[0]
    ensures Contents(merged) == MergeAll(old(Views(gs)))
    ensures Below(old(Contents(gs[0])), Contents(merged))
  {
    ghost var olds := Views(gs);
    merged := gs[0];
    var i := 0;
    assert olds[..0] == [] && Contents(merged) == olds[0];
    while i < |gs|
      invariant 0 <= i <= |gs|
      invariant merged == gs[0]
      invariant Contents(merged) == JoinAll(olds[0], olds[..i])
    {
      var v := Contents(gs[i]);
      ghost var before := Contents(merged);
      JoinInto(merged.count, v);
      assert olds[..i + 1] == olds[..i] + [olds[i]];
      JoinAllSnoc(olds[0], olds[..i], olds[i]);
      if gs[i].count == merged.count && merged.count != null {
        assert olds[i] == olds[0];
        JoinSharedMap(before, olds[i]);
      } else {
        assert v == olds[i];
      }
      i := i + 1;
    }
    assert olds[..|gs|] == olds;
  }

  /** SetCount: overwrites the node's slot in the shared map and returns that same map. */
  method SetCount(g: GCounter, node: string, value: int) returns (count: CountMap)
    requires g.count != null
    modifies g.count
    ensures count == g.count
    ensures count.entries == old(count.entries)[NodeName(node) := value]
    ensures Total(count.entries) == old(Total(count.entries)) - Get(old(count.entries), NodeName(node)) + value
  {
    var n := NodeName(node);
    TotalAfterSet(g.count.entries, n, value);
    g.count.entries := g.count.entries[n := value];
    count := g.count;
  }

  /**
   Clear: deletes every entry of the old map in place, then returns a new map holding only
   {node: 0}; the caller's struct still refers to the emptied old map until it stores the result.
   */
  method Clear(g: GCounter, node: string) returns (count: CountMap)
    modifies g.count
    ensures g.count != null ==> g.count.entries == map[]
    ensures fresh(count) && count.entries == InitialSlots(node)
  {
    if g.count != null {
      while g.count.entries != map[]
        decreases g.count.entries.Keys
      {
        var k :| k in g.count.entries;
        g.count.entries := g.count.entries - {k};
      }
    }
    var cleared := Initialize(node);
    count := cleared.count;
  }
}
