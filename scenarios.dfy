/**
 The scenarios of gcounter/gcounter_test.go and of the anti-entropy loop, as clients that use
 only the contracts of the operations they call.
 */
module Scenarios {
  import opened SlotMaps
  import opened GCounters
  import opened AntiEntropy

  const TestNode := "test-node"

  /** A fresh counter reads as {test-node: 0}. */
  method GetCountOfFresh() returns (count: Slots)
    ensures count == map[TestNode := 0]
  {
    var g := Initialize(TestNode);
    count := GetCount(g).entries;
  }

  /** A fresh counter totals 0. */
  method TotalOfFresh() returns (total: int)
    ensures total == 0
  {
    var g := Initialize(TestNode);
    total := GetTotal(g);
  }

  /** One increment of a fresh counter: GetCount then reads {test-node: 1}. */
  method GetCountAfterIncrement() returns (count: Slots)
    ensures count == map[TestNode := 1]
  {
    var g := Initialize(TestNode);
    var c := Increment(g, TestNode);
    count := GetCount(g).entries;
  }

  /** The map Increment returns is the counter's own map, already holding {test-node: 1}. */
  method IncrementReturnsCount() returns (returned: Slots, count: Slots)
    ensures returned == map[TestNode := 1]
    ensures count == returned
  {
    var g := Initialize(TestNode);
    var c := Increment(g, TestNode);
    returned := c.entries;
    count := GetCount(g).entries;
  }

  /** Setting the same slot to 5, 7 and 9 leaves only the last value. */
  method SetCountOverwrites() returns (count: Slots)
    ensures count == map[TestNode := 9]
  {
    var g := Initialize(TestNode);
    var c := SetCount(g, TestNode, 5);
    c := SetCount(g, TestNode, 7);
    c := SetCount(g, TestNode, 9);
    count := GetCount(g).entries;
  }

  /** Setting the slot of a fresh counter to 0 leaves {test-node: 0}. */
  method SetCountToZero() returns (count: Slots)
    ensures count == map[TestNode := 0]
  {
    var g := Initialize(TestNode);
    var c := SetCount(g, TestNode, 0);
    count := GetCount(g).entries;
  }

  /** Clearing a fresh counter gives {test-node: 0} again. */
  method ClearFresh() returns (count: Slots)
    ensures count == map[TestNode := 0]
  {
    var g := Initialize(TestNode);
    var cleared := Clear(g, TestNode);
    g := GCounter(cleared);
    count := GetCount(g).entries;
  }

  /** Three increments of a fresh counter give {test-node: 3} and a total of 3. */
  method IncrementThreeTimes() returns (count: Slots, total: int)
    ensures count == map[TestNode := 3]
    ensures total == 3
  {
    var g := Initialize(TestNode);
    var c := Increment(g, TestNode);
    c := Increment(g, TestNode);
    c := Increment(g, TestNode);
    var view := GetCount(g);
    count := view.entries;
    total := GetTotal(g);
  }

  /** SetCount on two nodes leaves both slots as set. */
  method SetTwoNodes() returns (count: Slots)
    ensures count == map[TestNode := 5, "testNode2" := 7]
  {
    var g := Initialize(TestNode);
    var c := SetCount(g, TestNode, 5);
    c := SetCount(g, "testNode2", 7);
    count := GetCount(g).entries;
  }

  /** Three further slots set to 1, 3 and 5 beside the initial 0 give a total of 9. */
  method TotalOfSetSlots() returns (total: int)
    ensures total == 9
  {
    var g := Initialize(TestNode);
    var c := SetCount(g, "testNode1", 1);
    c := SetCount(g, "testNode2", 3);
    c := SetCount(g, "testNode3", 5);
    total := GetTotal(g);
  }

  /** Clear after two increments: the old map is emptied and the returned map is {test-node: 0}. */
  method ClearAfterIncrements() returns (old_count: Slots, count: Slots)
    ensures old_count == map[]
    ensures count == map[TestNode := 0]
  {
    var g := Initialize(TestNode);
    var c := Increment(g, TestNode);
    c := Increment(g, TestNode);
    var cleared := Clear(g, TestNode);
    old_count := GetCount(g).entries;
    g := GCounter(cleared);
    count := GetCount(g).entries;
  }

  /** Merge of three counters keeps the largest count per node and writes into the first one. */
  method MergeThree() returns (first: Slots, merged: Slots)
    ensures merged == map[Node1 := 4, Node2 := 6, Node3 := 9]
    ensures first == merged
  {
    var m1 := new CountMap(map[Node1 := 3, Node2 := 5, Node3 := 7]);
    var m2 := new CountMap(map[Node1 := 4, Node2 := 6, Node3 := 8]);
    var m3 := new CountMap(map[Node1 := 2, Node2 := 4, Node3 := 9]);
    ghost var views := [m1.entries, m2.entries, m3.entries];
    assert Views([GCounter(m1), GCounter(m2), GCounter(m3)]) == views;
    var g := Merge([GCounter(m1), GCounter(m2), GCounter(m3)]);
    ExpectedMerge();
    first := m1.entries;
    merged := GetCount(g).entries;
  }

  const Node1 := "node1"
  const Node2 := "node2"
  const Node3 := "node3"

  lemma NodeNamesDiffer()
    ensures Node1 != Node2 && Node1 != Node3 && Node2 != Node3
  {
    assert Node1[4] != Node2[4] && Node1[4] != Node3[4] && Node2[4] != Node3[4];
  }

  /** Joining two counters that hold the same three nodes keeps the larger count of each. */
  lemma JoinOfThreeNodes(x1: int, x2: int, x3: int, y1: int, y2: int, y3: int)
    ensures Join(map[Node1 := x1, Node2 := x2, Node3 := x3], map[Node1 := y1, Node2 := y2, Node3 := y3])
         == map[Node1 := Max(x1, y1), Node2 := Max(x2, y2), Node3 := Max(x3, y3)]
  {
    NodeNamesDiffer();
    var a: Slots := map[Node1 := x1, Node2 := x2, Node3 := x3];
    var b: Slots := map[Node1 := y1, Node2 := y2, Node3 := y3];
    var r := Join(a, b);
    var expected := map[Node1 := Max(x1, y1), Node2 := Max(x2, y2), Node3 := Max(x3, y3)];
    assert a.Keys == b.Keys == expected.Keys == {Node1, Node2, Node3};
    assert r[Node1] == expected[Node1] && r[Node2] == expected[Node2] && r[Node3] == expected[Node3];
  }

  /** The fold of TestMerge's three counters, one join at a time. */
  lemma ExpectedMerge()
    ensures MergeAll([map[Node1 := 3, Node2 := 5, Node3 := 7],
                      map[Node1 := 4, Node2 := 6, Node3 := 8],
                      map[Node1 := 2, Node2 := 4, Node3 := 9]])
         == map[Node1 := 4, Node2 := 6, Node3 := 9]
  {
    var a: Slots := map[Node1 := 3, Node2 := 5, Node3 := 7];
    var b: Slots := map[Node1 := 4, Node2 := 6, Node3 := 8];
    var c: Slots := map[Node1 := 2, Node2 := 4, Node3 := 9];
    assert [a, b, c] == [a, b] + [c] && [a, b] == [a] + [b] && [a] == [] + [a];
    JoinAllSnoc(a, [], a);
    JoinAllSnoc(a, [a], b);
    JoinAllSnoc(a, [a, b], c);
    JoinAbsorbs(a, a);
    JoinOfThreeNodes(3, 5, 7, 4, 6, 8);
    JoinOfThreeNodes(4, 6, 8, 2, 4, 9);
  }

  /** Merge of three separate counters with equal contents yields those contents. */
  method MergeDuplicates() returns (merged: Slots)
    ensures merged == map[Node1 := 3, Node2 := 5, Node3 := 7]
  {
    var m := map[Node1 := 3, Node2 := 5, Node3 := 7];
    var m1 := new CountMap(m);
    var m2 := new CountMap(m);
    var m3 := new CountMap(m);
    ghost var views := [m1.entries, m2.entries, m3.entries];
    assert Views([GCounter(m1), GCounter(m2), GCounter(m3)]) == views;
    MergeAllIdempotent(views, m);
    var g := Merge([GCounter(m1), GCounter(m2), GCounter(m3)]);
    merged := GetCount(g).entries;
  }

  /** Merge of three zero-value counters returns a counter whose map is still nil. */
  method MergeNilCounters() returns (merged: GCounter)
    ensures merged.count == null
  {
    var g := GCounter(null);
    merged := Merge([g, g, g]);
  }

  /**
   A sync against one peer that fails and one that reports {P2: 10} folds in only the second,
   and reports no error.
   */
  method SyncWithOneFailingPeer() returns (count: Slots, err: Option<SyncError>)
    ensures count == map["A" := 0, "P2" := 10]
    ensures err == None
  {
    var g := Initialize("A");
    var synced;
    synced, err := Sync(g, ["P1", "P2"], [Failure, Success(map["P2" := 10])]);
    count := GetCount(synced).entries;
  }

  /** A sync with no peers leaves the counter as it was and reports the error. */
  method SyncWithoutPeers() returns (count: Slots, err: Option<SyncError>)
    ensures count == map["A" := 0]
    ensures err == Some(NilPeersPresent)
  {
    var g := Initialize("A");
    var synced;
    synced, err := Sync(g, [], []);
    count := GetCount(synced).entries;
  }
}
