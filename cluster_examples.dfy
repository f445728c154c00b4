/** The trees the ClusterParse test suite builds by hand, rebuilt record by
    record with the model's `insert`, and what the suite expects of them. */
module ClusterExamples {
  import opened ClusterTree

  // ---------------------------------------------------------------------
  // The five records (0, 2), (1, 2), (2, 5), (3, 4), (4, 5)

  const SmallRecords: seq<nat> := [2, 2, 5, 4, 5]

  const Small1 := Cluster([Node(false, false, 0, 0, 2, 0), Node(false, false, 0, 0, 0, 0), Node(true, false, 0, 0, 0, 1)], 1)
  const Small2 := Cluster([Node(false, false, 0, 0, 2, 0), Node(false, false, 0, 0, 2, 0), Node(true, true, 0, 1, 0, 1)], 2)
  const Small3 := Cluster([Node(false, false, 0, 0, 2, 0), Node(false, false, 0, 0, 2, 0), Node(true, true, 0, 1, 5, 1), Node(false, false, 0, 0, 0, 0), Node(false, false, 0, 0, 0, 0), Node(true, false, 2, 0, 0, 2)], 3)
  const Small4 := Cluster([Node(false, false, 0, 0, 2, 0), Node(false, false, 0, 0, 2, 0), Node(true, true, 0, 1, 5, 1), Node(false, false, 0, 0, 4, 0), Node(true, false, 3, 0, 0, 1), Node(true, false, 2, 0, 0, 2)], 4)
  const Small5 := Cluster([Node(false, false, 0, 0, 2, 0), Node(false, false, 0, 0, 2, 0), Node(true, true, 0, 1, 5, 1), Node(false, false, 0, 0, 4, 0), Node(true, false, 3, 0, 5, 1), Node(true, true, 2, 4, 0, 2)], 5)

  lemma SmallStep1()
    ensures 0 < |Grow(Empty.nodes, 2)|
    ensures Insert(Empty, 0, 2) == Small1
  {
  }

  lemma SmallStep2()
    ensures 1 < |Grow(Small1.nodes, 2)|
    ensures Insert(Small1, 1, 2) == Small2
  {
  }

  lemma SmallStep3()
    ensures 2 < |Grow(Small2.nodes, 5)|
    ensures Insert(Small2, 2, 5) == Small3
  {
  }

  lemma SmallStep4()
    ensures 3 < |Grow(Small3.nodes, 4)|
    ensures Insert(Small3, 3, 4) == Small4
  {
  }

  lemma SmallStep5()
    ensures 4 < |Grow(Small4.nodes, 5)|
    ensures Insert(Small4, 4, 5) == Small5
  {
  }

  lemma SmallPrefix1()
    ensures Admissible(Empty, SmallRecords[..1])
    ensures Build(Empty, SmallRecords[..1]) == Small1
  {
    SmallStep1();
    assert SmallRecords[..0] == [];
    BuildStep(Empty, SmallRecords, 0, Empty, 2);
  }

  lemma SmallPrefix2()
    ensures Admissible(Empty, SmallRecords[..2])
    ensures Build(Empty, SmallRecords[..2]) == Small2
  {
    SmallStep2();
    SmallPrefix1();
    BuildStep(Empty, SmallRecords, 1, Small1, 2);
  }

  lemma SmallPrefix3()
    ensures Admissible(Empty, SmallRecords[..3])
    ensures Build(Empty, SmallRecords[..3]) == Small3
  {
    SmallStep3();
    SmallPrefix2();
    BuildStep(Empty, SmallRecords, 2, Small2, 5);
  }

  lemma SmallPrefix4()
    ensures Admissible(Empty, SmallRecords[..4])
    ensures Build(Empty, SmallRecords[..4]) == Small4
  {
    SmallStep4();
    SmallPrefix3();
    BuildStep(Empty, SmallRecords, 3, Small3, 4);
  }

  lemma SmallPrefix5()
    ensures Admissible(Empty, SmallRecords[..5])
    ensures Build(Empty, SmallRecords[..5]) == Small5
  {
    SmallStep5();
    SmallPrefix4();
    BuildStep(Empty, SmallRecords, 4, Small4, 5);
  }

  // ---------------------------------------------------------------------
  // The balanced tree with 8 leaves: records 2i and 2i + 1 get parent 8 + i

  const BalancedRecords: seq<nat> := [8, 8, 9, 9, 10, 10, 11, 11, 12, 12, 13, 13, 14, 14]

  const Balanced1 := Cluster([Node(false, false, 0, 0, 8, 0), Node(false, false, 0, 0, 8, 0), Node(false, false, 0, 0, 0, 0), Node(false, false, 0, 0, 0, 0), Node(false, false, 0, 0, 0, 0), Node(false, false, 0, 0, 0, 0), Node(false, false, 0, 0, 0, 0), Node(false, false, 0, 0, 0, 0), Node(true, true, 0, 1, 0, 1)], 2)
  const Balanced2 := Cluster([Node(false, false, 0, 0, 8, 0), Node(false, false, 0, 0, 8, 0), Node(false, false, 0, 0, 9, 0), Node(false, false, 0, 0, 9, 0), Node(false, false, 0, 0, 0, 0), Node(false, false, 0, 0, 0, 0), Node(false, false, 0, 0, 0, 0), Node(false, false, 0, 0, 0, 0), Node(true, true, 0, 1, 0, 1), Node(true, true, 2, 3, 0, 1)], 4)
  const Balanced3 := Cluster([Node(false, false, 0, 0, 8, 0), Node(false, false, 0, 0, 8, 0), Node(false, false, 0, 0, 9, 0), Node(false, false, 0, 0, 9, 0), Node(false, false, 0, 0, 10, 0), Node(false, false, 0, 0, 10, 0), Node(false, false, 0, 0, 0, 0), Node(false, false, 0, 0, 0, 0), Node(true, true, 0, 1, 0, 1), Node(true, true, 2, 3, 0, 1), Node(true, true, 4, 5, 0, 1)], 6)
  const Balanced4 := Cluster([Node(false, false, 0, 0, 8, 0), Node(false, false, 0, 0, 8, 0), Node(false, false, 0, 0, 9, 0), Node(false, false, 0, 0, 9, 0), Node(false, false, 0, 0, 10, 0), Node(false, false, 0, 0, 10, 0), Node(false, false, 0, 0, 11, 0), Node(false, false, 0, 0, 11, 0), Node(true, true, 0, 1, 0, 1), Node(true, true, 2, 3, 0, 1), Node(true, true, 4, 5, 0, 1), Node(true, true, 6, 7, 0, 1)], 8)
  const Balanced5 := Cluster([Node(false, false, 0, 0, 8, 0), Node(false, false, 0, 0, 8, 0), Node(false, false, 0, 0, 9, 0), Node(false, false, 0, 0, 9, 0), Node(false, false, 0, 0, 10, 0), Node(false, false, 0, 0, 10, 0), Node(false, false, 0, 0, 11, 0), Node(false, false, 0, 0, 11, 0), Node(true, true, 0, 1, 12, 1), Node(true, true, 2, 3, 12, 1), Node(true, true, 4, 5, 0, 1), Node(true, true, 6, 7, 0, 1), Node(true, true, 8, 9, 0, 2)], 10)
  const Balanced6 := Cluster([Node(false, false, 0, 0, 8, 0), Node(false, false, 0, 0, 8, 0), Node(false, false, 0, 0, 9, 0), Node(false, false, 0, 0, 9, 0), Node(false, false, 0, 0, 10, 0), Node(false, false, 0, 0, 10, 0), Node(false, false, 0, 0, 11, 0), Node(false, false, 0, 0, 11, 0), Node(true, true, 0, 1, 12, 1), Node(true, true, 2, 3, 12, 1), Node(true, true, 4, 5, 13, 1), Node(true, true, 6, 7, 13, 1), Node(true, true, 8, 9, 0, 2), Node(true, true, 10, 11, 0, 2)], 12)
  const Balanced7 := Cluster([Node(false, false, 0, 0, 8, 0), Node(false, false, 0, 0, 8, 0), Node(false, false, 0, 0, 9, 0), Node(false, false, 0, 0, 9, 0), Node(false, false, 0, 0, 10, 0), Node(false, false, 0, 0, 10, 0), Node(false, false, 0, 0, 11, 0), Node(false, false, 0, 0, 11, 0), Node(true, true, 0, 1, 12, 1), Node(true, true, 2, 3, 12, 1), Node(true, true, 4, 5, 13, 1), Node(true, true, 6, 7, 13, 1), Node(true, true, 8, 9, 14, 2), Node(true, true, 10, 11, 14, 2), Node(true, true, 12, 13, 0, 3)], 14)

  lemma BalancedStep1()
    ensures 0 < |Grow(Empty.nodes, 8)|
    ensures 1 < |Grow(Insert(Empty, 0, 8).nodes, 8)|
    ensures Insert(Insert(Empty, 0, 8), 1, 8) == Balanced1
  {
  }

  lemma BalancedStep2()
    ensures 2 < |Grow(Balanced1.nodes, 9)|
    ensures 3 < |Grow(Insert(Balanced1, 2, 9).nodes, 9)|
    ensures Insert(Insert(Balanced1, 2, 9), 3, 9) == Balanced2
  {
  }

  lemma BalancedStep3()
    ensures 4 < |Grow(Balanced2.nodes, 10)|
    ensures 5 < |Grow(Insert(Balanced2, 4, 10).nodes, 10)|
    ensures Insert(Insert(Balanced2, 4, 10), 5, 10) == Balanced3
  {
  }

  lemma BalancedStep4()
    ensures 6 < |Grow(Balanced3.nodes, 11)|
    ensures 7 < |Grow(Insert(Balanced3, 6, 11).nodes, 11)|
    ensures Insert(Insert(Balanced3, 6, 11), 7, 11) == Balanced4
  {
  }

  lemma BalancedStep5()
    ensures 8 < |Grow(Balanced4.nodes, 12)|
    ensures 9 < |Grow(Insert(Balanced4, 8, 12).nodes, 12)|
    ensures Insert(Insert(Balanced4, 8, 12), 9, 12) == Balanced5
  {
  }

  lemma BalancedStep6()
    ensures 10 < |Grow(Balanced5.nodes, 13)|
    ensures 11 < |Grow(Insert(Balanced5, 10, 13).nodes, 13)|
    ensures Insert(Insert(Balanced5, 10, 13), 11, 13) == Balanced6
  {
  }

  lemma BalancedStep7()
    ensures 12 < |Grow(Balanced6.nodes, 14)|
    ensures 13 < |Grow(Insert(Balanced6, 12, 14).nodes, 14)|
    ensures Insert(Insert(Balanced6, 12, 14), 13, 14) == Balanced7
  {
  }

  lemma BalancedPrefix1()
    ensures Admissible(Empty, BalancedRecords[..2])
    ensures Build(Empty, BalancedRecords[..2]) == Balanced1
  {
    BalancedStep1();
    assert BalancedRecords[..0] == [];
    BuildTwo(Empty, BalancedRecords, 0, Empty, 8, 8);
  }

  lemma BalancedPrefix2()
    ensures Admissible(Empty, BalancedRecords[..4])
    ensures Build(Empty, BalancedRecords[..4]) == Balanced2
  {
    BalancedStep2();
    BalancedPrefix1();
    BuildTwo(Empty, BalancedRecords, 2, Balanced1, 9, 9);
  }

  lemma BalancedPrefix3()
    ensures Admissible(Empty, BalancedRecords[..6])
    ensures Build(Empty, BalancedRecords[..6]) == Balanced3
  {
    BalancedStep3();
    BalancedPrefix2();
    BuildTwo(Empty, BalancedRecords, 4, Balanced2, 10, 10);
  }

  lemma BalancedPrefix4()
    ensures Admissible(Empty, BalancedRecords[..8])
    ensures Build(Empty, BalancedRecords[..8]) == Balanced4
  {
    BalancedStep4();
    BalancedPrefix3();
    BuildTwo(Empty, BalancedRecords, 6, Balanced3, 11, 11);
  }

  lemma BalancedPrefix5()
    ensures Admissible(Empty, BalancedRecords[..10])
    ensures Build(Empty, BalancedRecords[..10]) == Balanced5
  {
    BalancedStep5();
    BalancedPrefix4();
    BuildTwo(Empty, BalancedRecords, 8, Balanced4, 12, 12);
  }

  lemma BalancedPrefix6()
    ensures Admissible(Empty, BalancedRecords[..12])
    ensures Build(Empty, BalancedRecords[..12]) == Balanced6
  {
    BalancedStep6();
    BalancedPrefix5();
    BuildTwo(Empty, BalancedRecords, 10, Balanced5, 13, 13);
  }

  lemma BalancedPrefix7()
    ensures Admissible(Empty, BalancedRecords[..14])
    ensures Build(Empty, BalancedRecords[..14]) == Balanced7
  {
    BalancedStep7();
    BalancedPrefix6();
    BuildTwo(Empty, BalancedRecords, 12, Balanced6, 14, 14);
  }


  // ---------------------------------------------------------------------
  // What the test suite asserts of the two trees

  /** The small tree: 0 and 1 under 2, 3 under 4, 2 and 4 under the root 5. */
  predicate SmallShape(c: Cluster) {
    |c.nodes| == 6 && GetRoot(c) == 5 && Ordered(c.nodes)
    && GetParent(c, 0) == 2 && GetParent(c, 1) == 2 && GetParent(c, 2) == 5
    && GetParent(c, 3) == 4 && GetParent(c, 4) == 5
    && Childless(c.nodes[0]) && Childless(c.nodes[1]) && Childless(c.nodes[3])
    && c.nodes[4].leftChild && !c.nodes[4].rightChild && GetLeftChild(c, 4) == 3
    && c.nodes[2].leftChild && c.nodes[2].rightChild
    && GetLeftChild(c, 2) == 0 && GetRightChild(c, 2) == 1
    && c.nodes[5].leftChild && c.nodes[5].rightChild
    && GetLeftChild(c, 5) == 2 && GetRightChild(c, 5) == 4
    && GetHeight(c, 5) == 2
  }

  lemma SmallLeaves(c: Cluster)
    requires SmallShape(c)
    ensures FormatOutput(c) == [0, 1, 3]
  {
    assert Leaves(c.nodes, 2) == [0, 1];
    assert Leaves(c.nodes, 4) == [3];
  }

  lemma Small5Shape()
    ensures SmallShape(Small5)
  {
  }

  lemma SmallTree()
    ensures Admissible(Empty, SmallRecords)
    ensures SmallShape(Build(Empty, SmallRecords))
    ensures FormatOutput(Build(Empty, SmallRecords)) == [0, 1, 3]
  {
    SmallPrefix5();
    assert SmallRecords[..5] == SmallRecords;
    Small5Shape();
    SmallLeaves(Small5);
  }

  /** The balanced tree: pairs 2i, 2i + 1 under 8 + i, with root 14. */
  predicate BalancedShape(c: Cluster) {
    |c.nodes| == 15 && GetRoot(c) == 14 && Ordered(c.nodes)
    && Childless(c.nodes[0]) && Childless(c.nodes[1]) && Childless(c.nodes[2]) && Childless(c.nodes[3])
    && Childless(c.nodes[4]) && Childless(c.nodes[5]) && Childless(c.nodes[6]) && Childless(c.nodes[7])
    && c.nodes[8].leftChild && c.nodes[8].rightChild && GetLeftChild(c, 8) == 0 && GetRightChild(c, 8) == 1
    && c.nodes[9].leftChild && c.nodes[9].rightChild && GetLeftChild(c, 9) == 2 && GetRightChild(c, 9) == 3
    && c.nodes[10].leftChild && c.nodes[10].rightChild && GetLeftChild(c, 10) == 4 && GetRightChild(c, 10) == 5
    && c.nodes[11].leftChild && c.nodes[11].rightChild && GetLeftChild(c, 11) == 6 && GetRightChild(c, 11) == 7
    && c.nodes[12].leftChild && c.nodes[12].rightChild && GetLeftChild(c, 12) == 8 && GetRightChild(c, 12) == 9
    && c.nodes[13].leftChild && c.nodes[13].rightChild && GetLeftChild(c, 13) == 10 && GetRightChild(c, 13) == 11
    && c.nodes[14].leftChild && c.nodes[14].rightChild && GetLeftChild(c, 14) == 12 && GetRightChild(c, 14) == 13
    && GetParent(c, 0) == 8 && GetParent(c, 1) == 8 && GetParent(c, 6) == 11
    && GetParent(c, 7) == 11 && GetParent(c, 11) == 13 && GetParent(c, 13) == 14
    && GetHeight(c, 14) == 3
  }

  lemma BalancedLeaves(c: Cluster)
    requires BalancedShape(c)
    ensures FormatOutput(c) == [0, 1, 2, 3, 4, 5, 6, 7]
  {
    var t := c.nodes;
    assert Leaves(t, 12) == [0, 1, 2, 3];
    assert Leaves(t, 13) == [4, 5, 6, 7];
  }

  lemma Balanced7Shape()
    ensures BalancedShape(Balanced7)
  {
  }

  lemma BalancedTree()
    ensures Admissible(Empty, BalancedRecords)
    ensures BalancedShape(Build(Empty, BalancedRecords))
    ensures FormatOutput(Build(Empty, BalancedRecords)) == [0, 1, 2, 3, 4, 5, 6, 7]
  {
    BalancedPrefix7();
    assert BalancedRecords[..14] == BalancedRecords;
    Balanced7Shape();
    BalancedLeaves(Balanced7);
  }
}
