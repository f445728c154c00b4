/** The binary tree that CLUTO's full hierarchical clustering tree is
    rebuilt into. Node `i` is the record at index `i` of a vector; a node
    knows its parent, its height and up to two children, each guarded by a
    flag saying whether it has been set. The number of records inserted is
    also the index of the root. Everything here is a value; the class in
    module ClusterParsing holds one and updates it in place. */
module ClusterTree {
  import opened Decimal

  /** One record. `left` and `right` mean something only while the
      matching flag is set; parent 0 means "not set", which is safe because
      node 0 is always a leaf. */
  datatype Node = Node(leftChild: bool, rightChild: bool, left: nat, right: nat, parent: nat, height: int)

  /** The record `insert` appends when it grows the vector. */
  const FreshNode := Node(false, false, 0, 0, 0, 0)

  /** The vector of records and the number of records inserted so far. */
  datatype Cluster = Cluster(nodes: seq<Node>, numNodes: nat)

  const Empty := Cluster([], 0)

  predicate Childless(x: Node) {
    !x.leftChild && !x.rightChild
  }

  // ---------------------------------------------------------------------
  // Queries

  /** `getParent` reads the record before it checks the index, so the
      child must be in the vector; beyond the root index it answers 0. */
  function GetParent(c: Cluster, child: nat): nat
    requires child < |c.nodes|
  {
    if child > c.numNodes then 0 else c.nodes[child].parent
  }

  /** `isChild`: false past the root index, otherwise whether a set child
      slot of `parent` holds `child`. */
  function IsChild(c: Cluster, child: nat, parent: nat): bool
    requires parent > c.numNodes || parent < |c.nodes|
  {
    parent <= c.numNodes
    && ((c.nodes[parent].leftChild && c.nodes[parent].left == child)
        || (c.nodes[parent].rightChild && c.nodes[parent].right == child))
  }

  function GetHeight(c: Cluster, node: nat): int
    requires node < |c.nodes|
  {
    c.nodes[node].height
  }

  function GetRoot(c: Cluster): nat {
    c.numNodes
  }

  /** The left child; asking for it before it is set is not allowed. */
  function GetLeftChild(c: Cluster, parent: nat): nat
    requires parent < |c.nodes| && c.nodes[parent].leftChild
  {
    c.nodes[parent].left
  }

  function GetRightChild(c: Cluster, parent: nat): nat
    requires parent < |c.nodes| && c.nodes[parent].rightChild
  {
    c.nodes[parent].right
  }

  // ---------------------------------------------------------------------
  // Updates

  /** `setLeftChild`: sets the flag and the index, then gives the parent
      the height of the child plus one. */
  function SetLeftChild(t: seq<Node>, child: nat, parent: nat): (r: seq<Node>)
    requires parent < |t| && child < |t|
    ensures |r| == |t|
  {
    var t1 := t[parent := t[parent].(leftChild := true, left := child)];
    t1[parent := t1[parent].(height := t1[child].height + 1)]
  }

  /** `setRightChild`: sets the index and the flag, and raises the height
      of the parent when the new child is at least as tall as it. */
  function SetRightChild(t: seq<Node>, child: nat, parent: nat): (r: seq<Node>)
    requires parent < |t| && child < |t|
    ensures |r| == |t|
  {
    var t1 := t[parent := t[parent].(right := child, rightChild := true)];
    if t1[parent].height - 1 < t1[child].height then t1[parent := t1[parent].(height := t1[child].height + 1)]
    else t1
  }

  /** `setChild`: the left slot first, then the right one; a third child
      changes nothing. */
  function SetChild(t: seq<Node>, child: nat, parent: nat): (r: seq<Node>)
    requires parent < |t| && child < |t|
    ensures |r| == |t|
  {
    if !t[parent].leftChild then SetLeftChild(t, child, parent)
    else if !t[parent].rightChild then SetRightChild(t, child, parent)
    else t
  }

  /** `setParent`: a parent already set to another node is kept. */
  function SetParent(c: Cluster, child: nat, parent: nat): (r: seq<Node>)
    requires child < |c.nodes|
    ensures |r| == |c.nodes|
  {
    var current := GetParent(c, child);
    if current != parent && current != 0 then c.nodes
    else c.nodes[child := c.nodes[child].(parent := parent)]
  }

  /** The vector after `insert` has made room for `parent`. */
  function Grow(t: seq<Node>, parent: nat): (r: seq<Node>)
    ensures |r| == if |t| <= parent then parent + 1 else |t|
  {
    if |t| <= parent then t + seq(parent + 1 - |t|, _ => FreshNode) else t
  }

  /** `insert(child, parent)`: counts the record, grows the vector, then
      sets the parent of the child and the child of the parent. The child
      must be in the vector once it has grown. */
  function Insert(c: Cluster, child: nat, parent: nat): Cluster
    requires child < |Grow(c.nodes, parent)|
  {
    var n := c.numNodes + 1;
    var t := SetParent(Cluster(Grow(c.nodes, parent), n), child, parent);
    Cluster(SetChild(t, child, parent), n)
  }

  /** Whether `insert(k, vals[k])` can be done for k = 0, 1, ... in turn. */
  predicate Admissible(c: Cluster, vals: seq<nat>)
    decreases |vals|, 0
  {
    vals == []
    || (Admissible(c, vals[..|vals| - 1])
        && |vals| - 1 < |Grow(Build(c, vals[..|vals| - 1]).nodes, vals[|vals| - 1])|)
  }

  /** The tree after `insert(k, vals[k])` for k = 0, 1, ... in turn: the
      records of a CLUTO tree file give node k its parent vals[k]. */
  function Build(c: Cluster, vals: seq<nat>): Cluster
    requires Admissible(c, vals)
    decreases |vals|, 1
  {
    if vals == [] then c
    else
      var init := vals[..|vals| - 1];
      Insert(Build(c, init), |init|, vals[|vals| - 1])
  }

  // ---------------------------------------------------------------------
  // Traversal

  /** Every set child has a smaller index than its parent, as in a CLUTO
      tree; this is what makes the recursive traversals terminate. */
  predicate Ordered(t: seq<Node>) {
    forall i :: 0 <= i < |t| ==> (t[i].leftChild ==> t[i].left < i) && (t[i].rightChild ==> t[i].right < i)
  }

  /** `traverseTree`: the childless nodes below `node`, left subtree first. */
  function Leaves(t: seq<Node>, node: nat): seq<nat>
    requires Ordered(t) && node < |t|
    decreases node
  {
    var x := t[node];
    if !x.leftChild && !x.rightChild then [node]
    else if x.leftChild && !x.rightChild then Leaves(t, x.left)
    else if x.leftChild && x.rightChild then Leaves(t, x.left) + Leaves(t, x.right)
    else Leaves(t, x.right)
  }

  /** `formatOutput`: the leaves of the whole tree, from the root. */
  function FormatOutput(c: Cluster): seq<nat>
    requires Ordered(c.nodes) && c.numNodes < |c.nodes|
  {
    Leaves(c.nodes, c.numNodes)
  }

  /** `printNode`: a leaf is its number, an inner node its subtrees and its
      own number in parentheses. */
  function PrintNode(t: seq<Node>, node: nat): string
    requires Ordered(t) && node < |t|
    decreases node
  {
    var x := t[node];
    if !x.leftChild && !x.rightChild then ToDecimal(node)
    else if x.leftChild && !x.rightChild then "(" + PrintNode(t, x.left) + ", " + ToDecimal(node) + ")"
    else if x.leftChild && x.rightChild then
      "(" + PrintNode(t, x.left) + ", " + ToDecimal(node) + ", " + PrintNode(t, x.right) + ")"
    else "( , " + ToDecimal(node) + ", " + PrintNode(t, x.right) + ")"
  }

  /** `printTree`: the tree from the root, then a newline. */
  function PrintTree(c: Cluster): string
    requires Ordered(c.nodes) && c.numNodes < |c.nodes|
  {
    PrintNode(c.nodes, c.numNodes) + "\n"
  }

  // ---------------------------------------------------------------------
  // What the updates do

  /** `setChild` fills the left slot first, then the right one, and leaves
      a node with two children as it is; no other record changes. */
  lemma SetChildFillsLeftFirst(t: seq<Node>, child: nat, parent: nat)
    requires parent < |t| && child < |t|
    ensures var r := SetChild(t, child, parent);
      && (forall i :: 0 <= i < |t| && i != parent ==> r[i] == t[i])
      && r[parent].parent == t[parent].parent
      && (!t[parent].leftChild ==>
            r[parent].leftChild && r[parent].left == child
            && r[parent].rightChild == t[parent].rightChild && r[parent].right == t[parent].right)
      && (t[parent].leftChild && !t[parent].rightChild ==>
            r[parent].rightChild && r[parent].right == child
            && r[parent].leftChild && r[parent].left == t[parent].left)
      && (t[parent].leftChild && t[parent].rightChild ==> r == t)
  {
  }

  /** With the left child set first, a parent ends one above its tallest
      child. */
  lemma HeightIsTallestChildPlusOne(t: seq<Node>, a: nat, b: nat, p: nat)
    requires p < |t| && a < |t| && b < |t| && a != p && b != p
    requires Childless(t[p])
    ensures SetChild(t, a, p)[p].height == t[a].height + 1
    ensures SetChild(SetChild(t, a, p), b, p)[p].height
      == (if t[a].height >= t[b].height then t[a].height else t[b].height) + 1
  {
    var t1 := SetChild(t, a, p);
    assert t1[b] == t[b];
  }

  /** `setParent` sets the parent when none is set (or the same one is),
      and otherwise changes nothing; no other record changes. */
  lemma SetParentOnlyOnce(c: Cluster, child: nat, parent: nat)
    requires child < |c.nodes|
    ensures var r := SetParent(c, child, parent);
      && (forall i :: 0 <= i < |c.nodes| && i != child ==> r[i] == c.nodes[i])
      && r[child] == c.nodes[child].(parent := r[child].parent)
      && (GetParent(c, child) == 0 || GetParent(c, child) == parent ==> r[child].parent == parent)
      && (GetParent(c, child) != 0 && GetParent(c, child) != parent ==> r == c.nodes)
  {
  }

  /** What one `insert` does: one more record, the vector grown with
      fresh records to hold the parent, the child linked to a parent with
      a free slot, the parent recorded unless another one is, and every
      other record as it was. */
  lemma InsertEffects(c: Cluster, child: nat, parent: nat)
    requires child < |Grow(c.nodes, parent)|
    ensures var r, g := Insert(c, child, parent), Grow(c.nodes, parent);
      && r.numNodes == c.numNodes + 1
      && |r.nodes| == (if |c.nodes| <= parent then parent + 1 else |c.nodes|)
      && (forall i :: 0 <= i < |c.nodes| && i != child && i != parent ==> r.nodes[i] == c.nodes[i])
      && (forall i :: |c.nodes| <= i < |r.nodes| && i != child && i != parent ==> r.nodes[i] == FreshNode)
      && (!(g[parent].leftChild && g[parent].rightChild) ==> (IsChild(r, child, parent) <==> parent <= r.numNodes))
      && (var before := GetParent(Cluster(g, r.numNodes), child);
          before == 0 || before == parent ==> GetParent(r, child) == if child <= r.numNodes then parent else 0)
      && (child != parent ==> r.nodes[child] == g[child].(parent := r.nodes[child].parent))
  {
    var n := c.numNodes + 1;
    var g := Grow(c.nodes, parent);
    var t := SetParent(Cluster(g, n), child, parent);
    SetParentOnlyOnce(Cluster(g, n), child, parent);
    SetChildFillsLeftFirst(t, child, parent);
    assert t[parent].leftChild == g[parent].leftChild && t[parent].rightChild == g[parent].rightChild;
    forall i | |c.nodes| <= i < |g| ensures g[i] == FreshNode {
    }
  }

  /** `insert` keeps every child below its parent when the child it adds is
      below its parent, as in a CLUTO tree. */
  lemma InsertKeepsOrdered(c: Cluster, child: nat, parent: nat)
    requires child < parent && Ordered(c.nodes)
    ensures child < |Grow(c.nodes, parent)|
    ensures Ordered(Insert(c, child, parent).nodes)
  {
    var n := c.numNodes + 1;
    var g := Grow(c.nodes, parent);
    assert Ordered(g) by {
      forall i | 0 <= i < |g| ensures (g[i].leftChild ==> g[i].left < i) && (g[i].rightChild ==> g[i].right < i) {
        if i >= |c.nodes| {
          assert g[i] == FreshNode;
        }
      }
    }
    var t := SetParent(Cluster(g, n), child, parent);
    SetParentOnlyOnce(Cluster(g, n), child, parent);
    SetChildFillsLeftFirst(t, child, parent);
  }

  /** Every childless node has height 0. */
  predicate LeavesAtZero(t: seq<Node>) {
    forall i :: 0 <= i < |t| && Childless(t[i]) ==> t[i].height == 0
  }

  /** `insert` keeps every leaf at height 0: the records it adds are fresh
      and the only record that gains a child is the parent's. */
  lemma InsertKeepsLeavesAtZero(c: Cluster, child: nat, parent: nat)
    requires child < |Grow(c.nodes, parent)| && LeavesAtZero(c.nodes)
    ensures LeavesAtZero(Insert(c, child, parent).nodes)
  {
    var n := c.numNodes + 1;
    var g := Grow(c.nodes, parent);
    assert LeavesAtZero(g) by {
      forall i | 0 <= i < |g| && Childless(g[i]) ensures g[i].height == 0 {
        if i >= |c.nodes| {
          assert g[i] == FreshNode;
        }
      }
    }
    var t := SetParent(Cluster(g, n), child, parent);
    SetParentOnlyOnce(Cluster(g, n), child, parent);
    SetChildFillsLeftFirst(t, child, parent);
  }

  function Max(a: int, b: int): int {
    if a >= b then a else b
  }

  /** The height rule for one node: its right slot is filled only after
      its left one, and a node with children is one above its tallest
      child. */
  predicate HeightRule(t: seq<Node>, i: nat)
    requires Ordered(t) && i < |t|
  {
    var x := t[i];
    && (x.rightChild ==> x.leftChild)
    && (x.leftChild && !x.rightChild ==> x.height == t[x.left].height + 1)
    && (x.leftChild && x.rightChild ==> x.height == Max(t[x.left].height, t[x.right].height) + 1)
  }

  /** Heights as the record layout documents them: leaves at 0, every
      other node one above its tallest child. */
  predicate Heights(t: seq<Node>) {
    Ordered(t) && LeavesAtZero(t) && forall i :: 0 <= i < |t| ==> HeightRule(t, i)
  }

  /** No node below index `n` has been made anyone's child yet. */
  predicate ChildrenBelow(t: seq<Node>, n: nat) {
    forall i :: 0 <= i < |t| ==> (t[i].leftChild ==> t[i].left < n) && (t[i].rightChild ==> t[i].right < n)
  }

  lemma GrowKeepsHeights(t: seq<Node>, parent: nat, n: nat)
    requires Heights(t) && ChildrenBelow(t, n)
    ensures Heights(Grow(t, parent)) && ChildrenBelow(Grow(t, parent), n)
  {
    var g := Grow(t, parent);
    forall i | |t| <= i < |g| ensures g[i] == FreshNode {
    }
    assert forall i :: 0 <= i < |t| ==> g[i] == t[i];
    forall i | 0 <= i < |g| ensures HeightRule(g, i) {
      if i < |t| {
        assert HeightRule(t, i);
      }
    }
  }

  lemma SetParentKeepsHeights(c: Cluster, child: nat, parent: nat, n: nat)
    requires child < |c.nodes| && Heights(c.nodes) && ChildrenBelow(c.nodes, n)
    ensures Heights(SetParent(c, child, parent)) && ChildrenBelow(SetParent(c, child, parent), n)
  {
    var t := SetParent(c, child, parent);
    SetParentOnlyOnce(c, child, parent);
    assert forall i :: 0 <= i < |t| ==> t[i].(parent := 0) == c.nodes[i].(parent := 0);
    forall i | 0 <= i < |t| ensures HeightRule(t, i) {
      assert HeightRule(c.nodes, i);
    }
  }

  /** Linking a child to a parent that nobody has as a child yet, when the
      child is below the parent, keeps the heights right. */
  lemma SetChildKeepsHeights(t: seq<Node>, child: nat, parent: nat)
    requires child < parent < |t| && Heights(t) && ChildrenBelow(t, child)
    ensures Heights(SetChild(t, child, parent)) && ChildrenBelow(SetChild(t, child, parent), child + 1)
  {
    var r := SetChild(t, child, parent);
    SetChildFillsLeftFirst(t, child, parent);
    assert HeightRule(t, parent);
    if r != t {
      var x := t[parent];
      assert r[child] == t[child];
      if !x.leftChild {
        assert r[parent].height == t[child].height + 1;
      } else {
        assert r[parent].height == Max(t[x.left].height, t[child].height) + 1;
      }
      assert HeightRule(r, parent);
      forall i | 0 <= i < |r| ensures HeightRule(r, i) {
        if i != parent {
          assert HeightRule(t, i);
        }
      }
    }
  }

  /** `insert(k, p)` with k below p keeps the heights right, as long as
      no node from k on is a child yet. */
  lemma InsertKeepsHeights(c: Cluster, child: nat, parent: nat)
    requires child < parent && Heights(c.nodes) && ChildrenBelow(c.nodes, child)
    ensures child < |Grow(c.nodes, parent)|
    ensures Heights(Insert(c, child, parent).nodes) && ChildrenBelow(Insert(c, child, parent).nodes, child + 1)
  {
    var n := c.numNodes + 1;
    var g := Grow(c.nodes, parent);
    GrowKeepsHeights(c.nodes, parent, child);
    SetParentKeepsHeights(Cluster(g, n), child, parent, child);
    SetChildKeepsHeights(SetParent(Cluster(g, n), child, parent), child, parent);
  }

  /** The tree a CLUTO tree file gives, where record k names a parent
      above k: it can be built, leaves are at height 0, and every other
      node is one above its tallest child. */
  lemma {:induction false} BuildHeights(vals: seq<nat>)
    requires forall k :: 0 <= k < |vals| ==> k < vals[k]
    ensures Admissible(Empty, vals)
    ensures Heights(Build(Empty, vals).nodes) && ChildrenBelow(Build(Empty, vals).nodes, |vals|)
    decreases |vals|
  {
    if vals != [] {
      var init := vals[..|vals| - 1];
      BuildHeights(init);
      InsertKeepsHeights(Build(Empty, init), |init|, vals[|vals| - 1]);
    }
  }

  // ---------------------------------------------------------------------
  // What the traversals produce

  /** `x` is `node` or lies in one of its set subtrees. */
  predicate Below(t: seq<Node>, x: nat, node: nat)
    requires Ordered(t) && node < |t|
    decreases node
  {
    x == node
    || (t[node].leftChild && Below(t, x, t[node].left))
    || (t[node].rightChild && Below(t, x, t[node].right))
  }

  lemma {:induction false} BelowIsSmaller(t: seq<Node>, x: nat, node: nat)
    requires Ordered(t) && node < |t| && Below(t, x, node)
    ensures x <= node
    decreases node
  {
    if x != node {
      if t[node].leftChild && Below(t, x, t[node].left) {
        BelowIsSmaller(t, x, t[node].left);
      } else {
        BelowIsSmaller(t, x, t[node].right);
      }
    }
  }

  /** `traverseTree` lists exactly the childless nodes of the subtree. */
  lemma {:induction false} LeavesAreChildlessNodesBelow(t: seq<Node>, node: nat, x: nat)
    requires Ordered(t) && node < |t|
    ensures x in Leaves(t, node) <==> x < |t| && Below(t, x, node) && Childless(t[x])
    decreases node
  {
    var n := t[node];
    if n.leftChild {
      LeavesAreChildlessNodesBelow(t, n.left, x);
    }
    if n.rightChild {
      LeavesAreChildlessNodesBelow(t, n.right, x);
    }
    if x < |t| && Below(t, x, node) && x != node {
      if n.leftChild && Below(t, x, n.left) {
        BelowIsSmaller(t, x, n.left);
      } else {
        BelowIsSmaller(t, x, n.right);
      }
    }
  }

  /** The number of occurrences of `ch` in `s`. */
  function Count(s: string, ch: char): nat {
    if s == [] then 0 else Count(s[..|s| - 1], ch) + (if s[|s| - 1] == ch then 1 else 0)
  }

  lemma {:induction false} CountConcat(a: string, b: string, ch: char)
    ensures Count(a + b, ch) == Count(a, ch) + Count(b, ch)
  {
    if b != [] {
      assert (a + b)[..|a + b| - 1] == a + b[..|b| - 1];
      CountConcat(a, b[..|b| - 1], ch);
    } else {
      assert a + b == a;
    }
  }

  lemma {:induction false} CountNotThere(s: string, ch: char)
    requires forall i :: 0 <= i < |s| ==> s[i] != ch
    ensures Count(s, ch) == 0
  {
    if s != [] {
      CountNotThere(s[..|s| - 1], ch);
    }
  }

  /** As many closing parentheses as opening ones. */
  predicate Balanced(s: string) {
    Count(s, '(') == Count(s, ')')
  }

  lemma BalancedConcat(a: string, b: string)
    requires Balanced(a) && Balanced(b)
    ensures Balanced(a + b)
  {
    CountConcat(a, b, '(');
    CountConcat(a, b, ')');
  }

  lemma BalancedWithout(s: string)
    requires forall i :: 0 <= i < |s| ==> s[i] != '(' && s[i] != ')'
    ensures Balanced(s)
  {
    CountNotThere(s, '(');
    CountNotThere(s, ')');
  }

  lemma BalancedParenthesised(s: string)
    requires Balanced(s)
    ensures Balanced("(" + s + ")")
  {
    CountConcat("(", s, '(');
    CountConcat("(", s, ')');
    CountConcat("(" + s, ")", '(');
    CountConcat("(" + s, ")", ')');
  }

  /** No parentheses in a number. */
  lemma NumberBalanced(n: nat)
    ensures Balanced(ToDecimal(n))
  {
    var d := ToDecimal(n);
    assert forall i :: 0 <= i < |d| ==> IsDigit(d[i]);
    BalancedWithout(d);
  }

  lemma LeftOnlyBalanced(l: string, d: string)
    requires Balanced(l) && Balanced(d)
    ensures Balanced("(" + l + ", " + d + ")")
  {
    BalancedWithout(", ");
    BalancedConcat(l, ", ");
    BalancedConcat(l + ", ", d);
    BalancedParenthesised(l + ", " + d);
    assert "(" + l + ", " + d + ")" == "(" + (l + ", " + d) + ")";
  }

  lemma BothBalanced(l: string, d: string, r: string)
    requires Balanced(l) && Balanced(d) && Balanced(r)
    ensures Balanced("(" + l + ", " + d + ", " + r + ")")
  {
    BalancedWithout(", ");
    BalancedConcat(l, ", ");
    BalancedConcat(l + ", ", d);
    BalancedConcat(l + ", " + d, ", ");
    BalancedConcat(l + ", " + d + ", ", r);
    BalancedParenthesised(l + ", " + d + ", " + r);
    assert "(" + l + ", " + d + ", " + r + ")" == "(" + (l + ", " + d + ", " + r) + ")";
  }

  lemma RightOnlyBalanced(d: string, r: string)
    requires Balanced(d) && Balanced(r)
    ensures Balanced("( , " + d + ", " + r + ")")
  {
    BalancedWithout(", ");
    BalancedWithout(" , ");
    BalancedConcat(" , ", d);
    BalancedConcat(" , " + d, ", ");
    BalancedConcat(" , " + d + ", ", r);
    BalancedParenthesised(" , " + d + ", " + r);
    assert "( , " + d + ", " + r + ")" == "(" + (" , " + d + ", " + r) + ")";
  }

  /** `printNode` writes as many closing parentheses as opening ones. */
  lemma {:induction false} PrintNodeBalanced(t: seq<Node>, node: nat)
    requires Ordered(t) && node < |t|
    ensures Balanced(PrintNode(t, node))
    decreases node
  {
    var x := t[node];
    NumberBalanced(node);
    if x.leftChild {
      PrintNodeBalanced(t, x.left);
    }
    if x.rightChild {
      PrintNodeBalanced(t, x.right);
    }
    if x.leftChild && !x.rightChild {
      LeftOnlyBalanced(PrintNode(t, x.left), ToDecimal(node));
    } else if x.leftChild && x.rightChild {
      BothBalanced(PrintNode(t, x.left), ToDecimal(node), PrintNode(t, x.right));
    } else if x.rightChild {
      RightOnlyBalanced(ToDecimal(node), PrintNode(t, x.right));
    }
  }

  /** The nodes of the subtree of `node` in the order `printNode` visits
      them: the left subtree, the node, then the right subtree. */
  function InOrder(t: seq<Node>, node: nat): seq<nat>
    requires Ordered(t) && node < |t|
    decreases node
  {
    var x := t[node];
    (if x.leftChild then InOrder(t, x.left) else []) + [node] + (if x.rightChild then InOrder(t, x.right) else [])
  }

  /** The childless nodes among `xs`, in their order. */
  function ChildlessAmong(t: seq<Node>, xs: seq<nat>): seq<nat> {
    if xs == [] then []
    else (if xs[0] < |t| && Childless(t[xs[0]]) then [xs[0]] else []) + ChildlessAmong(t, xs[1..])
  }

  lemma {:induction false} ChildlessAmongConcat(t: seq<Node>, a: seq<nat>, b: seq<nat>)
    ensures ChildlessAmong(t, a + b) == ChildlessAmong(t, a) + ChildlessAmong(t, b)
  {
    if a == [] {
      assert a + b == b;
    } else {
      assert (a + b)[1..] == a[1..] + b;
      ChildlessAmongConcat(t, a[1..], b);
    }
  }

  lemma LeftOnlyNumbers(l: string, d: string)
    ensures Numbers("(" + l + ", " + d + ")") == Numbers(l) + Numbers(d)
  {
    calc {
      Numbers("(" + l + ", " + d + ")");
      { NumbersApart("(" + l + ", " + d, ")", []); }
      Numbers("(" + l + ", " + d);
      { NumbersApart("(" + l, ", ", d); }
      Numbers("(" + l) + Numbers(d);
      { NumbersApart([], "(", l); assert [] + "(" + l == "(" + l; }
      Numbers(l) + Numbers(d);
    }
  }

  lemma BothNumbers(l: string, d: string, r: string)
    ensures Numbers("(" + l + ", " + d + ", " + r + ")") == Numbers(l) + Numbers(d) + Numbers(r)
  {
    calc {
      Numbers("(" + l + ", " + d + ", " + r + ")");
      { NumbersApart("(" + l + ", " + d + ", " + r, ")", []); }
      Numbers("(" + l + ", " + d + ", " + r);
      { NumbersApart("(" + l + ", " + d, ", ", r); }
      Numbers("(" + l + ", " + d) + Numbers(r);
      { NumbersApart("(" + l, ", ", d); }
      Numbers("(" + l) + Numbers(d) + Numbers(r);
      { NumbersApart([], "(", l); assert [] + "(" + l == "(" + l; }
      Numbers(l) + Numbers(d) + Numbers(r);
    }
  }

  lemma RightOnlyNumbers(d: string, r: string)
    ensures Numbers("( , " + d + ", " + r + ")") == Numbers(d) + Numbers(r)
  {
    calc {
      Numbers("( , " + d + ", " + r + ")");
      { NumbersApart("( , " + d + ", " + r, ")", []); }
      Numbers("( , " + d + ", " + r);
      { NumbersApart("( , " + d, ", ", r); }
      Numbers("( , " + d) + Numbers(r);
      { NumbersApart([], "( , ", d); assert [] + "( , " + d == "( , " + d; }
      Numbers(d) + Numbers(r);
    }
  }

  /** The childless nodes of the subtree listing, in order, are the
      leaves `traverseTree` lists. */
  lemma {:induction false} InOrderLeaves(t: seq<Node>, node: nat)
    requires Ordered(t) && node < |t|
    ensures ChildlessAmong(t, InOrder(t, node)) == Leaves(t, node)
    decreases node
  {
    var x := t[node];
    var ls := if x.leftChild then InOrder(t, x.left) else [];
    var rs := if x.rightChild then InOrder(t, x.right) else [];
    assert ChildlessAmong(t, [node]) == if Childless(x) then [node] else [] by {
      assert [node][1..] == [];
    }
    assert ChildlessAmong(t, [] ) == [];
    calc {
      ChildlessAmong(t, InOrder(t, node));
      ChildlessAmong(t, ls + [node] + rs);
      { ChildlessAmongConcat(t, ls, [node]); ChildlessAmongConcat(t, ls + [node], rs); }
      ChildlessAmong(t, ls) + ChildlessAmong(t, [node]) + ChildlessAmong(t, rs);
    }
    if x.leftChild {
      InOrderLeaves(t, x.left);
    }
    if x.rightChild {
      InOrderLeaves(t, x.right);
    }
  }

  /** Reading the numbers `printNode` writes, left to right, gives the
      nodes of the subtree in order: the left subtree, the node, then the
      right subtree. */
  lemma {:induction false} PrintNodeNumbers(t: seq<Node>, node: nat)
    requires Ordered(t) && node < |t|
    ensures Numbers(PrintNode(t, node)) == InOrder(t, node)
    decreases node
  {
    var x := t[node];
    NumbersOfDecimal(node);
    if x.leftChild {
      PrintNodeNumbers(t, x.left);
    }
    if x.rightChild {
      PrintNodeNumbers(t, x.right);
    }
    if x.leftChild && !x.rightChild {
      LeftOnlyNumbers(PrintNode(t, x.left), ToDecimal(node));
    } else if x.leftChild && x.rightChild {
      BothNumbers(PrintNode(t, x.left), ToDecimal(node), PrintNode(t, x.right));
    } else if x.rightChild {
      RightOnlyNumbers(ToDecimal(node), PrintNode(t, x.right));
    }
  }

  /** The numbers of the printed tree are the nodes in order, and the
      childless ones among them are what `formatOutput` returns. */
  lemma PrintTreeNumbers(c: Cluster)
    requires Ordered(c.nodes) && c.numNodes < |c.nodes|
    ensures Numbers(PrintTree(c)) == InOrder(c.nodes, c.numNodes)
    ensures ChildlessAmong(c.nodes, Numbers(PrintTree(c))) == FormatOutput(c)
  {
    PrintNodeNumbers(c.nodes, c.numNodes);
    InOrderLeaves(c.nodes, c.numNodes);
    NumbersApart(PrintNode(c.nodes, c.numNodes), "\n", []);
    assert PrintNode(c.nodes, c.numNodes) + "\n" + [] == PrintTree(c);
  }

  /** The subtree listing holds exactly the nodes below `node`. */
  lemma {:induction false} InOrderIsBelow(t: seq<Node>, node: nat, x: nat)
    requires Ordered(t) && node < |t|
    ensures x in InOrder(t, node) <==> Below(t, x, node)
    decreases node
  {
    if t[node].leftChild {
      InOrderIsBelow(t, t[node].left, x);
    }
    if t[node].rightChild {
      InOrderIsBelow(t, t[node].right, x);
    }
  }

  // ---------------------------------------------------------------------
  // Sticks: node i is the only child of node i + 1

  /** The parents of the records `insert(i, i + 1)` for i < n. */
  function StickRecords(n: nat): seq<nat> {
    seq(n, i => i + 1)
  }

  /** Record i of the stick with n records. */
  function StickNode(i: nat, n: nat): Node {
    Node(i > 0, false, if i > 0 then i - 1 else 0, 0, if i < n then i + 1 else 0, i)
  }

  function Stick(n: nat): seq<Node> {
    seq(n + 1, i requires 0 <= i => StickNode(i, n))
  }

  /** One more record on top of a stick gives the next stick. */
  lemma StickStep(m: nat)
    requires m >= 1
    ensures m < |Grow(Stick(m), m + 1)|
    ensures Insert(Cluster(Stick(m), m), m, m + 1) == Cluster(Stick(m + 1), m + 1)
  {
    var n := m + 1;
    var g := Grow(Stick(m), n);
    assert g == Stick(m) + [FreshNode];
    var t := SetParent(Cluster(g, n), m, n);
    assert t == g[m := StickNode(m, n)];
    var r := SetChild(t, m, n);
    assert r[n] == StickNode(n, n);
    assert forall i :: 0 <= i < m ==> r[i] == StickNode(i, m) == StickNode(i, n);
    assert r == Stick(n);
  }

  lemma StickOne()
    ensures Insert(Empty, 0, 1) == Cluster(Stick(1), 1)
  {
    assert Insert(Empty, 0, 1).nodes == [StickNode(0, 1), StickNode(1, 1)];
  }

  lemma {:induction false} StickShape(n: nat)
    requires n >= 1
    ensures Admissible(Empty, StickRecords(n))
    ensures Build(Empty, StickRecords(n)) == Cluster(Stick(n), n)
  {
    var init := StickRecords(n)[..n - 1];
    assert init == StickRecords(n - 1);
    if n == 1 {
      assert init == [];
      StickOne();
    } else {
      StickShape(n - 1);
      StickStep(n - 1);
    }
    assert Admissible(Empty, init);
    assert Build(Empty, init) == if n == 1 then Empty else Cluster(Stick(n - 1), n - 1);
  }

  lemma {:induction false} StickLeaves(t: seq<Node>, n: nat, i: nat)
    requires i <= n && t == Stick(n)
    ensures Ordered(t)
    ensures Leaves(t, i) == [0]
    decreases i
  {
    if i > 0 {
      StickLeaves(t, n, i - 1);
    }
  }

  /** The stick with n records: its root is n, each node i < n has parent
      i + 1 and is its child, node i has height i, and node 0 is the only
      leaf. */
  lemma StickFacts(n: nat)
    requires n >= 1
    ensures Admissible(Empty, StickRecords(n))
    ensures var s := Build(Empty, StickRecords(n));
      && GetRoot(s) == n && n < |s.nodes| && Ordered(s.nodes)
      && (forall i :: 0 <= i < n ==> GetParent(s, i) == i + 1)
      && (forall child, parent :: 0 <= child < n && parent == child + 1 ==> IsChild(s, child, parent))
      && (forall i :: 0 <= i <= n ==> GetHeight(s, i) == i)
      && FormatOutput(s) == [0]
  {
    StickShape(n);
    var s := Build(Empty, StickRecords(n));
    StickLeaves(s.nodes, n, n);
  }

  /** The records of the two-record stick, written out. */
  lemma SmallStickNodes()
    ensures Stick(2) == [Node(false, false, 0, 0, 1, 0), Node(true, false, 0, 0, 2, 1), Node(true, false, 1, 0, 0, 2)]
  {
  }

  lemma SmallStickText(t: seq<Node>)
    requires t == [Node(false, false, 0, 0, 1, 0), Node(true, false, 0, 0, 2, 1), Node(true, false, 1, 0, 0, 2)]
    ensures Ordered(t) && PrintNode(t, 2) == "((0, 1), 2)"
  {
    assert ToDecimal(0) == "0" && ToDecimal(1) == "1" && ToDecimal(2) == "2";
  }

  /** The two-record stick, printed. */
  lemma SmallStickPrinted()
    ensures Admissible(Empty, StickRecords(2))
    ensures var s := Build(Empty, StickRecords(2));
      Ordered(s.nodes) && s.numNodes < |s.nodes| && PrintTree(s) == "((0, 1), 2)\n"
  {
    StickShape(2);
    SmallStickNodes();
    SmallStickText(Stick(2));
  }

  /** The 500-record stick: root 500 and the single leaf 0. */
  lemma LargeStick()
    ensures Admissible(Empty, StickRecords(500))
    ensures var s := Build(Empty, StickRecords(500));
      GetRoot(s) == 500 && Ordered(s.nodes) && s.numNodes < |s.nodes| && FormatOutput(s) == [0]
      && (forall i :: 0 <= i < 499 ==> GetParent(s, i) == i + 1)
      && (forall child, parent :: 0 <= child < 499 && parent == child + 1 ==> IsChild(s, child, parent))
  {
    StickFacts(500);
  }

  // ---------------------------------------------------------------------
  // Trees built record by record

  /** Every prefix of an admissible list is admissible, and the next
      record of it fits into the tree built so far. */
  lemma {:induction false} AdmissiblePrefix(c: Cluster, vals: seq<nat>, k: nat)
    requires Admissible(c, vals) && k <= |vals|
    ensures Admissible(c, vals[..k])
    ensures k < |vals| ==> k < |Grow(Build(c, vals[..k]).nodes, vals[k])|
  {
    if k < |vals| {
      var init := vals[..|vals| - 1];
      assert init[..k] == vals[..k];
      if k < |init| {
        AdmissiblePrefix(c, init, k);
      } else {
        assert init == vals[..k];
      }
    } else {
      assert vals[..k] == vals;
    }
  }

  /** Building one more record of a list is one more `insert`. */
  lemma BuildStep(c: Cluster, vals: seq<nat>, k: nat, a: Cluster, x: nat)
    requires k < |vals| && vals[k] == x
    requires Admissible(c, vals[..k]) && Build(c, vals[..k]) == a
    requires k < |Grow(a.nodes, x)|
    ensures Admissible(c, vals[..k + 1])
    ensures Build(c, vals[..k + 1]) == Insert(a, k, x)
  {
    assert vals[..k + 1][..k] == vals[..k];
  }

  /** Two records at a time, for callers that already know the tree so far. */
  lemma BuildTwo(c: Cluster, vals: seq<nat>, k: nat, a: Cluster, x: nat, y: nat)
    requires k + 1 < |vals| && vals[k] == x && vals[k + 1] == y
    requires Admissible(c, vals[..k]) && Build(c, vals[..k]) == a
    requires k < |Grow(a.nodes, x)| && k + 1 < |Grow(Insert(a, k, x).nodes, y)|
    ensures Admissible(c, vals[..k + 2])
    ensures Build(c, vals[..k + 2]) == Insert(Insert(a, k, x), k + 1, y)
  {
    BuildStep(c, vals, k, a, x);
    BuildStep(c, vals, k + 1, Insert(a, k, x), y);
  }
}
