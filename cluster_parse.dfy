/** The ClusterParse object: the vector of tree records and the record
    count, updated in place by `insert` and its helpers, and the reader that
    turns a CLUTO tree file into inserts. What the updates do is stated by
    the functions of module ClusterTree, and what they mean is proved there. */
module ClusterParsing {
  import opened Decimal
  import opened TextInput
  import opened ClusterTree

  /** The characters that end a token of a CLUTO tree file. */
  const Blanks: set<char> := {' ', '\n'}

  // ---------------------------------------------------------------------
  // Which tokens `readIn` inserts

  /** Token p is taken as a parent: it is not the root marker "-1" and, in
      normal mode, it is the first field of a three-field record. */
  predicate IsParentToken(tokens: seq<string>, p: nat, test: bool)
    requires p < |tokens|
  {
    tokens[p] != "-1" && (test || p % 3 == 0)
  }

  /** The tokens `readIn` converts and inserts, in the order it reads them. */
  function Parents(tokens: seq<string>, test: bool): (r: seq<string>)
    ensures |r| <= |tokens|
  {
    if tokens == [] then []
    else
      var init := tokens[..|tokens| - 1];
      Parents(init, test) + (if IsParentToken(tokens, |init|, test) then [tokens[|init|]] else [])
  }

  /** The tokens other than the root marker, in order. */
  function NotRoot(tokens: seq<string>): (r: seq<string>)
    ensures forall k :: 0 <= k < |r| ==> r[k] != "-1"
  {
    if tokens == [] then []
    else
      var init := tokens[..|tokens| - 1];
      NotRoot(init) + (if tokens[|init|] != "-1" then [tokens[|init|]] else [])
  }

  /** The first field of every three-token record: tokens 0, 3, 6, ... */
  function FirstFields(tokens: seq<string>): (r: seq<string>)
    ensures |r| == (|tokens| + 2) / 3
    ensures forall k :: 0 <= k < |r| ==> r[k] == tokens[3 * k]
  {
    seq((|tokens| + 2) / 3, k requires 0 <= k < (|tokens| + 2) / 3 => tokens[3 * k])
  }

  lemma ParentsSnoc(tokens: seq<string>, t: string, test: bool)
    ensures Parents(tokens + [t], test)
         == Parents(tokens, test) + (if IsParentToken(tokens + [t], |tokens|, test) then [t] else [])
  {
    assert (tokens + [t])[..|tokens|] == tokens;
  }

  /** In test mode every token but "-1" is a parent. */
  lemma {:induction false} ParentsInTestMode(tokens: seq<string>)
    ensures Parents(tokens, true) == NotRoot(tokens)
  {
    if tokens != [] {
      ParentsInTestMode(tokens[..|tokens| - 1]);
    }
  }

  /** In normal mode only the first field of each record is a parent, and
      the root's record, whose first field is "-1", gives none. */
  lemma {:induction false} ParentsInNormalMode(tokens: seq<string>)
    ensures Parents(tokens, false) == NotRoot(FirstFields(tokens))
  {
    if tokens != [] {
      var init := tokens[..|tokens| - 1];
      var t := tokens[|init|];
      ParentsInNormalMode(init);
      assert tokens == init + [t];
      if |init| % 3 == 0 {
        assert FirstFields(tokens) == FirstFields(init) + [t];
        assert FirstFields(tokens)[..|FirstFields(tokens)| - 1] == FirstFields(init);
      } else {
        assert FirstFields(tokens) == FirstFields(init);
      }
    }
  }

  /** Parents of a prefix of the tokens are a prefix of the parents. */
  lemma {:induction false} ParentsMonotone(a: seq<string>, b: seq<string>, test: bool)
    requires a <= b
    ensures Parents(a, test) <= Parents(b, test)
  {
    if |a| < |b| {
      var init := b[..|b| - 1];
      assert a <= init;
      ParentsMonotone(a, init, test);
    } else {
      assert a == b;
    }
  }

  /** Inserting the next of a list of numbered parents extends the tree
      built from the ones before it by one record. */
  lemma InsertNext(start: Cluster, all: seq<string>, before: seq<string>, t: string)
    requires AllNumbers(all) && Admissible(start, Values(all))
    requires before + [t] <= all
    ensures IsDigits(t) && AllNumbers(before) && AllNumbers(before + [t])
    ensures Admissible(start, Values(before)) && Admissible(start, Values(before + [t]))
    ensures |before| < |Grow(Build(start, Values(before)).nodes, Stoi(t))|
    ensures Build(start, Values(before + [t])) == Insert(Build(start, Values(before)), |before|, Stoi(t))
  {
    var k := |before|;
    assert all[k] == t;
    ValuesPrefix(before, all);
    ValuesPrefix(before + [t], all);
    var vals := Values(all);
    AdmissiblePrefix(start, vals, k + 1);
    AdmissiblePrefix(start, vals, k);
    BuildStep(start, vals, k, Build(start, vals[..k]), Stoi(t));
  }

  /** The parents in a whole token list are numbers, and inserting them in
      turn into `start` is possible. */
  predicate Loadable(start: Cluster, tokens: seq<string>, test: bool) {
    AllNumbers(Parents(tokens, test)) && Admissible(start, Values(Parents(tokens, test)))
  }

  /** `c` is `start` after the parents among `tokens` have been inserted,
      `counter` of them. */
  predicate Loaded(c: Cluster, start: Cluster, tokens: seq<string>, test: bool, counter: nat) {
    Loadable(start, tokens, test)
    && c == Build(start, Values(Parents(tokens, test)))
    && counter == |Parents(tokens, test)|
  }

  /** Reading one more token that is a parent: it is a number, and
      inserting it as the parent of record `counter` gives the tree loaded
      from the longer token list. */
  lemma ParentRead(c: Cluster, start: Cluster, whole: seq<string>, tokens: seq<string>, t: string,
                   test: bool, counter: nat)
    requires Loadable(start, whole, test) && tokens + [t] <= whole
    requires IsParentToken(tokens + [t], |tokens|, test)
    requires Loaded(c, start, tokens, test, counter)
    ensures IsDigits(t) && counter < |Grow(c.nodes, Stoi(t))|
    ensures Loaded(Insert(c, counter, Stoi(t)), start, tokens + [t], test, counter + 1)
  {
    ParentsSnoc(tokens, t, test);
    ParentsMonotone(tokens + [t], whole, test);
    InsertNext(start, Parents(whole, test), Parents(tokens, test), t);
  }

  /** Reading one more token that is not a parent changes nothing. */
  lemma OtherRead(c: Cluster, start: Cluster, tokens: seq<string>, t: string, test: bool, counter: nat)
    requires !IsParentToken(tokens + [t], |tokens|, test)
    requires Loaded(c, start, tokens, test, counter)
    ensures Loaded(c, start, tokens + [t], test, counter)
  {
    ParentsSnoc(tokens, t, test);
    assert Parents(tokens + [t], test) == Parents(tokens, test) + [];
    assert Parents(tokens, test) + [] == Parents(tokens, test);
  }

  /** In normal mode `lineIndex` is, modulo 3, two more than the number
      of tokens read, so it is 2 exactly at the first field of a record;
      test mode keeps it at 2. */
  predicate Phase(lineIndex: int, n: nat, test: bool) {
    if test then lineIndex == 2 else lineIndex >= 0 && lineIndex % 3 == (2 + n) % 3
  }

  /** The test `readIn` makes at a separator picks out the parent tokens. */
  lemma PhaseTells(lineIndex: int, tokens: seq<string>, t: string, test: bool)
    requires Phase(lineIndex, |tokens|, test)
    ensures (t != "-1" && lineIndex % 3 == 2) <==> IsParentToken(tokens + [t], |tokens|, test)
  {
  }

  /** `lineIndex` after a separator: reset after an insert, one more otherwise. */
  lemma PhaseNext(lineIndex: int, n: nat, test: bool)
    requires Phase(lineIndex, n, test)
    ensures lineIndex % 3 == 2 ==> Phase(if test then lineIndex else 0, n + 1, test)
    ensures Phase(if test then lineIndex else lineIndex + 1, n + 1, test)
  {
  }

  // ---------------------------------------------------------------------
  // The object

  class ClusterParse {
    var clusterTree: seq<Node>
    var numNodes: nat

    function State(): Cluster
      reads this
    {
      Cluster(clusterTree, numNodes)
    }

    constructor()
      ensures State() == Empty
    {
      clusterTree := [];
      numNodes := 0;
    }

    method SetLeftChild(child: nat, parent: nat)
      requires parent < |clusterTree| && child < |clusterTree|
      modifies this
      ensures clusterTree == ClusterTree.SetLeftChild(old(clusterTree), child, parent)
      ensures numNodes == old(numNodes)
    {
      clusterTree := clusterTree[parent := clusterTree[parent].(leftChild := true)];
      clusterTree := clusterTree[parent := clusterTree[parent].(left := child)];
      clusterTree := clusterTree[parent := clusterTree[parent].(height := clusterTree[child].height + 1)];
    }

    method SetRightChild(child: nat, parent: nat)
      requires parent < |clusterTree| && child < |clusterTree|
      modifies this
      ensures clusterTree == ClusterTree.SetRightChild(old(clusterTree), child, parent)
      ensures numNodes == old(numNodes)
    {
      clusterTree := clusterTree[parent := clusterTree[parent].(right := child)];
      clusterTree := clusterTree[parent := clusterTree[parent].(rightChild := true)];
      if clusterTree[parent].height - 1 < clusterTree[child].height {
        clusterTree := clusterTree[parent := clusterTree[parent].(height := clusterTree[child].height + 1)];
      }
    }

    /** A parent that already has two children is left as it is. */
    method SetChild(child: nat, parent: nat)
      requires parent < |clusterTree| && child < |clusterTree|
      modifies this
      ensures clusterTree == ClusterTree.SetChild(old(clusterTree), child, parent)
      ensures numNodes == old(numNodes)
    {
      if !clusterTree[parent].leftChild {
        SetLeftChild(child, parent);
      } else if !clusterTree[parent].rightChild {
        SetRightChild(child, parent);
      }
    }

    /** A child whose parent is already set to another node keeps it. */
    method SetParent(child: nat, parent: nat)
      requires child < |clusterTree|
      modifies this
      ensures clusterTree == ClusterTree.SetParent(old(State()), child, parent)
      ensures numNodes == old(numNodes)
    {
      var current := GetParent(State(), child);
      if current == parent || current == 0 {
        clusterTree := clusterTree[child := clusterTree[child].(parent := parent)];
      }
    }

    /** Counts the record, appends fresh records until `parent` is in the
        vector, then links child and parent both ways. */
    method Insert(child: nat, parent: nat)
      requires child < |Grow(clusterTree, parent)|
      modifies this
      ensures State() == ClusterTree.Insert(old(State()), child, parent)
    {
      ghost var grown := Cluster(Grow(clusterTree, parent), numNodes + 1);
      numNodes := numNodes + 1;
      var vectorSize := |clusterTree|;
      if vectorSize <= parent {
        var i := 0;
        while i <= parent - vectorSize
          invariant i <= parent - vectorSize + 1
          invariant numNodes == old(numNodes) + 1
          invariant clusterTree == old(clusterTree) + seq(i, _ => FreshNode)
        {
          clusterTree := clusterTree + [FreshNode];
          i := i + 1;
        }
      }
      assert State() == grown;
      SetParent(child, parent);
      ghost var linked := Cluster(ClusterTree.SetParent(grown, child, parent), grown.numNodes);
      assert State() == linked;
      SetChild(child, parent);
      assert State() == Cluster(ClusterTree.SetChild(linked.nodes, child, parent), grown.numNodes);
    }

    /** `readIn`: tokens end at a space or a newline. A token that is a
        parent (see IsParentToken and Phase) is converted and inserted as
        the parent of record `counter`; `lineIndex` counts the fields of a
        record in normal mode. The file must spell every parent as a
        number, and every insert must find its child in the vector. */
    method ReadIn(input: string, test: bool)
      requires Loadable(State(), Pieces(input, Blanks), test)
      modifies this
      ensures State() == Build(old(State()), Values(Parents(Pieces(input, Blanks), test)))
    {
      ghost var start := State();
      ghost var whole := Pieces(input, Blanks);
      var parentIndex := "";
      var counter := 0;
      var lineIndex := 2;
      var i := 0;
      while i < |input|
        invariant i <= |input|
        invariant parentIndex == Pending(input[..i], Blanks)
        invariant Phase(lineIndex, |Pieces(input[..i], Blanks)|, test)
        invariant Loaded(State(), start, Pieces(input[..i], Blanks), test, counter)
      {
        ReadStep(input, i, Blanks);
        var c := input[i];
        if c == ' ' || c == '\n' {
          PiecesPrefix(input, i + 1, Blanks);
          ghost var seen := Pieces(input[..i], Blanks);
          PhaseTells(lineIndex, seen, parentIndex, test);
          PhaseNext(lineIndex, |seen|, test);
          if parentIndex != "-1" && lineIndex % 3 == 2 {
            ParentRead(State(), start, whole, seen, parentIndex, test, counter);
            var value := Stoi(parentIndex);
            Insert(counter, value);
            parentIndex := "";
            counter := counter + 1;
            if !test {
              lineIndex := 0;
            }
          } else {
            OtherRead(State(), start, seen, parentIndex, test, counter);
            if !test {
              lineIndex := lineIndex + 1;
            }
          }
          parentIndex := "";
        } else {
          parentIndex := parentIndex + [c];
        }
        i := i + 1;
      }
      assert input[..i] == input;
    }
  }
}
