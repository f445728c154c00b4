/** Organ-pipe order: the lines of a most-to-least frequent list laid out
    so that the most frequent line sits in the middle, the following ones
    alternating to its left and right, and the least frequent at the ends. */
module OrganPipe {

  /** The lines at positions 0, 2, 4, ... */
  function Evens<T>(s: seq<T>): (r: seq<T>)
    ensures |r| == (|s| + 1) / 2
  {
    if s == [] then []
    else
      var init := s[..|s| - 1];
      Evens(init) + (if |init| % 2 == 0 then [s[|init|]] else [])
  }

  /** The lines at positions 1, 3, 5, ... */
  function Odds<T>(s: seq<T>): (r: seq<T>)
    ensures |r| == |s| / 2
  {
    if s == [] then []
    else
      var init := s[..|s| - 1];
      Odds(init) + (if |init| % 2 == 1 then [s[|init|]] else [])
  }

  function Reverse<T>(s: seq<T>): (r: seq<T>)
    ensures |r| == |s|
  {
    if s == [] then [] else [s[|s| - 1]] + Reverse(s[..|s| - 1])
  }

  lemma {:induction false} EvensAt<T>(s: seq<T>)
    ensures forall k :: 0 <= k < |Evens(s)| ==> Evens(s)[k] == s[2 * k]
  {
    if s != [] {
      var init := s[..|s| - 1];
      EvensAt(init);
    }
  }

  lemma {:induction false} OddsAt<T>(s: seq<T>)
    ensures forall k :: 0 <= k < |Odds(s)| ==> Odds(s)[k] == s[2 * k + 1]
  {
    if s != [] {
      var init := s[..|s| - 1];
      OddsAt(init);
    }
  }

  lemma {:induction false} ReverseAt<T>(s: seq<T>)
    ensures forall k :: 0 <= k < |s| ==> Reverse(s)[k] == s[|s| - 1 - k]
  {
    if s != [] {
      ReverseAt(s[..|s| - 1]);
    }
  }

  /** The order the script prints: the even-numbered lines, last one first,
      then the odd-numbered lines in input order. */
  function PipeOrder<T>(lines: seq<T>): seq<T> {
    Reverse(Evens(lines)) + Odds(lines)
  }

  lemma EvensSnoc<T>(p: seq<T>, x: T)
    ensures Evens(p + [x]) == if |p| % 2 == 0 then Evens(p) + [x] else Evens(p)
  {
    assert (p + [x])[..|p|] == p;
  }

  lemma OddsSnoc<T>(p: seq<T>, x: T)
    ensures Odds(p + [x]) == if |p| % 2 == 1 then Odds(p) + [x] else Odds(p)
  {
    assert (p + [x])[..|p|] == p;
  }

  lemma ReverseSnoc<T>(e: seq<T>, x: T)
    ensures Reverse(e + [x]) == [x] + Reverse(e)
  {
    assert (e + [x])[..|e|] == e;
  }

  /** One more line goes to the front when it is at an even position and
      to the end otherwise. */
  lemma PipeOrderStep<T>(p: seq<T>, x: T)
    ensures |p| % 2 == 0 ==> PipeOrder(p + [x]) == [x] + PipeOrder(p)
    ensures |p| % 2 == 1 ==> PipeOrder(p + [x]) == PipeOrder(p) + [x]
  {
    EvensSnoc(p, x);
    OddsSnoc(p, x);
    if |p| % 2 == 0 {
      ReverseSnoc(Evens(p), x);
      calc {
        PipeOrder(p + [x]);
        Reverse(Evens(p) + [x]) + Odds(p);
        ([x] + Reverse(Evens(p))) + Odds(p);
        [x] + PipeOrder(p);
      }
    } else {
      calc {
        PipeOrder(p + [x]);
        Reverse(Evens(p)) + (Odds(p) + [x]);
        PipeOrder(p) + [x];
      }
    }
  }

  /** One pass of the script's loop keeps the result in pipe order for
      the lines read. */
  lemma ArrangeStep<T>(done: seq<T>, line: T, before: seq<T>, after: seq<T>, start: bool)
    requires before == PipeOrder(done)
    requires start == (|done| % 2 == 0)
    requires after == if start then [line] + before else before + [line]
    ensures after == PipeOrder(done + [line])
    ensures !start == ((|done| + 1) % 2 == 0)
  {
    PipeOrderStep(done, line);
  }

  /** The script's loop: a line read while `start` is set goes to the
      front of the result, any other line to its end, and `start` flips on
      every line. */
  method Arrange<T>(lines: seq<T>) returns (result: seq<T>)
    ensures result == PipeOrder(lines)
    ensures multiset(result) == multiset(lines)
  {
    result := [];
    var start := true;
    var i := 0;
    ghost var done: seq<T> := [];
    while i < |lines|
      invariant i <= |lines| && done == lines[..i]
      invariant start == (|done| % 2 == 0)
      invariant result == PipeOrder(done)
    {
      var line := lines[i];
      ghost var before := result;
      if start {
        result := [line] + result;
        start := false;
      } else {
        result := result + [line];
        start := true;
      }
      ArrangeStep(done, line, before, result, !start);
      done := done + [line];
      i := i + 1;
    }
    assert done == lines;
    PipeOrderIsPermutation(lines);
  }

  /** Adding one line adds it once to the arrangement, at whichever end. */
  lemma PipeOrderSnocCount<T>(p: seq<T>, x: T)
    ensures multiset(PipeOrder(p + [x])) == multiset(PipeOrder(p)) + multiset{x}
  {
    PipeOrderStep(p, x);
    var q := PipeOrder(p);
    if |p| % 2 == 0 {
      assert multiset([x] + q) == multiset{x} + multiset(q);
    } else {
      assert multiset(q + [x]) == multiset(q) + multiset{x};
    }
  }

  /** Nothing is lost or repeated: the arrangement is a permutation of the
      input. */
  lemma {:induction false} PipeOrderIsPermutation<T>(lines: seq<T>)
    ensures |PipeOrder(lines)| == |lines|
    ensures multiset(PipeOrder(lines)) == multiset(lines)
  {
    if lines != [] {
      var init, x := lines[..|lines| - 1], lines[|lines| - 1];
      assert init + [x] == lines;
      PipeOrderIsPermutation(init);
      PipeOrderSnocCount(init, x);
      assert multiset(lines) == multiset(init) + multiset{x};
    }
  }

  /** Where every line ends up: the front block holds the even-numbered
      lines in reverse order, so the first line closes it, and the tail
      holds the odd-numbered lines in order. */
  lemma PipeOrderPlaces<T>(lines: seq<T>)
    ensures var front := (|lines| + 1) / 2;
      && (forall k :: 0 <= k < front ==> PipeOrder(lines)[k] == lines[2 * (front - 1 - k)])
      && (forall k :: front <= k < |lines| ==> PipeOrder(lines)[k] == lines[2 * (k - front) + 1])
      && (|lines| > 0 ==> PipeOrder(lines)[front - 1] == lines[0])
  {
    EvensAt(lines);
    OddsAt(lines);
    ReverseAt(Evens(lines));
  }
}
