/** Splitting a character stream into terminated pieces, the way every reader
    of the system does it: characters are collected into an accumulator, and
    a terminator character hands the accumulator over and clears it.
    Characters after the last terminator are never handed over. */
module TextInput {

  predicate Free(s: string, seps: set<char>) {
    forall i :: 0 <= i < |s| ==> s[i] !in seps
  }

  /** The accumulator after reading all of `s`: the text since the last terminator. */
  function Pending(s: string, seps: set<char>): (p: string)
    ensures Free(p, seps)
    ensures |p| <= |s|
  {
    if s == [] then []
    else if s[|s| - 1] in seps then []
    else Pending(s[..|s| - 1], seps) + [s[|s| - 1]]
  }

  /** The pieces handed over while reading `s`, in stream order. */
  function Pieces(s: string, seps: set<char>): (r: seq<string>)
    ensures forall k :: 0 <= k < |r| ==> Free(r[k], seps)
  {
    if s == [] then []
    else if s[|s| - 1] in seps then Pieces(s[..|s| - 1], seps) + [Pending(s[..|s| - 1], seps)]
    else Pieces(s[..|s| - 1], seps)
  }

  /** The stream that writes every piece followed by `sep`. */
  function Join(pieces: seq<string>, sep: char): (s: string)
    ensures |pieces| > 0 ==> |s| > 0 && s[|s| - 1] == sep
  {
    if pieces == [] then [] else Join(pieces[..|pieces| - 1], sep) + pieces[|pieces| - 1] + [sep]
  }

  /** Reading terminator-free text only grows the accumulator. */
  lemma {:induction false} AppendFree(s: string, t: string, seps: set<char>)
    requires Free(t, seps)
    ensures Pieces(s + t, seps) == Pieces(s, seps)
    ensures Pending(s + t, seps) == Pending(s, seps) + t
  {
    if t == [] {
      assert s + t == s;
    } else {
      var t' := t[..|t| - 1];
      var c := t[|t| - 1];
      assert t == t' + [c];
      var u := s + t;
      assert u[..|u| - 1] == s + t';
      assert u[|u| - 1] == c && c !in seps;
      assert Free(t', seps);
      AppendFree(s, t', seps);
      calc {
        Pending(u, seps);
        Pending(s + t', seps) + [c];
        Pending(s, seps) + (t' + [c]);
      }
    }
  }

  /** Text after the final terminator is dropped: it produces no piece. */
  lemma TrailingTextDropped(s: string, t: string, seps: set<char>)
    requires Free(t, seps)
    ensures Pieces(s + t, seps) == Pieces(s, seps)
  {
    AppendFree(s, t, seps);
  }

  /** Reading back a joined stream gives the pieces back, one per terminator. */
  lemma {:induction false} PiecesOfJoin(pieces: seq<string>, sep: char, seps: set<char>)
    requires sep in seps
    requires forall k :: 0 <= k < |pieces| ==> Free(pieces[k], seps)
    ensures Pieces(Join(pieces, sep), seps) == pieces
    ensures Pending(Join(pieces, sep), seps) == []
  {
    if pieces != [] {
      var init := pieces[..|pieces| - 1];
      var last := pieces[|pieces| - 1];
      var j := Join(init, sep);
      PiecesOfJoin(init, sep, seps);
      AppendFree(j, last, seps);
      var s := j + last + [sep];
      assert s[..|s| - 1] == j + last;
      assert Pending(j, seps) + last == last;
      assert init + [last] == pieces;
    }
  }

  /** One character of reading: a terminator hands the accumulator over
      and clears it, any other character is appended to it. */
  lemma ReadStep(s: string, i: nat, seps: set<char>)
    requires i < |s|
    ensures s[i] in seps ==> Pieces(s[..i + 1], seps) == Pieces(s[..i], seps) + [Pending(s[..i], seps)]
    ensures s[i] in seps ==> Pending(s[..i + 1], seps) == []
    ensures s[i] !in seps ==> Pieces(s[..i + 1], seps) == Pieces(s[..i], seps)
    ensures s[i] !in seps ==> Pending(s[..i + 1], seps) == Pending(s[..i], seps) + [s[i]]
  {
    assert s[..i + 1][..i] == s[..i];
  }

  /** The pieces handed over so far are a prefix of those of the whole stream. */
  lemma {:induction false} PiecesPrefix(s: string, i: nat, seps: set<char>)
    requires i <= |s|
    ensures Pieces(s[..i], seps) <= Pieces(s, seps)
  {
    if i < |s| {
      var init := s[..|s| - 1];
      assert init[..i] == s[..i];
      PiecesPrefix(init, i, seps);
    } else {
      assert s[..i] == s;
    }
  }

  /** The accumulator handed over at a terminator is the next piece of the whole stream. */
  lemma HandedOver(s: string, i: nat, seps: set<char>)
    requires i < |s| && s[i] in seps
    ensures |Pieces(s[..i], seps)| < |Pieces(s, seps)|
    ensures Pieces(s, seps)[|Pieces(s[..i], seps)|] == Pending(s[..i], seps)
  {
    ReadStep(s, i, seps);
    PiecesPrefix(s, i + 1, seps);
  }
}
