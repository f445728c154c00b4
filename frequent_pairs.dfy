/** The FrequentPairs object: the LBAs of a trace file, in file order. */
module FrequentPairing {
  import opened Decimal
  import opened TextInput
  import opened NumberLines

  /** After reading `prefix`, the object holds `start` followed by the
      value of every complete line, and `pending` is the unfinished one. */
  predicate ReadSoFar(sequence: seq<nat>, start: seq<nat>, prefix: string, pending: string) {
    && pending == Pending(prefix, Newline)
    && AllNumbers(Pieces(prefix, Newline))
    && sequence == start + Values(Pieces(prefix, Newline))
  }

  /** One character of the file: a newline hands the pending line over to
      be inserted, any other character extends it. */
  lemma ReadCharStep(input: string, i: nat, start: seq<nat>, sequence: seq<nat>, pending: string)
    requires i < |input| && AllNumbers(Pieces(input, Newline))
    requires ReadSoFar(sequence, start, input[..i], pending)
    ensures input[i] == '\n' ==>
      IsDigits(pending) && ReadSoFar(sequence + [Stoi(pending)], start, input[..i + 1], "")
    ensures input[i] != '\n' ==> ReadSoFar(sequence, start, input[..i + 1], pending + [input[i]])
  {
    ReadNumberStep(input, i);
  }

  class FrequentPairs {
    /** The LBAs read so far, in the order of the file. */
    var sequence: seq<nat>

    constructor()
      ensures sequence == []
    {
      sequence := [];
    }

    /** The current sequence, as a value (the source hands out a reference to it). */
    method GetSequence() returns (s: seq<nat>)
      ensures s == sequence
    {
      s := sequence;
    }

    /** Converts the decimal string and appends its value; earlier values
        stay as they are. */
    method Insert(lba: string)
      requires IsDigits(lba)
      modifies this
      ensures sequence == old(sequence) + [Stoi(lba)]
    {
      var addedLBA := Stoi(lba);
      sequence := sequence + [addedLBA];
    }

    /** Inserts every newline-terminated line of the file, in order; text
        after the last newline is never inserted. */
    method ReadIn(input: string)
      requires AllNumbers(Pieces(input, Newline))
      modifies this
      ensures sequence == old(sequence) + Values(Pieces(input, Newline))
    {
      ghost var start := sequence;
      var currentLBA := "";
      var i := 0;
      assert input[..0] == [];
      while i < |input|
        invariant i <= |input|
        invariant ReadSoFar(sequence, start, input[..i], currentLBA)
      {
        ReadCharStep(input, i, start, sequence, currentLBA);
        var c := input[i];
        if c == '\n' {
          Insert(currentLBA);
          currentLBA := "";
        } else {
          currentLBA := currentLBA + [c];
        }
        i := i + 1;
      }
      assert input[..i] == input;
    }
  }
}
