/** Files with one decimal number per line, as the trace reader, the LBA
    reader and the frequent-pairs reader take them. */
module NumberLines {
  import opened Decimal
  import opened TextInput

  const Newline: set<char> := {'\n'}

  /** One character of a reader that converts every line to a number: a
      newline converts the line read so far and appends its value, any other
      character extends that line. */
  lemma ReadNumberStep(input: string, i: nat)
    requires i < |input|
    requires AllNumbers(Pieces(input, Newline)) && AllNumbers(Pieces(input[..i], Newline))
    ensures AllNumbers(Pieces(input[..i + 1], Newline))
    ensures input[i] == '\n' ==>
      && IsDigits(Pending(input[..i], Newline))
      && Pending(input[..i + 1], Newline) == []
      && Values(Pieces(input[..i + 1], Newline)) == Values(Pieces(input[..i], Newline)) + [Stoi(Pending(input[..i], Newline))]
    ensures input[i] != '\n' ==>
      && Pending(input[..i + 1], Newline) == Pending(input[..i], Newline) + [input[i]]
      && Values(Pieces(input[..i + 1], Newline)) == Values(Pieces(input[..i], Newline))
  {
    ReadStep(input, i, Newline);
    if input[i] == '\n' {
      HandedOver(input, i, Newline);
      ValuesAppend(Pieces(input[..i], Newline), Pending(input[..i], Newline));
    }
  }

  /** The file that writes every value on a line of its own, in decimal. */
  function Lines(values: seq<nat>): string {
    Join(seq(|values|, k requires 0 <= k < |values| => ToDecimal(values[k])), '\n')
  }

  /** Reading back a file of numbers, followed by any unterminated text,
      gives the numbers back in order: one per line, the tail ignored. */
  lemma ReadBackLines(values: seq<nat>, tail: string)
    requires Free(tail, Newline)
    ensures AllNumbers(Pieces(Lines(values) + tail, Newline))
    ensures Values(Pieces(Lines(values) + tail, Newline)) == values
  {
    var decimals := seq(|values|, k requires 0 <= k < |values| => ToDecimal(values[k]));
    forall k | 0 <= k < |decimals|
      ensures Free(decimals[k], Newline) && Stoi(decimals[k]) == values[k]
    {
      StoiToDecimal(values[k]);
    }
    PiecesOfJoin(decimals, '\n', Newline);
    TrailingTextDropped(Lines(values), tail, Newline);
  }
}
