/** Decimal text as read by the trace, frequent-LBA and CLUTO readers.
    The readers hand every completed token to `stoi`; here a token is a
    non-empty string of ASCII digits and `Stoi` is its value. */
module Decimal {

  predicate IsDigit(c: char) {
    '0' <= c <= '9'
  }

  predicate AllDigits(s: string) {
    forall i :: 0 <= i < |s| ==> IsDigit(s[i])
  }

  /** What the readers demand of a token before converting it. */
  predicate IsDigits(s: string) {
    |s| > 0 && AllDigits(s)
  }

  function DigitValue(c: char): (d: nat)
    requires IsDigit(c)
    ensures d < 10
    ensures DigitChar(d) == c
  {
    (c as int - '0' as int) as nat
  }

  function DigitChar(d: nat): (c: char)
    requires d < 10
    ensures IsDigit(c)
  {
    ('0' as int + d) as char
  }

  function Pow10(k: nat): (p: nat)
    ensures p >= 1
  {
    if k == 0 then 1 else 10 * Pow10(k - 1)
  }

  /** The decimal value of a digit string, most significant digit first. */
  function Stoi(s: string): (n: nat)
    requires AllDigits(s)
    ensures n < Pow10(|s|)
  {
    if s == [] then 0 else Stoi(s[..|s| - 1]) * 10 + DigitValue(s[|s| - 1])
  }

  /** The shortest decimal spelling of n, as a stream writes a number. */
  function ToDecimal(n: nat): (s: string)
    ensures IsDigits(s)
    ensures |s| == 1 || s[0] != '0'
  {
    if n < 10 then [DigitChar(n)] else ToDecimal(n / 10) + [DigitChar(n % 10)]
  }

  /** Reading back the spelling of a number gives the number again. */
  lemma {:induction false} StoiToDecimal(n: nat)
    ensures Stoi(ToDecimal(n)) == n
  {
    if n >= 10 {
      var s := ToDecimal(n);
      assert s[..|s| - 1] == ToDecimal(n / 10);
      StoiToDecimal(n / 10);
      assert DigitValue(DigitChar(n % 10)) == n % 10;
    } else {
      assert DigitValue(DigitChar(n)) == n;
    }
  }

  // ---------------------------------------------------------------------
  // Numbers written in a text

  /** The length of the run of digits that `s` starts with. */
  function RunLength(s: string): (k: nat)
    ensures k <= |s|
    ensures forall i :: 0 <= i < k ==> IsDigit(s[i])
    ensures k == |s| || !IsDigit(s[k])
  {
    if s != [] && IsDigit(s[0]) then 1 + RunLength(s[1..]) else 0
  }

  /** The numbers written in `s`: its maximal runs of digits, read left to
      right, each converted as `stoi` converts it. */
  function Numbers(s: string): seq<nat>
    decreases |s|
  {
    if s == [] then []
    else if !IsDigit(s[0]) then Numbers(s[1..])
    else var k := RunLength(s); [Stoi(s[..k])] + Numbers(s[k..])
  }

  /** A run of digits continues into the next string only when it fills the first. */
  lemma {:induction false} RunLengthConcat(a: string, b: string)
    ensures RunLength(a + b) == if RunLength(a) < |a| then RunLength(a) else |a| + RunLength(b)
  {
    if a != [] {
      assert (a + b)[1..] == a[1..] + b;
      if IsDigit(a[0]) {
        RunLengthConcat(a[1..], b);
      }
    } else {
      assert a + b == b;
    }
  }

  /** Text without digits holds no number. */
  lemma {:induction false} NumbersWithoutDigits(s: string)
    requires forall i :: 0 <= i < |s| ==> !IsDigit(s[i])
    ensures Numbers(s) == []
  {
    if s != [] {
      NumbersWithoutDigits(s[1..]);
    }
  }

  /** Where the first run of digits of `a + b` ends, when the two texts
      do not meet in a run of digits. */
  lemma RunSplit(a: string, b: string)
    requires a != [] && IsDigit(a[0])
    requires b == [] || !IsDigit(a[|a| - 1]) || !IsDigit(b[0])
    ensures RunLength(a + b) == RunLength(a)
    ensures (a + b)[..RunLength(a)] == a[..RunLength(a)]
    ensures (a + b)[RunLength(a)..] == a[RunLength(a)..] + b
  {
    RunLengthConcat(a, b);
  }

  /** The numbers of two texts that do not meet in a run of digits are
      those of the first, then those of the second. */
  lemma {:induction false} NumbersConcat(a: string, b: string)
    requires a == [] || b == [] || !IsDigit(a[|a| - 1]) || !IsDigit(b[0])
    ensures Numbers(a + b) == Numbers(a) + Numbers(b)
    decreases |a|
  {
    if a == [] {
      assert a + b == b;
    } else if !IsDigit(a[0]) {
      calc {
        Numbers(a + b);
        { assert (a + b)[1..] == a[1..] + b; }
        Numbers(a[1..] + b);
        { NumbersConcat(a[1..], b); }
        Numbers(a[1..]) + Numbers(b);
      }
    } else {
      var k := RunLength(a);
      RunSplit(a, b);
      calc {
        Numbers(a + b);
        [Stoi(a[..k])] + Numbers(a[k..] + b);
        { NumbersConcat(a[k..], b); }
        [Stoi(a[..k])] + Numbers(a[k..]) + Numbers(b);
      }
    }
  }

  /** Punctuation between two texts separates their numbers. */
  lemma NumbersApart(a: string, p: string, b: string)
    requires p != [] && forall i :: 0 <= i < |p| ==> !IsDigit(p[i])
    ensures Numbers(a + p + b) == Numbers(a) + Numbers(b)
    ensures Numbers(p + b) == Numbers(b)
    ensures Numbers(a + p) == Numbers(a)
  {
    NumbersWithoutDigits(p);
    NumbersConcat(a, p);
    NumbersConcat(a + p, b);
    NumbersConcat(p, b);
  }

  /** The spelling of a number holds that one number. */
  lemma NumbersOfDecimal(n: nat)
    ensures Numbers(ToDecimal(n)) == [n]
  {
    var s := ToDecimal(n);
    RunLengthAll(s);
    assert s[..|s|] == s && s[|s|..] == [];
    StoiToDecimal(n);
  }

  lemma {:induction false} RunLengthAll(s: string)
    requires AllDigits(s)
    ensures RunLength(s) == |s|
  {
    if s != [] {
      RunLengthAll(s[1..]);
    }
  }

  /** Every token is a number the readers can convert. */
  predicate AllNumbers(tokens: seq<string>) {
    forall k :: 0 <= k < |tokens| ==> IsDigits(tokens[k])
  }

  /** The values of a list of tokens, converted one by one. */
  function Values(tokens: seq<string>): (r: seq<nat>)
    requires AllNumbers(tokens)
    ensures |r| == |tokens|
    ensures forall k :: 0 <= k < |tokens| ==> r[k] == Stoi(tokens[k])
  {
    seq(|tokens|, k requires 0 <= k < |tokens| && AllNumbers(tokens) => Stoi(tokens[k]))
  }

  lemma ValuesAppend(tokens: seq<string>, t: string)
    requires AllNumbers(tokens) && IsDigits(t)
    ensures AllNumbers(tokens + [t])
    ensures Values(tokens + [t]) == Values(tokens) + [Stoi(t)]
  {
  }

  /** The values of a prefix of the tokens are a prefix of the values. */
  lemma ValuesPrefix(p: seq<string>, q: seq<string>)
    requires p <= q && AllNumbers(q)
    ensures AllNumbers(p)
    ensures Values(p) == Values(q)[..|p|]
  {
  }
}
