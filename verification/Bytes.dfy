/** Byte strings, and the NUL-terminated reading of them that every scanner here uses. */
module Bytes {
  type Byte = c: char | c as int < 256 witness 'a'
  type Text = seq<Byte>

  const NUL: Byte := '\0'

  /** The byte under a stream cursor; the terminator once the text is used up. */
  function Peek(s: Text, p: nat): Byte {
    if p < |s| then s[p] else NUL
  }

  predicate IsDigit(c: Byte) {
    '0' <= c <= '9'
  }

  function DigitValue(c: Byte): (d: nat)
    requires IsDigit(c)
    ensures d <= 9
  {
    c as int - '0' as int
  }

  predicate AllDigits(d: Text) {
    forall i :: 0 <= i < |d| ==> IsDigit(d[i])
  }

  /** The number a run of decimal digits writes. */
  function DecimalValue(d: Text): (n: nat)
    requires AllDigits(d)
  {
    if d == [] then 0 else 10 * DecimalValue(d[..|d| - 1]) + DigitValue(d[|d| - 1])
  }

  datatype Option<+T> = None | Some(value: T)

  /** Whether `word` stands in `s` at `p`. */
  predicate StandsAt(s: Text, p: nat, word: Text) {
    p + |word| <= |s| && s[p..p + |word|] == word
  }

  lemma {:induction false} StandsThen(s: Text, p: nat, q: nat, a: Text, b: Text)
    requires StandsAt(s, p, a + b) && q == p + |a|
    ensures StandsAt(s, p, a) && StandsAt(s, q, b)
  {
    assert s[p..q] == (a + b)[..|a|] == a;
    assert s[q..q + |b|] == (a + b)[|a|..] == b;
  }

  lemma {:induction false} StandsByte(s: Text, p: nat, word: Text, i: nat)
    requires StandsAt(s, p, word) && i < |word|
    ensures s[p + i] == word[i]
  {
    assert s[p + i] == s[p..p + |word|][i];
  }

  lemma {:induction false} StandsFirst(s: Text, p: nat, c: Byte, rest: Text)
    requires StandsAt(s, p, [c] + rest)
    ensures p < |s| && s[p] == c && StandsAt(s, p + 1, rest)
  {
    StandsThen(s, p, p + 1, [c], rest);
    StandsByte(s, p, [c] + rest, 0);
  }

  lemma {:induction false} Concat3<T>(a: seq<T>, b: seq<T>, c: seq<T>)
    ensures a + b + c == a + (b + c)
  {
  }

  lemma {:induction false} Concat4<T>(a: seq<T>, b: seq<T>, c: seq<T>, d: seq<T>)
    ensures a + b + c + d == a + (b + c + d)
  {
  }

  lemma {:induction false} Concat5<T>(a: seq<T>, b: seq<T>, c: seq<T>, d: seq<T>, e: seq<T>)
    ensures a + b + c + d + e == a + (b + c + d + e)
  {
  }
}
