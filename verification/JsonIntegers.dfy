/** Integer literals of any length: exact in the narrowest type that holds them, and doubles only beyond all of them. */
module JsonIntegers {
  import opened Bytes
  import opened JsonLexer
  import opened JsonValue
  import opened JsonRoundTrip

  /** The value is beyond the 32-bit type of its sign. */
  predicate BeyondNarrow(minus: bool, v: int) {
    if minus then v < -0x8000_0000 else v > 0xFFFF_FFFF
  }

  /** An integer event in the narrower of the two types of its sign that holds the value. */
  predicate IsNarrowest(minus: bool, v: int, e: Event) {
    && NumberOf(e) == Some(v)
    && (if minus then (if BeyondNarrow(minus, v) then e.Int64? else e.Int?)
        else (if BeyondNarrow(minus, v) then e.Uint64? else e.Uint?))
  }

  /** The literal `d`, after a minus sign if there is one, without leading zeros and with nothing that would continue it. */
  predicate IsLiteral(s: Text, start: nat, minus: bool, q: nat, d: Text) {
    && start <= |s| && minus == (Peek(s, start) == '-') && q == (if minus then start + 1 else start)
    && q + |d| <= |s| && s[q..q + |d|] == d && d != [] && AllDigits(d) && (d[0] == '0' ==> |d| == 1)
    && Stops(Peek(s, q + |d|))
  }

  lemma {:induction false} LiteralScans(s: Text, f: Settings, start: nat, minus: bool, q: nat, d: Text)
    requires IsLiteral(s, start, minus, q, d)
    ensures ScanNumber(s, f, start) == FinishNumber(s, f, start, q + |d|, IntegerEvent(minus, DecimalValue(d)))
  {
    DigitsEndAt(s, q, d);
    StandsByte(s, q, d, 0);
    NumberStarts(s, f, start, minus, q, q + |d|);
  }

  /**
   * An integer literal arrives as an integer exactly when it lies in [-2^63, 2^64 - 1], with its exact value and in the
   * narrowest type of its sign; beyond that it is a double with the literal's text, or too big for one.
   */
  lemma {:induction false} IntegerLiteral(s: Text, f: Settings, start: nat, minus: bool, q: nat, d: Text)
    requires IsLiteral(s, start, minus, q, d)
    ensures var v: int := if minus then 0 - DecimalValue(d) else DecimalValue(d);
            var r, end := ScanNumber(s, f, start), q + |d|;
            if -0x8000_0000_0000_0000 <= v <= 0xFFFF_FFFF_FFFF_FFFF then r.Found? && r.end == end && IsNarrowest(minus, v, r.value)
            else r == if f.overflows(s[start..end]) then Bad(NumberTooBig, start) else Found(end, Double(s[start..end]))
  {
    LiteralScans(s, f, start, minus, q, d);
  }
}
