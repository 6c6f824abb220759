/** Number literals as section 6 of RFC 8259 lets them be written, and the events the reader makes of them. */
module JsonNumerals {
  import opened Bytes
  import opened JsonLexer
  import opened JsonRoundTrip
  import opened JsonScale

  datatype Exponent = Exponent(letter: Byte, sign: Text, digits: Text)
  {
    function Text(): Text {
      [letter] + (sign + digits)
    }

    predicate Spelled() {
      && (letter == 'e' || letter == 'E') && (sign == [] || sign == ['+'] || sign == ['-']) && digits != [] && AllDigits(digits)
    }
  }

  datatype Numeral = Numeral(minus: bool, whole: Text, fraction: Option<Text>, exponent: Option<Exponent>)
  {
    function Sign(): Text {
      if minus then ['-'] else []
    }

    function FractionText(): Text {
      match fraction case None => [] case Some(d) => ['.'] + d
    }

    function ExponentText(): Text {
      match exponent case None => [] case Some(e) => e.Text()
    }

    function Text(): Text {
      Sign() + (whole + (FractionText() + ExponentText()))
    }

    predicate Spelled() {
      && whole != [] && AllDigits(whole) && (whole[0] == '0' ==> |whole| == 1)
      && (fraction.Some? ==> fraction.value != [] && AllDigits(fraction.value))
      && (exponent.Some? ==> exponent.value.Spelled())
    }

    /** A positive exponent may not exceed those of a double by more than the digits of the fraction that count. */
    predicate Fits() {
      && Spelled()
      && (exponent.Some? && exponent.value.sign != ['-'] ==> DecimalValue(exponent.value.digits) <= 308 + Scale())
    }

    /** How many digits of the fraction the significand takes. */
    function Scale(): nat
      requires Spelled()
    {
      match fraction
      case None => 0
      case Some(d) => ScaleOf(whole, d)
    }

    /** A byte that it does not go on with. */
    predicate EndsBefore(c: Byte)
      requires Spelled()
    {
      if exponent.Some? then !IsDigit(c)
      else c != 'e' && c != 'E' && (if fraction.Some? then !IsDigit(c) else c != '.' && (whole[0] == '0' || !IsDigit(c)))
    }

    /** Whether it is an integer that one of the integer types of its sign holds. */
    predicate IsInteger()
      requires Spelled()
    {
      && fraction.None? && exponent.None?
      && DecimalValue(whole) <= if minus then 0x8000_0000_0000_0000 else 0xFFFF_FFFF_FFFF_FFFF
    }

    /** What is announced: an integer in the narrowest type of its sign, or a double by its literal. */
    function Announced(): Event
      requires Spelled()
    {
      if !IsInteger() then Double(Text())
      else
        var v := DecimalValue(whole);
        if minus then (if v <= 0x8000_0000 then Int(0 - v) else Int64(0 - v))
        else if v <= 0xFFFF_FFFF then Uint(v) else Uint64(v)
    }
  }

  // ---------------------------------------------------------------- where its parts stand

  lemma {:induction false} PartsStand(s: Text, p: nat, n: Numeral)
    requires StandsAt(s, p, n.Text())
    ensures var q := p + |n.Sign()|; var m := q + |n.whole|; var x := m + |n.FractionText()|;
            && StandsAt(s, p, n.Sign()) && StandsAt(s, q, n.whole) && StandsAt(s, m, n.FractionText()) && StandsAt(s, x, n.ExponentText())
            && x + |n.ExponentText()| == p + |n.Text()| <= |s|
  {
    FourStand(s, p, n.Sign(), n.whole, n.FractionText(), n.ExponentText());
  }

  lemma {:induction false} FourStand(s: Text, p: nat, a: Text, b: Text, c: Text, d: Text)
    requires StandsAt(s, p, a + (b + (c + d)))
    ensures StandsAt(s, p, a) && StandsAt(s, p + |a|, b) && StandsAt(s, p + |a| + |b|, c) && StandsAt(s, p + |a| + |b| + |c|, d)
  {
    StandsThen(s, p, p + |a|, a, b + (c + d));
    StandsThen(s, p + |a|, p + |a| + |b|, b, c + d);
    StandsThen(s, p + |a| + |b|, p + |a| + |b| + |c|, c, d);
  }

  /** The byte behind the whole part of a numeral, and behind its fraction. */
  lemma {:induction false} PartsEnd(s: Text, n: Numeral, m: nat, x: nat)
    requires n.Spelled() && StandsAt(s, m, n.FractionText()) && StandsAt(s, x, n.ExponentText()) && x == m + |n.FractionText()|
    requires n.EndsBefore(Peek(s, x + |n.ExponentText()|))
    ensures (n.fraction.Some? ==> !IsDigit(Peek(s, x))) && (n.whole[0] != '0' ==> !IsDigit(Peek(s, m)))
    ensures n.fraction.Some? <==> Peek(s, m) == '.'
    ensures n.exponent.Some? <==> Peek(s, x) == 'e' || Peek(s, x) == 'E'
  {
    if n.exponent.Some? {
      StandsByte(s, x, n.ExponentText(), 0);
    }
    if n.fraction.Some? {
      StandsByte(s, m, n.FractionText(), 0);
    }
  }

  // ---------------------------------------------------------------- reading

  lemma {:induction false} ExponentParts(s: Text, x: nat, e: Exponent, d: nat, end: nat)
    requires e.Spelled() && StandsAt(s, x, e.Text()) && d == x + 1 + |e.sign| && end == x + |e.Text()|
    ensures StandsAt(s, d, e.digits) && end == d + |e.digits| <= |s|
    ensures if e.sign == [] then IsDigit(Peek(s, x + 1)) else Peek(s, x + 1) == e.sign[0]
  {
    StandsFirst(s, x, e.letter, e.sign + e.digits);
    StandsThen(s, x + 1, d, e.sign, e.digits);
    if e.sign != [] {
      StandsByte(s, x + 1, e.sign, 0);
    } else {
      StandsByte(s, d, e.digits, 0);
    }
  }

  lemma {:induction false} ExponentDigits(s: Text, d: nat, digits: Text, end: nat)
    requires StandsAt(s, d, digits) && digits != [] && AllDigits(digits) && end == d + |digits| <= |s| && !IsDigit(Peek(s, end))
    ensures IsDigit(Peek(s, d)) && DigitsEnd(s, d) == end && s[d..end] == digits
  {
    StandsByte(s, d, digits, 0);
    DigitsEndAt(s, d, digits);
  }

  /** The exponent. */
  lemma {:induction false} ExponentReads(s: Text, start: nat, x: nat, e: Exponent, scale: nat)
    requires e.Spelled() && StandsAt(s, x, e.Text()) && !IsDigit(Peek(s, x + |e.Text()|))
    ensures ScanExponent(s, start, x + 1, scale) ==
            if e.sign != ['-'] && DecimalValue(e.digits) > 308 + scale then Bad(NumberTooBig, start) else Found(x + |e.Text()|, ())
  {
    var d, end := x + 1 + |e.sign|, x + |e.Text()|;
    ExponentParts(s, x, e, d, end);
    ExponentDigits(s, d, e.digits, end);
  }

  /** The fraction: all of its digits are passed, however many of them count. */
  lemma {:induction false} FractionReads(s: Text, minus: bool, q: nat, m: nat, digits: Text)
    requires q < m && StandsAt(s, m, ['.'] + digits) && digits != [] && AllDigits(digits) && AllDigits(s[q..m])
    requires !IsDigit(Peek(s, m + 1 + |digits|))
    ensures m < |s| && s[m] == '.' && IsDigit(Peek(s, m + 1)) && ScanFraction(s, minus, q, m).pos == m + 1 + |digits|
  {
    StandsFirst(s, m, '.', digits);
    StandsByte(s, m + 1, digits, 0);
    var n := DecimalValue(s[q..m]);
    var g := Significand(m + 1, n, IntegerDigits(s, minus, q, m), 0);
    PassesAll(s, g, IntegerEvent(minus, n).None?, digits);
  }

  lemma {:induction false} PassesAll(s: Text, g: Significand, inDouble: bool, digits: Text)
    requires StandsAt(s, g.pos, digits) && AllDigits(digits) && !IsDigit(Peek(s, g.pos + |digits|))
    ensures FractionFrom(s, g, inDouble).pos == g.pos + |digits|
  {
    var exact := if inDouble then g else TakeExact(s, g);
    if !inDouble {
      StaysBefore(s, g.pos, exact.pos, g.pos + |digits|);
    }
    var r := TakeRounded(s, exact);
    PassedDigits(s, g.pos, r.pos, exact.pos, digits);
  }

  /** What is passed are digits, and so it ends before a byte that is none. */
  lemma {:induction false} StaysBefore(s: Text, p: nat, r: nat, end: nat)
    requires p <= r <= |s| && p <= end && (forall i :: p <= i < r ==> IsDigit(s[i])) && !IsDigit(Peek(s, end))
    ensures r <= end
  {
  }

  lemma {:induction false} PassedDigits(s: Text, p: nat, r: nat, from: nat, digits: Text)
    requires StandsAt(s, p, digits) && AllDigits(digits) && !IsDigit(Peek(s, p + |digits|)) && p <= from <= p + |digits|
    requires from <= r <= |s| && (forall i :: from <= i < r ==> IsDigit(s[i])) && !IsDigit(Peek(s, r))
    ensures r == p + |digits|
  {
    StaysBefore(s, from, r, p + |digits|);
    if r < p + |digits| {
      StandsByte(s, p, digits, r - p);
    }
  }

  /** What becomes of a number: it is announced, unless it is too big. */
  function Outcome(f: Settings, n: Numeral, p: nat, end: nat): Scan<Event>
    requires n.Spelled()
  {
    if n.Fits() && (!n.IsInteger() ==> !f.overflows(n.Text())) then Found(end, n.Announced()) else Bad(NumberTooBig, p)
  }

  /** A numeral in a text: its sign at `p`, its whole part from `q`, its fraction from `m`, its exponent from `x` to `end`. */
  ghost predicate Lies(s: Text, p: nat, n: Numeral, q: nat, m: nat, x: nat, end: nat) {
    && n.Spelled() && p <= q <= m <= x <= end <= |s| && s[q..m] == n.whole && q < m && s[p..end] == n.Text()
    && StandsAt(s, m, n.FractionText()) && x == m + |n.FractionText()| && StandsAt(s, x, n.ExponentText()) && end == x + |n.ExponentText()|
    && (n.fraction.Some? ==> !IsDigit(Peek(s, x))) && (n.exponent.Some? ==> !IsDigit(Peek(s, end))) && (n.fraction.Some? <==> Peek(s, m) == '.')
    && (n.exponent.Some? <==> Peek(s, x) == 'e' || Peek(s, x) == 'E')
  }

  /** What comes after the whole part: nothing, a fraction, an exponent, or both. */
  lemma {:induction false} RestReads(s: Text, f: Settings, p: nat, n: Numeral, q: nat, m: nat, x: nat, end: nat)
    requires Lies(s, p, n, q, m, x, end)
    ensures ScanNumberRest(s, f, p, n.minus, q, m) == Outcome(f, n, p, end)
  {
    match n.fraction {
      case None => WholeRestReads(s, f, p, n, q, m, x, end);
      case Some(d) => FractionRestReads(s, f, p, n, q, m, x, end, d);
    }
  }

  lemma {:induction false} WholeRestReads(s: Text, f: Settings, p: nat, n: Numeral, q: nat, m: nat, x: nat, end: nat)
    requires Lies(s, p, n, q, m, x, end) && n.fraction.None?
    ensures ScanNumberRest(s, f, p, n.minus, q, m) == Outcome(f, n, p, end)
  {
    var whole := IntegerEvent(n.minus, DecimalValue(n.whole));
    assert x == m && Peek(s, m) != '.';
    AfterFractionReads(s, f, p, n, q, m, x, end, 0, whole);
  }

  lemma {:induction false} FractionRestReads(s: Text, f: Settings, p: nat, n: Numeral, q: nat, m: nat, x: nat, end: nat, d: Text)
    requires Lies(s, p, n, q, m, x, end) && n.fraction == Some(d)
    ensures ScanNumberRest(s, f, p, n.minus, q, m) == Outcome(f, n, p, end)
  {
    FractionThen(s, f, p, n.minus, q, m, n.whole, d);
    AfterFractionReads(s, f, p, n, q, m, x, end, ScaleOf(n.whole, d), None);
  }

  /** A fraction, and what comes behind it. */
  lemma {:induction false} FractionThen(s: Text, f: Settings, p: nat, minus: bool, q: nat, m: nat, whole: Text, d: Text)
    requires p <= q < m <= |s| && s[q..m] == whole && AllDigits(whole) && (whole[0] == '0' ==> |whole| == 1)
    requires StandsAt(s, m, ['.'] + d) && d != [] && AllDigits(d) && !IsDigit(Peek(s, m + 1 + |d|))
    ensures m + 1 + |d| <= |s|
    ensures ScanNumberRest(s, f, p, minus, q, m) == ScanAfterFraction(s, f, p, m + 1 + |d|, ScaleOf(whole, d), None)
  {
    FractionReads(s, minus, q, m, d);
    ScaleIs(s, minus, q, m, whole, d);
  }

  lemma {:induction false} AfterFractionReads(
    s: Text, f: Settings, p: nat, n: Numeral, q: nat, m: nat, x: nat, end: nat, scale: nat, whole: Option<Event>)
    requires Lies(s, p, n, q, m, x, end)
    requires whole == (if n.fraction.Some? then None else IntegerEvent(n.minus, DecimalValue(n.whole))) && scale == n.Scale()
    ensures ScanAfterFraction(s, f, p, x, scale, whole) == Outcome(f, n, p, end)
  {
    match n.exponent {
      case Some(e) => ExponentEnds(s, f, p, n, x, end, scale, whole, e);
      case None =>
        WholeAnnounced(n);
        Finishes(s, f, p, n, end, whole);
    }
  }

  lemma {:induction false} ExponentEnds(
    s: Text, f: Settings, p: nat, n: Numeral, x: nat, end: nat, scale: nat, whole: Option<Event>, e: Exponent)
    requires n.Spelled() && n.exponent == Some(e) && p <= x && StandsAt(s, x, e.Text()) && end == x + |e.Text()|
    requires p <= end <= |s| && s[p..end] == n.Text() && !IsDigit(Peek(s, end)) && scale == n.Scale()
    ensures ScanAfterFraction(s, f, p, x, scale, whole) == Outcome(f, n, p, end)
  {
    ExponentEnters(s, f, p, x, end, scale, whole, e);
    if n.Fits() {
      Finishes(s, f, p, n, end, None);
    }
  }

  lemma {:induction false} ExponentEnters(s: Text, f: Settings, p: nat, x: nat, end: nat, scale: nat, whole: Option<Event>, e: Exponent)
    requires e.Spelled() && p <= x && StandsAt(s, x, e.Text()) && end == x + |e.Text()| && !IsDigit(Peek(s, end))
    ensures end <= |s|
    ensures ScanAfterFraction(s, f, p, x, scale, whole) ==
            if e.sign != ['-'] && DecimalValue(e.digits) > 308 + scale then Bad(NumberTooBig, p) else FinishNumber(s, f, p, end, None)
  {
    StandsFirst(s, x, e.letter, e.sign + e.digits);
    ExponentReads(s, p, x, e, scale);
  }

  lemma {:induction false} WholeAnnounced(n: Numeral)
    requires n.Spelled() && n.exponent.None?
    ensures var e := if n.fraction.Some? then None else IntegerEvent(n.minus, DecimalValue(n.whole));
            n.Fits() && e == if n.IsInteger() then Some(n.Announced()) else None
  {
  }

  lemma {:induction false} Finishes(s: Text, f: Settings, p: nat, n: Numeral, end: nat, whole: Option<Event>)
    requires n.Fits() && p <= end <= |s| && s[p..end] == n.Text()
    requires whole == (if n.IsInteger() then Some(n.Announced()) else None)
    ensures FinishNumber(s, f, p, end, whole) == Outcome(f, n, p, end)
  {
  }

  /** Where a number literal begins: its sign, and its first digit. */
  lemma {:induction false} NumeralStarts(s: Text, f: Settings, p: nat, n: Numeral, q: nat, m: nat)
    requires n.Spelled() && q == p + |n.Sign()| && m == q + |n.whole|
    requires StandsAt(s, p, n.Sign()) && StandsAt(s, q, n.whole) && (n.whole[0] != '0' ==> !IsDigit(Peek(s, m)))
    ensures AllDigits(s[q..m]) && ScanNumber(s, f, p) == ScanNumberRest(s, f, p, n.minus, q, m)
    ensures IsDigit(Peek(s, p)) || Peek(s, p) == '-'
  {
    StandsByte(s, q, n.whole, 0);
    if n.minus {
      StandsByte(s, p, ['-'], 0);
    }
    WholeEnds(s, q, n.whole);
    NumberStarts(s, f, p, n.minus, q, m);
  }

  lemma {:induction false} NumeralLies(s: Text, p: nat, n: Numeral, q: nat, m: nat, x: nat, end: nat)
    requires n.Spelled() && StandsAt(s, p, n.Text()) && n.EndsBefore(Peek(s, end)) && end == p + |n.Text()|
    requires q == p + |n.Sign()| && m == q + |n.whole| && x == m + |n.FractionText()|
    ensures StandsAt(s, p, n.Sign()) && StandsAt(s, q, n.whole) && (n.whole[0] != '0' ==> !IsDigit(Peek(s, m)))
    ensures Lies(s, p, n, q, m, x, end)
  {
    PartsStand(s, p, n);
    PartsEnd(s, n, m, x);
  }

  /** Every number literal is read as a whole, and announced as what it is unless it is too big. */
  lemma {:induction false} NumeralReads(s: Text, f: Settings, p: nat, n: Numeral)
    requires n.Spelled() && StandsAt(s, p, n.Text()) && n.EndsBefore(Peek(s, p + |n.Text()|))
    ensures ScanNumber(s, f, p) == Outcome(f, n, p, p + |n.Text()|)
    ensures IsDigit(Peek(s, p)) || Peek(s, p) == '-'
  {
    var q := p + |n.Sign()|;
    var m := q + |n.whole|;
    var x, end := m + |n.FractionText()|, p + |n.Text()|;
    NumeralLies(s, p, n, q, m, x, end);
    NumeralStarts(s, f, p, n, q, m);
    RestReads(s, f, p, n, q, m, x, end);
  }

  lemma {:induction false} WholeEnds(s: Text, q: nat, whole: Text)
    requires whole != [] && AllDigits(whole) && (whole[0] == '0' ==> |whole| == 1) && StandsAt(s, q, whole)
    requires whole[0] != '0' ==> !IsDigit(Peek(s, q + |whole|))
    ensures q < |s| && IsDigit(s[q]) && q + |whole| == if s[q] == '0' then q + 1 else DigitsEnd(s, q)
  {
    StandsByte(s, q, whole, 0);
    if whole[0] != '0' {
      DigitsEndAt(s, q, whole);
    }
  }
}
