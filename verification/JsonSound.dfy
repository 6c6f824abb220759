/** The converse of `JsonWritten`: whatever the reader takes for a value was written as RFC 8259 and the reader's flags allow. */
module JsonSound {
  import opened Bytes
  import opened JsonLexer
  import opened JsonGrammar
  import opened JsonRoundTrip
  import opened JsonGaps
  import opened JsonStrings
  import opened JsonScale
  import opened JsonNumerals
  import opened JsonWritten

  // ---------------------------------------------------------------- numbers

  lemma {:induction false} ExponentFound(s: Text, start: nat, x: nat, scale: nat, end: nat) returns (e: Exponent)
    requires x < |s| && (s[x] == 'e' || s[x] == 'E')
    requires ScanExponent(s, start, x + 1, scale).Found? && ScanExponent(s, start, x + 1, scale).end == end
    ensures e.Spelled() && StandsAt(s, x, e.Text()) && end == x + |e.Text()| && !IsDigit(Peek(s, end))
    ensures e.sign != ['-'] ==> DecimalValue(e.digits) <= 308 + scale
  {
    var signed := Peek(s, x + 1) == '-' || Peek(s, x + 1) == '+';
    var d := if signed then x + 2 else x + 1;
    e := Exponent(s[x], s[x + 1..d], s[d..end]);
    Cuts(s, x, d, end);
  }

  lemma {:induction false} Cuts(s: Text, x: nat, d: nat, end: nat)
    requires x < d <= end <= |s|
    ensures s[x..end] == [s[x]] + (s[x + 1..d] + s[d..end])
  {
  }

  lemma {:induction false} FractionFound(s: Text, minus: bool, q: nat, m: nat, x: nat) returns (d: Text)
    requires q < m < |s| && AllDigits(s[q..m]) && s[m] == '.' && IsDigit(Peek(s, m + 1)) && x == ScanFraction(s, minus, q, m).pos
    ensures d != [] && AllDigits(d) && StandsAt(s, m, ['.'] + d) && x == m + 1 + |d| && !IsDigit(Peek(s, x))
  {
    var n := DecimalValue(s[q..m]);
    var g := Significand(m + 1, n, IntegerDigits(s, minus, q, m), 0);
    FractionPasses(s, g, IntegerEvent(minus, n).None?);
    d := s[m + 1..x];
    assert s[m..x] == ['.'] + d;
  }

  lemma {:induction false} FractionPasses(s: Text, g: Significand, inDouble: bool)
    requires g.pos <= |s|
    ensures forall i :: g.pos <= i < FractionFrom(s, g, inDouble).pos ==> IsDigit(s[i])
  {
    var exact := if inDouble then g else TakeExact(s, g);
    var r := TakeRounded(s, exact);
  }

  /** An exponent from `x` to `end`, or none there; the number is not too big. */
  predicate ExponentOrEnd(s: Text, f: Settings, p: nat, e: Option<Exponent>, x: nat, scale: nat, whole: Option<Event>, end: nat)
    requires p <= x <= |s|
  {
    match e
    case None => end == x && Peek(s, x) != 'e' && Peek(s, x) != 'E' && (whole.None? ==> !f.overflows(s[p..end]))
    case Some(v) =>
      && v.Spelled() && StandsAt(s, x, v.Text()) && end == x + |v.Text()| && !IsDigit(Peek(s, end)) && !f.overflows(s[p..end])
      && (v.sign != ['-'] ==> DecimalValue(v.digits) <= 308 + scale)
  }

  /** The exponent that may follow the digits. */
  lemma {:induction false} AfterFractionFound(s: Text, f: Settings, p: nat, x: nat, scale: nat, whole: Option<Event>, end: nat)
    returns (e: Option<Exponent>)
    requires p <= x <= |s| && ScanAfterFraction(s, f, p, x, scale, whole).Found? && ScanAfterFraction(s, f, p, x, scale, whole).end == end
    ensures ExponentOrEnd(s, f, p, e, x, scale, whole, end)
  {
    if Peek(s, x) == 'e' || Peek(s, x) == 'E' {
      var v := ExponentFound(s, p, x, scale, end);
      e := Some(v);
    } else {
      e := None;
    }
  }

  /** A number that the text does not go on with behind `end`, and that is not too big. */
  predicate Complete(s: Text, f: Settings, n: Numeral, p: nat, end: nat)
    requires p <= end <= |s|
  {
    n.Fits() && n.EndsBefore(Peek(s, end)) && (!n.IsInteger() ==> !f.overflows(s[p..end]))
  }

  /** What follows the whole part. */
  lemma {:induction false} RestFound(s: Text, f: Settings, p: nat, minus: bool, q: nat, m: nat, whole: Text, end: nat)
    returns (n: Numeral, x: nat)
    requires p <= q < m <= |s| && s[q..m] == whole && AllDigits(whole) && (if whole[0] == '0' then |whole| == 1 else !IsDigit(Peek(s, m)))
    requires ScanNumberRest(s, f, p, minus, q, m).Found? && ScanNumberRest(s, f, p, minus, q, m).end == end
    ensures n.minus == minus && n.whole == whole && m <= x <= end <= |s| && Complete(s, f, n, p, end)
    ensures s[m..x] == n.FractionText() && s[x..end] == n.ExponentText()
  {
    if Peek(s, m) != '.' {
      x := m;
      var e := AfterFractionFound(s, f, p, m, 0, IntegerEvent(minus, DecimalValue(whole)), end);
      n := WholeComplete(s, f, p, minus, whole, e, m, end);
    } else {
      var scale;
      n, x, scale := FractionRestFound(s, minus, q, m, whole);
      var e := AfterFractionFound(s, f, p, x, scale, None, end);
      n := FractionComplete(s, f, p, n, e, x, end);
    }
  }

  lemma {:induction false} WholeComplete(s: Text, f: Settings, p: nat, minus: bool, whole: Text, e: Option<Exponent>, m: nat, end: nat)
    returns (n: Numeral)
    requires p <= m <= |s| && whole != [] && AllDigits(whole) && (if whole[0] == '0' then |whole| == 1 else !IsDigit(Peek(s, m)))
    requires Peek(s, m) != '.' && ExponentOrEnd(s, f, p, e, m, 0, IntegerEvent(minus, DecimalValue(whole)), end)
    ensures n == Numeral(minus, whole, None, e) && m <= end <= |s| && s[m..end] == n.ExponentText() && Complete(s, f, n, p, end)
  {
    n := Numeral(minus, whole, None, e);
  }

  /** The whole part and a fraction, as a number without an exponent. */
  lemma {:induction false} FractionRestFound(s: Text, minus: bool, q: nat, m: nat, whole: Text) returns (n: Numeral, x: nat, scale: nat)
    requires q < m < |s| && s[q..m] == whole && AllDigits(whole) && (whole[0] == '0' ==> |whole| == 1)
    requires s[m] == '.' && IsDigit(Peek(s, m + 1))
    ensures x == ScanFraction(s, minus, q, m).pos && scale == ScanFraction(s, minus, q, m).scale
    ensures n.minus == minus && n.whole == whole && n.fraction.Some? && n.exponent.None? && n.Spelled() && n.Scale() == scale
    ensures m <= x <= |s| && s[m..x] == n.FractionText() && !IsDigit(Peek(s, x))
  {
    x := ScanFraction(s, minus, q, m).pos;
    scale := ScanFraction(s, minus, q, m).scale;
    var d := FractionFound(s, minus, q, m, x);
    ScaleIs(s, minus, q, m, whole, d);
    n := Numeral(minus, whole, Some(d), None);
  }

  lemma {:induction false} FractionComplete(s: Text, f: Settings, p: nat, n: Numeral, e: Option<Exponent>, x: nat, end: nat)
    returns (r: Numeral)
    requires p <= x <= |s| && n.Spelled() && n.fraction.Some? && !IsDigit(Peek(s, x))
    requires ExponentOrEnd(s, f, p, e, x, n.Scale(), None, end)
    ensures r == n.(exponent := e) && x <= end <= |s| && s[x..end] == r.ExponentText() && Complete(s, f, r, p, end)
  {
    r := n.(exponent := e);
  }

  /** What was read as a number is one, and it was read to its end. */
  lemma {:induction false} NumberFound(s: Text, f: Settings, p: nat, end: nat) returns (n: Numeral)
    requires p <= |s| && ScanNumber(s, f, p).Found? && ScanNumber(s, f, p).end == end
    ensures p <= end <= |s| && s[p..end] == n.Text() && Complete(s, f, n, p, end)
  {
    var minus, q, m := WholeFound(s, f, p);
    var x;
    n, x := RestFound(s, f, p, minus, q, m, s[q..m], end);
    PartsJoin(s, p, n, q, m, x, end);
  }

  /** The sign and the whole part of what was read as a number. */
  lemma {:induction false} WholeFound(s: Text, f: Settings, p: nat) returns (minus: bool, q: nat, m: nat)
    requires p <= |s| && ScanNumber(s, f, p).Found?
    ensures p <= q < m <= |s| && s[p..q] == (if minus then ['-'] else []) && AllDigits(s[q..m])
    ensures if s[q] == '0' then m == q + 1 else !IsDigit(Peek(s, m))
    ensures ScanNumber(s, f, p) == ScanNumberRest(s, f, p, minus, q, m)
  {
    minus := Peek(s, p) == '-';
    q := if minus then p + 1 else p;
    m := if Peek(s, q) == '0' then q + 1 else DigitsEnd(s, q);
    NumberStarts(s, f, p, minus, q, m);
  }

  lemma {:induction false} PartsJoin(s: Text, p: nat, n: Numeral, q: nat, m: nat, x: nat, end: nat)
    requires p <= q <= m <= x <= end <= |s| && s[p..q] == n.Sign() && s[q..m] == n.whole
    requires s[m..x] == n.FractionText() && s[x..end] == n.ExponentText()
    ensures s[p..end] == n.Text()
  {
    assert s[m..end] == s[m..x] + s[x..end];
    assert s[q..end] == s[q..m] + s[m..end];
    assert s[p..end] == s[p..q] + s[q..end];
  }

  // ---------------------------------------------------------------- strings

  /** What stands in a text from `p` to `end`. */
  predicate Spans(s: Text, p: nat, w: Text, end: nat) {
    StandsAt(s, p, w) && end == p + |w|
  }

  lemma {:induction false} SpansJoined(s: Text, p: nat, a: Text, q: nat, b: Text, end: nat)
    requires Spans(s, p, a, q) && Spans(s, q, b, end)
    ensures Spans(s, p, a + b, end)
  {
    StandsJoined(s, p, q, a, b);
  }

  lemma {:induction false} ByteSpans(s: Text, p: nat, c: Byte)
    requires Peek(s, p) == c && c != NUL
    ensures Spans(s, p, [c], p + 1)
  {
    assert s[p..p + 1] == [c];
  }

  /** Four digits are a spelling of their number. */
  lemma {:induction false} HexFound(s: Text, p: nat, v: nat) returns (h: Text)
    requires Hex4(s, p) == Some(v)
    ensures Spells(h, v) && Spans(s, p, h, p + 4)
  {
    h := [s[p], s[p + 1], s[p + 2], s[p + 3]];
    assert s[p..p + 4] == h;
    var a, b, c, d := HexValue(s[p]), HexValue(s[p + 1]), HexValue(s[p + 2]), HexValue(s[p + 3]);
    HexUnfolds(s, p);
    OnlyDigits(s[p]);
    OnlyDigits(s[p + 1]);
    OnlyDigits(s[p + 2]);
    OnlyDigits(s[p + 3]);
    HexSpells(h, a.value, b.value, c.value, d.value, v);
  }

  lemma {:induction false} HexSpells(h: Text, a: nat, b: nat, c: nat, d: nat, v: nat)
    requires |h| == 4 && IsDigitOf(h[0], a) && IsDigitOf(h[1], b) && IsDigitOf(h[2], c) && IsDigitOf(h[3], d)
    requires v == ((a * 16 + b) * 16 + c) * 16 + d
    ensures Spells(h, v)
  {
    DigitsPart(a, b, c, d);
  }

  lemma {:induction false} HexUnfolds(s: Text, p: nat)
    requires Hex4(s, p).Some?
    ensures var a, b, c, d := HexValue(Peek(s, p)), HexValue(Peek(s, p + 1)), HexValue(Peek(s, p + 2)), HexValue(Peek(s, p + 3));
            a.Some? && b.Some? && c.Some? && d.Some? && Hex4(s, p).value == ((a.value * 16 + b.value) * 16 + c.value) * 16 + d.value
  {
    assert HexPrefix(s, p, 3).Some? && HexPrefix(s, p, 2).Some? && HexPrefix(s, p, 1).Some? && HexPrefix(s, p, 0) == Some(0);
  }

  lemma {:induction false} DigitsPart(a: nat, b: nat, c: nat, d: nat)
    requires a < 16 && b < 16 && c < 16 && d < 16
    ensures var v := ((a * 16 + b) * 16 + c) * 16 + d;
            v < 0x1_0000 && v / 4096 == a && v / 256 % 16 == b && v / 16 % 16 == c && v % 16 == d
  {
    var v := ((a * 16 + b) * 16 + c) * 16 + d;
    assert v / 16 == (a * 16 + b) * 16 + c;
    assert v / 256 == a * 16 + b;
  }

  /** A backslash and a letter, and what digits follow. */
  lemma {:induction false} LetterSpans(s: Text, p: nat, e: Byte)
    requires Peek(s, p) == '\\' && Peek(s, p + 1) == e && e != NUL
    ensures Spans(s, p, ['\\', e], p + 2)
  {
    assert s[p..p + 2] == ['\\', e];
  }

  lemma {:induction false} EscapeFound(s: Text, p: nat, end: nat) returns (c: Char)
    requires p < |s| && s[p] == '\\' && ScanEscape(s, p).Found? && ScanEscape(s, p).end == end
    ensures c.Fits() && Spans(s, p, c.Text(), end)
  {
    var e := Peek(s, p + 1);
    ShortReads(e);
    if Unescape(e) != NUL {
      c := Short(e);
      LetterSpans(s, p, e);
    } else {
      c := UnicodeFound(s, p, end);
    }
  }

  lemma {:induction false} UnicodeFound(s: Text, p: nat, end: nat) returns (c: Char)
    requires p < |s| && s[p] == '\\' && Peek(s, p + 1) == 'u' && ScanEscape(s, p).Found? && ScanEscape(s, p).end == end
    ensures c.Fits() && Spans(s, p, c.Text(), end)
  {
    var hi := Hex4(s, p + 2).value;
    var lead := HexFound(s, p + 2, hi);
    LetterSpans(s, p, 'u');
    SpansJoined(s, p, ['\\', 'u'], p + 2, lead, p + 6);
    if !(0xD800 <= hi <= 0xDBFF) {
      c := Unicode(lead, hi);
    } else {
      var lo := Hex4(s, p + 8).value;
      var trail := HexFound(s, p + 8, lo);
      LetterSpans(s, p + 6, 'u');
      SpansJoined(s, p + 6, ['\\', 'u'], p + 8, trail, p + 12);
      SpansJoined(s, p, ['\\', 'u'] + lead, p + 6, ['\\', 'u'] + trail, p + 12);
      c := PairFound(lead, hi, trail, lo);
    }
  }

  lemma {:induction false} PairFound(lead: Text, hi: nat, trail: Text, lo: nat) returns (c: Char)
    requires Spells(lead, hi) && Spells(trail, lo) && 0xD800 <= hi <= 0xDBFF && 0xDC00 <= lo <= 0xDFFF
    ensures c.Fits() && c.Pair? && c.lead == lead && c.trail == trail
  {
    var cp := (hi - 0xD800) * 0x400 + (lo - 0xDC00) + 0x1_0000;
    assert (cp - 0x1_0000) / 0x400 == hi - 0xD800 && (cp - 0x1_0000) % 0x400 == lo - 0xDC00;
    c := Pair(lead, trail, cp);
  }

  /** What was read as the rest of a string is a run of characters and a closing quote. */
  lemma {:induction false} CharsFound(s: Text, p: nat, acc: Text, end: nat) returns (cs: seq<Char>, q: nat)
    requires p <= |s| && ScanString(s, p, acc).Found? && ScanString(s, p, acc).end == end
    ensures AllFit(cs) && Spans(s, p, CharsText(cs), q) && Peek(s, q) == '"' && end == q + 1
    decreases |s| - p
  {
    if Peek(s, p) == '"' {
      cs, q := [], p;
      StandsEmpty(s, p);
    } else {
      var c, m, more := CharFound(s, p, acc, end);
      cs, q := CharsFound(s, m, more, end);
      cs := CharsGrow(s, p, c, m, cs, q);
    }
  }

  lemma {:induction false} CharFound(s: Text, p: nat, acc: Text, end: nat) returns (c: Char, m: nat, more: Text)
    requires p < |s| && ScanString(s, p, acc).Found? && ScanString(s, p, acc).end == end && s[p] != '"'
    ensures c.Fits() && Spans(s, p, c.Text(), m) && p < m <= |s|
    ensures ScanString(s, m, more).Found? && ScanString(s, m, more).end == end
  {
    if s[p] == '\\' {
      m, more := ScanEscape(s, p).end, acc + ScanEscape(s, p).value;
      c := EscapeFound(s, p, m);
    } else {
      c, m, more := Raw(s[p]), p + 1, acc + [s[p]];
      ByteSpans(s, p, s[p]);
    }
  }

  lemma {:induction false} CharsGrow(s: Text, p: nat, c: Char, m: nat, cs: seq<Char>, q: nat) returns (r: seq<Char>)
    requires c.Fits() && AllFit(cs) && Spans(s, p, c.Text(), m) && Spans(s, m, CharsText(cs), q)
    ensures r == [c] + cs && AllFit(r) && Spans(s, p, CharsText(r), q)
  {
    r := [c] + cs;
    assert r[1..] == cs;
    SpansJoined(s, p, c.Text(), m, CharsText(cs), q);
  }

  lemma {:induction false} QuotedFound(s: Text, p: nat, end: nat) returns (cs: seq<Char>)
    requires Peek(s, p) == '"' && ScanString(s, p + 1, []).Found? && ScanString(s, p + 1, []).end == end
    ensures AllFit(cs) && Spans(s, p, QuotedText(cs), end)
  {
    var q;
    cs, q := CharsFound(s, p + 1, [], end);
    ByteSpans(s, p, '"');
    ByteSpans(s, q, '"');
    SpansJoined(s, p + 1, CharsText(cs), q, ['"'], end);
    SpansJoined(s, p, ['"'], p + 1, CharsText(cs) + ['"'], end);
  }

  // ---------------------------------------------------------------- scalars and space

  lemma {:induction false} WordFound(s: Text, word: Text, e: Event, g: Progress)
    requires g.At(s) && 1 <= |word| <= 5 && (forall i :: 0 <= i < |word| ==> word[i] != NUL) && Peek(s, g.pos) == word[0]
    requires Word(s, word, e, g).Going?
    ensures Spans(s, g.pos, word, Word(s, word, e, g).pos)
  {
    assert Agree(s, g.pos, word, 1) == |word|;
    assert Peek(s, g.pos + (|word| - 1)) == word[|word| - 1];
    assert forall i :: 0 <= i < |word| ==> Peek(s, g.pos + i) == word[i];
    assert s[g.pos..g.pos + |word|] == word;
  }

  /** The space before a byte that is no terminator is filled with closed comments. */
  lemma {:induction false} SpaceFound(s: Text, f: Settings, g: Progress) returns (gap: Gap)
    requires g.At(s) && Space(s, f, g).Going? && Peek(s, Space(s, f, g).pos) != NUL
    ensures GapFits(f.comments, gap) && Spans(s, g.pos, GapText(gap), Space(s, f, g).pos)
  {
    var q, last;
    gap, q, last := SkippedIsGap(s, f, g.pos, Space(s, f, g).pos);
  }

  /** No value begins at the terminator. */
  lemma {:induction false} ValueBegins(s: Text, f: Settings, g: Progress)
    requires g.At(s) && Value(s, f, g).Going?
    ensures Peek(s, g.pos) != NUL
  {
  }

  // ---------------------------------------------------------------- values

  /** A written value from `p` to `end`, which the text does not go on with. */
  ghost predicate DocSpans(s: Text, f: Settings, p: nat, d: Doc, end: nat) {
    DocFits(f, d) && Spans(s, p, DocText(d), end) && EndsBefore(f, d, Peek(s, end))
  }

  /** What was read as a value was written as one. */
  lemma {:induction false} ValueFound(s: Text, f: Settings, g: Progress, end: nat) returns (d: Doc)
    requires g.At(s) && Value(s, f, g).Going? && Value(s, f, g).pos == end
    ensures DocSpans(s, f, g.pos, d, end)
    decreases |s| - g.pos, 3
  {
    match Peek(s, g.pos)
    case '{' => d := ObjectFound(s, f, g, end);
    case '[' => d := ArrayFound(s, f, g, end);
    case '"' => d := StringFound(s, f, g, end);
    case _ => d := PlainFound(s, f, g, end);
  }

  lemma {:induction false} StringFound(s: Text, f: Settings, g: Progress, end: nat) returns (d: Doc)
    requires g.At(s) && Peek(s, g.pos) == '"' && Str(s, false, g).Going? && Str(s, false, g).pos == end
    ensures DocSpans(s, f, g.pos, d, end)
  {
    var cs := QuotedFound(s, g.pos, end);
    d := Doc.String(cs);
  }

  /** A word or a number. */
  lemma {:induction false} PlainFound(s: Text, f: Settings, g: Progress, end: nat) returns (d: Doc)
    requires g.At(s) && Value(s, f, g).Going? && Value(s, f, g).pos == end
    requires Peek(s, g.pos) != '"' && Peek(s, g.pos) != '[' && Peek(s, g.pos) != '{'
    ensures DocSpans(s, f, g.pos, d, end)
  {
    match Peek(s, g.pos)
    case 'n' =>
      WordFound(s, "null", Null, g);
      d := NullWord;
    case 't' =>
      WordFound(s, "true", Bool(true), g);
      d := TrueWord;
    case 'f' =>
      WordFound(s, "false", Bool(false), g);
      d := FalseWord;
    case _ =>
      var n := NumberFound(s, f, g.pos, end);
      d := Doc.Number(n);
      assert Spans(s, g.pos, n.Text(), end);
  }

  /** Brackets with no value between them. */
  lemma {:induction false} EmptyFound(s: Text, f: Settings, g: Progress, inside: Progress, close: Byte) returns (d: Doc)
    requires g.At(s) && inside.At(s) && inside.pos == g.pos + 1 && Space(s, f, inside).Going? && Peek(s, Space(s, f, inside).pos) == close
    requires (Peek(s, g.pos) == '[' && close == ']') || (Peek(s, g.pos) == '{' && close == '}')
    ensures DocSpans(s, f, g.pos, d, Space(s, f, inside).pos + 1)
  {
    var gap := SpaceFound(s, f, inside);
    var h := Space(s, f, inside).pos;
    ByteSpans(s, g.pos, s[g.pos]);
    ByteSpans(s, h, close);
    BracketsJoin(s, g.pos, s[g.pos], GapText(gap), h, close);
    d := if close == ']' then EmptyArray(gap) else EmptyObject(gap);
  }

  lemma {:induction false} BracketsJoin(s: Text, p: nat, open: Byte, gap: Text, h: nat, close: Byte)
    requires Spans(s, p, [open], p + 1) && Spans(s, p + 1, gap, h) && Spans(s, h, [close], h + 1)
    ensures Spans(s, p, [open] + (gap + [close]), h + 1)
  {
    SpansJoined(s, p + 1, gap, h, [close], h + 1);
    SpansJoined(s, p, [open], p + 1, gap + [close], h + 1);
  }

  // ---------------------------------------------------------------- arrays

  lemma {:induction false} ArrayFound(s: Text, f: Settings, g: Progress, end: nat) returns (d: Doc)
    requires g.At(s) && Peek(s, g.pos) == '[' && JsonGrammar.Array(s, f, g).Going? && JsonGrammar.Array(s, f, g).pos == end
    ensures DocSpans(s, f, g.pos, d, end)
    decreases |s| - g.pos, 2
  {
    var inside := g.Step(1).Emit(StartArray);
    var h := Space(s, f, inside);
    assert JsonGrammar.Array(s, f, g) == ArrayFirst(s, f, h);
    ByteSpans(s, g.pos, '[');
    if Peek(s, h.pos) == ']' {
      d := EmptyFound(s, f, g, inside, ']');
    } else {
      var items, comma := ElementsFound(s, f, 0, inside, h, end);
      SpansJoined(s, g.pos, ['['], inside.pos, ItemsText(items, Closing(comma, ']')), end);
      d := Doc.Array(items, comma);
    }
  }

  /** Some elements and what closes them. */
  ghost predicate ItemsSpan(s: Text, f: Settings, p: nat, items: seq<Item>, comma: Option<Gap>, end: nat) {
    ItemsFit(f, items) && CommaFits(f, comma) && Spans(s, p, ItemsText(items, Closing(comma, ']')), end)
  }

  /** The space behind an element, and what follows it. */
  ghost predicate AfterSpans(s: Text, f: Settings, p: nat, gap: Gap, items: seq<Item>, comma: Option<Gap>, end: nat) {
    && GapFits(f.comments, gap) && ItemsFit(f, items) && CommaFits(f, comma)
    && Spans(s, p, GapText(gap) + AfterItem(items, Closing(comma, ']')), end)
  }

  /** At least one element, behind the space before it. */
  lemma {:induction false} ElementsFound(s: Text, f: Settings, count: nat, g: Progress, at: Progress, end: nat)
    returns (items: seq<Item>, comma: Option<Gap>)
    requires g.At(s) && at == Space(s, f, g) && at.At(s)
    requires ArrayElements(s, f, count, at).Going? && ArrayElements(s, f, count, at).pos == end
    ensures items != [] && ItemsSpan(s, f, g.pos, items, comma, end)
    decreases |s| - at.pos, 4
  {
    var v := Value(s, f, at);
    ValueBegins(s, f, at);
    var before := SpaceFound(s, f, g);
    var d := ValueFound(s, f, at, v.pos);
    var after;
    after, items, comma := AfterElementFound(s, f, count, v, end);
    items := ItemsGrow(s, f, g.pos, before, at.pos, d, v.pos, after, items, comma, end);
  }

  lemma {:induction false} ItemsGrow(
    s: Text, f: Settings, p: nat, before: Gap, at: nat, d: Doc, v: nat, after: Gap, items: seq<Item>, comma: Option<Gap>, end: nat)
    returns (r: seq<Item>)
    requires GapFits(f.comments, before) && Spans(s, p, GapText(before), at) && DocSpans(s, f, at, d, v)
    requires AfterSpans(s, f, v, after, items, comma, end)
    ensures r == [Item(before, d, after)] + items && ItemsSpan(s, f, p, r, comma, end)
  {
    var rest := AfterItem(items, Closing(comma, ']'));
    r := [Item(before, d, after)] + items;
    assert r[1..] == items;
    SpansJoined(s, at, DocText(d), v, GapText(after) + rest, end);
    SpansJoined(s, p, GapText(before), at, DocText(d) + (GapText(after) + rest), end);
    ItemSplit(GapText(before), DocText(d), GapText(after), rest);
  }

  lemma {:induction false} AfterElementFound(s: Text, f: Settings, count: nat, v: Progress, end: nat)
    returns (after: Gap, items: seq<Item>, comma: Option<Gap>)
    requires v.At(s) && ArrayAfterElement(s, f, count, v).Going? && ArrayAfterElement(s, f, count, v).pos == end
    ensures AfterSpans(s, f, v.pos, after, items, comma, end)
    decreases |s| - v.pos, 8
  {
    var h := Space(s, f, v);
    after := SpaceFound(s, f, v);
    items, comma := SeparatorFound(s, f, count, h, end);
    SpansJoined(s, v.pos, GapText(after), h.pos, AfterItem(items, Closing(comma, ']')), end);
  }

  lemma {:induction false} SeparatorFound(s: Text, f: Settings, count: nat, h: Progress, end: nat)
    returns (items: seq<Item>, comma: Option<Gap>)
    requires h.At(s) && ArraySeparator(s, f, count, h).Going? && ArraySeparator(s, f, count, h).pos == end
    ensures ItemsFit(f, items) && CommaFits(f, comma) && Spans(s, h.pos, AfterItem(items, Closing(comma, ']')), end)
    decreases |s| - h.pos, 7
  {
    ByteSpans(s, h.pos, Peek(s, h.pos));
    if Peek(s, h.pos) == ']' {
      items, comma := [], None;
    } else {
      var next := h.Step(1);
      var at := Space(s, f, next);
      if f.trailingCommas && Peek(s, at.pos) == ']' {
        var gap := SpaceFound(s, f, next);
        ByteSpans(s, at.pos, ']');
        SpansJoined(s, next.pos, GapText(gap), at.pos, [']'], end);
        SpansJoined(s, h.pos, [','], next.pos, GapText(gap) + [']'], end);
        items, comma := [], Some(gap);
      } else {
        items, comma := ElementsFound(s, f, count + 1, next, at, end);
        SpansJoined(s, h.pos, [','], next.pos, ItemsText(items, Closing(comma, ']')), end);
      }
    }
  }

  // ---------------------------------------------------------------- objects

  lemma {:induction false} ObjectFound(s: Text, f: Settings, g: Progress, end: nat) returns (d: Doc)
    requires g.At(s) && Peek(s, g.pos) == '{' && JsonGrammar.Object(s, f, g).Going? && JsonGrammar.Object(s, f, g).pos == end
    ensures DocSpans(s, f, g.pos, d, end)
    decreases |s| - g.pos, 2
  {
    var inside := g.Step(1).Emit(StartObject);
    var h := Space(s, f, inside);
    assert JsonGrammar.Object(s, f, g) == ObjectFirst(s, f, h);
    ByteSpans(s, g.pos, '{');
    if Peek(s, h.pos) == '}' {
      d := EmptyFound(s, f, g, inside, '}');
    } else {
      var entries, comma := MembersFound(s, f, 0, inside, h, end);
      SpansJoined(s, g.pos, ['{'], inside.pos, EntriesText(entries, Closing(comma, '}')), end);
      d := Doc.Object(entries, comma);
    }
  }

  /** Some members and what closes them. */
  ghost predicate EntriesSpan(s: Text, f: Settings, p: nat, entries: seq<Entry>, comma: Option<Gap>, end: nat) {
    EntriesFit(f, entries) && CommaFits(f, comma) && Spans(s, p, EntriesText(entries, Closing(comma, '}')), end)
  }

  /** The space behind a member, and what follows it. */
  ghost predicate AfterEntrySpans(s: Text, f: Settings, p: nat, gap: Gap, entries: seq<Entry>, comma: Option<Gap>, end: nat) {
    && GapFits(f.comments, gap) && EntriesFit(f, entries) && CommaFits(f, comma)
    && Spans(s, p, GapText(gap) + AfterEntry(entries, Closing(comma, '}')), end)
  }

  /** A name, a colon, and the space around them. */
  ghost predicate NameSpans(s: Text, f: Settings, p: nat, before: Gap, name: seq<Char>, beforeColon: Gap, afterColon: Gap, end: nat) {
    && GapFits(f.comments, before) && AllFit(name) && GapFits(f.comments, beforeColon) && GapFits(f.comments, afterColon)
    && Spans(s, p, GapText(before) + (QuotedText(name) + (GapText(beforeColon) + ([':'] + GapText(afterColon)))), end)
  }

  /** At least one member, behind the space before it. */
  lemma {:induction false} MembersFound(s: Text, f: Settings, count: nat, g: Progress, at: Progress, end: nat)
    returns (entries: seq<Entry>, comma: Option<Gap>)
    requires g.At(s) && at == Space(s, f, g) && at.At(s)
    requires ObjectMembers(s, f, count, at).Going? && ObjectMembers(s, f, count, at).pos == end
    ensures entries != [] && EntriesSpan(s, f, g.pos, entries, comma, end)
    decreases |s| - at.pos, 4
  {
    var before, name, beforeColon, afterColon, value := NameFound(s, f, count, g, at, end);
    var v := Value(s, f, value);
    var d := ValueFound(s, f, value, v.pos);
    var after;
    after, entries, comma := AfterValueFound(s, f, count, v, end);
    entries := EntriesGrow(s, f, g.pos, Entry(before, name, beforeColon, afterColon, d, after), value.pos, v.pos, entries, comma, end);
  }

  lemma {:induction false} NameFound(s: Text, f: Settings, count: nat, g: Progress, at: Progress, end: nat)
    returns (before: Gap, name: seq<Char>, beforeColon: Gap, afterColon: Gap, value: Progress)
    requires g.At(s) && at == Space(s, f, g) && at.At(s)
    requires ObjectMembers(s, f, count, at).Going? && ObjectMembers(s, f, count, at).pos == end
    ensures value.At(s) && at.pos < value.pos && NameSpans(s, f, g.pos, before, name, beforeColon, afterColon, value.pos)
    ensures ObjectMembers(s, f, count, at) == ObjectValue(s, f, count, value)
  {
    var k, colon, next;
    k, colon, next, value := NameThere(s, f, count, at);
    before := SpaceFound(s, f, g);
    name := QuotedFound(s, at.pos, k.pos);
    beforeColon := SpaceFound(s, f, k);
    ByteSpans(s, colon.pos, ':');
    afterColon := SpaceFound(s, f, next);
    NameJoins(s, g.pos, GapText(before), at.pos, QuotedText(name), k.pos, GapText(beforeColon), colon.pos, GapText(afterColon), value.pos);
  }

  /** The name and the colon that the reader has found. */
  lemma {:induction false} NameThere(s: Text, f: Settings, count: nat, at: Progress)
    returns (k: Progress, colon: Progress, next: Progress, value: Progress)
    requires at.At(s) && ObjectMembers(s, f, count, at).Going?
    ensures Peek(s, at.pos) == '"' && k == Str(s, true, at) && k.At(s) && at.pos < k.pos && ScanString(s, at.pos + 1, []).Found?
    ensures ScanString(s, at.pos + 1, []).end == k.pos && colon == Space(s, f, k) && colon.At(s) && Peek(s, colon.pos) == ':'
    ensures next.At(s) && next.pos == colon.pos + 1 && value == Space(s, f, next) && value.At(s) && Peek(s, value.pos) != NUL
    ensures ObjectMembers(s, f, count, at) == ObjectValue(s, f, count, value)
  {
    k := Str(s, true, at);
    colon := Space(s, f, k);
    assert ObjectMembers(s, f, count, at) == ObjectColon(s, f, count, colon);
    next, value := ColonThere(s, f, count, colon);
  }

  lemma {:induction false} ColonThere(s: Text, f: Settings, count: nat, colon: Progress) returns (next: Progress, value: Progress)
    requires colon.At(s) && ObjectColon(s, f, count, colon).Going?
    ensures Peek(s, colon.pos) == ':' && next.At(s) && next.pos == colon.pos + 1 && value == Space(s, f, next) && value.At(s)
    ensures Peek(s, value.pos) != NUL && ObjectColon(s, f, count, colon) == ObjectValue(s, f, count, value)
  {
    next := colon.Step(1);
    value := Space(s, f, next);
    ValueBegins(s, f, value);
  }

  lemma {:induction false} NameJoins(
    s: Text, p: nat, before: Text, at: nat, name: Text, k: nat, beforeColon: Text, colon: nat, afterColon: Text, value: nat)
    requires Spans(s, p, before, at) && Spans(s, at, name, k) && Spans(s, k, beforeColon, colon)
    requires Spans(s, colon, [':'], colon + 1) && Spans(s, colon + 1, afterColon, value)
    ensures Spans(s, p, before + (name + (beforeColon + ([':'] + afterColon))), value)
  {
    SpansJoined(s, colon, [':'], colon + 1, afterColon, value);
    SpansJoined(s, k, beforeColon, colon, [':'] + afterColon, value);
    SpansJoined(s, at, name, k, beforeColon + ([':'] + afterColon), value);
    SpansJoined(s, p, before, at, name + (beforeColon + ([':'] + afterColon)), value);
  }

  lemma {:induction false} EntriesGrow(
    s: Text, f: Settings, p: nat, e: Entry, at: nat, v: nat, entries: seq<Entry>, comma: Option<Gap>, end: nat)
    returns (r: seq<Entry>)
    requires NameSpans(s, f, p, e.before, e.name, e.beforeColon, e.afterColon, at) && DocSpans(s, f, at, e.value, v)
    requires AfterEntrySpans(s, f, v, e.after, entries, comma, end)
    ensures r == [e] + entries && EntriesSpan(s, f, p, r, comma, end)
  {
    var rest := AfterEntry(entries, Closing(comma, '}'));
    r := [e] + entries;
    assert r[1..] == entries;
    var value, behind := DocText(e.value), GapText(e.after) + rest;
    SpansJoined(s, at, value, v, behind, end);
    SpansJoined(s, p, GapText(e.before) + (QuotedText(e.name) + (GapText(e.beforeColon) + ([':'] + GapText(e.afterColon)))), at,
      value + behind, end);
    EntryJoins(GapText(e.before), QuotedText(e.name), GapText(e.beforeColon), GapText(e.afterColon), value + behind);
    EntrySplit(GapText(e.before), QuotedText(e.name), GapText(e.beforeColon), GapText(e.afterColon), value, GapText(e.after), rest);
  }

  lemma {:induction false} EntryJoins(before: Text, name: Text, beforeColon: Text, afterColon: Text, rest: Text)
    ensures before + (name + (beforeColon + ([':'] + afterColon))) + rest
         == before + (name + (beforeColon + ([':'] + (afterColon + rest))))
  {
    Concat3([':'], afterColon, rest);
    Concat3(beforeColon, [':'] + afterColon, rest);
    Concat3(name, beforeColon + ([':'] + afterColon), rest);
    Concat3(before, name + (beforeColon + ([':'] + afterColon)), rest);
  }

  lemma {:induction false} AfterValueFound(s: Text, f: Settings, count: nat, v: Progress, end: nat)
    returns (after: Gap, entries: seq<Entry>, comma: Option<Gap>)
    requires v.At(s) && ObjectAfterValue(s, f, count, v).Going? && ObjectAfterValue(s, f, count, v).pos == end
    ensures AfterEntrySpans(s, f, v.pos, after, entries, comma, end)
    decreases |s| - v.pos, 8
  {
    var h := Space(s, f, v);
    after := SpaceFound(s, f, v);
    entries, comma := MemberSeparatorFound(s, f, count, h, end);
    SpansJoined(s, v.pos, GapText(after), h.pos, AfterEntry(entries, Closing(comma, '}')), end);
  }

  lemma {:induction false} MemberSeparatorFound(s: Text, f: Settings, count: nat, h: Progress, end: nat)
    returns (entries: seq<Entry>, comma: Option<Gap>)
    requires h.At(s) && ObjectSeparator(s, f, count, h).Going? && ObjectSeparator(s, f, count, h).pos == end
    ensures EntriesFit(f, entries) && CommaFits(f, comma) && Spans(s, h.pos, AfterEntry(entries, Closing(comma, '}')), end)
    decreases |s| - h.pos, 7
  {
    ByteSpans(s, h.pos, Peek(s, h.pos));
    if Peek(s, h.pos) == '}' {
      entries, comma := [], None;
    } else {
      var next := h.Step(1);
      var at := Space(s, f, next);
      if f.trailingCommas && Peek(s, at.pos) == '}' {
        var gap := SpaceFound(s, f, next);
        ByteSpans(s, at.pos, '}');
        SpansJoined(s, next.pos, GapText(gap), at.pos, ['}'], end);
        SpansJoined(s, h.pos, [','], next.pos, GapText(gap) + ['}'], end);
        entries, comma := [], Some(gap);
      } else {
        entries, comma := MembersFound(s, f, count + 1, next, at, end);
        SpansJoined(s, h.pos, [','], next.pos, EntriesText(entries, Closing(comma, '}')), end);
      }
    }
  }
}
