/** What the reader refuses, with the error and the offset it reports: comments, strings, numbers, what stands between brackets, and whole texts. */
module JsonRefusals {
  import opened Bytes
  import opened JsonLexer
  import opened JsonGrammar
  import opened JsonValue
  import opened JsonRoundTrip
  import opened JsonGaps
  import opened JsonStrings
  import opened JsonScale
  import opened JsonNumerals
  import opened JsonWritten
  import opened JsonTexts

  // ---------------------------------------------------------------- comments

  lemma {:induction false} NeverCloses(s: Text, p: nat, body: Text, end: nat)
    requires BlockBody(body) && StandsAt(s, p, body) && end == p + |body| && Peek(s, end) == NUL
    ensures BlockCommentEnd(s, p) == Bad(UnspecificSyntaxError, end)
    decreases |body|
  {
    if body != [] {
      assert body == [body[0]] + body[1..];
      StandsFirst(s, p, body[0], body[1..]);
      if |body| >= 2 {
        StandsByte(s, p, body, 1);
      }
      NeverCloses(s, p + 1, body[1..], end);
    }
  }

  /** A comment that is never closed is refused at the end of the text, */
  lemma {:induction false} CommentUnclosed(s: Text, f: Settings, g: Progress, gap: Gap, p: nat, body: Text, end: nat)
    requires g.At(s) && f.comments && GapFits(true, gap) && StandsAt(s, g.pos, GapText(gap)) && p == g.pos + |GapText(gap)|
    requires Peek(s, p) == '/' && Peek(s, p + 1) == '*' && BlockBody(body) && StandsAt(s, p + 2, body)
    requires end == p + 2 + |body| && Peek(s, end) == NUL
    ensures Space(s, f, g) == Failed(UnspecificSyntaxError, end, g.out)
  {
    GapReads(s, f, g.pos, gap, p);
    NeverCloses(s, p + 2, body, end);
    BlockStops(s, f, p, end);
  }

  lemma {:induction false} BlockStops(s: Text, f: Settings, p: nat, end: nat)
    requires f.comments && p < |s| && s[p] == '/' && Peek(s, p + 1) == '*' && BlockCommentEnd(s, p + 2) == Bad(UnspecificSyntaxError, end)
    ensures SkipSpace(s, f, p) == Bad(UnspecificSyntaxError, end)
  {
    CommentStops(s, f, p);
  }

  /** and a slash that opens none is refused behind it. */
  lemma {:induction false} SlashAlone(s: Text, f: Settings, g: Progress, gap: Gap, p: nat)
    requires g.At(s) && f.comments && GapFits(true, gap) && StandsAt(s, g.pos, GapText(gap)) && p == g.pos + |GapText(gap)|
    requires Peek(s, p) == '/' && Peek(s, p + 1) != '*' && Peek(s, p + 1) != '/'
    ensures Space(s, f, g) == Failed(UnspecificSyntaxError, p + 1, g.out)
  {
    GapReads(s, f, g.pos, gap, p);
    CommentStops(s, f, p);
  }

  lemma {:induction false} CommentStops(s: Text, f: Settings, p: nat)
    requires p < |s| && s[p] == '/' && f.comments && CommentEnd(s, p).Bad?
    ensures SkipSpace(s, f, p) == CommentEnd(s, p)
  {
    assert SkipSpace(s, f, p) == SkipComments(s, p);
  }

  // ---------------------------------------------------------------- strings

  predicate IsHexDigit(c: Byte) {
    c in "0123456789abcdefABCDEF"
  }

  predicate HexAt(s: Text, p: nat) {
    p + 4 <= |s| && IsHexDigit(s[p]) && IsHexDigit(s[p + 1]) && IsHexDigit(s[p + 2]) && IsHexDigit(s[p + 3])
  }

  /** Four digits that write a leading surrogate. */
  predicate LeadAt(s: Text, p: nat) {
    HexAt(s, p) && s[p] in "dD" && s[p + 1] in "89abAB"
  }

  predicate TrailAt(s: Text, p: nat) {
    HexAt(s, p) && s[p] in "dD" && s[p + 1] in "cdefCDEF"
  }

  /** The error for what stands at `q` in place of a character or the closing quote. */
  function StringRefusal(s: Text, q: nat): Option<ParseErrorCode> {
    var c, e := Peek(s, q), Peek(s, q + 1);
    if c == NUL then Some(StringMissQuotationMark)
    else if c as int < 0x20 then Some(StringInvalidEncoding)
    else if c != '\\' || e in "\"\\/bfnrt" then None
    else if e != 'u' then Some(StringEscapeInvalid)
    else if !HexAt(s, q + 2) then Some(StringUnicodeEscapeInvalidHex)
    else if !LeadAt(s, q + 2) then None
    else if Peek(s, q + 6) != '\\' || Peek(s, q + 7) != 'u' then Some(StringUnicodeSurrogateInvalid)
    else if !HexAt(s, q + 8) then Some(StringUnicodeEscapeInvalidHex)
    else if !TrailAt(s, q + 8) then Some(StringUnicodeSurrogateInvalid)
    else None
  }

  lemma {:induction false} HexReads(s: Text, p: nat)
    ensures Hex4(s, p).Some? <==> HexAt(s, p)
  {
    OnlyDigits(Peek(s, p));
    OnlyDigits(Peek(s, p + 1));
    OnlyDigits(Peek(s, p + 2));
    OnlyDigits(Peek(s, p + 3));
    HexCases(Peek(s, p));
    HexCases(Peek(s, p + 1));
    HexCases(Peek(s, p + 2));
    HexCases(Peek(s, p + 3));
    assert HexPrefix(s, p, 0) == Some(0);
    assert HexPrefix(s, p, 1).Some? <==> IsHexDigit(Peek(s, p));
    assert HexPrefix(s, p, 2).Some? <==> HexPrefix(s, p, 1).Some? && IsHexDigit(Peek(s, p + 1));
    assert HexPrefix(s, p, 3).Some? <==> HexPrefix(s, p, 2).Some? && IsHexDigit(Peek(s, p + 2));
  }

  lemma {:induction false} HexCases(c: Byte)
    ensures HexValue(c).Some? <==> IsHexDigit(c)
    ensures HexValue(c) == Some(13) <==> c in "dD"
    ensures HexValue(c).Some? && 8 <= HexValue(c).value < 12 <==> c in "89abAB"
    ensures HexValue(c).Some? && 12 <= HexValue(c).value < 16 <==> c in "cdefCDEF"
  {
  }

  /** The surrogates by their first two digits. */
  lemma {:induction false} SurrogateReads(s: Text, p: nat)
    requires HexAt(s, p)
    ensures Hex4(s, p).Some?
    ensures 0xD800 <= Hex4(s, p).value <= 0xDBFF <==> LeadAt(s, p)
    ensures 0xDC00 <= Hex4(s, p).value <= 0xDFFF <==> TrailAt(s, p)
  {
    HexReads(s, p);
    JsonSound.HexUnfolds(s, p);
    HexCases(s[p]);
    HexCases(s[p + 1]);
    SurrogateRanges(HexValue(s[p]).value, HexValue(s[p + 1]).value, HexValue(s[p + 2]).value, HexValue(s[p + 3]).value);
  }

  lemma {:induction false} SurrogateRanges(a: nat, b: nat, c: nat, d: nat)
    requires a < 16 && b < 16 && c < 16 && d < 16
    ensures var v := ((a * 16 + b) * 16 + c) * 16 + d;
            && (0xD800 <= v <= 0xDBFF <==> a == 13 && 8 <= b < 12)
            && (0xDC00 <= v <= 0xDFFF <==> a == 13 && 12 <= b < 16)
  {
  }

  lemma {:induction false} EscapeRefused(s: Text, q: nat)
    requires q < |s| && s[q] == '\\'
    ensures match StringRefusal(s, q)
            case Some(e) => ScanEscape(s, q) == Bad(e, q)
            case None => ScanEscape(s, q).Found?
  {
    ShortReads(Peek(s, q + 1));
    HexReads(s, q + 2);
    HexReads(s, q + 8);
    if HexAt(s, q + 2) {
      SurrogateReads(s, q + 2);
    }
    if HexAt(s, q + 8) {
      SurrogateReads(s, q + 8);
    }
  }

  lemma {:induction false} CharsThen(s: Text, p: nat, cs: seq<Char>, acc: Text, q: nat)
    requires AllFit(cs) && StandsAt(s, p, CharsText(cs)) && q == p + |CharsText(cs)|
    ensures ScanString(s, p, acc) == ScanString(s, q, acc + CharsBytes(cs))
    decreases |cs|
  {
    if cs == [] {
      assert acc + [] == acc;
    } else {
      var m := p + |cs[0].Text()|;
      StandsThen(s, p, m, cs[0].Text(), CharsText(cs[1..]));
      CharReads(s, p, cs[0], acc, m);
      CharsThen(s, m, cs[1..], acc + cs[0].Bytes(), q);
      Concat3(acc, cs[0].Bytes(), CharsBytes(cs[1..]));
    }
  }

  /** A string is refused at its first character that is none, with this error. */
  lemma {:induction false} StringRefused(s: Text, isKey: bool, g: Progress, cs: seq<Char>, q: nat)
    requires g.At(s) && Peek(s, g.pos) == '"' && AllFit(cs) && StandsAt(s, g.pos + 1, CharsText(cs)) && q == g.pos + 1 + |CharsText(cs)|
    requires StringRefusal(s, q).Some?
    ensures Str(s, isKey, g) == Failed(StringRefusal(s, q).value, q, g.out)
  {
    CharsThen(s, g.pos + 1, cs, [], q);
    if Peek(s, q) == '\\' {
      EscapeRefused(s, q);
    }
  }

  // ---------------------------------------------------------------- numbers

  /** A number begins with a digit, or with a minus sign before one. */
  lemma {:induction false} NoDigits(s: Text, f: Settings, p: nat)
    requires p <= |s|
    ensures var q := if Peek(s, p) == '-' then p + 1 else p;
            !IsDigit(Peek(s, q)) ==> ScanNumber(s, f, p) == Bad(ValueInvalid, q)
  {
  }

  /** A number behind which the text goes on. */
  lemma {:induction false} WholeThen(s: Text, f: Settings, p: nat, n: Numeral, q: nat, m: nat)
    requires n.Spelled() && n.exponent.None? && StandsAt(s, p, n.Text()) && !IsDigit(Peek(s, p + |n.Text()|))
    requires q == p + |n.Sign()| && m == q + |n.whole|
    ensures p <= q < m <= |s| && s[q..m] == n.whole && ScanNumber(s, f, p) == ScanNumberRest(s, f, p, n.minus, q, m)
    ensures StandsAt(s, m, n.FractionText()) && p + |n.Text()| == m + |n.FractionText()|
  {
    PartsStand(s, p, n);
    if n.fraction.Some? {
      StandsByte(s, m, n.FractionText(), 0);
    }
    NumeralStarts(s, f, p, n, q, m);
  }

  /** A point needs a digit behind it. */
  lemma {:induction false} FractionMissing(s: Text, f: Settings, p: nat, n: Numeral, end: nat)
    requires n.Spelled() && n.fraction.None? && n.exponent.None? && StandsAt(s, p, n.Text()) && end == p + |n.Text()|
    requires Peek(s, end) == '.' && !IsDigit(Peek(s, end + 1))
    ensures ScanNumber(s, f, p) == Bad(NumberMissFraction, end + 1)
  {
    var q := WholeAlone(s, f, p, n, end);
    NoFraction(s, f, p, n.minus, q, end);
  }

  lemma {:induction false} WholeAlone(s: Text, f: Settings, p: nat, n: Numeral, end: nat) returns (q: nat)
    requires n.Spelled() && n.fraction.None? && n.exponent.None? && StandsAt(s, p, n.Text()) && end == p + |n.Text()| && !IsDigit(Peek(s, end))
    ensures p <= q < end <= |s| && AllDigits(s[q..end]) && ScanNumber(s, f, p) == ScanNumberRest(s, f, p, n.minus, q, end)
  {
    q := p + |n.Sign()|;
    assert n.Text() == n.Sign() + n.whole;
    StandsThen(s, p, q, n.Sign(), n.whole);
    NumeralStarts(s, f, p, n, q, end);
  }

  lemma {:induction false} NoFraction(s: Text, f: Settings, p: nat, minus: bool, q: nat, m: nat)
    requires p <= q < m <= |s| && AllDigits(s[q..m])
    ensures Peek(s, m) == '.' && !IsDigit(Peek(s, m + 1)) ==> ScanNumberRest(s, f, p, minus, q, m) == Bad(NumberMissFraction, m + 1)
    ensures Peek(s, m) != '.' ==>
              ScanNumberRest(s, f, p, minus, q, m) == ScanAfterFraction(s, f, p, m, 0, IntegerEvent(minus, DecimalValue(s[q..m])))
  {
  }

  /** An exponent needs a digit behind its letter and its sign. */
  lemma {:induction false} ExponentMissing(s: Text, f: Settings, p: nat, n: Numeral, end: nat)
    requires n.Spelled() && n.exponent.None? && StandsAt(s, p, n.Text()) && end == p + |n.Text()|
    requires Peek(s, end) == 'e' || Peek(s, end) == 'E'
    ensures var d := if Peek(s, end + 1) == '+' || Peek(s, end + 1) == '-' then end + 2 else end + 1;
            !IsDigit(Peek(s, d)) ==> ScanNumber(s, f, p) == Bad(NumberMissExponent, d)
  {
    var q := p + |n.Sign()|;
    var m := q + |n.whole|;
    WholeThen(s, f, p, n, q, m);
    var scale, whole := DigitsThen(s, f, p, n.minus, q, m, n.whole, n.fraction, end);
    NoExponent(s, f, p, end, scale, whole);
  }

  /** The digits of a number, with or without a fraction, and what comes behind them. */
  lemma {:induction false} DigitsThen(
    s: Text, f: Settings, p: nat, minus: bool, q: nat, m: nat, whole: Text, fraction: Option<Text>, end: nat)
    returns (scale: nat, event: Option<Event>)
    requires p <= q < m <= |s| && s[q..m] == whole && AllDigits(whole) && (whole[0] == '0' ==> |whole| == 1)
    requires fraction.Some? ==> fraction.value != [] && AllDigits(fraction.value) && StandsAt(s, m, ['.'] + fraction.value)
    requires end == (if fraction.Some? then m + 1 + |fraction.value| else m) && !IsDigit(Peek(s, end)) && Peek(s, end) != '.'
    ensures end <= |s| && ScanNumberRest(s, f, p, minus, q, m) == ScanAfterFraction(s, f, p, end, scale, event)
  {
    match fraction
    case None =>
      NoFraction(s, f, p, minus, q, m);
      scale, event := 0, IntegerEvent(minus, DecimalValue(whole));
    case Some(d) =>
      FractionThen(s, f, p, minus, q, m, whole, d);
      scale, event := ScaleOf(whole, d), None;
  }

  lemma {:induction false} NoExponent(s: Text, f: Settings, p: nat, end: nat, scale: nat, whole: Option<Event>)
    requires p <= end <= |s| && (Peek(s, end) == 'e' || Peek(s, end) == 'E')
    ensures var d := if Peek(s, end + 1) == '+' || Peek(s, end + 1) == '-' then end + 2 else end + 1;
            !IsDigit(Peek(s, d)) ==> ScanAfterFraction(s, f, p, end, scale, whole) == Bad(NumberMissExponent, d)
  {
  }

  /** A number too big for a double is refused where it begins. */
  lemma {:induction false} TooBig(s: Text, f: Settings, p: nat, n: Numeral)
    requires n.Spelled() && StandsAt(s, p, n.Text()) && n.EndsBefore(Peek(s, p + |n.Text()|))
    requires !n.Fits() || (!n.IsInteger() && f.overflows(n.Text()))
    ensures ScanNumber(s, f, p) == Bad(NumberTooBig, p)
  {
    NumeralReads(s, f, p, n);
  }

  // ---------------------------------------------------------------- between brackets

  /** Where filled space ends and the text goes on with `c`. */
  lemma {:induction false} GapEnds(s: Text, f: Settings, gap: Gap, g: Progress, q: nat)
    requires g.At(s) && GapFits(f.comments, gap) && StandsAt(s, g.pos, GapText(gap)) && q == g.pos + |GapText(gap)| && EndsGap(Peek(s, q))
    ensures q <= |s| && Space(s, f, g) == Going(q, g.out)
  {
    GapReads(s, f, g.pos, gap, q);
    NothingSkipped(s, f, q);
  }

  /** What a value may be followed by, with the space behind it: where there is none, a byte that a number does not go on with. */
  predicate Ends(f: Settings, d: Doc, after: Gap, c: Byte)
    requires DocFits(f, d)
  {
    EndsGap(c) && (after == [] ==> EndsBefore(f, d, c))
  }

  /** A value and the space behind it, wherever the text goes on. */
  lemma {:induction false} ValueEnds(s: Text, f: Settings, d: Doc, after: Gap, at: Progress, q: nat) returns (v: Progress)
    requires at.At(s) && DocFits(f, d) && GapFits(f.comments, after) && StandsAt(s, at.pos, DocText(d) + GapText(after))
    requires q == at.pos + |DocText(d) + GapText(after)| && Ends(f, d, after, Peek(s, q))
    ensures v == Going(at.pos + |DocText(d)|, at.out + Events(TreeOf(f, d))) && v.At(s) && Value(s, f, at) == v
    ensures Space(s, f, v) == Going(q, v.out) && q <= |s|
  {
    var end := at.pos + |DocText(d)|;
    StandsThen(s, at.pos, end, DocText(d), GapText(after));
    if after != [] {
      FilledStops(s, f, after, end);
      StopsEnd(f, d, Peek(s, end));
    }
    DocReads(s, f, d, at);
    v := Going(end, at.out + Events(TreeOf(f, d)));
    GapEnds(s, f, after, v, q);
  }

  /** The last of some elements, behind which the text goes on with anything. */
  lemma {:induction false} LastItem(s: Text, f: Settings, i: Item, g: Progress, q: nat) returns (at: Progress, v: Progress)
    requires g.At(s) && ItemFits(f, i) && StandsAt(s, g.pos, ItemText(i)) && q == g.pos + |ItemText(i)| && Ends(f, i.value, i.after, Peek(s, q))
    ensures Space(s, f, g) == at && at.At(s) && Begins(Peek(s, at.pos))
    ensures v.At(s) && v.out == g.out + Events(TreeOf(f, i.value)) && Value(s, f, at) == v && Space(s, f, v) == Going(q, v.out) && q <= |s|
  {
    var rest := DocText(i.value) + GapText(i.after);
    DocBegins(f, i.value);
    BeginsEndsGap(DocText(i.value)[0]);
    at := GapEnters(s, f, i.before, rest, g);
    StandsByte(s, at.pos, rest, 0);
    v := ValueEnds(s, f, i.value, i.after, at, q);
  }

  /** Some elements with commas between them, behind which the text goes on with anything. */
  lemma {:induction false} ItemsThen(s: Text, f: Settings, count: nat, items: seq<Item>, g: Progress, q: nat, total: nat)
    returns (at: Progress, h: Progress)
    requires g.At(s) && items != [] && ItemsFit(f, items) && StandsAt(s, g.pos, ItemsText(items, [])) && q == g.pos + |ItemsText(items, [])|
    requires ItemFits(f, items[|items| - 1]) && Ends(f, items[|items| - 1].value, items[|items| - 1].after, Peek(s, q))
    requires total == count + |items|
    ensures Space(s, f, g) == at && at.At(s) && Begins(Peek(s, at.pos))
    ensures h == Going(q, g.out + ElementEvents(TreesOf(f, items))) && h.At(s)
    ensures ArrayElements(s, f, count, at) == ArraySeparator(s, f, total - 1, h)
    decreases |items|
  {
    if |items| == 1 {
      assert ItemsText(items, []) == ItemText(items[0]);
      at, h := OneItem(s, f, count, items[0], g, q);
      assert TreesOf(f, items) == [TreeOf(f, items[0].value)];
      OneElement(TreeOf(f, items[0].value));
    } else {
      var next, inner;
      var rest := items[1..];
      assert rest[|rest| - 1] == items[|items| - 1] && AfterItem(rest, []) == [','] + ItemsText(rest, []);
      at, next, inner := ItemAndComma(s, f, count, items[0], ItemsText(rest, []), g);
      inner, h := ItemsThen(s, f, count + 1, rest, next, q, total);
      CommaGoesOn(s, f, count + 1, inner);
      MoreElements(f, items, g.out);
    }
  }

  lemma {:induction false} MoreElements(f: Settings, items: seq<Item>, out: seq<Event>)
    requires items != [] && ItemsFit(f, items) && ItemFits(f, items[0]) && ItemsFit(f, items[1..])
    ensures out + Events(TreeOf(f, items[0].value)) + ElementEvents(TreesOf(f, items[1..])) == out + ElementEvents(TreesOf(f, items))
  {
    assert TreesOf(f, items)[1..] == TreesOf(f, items[1..]);
    Concat3(out, Events(TreeOf(f, items[0].value)), ElementEvents(TreesOf(f, items[1..])));
  }

  lemma {:induction false} OneElement(t: Tree)
    ensures ElementEvents([t]) == Events(t)
  {
    assert ElementEvents([t][1..]) == [];
  }

  lemma {:induction false} OneItem(s: Text, f: Settings, count: nat, i: Item, g: Progress, q: nat) returns (at: Progress, h: Progress)
    requires g.At(s) && ItemFits(f, i) && StandsAt(s, g.pos, ItemText(i)) && q == g.pos + |ItemText(i)| && Ends(f, i.value, i.after, Peek(s, q))
    ensures Space(s, f, g) == at && at.At(s) && Begins(Peek(s, at.pos))
    ensures h == Going(q, g.out + Events(TreeOf(f, i.value))) && h.At(s) && ArrayElements(s, f, count, at) == ArraySeparator(s, f, count, h)
  {
    var v;
    at, v := LastItem(s, f, i, g, q);
    ValueThen(s, f, count, at, v);
    h := Going(q, v.out);
  }

  /** An element, the comma behind it, and what follows. */
  lemma {:induction false} ItemAndComma(s: Text, f: Settings, count: nat, i: Item, rest: Text, g: Progress)
    returns (at: Progress, next: Progress, inner: Progress)
    requires g.At(s) && ItemFits(f, i) && StandsAt(s, g.pos, ItemText(i) + ([','] + rest))
    ensures Space(s, f, g) == at && at.At(s) && Begins(Peek(s, at.pos))
    ensures next == Going(g.pos + |ItemText(i)| + 1, g.out + Events(TreeOf(f, i.value))) && next.At(s) && StandsAt(s, next.pos, rest)
    ensures inner == Space(s, f, next) && (inner.At(s) ==> ArrayElements(s, f, count, at) == ArrayAfterComma(s, f, count + 1, inner))
  {
    var v;
    at, v := FirstItemReads(s, f, count, i, [','] + rest, g);
    next, inner := GapAndComma(s, f, count, i.after, rest, v);
  }

  /** Behind the elements of an array comes a comma or the closing bracket. */
  lemma {:induction false} SeparatorMissing(s: Text, f: Settings, items: seq<Item>, g: Progress, q: nat)
    requires g.At(s) && items != [] && ItemsFit(f, items) && StandsAt(s, g.pos, ['['] + ItemsText(items, []))
    requires q == g.pos + 1 + |ItemsText(items, [])| && Peek(s, q) != ',' && Peek(s, q) != ']'
    requires ItemFits(f, items[|items| - 1]) && Ends(f, items[|items| - 1].value, items[|items| - 1].after, Peek(s, q))
    ensures Value(s, f, g) == Failed(ArrayMissCommaOrSquareBracket, q, g.out + [StartArray] + ElementEvents(TreesOf(f, items)))
  {
    StandsFirst(s, g.pos, '[', ItemsText(items, []));
    var at, h := ItemsThen(s, f, 0, items, g.Step(1).Emit(StartArray), q, |items|);
    BracketEnters(s, f, g);
  }

  /** A member, the comma behind it, and what follows. */
  lemma {:induction false} MemberAndComma(s: Text, f: Settings, count: nat, e: Entry, rest: Text, g: Progress)
    returns (at: Progress, next: Progress, inner: Progress)
    requires g.At(s) && EntryFits(f, e) && StandsAt(s, g.pos, EntryText(e) + ([','] + rest))
    ensures Space(s, f, g) == at && at.At(s) && Begins(Peek(s, at.pos))
    ensures next == Going(g.pos + |EntryText(e)| + 1, g.out + [Key(CharsBytes(e.name))] + Events(TreeOf(f, e.value)))
    ensures next.At(s) && StandsAt(s, next.pos, rest)
    ensures inner == Space(s, f, next) && (inner.At(s) ==> ObjectMembers(s, f, count, at) == ObjectAfterComma(s, f, count + 1, inner))
  {
    var v;
    at, v := FirstEntryReads(s, f, count, e, [','] + rest, g);
    next, inner := GapAndComma(s, f, count, e.after, rest, v);
  }

  /** Members, each with a comma behind it, and what follows. */
  function MembersAhead(entries: seq<Entry>, rest: Text): Text {
    if entries == [] then rest else EntryText(entries[0]) + ([','] + MembersAhead(entries[1..], rest))
  }

  /** Where another member is to come, behind some others and the space before it. */
  lemma {:induction false} MembersThen(s: Text, f: Settings, count: nat, entries: seq<Entry>, gap: Gap, g: Progress, q: nat, total: nat)
    returns (first: Progress, at: Progress)
    requires g.At(s) && EntriesFit(f, entries) && GapFits(f.comments, gap) && StandsAt(s, g.pos, MembersAhead(entries, GapText(gap)))
    requires q == g.pos + |MembersAhead(entries, GapText(gap))| && EndsGap(Peek(s, q)) && Peek(s, q) != '}' && Peek(s, q) != ']'
    requires total == count + |entries|
    ensures first == Space(s, f, g) && first.At(s) && Peek(s, first.pos) != '}' && Peek(s, first.pos) != ']'
    ensures at == Going(q, g.out + MemberEvents(MembersOf(f, entries))) && at.At(s)
    ensures ObjectMembers(s, f, count, first) == ObjectMembers(s, f, total, at)
    decreases |entries|
  {
    if entries == [] {
      GapEnds(s, f, gap, g, q);
      at := Going(q, g.out);
      first := at;
      assert g.out + [] == g.out;
    } else {
      var next, inner;
      first, next, inner := MemberAndComma(s, f, count, entries[0], MembersAhead(entries[1..], GapText(gap)), g);
      inner, at := MembersThen(s, f, count + 1, entries[1..], gap, next, q, total);
      MembersGoOn(s, f, count + 1, inner);
      assert MembersOf(f, entries)[1..] == MembersOf(f, entries[1..]);
      Concat4(g.out, [Key(CharsBytes(entries[0].name))], Events(TreeOf(f, entries[0].value)), MemberEvents(MembersOf(f, entries[1..])));
    }
  }

  lemma {:induction false} MembersGoOn(s: Text, f: Settings, count: nat, at: Progress)
    requires at.At(s) && Peek(s, at.pos) != '}'
    ensures ObjectAfterComma(s, f, count, at) == ObjectMembers(s, f, count, at)
  {
  }

  /** An object up to where a member is to come. */
  lemma {:induction false} ObjectUpTo(s: Text, f: Settings, entries: seq<Entry>, gap: Gap, g: Progress, q: nat) returns (at: Progress)
    requires g.At(s) && EntriesFit(f, entries) && GapFits(f.comments, gap)
    requires StandsAt(s, g.pos, ['{'] + MembersAhead(entries, GapText(gap))) && q == g.pos + 1 + |MembersAhead(entries, GapText(gap))|
    requires EndsGap(Peek(s, q)) && Peek(s, q) != '}' && Peek(s, q) != ']'
    ensures at == Going(q, g.out + [StartObject] + MemberEvents(MembersOf(f, entries))) && at.At(s)
    ensures Value(s, f, g) == ObjectMembers(s, f, |entries|, at)
  {
    StandsFirst(s, g.pos, '{', MembersAhead(entries, GapText(gap)));
    var first;
    first, at := MembersThen(s, f, 0, entries, gap, g.Step(1).Emit(StartObject), q, |entries|);
    BracketEnters(s, f, g);
  }

  /** A member begins with the quote of its name. */
  lemma {:induction false} NameMissing(s: Text, f: Settings, entries: seq<Entry>, gap: Gap, g: Progress, q: nat)
    requires g.At(s) && EntriesFit(f, entries) && GapFits(f.comments, gap)
    requires StandsAt(s, g.pos, ['{'] + MembersAhead(entries, GapText(gap))) && q == g.pos + 1 + |MembersAhead(entries, GapText(gap))|
    requires EndsGap(Peek(s, q)) && Peek(s, q) != '}' && Peek(s, q) != ']' && Peek(s, q) != '"'
    ensures Value(s, f, g) == Failed(ObjectMissName, q, g.out + [StartObject] + MemberEvents(MembersOf(f, entries)))
  {
    var at := ObjectUpTo(s, f, entries, gap, g, q);
  }

  /** Behind the name of a member comes a colon. */
  lemma {:induction false} ColonMissing(
    s: Text, f: Settings, entries: seq<Entry>, gap: Gap, name: seq<Char>, beforeColon: Gap, g: Progress, p: nat, q: nat)
    requires g.At(s) && EntriesFit(f, entries) && GapFits(f.comments, gap) && AllFit(name) && GapFits(f.comments, beforeColon)
    requires StandsAt(s, g.pos, ['{'] + MembersAhead(entries, GapText(gap))) && p == g.pos + 1 + |MembersAhead(entries, GapText(gap))|
    requires StandsAt(s, p, QuotedText(name) + GapText(beforeColon)) && q == p + |QuotedText(name) + GapText(beforeColon)|
    requires EndsGap(Peek(s, q)) && Peek(s, q) != ':'
    ensures Value(s, f, g) == Failed(ObjectMissColon, q, g.out + [StartObject] + MemberEvents(MembersOf(f, entries)) + [Key(CharsBytes(name))])
  {
    StandsByte(s, p, QuotedText(name) + GapText(beforeColon), 0);
    var at := ObjectUpTo(s, f, entries, gap, g, p);
    var k := QuotedThen(s, name, GapText(beforeColon), at);
    GapEnds(s, f, beforeColon, k, q);
    NameThen(s, f, |entries|, at, k, Going(q, k.out));
  }

  /** Behind the last of some members comes a comma or the closing bracket. */
  lemma {:induction false} MemberSeparatorMissing(
    s: Text, f: Settings, entries: seq<Entry>, e: Entry, g: Progress, p: nat, value: nat, q: nat)
    requires g.At(s) && EntriesFit(f, entries) && EntryFits(f, e)
    requires StandsAt(s, g.pos, ['{'] + MembersAhead(entries, GapText(e.before))) && p == g.pos + 1 + |MembersAhead(entries, GapText(e.before))|
    requires StandsAt(s, p, QuotedText(e.name) + (GapText(e.beforeColon) + ([':'] + (GapText(e.afterColon) + (DocText(e.value) + GapText(e.after))))))
    requires value == p + |QuotedText(e.name)| + |GapText(e.beforeColon)| + 1 + |GapText(e.afterColon)|
    requires q == value + |DocText(e.value) + GapText(e.after)| && Ends(f, e.value, e.after, Peek(s, q)) && Peek(s, q) != ',' && Peek(s, q) != '}'
    ensures Value(s, f, g) ==
            Failed(ObjectMissCommaOrCurlyBracket, q,
                   g.out + [StartObject] + MemberEvents(MembersOf(f, entries)) + [Key(CharsBytes(e.name))] + Events(TreeOf(f, e.value)))
  {
    var behind := DocText(e.value) + GapText(e.after);
    StandsByte(s, p, QuotedText(e.name) + (GapText(e.beforeColon) + ([':'] + (GapText(e.afterColon) + behind))), 0);
    var at := ObjectUpTo(s, f, entries, e.before, g, p);
    var at2 := MemberValueAt(s, f, |entries|, e, behind, at);
    var v := ValueEnds(s, f, e.value, e.after, at2, q);
    ValueThen(s, f, |entries|, at2, v);
  }

  /** The value of a member, behind its name and its colon. */
  lemma {:induction false} MemberValueAt(s: Text, f: Settings, count: nat, e: Entry, behind: Text, at: Progress) returns (value: Progress)
    requires at.At(s) && EntryFits(f, e) && DocText(e.value) <= behind
    requires StandsAt(s, at.pos, QuotedText(e.name) + (GapText(e.beforeColon) + ([':'] + (GapText(e.afterColon) + behind))))
    ensures value == Going(at.pos + |QuotedText(e.name)| + |GapText(e.beforeColon)| + 1 + |GapText(e.afterColon)|, at.out + [Key(CharsBytes(e.name))])
    ensures value.At(s) && StandsAt(s, value.pos, behind) && ObjectMembers(s, f, count, at) == ObjectValue(s, f, count, value)
  {
    var tail := GapText(e.afterColon) + behind;
    DocBegins(f, e.value);
    var k := QuotedThen(s, e.name, GapText(e.beforeColon) + ([':'] + tail), at);
    var colon := GapEnters(s, f, e.beforeColon, [':'] + tail, k);
    NameThen(s, f, count, at, k, colon);
    value := JsonWritten.ColonReads(s, f, count, e.afterColon, behind, colon);
  }

  // ---------------------------------------------------------------- values

  /** A word is refused at its first wrong letter. */
  lemma {:induction false} WordRefused(s: Text, f: Settings, g: Progress, word: Text, k: nat)
    requires g.At(s) && (word == "null" || word == "true" || word == "false") && 1 <= k < |word|
    requires StandsAt(s, g.pos, word[..k]) && Peek(s, g.pos + k) != word[k]
    ensures Value(s, f, g) == Failed(ValueInvalid, g.pos + k, g.out)
  {
    StandsByte(s, g.pos, word[..k], 0);
    AgreesUpTo(s, g.pos, word, 1, k);
  }

  lemma {:induction false} AgreesUpTo(s: Text, p: nat, word: Text, from: nat, k: nat)
    requires from <= k < |word| && StandsAt(s, p, word[..k]) && Peek(s, p + k) != word[k]
    ensures Agree(s, p, word, from) == k
    decreases k - from
  {
    if from < k {
      StandsByte(s, p, word[..k], from);
      AgreesUpTo(s, p, word, from + 1, k);
    }
  }

  /** Where nothing that begins a value stands, a value is refused. */
  lemma {:induction false} ValueMissing(s: Text, f: Settings, g: Progress)
    requires g.At(s) && !Begins(Peek(s, g.pos))
    ensures Value(s, f, g) == Failed(ValueInvalid, g.pos, g.out)
  {
    NoDigits(s, f, g.pos);
  }

  // ---------------------------------------------------------------- whole texts

  /** A text of nothing but filled space is empty. */
  lemma {:induction false} EmptyText(f: Settings, s: Text, gap: Gap, last: Option<Text>)
    requires GapFits(f.comments, gap) && (last.Some? ==> f.comments && LineBody(last.value))
    requires StandsAt(s, 0, GapText(gap) + LastText(last)) && Peek(s, |GapText(gap) + LastText(last)|) == NUL
    ensures Document(s, f) == Failed(JsonLexer.DocumentEmpty, |GapText(gap) + LastText(last)|, [])
  {
    AfterSkips(s, f, gap, last, 0, |GapText(gap) + LastText(last)|);
  }

  /** Behind the root value nothing may come but filled space. */
  lemma {:induction false} NotSingular(f: Settings, s: Text, w: Written)
    requires w.Fits(f) && w.last.None? && StandsAt(s, 0, w.Text()) && !f.stopWhenDone
    requires var c := Peek(s, |w.Text()|); EndsGap(c) && c != NUL && (w.after == [] ==> EndsBefore(f, w.d, c))
    ensures Document(s, f) == Failed(DocumentRootNotSingular, |w.Text()|, Events(TreeOf(f, w.d)))
  {
    var behind, stop := GapText(w.after), |w.Text()|;
    var p, end := |GapText(w.before)|, stop - |behind|;
    assert w.After() == behind;
    SpaceEnters(s, f, w.before, w.d, behind, p);
    StandsThen(s, p, end, DocText(w.d), behind);
    RootEnds(s, f, w, end, stop);
    var g, v := Going(p, []), Going(end, Events(TreeOf(f, w.d)));
    RootReads(s, f, w.d, g, v);
    GapReads(s, f, end, w.after, stop);
    NothingSkipped(s, f, stop);
  }

  lemma {:induction false} RootEnds(s: Text, f: Settings, w: Written, end: nat, stop: nat)
    requires w.Fits(f) && StandsAt(s, end, GapText(w.after)) && stop == end + |GapText(w.after)|
    requires w.after == [] ==> EndsBefore(f, w.d, Peek(s, stop))
    ensures EndsBefore(f, w.d, Peek(s, end))
  {
    if w.after != [] {
      FilledStops(s, f, w.after, end);
      StopsEnd(f, w.d, Peek(s, end));
    }
  }

  lemma {:induction false} SpaceEnters(s: Text, f: Settings, before: Gap, d: Doc, behind: Text, p: nat)
    requires GapFits(f.comments, before) && DocFits(f, d) && StandsAt(s, 0, GapText(before) + (DocText(d) + behind)) && p == |GapText(before)|
    ensures StandsAt(s, p, DocText(d) + behind) && Space(s, f, Going(0, [])) == Going(p, [])
  {
    var rest := DocText(d) + behind;
    DocBegins(f, d);
    BeginsEndsGap(DocText(d)[0]);
    var g := GapEnters(s, f, before, rest, Going(0, []));
  }

  lemma {:induction false} BeginsEndsGap(c: Byte)
    requires Begins(c)
    ensures EndsGap(c)
  {
  }

  lemma {:induction false} FilledStops(s: Text, f: Settings, gap: Gap, p: nat)
    requires gap != [] && GapFits(f.comments, gap) && StandsAt(s, p, GapText(gap))
    ensures Stops(Peek(s, p))
  {
    StandsByte(s, p, GapText(gap), 0);
    assert GapText(gap)[0] == gap[0].Text()[0];
  }
}
