/**
 * What the scalar scanners of the JSON reader accept: blanks and comments, string bodies and numbers.
 * Each function is the specification that the corresponding method of `JsonReader` is proved against.
 */
module JsonLexer {
  import opened Bytes

  datatype ParseErrorCode =
    | DocumentEmpty
    | DocumentRootNotSingular
    | ValueInvalid
    | ObjectMissName
    | ObjectMissColon
    | ObjectMissCommaOrCurlyBracket
    | ArrayMissCommaOrSquareBracket
    | StringUnicodeEscapeInvalidHex
    | StringUnicodeSurrogateInvalid
    | StringEscapeInvalid
    | StringMissQuotationMark
    | StringInvalidEncoding
    | NumberTooBig
    | NumberMissFraction
    | NumberMissExponent
    | UnspecificSyntaxError

  /** The parse flags that change the grammar, and the overflow test of the decimal-to-double conversion. */
  datatype Settings = Settings(
    comments: bool, trailingCommas: bool, stopWhenDone: bool,
    overflows: Text -> bool)  // does this literal convert to a double above the largest finite one?

  datatype Event =
    | Null
    | Bool(b: bool)
    | Int(i: int)
    | Uint(u: nat)
    | Int64(i64: int)
    | Uint64(u64: nat)
    | Double(literal: Text)
    | String(str: Text)
    | StartObject
    | Key(name: Text)
    | EndObject(memberCount: nat)
    | StartArray
    | EndArray(elementCount: nat)

  /** A scan ends after what it recognised, or with an error and the offset the error names. */
  datatype Scan<+T> = Found(end: nat, value: T) | Bad(error: ParseErrorCode, offset: nat)

  /** The events a scalar value may send: integers within their C++ type, no keys and no brackets. */
  predicate ScalarEvent(e: Event) {
    match e
    case Null | Bool(_) | String(_) | Double(_) => true
    case Int(i) => -0x8000_0000 <= i <= 0x7FFF_FFFF
    case Uint(u) => u <= 0xFFFF_FFFF
    case Int64(i) => -0x8000_0000_0000_0000 <= i <= 0x7FFF_FFFF_FFFF_FFFF
    case Uint64(u) => u <= 0xFFFF_FFFF_FFFF_FFFF
    case _ => false
  }

  // ---------------------------------------------------------------- blanks and comments

  predicate IsBlank(c: Byte) {
    c == ' ' || c == '\n' || c == '\r' || c == '\t'
  }

  function SkipBlanks(s: Text, p: nat): (r: nat)
    requires p <= |s|
    ensures p <= r <= |s|
    ensures !IsBlank(Peek(s, r))
    decreases |s| - p
  {
    if IsBlank(Peek(s, p)) then SkipBlanks(s, p + 1) else p
  }

  /** The position after the first star-slash at or after `p`; `Bad` at the end of the text. */
  function BlockCommentEnd(s: Text, p: nat): (r: Scan<()>)
    requires p <= |s|
    ensures r.Found? ==> p < r.end <= |s|
    decreases |s| - p
  {
    if Peek(s, p) == NUL then Bad(UnspecificSyntaxError, p)
    else if s[p] != '*' then BlockCommentEnd(s, p + 1)
    else if Peek(s, p + 1) == '/' then Found(p + 2, ())
    else BlockCommentEnd(s, p + 1)
  }

  /** The position after the first line feed at or after `p`, or that of the terminator. */
  function LineCommentEnd(s: Text, p: nat): (r: nat)
    requires p <= |s|
    ensures p <= r <= |s|
    decreases |s| - p
  {
    if Peek(s, p) == NUL then p else if s[p] == '\n' then p + 1 else LineCommentEnd(s, p + 1)
  }

  /** The position after the comment whose slash is at `p`. */
  function CommentEnd(s: Text, p: nat): (r: Scan<()>)
    requires p <= |s| && Peek(s, p) == '/'
    ensures r.Found? ==> p < r.end <= |s|
  {
    if Peek(s, p + 1) == '*' then BlockCommentEnd(s, p + 2)
    else if Peek(s, p + 1) == '/' then Found(LineCommentEnd(s, p + 2), ())
    else Bad(UnspecificSyntaxError, p + 1)
  }

  function SkipComments(s: Text, p: nat): (r: Scan<()>)
    requires p <= |s|
    ensures r.Found? ==> p <= r.end <= |s|
    decreases |s| - p
  {
    if Peek(s, p) != '/' then Found(p, ())
    else
      var end := CommentEnd(s, p);
      if end.Bad? then end else SkipComments(s, SkipBlanks(s, end.end))
  }

  function SkipSpace(s: Text, f: Settings, p: nat): (r: Scan<()>)
    requires p <= |s|
    ensures r.Found? ==> p <= r.end <= |s|
  {
    var q := SkipBlanks(s, p);
    if f.comments then SkipComments(s, q) else Found(q, ())
  }

  // ---------------------------------------------------------------- strings

  /** The byte a one-letter escape stands for, NUL for letters that are no escape. */
  function Unescape(e: Byte): Byte {
    match e
    case '"' => '"'
    case '/' => '/'
    case '\\' => '\\'
    case 'b' => 8 as char
    case 'f' => 12 as char
    case 'n' => '\n'
    case 'r' => '\r'
    case 't' => '\t'
    case _ => NUL
  }

  function HexValue(c: Byte): (v: Option<nat>)
    ensures v.Some? ==> v.value < 16
  {
    if '0' <= c <= '9' then Some(c as int - '0' as int)
    else if 'A' <= c <= 'F' then Some(c as int - 'A' as int + 10)
    else if 'a' <= c <= 'f' then Some(c as int - 'a' as int + 10)
    else None
  }

  /** The value of the first `n` hexadecimal digits at `p`. */
  function HexPrefix(s: Text, p: nat, n: nat): (v: Option<nat>)
    requires n <= 4
    ensures v.Some? ==> (n > 0 ==> p + n <= |s|) && v.value < [1, 0x10, 0x100, 0x1000, 0x1_0000][n]
  {
    if n == 0 then Some(0)
    else
      var before, last := HexPrefix(s, p, n - 1), HexValue(Peek(s, p + (n - 1)));
      if before.Some? && last.Some? then Some(before.value * 16 + last.value) else None
  }

  /** Four hexadecimal digits at `p`. */
  function Hex4(s: Text, p: nat): (v: Option<nat>)
    ensures v.Some? ==> p + 4 <= |s| && v.value < 0x1_0000
  {
    HexPrefix(s, p, 4)
  }

  lemma {:induction false} NoHexPrefixNoHex4(s: Text, p: nat, n: nat)
    requires n <= 4 && HexPrefix(s, p, n).None?
    ensures Hex4(s, p).None?
    decreases 4 - n
  {
    if n < 4 {
      NoHexPrefixNoHex4(s, p, n + 1);
    }
  }

  function ByteOf(n: nat): Byte
    requires n < 256
  {
    n as char
  }

  /** The UTF-8 form of a code point, lone surrogates included. */
  function Utf8(cp: nat): (r: Text)
    requires cp <= 0x10FFFF
    ensures 1 <= |r| <= 4
  {
    if cp <= 0x7F then [ByteOf(cp)]
    else if cp <= 0x7FF then [ByteOf(0xC0 + cp / 64), ByteOf(0x80 + cp % 64)]
    else if cp <= 0xFFFF then [ByteOf(0xE0 + cp / 4096), ByteOf(0x80 + cp / 64 % 64), ByteOf(0x80 + cp % 64)]
    else [ByteOf(0xF0 + cp / 0x4_0000), ByteOf(0x80 + cp / 4096 % 64), ByteOf(0x80 + cp / 64 % 64), ByteOf(0x80 + cp % 64)]
  }

  /** One backslash escape whose backslash is at `p`. */
  function ScanEscape(s: Text, p: nat): (r: Scan<Text>)
    requires p < |s|
    ensures r.Found? ==> p < r.end <= |s|
  {
    var e := Peek(s, p + 1);
    if Unescape(e) != NUL then Found(p + 2, [Unescape(e)])
    else if e != 'u' then Bad(StringEscapeInvalid, p)
    else
      var hi := Hex4(s, p + 2);
      if hi.None? then Bad(StringUnicodeEscapeInvalidHex, p)
      else if !(0xD800 <= hi.value <= 0xDBFF) then Found(p + 6, Utf8(hi.value))
      else if Peek(s, p + 6) != '\\' || Peek(s, p + 7) != 'u' then Bad(StringUnicodeSurrogateInvalid, p)
      else
        var lo := Hex4(s, p + 8);
        if lo.None? then Bad(StringUnicodeEscapeInvalidHex, p)
        else if !(0xDC00 <= lo.value <= 0xDFFF) then Bad(StringUnicodeSurrogateInvalid, p)
        else Found(p + 12, Utf8((hi.value - 0xD800) * 1024 + (lo.value - 0xDC00) + 0x1_0000))
  }

  /** The rest of a string body from `p`, after `acc` has been decoded, up to and past the closing quote. */
  function ScanString(s: Text, p: nat, acc: Text): (r: Scan<Text>)
    requires p <= |s|
    ensures r.Found? ==> p < r.end <= |s|
    decreases |s| - p
  {
    var c := Peek(s, p);
    if c == '\\' then
      var esc := ScanEscape(s, p);
      if esc.Bad? then esc else ScanString(s, esc.end, acc + esc.value)
    else if c == '"' then Found(p + 1, acc)
    else if c == NUL then Bad(StringMissQuotationMark, p)
    else if c as int < 0x20 then Bad(StringInvalidEncoding, p)
    else ScanString(s, p + 1, acc + [c])
  }

  // ---------------------------------------------------------------- numbers

  /** The end of the maximal run of digits at `p`. */
  function DigitsEnd(s: Text, p: nat): (r: nat)
    requires p <= |s|
    ensures p <= r <= |s|
    ensures AllDigits(s[p..r]) && !IsDigit(Peek(s, r))
    decreases |s| - p
  {
    if IsDigit(Peek(s, p)) then
      var r := DigitsEnd(s, p + 1);
      assert s[p..r] == [s[p]] + s[p + 1..r];
      r
    else p
  }

  /** The event of an integer literal: the narrowest integer type of its sign that holds it, if there is one. */
  function IntegerEvent(minus: bool, n: nat): (r: Option<Event>)
    ensures r.Some? ==> ScalarEvent(r.value)
  {
    if minus then
      if n <= 0x8000_0000 then Some(Int(0 - n))
      else if n <= 0x8000_0000_0000_0000 then Some(Int64(0 - n))
      else None
    else
      if n < 0x1_0000_0000 then Some(Uint(n))
      else if n < 0x1_0000_0000_0000_0000 then Some(Uint64(n))
      else None
  }

  /** A significand being collected: the next position, its value, its significant digits, the fraction digits in it. */
  datatype Significand = Significand(pos: nat, value: nat, digits: nat, scale: nat)

  /** Fraction digits taken while the significand stays within the 53 bits of a double. */
  function TakeExact(s: Text, g: Significand): (r: Significand)
    requires g.pos <= |s|
    ensures g.pos <= r.pos <= |s|
    ensures forall i :: g.pos <= i < r.pos ==> IsDigit(s[i])
    decreases |s| - g.pos
  {
    if IsDigit(Peek(s, g.pos)) && g.value <= 0x1F_FFFF_FFFF_FFFF then
      var v := g.value * 10 + DigitValue(s[g.pos]);
      TakeExact(s, Significand(g.pos + 1, v, if v != 0 then g.digits + 1 else g.digits, g.scale + 1))
    else g
  }

  /** Further fraction digits: taken up to 17 significant ones, then only passed over. */
  function TakeRounded(s: Text, g: Significand): (r: Significand)
    requires g.pos <= |s|
    ensures g.pos <= r.pos <= |s|
    ensures forall i :: g.pos <= i < r.pos ==> IsDigit(s[i])
    ensures !IsDigit(Peek(s, r.pos))
    decreases |s| - g.pos
  {
    if !IsDigit(Peek(s, g.pos)) then g
    else if g.digits < 17 then
      var v := g.value * 10 + DigitValue(s[g.pos]);
      TakeRounded(s, Significand(g.pos + 1, v, if v > 0 then g.digits + 1 else g.digits, g.scale + 1))
    else TakeRounded(s, g.(pos := g.pos + 1))
  }

  /** How many of the digits at `intStart` are significant in the integer accumulators. */
  function IntegerDigits(s: Text, minus: bool, intStart: nat, intEnd: nat): nat
    requires intStart < intEnd <= |s| && AllDigits(s[intStart..intEnd])
    decreases intEnd
  {
    if IntegerEvent(minus, DecimalValue(s[intStart..intEnd])).Some? || intEnd == intStart + 1
    then intEnd - intStart - 1
    else
      assert s[intStart..intEnd - 1] == s[intStart..intEnd][..intEnd - 1 - intStart];
      IntegerDigits(s, minus, intStart, intEnd - 1)
  }

  /** The fraction of a number whose point is at `intEnd`: where it ends and how many digits the significand took. */
  function ScanFraction(s: Text, minus: bool, intStart: nat, intEnd: nat): (r: Significand)
    requires intStart < intEnd < |s| && AllDigits(s[intStart..intEnd])
    ensures intEnd < r.pos <= |s| && !IsDigit(Peek(s, r.pos))
  {
    var n := DecimalValue(s[intStart..intEnd]);
    FractionFrom(s, Significand(intEnd + 1, n, IntegerDigits(s, minus, intStart, intEnd), 0), IntegerEvent(minus, n).None?)
  }

  /** The fraction digits on top of the significand `g`, which is already rounded when `inDouble`. */
  function FractionFrom(s: Text, g: Significand, inDouble: bool): (r: Significand)
    requires g.pos <= |s|
    ensures g.pos <= r.pos <= |s| && !IsDigit(Peek(s, r.pos))
  {
    TakeRounded(s, if inDouble then g else TakeExact(s, g))
  }

  /** The exponent whose letter is at `p - 1`; a positive one may not exceed 308 plus the fraction digits taken. */
  function ScanExponent(s: Text, start: nat, p: nat, scale: nat): (r: Scan<()>)
    requires p <= |s|
    ensures r.Found? ==> p < r.end <= |s|
  {
    var minus := Peek(s, p) == '-';
    var q := if minus || Peek(s, p) == '+' then p + 1 else p;
    if !IsDigit(Peek(s, q)) then Bad(NumberMissExponent, q)
    else
      var end := DigitsEnd(s, q);
      if !minus && DecimalValue(s[q..end]) > 308 + scale then Bad(NumberTooBig, start)
      else Found(end, ())
  }

  /** The event of the literal `s[start..end]`; `whole` is its integer event when it is an integer that has one. */
  function FinishNumber(s: Text, f: Settings, start: nat, end: nat, whole: Option<Event>): (r: Scan<Event>)
    requires start <= end <= |s|
    ensures r.Found? ==> r.end == end && (r.value.Double? || Some(r.value) == whole)
  {
    if whole.Some? then Found(end, whole.value)
    else if f.overflows(s[start..end]) then Bad(NumberTooBig, start)
    else Found(end, Double(s[start..end]))
  }

  /** What may follow the integer and fraction digits. */
  function ScanAfterFraction(s: Text, f: Settings, start: nat, p: nat, scale: nat, whole: Option<Event>): (r: Scan<Event>)
    requires start <= p <= |s|
    ensures r.Found? ==> p <= r.end <= |s| && (r.value.Double? || Some(r.value) == whole)
  {
    if Peek(s, p) == 'e' || Peek(s, p) == 'E' then
      var exp := ScanExponent(s, start, p + 1, scale);
      if exp.Bad? then Bad(exp.error, exp.offset) else FinishNumber(s, f, start, exp.end, None)
    else FinishNumber(s, f, start, p, whole)
  }

  /** What follows the integer part `s[intStart..intEnd]` of the number that begins at `start`. */
  function ScanNumberRest(s: Text, f: Settings, start: nat, minus: bool, intStart: nat, intEnd: nat): (r: Scan<Event>)
    requires start <= intStart < intEnd <= |s| && AllDigits(s[intStart..intEnd])
    ensures r.Found? ==> intEnd <= r.end <= |s| && ScalarEvent(r.value)
  {
    if Peek(s, intEnd) != '.' then
      ScanAfterFraction(s, f, start, intEnd, 0, IntegerEvent(minus, DecimalValue(s[intStart..intEnd])))
    else if !IsDigit(Peek(s, intEnd + 1)) then Bad(NumberMissFraction, intEnd + 1)
    else
      var frac := ScanFraction(s, minus, intStart, intEnd);
      ScanAfterFraction(s, f, start, frac.pos, frac.scale, None)
  }

  /** The number at `p`. */
  function ScanNumber(s: Text, f: Settings, p: nat): (r: Scan<Event>)
    requires p <= |s|
    ensures r.Found? ==> p < r.end <= |s| && ScalarEvent(r.value)
  {
    var minus := Peek(s, p) == '-';
    var q := if minus then p + 1 else p;
    if Peek(s, q) == '0' then ScanNumberRest(s, f, p, minus, q, q + 1)
    else if '1' <= Peek(s, q) <= '9' then ScanNumberRest(s, f, p, minus, q, DigitsEnd(s, q))
    else Bad(ValueInvalid, q)
  }
}
