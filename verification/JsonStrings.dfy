/** String literals as section 7 of RFC 8259 lets them be written, and the bytes the reader makes of them. */
module JsonStrings {
  import opened Bytes
  import opened JsonLexer
  import Utf8Codec
  import JsonAscii

  const LOWER: Text := "0123456789abcdef"
  const UPPER: Text := "0123456789ABCDEF"

  /** A hexadecimal digit in either case. */
  predicate IsDigitOf(c: Byte, v: nat) {
    v < 16 && (c == LOWER[v] || c == UPPER[v])
  }

  /** Four digits, in any mixture of cases, that write a number. */
  predicate Spells(h: Text, v: nat) {
    && |h| == 4 && v < 0x1_0000
    && IsDigitOf(h[0], v / 4096) && IsDigitOf(h[1], v / 256 % 16) && IsDigitOf(h[2], v / 16 % 16) && IsDigitOf(h[3], v % 16)
  }

  /** One character of a string: a byte as it is, an escape of one letter, or one of four digits, alone or in a pair. */
  datatype Char = Raw(c: Byte) | Short(letter: Byte) | Unicode(h: Text, v: nat) | Pair(lead: Text, trail: Text, cp: nat)
  {
    predicate Fits() {
      match this
      case Raw(c) => c as int >= 0x20 && c != '"' && c != '\\'
      case Short(e) => e in "\"\\/bfnrt"
      case Unicode(h, v) => Spells(h, v) && !(0xD800 <= v <= 0xDBFF)
      case Pair(lead, trail, cp) =>
        0x1_0000 <= cp <= 0x10FFFF && Spells(lead, 0xD800 + (cp - 0x1_0000) / 0x400) && Spells(trail, 0xDC00 + (cp - 0x1_0000) % 0x400)
    }

    function Text(): Text {
      match this
      case Raw(c) => [c]
      case Short(e) => ['\\', e]
      case Unicode(h, _) => ['\\', 'u'] + h
      case Pair(lead, trail, _) => ['\\', 'u'] + lead + (['\\', 'u'] + trail)
    }

    /** The bytes it stands for; control characters by their codes, code points in UTF-8. */
    function Bytes(): Text
      requires Fits()
    {
      match this
      case Raw(c) => [c]
      case Short(e) => [ShortByte(e)]
      case Unicode(_, v) => Utf8(v)
      case Pair(_, _, cp) => Utf8(cp)
    }
  }

  function ShortByte(e: Byte): Byte {
    if e == 'b' then 8 as char
    else if e == 't' then 9 as char
    else if e == 'n' then 10 as char
    else if e == 'f' then 12 as char
    else if e == 'r' then 13 as char
    else e
  }

  function CharsText(cs: seq<Char>): Text {
    if cs == [] then [] else cs[0].Text() + CharsText(cs[1..])
  }

  predicate AllFit(cs: seq<Char>) {
    cs == [] || (cs[0].Fits() && AllFit(cs[1..]))
  }

  function CharsBytes(cs: seq<Char>): Text
    requires AllFit(cs)
  {
    if cs == [] then [] else cs[0].Bytes() + CharsBytes(cs[1..])
  }

  /** The code points of a pair and of four digits that are no surrogate have the bytes of the UTF-8 codec. */
  lemma {:induction false} CodePointsEncoded(c: Char)
    requires c.Fits() && (c.Pair? || (c.Unicode? && !(0xDC00 <= c.v <= 0xDFFF)))
    ensures var cp := if c.Pair? then c.cp else c.v;
            Utf8Codec.IsScalar(cp) && Utf8Codec.IsChar(c.Bytes()) && Utf8Codec.Value(c.Bytes()) == cp
  {
    Utf8Codec.EncodedIsChar(if c.Pair? then c.cp else c.v);
  }

  // ---------------------------------------------------------------- digits

  lemma {:induction false} DigitOfReads(c: Byte, v: nat)
    requires IsDigitOf(c, v)
    ensures HexValue(c) == Some(v)
  {
  }

  /** No other byte is a digit. */
  lemma {:induction false} OnlyDigits(c: Byte)
    ensures match HexValue(c)
            case Some(v) => IsDigitOf(c, v)
            case None => c !in LOWER && c !in UPPER
  {
  }

  lemma {:induction false} SpelledReads(s: Text, p: nat, h: Text, v: nat)
    requires Spells(h, v) && StandsAt(s, p, h)
    ensures Hex4(s, p) == Some(v) && p + 4 <= |s|
  {
    StandsByte(s, p, h, 0);
    StandsByte(s, p, h, 1);
    StandsByte(s, p, h, 2);
    StandsByte(s, p, h, 3);
    DigitOfReads(h[0], v / 4096);
    DigitOfReads(h[1], v / 256 % 16);
    DigitOfReads(h[2], v / 16 % 16);
    DigitOfReads(h[3], v % 16);
    FourDigits(s, p, v / 4096, v / 256 % 16, v / 16 % 16, v % 16);
    DigitsJoin(v);
  }

  lemma {:induction false} FourDigits(s: Text, p: nat, a: nat, b: nat, c: nat, d: nat)
    requires HexValue(Peek(s, p)) == Some(a) && HexValue(Peek(s, p + 1)) == Some(b)
    requires HexValue(Peek(s, p + 2)) == Some(c) && HexValue(Peek(s, p + 3)) == Some(d)
    ensures Hex4(s, p) == Some(((a * 16 + b) * 16 + c) * 16 + d)
  {
    assert HexPrefix(s, p, 0) == Some(0);
    assert HexPrefix(s, p, 1) == Some(a);
    assert HexPrefix(s, p, 2) == Some(a * 16 + b);
    assert HexPrefix(s, p, 3) == Some((a * 16 + b) * 16 + c);
  }

  lemma {:induction false} DigitsJoin(v: nat)
    ensures ((v / 4096 * 16 + v / 256 % 16) * 16 + v / 16 % 16) * 16 + v % 16 == v
  {
    DigitsFall(v);
    LastDigit(v);
    LastDigit(v / 16);
    LastDigit(v / 256);
  }

  lemma {:induction false} LastDigit(v: nat)
    ensures v / 16 * 16 + v % 16 == v
  {
  }

  lemma {:induction false} DigitsFall(v: nat)
    ensures v / 16 / 16 == v / 256 && v / 256 / 16 == v / 4096
  {
  }

  // ---------------------------------------------------------------- one character

  /** The escapes of one letter, each with its byte, and no others. */
  lemma {:induction false} ShortReads(e: Byte)
    ensures Unescape(e) == if e in "\"\\/bfnrt" then ShortByte(e) else NUL
  {
  }

  lemma {:induction false} UnicodeStands(s: Text, p: nat, h: Text)
    requires StandsAt(s, p, ['\\', 'u'] + h)
    ensures p < |s| && Peek(s, p) == '\\' && Peek(s, p + 1) == 'u' && StandsAt(s, p + 2, h)
  {
    StandsThen(s, p, p + |['\\', 'u']|, ['\\', 'u'], h);
    StandsByte(s, p, ['\\', 'u'], 0);
    StandsByte(s, p, ['\\', 'u'], 1);
  }

  lemma {:induction false} UnicodeReads(s: Text, p: nat, h: Text, v: nat)
    requires StandsAt(s, p, ['\\', 'u'] + h) && Spells(h, v) && !(0xD800 <= v <= 0xDBFF)
    ensures p < |s| && Peek(s, p) == '\\' && ScanEscape(s, p) == Found(p + 6, Utf8(v))
  {
    UnicodeStands(s, p, h);
    SpelledReads(s, p + 2, h, v);
    ShortReads('u');
  }

  lemma {:induction false} PairStands(s: Text, p: nat, lead: Text, trail: Text, hi: nat, lo: nat)
    requires StandsAt(s, p, ['\\', 'u'] + lead + (['\\', 'u'] + trail)) && Spells(lead, hi) && Spells(trail, lo)
    ensures p < |s| && Peek(s, p) == '\\' && Peek(s, p + 1) == 'u' && Hex4(s, p + 2) == Some(hi)
    ensures Peek(s, p + 6) == '\\' && Peek(s, p + 7) == 'u' && Hex4(s, p + 8) == Some(lo)
  {
    var first, second := ['\\', 'u'] + lead, ['\\', 'u'] + trail;
    StandsThen(s, p, p + |first|, first, second);
    UnicodeStands(s, p, lead);
    UnicodeStands(s, p + 6, trail);
    SpelledReads(s, p + 2, lead, hi);
    SpelledReads(s, p + 8, trail, lo);
  }

  lemma {:induction false} PairReads(s: Text, p: nat, c: Char)
    requires c.Pair? && c.Fits() && StandsAt(s, p, c.Text())
    ensures p < |s| && Peek(s, p) == '\\' && ScanEscape(s, p) == Found(p + 12, Utf8(c.cp))
  {
    var hi, lo := 0xD800 + (c.cp - 0x1_0000) / 0x400, 0xDC00 + (c.cp - 0x1_0000) % 0x400;
    SurrogatesJoin(c.cp, hi, lo);
    SurrogatesRead(s, p, c.lead, c.trail, hi, lo, c.cp);
  }

  lemma {:induction false} SurrogatesRead(s: Text, p: nat, lead: Text, trail: Text, hi: nat, lo: nat, cp: nat)
    requires StandsAt(s, p, ['\\', 'u'] + lead + (['\\', 'u'] + trail)) && Spells(lead, hi) && Spells(trail, lo)
    requires 0xD800 <= hi <= 0xDBFF && 0xDC00 <= lo <= 0xDFFF && (hi - 0xD800) * 1024 + (lo - 0xDC00) + 0x1_0000 == cp
    ensures p < |s| && Peek(s, p) == '\\' && ScanEscape(s, p) == Found(p + 12, Utf8(cp))
  {
    PairStands(s, p, lead, trail, hi, lo);
    JsonAscii.PairScans(s, p, hi, lo);
  }

  lemma {:induction false} SurrogatesJoin(cp: nat, hi: nat, lo: nat)
    requires 0x1_0000 <= cp <= 0x10FFFF && hi == 0xD800 + (cp - 0x1_0000) / 0x400 && lo == 0xDC00 + (cp - 0x1_0000) % 0x400
    ensures 0xD800 <= hi <= 0xDBFF && 0xDC00 <= lo <= 0xDFFF && (hi - 0xD800) * 1024 + (lo - 0xDC00) + 0x1_0000 == cp
  {
  }

  /** A character, however it is written, is read as its bytes. */
  lemma {:induction false} CharReads(s: Text, p: nat, c: Char, acc: Text, q: nat)
    requires c.Fits() && StandsAt(s, p, c.Text()) && q == p + |c.Text()|
    ensures ScanString(s, p, acc) == ScanString(s, q, acc + c.Bytes())
  {
    match c
    case Raw(b) => StandsByte(s, p, [b], 0);
    case Short(e) =>
      StandsByte(s, p, ['\\', e], 0);
      StandsByte(s, p, ['\\', e], 1);
      ShortReads(e);
    case Unicode(h, v) => UnicodeReads(s, p, h, v);
    case Pair(_, _, _) => PairReads(s, p, c);
  }

  /** A string, however its characters are written, is read as their bytes. */
  lemma {:induction false} CharsRead(s: Text, p: nat, cs: seq<Char>, acc: Text, stop: nat)
    requires AllFit(cs) && StandsAt(s, p, CharsText(cs)) && stop == p + |CharsText(cs)| && Peek(s, stop) == '"'
    ensures ScanString(s, p, acc) == Found(stop + 1, acc + CharsBytes(cs))
    decreases |cs|
  {
    if cs == [] {
      assert acc + [] == acc;
    } else {
      var first, rest := cs[0].Text(), CharsText(cs[1..]);
      var q := p + |first|;
      StandsThen(s, p, q, first, rest);
      CharReads(s, p, cs[0], acc, q);
      CharsRead(s, q, cs[1..], acc + cs[0].Bytes(), stop);
      Concat3(acc, cs[0].Bytes(), CharsBytes(cs[1..]));
    }
  }
}
