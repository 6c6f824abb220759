/** Strings printed in ASCII only: characters beyond it become escapes, which the reader turns back into their bytes. */
module JsonAscii {
  import opened Bytes
  import opened JsonLexer
  import opened JsonEscape
  import opened Utf8Codec

  function Hex4Text(v: nat): Text
    requires v < 0x1_0000
  {
    [HexDigit(v / 4096), HexDigit(v / 256 % 16), HexDigit(v / 16 % 16), HexDigit(v % 16)]
  }

  const ESCAPE: Text := "\\u"

  /** The escape of a scalar value: four digits, or a pair of surrogates. */
  function UnicodeEscape(cp: nat): Text
    requires IsScalar(cp)
  {
    if cp <= 0xFFFF then ESCAPE + Hex4Text(cp)
    else ESCAPE + Hex4Text(Lead(cp)) + ESCAPE + Hex4Text(Trail(cp))
  }

  function Lead(cp: nat): (v: nat)
    requires 0xFFFF < cp <= 0x10FFFF
    ensures 0xD800 <= v <= 0xDBFF
  {
    (cp - 0x1_0000) / 1024 + 0xD800
  }

  function Trail(cp: nat): (v: nat)
    requires 0xFFFF < cp <= 0x10FFFF
    ensures 0xDC00 <= v <= 0xDFFF
  {
    (cp - 0x1_0000) % 1024 + 0xDC00
  }

  /** A text of whole characters, escaped. */
  function AsciiAll(s: Text): Text
    requires IsText(s)
    decreases |s|
  {
    if s == [] then []
    else
      var n := Length(s[0]);
      AsciiChar(s[..n]) + AsciiAll(s[n..])
  }

  function AsciiChar(c: Text): Text
    requires IsChar(c)
  {
    if |c| == 1 then Escaped(c[0]) else CharIsScalar(c); UnicodeEscape(Value(c))
  }

  lemma {:induction false} CharIsScalar(c: Text)
    requires IsChar(c)
    ensures IsScalar(Value(c)) && (|c| > 1 ==> Value(c) >= 0x80)
  {
    CharIsEncoded(c);
  }

  // ---------------------------------------------------------------- reading back

  lemma {:induction false} HexShifts(v: nat, d1: nat, d2: nat, d3: nat, d4: nat)
    requires v < 0x1_0000 && d1 == v / 4096 && d2 == v / 256 % 16 && d3 == v / 16 % 16 && d4 == v % 16
    ensures ((d1 * 16 + d2) * 16 + d3) * 16 + d4 == v
  {
    assert v / 256 == v / 4096 * 16 + d2;
    assert v / 16 == v / 256 * 16 + d3;
  }

  lemma {:induction false} HexReads(s: Text, p: nat, v: nat)
    requires v < 0x1_0000 && StandsAt(s, p, Hex4Text(v))
    ensures Hex4(s, p) == Some(v)
  {
    var w := Hex4Text(v);
    StandsByte(s, p, w, 0);
    StandsByte(s, p, w, 1);
    StandsByte(s, p, w, 2);
    StandsByte(s, p, w, 3);
    HexDigitReads(v / 4096);
    HexDigitReads(v / 256 % 16);
    HexDigitReads(v / 16 % 16);
    HexDigitReads(v % 16);
    assert HexPrefix(s, p, 0) == Some(0);
    assert HexPrefix(s, p, 1) == Some(v / 4096);
    assert HexPrefix(s, p, 2) == Some(v / 4096 * 16 + v / 256 % 16);
    assert HexPrefix(s, p, 3) == Some((v / 4096 * 16 + v / 256 % 16) * 16 + v / 16 % 16);
    HexShifts(v, v / 4096, v / 256 % 16, v / 16 % 16, v % 16);
  }

  /** An escape and its digits. */
  lemma {:induction false} EscapeHexReads(s: Text, p: nat, v: nat)
    requires v < 0x1_0000 && StandsAt(s, p, ESCAPE + Hex4Text(v))
    ensures p < |s| && Peek(s, p) == '\\' && Peek(s, p + 1) == 'u' && Hex4(s, p + 2) == Some(v)
  {
    StandsByte(s, p, ESCAPE + Hex4Text(v), 0);
    StandsByte(s, p, ESCAPE + Hex4Text(v), 1);
    StandsThen(s, p, p + |ESCAPE|, ESCAPE, Hex4Text(v));
    HexReads(s, p + 2, v);
  }

  lemma {:induction false} SurrogatesJoin(cp: nat)
    requires 0xFFFF < cp <= 0x10FFFF
    ensures (Lead(cp) - 0xD800) * 1024 + (Trail(cp) - 0xDC00) + 0x1_0000 == cp
  {
  }

  lemma {:induction false} PairScans(s: Text, p: nat, hi: nat, lo: nat)
    requires p < |s| && Peek(s, p + 1) == 'u' && Hex4(s, p + 2) == Some(hi)
    requires Peek(s, p + 6) == '\\' && Peek(s, p + 7) == 'u' && Hex4(s, p + 8) == Some(lo)
    requires 0xD800 <= hi <= 0xDBFF && 0xDC00 <= lo <= 0xDFFF
    ensures ScanEscape(s, p) == Found(p + 12, Utf8((hi - 0xD800) * 1024 + (lo - 0xDC00) + 0x1_0000))
  {
  }

  lemma {:induction false} PairReads(s: Text, p: nat, cp: nat)
    requires 0xFFFF < cp <= 0x10FFFF && StandsAt(s, p, UnicodeEscape(cp))
    ensures p < |s| && Peek(s, p) == '\\' && ScanEscape(s, p) == Found(p + 12, Utf8(cp))
  {
    var lead, trail := ESCAPE + Hex4Text(Lead(cp)), ESCAPE + Hex4Text(Trail(cp));
    assert UnicodeEscape(cp) == lead + trail;
    StandsThen(s, p, p + |lead|, lead, trail);
    EscapeHexReads(s, p, Lead(cp));
    EscapeHexReads(s, p + 6, Trail(cp));
    PairScans(s, p, Lead(cp), Trail(cp));
    SurrogatesJoin(cp);
  }

  /** The escape of a scalar value is read back as the value's bytes. */
  lemma {:induction false} UnicodeEscapeReads(s: Text, p: nat, cp: nat)
    requires IsScalar(cp) && cp >= 0x80 && StandsAt(s, p, UnicodeEscape(cp))
    ensures p < |s| && Peek(s, p) == '\\' && ScanEscape(s, p) == Found(p + |UnicodeEscape(cp)|, Utf8(cp))
  {
    if cp <= 0xFFFF {
      EscapeHexReads(s, p, cp);
    } else {
      PairReads(s, p, cp);
    }
  }

  /** One character, whatever its length. */
  lemma {:induction false} AsciiCharReads(s: Text, p: nat, c: Text, acc: Text, q: nat)
    requires IsChar(c) && StandsAt(s, p, AsciiChar(c)) && q == p + |AsciiChar(c)| <= |s|
    ensures ScanString(s, p, acc) == ScanString(s, q, acc + c)
  {
    if |c| == 1 {
      EscapedReads(s, p, c[0], acc, q);
      assert c == [c[0]];
    } else {
      CharIsScalar(c);
      CharIsEncoded(c);
      UnicodeEscapeReads(s, p, Value(c));
    }
  }

  /** The first character of a text, and the rest. */
  lemma {:induction false} FirstChar(str: Text) returns (c: Text, rest: Text)
    requires IsText(str) && str != []
    ensures str == c + rest && c != [] && IsChar(c) && IsText(rest) && AsciiAll(str) == AsciiChar(c) + AsciiAll(rest)
  {
    var n := Length(str[0]);
    c, rest := str[..n], str[n..];
  }

  /** A string printed in ASCII is read back byte for byte. */
  lemma {:induction false} AsciiReads(s: Text, p: nat, str: Text, acc: Text, stop: nat)
    requires IsText(str) && StandsAt(s, p, AsciiAll(str)) && stop == p + |AsciiAll(str)| && Peek(s, stop) == '"'
    ensures ScanString(s, p, acc) == Found(stop + 1, acc + str)
    decreases |str|
  {
    if str == [] {
      assert acc + [] == acc;
    } else {
      var c, rest := FirstChar(str);
      var q := p + |AsciiChar(c)|;
      AsciiStep(s, p, c, rest, acc, q);
      AsciiReads(s, q, rest, acc + c, stop);
      Concat3(acc, c, rest);
    }
  }

  lemma {:induction false} AsciiStep(s: Text, p: nat, c: Text, rest: Text, acc: Text, q: nat)
    requires IsChar(c) && IsText(rest) && StandsAt(s, p, AsciiChar(c) + AsciiAll(rest)) && q == p + |AsciiChar(c)|
    ensures StandsAt(s, q, AsciiAll(rest)) && ScanString(s, p, acc) == ScanString(s, q, acc + c)
  {
    StandsThen(s, p, p + |AsciiChar(c)|, AsciiChar(c), AsciiAll(rest));
    AsciiCharReads(s, p, c, acc, q);
  }

  predicate AllAscii(t: Text) {
    forall i :: 0 <= i < |t| ==> t[i] as int < 0x80
  }

  lemma {:induction false} CharIsAscii(c: Text)
    requires IsChar(c)
    ensures AllAscii(AsciiChar(c))
  {
  }

  /** Nothing beyond ASCII is printed. */
  lemma {:induction false} AsciiIsAscii(str: Text)
    requires IsText(str)
    ensures AllAscii(AsciiAll(str))
    decreases |str|
  {
    if str != [] {
      var n := Length(str[0]);
      CharIsAscii(str[..n]);
      AsciiIsAscii(str[n..]);
    }
  }

  /** Four digits of a value, most significant first. */
  method PutHex(out: Text, v: nat) returns (r: Text)
    requires v < 0x1_0000
    ensures r == out + (ESCAPE + Hex4Text(v))
  {
    r := out + ['\\', 'u'];
    r := r + [HexDigit(v / 4096), HexDigit(v / 256 % 16), HexDigit(v / 16 % 16), HexDigit(v % 16)];
  }

  /** One character beyond ASCII. */
  method PutUnicode(out: Text, cp: nat) returns (r: Text)
    requires IsScalar(cp)
    ensures r == out + UnicodeEscape(cp)
  {
    if cp <= 0xD7FF || 0xE000 <= cp <= 0xFFFF {
      r := PutHex(out, cp);
    } else {
      assert 0x1_0000 <= cp <= 0x10FFFF;
      var v := cp - 0x1_0000;
      r := PutHex(out, v / 1024 + 0xD800);
      r := PutHex(r, v % 1024 + 0xDC00);
    }
  }

  /** One character of the string, if there is one. */
  method PutNext(stream: ByteStream, out: Text) returns (ok: bool, r: Text)
    requires stream.pos < |stream.text|
    modifies stream
    ensures stream.TookChar(ok)
    ensures ok ==> r == out + AsciiChar(stream.text[old(stream.pos)..stream.pos])
  {
    ghost var p := stream.pos;
    var c := stream.text[stream.pos];
    if c as int >= 0x80 {
      var cp;
      ok, cp := stream.Decode();
      r := out;
      if ok {
        CharIsScalar(stream.text[p..stream.pos]);
        r := PutUnicode(out, cp);
      }
    } else {
      AsciiIsChar(stream.text, p);
      var taken := stream.Take();
      ok, r := true, out + Escaped(c);
    }
  }

  /** What is still to be printed, after `out`. */
  ghost predicate Prints(str: Text, p: nat, out: Text)
    requires p <= |str|
  {
    && (IsText(str) <==> IsText(str[p..]))
    && (IsText(str) ==> out + AsciiAll(str[p..]) == ['"'] + AsciiAll(str))
  }

  lemma {:induction false} PrintsMore(str: Text, p: nat, q: nat, before: Text, out: Text)
    requires p < q <= |str| && q == p + Length(str[p]) && Prints(str, p, before)
    requires IsChar(str[p..q]) && out == before + AsciiChar(str[p..q])
    ensures Prints(str, q, out)
  {
    var rest, c, more := str[p..], str[p..q], str[q..];
    RestApart(str, p, q);
    if IsText(rest) {
      Concat3(before, AsciiChar(c), AsciiAll(more));
    }
  }

  /** The rest of a text, and the rest after its first character. */
  lemma {:induction false} RestApart(str: Text, p: nat, q: nat)
    requires p < q <= |str| && q == p + Length(str[p]) && IsChar(str[p..q])
    ensures IsText(str[p..]) <==> IsText(str[q..])
    ensures IsText(str[p..]) ==> AsciiAll(str[p..]) == AsciiChar(str[p..q]) + AsciiAll(str[q..])
  {
    var rest := str[p..];
    assert rest[..q - p] == str[p..q] && rest[q - p..] == str[q..];
  }

  lemma {:induction false} NotPrinted(str: Text, p: nat, out: Text)
    requires p < |str| && Prints(str, p, out)
    requires var n := Length(str[p]); !(0 < n && p + n <= |str| && IsChar(str[p..p + n]))
    ensures !IsText(str)
  {
    TextFrom(str, p);
  }

  /** The string up to its closing quote. */
  method WriteBody(str: Text) returns (ok: bool, out: Text)
    ensures ok <==> IsText(str)
    ensures ok ==> out == ['"'] + AsciiAll(str)
  {
    out, ok := ['"'], true;
    var stream := new ByteStream(str);
    assert str[0..] == str;
    while stream.pos < |str|
      invariant stream.text == str && stream.pos <= |str| && Prints(str, stream.pos, out)
      decreases |str| - stream.pos
    {
      ghost var p, before := stream.pos, out;
      ok, out := PutNext(stream, out);
      if !ok {
        NotPrinted(str, p, before);
        return;
      }
      PrintsMore(str, p, stream.pos, before, out);
    }
    assert out + [] == out && str[|str|..] == [];
  }

  /**
   * The string writer with an ASCII target. It succeeds exactly on strings of whole characters; what it prints is in
   * ASCII, and between quotes the reader takes it back to the same bytes.
   */
  method WriteString(str: Text) returns (ok: bool, out: Text)
    ensures ok <==> IsText(str)
    ensures ok ==> out == ['"'] + AsciiAll(str) + ['"'] && AllAscii(out)
    ensures ok ==> ScanString(out, 1, []) == Found(|out|, str)
  {
    ok, out := WriteBody(str);
    if ok {
      out := out + ['"'];
      AsciiIsAscii(str);
      Stands(out, AsciiAll(str));
      AsciiReads(out, 1, str, [], |out| - 1);
      assert [] + str == str;
    }
  }

  lemma {:induction false} Stands(out: Text, w: Text)
    requires out == ['"'] + w + ['"']
    ensures StandsAt(out, 1, w) && Peek(out, |out| - 1) == '"' && |out| == |w| + 2
  {
    assert out[1..1 + |w|] == w;
  }
}
