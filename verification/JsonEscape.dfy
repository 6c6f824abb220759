/** How bytes of a string are escaped, and read back. */
module JsonEscape {
  import opened Bytes
  import opened JsonLexer

  function HexDigit(v: nat): Byte
    requires v < 16
  {
    if v < 10 then ByteOf('0' as int + v) else ByteOf('A' as int + v - 10)
  }

  lemma {:induction false} HexDigitReads(v: nat)
    requires v < 16
    ensures HexValue(HexDigit(v)) == Some(v)
  {
  }

  /** One byte of a string: an escape, or the byte itself. */
  function Escaped(c: Byte): (r: Text)
    ensures |r| >= 1
  {
    if c == '"' then "\\\""
    else if c == '\\' then "\\\\"
    else if c == 8 as char then "\\b"
    else if c == 12 as char then "\\f"
    else if c == '\n' then "\\n"
    else if c == '\r' then "\\r"
    else if c == '\t' then "\\t"
    else if c as int < 0x20 then ['\\', 'u', '0', '0', HexDigit(c as int / 16), HexDigit(c as int % 16)]
    else [c]
  }

  function EscapedAll(str: Text): Text {
    if str == [] then [] else Escaped(str[0]) + EscapedAll(str[1..])
  }

  /** One printed byte of a string is read back as that byte. */
  lemma {:induction false} EscapedReads(s: Text, p: nat, c: Byte, acc: Text, q: nat)
    requires StandsAt(s, p, Escaped(c)) && q == p + |Escaped(c)|
    ensures ScanString(s, p, acc) == ScanString(s, q, acc + [c])
  {
    StandsByte(s, p, Escaped(c), 0);
    if Escaped(c)[0] == '\\' {
      StandsByte(s, p, Escaped(c), 1);
      if Escaped(c)[1] == 'u' {
        ControlReads(s, p, c);
      }
      assert ScanEscape(s, p) == Found(q, [c]);
    }
  }

  lemma {:induction false} ControlReads(s: Text, p: nat, c: Byte)
    requires StandsAt(s, p, Escaped(c)) && |Escaped(c)| == 6
    ensures ScanEscape(s, p) == Found(p + 6, [c])
  {
    var e := Escaped(c);
    StandsByte(s, p, e, 0);
    StandsByte(s, p, e, 1);
    StandsByte(s, p, e, 2);
    StandsByte(s, p, e, 3);
    StandsByte(s, p, e, 4);
    StandsByte(s, p, e, 5);
    HexDigitReads(c as int / 16);
    HexDigitReads(c as int % 16);
    assert HexPrefix(s, p + 2, 0) == Some(0);
    assert HexPrefix(s, p + 2, 1) == Some(0);
    assert HexPrefix(s, p + 2, 2) == Some(0);
    assert HexPrefix(s, p + 2, 3) == Some(c as int / 16);
    assert HexPrefix(s, p + 2, 4) == Some(c as int);
    assert Utf8(c as int) == [c];
  }

  lemma {:induction false} StringReads(s: Text, p: nat, str: Text, acc: Text, stop: nat)
    requires StandsAt(s, p, EscapedAll(str)) && stop == p + |EscapedAll(str)| && Peek(s, stop) == '"'
    ensures ScanString(s, p, acc) == Found(stop + 1, acc + str)
    decreases |str|
  {
    if str == [] {
      assert acc + [] == acc;
    } else {
      var first, rest := Escaped(str[0]), EscapedAll(str[1..]);
      var q := p + |first|;
      StandsThen(s, p, q, first, rest);
      EscapedReads(s, p, str[0], acc, q);
      StringReads(s, q, str[1..], acc + [str[0]], stop);
      FirstByte(acc, str);
    }
  }

  lemma {:induction false} FirstByte(acc: Text, str: Text)
    requires str != []
    ensures acc + [str[0]] + str[1..] == acc + str
  {
  }
}
