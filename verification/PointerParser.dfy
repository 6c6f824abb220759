/** The pointer object: its parser with a name buffer and two cursors, and its printer. */
module PointerParser {
  import opened Bytes
  import opened JsonLexer
  import opened JsonEscape
  import opened Utf8Codec
  import opened PointerText

  const INVALID_INDEX := 0xFFFF_FFFF
  const TWO_TO_32 := 0x1_0000_0000

  // ---------------------------------------------------------------- array indices

  /** Names that may be array indices: digits without a leading zero. */
  predicate IsNumeric(n: Text) {
    n != [] && AllDigits(n) && (|n| > 1 ==> n[0] != '0')
  }

  /** The 32-bit value of some digits, and whether the overflow test let them pass. */
  function Wrapped(d: Text): (r: (bool, nat))
    requires AllDigits(d)
    ensures r.1 < TWO_TO_32
  {
    if d == [] then (true, 0)
    else
      var before := Wrapped(d[..|d| - 1]);
      var m := (before.1 * 10 + DigitValue(d[|d| - 1])) % TWO_TO_32;
      if !before.0 || m < before.1 then (false, before.1) else (true, m)
  }

  /** The index of a token. */
  function IndexOf(n: Text): nat {
    if IsNumeric(n) && Wrapped(n).0 then Wrapped(n).1 else INVALID_INDEX
  }

  lemma {:induction false} WrappedExact(d: Text)
    requires AllDigits(d) && DecimalValue(d) < TWO_TO_32
    ensures Wrapped(d) == (true, DecimalValue(d))
    decreases |d|
  {
    if d != [] {
      assert DecimalValue(d) == 10 * DecimalValue(d[..|d| - 1]) + DigitValue(d[|d| - 1]);
      WrappedExact(d[..|d| - 1]);
    }
  }

  /** The index of a number is that number exactly when the number has 32 bits. */
  lemma {:induction false} IndexExact(n: Text)
    requires IsNumeric(n)
    ensures IndexOf(n) == DecimalValue(n) <==> DecimalValue(n) < TWO_TO_32
  {
    if DecimalValue(n) < TWO_TO_32 {
      WrappedExact(n);
    }
  }

  /** The overflow test lets a number pass when no prefix of it, reduced to 32 bits, is smaller than the one before. */
  predicate Passes(d: Text)
    requires AllDigits(d)
  {
    forall k :: 0 <= k < |d| ==> Reduced(d[..k]) <= Reduced(d[..k + 1])
  }

  function Reduced(d: Text): nat
    requires AllDigits(d)
  {
    DecimalValue(d) % TWO_TO_32
  }

  lemma {:induction false} ReducedStep(v: nat, digit: nat)
    ensures (v % TWO_TO_32 * 10 + digit) % TWO_TO_32 == (10 * v + digit) % TWO_TO_32
  {
    var q := v / TWO_TO_32;
    assert 10 * v + digit == TWO_TO_32 * (10 * q) + (v % TWO_TO_32 * 10 + digit);
  }

  lemma {:induction false} WrappedReduces(d: Text)
    requires AllDigits(d)
    ensures Wrapped(d).0 <==> Passes(d)
    ensures Wrapped(d).0 ==> Wrapped(d).1 == Reduced(d)
    decreases |d|
  {
    if d != [] {
      var front, n := d[..|d| - 1], |d| - 1;
      WrappedReduces(front);
      ReducedStep(DecimalValue(front), DigitValue(d[n]));
      assert d[..n + 1] == d;
      assert forall k :: 0 <= k <= n ==> front[..k] == d[..k];
    }
  }

  /**
   * The index of any number: its value reduced to 32 bits where the overflow test lets it pass, and the invalid index where
   * some step of the accumulation decreases. Among the numbers beyond 32 bits, those that pass get a wrong index.
   */
  lemma {:induction false} IndexReduced(n: Text)
    requires IsNumeric(n)
    ensures IndexOf(n) == if Passes(n) then Reduced(n) else INVALID_INDEX
  {
    WrappedReduces(n);
  }

  /** The digit one and `k` zeros. */
  function OneAndZeros(k: nat): Text {
    if k == 0 then ['1'] else OneAndZeros(k - 1) + ['0']
  }

  function TenToThe(k: nat): nat {
    if k == 0 then 1 else 10 * TenToThe(k - 1)
  }

  lemma {:induction false} OneAndZerosValue(k: nat)
    ensures IsNumeric(OneAndZeros(k)) && OneAndZeros(k)[0] == '1' && DecimalValue(OneAndZeros(k)) == TenToThe(k)
  {
    var n := OneAndZeros(k);
    if k == 0 {
      assert n[..0] == [];
      assert DecimalValue([]) == 0;
    } else {
      OneAndZerosValue(k - 1);
      assert n[..|n| - 1] == OneAndZeros(k - 1);
    }
  }

  /** Beyond 32 bits the overflow test misses some wraps: ten thousand million gets an index that is neither its value nor invalid. */
  lemma {:induction false} WrapMissed()
    ensures DecimalValue(OneAndZeros(10)) == 10_000_000_000
    ensures IndexOf(OneAndZeros(10)) == 1_410_065_408
  {
    var n := OneAndZeros(10);
    OneAndZerosValue(9);
    OneAndZerosValue(10);
    assert TenToThe(3) == 1000 && TenToThe(6) == 1_000_000 && TenToThe(9) == 1_000_000_000;
    WrappedExact(OneAndZeros(9));
    assert n[..|n| - 1] == OneAndZeros(9);
  }

  // ---------------------------------------------------------------- the object

  /** A token: its name's place in the name buffer, and its index. */
  datatype Token = Token(start: nat, length: nat, index: nat)

  ghost predicate TokenHolds(t: Token, buffer: Text, name: Text) {
    t.start + t.length <= |buffer| && buffer[t.start..t.start + t.length] == name && t.index == IndexOf(name)
  }

  ghost predicate AllHold(tokens: seq<Token>, buffer: Text, names: seq<Text>) {
    |tokens| == |names| && forall k :: 0 <= k < |tokens| ==> TokenHolds(tokens[k], buffer, names[k])
  }

  /** Writing on behind the names leaves them. */
  lemma {:induction false} StillHold(tokens: seq<Token>, buffer: Text, names: seq<Text>, more: Text)
    requires AllHold(tokens, buffer, names)
    ensures AllHold(tokens, buffer + more, names)
  {
    forall k | 0 <= k < |tokens| ensures TokenHolds(tokens[k], buffer + more, names[k]) {
      var t := tokens[k];
      assert TokenHolds(t, buffer, names[k]);
      assert (buffer + more)[t.start..t.start + t.length] == buffer[t.start..t.start + t.length];
    }
  }

  class Pointer {
    var nameBuffer: array<Byte>
    var tokens: seq<Token>
    var errorCode: Option<PointerError>
    var errorOffset: nat

    constructor ()
      ensures tokens == [] && errorCode == None && fresh(nameBuffer)
    {
      nameBuffer, tokens, errorCode, errorOffset := new Byte[0], [], None, 0;
    }

    /** The tokens' names lie in the name buffer, before the write cursor, and their indices are those of the names. */
    ghost predicate Holds(written: nat, names: seq<Text>)
      reads this, nameBuffer
    {
      written <= nameBuffer.Length && AllHold(tokens, nameBuffer[..written], names)
    }

    /** Writes some bytes of a name at the write cursor. */
    method PutName(c: Text, w: nat)
      requires w + |c| <= nameBuffer.Length
      modifies nameBuffer
      ensures nameBuffer[..w] == old(nameBuffer[..w]) && nameBuffer[..w + |c|] == old(nameBuffer[..w]) + c
    {
      for i := 0 to |c|
        invariant nameBuffer[..w] == old(nameBuffer[..w])
        invariant nameBuffer[w..w + i] == c[..i]
      {
        nameBuffer[w + i] := c[i];
        assert c[..i + 1] == c[..i] + [c[i]];
      }
      assert c[..|c|] == c;
      assert nameBuffer[..w + |c|] == nameBuffer[..w] + nameBuffer[w..w + |c|];
    }

    /** After a byte: a tilde begins an escape. */
    method Unescape(s: Text, p: nat, c: Byte) returns (error: Option<PointerError>, next: nat, b: Byte)
      requires p <= |s|
      ensures error.Some? ==> error == Some(InvalidEscape) && next == p
      ensures error.None? ==> p <= next <= |s|
      ensures forall uri, acc :: AfterByte(s, p, uri, acc, c) ==
                if error.Some? then BadName(InvalidEscape, p) else ScanName(s, next, uri, acc + [b])
    {
      if c != '~' {
        return None, p, c;
      }
      if p < |s| && s[p] == '0' {
        return None, p + 1, '~';
      }
      if p < |s| && s[p] == '1' {
        return None, p + 1, '/';
      }
      return Some(InvalidEscape), p, c;
    }

    /** One byte, or one character in triplets, of a name: what it adds, or the error it is. */
    method NextOfName(s: Text, p: nat, uri: bool) returns (error: Option<PointerError>, next: nat, more: Text)
      requires p < |s| && s[p] != '/'
      ensures error.Some? ==> forall acc :: ScanName(s, p, uri, acc) == BadName(error.value, next)
      ensures error.None? ==> p + |more| <= next <= |s| && more != [] && forall acc :: ScanName(s, p, uri, acc) == ScanName(s, next, uri, acc + more)
    {
      var c, q := s[p], p + 1;
      if uri {
        if c == '%' {
          var decoded := PercentDecode(s, p);
          if decoded.None? {
            return Some(InvalidPercentEncoding), p, [];
          }
          if |decoded.value| > 1 {
            return None, p + 3 * |decoded.value|, decoded.value;
          }
          c, q := decoded.value[0], p + 3;
        } else if NeedPercentEncode(c) {
          return Some(CharacterMustPercentEncode), p, [];
        }
      }
      var b;
      error, next, b := Unescape(s, q, c);
      more := [b];
    }

    /** A name, into the name buffer; the write cursor stays behind the read cursor. */
    method ParseName(s: Text, p: nat, uri: bool, w: nat) returns (error: Option<PointerError>, next: nat, end: nat)
      requires p <= |s| && w < p && nameBuffer.Length == |s|
      modifies nameBuffer
      ensures nameBuffer[..w] == old(nameBuffer[..w])
      ensures match ScanName(s, p, uri, [])
              case BadName(code, offset) => error == Some(code) && next == offset
              case Name(stop, name) =>
                error.None? && next == stop && w <= end < next && nameBuffer[..end] == old(nameBuffer[..w]) + name
    {
      ghost var before, name: Text := nameBuffer[..w], [];
      error, next, end := None, p, w;
      assert before + [] == before;
      while next < |s| && s[next] != '/'
        invariant p <= next <= |s| && w <= end < next && error.None?
        invariant nameBuffer[..end] == before + name
        invariant ScanName(s, p, uri, []) == ScanName(s, next, uri, name)
        decreases |s| - next
      {
        var more;
        ghost var here := next;
        error, next, more := NextOfName(s, next, uri);
        if error.Some? {
          return;
        }
        PutName(more, end);
        end := end + |more|;
        Concat3(before, name, more);
        name := name + more;
      }
    }

    /** The token for a name that has just been written, and the terminator behind it. */
    method AddToken(w: nat, end: nat, ghost names: seq<Text>, name: Text)
      requires w <= end < nameBuffer.Length && Holds(w, names) && nameBuffer[..end] == nameBuffer[..w] + name
      modifies this`tokens, nameBuffer
      ensures Holds(end + 1, names + [name])
    {
      var index := ParseIndex(name);
      ghost var front, now := nameBuffer[..w], nameBuffer[..w] + name + [NUL];
      nameBuffer[end] := NUL;
      assert nameBuffer[..end + 1] == nameBuffer[..end] + [NUL] == now;
      Concat3(front, name, [NUL]);
      StillHold(tokens, front, names, name + [NUL]);
      tokens := tokens + [Token(w, |name|, index)];
      assert now[w..w + |name|] == name;
      assert TokenHolds(Token(w, |name|, index), now, name);
    }

    /** One token: its name, its terminator and its index. */
    method ParseToken(s: Text, i: nat, uri: bool, w: nat, ghost names: seq<Text>)
      returns (error: Option<PointerError>, next: nat, end: nat, ghost after: seq<Text>)
      requires w <= i < |s| && s[i] == '/' && nameBuffer.Length == |s| && Holds(w, names)
      modifies this`tokens, nameBuffer
      ensures if error.Some? then ScanTokens(s, i, uri, names) == Failure(error.value, next)
              else
                && end <= next <= |s| && i < next && (next < |s| ==> s[next] == '/')
                && Holds(end, after) && ScanTokens(s, i, uri, names) == ScanTokens(s, next, uri, after)
    {
      after := names;
      error, next, end := ParseName(s, i + 1, uri, w);
      if error.None? {
        ghost var name := ScanName(s, i + 1, uri, []).name;
        assert nameBuffer[w..end] == name;
        AddToken(w, end, names, nameBuffer[w..end]);
        after := names + [name];
        end := end + 1;
      }
    }

    /** Ends a parse in error: nothing is kept. */
    method Fail(code: PointerError, offset: nat)
      modifies this
      ensures tokens == [] && errorCode == Some(code) && errorOffset == offset
    {
      nameBuffer, tokens, errorCode, errorOffset := new Byte[0], [], Some(code), offset;
    }

    /**
     * Parses a pointer in either form. The names in the buffer are those of the text, in order, with their indices;
     * or the error is the text's first, at its place.
     */
    method Parse(s: Text)
      requires tokens == []
      modifies this
      ensures match PointerText.Parse(s)
              case Tokens(names) => errorCode == None && Holds(nameBuffer.Length, names)
              case Failure(code, offset) => tokens == [] && errorCode == Some(code) && errorOffset == offset
    {
      nameBuffer := new Byte[|s|];
      var uri := Peek(s, 0) == '#';
      var i: nat := if uri then 1 else 0;
      if i != |s| && Peek(s, i) != '/' {
        Fail(TokenMustBeginWithSolidus, i);
        return;
      }
      var w: nat := 0;
      ghost var names: seq<Text> := [];
      while i < |s|
        invariant w <= i <= |s| && (i < |s| ==> s[i] == '/')
        invariant nameBuffer.Length == |s| && fresh(nameBuffer) && Holds(w, names)
        invariant PointerText.Parse(s) == ScanTokens(s, i, uri, names)
        decreases |s| - i
      {
        var error, next, end;
        error, next, end, names := ParseToken(s, i, uri, w, names);
        if error.Some? {
          Fail(error.value, next);
          return;
        }
        i, w := next, end;
      }
      errorCode := None;
      StillHold(tokens, nameBuffer[..w], names, nameBuffer[w..]);
      assert nameBuffer[..nameBuffer.Length] == nameBuffer[..w] + nameBuffer[w..];
    }
  }

  /** The index a name stands for, digit by digit in 32 bits. */
  method ParseIndex(n: Text) returns (index: nat)
    ensures index == IndexOf(n)
  {
    if !IsNumeric(n) {
      return INVALID_INDEX;
    }
    var value: nat := 0;
    assert n[..0] == [];
    for j := 0 to |n|
      invariant AllDigits(n[..j]) && Wrapped(n[..j]) == (true, value)
    {
      assert n[..j + 1][..j] == n[..j];
      var m := (value * 10 + DigitValue(n[j])) % TWO_TO_32;
      if m < value {
        NotWrapped(n, j + 1);
        return INVALID_INDEX;
      }
      value := m;
    }
    assert n[..|n|] == n;
    return value;
  }

  /** An overflow once detected stays. */
  lemma {:induction false} NotWrapped(n: Text, j: nat)
    requires j <= |n| && AllDigits(n) && !Wrapped(n[..j]).0
    ensures !Wrapped(n).0
    decreases |n| - j
  {
    if j == |n| {
      assert n[..j] == n;
    } else {
      assert n[..j + 1][..j] == n[..j];
      NotWrapped(n, j + 1);
    }
  }

  /** Reads ahead up to four triplets. */
  method ReadTriplets(s: Text, p: nat) returns (bytes: Text)
    ensures bytes == Triplets(s, p, 4)
  {
    bytes := [];
    var q, n := p, 4;
    while n > 0 && Triplet(s, q).Some?
      invariant n <= 4 && bytes + Triplets(s, q, n) == Triplets(s, p, 4)
    {
      Concat3(bytes, [Triplet(s, q).value], Triplets(s, q + 3, n - 1));
      bytes := bytes + [Triplet(s, q).value];
      q, n := q + 3, n - 1;
    }
  }

  /** A character in triplets, validated. */
  method PercentDecode(s: Text, p: nat) returns (c: Option<Text>)
    ensures c == PercentChar(s, p)
  {
    var bytes := ReadTriplets(s, p);
    if bytes == [] {
      return None;
    }
    var stream := new ByteStream(bytes);
    var ok, copy := stream.Validate([]);
    if !ok {
      return None;
    }
    assert [] + bytes[0..stream.pos] == bytes[..stream.pos];
    return Some(copy);
  }

  // ---------------------------------------------------------------- printing

  /** Some bytes in triplets. */
  method PutPercent(c: Text, out: Text) returns (r: Text)
    ensures r == out + PercentAll(c)
  {
    r := out;
    assert c[0..] == c;
    for i := 0 to |c|
      invariant r + PercentAll(c[i..]) == out + PercentAll(c)
    {
      assert c[i..][0] == c[i] && c[i..][1..] == c[i + 1..];
      Concat3(r, PercentByte(c[i]), PercentAll(c[i + 1..]));
      var triplet := ['%', HexDigit(c[i] as int / 16), HexDigit(c[i] as int % 16)];
      r := r + triplet;
    }
    assert r + [] == r;
  }

  /** One character that a URI fragment must escape, in triplets; none when the name is no text there. */
  method PercentEncode(n: Text, j: nat, out: Text) returns (ok: bool, next: nat, r: Text)
    requires j < |n|
    ensures ok <==> 0 < Length(n[j]) && j + Length(n[j]) <= |n| && IsChar(n[j..j + Length(n[j])])
    ensures ok ==> next == j + Length(n[j]) && r == out + PercentAll(n[j..next])
  {
    var stream := new ByteStream(n);
    stream.pos := j;
    var c;
    ok, c := stream.Validate([]);
    next, r := stream.pos, out;
    if ok {
      assert c == n[j..next];
      r := PutPercent(c, out);
    }
  }

  /** What is left to print of a name, after `out`. */
  ghost predicate NameLeft(n: Text, j: nat, uri: bool, start: Text, out: Text)
    requires j <= |n|
  {
    if NameText(n, uri).Some? then
      NameText(n[j..], uri).Some? && out + NameText(n[j..], uri).value == start + NameText(n, uri).value
    else NameText(n[j..], uri) == None
  }

  lemma {:induction false} NameLeftByte(n: Text, j: nat, uri: bool, start: Text, out: Text, w: Text)
    requires j < |n| && NameLeft(n, j, uri, start, out) && (n[j] == '~' || n[j] == '/' || !(uri && NeedPercentEncode(n[j])))
    requires w == if n[j] == '~' then "~0" else if n[j] == '/' then "~1" else [n[j]]
    ensures NameLeft(n, j + 1, uri, start, out + w)
  {
    var rest := n[j..];
    assert rest[0] == n[j] && rest[1..] == n[j + 1..];
    if NameText(rest, uri).Some? {
      Concat3(out, w, NameText(n[j + 1..], uri).value);
    }
  }

  lemma {:induction false} NameLeftChar(n: Text, j: nat, k: nat, start: Text, out: Text)
    requires j < |n| && NameLeft(n, j, true, start, out) && n[j] != '~' && n[j] != '/' && NeedPercentEncode(n[j])
    requires 0 < Length(n[j]) && k == j + Length(n[j]) <= |n| && IsChar(n[j..k])
    ensures NameLeft(n, k, true, start, out + PercentAll(n[j..k]))
  {
    var rest := n[j..];
    assert rest[0] == n[j] && rest[..k - j] == n[j..k] && rest[k - j..] == n[k..];
    if NameText(rest, true).Some? {
      Concat3(out, PercentAll(n[j..k]), NameText(n[k..], true).value);
    }
  }

  lemma {:induction false} NoNameText(n: Text, j: nat, start: Text, out: Text)
    requires j < |n| && NameLeft(n, j, true, start, out) && n[j] != '~' && n[j] != '/' && NeedPercentEncode(n[j])
    requires var k := Length(n[j]); !(0 < k && j + k <= |n| && IsChar(n[j..j + k]))
    ensures NameText(n, true) == None
  {
    var rest, k := n[j..], Length(n[j]);
    assert rest[0] == n[j];
    if j + k <= |n| {
      assert rest[..k] == n[j..j + k];
    }
  }

  /** A name, escaped. */
  method PrintName(n: Text, uri: bool, start: Text) returns (ok: bool, out: Text)
    ensures ok <==> NameText(n, uri).Some?
    ensures ok ==> out == start + NameText(n, uri).value
  {
    out := start;
    var j := 0;
    assert n[0..] == n;
    while j < |n|
      invariant j <= |n| && NameLeft(n, j, uri, start, out)
      decreases |n| - j
    {
      var c := n[j];
      if c == '~' || c == '/' || !(uri && NeedPercentEncode(c)) {
        var w := if c == '~' then "~0" else if c == '/' then "~1" else [c];
        NameLeftByte(n, j, uri, start, out, w);
        out, j := out + w, j + 1;
      } else {
        ghost var before := out;
        var next;
        ok, next, out := PercentEncode(n, j, out);
        if !ok {
          NoNameText(n, j, start, before);
          return;
        }
        NameLeftChar(n, j, next, start, before);
        j := next;
      }
    }
    assert n[|n|..] == [] && out + [] == out;
    ok := true;
  }

  /** The text of some tokens, in either form; it fails exactly when a URI fragment would need a name that is no text. */
  method PrintNames(names: seq<Text>, uri: bool) returns (ok: bool, out: Text)
    ensures ok <==> Stringify(names, uri).Some?
    ensures ok ==> out == Stringify(names, uri).value
  {
    out := if uri then ['#'] else [];
    ghost var start := out;
    assert names[0..] == names;
    for i := 0 to |names|
      invariant NamesText(names, uri).Some? <==> NamesText(names[i..], uri).Some?
      invariant NamesText(names, uri).Some? ==> out + NamesText(names[i..], uri).value == start + NamesText(names, uri).value
    {
      ghost var rest := names[i..];
      assert rest[0] == names[i] && rest[1..] == names[i + 1..];
      ghost var before := out;
      ok, out := PrintName(names[i], uri, out + ['/']);
      if !ok {
        return;
      }
      if NamesText(rest, uri).Some? {
        Concat4(before, ['/'], NameText(names[i], uri).value, NamesText(names[i + 1..], uri).value);
      }
    }
    assert names[|names|..] == [] && out + [] == out;
    ok := true;
  }
}
