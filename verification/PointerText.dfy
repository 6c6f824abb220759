/** The two texts of a JSON pointer, the string form and the URI fragment form, and their reading and printing. */
module PointerText {
  import opened Bytes
  import opened JsonLexer
  import opened JsonEscape
  import opened Utf8Codec

  datatype PointerError = TokenMustBeginWithSolidus | InvalidEscape | InvalidPercentEncoding | CharacterMustPercentEncode

  /** A parsed pointer: the names of its tokens, or the first error and where it is. */
  datatype Parsed = Tokens(names: seq<Text>) | Failure(code: PointerError, offset: nat)

  /** Bytes that a URI fragment must escape: all but the unreserved characters of section 2.3 of RFC 3986. */
  predicate NeedPercentEncode(c: Byte) {
    !(IsDigit(c) || 'A' <= c <= 'Z' || 'a' <= c <= 'z' || c == '-' || c == '.' || c == '_' || c == '~')
  }

  // ---------------------------------------------------------------- reading

  /** The byte a `%XY` triplet at `p` stands for. */
  function Triplet(s: Text, p: nat): Option<Byte> {
    if p + 3 <= |s| && s[p] == '%' && HexValue(s[p + 1]).Some? && HexValue(s[p + 2]).Some? then
      Some(ByteOf(HexValue(s[p + 1]).value * 16 + HexValue(s[p + 2]).value))
    else None
  }

  /** Up to `n` triplets in a row. */
  function Triplets(s: Text, p: nat, n: nat): (r: Text)
    ensures |r| <= n && p + 3 * |r| <= |s| + (if |r| == 0 then p else 0)
    decreases n
  {
    if n == 0 || Triplet(s, p).None? then [] else [Triplet(s, p).value] + Triplets(s, p + 3, n - 1)
  }

  /** One character written in triplets at `p`. */
  function PercentChar(s: Text, p: nat): (r: Option<Text>)
    ensures r.Some? ==> 1 <= |r.value| <= 4 && p + 3 * |r.value| <= |s|
  {
    var bytes := Triplets(s, p, 4);
    if bytes == [] then None
    else
      var n := Length(bytes[0]);
      if 0 < n <= |bytes| && IsChar(bytes[..n]) then Some(bytes[..n]) else None
  }

  /** A name up to the next solidus or the end, after `acc` of it has been read. */
  datatype NameScan = Name(end: nat, name: Text) | BadName(code: PointerError, offset: nat)

  function ScanName(s: Text, p: nat, uri: bool, acc: Text): (r: NameScan)
    requires p <= |s|
    ensures r.Name? ==> p <= r.end <= |s| && (r.end < |s| ==> s[r.end] == '/')
    decreases |s| - p, 1
  {
    if p == |s| || s[p] == '/' then Name(p, acc)
    else if uri && s[p] == '%' then
      var c := PercentChar(s, p);
      if c.None? then BadName(InvalidPercentEncoding, p)
      else if |c.value| > 1 then ScanName(s, p + 3 * |c.value|, uri, acc + c.value)
      else AfterByte(s, p + 3, uri, acc, c.value[0])
    else if uri && NeedPercentEncode(s[p]) then BadName(CharacterMustPercentEncode, p)
    else AfterByte(s, p + 1, uri, acc, s[p])
  }

  /** After a byte `c` that ends before `p`: a tilde begins an escape. */
  function AfterByte(s: Text, p: nat, uri: bool, acc: Text, c: Byte): (r: NameScan)
    requires p <= |s|
    ensures r.Name? ==> p <= r.end <= |s| && (r.end < |s| ==> s[r.end] == '/')
    decreases |s| - p, 2
  {
    if c != '~' then ScanName(s, p, uri, acc + [c])
    else if p < |s| && s[p] == '0' then ScanName(s, p + 1, uri, acc + ['~'])
    else if p < |s| && s[p] == '1' then ScanName(s, p + 1, uri, acc + ['/'])
    else BadName(InvalidEscape, p)
  }

  /** The tokens from a solidus, or the end, on. */
  function ScanTokens(s: Text, p: nat, uri: bool, names: seq<Text>): Parsed
    requires p <= |s| && (p < |s| ==> s[p] == '/')
    decreases |s| - p
  {
    if p == |s| then Tokens(names)
    else
      var n := ScanName(s, p + 1, uri, []);
      if n.BadName? then Failure(n.code, n.offset) else ScanTokens(s, n.end, uri, names + [n.name])
  }

  /** A pointer in either form: a leading `#` tells a URI fragment. */
  function Parse(s: Text): Parsed {
    var uri := Peek(s, 0) == '#';
    var p := if uri then 1 else 0;
    if p != |s| && Peek(s, p) != '/' then Failure(TokenMustBeginWithSolidus, p) else ScanTokens(s, p, uri, [])
  }

  // ---------------------------------------------------------------- printing

  function PercentByte(c: Byte): Text {
    ['%', HexDigit(c as int / 16), HexDigit(c as int % 16)]
  }

  function PercentAll(c: Text): (r: Text)
    ensures |r| == 3 * |c|
  {
    if c == [] then [] else PercentByte(c[0]) + PercentAll(c[1..])
  }

  /** A name with its tildes and solidi escaped, and in a URI fragment its other characters; none when it is no text. */
  function NameText(n: Text, uri: bool): Option<Text>
    decreases |n|
  {
    if n == [] then Some([])
    else if n[0] == '~' || n[0] == '/' || !(uri && NeedPercentEncode(n[0])) then
      var rest := NameText(n[1..], uri);
      var c := if n[0] == '~' then "~0" else if n[0] == '/' then "~1" else [n[0]];
      if rest.None? then None else Some(c + rest.value)
    else
      var k := Length(n[0]);
      if !(0 < k <= |n| && IsChar(n[..k])) then None
      else
        var rest := NameText(n[k..], uri);
        if rest.None? then None else Some(PercentAll(n[..k]) + rest.value)
  }

  function NamesText(names: seq<Text>, uri: bool): Option<Text> {
    if names == [] then Some([])
    else
      var n, rest := NameText(names[0], uri), NamesText(names[1..], uri);
      if n.None? || rest.None? then None else Some(['/'] + n.value + rest.value)
  }

  function Stringify(names: seq<Text>, uri: bool): Option<Text> {
    var text := NamesText(names, uri);
    if text.None? then None else Some((if uri then ['#'] else []) + text.value)
  }

  // ---------------------------------------------------------------- printing, then reading

  /** `w` stands in `s` at `p`. */
  lemma {:induction false} TripletReads(s: Text, p: nat, c: Byte)
    requires StandsAt(s, p, PercentByte(c))
    ensures Triplet(s, p) == Some(c)
  {
    StandsByte(s, p, PercentByte(c), 0);
    StandsByte(s, p, PercentByte(c), 1);
    StandsByte(s, p, PercentByte(c), 2);
    HexDigitReads(c as int / 16);
    HexDigitReads(c as int % 16);
  }

  lemma {:induction false} TripletsRead(s: Text, p: nat, c: Text, n: nat)
    requires StandsAt(s, p, PercentAll(c)) && |c| <= n
    ensures c <= Triplets(s, p, n)
    decreases |c|
  {
    if c != [] {
      StandsThen(s, p, p + 3, PercentByte(c[0]), PercentAll(c[1..]));
      TripletReads(s, p, c[0]);
      TripletsRead(s, p + 3, c[1..], n - 1);
      assert c == [c[0]] + c[1..];
    }
  }

  /** A character written in triplets is read back. */
  lemma {:induction false} PercentCharReads(s: Text, p: nat, c: Text)
    requires IsChar(c) && StandsAt(s, p, PercentAll(c))
    ensures PercentChar(s, p) == Some(c)
  {
    TripletsRead(s, p, c, 4);
    var bytes := Triplets(s, p, 4);
    assert bytes[..|c|] == c && bytes[0] == c[0];
  }

  /** The first character of a printed name is read back. */
  lemma {:induction false} NameStep(s: Text, p: nat, n: Text, uri: bool, acc: Text, stop: nat) returns (c: Text, rest: Text, q: nat)
    requires n != [] && NameText(n, uri).Some? && StandsAt(s, p, NameText(n, uri).value) && stop == p + |NameText(n, uri).value|
    ensures n == c + rest && c != [] && NameText(rest, uri).Some?
    ensures StandsAt(s, q, NameText(rest, uri).value) && stop == q + |NameText(rest, uri).value|
    ensures p < q && ScanName(s, p, uri, acc) == ScanName(s, q, uri, acc + c)
  {
    if n[0] == '~' || n[0] == '/' || !(uri && NeedPercentEncode(n[0])) {
      var w := if n[0] == '~' then "~0" else if n[0] == '/' then "~1" else [n[0]];
      c, rest, q := [n[0]], n[1..], p + |w|;
      StandsThen(s, p, q, w, NameText(rest, uri).value);
      ByteReads(s, p, n[0], w, uri, acc, q);
    } else {
      var k := Length(n[0]);
      PercentText(n, k);
      c, rest, q := n[..k], n[k..], p + 3 * k;
      PercentReads(s, p, c, NameText(rest, uri).value, acc, q);
    }
  }

  lemma {:induction false} PercentText(n: Text, k: nat)
    requires n != [] && NeedPercentEncode(n[0]) && n[0] != '~' && n[0] != '/' && k == Length(n[0]) && NameText(n, true).Some?
    ensures 0 < k <= |n| && IsChar(n[..k]) && |PercentAll(n[..k])| == 3 * k && NameText(n[k..], true).Some?
    ensures NameText(n, true).value == PercentAll(n[..k]) + NameText(n[k..], true).value
  {
  }

  /** A printed name is read back, up to the solidus or the end behind it. */
  lemma {:induction false} NameReads(s: Text, p: nat, n: Text, uri: bool, acc: Text, stop: nat)
    requires NameText(n, uri).Some? && StandsAt(s, p, NameText(n, uri).value) && stop == p + |NameText(n, uri).value|
    requires stop == |s| || s[stop] == '/'
    ensures ScanName(s, p, uri, acc) == Name(stop, acc + n)
    decreases |n|
  {
    if n == [] {
      assert acc + [] == acc;
    } else {
      var c, rest, q := NameStep(s, p, n, uri, acc, stop);
      NameReads(s, q, rest, uri, acc + c, stop);
      Concat3(acc, c, rest);
    }
  }

  lemma {:induction false} ByteReads(s: Text, p: nat, b: Byte, c: Text, uri: bool, acc: Text, q: nat)
    requires StandsAt(s, p, c) && q == p + |c| && (b == '~' || b == '/' || !(uri && NeedPercentEncode(b)))
    requires c == if b == '~' then "~0" else if b == '/' then "~1" else [b]
    ensures ScanName(s, p, uri, acc) == ScanName(s, q, uri, acc + [b])
  {
    StandsByte(s, p, c, 0);
    if b == '~' || b == '/' {
      StandsByte(s, p, c, 1);
    }
  }

  /** A character in percent-encoded form, and what comes behind it. */
  lemma {:induction false} PercentReads(s: Text, p: nat, c: Text, more: Text, acc: Text, q: nat)
    requires IsChar(c) && StandsAt(s, p, PercentAll(c) + more) && q == p + 3 * |c| && |PercentAll(c)| == 3 * |c| && c[0] != '~'
    ensures StandsAt(s, q, more) && ScanName(s, p, true, acc) == ScanName(s, q, true, acc + c)
  {
    StandsThen(s, p, q, PercentAll(c), more);
    PercentCharReads(s, p, c);
    PercentFirst(s, p, c);
    if |c| == 1 {
      assert c == [c[0]];
    }
  }

  lemma {:induction false} PercentFirst(s: Text, p: nat, c: Text)
    requires c != [] && StandsAt(s, p, PercentAll(c))
    ensures s[p] == '%'
  {
    StandsByte(s, p, PercentAll(c), 0);
    assert PercentAll(c)[0] == '%';
  }

  lemma {:induction false} NamesRead(s: Text, p: nat, names: seq<Text>, uri: bool, before: seq<Text>)
    requires NamesText(names, uri).Some? && p <= |s| && s[p..] == NamesText(names, uri).value
    ensures (p < |s| ==> s[p] == '/') && ScanTokens(s, p, uri, before) == Tokens(before + names)
    decreases |names|
  {
    if names == [] {
      assert |s[p..]| == 0 && before + [] == before;
    } else {
      var n, rest := NameText(names[0], uri).value, NamesText(names[1..], uri).value;
      var q := p + 1 + |n|;
      NamesSplit(s, p, n, rest, q);
      NamesRead(s, q, names[1..], uri, before + [names[0]]);
      NameReads(s, p + 1, names[0], uri, [], q);
      assert [] + names[0] == names[0];
      assert before + [names[0]] + names[1..] == before + names;
    }
  }

  lemma {:induction false} NamesSplit(s: Text, p: nat, n: Text, rest: Text, q: nat)
    requires p <= |s| && s[p..] == ['/'] + n + rest && q == p + 1 + |n|
    ensures p < |s| && s[p] == '/' && StandsAt(s, p + 1, n) && q <= |s| && s[q..] == rest
  {
    var t := s[p..];
    assert t[0] == s[p] && t[1..1 + |n|] == n && t[1 + |n|..] == rest;
    assert s[p + 1..q] == t[1..1 + |n|] && s[q..] == t[1 + |n|..];
  }

  /** What is printed, in either form, is read back. */
  lemma {:induction false} StringifiedReads(names: seq<Text>, uri: bool)
    requires Stringify(names, uri).Some?
    ensures Parse(Stringify(names, uri).value) == Tokens(names)
  {
    var s := Stringify(names, uri).value;
    var p := if uri then 1 else 0;
    assert s[p..] == NamesText(names, uri).value;
    NamesRead(s, p, names, uri, []);
    assert [] + names == names;
    if !uri && names != [] {
      assert s[0] == '/';
    }
  }

  /** The string form exists for all names. */
  lemma {:induction false} StringFormExists(names: seq<Text>)
    ensures Stringify(names, false).Some?
  {
    NamesTextExists(names);
  }

  lemma {:induction false} NameTextExists(n: Text)
    ensures NameText(n, false).Some?
    decreases |n|
  {
    if n != [] {
      NameTextExists(n[1..]);
    }
  }

  lemma {:induction false} NamesTextExists(names: seq<Text>)
    ensures NamesText(names, false).Some?
    decreases |names|
  {
    if names != [] {
      NameTextExists(names[0]);
      NamesTextExists(names[1..]);
    }
  }

  /** The URI fragment form exists exactly for names that are texts of whole characters. */
  lemma {:induction false} FragmentExists(n: Text)
    ensures NameText(n, true).Some? <==> IsText(n)
    decreases |n|
  {
    if n != [] {
      var k := Length(n[0]);
      if n[0] == '~' || n[0] == '/' || !NeedPercentEncode(n[0]) {
        assert k == 1 && IsChar(n[..1]);
        FragmentExists(n[1..]);
      } else if 0 < k <= |n| && IsChar(n[..k]) {
        FragmentExists(n[k..]);
      }
    }
  }

  lemma {:induction false} FragmentsExist(names: seq<Text>)
    ensures Stringify(names, true).Some? <==> forall i :: 0 <= i < |names| ==> IsText(names[i])
    decreases |names|
  {
    if names != [] {
      FragmentExists(names[0]);
      FragmentsExist(names[1..]);
      if (forall i :: 0 <= i < |names[1..]| ==> IsText(names[1..][i])) && IsText(names[0]) {
        forall i | 0 <= i < |names| ensures IsText(names[i]) {
          assert i > 0 ==> names[i] == names[1..][i - 1];
        }
      } else if i :| 0 <= i < |names[1..]| && !IsText(names[1..][i]) {
        assert !IsText(names[i + 1]);
      }
    }
  }

  // ---------------------------------------------------------------- reading, then printing

  /** One byte of a name read from the string form: itself, or an escape. */
  lemma {:induction false} ReadStep(s: Text, p: nat, acc: Text) returns (b: Byte, w: Text, q: nat)
    requires p < |s| && s[p] != '/' && ScanName(s, p, false, acc).Name?
    ensures p < q <= |s| && s[p..q] == w && ScanName(s, p, false, acc) == ScanName(s, q, false, acc + [b])
    ensures w == if b == '~' then "~0" else if b == '/' then "~1" else [b]
  {
    assert ScanName(s, p, false, acc) == AfterByte(s, p + 1, false, acc, s[p]);
    if s[p] != '~' {
      b, w, q := s[p], [s[p]], p + 1;
    } else {
      assert p + 1 < |s| && (s[p + 1] == '0' || s[p + 1] == '1');
      b, w, q := if s[p + 1] == '0' then '~' else '/', [s[p], s[p + 1]], p + 2;
    }
  }

  lemma {:induction false} PrintStep(b: Byte, w: Text, rest: Text, text: Text)
    requires NameText(rest, false) == Some(text) && w == if b == '~' then "~0" else if b == '/' then "~1" else [b]
    ensures NameText([b] + rest, false) == Some(w + text)
  {
    assert ([b] + rest)[1..] == rest;
  }

  /** A name read from the string form is printed as the text it was read from. */
  lemma {:induction false} ReadNamePrints(s: Text, p: nat, acc: Text) returns (n: Text)
    requires p <= |s| && ScanName(s, p, false, acc).Name?
    ensures var r := ScanName(s, p, false, acc);
            r.name == acc + n && NameText(n, false) == Some(s[p..r.end])
    decreases |s| - p
  {
    var end := ScanName(s, p, false, acc).end;
    if p == |s| || s[p] == '/' {
      n := [];
      assert acc + [] == acc && s[p..end] == [];
    } else {
      var b, w, q := ReadStep(s, p, acc);
      var rest := ReadNamePrints(s, q, acc + [b]);
      n := [b] + rest;
      PrintStep(b, w, rest, s[q..end]);
      Concat3(acc, [b], rest);
      assert s[p..end] == w + s[q..end];
    }
  }

  lemma {:induction false} NamesPrintStep(n: Text, nt: Text, rest: seq<Text>, rt: Text)
    requires NameText(n, false) == Some(nt) && NamesText(rest, false) == Some(rt)
    ensures NamesText([n] + rest, false) == Some(['/'] + nt + rt)
  {
    assert ([n] + rest)[1..] == rest;
  }

  lemma {:induction false} SolidusApart(s: Text, p: nat, q: nat)
    requires p < q <= |s| && s[p] == '/'
    ensures s[p..] == ['/'] + s[p + 1..q] + s[q..]
  {
    assert s[p..q] == ['/'] + s[p + 1..q];
    assert s[p..] == s[p..q] + s[q..];
  }

  lemma {:induction false} ReadNamesPrint(s: Text, p: nat, before: seq<Text>) returns (names: seq<Text>)
    requires p <= |s| && (p < |s| ==> s[p] == '/') && ScanTokens(s, p, false, before).Tokens?
    ensures ScanTokens(s, p, false, before).names == before + names && NamesText(names, false) == Some(s[p..])
    decreases |s| - p
  {
    if p == |s| {
      names := [];
      assert before + [] == before && s[p..] == [];
    } else {
      var n := ReadNamePrints(s, p + 1, []);
      var q := ScanName(s, p + 1, false, []).end;
      assert [] + n == n;
      TokenStep(s, p, n, q, before);
      var rest := ReadNamesPrint(s, q, before + [n]);
      names := [n] + rest;
      NamesPrintStep(n, s[p + 1..q], rest, s[q..]);
      Concat3(before, [n], rest);
      SolidusApart(s, p, q);
    }
  }

  lemma {:induction false} TokenStep(s: Text, p: nat, n: Text, q: nat, before: seq<Text>)
    requires p < |s| && s[p] == '/' && ScanName(s, p + 1, false, []) == Name(q, n)
    ensures ScanTokens(s, p, false, before) == ScanTokens(s, q, false, before + [n])
  {
  }

  /** A valid string form is printed again as it was. */
  lemma {:induction false} ParsedPrints(s: Text)
    requires Peek(s, 0) != '#' && Parse(s).Tokens?
    ensures Stringify(Parse(s).names, false) == Some(s)
  {
    var names := ReadNamesPrint(s, 0, []);
    assert [] + names == names && s[0..] == s && [] + s == s;
  }
}
