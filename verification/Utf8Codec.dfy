/** The UTF-8 codec: a table-coded decoder and validator, against section 4 of RFC 3629. */
module Utf8Codec {
  import opened Bytes
  import opened JsonLexer

  // ---------------------------------------------------------------- the standard

  /** A Unicode scalar value: a code point that is no surrogate. */
  predicate IsScalar(cp: nat) {
    cp <= 0x10FFFF && !(0xD800 <= cp <= 0xDFFF)
  }

  predicate Between(c: Byte, lo: nat, hi: nat) {
    lo <= c as int <= hi
  }

  predicate IsTail(c: Byte) {
    Between(c, 0x80, 0xBF)
  }

  /** The number of bytes a lead byte announces; 0 for bytes that lead nothing. */
  function Length(c: Byte): (n: nat)
    ensures n <= 4
  {
    if c as int < 0x80 then 1
    else if Between(c, 0xC2, 0xDF) then 2
    else if Between(c, 0xE0, 0xEF) then 3
    else if Between(c, 0xF0, 0xF4) then 4
    else 0
  }

  /** The second bytes allowed after a lead byte. */
  predicate SecondFits(lead: Byte, c: Byte) {
    if lead as int == 0xE0 then Between(c, 0xA0, 0xBF)
    else if lead as int == 0xED then Between(c, 0x80, 0x9F)
    else if lead as int == 0xF0 then Between(c, 0x90, 0xBF)
    else if lead as int == 0xF4 then Between(c, 0x80, 0x8F)
    else IsTail(c)
  }

  /** One character, as the grammar of the standard has it. */
  predicate IsChar(t: Text) {
    && 1 <= |t| == Length(t[0])
    && (|t| >= 2 ==> SecondFits(t[0], t[1]))
    && (|t| >= 3 ==> IsTail(t[2]))
    && (|t| >= 4 ==> IsTail(t[3]))
  }

  /** The value of a byte's six low bits. */
  function Low(c: Byte): (v: nat)
    ensures v < 64
  {
    c as int % 64
  }

  /** The code point a character stands for. */
  function Value(t: Text): nat
    requires IsChar(t)
  {
    if |t| == 1 then t[0] as int
    else if |t| == 2 then (t[0] as int - 0xC0) * 64 + Low(t[1])
    else if |t| == 3 then (t[0] as int - 0xE0) * 4096 + Low(t[1]) * 64 + Low(t[2])
    else (t[0] as int - 0xF0) * 0x4_0000 + Low(t[1]) * 4096 + Low(t[2]) * 64 + Low(t[3])
  }

  lemma {:induction false} SixBits(v: nat)
    requires v < 64
    ensures IsTail(ByteOf(0x80 + v)) && Low(ByteOf(0x80 + v)) == v
  {
  }

  lemma {:induction false} Split12(cp: nat)
    requires cp < 0x1_0000
    ensures cp / 64 == cp / 4096 * 64 + cp / 64 % 64 && cp / 4096 < 16
  {
  }

  lemma {:induction false} Split18(cp: nat)
    requires cp <= 0x10FFFF
    ensures cp / 64 == cp / 4096 * 64 + cp / 64 % 64
    ensures cp / 4096 == cp / 0x4_0000 * 64 + cp / 4096 % 64 && cp / 0x4_0000 <= 4
  {
  }

  /** Encoding a scalar value gives a character of that value. */
  lemma {:induction false} EncodedIsChar(cp: nat)
    requires IsScalar(cp)
    ensures IsChar(Utf8(cp)) && Value(Utf8(cp)) == cp
  {
    SixBits(cp % 64);
    SixBits(cp / 64 % 64);
    SixBits(cp / 4096 % 64);
    if 0x7FF < cp <= 0xFFFF {
      Split12(cp);
    } else if 0xFFFF < cp {
      Split18(cp);
    }
  }

  lemma {:induction false} Digits3(cp: nat, a: nat, b: nat, c: nat)
    requires cp == a * 4096 + b * 64 + c && b < 64 && c < 64
    ensures cp % 64 == c && cp / 64 == a * 64 + b && cp / 64 % 64 == b && cp / 4096 == a
  {
    assert cp / 64 == a * 64 + b;
  }

  lemma {:induction false} Digits4(cp: nat, a: nat, b: nat, c: nat, d: nat)
    requires cp == a * 0x4_0000 + b * 4096 + c * 64 + d && b < 64 && c < 64 && d < 64
    ensures cp % 64 == d && cp / 64 % 64 == c && cp / 4096 % 64 == b && cp / 0x4_0000 == a
  {
    Digits3(cp, a * 64 + b, c, d);
    assert cp / 4096 == a * 64 + b;
  }

  lemma {:induction false} Char3IsEncoded(t: Text)
    requires IsChar(t) && |t| == 3
    ensures IsScalar(Value(t)) && Utf8(Value(t)) == t
  {
    Digits3(Value(t), t[0] as int - 0xE0, Low(t[1]), Low(t[2]));
  }

  lemma {:induction false} Char4IsEncoded(t: Text)
    requires IsChar(t) && |t| == 4
    ensures IsScalar(Value(t)) && Utf8(Value(t)) == t
  {
    Digits4(Value(t), t[0] as int - 0xF0, Low(t[1]), Low(t[2]), Low(t[3]));
  }

  /** A character is the encoding of its value, which is a scalar value: no surrogate, no long form, nothing beyond the range. */
  lemma {:induction false} CharIsEncoded(t: Text)
    requires IsChar(t)
    ensures IsScalar(Value(t)) && Utf8(Value(t)) == t
  {
    if |t| == 3 {
      Char3IsEncoded(t);
    } else if |t| == 4 {
      Char4IsEncoded(t);
    }
  }

  // ---------------------------------------------------------------- texts

  function EncodeAll(cps: seq<nat>): Text
    requires forall i :: 0 <= i < |cps| ==> cps[i] <= 0x10FFFF
  {
    if cps == [] then [] else Utf8(cps[0]) + EncodeAll(cps[1..])
  }

  predicate AllScalars(cps: seq<nat>) {
    forall i :: 0 <= i < |cps| ==> IsScalar(cps[i])
  }

  /** A text of whole characters. */
  predicate IsText(s: Text)
    decreases |s|
  {
    if s == [] then true
    else var n := Length(s[0]); 0 < n <= |s| && IsChar(s[..n]) && IsText(s[n..])
  }

  function Values(s: Text): (r: seq<nat>)
    requires IsText(s)
    decreases |s|
  {
    if s == [] then [] else var n := Length(s[0]); [Value(s[..n])] + Values(s[n..])
  }

  /** Encoded scalar values are a text of those values. */
  lemma {:induction false} EncodedIsText(cps: seq<nat>)
    requires AllScalars(cps)
    ensures IsText(EncodeAll(cps)) && Values(EncodeAll(cps)) == cps
    decreases |cps|
  {
    if cps != [] {
      var c, rest := Utf8(cps[0]), EncodeAll(cps[1..]);
      EncodedIsChar(cps[0]);
      EncodedIsText(cps[1..]);
      assert (c + rest)[..|c|] == c && (c + rest)[|c|..] == rest;
    }
  }

  /** A text is the encoding of its values. */
  lemma {:induction false} TextIsEncoded(s: Text)
    requires IsText(s)
    ensures AllScalars(Values(s)) && EncodeAll(Values(s)) == s
    decreases |s|
  {
    if s != [] {
      var c, rest := FirstOfText(s);
      CharIsEncoded(c);
      TextIsEncoded(rest);
      EncodeMore(Value(c), Values(rest));
    }
  }

  lemma {:induction false} FirstOfText(s: Text) returns (c: Text, rest: Text)
    requires IsText(s) && s != []
    ensures s == c + rest && |rest| < |s| && IsChar(c) && IsText(rest) && Values(s) == [Value(c)] + Values(rest)
  {
    c, rest := s[..Length(s[0])], s[Length(s[0])..];
  }

  lemma {:induction false} EncodeMore(cp: nat, cps: seq<nat>)
    requires IsScalar(cp) && AllScalars(cps)
    ensures AllScalars([cp] + cps) && EncodeAll([cp] + cps) == Utf8(cp) + EncodeAll(cps)
  {
    assert ([cp] + cps)[1..] == cps;
  }

  // ---------------------------------------------------------------- the decoder

  /** The classes of bytes; the classes of tail bytes are single bits, so that a mask can allow several. */
  function GetRange(c: Byte): bv8 {
    if c as int < 0x80 then 0
    else if c as int < 0x90 then 0x10
    else if c as int < 0xA0 then 0x40
    else if c as int < 0xC0 then 0x20
    else if c as int < 0xC2 then 8
    else if c as int < 0xE0 then 2
    else if c as int == 0xE0 then 10
    else if c as int == 0xED then 4
    else if c as int < 0xF0 then 3
    else if c as int == 0xF0 then 11
    else if c as int < 0xF4 then 6
    else if c as int == 0xF4 then 5
    else 8
  }

  /** The masks test what the standard asks of second and later bytes. */
  lemma {:induction false} MasksFit(c: Byte)
    ensures GetRange(c) & 0x70 != 0 <==> IsTail(c)
    ensures GetRange(c) & 0x50 != 0 <==> Between(c, 0x80, 0x9F)
    ensures GetRange(c) & 0x10 != 0 <==> Between(c, 0x80, 0x8F)
    ensures GetRange(c) & 0x20 != 0 <==> Between(c, 0xA0, 0xBF)
    ensures GetRange(c) & 0x60 != 0 <==> Between(c, 0x90, 0xBF)
  {
  }

  /** The bits of a lead byte that belong to the code point. */
  function LeadBits(c: Byte): nat {
    match GetRange(c)
    case 2 => c as int % 64
    case 3 => c as int % 32
    case 4 => c as int % 16
    case 5 => c as int % 8
    case 6 => c as int % 4
    case _ => 0
  }

  /** What a lead byte asks for: the mask of the second byte, and how many bytes follow. */
  datatype Follow = Follow(mask: bv8, count: nat)

  function FollowOf(c: Byte): Follow {
    match GetRange(c)
    case 2 => Follow(0x70, 1)
    case 3 => Follow(0x70, 2)
    case 4 => Follow(0x50, 2)
    case 5 => Follow(0x10, 3)
    case 6 => Follow(0x70, 3)
    case 10 => Follow(0x20, 2)
    case 11 => Follow(0x60, 3)
    case _ => Follow(0, 0)
  }

  predicate Passes(c: Byte, mask: bv8) {
    GetRange(c) & mask != 0
  }

  /** A multi-byte character at `p`, as the masks test it. */
  predicate PassesAt(s: Text, p: nat)
    requires p < |s|
  {
    var f := FollowOf(s[p]);
    && f.count > 0 && Passes(Peek(s, p + 1), f.mask)
    && (f.count > 1 ==> Passes(Peek(s, p + 2), 0x70))
    && (f.count > 2 ==> Passes(Peek(s, p + 3), 0x70))
  }

  /** The code point as the decoder shifts it together. */
  function Shifted(s: Text, p: nat): nat
    requires p < |s|
  {
    var f := FollowOf(s[p]);
    var v1 := LeadBits(s[p]) * 64 + Low(Peek(s, p + 1));
    var v2 := v1 * 64 + Low(Peek(s, p + 2));
    if f.count <= 1 then v1 else if f.count == 2 then v2 else v2 * 64 + Low(Peek(s, p + 3))
  }

  lemma {:induction false} LeadFits(c: Byte)
    requires c as int >= 0x80
    ensures FollowOf(c).count == (if Length(c) == 0 then 0 else Length(c) - 1)
    ensures Length(c) == 2 ==> LeadBits(c) == c as int - 0xC0
    ensures Length(c) == 3 ==> LeadBits(c) == c as int - 0xE0
    ensures Length(c) == 4 ==> LeadBits(c) == c as int - 0xF0
  {
  }

  lemma {:induction false} SecondMaskFits(lead: Byte, c: Byte)
    requires lead as int >= 0x80 && Length(lead) > 0
    ensures Passes(c, FollowOf(lead).mask) <==> SecondFits(lead, c)
  {
    MasksFit(c);
  }

  /** The masks accept exactly the characters of the standard, and the shifts compute their values. */
  lemma {:induction false} MasksAcceptChars(s: Text, p: nat)
    requires p < |s| && s[p] as int >= 0x80
    ensures var n := Length(s[p]);
            && n != 1 && FollowOf(s[p]).count == (if n == 0 then 0 else n - 1)
            && (PassesAt(s, p) <==> 0 < n && p + n <= |s| && IsChar(s[p..p + n]))
            && (PassesAt(s, p) ==> Shifted(s, p) == Value(s[p..p + n]))
  {
    var n := Length(s[p]);
    LeadFits(s[p]);
    if n > 0 {
      SecondMaskFits(s[p], Peek(s, p + 1));
      MasksFit(Peek(s, p + 1));
      MasksFit(Peek(s, p + 2));
      MasksFit(Peek(s, p + 3));
    }
  }

  lemma {:induction false} AsciiIsChar(s: Text, p: nat)
    requires p < |s| && s[p] as int < 0x80
    ensures Length(s[p]) == 1 && IsChar(s[p..p + 1]) && Value(s[p..p + 1]) == s[p] as int
  {
  }

  /** A byte source with a cursor; beyond its end it gives the terminator. */
  class ByteStream {
    const text: Text
    var pos: nat

    constructor (text: Text)
      ensures this.text == text && pos == 0
    {
      this.text, pos := text, 0;
    }

    method Take() returns (c: Byte)
      modifies this
      ensures c == Peek(text, old(pos)) && pos == old(pos) + 1
    {
      c := Peek(text, pos);
      pos := pos + 1;
    }

    /** Takes a later byte into the code point, and tests it against a mask. */
    method Tail(cp: nat, ok: bool, mask: bv8) returns (more: nat, still: bool)
      modifies this
      ensures pos == old(pos) + 1
      ensures more == cp * 64 + Low(Peek(text, old(pos)))
      ensures still == (ok && Passes(Peek(text, old(pos)), mask))
    {
      var c := Take();
      more := cp * 64 + c as int % 64;
      still := ok && GetRange(c) & mask != 0;
    }

    /** What a decoder owes its caller: success exactly on a character of the standard, all of it and no more taken. */
    twostate predicate TookChar(ok: bool)
      requires old(pos) < |text|
      reads this
    {
      var p, n := old(pos), Length(text[old(pos)]);
      && (ok <==> 0 < n && p + n <= |text| && IsChar(text[p..p + n]))
      && (ok ==> pos == p + n)
    }

    /** Decodes one character. */
    method Decode() returns (ok: bool, cp: nat)
      requires pos < |text|
      modifies this
      ensures TookChar(ok)
      ensures ok ==> cp == Value(text[old(pos)..pos])
    {
      ghost var p := pos;
      var c := Take();
      if c as int < 0x80 {
        AsciiIsChar(text, p);
        return true, c as int;
      }
      MasksAcceptChars(text, p);
      var f := FollowOf(c);
      cp := LeadBits(c);
      if f.count == 0 {
        return false, cp;
      }
      cp, ok := Tail(cp, true, f.mask);
      if f.count > 1 {
        cp, ok := Tail(cp, ok, 0x70);
      }
      if f.count > 2 {
        cp, ok := Tail(cp, ok, 0x70);
      }
    }

    /** Takes a later byte to the output, and tests it against a mask. */
    method CopyTail(out: Text, ok: bool, mask: bv8) returns (more: Text, still: bool)
      modifies this
      ensures pos == old(pos) + 1
      ensures more == out + [Peek(text, old(pos))]
      ensures still == (ok && Passes(Peek(text, old(pos)), mask))
    {
      var c := Take();
      more := out + [c];
      still := ok && GetRange(c) & mask != 0;
    }

    /** Validates one character, and copies it. */
    method Validate(out: Text) returns (ok: bool, copy: Text)
      requires pos < |text|
      modifies this
      ensures TookChar(ok)
      ensures ok ==> copy == out + text[old(pos)..pos]
    {
      ghost var p := pos;
      var c := Take();
      copy := out + [c];
      if c as int < 0x80 {
        AsciiIsChar(text, p);
        return true, copy;
      }
      MasksAcceptChars(text, p);
      var f := FollowOf(c);
      if f.count == 0 {
        return false, copy;
      }
      copy, ok := CopyTail(copy, true, f.mask);
      if f.count > 1 {
        copy, ok := CopyTail(copy, ok, 0x70);
      }
      if f.count > 2 {
        copy, ok := CopyTail(copy, ok, 0x70);
      }
      if ok {
        CopiedChar(text, p, pos, out, copy);
      }
    }
  }

  lemma {:induction false} CopiedChar(s: Text, p: nat, q: nat, out: Text, copy: Text)
    requires p < q <= |s| && q <= p + 4
    requires copy == if q == p + 1 then out + [s[p]] else if q == p + 2 then out + [s[p]] + [s[p + 1]]
                     else if q == p + 3 then out + [s[p]] + [s[p + 1]] + [s[p + 2]]
                     else out + [s[p]] + [s[p + 1]] + [s[p + 2]] + [s[p + 3]]
    ensures copy == out + s[p..q]
  {
  }

  lemma {:induction false} TextFrom(s: Text, p: nat)
    requires p < |s|
    ensures var n := Length(s[p]);
            IsText(s[p..]) <==> 0 < n && p + n <= |s| && IsChar(s[p..p + n]) && IsText(s[p + n..])
    ensures IsText(s[p..]) ==> Values(s[p..]) == [Value(s[p..p + Length(s[p])])] + Values(s[p + Length(s[p])..])
  {
    var n, rest := Length(s[p]), s[p..];
    if p + n <= |s| {
      assert rest[..n] == s[p..p + n] && rest[n..] == s[p + n..];
    }
  }

  /** Decodes a whole text: it succeeds exactly on texts of whole characters, and gives their values. */
  method DecodeAll(s: Text) returns (ok: bool, cps: seq<nat>)
    ensures ok <==> IsText(s)
    ensures ok ==> cps == Values(s)
  {
    var stream := new ByteStream(s);
    cps, ok := [], true;
    assert s[0..] == s;
    while stream.pos < |s|
      invariant stream.text == s && stream.pos <= |s|
      invariant IsText(s) <==> IsText(s[stream.pos..])
      invariant IsText(s) ==> Values(s) == cps + Values(s[stream.pos..])
      decreases |s| - stream.pos
    {
      TextFrom(s, stream.pos);
      var cp;
      ok, cp := stream.Decode();
      if !ok {
        return;
      }
      Concat3(cps, [cp], if IsText(s[stream.pos..]) then Values(s[stream.pos..]) else []);
      cps := cps + [cp];
    }
    assert s[|s|..] == [];
  }

  /** Validates a whole text, copying it: the copy of a valid text is the text. */
  method ValidateAll(s: Text) returns (ok: bool, copy: Text)
    ensures ok <==> IsText(s)
    ensures ok ==> copy == s
  {
    var stream := new ByteStream(s);
    copy, ok := [], true;
    assert s[0..] == s && s[..0] == [];
    while stream.pos < |s|
      invariant stream.text == s && stream.pos <= |s| && copy == s[..stream.pos]
      invariant IsText(s) <==> IsText(s[stream.pos..])
      decreases |s| - stream.pos
    {
      TextFrom(s, stream.pos);
      ghost var p := stream.pos;
      ok, copy := stream.Validate(copy);
      if !ok {
        return;
      }
      assert s[..stream.pos] == s[..p] + s[p..stream.pos];
    }
    assert s[..|s|] == s && s[|s|..] == [];
  }

  /** Encoding some scalar values and decoding the result gives them back. */
  method EncodeDecode(cps: seq<nat>) returns (ok: bool, back: seq<nat>)
    requires AllScalars(cps)
    ensures ok && back == cps
  {
    EncodedIsText(cps);
    ok, back := DecodeAll(EncodeAll(cps));
  }
}
