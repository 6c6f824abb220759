/** The bytes of a pointer's two forms, by RFC 6901 and RFC 3986. */
module PointerForms {
  import opened Bytes
  import opened JsonEscape
  import opened JsonLexer
  import opened Utf8Codec
  import opened PointerText

  /** The unreserved characters of section 2.3 of RFC 3986. */
  predicate Unreserved(c: Byte) {
    'A' <= c <= 'Z' || 'a' <= c <= 'z' || '0' <= c <= '9' || c in "-._~"
  }

  /** A fragment must escape every byte but these. */
  lemma {:induction false} EscapedBytes(c: Byte)
    ensures NeedPercentEncode(c) <==> !Unreserved(c)
  {
  }

  /** What a fragment is made of: unreserved characters, and triplets with capital digits. */
  predicate InFragment(t: Text) {
    forall i :: 0 <= i < |t| ==> Unreserved(t[i]) || t[i] == '%'
  }

  lemma {:induction false} TripletIs(c: Byte)
    ensures PercentByte(c) == ['%', "0123456789ABCDEF"[c as int / 16], "0123456789ABCDEF"[c as int % 16]]
    ensures InFragment(PercentByte(c))
  {
    CapitalDigit(c as int / 16);
    CapitalDigit(c as int % 16);
  }

  lemma {:induction false} CapitalDigit(v: nat)
    requires v < 16
    ensures HexDigit(v) == "0123456789ABCDEF"[v]
  {
  }

  lemma {:induction false} TripletsClean(c: Text)
    ensures InFragment(PercentAll(c))
    decreases |c|
  {
    if c != [] {
      TripletIs(c[0]);
      TripletsClean(c[1..]);
    }
  }

  /** A name in a fragment needs no further escape. */
  lemma {:induction false} FragmentNameClean(n: Text)
    requires NameText(n, true).Some?
    ensures InFragment(NameText(n, true).value)
    decreases |n|
  {
    if n != [] {
      if n[0] == '~' || n[0] == '/' || !NeedPercentEncode(n[0]) {
        EscapedBytes(n[0]);
        FragmentNameClean(n[1..]);
      } else {
        var k := Length(n[0]);
        TripletsClean(n[..k]);
        FragmentNameClean(n[k..]);
      }
    }
  }

  /** In a string a tilde is written `~0`, a solidus `~1`, and every other byte as it is. */
  function StringName(n: Text): Text {
    if n == [] then []
    else (if n[0] == '~' then ['~', '0'] else if n[0] == '/' then ['~', '1'] else [n[0]]) + StringName(n[1..])
  }

  lemma {:induction false} StringNameIs(n: Text)
    ensures NameText(n, false) == Some(StringName(n))
    decreases |n|
  {
    if n != [] {
      StringNameIs(n[1..]);
    }
  }

  /** Every name behind its own solidus; a fragment begins with a number sign. */
  function Joined(parts: seq<Text>): Text {
    if parts == [] then [] else ['/'] + parts[0] + Joined(parts[1..])
  }

  function StringNames(names: seq<Text>): seq<Text> {
    if names == [] then [] else [StringName(names[0])] + StringNames(names[1..])
  }

  lemma {:induction false} NamesAreJoined(names: seq<Text>)
    ensures NamesText(names, false) == Some(Joined(StringNames(names)))
  {
    if names != [] {
      StringNameIs(names[0]);
      NamesAreJoined(names[1..]);
      assert StringNames(names)[1..] == StringNames(names[1..]);
    }
  }

  /** The string form of a pointer. */
  lemma {:induction false} StringForm(names: seq<Text>)
    ensures Stringify(names, false) == Some(Joined(StringNames(names)))
  {
    NamesAreJoined(names);
    assert [] + Joined(StringNames(names)) == Joined(StringNames(names));
  }

  /** The fragment form is the string form behind a number sign, with triplets for all that must be escaped. */
  lemma {:induction false} FragmentForm(names: seq<Text>)
    requires Stringify(names, true).Some?
    ensures var t := Stringify(names, true).value;
            t != [] && t[0] == '#' && forall i :: 1 <= i < |t| ==> Unreserved(t[i]) || t[i] == '%' || t[i] == '/'
  {
    FragmentNamesClean(names);
  }

  lemma {:induction false} FragmentNamesClean(names: seq<Text>)
    requires NamesText(names, true).Some?
    ensures var t := NamesText(names, true).value; forall i :: 0 <= i < |t| ==> Unreserved(t[i]) || t[i] == '%' || t[i] == '/'
  {
    if names != [] {
      FragmentNameClean(names[0]);
      FragmentNamesClean(names[1..]);
    }
  }
}
