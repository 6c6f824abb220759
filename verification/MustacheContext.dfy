/** Contexts, and how a tag's name is looked up in a stack of them; escaping of what is shown. */
module MustacheContext {
  import opened Bytes

  datatype Context =
    | Null | False | True | Number(shown: Text) | Str(s: Text) | List(items: seq<Context>) | Object(members: map<Text, Context>)

  const DOT: Byte := '.'

  // ---------------------------------------------------------------- names

  /** The parts of a dotted name. */
  function Names(name: Text): (r: seq<Text>)
    ensures r != []
  {
    if name == [] then [[]]
    else
      var rest := Names(name[1..]);
      if name[0] == DOT then [[]] + rest else [[name[0]] + rest[0]] + rest[1..]
  }

  /** The parts put together again. */
  function Dotted(names: seq<Text>): Text
    requires names != []
  {
    if |names| == 1 then names[0] else names[0] + [DOT] + Dotted(names[1..])
  }

  /** A name comes apart at its dots and nowhere else. */
  lemma {:induction false} NamesApart(name: Text)
    ensures Dotted(Names(name)) == name
    ensures forall i :: 0 <= i < |Names(name)| ==> DOT !in Names(name)[i]
    decreases |name|
  {
    if name != [] {
      NamesApart(name[1..]);
      var rest, all := Names(name[1..]), Names(name);
      assert name == [name[0]] + name[1..];
      if name[0] == DOT {
        assert all[1..] == rest;
      } else {
        assert all[1..] == rest[1..] && all[0] == [name[0]] + rest[0];
        if |rest| > 1 {
          Concat4([name[0]], rest[0], [DOT], Dotted(rest[1..]));
        }
        forall i | 0 <= i < |all| ensures DOT !in all[i] {
          if i > 0 {
            assert all[i] == rest[i];
          }
        }
      }
    }
  }

  lemma {:induction false} NamesOfPart(part: Text)
    requires DOT !in part
    ensures Names(part) == [part]
    decreases |part|
  {
    if part != [] {
      NamesOfPart(part[1..]);
      assert part == [part[0]] + part[1..];
    }
  }

  lemma {:induction false} NamesOfJoined(part: Text, rest: Text)
    requires DOT !in part
    ensures Names(part + [DOT] + rest) == [part] + Names(rest)
    decreases |part|
  {
    var name := part + [DOT] + rest;
    if part == [] {
      assert name[1..] == rest;
    } else {
      NamesOfJoined(part[1..], rest);
      assert name[1..] == part[1..] + [DOT] + rest;
      assert part == [part[0]] + part[1..];
    }
  }

  /** The end of the part that begins at `p`. */
  method FindDot(name: Text, p: nat) returns (e: nat)
    requires p <= |name|
    ensures p <= e <= |name| && DOT !in name[p..e] && (e < |name| ==> name[e] == DOT)
  {
    e := p;
    while e < |name| && name[e] != DOT
      invariant p <= e <= |name| && DOT !in name[p..e]
    {
      e := e + 1;
    }
  }

  lemma {:induction false} NextPart(name: Text, p: nat, e: nat, part: Text)
    requires p <= e < |name| && part == name[p..e] && DOT !in part && name[e] == DOT
    ensures Names(name[p..]) == [part] + Names(name[e + 1..])
  {
    assert name[p..] == part + [DOT] + name[e + 1..];
    NamesOfJoined(part, name[e + 1..]);
  }

  lemma {:induction false} LastPart(name: Text, p: nat, part: Text)
    requires p <= |name| && part == name[p..|name|] && DOT !in part
    ensures Names(name[p..]) == [part]
  {
    assert name[p..] == part;
    NamesOfPart(part);
  }

  /** Cuts a name at its dots. */
  method SplitName(name: Text) returns (names: seq<Text>)
    ensures names == Names(name)
  {
    names := [];
    var p, e: nat := 0, 0;
    e := FindDot(name, p);
    assert name[0..] == name;
    while e < |name|
      invariant p <= e <= |name| && (e < |name| ==> name[e] == DOT)
      invariant DOT !in name[p..e]
      invariant Names(name) == names + Names(name[p..])
      decreases |name| - p
    {
      var part := name[p..e];
      NextPart(name, p, e, part);
      Concat3(names, [part], Names(name[e + 1..]));
      names := names + [part];
      p := e + 1;
      e := FindDot(name, p);
    }
    LastPart(name, p, name[p..e]);
    names := names + [name[p..e]];
  }

  // ---------------------------------------------------------------- lookup

  /** The value a path of names leads to. */
  function Follow(view: Context, names: seq<Text>): Option<Context>
    decreases |names|
  {
    if names == [] then Some(view)
    else if view.Object? && names[0] in view.members then Follow(view.members[names[0]], names[1..])
    else None
  }

  /** The nearest context in which the path leads somewhere. */
  function Search(stack: seq<Context>, names: seq<Text>): Option<Context> {
    if stack == [] then None
    else
      var here := Follow(stack[|stack| - 1], names);
      if here.Some? then here else Search(stack[..|stack| - 1], names)
  }

  /** What a name means: the innermost context for `.`, else the nearest match. */
  function Find(name: Text, stack: seq<Context>): Option<Context>
    requires stack != []
  {
    if name == [DOT] then Some(stack[|stack| - 1]) else Search(stack, Names(name))
  }

  method FollowPath(start: Context, names: seq<Text>) returns (found: Option<Context>)
    ensures found == Follow(start, names)
  {
    var view := start;
    for j := 0 to |names|
      invariant Follow(start, names) == Follow(view, names[j..])
    {
      if view.Object? && names[j] in view.members {
        view := view.members[names[j]];
        assert names[j..][1..] == names[j + 1..];
      } else {
        return None;
      }
    }
    return Some(view);
  }

  method FindContext(name: Text, stack: seq<Context>) returns (found: Option<Context>)
    requires stack != []
    ensures found == Find(name, stack)
  {
    if name == [DOT] {
      return Some(stack[|stack| - 1]);
    }
    var names := SplitName(name);
    var i := |stack|;
    assert stack[..i] == stack;
    while i > 0
      invariant 0 <= i <= |stack| && Search(stack, names) == Search(stack[..i], names)
    {
      i := i - 1;
      assert stack[..i + 1][..i] == stack[..i];
      found := FollowPath(stack[i], names);
      if found.Some? {
        return;
      }
    }
    return None;
  }

  // ---------------------------------------------------------------- escaping

  function EscapedByte(c: Byte): Text {
    match c
    case '&' => "&amp;"
    case '<' => "&lt;"
    case '>' => "&gt;"
    case '"' => "&quot;"
    case '\'' => "&#39;"
    case '/' => "&#x2F;"
    case _ => [c]
  }

  function Escaped(s: Text): Text {
    if s == [] then [] else Escaped(s[..|s| - 1]) + EscapedByte(s[|s| - 1])
  }

  method Escape(s: Text, out: Text) returns (r: Text)
    ensures r == out + Escaped(s)
  {
    r := out;
    assert s[..0] == [];
    for i := 0 to |s|
      invariant r == out + Escaped(s[..i])
    {
      Concat3(out, Escaped(s[..i]), EscapedByte(s[i]));
      assert s[..i + 1][..i] == s[..i];
      r := r + EscapedByte(s[i]);
    }
    assert s[..|s|] == s;
  }

  /** Bytes with a meaning in markup. */
  predicate IsMarkup(c: Byte) {
    c == '<' || c == '>' || c == '"' || c == '\'' || c == '/'
  }

  lemma {:induction false} EscapedByteHasNoMarkup(c: Byte)
    ensures forall i :: 0 <= i < |EscapedByte(c)| ==> !IsMarkup(EscapedByte(c)[i])
  {
  }

  /** No byte with a meaning in markup is left. */
  lemma {:induction false} EscapedHasNoMarkup(s: Text)
    ensures forall i :: 0 <= i < |Escaped(s)| ==> !IsMarkup(Escaped(s)[i])
    decreases |s|
  {
    if s != [] {
      EscapedHasNoMarkup(s[..|s| - 1]);
      EscapedByteHasNoMarkup(s[|s| - 1]);
    }
  }

  /** The byte an entity at the start of a text stands for, and the entity's length. */
  function Entity(t: Text): (Byte, nat)
    requires t != []
  {
    if "&amp;" <= t then ('&', 5)
    else if "&lt;" <= t then ('<', 4)
    else if "&gt;" <= t then ('>', 4)
    else if "&quot;" <= t then ('"', 6)
    else if "&#39;" <= t then ('\'', 5)
    else if "&#x2F;" <= t then ('/', 6)
    else (t[0], 1)
  }

  /** A longer text begins with the same entity. */
  lemma {:induction false} EntityLonger(t: Text, more: Text)
    requires t != [] && Entity(t).1 > 1
    ensures Entity(t + more).1 > 1
  {
  }

  lemma {:induction false} EscapedByteBeginsEntity(c: Byte)
    ensures forall i :: 0 <= i < |EscapedByte(c)| && EscapedByte(c)[i] == '&' ==> i == 0 && Entity(EscapedByte(c)).1 > 1
  {
  }

  /** Every ampersand of an escaped text begins an entity. */
  lemma {:induction false} AmpersandsBeginEntities(s: Text, i: nat)
    requires i < |Escaped(s)| && Escaped(s)[i] == '&'
    ensures Entity(Escaped(s)[i..]).1 > 1
    decreases |s|
  {
    var front, last := Escaped(s[..|s| - 1]), EscapedByte(s[|s| - 1]);
    if i < |front| {
      AmpersandsBeginEntities(s[..|s| - 1], i);
      EntityLonger(front[i..], last);
      assert Escaped(s)[i..] == front[i..] + last;
    } else {
      EscapedByteBeginsEntity(s[|s| - 1]);
      assert Escaped(s)[i] == last[i - |front|];
      assert Escaped(s)[i..] == last;
    }
  }

  /** The text with its entities read. */
  function Unescaped(t: Text): Text
    decreases |t|
  {
    if t == [] then []
    else
      var e := Entity(t);
      if e.1 <= |t| then [e.0] + Unescaped(t[e.1..]) else []
  }

  /** An escaped byte, whatever follows it, is read as that byte. */
  lemma {:induction false} EntityOf(c: Byte, rest: Text)
    ensures Entity(EscapedByte(c) + rest) == (c, |EscapedByte(c)|)
  {
    var t := EscapedByte(c) + rest;
    assert t[..|EscapedByte(c)|] == EscapedByte(c);
    match c
    case '&' =>
    case '<' => assert t[1] == 'l';
    case '>' => assert t[1] == 'g';
    case '"' => assert t[1] == 'q';
    case '\'' => assert t[1] == '#' && t[2] == '3';
    case '/' => assert t[1] == '#' && t[2] == 'x';
    case _ => assert t[0] == c;
  }

  function EscapedFront(s: Text): Text
    decreases |s|
  {
    if s == [] then [] else EscapedByte(s[0]) + EscapedFront(s[1..])
  }

  lemma {:induction false} EscapedEitherWay(s: Text, c: Byte)
    ensures EscapedFront(s + [c]) == EscapedFront(s) + EscapedByte(c)
    decreases |s|
  {
    if s == [] {
      assert [c][1..] == [];
      assert EscapedFront([]) == [];
      assert EscapedByte(c) + [] == EscapedByte(c);
    } else {
      assert (s + [c])[1..] == s[1..] + [c];
      EscapedEitherWay(s[1..], c);
      Concat3(EscapedByte(s[0]), EscapedFront(s[1..]), EscapedByte(c));
    }
  }

  lemma {:induction false} EscapedIsFront(s: Text)
    ensures Escaped(s) == EscapedFront(s)
    decreases |s|
  {
    if s != [] {
      EscapedIsFront(s[..|s| - 1]);
      EscapedEitherWay(s[..|s| - 1], s[|s| - 1]);
      assert s == s[..|s| - 1] + [s[|s| - 1]];
    }
  }

  lemma {:induction false} UnescapeFront(s: Text)
    ensures Unescaped(EscapedFront(s)) == s
    decreases |s|
  {
    if s != [] {
      var first, rest := EscapedByte(s[0]), EscapedFront(s[1..]);
      EntityOf(s[0], rest);
      assert (first + rest)[|first|..] == rest;
      UnescapeFront(s[1..]);
      assert s == [s[0]] + s[1..];
    }
  }

  /** Escaping loses nothing: read as entities, the text is the same again. */
  lemma {:induction false} UnescapeEscaped(s: Text)
    ensures Unescaped(Escaped(s)) == s
  {
    EscapedIsFront(s);
    UnescapeFront(s);
  }
}
