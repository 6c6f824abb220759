/** What sections and tags do, told by the values their names mean. */
module MustacheLaws {
  import opened Bytes
  import opened MustacheTemplate
  import opened MustacheContext
  import opened MustacheRender

  // ---------------------------------------------------------------- what a name means

  /** Where in the stack a path of names leads somewhere, from the top down. */
  ghost predicate LeadsFrom(stack: seq<Context>, names: seq<Text>, i: nat) {
    && i < |stack| && Follow(stack[i], names).Some?
    && forall j :: i < j < |stack| ==> Follow(stack[j], names).None?
  }

  /** The search finds what the innermost context has that has anything, and nothing only where no context has anything. */
  lemma {:induction false} SearchInnermost(stack: seq<Context>, names: seq<Text>)
    ensures match Search(stack, names)
            case Some(v) => exists i: nat :: LeadsFrom(stack, names, i) && Follow(stack[i], names) == Some(v)
            case None => forall i :: 0 <= i < |stack| ==> Follow(stack[i], names).None?
    decreases |stack|
  {
    if stack != [] {
      var top, below := stack[|stack| - 1], stack[..|stack| - 1];
      SearchInnermost(below, names);
      if Follow(top, names).Some? {
        assert LeadsFrom(stack, names, |stack| - 1);
      } else if Search(below, names).Some? {
        var i: nat :| LeadsFrom(below, names, i) && Follow(below[i], names) == Search(below, names);
        assert LeadsFrom(stack, names, i);
      }
    }
  }

  /** A path leads from member to member through objects. */
  lemma {:induction false} FollowsMembers(view: Context, name: Text, rest: seq<Text>)
    ensures Follow(view, []) == Some(view)
    ensures Follow(view, [name] + rest) ==
            if view.Object? && name in view.members then Follow(view.members[name], rest) else None
  {
    assert ([name] + rest)[1..] == rest;
  }

  /** The dot means the innermost context itself. */
  lemma {:induction false} DotIsTop(stack: seq<Context>)
    requires stack != []
    ensures Find(".", stack) == Some(stack[|stack| - 1])
  {
  }

  // ---------------------------------------------------------------- truth

  /** Nothing, null, false and an empty list are false; everything else is true. */
  predicate Truthy(found: Option<Context>) {
    found.Some? && found.value != Null && found.value != False && found.value != List([])
  }

  /**
   * An inverted section is rendered, once, exactly when its name means something false. Any other section is rendered when
   * it means something true: for each element of a list, else once with the value on the stack.
   */
  lemma {:induction false} SectionsByTruth(name: Text, stack: seq<Context>)
    requires stack != []
    ensures var found := Find(name, stack);
            && Choose(name, true, stack) == (if Truthy(found) then Skip else Once(Null))
            && (!Truthy(found) ==> Choose(name, false, stack) == Skip || Choose(name, false, stack) == Each([]))
            && (Truthy(found) ==>
                  Choose(name, false, stack) == if found.value.List? then Each(found.value.items) else Once(found.value))
  {
  }

  /** A section whose name means something false adds nothing but the text before its tag. */
  lemma {:induction false} FalseSectionsAddNothing(t: Compiled, name: Text, inner: Body, base: nat, stack: seq<Context>, out: Text, indent: nat)
    requires t.Valid() && stack != [] && base + Width(inner) + 2 < |t.fragments|
    ensures !Truthy(Find(name, stack)) ==> EvalItem(t, Section(name, false, inner), base, stack, out, indent) == Some(out)
    ensures Truthy(Find(name, stack)) ==> EvalItem(t, Section(name, true, inner), base, stack, out, indent) == Some(out)
  {
    SectionsByTruth(name, stack);
  }

  // ---------------------------------------------------------------- what a tag shows

  /** Numbers are shown as they are, strings with their markup escaped or as they are; other values cannot be shown. */
  lemma {:induction false} TagsShow(name: Text, stack: seq<Context>)
    requires stack != []
    ensures match Find(name, stack)
            case None => ShownText(name, true, stack) == ShownText(name, false, stack) == Some([])
            case Some(Number(digits)) => ShownText(name, true, stack) == ShownText(name, false, stack) == Some(digits)
            case Some(Str(s)) =>
              && ShownText(name, false, stack) == Some(s)
              && ShownText(name, true, stack).Some? && Unescaped(ShownText(name, true, stack).value) == s
              && forall i :: 0 <= i < |ShownText(name, true, stack).value| ==> !IsMarkup(ShownText(name, true, stack).value[i])
            case Some(_) => ShownText(name, true, stack).None? && ShownText(name, false, stack).None?
  {
    match Find(name, stack)
    case Some(Str(s)) =>
      UnescapeEscaped(s);
      EscapedHasNoMarkup(s);
    case _ =>
  }

  // ---------------------------------------------------------------- indented text

  /** The lines of a text: each but the last ends with a line feed. */
  function Lines(w: Text): (r: seq<Text>)
    ensures r != []
  {
    if w == [] then [[]]
    else
      var rest := Lines(w[1..]);
      if w[0] == '\n' then [['\n']] + rest else [[w[0]] + rest[0]] + rest[1..]
  }

  /** Lines with blanks before all but the first; `whole` tells that the last one is empty and ends the whole text. */
  function Indented(lines: seq<Text>, indent: nat, whole: bool): Text
    requires lines != []
  {
    if |lines| == 1 then lines[0]
    else lines[0] + (if whole && |lines| == 2 && lines[1] == [] then [] else Spaces(indent)) + Indented(lines[1..], indent, whole)
  }

  /** A byte, and the indentation behind a line feed that does not end the whole text. */
  function Shown(body: Text, k: nat, indent: nat): Text
    requires k < |body|
  {
    [body[k]] + (if body[k] == '\n' && k + 1 != |body| then Spaces(indent) else [])
  }

  /** A fragment printed from its first byte on. */
  lemma {:induction false} FragmentFirst(body: Text, from: nat, end: nat, indent: nat)
    requires from < end <= |body| && indent > 0
    ensures FragmentText(body, from, end, indent) == Shown(body, from, indent) + FragmentText(body, from + 1, end, indent)
    decreases end
  {
    FragmentLast(body, from, end, indent);
    if end == from + 1 {
      assert FragmentText(body, from, from, indent) == FragmentText(body, end, end, indent) == [];
    } else {
      FragmentFirst(body, from, end - 1, indent);
      FragmentLast(body, from + 1, end, indent);
      Concat3(Shown(body, from, indent), FragmentText(body, from + 1, end - 1, indent), Shown(body, end - 1, indent));
    }
  }

  lemma {:induction false} FragmentLast(body: Text, from: nat, end: nat, indent: nat)
    requires from < end <= |body| && indent > 0
    ensures FragmentText(body, from, end, indent) == FragmentText(body, from, end - 1, indent) + Shown(body, end - 1, indent)
  {
  }

  /** In an indented template every line but the first of a fragment is indented, unless nothing is left of the whole text. */
  lemma {:induction false} FragmentIndents(body: Text, from: nat, end: nat, indent: nat)
    requires from <= end <= |body| && indent > 0
    ensures FragmentText(body, from, end, indent) == Indented(Lines(body[from..end]), indent, end == |body|)
    decreases end - from
  {
    var w := body[from..end];
    if w != [] {
      var rest := Lines(body[from + 1..end]);
      assert w[1..] == body[from + 1..end];
      FragmentFirst(body, from, end, indent);
      FragmentIndents(body, from + 1, end, indent);
      LineMore(w[0], rest, indent, end == |body|);
      LinesEmpty(body[from + 1..end]);
    }
  }

  /** Only the empty text has nothing but an empty line. */
  lemma {:induction false} LinesEmpty(w: Text)
    ensures Lines(w) == [[]] <==> w == []
  {
    if w != [] {
      assert Lines(w)[0] != [];
      var empty: seq<Text> := [[]];
      assert empty[0] == [] && Lines(w) != empty;
    }
  }

  /** One byte more in front of some lines. */
  lemma {:induction false} LineMore(c: Byte, rest: seq<Text>, indent: nat, whole: bool)
    requires rest != []
    ensures c == '\n' ==> Indented([['\n']] + rest, indent, whole) ==
                          ['\n'] + (if whole && rest == [[]] then [] else Spaces(indent)) + Indented(rest, indent, whole)
    ensures Indented([[c] + rest[0]] + rest[1..], indent, whole) == [c] + Indented(rest, indent, whole)
  {
    assert ([['\n']] + rest)[1..] == rest && ([['\n']] + rest)[1] == rest[0];
    assert rest == [[]] <==> |rest| == 1 && rest[0] == [];
    var joined := [[c] + rest[0]] + rest[1..];
    assert joined[1..] == rest[1..];
    if |rest| == 1 {
      assert joined == [[c] + rest[0]];
    } else {
      assert joined[1] == rest[1];
      var gap := if whole && |rest| == 2 && rest[1] == [] then [] else Spaces(indent);
      var tail := Indented(rest[1..], indent, whole);
      assert joined[0] == [c] + rest[0] && |joined| == |rest|;
      assert Indented(rest, indent, whole) == rest[0] + gap + tail;
      assert Indented(joined, indent, whole) == [c] + rest[0] + gap + tail;
      Concat4([c], rest[0], gap, tail);
    }
  }

  /** The blanks of an indentation are spaces. */
  lemma {:induction false} SpacesAre(n: nat, i: nat)
    requires i < n
    ensures Spaces(n)[i] as int == 0x20
  {
  }
}
