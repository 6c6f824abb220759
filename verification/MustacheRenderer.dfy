/** The renderer object: a stack of contexts and the text so far, driven by the flat action table. */
module MustacheRenderer {
  import opened Bytes
  import opened MustacheTemplate
  import opened MustacheContext
  import opened MustacheRender
  import opened MustacheScanner
  import opened MustacheStandalone
  import MustacheParser

  /** A block with a laid out body and its end. */
  ghost predicate BlockAt(t: Compiled, i: nat, inner: Body) {
    && i < |t.actions| && LaidOut(t, inner, i + 1) && t.actions[i].pos == i + 1 + Width(inner) < |t.actions|
    && t.actions[t.actions[i].pos].t.CloseBlock?
  }

  /** Every block that begins in a range has a laid out body. */
  ghost predicate BlocksIn(t: Compiled, begin: nat, end: nat) {
    forall i :: begin <= i < end && i < |t.actions| && Opens(t.actions[i]) ==> exists inner :: BlockAt(t, i, inner)
  }

  lemma {:induction false} LaidOutBlocks(t: Compiled, b: Body, base: nat, end: nat)
    requires LaidOut(t, b, base) && end == base + Width(b)
    ensures BlocksIn(t, base, end)
    decreases b, 1
  {
    if b.More? {
      var next := base + ItemWidth(b.item);
      LaidOutMore(t, b.item, b.rest, base, next);
      ItemBlocks(t, b.item, base, next);
      LaidOutBlocks(t, b.rest, next, end);
    }
  }

  lemma {:induction false} ItemBlocks(t: Compiled, i: Item, base: nat, next: nat)
    requires next == base + ItemWidth(i) <= |t.actions| && t.actions[base..next] == FlatItem(i, base)
    ensures BlocksIn(t, base, next)
    decreases i, 0
  {
    match i
    case Section(name, inverted, inner) =>
      var close := base + 1 + Width(inner);
      LaidOutSection(t, name, inverted, inner, base, close);
      LaidOutBlocks(t, inner, base + 1, close);
      assert BlockAt(t, base, inner);
    case _ =>
      assert t.actions[base..next][0] == t.actions[base];
  }

  /** The first turn at a section that is skipped. */
  lemma {:induction false} InterpretSkip(t: Compiled, current: nat, end: nat, stack: seq<Context>, out: Text, indent: nat)
    requires t.Valid() && stack != [] && current < end < |t.fragments| && Within(t.actions, current, end)
    requires Opens(t.actions[current]) && Choose(t.actions[current].name, t.actions[current].t.ElseBlock?, stack).Skip?
    ensures Interpret(t, current, end, stack, out, indent) ==
            Interpret(t, t.actions[current].pos + 1, end, stack, WithFragment(t, current, indent, out), indent)
  {
  }

  /** The first turn at a section that is rendered once. */
  lemma {:induction false} InterpretOnce(t: Compiled, current: nat, end: nat, c: Context, stack: seq<Context>, out: Text, indent: nat)
    requires t.Valid() && stack != [] && current < end < |t.fragments| && Within(t.actions, current, end)
    requires Opens(t.actions[current]) && Choose(t.actions[current].name, t.actions[current].t.ElseBlock?, stack) == Once(c)
    ensures Interpret(t, current, end, stack, out, indent) ==
            Interpret(t, current + 1, end, stack + [c], WithFragment(t, current, indent, out), indent)
  {
  }

  /** A section over a list, up to its end. */
  lemma {:induction false} InterpretList(
    t: Compiled, current: nat, end: nat, items: seq<Context>, inner: Body, stack: seq<Context>, out: Text, shown: Text, indent: nat)
    requires t.Valid() && stack != [] && current < end < |t.fragments| && Within(t.actions, current, end)
    requires t.actions[current].t.OpenBlock? && Choose(t.actions[current].name, false, stack) == Each(items)
    requires BlockAt(t, current, inner) && shown == WithFragment(t, current, indent, out)
    ensures var pos, each := t.actions[current].pos, EvalEach(t, inner, current + 1, items, stack, shown, indent);
            Interpret(t, current, end, stack, out, indent) ==
              if each.None? then Failed else Interpret(t, pos + 1, end, stack, each.value, indent)
  {
    WithinBlock(t.actions, current);
    InterpretEachOnce(t, current, end, items, stack, out, shown, indent);
    EachRunsAsMeant(t, inner, current + 1, t.actions[current].pos, items, stack, shown, indent);
  }

  /** The first turn at a section over a list, with the repetition still to be interpreted. */
  lemma {:induction false} InterpretEachOnce(
    t: Compiled, current: nat, end: nat, items: seq<Context>, stack: seq<Context>, out: Text, shown: Text, indent: nat)
    requires t.Valid() && stack != [] && current < end < |t.fragments| && Within(t.actions, current, end)
    requires t.actions[current].t.OpenBlock? && Choose(t.actions[current].name, false, stack) == Each(items)
    requires shown == WithFragment(t, current, indent, out) && Within(t.actions, current + 1, t.actions[current].pos)
    ensures var pos := t.actions[current].pos;
            var each := InterpretEach(t, current + 1, pos, items, stack, shown, indent);
            Interpret(t, current, end, stack, out, indent) ==
              if each.None? then Failed else Interpret(t, pos + 1, end, stack, each.value, indent)
  {
  }

  class Renderer {
    const t: Compiled
    var stack: seq<Context>
    var out: Text

    constructor (t: Compiled, context: Context)
      ensures this.t == t && stack == [context] && out == []
    {
      this.t, stack, out := t, [context], [];
    }

    /** A template that can be rendered: well nested, all its blocks with their bodies. */
    ghost predicate Ready()
    {
      t.Valid() && BlocksIn(t, 0, |t.actions|)
    }

    method RenderFragment(k: nat, indent: nat)
      requires t.Valid() && k < |t.fragments|
      modifies `out
      ensures out == WithFragment(t, k, indent, old(out))
    {
      var from, to := t.fragments[k].0, t.fragments[k].1;
      if indent == 0 {
        out := out + Between(t.body, from, to);
        return;
      }
      ghost var start := out;
      assert start + [] == start;
      for i := from to if from < to then to else from
        invariant out == start + FragmentText(t.body, from, i, indent)
      {
        ghost var before := FragmentText(t.body, from, i, indent);
        ghost var more := if t.body[i] == '\n' && i + 1 != |t.body| then Spaces(indent) else [];
        Concat4(start, before, [t.body[i]], more);
        out := out + [t.body[i]];
        if t.body[i] == '\n' && i + 1 != |t.body| {
          out := out + Spaces(indent);
        }
        assert out == start + before + [t.body[i]] + more;
      }
    }

    /** A value tag. */
    method RenderTag(name: Text, escaped: bool) returns (ok: bool)
      requires stack != []
      modifies `out
      ensures match ShownText(name, escaped, stack) case None => !ok case Some(text) => ok && out == old(out) + text
    {
      var found := FindContext(name, stack);
      ok := true;
      if found.None? {
        assert out + [] == out;
        return;
      }
      match found.value
      case Number(shown) => out := out + shown;
      case Str(s) =>
        if escaped {
          out := Escape(s, out);
        } else {
          out := out + s;
        }
      case _ => ok := false;
    }

    /** Whether, and for what, the body of a section is rendered. */
    method ChooseSection(name: Text, inverted: bool) returns (choice: Choice)
      requires stack != []
      ensures choice == Choose(name, inverted, stack)
    {
      var found := FindContext(name, stack);
      match found
      case None => choice := if inverted then Once(Null) else Skip;
      case Some(c) =>
        match c
        case List(items) =>
          if inverted {
            choice := if items == [] then Once(Null) else Skip;
          } else {
            choice := Each(items);
          }
        case False => choice := if inverted then Once(Null) else Skip;
        case Null => choice := if inverted then Once(Null) else Skip;
        case _ => choice := if inverted then Skip else Once(c);
    }

    /** The body of a section for each element of a list. */
    method RenderEach(begin: nat, end: nat, items: seq<Context>, indent: nat, ghost inner: Body) returns (ok: bool)
      requires Ready() && stack != [] && end == begin + Width(inner) < |t.fragments|
      requires Within(t.actions, begin, end) && LaidOut(t, inner, begin)
      modifies this
      ensures if ok then EvalEach(t, inner, begin, items, old(stack), old(out), indent) == Some(out) && stack == old(stack)
              else EvalEach(t, inner, begin, items, old(stack), old(out), indent) == None
      decreases end - begin, 4
    {
      ghost var whole := EvalEach(t, inner, begin, items, stack, out, indent);
      assert items[0..] == items;
      for i := 0 to |items|
        invariant stack == old(stack) && whole == EvalEach(t, inner, begin, items[i..], stack, out, indent)
      {
        assert items[i..][0] == items[i] && items[i..][1..] == items[i + 1..];
        stack := stack + [items[i]];
        ok := RenderInternal(begin, end, indent, inner);
        if !ok {
          return;
        }
        stack := stack[..|stack| - 1];
        assert stack == old(stack);
      }
      ok := true;
    }

    /** What the interpreter still has to do after a turn of the loop is what it had to do before. */
    ghost predicate AfterStep(stack0: seq<Context>, out0: Text, current: nat, end: nat, indent: nat, ok: bool, next: nat)
      requires t.Valid() && stack0 != [] && current < end < |t.fragments| && Within(t.actions, current, end)
      reads this
    {
      if ok then
        current < next <= end && stack != []
        && Interpret(t, current, end, stack0, out0, indent) == Interpret(t, next, end, stack, out, indent)
      else Interpret(t, current, end, stack0, out0, indent) == Failed
    }

    /** A section over a list: its body for each element, then on behind its end. */
    method RenderList(current: nat, end: nat, items: seq<Context>, indent: nat) returns (ok: bool, next: nat)
      requires Ready() && stack != [] && current < end < |t.fragments| && Within(t.actions, current, end)
      requires t.actions[current].t.OpenBlock? && Choose(t.actions[current].name, false, stack) == Each(items)
      modifies this
      ensures AfterStep(old(stack), old(out), current, end, indent, ok, next)
      decreases end - current, 0
    {
      ghost var inner :| BlockAt(t, current, inner);
      WithinBlock(t.actions, current);
      next := t.actions[current].pos + 1;
      ghost var shown := WithFragment(t, current, indent, out);
      InterpretList(t, current, end, items, inner, stack, out, shown, indent);
      RenderFragment(current, indent);
      ok := RenderEach(current + 1, next - 1, items, indent, inner);
    }

    /** A section at its beginning. */
    method RenderSection(current: nat, end: nat, indent: nat) returns (ok: bool, next: nat)
      requires Ready() && stack != [] && current < end < |t.fragments| && Within(t.actions, current, end)
      requires Opens(t.actions[current])
      modifies this
      ensures AfterStep(old(stack), old(out), current, end, indent, ok, next)
      decreases end - current, 1
    {
      var choice := ChooseSection(t.actions[current].name, t.actions[current].t.ElseBlock?);
      match choice
      case Each(items) => ok, next := RenderList(current, end, items, indent);
      case Skip => ok, next := RenderSkipped(current, end, indent);
      case Once(c) => ok, next := RenderOnce(current, end, c, indent);
    }

    method RenderSkipped(current: nat, end: nat, indent: nat) returns (ok: bool, next: nat)
      requires Ready() && stack != [] && current < end < |t.fragments| && Within(t.actions, current, end)
      requires Opens(t.actions[current]) && Choose(t.actions[current].name, t.actions[current].t.ElseBlock?, stack).Skip?
      modifies this
      ensures AfterStep(old(stack), old(out), current, end, indent, ok, next)
    {
      InterpretSkip(t, current, end, stack, out, indent);
      RenderFragment(current, indent);
      ok, next := true, t.actions[current].pos + 1;
    }

    method RenderOnce(current: nat, end: nat, c: Context, indent: nat) returns (ok: bool, next: nat)
      requires Ready() && stack != [] && current < end < |t.fragments| && Within(t.actions, current, end)
      requires Opens(t.actions[current]) && Choose(t.actions[current].name, t.actions[current].t.ElseBlock?, stack) == Once(c)
      modifies this
      ensures AfterStep(old(stack), old(out), current, end, indent, ok, next)
    {
      InterpretOnce(t, current, end, c, stack, out, indent);
      RenderFragment(current, indent);
      stack := stack + [c];
      ok, next := true, current + 1;
    }

    /** One turn of the loop. */
    method Step(current: nat, end: nat, indent: nat) returns (ok: bool, next: nat)
      requires Ready() && stack != [] && current < end < |t.fragments| && Within(t.actions, current, end)
      modifies this
      ensures AfterStep(old(stack), old(out), current, end, indent, ok, next)
      decreases end - current, 2
    {
      var a := t.actions[current];
      ok, next := true, current + 1;
      match a.t
      case Ignore => RenderFragment(current, indent);
      case TagAction =>
        RenderFragment(current, indent);
        ok := RenderTag(a.name, true);
      case UnescapeTag =>
        RenderFragment(current, indent);
        ok := RenderTag(a.name, false);
      case CloseBlock =>
        RenderFragment(current, indent);
        stack := Popped(stack);
      case OpenBlock => ok, next := RenderSection(current, end, indent);
      case ElseBlock => ok, next := RenderSection(current, end, indent);
    }

    /**
     * Interprets the actions of a laid out body: the text added is what the body means in the stack of contexts, the
     * stack is as it was, and a value that cannot be shown fails the rendering exactly when it fails the meaning.
     */
    method RenderInternal(begin: nat, end: nat, indent: nat, ghost b: Body) returns (ok: bool)
      requires Ready() && stack != [] && end == begin + Width(b) < |t.fragments|
      requires Within(t.actions, begin, end) && LaidOut(t, b, begin)
      modifies this
      ensures if ok then Eval(t, b, begin, old(stack), old(out) + Spaces(indent), indent) == Some(out) && stack == old(stack)
              else Eval(t, b, begin, old(stack), old(out) + Spaces(indent), indent) == None
      decreases end - begin, 3
    {
      ghost var start, indented := stack, out + Spaces(indent);
      if indent > 0 {
        out := out + Spaces(indent);
      }
      assert out == indented;
      RunsAsMeant(t, b, begin, end, end, start, indented, indent);
      var current := begin;
      while current < end
        invariant begin <= current <= end && stack != []
        invariant Interpret(t, begin, end, start, indented, indent) == Interpret(t, current, end, stack, out, indent)
      {
        var next;
        ok, next := Step(current, end, indent);
        if !ok {
          return;
        }
        current := next;
      }
      RenderFragment(end, indent);
      ok := true;
    }
  }

  /** A template compiled from well nested tags can be rendered. */
  lemma {:induction false} CompiledIsReady(t: Compiled, tree: Body)
    requires t.actions == Flat(tree, 0) + [Action(Ignore, [], 0)] && |t.fragments| == |t.actions|
    requires forall i :: 0 <= i < |t.fragments| ==> t.fragments[i].0 <= |t.body| && t.fragments[i].1 <= |t.body|
    ensures t.Valid() && LaidOut(t, tree, 0) && BlocksIn(t, 0, |t.actions|) && Within(t.actions, 0, Width(tree))
  {
    var n := Width(tree);
    FlatNested(tree, 0);
    NestedInFront(Flat(tree, 0), t.actions);
    assert t.actions[0..n] == Flat(tree, 0);
    LaidOutBlocks(t, tree, 0, n);
  }

  lemma {:induction false} NestedInFront(flat: seq<Action>, actions: seq<Action>)
    requires NestedAt(flat, 0) && actions == flat + [Action(Ignore, [], 0)]
    ensures Nested(actions) && Within(actions, 0, |flat|)
  {
    assert forall i :: 0 <= i < |flat| ==> actions[i] == flat[i];
  }

  /** What compiling a text gives: its tags' actions, and the text between them without the lines of lone tags. */
  ghost predicate CompiledFrom(t: Compiled, tree: Body, s: Text) {
    var scanned := ScanAll(s);
    && t.body == s && TagsOf(tree) == TagsIn(s) && t.actions == Flat(tree, 0) + [Action(Ignore, [], 0)]
    && |t.fragments| == |scanned.fragments| == |t.actions| && Bounded(s, scanned.fragments)
    && forall i :: 0 <= i < |t.fragments| ==> t.fragments[i] == Trimmed(s, scanned.fragments, t.actions, i)
  }

  /**
   * The whole way: a text is compiled, and the result is rendered in a context. Compiling succeeds exactly for texts without
   * an error whose end tags all name the block that is open. When no block is left open, the text rendered is what the tree
   * of sections means there, and rendering fails only when that fails.
   */
  method Render(s: Text, context: Context) returns (compiled: bool, closed: bool, ok: bool, text: Text, ghost t: Compiled, ghost tree: Body)
    requires MustacheParser.NeverOverclosed(TagsIn(s), []) && PartialFree(ScanAll(s).marks)
    ensures compiled <==> ScanAll(s).error.None? && MustacheParser.Accepted(TagsIn(s), [])
    ensures closed <==> ScanAll(s).error.None? && MustacheParser.WellNested(TagsIn(s), [])
    ensures closed ==> CompiledFrom(t, tree, s) && t.Valid() && Width(tree) < |t.fragments|
    ensures closed ==> Eval(t, tree, 0, [context], [], 0) == if ok then Some(text) else None
  {
    var template := new MustacheParser.Template();
    ghost var levels;
    compiled, levels := template.Parse(s);
    closed := compiled && template.blockPositions == [];
    ok, text, t, tree := false, [], Compiled(s, template.fragments, template.actions), End;
    MustacheParser.NestedLeavesNone(TagsIn(s), []);
    if compiled {
      MustacheParser.CompiledTree(TagsIn(s), levels, template.actions, template.blockPositions);
    }
    if closed {
      tree := levels[0].items;
      ok, text := RenderCompiled(Compiled(s, template.fragments, template.actions), context, tree);
    }
  }

  method RenderCompiled(t: Compiled, context: Context, ghost tree: Body) returns (ok: bool, text: Text)
    requires CompiledFrom(t, tree, t.body)
    ensures t.Valid() && Width(tree) < |t.fragments|
    ensures Eval(t, tree, 0, [context], [], 0) == if ok then Some(text) else None
  {
    CompiledIsReady(t, tree);
    var renderer := new Renderer(t, context);
    assert [] + Spaces(0) == [];
    ok := renderer.RenderInternal(0, |t.fragments| - 1, 0, tree);
    text := renderer.out;
  }
}
