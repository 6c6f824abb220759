/** Rendering a template that left a block open: skipping the block leads back to the second action, for ever. */
module MustacheOpenBlock {
  import opened Bytes
  import opened MustacheTemplate
  import opened MustacheContext
  import opened MustacheRender
  import opened MustacheParser
  import opened MustachePrinted
  import MustacheScanner

  /** Where the interpreter's loop is. */
  datatype Loop = Loop(current: nat, stack: seq<Context>, out: Text)

  /** The fragments of a compiled template are inside its text. Nothing is asked of its blocks. */
  ghost predicate Whole(t: Compiled) {
    && |t.fragments| == |t.actions| > 0
    && forall i :: 0 <= i < |t.fragments| ==> t.fragments[i].0 <= |t.body| && t.fragments[i].1 <= |t.body|
  }

  /** One turn of the loop up to the last action; none where it is over, where it fails, and where a list is rendered. */
  ghost function Turn(t: Compiled, at: Loop, indent: nat): Option<Loop>
    requires Whole(t) && at.stack != []
    ensures var r := Turn(t, at, indent); r.Some? ==> r.value.stack != []
  {
    if at.current + 1 >= |t.actions| then None
    else
      var a, f := t.actions[at.current], t.fragments[at.current];
      var on := Loop(at.current + 1, at.stack, at.out + FragmentText(t.body, f.0, f.1, indent));
      match a.t
      case Ignore => Some(on)
      case CloseBlock => Some(on.(stack := Popped(at.stack)))
      case TagAction => Showing(on, ShownText(a.name, true, at.stack))
      case UnescapeTag => Showing(on, ShownText(a.name, false, at.stack))
      case _ =>
        match Choose(a.name, a.t.ElseBlock?, at.stack)
        case Skip => Some(on.(current := a.pos + 1))
        case Once(c) => Some(on.(stack := at.stack + [c]))
        case Each(_) => None
  }

  function Showing(on: Loop, text: Option<Text>): Option<Loop> {
    if text.None? then None else Some(on.(out := on.out + text.value))
  }

  /** Some turns of the loop. */
  ghost function Turns(t: Compiled, at: Loop, n: nat, indent: nat): Option<Loop>
    requires Whole(t) && at.stack != []
    ensures var r := Turns(t, at, n, indent); r.Some? ==> r.value.stack != []
  {
    if n == 0 then Some(at)
    else
      var before := Turns(t, at, n - 1, indent);
      if before.None? then None else Turn(t, before.value, indent)
  }

  /** Where all blocks are ended, a turn is what the interpreter does first. */
  lemma {:induction false} TurnIsInterpreted(t: Compiled, at: Loop, indent: nat)
    requires t.Valid() && Whole(t) && at.stack != [] && at.current < |t.actions| && Within(t.actions, at.current, |t.actions| - 1)
    requires Turn(t, at, indent).Some?
    ensures var next, end := Turn(t, at, indent).value, |t.actions| - 1;
            next.current <= end && Within(t.actions, next.current, end)
            && Interpret(t, at.current, end, at.stack, at.out, indent) == Interpret(t, next.current, end, next.stack, next.out, indent)
  {
  }

  /** An action that shows what it can show, or nothing. */
  predicate Passes(a: Action, stack: seq<Context>)
    requires stack != []
  {
    a.t.Ignore? || (a.t.TagAction? && ShownText(a.name, true, stack).Some?) || (a.t.UnescapeTag? && ShownText(a.name, false, stack).Some?)
  }

  /** A skipped block at `i` whose position was never set, behind actions that are passed. */
  ghost predicate Trap(t: Compiled, i: nat, stack: seq<Context>) {
    && Whole(t) && stack != [] && 0 < i < |t.actions| - 1 && Opens(t.actions[i]) && t.actions[i].pos == 0
    && Choose(t.actions[i].name, t.actions[i].t.ElseBlock?, stack).Skip?
    && forall k :: 1 <= k < i ==> Passes(t.actions[k], stack)
  }

  lemma {:induction false} TurnInTrap(t: Compiled, i: nat, at: Loop, indent: nat)
    requires Trap(t, i, at.stack) && 1 <= at.current <= i
    ensures var r := Turn(t, at, indent); r.Some? && 1 <= r.value.current <= i && r.value.stack == at.stack
  {
  }

  /** Once the loop is behind the first action, it is never over: after any number of turns it is still before the block. */
  lemma {:induction false} NeverOver(t: Compiled, i: nat, at: Loop, n: nat, indent: nat)
    requires Trap(t, i, at.stack) && 1 <= at.current <= i
    ensures var r := Turns(t, at, n, indent); r.Some? && 1 <= r.value.current <= i && r.value.stack == at.stack
    decreases n
  {
    if n > 0 {
      NeverOver(t, i, at, n - 1, indent);
      TurnInTrap(t, i, Turns(t, at, n - 1, indent).value, indent);
    }
  }

  /**
   * A template that was accepted with a block left open, rendered in a context in which that block is skipped: if only tags
   * that show what they can are before it, and at least one, the loop is never over.
   */
  lemma {:induction false} SkippedOpenBlock(
    t: Compiled, tags: seq<Tag>, levels: seq<Level>, positions: seq<nat>, context: Context, n: nat)
    requires Whole(t) && CompiledLevels(tags, levels, t.actions, positions) && positions != [] && positions[0] > 0
    requires forall k :: 0 <= k < positions[0] && k < |t.actions| ==> Passes(t.actions[k], [context])
    requires forall k :: 0 <= k < |t.actions| && k == positions[0] ==> Choose(t.actions[k].name, t.actions[k].t.ElseBlock?, [context]).Skip?
    ensures var r := Turns(t, Loop(0, [context], []), n, 0); r.Some? && r.value.current < |t.actions| - 1
  {
    var i, start := positions[0], Loop(0, [context], []);
    LeftOpenUnset(tags, levels, t.actions, positions, 0);
    assert i < |t.actions| - 1;
    if n > 0 {
      TurnsFrom(t, start, n - 1);
      NeverOver(t, i, Turn(t, start, 0).value, n - 1, 0);
    }
  }

  /** The first turn, and the others. */
  lemma {:induction false} TurnsFrom(t: Compiled, at: Loop, n: nat)
    requires Whole(t) && at.stack != [] && Turn(t, at, 0).Some?
    ensures Turns(t, at, n + 1, 0) == Turns(t, Turn(t, at, 0).value, n, 0)
    decreases n
  {
    if n > 0 {
      TurnsFrom(t, at, n - 1);
    } else {
      assert Turns(t, at, 0, 0) == Some(at);
    }
  }

  /** A body of one tag that shows a value. */
  lemma {:induction false} OneValue(b: Body, x: Text)
    requires TagsOf(b) == [Show(x, true)]
    ensures Flat(b, 0) == [Action(TagAction, x, 0)]
  {
    TagsFitActions(b);
    TagsFitActions(b.rest);
    assert TagsOf(b)[0] == ItemTags(b.item)[0];
    assert b.rest == End;
  }

  /** The two actions of a value and a block left open. */
  lemma {:induction false} ValueAndBlock(x: Text, a: Text, levels: seq<Level>, actions: seq<Action>, positions: seq<nat>)
    requires CompiledLevels([Show(x, true), OpenTag(a, false)], levels, actions, positions)
    ensures positions == [1] && |actions| == 3 && actions[0] == Action(TagAction, x, 0) && actions[1].name == a && actions[1].t.OpenBlock?
  {
    var tags: seq<Tag> := [Show(x, true), OpenTag(a, false)];
    assert tags[1..] == [OpenTag(a, false)] && tags[1..][1..] == [] && [] + [a] == [a];
    assert LeftOpen(tags[1..], []) == LeftOpen([], [a]);
    OneLevelNoNames(levels);
    var outer, inner := levels[..1], levels[1];
    var before := TagsOf(outer[0].items);
    assert LevelTags(levels) == before + [OpenTag(inner.name, inner.inverted)] + TagsOf(inner.items);
    assert tags[|before|] == OpenTag(inner.name, inner.inverted);
    assert before == tags[..1] == [Show(x, true)];
    OneValue(outer[0].items, x);
    TagsFitActions(inner.items);
    LevelAt(levels, 0);
    assert LevelActions(outer) == Flat(outer[0].items, 0);
  }

  /** A value that can be shown, then a block that is skipped and never ended: the template is never rendered. */
  lemma {:induction false} ValueThenOpenBlock(
    t: Compiled, x: Text, a: Text, levels: seq<Level>, positions: seq<nat>, context: Context, n: nat)
    requires Whole(t) && CompiledLevels([Show(x, true), OpenTag(a, false)], levels, t.actions, positions)
    requires ShownText(x, true, [context]).Some? && Choose(a, false, [context]).Skip?
    ensures var r := Turns(t, Loop(0, [context], []), n, 0); r.Some? && r.value.current < |t.actions| - 1
  {
    ValueAndBlock(x, a, levels, t.actions, positions);
    SkippedOpenBlock(t, [Show(x, true), OpenTag(a, false)], levels, positions, context, n);
  }

  lemma {:induction false} NothingFound(name: Text)
    requires name != [DOT]
    ensures ShownText(name, true, [Null]) == Some([]) && Choose(name, false, [Null]).Skip?
  {
    var stack: seq<Context> := [Null];
    assert stack[..|stack| - 1] == [] && Search([], Names(name)) == None;
    assert Search(stack, Names(name)) == None;
  }

  const ENDLESS: seq<Tag> := [Show("x", true), OpenTag("a", false)]

  /** The smallest such template is accepted; in a context without any names it is never rendered. */
  lemma {:induction false} EndlessTemplate(t: Compiled, s: Text, levels: seq<Level>, positions: seq<nat>, n: nat)
    requires s == "{{x}}{{#a}}" && Whole(t) && CompiledLevels(MustacheScanner.TagsIn(s), levels, t.actions, positions)
    ensures MustacheScanner.ScanAll(s).error.None? && Accepted(MustacheScanner.TagsIn(s), [])
    ensures var r := Turns(t, Loop(0, [Null], []), n, 0); r.Some? && r.value.current < |t.actions| - 1
  {
    EndlessTags(s);
    NothingFound("x");
    NothingFound("a");
    ValueThenOpenBlock(t, "x", "a", levels, positions, Null, n);
  }

  lemma {:induction false} EndlessTags(s: Text)
    requires s == "{{x}}{{#a}}"
    ensures MustacheScanner.ScanAll(s).error.None? && MustacheScanner.TagsIn(s) == ENDLESS && Accepted(ENDLESS, [])
  {
    EndlessWritten();
    WrittenReads(["", "", ""], ENDLESS);
    assert Accepted(ENDLESS[1..], []) && Accepted(ENDLESS, []);
  }

  lemma {:induction false} EndlessWritten()
    ensures Written(["", "", ""], ENDLESS) == "{{x}}{{#a}}" && AllWritable(["", "", ""], ENDLESS)
  {
    var texts: seq<Text>, open := ["", "", ""], ENDLESS[1];
    EndlessWritable();
    assert TagText(ENDLESS[0]) == "{{x}}" && TagText(open) == "{{#a}}";
    assert texts[1..] == ["", ""] && texts[1..][1..] == [""] && ENDLESS[1..] == [open] && ENDLESS[1..][1..] == [];
    assert Written([""], []) == "" && Written(["", ""], [open]) == "{{#a}}";
  }

  lemma {:induction false} EndlessWritable()
    ensures Writable(ENDLESS[0]) && Writable(ENDLESS[1])
  {
    assert Content(ENDLESS[1]) + MustacheScanner.DEFAULT.close == "#a}}";
    assert !MustacheScanner.Matches("#a}}", 0, "}}") && !MustacheScanner.Matches("#a}}", 1, "}}");
    assert Content(ENDLESS[0]) + MustacheScanner.DEFAULT.close == "x}}";
    assert !MustacheScanner.Matches("x}}", 0, "}}");
  }
}
