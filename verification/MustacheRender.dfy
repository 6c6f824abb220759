/** Rendering: the interpreter of the flat action table with its jumps, against the meaning of the tree of sections. */
module MustacheRender {
  import opened Bytes
  import opened MustacheTemplate
  import opened MustacheContext

  /** A compiled template: the fragments of its text, one before each action and one at the end, and the actions. */
  datatype Compiled = Compiled(body: Text, fragments: seq<(nat, nat)>, actions: seq<Action>)
  {
    ghost predicate Valid() {
      && |fragments| == |actions| && Nested(actions)
      && forall i :: 0 <= i < |fragments| ==> fragments[i].0 <= |body| && fragments[i].1 <= |body|
    }
  }

  function Spaces(n: nat): (r: Text)
    ensures |r| == n
  {
    seq(n, _ => ' ')
  }

  // ---------------------------------------------------------------- what tags show

  /** A fragment; in an indented template its lines, but for one that ends the whole text, are indented. */
  function FragmentText(body: Text, from: nat, end: nat, indent: nat): Text
    requires from <= |body| && end <= |body|
    decreases end
  {
    if indent == 0 then Between(body, from, end)
    else if from >= end then []
    else
      FragmentText(body, from, end - 1, indent) + [body[end - 1]]
      + (if body[end - 1] == '\n' && end != |body| then Spaces(indent) else [])
  }

  /** What a tag shows: numbers, and strings escaped or not; a name that is not found shows nothing, other values fail. */
  function ShownText(name: Text, escaped: bool, stack: seq<Context>): Option<Text>
    requires stack != []
  {
    match Find(name, stack)
    case None => Some([])
    case Some(Number(shown)) => Some(shown)
    case Some(Str(s)) => Some(if escaped then Escaped(s) else s)
    case _ => None
  }

  /** What a section does with its inner body. */
  datatype Choice = Skip | Once(c: Context) | Each(items: seq<Context>)

  function Choose(name: Text, inverted: bool, stack: seq<Context>): Choice
    requires stack != []
  {
    match Find(name, stack)
    case None => if inverted then Once(Null) else Skip
    case Some(c) =>
      match c
      case List(items) =>
        if inverted then (if items == [] then Once(Null) else Skip) else Each(items)
      case False => if inverted then Once(Null) else Skip
      case Null => if inverted then Once(Null) else Skip
      case _ => if inverted then Skip else Once(c)
  }

  // ---------------------------------------------------------------- the meaning of a tree

  /** The text of fragment `k` after `out`. */
  function WithFragment(t: Compiled, k: nat, indent: nat, out: Text): Text
    requires t.Valid() && k < |t.fragments|
  {
    out + FragmentText(t.body, t.fragments[k].0, t.fragments[k].1, indent)
  }

  /** A body, whose first fragment is `base`, in a stack of contexts, printed after `out`. */
  function Eval(t: Compiled, b: Body, base: nat, stack: seq<Context>, out: Text, indent: nat): Option<Text>
    requires t.Valid() && stack != [] && base + Width(b) < |t.fragments|
    decreases b, 1, 0
  {
    var shown := WithFragment(t, base, indent, out);
    match b
    case End => Some(shown)
    case More(item, rest) =>
      var after := EvalItem(t, item, base, stack, shown, indent);
      if after.None? then None else Eval(t, rest, base + ItemWidth(item), stack, after.value, indent)
  }

  function EvalItem(t: Compiled, i: Item, base: nat, stack: seq<Context>, out: Text, indent: nat): Option<Text>
    requires t.Valid() && stack != [] && base + ItemWidth(i) < |t.fragments|
    decreases i, 0, 0
  {
    match i
    case Ignored => Some(out)
    case Shown(name, escaped) =>
      var text := ShownText(name, escaped, stack);
      if text.None? then None else Some(out + text.value)
    case Section(name, inverted, inner) =>
      match Choose(name, inverted, stack)
      case Skip => Some(out)
      case Once(c) => Eval(t, inner, base + 1, stack + [c], out, indent)
      case Each(items) => EvalEach(t, inner, base + 1, items, stack, out, indent)
  }

  /** The body once for each of some contexts. */
  function EvalEach(t: Compiled, b: Body, base: nat, items: seq<Context>, stack: seq<Context>, out: Text, indent: nat): Option<Text>
    requires t.Valid() && stack != [] && base + Width(b) < |t.fragments|
    decreases b, 2, |items|
  {
    if items == [] then Some(out)
    else
      var first := Eval(t, b, base, stack + [items[0]], out + Spaces(indent), indent);
      if first.None? then None else EvalEach(t, b, base, items[1..], stack, first.value, indent)
  }

  // ---------------------------------------------------------------- the flat interpreter

  /** A result: the text, and the stack of contexts at the end. */
  datatype Result = Failed | Done(out: Text, stack: seq<Context>)

  /** Blocks begun before `end` end before it. */
  ghost predicate Within(actions: seq<Action>, begin: nat, end: nat) {
    end <= |actions| && forall i :: begin <= i < end && Opens(actions[i]) ==> actions[i].pos < end
  }

  lemma {:induction false} WithinBlock(actions: seq<Action>, i: nat)
    requires Nested(actions) && i < |actions| && Opens(actions[i])
    ensures Within(actions, i + 1, actions[i].pos)
  {
  }

  /** The stack without its top; the bottom stays. */
  function Popped(stack: seq<Context>): (r: seq<Context>)
    requires stack != []
    ensures r != []
  {
    if |stack| > 1 then stack[..|stack| - 1] else stack
  }

  /** The loop from action `current` to `end`, as the value it computes. */
  ghost function Interpret(t: Compiled, current: nat, end: nat, stack: seq<Context>, out: Text, indent: nat): Result
    requires t.Valid() && stack != [] && current <= end < |t.fragments| && Within(t.actions, current, end)
    decreases end - current, 0, 0
  {
    var shown := WithFragment(t, current, indent, out);
    if current == end then Done(shown, stack)
    else
      var a := t.actions[current];
      match a.t
      case Ignore => Interpret(t, current + 1, end, stack, shown, indent)
      case CloseBlock => Interpret(t, current + 1, end, Popped(stack), shown, indent)
      case TagAction =>
        var text := ShownText(a.name, true, stack);
        if text.None? then Failed else Interpret(t, current + 1, end, stack, shown + text.value, indent)
      case UnescapeTag =>
        var text := ShownText(a.name, false, stack);
        if text.None? then Failed else Interpret(t, current + 1, end, stack, shown + text.value, indent)
      case ElseBlock =>
        if Choose(a.name, true, stack).Skip? then Interpret(t, a.pos + 1, end, stack, shown, indent)
        else Interpret(t, current + 1, end, stack + [Null], shown, indent)
      case OpenBlock =>
        match Choose(a.name, false, stack)
        case Skip => Interpret(t, a.pos + 1, end, stack, shown, indent)
        case Once(c) => Interpret(t, current + 1, end, stack + [c], shown, indent)
        case Each(items) =>
          WithinBlock(t.actions, current);
          var each := InterpretEach(t, current + 1, a.pos, items, stack, shown, indent);
          if each.None? then Failed else Interpret(t, a.pos + 1, end, stack, each.value, indent)
  }

  ghost function InterpretEach(t: Compiled, begin: nat, end: nat, items: seq<Context>, stack: seq<Context>, out: Text, indent: nat)
    : Option<Text>
    requires t.Valid() && stack != [] && begin <= end < |t.fragments| && Within(t.actions, begin, end)
    decreases end - begin, 1, |items|
  {
    if items == [] then Some(out)
    else
      var first := Interpret(t, begin, end, stack + [items[0]], out + Spaces(indent), indent);
      if first.Failed? then None else InterpretEach(t, begin, end, items[1..], stack, first.out, indent)
  }

  // ---------------------------------------------------------------- compiler correctness

  /** The actions from `base` on are those of the body. */
  ghost predicate LaidOut(t: Compiled, b: Body, base: nat) {
    base + Width(b) <= |t.actions| && t.actions[base..base + Width(b)] == Flat(b, base)
  }

  /** What follows a body in the interpreter: the end of the range, or the end of the block. */
  ghost function After(t: Compiled, r: Option<Text>, stop: nat, end: nat, stack: seq<Context>, indent: nat): Result
    requires t.Valid() && stack != [] && stop <= end < |t.fragments| && Within(t.actions, stop, end)
  {
    if r.None? then Failed
    else if stop == end then Done(r.value, stack)
    else Interpret(t, stop + 1, end, Popped(stack), r.value, indent)
  }

  lemma {:induction false} LaidOutMore(t: Compiled, item: Item, rest: Body, base: nat, next: nat)
    requires LaidOut(t, More(item, rest), base) && next == base + ItemWidth(item)
    ensures next <= |t.actions| && t.actions[base..next] == FlatItem(item, base) && LaidOut(t, rest, next)
  {
    var stop := next + Width(rest);
    var all := t.actions[base..stop];
    FlatMore(item, rest, base, next);
    assert all == Flat(More(item, rest), base);
    assert t.actions[base..next] == all[..ItemWidth(item)];
    assert t.actions[next..stop] == all[ItemWidth(item)..];
  }

  /** Where a section's parts are. */
  lemma {:induction false} LaidOutSection(t: Compiled, name: Text, inverted: bool, inner: Body, base: nat, close: nat)
    requires close == base + 1 + Width(inner) && close < |t.actions|
    requires t.actions[base..close + 1] == FlatItem(Section(name, inverted, inner), base)
    ensures t.actions[base] == Action(if inverted then ElseBlock else OpenBlock, name, close)
    ensures LaidOut(t, inner, base + 1) && t.actions[close].t.CloseBlock?
  {
    var part, inside := t.actions[base..close + 1], Flat(inner, base + 1);
    BlockParts(part, Action(if inverted then ElseBlock else OpenBlock, name, close), inside, Action(CloseBlock, name, base));
    SubSlice(t.actions, base, close + 1, 1, |inside| + 1);
  }

  lemma {:induction false} BlockParts(part: seq<Action>, open: Action, inside: seq<Action>, close: Action)
    requires part == [open] + inside + [close]
    ensures part[0] == open && part[1..|inside| + 1] == inside && part[|inside| + 1] == close
  {
  }

  lemma {:induction false} SubSlice<T>(s: seq<T>, a: nat, b: nat, c: nat, d: nat)
    requires a <= b <= |s| && c <= d <= b - a
    ensures s[a..b][c..d] == s[a + c..a + d]
  {
    var part := s[a..b];
    var l, r := part[c..d], s[a + c..a + d];
    forall k | 0 <= k < |l| ensures l[k] == r[k] {
      assert l[k] == part[c + k] == s[a + (c + k)];
    }
  }

  /** A laid out body runs as it means, whatever follows it. */
  lemma {:induction false} RunsAsMeant(t: Compiled, b: Body, current: nat, stop: nat, end: nat, stack: seq<Context>, out: Text, indent: nat)
    requires t.Valid() && stack != [] && stop == current + Width(b) <= end < |t.fragments|
    requires Within(t.actions, current, end) && LaidOut(t, b, current)
    requires stop < end ==> t.actions[stop].t.CloseBlock?
    ensures Interpret(t, current, end, stack, out, indent) == After(t, Eval(t, b, current, stack, out, indent), stop, end, stack, indent)
    decreases b, 1, 0
  {
    if b.More? {
      var next := current + ItemWidth(b.item);
      LaidOutMore(t, b.item, b.rest, current, next);
      var shown := WithFragment(t, current, indent, out);
      ItemRunsAsMeant(t, b.item, current, next, end, stack, out, shown, indent);
      var after := EvalItem(t, b.item, current, stack, shown, indent);
      if after.Some? {
        RunsAsMeant(t, b.rest, next, stop, end, stack, after.value, indent);
      }
      EvalMore(t, b.item, b.rest, current, next, stack, out, shown, after, indent);
    } else {
      EndRuns(t, current, end, stack, out, indent);
    }
  }

  lemma {:induction false} EvalMore(
    t: Compiled, item: Item, rest: Body, current: nat, next: nat, stack: seq<Context>, out: Text, shown: Text, after: Option<Text>,
    indent: nat)
    requires t.Valid() && stack != [] && next == current + ItemWidth(item) && next + Width(rest) < |t.fragments|
    requires shown == WithFragment(t, current, indent, out) && after == EvalItem(t, item, current, stack, shown, indent)
    ensures Eval(t, More(item, rest), current, stack, out, indent) ==
            if after.None? then None else Eval(t, rest, next, stack, after.value, indent)
  {
  }

  lemma {:induction false} EndRuns(t: Compiled, current: nat, end: nat, stack: seq<Context>, out: Text, indent: nat)
    requires t.Valid() && stack != [] && current <= end < |t.fragments| && Within(t.actions, current, end)
    requires current < end ==> t.actions[current].t.CloseBlock?
    ensures Interpret(t, current, end, stack, out, indent) ==
            After(t, Some(WithFragment(t, current, indent, out)), current, end, stack, indent)
  {
  }

  /** One item of a body. */
  lemma {:induction false} ItemRunsAsMeant(
    t: Compiled, i: Item, current: nat, next: nat, end: nat, stack: seq<Context>, out: Text, shown: Text, indent: nat)
    requires t.Valid() && stack != [] && next == current + ItemWidth(i) <= end < |t.fragments|
    requires Within(t.actions, current, end) && t.actions[current..next] == FlatItem(i, current)
    requires shown == WithFragment(t, current, indent, out)
    ensures Interpret(t, current, end, stack, out, indent) ==
            var after := EvalItem(t, i, current, stack, shown, indent);
            if after.None? then Failed else Interpret(t, next, end, stack, after.value, indent)
    decreases i, 0, 0
  {
    if i.Section? {
      var close := current + 1 + Width(i.inner);
      LaidOutSection(t, i.name, i.inverted, i.inner, current, close);
      SectionRunsAsMeant(t, i, current, close, end, stack, out, shown, indent);
    } else {
      var part := t.actions[current..next];
      assert part[0] == t.actions[current];
      PlainRuns(t, i, current, end, stack, out, shown, indent);
    }
  }

  lemma {:induction false} PlainRuns(
    t: Compiled, i: Item, current: nat, end: nat, stack: seq<Context>, out: Text, shown: Text, indent: nat)
    requires !i.Section? && t.Valid() && stack != [] && current < end < |t.fragments| && Within(t.actions, current, end)
    requires [t.actions[current]] == FlatItem(i, current) && shown == WithFragment(t, current, indent, out)
    ensures Interpret(t, current, end, stack, out, indent) ==
            var after := EvalItem(t, i, current, stack, shown, indent);
            if after.None? then Failed else Interpret(t, current + 1, end, stack, after.value, indent)
  {
  }

  /** Where a section is, and what comes after it. */
  ghost predicate SectionAt(t: Compiled, i: Item, current: nat, close: nat, end: nat, stack: seq<Context>) {
    && i.Section? && t.Valid() && stack != [] && close == current + 1 + Width(i.inner) && close < end < |t.fragments|
    && Within(t.actions, current, end) && LaidOut(t, i.inner, current + 1) && t.actions[close].t.CloseBlock?
    && t.actions[current] == Action(if i.inverted then ElseBlock else OpenBlock, i.name, close)
  }

  ghost function AfterSection(t: Compiled, r: Option<Text>, close: nat, end: nat, stack: seq<Context>, indent: nat): Result
    requires t.Valid() && stack != [] && close < end < |t.fragments| && Within(t.actions, close + 1, end)
  {
    if r.None? then Failed else Interpret(t, close + 1, end, stack, r.value, indent)
  }

  lemma {:induction false} SectionRunsAsMeant(
    t: Compiled, i: Item, current: nat, close: nat, end: nat, stack: seq<Context>, out: Text, shown: Text, indent: nat)
    requires SectionAt(t, i, current, close, end, stack) && shown == WithFragment(t, current, indent, out)
    ensures Interpret(t, current, end, stack, out, indent) ==
            AfterSection(t, EvalItem(t, i, current, stack, shown, indent), close, end, stack, indent)
    decreases i.inner, 3, 0
  {
    match Choose(i.name, i.inverted, stack)
    case Skip => SkipRuns(t, i, current, close, end, stack, out, shown, indent);
    case Once(c) =>
      OnceRunsAsMeant(t, i, c, current, close, end, stack, shown, indent);
      OnceRuns(t, i, c, current, close, end, stack, out, shown, indent);
    case Each(items) =>
      WithinBlock(t.actions, current);
      EachRunsAsMeant(t, i.inner, current + 1, close, items, stack, shown, indent);
      EachRuns(t, i, items, current, close, end, stack, out, shown, indent);
  }

  lemma {:induction false} SkipRuns(
    t: Compiled, i: Item, current: nat, close: nat, end: nat, stack: seq<Context>, out: Text, shown: Text, indent: nat)
    requires SectionAt(t, i, current, close, end, stack) && shown == WithFragment(t, current, indent, out)
    requires Choose(i.name, i.inverted, stack).Skip?
    ensures Interpret(t, current, end, stack, out, indent) ==
            AfterSection(t, EvalItem(t, i, current, stack, shown, indent), close, end, stack, indent)
  {
  }

  lemma {:induction false} OnceRuns(
    t: Compiled, i: Item, c: Context, current: nat, close: nat, end: nat, stack: seq<Context>, out: Text, shown: Text, indent: nat)
    requires SectionAt(t, i, current, close, end, stack) && shown == WithFragment(t, current, indent, out)
    requires Choose(i.name, i.inverted, stack) == Once(c)
    requires Interpret(t, current + 1, end, stack + [c], shown, indent) ==
             AfterSection(t, Eval(t, i.inner, current + 1, stack + [c], shown, indent), close, end, stack, indent)
    ensures Interpret(t, current, end, stack, out, indent) ==
            AfterSection(t, EvalItem(t, i, current, stack, shown, indent), close, end, stack, indent)
  {
  }

  lemma {:induction false} EachRuns(
    t: Compiled, i: Item, items: seq<Context>, current: nat, close: nat, end: nat, stack: seq<Context>, out: Text, shown: Text, indent: nat)
    requires SectionAt(t, i, current, close, end, stack) && shown == WithFragment(t, current, indent, out)
    requires Choose(i.name, i.inverted, stack) == Each(items) && Within(t.actions, current + 1, close)
    requires InterpretEach(t, current + 1, close, items, stack, shown, indent) ==
             EvalEach(t, i.inner, current + 1, items, stack, shown, indent)
    ensures Interpret(t, current, end, stack, out, indent) ==
            AfterSection(t, EvalItem(t, i, current, stack, shown, indent), close, end, stack, indent)
  {
  }

  lemma {:induction false} OnceRunsAsMeant(
    t: Compiled, i: Item, c: Context, current: nat, close: nat, end: nat, stack: seq<Context>, out: Text, indent: nat)
    requires SectionAt(t, i, current, close, end, stack)
    ensures Interpret(t, current + 1, end, stack + [c], out, indent) ==
            AfterSection(t, Eval(t, i.inner, current + 1, stack + [c], out, indent), close, end, stack, indent)
    decreases i.inner, 2, 0
  {
    RunsAsMeant(t, i.inner, current + 1, close, end, stack + [c], out, indent);
    assert Popped(stack + [c]) == stack;
  }

  lemma {:induction false} EachRunsAsMeant(
    t: Compiled, b: Body, begin: nat, end: nat, items: seq<Context>, stack: seq<Context>, out: Text, indent: nat)
    requires t.Valid() && stack != [] && end == begin + Width(b) < |t.fragments|
    requires Within(t.actions, begin, end) && LaidOut(t, b, begin)
    ensures InterpretEach(t, begin, end, items, stack, out, indent) == EvalEach(t, b, begin, items, stack, out, indent)
    decreases b, 2, |items|
  {
    if items != [] {
      var indented := out + Spaces(indent);
      RunsAsMeant(t, b, begin, end, end, stack + [items[0]], indented, indent);
      var first := Eval(t, b, begin, stack + [items[0]], indented, indent);
      if first.Some? {
        EachRunsAsMeant(t, b, begin, end, items[1..], stack, first.value, indent);
      }
    }
  }
}
