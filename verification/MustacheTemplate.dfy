/** Templates: the tags of a text, the tree of their sections, and the flat action table with jump positions. */
module MustacheTemplate {
  import opened Bytes

  /** A tag of the text, in order of appearance; partials are not part of this model. */
  datatype Tag = Comment | Show(name: Text, escaped: bool) | OpenTag(name: Text, inverted: bool) | CloseTag(name: Text)

  /** What a section holds. Between any two items, and at both ends, there is a fragment of text. */
  datatype Body = End | More(item: Item, rest: Body)

  datatype Item = Ignored | Shown(name: Text, escaped: bool) | Section(name: Text, inverted: bool, inner: Body)

  datatype ActionType = Ignore | TagAction | UnescapeTag | OpenBlock | ElseBlock | CloseBlock

  datatype Action = Action(t: ActionType, name: Text, pos: nat)

  /** The text from one bound to the other; where they have crossed, the end is never met, and the rest of the text is taken. */
  function Between(s: Text, from: nat, end: nat): Text
    requires from <= |s|
    decreases |s| - from
  {
    if from == end || from == |s| then [] else [s[from]] + Between(s, from + 1, end)
  }

  lemma {:induction false} BetweenIsPart(s: Text, from: nat, end: nat)
    requires from <= |s| && end <= |s|
    ensures Between(s, from, end) == if from <= end then s[from..end] else s[from..]
    decreases |s| - from
  {
    if from != end && from < |s| {
      BetweenIsPart(s, from + 1, end);
    }
  }

  // ---------------------------------------------------------------- from the tree

  function TagsOf(b: Body): seq<Tag> {
    match b
    case End => []
    case More(item, rest) => ItemTags(item) + TagsOf(rest)
  }

  function ItemTags(i: Item): seq<Tag> {
    match i
    case Ignored => [Comment]
    case Shown(name, escaped) => [Show(name, escaped)]
    case Section(name, inverted, inner) => [OpenTag(name, inverted)] + TagsOf(inner) + [CloseTag(name)]
  }

  /** The number of actions of a body. */
  function Width(b: Body): nat {
    match b
    case End => 0
    case More(item, rest) => ItemWidth(item) + Width(rest)
  }

  function ItemWidth(i: Item): nat {
    match i
    case Section(_, _, inner) => Width(inner) + 2
    case _ => 1
  }

  /** The actions of a body that begins at position `base`: a block knows where it ends, its end where it began. */
  function Flat(b: Body, base: nat): (r: seq<Action>)
    ensures |r| == Width(b)
    decreases b
  {
    match b
    case End => []
    case More(item, rest) => FlatItem(item, base) + Flat(rest, base + ItemWidth(item))
  }

  function FlatItem(i: Item, base: nat): (r: seq<Action>)
    ensures |r| == ItemWidth(i)
    decreases i
  {
    match i
    case Ignored => [Action(Ignore, [], 0)]
    case Shown(name, escaped) => [Action(if escaped then TagAction else UnescapeTag, name, 0)]
    case Section(name, inverted, inner) =>
      [Action(if inverted then ElseBlock else OpenBlock, name, base + 1 + Width(inner))]
      + Flat(inner, base + 1) + [Action(CloseBlock, name, base)]
  }

  /** A tag, an action. */
  lemma {:induction false} TagsFitActions(b: Body)
    ensures |TagsOf(b)| == Width(b)
    decreases b
  {
    match b
    case End =>
    case More(item, rest) =>
      TagsFitActions(rest);
      match item
      case Section(_, _, inner) => TagsFitActions(inner);
      case _ =>
  }

  // ---------------------------------------------------------------- one item more at the end

  function Append(b: Body, i: Item): Body {
    match b
    case End => More(i, End)
    case More(item, rest) => More(item, Append(rest, i))
  }

  lemma {:induction false} TagsAppend(b: Body, i: Item)
    ensures TagsOf(Append(b, i)) == TagsOf(b) + ItemTags(i)
  {
    match b
    case End =>
    case More(item, rest) =>
      TagsAppend(rest, i);
      Concat3(ItemTags(item), TagsOf(rest), ItemTags(i));
  }

  lemma {:induction false} FlatMore(item: Item, rest: Body, base: nat, next: nat)
    requires next == base + ItemWidth(item)
    ensures Flat(More(item, rest), base) == FlatItem(item, base) + Flat(rest, next)
  {
  }

  lemma {:induction false} FlatSingle(i: Item, base: nat)
    ensures Flat(More(i, End), base) == FlatItem(i, base)
  {
  }

  lemma {:induction false} FlatAppend(b: Body, i: Item, base: nat, at: nat)
    requires at == base + Width(b)
    ensures Flat(Append(b, i), base) == Flat(b, base) + FlatItem(i, at)
    decreases b
  {
    match b
    case End => FlatSingle(i, base);
    case More(item, rest) =>
      var next := base + ItemWidth(item);
      FlatMore(item, rest, base, next);
      FlatMore(item, Append(rest, i), base, next);
      FlatAppend(rest, i, next, at);
      Concat3(FlatItem(item, base), Flat(rest, next), FlatItem(i, at));
  }

  // ---------------------------------------------------------------- nesting

  predicate Opens(a: Action) {
    a.t.OpenBlock? || a.t.ElseBlock?
  }

  /** Blocks end after they begin, and before the block around them ends. */
  ghost predicate Nested(actions: seq<Action>) {
    && (forall i :: 0 <= i < |actions| && Opens(actions[i]) ==> i < actions[i].pos < |actions|)
    && (forall i, j :: 0 <= i < j < |actions| && Opens(actions[i]) && j < actions[i].pos && Opens(actions[j]) ==>
          actions[j].pos < actions[i].pos)
  }

  /** The jump positions of a body stay inside it, each inside the block around it. */
  ghost predicate NestedAt(a: seq<Action>, base: nat) {
    && (forall i :: 0 <= i < |a| && Opens(a[i]) ==> base + i < a[i].pos < base + |a|)
    && (forall i, j :: 0 <= i < j < |a| && Opens(a[i]) && base + j < a[i].pos && Opens(a[j]) ==> a[j].pos < a[i].pos)
  }

  lemma {:induction false} NestedConcat(a: seq<Action>, b: seq<Action>, base: nat)
    requires NestedAt(a, base) && NestedAt(b, base + |a|)
    ensures NestedAt(a + b, base)
  {
    var c := a + b;
    forall i | 0 <= i < |c| && Opens(c[i]) ensures base + i < c[i].pos < base + |c| {
      if i >= |a| {
        assert c[i] == b[i - |a|];
      }
    }
    forall i, j | 0 <= i < j < |c| && Opens(c[i]) && base + j < c[i].pos && Opens(c[j]) ensures c[j].pos < c[i].pos {
      if i >= |a| {
        assert c[i] == b[i - |a|] && c[j] == b[j - |a|];
      } else {
        assert c[i] == a[i];
      }
    }
  }

  lemma {:induction false} NestedBlock(open: Action, inner: seq<Action>, close: Action, base: nat)
    requires Opens(open) && open.pos == base + 1 + |inner| && !Opens(close) && NestedAt(inner, base + 1)
    ensures NestedAt([open] + inner + [close], base)
  {
    var c := [open] + inner + [close];
    forall i | 0 <= i < |c| && Opens(c[i]) ensures base + i < c[i].pos < base + |c| {
      if 0 < i < |c| - 1 {
        assert c[i] == inner[i - 1];
      }
    }
    forall i, j | 0 <= i < j < |c| && Opens(c[i]) && base + j < c[i].pos && Opens(c[j]) ensures c[j].pos < c[i].pos {
      assert c[j] == inner[j - 1];
      if i > 0 {
        assert c[i] == inner[i - 1];
      }
    }
  }

  /** The action table of a tree is well nested. */
  lemma {:induction false} FlatNested(b: Body, base: nat)
    ensures NestedAt(Flat(b, base), base)
    decreases b
  {
    match b
    case End =>
    case More(item, rest) =>
      FlatItemNested(item, base);
      FlatNested(rest, base + ItemWidth(item));
      NestedConcat(FlatItem(item, base), Flat(rest, base + ItemWidth(item)), base);
  }

  lemma {:induction false} FlatItemNested(i: Item, base: nat)
    ensures NestedAt(FlatItem(i, base), base)
    decreases i
  {
    if i.Section? {
      FlatNested(i.inner, base + 1);
      SectionNested(i, base);
    } else {
      assert |FlatItem(i, base)| == 1 && !Opens(FlatItem(i, base)[0]);
    }
  }

  lemma {:induction false} SectionNested(i: Item, base: nat)
    requires i.Section? && NestedAt(Flat(i.inner, base + 1), base + 1)
    ensures NestedAt(FlatItem(i, base), base)
  {
    NestedBlock(Action(if i.inverted then ElseBlock else OpenBlock, i.name, base + 1 + Width(i.inner)),
                Flat(i.inner, base + 1), Action(CloseBlock, i.name, base), base);
  }
}
