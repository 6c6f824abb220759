/** What a written template means: its tree of sections with the texts between its tags, without the lines of lone tags. */
module MustacheMeaning {
  import opened Bytes
  import opened MustacheTemplate
  import opened MustacheContext
  import opened MustacheRender
  import opened MustacheStandalone

  /** A body whose first text is `base`, in a stack of contexts, printed after `out`. */
  function Means(texts: seq<Text>, b: Body, base: nat, stack: seq<Context>, out: Text): Option<Text>
    requires stack != [] && base + Width(b) < |texts|
    decreases b, 1, 0
  {
    var shown := out + texts[base];
    match b
    case End => Some(shown)
    case More(item, rest) =>
      var after := MeansItem(texts, item, base, stack, shown);
      if after.None? then None else Means(texts, rest, base + ItemWidth(item), stack, after.value)
  }

  function MeansItem(texts: seq<Text>, i: Item, base: nat, stack: seq<Context>, out: Text): Option<Text>
    requires stack != [] && base + ItemWidth(i) < |texts|
    decreases i, 0, 0
  {
    match i
    case Ignored => Some(out)
    case Shown(name, escaped) =>
      var text := ShownText(name, escaped, stack);
      if text.None? then None else Some(out + text.value)
    case Section(name, inverted, inner) =>
      match Choose(name, inverted, stack)
      case Skip => Some(out)
      case Once(c) => Means(texts, inner, base + 1, stack + [c], out)
      case Each(items) => MeansEach(texts, inner, base + 1, items, stack, out)
  }

  function MeansEach(texts: seq<Text>, b: Body, base: nat, items: seq<Context>, stack: seq<Context>, out: Text): Option<Text>
    requires stack != [] && base + Width(b) < |texts|
    decreases b, 2, |items|
  {
    if items == [] then Some(out)
    else
      var first := Means(texts, b, base, stack + [items[0]], out);
      if first.None? then None else MeansEach(texts, b, base, items[1..], stack, first.value)
  }

  // ---------------------------------------------------------------- the texts that are kept

  /** A tag alone on its line, judged by the texts around it. */
  predicate LoneTag(texts: seq<Text>, tags: seq<Tag>, i: nat)
    requires |texts| == |tags| + 1 && i < |tags|
  {
    !tags[i].Show? && TextStart(texts[i], i == 0).Some? && TextEnd(texts[i + 1], i + 2 == |texts|).Some?
  }

  /** Where the last line of a text begins, and where its first line is over. */
  function TextStart(text: Text, first: bool): Option<nat> {
    LineStart(text, (0, |text|), first)
  }

  function TextEnd(text: Text, last: bool): Option<nat> {
    LineEnd(text, (0, |text|), last)
  }

  /** Where the kept part of a text begins and ends. */
  function KeptFrom(texts: seq<Text>, tags: seq<Tag>, i: nat): (p: nat)
    requires |texts| == |tags| + 1 && i < |texts|
    ensures p <= |texts[i]|
  {
    if i > 0 && LoneTag(texts, tags, i - 1) then TextEnd(texts[i], i + 1 == |texts|).value else 0
  }

  function KeptTo(texts: seq<Text>, tags: seq<Tag>, i: nat): (p: nat)
    requires |texts| == |tags| + 1 && i < |texts|
    ensures p <= |texts[i]|
  {
    if i < |tags| && LoneTag(texts, tags, i) then TextStart(texts[i], i == 0).value else |texts[i]|
  }

  /** A text without the lines of the lone tags around it. */
  function Kept(texts: seq<Text>, tags: seq<Tag>, i: nat): Text
    requires |texts| == |tags| + 1 && i < |texts|
  {
    Between(texts[i], KeptFrom(texts, tags, i), KeptTo(texts, tags, i))
  }

  function AllKept(texts: seq<Text>, tags: seq<Tag>): (r: seq<Text>)
    requires |texts| == |tags| + 1
    ensures |r| == |texts| && forall i :: 0 <= i < |r| ==> r[i] == Kept(texts, tags, i)
  {
    seq(|texts|, i requires 0 <= i < |texts| => Kept(texts, tags, i))
  }

  /** Without lone tags all texts are kept as they are. */
  lemma {:induction false} NothingCut(texts: seq<Text>, tags: seq<Tag>)
    requires |texts| == |tags| + 1 && forall i :: 0 <= i < |tags| ==> !LoneTag(texts, tags, i)
    ensures AllKept(texts, tags) == texts
  {
    forall i | 0 <= i < |texts| ensures AllKept(texts, tags)[i] == texts[i] {
      BetweenIsPart(texts[i], 0, |texts[i]|);
    }
  }

  // ---------------------------------------------------------------- the same lines in the template

  /** A text and the fragment where it stands. */
  ghost predicate Holds(s: Text, f: Fragment, text: Text) {
    f.0 <= f.1 <= |s| && |text| == f.1 - f.0 && forall k :: 0 <= k < |text| ==> text[k] == s[f.0 + k]
  }

  lemma {:induction false} BetweenHolds(s: Text, f: Fragment, text: Text)
    requires f.0 <= f.1 <= |s| && Between(s, f.0, f.1) == text
    ensures Holds(s, f, text)
  {
    BetweenIsPart(s, f.0, f.1);
  }

  lemma {:induction false} BlanksBackSame(s: Text, f: Fragment, text: Text, end: nat)
    requires Holds(s, f, text) && end <= |text|
    ensures BlanksBack(s, f.0, f.0 + end) == f.0 + BlanksBack(text, 0, end)
    decreases end
  {
    if end > 0 {
      assert text[end - 1] == s[f.0 + (end - 1)];
      BlanksBackSame(s, f, text, end - 1);
    }
  }

  lemma {:induction false} BlanksOnSame(s: Text, f: Fragment, text: Text, from: nat)
    requires Holds(s, f, text) && from <= |text|
    ensures BlanksOn(s, f.0 + from, f.1) == f.0 + BlanksOn(text, from, |text|)
    decreases |text| - from
  {
    if from < |text| {
      assert text[from] == s[f.0 + from];
      BlanksOnSame(s, f, text, from + 1);
    }
  }

  /** Moved on by some bytes. */
  function Moved(p: Option<nat>, offset: nat): Option<nat> {
    if p.None? then None else Some(p.value + offset)
  }

  lemma {:induction false} LineStartSame(s: Text, f: Fragment, text: Text, first: bool)
    requires Holds(s, f, text)
    ensures LineStart(s, f, first) == Moved(TextStart(text, first), f.0)
  {
    BlanksBackSame(s, f, text, |text|);
    var j := BlanksBack(text, 0, |text|);
    if j > 0 {
      assert text[j - 1] == s[f.0 + (j - 1)];
    }
  }

  lemma {:induction false} LineEndSame(s: Text, f: Fragment, text: Text, last: bool)
    requires Holds(s, f, text) && (f.1 < |s| ==> s[f.1] != '\n')
    ensures LineEnd(s, f, last) == Moved(TextEnd(text, last), f.0)
  {
    BlanksOnSame(s, f, text, 0);
    var k := BlanksOn(text, 0, |text|);
    if k < |text| {
      assert text[k] == s[f.0 + k];
      if k + 1 < |text| {
        assert text[k + 1] == s[f.0 + (k + 1)];
      }
    }
  }

  // ---------------------------------------------------------------- the same meaning

  /** The fragments of a compiled template are some texts. */
  ghost predicate Prints(t: Compiled, texts: seq<Text>) {
    t.Valid() && |t.fragments| == |texts|
    && forall k :: 0 <= k < |texts| ==> FragmentText(t.body, t.fragments[k].0, t.fragments[k].1, 0) == texts[k]
  }

  lemma {:induction false} EvalMeans(t: Compiled, texts: seq<Text>, b: Body, base: nat, stack: seq<Context>, out: Text)
    requires Prints(t, texts) && stack != [] && base + Width(b) < |texts|
    ensures Eval(t, b, base, stack, out, 0) == Means(texts, b, base, stack, out)
    decreases b, 1, 0
  {
    if b.More? {
      var shown := out + texts[base];
      ItemMeans(t, texts, b.item, base, stack, shown);
      var after := MeansItem(texts, b.item, base, stack, shown);
      if after.Some? {
        EvalMeans(t, texts, b.rest, base + ItemWidth(b.item), stack, after.value);
      }
    }
  }

  lemma {:induction false} ItemMeans(t: Compiled, texts: seq<Text>, i: Item, base: nat, stack: seq<Context>, out: Text)
    requires Prints(t, texts) && stack != [] && base + ItemWidth(i) < |texts|
    ensures EvalItem(t, i, base, stack, out, 0) == MeansItem(texts, i, base, stack, out)
    decreases i, 0, 0
  {
    if i.Section? {
      match Choose(i.name, i.inverted, stack)
      case Skip =>
      case Once(c) => EvalMeans(t, texts, i.inner, base + 1, stack + [c], out);
      case Each(items) => EachMeans(t, texts, i.inner, base + 1, items, stack, out);
    }
  }

  lemma {:induction false} EachMeans(t: Compiled, texts: seq<Text>, b: Body, base: nat, items: seq<Context>, stack: seq<Context>, out: Text)
    requires Prints(t, texts) && stack != [] && base + Width(b) < |texts|
    ensures EvalEach(t, b, base, items, stack, out, 0) == MeansEach(texts, b, base, items, stack, out)
    decreases b, 2, |items|
  {
    if items != [] {
      assert out + Spaces(0) == out;
      EvalMeans(t, texts, b, base, stack + [items[0]], out);
      var first := Means(texts, b, base, stack + [items[0]], out);
      if first.Some? {
        EachMeans(t, texts, b, base, items[1..], stack, first.value);
      }
    }
  }

  /** An action shows a value exactly when its tag does. */
  lemma {:induction false} ShowsAlike(b: Body, base: nat, i: nat)
    requires i < Width(b)
    ensures |TagsOf(b)| == Width(b) && (Shows(Flat(b, base)[i].t) <==> TagsOf(b)[i].Show?)
    decreases b
  {
    TagsFitActions(b);
    var w := ItemWidth(b.item);
    TagsFitActions(More(b.item, End));
    assert TagsOf(More(b.item, End)) == ItemTags(b.item);
    if i < w {
      ItemShowsAlike(b.item, base, i);
    } else {
      ShowsAlike(b.rest, base + w, i - w);
    }
  }

  lemma {:induction false} ItemShowsAlike(item: Item, base: nat, i: nat)
    requires i < ItemWidth(item) == |ItemTags(item)|
    ensures Shows(FlatItem(item, base)[i].t) <==> ItemTags(item)[i].Show?
    decreases item
  {
    if item.Section? && 0 < i < ItemWidth(item) - 1 {
      ShowsAlike(item.inner, base + 1, i - 1);
    }
  }
}
