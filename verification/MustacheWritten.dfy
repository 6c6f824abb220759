/** Written templates, compiled and rendered: what comes out is what their trees mean. */
module MustacheWritten {
  import opened Bytes
  import opened MustacheTemplate
  import opened MustachePrinted
  import opened MustacheStandalone
  import opened MustacheMeaning
  import opened MustacheRoundTrip
  import MustacheContext
  import MustacheScanner
  import MustacheParser
  import MustacheRender
  import MustacheRenderer

  /** Written tags begin with the default delimiter. */
  lemma {:induction false} LayoutDelimiters(p: nat, texts: seq<Text>, tags: seq<Tag>)
    requires |texts| == |tags| + 1
    ensures OpensInLine(Layout(p, texts, tags).marks)
    decreases |tags|
  {
    if tags != [] {
      LayoutDelimiters(p + |texts[0]| + |TagText(tags[0])|, texts[1..], tags[1..]);
    }
  }

  /** The scan of a written template: its texts where they were written, and no line end cut. */
  lemma {:induction false} WrittenHolds(texts: seq<Text>, tags: seq<Tag>)
    requires |texts| == |tags| + 1 && AllWritable(texts, tags)
    ensures var s, r := Written(texts, tags), MustacheScanner.ScanAll(Written(texts, tags));
            && r.error.None? && OpensInLine(r.marks) && |r.fragments| == |texts|
            && forall i :: 0 <= i < |texts| ==> Holds(s, r.fragments[i], texts[i])
  {
    var s, r := Written(texts, tags), MustacheScanner.ScanAll(Written(texts, tags));
    MatchesItself(s);
    WrittenFound(s, 0, texts, tags);
    LayoutDelimiters(0, texts, tags);
    WrittenReads(texts, tags);
    forall i | 0 <= i < |texts| ensures Holds(s, r.fragments[i], texts[i]) {
      assert TextReads(s, r.fragments[i], texts[i]);
      BetweenHolds(s, r.fragments[i], texts[i]);
    }
  }

  /** Texts and tags lie in a template: each text is its fragment, and no tag begins with a line feed. */
  ghost predicate Lies(s: Text, fragments: seq<Fragment>, actions: seq<Action>, texts: seq<Text>, tags: seq<Tag>) {
    && |fragments| == |actions| == |texts| == |tags| + 1 && Bounded(s, fragments)
    && (forall i :: 0 <= i < |texts| ==> Holds(s, fragments[i], texts[i]) && (fragments[i].1 < |s| ==> s[fragments[i].1] != '\n'))
    && (forall i :: 0 <= i < |tags| ==> (Shows(actions[i].t) <==> tags[i].Show?))
  }

  /** Which tags are alone can be told from the texts. */
  lemma {:induction false} LoneAlike(s: Text, fragments: seq<Fragment>, actions: seq<Action>, texts: seq<Text>, tags: seq<Tag>, i: nat)
    requires Lies(s, fragments, actions, texts, tags) && i < |tags|
    ensures Alone(s, fragments, actions, i) <==> LoneTag(texts, tags, i)
  {
    LineStartSame(s, fragments[i], texts[i], i == 0);
    LineEndSame(s, fragments[i + 1], texts[i + 1], i + 2 == |texts|);
  }

  /** The text between two bounds in a fragment. */
  lemma {:induction false} BetweenSame(s: Text, f: Fragment, text: Text, p: nat, q: nat)
    requires Holds(s, f, text) && p <= q <= |text|
    ensures Between(s, f.0 + p, f.0 + q) == Between(text, p, q)
    decreases q - p
  {
    if p < q {
      assert text[p] == s[f.0 + p];
      BetweenSame(s, f, text, p + 1, q);
    }
  }

  lemma {:induction false} FromAlike(s: Text, fragments: seq<Fragment>, actions: seq<Action>, texts: seq<Text>, tags: seq<Tag>, i: nat)
    requires Lies(s, fragments, actions, texts, tags) && i < |texts|
    ensures Trimmed(s, fragments, actions, i).0 == fragments[i].0 + KeptFrom(texts, tags, i)
  {
    if i > 0 {
      LoneAlike(s, fragments, actions, texts, tags, i - 1);
      LineEndSame(s, fragments[i], texts[i], i + 1 == |texts|);
    }
  }

  lemma {:induction false} EndAlike(s: Text, fragments: seq<Fragment>, actions: seq<Action>, texts: seq<Text>, tags: seq<Tag>, i: nat)
    requires Lies(s, fragments, actions, texts, tags) && i < |texts|
    ensures Trimmed(s, fragments, actions, i).1 == fragments[i].0 + KeptTo(texts, tags, i)
  {
    if i < |tags| {
      LoneAlike(s, fragments, actions, texts, tags, i);
      LineStartSame(s, fragments[i], texts[i], i == 0);
    }
  }

  /** What is left of a fragment is what is kept of its text. */
  lemma {:induction false} KeptAlike(s: Text, fragments: seq<Fragment>, actions: seq<Action>, texts: seq<Text>, tags: seq<Tag>, i: nat)
    requires Lies(s, fragments, actions, texts, tags) && i < |texts|
    ensures var f := Trimmed(s, fragments, actions, i); Between(s, f.0, f.1) == Kept(texts, tags, i)
  {
    TrimmedInOrder(s, fragments, actions, i);
    FromAlike(s, fragments, actions, texts, tags, i);
    EndAlike(s, fragments, actions, texts, tags, i);
    BetweenSame(s, fragments[i], texts[i], KeptFrom(texts, tags, i), KeptTo(texts, tags, i));
  }

  lemma {:induction false} WrittenLies(texts: seq<Text>, b: Body, actions: seq<Action>)
    requires |texts| == |TagsOf(b)| + 1 && AllWritable(texts, TagsOf(b))
    requires actions == Flat(b, 0) + [Action(Ignore, [], 0)]
    ensures var s := Written(texts, TagsOf(b)); Lies(s, MustacheScanner.ScanAll(s).fragments, actions, texts, TagsOf(b))
  {
    var s, tags := Written(texts, TagsOf(b)), TagsOf(b);
    var fragments := MustacheScanner.ScanAll(s).fragments;
    TagsFitActions(b);
    WrittenHolds(texts, tags);
    forall i | 0 <= i < |texts| ensures fragments[i].1 < |s| ==> s[fragments[i].1] != '\n' {
      FragmentEnds(s, i);
    }
    forall i | 0 <= i < |tags| ensures Shows(actions[i].t) <==> tags[i].Show? {
      ShowsAlike(b, 0, i);
    }
  }

  /** The fragments of a written template, once compiled, are its texts without the lines of lone tags. */
  lemma {:induction false} WrittenPrints(texts: seq<Text>, b: Body, t: MustacheRender.Compiled)
    requires |texts| == |TagsOf(b)| + 1 && AllWritable(texts, TagsOf(b))
    requires MustacheRenderer.CompiledFrom(t, b, Written(texts, TagsOf(b))) && t.Valid()
    ensures Prints(t, AllKept(texts, TagsOf(b)))
  {
    var fragments := MustacheScanner.ScanAll(t.body).fragments;
    WrittenLies(texts, b, t.actions);
    forall i | 0 <= i < |texts|
      ensures Between(t.body, t.fragments[i].0, t.fragments[i].1) == AllKept(texts, TagsOf(b))[i]
    {
      KeptAlike(t.body, fragments, t.actions, texts, TagsOf(b), i);
    }
  }

  /**
   * A template written from texts and a tree, compiled and rendered in a context: the text that comes out is what the tree
   * means there, with the texts between its tags but for the lines of lone tags; it fails exactly when that fails.
   */
  method RenderWritten(texts: seq<Text>, b: Body, context: MustacheContext.Context) returns (ok: bool, text: Text)
    requires |texts| == |TagsOf(b)| + 1 && AllWritable(texts, TagsOf(b))
    ensures Width(b) + 1 == |texts|
    ensures Means(AllKept(texts, TagsOf(b)), b, 0, [context], []) == if ok then Some(text) else None
  {
    var s := Written(texts, TagsOf(b));
    WrittenTreeCompiles(texts, b);
    var compiled, closed;
    ghost var t, tree;
    compiled, closed, ok, text, t, tree := MustacheRenderer.Render(s, context);
    TagsFitActions(b);
    WrittenPrints(texts, b, t);
    EvalMeans(t, AllKept(texts, TagsOf(b)), b, 0, [context], []);
  }
}
