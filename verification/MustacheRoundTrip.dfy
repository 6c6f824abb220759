/** From a tree of sections to the text of a template, and back through the scanner and the compiler to the same tree. */
module MustacheRoundTrip {
  import opened Bytes
  import opened MustacheTemplate
  import opened MustacheScanner
  import opened MustacheStandalone
  import opened MustachePrinted
  import opened MustacheParser
  import opened MustacheRenderer

  /** Nothing, or an end tag. */
  predicate Stops(tags: seq<Tag>) {
    tags == [] || tags[0].CloseTag?
  }

  /** Behind a tree without items comes what follows it; any other tree begins with a tag that ends nothing. */
  lemma {:induction false} TreeStarts(b: Body, more: seq<Tag>)
    ensures if b.End? then TagsOf(b) + more == more else !Stops(TagsOf(b) + more)
  {
    match b
    case End => assert [] + more == more;
    case More(item, rest) => assert (ItemTags(item) + TagsOf(rest) + more)[0] == ItemTags(item)[0];
  }

  /** No two trees have the same tags, whatever end tag comes behind them. */
  lemma {:induction false} SameTree(a: Body, b: Body, x: seq<Tag>, y: seq<Tag>)
    requires TagsOf(a) + x == TagsOf(b) + y && Stops(x) && Stops(y)
    ensures a == b && x == y
    decreases a
  {
    TreeStarts(a, x);
    TreeStarts(b, y);
    if a.More? && b.More? {
      Concat3(ItemTags(a.item), TagsOf(a.rest), x);
      Concat3(ItemTags(b.item), TagsOf(b.rest), y);
      SameItem(a.item, b.item, TagsOf(a.rest) + x, TagsOf(b.rest) + y);
      SameTree(a.rest, b.rest, x, y);
    }
  }

  lemma {:induction false} SameItem(i: Item, j: Item, x: seq<Tag>, y: seq<Tag>)
    requires ItemTags(i) + x == ItemTags(j) + y
    ensures i == j && x == y
    decreases i
  {
    var all := ItemTags(i) + x;
    assert all[0] == ItemTags(i)[0] == ItemTags(j)[0];
    if i.Section? {
      assert all[1..] == TagsOf(i.inner) + ([CloseTag(i.name)] + x) == TagsOf(j.inner) + ([CloseTag(j.name)] + y);
      SameTree(i.inner, j.inner, [CloseTag(i.name)] + x, [CloseTag(j.name)] + y);
      assert ([CloseTag(i.name)] + x)[1..] == x && ([CloseTag(j.name)] + y)[1..] == y;
    } else {
      assert all[1..] == x && all[1..] == y;
    }
  }

  lemma {:induction false} NestedNeverOverclosed(tags: seq<Tag>, open: seq<Text>)
    requires WellNested(tags, open)
    ensures NeverOverclosed(tags, open)
    decreases |tags|
  {
    if tags != [] {
      match tags[0]
      case OpenTag(name, _) => NestedNeverOverclosed(tags[1..], open + [name]);
      case CloseTag(name) => NestedNeverOverclosed(tags[1..], open[..|open| - 1]);
      case _ => NestedNeverOverclosed(tags[1..], open);
    }
  }

  /** A template written from a tree is compiled without an error, to that tree and no other. */
  lemma {:induction false} WrittenTreeCompiles(texts: seq<Text>, b: Body)
    requires |texts| == |TagsOf(b)| + 1 && AllWritable(texts, TagsOf(b))
    ensures var s := Written(texts, TagsOf(b));
            && ScanAll(s).error.None? && WellNested(TagsIn(s), []) && NeverOverclosed(TagsIn(s), []) && PartialFree(ScanAll(s).marks)
            && forall t, tree {:trigger CompiledFrom(t, tree, s)} :: CompiledFrom(t, tree, s) ==> tree == b
  {
    var s, tags := Written(texts, TagsOf(b)), TagsOf(b);
    WrittenReads(texts, tags);
    TreeNests(b, [], []);
    assert tags + [] == tags;
    NestedNeverOverclosed(tags, []);
    forall t, tree | CompiledFrom(t, tree, s) ensures tree == b {
      assert TagsOf(tree) + [] == TagsOf(tree);
      SameTree(tree, b, [], []);
    }
  }

  /** A template whose only tag begins a block: it is accepted, and the position of the block is never set. */
  lemma {:induction false} OpenBlockAccepted(texts: seq<Text>, name: Text, levels: seq<Level>, actions: seq<Action>, positions: seq<nat>)
    requires |texts| == 2 && AllWritable(texts, [OpenTag(name, false)])
    requires CompiledLevels(TagsIn(Written(texts, [OpenTag(name, false)])), levels, actions, positions)
    ensures var s := Written(texts, [OpenTag(name, false)]);
            && ScanAll(s).error.None? && Accepted(TagsIn(s), []) && !WellNested(TagsIn(s), []) && LeftOpen(TagsIn(s), []) == [name]
    ensures |positions| == 1 && positions[0] < |actions| && actions[positions[0]].name == name && actions[positions[0]].pos == 0
  {
    var tags := [OpenTag(name, false)];
    WrittenReads(texts, tags);
    assert tags[1..] == [] && [] + [name] == [name];
    NestedLeavesNone(tags, []);
    LeftOpenCounts(tags, []);
    OneLevelNoNames(levels);
    LeftOpenUnset(tags, levels, actions, positions, 0);
  }

  /** The smallest such template. */
  lemma {:induction false} SmallestOpenBlock()
    ensures Written(["", ""], [OpenTag("a", false)]) == "{{#a}}" && AllWritable(["", ""], [OpenTag("a", false)])
    ensures ScanAll("{{#a}}").error.None? && Accepted(TagsIn("{{#a}}"), []) && !WellNested(TagsIn("{{#a}}"), [])
  {
    var tags := [OpenTag("a", false)];
    assert TagText(tags[0]) == "{{#a}}";
    assert ["", ""][1..] == [""] && tags[1..] == [];
    assert !Matches("#a}}", 0, "}}") && !Matches("#a}}", 1, "}}");
    assert Content(tags[0]) + DEFAULT.close == "#a}}";
    WrittenReads(["", ""], tags);
    assert [] + ["a"] == ["a"];
  }

  // ---------------------------------------------------------------- line ends that no tag cuts

  /** No tag begins with a line feed. */
  predicate OpensInLine(marks: seq<Mark>) {
    forall i :: 0 <= i < |marks| ==> marks[i].delimiters.open != [] && marks[i].delimiters.open[0] != '\n'
  }

  /** Behind the text before a tag its delimiter stands. */
  lemma {:induction false} FragmentEnds(s: Text, i: nat)
    requires ScanAll(s).error.None? && OpensInLine(ScanAll(s).marks) && i < |ScanAll(s).fragments|
    ensures var p := ScanAll(s).fragments[i].1; p < |s| ==> s[p] != '\n'
  {
    var r := ScanAll(s);
    ScanTiles(s, 0, DEFAULT);
    if i < |r.marks| {
      assert TiledMark(s, r.marks[i], r.fragments[i], r.fragments[i + 1]);
      StandsByte(s, r.fragments[i].1, r.marks[i].delimiters.open, 0);
    }
  }

  /** Where no opening delimiter in force begins with a line feed, all bounds stay in order. */
  lemma {:induction false} BoundsInOrder(s: Text, actions: seq<Action>, i: nat)
    requires ScanAll(s).error.None? && OpensInLine(ScanAll(s).marks)
    requires |actions| == |ScanAll(s).fragments| && i < |actions|
    ensures Bounded(s, ScanAll(s).fragments)
    ensures var f := Trimmed(s, ScanAll(s).fragments, actions, i); f.0 <= f.1 <= |s|
  {
    ScanTiles(s, 0, DEFAULT);
    FragmentEnds(s, i);
    TrimmedInOrder(s, ScanAll(s).fragments, actions, i);
  }

  // ---------------------------------------------------------------- a line end that a tag cuts

  /** A change of delimiters, alone on its line but for a carriage return, and a comment whose delimiter begins with the line feed. */
  const CUT: Text := "{{=\nX Y=}}\r\nX!cY"

  const AFTER: Delimiters := Delimiters("\nX", "Y")

  lemma {:induction false} CutFinds()
    ensures Find(CUT, DEFAULT.open, 0) == Some(0) && Find(CUT, DEFAULT.close, 2) == Some(8)
    ensures Find(CUT, AFTER.open, 10) == Some(11) && Find(CUT, AFTER.close, 13) == Some(15) && Find(CUT, AFTER.open, 16) == None
  {
    assert Find(CUT, DEFAULT.close, 6) == Some(8) && Find(CUT, DEFAULT.close, 4) == Some(8);
  }

  lemma {:induction false} CutChanges()
    ensures ReadChange(CUT, 3, 8, 0, 10, DEFAULT) == Good(Mark(ChangeMark, 3, 8, 0, 10, DEFAULT), AFTER)
  {
    assert AfterBlanks(CUT, 3) == 3 && BeforeBlanks(CUT, 7) == 7 && FirstBlank(CUT, 3, 7) == Some(5) && AfterBlanks(CUT, 5) == 6;
    BetweenIsPart(CUT, 3, 5);
    BetweenIsPart(CUT, 6, 7);
    assert CUT[3..5] == AFTER.open && CUT[6..7] == AFTER.close;
    assert NoBlank(AFTER.close[1..]);
  }

  lemma {:induction false} CutReads()
    ensures ReadTag(CUT, 0, 2, DEFAULT) == Good(Mark(ChangeMark, 3, 8, 0, 10, DEFAULT), AFTER)
    ensures ReadTag(CUT, 11, 13, AFTER) == Good(Mark(CommentMark, 14, 15, 11, 16, AFTER), AFTER)
  {
    CutFinds();
    CutChanges();
    assert AFTER.close == "Y" && CUT[13] == '!';
    assert ReadSigil(CUT, 13, 15, 11, 16, AFTER) == Good(Mark(CommentMark, 14, 15, 11, 16, AFTER), AFTER);
  }

  lemma {:induction false} CutScanned()
    ensures ScanAll(CUT).error.None? && ScanAll(CUT).fragments == [(0, 0), (10, 11), (16, 16)]
  {
    CutFinds();
    CutReads();
    assert Scan(CUT, 16, AFTER) == Scanned([(16, 16)], [], None);
  }

  /** The line of the first tag ends behind the beginning of the second, and what is left between them is the second tag. */
  lemma {:induction false} BoundsCross(actions: seq<Action>)
    requires actions == seq(3, _ => Action(Ignore, [], 0))
    ensures var r := ScanAll(CUT);
            && r.error.None? && |r.fragments| == 3 && Bounded(CUT, r.fragments)
            && Trimmed(CUT, r.fragments, actions, 1) == (12, 11) && Between(CUT, 12, 11) == "X!cY"
  {
    CutScanned();
    CutTrimmed(actions, [(0, 0), (10, 11), (16, 16)]);
    BetweenIsPart(CUT, 12, 11);
  }

  lemma {:induction false} CutTrimmed(actions: seq<Action>, fragments: seq<Fragment>)
    requires actions == seq(3, _ => Action(Ignore, [], 0)) && fragments == [(0, 0), (10, 11), (16, 16)]
    ensures Bounded(CUT, fragments) && Trimmed(CUT, fragments, actions, 1) == (12, 11)
  {
  }
}
