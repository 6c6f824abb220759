/** The template compiler: tags become actions, and a stack of open blocks sets the jump positions. */
module MustacheParser {
  import opened Bytes
  import opened MustacheTemplate
  import opened MustacheScanner
  import opened MustacheStandalone

  /** Every end tag names the block that is open, and no block is left open. */
  predicate WellNested(tags: seq<Tag>, open: seq<Text>)
    decreases |tags|
  {
    if tags == [] then open == []
    else
      match tags[0]
      case OpenTag(name, _) => WellNested(tags[1..], open + [name])
      case CloseTag(name) => open != [] && open[|open| - 1] == name && WellNested(tags[1..], open[..|open| - 1])
      case _ => WellNested(tags[1..], open)
  }

  /** Every end tag names the block that is open; blocks may be left open. */
  predicate Accepted(tags: seq<Tag>, open: seq<Text>)
    decreases |tags|
  {
    if tags == [] then true
    else
      match tags[0]
      case OpenTag(name, _) => Accepted(tags[1..], open + [name])
      case CloseTag(name) => open != [] && open[|open| - 1] == name && Accepted(tags[1..], open[..|open| - 1])
      case _ => Accepted(tags[1..], open)
  }

  /** The names of the blocks that are open behind all tags, when each end tag ends the last of them. */
  function LeftOpen(tags: seq<Tag>, open: seq<Text>): seq<Text>
    decreases |tags|
  {
    if tags == [] then open
    else
      match tags[0]
      case OpenTag(name, _) => LeftOpen(tags[1..], open + [name])
      case CloseTag(_) => LeftOpen(tags[1..], if open == [] then [] else open[..|open| - 1])
      case _ => LeftOpen(tags[1..], open)
  }

  /** What is accepted, though it is not well nested, is what leaves a block open. */
  lemma {:induction false} NestedLeavesNone(tags: seq<Tag>, open: seq<Text>)
    ensures WellNested(tags, open) <==> Accepted(tags, open) && LeftOpen(tags, open) == []
    decreases |tags|
  {
    if tags != [] {
      match tags[0]
      case OpenTag(name, _) => NestedLeavesNone(tags[1..], open + [name]);
      case CloseTag(_) => NestedLeavesNone(tags[1..], if open == [] then [] else open[..|open| - 1]);
      case _ => NestedLeavesNone(tags[1..], open);
    }
  }

  /** How many blocks a text begins, less those that it ends. */
  function Surplus(tags: seq<Tag>): int {
    if tags == [] then 0
    else (if tags[0].OpenTag? then 1 else if tags[0].CloseTag? then -1 else 0) + Surplus(tags[1..])
  }

  /** Accepted tags leave a block open for each begin tag that they have more than end tags. */
  lemma {:induction false} LeftOpenCounts(tags: seq<Tag>, open: seq<Text>)
    requires Accepted(tags, open)
    ensures |LeftOpen(tags, open)| == |open| + Surplus(tags)
    decreases |tags|
  {
    if tags != [] {
      match tags[0]
      case OpenTag(name, _) => LeftOpenCounts(tags[1..], open + [name]);
      case CloseTag(_) => LeftOpenCounts(tags[1..], open[..|open| - 1]);
      case _ => LeftOpenCounts(tags[1..], open);
    }
  }

  /**
   * No end tag comes without an open block, up to the first that names another one: the compiler takes the last open block
   * without asking, and gives up where the names differ.
   */
  predicate NeverOverclosed(tags: seq<Tag>, open: seq<Text>)
    decreases |tags|
  {
    if tags == [] then true
    else
      match tags[0]
      case OpenTag(name, _) => NeverOverclosed(tags[1..], open + [name])
      case CloseTag(name) =>
        open != [] && (open[|open| - 1] == name ==> NeverOverclosed(tags[1..], open[..|open| - 1]))
      case _ => NeverOverclosed(tags[1..], open)
  }

  /** The tags of a tree are well nested, whatever follows them. */
  lemma {:induction false} TreeNests(b: Body, more: seq<Tag>, open: seq<Text>)
    ensures WellNested(TagsOf(b) + more, open) == WellNested(more, open)
    decreases b
  {
    match b
    case End => assert [] + more == more;
    case More(item, rest) =>
      Concat3(ItemTags(item), TagsOf(rest), more);
      ItemNests(item, TagsOf(rest) + more, open);
      TreeNests(rest, more, open);
  }

  lemma {:induction false} ItemNests(i: Item, more: seq<Tag>, open: seq<Text>)
    ensures WellNested(ItemTags(i) + more, open) == WellNested(more, open)
    decreases i
  {
    var all := ItemTags(i) + more;
    match i
    case Section(name, inverted, inner) =>
      assert all[1..] == TagsOf(inner) + ([CloseTag(name)] + more);
      TreeNests(inner, [CloseTag(name)] + more, open + [name]);
      assert ([CloseTag(name)] + more)[1..] == more;
      assert (open + [name])[..|open|] == open;
    case _ => assert all[1..] == more;
  }

  /** What is open while tags are read: a block, and the items in it so far. The outermost level is the template. */
  datatype Level = Level(name: Text, inverted: bool, items: Body)

  ghost function LevelTags(levels: seq<Level>): seq<Tag>
    requires levels != []
  {
    var last := levels[|levels| - 1];
    if |levels| == 1 then TagsOf(last.items)
    else LevelTags(levels[..|levels| - 1]) + [OpenTag(last.name, last.inverted)] + TagsOf(last.items)
  }

  /** The actions so far; the position of an open block is not known yet. */
  ghost function LevelActions(levels: seq<Level>): (r: seq<Action>)
    requires levels != []
  {
    var last := levels[|levels| - 1];
    if |levels| == 1 then Flat(last.items, 0)
    else
      var before := LevelActions(levels[..|levels| - 1]);
      before + [Unfinished(last)] + Flat(last.items, |before| + 1)
  }

  ghost function Unfinished(l: Level): Action {
    Action(if l.inverted then ElseBlock else OpenBlock, l.name, 0)
  }

  /** The positions of the blocks still open, and their names. */
  ghost predicate Tracks(levels: seq<Level>, positions: seq<nat>) {
    && |levels| == |positions| + 1
    && forall k :: 0 <= k < |positions| ==> positions[k] == |LevelActions(levels[..k + 1])|
  }

  ghost function OpenNames(levels: seq<Level>): seq<Text>
    requires levels != []
  {
    if |levels| == 1 then [] else OpenNames(levels[..|levels| - 1]) + [levels[|levels| - 1].name]
  }

  /** The last level with one item more. */
  ghost function Extended(levels: seq<Level>, i: Item): seq<Level>
    requires levels != []
  {
    var last := levels[|levels| - 1];
    levels[..|levels| - 1] + [last.(items := Append(last.items, i))]
  }

  lemma {:induction false} ExtendedTags(levels: seq<Level>, i: Item)
    requires levels != []
    ensures LevelTags(Extended(levels, i)) == LevelTags(levels) + ItemTags(i)
    ensures OpenNames(Extended(levels, i)) == OpenNames(levels)
  {
    var more, front, last := Extended(levels, i), levels[..|levels| - 1], levels[|levels| - 1];
    assert more[..|more| - 1] == front;
    TagsAppend(last.items, i);
    if |levels| > 1 {
      Concat3(LevelTags(front) + [OpenTag(last.name, last.inverted)], TagsOf(last.items), ItemTags(i));
    }
  }

  lemma {:induction false} ExtendedActions(levels: seq<Level>, i: Item, at: nat)
    requires levels != [] && at == |LevelActions(levels)|
    ensures LevelActions(Extended(levels, i)) == LevelActions(levels) + FlatItem(i, at)
  {
    var more, front, last := Extended(levels, i), levels[..|levels| - 1], levels[|levels| - 1];
    assert more[..|more| - 1] == front;
    if |levels| == 1 {
      FlatAppend(last.items, i, 0, at);
    } else {
      var before := LevelActions(front);
      var base := |before| + 1;
      FlatAppend(last.items, i, base, at);
      Concat3(before + [Unfinished(last)], Flat(last.items, base), FlatItem(i, at));
    }
  }

  lemma {:induction false} ExtendedBy(levels: seq<Level>, i: Item, positions: seq<nat>)
    requires levels != [] && Tracks(levels, positions)
    ensures var more := Extended(levels, i);
            && LevelTags(more) == LevelTags(levels) + ItemTags(i)
            && LevelActions(more) == LevelActions(levels) + FlatItem(i, |LevelActions(levels)|)
            && Tracks(more, positions) && OpenNames(more) == OpenNames(levels)
  {
    ExtendedTags(levels, i);
    ExtendedActions(levels, i, |LevelActions(levels)|);
    ExtendedTracks(levels, i, positions);
  }

  lemma {:induction false} ExtendedTracks(levels: seq<Level>, i: Item, positions: seq<nat>)
    requires levels != [] && Tracks(levels, positions)
    ensures Tracks(Extended(levels, i), positions)
  {
    var more := Extended(levels, i);
    forall k | 0 <= k < |positions| ensures positions[k] == |LevelActions(more[..k + 1])| {
      assert more[..k + 1] == levels[..k + 1];
    }
  }

  /** A block opened. */
  lemma {:induction false} Opened(levels: seq<Level>, l: Level, positions: seq<nat>)
    requires levels != [] && Tracks(levels, positions) && l.items == End
    ensures var more := levels + [l];
            && LevelTags(more) == LevelTags(levels) + [OpenTag(l.name, l.inverted)]
            && LevelActions(more) == LevelActions(levels) + [Unfinished(l)]
            && Tracks(more, positions + [|LevelActions(levels)|]) && OpenNames(more) == OpenNames(levels) + [l.name]
  {
    var more := levels + [l];
    assert more[..|more| - 1] == levels;
    var now := positions + [|LevelActions(levels)|];
    forall k | 0 <= k < |now| ensures now[k] == |LevelActions(more[..k + 1])| {
      if k < |positions| {
        assert more[..k + 1] == levels[..k + 1];
      } else {
        assert more[..k + 1] == levels;
      }
    }
  }

  /** The innermost block closed: it becomes an item of the level around it. */
  ghost function Closed(levels: seq<Level>): seq<Level>
    requires |levels| >= 2
  {
    var last := levels[|levels| - 1];
    Extended(levels[..|levels| - 1], Section(last.name, last.inverted, last.items))
  }

  lemma {:induction false} ClosedBy(levels: seq<Level>, positions: seq<nat>, actions: seq<Action>)
    requires |levels| >= 2 && Tracks(levels, positions) && actions == LevelActions(levels)
    ensures var p, last := positions[|positions| - 1], levels[|levels| - 1];
            && p < |actions| && actions[p] == Unfinished(last)
            && LevelTags(Closed(levels)) == LevelTags(levels) + [CloseTag(last.name)]
            && LevelActions(Closed(levels)) == actions[p := actions[p].(pos := |actions|)] + [Action(CloseBlock, last.name, p)]
            && Tracks(Closed(levels), positions[..|positions| - 1])
            && OpenNames(levels) == OpenNames(Closed(levels)) + [last.name]
  {
    var front, last := levels[..|levels| - 1], levels[|levels| - 1];
    var p := positions[|positions| - 1];
    var item := Section(last.name, last.inverted, last.items);
    assert levels[..|positions|] == front;
    FrontTracks(levels, positions);
    ExtendedBy(front, item, positions[..|positions| - 1]);
    ClosedActions(LevelActions(front), last, item, p, actions);
    Concat4(LevelTags(front), [OpenTag(last.name, last.inverted)], TagsOf(last.items), [CloseTag(last.name)]);
  }

  /** The actions of a block whose end has come. */
  lemma {:induction false} ClosedActions(before: seq<Action>, last: Level, item: Item, p: nat, actions: seq<Action>)
    requires p == |before| && item == Section(last.name, last.inverted, last.items)
    requires actions == before + [Unfinished(last)] + Flat(last.items, p + 1)
    ensures p < |actions| && actions[p] == Unfinished(last)
    ensures before + FlatItem(item, p) == actions[p := actions[p].(pos := |actions|)] + [Action(CloseBlock, last.name, p)]
  {
    var inner, open := Flat(last.items, p + 1), Unfinished(last).(pos := |actions|);
    assert actions[p := open] == before + [open] + inner;
    Concat4(before, [open], inner, [Action(CloseBlock, last.name, p)]);
  }

  lemma {:induction false} FrontTracks(levels: seq<Level>, positions: seq<nat>)
    requires |levels| >= 2 && Tracks(levels, positions)
    ensures Tracks(levels[..|levels| - 1], positions[..|positions| - 1])
  {
    var front := levels[..|levels| - 1];
    forall k | 0 <= k < |positions| - 1 ensures positions[k] == |LevelActions(front[..k + 1])| {
      assert front[..k + 1] == levels[..k + 1];
    }
  }

  lemma {:induction false} OneLevelNoNames(levels: seq<Level>)
    requires levels != []
    ensures |OpenNames(levels)| == |levels| - 1
    decreases |levels|
  {
    if |levels| > 1 {
      OneLevelNoNames(levels[..|levels| - 1]);
    }
  }

  /** The linking state after the first `k` tags. */
  ghost predicate Linked(tags: seq<Tag>, k: nat, levels: seq<Level>, actions: seq<Action>, positions: seq<nat>) {
    && k <= |tags| && levels != [] && LevelTags(levels) == tags[..k] && actions == LevelActions(levels)
    && Tracks(levels, positions) && NeverOverclosed(tags[k..], OpenNames(levels))
    && Accepted(tags, []) == Accepted(tags[k..], OpenNames(levels)) && LeftOpen(tags, []) == LeftOpen(tags[k..], OpenNames(levels))
  }

  /** What an end tag asks for. */
  lemma {:induction false} AtClose(tags: seq<Tag>, k: nat, levels: seq<Level>, actions: seq<Action>, positions: seq<nat>, name: Text)
    requires Linked(tags, k, levels, actions, positions) && k < |tags| && tags[k] == CloseTag(name)
    requires |OpenNames(levels)| == |levels| - 1
    ensures tags[..k + 1] == tags[..k] + [CloseTag(name)]
    ensures |levels| >= 2
    ensures var open := OpenNames(levels);
            && (open[|open| - 1] == name ==> NeverOverclosed(tags[k + 1..], open[..|open| - 1]))
            && (Accepted(tags, []) <==> open[|open| - 1] == name && Accepted(tags[k + 1..], open[..|open| - 1]))
            && LeftOpen(tags, []) == LeftOpen(tags[k + 1..], open[..|open| - 1])
  {
    assert tags[..k + 1] == tags[..k] + [tags[k]] && tags[k..][1..] == tags[k + 1..];
  }

  /** The scanning state after the first `k` tags, with `fragments` before them. */
  ghost predicate Scanning(s: Text, whole: Scanned, k: nat, current: nat, d: Delimiters, fragments: seq<Fragment>) {
    && current <= |s| && Usable(d) && k <= |whole.marks| && |fragments| == k
    && var rest := Scan(s, current, d);
       && whole.fragments == fragments + rest.fragments
       && whole.marks == whole.marks[..k] + rest.marks && whole.error == rest.error
  }

  /** No tag is left, or the next one cannot be read. */
  lemma {:induction false} ScanningEnds(s: Text, whole: Scanned, k: nat, current: nat, d: Delimiters, fragments: seq<Fragment>)
    requires Scanning(s, whole, k, current, d, fragments)
    ensures var found := Find(s, d.open, current);
            && (found.None? ==>
                  whole.error.None? && |whole.marks| == k && whole.fragments == fragments + [(current, |s|)])
            && (found.Some? && ReadTag(s, found.value, found.value + |d.open|, d).Bad? ==> whole.error.Some?)
  {
  }

  lemma {:induction false} ScanningOn(s: Text, whole: Scanned, k: nat, current: nat, d: Delimiters, fragments: seq<Fragment>, at: nat)
    requires Scanning(s, whole, k, current, d, fragments) && Find(s, d.open, current) == Some(at) && ReadTag(s, at, at + |d.open|, d).Good?
    ensures var read := ReadTag(s, at, at + |d.open|, d);
            && k < |whole.marks| && whole.marks[k] == read.mark
            && Scanning(s, whole, k + 1, read.mark.next, read.after, fragments + [(current, at)])
  {
    var read := ReadTag(s, at, at + |d.open|, d);
    var rest := Scan(s, read.mark.next, read.after);
    assert whole.marks[..k + 1] == whole.marks[..k] + [read.mark];
    Concat3(fragments, [(current, at)], rest.fragments);
    Concat3(whole.marks[..k], [read.mark], rest.marks);
  }

  /** How a turn of the scan ends. */
  datatype Turned = Over | Broken | On(next: nat, d: Delimiters)

  class Template {
    var fragments: seq<Fragment>
    var actions: seq<Action>
    var blockPositions: seq<nat>

    constructor ()
      ensures fragments == [] && actions == [] && blockPositions == []
    {
      fragments, actions, blockPositions := [], [], [];
    }

    method OnOpen(name: Text, inverted: bool, ghost tags: seq<Tag>, ghost k: nat, ghost levels: seq<Level>) returns (ghost after: seq<Level>)
      requires Linked(tags, k, levels, actions, blockPositions) && k < |tags| && tags[k] == OpenTag(name, inverted)
      modifies `actions, `blockPositions
      ensures Linked(tags, k + 1, after, actions, blockPositions)
    {
      blockPositions := blockPositions + [|actions|];
      actions := actions + [Action(if inverted then ElseBlock else OpenBlock, name, 0)];
      Opened(levels, Level(name, inverted, End), old(blockPositions));
      after := levels + [Level(name, inverted, End)];
      assert tags[..k + 1] == tags[..k] + [tags[k]] && tags[k..][1..] == tags[k + 1..];
    }

    method OnPlain(t: ActionType, name: Text, ghost item: Item, ghost tags: seq<Tag>, ghost k: nat, ghost levels: seq<Level>)
      returns (ghost after: seq<Level>)
      requires Linked(tags, k, levels, actions, blockPositions) && k < |tags| && ItemTags(item) == [tags[k]]
      requires FlatItem(item, 0) == [Action(t, name, 0)] && !item.Section?
      modifies `actions, `blockPositions
      ensures Linked(tags, k + 1, after, actions, blockPositions)
    {
      actions := actions + [Action(t, name, 0)];
      ExtendedBy(levels, item, blockPositions);
      after := Extended(levels, item);
      assert tags[..k + 1] == tags[..k] + [tags[k]] && tags[k..][1..] == tags[k + 1..];
    }

    /** An end tag: it must name the last open block, which learns its position. */
    method OnClose(name: Text, ghost tags: seq<Tag>, ghost k: nat, ghost levels: seq<Level>) returns (ok: bool, ghost after: seq<Level>)
      requires Linked(tags, k, levels, actions, blockPositions) && k < |tags| && tags[k] == CloseTag(name)
      modifies `actions, `blockPositions
      ensures if ok then Linked(tags, k + 1, after, actions, blockPositions) else !Accepted(tags, [])
    {
      OneLevelNoNames(levels);
      AtClose(tags, k, levels, actions, blockPositions, name);
      ClosedBy(levels, blockPositions, actions);
      var matched := blockPositions[|blockPositions| - 1];
      after := levels;
      if actions[matched].name != name {
        return false, after;
      }
      after := Closed(levels);
      actions := actions[matched := actions[matched].(pos := |actions|)];
      actions := actions + [Action(CloseBlock, name, matched)];
      blockPositions := blockPositions[..|blockPositions| - 1];
      ok := true;
    }

    /** One tag, by its kind. */
    method OnMark(s: Text, m: Mark, ghost tags: seq<Tag>, ghost k: nat, ghost levels: seq<Level>) returns (ok: bool, ghost after: seq<Level>)
      requires m.start <= |s| && m.end <= |s| && !m.kind.PartialMark?
      requires Linked(tags, k, levels, actions, blockPositions) && k < |tags| && tags[k] == TagOf(s, m)
      modifies `actions, `blockPositions
      ensures if ok then Linked(tags, k + 1, after, actions, blockPositions) else !Accepted(tags, [])
    {
      var name := Between(s, m.start, m.end);
      ok, after := true, levels;
      match m.kind
      case OpenMark => after := OnOpen(name, false, tags, k, levels);
      case InvertedMark => after := OnOpen(name, true, tags, k, levels);
      case CloseMark => ok, after := OnClose(name, tags, k, levels);
      case RawMark => after := OnPlain(UnescapeTag, name, Shown(name, false), tags, k, levels);
      case ValueMark => after := OnPlain(TagAction, name, Shown(name, true), tags, k, levels);
      case CommentMark => after := OnPlain(Ignore, [], Ignored, tags, k, levels);
      case ChangeMark => after := OnPlain(Ignore, [], Ignored, tags, k, levels);
      case PartialMark =>
    }

    /** One turn of the loop: no tag is left, or the next one is in error, or the scan goes on behind it. */
    method Turn(s: Text, current: nat, d: Delimiters, ghost whole: Scanned, ghost tags: seq<Tag>, ghost k: nat, ghost levels: seq<Level>)
      returns (turned: Turned, ghost after: seq<Level>)
      requires Scanning(s, whole, k, current, d, fragments) && Linked(tags, k, levels, actions, blockPositions)
      requires InText(s, whole.marks) && tags == TagsOfMarks(s, whole.marks) && PartialFree(whole.marks)
      modifies this
      ensures turned.Over? ==> whole.error.None? && |whole.marks| == k && fragments == whole.fragments
                               && after == levels && actions == old(actions) && blockPositions == old(blockPositions)
      ensures turned.Broken? ==> whole.error.Some? || !Accepted(tags, [])
      ensures turned.On? ==> current < turned.next && Scanning(s, whole, k + 1, turned.next, turned.d, fragments)
                             && Linked(tags, k + 1, after, actions, blockPositions)
    {
      var found := Find(s, d.open, current);
      ScanningEnds(s, whole, k, current, d, fragments);
      after := levels;
      if found.None? {
        fragments := fragments + [(current, |s|)];
        return Over, after;
      }
      FoundVisible(s, current, d, found.value, found.value + |d.open|);
      var read := ReadTagAt(s, found.value, found.value + |d.open|, d);
      if read.Bad? {
        return Broken, after;
      }
      var ok;
      ok, after := OnFound(s, current, d, found.value, read, whole, tags, k, levels);
      turned := if ok then On(read.mark.next, read.after) else Broken;
    }

    /** A tag that was found: the fragment before it is noted, and the tag linked. */
    method OnFound(s: Text, current: nat, d: Delimiters, at: nat, read: Read,
                   ghost whole: Scanned, ghost tags: seq<Tag>, ghost k: nat, ghost levels: seq<Level>)
      returns (ok: bool, ghost after: seq<Level>)
      requires Scanning(s, whole, k, current, d, fragments) && Linked(tags, k, levels, actions, blockPositions)
      requires Find(s, d.open, current) == Some(at) && read == ReadTag(s, at, at + |d.open|, d) && read.Good?
      requires InText(s, whole.marks) && tags == TagsOfMarks(s, whole.marks) && PartialFree(whole.marks)
      modifies this
      ensures ok ==> Scanning(s, whole, k + 1, read.mark.next, read.after, fragments)
      ensures if ok then Linked(tags, k + 1, after, actions, blockPositions) else !Accepted(tags, [])
    {
      ScanningOn(s, whole, k, current, d, fragments, at);
      fragments := fragments + [(current, at)];
      assert tags[k] == TagOf(s, read.mark);
      ok, after := OnMark(s, read.mark, tags, k, levels);
    }

    /**
     * Finds the tags of a text and links them. It ends well exactly for texts without an error whose end tags all name the
     * block that is open; the actions are then those of the levels of open blocks, closed by one that does nothing, and the
     * fragments are those between the tags. Blocks left open are not noticed: their positions are never set.
     */
    method FindTags(s: Text) returns (ok: bool, ghost levels: seq<Level>)
      requires fragments == [] && actions == [] && blockPositions == []
      requires NeverOverclosed(TagsIn(s), []) && PartialFree(ScanAll(s).marks)
      modifies this
      ensures ok <==> ScanAll(s).error.None? && Accepted(TagsIn(s), [])
      ensures ok ==> fragments == ScanAll(s).fragments && |actions| == |fragments|
      ensures ok ==> CompiledLevels(TagsIn(s), levels, actions, blockPositions)
    {
      ghost var whole, tags := ScanAll(s), TagsIn(s);
      ghost var k: nat := 0;
      var current: nat, d := 0, DEFAULT;
      levels := [Level([], false, End)];
      Begun(s);
      ScannedInText(s, 0, DEFAULT);
      while true
        invariant Scanning(s, whole, k, current, d, fragments) && Linked(tags, k, levels, actions, blockPositions)
        decreases |s| - current
      {
        var turned;
        turned, levels := Turn(s, current, d, whole, tags, k, levels);
        if turned.Broken? {
          return false, levels;
        }
        if turned.Over? {
          break;
        }
        k, current, d := k + 1, turned.next, turned.d;
      }
      Finish(tags, levels);
      ok := true;
    }

    /** Behind the last tag an action is added that does nothing, for the last fragment. */
    method Finish(ghost tags: seq<Tag>, ghost levels: seq<Level>)
      requires Linked(tags, |tags|, levels, actions, blockPositions)
      modifies `actions
      ensures Accepted(tags, []) && |actions| == |tags| + 1 && CompiledLevels(tags, levels, actions, blockPositions)
    {
      AllLinked(tags, levels, actions, blockPositions);
      LevelWidth(levels);
      actions := actions + [Action(Ignore, [], 0)];
    }

    /** Cuts the lines of lone tags, from the last tag to the first; what is left does not depend on the order. */
    method RemoveStandalones(s: Text)
      requires |fragments| == |actions| && actions != [] && Bounded(s, fragments)
      modifies `fragments
      ensures |fragments| == |actions| && forall i :: 0 <= i < |fragments| ==> fragments[i] == Trimmed(s, old(fragments), actions, i)
    {
      ghost var original := fragments;
      var i := |actions| - 1;
      while i > 0
        invariant 0 <= i < |actions| && DoneFrom(s, original, actions, fragments, i)
      {
        i := i - 1;
        RemoveStandalone(s, i, original);
      }
    }

    /** A lone tag takes its line with it. */
    method RemoveStandalone(s: Text, i: nat, ghost original: seq<Fragment>)
      requires |original| == |actions| && i + 1 < |actions| && Bounded(s, original) && DoneFrom(s, original, actions, fragments, i + 1)
      modifies `fragments
      ensures DoneFrom(s, original, actions, fragments, i)
    {
      FoundBehind(s, original, actions, fragments, i);
      if !Shows(actions[i].t) {
        var line := LineOf(s, fragments[i], fragments[i + 1], i == 0, i + 2 == |actions|);
        if line.Some? {
          fragments := fragments[i := (fragments[i].0, line.value.0)][i + 1 := (line.value.1, fragments[i + 1].1)];
        }
      }
      DoneOneMore(s, original, actions, old(fragments), fragments, i);
    }

    /** Compiles a template: its tags linked, and the lines of lone tags cut from the text between them. */
    method Parse(s: Text) returns (ok: bool, ghost levels: seq<Level>)
      requires fragments == [] && actions == [] && blockPositions == []
      requires NeverOverclosed(TagsIn(s), []) && PartialFree(ScanAll(s).marks)
      modifies this
      ensures ok <==> ScanAll(s).error.None? && Accepted(TagsIn(s), [])
      ensures ok ==> CompiledLevels(TagsIn(s), levels, actions, blockPositions)
      ensures ok ==>
                && |fragments| == |actions| == |ScanAll(s).fragments| && Bounded(s, ScanAll(s).fragments)
                && forall i :: 0 <= i < |fragments| ==> fragments[i] == Trimmed(s, ScanAll(s).fragments, actions, i)
    {
      ok, levels := FindTags(s);
      if ok {
        ScanTiles(s, 0, DEFAULT);
        RemoveStandalones(s);
      }
    }
  }

  /**
   * What compiling leaves of accepted tags: the levels of the blocks left open, each with the tags in it, and their actions,
   * where only the blocks left open have no position.
   */
  ghost predicate CompiledLevels(tags: seq<Tag>, levels: seq<Level>, actions: seq<Action>, positions: seq<nat>) {
    && levels != [] && LevelTags(levels) == tags && actions == LevelActions(levels) + [Action(Ignore, [], 0)]
    && Tracks(levels, positions) && OpenNames(levels) == LeftOpen(tags, [])
  }

  /** Without a block left open there is one level, whose items are the tree of the tags. */
  lemma {:induction false} CompiledTree(tags: seq<Tag>, levels: seq<Level>, actions: seq<Action>, positions: seq<nat>)
    requires CompiledLevels(tags, levels, actions, positions)
    ensures positions == [] <==> LeftOpen(tags, []) == []
    ensures positions == [] ==> TagsOf(levels[0].items) == tags && actions == Flat(levels[0].items, 0) + [Action(Ignore, [], 0)]
  {
    OneLevelNoNames(levels);
  }

  /** A block left open: its action is where its name says, and its position was never set. */
  lemma {:induction false} LeftOpenUnset(tags: seq<Tag>, levels: seq<Level>, actions: seq<Action>, positions: seq<nat>, k: nat)
    requires CompiledLevels(tags, levels, actions, positions) && k < |positions|
    ensures |LeftOpen(tags, [])| == |positions| && positions[k] < |actions| && Opens(actions[positions[k]])
    ensures actions[positions[k]].name == LeftOpen(tags, [])[k] && actions[positions[k]].pos == 0
  {
    OneLevelNoNames(levels);
    LevelAt(levels, k);
  }

  /** The first action of a level, and the name of its block. */
  lemma {:induction false} LevelAt(levels: seq<Level>, k: nat)
    requires k + 1 < |levels|
    ensures var p := |LevelActions(levels[..k + 1])|;
            p < |LevelActions(levels)| && LevelActions(levels)[p] == Unfinished(levels[k + 1])
    ensures k < |OpenNames(levels)| && OpenNames(levels)[k] == levels[k + 1].name
    decreases |levels|
  {
    var front := levels[..|levels| - 1];
    OneLevelNoNames(levels);
    OneLevelNoNames(front);
    if k + 2 < |levels| {
      LevelAt(front, k);
      assert front[..k + 1] == levels[..k + 1];
    } else {
      assert levels[..k + 1] == front;
    }
  }

  lemma {:induction false} Begun(s: Text)
    ensures Scanning(s, ScanAll(s), 0, 0, DEFAULT, [])
    ensures Linked(TagsIn(s), 0, [Level([], false, End)], [], []) <== NeverOverclosed(TagsIn(s), [])
  {
    var tags := TagsIn(s);
    assert tags[0..] == tags && tags[..0] == [];
    assert [] + ScanAll(s).fragments == ScanAll(s).fragments && ScanAll(s).marks[..0] == [];
    assert [] + ScanAll(s).marks == ScanAll(s).marks;
  }

  /** What is linked when all tags are. */
  lemma {:induction false} AllLinked(tags: seq<Tag>, levels: seq<Level>, actions: seq<Action>, positions: seq<nat>)
    requires Linked(tags, |tags|, levels, actions, positions)
    ensures Accepted(tags, []) && LevelTags(levels) == tags && OpenNames(levels) == LeftOpen(tags, [])
  {
    assert tags[|tags|..] == [] && tags[..|tags|] == tags;
  }

  /** There are as many actions as tags. */
  lemma {:induction false} LevelWidth(levels: seq<Level>)
    requires levels != []
    ensures |LevelActions(levels)| == |LevelTags(levels)|
    decreases |levels|
  {
    TagsFitActions(levels[|levels| - 1].items);
    if |levels| > 1 {
      LevelWidth(levels[..|levels| - 1]);
    }
  }
}
