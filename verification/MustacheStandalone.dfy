/** Tags that stand alone on a line take their line with them: what is cut from the fragments around them. */
module MustacheStandalone {
  import opened Bytes
  import opened MustacheTemplate

  type Fragment = (nat, nat)

  ghost predicate Bounded(s: Text, fragments: seq<Fragment>) {
    forall i :: 0 <= i < |fragments| ==> fragments[i].0 <= fragments[i].1 <= |s|
  }

  /** Tags that show a value keep their line. */
  predicate Shows(t: ActionType) {
    t.TagAction? || t.UnescapeTag?
  }

  predicate Blank(s: Text, p: nat, q: nat) {
    p <= q <= |s| && forall i :: p <= i < q ==> s[i] == ' '
  }

  // ---------------------------------------------------------------- the two ends of a line

  /** Behind the last byte that is no blank, or at the beginning. */
  function BlanksBack(s: Text, from: nat, end: nat): (r: nat)
    requires from <= end <= |s|
    ensures from <= r <= end && Blank(s, r, end) && (r > from ==> s[r - 1] != ' ')
    decreases end
  {
    if from < end && s[end - 1] == ' ' then BlanksBack(s, from, end - 1) else end
  }

  /** The first byte that is no blank, or the end. */
  function BlanksOn(s: Text, from: nat, end: nat): (r: nat)
    requires from <= end <= |s|
    ensures from <= r <= end && Blank(s, from, r) && (r < end ==> s[r] != ' ')
    decreases end - from
  {
    if from < end && s[from] == ' ' then BlanksOn(s, from + 1, end) else from
  }

  /** Where the line of a tag begins, if only blanks are before it. */
  function LineStart(s: Text, f: Fragment, first: bool): (r: Option<nat>)
    requires f.0 <= f.1 <= |s|
    ensures r.Some? ==> f.0 <= r.value <= f.1
  {
    var j := BlanksBack(s, f.0, f.1);
    if j == f.0 then (if first then Some(j) else None) else if s[j - 1] == '\n' then Some(j) else None
  }

  /** Where the line of a tag is over, if only blanks are behind it; at the end of the text the blanks stay. */
  function LineEnd(s: Text, f: Fragment, last: bool): (r: Option<nat>)
    requires f.0 <= f.1 <= |s|
    ensures r.Some? ==> f.0 <= r.value <= |s|
  {
    var k := BlanksOn(s, f.0, f.1);
    if k == f.1 then (if last then Some(f.0) else None)
    else if s[k] == '\n' then Some(k + 1)
    else if s[k] == '\r' && k + 1 < |s| && s[k + 1] == '\n' then Some(k + 2)
    else None
  }

  /** A tag, other than one that shows a value, alone on its line. */
  predicate Alone(s: Text, fragments: seq<Fragment>, actions: seq<Action>, i: nat)
    requires |fragments| == |actions| && i + 1 < |fragments|
    requires fragments[i].0 <= fragments[i].1 <= |s| && fragments[i + 1].0 <= fragments[i + 1].1 <= |s|
  {
    && !Shows(actions[i].t) && LineStart(s, fragments[i], i == 0).Some?
    && LineEnd(s, fragments[i + 1], i + 2 == |fragments|).Some?
  }

  /** What is left of a fragment, judged by the text alone. */
  ghost function Trimmed(s: Text, fragments: seq<Fragment>, actions: seq<Action>, i: nat): (r: Fragment)
    requires |fragments| == |actions| && i < |fragments| && Bounded(s, fragments)
    ensures r.0 <= |s| && r.1 <= |s|
  {
    (if i > 0 && Alone(s, fragments, actions, i - 1) then LineEnd(s, fragments[i], i + 1 == |fragments|).value else fragments[i].0,
     if i + 1 < |fragments| && Alone(s, fragments, actions, i) then LineStart(s, fragments[i], i == 0).value else fragments[i].1)
  }

  // ---------------------------------------------------------------- what is alone, and what is cut

  /** Blanks reach back to the beginning of the text's first fragment, or to a line feed. */
  ghost predicate BeginsLine(s: Text, f: Fragment, first: bool, p: nat) {
    f.0 <= p <= f.1 <= |s| && Blank(s, p, f.1) && ((p == f.0 && first) || (f.0 < p && s[p - 1] == '\n'))
  }

  /** Blanks reach on to the end of the text, or to a line end. */
  ghost predicate EndsLine(s: Text, f: Fragment, last: bool, q: nat) {
    && f.0 <= q <= f.1 <= |s| && Blank(s, f.0, q)
    && ((q == f.1 && last) || (q < f.1 && (s[q] == '\n' || (s[q] == '\r' && q + 1 < |s| && s[q + 1] == '\n'))))
  }

  /** A line of blanks around a tag. */
  ghost predicate HasLine(s: Text, before: Fragment, after: Fragment, first: bool, last: bool) {
    (exists p: nat :: BeginsLine(s, before, first, p)) && (exists q: nat :: EndsLine(s, after, last, q))
  }

  lemma {:induction false} LineStartIs(s: Text, f: Fragment, first: bool)
    requires f.0 <= f.1 <= |s|
    ensures LineStart(s, f, first).Some? <==> exists p: nat :: BeginsLine(s, f, first, p)
    ensures LineStart(s, f, first).Some? ==> BeginsLine(s, f, first, LineStart(s, f, first).value)
  {
    var j := BlanksBack(s, f.0, f.1);
    if LineStart(s, f, first).Some? {
      assert BeginsLine(s, f, first, j);
    }
    if p: nat :| BeginsLine(s, f, first, p) {
      assert j <= p;
      if j < p && f.0 < p {
        assert s[p - 1] == ' ';
      }
    }
  }

  lemma {:induction false} LineEndIs(s: Text, f: Fragment, last: bool)
    requires f.0 <= f.1 <= |s|
    ensures LineEnd(s, f, last).Some? <==> exists q: nat :: EndsLine(s, f, last, q)
  {
    var k := BlanksOn(s, f.0, f.1);
    if LineEnd(s, f, last).Some? {
      assert EndsLine(s, f, last, k);
    }
    if q: nat :| EndsLine(s, f, last, q) {
      assert q <= k;
      if q < k {
        assert s[q] == ' ';
      }
    }
  }

  /**
   * A tag that shows no value is alone exactly when its line holds nothing but blanks and the tag: from the beginning of
   * the text or a line feed before it to a line end behind it, or to the end of the text.
   */
  lemma {:induction false} AloneOnItsLine(s: Text, fragments: seq<Fragment>, actions: seq<Action>, i: nat)
    requires |fragments| == |actions| && i + 1 < |fragments| && Bounded(s, fragments)
    ensures Alone(s, fragments, actions, i) <==>
              !Shows(actions[i].t) && HasLine(s, fragments[i], fragments[i + 1], i == 0, i + 2 == |fragments|)
  {
    LineStartIs(s, fragments[i], i == 0);
    LineEndIs(s, fragments[i + 1], i + 2 == |fragments|);
  }

  /** A carriage return that ends a fragment, with the line feed behind it in the tag that follows. */
  ghost predicate SplitLineEnd(s: Text, fragments: seq<Fragment>, actions: seq<Action>, i: nat)
    requires |fragments| == |actions| && i < |fragments| && Bounded(s, fragments)
  {
    && i > 0 && Alone(s, fragments, actions, i - 1) && fragments[i].0 < fragments[i].1 < |s|
    && Blank(s, fragments[i].0, fragments[i].1 - 1) && s[fragments[i].1 - 1] == '\r' && s[fragments[i].1] == '\n'
  }

  /** A fragment keeps its bounds in order exactly when the line end behind a lone tag is not cut by the next tag. */
  lemma {:induction false} TrimmedInOrder(s: Text, fragments: seq<Fragment>, actions: seq<Action>, i: nat)
    requires |fragments| == |actions| && i < |fragments| && Bounded(s, fragments)
    ensures var f := Trimmed(s, fragments, actions, i);
            f.0 <= f.1 <= |s| <==> !SplitLineEnd(s, fragments, actions, i)
  {
    var f := fragments[i];
    if i > 0 && Alone(s, fragments, actions, i - 1) {
      var k, j := BlanksOn(s, f.0, f.1), BlanksBack(s, f.0, f.1);
      if k < f.1 {
        assert k < j;
        if s[k] == '\r' && k + 1 < f.1 {
          assert s[k + 1] != ' ' && k + 1 < j;
        }
        if s[k] == '\r' && k + 1 == f.1 {
          assert j == f.1 && s[j - 1] == '\r';
        }
      }
      if SplitLineEnd(s, fragments, actions, i) {
        assert k == f.1 - 1;
      }
    }
  }

  // ---------------------------------------------------------------- the loop, from the last tag to the first

  /** Cutting the fragment behind a tag at its own end changes nothing for the tag. */
  lemma {:induction false} CutBehindSame(s: Text, f: Fragment, cut: nat)
    requires f.0 <= f.1 <= |s| && f.0 < cut <= f.1 && s[cut - 1] == '\n'
    ensures LineEnd(s, (f.0, cut), false) == LineEnd(s, f, false)
  {
    var k := BlanksOn(s, f.0, f.1);
    assert k < cut;
    BlanksOnShorter(s, f.0, f.1, cut);
  }

  lemma {:induction false} BlanksOnShorter(s: Text, from: nat, end: nat, mid: nat)
    requires from <= mid <= end <= |s| && BlanksOn(s, from, end) < mid
    ensures BlanksOn(s, from, mid) == BlanksOn(s, from, end)
    decreases end - from
  {
    if s[from] == ' ' {
      BlanksOnShorter(s, from + 1, end, mid);
    }
  }

  /** The fragments once the tags from `i` on are done: those behind it for good, that of the tag itself at its end. */
  ghost predicate DoneFrom(s: Text, original: seq<Fragment>, actions: seq<Action>, now: seq<Fragment>, i: nat)
    requires |original| == |actions| && i < |original| && Bounded(s, original)
  {
    && |now| == |original|
    && (forall k :: i < k < |now| ==> now[k] == Trimmed(s, original, actions, k))
    && now[i] == (original[i].0, Trimmed(s, original, actions, i).1)
    && (forall k :: 0 <= k < i ==> now[k] == original[k])
  }

  /** What a tag finds behind it: its fragment, perhaps without its end. */
  lemma {:induction false} FoundBehind(s: Text, original: seq<Fragment>, actions: seq<Action>, now: seq<Fragment>, i: nat)
    requires |original| == |actions| && i + 1 < |original| && Bounded(s, original) && DoneFrom(s, original, actions, now, i + 1)
    ensures now[i + 1].0 <= now[i + 1].1 <= |s|
    ensures LineEnd(s, now[i + 1], i + 2 == |original|) == LineEnd(s, original[i + 1], i + 2 == |original|)
  {
    if i + 2 < |original| && Alone(s, original, actions, i + 1) {
      var cut := LineStart(s, original[i + 1], false).value;
      assert s[cut - 1] == '\n' && original[i + 1].0 < cut;
      CutBehindSame(s, original[i + 1], cut);
    }
  }

  lemma {:induction false} DoneOneMore(s: Text, original: seq<Fragment>, actions: seq<Action>, now: seq<Fragment>, next: seq<Fragment>, i: nat)
    requires |original| == |actions| && i + 1 < |original| && Bounded(s, original) && DoneFrom(s, original, actions, now, i + 1)
    requires Alone(s, original, actions, i) ==>
               next == now[i := (now[i].0, LineStart(s, original[i], i == 0).value)]
                          [i + 1 := (LineEnd(s, original[i + 1], i + 2 == |original|).value, now[i + 1].1)]
    requires !Alone(s, original, actions, i) ==> next == now
    ensures DoneFrom(s, original, actions, next, i)
  {
  }

  /** The end of blanks behind a tag. */
  method ScanOn(s: Text, f: Fragment) returns (k: nat)
    requires f.0 <= f.1 <= |s|
    ensures k == BlanksOn(s, f.0, f.1)
  {
    k := f.0;
    while k < f.1 && s[k] == ' '
      invariant f.0 <= k <= f.1 && BlanksOn(s, k, f.1) == BlanksOn(s, f.0, f.1)
    {
      k := k + 1;
    }
  }

  /** The beginning of blanks before a tag. */
  method ScanBack(s: Text, f: Fragment) returns (j: nat)
    requires f.0 <= f.1 <= |s|
    ensures j == BlanksBack(s, f.0, f.1)
  {
    j := f.1;
    while f.0 < j && s[j - 1] == ' '
      invariant f.0 <= j <= f.1 && BlanksBack(s, f.0, j) == BlanksBack(s, f.0, f.1)
    {
      j := j - 1;
    }
  }

  /** Where a lone tag's line begins and ends, from the fragments around it. */
  method LineOf(s: Text, before: Fragment, after: Fragment, first: bool, last: bool) returns (line: Option<Fragment>)
    requires before.0 <= before.1 <= |s| && after.0 <= after.1 <= |s|
    ensures line.Some? <==> LineStart(s, before, first).Some? && LineEnd(s, after, last).Some?
    ensures line.Some? ==> line.value == (LineStart(s, before, first).value, LineEnd(s, after, last).value)
  {
    line := None;
    var j := ScanBack(s, before);
    if j == before.0 && !first {
      return;
    }
    if j != before.0 && s[j - 1] != '\n' {
      return;
    }
    var k := ScanOn(s, after);
    if k == after.1 {
      return if last then Some((j, after.0)) else None;
    }
    if s[k] == '\n' {
      return Some((j, k + 1));
    }
    if s[k] == '\r' && k + 1 < |s| && s[k + 1] == '\n' {
      return Some((j, k + 2));
    }
  }
}
