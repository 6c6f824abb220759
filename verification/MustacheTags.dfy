/** Tags in their other forms: blanks around a name, three braces, and tags that change the delimiters. */
module MustacheTags {
  import opened Bytes
  import opened MustacheTemplate
  import opened MustacheScanner
  import opened MustachePrinted

  predicate IsBlanks(g: Text) {
    forall i :: 0 <= i < |g| ==> g[i] == ' '
  }

  /** A word without blanks at its ends. */
  predicate IsWord(w: Text) {
    w != [] && w[0] != ' ' && w[|w| - 1] != ' '
  }

  lemma {:induction false} BlanksPassed(s: Text, p: nat, g: Text, w: Text)
    requires IsBlanks(g) && IsWord(w) && Matches(s, p, g) && Matches(s, p + |g|, w)
    ensures AfterBlanks(s, p) == p + |g|
    decreases |g|
  {
    if g == [] {
      MatchesByte(s, p, w, 0);
    } else {
      MatchesByte(s, p, g, 0);
      BlanksPassed(s, p + 1, g[1..], w);
    }
  }

  lemma {:induction false} BlanksDropped(s: Text, p: nat, w: Text, g: Text)
    requires IsBlanks(g) && IsWord(w) && Matches(s, p, w) && Matches(s, p + |w|, g)
    ensures BeforeBlanks(s, p + |w| + |g|) == p + |w|
    decreases |g|
  {
    if g == [] {
      MatchesByte(s, p, w, |w| - 1);
    } else {
      var front := g[..|g| - 1];
      MatchesByte(s, p + |w|, g, |g| - 1);
      assert g == front + [g[|g| - 1]];
      MatchesThen(s, p + |w|, front, [g[|g| - 1]]);
      BlanksDropped(s, p, w, front);
    }
  }

  /** A name between blanks. */
  lemma {:induction false} NameTrimmed(s: Text, p: nat, before: Text, name: Text, after: Text, e: nat)
    requires IsBlanks(before) && IsWord(name) && IsBlanks(after) && Matches(s, p, before + (name + after)) && e == p + |before + (name + after)|
    ensures AfterBlanks(s, p) == p + |before| && BeforeBlanks(s, e) == e - |after| && Between(s, AfterBlanks(s, p), BeforeBlanks(s, e)) == name
  {
    MatchesThen(s, p, before, name + after);
    MatchesThen(s, p + |before|, name, after);
    BlanksPassed(s, p, before, name);
    BlanksDropped(s, p + |before|, name, after);
    BetweenMatches(s, p + |before|, name);
  }

  /** A tag with its content between the delimiters in force. */
  predicate Stands(s: Text, at: nat, d: Delimiters, content: Text) {
    Usable(d) && Matches(s, at, d.open + (content + d.close)) && EndsFirst(content, d.close)
  }

  lemma {:induction false} TagStands(s: Text, at: nat, d: Delimiters, content: Text)
    requires Stands(s, at, d, content)
    ensures var from := at + |d.open|;
            && Matches(s, from, content) && Find(s, d.close, from) == Some(from + |content|)
            && from + |content| + |d.close| <= |s|
  {
    MatchesThen(s, at, d.open, content + d.close);
    MatchesThen(s, at + |d.open|, content, d.close);
    FindsBehind(s, at + |d.open|, content, d.close);
  }

  /** Blanks around the name of a tag do not belong to it, whatever its sigil. */
  lemma {:induction false} BlanksAroundName(s: Text, at: nat, d: Delimiters, sigil: Byte, before: Text, name: Text, after: Text)
    requires SigilKind(sigil).Some? && IsBlanks(before) && IsWord(name) && IsBlanks(after)
    requires Stands(s, at, d, [sigil] + (before + (name + after)))
    ensures var r := ReadTag(s, at, at + |d.open|, d);
            && r.Good? && r.after == d && r.mark.kind == SigilKind(sigil).value && r.mark.start <= |s|
            && Between(s, r.mark.start, r.mark.end) == name
  {
    var content := [sigil] + (before + (name + after));
    var from := at + |d.open|;
    TagStands(s, at, d, content);
    MatchesThen(s, from, [sigil], before + (name + after));
    MatchesByte(s, from, [sigil], 0);
    NameTrimmed(s, from + 1, before, name, after, from + |content|);
  }

  /** Five bytes make a tag something else than a value: a hash opens a section, a caret an inverted one, a slash ends one. */
  lemma {:induction false} Sigils(c: Byte)
    ensures SigilKind(c) == if c == '#' then Some(OpenMark) else if c == '^' then Some(InvertedMark) else if c == '/' then Some(CloseMark)
                            else if c == '>' then Some(PartialMark) else if c == '&' then Some(RawMark) else None
  {
  }

  /** A name in three braces is shown as it is; the tag ends behind the third. */
  lemma {:induction false} TripleReads(s: Text, at: nat, before: Text, name: Text, after: Text)
    requires IsBlanks(before) && IsWord(name) && IsBlanks(after)
    requires Stands(s, at, Delimiters("{{", "}}"), ['{'] + (before + (name + after)))
    requires Peek(s, at + |name| + |before| + |after| + 5) == '}'
    ensures var r := ReadTag(s, at, at + 2, Delimiters("{{", "}}"));
            && r.Good? && r.after == DEFAULT && r.mark.kind == RawMark && r.mark.start <= |s|
            && Between(s, r.mark.start, r.mark.end) == name && r.mark.next == at + |name| + |before| + |after| + 6
            && r.mark.end <= |s| && TagOf(s, r.mark) == Show(name, false)
  {
    var content := ['{'] + (before + (name + after));
    TagStands(s, at, DEFAULT, content);
    MatchesThen(s, at + 2, ['{'], before + (name + after));
    MatchesByte(s, at + 2, ['{'], 0);
    NameTrimmed(s, at + 3, before, name, after, at + 2 + |content|);
  }

  /** The two delimiters of a change, with blanks between and around them. */
  datatype Change = Change(before: Text, open: Text, between: Text, close: Text, after: Text)
  {
    predicate Fits() {
      && IsBlanks(before) && IsBlanks(between) && between != [] && IsBlanks(after)
      && open != [] && NoBlank(open) && close != [] && NoBlank(close)
    }

    function Words(): Text {
      open + (between + close)
    }

    function Content(): Text {
      ['='] + (before + (Words() + after) + ['='])
    }
  }

  lemma {:induction false} WithoutBlank(s: Text, p: nat, w: Text, end: nat, more: Text)
    requires NoBlank(w) && more != [] && more[0] == ' ' && Matches(s, p, w + more) && p + |w| < end <= |s|
    ensures FirstBlank(s, p, end) == Some(p + |w|)
    decreases |w|
  {
    if w == [] {
      assert w + more == more;
      MatchesByte(s, p, more, 0);
    } else {
      MatchesByte(s, p, w + more, 0);
      assert (w + more)[1..] == w[1..] + more;
      WithoutBlank(s, p + 1, w[1..], end, more);
    }
  }

  lemma {:induction false} NoBlankIsWord(w: Text)
    requires NoBlank(w) && w != []
    ensures IsWord(w)
  {
    NoBlankAt(w, |w| - 1);
  }

  /** A change of delimiters takes the word before the blanks for the opening one, and the word behind them for the closing one. */
  lemma {:induction false} ChangeReads(s: Text, at: nat, d: Delimiters, c: Change)
    requires c.Fits() && Stands(s, at, d, c.Content())
    ensures var r := ReadTag(s, at, at + |d.open|, d);
            && r.Good? && r.after == Delimiters(c.open, c.close) && r.mark.kind == ChangeMark
            && r.mark.next == at + |d.open| + |c.Content()| + |d.close|
  {
    var from := at + |d.open|;
    var e := from + |c.Content()|;
    TagStands(s, at, d, c.Content());
    ChangeStands(s, from, c);
    var p := from + 1 + |c.before|;
    ChangeWords(s, c, from + 1, p, p + |c.Words()|, e - 1);
  }

  lemma {:induction false} ChangeStands(s: Text, from: nat, c: Change)
    requires c.Fits() && Matches(s, from, c.Content())
    ensures var e := from + |c.Content()|;
            && e <= |s| && s[from] == '=' && s[e - 1] == '=' && Matches(s, from + 1, c.before + (c.Words() + c.after))
            && e - 1 == from + 1 + |c.before + (c.Words() + c.after)|
  {
    var inner := c.before + (c.Words() + c.after);
    MatchesThen(s, from, ['='], inner + ['=']);
    MatchesByte(s, from, ['='], 0);
    MatchesThen(s, from + 1, inner, ['=']);
    MatchesByte(s, from + 1 + |inner|, ['='], 0);
  }

  lemma {:induction false} ChangeWords(s: Text, c: Change, first: nat, p: nat, end: nat, stop: nat)
    requires c.Fits() && Matches(s, first, c.before + (c.Words() + c.after))
    requires p == first + |c.before| && end == p + |c.Words()| && stop == end + |c.after|
    ensures AfterBlanks(s, first) == p && stop <= |s| && BeforeBlanks(s, stop) == end && end <= |s|
    ensures FirstBlank(s, p, end) == Some(p + |c.open|) && Between(s, p, p + |c.open|) == c.open
    ensures AfterBlanks(s, p + |c.open|) == end - |c.close| && Between(s, end - |c.close|, end) == c.close
  {
    WordsStand(c);
    ThreeMatch(s, first, c.before, c.Words(), c.after);
    BlanksPassed(s, first, c.before, c.Words());
    BlanksDropped(s, p, c.Words(), c.after);
    WordsApart(s, p, c);
  }

  lemma {:induction false} ThreeMatch(s: Text, p: nat, a: Text, b: Text, c: Text)
    requires Matches(s, p, a + (b + c))
    ensures Matches(s, p, a) && Matches(s, p + |a|, b) && Matches(s, p + |a| + |b|, c)
  {
    MatchesThen(s, p, a, b + c);
    MatchesThen(s, p + |a|, b, c);
  }

  lemma {:induction false} WordsStand(c: Change)
    requires c.Fits()
    ensures IsWord(c.Words()) && IsWord(c.open) && IsWord(c.close)
  {
    NoBlankIsWord(c.open);
    NoBlankIsWord(c.close);
    assert c.Words()[0] == c.open[0] && c.Words()[|c.Words()| - 1] == c.close[|c.close| - 1];
  }

  lemma {:induction false} WordsApart(s: Text, p: nat, c: Change)
    requires c.Fits() && Matches(s, p, c.Words())
    ensures var end := p + |c.Words()|;
            && FirstBlank(s, p, end) == Some(p + |c.open|) && Between(s, p, p + |c.open|) == c.open
            && AfterBlanks(s, p + |c.open|) == end - |c.close| && Between(s, end - |c.close|, end) == c.close
  {
    WordsStand(c);
    MatchesThen(s, p, c.open, c.between + c.close);
    MatchesThen(s, p + |c.open|, c.between, c.close);
    WithoutBlank(s, p, c.open, p + |c.Words()|, c.between + c.close);
    BetweenMatches(s, p, c.open);
    BlanksPassed(s, p + |c.open|, c.between, c.close);
    BetweenMatches(s, p + |c.open| + |c.between|, c.close);
  }
}
