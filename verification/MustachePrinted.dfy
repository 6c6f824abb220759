/** Templates as their authors write them, and the scanner that finds their texts and tags again. */
module MustachePrinted {
  import opened Bytes
  import opened MustacheTemplate
  import opened MustacheScanner

  /** What is written in front of the name of a tag. */
  function Sigil(t: Tag): Text {
    match t
    case OpenTag(_, inverted) => [if inverted then '^' else '#']
    case CloseTag(_) => ['/']
    case Show(_, escaped) => if escaped then [] else ['&']
    case Comment => ['!']
  }

  function KindOf(t: Tag): Kind {
    match t
    case OpenTag(_, inverted) => if inverted then InvertedMark else OpenMark
    case CloseTag(_) => CloseMark
    case Show(_, escaped) => if escaped then ValueMark else RawMark
    case Comment => CommentMark
  }

  function TagName(t: Tag): Text {
    match t
    case OpenTag(name, _) => name
    case CloseTag(name) => name
    case Show(name, _) => name
    case Comment => []
  }

  /** What is written between the delimiters of a tag. */
  function Content(t: Tag): Text {
    Sigil(t) + TagName(t)
  }

  /** A text and the delimiter behind it hold that delimiter nowhere but at the end. */
  predicate EndsFirst(t: Text, word: Text) {
    forall q :: 0 <= q < |t| ==> !Matches(t + word, q, word)
  }

  predicate Lacks(t: Text, word: Text) {
    forall q :: 0 <= q <= |t| ==> !Matches(t, q, word)
  }

  /** A first byte that makes a tag something else than a value. */
  predicate IsSigil(c: Byte) {
    SigilKind(c).Some? || c == '!' || c == '{' || c == '='
  }

  /** A tag that can be written: its name is not cut by blanks or by the delimiter, and a value does not look like something else. */
  predicate Writable(t: Tag) {
    var name := TagName(t);
    && EndsFirst(Content(t), DEFAULT.close)
    && (name != [] ==> name[0] != ' ' && name[|name| - 1] != ' ')
    && (t.Show? && t.escaped ==> name != [] && !IsSigil(name[0]))
  }

  function TagText(t: Tag): Text {
    DEFAULT.open + (Content(t) + DEFAULT.close)
  }

  /** Texts and tags in turn. */
  function Written(texts: seq<Text>, tags: seq<Tag>): Text
    requires |texts| == |tags| + 1
    decreases |tags|
  {
    if tags == [] then texts[0] else texts[0] + (TagText(tags[0]) + Written(texts[1..], tags[1..]))
  }

  /** Texts and tags that can be written. */
  predicate AllWritable(texts: seq<Text>, tags: seq<Tag>)
    requires |texts| == |tags| + 1
  {
    && (forall i {:trigger Writable(tags[i])} :: 0 <= i < |tags| ==> Writable(tags[i]))
    && (forall i {:trigger EndsFirst(texts[i], DEFAULT.open)} :: 0 <= i < |tags| ==> EndsFirst(texts[i], DEFAULT.open))
    && Lacks(texts[|tags|], DEFAULT.open)
  }

  /** The tag written at a place, and where its parts stand. */
  function MarkOf(at: nat, t: Tag): Mark {
    var from := at + 2;
    Mark(KindOf(t), from + |Sigil(t)|, from + |Content(t)|, at, at + |TagText(t)|, DEFAULT)
  }

  /** Where the texts and tags stand when they are written from `p` on. */
  function Layout(p: nat, texts: seq<Text>, tags: seq<Tag>): (r: Scanned)
    requires |texts| == |tags| + 1
    ensures |r.fragments| == |texts| && |r.marks| == |tags|
    decreases |tags|
  {
    var at := p + |texts[0]|;
    if tags == [] then Scanned([(p, at)], [], None)
    else
      var rest := Layout(at + |TagText(tags[0])|, texts[1..], tags[1..]);
      Scanned([(p, at)] + rest.fragments, [MarkOf(at, tags[0])] + rest.marks, None)
  }

  /** The texts and tags are found where they are said to be. */
  ghost predicate GivesBack(s: Text, r: Scanned, texts: seq<Text>, tags: seq<Tag>)
    decreases |tags|
  {
    && |r.marks| == |tags| && |r.fragments| == |texts| == |tags| + 1
    && TextReads(s, r.fragments[0], texts[0])
    && (tags != [] ==> MarkReads(s, r.marks[0], tags[0]) && GivesBack(s, Behind(r), texts[1..], tags[1..]))
  }

  /** What is found behind the first tag. */
  function Behind(r: Scanned): Scanned
    requires r.fragments != [] && r.marks != []
  {
    Scanned(r.fragments[1..], r.marks[1..], r.error)
  }

  ghost predicate MarkReads(s: Text, m: Mark, t: Tag) {
    m.start <= |s| && m.end <= |s| && TagOf(s, m) == t && !m.kind.PartialMark?
  }

  ghost predicate TextReads(s: Text, f: (nat, nat), text: Text) {
    f.0 <= f.1 <= |s| && Between(s, f.0, f.1) == text
  }

  // ---------------------------------------------------------------- words that stand in a text

  lemma {:induction false} MatchesThen(s: Text, p: nat, a: Text, b: Text)
    ensures Matches(s, p, a + b) <==> Matches(s, p, a) && Matches(s, p + |a|, b)
    decreases |a|
  {
    if a == [] {
      assert a + b == b;
    } else {
      assert (a + b)[1..] == a[1..] + b;
      MatchesThen(s, p + 1, a[1..], b);
    }
  }

  lemma {:induction false} MatchesByte(s: Text, p: nat, word: Text, i: nat)
    requires Matches(s, p, word) && i < |word|
    ensures p + i < |s| && s[p + i] == word[i]
    decreases i
  {
    if i > 0 {
      MatchesByte(s, p + 1, word[1..], i - 1);
    }
  }

  lemma {:induction false} MatchesItself(s: Text)
    ensures Matches(s, 0, s)
  {
    assert s[0..] == s;
    MatchesStands(s, 0, s);
  }

  /** What stands inside a word that stands in the text. */
  lemma {:induction false} MatchesWithin(s: Text, p: nat, t: Text, q: nat, word: Text)
    requires Matches(s, p, t) && p <= q && q + |word| <= p + |t|
    ensures Matches(s, q, word) <==> Matches(t, q - p, word)
    decreases |word|
  {
    if word != [] {
      MatchesByte(s, p, t, q - p);
      MatchesWithin(s, p, t, q + 1, word[1..]);
    }
  }

  lemma {:induction false} BetweenMatches(s: Text, p: nat, t: Text)
    requires Matches(s, p, t)
    ensures Between(s, p, p + |t|) == t
    decreases |t|
  {
    if t != [] {
      BetweenMatches(s, p + 1, t[1..]);
    }
  }

  // ---------------------------------------------------------------- what stands where it is said to be

  /** The parts of a written tag. */
  lemma {:induction false} TagMatches(s: Text, at: nat, t: Tag)
    requires Matches(s, at, TagText(t))
    ensures Matches(s, at, DEFAULT.open) && Matches(s, at + 2, Content(t) + DEFAULT.close)
    ensures Matches(s, at + 2, Sigil(t)) && Matches(s, MarkOf(at, t).start, TagName(t)) && Matches(s, MarkOf(at, t).end, DEFAULT.close)
  {
    MatchesThen(s, at, DEFAULT.open, Content(t) + DEFAULT.close);
    MatchesThen(s, at + 2, Content(t), DEFAULT.close);
    MatchesThen(s, at + 2, Sigil(t), TagName(t));
  }

  lemma {:induction false} MarkOfReads(s: Text, at: nat, t: Tag)
    requires Matches(s, at, TagText(t))
    ensures MarkReads(s, MarkOf(at, t), t)
  {
    TagMatches(s, at, t);
    BetweenMatches(s, MarkOf(at, t).start, TagName(t));
  }

  /** The first text and tag of a written template, and the rest. */
  lemma {:induction false} WrittenParts(s: Text, p: nat, texts: seq<Text>, tags: seq<Tag>)
    requires |texts| == |tags| + 1 && tags != [] && Matches(s, p, Written(texts, tags))
    ensures var at, more := p + |texts[0]|, Written(texts[1..], tags[1..]);
            var next := at + |TagText(tags[0])|;
            && Matches(s, p, texts[0]) && Matches(s, at, TagText(tags[0])) && Matches(s, next, more)
            && next + |more| == p + |Written(texts, tags)|
  {
    var more := Written(texts[1..], tags[1..]);
    MatchesThen(s, p, texts[0], TagText(tags[0]) + more);
    MatchesThen(s, p + |texts[0]|, TagText(tags[0]), more);
  }

  lemma {:induction false} FirstReads(s: Text, p: nat, texts: seq<Text>, tags: seq<Tag>)
    requires |texts| == |tags| + 1 && tags != [] && Matches(s, p, Written(texts, tags))
    ensures var at := p + |texts[0]|;
            && TextReads(s, (p, at), texts[0]) && MarkReads(s, MarkOf(at, tags[0]), tags[0])
            && Matches(s, at + |TagText(tags[0])|, Written(texts[1..], tags[1..]))
  {
    WrittenParts(s, p, texts, tags);
    BetweenMatches(s, p, texts[0]);
    MarkOfReads(s, p + |texts[0]|, tags[0]);
  }

  lemma {:induction false} LayoutReads(s: Text, p: nat, texts: seq<Text>, tags: seq<Tag>)
    requires |texts| == |tags| + 1 && Matches(s, p, Written(texts, tags))
    ensures GivesBack(s, Layout(p, texts, tags), texts, tags)
    decreases |tags|
  {
    if tags == [] {
      BetweenMatches(s, p, texts[0]);
    } else {
      FirstReads(s, p, texts, tags);
      LayoutBehind(p, texts, tags);
      LayoutReads(s, p + |texts[0]| + |TagText(tags[0])|, texts[1..], tags[1..]);
    }
  }

  lemma {:induction false} LayoutBehind(p: nat, texts: seq<Text>, tags: seq<Tag>)
    requires |texts| == |tags| + 1 && tags != []
    ensures var at, r := p + |texts[0]|, Layout(p, texts, tags);
            && r.fragments[0] == (p, at) && r.marks[0] == MarkOf(at, tags[0])
            && Behind(r) == Layout(at + |TagText(tags[0])|, texts[1..], tags[1..])
  {
  }

  lemma {:induction false} TextGivenBack(s: Text, r: Scanned, texts: seq<Text>, tags: seq<Tag>, i: nat)
    requires GivesBack(s, r, texts, tags) && i < |texts|
    ensures TextReads(s, r.fragments[i], texts[i])
    decreases i
  {
    if i > 0 {
      TextGivenBack(s, Behind(r), texts[1..], tags[1..], i - 1);
    }
  }

  lemma {:induction false} TagsGivenBack(s: Text, r: Scanned, texts: seq<Text>, tags: seq<Tag>)
    requires GivesBack(s, r, texts, tags) && InText(s, r.marks)
    ensures TagsOfMarks(s, r.marks) == tags && PartialFree(r.marks)
    decreases |tags|
  {
    if tags != [] {
      TagsGivenBack(s, Behind(r), texts[1..], tags[1..]);
      assert r.marks == [r.marks[0]] + r.marks[1..] && tags == [tags[0]] + tags[1..];
    }
  }

  // ---------------------------------------------------------------- the scanner finds it there

  lemma {:induction false} FindIs(s: Text, word: Text, p: nat, k: nat)
    requires p <= k <= |s| && Matches(s, k, word) && forall q :: p <= q < k ==> !Matches(s, q, word)
    ensures Find(s, word, p) == Some(k)
  {
    var found := Find(s, word, p);
    FindsFirst(s, word, p, k);
    if found.Some? && found.value < k {
      FindsFirst(s, word, p, found.value);
    }
  }

  lemma {:induction false} FindsBehind(s: Text, p: nat, t: Text, word: Text)
    requires Matches(s, p, t + word) && EndsFirst(t, word)
    ensures Find(s, word, p) == Some(p + |t|)
  {
    MatchesThen(s, p, t, word);
    forall q | p <= q < p + |t| ensures !Matches(s, q, word) {
      MatchesWithin(s, p, t + word, q, word);
    }
    FindIs(s, word, p, p + |t|);
  }

  lemma {:induction false} FindsNone(s: Text, p: nat, t: Text, word: Text)
    requires Matches(s, p, t) && p + |t| == |s| && Lacks(t, word)
    ensures Find(s, word, p).None?
  {
    var found := Find(s, word, p);
    if found.Some? {
      FindsFirst(s, word, p, found.value);
      MatchesWithin(s, p, t, found.value, word);
    }
  }

  /** A name with no blanks at its ends, between visible bytes. */
  lemma {:induction false} NameKept(s: Text, p: nat, e: nat, name: Text)
    requires Matches(s, p, name) && e == p + |name| && 0 < p && e < |s| && s[e] != ' ' && s[p - 1] != ' '
    requires name != [] ==> name[0] != ' ' && name[|name| - 1] != ' '
    ensures AfterBlanks(s, p) == p && BeforeBlanks(s, e) == e
  {
    if name != [] {
      MatchesByte(s, p, name, 0);
      MatchesByte(s, p, name, |name| - 1);
    }
  }

  lemma {:induction false} SigilFound(s: Text, at: nat, t: Tag)
    requires Matches(s, at, TagText(t)) && Writable(t) && Sigil(t) != []
    ensures var m := MarkOf(at, t);
            ReadSigil(s, at + 2, m.end, at, m.next, DEFAULT) == Good(m, DEFAULT)
  {
    var m := MarkOf(at, t);
    TagMatches(s, at, t);
    MatchesByte(s, at + 2, Sigil(t), 0);
    if !t.Comment? {
      MatchesByte(s, m.end, DEFAULT.close, 0);
      NameKept(s, m.start, m.end, TagName(t));
    }
  }

  lemma {:induction false} ValueFound(s: Text, at: nat, t: Tag)
    requires Matches(s, at, TagText(t)) && Writable(t) && Sigil(t) == []
    ensures var m := MarkOf(at, t);
            ReadSigil(s, at + 2, m.end, at, m.next, DEFAULT) == Good(m, DEFAULT)
  {
    var m := MarkOf(at, t);
    TagMatches(s, at, t);
    MatchesByte(s, at, DEFAULT.open, 1);
    MatchesByte(s, m.end, DEFAULT.close, 0);
    MatchesByte(s, at + 2, TagName(t), 0);
    NameKept(s, m.start, m.end, TagName(t));
  }

  lemma {:induction false} ContentFound(s: Text, at: nat, t: Tag)
    requires Matches(s, at, TagText(t)) && Writable(t)
    ensures var m := MarkOf(at, t);
            ReadSigil(s, at + 2, m.end, at, m.next, DEFAULT) == Good(m, DEFAULT)
  {
    if Sigil(t) == [] {
      ValueFound(s, at, t);
    } else {
      SigilFound(s, at, t);
    }
  }

  lemma {:induction false} TagFound(s: Text, at: nat, t: Tag)
    requires Matches(s, at, TagText(t)) && Writable(t)
    ensures ReadTag(s, at, at + 2, DEFAULT) == Good(MarkOf(at, t), DEFAULT)
  {
    TagMatches(s, at, t);
    FindsBehind(s, at + 2, Content(t), DEFAULT.close);
    ContentFound(s, at, t);
  }

  lemma {:induction false} FirstFound(s: Text, p: nat, text: Text, t: Tag)
    requires Matches(s, p, text) && Matches(s, p + |text|, TagText(t)) && EndsFirst(text, DEFAULT.open) && Writable(t)
    ensures var at := p + |text|;
            && MarkOf(at, t).next <= |s|
            && var rest := Scan(s, MarkOf(at, t).next, DEFAULT);
               Scan(s, p, DEFAULT) == Scanned([(p, at)] + rest.fragments, [MarkOf(at, t)] + rest.marks, rest.error)
  {
    var at := p + |text|;
    TagMatches(s, at, t);
    MatchesThen(s, p, text, DEFAULT.open);
    FindsBehind(s, p, text, DEFAULT.open);
    TagFound(s, at, t);
    ScanUnfolds(s, p, DEFAULT, at, Good(MarkOf(at, t), DEFAULT), Scan(s, MarkOf(at, t).next, DEFAULT));
  }

  lemma {:induction false} TailWritable(texts: seq<Text>, tags: seq<Tag>)
    requires |texts| == |tags| + 1 && tags != [] && AllWritable(texts, tags)
    ensures AllWritable(texts[1..], tags[1..])
  {
    forall i | 0 <= i < |tags| - 1 ensures Writable(tags[1..][i]) && EndsFirst(texts[1..][i], DEFAULT.open) {
      assert Writable(tags[i + 1]) && EndsFirst(texts[i + 1], DEFAULT.open);
    }
  }

  /** Whatever is written from plain texts and writable tags is found exactly where it was written. */
  lemma {:induction false} WrittenFound(s: Text, p: nat, texts: seq<Text>, tags: seq<Tag>)
    requires |texts| == |tags| + 1 && AllWritable(texts, tags)
    requires Matches(s, p, Written(texts, tags)) && p + |Written(texts, tags)| == |s|
    ensures Scan(s, p, DEFAULT) == Layout(p, texts, tags)
    decreases |tags|
  {
    if tags == [] {
      FindsNone(s, p, texts[0], DEFAULT.open);
    } else {
      WrittenParts(s, p, texts, tags);
      FirstFound(s, p, texts[0], tags[0]);
      TailWritable(texts, tags);
      WrittenFound(s, MarkOf(p + |texts[0]|, tags[0]).next, texts[1..], tags[1..]);
    }
  }

  /** A template written from texts and tags has these tags, and these texts between them. */
  lemma {:induction false} WrittenReads(texts: seq<Text>, tags: seq<Tag>)
    requires |texts| == |tags| + 1 && AllWritable(texts, tags)
    ensures var s, r := Written(texts, tags), ScanAll(Written(texts, tags));
            && r.error.None? && TagsIn(s) == tags && PartialFree(r.marks)
            && |r.fragments| == |texts| && forall i :: 0 <= i < |texts| ==> TextReads(s, r.fragments[i], texts[i])
  {
    var s, r := Written(texts, tags), Layout(0, texts, tags);
    MatchesItself(s);
    WrittenFound(s, 0, texts, tags);
    LayoutReads(s, 0, texts, tags);
    ScannedInText(s, 0, DEFAULT);
    TagsGivenBack(s, r, texts, tags);
    forall i | 0 <= i < |texts| ensures TextReads(s, r.fragments[i], texts[i]) {
      TextGivenBack(s, r, texts, tags, i);
    }
  }
}
