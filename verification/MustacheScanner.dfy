/** The template scanner: where the tags of a text are, what they name, and the text between them. */
module MustacheScanner {
  import opened Bytes
  import opened MustacheTemplate

  /** The delimiters in force. */
  datatype Delimiters = Delimiters(open: Text, close: Text)

  const DEFAULT: Delimiters := Delimiters("{{", "}}")

  predicate NoBlank(t: Text) {
    t == [] || (t[0] != ' ' && NoBlank(t[1..]))
  }

  lemma {:induction false} NoBlankAt(t: Text, i: nat)
    requires NoBlank(t) && i < |t|
    ensures t[i] != ' '
  {
    if i > 0 {
      NoBlankAt(t[1..], i - 1);
    }
  }

  predicate Usable(d: Delimiters) {
    d.open != [] && d.close != [] && NoBlank(d.open) && NoBlank(d.close)
  }

  datatype Kind = OpenMark | InvertedMark | CloseMark | CommentMark | PartialMark | RawMark | ValueMark | ChangeMark

  /** A tag as found: the bounds of its name, where it begins, what comes behind it, and its delimiters. */
  datatype Mark = Mark(kind: Kind, start: nat, end: nat, at: nat, next: nat, delimiters: Delimiters)

  datatype ScanError =
    EmptyTag | UnmatchedTag | TripleAfterChange | TripleUnmatched | ChangeUnmatched | ChangeWithoutBlank | ChangeInvalid

  // ---------------------------------------------------------------- searching

  /** Byte by byte, `word` stands at `p`. */
  predicate Matches(s: Text, p: nat, word: Text): (b: bool)
    ensures b ==> p + |word| <= |s|
    decreases |word|
  {
    if word == [] then p <= |s| else p < |s| && s[p] == word[0] && Matches(s, p + 1, word[1..])
  }

  lemma {:induction false} MatchesStands(s: Text, p: nat, word: Text)
    ensures Matches(s, p, word) <==> StandsAt(s, p, word)
    decreases |word|
  {
    if word != [] {
      assert word == [word[0]] + word[1..];
      if StandsAt(s, p, word) {
        StandsFirst(s, p, word[0], word[1..]);
      }
      if p < |s| && s[p] == word[0] {
        MatchesStands(s, p + 1, word[1..]);
        if Matches(s, p + 1, word[1..]) {
          assert s[p..p + |word|] == [s[p]] + s[p + 1..p + |word|];
        }
      }
    }
  }

  /** The first place from `p` on where `word` stands. */
  function Find(s: Text, word: Text, p: nat): (r: Option<nat>)
    requires p <= |s|
    ensures r.Some? ==> p <= r.value && r.value + |word| <= |s|
    decreases |s| - p
  {
    MatchesStands(s, p, word);
    if Matches(s, p, word) then Some(p) else if p == |s| then None else Find(s, word, p + 1)
  }

  /** What is found is there, and nothing before it; where nothing is found there is nothing. */
  lemma {:induction false} FindsFirst(s: Text, word: Text, p: nat, q: nat)
    requires p <= q <= |s|
    ensures Find(s, word, p) == Some(q) ==> Matches(s, q, word)
    ensures (Find(s, word, p).Some? ==> q < Find(s, word, p).value) ==> !Matches(s, q, word)
    decreases |s| - p
  {
    if p < q {
      FindsFirst(s, word, p + 1, q);
    }
  }

  /** Behind the blanks at `p`. */
  function AfterBlanks(s: Text, p: nat): (r: nat)
    requires p <= |s|
    ensures p <= r <= |s| && (r < |s| ==> s[r] != ' ')
    decreases |s| - p
  {
    if p < |s| && s[p] == ' ' then AfterBlanks(s, p + 1) else p
  }

  /** Before the blanks in front of `p`. */
  function BeforeBlanks(s: Text, p: nat): (r: nat)
    requires p <= |s|
    ensures r <= p && (r > 0 ==> s[r - 1] != ' ')
  {
    if p > 0 && s[p - 1] == ' ' then BeforeBlanks(s, p - 1) else p
  }

  function FirstBlank(s: Text, p: nat, end: nat): (r: Option<nat>)
    requires end <= |s|
    ensures r.Some? ==> p <= r.value < end && s[r.value] == ' '
    decreases end - p
  {
    if p >= end then None else if s[p] == ' ' then Some(p) else FirstBlank(s, p + 1, end)
  }

  lemma {:induction false} VisibleBefore(s: Text, p: nat, end: nat, k: nat)
    requires end <= |s| && FirstBlank(s, p, end) == Some(k) && k <= |s|
    ensures NoBlank(Between(s, p, k))
    decreases end - p
  {
    if s[p] != ' ' {
      VisibleBefore(s, p + 1, end, k);
      assert Between(s, p, k)[1..] == Between(s, p + 1, k);
    }
  }

  // ---------------------------------------------------------------- one tag

  datatype Read = Bad(error: ScanError) | Good(mark: Mark, after: Delimiters)

  /** A tag whose name has no blanks at its ends. */
  function Named(s: Text, kind: Kind, from: nat, e: nat, at: nat, next: nat, d: Delimiters): Read
    requires from <= |s| && e <= |s|
  {
    Good(Mark(kind, AfterBlanks(s, from), BeforeBlanks(s, e), at, next, d), d)
  }

  /** The tag that begins at `at`, and whose opening delimiter is over at `from`. */
  function ReadTag(s: Text, at: nat, from: nat, d: Delimiters): (r: Read)
    requires at < from <= |s| && Usable(d)
    ensures r.Good? ==> at < r.mark.next <= |s| && Usable(r.after) && r.mark.at == at && r.mark.delimiters == d
    ensures r.Good? ==> r.mark.start <= |s| && r.mark.end <= |s|
  {
    var found := Find(s, d.close, from);
    if found.None? then Bad(UnmatchedTag) else ReadSigil(s, from, found.value, at, found.value + |d.close|, d)
  }

  /** What a sigil in front of a name says. */
  function SigilKind(c: Byte): Option<Kind> {
    if c == '#' then Some(OpenMark)
    else if c == '/' then Some(CloseMark)
    else if c == '^' then Some(InvertedMark)
    else if c == '>' then Some(PartialMark)
    else if c == '&' then Some(RawMark)
    else None
  }

  /** A tag between `from` and `e`, by its first byte. */
  function ReadSigil(s: Text, from: nat, e: nat, at: nat, next: nat, d: Delimiters): (r: Read)
    requires 0 < from <= e < next <= |s| && at < next && Usable(d)
    ensures r.Good? ==> at < r.mark.next <= |s| && Usable(r.after) && r.mark.at == at && r.mark.delimiters == d
    ensures r.Good? ==> r.mark.start <= |s| && r.mark.end <= |s|
  {
    if e == from then Bad(EmptyTag)
    else if SigilKind(s[from]).Some? then Named(s, SigilKind(s[from]).value, from + 1, e, at, next, d)
    else if s[from] == '!' then Good(Mark(CommentMark, from + 1, e, at, next, d), d)
    else if s[from] == '{' then ReadTriple(s, from + 1, e, at, next, d)
    else if s[from] == '=' then ReadChange(s, from + 1, e, at, next, d)
    else Named(s, ValueMark, from, e, at, next, d)
  }

  /** A tag in three braces. */
  function ReadTriple(s: Text, from: nat, e: nat, at: nat, next: nat, d: Delimiters): (r: Read)
    requires from <= e < next <= |s| && at < next && Usable(d)
    ensures r.Good? ==> next < r.mark.next <= |s| && r.after == d && r.mark.at == at && r.mark.delimiters == d
    ensures r.Good? ==> r.mark.start <= |s| && r.mark.end <= |s|
  {
    if d != DEFAULT then Bad(TripleAfterChange)
    else if Peek(s, next) != '}' then Bad(TripleUnmatched)
    else Named(s, RawMark, from, e, at, next + 1, d)
  }

  /** A tag that changes the delimiters. */
  function ReadChange(s: Text, from: nat, e: nat, at: nat, next: nat, d: Delimiters): (r: Read)
    requires 0 < from <= e <= |s|
    ensures r.Good? ==> r.mark == Mark(ChangeMark, from, e, at, next, d) && Usable(r.after)
  {
    if s[e - 1] != '=' then Bad(ChangeUnmatched)
    else
      var start, end := AfterBlanks(s, from), BeforeBlanks(s, e - 1);
      var blank := FirstBlank(s, start, end);
      if blank.None? then Bad(ChangeWithoutBlank)
      else
        VisibleBefore(s, start, end, blank.value);
        var open, close := Between(s, start, blank.value), Between(s, AfterBlanks(s, blank.value), end);
        if open == [] || close == [] || !NoBlank(close) then Bad(ChangeInvalid)
        else Good(Mark(ChangeMark, from, e, at, next, d), Delimiters(open, close))
  }

  // ---------------------------------------------------------------- all tags

  /** The text between the tags, one fragment more than tags, and the first error. */
  datatype Scanned = Scanned(fragments: seq<(nat, nat)>, marks: seq<Mark>, error: Option<ScanError>)

  function Scan(s: Text, p: nat, d: Delimiters): (r: Scanned)
    requires p <= |s| && Usable(d)
    ensures |r.fragments| == |r.marks| + 1
    decreases |s| - p
  {
    match Find(s, d.open, p)
    case None => Scanned([(p, |s|)], [], None)
    case Some(at) =>
      match ReadTag(s, at, at + |d.open|, d)
      case Bad(error) => Scanned([(p, at)], [], Some(error))
      case Good(mark, after) =>
        var rest := Scan(s, mark.next, after);
        Scanned([(p, at)] + rest.fragments, [mark] + rest.marks, rest.error)
  }

  /** Fragments and tags follow each other without a gap, and no fragment holds the delimiter that its tag begins with. */
  ghost predicate Tiled(s: Text, p: nat, r: Scanned)
    requires |r.fragments| == |r.marks| + 1
  {
    && r.fragments[0].0 == p
    && (forall i :: 0 <= i < |r.fragments| ==> r.fragments[i].0 <= r.fragments[i].1 <= |s|)
    && (forall i {:trigger r.marks[i]} :: 0 <= i < |r.marks| ==> TiledMark(s, r.marks[i], r.fragments[i], r.fragments[i + 1]))
    && (r.error.None? ==> r.fragments[|r.marks|].1 == |s|)
  }

  ghost predicate TiledMark(s: Text, m: Mark, before: (nat, nat), after: (nat, nat)) {
    && m.at == before.1 && m.next == after.0 && m.start <= |s| && m.end <= |s|
    && StandsAt(s, m.at, m.delimiters.open) && Usable(m.delimiters)
    && forall q :: before.0 <= q < before.1 ==> !StandsAt(s, q, m.delimiters.open)
  }

  /** The tag found next, and the fragment before it. */
  lemma {:induction false} FoundTiles(s: Text, p: nat, d: Delimiters, at: nat, from: nat)
    requires p <= |s| && Usable(d) && Find(s, d.open, p) == Some(at) && from == at + |d.open| && ReadTag(s, at, from, d).Good?
    ensures var mark := ReadTag(s, at, from, d).mark; TiledMark(s, mark, (p, at), (mark.next, mark.next))
  {
    FindsFirst(s, d.open, p, at);
    MatchesStands(s, at, d.open);
    forall q | p <= q < at ensures !StandsAt(s, q, d.open) {
      FindsFirst(s, d.open, p, q);
      MatchesStands(s, q, d.open);
    }
  }

  lemma {:induction false} ScanTiles(s: Text, p: nat, d: Delimiters)
    requires p <= |s| && Usable(d)
    ensures Tiled(s, p, Scan(s, p, d))
    decreases |s| - p
  {
    var found := Find(s, d.open, p);
    if found.None? || ReadTag(s, found.value, found.value + |d.open|, d).Bad? {
      LastTiles(s, p, d);
    } else {
      var read := ReadTag(s, found.value, found.value + |d.open|, d);
      ScanTiles(s, read.mark.next, read.after);
      FoundTilesOn(s, p, d, found.value, read.mark, Scan(s, read.mark.next, read.after));
      ScanUnfolds(s, p, d, found.value, read, Scan(s, read.mark.next, read.after));
    }
  }

  lemma {:induction false} LastTiles(s: Text, p: nat, d: Delimiters)
    requires p <= |s| && Usable(d)
    requires var found := Find(s, d.open, p); found.None? || ReadTag(s, found.value, found.value + |d.open|, d).Bad?
    ensures Tiled(s, p, Scan(s, p, d))
  {
    LastUnfolds(s, p, d);
  }

  lemma {:induction false} LastUnfolds(s: Text, p: nat, d: Delimiters)
    requires p <= |s| && Usable(d)
    requires var found := Find(s, d.open, p); found.None? || ReadTag(s, found.value, found.value + |d.open|, d).Bad?
    ensures var r := Scan(s, p, d); r.marks == [] && p <= r.fragments[0].1 <= |s| && r.fragments[0].0 == p
    ensures var r := Scan(s, p, d); r.error.None? ==> r.fragments[0].1 == |s|
  {
  }

  lemma {:induction false} FoundTilesOn(s: Text, p: nat, d: Delimiters, at: nat, mark: Mark, rest: Scanned)
    requires p <= |s| && Usable(d) && Find(s, d.open, p) == Some(at)
    requires ReadTag(s, at, at + |d.open|, d).Good? && mark == ReadTag(s, at, at + |d.open|, d).mark
    requires |rest.fragments| == |rest.marks| + 1 && Tiled(s, mark.next, rest)
    ensures Tiled(s, p, Scanned([(p, at)] + rest.fragments, [mark] + rest.marks, rest.error))
  {
    FoundTiles(s, p, d, at, at + |d.open|);
    TiledMore(s, p, mark, rest);
  }

  lemma {:induction false} ScanUnfolds(s: Text, p: nat, d: Delimiters, at: nat, read: Read, rest: Scanned)
    requires p <= |s| && Usable(d) && Find(s, d.open, p) == Some(at) && read == ReadTag(s, at, at + |d.open|, d) && read.Good?
    requires rest == Scan(s, read.mark.next, read.after)
    ensures Scan(s, p, d) == Scanned([(p, at)] + rest.fragments, [read.mark] + rest.marks, rest.error)
  {
  }

  lemma {:induction false} TiledMore(s: Text, p: nat, mark: Mark, rest: Scanned)
    requires |rest.fragments| == |rest.marks| + 1 && Tiled(s, mark.next, rest)
    requires p <= mark.at <= |s| && TiledMark(s, mark, (p, mark.at), (mark.next, mark.next))
    ensures Tiled(s, p, Scanned([(p, mark.at)] + rest.fragments, [mark] + rest.marks, rest.error))
  {
    var r := Scanned([(p, mark.at)] + rest.fragments, [mark] + rest.marks, rest.error);
    forall i | 0 <= i < |r.marks| ensures TiledMark(s, r.marks[i], r.fragments[i], r.fragments[i + 1]) {
      if i > 0 {
        assert TiledMark(s, rest.marks[i - 1], rest.fragments[i - 1], rest.fragments[i]);
      }
    }
  }

  // ---------------------------------------------------------------- tags

  predicate PartialFree(marks: seq<Mark>) {
    forall i :: 0 <= i < |marks| ==> !marks[i].kind.PartialMark?
  }

  /** What a tag is for the compiler. */
  function TagOf(s: Text, m: Mark): Tag
    requires m.start <= |s| && m.end <= |s|
  {
    var name := Between(s, m.start, m.end);
    match m.kind
    case OpenMark => OpenTag(name, false)
    case InvertedMark => OpenTag(name, true)
    case CloseMark => CloseTag(name)
    case RawMark => Show(name, false)
    case ValueMark => Show(name, true)
    case _ => Comment
  }

  predicate InText(s: Text, marks: seq<Mark>) {
    forall i :: 0 <= i < |marks| ==> marks[i].start <= |s| && marks[i].end <= |s|
  }

  function TagsOfMarks(s: Text, marks: seq<Mark>): (r: seq<Tag>)
    requires InText(s, marks)
    ensures |r| == |marks| && forall i :: 0 <= i < |marks| ==> r[i] == TagOf(s, marks[i])
  {
    if marks == [] then [] else [TagOf(s, marks[0])] + TagsOfMarks(s, marks[1..])
  }

  lemma {:induction false} ScannedInText(s: Text, p: nat, d: Delimiters)
    requires p <= |s| && Usable(d)
    ensures InText(s, Scan(s, p, d).marks)
  {
    ScanTiles(s, p, d);
    var r := Scan(s, p, d);
    forall i | 0 <= i < |r.marks| ensures r.marks[i].start <= |s| && r.marks[i].end <= |s| {
      assert TiledMark(s, r.marks[i], r.fragments[i], r.fragments[i + 1]);
    }
  }

  /** The whole scan of a template, and its tags. */
  function ScanAll(s: Text): Scanned {
    Scan(s, 0, DEFAULT)
  }

  ghost function TagsIn(s: Text): seq<Tag> {
    ScannedInText(s, 0, DEFAULT);
    TagsOfMarks(s, ScanAll(s).marks)
  }

  // ---------------------------------------------------------------- the loops of the scanner

  method SkipBlanks(s: Text, p: nat) returns (r: nat)
    requires p <= |s|
    ensures r == AfterBlanks(s, p)
  {
    r := p;
    while Peek(s, r) == ' '
      invariant p <= r <= |s| && AfterBlanks(s, r) == AfterBlanks(s, p)
      decreases |s| - r
    {
      r := r + 1;
    }
  }

  /** Some byte in front that is no blank ends the loop. */
  method DropBlanks(s: Text, p: nat, ghost stop: nat) returns (r: nat)
    requires stop < p <= |s| && s[stop] != ' '
    ensures r == BeforeBlanks(s, p)
  {
    r := p;
    while s[r - 1] == ' '
      invariant stop < r <= p && BeforeBlanks(s, r) == BeforeBlanks(s, p)
      decreases r
    {
      r := r - 1;
    }
  }

  method ReadName(s: Text, kind: Kind, from: nat, e: nat, at: nat, next: nat, d: Delimiters, ghost stop: nat) returns (r: Read)
    requires from <= |s| && stop < e <= |s| && s[stop] != ' '
    ensures r == Named(s, kind, from, e, at, next, d)
  {
    var start := SkipBlanks(s, from);
    var end := DropBlanks(s, e, stop);
    r := Good(Mark(kind, start, end, at, next, d), d);
  }

  method ReadDelimiters(s: Text, from: nat, e: nat, at: nat, next: nat, d: Delimiters) returns (r: Read)
    requires 1 < from <= e <= |s| && s[from - 2] != ' '
    ensures r == ReadChange(s, from, e, at, next, d)
  {
    if s[e - 1] != '=' {
      return Bad(ChangeUnmatched);
    }
    var start := SkipBlanks(s, from);
    var end := DropBlanks(s, e - 1, from - 2);
    for i := start to if start < end then end else start
      invariant FirstBlank(s, i, end) == FirstBlank(s, start, end)
    {
      if s[i] == ' ' {
        var k := SkipBlanks(s, i);
        var open, close := Between(s, start, i), Between(s, k, end);
        if open == [] || close == [] || !NoBlank(close) {
          return Bad(ChangeInvalid);
        }
        return Good(Mark(ChangeMark, from, e, at, next, d), Delimiters(open, close));
      }
    }
    r := Bad(ChangeWithoutBlank);
  }

  /** A delimiter in front of a name ends the search for blanks. */
  lemma {:induction false} FoundVisible(s: Text, p: nat, d: Delimiters, at: nat, from: nat)
    requires p <= |s| && Usable(d) && Find(s, d.open, p) == Some(at) && from == at + |d.open|
    ensures at < from <= |s| && s[from - 1] != ' '
  {
    FindsFirst(s, d.open, p, at);
    MatchesStands(s, at, d.open);
    StandsByte(s, at, d.open, |d.open| - 1);
    NoBlankAt(d.open, |d.open| - 1);
  }

  method ReadTagAt(s: Text, at: nat, from: nat, d: Delimiters) returns (r: Read)
    requires at < from <= |s| && Usable(d) && s[from - 1] != ' '
    ensures r == ReadTag(s, at, from, d)
  {
    var found := Find(s, d.close, from);
    if found.None? {
      return Bad(UnmatchedTag);
    }
    r := ReadSigilAt(s, from, found.value, at, found.value + |d.close|, d);
  }

  method ReadSigilAt(s: Text, from: nat, e: nat, at: nat, next: nat, d: Delimiters) returns (r: Read)
    requires 0 < from <= e < next <= |s| && at < next && Usable(d) && s[from - 1] != ' '
    ensures r == ReadSigil(s, from, e, at, next, d)
  {
    if e == from {
      return Bad(EmptyTag);
    }
    match s[from]
    case '#' => r := ReadName(s, OpenMark, from + 1, e, at, next, d, from);
    case '/' => r := ReadName(s, CloseMark, from + 1, e, at, next, d, from);
    case '^' => r := ReadName(s, InvertedMark, from + 1, e, at, next, d, from);
    case '!' => r := Good(Mark(CommentMark, from + 1, e, at, next, d), d);
    case '>' => r := ReadName(s, PartialMark, from + 1, e, at, next, d, from);
    case '{' => r := ReadTripleAt(s, from + 1, e, at, next, d);
    case '&' => r := ReadName(s, RawMark, from + 1, e, at, next, d, from);
    case '=' => r := ReadDelimiters(s, from + 1, e, at, next, d);
    case _ => r := ReadName(s, ValueMark, from, e, at, next, d, from - 1);
  }

  method ReadTripleAt(s: Text, from: nat, e: nat, at: nat, next: nat, d: Delimiters) returns (r: Read)
    requires 0 < from <= e < next <= |s| && at < next && Usable(d) && s[from - 1] != ' '
    ensures r == ReadTriple(s, from, e, at, next, d)
  {
    if d != DEFAULT {
      r := Bad(TripleAfterChange);
    } else if Peek(s, next) != '}' {
      r := Bad(TripleUnmatched);
    } else {
      r := ReadName(s, RawMark, from, e, at, next + 1, d, from - 1);
    }
  }
}
