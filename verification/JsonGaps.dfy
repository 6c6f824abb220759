/** Blanks and comments between the tokens of a JSON text: how they are written, and what the reader passes over. */
module JsonGaps {
  import opened Bytes
  import opened JsonLexer

  /** One of the blanks that section 2 of RFC 8259 lists, or a comment of either kind, closed by its own end. */
  datatype Filler = Blank(c: Byte) | Block(body: Text) | Line(body: Text)
  {
    predicate Fits(comments: bool) {
      match this
      case Blank(c) => c as int == 0x20 || c as int == 0x09 || c as int == 0x0A || c as int == 0x0D
      case Block(body) => comments && BlockBody(body)
      case Line(body) => comments && LineBody(body)
    }

    function Text(): Text {
      match this
      case Blank(c) => [c]
      case Block(body) => ['/', '*'] + (body + ['*', '/'])
      case Line(body) => ['/', '/'] + (body + ['\n'])
    }
  }

  type Gap = seq<Filler>

  /** No terminator, and no star before a slash. */
  predicate BlockBody(body: Text) {
    body == [] || (body[0] != NUL && !(['*', '/'] <= body) && BlockBody(body[1..]))
  }

  /** No terminator and no line feed. */
  predicate LineBody(body: Text) {
    body == [] || (body[0] != NUL && body[0] != '\n' && LineBody(body[1..]))
  }

  predicate GapFits(comments: bool, gap: Gap) {
    gap == [] || (gap[0].Fits(comments) && GapFits(comments, gap[1..]))
  }

  function GapText(gap: Gap): Text {
    if gap == [] then [] else gap[0].Text() + GapText(gap[1..])
  }

  /** A byte that a gap does not go on with. */
  predicate EndsGap(c: Byte) {
    !IsBlank(c) && c != '/'
  }

  // ---------------------------------------------------------------- joining what stands in a text

  lemma {:induction false} StandsCons(s: Text, p: nat, c: Byte, w: Text)
    requires p < |s| && s[p] == c && StandsAt(s, p + 1, w)
    ensures StandsAt(s, p, [c] + w)
  {
    assert s[p..p + |[c] + w|] == [s[p]] + s[p + 1..p + 1 + |w|];
  }

  lemma {:induction false} StandsJoined(s: Text, p: nat, q: nat, a: Text, b: Text)
    requires StandsAt(s, p, a) && q == p + |a| && StandsAt(s, q, b)
    ensures StandsAt(s, p, a + b)
  {
    assert s[p..p + |a + b|] == s[p..q] + s[q..q + |b|];
  }

  lemma {:induction false} StandsEmpty(s: Text, p: nat)
    requires p <= |s|
    ensures StandsAt(s, p, [])
  {
  }

  // ---------------------------------------------------------------- comments

  lemma {:induction false} BlockReads(s: Text, p: nat, body: Text)
    requires BlockBody(body) && StandsAt(s, p, body + ['*', '/'])
    ensures BlockCommentEnd(s, p) == Found(p + |body| + 2, ())
    decreases |body|
  {
    StandsByte(s, p, body + ['*', '/'], 0);
    StandsByte(s, p, body + ['*', '/'], 1);
    if body != [] {
      assert body + ['*', '/'] == [body[0]] + (body[1..] + ['*', '/']);
      StandsFirst(s, p, body[0], body[1..] + ['*', '/']);
      BlockReads(s, p + 1, body[1..]);
    }
  }

  /** What the reader takes for a comment's end is the first one. */
  lemma {:induction false} BlockFound(s: Text, p: nat) returns (body: Text)
    requires p <= |s| && BlockCommentEnd(s, p).Found?
    ensures BlockBody(body) && StandsAt(s, p, body + ['*', '/']) && BlockCommentEnd(s, p).end == p + |body| + 2
    decreases |s| - p
  {
    if s[p] == '*' && Peek(s, p + 1) == '/' {
      body := [];
      assert s[p..p + 2] == [] + ['*', '/'];
    } else {
      var rest := BlockFound(s, p + 1);
      body := [s[p]] + rest;
      StandsByte(s, p + 1, rest + ['*', '/'], 0);
      StandsCons(s, p, s[p], rest + ['*', '/']);
      assert body + ['*', '/'] == [s[p]] + (rest + ['*', '/']);
      assert body[1..] == rest;
    }
  }

  lemma {:induction false} LineReads(s: Text, p: nat, body: Text)
    requires LineBody(body) && StandsAt(s, p, body) && (Peek(s, p + |body|) == '\n' || Peek(s, p + |body|) == NUL)
    ensures LineCommentEnd(s, p) == if Peek(s, p + |body|) == '\n' then p + |body| + 1 else p + |body|
    decreases |body|
  {
    if body != [] {
      assert body == [body[0]] + body[1..];
      StandsFirst(s, p, body[0], body[1..]);
      LineReads(s, p + 1, body[1..]);
    }
  }

  /** A comment of one line goes on to its line feed, or to the end of the text. */
  lemma {:induction false} LineFound(s: Text, p: nat) returns (body: Text)
    requires p <= |s|
    ensures LineBody(body) && StandsAt(s, p, body) && (Peek(s, p + |body|) == '\n' || Peek(s, p + |body|) == NUL)
    decreases |s| - p
  {
    if Peek(s, p) == NUL || s[p] == '\n' {
      body := [];
      StandsEmpty(s, p);
    } else {
      var rest := LineFound(s, p + 1);
      body := [s[p]] + rest;
      StandsCons(s, p, s[p], rest);
      assert body[1..] == rest;
    }
  }

  // ---------------------------------------------------------------- gaps

  /** One blank is passed over. */
  lemma {:induction false} BlankPassed(s: Text, f: Settings, p: nat)
    requires p < |s| && IsBlank(s[p])
    ensures SkipSpace(s, f, p) == SkipSpace(s, f, p + 1)
  {
  }

  /** One comment is passed over where comments are allowed. */
  lemma {:induction false} CommentPassed(s: Text, f: Settings, p: nat)
    requires p < |s| && s[p] == '/' && f.comments && CommentEnd(s, p).Found?
    ensures SkipSpace(s, f, p) == SkipSpace(s, f, CommentEnd(s, p).end)
  {
  }

  lemma {:induction false} BlockPassed(s: Text, f: Settings, p: nat, body: Text, q: nat)
    requires f.comments && BlockBody(body) && StandsAt(s, p, Block(body).Text()) && q == p + |body| + 4
    ensures q <= |s| && SkipSpace(s, f, p) == SkipSpace(s, f, q)
  {
    StandsByte(s, p, Block(body).Text(), 0);
    StandsByte(s, p, Block(body).Text(), 1);
    StandsThen(s, p, p + 2, ['/', '*'], body + ['*', '/']);
    BlockReads(s, p + 2, body);
    CommentPassed(s, f, p);
  }

  lemma {:induction false} LinePassed(s: Text, f: Settings, p: nat, body: Text, q: nat)
    requires f.comments && LineBody(body) && StandsAt(s, p, Line(body).Text()) && q == p + |body| + 3
    ensures q <= |s| && SkipSpace(s, f, p) == SkipSpace(s, f, q)
  {
    StandsByte(s, p, Line(body).Text(), 0);
    StandsByte(s, p, Line(body).Text(), 1);
    StandsThen(s, p, p + 2, ['/', '/'], body + ['\n']);
    StandsThen(s, p + 2, p + 2 + |body|, body, ['\n']);
    StandsByte(s, p + 2 + |body|, ['\n'], 0);
    LineReads(s, p + 2, body);
    CommentPassed(s, f, p);
  }

  lemma {:induction false} FillerReads(s: Text, f: Settings, p: nat, w: Filler, q: nat)
    requires w.Fits(f.comments) && StandsAt(s, p, w.Text()) && q == p + |w.Text()|
    ensures q <= |s| && SkipSpace(s, f, p) == SkipSpace(s, f, q)
  {
    match w
    case Blank(c) =>
      StandsByte(s, p, [c], 0);
      BlankPassed(s, f, p);
    case Block(body) => BlockPassed(s, f, p, body, q);
    case Line(body) => LinePassed(s, f, p, body, q);
  }

  /** The reader passes over a whole gap. */
  lemma {:induction false} GapReads(s: Text, f: Settings, p: nat, gap: Gap, q: nat)
    requires GapFits(f.comments, gap) && StandsAt(s, p, GapText(gap)) && q == p + |GapText(gap)|
    ensures q <= |s| && SkipSpace(s, f, p) == SkipSpace(s, f, q)
    decreases |gap|
  {
    if gap != [] {
      var first, rest := gap[0].Text(), GapText(gap[1..]);
      var m := p + |first|;
      StandsThen(s, p, m, first, rest);
      FillerReads(s, f, p, gap[0], m);
      GapReads(s, f, m, gap[1..], q);
    }
  }

  /** Where no gap goes on, nothing is passed over. */
  lemma {:induction false} NothingSkipped(s: Text, f: Settings, p: nat)
    requires p <= |s| && EndsGap(Peek(s, p))
    ensures SkipSpace(s, f, p) == Found(p, ())
  {
  }

  /** A last comment of one line that the end of the text closes. */
  lemma {:induction false} LastLineReads(s: Text, f: Settings, p: nat, body: Text)
    requires f.comments && LineBody(body) && StandsAt(s, p, ['/', '/'] + body) && Peek(s, p + 2 + |body|) == NUL
    ensures SkipSpace(s, f, p) == Found(p + 2 + |body|, ())
  {
    StandsThen(s, p, p + 2, ['/', '/'], body);
    StandsByte(s, p, ['/', '/'], 0);
    StandsByte(s, p, ['/', '/'], 1);
    LineReads(s, p + 2, body);
    CommentPassed(s, f, p);
    NothingSkipped(s, f, p + 2 + |body|);
  }

  // ---------------------------------------------------------------- nothing else is passed over

  /** A gap from `p` to `q`, and up to `end` perhaps a last comment that the end of the text closes. */
  ghost predicate GapLies(s: Text, f: Settings, p: nat, gap: Gap, q: nat, last: Option<Text>, end: nat) {
    && GapFits(f.comments, gap) && StandsAt(s, p, GapText(gap)) && q == p + |GapText(gap)|
    && match last
       case None => end == q
       case Some(body) => f.comments && LineBody(body) && StandsAt(s, q, ['/', '/'] + body) && end == q + 2 + |body| && Peek(s, end) == NUL
  }

  /** Whatever is passed over is a gap, and perhaps a last comment that the end of the text closes. */
  lemma {:induction false} SkippedIsGap(s: Text, f: Settings, p: nat, end: nat) returns (gap: Gap, q: nat, last: Option<Text>)
    requires p <= |s| && SkipSpace(s, f, p).Found? && SkipSpace(s, f, p).end == end
    ensures GapLies(s, f, p, gap, q, last, end)
    decreases |s| - p, 1
  {
    if IsBlank(Peek(s, p)) {
      BlankPassed(s, f, p);
      gap, q, last := SkippedIsGap(s, f, p + 1, end);
      assert s[p..p + 1] == Blank(s[p]).Text();
      gap := GapGrows(s, f, p, Blank(s[p]), p + 1, gap, q, last, end);
    } else if f.comments && Peek(s, p) == '/' {
      assert SkipSpace(s, f, p) == SkipComments(s, p);
      gap, q, last := CommentIsGap(s, f, p, end);
    } else {
      gap, q, last := NoGap(s, f, p, end);
    }
  }

  lemma {:induction false} NoGap(s: Text, f: Settings, p: nat, end: nat) returns (gap: Gap, q: nat, last: Option<Text>)
    requires p == end <= |s|
    ensures GapLies(s, f, p, gap, q, last, end)
  {
    gap, q, last := [], p, None;
    StandsEmpty(s, p);
  }

  lemma {:induction false} GapGrows(s: Text, f: Settings, p: nat, w: Filler, m: nat, gap: Gap, q: nat, last: Option<Text>, end: nat)
    returns (r: Gap)
    requires w.Fits(f.comments) && StandsAt(s, p, w.Text()) && m == p + |w.Text()| && GapLies(s, f, m, gap, q, last, end)
    ensures GapLies(s, f, p, r, q, last, end)
  {
    r := [w] + gap;
    assert r[1..] == gap;
    StandsJoined(s, p, m, w.Text(), GapText(gap));
  }

  lemma {:induction false} CommentIsGap(s: Text, f: Settings, p: nat, end: nat) returns (gap: Gap, q: nat, last: Option<Text>)
    requires p < |s| && f.comments && s[p] == '/' && SkipSpace(s, f, p).Found? && SkipSpace(s, f, p).end == end && CommentEnd(s, p).Found?
    ensures GapLies(s, f, p, gap, q, last, end)
    decreases |s| - p, 0
  {
    CommentPassed(s, f, p);
    var at := CommentEnd(s, p).end;
    var w, body := CommentFound(s, p, at);
    if w.Some? {
      gap, q, last := SkippedIsGap(s, f, at, end);
      gap := GapGrows(s, f, p, w.value, at, gap, q, last, end);
    } else {
      NothingSkipped(s, f, at);
      gap, q, last := [], p, Some(body);
      StandsEmpty(s, p);
    }
  }

  /** A comment is closed by its own end, unless it is one line that the text ends in. */
  lemma {:induction false} CommentFound(s: Text, p: nat, end: nat) returns (w: Option<Filler>, body: Text)
    requires p < |s| && s[p] == '/' && CommentEnd(s, p).Found? && CommentEnd(s, p).end == end
    ensures match w
            case Some(c) => c.Fits(true) && StandsAt(s, p, c.Text()) && end == p + |c.Text()|
            case None => LineBody(body) && StandsAt(s, p, ['/', '/'] + body) && end == p + 2 + |body| && Peek(s, end) == NUL
  {
    if Peek(s, p + 1) == '*' {
      body := BlockFound(s, p + 2);
      assert s[p..p + 2] == ['/', '*'];
      StandsJoined(s, p, p + 2, ['/', '*'], body + ['*', '/']);
      w := Some(Block(body));
    } else {
      body := LineFound(s, p + 2);
      LineReads(s, p + 2, body);
      assert s[p..p + 2] == ['/', '/'];
      if Peek(s, p + 2 + |body|) == '\n' {
        LineCloses(s, p, body);
        w := Some(Line(body));
      } else {
        StandsJoined(s, p, p + 2, ['/', '/'], body);
        w := None;
      }
    }
  }

  lemma {:induction false} LineCloses(s: Text, p: nat, body: Text)
    requires StandsAt(s, p, ['/', '/']) && StandsAt(s, p + 2, body) && Peek(s, p + 2 + |body|) == '\n'
    ensures StandsAt(s, p, Line(body).Text())
  {
    StandsEmpty(s, p + 3 + |body|);
    StandsCons(s, p + 2 + |body|, '\n', []);
    assert ['\n'] + [] == ['\n'];
    StandsJoined(s, p + 2, p + 2 + |body|, body, ['\n']);
    StandsJoined(s, p, p + 2, ['/', '/'], body + ['\n']);
  }
}
