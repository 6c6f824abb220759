/** Whole JSON texts: the reader accepts what may be written, and nothing else. */
module JsonTexts {
  import opened Bytes
  import opened JsonLexer
  import opened JsonGrammar
  import opened JsonValue
  import opened JsonGaps
  import opened JsonRoundTrip
  import opened JsonWritten
  import opened JsonSound

  // ---------------------------------------------------------------- whole texts

  /** A text as it may be written: a value, the space around it, and at the end perhaps a comment that nothing closes. */
  datatype Written = Written(before: Gap, d: Doc, after: Gap, last: Option<Text>)
  {
    function Text(): Text {
      GapText(before) + (DocText(d) + After())
    }

    function After(): Text {
      GapText(after) + LastText(last)
    }

    predicate Fits(f: Settings) {
      && GapFits(f.comments, before) && DocFits(f, d) && GapFits(f.comments, after)
      && (last.Some? ==> f.comments && LineBody(last.value))
    }

    /**
     * Whether `s` begins with this text and the reader's work ends there: with the value itself where it stops at the
     * end of the root, and else with all the space behind it, at the terminator.
     */
    predicate Opens(f: Settings, s: Text) {
      && Fits(f) && StandsAt(s, 0, Text())
      && if f.stopWhenDone then after == [] && last.None? && EndsBefore(f, d, Peek(s, |Text()|)) else Peek(s, |Text()|) == NUL
    }
  }

  function LastText(last: Option<Text>): Text {
    match last case None => [] case Some(body) => ['/', '/'] + body
  }

  /**
   * Whatever fills the space around its tokens and however its strings and numbers are spelled, a text is accepted as far
   * as it goes, and sends the events of the tree that was written.
   */
  lemma {:induction false} WrittenIsRead(f: Settings, s: Text, w: Written)
    requires w.Opens(f, s)
    ensures Document(s, f) == Going(|w.Text()|, Events(TreeOf(f, w.d)))
  {
    var behind, stop := w.After(), |w.Text()|;
    var p, end := |GapText(w.before)|, stop - |behind|;
    PartsLie(s, f, w, p, end, stop);
    var g, v := Going(p, []), Going(end, Events(TreeOf(f, w.d)));
    RootReads(s, f, w.d, g, v);
    EndReads(s, f, w.after, w.last, behind, v, stop);
  }

  /** Where the root value and the space around it lie. */
  lemma {:induction false} PartsLie(s: Text, f: Settings, w: Written, p: nat, end: nat, stop: nat)
    requires w.Opens(f, s) && p == |GapText(w.before)| && stop == |w.Text()| && end == stop - |w.After()|
    ensures StandsAt(s, p, DocText(w.d)) && end == p + |DocText(w.d)| && StandsAt(s, end, w.After()) && stop == end + |w.After()|
    ensures EndsBefore(f, w.d, Peek(s, end)) && Space(s, f, Going(0, [])) == Going(p, [])
  {
    var value, behind := DocText(w.d), w.After();
    assert w.Text() == GapText(w.before) + (value + behind);
    DocBegins(f, w.d);
    var g := GapEnters(s, f, w.before, value + behind, Going(0, []));
    StandsThen(s, p, end, value, behind);
    EndsThere(s, f, w, end, stop);
  }

  lemma {:induction false} EndsThere(s: Text, f: Settings, w: Written, end: nat, stop: nat)
    requires w.Opens(f, s) && StandsAt(s, end, w.After()) && stop == end + |w.After()| == |w.Text()|
    ensures EndsBefore(f, w.d, Peek(s, end))
  {
    if f.stopWhenDone {
      assert w.After() == [];
    } else {
      AfterStops(s, f, w, end, stop);
      StopsEnd(f, w.d, Peek(s, end));
    }
  }

  /** The root value. */
  lemma {:induction false} RootReads(s: Text, f: Settings, d: Doc, g: Progress, v: Progress)
    requires DocFits(f, d) && g.At(s) && g.out == [] && StandsAt(s, g.pos, DocText(d))
    requires v == Going(g.pos + |DocText(d)|, Events(TreeOf(f, d))) && EndsBefore(f, d, Peek(s, v.pos))
    ensures v.At(s) && Root(s, f, g) == Epilogue(s, f, v)
  {
    DocBegins(f, d);
    StandsByte(s, g.pos, DocText(d), 0);
    DocReads(s, f, d, g);
    assert g.out + v.out == v.out;
  }

  /** What comes behind the root value ends a number. */
  lemma {:induction false} AfterStops(s: Text, f: Settings, w: Written, end: nat, stop: nat)
    requires w.Fits(f) && StandsAt(s, end, w.After()) && stop == end + |w.After()| && Peek(s, stop) == NUL
    ensures Stops(Peek(s, end))
  {
    if w.After() != [] {
      StandsByte(s, end, w.After(), 0);
      if w.after == [] {
        assert w.After() == LastText(w.last);
      } else {
        assert w.After()[0] == GapText(w.after)[0] == w.after[0].Text()[0];
      }
    }
  }

  /** The space behind the root value, up to the terminator. */
  lemma {:induction false} EndReads(s: Text, f: Settings, after: Gap, last: Option<Text>, behind: Text, v: Progress, stop: nat)
    requires v.At(s) && StandsAt(s, v.pos, behind) && stop == v.pos + |behind| && behind == GapText(after) + LastText(last)
    requires GapFits(f.comments, after) && (last.Some? ==> f.comments && LineBody(last.value))
    requires if f.stopWhenDone then behind == [] else Peek(s, stop) == NUL
    ensures Epilogue(s, f, v) == Going(stop, v.out)
  {
    if !f.stopWhenDone {
      AfterSkips(s, f, after, last, v.pos, stop);
    }
  }

  lemma {:induction false} AfterSkips(s: Text, f: Settings, after: Gap, last: Option<Text>, p: nat, stop: nat)
    requires StandsAt(s, p, GapText(after) + LastText(last)) && stop == p + |GapText(after) + LastText(last)|
    requires GapFits(f.comments, after) && (last.Some? ==> f.comments && LineBody(last.value)) && Peek(s, stop) == NUL
    ensures stop <= |s| && SkipSpace(s, f, p) == Found(stop, ())
  {
    var q := p + |GapText(after)|;
    StandsThen(s, p, q, GapText(after), LastText(last));
    GapReads(s, f, p, after, q);
    LastSkips(s, f, last, q, stop);
  }

  lemma {:induction false} LastSkips(s: Text, f: Settings, last: Option<Text>, q: nat, stop: nat)
    requires StandsAt(s, q, LastText(last)) && stop == q + |LastText(last)| && (last.Some? ==> f.comments && LineBody(last.value))
    requires Peek(s, stop) == NUL
    ensures SkipSpace(s, f, q) == Found(stop, ())
  {
    match last
    case None => NothingSkipped(s, f, q);
    case Some(body) => LastLineReads(s, f, q, body);
  }

  // ---------------------------------------------------------------- nothing else is accepted

  /** The space that the reader has passed over behind the root value, up to the terminator. */
  lemma {:induction false} EndFound(s: Text, f: Settings, v: Progress, stop: nat) returns (after: Gap, last: Option<Text>)
    requires v.At(s) && Epilogue(s, f, v).Going? && Epilogue(s, f, v).pos == stop
    ensures GapFits(f.comments, after) && (last.Some? ==> f.comments && LineBody(last.value))
    ensures Spans(s, v.pos, GapText(after) + LastText(last), stop)
    ensures if f.stopWhenDone then after == [] && last.None? else Peek(s, stop) == NUL
  {
    if f.stopWhenDone {
      after, last := [], None;
      StandsEmpty(s, v.pos);
    } else {
      var q;
      after, q, last := SkippedIsGap(s, f, v.pos, stop);
      if last.None? {
        StandsEmpty(s, q);
      }
      SpansJoined(s, v.pos, GapText(after), q, LastText(last), stop);
    }
  }

  /** Every text that is accepted was written. */
  lemma {:induction false} AcceptedIsWritten(f: Settings, s: Text) returns (w: Written)
    requires Document(s, f).Going?
    ensures w.Opens(f, s) && Document(s, f).pos == |w.Text()|
  {
    var g := Space(s, f, Going(0, []));
    var v := Value(s, f, g);
    var stop := Document(s, f).pos;
    assert Document(s, f) == Root(s, f, g) == Epilogue(s, f, v);
    var before := SpaceFound(s, f, Going(0, []));
    var d := ValueFound(s, f, g, v.pos);
    var after, last := EndFound(s, f, v, stop);
    w := Written(before, d, after, last);
    SpansJoined(s, g.pos, DocText(d), v.pos, w.After(), stop);
    SpansJoined(s, 0, GapText(before), g.pos, DocText(d) + w.After(), stop);
  }

  /**
   * A text is accepted exactly when it opens with a value that was written, with nothing but filled space around it: both
   * what RFC 8259 lets be written and what each of the reader's flags adds to it.
   */
  lemma {:induction false} AcceptedExactlyWritten(f: Settings, s: Text)
    ensures Document(s, f).Going? <==> exists w: Written :: w.Opens(f, s)
  {
    if Document(s, f).Going? {
      var w := AcceptedIsWritten(f, s);
    }
    if w: Written :| w.Opens(f, s) {
      WrittenIsRead(f, s, w);
    }
  }

  /** A text indented by a tab. */
  lemma {:induction false} TabsAreBlanks(f: Settings)
    ensures Document("{\t}", f) == Going(3, [StartObject, EndObject(0)])
  {
    var gap := [Blank('\t')];
    assert GapText(gap[1..]) == [];
    var w := Written([], EmptyObject(gap), [], None);
    assert w.Text() == "{\t}" == "{\t}"[0..3];
    assert w.Opens(f, "{\t}");
    WrittenIsRead(f, "{\t}", w);
    assert Events(Obj([])) == [StartObject, EndObject(0)];
  }

  /** The blanks are four bytes and no others. */
  lemma {:induction false} BlankBytes(c: Byte)
    ensures IsBlank(c) <==> c as int == 0x20 || c as int == 0x09 || c as int == 0x0A || c as int == 0x0D
  {
  }
}
