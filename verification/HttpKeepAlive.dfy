/** Whether the connection outlives a request: told by its version and by the values of its connection headers. */
module HttpKeepAlive {
  import opened Bytes
  import opened HttpSyntax
  import opened HttpMachine
  import opened HttpLog
  import opened HttpNames
  import opened HttpMessage
  import opened HttpRoundTrip
  import opened HttpUrl
  import HttpBodies
  import HttpRequest

  const KEEP: Text := "keep-alive"
  const CLOSE: Text := "close"

  /** A byte that stands for a letter of a word, in either case. */
  predicate SameLetter(c: Byte, w: Byte) {
    c == w || ('a' <= w <= 'z' && c as int + 32 == w as int)
  }

  /** A value that is a word, in any case, and perhaps blanks behind it. */
  predicate IsWord(v: Text, w: Text) {
    && |v| >= |w| && (forall i :: 0 <= i < |w| ==> SameLetter(v[i], w[i])) && (forall i :: |w| <= i < |v| ==> v[i] == ' ')
  }

  /** A header that asks for something: its name is that of a connection header, and its value the word. */
  predicate Asks(h: Header, w: Text) {
    (LowerName(h.0) == "connection" || LowerName(h.0) == "proxy-connection") && IsWord(h.1, w)
  }

  predicate SomeAsks(hs: seq<Header>, w: Text) {
    exists i :: 0 <= i < |hs| && Asks(hs[i], w)
  }

  // ---------------------------------------------------------------- the value's matcher

  /** The matcher after a value of a connection header. */
  function ValueState(v: Text): (HeaderState, nat)
    requires v != []
  {
    var c := v[|v| - 1];
    if |v| == 1 then (if Lower(c) == 'k' then MatchingKeepAlive else if Lower(c) == 'c' then MatchingClose else General, 0)
    else var s := ValueState(v[..|v| - 1]); NextOfValue(s.0, s.1, c)
  }

  /** `v` may still become the word, or is it. */
  predicate Begins(v: Text, w: Text) {
    IsWord(v, w) || (|v| < |w| && forall i :: 0 <= i < |v| ==> SameLetter(v[i], w[i]))
  }

  predicate Inside(v: Text, index: nat, w: Text) {
    |v| == index + 1 < |w| && Begins(v, w)
  }

  predicate Says(hs: HeaderState, index: nat, v: Text) {
    match hs
    case MatchingKeepAlive => Inside(v, index, KEEP)
    case MatchingClose => Inside(v, index, CLOSE)
    case KeepAlive => IsWord(v, KEEP)
    case Close => IsWord(v, CLOSE)
    case General => !Begins(v, KEEP) && !Begins(v, CLOSE)
    case _ => false
  }

  lemma {:induction false} LowerIs(c: Byte, w: Byte)
    requires c != CR && ('a' <= w <= 'z' || w == '-')
    ensures Lower(c) == w <==> SameLetter(c, w)
  {
  }

  lemma {:induction false} WordMore(v: Text, c: Byte, w: Text)
    requires v != [] && w != []
    ensures |v| < |w| ==> (Begins(v + [c], w) <==> Begins(v, w) && SameLetter(c, w[|v|]))
    ensures |v| >= |w| ==> (Begins(v + [c], w) <==> IsWord(v, w) && c == ' ')
  {
    var more := v + [c];
    assert more[|v|] == c && forall i :: 0 <= i < |v| ==> more[i] == v[i];
  }

  /** The two words have no letter in common at the beginning. */
  lemma {:induction false} NotBoth(v: Text)
    requires v != []
    ensures !(Begins(v, KEEP) && Begins(v, CLOSE))
  {
    FirstLetter(v, KEEP);
    FirstLetter(v, CLOSE);
  }

  lemma {:induction false} FirstLetter(v: Text, w: Text)
    requires v != [] && w != []
    ensures Begins(v, w) ==> SameLetter(v[0], w[0])
  {
  }

  lemma {:induction false} MatchingNext(v: Text, index: nat, w: Text, here: HeaderState, whole: HeaderState, c: Byte)
    requires Inside(v, index, w) && c != CR && v != []
    requires forall i :: 0 <= i < |w| ==> 'a' <= w[i] <= 'z' || w[i] == '-'
    ensures var m := MatchWord(w, here, whole, index, Lower(c)); var more := v + [c];
            m == if !Begins(more, w) then (General, index + 1) else if |more| == |w| then (whole, index + 1) else (here, index + 1)
  {
    WordMore(v, c, w);
    LowerIs(c, w[|v|]);
  }

  lemma {:induction false} SaysNext(hs: HeaderState, index: nat, v: Text, c: Byte)
    requires Says(hs, index, v) && v != [] && c != CR
    ensures var m := NextOfValue(hs, index, c); Says(m.0, m.1, v + [c])
  {
    NotBoth(v);
    WordMore(v, c, KEEP);
    WordMore(v, c, CLOSE);
    match hs
    case MatchingKeepAlive => MatchingNext(v, index, KEEP, hs, KeepAlive, c);
    case MatchingClose => MatchingNext(v, index, CLOSE, hs, Close, c);
    case _ =>
  }

  lemma {:induction false} SaysFirst(c: Byte)
    requires c != CR
    ensures Says(ValueState([c]).0, ValueState([c]).1, [c])
  {
    LowerIs(c, 'k');
    LowerIs(c, 'c');
    FirstLetter([c], KEEP);
    FirstLetter([c], CLOSE);
  }

  lemma {:induction false} ValueStateMore(v: Text, c: Byte)
    requires v != []
    ensures ValueState(v + [c]) == NextOfValue(ValueState(v).0, ValueState(v).1, c)
  {
    assert (v + [c])[..|v|] == v;
  }

  /** The matcher says the truth of every value. */
  lemma {:induction false} ValueSays(v: Text)
    requires v != [] && forall i :: 0 <= i < |v| ==> v[i] != CR
    ensures Says(ValueState(v).0, ValueState(v).1, v)
    decreases |v|
  {
    var front, c := v[..|v| - 1], v[|v| - 1];
    assert v == front + [c];
    if front == [] {
      SaysFirst(c);
    } else {
      ValueSays(front);
      SaysNext(ValueState(front).0, ValueState(front).1, front, c);
      ValueStateMore(front, c);
    }
  }

  // ---------------------------------------------------------------- a header line

  /** The matcher after a value, given what the name was. */
  function AfterValue(hs: HeaderState, v: Text): (HeaderState, nat)
    requires v != []
  {
    if hs.Connection? then ValueState(v) else (General, 0)
  }

  /** The parser in the middle of a value of a header other than a length, with its matcher. */
  predicate InValue(r: Progress, q: Progress, v: Text)
    requires v != []
  {
    && q.Going() && q.p.state.Value? && q.p.flags == r.p.flags && q.p.headerState == AfterValue(r.p.headerState, v).0
    && q.p.index == AfterValue(r.p.headerState, v).1 && q.p.nread == r.p.nread + |v|
  }

  predicate PlainName(hs: HeaderState) {
    !hs.ContentLength? && !hs.TransferEncoding? && !hs.Upgrade?
  }

  lemma {:induction false} ValueBegins(r: Progress, c: Byte)
    requires Room(r, 1) && r.p.state.DiscardWs? && c != SPACE && c != TAB && c != CR && c != LF && PlainName(r.p.headerState)
    ensures InValue(r, StepOn(r, c), [c])
  {
  }

  lemma {:induction false} ValueGoesOn(r: Progress, q: Progress, v: Text, c: Byte)
    requires Room(r, |v| + 1) && v != [] && InValue(r, q, v) && c != CR && c != LF && PlainName(r.p.headerState)
    requires forall i :: 0 <= i < |v| ==> v[i] != CR
    ensures InValue(r, StepOn(q, c), v + [c])
  {
    ValueSays(v);
    ValueSwitch(q.p, c);
    ValueStateMore(v, c);
  }

  lemma {:induction false} RunToValue(r: Progress, v: Text)
    requires Room(r, |v|) && r.p.state.DiscardWs? && IsValue(v) && PlainName(r.p.headerState)
    ensures InValue(r, Run(r, v), v)
    decreases |v|
  {
    var front, c := v[..|v| - 1], v[|v| - 1];
    assert v == front + [c];
    if front == [] {
      RunOne(r, c);
      ValueBegins(r, c);
    } else {
      RunToValue(r, front);
      ValueGoesOn(r, Run(r, front), front, c);
    }
  }

  /** The flags with what a header asks for. */
  function Asked(f: Flags, h: Header): Flags {
    f.(keepAlive := f.keepAlive || Asks(h, KEEP), close := f.close || Asks(h, CLOSE))
  }

  /** A finished value of a connection header sets its flag; no other value sets one. */
  lemma {:induction false} FinishedAsks(p: HttpMachine.Parser, h: Header, f: Flags)
    requires IsName(h.0) && IsValue(h.1) && p.flags == f && LowerName(h.0) != TRANSFER_ENCODING && LowerName(h.0) != UPGRADE
    requires p.headerState == if LowerName(h.0) == CONTENT_LENGTH then ContentLength else AfterValue(NameState(h.0).0, h.1).0
    ensures FinishedHeader(p) == Asked(f, h)
  {
    NamesRecognised(h.0);
    if LowerName(h.0) != CONTENT_LENGTH && NameState(h.0).0.Connection? {
      ValueSays(h.1);
      NotBoth(h.1);
    }
  }

  /** The value of a header, whatever its name: the flags as they were, and the matcher. */
  lemma {:induction false} RunAnyValue(r: Progress, h: Header, size: nat)
    requires Room(r, |h.1|) && r.p.state.DiscardWs? && IsHeader(h, size) && size <= ULLONG_MAX - 10
    requires r.p.headerState == NameState(h.0).0
    ensures var q := Run(r, h.1);
            && q.Going() && q.p.state.Value? && q.p.flags == r.p.flags && q.p.nread == r.p.nread + |h.1|
            && q.p.headerState == if LowerName(h.0) == CONTENT_LENGTH then ContentLength else AfterValue(NameState(h.0).0, h.1).0
  {
    NamesRecognised(h.0);
    if IsLength(h) {
      RunLength(r, h.1);
    } else {
      RunToValue(r, h.1);
    }
  }

  /** A header line: once it is over, the flags have what it asks for. */
  lemma {:induction false} RunHeaderAsks(r: Progress, h: Header, size: nat)
    requires Room(r, |HttpRequest.HeaderText(h)|) && AtLine(r.p) && IsHeader(h, size) && size <= ULLONG_MAX - 10
    ensures var q := Run(r, HttpRequest.HeaderText(h));
            q.p.state.ValueLws? && FlagsAtLine(q.p) == Asked(FlagsAtLine(r.p), h)
  {
    var name, value: Text := h.0 + ": ", h.1 + [CR, LF];
    assert HttpRequest.HeaderText(h) == name + value;
    RunThen(r, name, Run(r, name), value);
    RunNameFlags(r, h.0);
    var q := Run(r, name);
    RunAnyValue(q, h, size);
    RunThen(q, h.1, Run(q, h.1), [CR, LF]);
    ValueEnd(Run(q, h.1));
    FinishedAsks(Run(q, value).p, h, FlagsAtLine(r.p));
  }

  lemma {:induction false} RunNameFlags(r: Progress, n: Text)
    requires Room(r, |n| + 2) && AtLine(r.p) && IsName(n)
    ensures var q := Run(r, n + ": ");
            && q.Going() && q.p.state.DiscardWs? && q.p.headerState == NameState(n).0 && q.p.flags == FlagsAtLine(r.p)
            && q.p.nread == r.p.nread + |n| + 2
  {
    RunName(r, n);
    RunThen(r, n, AfterName(r, n), ": ");
    RunColon(AfterName(r, n));
  }

  // ---------------------------------------------------------------- all headers

  lemma {:induction false} SomeAsksMore(hs: seq<Header>, h: Header, w: Text)
    ensures SomeAsks(hs + [h], w) <==> SomeAsks(hs, w) || Asks(h, w)
  {
    var more := hs + [h];
    assert more[|hs|] == h;
    if i :| 0 <= i < |hs| && Asks(hs[i], w) {
      assert Asks(more[i], w);
    }
    if i :| 0 <= i < |more| && Asks(more[i], w) {
      assert i == |hs| || Asks(hs[i], w);
    }
  }

  /** The flags behind some headers, from none set. */
  predicate AllAsked(f: Flags, hs: seq<Header>) {
    (f.keepAlive <==> SomeAsks(hs, KEEP)) && (f.close <==> SomeAsks(hs, CLOSE))
  }

  lemma {:induction false} RunHeadersAsk(r: Progress, before: seq<Event>, hs: seq<Header>, size: nat)
    requires Room(r, |HttpRequest.HeadersText(hs)|) && AfterHeaders(r, r, before, [], size, 0)
    requires size <= ULLONG_MAX - 10 && (forall i :: 0 <= i < |hs| ==> IsHeader(hs[i], size)) && AllAsked(FlagsAtLine(r.p), [])
    ensures AllAsked(FlagsAtLine(Run(r, HttpRequest.HeadersText(hs)).p), hs)
    decreases |hs|
  {
    if hs != [] {
      var front, h := hs[..|hs| - 1], hs[|hs| - 1];
      var a, b := HttpRequest.HeadersText(front), HttpRequest.HeaderText(h);
      assert hs == front + [h];
      RunHeaders(r, before, front, size);
      RunHeadersAsk(r, before, front, size);
      RunThen(r, a, Run(r, a), b);
      RunHeaderAsks(Run(r, a), h, size);
      SomeAsksMore(front, h, KEEP);
      SomeAsksMore(front, h, CLOSE);
    }
  }

  // ---------------------------------------------------------------- the end of the message

  /** Where the parser is after a message: at the next one, or at the end of the connection. */
  function Afterwards(major: nat, minor: nat, keep: bool, close: bool): State {
    if major > 0 && minor > 0 then (if close then Dead else StartReq) else (if keep then StartReq else Dead)
  }

  lemma {:induction false} RunEndState(r: Progress, body: Text)
    requires Room(r, 2) && AtLine(r.p) && SameFraming(NO_FLAGS, r.p.flags) && r.p.verb != CONNECT && |body| < ULLONG_MAX
    requires if body == [] then r.p.contentLength == 0 || r.p.contentLength == ULLONG_MAX else r.p.contentLength == |body|
    ensures Run(r, [CR, LF] + body).p.state ==
            Afterwards(r.p.major, r.p.minor, FlagsAtLine(r.p).keepAlive, FlagsAtLine(r.p).close)
  {
    RunThen(r, [CR, LF], Run(r, [CR, LF]), body);
    HttpBodies.RunTwo(r, CR, LF);
    ReturnAtLine(r);
    var q := StepOn(r, CR);
    FeedAtEnd(q);
    EndsHeaders(q);
    if body != [] {
      RunBody(StepOn(q, LF), body);
    }
  }

  lemma {:induction false} EndsHeaders(r: Progress)
    requires Room(r, 1) && r.p.state.HeadersAlmostDone? && !r.p.flags.chunked && !r.p.flags.trailing && !r.p.flags.upgrade
    requires r.p.verb != CONNECT
    ensures var q := StepOn(r, LF);
            && q.p.flags == r.p.flags && q.p.major == r.p.major && q.p.minor == r.p.minor
            && (r.p.contentLength == 0 || r.p.contentLength == ULLONG_MAX ==>
                  q.p.state == Afterwards(r.p.major, r.p.minor, r.p.flags.keepAlive, r.p.flags.close))
  {
  }

  /**
   * A request of version 1.1 or later leaves the parser at the next one exactly unless some connection header asks to
   * close; an earlier one leaves it at the end of the connection exactly unless some header asks to keep it alive.
   */
  lemma {:induction false} RequestKeepsAlive(
    r: Progress, m: Method, uri: Text, major: Text, minor: Text, hs: seq<Header>, body: Text)
    requires r.p.state.StartReq? && IsRequest(m, uri, major, minor, hs, body) && Room(r, HeadSize(m, uri, major, minor, hs))
    ensures Run(r, HttpRequest.RequestText(MethodName(m), uri, VersionText(major, minor), hs, body)).p.state ==
            Afterwards(DecimalValue(major), DecimalValue(minor), SomeAsks(hs, "keep-alive"), SomeAsks(hs, "close"))
  {
    var line := HttpRequest.RequestLine(MethodName(m), uri, VersionText(major, minor));
    var head := HttpRequest.HeadersText(hs);
    RequestSplit(m, uri, major, minor, hs, body, line, head);
    RunRequestLine(r, m, uri, major, minor);
    var r1 := Run(r, line);
    var before := r.log + [MessageBegin, Data(Url, uri)];
    assert r1.log == before + HeaderEvents([]);
    RunHeadersAsk(r1, before, hs, |body|);
    RunHead(r, m, uri, major, minor, hs, |body|, line, head);
    RunThen(r, line, r1, head);
    RunThen(r, line + head, Run(r, line + head), [CR, LF] + body);
    RunEndState(Run(r, line + head), body);
  }

  /** The default of version 1.1 is to stay, that of version 1.0 to leave. */
  lemma {:induction false} Defaults(r: Progress, m: Method, uri: Text, hs: seq<Header>, body: Text)
    requires r.p.state.StartReq? && !SomeAsks(hs, KEEP) && !SomeAsks(hs, CLOSE)
    ensures IsRequest(m, uri, "1", "1", hs, body) && Room(r, HeadSize(m, uri, "1", "1", hs)) ==>
              Run(r, HttpRequest.RequestText(MethodName(m), uri, VersionText("1", "1"), hs, body)).p.state.StartReq?
    ensures IsRequest(m, uri, "1", "0", hs, body) && Room(r, HeadSize(m, uri, "1", "0", hs)) ==>
              Run(r, HttpRequest.RequestText(MethodName(m), uri, VersionText("1", "0"), hs, body)).p.state.Dead?
  {
    OneDigit('1');
    OneDigit('0');
    if IsRequest(m, uri, "1", "1", hs, body) && Room(r, HeadSize(m, uri, "1", "1", hs)) {
      RequestKeepsAlive(r, m, uri, "1", "1", hs, body);
    }
    if IsRequest(m, uri, "1", "0", hs, body) && Room(r, HeadSize(m, uri, "1", "0", hs)) {
      RequestKeepsAlive(r, m, uri, "1", "0", hs, body);
    }
  }
}
