/** A request as the benchmark prints it is understood by the parser: method, url, headers and body come back. */
module HttpRoundTrip {
  import opened Bytes
  import opened HttpSyntax
  import opened HttpMachine
  import opened HttpInvariant
  import opened HttpLog
  import opened HttpNames
  import opened HttpMessage
  import opened HttpUrl
  import HttpBodies
  import HttpParser
  import HttpRequest
  import HttpStream

  type Header = (Text, Text)

  // ---------------------------------------------------------------- what is asked of a request

  predicate IsNumber(d: Text) {
    d != [] && AllDigits(d) && DecimalValue(d) <= 999
  }

  function VersionText(major: Text, minor: Text): Text {
    "HTTP/" + major + "." + minor
  }

  predicate IsValue(v: Text) {
    v != [] && v[0] != SPACE && v[0] != TAB && forall i :: 0 <= i < |v| ==> v[i] != CR && v[i] != LF
  }

  predicate IsLength(h: Header) {
    LowerName(h.0) == CONTENT_LENGTH
  }

  /** A header that announces neither a transfer coding nor an upgrade; a length must be that of the body. */
  predicate IsHeader(h: Header, size: nat) {
    && IsName(h.0) && IsValue(h.1) && LowerName(h.0) != TRANSFER_ENCODING && LowerName(h.0) != UPGRADE
    && (IsLength(h) ==> AllDigits(h.1) && DecimalValue(h.1) == size)
  }

  ghost predicate IsRequest(m: Method, uri: Text, major: Text, minor: Text, hs: seq<Header>, body: Text) {
    && m != CONNECT && IsUrl(uri) && IsNumber(major) && major[0] != '0' && IsNumber(minor)
    && (forall i :: 0 <= i < |hs| ==> IsHeader(hs[i], |body|))
    && (body != [] ==> |body| <= ULLONG_MAX - 10 && exists i :: 0 <= i < |hs| && IsLength(hs[i]))
  }

  // ---------------------------------------------------------------- the request line

  /** Room for `n` more header bytes. */
  predicate Room(r: Progress, n: nat) {
    r.Going() && r.p.nread + n <= MAX_HEADER_SIZE
  }

  lemma {:induction false} StartStep(r: Progress, m: Method)
    requires Room(r, 1) && r.p.state.StartReq?
    ensures StepOn(r, MethodName(m)[0]) ==
      Progress(r.p.(state := ReqMethod, verb := Guess(m, 1), index := 1, flags := NO_FLAGS, contentLength := ULLONG_MAX,
                    nread := r.p.nread + 1), Emit(r.log, MessageBegin), false)
  {
    GuessStart(m);
    EmitOne(r.log, MessageBegin);
  }

  lemma {:induction false} MethodStep(r: Progress, m: Method, i: nat)
    requires Room(r, 1) && r.p.state.ReqMethod? && 1 <= i < |MethodName(m)| && r.p.verb == Guess(m, i) && r.p.index == i
    ensures StepOn(r, MethodName(m)[i]) ==
              Progress(r.p.(verb := Guess(m, i + 1), index := i + 1, nread := r.p.nread + 1), r.log, false)
  {
    GuessGoesOn(m, i);
  }

  lemma {:induction false} RunMethod(r: Progress, m: Method, i: nat)
    requires Room(r, i) && r.p.state.StartReq? && 1 <= i <= |MethodName(m)|
    ensures Run(r, MethodName(m)[..i]) ==
      Progress(r.p.(state := ReqMethod, verb := Guess(m, i), index := i, flags := NO_FLAGS, contentLength := ULLONG_MAX,
                    nread := r.p.nread + i), Emit(r.log, MessageBegin), false)
    decreases i
  {
    var name := MethodName(m);
    if i == 1 {
      assert name[..1] == [name[0]];
      RunOne(r, name[0]);
      StartStep(r, m);
    } else {
      RunMethod(r, m, i - 1);
      HttpParser.StepNext(r, Run(r, name[..i - 1]), name, i - 1);
      MethodStep(Run(r, name[..i - 1]), m, i - 1);
    }
  }

  lemma {:induction false} MethodEnd(r: Progress, m: Method)
    requires Room(r, 1) && r.p.state.ReqMethod? && r.p.verb == m && r.p.index == |MethodName(m)|
    ensures StepOn(r, SPACE) == Progress(r.p.(state := SpacesBeforeUrl, index := r.p.index + 1, nread := r.p.nread + 1), r.log, false)
  {
  }

  /** What the parser knows before the url. */
  predicate BeforeUrl(r: Progress, q: Progress, m: Method, n: nat) {
    && q.Going() && q.p.state.SpacesBeforeUrl? && q.p.verb == m && q.p.nread == r.p.nread + n
    && q.p.flags == NO_FLAGS && q.p.contentLength == ULLONG_MAX && q.log == Emit(r.log, MessageBegin)
  }

  lemma {:induction false} RunVerb(r: Progress, m: Method)
    requires Room(r, |MethodName(m)| + 1) && r.p.state.StartReq?
    ensures BeforeUrl(r, Run(r, MethodName(m) + [SPACE]), m, |MethodName(m)| + 1)
  {
    var name := MethodName(m);
    assert name[..|name|] == name;
    RunMethod(r, m, |name|);
    GuessEnds(m);
    RunConcat(r, name, [SPACE]);
    RunOne(Run(r, name), SPACE);
    MethodEnd(Run(r, name), m);
  }

  lemma {:induction false} UrlStep(r: Progress, ch: Byte)
    requires Room(r, 1) && (r.p.state.SpacesBeforeUrl? || r.p.state.InUrl()) && r.p.verb != CONNECT
    requires NextInUrl(r.p.state, ch) != Dead
    ensures StepOn(r, ch) ==
              Progress(r.p.(state := NextInUrl(r.p.state, ch), nread := r.p.nread + 1), Emit(r.log, Data(Url, [ch])), false)
  {
    assert ch != SPACE && ch != CR && ch != LF;
    EmitOne(r.log, Data(Url, [ch]));
    var q := Counted(r.p);
    SwitchByGroup(q, ch);
  }

  lemma {:induction false} RunUrlMore(r: Progress, u: Text, c: Byte, q: Progress)
    requires Room(r, |u| + 1) && r.p.verb != CONNECT && UrlState(u + [c]) != Dead
    requires UrlState(u).InUrl() || UrlState(u).SpacesBeforeUrl?
    requires q == Progress(r.p.(state := UrlState(u), nread := r.p.nread + |u|), Emit(r.log, Data(Url, u)), false)
    requires Run(r, u) == q
    ensures Run(r, u + [c]) ==
              Progress(r.p.(state := UrlState(u + [c]), nread := r.p.nread + |u| + 1), Emit(r.log, Data(Url, u + [c])), false)
  {
    UrlStateMore(u, c);
    RunConcat(r, u, [c]);
    RunOne(q, c);
    UrlStep(q, c);
    EmitMerge(r.log, Url, u, [c]);
  }

  lemma {:induction false} RunUrlFirst(r: Progress, c: Byte)
    requires Room(r, 1) && r.p.state.SpacesBeforeUrl? && r.p.verb != CONNECT && UrlState([c]) != Dead
    ensures Run(r, [c]) == Progress(r.p.(state := UrlState([c]), nread := r.p.nread + 1), Emit(r.log, Data(Url, [c])), false)
  {
    assert [c] == [] + [c];
    UrlStateMore([], c);
    RunOne(r, c);
    UrlStep(r, c);
  }

  lemma {:induction false} RunUrl(r: Progress, u: Text)
    requires Room(r, |u|) && r.p.state.SpacesBeforeUrl? && r.p.verb != CONNECT && u != [] && UrlState(u) != Dead
    ensures Run(r, u) == Progress(r.p.(state := UrlState(u), nread := r.p.nread + |u|), Emit(r.log, Data(Url, u)), false)
    decreases |u|
  {
    var front, c := u[..|u| - 1], u[|u| - 1];
    assert u == front + [c];
    if front == [] {
      RunUrlFirst(r, c);
    } else {
      UrlStateMore(front, c);
      UrlStateInUrl(UrlState(front), c);
      assert UrlState(front) == NextInUrl(UrlState(front[..|front| - 1]), front[|front| - 1]);
      UrlStateInUrl(UrlState(front[..|front| - 1]), front[|front| - 1]);
      RunUrl(r, front);
      RunUrlMore(r, front, c, Run(r, front));
    }
  }

  lemma {:induction false} UrlBlank(r: Progress)
    requires Room(r, 1) && r.p.state.InUrl()
    requires !r.p.state.Schema? && !r.p.state.SchemaSlash? && !r.p.state.SchemaSlashSlash? && !r.p.state.ServerStart?
    ensures StepOn(r, SPACE) == Progress(r.p.(state := HttpStart, nread := r.p.nread + 1), r.log, false)
  {
    var q := Counted(r.p);
    SwitchByGroup(q, SPACE);
  }

  lemma {:induction false} VersionStep(r: Progress, ch: Byte, next: HttpMachine.Parser)
    requires Room(r, 1) && InVersion(r.p.state)
    requires next == VersionByte(Counted(r.p), ch).p
    ensures StepOn(r, ch) == Progress(next, r.log, false)
  {
    var q := Counted(r.p);
    SwitchByGroup(q, ch);
    HttpParser.VersionIsQuiet(q, ch);
  }

  /** The state behind the first `k` letters of the protocol's name. */
  function AfterLetters(k: nat): State
    requires k <= 5
  {
    match k
    case 0 => HttpStart
    case 1 => HttpH
    case 2 => HttpHT
    case 3 => HttpHTT
    case 4 => HttpHTTP
    case _ => FirstMajor
  }

  const PROTOCOL: Text := "HTTP/"

  function LettersRead(r: Progress, k: nat): Progress
    requires k <= 5
  {
    Progress(r.p.(state := AfterLetters(k), nread := r.p.nread + k), r.log, false)
  }

  lemma {:induction false} LetterStep(r: Progress, k: nat, ch: Byte)
    requires k < 5 && Room(r, k + 1) && r.p.state.HttpStart? && ch == PROTOCOL[k]
    ensures StepOn(LettersRead(r, k), ch) == LettersRead(r, k + 1)
  {
    VersionStep(LettersRead(r, k), ch, LettersRead(r, k + 1).p);
  }

  lemma {:induction false} RunLast(r: Progress, front: Text, q: Progress, c: Byte, d: Text)
    requires Run(r, front) == q && d == front + [c]
    ensures Run(r, d) == StepOn(q, c)
  {
    assert d[..|d| - 1] == front;
  }

  lemma {:induction false} RunLetters(r: Progress, k: nat, d: Text)
    requires k <= 5 && Room(r, k) && r.p.state.HttpStart? && d == PROTOCOL[..k]
    ensures Run(r, d) == LettersRead(r, k)
    decreases k
  {
    if k > 0 {
      var front := PROTOCOL[..k - 1];
      RunLetters(r, k - 1, front);
      RunLast(r, front, LettersRead(r, k - 1), PROTOCOL[k - 1], d);
      LetterStep(r, k - 1, PROTOCOL[k - 1]);
    }
  }

  lemma {:induction false} RunHttp(r: Progress)
    requires Room(r, 5) && r.p.state.HttpStart?
    ensures Run(r, "HTTP/") == Progress(r.p.(state := FirstMajor, nread := r.p.nread + 5), r.log, false)
  {
    RunLetters(r, 5, PROTOCOL);
  }

  lemma {:induction false} DigitsPrefix(d: Text)
    requires |d| >= 2 && AllDigits(d)
    ensures AllDigits(d[..|d| - 1]) && DecimalValue(d) == 10 * DecimalValue(d[..|d| - 1]) + DigitValue(d[|d| - 1])
  {
  }

  lemma {:induction false} OneDigit(c: Byte)
    requires IsDigit(c)
    ensures DecimalValue([c]) == DigitValue(c)
  {
    assert [c][..0] == [];
    assert DecimalValue([]) == 0;
  }

  lemma {:induction false} RunMajor(r: Progress, d: Text)
    requires Room(r, |d|) && r.p.state.FirstMajor? && IsNumber(d) && d[0] != '0'
    ensures Run(r, d) == Progress(r.p.(state := Major, major := DecimalValue(d), nread := r.p.nread + |d|), r.log, false)
    decreases |d|
  {
    var front, c := d[..|d| - 1], d[|d| - 1];
    if front == [] {
      assert d == [c];
      FirstMajorDigit(r, c);
    } else {
      DigitsPrefix(d);
      RunMajor(r, front);
      NextMajorDigit(Run(r, front), d, c);
    }
  }

  lemma {:induction false} FirstMajorDigit(r: Progress, c: Byte)
    requires Room(r, 1) && r.p.state.FirstMajor? && IsDigit(c) && c != '0'
    ensures Run(r, [c]) == Progress(r.p.(state := Major, major := DecimalValue([c]), nread := r.p.nread + 1), r.log, false)
  {
    OneDigit(c);
    RunOne(r, c);
    VersionStep(r, c, r.p.(state := Major, major := DigitValue(c), nread := r.p.nread + 1));
  }

  lemma {:induction false} NextMajorDigit(q: Progress, d: Text, c: Byte)
    requires Room(q, 1) && q.p.state.Major? && IsNumber(d) && IsDigit(c) && DecimalValue(d) == 10 * q.p.major + DigitValue(c)
    ensures StepOn(q, c) == Progress(q.p.(major := DecimalValue(d), nread := q.p.nread + 1), q.log, false)
  {
    VersionStep(q, c, q.p.(major := DecimalValue(d), nread := q.p.nread + 1));
  }

  lemma {:induction false} RunMinor(r: Progress, d: Text)
    requires Room(r, |d|) && r.p.state.FirstMinor? && IsNumber(d)
    ensures Run(r, d) == Progress(r.p.(state := Minor, minor := DecimalValue(d), nread := r.p.nread + |d|), r.log, false)
    decreases |d|
  {
    var front, c := d[..|d| - 1], d[|d| - 1];
    if front == [] {
      assert d == [c];
      FirstMinorDigit(r, c);
    } else {
      DigitsPrefix(d);
      RunMinor(r, front);
      NextMinorDigit(Run(r, front), d, c);
    }
  }

  lemma {:induction false} FirstMinorDigit(r: Progress, c: Byte)
    requires Room(r, 1) && r.p.state.FirstMinor? && IsDigit(c)
    ensures Run(r, [c]) == Progress(r.p.(state := Minor, minor := DecimalValue([c]), nread := r.p.nread + 1), r.log, false)
  {
    OneDigit(c);
    RunOne(r, c);
    VersionStep(r, c, r.p.(state := Minor, minor := DigitValue(c), nread := r.p.nread + 1));
  }

  lemma {:induction false} NextMinorDigit(q: Progress, d: Text, c: Byte)
    requires Room(q, 1) && q.p.state.Minor? && IsNumber(d) && IsDigit(c) && DecimalValue(d) == 10 * q.p.minor + DigitValue(c)
    ensures StepOn(q, c) == Progress(q.p.(minor := DecimalValue(d), nread := q.p.nread + 1), q.log, false)
  {
    VersionStep(q, c, q.p.(minor := DecimalValue(d), nread := q.p.nread + 1));
  }

  lemma {:induction false} RunThen(r: Progress, a: Text, q: Progress, b: Text)
    requires Run(r, a) == q
    ensures Run(r, a + b) == Run(q, b)
  {
    RunConcat(r, a, b);
  }

  lemma {:induction false} RunDot(r: Progress)
    requires Room(r, 1) && r.p.state.Major?
    ensures Run(r, ".") == Progress(r.p.(state := FirstMinor, nread := r.p.nread + 1), r.log, false)
  {
    RunOne(r, '.');
    VersionStep(r, '.', r.p.(state := FirstMinor, nread := r.p.nread + 1));
  }

  lemma {:induction false} RunLineEnd(r: Progress)
    requires Room(r, 2) && r.p.state.Minor?
    ensures Run(r, [CR, LF]) == Progress(r.p.(state := FieldStart, nread := r.p.nread + 2), r.log, false)
  {
    var q := Progress(r.p.(state := LineAlmostDone, nread := r.p.nread + 1), r.log, false);
    RunOne(r, CR);
    VersionStep(r, CR, q.p);
    LineFeedStep(q);
    RunLast(r, [CR], q, LF, [CR, LF]);
  }

  lemma {:induction false} LineFeedStep(q: Progress)
    requires Room(q, 1) && q.p.state.LineAlmostDone?
    ensures StepOn(q, LF) == Progress(q.p.(state := FieldStart, nread := q.p.nread + 1), q.log, false)
  {
    VersionStep(q, LF, q.p.(state := FieldStart, nread := q.p.nread + 1));
  }

  lemma {:induction false} RunVersion(r: Progress, major: Text, minor: Text)
    requires Room(r, 5 + |major| + 1 + |minor| + 2) && r.p.state.HttpStart?
    requires IsNumber(major) && major[0] != '0' && IsNumber(minor)
    ensures Run(r, VersionText(major, minor) + [CR, LF]) ==
      Progress(r.p.(state := FieldStart, major := DecimalValue(major), minor := DecimalValue(minor),
                    nread := r.p.nread + 5 + |major| + 1 + |minor| + 2), r.log, false)
  {
    RunHttp(r);
    var r1 := Run(r, "HTTP/");
    RunThen(r, "HTTP/", r1, major);
    RunMajor(r1, major);
    var r2 := Run(r1, major);
    RunThen(r, "HTTP/" + major, r2, ".");
    RunDot(r2);
    var r3 := Run(r2, ".");
    RunThen(r, "HTTP/" + major + ".", r3, minor);
    RunMinor(r3, minor);
    var r4 := Run(r3, minor);
    RunThen(r, "HTTP/" + major + "." + minor, r4, [CR, LF]);
    RunLineEnd(r4);
  }

  // ---------------------------------------------------------------- a header line

  /** A header whose line is over leaves the transfer coding alone. */
  predicate Harmless(hs: HeaderState) {
    hs.General? || hs.ContentLength? || hs.MatchingKeepAlive? || hs.MatchingClose? || hs.KeepAlive? || hs.Close?
  }

  /** At the beginning of a line of the headers, or of the trailer behind the last chunk. */
  predicate AtLine(p: HttpMachine.Parser) {
    p.state.FieldStart? || (p.state.ValueLws? && Harmless(p.headerState))
  }

  /** The fields that a line of the headers leaves alone. */
  predicate SameRequest(p: HttpMachine.Parser, q: HttpMachine.Parser) {
    && q.verb == p.verb && q.major == p.major && q.minor == p.minor && q.upgrade == p.upgrade && q.errno == p.errno
    && SameFraming(p.flags, q.flags)
  }

  /** Flags that agree on how the message is framed. */
  predicate SameFraming(f: Flags, g: Flags) {
    g.chunked == f.chunked && g.trailing == f.trailing && g.upgrade == f.upgrade
  }

  /** The flags once the line before is taken into account. */
  function FlagsAtLine(p: HttpMachine.Parser): Flags {
    if p.state.ValueLws? then FinishedHeader(p) else p.flags
  }

  /** The byte behind a line of the headers, and the first byte of a line. */
  lemma {:induction false} StepBehindLine(p: HttpMachine.Parser, c: Byte)
    requires p.state.ValueLws? && p.nread < MAX_HEADER_SIZE
    ensures Step(p, c) == HeaderByte(p.(nread := p.nread + 1), c)
  {
  }

  lemma {:induction false} StepAtLine(p: HttpMachine.Parser, c: Byte)
    requires p.state.FieldStart? && p.nread < MAX_HEADER_SIZE
    ensures Step(p, c) == HeaderByte(p.(nread := p.nread + 1), c)
  {
  }

  /** The first letter of a name. */
  lemma {:induction false} NameStart(r: Progress, c: Byte)
    requires Room(r, 1) && AtLine(r.p) && Token(c) != NUL
    ensures StepOn(r, c) ==
      Progress(r.p.(state := Field, headerState := FirstOfName(Token(c)), index := 0, flags := FlagsAtLine(r.p),
                    nread := r.p.nread + 1), Emit(r.log, Data(FieldName, [c])), false)
  {
    assert c != SPACE && c != TAB && c != CR && c != LF;
    if r.p.state.FieldStart? {
      StepAtLine(r.p, c);
    } else {
      StepBehindLine(r.p, c);
    }
    EmitOne(r.log, Data(FieldName, [c]));
  }

  lemma {:induction false} NameStep(r: Progress, c: Byte)
    requires Room(r, 1) && r.p.state.Field? && Token(c) != NUL
    ensures var m := NextOfName(r.p.headerState, r.p.index, c, Token(c));
      StepOn(r, c) == Progress(r.p.(headerState := m.0, index := m.1, nread := r.p.nread + 1), Emit(r.log, Data(FieldName, [c])), false)
  {
    EmitOne(r.log, Data(FieldName, [c]));
  }

  /** The parser after a name. */
  function AfterName(r: Progress, n: Text): Progress
    requires n != []
  {
    Progress(r.p.(state := Field, headerState := NameState(n).0, index := NameState(n).1, flags := FlagsAtLine(r.p),
                  nread := r.p.nread + |n|), Emit(r.log, Data(FieldName, n)), false)
  }

  lemma {:induction false} RunNameMore(r: Progress, n: Text, c: Byte)
    requires Room(r, |n| + 1) && n != [] && Token(c) != NUL && Run(r, n) == AfterName(r, n)
    ensures Run(r, n + [c]) == AfterName(r, n + [c])
  {
    RunConcat(r, n, [c]);
    RunOne(AfterName(r, n), c);
    NameStep(AfterName(r, n), c);
    NameOneMore(n, c);
    EmitMerge(r.log, FieldName, n, [c]);
  }

  lemma {:induction false} RunName(r: Progress, n: Text)
    requires Room(r, |n|) && AtLine(r.p) && IsName(n)
    ensures Run(r, n) == AfterName(r, n)
    decreases |n|
  {
    var front, c := n[..|n| - 1], n[|n| - 1];
    assert n == front + [c];
    if front == [] {
      RunOne(r, c);
      NameStart(r, c);
    } else {
      RunName(r, front);
      RunNameMore(r, front, c);
    }
  }

  lemma {:induction false} ColonStep(r: Progress)
    requires Room(r, 1) && r.p.state.Field?
    ensures StepOn(r, ':') == Progress(r.p.(state := DiscardWs, nread := r.p.nread + 1), r.log, false)
  {
  }

  lemma {:induction false} BlankStep(r: Progress)
    requires Room(r, 1) && r.p.state.DiscardWs?
    ensures StepOn(r, SPACE) == Progress(r.p.(nread := r.p.nread + 1), r.log, false)
  {
  }

  lemma {:induction false} RunColon(r: Progress)
    requires Room(r, 2) && r.p.state.Field?
    ensures Run(r, ": ") == Progress(r.p.(state := DiscardWs, nread := r.p.nread + 2), r.log, false)
  {
    HttpBodies.RunTwo(r, ':', SPACE);
    ColonStep(r);
    BlankStep(StepOn(r, ':'));
  }

  // ---------------------------------------------------------------- values

  /** The parser in the middle of a value of some header other than a length. */
  predicate InPlainValue(r: Progress, q: Progress, v: Text) {
    && q.Going() && q.p.state.Value? && Harmless(q.p.headerState) && !q.p.headerState.ContentLength?
    && q.p == r.p.(state := Value, headerState := q.p.headerState, index := q.p.index, nread := r.p.nread + |v|)
    && q.log == Emit(r.log, Data(FieldValue, v))
  }

  lemma {:induction false} ValueStart(r: Progress, c: Byte)
    requires Room(r, 1) && r.p.state.DiscardWs? && c != SPACE && c != TAB && c != CR && c != LF
    requires !r.p.headerState.ContentLength? && !r.p.headerState.TransferEncoding? && !r.p.headerState.Upgrade?
    ensures InPlainValue(r, StepOn(r, c), [c])
  {
    EmitOne(r.log, Data(FieldValue, [c]));
  }

  lemma {:induction false} HarmlessStays(hs: HeaderState, index: nat, c: Byte)
    requires Harmless(hs) && !hs.ContentLength?
    ensures Harmless(NextOfValue(hs, index, c).0) && !NextOfValue(hs, index, c).0.ContentLength?
  {
  }

  lemma {:induction false} ValueStep(r: Progress, q: Progress, v: Text, c: Byte)
    requires Room(r, |v| + 1) && InPlainValue(r, q, v) && c != CR && c != LF
    ensures InPlainValue(r, StepOn(q, c), v + [c])
  {
    HarmlessStays(q.p.headerState, q.p.index, c);
    ValueSwitch(q.p, c);
    EmitOne(q.log, Data(FieldValue, [c]));
    EmitMerge(r.log, FieldValue, v, [c]);
  }

  /** A byte of a value that matters to nothing. */
  lemma {:induction false} ValueSwitch(p: HttpMachine.Parser, c: Byte)
    requires p.state.Value? && !p.headerState.ContentLength? && p.nread < MAX_HEADER_SIZE && c != CR && c != LF
    ensures var m := NextOfValue(p.headerState, p.index, c);
            Step(p, c) == Stepped(p.(headerState := m.0, index := m.1, nread := p.nread + 1), [Data(FieldValue, [c])], false)
  {
  }

  lemma {:induction false} RunPlainValue(r: Progress, v: Text)
    requires Room(r, |v|) && r.p.state.DiscardWs? && IsValue(v)
    requires !r.p.headerState.ContentLength? && !r.p.headerState.TransferEncoding? && !r.p.headerState.Upgrade?
    ensures InPlainValue(r, Run(r, v), v)
    decreases |v|
  {
    var front, c := v[..|v| - 1], v[|v| - 1];
    assert v == front + [c];
    if front == [] {
      RunOne(r, c);
      ValueStart(r, c);
    } else {
      RunPlainValue(r, front);
      ValueStep(r, Run(r, front), front, c);
    }
  }

  /** The parser after the digits of a length. */
  function AfterLength(r: Progress, v: Text): Progress
    requires AllDigits(v)
  {
    Progress(r.p.(state := Value, index := 0, contentLength := DecimalValue(v), nread := r.p.nread + |v|),
             Emit(r.log, Data(FieldValue, v)), false)
  }

  lemma {:induction false} LengthStart(r: Progress, c: Byte)
    requires Room(r, 1) && r.p.state.DiscardWs? && r.p.headerState.ContentLength? && IsDigit(c)
    ensures StepOn(r, c) == AfterLength(r, [c])
  {
    OneDigit(c);
    EmitOne(r.log, Data(FieldValue, [c]));
  }

  lemma {:induction false} LengthDigit(q: Progress, c: Byte)
    requires Room(q, 1) && q.p.state.Value? && q.p.headerState.ContentLength? && IsDigit(c)
    requires q.p.contentLength * 10 + DigitValue(c) <= ULLONG_MAX - 10
    ensures StepOn(q, c) ==
      Progress(q.p.(contentLength := q.p.contentLength * 10 + DigitValue(c), nread := q.p.nread + 1),
               Emit(q.log, Data(FieldValue, [c])), false)
  {
    EmitOne(q.log, Data(FieldValue, [c]));
  }

  lemma {:induction false} MoreDigits(v: Text, c: Byte)
    requires AllDigits(v) && IsDigit(c)
    ensures AllDigits(v + [c]) && DecimalValue(v + [c]) == 10 * DecimalValue(v) + DigitValue(c)
  {
    assert (v + [c])[..|v|] == v;
  }

  lemma {:induction false} LengthStep(r: Progress, v: Text, c: Byte)
    requires Room(r, |v| + 1) && r.p.headerState.ContentLength? && AllDigits(v) && IsDigit(c)
    requires DecimalValue(v) * 10 + DigitValue(c) <= ULLONG_MAX - 10
    ensures AllDigits(v + [c]) && StepOn(AfterLength(r, v), c) == AfterLength(r, v + [c])
  {
    MoreDigits(v, c);
    LengthDigit(AfterLength(r, v), c);
    EmitMerge(r.log, FieldValue, v, [c]);
  }

  lemma {:induction false} RunLength(r: Progress, v: Text)
    requires Room(r, |v|) && r.p.state.DiscardWs? && r.p.headerState.ContentLength?
    requires v != [] && AllDigits(v) && DecimalValue(v) <= ULLONG_MAX - 10
    ensures Run(r, v) == AfterLength(r, v)
    decreases |v|
  {
    var front, c := v[..|v| - 1], v[|v| - 1];
    assert v == front + [c];
    if front == [] {
      RunOne(r, c);
      LengthStart(r, c);
    } else {
      DigitsPrefix(v);
      RunLength(r, front);
      LengthStep(r, front, c);
    }
  }

  lemma {:induction false} ValueEnd(r: Progress)
    requires Room(r, 2) && r.p.state.Value?
    ensures Run(r, [CR, LF]) == Progress(r.p.(state := ValueLws, nread := r.p.nread + 2), r.log, false)
  {
    HttpBodies.RunTwo(r, CR, LF);
    var q := Progress(r.p.(state := HeaderAlmostDone, nread := r.p.nread + 1), r.log, false);
    ReturnInValue(r);
    FeedAfterLine(q);
  }

  lemma {:induction false} ReturnInValue(r: Progress)
    requires Room(r, 1) && r.p.state.Value?
    ensures StepOn(r, CR) == Progress(r.p.(state := HeaderAlmostDone, nread := r.p.nread + 1), r.log, false)
  {
  }

  lemma {:induction false} FeedAfterLine(r: Progress)
    requires Room(r, 1) && r.p.state.HeaderAlmostDone?
    ensures StepOn(r, LF) == Progress(r.p.(state := ValueLws, nread := r.p.nread + 1), r.log, false)
  {
  }

  /** The value of a header, of either kind. */
  lemma {:induction false} RunValue(r: Progress, h: Header, size: nat)
    requires Room(r, |h.1|) && r.p.state.DiscardWs? && IsHeader(h, size) && size <= ULLONG_MAX - 10
    requires r.p.headerState == NameState(h.0).0
    ensures var q := Run(r, h.1);
            && q.Going() && q.p.state.Value? && Harmless(q.p.headerState) && SameRequest(r.p, q.p) && q.p.flags == r.p.flags
            && q.p.contentLength == (if IsLength(h) then size else r.p.contentLength)
            && q.p.nread == r.p.nread + |h.1| && q.log == Emit(r.log, Data(FieldValue, h.1))
  {
    NamesRecognised(h.0);
    if IsLength(h) {
      RunLength(r, h.1);
    } else {
      RunPlainValue(r, h.1);
    }
  }

  /** A name, and the blank before its value. */
  lemma {:induction false} RunNameAndColon(r: Progress, n: Text)
    requires Room(r, |n| + 2) && AtLine(r.p) && IsName(n)
    ensures var q := Run(r, n + ": ");
            && q.Going() && q.p.state.DiscardWs? && q.p.headerState == NameState(n).0 && SameRequest(r.p, q.p)
            && q.p.contentLength == r.p.contentLength
            && q.p.nread == r.p.nread + |n| + 2 && q.log == Emit(r.log, Data(FieldName, n))
  {
    RunName(r, n);
    RunThen(r, n, AfterName(r, n), ": ");
    RunColon(AfterName(r, n));
  }

  /** A value and the end of its line. */
  lemma {:induction false} RunValueAndEnd(r: Progress, h: Header, size: nat)
    requires Room(r, |h.1| + 2) && r.p.state.DiscardWs? && IsHeader(h, size) && size <= ULLONG_MAX - 10
    requires r.p.headerState == NameState(h.0).0
    ensures var q := Run(r, h.1 + [CR, LF]);
            && q.Going() && AtLine(q.p) && SameRequest(r.p, q.p)
            && q.p.contentLength == (if IsLength(h) then size else r.p.contentLength)
            && q.p.nread == r.p.nread + |h.1| + 2 && q.log == Emit(r.log, Data(FieldValue, h.1))
  {
    RunValue(r, h, size);
    RunThen(r, h.1, Run(r, h.1), [CR, LF]);
    ValueEnd(Run(r, h.1));
  }

  /** The parser behind a header line of `n` bytes. */
  predicate HeaderRead(r: Progress, q: Progress, h: Header, size: nat, n: nat) {
    && q.Going() && AtLine(q.p) && SameRequest(r.p, q.p)
    && q.p.contentLength == (if IsLength(h) then size else r.p.contentLength)
    && q.p.nread == r.p.nread + n
    && q.log == Emit(Emit(r.log, Data(FieldName, h.0)), Data(FieldValue, h.1))
  }

  /** A header line reports its name and its value, and notes a length. */
  lemma {:induction false} RunHeader(r: Progress, h: Header, size: nat)
    requires Room(r, |HttpRequest.HeaderText(h)|) && AtLine(r.p) && IsHeader(h, size) && size <= ULLONG_MAX - 10
    ensures HeaderRead(r, Run(r, HttpRequest.HeaderText(h)), h, size, |HttpRequest.HeaderText(h)|)
  {
    var name, value: Text := h.0 + ": ", h.1 + [CR, LF];
    assert HttpRequest.HeaderText(h) == name + value;
    RunThen(r, name, Run(r, name), value);
    RunNameAndColon(r, h.0);
    RunNamed(r, Run(r, name), h, size);
  }

  lemma {:induction false} RunNamed(r: Progress, q: Progress, h: Header, size: nat)
    requires IsHeader(h, size) && size <= ULLONG_MAX - 10
    requires q.Going() && q.p.state.DiscardWs? && q.p.headerState == NameState(h.0).0 && SameRequest(r.p, q.p)
    requires q.p.contentLength == r.p.contentLength && q.log == Emit(r.log, Data(FieldName, h.0))
    requires q.p.nread == r.p.nread + |h.0| + 2 && Room(q, |h.1| + 2)
    ensures HeaderRead(r, Run(q, h.1 + [CR, LF]), h, size, |h.0| + |h.1| + 4)
  {
    RunValueAndEnd(q, h, size);
  }

  // ---------------------------------------------------------------- all headers

  /** Data of another kind is a new entry of the log. */
  lemma {:induction false} NewEntry(log: seq<Event>, e: Event)
    requires !EndsIn(log, e)
    ensures Emit(log, e) == log + [e]
  {
  }

  /** What a log holds before its headers: nothing that a header's name could join. */
  predicate BeforeHeaders(before: seq<Event>) {
    !EndsInKind(before, FieldName)
  }

  lemma {:induction false} LogOneMore(log: seq<Event>, before: seq<Event>, hs: seq<Header>, h: Header)
    requires BeforeHeaders(before) && log == before + HeaderEvents(hs)
    ensures Emit(Emit(log, Data(FieldName, h.0)), Data(FieldValue, h.1)) == before + HeaderEvents(hs + [h])
  {
    LogEnds(log, before, hs);
    NewEntry(log, Data(FieldName, h.0));
    NewEntry(log + [Data(FieldName, h.0)], Data(FieldValue, h.1));
    assert (hs + [h])[..|hs|] == hs;
    Concat3(before, HeaderEvents(hs), [Data(FieldName, h.0), Data(FieldValue, h.1)]);
  }

  lemma {:induction false} LogEnds(log: seq<Event>, before: seq<Event>, hs: seq<Header>)
    requires BeforeHeaders(before) && log == before + HeaderEvents(hs)
    ensures !EndsInKind(log, FieldName)
  {
    if hs != [] {
      assert HeaderEvents(hs)[|HeaderEvents(hs)| - 1] == Data(FieldValue, hs[|hs| - 1].1);
    } else {
      assert log == before;
    }
  }

  /** How much body the headers announce: what was announced `before` them, unless one of them tells. */
  predicate Announces(before: nat, p: HttpMachine.Parser, hs: seq<Header>, size: nat) {
    p.contentLength == if exists i :: 0 <= i < |hs| && IsLength(hs[i]) then size else before
  }

  lemma {:induction false} AnnouncesMore(before: nat, p: HttpMachine.Parser, q: HttpMachine.Parser, hs: seq<Header>, h: Header, size: nat)
    requires Announces(before, p, hs, size) && q.contentLength == if IsLength(h) then size else p.contentLength
    ensures Announces(before, q, hs + [h], size)
  {
    var more := hs + [h];
    assert more[|hs|] == h;
    if i :| 0 <= i < |hs| && IsLength(hs[i]) {
      assert more[i] == hs[i] && IsLength(more[i]);
    }
    if i :| 0 <= i < |more| && IsLength(more[i]) {
      assert i == |hs| || more[i] == hs[i];
    }
  }

  /** The parser between two header lines. */
  predicate AfterHeaders(r: Progress, q: Progress, before: seq<Event>, hs: seq<Header>, size: nat, n: nat) {
    && q.Going() && AtLine(q.p) && SameRequest(r.p, q.p) && Announces(r.p.contentLength, q.p, hs, size)
    && q.p.nread == r.p.nread + n && BeforeHeaders(before) && q.log == before + HeaderEvents(hs)
  }

  lemma {:induction false} RunHeaders(r: Progress, before: seq<Event>, hs: seq<Header>, size: nat)
    requires Room(r, |HttpRequest.HeadersText(hs)|) && AfterHeaders(r, r, before, [], size, 0)
    requires size <= ULLONG_MAX - 10 && forall i :: 0 <= i < |hs| ==> IsHeader(hs[i], size)
    ensures AfterHeaders(r, Run(r, HttpRequest.HeadersText(hs)), before, hs, size, |HttpRequest.HeadersText(hs)|)
    decreases |hs|
  {
    if hs != [] {
      var front, h := hs[..|hs| - 1], hs[|hs| - 1];
      RunHeaders(r, before, front, size);
      var a, b := HttpRequest.HeadersText(front), HttpRequest.HeaderText(h);
      assert hs == front + [h];
      RunThen(r, a, Run(r, a), b);
      OneMoreHeader(r, Run(r, a), before, front, h, size, |a|);
    }
  }

  lemma {:induction false} OneMoreHeader(
    r: Progress, q: Progress, before: seq<Event>, front: seq<Header>, h: Header, size: nat, n: nat)
    requires AfterHeaders(r, q, before, front, size, n) && Room(q, |HttpRequest.HeaderText(h)|)
    requires size <= ULLONG_MAX - 10 && IsHeader(h, size) && (forall i :: 0 <= i < |front| ==> IsHeader(front[i], size))
    ensures AfterHeaders(r, Run(q, HttpRequest.HeaderText(h)), before, front + [h], size, n + |HttpRequest.HeaderText(h)|)
  {
    RunHeader(q, h, size);
    LogOneMore(q.log, before, front, h);
    AnnouncesMore(r.p.contentLength, q.p, Run(q, HttpRequest.HeaderText(h)).p, front, h, size);
  }

  // ---------------------------------------------------------------- the end

  lemma {:induction false} ReturnAtLine(r: Progress)
    requires Room(r, 1) && AtLine(r.p)
    ensures StepOn(r, CR) ==
              Progress(r.p.(state := HeadersAlmostDone, flags := FlagsAtLine(r.p), nread := r.p.nread + 1), r.log, false)
  {
  }

  /** The line feed that ends the headers of a plain message. */
  lemma {:induction false} FeedAtEnd(r: Progress)
    requires Room(r, 1) && r.p.state.HeadersAlmostDone? && !r.p.flags.chunked && !r.p.flags.trailing && !r.p.flags.upgrade
    requires r.p.verb != CONNECT
    ensures var q := StepOn(r, LF);
            && q.Going() && q.p.verb == r.p.verb && q.p.major == r.p.major && q.p.minor == r.p.minor
            && q.p.contentLength == r.p.contentLength
            && (if r.p.contentLength == 0 || r.p.contentLength == ULLONG_MAX then
                  q.log == Emit(Emit(r.log, HeadersComplete), MessageComplete) && (q.p.state.StartReq? || q.p.state.Dead?)
                else q.p.state.BodyIdentity? && q.log == Emit(r.log, HeadersComplete))
  {
    EmitOne(r.log, HeadersComplete);
    EmitTwo(r.log, HeadersComplete, MessageComplete);
  }

  /** The empty line, and the body if one was announced. */
  lemma {:induction false} RunEnd(r: Progress, body: Text)
    requires Room(r, 2) && AtLine(r.p) && SameFraming(NO_FLAGS, r.p.flags) && r.p.verb != CONNECT && |body| < ULLONG_MAX
    requires if body == [] then r.p.contentLength == 0 || r.p.contentLength == ULLONG_MAX else r.p.contentLength == |body|
    ensures var q := Run(r, [CR, LF] + body);
            && q.Going() && q.p.verb == r.p.verb && q.p.major == r.p.major && q.p.minor == r.p.minor
            && (q.p.state.StartReq? || q.p.state.Dead?)
            && q.log == EndLog(r.log, body)
  {
    RunThen(r, [CR, LF], Run(r, [CR, LF]), body);
    HttpBodies.RunTwo(r, CR, LF);
    ReturnAtLine(r);
    var q := StepOn(r, CR);
    FeedAtEnd(q);
    var q2 := StepOn(q, LF);
    if body != [] {
      RunBody(q2, body);
      BodyEventsEmitted(q2, body);
    }
  }

  /** The log once the headers and the body are through. */
  function EndLog(log: seq<Event>, body: Text): seq<Event> {
    var done := Emit(log, HeadersComplete);
    Emit(if body == [] then done else Emit(done, Data(Body, body)), MessageComplete)
  }

  lemma {:induction false} EndLogAppends(log: seq<Event>, body: Text)
    ensures EndLog(log, body) == log + [HeadersComplete] + (if body == [] then [] else [Data(Body, body)]) + [MessageComplete]
  {
  }

  // ---------------------------------------------------------------- the whole request

  function HeadSize(m: Method, uri: Text, major: Text, minor: Text, hs: seq<Header>): nat {
    |HttpRequest.RequestText(MethodName(m), uri, VersionText(major, minor), hs, [])|
  }

  lemma {:induction false} RunRequestLine(r: Progress, m: Method, uri: Text, major: Text, minor: Text)
    requires r.p.state.StartReq? && Room(r, |HttpRequest.RequestLine(MethodName(m), uri, VersionText(major, minor))|)
    requires m != CONNECT && IsUrl(uri) && IsNumber(major) && major[0] != '0' && IsNumber(minor)
    ensures var line := HttpRequest.RequestLine(MethodName(m), uri, VersionText(major, minor));
            var q := Run(r, line);
            && q.Going() && q.p.state.FieldStart? && q.p.flags == NO_FLAGS && q.p.contentLength == ULLONG_MAX
            && q.p.verb == m && q.p.major == DecimalValue(major) && q.p.minor == DecimalValue(minor)
            && q.p.nread == r.p.nread + |line| && q.log == Emit(Emit(r.log, MessageBegin), Data(Url, uri))
  {
    var verb, version := MethodName(m) + [SPACE], VersionText(major, minor) + [CR, LF];
    assert HttpRequest.RequestLine(MethodName(m), uri, VersionText(major, minor)) == verb + uri + [SPACE] + version;
    UrlAccepted(uri);
    RunVerb(r, m);
    var r1 := Run(r, verb);
    RunThen(r, verb, r1, uri);
    RunUrl(r1, uri);
    var r2 := Run(r1, uri);
    RunThen(r, verb + uri, r2, [SPACE]);
    RunOne(r2, SPACE);
    UrlBlank(r2);
    var r3 := Run(r2, [SPACE]);
    RunThen(r, verb + uri + [SPACE], r3, version);
    RunVersion(r3, major, minor);
  }

  /** The request line and the headers. */
  lemma {:induction false} RunHead(
    r: Progress, m: Method, uri: Text, major: Text, minor: Text, hs: seq<Header>, size: nat, line: Text, head: Text)
    requires r.p.state.StartReq? && line == HttpRequest.RequestLine(MethodName(m), uri, VersionText(major, minor))
    requires head == HttpRequest.HeadersText(hs) && Room(r, |line| + |head|)
    requires m != CONNECT && IsUrl(uri) && IsNumber(major) && major[0] != '0' && IsNumber(minor)
    requires size <= ULLONG_MAX - 10 && forall i :: 0 <= i < |hs| ==> IsHeader(hs[i], size)
    ensures var q := Run(r, line + head);
            && q.Going() && AtLine(q.p) && SameFraming(NO_FLAGS, q.p.flags) && q.p.verb == m && q.p.major == DecimalValue(major) && q.p.minor == DecimalValue(minor)
            && Announces(ULLONG_MAX, q.p, hs, size) && q.p.nread == r.p.nread + |line| + |head| && q.log == r.log + [MessageBegin, Data(Url, uri)] + HeaderEvents(hs)
  {
    RunRequestLine(r, m, uri, major, minor);
    var r1 := Run(r, line);
    var before := r.log + [MessageBegin, Data(Url, uri)];
    assert r1.log == before + HeaderEvents([]);
    RunThen(r, line, r1, head);
    RunHeaders(r1, before, hs, size);
  }

  /**
   * A printed request, read from between messages, gives back its method, version, url, headers and body, and leaves
   * the parser between messages again.
   */
  lemma {:induction false} RunRequest(r: Progress, m: Method, uri: Text, major: Text, minor: Text, hs: seq<Header>, body: Text)
    requires r.p.state.StartReq? && IsRequest(m, uri, major, minor, hs, body) && Room(r, HeadSize(m, uri, major, minor, hs))
    ensures var q := Run(r, HttpRequest.RequestText(MethodName(m), uri, VersionText(major, minor), hs, body));
            && q.Going() && q.p.verb == m && q.p.major == DecimalValue(major) && q.p.minor == DecimalValue(minor)
            && (q.p.state.StartReq? || q.p.state.Dead?)
            && q.log == r.log + RequestEvents(uri, hs, body)
  {
    var line := HttpRequest.RequestLine(MethodName(m), uri, VersionText(major, minor));
    var head := HttpRequest.HeadersText(hs);
    RequestSplit(m, uri, major, minor, hs, body, line, head);
    RunHead(r, m, uri, major, minor, hs, |body|, line, head);
    var r2 := Run(r, line + head);
    RunThen(r, line + head, r2, [CR, LF] + body);
    RunEnd(r2, body);
    EndLogAppends(r2.log, body);
    RequestEventsSplit(r.log, uri, hs, body);
  }

  lemma {:induction false} RequestSplit(
    m: Method, uri: Text, major: Text, minor: Text, hs: seq<Header>, body: Text, line: Text, head: Text)
    requires line == HttpRequest.RequestLine(MethodName(m), uri, VersionText(major, minor)) && head == HttpRequest.HeadersText(hs)
    ensures HttpRequest.RequestText(MethodName(m), uri, VersionText(major, minor), hs, body) == line + head + ([CR, LF] + body)
    ensures HeadSize(m, uri, major, minor, hs) == |line| + |head| + 2
  {
  }

  lemma {:induction false} RequestEventsSplit(start: seq<Event>, uri: Text, hs: seq<Header>, body: Text)
    ensures start + RequestEvents(uri, hs, body) ==
              start + [MessageBegin, Data(Url, uri)] + HeaderEvents(hs) + [HeadersComplete]
              + (if body == [] then [] else [Data(Body, body)]) + [MessageComplete]
  {
  }

  /** The benchmark's request, as printed, fed to the parser in any buffers: its callbacks are those of the request. */
  method Deliver(parser: HttpParser.Parser, parts: seq<Text>, ghost m: Method, ghost uri: Text, ghost major: Text, ghost minor: Text,
                 ghost hs: seq<Header>, ghost body: Text)
    requires parser.Valid() && parser.Now() == INIT && parser.log == []
    requires IsRequest(m, uri, major, minor, hs, body) && HeadSize(m, uri, major, minor, hs) <= MAX_HEADER_SIZE
    requires forall i :: 0 <= i < |parts| ==> parts[i] != []
    requires HttpStream.Flat(parts) == HttpRequest.RequestText(MethodName(m), uri, VersionText(major, minor), hs, body)
    modifies parser
    ensures parser.errno == OK && parser.verb == m && parser.major == DecimalValue(major) && parser.minor == DecimalValue(minor)
    ensures parser.log == RequestEvents(uri, hs, body)
  {
    RunRequest(Progress(INIT, [], false), m, uri, major, minor, hs, body);
    HttpStream.FeedAll(parser, parts);
    assert [] + RequestEvents(uri, hs, body) == RequestEvents(uri, hs, body);
  }
}
