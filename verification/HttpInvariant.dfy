/** What holds of the fields, and of the callbacks, in every state the request parser can reach. */
module HttpInvariant {
  import opened Bytes
  import opened HttpSyntax
  import opened HttpMachine

  /** The length of the literal a matcher compares with; 0 when it compares with none. */
  function WordLength(hs: HeaderState): nat {
    match hs
    case MatchingConnection => |"connection"|
    case MatchingProxyConnection => |"proxy-connection"|
    case MatchingContentLength => |"content-length"|
    case MatchingTransferEncoding => |"transfer-encoding"|
    case MatchingUpgrade => |"upgrade"|
    case MatchingChunked => |"chunked"|
    case MatchingKeepAlive => |"keep-alive"|
    case MatchingClose => |"close"|
    case _ => 0
  }

  /** The states a matcher can be in inside a header name, and inside a value. */
  predicate InName(hs: HeaderState) {
    !(hs.MatchingChunked? || hs.MatchingKeepAlive? || hs.MatchingClose? || hs.Chunked? || hs.KeepAlive? || hs.Close?)
  }

  predicate InValue(hs: HeaderState) {
    hs.General? || hs.ContentLength? || hs.MatchingChunked? || hs.MatchingKeepAlive? || hs.MatchingClose?
    || hs.Chunked? || hs.KeepAlive? || hs.Close?
  }

  /** The matcher's index stays inside its literal. */
  predicate IndexFits(hs: HeaderState, index: nat) {
    && (WordLength(hs) > 0 ==> index + 1 < WordLength(hs))
    && (hs.HC? ==> index == 0) && (hs.HCO? ==> index == 1) && (hs.HCON? ==> index == 2)
    && index < 256
  }

  predicate InChunk(s: State) {
    s.ChunkSizeStart? || s.ChunkSize? || s.ChunkParameters? || s.ChunkSizeAlmostDone?
    || s.ChunkData? || s.ChunkDataAlmostDone? || s.ChunkDataDone?
  }

  /** What the parser asserts of itself in the state it is in. */
  ghost predicate StateFits(p: Parser) {
    match p.state
    case ReqMethod => 1 <= p.index <= |MethodName(p.verb)|
    case Field => InName(p.headerState) && IndexFits(p.headerState, p.index)
    case Value =>
      && InValue(p.headerState) && IndexFits(p.headerState, p.index)
      && (p.headerState.ContentLength? ==> p.contentLength < ULLONG_MAX)
    case ChunkSizeStart => p.nread == 0
    case ChunkSize => p.contentLength < ULLONG_MAX
    case ChunkParameters => p.contentLength < ULLONG_MAX
    case ChunkSizeAlmostDone => p.contentLength < ULLONG_MAX
    case ChunkData => 0 < p.contentLength < ULLONG_MAX
    case BodyIdentity => 0 < p.contentLength < ULLONG_MAX
    case ChunkDataAlmostDone => p.contentLength == 0
    case ValueStart => false
    case HeadersDone => false
    case MessageDone => false
    case _ => true
  }

  /** The fields stay inside their C types, and chunks are read only in chunked messages. */
  ghost predicate FieldsFit(p: Parser) {
    && p.nread <= MAX_HEADER_SIZE && p.major <= 999 && p.minor <= 999
    && p.contentLength <= ULLONG_MAX
    && (InChunk(p.state) || p.flags.trailing ==> p.flags.chunked)
  }

  ghost predicate Sound(p: Parser) {
    FieldsFit(p) && StateFits(p)
  }

  lemma {:induction false} MatchWordFits(word: Text, here: HeaderState, whole: HeaderState, index: nat, c: Byte)
    requires WordLength(here) == |word| && WordLength(whole) == 0 && !whole.HC? && !whole.HCO? && !whole.HCON?
    requires IndexFits(here, index) && 5 <= |word| < 20 && c != NUL
    ensures var m := MatchWord(word, here, whole, index, c); IndexFits(m.0, m.1)
  {
  }

  lemma {:induction false} NameFits(hs: HeaderState, index: nat, ch: Byte, c: Byte)
    requires InName(hs) && IndexFits(hs, index) && c != NUL
    ensures var m := NextOfName(hs, index, ch, c); InName(m.0) && IndexFits(m.0, m.1)
  {
    match hs
    case MatchingConnection => MatchWordFits("connection", hs, Connection, index, c);
    case MatchingProxyConnection => MatchWordFits("proxy-connection", hs, Connection, index, c);
    case MatchingContentLength => MatchWordFits("content-length", hs, ContentLength, index, c);
    case MatchingTransferEncoding => MatchWordFits("transfer-encoding", hs, TransferEncoding, index, c);
    case MatchingUpgrade => MatchWordFits("upgrade", hs, Upgrade, index, c);
    case _ =>
  }

  lemma {:induction false} ValueFits(hs: HeaderState, index: nat, ch: Byte)
    requires InValue(hs) && !hs.ContentLength? && IndexFits(hs, index)
    ensures var m := NextOfValue(hs, index, ch); InValue(m.0) && !m.0.ContentLength? && IndexFits(m.0, m.1)
  {
    match hs
    case MatchingChunked => MatchWordFits("chunked", hs, Chunked, index, Lower(ch));
    case MatchingKeepAlive => MatchWordFits("keep-alive", hs, KeepAlive, index, Lower(ch));
    case MatchingClose => MatchWordFits("close", hs, Close, index, Lower(ch));
    case _ =>
  }

  /** A guess is replaced only by a longer guess, so the method matcher stays inside its literal too. */
  lemma {:induction false} GuessFits(m: Method, index: nat, ch: Byte)
    requires NextGuess(m, index, ch).Some?
    ensures index + 1 <= |MethodName(NextGuess(m, index, ch).value)|
  {
  }

  lemma {:induction false} MethodKeepsSound(p: Parser, ch: Byte)
    requires FieldsFit(p) && 1 <= p.index <= |MethodName(p.verb)| && p.state.ReqMethod? && MethodByte(p, ch).p.errno == OK == p.errno
    ensures Sound(MethodByte(p, ch).p)
  {
    var m := NextGuess(p.verb, p.index, ch);
    if m.Some? {
      GuessFits(p.verb, p.index, ch);
    }
  }

  predicate InRequest(s: State) {
    s.Dead? || s.StartReq? || s.ReqMethod? || s.SpacesBeforeUrl? || s.InUrl()
  }

  lemma {:induction false} UrlKeepsSound(p: Parser, s: State, ch: Byte)
    requires FieldsFit(p) && p.errno == OK
    ensures UrlByte(p, s, ch).p.errno == OK ==> Sound(UrlByte(p, s, ch).p)
  {
  }

  lemma {:induction false} RequestKeepsSound(p: Parser, ch: Byte)
    requires FieldsFit(p) && StateFits(p) && p.errno == OK == RequestByte(p, ch).p.errno && InRequest(p.state)
    ensures Sound(RequestByte(p, ch).p)
  {
    if p.state.ReqMethod? {
      MethodKeepsSound(p, ch);
    } else if p.state.InUrl() {
      UrlKeepsSound(p, p.state, ch);
    } else if p.state.SpacesBeforeUrl? {
      UrlKeepsSound(p, UrlStateOf(p), ch);
    }
  }

  predicate InVersion(s: State) {
    s.HttpStart? || s.HttpH? || s.HttpHT? || s.HttpHTT? || s.HttpHTTP?
    || s.FirstMajor? || s.Major? || s.FirstMinor? || s.Minor? || s.LineAlmostDone?
  }

  lemma {:induction false} VersionKeepsSound(p: Parser, ch: Byte)
    requires FieldsFit(p) && p.errno == OK == VersionByte(p, ch).p.errno && InVersion(p.state)
    ensures Sound(VersionByte(p, ch).p)
  {
  }

  lemma {:induction false} HeadersEndKeepsSound(p: Parser)
    requires FieldsFit(p) && p.errno == OK
    ensures Sound(HeadersEnd(p).p) && HeadersEnd(p).p.errno == OK
  {
  }

  lemma {:induction false} FieldStartKeepsSound(p: Parser, ch: Byte)
    requires FieldsFit(p) && p.errno == OK == FieldStartByte(p, ch).p.errno && !InChunk(p.state)
    ensures Sound(FieldStartByte(p, ch).p)
  {
    HeadersEndKeepsSound(p);
  }

  lemma {:induction false} ValueStartKeepsSound(p: Parser, ch: Byte)
    requires FieldsFit(p) && p.errno == OK == ValueStartByte(p, ch).p.errno && !InChunk(p.state)
    ensures Sound(ValueStartByte(p, ch).p)
  {
  }

  lemma {:induction false} LengthKeepsSound(p: Parser, ch: Byte)
    requires Sound(p) && p.errno == OK == ValueByte(p, ch).p.errno && p.state.Value? && p.headerState.ContentLength?
    ensures Sound(ValueByte(p, ch).p)
  {
  }

  lemma {:induction false} ValueKeepsSound(p: Parser, ch: Byte)
    requires Sound(p) && p.errno == OK == ValueByte(p, ch).p.errno && p.state.Value?
    ensures Sound(ValueByte(p, ch).p)
  {
    if p.headerState.ContentLength? {
      LengthKeepsSound(p, ch);
    } else {
      ValueFits(p.headerState, p.index, ch);
    }
  }

  predicate InHeaders(s: State) {
    s.FieldStart? || s.Field? || s.DiscardWs? || s.DiscardWsAlmostDone? || s.DiscardLws?
    || s.Value? || s.ValueLws? || s.HeaderAlmostDone? || s.HeadersAlmostDone?
  }

  lemma {:induction false} HeaderKeepsSound(p: Parser, ch: Byte)
    requires Sound(p) && p.errno == OK == HeaderByte(p, ch).p.errno && InHeaders(p.state)
    ensures Sound(HeaderByte(p, ch).p)
  {
    match p.state
    case FieldStart => FieldStartKeepsSound(p, ch);
    case Field => FieldKeepsSound(p, ch);
    case DiscardWs => if HeaderByte(p, ch) == ValueStartByte(p, ch) { ValueStartKeepsSound(p, ch); }
    case DiscardLws => if ch != SPACE && ch != TAB { FieldStartKeepsSound(p.(state := FieldStart), ch); }
    case Value => ValueKeepsSound(p, ch);
    case ValueLws => AfterLineKeepsSound(p, ch);
    case HeadersAlmostDone => HeadersEndKeepsSound(p);
    case _ =>
  }

  lemma {:induction false} FieldKeepsSound(p: Parser, ch: Byte)
    requires Sound(p) && p.errno == OK == FieldByte(p, ch).p.errno && p.state.Field?
    ensures Sound(FieldByte(p, ch).p)
  {
    if Token(ch) != NUL {
      NameFits(p.headerState, p.index, ch, Token(ch));
    }
  }

  lemma {:induction false} AfterLineKeepsSound(p: Parser, ch: Byte)
    requires Sound(p) && p.errno == OK == HeaderByte(p, ch).p.errno && p.state.ValueLws?
    ensures Sound(HeaderByte(p, ch).p)
  {
    if ch == SPACE || ch == TAB {
      ValueStartKeepsSound(p.(state := ValueStart), ch);
    } else {
      FieldStartKeepsSound(p.(flags := FinishedHeader(p), state := FieldStart), ch);
    }
  }

  lemma {:induction false} ChunkKeepsSound(p: Parser, ch: Byte)
    requires FieldsFit(p) && (p.state.ChunkSizeStart? || StateFits(p)) && p.errno == OK == ChunkByte(p, ch).p.errno && InChunk(p.state)
    ensures Sound(ChunkByte(p, ch).p)
  {
  }

  lemma {:induction false} BodyKeepsSound(p: Parser, ch: Byte)
    requires Sound(p) && p.state.BodyIdentity?
    ensures Sound(BodyByte(p, ch).p)
  {
  }

  /** The switch goes by groups of states. */
  lemma {:induction false} SwitchByGroup(p: Parser, ch: Byte)
    requires StateFits(p) || p.state.ChunkSizeStart?
    ensures InRequest(p.state) ==> Switch(p, ch) == RequestByte(p, ch)
    ensures InVersion(p.state) ==> Switch(p, ch) == VersionByte(p, ch)
    ensures InHeaders(p.state) ==> Switch(p, ch) == HeaderByte(p, ch)
    ensures InChunk(p.state) ==> Switch(p, ch) == ChunkByte(p, ch)
    ensures p.state.BodyIdentity? ==> Switch(p, ch) == BodyByte(p, ch)
    ensures InRequest(p.state) || InVersion(p.state) || InHeaders(p.state) || InChunk(p.state) || p.state.BodyIdentity?
  {
  }

  /** The fields after a byte of the headers is counted. */
  function Counted(p: Parser): Parser {
    if p.state.IsHeader() then p.(nread := p.nread + 1) else p
  }

  /** Every byte keeps the invariant. */
  lemma {:induction false} StepKeepsSound(p: Parser, ch: Byte)
    requires Sound(p) && p.errno == OK == Step(p, ch).p.errno
    ensures Sound(Step(p, ch).p)
  {
    var q := Counted(p);
    assert Step(p, ch) == Switch(q, ch) && FieldsFit(q);
    assert StateFits(q) || q.state.ChunkSizeStart?;
    SwitchByGroup(q, ch);
    if InRequest(q.state) {
      RequestKeepsSound(q, ch);
    } else if InVersion(q.state) {
      VersionKeepsSound(q, ch);
    } else if InHeaders(q.state) {
      HeaderKeepsSound(q, ch);
    } else if InChunk(q.state) {
      ChunkKeepsSound(q, ch);
    } else {
      BodyKeepsSound(q, ch);
    }
  }

  // ---------------------------------------------------------------- what was reported last

  /** The text a state is in the middle of. */
  function KindOf(s: State): Option<Kind> {
    if s.InUrl() then Some(Url)
    else if s.Field? then Some(FieldName)
    else if s.Value? then Some(FieldValue)
    else None
  }

  /** In the middle of a text, the log ends with the part of it already seen. */
  ghost predicate LogFits(p: Parser, log: seq<Event>) {
    KindOf(p.state).Some? ==> EndsInKind(log, KindOf(p.state).value)
  }

  /** A run that is sound and goes on. */
  ghost predicate Healthy(r: Progress) {
    r.Going() && Sound(r.p) && LogFits(r.p, r.log)
  }

  /** A step that ends in the middle of a text has just reported some of it. */
  ghost predicate EmitsWhatItIsIn(s: Stepped) {
    s.p.errno == OK && KindOf(s.p.state).Some? ==>
      s.out != [] && s.out[|s.out| - 1].Data? && s.out[|s.out| - 1].kind == KindOf(s.p.state).value
  }

  lemma {:induction false} RequestEmits(p: Parser, ch: Byte)
    requires InRequest(p.state)
    ensures EmitsWhatItIsIn(RequestByte(p, ch))
  {
  }

  lemma {:induction false} VersionEmits(p: Parser, ch: Byte)
    requires InVersion(p.state)
    ensures EmitsWhatItIsIn(VersionByte(p, ch))
  {
  }

  lemma {:induction false} FieldStartEmits(p: Parser, ch: Byte)
    requires !p.state.Field? && !p.state.Value? && !p.state.InUrl()
    ensures EmitsWhatItIsIn(FieldStartByte(p, ch)) && EmitsWhatItIsIn(EmptyValue(FieldStartByte(p, ch)))
  {
  }

  lemma {:induction false} ValueStartEmits(p: Parser, ch: Byte)
    ensures EmitsWhatItIsIn(ValueStartByte(p, ch))
  {
  }

  lemma {:induction false} HeaderEmits(p: Parser, ch: Byte)
    requires InHeaders(p.state)
    ensures EmitsWhatItIsIn(HeaderByte(p, ch))
  {
    match p.state
    case FieldStart => FieldStartEmits(p, ch);
    case DiscardLws => FieldStartEmits(p.(state := FieldStart), ch);
    case DiscardWs => ValueStartEmits(p, ch);
    case ValueLws =>
      ValueStartEmits(p.(state := ValueStart), ch);
      FieldStartEmits(p.(flags := FinishedHeader(p), state := FieldStart), ch);
    case _ =>
  }

  lemma {:induction false} ChunkEmits(p: Parser, ch: Byte)
    requires InChunk(p.state)
    ensures EmitsWhatItIsIn(ChunkByte(p, ch))
  {
  }

  lemma {:induction false} BodyEmits(p: Parser, ch: Byte)
    requires p.state.BodyIdentity?
    ensures EmitsWhatItIsIn(BodyByte(p, ch))
  {
  }

  lemma {:induction false} SwitchEmits(p: Parser, ch: Byte)
    requires StateFits(p) || p.state.ChunkSizeStart?
    ensures EmitsWhatItIsIn(Switch(p, ch))
  {
    SwitchByGroup(p, ch);
    if InRequest(p.state) {
      RequestEmits(p, ch);
    } else if InVersion(p.state) {
      VersionEmits(p, ch);
    } else if InHeaders(p.state) {
      HeaderEmits(p, ch);
    } else if InChunk(p.state) {
      ChunkEmits(p, ch);
    } else {
      BodyEmits(p, ch);
    }
  }

  lemma {:induction false} StepEmits(p: Parser, ch: Byte)
    requires Sound(p)
    ensures EmitsWhatItIsIn(Step(p, ch))
  {
    var q := Counted(p);
    assert StateFits(q) || q.state.ChunkSizeStart?;
    SwitchEmits(q, ch);
    assert Step(p, ch) == Switch(q, ch) || Step(p, ch) == Fail(q, HeaderOverflow);
  }

  lemma {:induction false} EmitEndsIn(log: seq<Event>, es: seq<Event>)
    requires es != [] && es[|es| - 1].Data?
    ensures EndsInKind(EmitAll(log, es), es[|es| - 1].kind)
  {
  }

  /** Every byte of a healthy run leaves it healthy, or stops it. */
  lemma {:induction false} StepStaysHealthy(r: Progress, ch: Byte)
    requires Healthy(r) && StepOn(r, ch).Going()
    ensures Healthy(StepOn(r, ch))
  {
    StepKeepsSound(r.p, ch);
    StepEmits(r.p, ch);
    var s := Step(r.p, ch);
    if KindOf(s.p.state).Some? {
      EmitEndsIn(r.log, s.out);
    }
  }

  /** So does every text: the reachable runs are healthy. */
  lemma {:induction false} RunStaysHealthy(r: Progress, d: Text)
    requires Healthy(r) && Run(r, d).Going()
    ensures Healthy(Run(r, d))
    decreases |d|
  {
    if d != [] {
      var front := d[..|d| - 1];
      assert Run(r, front).Going();
      RunStaysHealthy(r, front);
      StepStaysHealthy(Run(r, front), d[|d| - 1]);
    }
  }
}
