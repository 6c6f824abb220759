/** The request parser byte by byte: no marks, no buffers, every byte of a text reported as it is seen. */
module HttpMachine {
  import opened Bytes
  import opened HttpSyntax

  const MAX_HEADER_SIZE := 80 * 1024
  const ULLONG_MAX := 0xFFFF_FFFF_FFFF_FFFF

  datatype State =
    | Dead | StartReq | ReqMethod | SpacesBeforeUrl
    | Schema | SchemaSlash | SchemaSlashSlash | ServerStart | Server | ServerWithAt
    | Path | QueryStart | Query | FragmentStart | Fragment
    | HttpStart | HttpH | HttpHT | HttpHTT | HttpHTTP | FirstMajor | Major | FirstMinor | Minor | LineAlmostDone
    | FieldStart | Field | DiscardWs | DiscardWsAlmostDone | DiscardLws | ValueStart | Value | ValueLws
    | HeaderAlmostDone | ChunkSizeStart | ChunkSize | ChunkParameters | ChunkSizeAlmostDone
    | HeadersAlmostDone | HeadersDone
    | ChunkData | ChunkDataAlmostDone | ChunkDataDone | BodyIdentity | MessageDone
  {
    /** Bytes of these states count towards the header size. */
    predicate IsHeader() {
      !(ChunkData? || ChunkDataAlmostDone? || ChunkDataDone? || BodyIdentity? || MessageDone?)
    }

    predicate InUrl() {
      Schema? || SchemaSlash? || SchemaSlashSlash? || ServerStart? || Server? || ServerWithAt?
      || Path? || QueryStart? || Query? || FragmentStart? || Fragment?
    }
  }

  datatype Errno =
    | OK | InvalidEofState | HeaderOverflow | ClosedConnection | InvalidVersion | InvalidMethod | InvalidUrl
    | LfExpected | InvalidHeaderToken | InvalidContentLength | InvalidChunkSize | InvalidConstant | Strict

  datatype Flags = Flags(chunked: bool, keepAlive: bool, close: bool, trailing: bool, upgrade: bool)

  const NO_FLAGS := Flags(false, false, false, false, false)

  /** The fields of a parser. */
  datatype Parser = Parser(
    state: State, headerState: HeaderState, index: nat, nread: nat, contentLength: nat, flags: Flags,
    major: nat, minor: nat, verb: Method, errno: Errno, upgrade: bool)

  /** A parser just made. */
  const INIT := Parser(StartReq, General, 0, 0, 0, NO_FLAGS, 0, 0, DELETE, OK, false)

  // ---------------------------------------------------------------- callbacks

  datatype Kind = Url | FieldName | FieldValue | Body

  datatype Event = MessageBegin | Data(kind: Kind, bytes: Text) | HeadersComplete | MessageComplete

  /** A log with one more callback; data following data of its kind is joined to it. */
  function Emit(log: seq<Event>, e: Event): seq<Event> {
    if EndsIn(log, e) then log[..|log| - 1] + [Data(e.kind, log[|log| - 1].bytes + e.bytes)] else log + [e]
  }

  predicate EndsIn(log: seq<Event>, e: Event) {
    e.Data? && EndsInKind(log, e.kind)
  }

  predicate EndsInKind(log: seq<Event>, k: Kind) {
    log != [] && log[|log| - 1].Data? && log[|log| - 1].kind == k
  }

  function EmitAll(log: seq<Event>, es: seq<Event>): seq<Event>
    decreases |es|
  {
    if es == [] then log else Emit(EmitAll(log, es[..|es| - 1]), es[|es| - 1])
  }

  // ---------------------------------------------------------------- one byte

  /** What one byte does: the new fields, the callbacks, and whether the parser leaves the protocol here. */
  datatype Stepped = Stepped(p: Parser, out: seq<Event>, leave: bool)

  function Quiet(p: Parser): Stepped {
    Stepped(p, [], false)
  }

  function Fail(p: Parser, e: Errno): Stepped {
    Stepped(p.(errno := e), [], false)
  }

  /** Whether the connection outlives this message. */
  predicate ShouldKeepAlive(p: Parser) {
    if p.major > 0 && p.minor > 0 then !p.flags.close else p.flags.keepAlive
  }

  function NewMessage(p: Parser): State {
    if ShouldKeepAlive(p) then StartReq else Dead
  }

  function NextInUrl(s: State, ch: Byte): State {
    if ch == SPACE || ch == CR || ch == LF || ch == TAB || ch == FORM_FEED then Dead
    else
      match s
      case SpacesBeforeUrl => if ch == '/' || ch == '*' then Path else if IsAlpha(ch) then Schema else Dead
      case Schema => if IsAlpha(ch) then s else if ch == ':' then SchemaSlash else Dead
      case SchemaSlash => if ch == '/' then SchemaSlashSlash else Dead
      case SchemaSlashSlash => if ch == '/' then ServerStart else Dead
      case ServerWithAt => if ch == '@' then Dead else NextInServer(ch)
      case ServerStart => NextInServer(ch)
      case Server => NextInServer(ch)
      case Path => if IsUrlChar(ch) then s else if ch == '?' then QueryStart else if ch == '#' then FragmentStart else Dead
      case QueryStart => NextInQuery(ch)
      case Query => NextInQuery(ch)
      case FragmentStart => if IsUrlChar(ch) || ch == '?' then Fragment else if ch == '#' then s else Dead
      case Fragment => if IsUrlChar(ch) || ch == '?' || ch == '#' then s else Dead
      case _ => Dead
  }

  function NextInServer(ch: Byte): State {
    if ch == '/' then Path
    else if ch == '?' then QueryStart
    else if ch == '@' then ServerWithAt
    else if IsUserinfoChar(ch) || ch == '[' || ch == ']' then Server
    else Dead
  }

  function NextInQuery(ch: Byte): State {
    if IsUrlChar(ch) || ch == '?' then Query else if ch == '#' then FragmentStart else Dead
  }

  function UrlByte(p: Parser, s: State, ch: Byte): Stepped {
    var next := NextInUrl(s, ch);
    if next == Dead then Fail(p.(state := Dead), InvalidUrl)
    else Stepped(p.(state := next), [Data(Url, [ch])], false)
  }

  /** Where the url automaton is before a byte. */
  function UrlStateOf(p: Parser): State {
    if p.state.SpacesBeforeUrl? && p.verb == CONNECT then ServerStart else p.state
  }

  /** A byte inside the url, or the blank that ends it. */
  function InUrlByte(p: Parser, ch: Byte): Stepped {
    if ch == SPACE || ch == CR || ch == LF then UrlEnd(p, ch) else UrlByte(p, p.state, ch)
  }

  function UrlEnd(p: Parser, ch: Byte): Stepped {
    if p.state.Schema? || p.state.SchemaSlash? || p.state.SchemaSlashSlash? || p.state.ServerStart? then Fail(p, InvalidUrl)
    else if ch == SPACE then Quiet(p.(state := HttpStart))
    else Quiet(p.(major := 0, minor := 9, state := if ch == CR then LineAlmostDone else FieldStart))
  }

  /** One more byte of the method's name, or the blank after it. */
  function MethodByte(p: Parser, ch: Byte): Stepped {
    var expected := Peek(MethodName(p.verb), p.index);
    if ch == NUL then Fail(p, InvalidMethod)
    else if ch == SPACE && expected == NUL then Quiet(p.(state := SpacesBeforeUrl, index := p.index + 1))
    else if ch == expected then Quiet(p.(index := p.index + 1))
    else
      var m := NextGuess(p.verb, p.index, ch);
      if m.None? then Fail(p, InvalidMethod) else Quiet(p.(verb := m.value, index := p.index + 1))
  }

  /** Request line, up to the version. */
  function RequestByte(p: Parser, ch: Byte): Stepped {
    match p.state
    case Dead => if ch == CR || ch == LF then Quiet(p) else Fail(p, ClosedConnection)
    case StartReq =>
      if ch == CR || ch == LF then Quiet(p)
      else
        var q := p.(flags := NO_FLAGS, contentLength := ULLONG_MAX);
        if !IsAlpha(ch) then Fail(q, InvalidMethod)
        else
          var m := FirstGuess(ch);
          if m.None? then Fail(q.(verb := DELETE, index := 1), InvalidMethod)
          else Stepped(q.(verb := m.value, index := 1, state := ReqMethod), [MessageBegin], false)
    case ReqMethod => MethodByte(p, ch)
    case SpacesBeforeUrl =>
      if ch == SPACE then Quiet(p) else UrlByte(p, UrlStateOf(p), ch)
    case _ => InUrlByte(p, ch)
  }

  function Expect(p: Parser, ok: bool, next: State, e: Errno): Stepped {
    if ok then Quiet(p.(state := next)) else Fail(p, e)
  }

  /** The protocol version. */
  function VersionByte(p: Parser, ch: Byte): Stepped {
    match p.state
    case HttpStart => if ch == 'H' then Quiet(p.(state := HttpH)) else if ch == SPACE then Quiet(p) else Fail(p, InvalidConstant)
    case HttpH => Expect(p, ch == 'T', HttpHT, Strict)
    case HttpHT => Expect(p, ch == 'T', HttpHTT, Strict)
    case HttpHTT => Expect(p, ch == 'P', HttpHTTP, Strict)
    case HttpHTTP => Expect(p, ch == '/', FirstMajor, Strict)
    case FirstMajor =>
      if '1' <= ch <= '9' then Quiet(p.(major := DigitValue(ch), state := Major)) else Fail(p, InvalidVersion)
    case Major =>
      if ch == '.' then Quiet(p.(state := FirstMinor))
      else if !IsDigit(ch) then Fail(p, InvalidVersion)
      else
        var q := p.(major := p.major * 10 + DigitValue(ch));
        if q.major > 999 then Fail(q, InvalidVersion) else Quiet(q)
    case FirstMinor => if IsDigit(ch) then Quiet(p.(minor := DigitValue(ch), state := Minor)) else Fail(p, InvalidVersion)
    case Minor =>
      if ch == CR then Quiet(p.(state := LineAlmostDone))
      else if ch == LF then Quiet(p.(state := FieldStart))
      else if !IsDigit(ch) then Fail(p, InvalidVersion)
      else
        var q := p.(minor := p.minor * 10 + DigitValue(ch));
        if q.minor > 999 then Fail(q, InvalidVersion) else Quiet(q)
    case _ => Expect(p, ch == LF, FieldStart, LfExpected)
  }

  /** The end of a message: the next state, and the callback. */
  function Complete(p: Parser): Stepped {
    Stepped(p.(state := NewMessage(p)), [MessageComplete], false)
  }

  /** The line feed that ends the headers: what kind of body follows. */
  function HeadersEnd(p: Parser): Stepped {
    if p.flags.trailing then Complete(p)
    else
      var q := p.(upgrade := p.flags.upgrade || p.verb == CONNECT, nread := 0);
      if q.upgrade then Stepped(q.(state := NewMessage(q)), [HeadersComplete, MessageComplete], true)
      else if q.flags.chunked then Stepped(q.(state := ChunkSizeStart), [HeadersComplete], false)
      else if q.contentLength == 0 || q.contentLength == ULLONG_MAX then
        Stepped(q.(state := NewMessage(q)), [HeadersComplete, MessageComplete], false)
      else Stepped(q.(state := BodyIdentity), [HeadersComplete], false)
  }

  /** The first byte of a line in the headers. */
  function FieldStartByte(p: Parser, ch: Byte): Stepped {
    if ch == CR then Quiet(p.(state := HeadersAlmostDone))
    else if ch == LF then HeadersEnd(p)
    else if Token(ch) == NUL then Fail(p.(state := FieldStart), InvalidHeaderToken)
    else Stepped(p.(index := 0, state := Field, headerState := FirstOfName(Token(ch))), [Data(FieldName, [ch])], false)
  }

  function FieldByte(p: Parser, ch: Byte): Stepped {
    var c := Token(ch);
    if c != NUL then
      var m := NextOfName(p.headerState, p.index, ch, c);
      Stepped(p.(headerState := m.0, index := m.1), [Data(FieldName, [ch])], false)
    else if ch == ':' then Quiet(p.(state := DiscardWs))
    else if ch == CR then Quiet(p.(state := HeaderAlmostDone))
    else if ch == LF then Quiet(p.(state := FieldStart))
    else Fail(p, InvalidHeaderToken)
  }

  /** The first byte of a value, or of its continuation on the next line. */
  function ValueStartByte(p: Parser, ch: Byte): Stepped {
    var c := Lower(ch);
    var q := p.(state := Value, index := 0);
    var out := [Data(FieldValue, [ch])];
    match p.headerState
    case Upgrade => Stepped(q.(flags := q.flags.(upgrade := true), headerState := General), out, false)
    case TransferEncoding => Stepped(q.(headerState := if c == 'c' then MatchingChunked else General), out, false)
    case ContentLength =>
      if IsDigit(ch) then Stepped(q.(contentLength := DigitValue(ch)), out, false) else Fail(q, InvalidContentLength)
    case Connection =>
      Stepped(q.(headerState := if c == 'k' then MatchingKeepAlive else if c == 'c' then MatchingClose else General), out, false)
    case _ => Stepped(q.(headerState := General), out, false)
  }

  function ValueByte(p: Parser, ch: Byte): Stepped {
    if ch == CR then Quiet(p.(state := HeaderAlmostDone))
    else if ch == LF then Quiet(p.(state := ValueLws))
    else if p.headerState == ContentLength then
      if ch == SPACE then Stepped(p, [Data(FieldValue, [ch])], false)
      else if !IsDigit(ch) || (ULLONG_MAX - 10) / 10 < p.contentLength then Fail(p, InvalidContentLength)
      else Stepped(p.(contentLength := p.contentLength * 10 + DigitValue(ch)), [Data(FieldValue, [ch])], false)
    else
      var m := NextOfValue(p.headerState, p.index, ch);
      Stepped(p.(headerState := m.0, index := m.1), [Data(FieldValue, [ch])], false)
  }

  /** What a finished header line means for the message. */
  function FinishedHeader(p: Parser): Flags {
    match p.headerState
    case KeepAlive => p.flags.(keepAlive := true)
    case Close => p.flags.(close := true)
    case Chunked => p.flags.(chunked := true)
    case _ => p.flags
  }

  /** The byte after an empty value: the header is over, with an empty value reported. */
  function EmptyValue(s: Stepped): Stepped {
    Stepped(s.p, [Data(FieldValue, [])] + s.out, s.leave)
  }

  function HeaderByte(p: Parser, ch: Byte): Stepped {
    match p.state
    case FieldStart => FieldStartByte(p, ch)
    case Field => FieldByte(p, ch)
    case DiscardWs =>
      if ch == SPACE || ch == TAB then Quiet(p)
      else if ch == CR then Quiet(p.(state := DiscardWsAlmostDone))
      else if ch == LF then Quiet(p.(state := DiscardLws))
      else ValueStartByte(p, ch)
    case DiscardWsAlmostDone => Expect(p, ch == LF, DiscardLws, Strict)
    case DiscardLws =>
      if ch == SPACE || ch == TAB then Quiet(p.(state := DiscardWs))
      else EmptyValue(FieldStartByte(p.(state := FieldStart), ch))
    case ValueStart => ValueStartByte(p, ch)
    case Value => ValueByte(p, ch)
    case HeaderAlmostDone => Expect(p, ch == LF, ValueLws, Strict)
    case ValueLws =>
      if ch == SPACE || ch == TAB then ValueStartByte(p.(state := ValueStart), ch)
      else FieldStartByte(p.(flags := FinishedHeader(p), state := FieldStart), ch)
    case _ => if ch == LF then HeadersEnd(p) else Fail(p, Strict)
  }

  function ChunkByte(p: Parser, ch: Byte): Stepped {
    match p.state
    case ChunkSizeStart =>
      var v := Unhex(ch);
      if v.None? then Fail(p, InvalidChunkSize) else Quiet(p.(contentLength := v.value, state := ChunkSize))
    case ChunkSize =>
      if ch == CR then Quiet(p.(state := ChunkSizeAlmostDone))
      else
        var v := Unhex(ch);
        if v.None? then
          if ch == ';' || ch == SPACE then Quiet(p.(state := ChunkParameters)) else Fail(p, InvalidChunkSize)
        else if (ULLONG_MAX - 16) / 16 < p.contentLength then Fail(p, InvalidContentLength)
        else Quiet(p.(contentLength := p.contentLength * 16 + v.value))
    case ChunkParameters => if ch == CR then Quiet(p.(state := ChunkSizeAlmostDone)) else Quiet(p)
    case ChunkSizeAlmostDone =>
      if ch != LF then Fail(p, Strict)
      else if p.contentLength == 0 then
        Quiet(p.(nread := 0, flags := p.flags.(trailing := true), state := FieldStart))
      else Quiet(p.(nread := 0, state := ChunkData))
    case ChunkData => Stepped(ShortenTo(p, ChunkDataAlmostDone), [Data(Body, [ch])], false)
    case ChunkDataAlmostDone => Expect(p, ch == CR, ChunkDataDone, Strict)
    case _ => if ch == LF then Quiet(p.(nread := 0, state := ChunkSizeStart)) else Fail(p, Strict)
  }

  /** One byte less to come, and the next state after the last one. */
  function ShortenTo(p: Parser, last: State): Parser {
    var left := if p.contentLength > 0 then p.contentLength - 1 else 0;
    p.(contentLength := left, state := if left == 0 then last else p.state)
  }

  function BodyByte(p: Parser, ch: Byte): Stepped {
    var q := ShortenTo(p, MessageDone);
    if q.state == MessageDone then Stepped(q.(state := NewMessage(q)), [Data(Body, [ch]), MessageComplete], false)
    else Stepped(q, [Data(Body, [ch])], false)
  }

  /** The switch over the state. */
  function Switch(p: Parser, ch: Byte): Stepped {
    match p.state
    case Dead => RequestByte(p, ch)
    case StartReq => RequestByte(p, ch)
    case ReqMethod => RequestByte(p, ch)
    case SpacesBeforeUrl => RequestByte(p, ch)
    case HttpStart => VersionByte(p, ch)
    case HttpH => VersionByte(p, ch)
    case HttpHT => VersionByte(p, ch)
    case HttpHTT => VersionByte(p, ch)
    case HttpHTTP => VersionByte(p, ch)
    case FirstMajor => VersionByte(p, ch)
    case Major => VersionByte(p, ch)
    case FirstMinor => VersionByte(p, ch)
    case Minor => VersionByte(p, ch)
    case LineAlmostDone => VersionByte(p, ch)
    case ChunkSizeStart => ChunkByte(p, ch)
    case ChunkSize => ChunkByte(p, ch)
    case ChunkParameters => ChunkByte(p, ch)
    case ChunkSizeAlmostDone => ChunkByte(p, ch)
    case ChunkData => ChunkByte(p, ch)
    case ChunkDataAlmostDone => ChunkByte(p, ch)
    case ChunkDataDone => ChunkByte(p, ch)
    case BodyIdentity => BodyByte(p, ch)
    case MessageDone => Complete(p)
    case _ => if p.state.InUrl() then RequestByte(p, ch) else HeaderByte(p, ch)
  }

  /** One byte, counted first where it belongs to the headers. */
  function Step(p: Parser, ch: Byte): Stepped {
    var q := if p.state.IsHeader() then p.(nread := p.nread + 1) else p;
    if p.state.IsHeader() && q.nread > MAX_HEADER_SIZE then Fail(q, HeaderOverflow) else Switch(q, ch)
  }

  // ---------------------------------------------------------------- a run

  /** Where a run stands: the fields, the joined callbacks, and whether the parser left the protocol. */
  datatype Progress = Progress(p: Parser, log: seq<Event>, left: bool)
  {
    /** An error, or leaving, stops the run. */
    predicate Going() {
      p.errno == OK && !left
    }
  }

  function StepOn(r: Progress, ch: Byte): Progress {
    if r.Going() then
      var s := Step(r.p, ch);
      Progress(s.p, EmitAll(r.log, s.out), s.leave)
    else r
  }

  /** The run over a text. */
  function Run(r: Progress, d: Text): Progress
    decreases |d|
  {
    if d == [] then r else StepOn(Run(r, d[..|d| - 1]), d[|d| - 1])
  }

  /** A text may be cut anywhere. */
  lemma {:induction false} RunConcat(r: Progress, a: Text, b: Text)
    ensures Run(r, a + b) == Run(Run(r, a), b)
    decreases |b|
  {
    if b == [] {
      assert a + b == a;
    } else {
      var front := b[..|b| - 1];
      assert (a + b)[..|a + b| - 1] == a + front;
      RunConcat(r, a, front);
    }
  }

  lemma {:induction false} RunOne(r: Progress, ch: Byte)
    ensures Run(r, [ch]) == StepOn(r, ch)
  {
    assert [ch][..0] == [];
    assert Run(r, []) == r;
  }

  /** A stopped run stays. */
  lemma {:induction false} RunStopped(r: Progress, d: Text)
    requires !r.Going()
    ensures Run(r, d) == r
    decreases |d|
  {
    if d != [] {
      RunStopped(r, d[..|d| - 1]);
    }
  }
}
