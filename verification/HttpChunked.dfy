/** A chunked request from its first byte to its last: the head announces the coding, the chunks bring the body. */
module HttpChunked {
  import opened Bytes
  import opened HttpSyntax
  import opened HttpMachine
  import opened HttpLog
  import opened HttpNames
  import opened HttpMessage
  import opened HttpRoundTrip
  import opened HttpUrl
  import opened HttpBodies
  import opened HttpDelivery
  import HttpParser
  import HttpRequest
  import HttpStream

  const CODING: Text := "chunked"

  /** The header that announces chunks, name and value in any case. */
  predicate IsCoding(h: Header) {
    && IsName(h.0) && LowerName(h.0) == "transfer-encoding"
    && |h.1| == |"chunked"| && forall i :: 0 <= i < |h.1| ==> Lower(h.1[i]) == "chunked"[i]
  }

  /** A request head that announces a chunked body, among other headers; an announced length does not matter. */
  datatype Head = Head(
    verb: Method, uri: Text, major: Text, minor: Text, before: seq<Header>, coding: Header, after: seq<Header>, length: nat)
  {
    ghost predicate Fits() {
      && verb != CONNECT && IsUrl(uri) && IsNumber(major) && major[0] != '0' && IsNumber(minor)
      && IsCoding(coding) && length <= ULLONG_MAX - 10 && |Text()| <= MAX_HEADER_SIZE
      && (forall i :: 0 <= i < |before| ==> IsHeader(before[i], length))
      && (forall i :: 0 <= i < |after| ==> IsHeader(after[i], length))
    }

    function Line(): Text {
      HttpRequest.RequestLine(MethodName(verb), uri, VersionText(major, minor))
    }

    function Text(): Text {
      Line() + HttpRequest.HeadersText(before) + HttpRequest.HeaderText(coding) + (HttpRequest.HeadersText(after) + CRLF)
    }

    function Headers(): seq<Header> {
      before + [coding] + after
    }
  }

  // ---------------------------------------------------------------- the header that announces chunks

  /** The first letters of the coding, in any case. */
  predicate BeginsCoding(v: Text) {
    0 < |v| <= |CODING| && forall i :: 0 <= i < |v| ==> Lower(v[i]) == CODING[i]
  }

  /** The parser behind some letters of the coding. */
  function AfterCoding(r: Progress, v: Text): Progress
    requires v != []
  {
    Progress(r.p.(state := Value, headerState := if |v| < |CODING| then MatchingChunked else Chunked, index := |v| - 1,
                  nread := r.p.nread + |v|), Emit(r.log, Data(FieldValue, v)), false)
  }

  lemma {:induction false} CodingStart(r: Progress, c: Byte)
    requires Room(r, 1) && r.p.state.DiscardWs? && r.p.headerState.TransferEncoding? && Lower(c) == 'c'
    ensures StepOn(r, c) ==
      Progress(r.p.(state := Value, headerState := MatchingChunked, index := 0, nread := r.p.nread + 1), Emit(r.log, Data(FieldValue, [c])), false)
  {
    assert c != SPACE && c != TAB && c != CR && c != LF;
    EmitOne(r.log, Data(FieldValue, [c]));
  }

  lemma {:induction false} CodingStep(r: Progress, k: nat, c: Byte)
    requires Room(r, 1) && r.p.state.Value? && r.p.headerState.MatchingChunked? && r.p.index == k - 1
    requires 0 < k < |CODING| && Lower(c) == CODING[k]
    ensures StepOn(r, c) ==
      Progress(r.p.(headerState := if k + 1 < |CODING| then MatchingChunked else Chunked, index := k, nread := r.p.nread + 1),
               Emit(r.log, Data(FieldValue, [c])), false)
  {
    assert c != CR && c != LF;
    ValueSwitch(r.p, c);
    EmitOne(r.log, Data(FieldValue, [c]));
  }

  lemma {:induction false} RunCoding(r: Progress, v: Text)
    requires Room(r, |v|) && r.p.state.DiscardWs? && r.p.headerState.TransferEncoding? && BeginsCoding(v)
    ensures Run(r, v) == AfterCoding(r, v)
    decreases |v|
  {
    var front, c := v[..|v| - 1], v[|v| - 1];
    assert v == front + [c];
    if front == [] {
      RunOne(r, c);
      CodingStart(r, c);
    } else {
      RunCoding(r, front);
      CodingMore(r, front, c);
    }
  }

  lemma {:induction false} CodingMore(r: Progress, v: Text, c: Byte)
    requires Room(r, |v| + 1) && 0 < |v| < |CODING| && Lower(c) == CODING[|v|]
    ensures StepOn(AfterCoding(r, v), c) == AfterCoding(r, v + [c])
  {
    CodingStep(AfterCoding(r, v), |v|, c);
    EmitMerge(r.log, FieldValue, v, [c]);
  }

  /** The parser behind the line that announces chunks: the coding is noted once the next line begins. */
  predicate CodingRead(r: Progress, q: Progress, h: Header, n: nat) {
    && q.Going() && q.p.state.ValueLws? && q.p.headerState.Chunked? && SameRequest(r.p, q.p) && q.p.contentLength == r.p.contentLength
    && q.p.nread == r.p.nread + n && q.log == Emit(Emit(r.log, Data(FieldName, h.0)), Data(FieldValue, h.1))
  }

  lemma {:induction false} RunCodingLine(r: Progress, h: Header)
    requires Room(r, |HttpRequest.HeaderText(h)|) && AtLine(r.p) && IsCoding(h)
    ensures CodingRead(r, Run(r, HttpRequest.HeaderText(h)), h, |HttpRequest.HeaderText(h)|)
  {
    var name, value: Text := h.0 + ": ", h.1 + [CR, LF];
    assert HttpRequest.HeaderText(h) == name + value;
    RunThen(r, name, Run(r, name), value);
    RunNameAndColon(r, h.0);
    NamesRecognised(h.0);
    RunCodingValue(r, Run(r, name), h);
  }

  lemma {:induction false} RunCodingValue(r: Progress, q: Progress, h: Header)
    requires IsCoding(h) && q.Going() && q.p.state.DiscardWs? && q.p.headerState.TransferEncoding? && SameRequest(r.p, q.p)
    requires q.p.contentLength == r.p.contentLength && q.log == Emit(r.log, Data(FieldName, h.0))
    requires q.p.nread == r.p.nread + |h.0| + 2 && Room(q, |h.1| + 2)
    ensures CodingRead(r, Run(q, h.1 + [CR, LF]), h, |h.0| + |h.1| + 4)
  {
    RunCoding(q, h.1);
    RunThen(q, h.1, AfterCoding(q, h.1), [CR, LF]);
    ValueEnd(AfterCoding(q, h.1));
  }

  /** The same place with the coding noted. */
  function Noted(r: Progress): Progress {
    r.(p := r.p.(state := FieldStart, flags := r.p.flags.(chunked := true)))
  }

  lemma {:induction false} NotedByte(p: HttpMachine.Parser, c: Byte)
    requires p.state.ValueLws? && p.headerState.Chunked? && c != SPACE && c != TAB
    ensures HeaderByte(p, c) == HeaderByte(p.(state := FieldStart, flags := p.flags.(chunked := true)), c)
  {
  }

  lemma {:induction false} NotedStep(r: Progress, c: Byte)
    requires Room(r, 1) && r.p.state.ValueLws? && r.p.headerState.Chunked? && c != SPACE && c != TAB
    ensures StepOn(r, c) == StepOn(Noted(r), c)
  {
    StepBehindLine(r.p, c);
    StepAtLine(Noted(r).p, c);
    NotedByte(r.p.(nread := r.p.nread + 1), c);
    StepsAlike(r, Noted(r), c);
  }

  lemma {:induction false} StepsAlike(r: Progress, q: Progress, c: Byte)
    requires r.Going() && q.Going() && r.log == q.log && Step(r.p, c) == Step(q.p, c)
    ensures StepOn(r, c) == StepOn(q, c)
  {
  }

  lemma {:induction false} NotedSame(r: Progress, d: Text)
    requires Room(r, 1) && r.p.state.ValueLws? && r.p.headerState.Chunked? && d != [] && d[0] != SPACE && d[0] != TAB
    ensures Run(r, d) == Run(Noted(r), d)
  {
    var c, rest := d[0], d[1..];
    assert d == [c] + rest;
    RunConcat(r, [c], rest);
    RunConcat(Noted(r), [c], rest);
    RunOne(r, c);
    RunOne(Noted(r), c);
    NotedStep(r, c);
  }

  // ---------------------------------------------------------------- the head

  lemma {:induction false} HeadersJoin(a: seq<Header>, b: seq<Header>)
    ensures HeaderEvents(a + b) == HeaderEvents(a) + HeaderEvents(b)
    decreases |b|
  {
    if b == [] {
      assert a + b == a;
    } else {
      var front, h := b[..|b| - 1], b[|b| - 1];
      HeadersJoin(a, front);
      assert (a + b)[..|a + b| - 1] == a + front;
    }
  }

  /** The first byte of a header line, or of the line that ends them, is no blank. */
  lemma {:induction false} LineBegins(hs: seq<Header>, length: nat)
    requires forall i :: 0 <= i < |hs| ==> IsHeader(hs[i], length)
    ensures var d := HttpRequest.HeadersText(hs) + CRLF; d != [] && d[0] != SPACE && d[0] != TAB
    decreases |hs|
  {
    if |hs| == 1 {
      assert HttpRequest.HeadersText(hs[..0]) == [];
      assert HttpRequest.HeadersText(hs)[0] == hs[0].0[0];
    } else if |hs| > 1 {
      var front := hs[..|hs| - 1];
      LineBegins(front, length);
      assert HttpRequest.HeadersText(front)[0] == (HttpRequest.HeadersText(front) + CRLF)[0];
    }
  }

  /** The line feed that ends the head of a chunked message. */
  lemma {:induction false} FeedAtChunks(r: Progress)
    requires Room(r, 1) && r.p.state.HeadersAlmostDone? && r.p.flags.chunked && !r.p.flags.trailing && !r.p.flags.upgrade
    requires r.p.verb != CONNECT
    ensures var q := StepOn(r, LF);
            && AtChunk(q) && q.p.verb == r.p.verb && q.p.major == r.p.major && q.p.minor == r.p.minor && !q.p.upgrade
            && q.log == Emit(r.log, HeadersComplete)
  {
    EmitOne(r.log, HeadersComplete);
  }

  /** The parser at the line behind a head's headers. */
  ghost predicate HeadRead(r: Progress, q: Progress, h: Head, n: nat) {
    && h.Fits() && q.Going() && AtLine(q.p) && q.p.verb == h.verb && q.p.major == DecimalValue(h.major) && q.p.minor == DecimalValue(h.minor)
    && q.p.flags.chunked && !q.p.flags.trailing && !q.p.flags.upgrade && q.p.nread == r.p.nread + n
    && q.log == r.log + [MessageBegin, Data(Url, h.uri)] + HeaderEvents(h.Headers())
  }

  /** The parser behind the line that announces chunks. */
  ghost predicate CodingNoted(r: Progress, q: Progress, h: Head, n: nat) {
    && h.Fits() && q.Going() && q.p.state.ValueLws? && q.p.headerState.Chunked? && SameFraming(NO_FLAGS, q.p.flags)
    && q.p.verb == h.verb && q.p.major == DecimalValue(h.major) && q.p.minor == DecimalValue(h.minor) && q.p.nread == r.p.nread + n
    && q.log == r.log + [MessageBegin, Data(Url, h.uri)] + HeaderEvents(h.before + [h.coding])
  }

  lemma {:induction false} RunToCoding(r: Progress, h: Head, front: Text)
    requires r.Going() && r.p.state.StartReq? && h.Fits() && r.p.nread == 0
    requires front == h.Line() + HttpRequest.HeadersText(h.before)
    ensures var line := HttpRequest.HeaderText(h.coding); CodingNoted(r, Run(r, front + line), h, |front| + |line|)
  {
    var line := HttpRequest.HeaderText(h.coding);
    RunHead(r, h.verb, h.uri, h.major, h.minor, h.before, h.length, h.Line(), HttpRequest.HeadersText(h.before));
    var q := Run(r, front);
    RunThen(r, front, q, line);
    RunCodingLine(q, h.coding);
    LogOneMore(q.log, r.log + [MessageBegin, Data(Url, h.uri)], h.before, h.coding);
  }

  lemma {:induction false} RunFromCoding(r: Progress, q: Progress, h: Head, n: nat)
    requires CodingNoted(r, q, h, n) && Room(q, |HttpRequest.HeadersText(h.after)| + 2)
    ensures HeadRead(r, Run(Noted(q), HttpRequest.HeadersText(h.after)), h, n + |HttpRequest.HeadersText(h.after)|)
  {
    var start, some := r.log + [MessageBegin, Data(Url, h.uri)], h.before + [h.coding];
    var events := HeaderEvents(some);
    assert events != [] && events[|events| - 1] == Data(FieldValue, h.coding.1);
    RunHeaders(Noted(q), q.log, h.after, h.length);
    HeadersJoin(some, h.after);
    Concat3(start, events, HeaderEvents(h.after));
  }

  /** The parser where the chunks begin. */
  ghost predicate ChunksBegin(r: Progress, q: Progress, h: Head) {
    && h.Fits() && AtChunk(q) && q.p.verb == h.verb && q.p.major == DecimalValue(h.major) && q.p.minor == DecimalValue(h.minor) && !q.p.upgrade
    && q.log == r.log + [MessageBegin, Data(Url, h.uri)] + HeaderEvents(h.Headers()) + [HeadersComplete]
  }

  lemma {:induction false} RunHeadEnd(r: Progress, q: Progress, h: Head, n: nat)
    requires HeadRead(r, q, h, n) && Room(q, 2)
    ensures ChunksBegin(r, Run(q, CRLF), h)
  {
    RunTwo(q, CR, LF);
    ReturnAtLine(q);
    FeedAtChunks(StepOn(q, CR));
  }

  /** A head that announces chunks leads to the first of them, with all its headers reported. */
  lemma {:induction false} RunChunkedHead(r: Progress, h: Head)
    requires r.Going() && r.p.state.StartReq? && h.Fits() && r.p.nread == 0
    ensures ChunksBegin(r, Run(r, h.Text()), h)
  {
    var front, line, rest := h.Line() + HttpRequest.HeadersText(h.before), HttpRequest.HeaderText(h.coding), HttpRequest.HeadersText(h.after);
    RunToCoding(r, h, front);
    var q := Run(r, front + line);
    RunThen(r, front + line, q, rest + CRLF);
    LineBegins(h.after, h.length);
    NotedSame(q, rest + CRLF);
    RunFromCoding(r, q, h, |front| + |line|);
    RunThen(Noted(q), rest, Run(Noted(q), rest), CRLF);
    RunHeadEnd(r, Run(Noted(q), rest), h, |front| + |line| + |rest|);
  }

  // ---------------------------------------------------------------- the whole message

  /** What a chunked request reports. */
  function ChunkedEvents(uri: Text, hs: seq<Header>, cs: seq<Chunk>, trailer: seq<Header>): seq<Event> {
    [MessageBegin, Data(Url, uri)] + HeaderEvents(hs) + [HeadersComplete]
    + (if cs == [] then [] else [Data(Body, Payloads(cs))]) + HeaderEvents(trailer) + [MessageComplete]
  }

  /** Without a trailer that is what a request reports whose body is announced by its length. */
  lemma {:induction false} SameAsPlain(uri: Text, hs: seq<Header>, cs: seq<Chunk>)
    requires forall i :: 0 <= i < |cs| ==> IsChunk(cs[i])
    ensures ChunkedEvents(uri, hs, cs, []) == RequestEvents(uri, hs, Payloads(cs))
  {
    if cs != [] {
      assert IsChunk(cs[|cs| - 1]) && Payloads(cs) != [];
    }
    var front := [MessageBegin, Data(Url, uri)] + HeaderEvents(hs) + [HeadersComplete] + (if cs == [] then [] else [Data(Body, Payloads(cs))]);
    assert front + [] == front;
  }

  function MessageText(h: Head, cs: seq<Chunk>, trailer: seq<Header>): Text {
    h.Text() + (ChunksText(cs) + LastWithTrailer(trailer))
  }

  /**
   * A chunked request from its request line to its last chunk: its method, url and headers are reported, its body is the
   * concatenation of the payloads, the trailer is reported, and the message completes once.
   */
  lemma {:induction false} RunChunkedRequest(r: Progress, h: Head, cs: seq<Chunk>, trailer: seq<Header>)
    requires r.Going() && r.p.state.StartReq? && h.Fits() && r.p.nread == 0
    requires IsTrailer(trailer, h.length) && forall i :: 0 <= i < |cs| ==> IsChunk(cs[i])
    ensures var q := Run(r, MessageText(h, cs, trailer));
            && q.Going() && q.p.state == NewMessage(q.p) && q.log == r.log + ChunkedEvents(h.uri, h.Headers(), cs, trailer)
  {
    RunChunkedHead(r, h);
    var q := Run(r, h.Text());
    RunThen(r, h.Text(), q, ChunksText(cs) + LastWithTrailer(trailer));
    ChunkedMessage(q, cs, trailer, h.length);
    LogIsEvents(r.log, h.uri, h.Headers(), cs, trailer);
  }

  lemma {:induction false} LogIsEvents(start: seq<Event>, uri: Text, hs: seq<Header>, cs: seq<Chunk>, trailer: seq<Header>)
    ensures ChunkedLog(start + [MessageBegin, Data(Url, uri)] + HeaderEvents(hs) + [HeadersComplete], cs, trailer) ==
            start + ChunkedEvents(uri, hs, cs, trailer)
  {
    var log := start + [MessageBegin, Data(Url, uri)] + HeaderEvents(hs) + [HeadersComplete];
    NewEntry(log, Data(Body, Payloads(cs)));
  }

  /** A chunked request in any buffers. */
  method FeedChunkedRequest(parser: HttpParser.Parser, parts: seq<Text>, ghost h: Head, ghost cs: seq<Chunk>, ghost trailer: seq<Header>)
    requires parser.Valid() && parser.Now() == INIT && parser.log == [] && h.Fits()
    requires IsTrailer(trailer, h.length) && forall i :: 0 <= i < |cs| ==> IsChunk(cs[i])
    requires (forall i :: 0 <= i < |parts| ==> parts[i] != []) && HttpStream.Flat(parts) == MessageText(h, cs, trailer)
    modifies parser
    ensures parser.errno == OK && parser.state == NewMessage(parser.Now())
    ensures parser.log == ChunkedEvents(h.uri, h.Headers(), cs, trailer)
  {
    RunChunkedRequest(Progress(INIT, [], false), h, cs, trailer);
    HttpStream.FeedAll(parser, parts);
    assert [] + parser.log == parser.log;
  }

  /** A chunked request without a trailer, in any buffers, received: its url, its headers, and its payloads as the body. */
  method DeliverChunked(parser: HttpParser.Parser, receiver: Receiver, parts: seq<Text>, ghost h: Head, ghost cs: seq<Chunk>)
    requires parser.Valid() && parser.Now() == INIT && parser.log == [] && h.Fits()
    requires forall i :: 0 <= i < |cs| ==> IsChunk(cs[i])
    requires (forall i :: 0 <= i < |parts| ==> parts[i] != []) && HttpStream.Flat(parts) == MessageText(h, cs, [])
    modifies parser, receiver
    ensures parser.errno == OK && receiver.complete && receiver.rawUrl == h.uri && receiver.url == BeforeQuery(h.uri)
    ensures receiver.headers == h.Headers() && receiver.body == Payloads(cs)
  {
    FeedChunkedRequest(parser, parts, h, cs, []);
    SameAsPlain(h.uri, h.Headers(), cs);
    Receive(receiver, parser.log, h.uri, h.Headers(), Payloads(cs));
  }
}
