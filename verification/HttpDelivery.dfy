/** From a request object, or a framed body, through any buffers to what the receiver holds. */
module HttpDelivery {
  import opened Bytes
  import opened HttpSyntax
  import opened HttpMachine
  import opened HttpLog
  import opened HttpMessage
  import opened HttpRoundTrip
  import opened HttpUrl
  import opened HttpBodies
  import HttpParser
  import HttpRequest
  import HttpStream
  import opened ReadBuffer

  /** A text in pieces: the last one of the last size, and so on; the first one takes what is left. */
  function Cut(d: Text, sizes: seq<nat>): (parts: seq<Text>)
    ensures HttpStream.Flat(parts) == d && forall i :: 0 <= i < |parts| ==> parts[i] != []
    decreases |sizes|
  {
    if d == [] then []
    else if sizes == [] || !(0 < sizes[|sizes| - 1] < |d|) then
      assert HttpStream.Flat([d]) == d by {
        assert [d][..0] == [];
      }
      [d]
    else
      var n := |d| - sizes[|sizes| - 1];
      var front := Cut(d[..n], sizes[..|sizes| - 1]);
      assert (front + [d[n..]])[..|front|] == front && d == d[..n] + d[n..];
      front + [d[n..]]
  }

  // ---------------------------------------------------------------- the benchmark's request

  /** A request the benchmark can rely on: it is well formed, and its head is not too large. */
  ghost predicate IsPlain(request: HttpRequest.Request, m: Method, major: Text, minor: Text)
    reads request
  {
    && request.verb == MethodName(m) && request.version == VersionText(major, minor) && request.NulFree()
    && m != CONNECT && IsUrl(request.uri) && IsNumber(major) && major[0] != '0' && IsNumber(minor)
    && (forall k :: k in request.headers ==> IsHeader((k, request.headers[k]), |request.BodyText()|))
    && (request.BodyText() != [] ==>
          |request.BodyText()| <= ULLONG_MAX - 10 && exists k :: k in request.headers && IsLength((k, request.headers[k])))
    && request.Size() <= MAX_HEADER_SIZE + |request.BodyText()|
  }

  lemma {:induction false} PrintedSame(hs: seq<Header>)
    requires forall i :: 0 <= i < |hs| ==> !HttpRequest.HeaderHasNul(hs[i])
    ensures HttpRequest.PrintedHeaders(hs) == hs
    decreases |hs|
  {
    if hs != [] {
      PrintedSame(hs[..|hs| - 1]);
      assert hs == hs[..|hs| - 1] + [(hs[|hs| - 1].0, hs[|hs| - 1].1)];
    }
  }

  /** In whatever order its headers are printed, it is a request as the parser understands it. */
  lemma {:induction false} PlainIsRequest(request: HttpRequest.Request, m: Method, major: Text, minor: Text, order: seq<Header>)
    requires IsPlain(request, m, major, minor) && HttpRequest.Lists(order, request.headers)
    ensures IsRequest(m, request.uri, major, minor, order, request.BodyText())
    ensures HttpRequest.PrintedHeaders(order) == order
  {
    HttpRequest.ListsAll(order, request.headers);
    HttpRequest.ListedNulFree(order, request.headers);
    PrintedSame(order);
    forall i | 0 <= i < |order| ensures IsHeader(order[i], |request.BodyText()|) {
      assert order[i] == (order[i].0, request.headers[order[i].0]);
    }
    if request.BodyText() != [] {
      var k :| k in request.headers && IsLength((k, request.headers[k]));
      assert (k, request.headers[k]) in order;
    }
  }

  /** Prints a plain request: the whole buffer is its text, headers in some order. */
  method PrintPlain(request: HttpRequest.Request, ghost m: Method, ghost major: Text, ghost minor: Text)
    returns (buffer: ReadBufferAdapter, ghost order: seq<Header>)
    requires IsPlain(request, m, major, minor)
    ensures fresh(buffer) && fresh(buffer.data) && HttpRequest.Lists(order, request.headers)
    ensures IsRequest(m, request.uri, major, minor, order, request.BodyText())
    ensures buffer.data[..] == HttpRequest.RequestText(MethodName(m), request.uri, VersionText(major, minor), order, request.BodyText())
    ensures HeadSize(m, request.uri, major, minor, order) <= MAX_HEADER_SIZE
  {
    var inside;
    ghost var text;
    buffer, inside, order, text := request.Dump();
    PlainIsRequest(request, m, major, minor, order);
    assert buffer.data[..] == text;
    assert HeadSize(m, request.uri, major, minor, order) + |request.BodyText()| == |text|;
  }

  /**
   * A request object is printed, its buffer cut in any way and fed to the parser, and the callbacks are handed to the
   * receiver: it ends with the url, the headers and the body of the request, and the parser with its method.
   */
  method DeliverRequest(request: HttpRequest.Request, sizes: seq<nat>, parser: HttpParser.Parser, receiver: Receiver,
                        ghost m: Method, ghost major: Text, ghost minor: Text)
    requires IsPlain(request, m, major, minor)
    requires parser.Valid() && parser.Now() == INIT && parser.log == []
    modifies parser, receiver
    ensures parser.errno == OK && parser.verb == m && parser.major == DecimalValue(major) && parser.minor == DecimalValue(minor)
    ensures receiver.complete && receiver.rawUrl == request.uri && receiver.url == BeforeQuery(request.uri)
    ensures HttpRequest.Lists(receiver.headers, request.headers) && receiver.body == request.BodyText()
  {
    ghost var uri, body := request.uri, request.BodyText();
    var buffer;
    ghost var order;
    buffer, order := PrintPlain(request, m, major, minor);
    Deliver(parser, Cut(buffer.data[..], sizes), m, uri, major, minor, order, body);
    Receive(receiver, parser.log, uri, order, body);
  }

  /** The callbacks of a request, handed to the receiver. */
  method Receive(receiver: Receiver, es: seq<Event>, ghost uri: Text, ghost hs: seq<Header>, ghost body: Text)
    requires es == RequestEvents(uri, hs, body) && forall i :: 0 <= i < |hs| ==> hs[i].0 != [] && hs[i].1 != []
    modifies receiver
    ensures receiver.complete && receiver.rawUrl == uri && receiver.url == BeforeQuery(uri)
    ensures receiver.headers == hs && receiver.body == body
  {
    ToldPieces(receiver.Now(), es);
    ToldRequest(receiver.Now(), uri, hs, body);
    receiver.CallAll(es);
  }

  /** Joining callbacks first tells nothing else. */
  lemma {:induction false} ToldPieces(m: Message, es: seq<Event>)
    ensures Told(m, EmitAll([], es)) == Told(m, es)
    decreases |es|
  {
    if es != [] {
      var front := es[..|es| - 1];
      ToldPieces(m, front);
      ToldJoined(m, EmitAll([], front), es[|es| - 1]);
    }
  }

  // ---------------------------------------------------------------- bodies in any buffers

  /** The last chunk, a trailer, and its end. */
  function LastWithTrailer(trailer: seq<Header>): Text {
    "0" + CRLF + HttpRequest.HeadersText(trailer) + CRLF
  }

  /** What a chunked body and its trailer report. */
  function ChunkedLog(log: seq<Event>, cs: seq<Chunk>, trailer: seq<Header>): seq<Event> {
    (if cs == [] then log else Emit(log, Data(Body, Payloads(cs)))) + HeaderEvents(trailer) + [MessageComplete]
  }

  /** A trailer of a sender that keeps to section 4.1.2 of RFC 7230. */
  predicate IsTrailer(trailer: seq<Header>, size: nat) {
    && size <= ULLONG_MAX - 10 && |HttpRequest.HeadersText(trailer)| + 2 <= MAX_HEADER_SIZE
    && forall i :: 0 <= i < |trailer| ==> IsHeader(trailer[i], size)
  }

  lemma {:induction false} RunTrailer(r: Progress, trailer: seq<Header>, size: nat)
    requires r.Going() && r.p.state.FieldStart? && r.p.flags.trailing && r.p.nread == 0
    requires IsTrailer(trailer, size) && BeforeHeaders(r.log)
    ensures var q := Run(r, HttpRequest.HeadersText(trailer) + CRLF);
            q.Going() && q.p.state == NewMessage(q.p) && q.log == r.log + HeaderEvents(trailer) + [MessageComplete]
  {
    var lines := HttpRequest.HeadersText(trailer);
    assert r.log == r.log + HeaderEvents([]);
    RunHeaders(r, r.log, trailer, size);
    RunThen(r, lines, Run(r, lines), CRLF);
    RunTrailerEnd(Run(r, lines));
  }

  /** The empty line behind a trailer completes the message. */
  lemma {:induction false} RunTrailerEnd(r: Progress)
    requires Room(r, 2) && AtLine(r.p) && r.p.flags.trailing
    ensures var q := Run(r, CRLF); q.Going() && q.p.state == NewMessage(q.p) && q.log == r.log + [MessageComplete]
  {
    RunTwo(r, CR, LF);
    ReturnAtLine(r);
    TrailerEnd(StepOn(r, CR));
  }

  /** The size line of the last chunk starts the trailer. */
  lemma {:induction false} RunLastSize(r: Progress)
    requires AtChunk(r)
    ensures Run(r, "0" + CRLF) ==
              Progress(r.p.(state := FieldStart, nread := 0, contentLength := 0, flags := r.p.flags.(trailing := true)), r.log, false)
  {
    var zero: Text := "0";
    RunZero(r, zero);
    RunThen(r, zero, Run(r, zero), CRLF);
    RunSizeEnd(Run(r, zero));
  }

  /**
   * A chunked message body, whatever its chunks, sizes, extensions and trailer: the body callbacks join to exactly the
   * concatenation of the payloads, the trailer is reported, and the message completes once.
   */
  lemma {:induction false} ChunkedMessage(r: Progress, cs: seq<Chunk>, trailer: seq<Header>, size: nat)
    requires AtChunk(r) && BeforeHeaders(r.log) && IsTrailer(trailer, size) && forall i :: 0 <= i < |cs| ==> IsChunk(cs[i])
    ensures var q := Run(r, ChunksText(cs) + LastWithTrailer(trailer));
            q.Going() && q.p.state == NewMessage(q.p) && q.log == ChunkedLog(r.log, cs, trailer)
  {
    RunChunks(r, cs);
    RunThen(r, ChunksText(cs), Run(r, ChunksText(cs)), LastWithTrailer(trailer));
    RunLastChunk(Run(r, ChunksText(cs)), trailer, size);
  }

  lemma {:induction false} RunLastChunk(r: Progress, trailer: seq<Header>, size: nat)
    requires AtChunk(r) && BeforeHeaders(r.log) && IsTrailer(trailer, size)
    ensures var q := Run(r, LastWithTrailer(trailer));
            q.Going() && q.p.state == NewMessage(q.p) && q.log == r.log + HeaderEvents(trailer) + [MessageComplete]
  {
    var first, lines: Text := "0" + CRLF, HttpRequest.HeadersText(trailer) + CRLF;
    assert LastWithTrailer(trailer) == first + lines;
    RunLastSize(r);
    RunThen(r, first, Run(r, first), lines);
    RunTrailer(Run(r, first), trailer, size);
  }

  /** A chunked body in any buffers. */
  method FeedChunked(parser: HttpParser.Parser, parts: seq<Text>, ghost cs: seq<Chunk>, ghost trailer: seq<Header>, ghost size: nat)
    requires parser.Valid() && !parser.upgrade && AtChunk(Progress(parser.Now(), parser.log, false)) && BeforeHeaders(parser.log)
    requires IsTrailer(trailer, size) && forall i :: 0 <= i < |cs| ==> IsChunk(cs[i])
    requires (forall i :: 0 <= i < |parts| ==> parts[i] != []) && HttpStream.Flat(parts) == ChunksText(cs) + LastWithTrailer(trailer)
    modifies parser
    ensures parser.errno == OK && parser.state == NewMessage(parser.Now())
    ensures parser.log == ChunkedLog(old(parser.log), cs, trailer)
  {
    ChunkedMessage(Progress(parser.Now(), parser.log, false), cs, trailer, size);
    HttpStream.FeedAll(parser, parts);
  }

  /** A body of announced length in any buffers. */
  method FeedIdentity(parser: HttpParser.Parser, parts: seq<Text>, ghost d: Text)
    requires parser.Valid() && parser.errno == OK && !parser.upgrade && parser.state.BodyIdentity?
    requires d != [] && parser.contentLength == |d|
    requires (forall i :: 0 <= i < |parts| ==> parts[i] != []) && HttpStream.Flat(parts) == d
    modifies parser
    ensures parser.errno == OK && parser.state == NewMessage(old(parser.Now()))
    ensures parser.log == Emit(Emit(old(parser.log), Data(Body, d)), MessageComplete)
  {
    IdentityBody(Progress(parser.Now(), parser.log, false), d);
    HttpStream.FeedAll(parser, parts);
  }
}
