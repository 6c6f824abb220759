/** What bodies deliver: chunked messages their payloads, identity bodies exactly their length. */
module HttpBodies {
  import opened Bytes
  import opened HttpSyntax
  import opened HttpMachine
  import opened HttpInvariant
  import opened HttpLog

  // ---------------------------------------------------------------- writing chunks

  predicate IsHexText(h: Text) {
    forall i :: 0 <= i < |h| ==> Unhex(h[i]).Some?
  }

  /** The number a run of hexadecimal digits writes. */
  function HexNumber(h: Text): nat
    requires IsHexText(h)
  {
    if h == [] then 0 else HexNumber(h[..|h| - 1]) * 16 + Unhex(h[|h| - 1]).value
  }

  /** A payload, its size as some hexadecimal text, and a chunk extension. */
  datatype Chunk = Chunk(size: Text, extension: Text, payload: Text)

  /** A chunk of a sender that keeps to section 4.1 of RFC 7230, with a size line of acceptable length. */
  predicate IsChunk(c: Chunk) {
    && c.size != [] && IsHexText(c.size) && c.payload != [] && HexNumber(c.size) == |c.payload| <= ULLONG_MAX - 16
    && IsExtension(c.extension) && |c.size| + |c.extension| + 2 <= MAX_HEADER_SIZE
  }

  predicate IsExtension(e: Text) {
    e == [] || (e[0] == ';' && forall i :: 0 <= i < |e| ==> e[i] != CR)
  }

  const CRLF: Text := [CR, LF]

  function SizeLine(c: Chunk): Text {
    c.size + c.extension + CRLF
  }

  function ChunkText(c: Chunk): Text {
    SizeLine(c) + (c.payload + CRLF)
  }

  function ChunksText(cs: seq<Chunk>): Text {
    if cs == [] then [] else ChunksText(cs[..|cs| - 1]) + ChunkText(cs[|cs| - 1])
  }

  function Payloads(cs: seq<Chunk>): Text {
    if cs == [] then [] else Payloads(cs[..|cs| - 1]) + cs[|cs| - 1].payload
  }

  // ---------------------------------------------------------------- reading them

  /** Before a chunk. */
  predicate AtChunk(r: Progress) {
    r.Going() && r.p.state.ChunkSizeStart? && r.p.nread == 0 && r.p.flags.chunked && !r.p.flags.trailing
  }

  /** Fields that only a size line changes. */
  predicate SameMessage(p: Parser, q: Parser) {
    q == p.(state := q.state, nread := q.nread, contentLength := q.contentLength)
  }

  lemma {:induction false} RunSize(r: Progress, h: Text)
    requires AtChunk(r) && h != [] && IsHexText(h) && HexNumber(h) <= ULLONG_MAX - 16 && |h| <= MAX_HEADER_SIZE
    ensures Run(r, h) == Progress(r.p.(state := ChunkSize, nread := |h|, contentLength := HexNumber(h)), r.log, false)
    decreases |h|
  {
    var front, c := h[..|h| - 1], h[|h| - 1];
    if front == [] {
      assert h == [c] && HexNumber(front) == 0;
      RunOne(r, c);
    } else {
      RunSize(r, front);
      SizeDigit(Run(r, front), c);
    }
  }

  lemma {:induction false} SizeDigit(r: Progress, c: Byte)
    requires r.Going() && r.p.state.ChunkSize? && Unhex(c).Some? && r.p.nread < MAX_HEADER_SIZE
    requires r.p.contentLength * 16 + Unhex(c).value <= ULLONG_MAX - 16
    ensures StepOn(r, c) ==
              Progress(r.p.(nread := r.p.nread + 1, contentLength := r.p.contentLength * 16 + Unhex(c).value), r.log, false)
  {
    assert c != CR && c != ';' && c != SPACE;
  }

  lemma {:induction false} RunExtension(r: Progress, e: Text)
    requires r.Going() && r.p.state.ChunkSize? && IsExtension(e) && r.p.nread + |e| <= MAX_HEADER_SIZE
    ensures Run(r, e) == Progress(r.p.(state := if e == [] then ChunkSize else ChunkParameters, nread := r.p.nread + |e|), r.log, false)
    decreases |e|
  {
    if e != [] {
      var front, c := e[..|e| - 1], e[|e| - 1];
      if front == [] {
        assert e == [c];
        RunOne(r, c);
        ExtensionStart(r);
      } else {
        RunExtension(r, front);
        ExtensionByte(Run(r, front), c);
      }
    }
  }

  lemma {:induction false} ExtensionStart(r: Progress)
    requires r.Going() && r.p.state.ChunkSize? && r.p.nread < MAX_HEADER_SIZE
    ensures StepOn(r, ';') == Progress(r.p.(state := ChunkParameters, nread := r.p.nread + 1), r.log, false)
  {
  }

  lemma {:induction false} ExtensionByte(r: Progress, c: Byte)
    requires r.Going() && r.p.state.ChunkParameters? && r.p.nread < MAX_HEADER_SIZE && c != CR
    ensures StepOn(r, c) == Progress(r.p.(nread := r.p.nread + 1), r.log, false)
  {
  }

  /** Two bytes of a run. */
  lemma {:induction false} RunTwo(r: Progress, c: Byte, d: Byte)
    ensures Run(r, [c, d]) == StepOn(StepOn(r, c), d)
  {
    assert [c, d] == [c] + [d];
    RunConcat(r, [c], [d]);
    RunOne(r, c);
    RunOne(StepOn(r, c), d);
  }

  lemma {:induction false} RunSizeEnd(r: Progress)
    requires r.Going() && (r.p.state.ChunkSize? || r.p.state.ChunkParameters?) && r.p.nread + 2 <= MAX_HEADER_SIZE
    requires !r.p.flags.trailing
    ensures Run(r, CRLF) == Progress(
      if r.p.contentLength == 0 then r.p.(state := FieldStart, nread := 0, flags := r.p.flags.(trailing := true))
      else r.p.(state := ChunkData, nread := 0), r.log, false)
  {
    RunTwo(r, CR, LF);
    SizeReturn(r);
    SizeFeed(StepOn(r, CR));
  }

  lemma {:induction false} SizeReturn(r: Progress)
    requires r.Going() && (r.p.state.ChunkSize? || r.p.state.ChunkParameters?) && r.p.nread < MAX_HEADER_SIZE
    ensures StepOn(r, CR) == Progress(r.p.(state := ChunkSizeAlmostDone, nread := r.p.nread + 1), r.log, false)
  {
  }

  lemma {:induction false} SizeFeed(r: Progress)
    requires r.Going() && r.p.state.ChunkSizeAlmostDone? && r.p.nread < MAX_HEADER_SIZE
    ensures StepOn(r, LF) == Progress(
      if r.p.contentLength == 0 then r.p.(state := FieldStart, nread := 0, flags := r.p.flags.(trailing := true))
      else r.p.(state := ChunkData, nread := 0), r.log, false)
  {
  }

  /** The size line of a chunk sets how much data follows. */
  lemma {:induction false} RunSizeLine(r: Progress, c: Chunk)
    requires AtChunk(r) && IsChunk(c)
    ensures Run(r, SizeLine(c)) == Progress(r.p.(state := ChunkData, nread := 0, contentLength := |c.payload|), r.log, false)
  {
    RunSize(r, c.size);
    RunConcat(r, c.size, c.extension);
    RunExtension(Run(r, c.size), c.extension);
    RunConcat(r, c.size + c.extension, CRLF);
    RunSizeEnd(Run(r, c.size + c.extension));
  }

  /** A chunk delivers its payload and no more. */
  lemma {:induction false} RunChunk(r: Progress, c: Chunk)
    requires AtChunk(r) && IsChunk(c)
    ensures var q := Run(r, ChunkText(c)); AtChunk(q) && SameMessage(r.p, q.p) && q.log == Emit(r.log, Data(Body, c.payload))
  {
    RunSizeLine(r, c);
    var inside := Run(r, SizeLine(c));
    RunConcat(r, SizeLine(c), c.payload + CRLF);
    RunPayload(inside, c.payload);
  }

  lemma {:induction false} RunPayload(r: Progress, d: Text)
    requires r.Going() && r.p.state.ChunkData? && d != [] && r.p.contentLength == |d| && r.p.flags.chunked && !r.p.flags.trailing
    ensures var q := Run(r, d + CRLF); AtChunk(q) && SameMessage(r.p, q.p) && q.log == Emit(r.log, Data(Body, d))
  {
    RunConcat(r, d, CRLF);
    RunBody(r, d);
    BodyEventsEmitted(r, d);
    RunDataEnd(Run(r, d));
  }

  lemma {:induction false} RunDataEnd(r: Progress)
    requires r.Going() && r.p.state.ChunkDataAlmostDone?
    ensures Run(r, CRLF) == Progress(r.p.(state := ChunkSizeStart, nread := 0), r.log, false)
  {
    RunTwo(r, CR, LF);
  }

  /** Any number of chunks deliver the concatenation of their payloads. */
  lemma {:induction false} RunChunks(r: Progress, cs: seq<Chunk>)
    requires AtChunk(r) && forall i :: 0 <= i < |cs| ==> IsChunk(cs[i])
    ensures var q := Run(r, ChunksText(cs));
            && AtChunk(q) && SameMessage(r.p, q.p)
            && q.log == if cs == [] then r.log else Emit(r.log, Data(Body, Payloads(cs)))
    decreases |cs|
  {
    if cs != [] {
      var front, c := cs[..|cs| - 1], cs[|cs| - 1];
      RunChunks(r, front);
      RunConcat(r, ChunksText(front), ChunkText(c));
      RunChunk(Run(r, ChunksText(front)), c);
      if front == [] {
        assert Payloads(cs) == c.payload;
      } else {
        EmitMerge(r.log, Body, Payloads(front), c.payload);
      }
    }
  }

  lemma {:induction false} RunZero(r: Progress, zero: Text)
    requires AtChunk(r) && zero == "0"
    ensures Run(r, zero) == Progress(r.p.(state := ChunkSize, nread := 1, contentLength := 0), r.log, false)
  {
    assert zero[..0] == [];
    assert HexNumber([]) == 0;
    RunSize(r, zero);
  }

  lemma {:induction false} TrailerEnd(r: Progress)
    requires r.Going() && r.p.state.HeadersAlmostDone? && r.p.flags.trailing && r.p.nread < MAX_HEADER_SIZE
    ensures StepOn(r, LF) == Progress(r.p.(state := NewMessage(r.p), nread := r.p.nread + 1), Emit(r.log, MessageComplete), false)
  {
    EmitOne(r.log, MessageComplete);
  }

  /** An identity body delivers exactly as many bytes as were announced, then completes the message. */
  lemma {:induction false} IdentityBody(r: Progress, d: Text)
    requires r.Going() && r.p.state.BodyIdentity? && d != [] && r.p.contentLength == |d|
    ensures var q := Run(r, d);
            q.Going() && q.p.state == NewMessage(r.p) && q.log == Emit(Emit(r.log, Data(Body, d)), MessageComplete)
  {
    RunBody(r, d);
    BodyEventsEmitted(r, d);
  }
}
