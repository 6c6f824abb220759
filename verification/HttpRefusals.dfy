/** What the request parser refuses, and how: the methods it knows, and for every other state the bytes it does not take. */
module HttpRefusals {
  import opened Bytes
  import opened HttpSyntax
  import opened HttpMachine
  import opened HttpRoundTrip
  import opened HttpVariants
  import HttpNames

  // ---------------------------------------------------------------- methods

  /** The words that the parser knows. */
  predicate IsMethod(w: Text) {
    IsEarly(w) || IsLate(w)
  }

  predicate IsEarly(w: Text) {
    w == "DELETE" || w == "GET" || w == "HEAD" || w == "POST" || w == "PUT" || w == "CONNECT" || w == "OPTIONS"
    || w == "TRACE" || w == "PATCH" || w == "PURGE" || w == "COPY" || w == "LOCK" || w == "MKCOL" || w == "MOVE"
  }

  predicate IsLate(w: Text) {
    w == "PROPFIND" || w == "PROPPATCH" || w == "SEARCH" || w == "UNLOCK" || w == "REPORT" || w == "MKACTIVITY" || w == "CHECKOUT"
    || w == "MERGE" || w == "M-SEARCH" || w == "NOTIFY" || w == "SUBSCRIBE" || w == "UNSUBSCRIBE" || w == "MKCALENDAR"
  }

  lemma {:induction false} NamesAreMethods(m: Method)
    ensures IsMethod(MethodName(m))
  {
  }

  lemma {:induction false} MethodOf(w: Text) returns (m: Method)
    requires IsMethod(w)
    ensures MethodName(m) == w
  {
    if IsEarly(w) {
      m := EarlyMethod(w);
    } else {
      m := LateMethod(w);
    }
  }

  lemma {:induction false} EarlyMethod(w: Text) returns (m: Method)
    requires IsEarly(w)
    ensures MethodName(m) == w
  {
    m :=
      if w == "DELETE" then DELETE
      else if w == "GET" then GET
      else if w == "HEAD" then HEAD
      else if w == "POST" then POST
      else if w == "PUT" then PUT
      else if w == "CONNECT" then CONNECT
      else if w == "OPTIONS" then OPTIONS
      else if w == "TRACE" then TRACE
      else if w == "PATCH" then PATCH
      else if w == "PURGE" then PURGE
      else if w == "COPY" then COPY
      else if w == "LOCK" then LOCK
      else if w == "MKCOL" then MKCOL
      else MOVE;
  }

  lemma {:induction false} LateMethod(w: Text) returns (m: Method)
    requires IsLate(w)
    ensures MethodName(m) == w
  {
    m :=
      if w == "PROPFIND" then PROPFIND
      else if w == "PROPPATCH" then PROPPATCH
      else if w == "SEARCH" then SEARCH
      else if w == "UNLOCK" then UNLOCK
      else if w == "REPORT" then REPORT
      else if w == "MKACTIVITY" then MKACTIVITY
      else if w == "CHECKOUT" then CHECKOUT
      else if w == "MERGE" then MERGE
      else if w == "M-SEARCH" then MSEARCH
      else if w == "NOTIFY" then NOTIFY
      else if w == "SUBSCRIBE" then SUBSCRIBE
      else if w == "UNSUBSCRIBE" then UNSUBSCRIBE
      else MKCALENDAR;
  }

  /** The next guess shares the letters read so far, and has the next one. */
  lemma {:induction false} GuessShares(m: Method, i: nat, c: Byte)
    requires i >= 1 && NextGuess(m, i, c).Some?
    ensures var k := NextGuess(m, i, c).value; i < |MethodName(m)| && MethodName(m)[..i] + [c] <= MethodName(k)
  {
    var k := NextGuess(m, i, c).value;
    assert i < |MethodName(m)| && i < |MethodName(k)| && MethodName(k)[i] == c;
  }

  /** Either something was refused, or the letters read are the first of the method guessed. */
  predicate ReadsMethod(r: Progress, q: Progress, w: Text) {
    && !q.p.state.SpacesBeforeUrl?
    && (q.Going() ==> q.p.state.ReqMethod? && q.p.index == |w| && w <= MethodName(q.p.verb) && q.p.nread == r.p.nread + |w|)
  }

  lemma {:induction false} LettersRead(r: Progress, w: Text)
    requires r.p.state.StartReq? && Room(r, |w|) && w != [] && SPACE !in w && w[0] != CR && w[0] != LF
    ensures ReadsMethod(r, Run(r, w), w)
  {
    var front, c := w[..|w| - 1], w[|w| - 1];
    assert front + [c] == w;
    if front == [] {
      RunOne(r, c);
      FirstLetter(r, c);
    } else {
      LettersRead(r, front);
      RunThen(r, front, Run(r, front), [c]);
      RunOne(Run(r, front), c);
      NextLetter(r, Run(r, front), front, c);
    }
  }

  lemma {:induction false} FirstLetter(r: Progress, c: Byte)
    requires r.p.state.StartReq? && Room(r, 1) && c != CR && c != LF
    ensures ReadsMethod(r, StepOn(r, c), [c])
  {
  }

  lemma {:induction false} NextLetter(r: Progress, q: Progress, front: Text, c: Byte)
    requires Room(r, |front| + 1) && front != [] && c != SPACE && ReadsMethod(r, q, front)
    ensures ReadsMethod(r, StepOn(q, c), front + [c])
  {
    if q.Going() {
      LetterTaken(q.p.(nread := q.p.nread + 1), front, c);
    }
  }

  lemma {:induction false} LetterTaken(p: HttpMachine.Parser, front: Text, c: Byte)
    requires p.errno == OK && p.state.ReqMethod? && front != [] && p.index == |front| && front <= MethodName(p.verb) && c != SPACE
    ensures var n := MethodByte(p, c);
            && n.p.state.ReqMethod? && !n.leave && n.p.nread == p.nread
            && (n.p.errno == OK ==> n.p.index == |front| + 1 && front + [c] <= MethodName(n.p.verb))
  {
    assert MethodName(p.verb)[..|front|] == front;
    if NextGuess(p.verb, p.index, c).Some? {
      GuessShares(p.verb, p.index, c);
    }
  }

  /** A request line begins with one of these words: every one is taken for the method of its name, and nothing else is. */
  lemma {:induction false} MethodsExactly(r: Progress, w: Text)
    requires r.p.state.StartReq? && Room(r, |w| + 1) && w != [] && SPACE !in w && w[0] != CR && w[0] != LF
    ensures var q := Run(r, w + [SPACE]);
            && (q.p.state.SpacesBeforeUrl? <==> IsMethod(w))
            && (IsMethod(w) ==> q.Going() && MethodName(q.p.verb) == w)
  {
    if IsMethod(w) {
      var m := MethodOf(w);
      RunVerb(r, m);
    } else {
      LettersRead(r, w);
      RunThen(r, w, Run(r, w), [SPACE]);
      RunOne(Run(r, w), SPACE);
      BlankRefused(r, Run(r, w), w);
    }
  }

  lemma {:induction false} BlankRefused(r: Progress, q: Progress, w: Text)
    requires Room(r, |w| + 1) && ReadsMethod(r, q, w) && w != [] && !IsMethod(w)
    ensures !StepOn(q, SPACE).p.state.SpacesBeforeUrl?
  {
    if q.Going() {
      NamesAreMethods(q.p.verb);
      BlankTooEarly(q.p.(nread := q.p.nread + 1), w);
      LetterSteps(q, SPACE);
    }
  }

  lemma {:induction false} LetterSteps(q: Progress, c: Byte)
    requires Room(q, 1) && q.p.state.ReqMethod?
    ensures StepOn(q, c).p == MethodByte(q.p.(nread := q.p.nread + 1), c).p
  {
  }

  lemma {:induction false} BlankTooEarly(p: HttpMachine.Parser, w: Text)
    requires w != [] && w < MethodName(p.verb) && p.index == |w| && p.errno == OK && p.state.ReqMethod?
    ensures MethodByte(p, SPACE).p.state.ReqMethod?
  {
    HttpNames.GuessGoesOn(p.verb, |w|);
  }

  // ---------------------------------------------------------------- every other state

  function Unless(ok: bool, e: Errno): Errno {
    if ok then OK else e
  }

  predicate IsLineEnd(ch: Byte) {
    ch as int == 13 || ch as int == 10
  }

  /** The error for a byte, in the states outside the method and the url. */
  function Refusal(p: HttpMachine.Parser, ch: Byte): Errno {
    match p.state
    case Dead => Unless(IsLineEnd(ch), ClosedConnection)
    case StartReq => Unless(IsLineEnd(ch) || ch in "CDGHLMNOPRSTU", InvalidMethod)
    case HttpStart => Unless(ch == 'H' || ch == ' ', InvalidConstant)
    case HttpH => Unless(ch == 'T', Strict)
    case HttpHT => Unless(ch == 'T', Strict)
    case HttpHTT => Unless(ch == 'P', Strict)
    case HttpHTTP => Unless(ch == '/', Strict)
    case FirstMajor => Unless(ch in "123456789", InvalidVersion)
    case Major => Unless(ch == '.' || (IsDigit(ch) && p.major * 10 + DigitValue(ch) < 1000), InvalidVersion)
    case FirstMinor => Unless(IsDigit(ch), InvalidVersion)
    case Minor => Unless(IsLineEnd(ch) || (IsDigit(ch) && p.minor * 10 + DigitValue(ch) < 1000), InvalidVersion)
    case LineAlmostDone => Unless(ch as int == 10, LfExpected)
    case FieldStart => Unless(IsLineEnd(ch) || IsNameByte(ch), InvalidHeaderToken)
    case Field => Unless(IsLineEnd(ch) || ch == ':' || IsNameByte(ch), InvalidHeaderToken)
    case DiscardWs => Unless(IsLineEnd(ch) || ch == ' ' || ch as int == 9 || LengthMayBegin(p, ch), InvalidContentLength)
    case DiscardWsAlmostDone => Unless(ch as int == 10, Strict)
    case DiscardLws => Unless(IsLineEnd(ch) || ch == ' ' || ch as int == 9 || IsNameByte(ch), InvalidHeaderToken)
    case ValueStart => Unless(LengthMayBegin(p, ch), InvalidContentLength)
    case Value =>
      Unless(IsLineEnd(ch) || p.headerState != ContentLength || ch == ' '
             || (IsDigit(ch) && p.contentLength <= 0x1999_9999_9999_9998), InvalidContentLength)
    case ValueLws =>
      if ch == ' ' || ch as int == 9 then Unless(p.headerState != ContentLength, InvalidContentLength)
      else Unless(IsLineEnd(ch) || IsNameByte(ch), InvalidHeaderToken)
    case HeaderAlmostDone => Unless(ch as int == 10, Strict)
    case HeadersAlmostDone => Unless(ch as int == 10, Strict)
    case HeadersDone => Unless(ch as int == 10, Strict)
    case ChunkSizeStart => Unless(IsSizeDigit(ch), InvalidChunkSize)
    case ChunkSize =>
      if IsSizeDigit(ch) then Unless(p.contentLength <= 0xFFF_FFFF_FFFF_FFFE, InvalidContentLength)
      else Unless(ch as int == 13 || ch == ';' || ch == ' ', InvalidChunkSize)
    case ChunkSizeAlmostDone => Unless(ch as int == 10, Strict)
    case ChunkDataAlmostDone => Unless(ch as int == 13, Strict)
    case ChunkDataDone => Unless(ch as int == 10, Strict)
    case _ => OK
  }

  predicate LengthMayBegin(p: HttpMachine.Parser, ch: Byte) {
    p.headerState != ContentLength || IsDigit(ch)
  }

  predicate IsSizeDigit(ch: Byte) {
    ch in "0123456789abcdefABCDEF" || ch as int >= 128
  }

  lemma {:induction false} VersionRefused(p: HttpMachine.Parser, ch: Byte)
    requires p.errno == OK
    requires p.state.HttpStart? || p.state.HttpH? || p.state.HttpHT? || p.state.HttpHTT? || p.state.HttpHTTP? || p.state.FirstMajor?
             || p.state.Major? || p.state.FirstMinor? || p.state.Minor? || p.state.LineAlmostDone?
    ensures VersionByte(p, ch).p.errno == Refusal(p, ch)
  {
  }

  lemma {:induction false} ChunkRefused(p: HttpMachine.Parser, ch: Byte)
    requires p.errno == OK
    requires p.state.ChunkSizeStart? || p.state.ChunkSize? || p.state.ChunkParameters? || p.state.ChunkSizeAlmostDone?
             || p.state.ChunkData? || p.state.ChunkDataAlmostDone? || p.state.ChunkDataDone?
    ensures ChunkByte(p, ch).p.errno == Refusal(p, ch)
  {
    SizeDigits(ch);
  }

  lemma {:induction false} HeaderRefused(p: HttpMachine.Parser, ch: Byte)
    requires p.errno == OK
    requires p.state.FieldStart? || p.state.Field? || p.state.DiscardLws? || p.state.HeadersAlmostDone? || p.state.HeadersDone?
    ensures HeaderByte(p, ch).p.errno == Refusal(p, ch)
  {
    NameBytes(ch);
  }

  lemma {:induction false} ValueRefused(p: HttpMachine.Parser, ch: Byte)
    requires p.errno == OK
    requires p.state.DiscardWs? || p.state.DiscardWsAlmostDone? || p.state.ValueStart? || p.state.Value? || p.state.HeaderAlmostDone?
    ensures HeaderByte(p, ch).p.errno == Refusal(p, ch)
  {
  }

  lemma {:induction false} LineRefused(p: HttpMachine.Parser, ch: Byte)
    requires p.errno == OK && p.state.ValueLws?
    ensures HeaderByte(p, ch).p.errno == Refusal(p, ch)
  {
    NameBytes(ch);
  }

  lemma {:induction false} RequestRefused(p: HttpMachine.Parser, ch: Byte)
    requires p.errno == OK && (p.state.Dead? || p.state.StartReq?)
    ensures RequestByte(p, ch).p.errno == Refusal(p, ch)
  {
  }

  /** A byte is refused exactly when the table says so, and with the error that it says. */
  lemma {:induction false} RefusedExactly(p: HttpMachine.Parser, ch: Byte)
    requires p.errno == OK && !p.state.ReqMethod? && !p.state.SpacesBeforeUrl? && !p.state.InUrl()
    ensures Switch(p, ch).p.errno == Refusal(p, ch)
  {
    match p.state
    case Dead | StartReq => RequestRefused(p, ch);
    case BodyIdentity | MessageDone =>
    case HttpStart | HttpH | HttpHT | HttpHTT | HttpHTTP | FirstMajor | Major | FirstMinor | Minor | LineAlmostDone => VersionRefused(p, ch);
    case ChunkSizeStart | ChunkSize | ChunkParameters | ChunkSizeAlmostDone | ChunkData | ChunkDataAlmostDone | ChunkDataDone =>
      ChunkRefused(p, ch);
    case DiscardWs | DiscardWsAlmostDone | ValueStart | Value | HeaderAlmostDone => ValueRefused(p, ch);
    case ValueLws => LineRefused(p, ch);
    case _ => HeaderRefused(p, ch);
  }

  /** Up to eighty times 1024 bytes of a head are read. */
  lemma {:induction false} HeadLimit(p: HttpMachine.Parser, ch: Byte)
    requires p.errno == OK && p.state.Field? && ch == 'a'
    ensures Step(p, ch).p.errno == if p.nread < 81920 then OK else HeaderOverflow
  {
  }

  /** No more are, whatever they are. */
  lemma {:induction false} TooLongAHead(r: Progress, ch: Byte)
    requires r.Going() && r.p.state.IsHeader() && r.p.nread >= 81920
    ensures StepOn(r, ch).p.errno == HeaderOverflow && StepOn(r, ch).log == r.log
  {
  }
}
