/** What the parser takes besides the plain form of a request: bare line feeds, blanks, folded values, upgrades. */
module HttpVariants {
  import opened Bytes
  import opened HttpSyntax
  import opened HttpMachine
  import opened HttpLog
  import opened HttpNames
  import opened HttpRoundTrip
  import opened HttpBodies
  import HttpRequest

  // ---------------------------------------------------------------- tables

  /** The bytes of section 3.2.6 of RFC 7230. */
  predicate IsNameByte(c: Byte) {
    'a' <= c <= 'z' || 'A' <= c <= 'Z' || '0' <= c <= '9' || c in "!#$%&'*+-.^_`|~"
  }

  /** The bytes of a header name are these, compared in lower case. */
  lemma {:induction false} NameBytes(c: Byte)
    ensures Token(c) != NUL <==> IsNameByte(c)
    ensures IsNameByte(c) ==> Token(c) as int == if 'A' <= c <= 'Z' then c as int + 32 else c as int
  {
  }

  /** The digits of a chunk's size, in either case; a byte beyond ASCII is read as a zero. */
  lemma {:induction false} SizeDigits(c: Byte)
    ensures forall v :: 0 <= v < 16 && (c == "0123456789abcdef"[v] || c == "0123456789ABCDEF"[v]) ==> Unhex(c) == Some(v)
    ensures Unhex(c).Some? ==> c in "0123456789abcdefABCDEF" || c as int >= 0x80
    ensures c as int >= 0x80 ==> Unhex(c) == Some(0)
  {
  }

  // ---------------------------------------------------------------- line ends and blanks

  /** Line ends before a request are passed over. */
  lemma {:induction false} LineEndsBefore(r: Progress, c: Byte)
    requires Room(r, 1) && r.p.state.StartReq? && (c == '\r' || c == '\n')
    ensures StepOn(r, c) == Progress(r.p.(nread := r.p.nread + 1), r.log, false)
  {
  }

  /** So are blanks before the url, before the protocol, and before a value. */
  lemma {:induction false} BlanksBefore(r: Progress, c: Byte)
    requires Room(r, 1) && (c == ' ' || (c == '\t' && r.p.state.DiscardWs?))
    requires r.p.state.SpacesBeforeUrl? || r.p.state.HttpStart? || r.p.state.DiscardWs?
    ensures StepOn(r, c) == Progress(r.p.(nread := r.p.nread + 1), r.log, false)
  {
  }

  /** A bare line feed ends the request line as well, */
  lemma {:induction false} BareFeedAfterVersion(r: Progress)
    requires Room(r, 2) && r.p.state.Minor?
    ensures Run(r, "\n") == Progress(r.p.(state := FieldStart, nread := r.p.nread + 1), r.log, false)
    ensures Run(r, "\r\n") == Progress(r.p.(state := FieldStart, nread := r.p.nread + 2), r.log, false)
  {
    RunOne(r, '\n');
    RunLineEnd(r);
  }

  /** a header, */
  lemma {:induction false} BareFeedAfterValue(r: Progress)
    requires Room(r, 2) && r.p.state.Value?
    ensures Run(r, "\n") == Progress(r.p.(state := ValueLws, nread := r.p.nread + 1), r.log, false)
    ensures Run(r, "\r\n") == Progress(r.p.(state := ValueLws, nread := r.p.nread + 2), r.log, false)
  {
    RunOne(r, '\n');
    ValueEnd(r);
  }

  /** A request line without a version is one of version 0.9. */
  lemma {:induction false} NoVersion(r: Progress)
    requires Room(r, 1) && r.p.state.InUrl()
    requires !r.p.state.Schema? && !r.p.state.SchemaSlash? && !r.p.state.SchemaSlashSlash? && !r.p.state.ServerStart?
    ensures StepOn(r, '\n') == Progress(r.p.(state := FieldStart, major := 0, minor := 9, nread := r.p.nread + 1), r.log, false)
    ensures StepOn(r, '\r') == Progress(r.p.(state := LineAlmostDone, major := 0, minor := 9, nread := r.p.nread + 1), r.log, false)
  {
  }

  // ---------------------------------------------------------------- values

  /** A line that begins with a blank goes on with the value before it. */
  lemma {:induction false} FoldedValue(r: Progress, c: Byte)
    requires Room(r, 1) && r.p.state.ValueLws? && (c == ' ' || c == '\t') && Harmless(r.p.headerState) && !r.p.headerState.ContentLength?
    ensures var q := StepOn(r, c);
            q.Going() && q.p.state.Value? && q.p.headerState.General? && q.p.flags == r.p.flags && q.log == Emit(r.log, Data(FieldValue, [c]))
  {
    EmitOne(r.log, Data(FieldValue, [c]));
  }

  /** A value may be empty: it is reported as such when the next line begins. */
  lemma {:induction false} EmptyValueRuns(r: Progress, c: Byte)
    requires Room(r, 3) && r.p.state.DiscardWs? && Token(c) != NUL
    ensures var q := Run(r, "\r\n");
            && q == Progress(r.p.(state := DiscardLws, nread := r.p.nread + 2), r.log, false)
            && StepOn(q, c).log == Emit(Emit(r.log, Data(FieldValue, [])), Data(FieldName, [c])) && StepOn(q, c).p.state.Field?
  {
    RunTwo(r, '\r', '\n');
    EmptyReturn(r);
    EmptyFeed(StepOn(r, '\r'));
    var q := Run(r, "\r\n");
    NextAfterEmpty(q, c);
    EmitTwo(q.log, Data(FieldValue, []), Data(FieldName, [c]));
  }

  lemma {:induction false} EmptyReturn(r: Progress)
    requires Room(r, 1) && r.p.state.DiscardWs?
    ensures StepOn(r, '\r') == Progress(r.p.(state := DiscardWsAlmostDone, nread := r.p.nread + 1), r.log, false)
  {
  }

  lemma {:induction false} EmptyFeed(r: Progress)
    requires Room(r, 1) && r.p.state.DiscardWsAlmostDone?
    ensures StepOn(r, '\n') == Progress(r.p.(state := DiscardLws, nread := r.p.nread + 1), r.log, false)
  {
  }

  lemma {:induction false} NextAfterEmpty(r: Progress, c: Byte)
    requires Room(r, 1) && r.p.state.DiscardLws? && Token(c) != NUL
    ensures StepOn(r, c).log == EmitAll(r.log, [Data(FieldValue, []), Data(FieldName, [c])]) && StepOn(r, c).p.state.Field?
  {
    EmptyStep(r.p, c);
  }

  lemma {:induction false} EmptyStep(p: HttpMachine.Parser, c: Byte)
    requires p.nread < MAX_HEADER_SIZE && p.state.DiscardLws? && Token(c) != NUL
    ensures Step(p, c).out == [Data(FieldValue, []), Data(FieldName, [c])] && Step(p, c).p.state.Field?
  {
    assert c != SPACE && c != TAB && c != CR && c != LF;
    assert [Data(FieldValue, [])] + [Data(FieldName, [c])] == [Data(FieldValue, []), Data(FieldName, [c])];
  }

  // ---------------------------------------------------------------- leaving the protocol

  /** The value of an upgrade header sets its flag. */
  lemma {:induction false} UpgradeAsked(r: Progress, c: Byte)
    requires Room(r, 1) && r.p.state.DiscardWs? && r.p.headerState.Upgrade? && c != ' ' && c != '\t' && c != '\r' && c != '\n'
    ensures var q := StepOn(r, c);
            q.Going() && q.p.state.Value? && q.p.flags == r.p.flags.(upgrade := true) && q.log == Emit(r.log, Data(FieldValue, [c]))
  {
    EmitOne(r.log, Data(FieldValue, [c]));
  }

  /** With an upgrade, or the method CONNECT, the message ends with its headers, and the parser leaves the protocol there. */
  lemma {:induction false} UpgradeLeaves(r: Progress)
    requires Room(r, 1) && r.p.state.HeadersAlmostDone? && !r.p.flags.trailing
    ensures var q := StepOn(r, '\n');
            && q.p.errno == OK && q.p.upgrade == q.left == (r.p.flags.upgrade || r.p.verb == CONNECT)
            && (q.left ==> q.log == Emit(Emit(r.log, HeadersComplete), MessageComplete) && q.p.nread == 0)
  {
    EmitOne(r.log, HeadersComplete);
    EmitTwo(r.log, HeadersComplete, MessageComplete);
  }

  /** What comes behind an upgraded request is not read. */
  lemma {:induction false} NothingAfterUpgrade(r: Progress, more: Text)
    requires r.left
    ensures Run(r, more) == r
  {
    RunStopped(r, more);
  }

  /** The target of CONNECT begins with a server, without a scheme. */
  lemma {:induction false} ConnectTarget(r: Progress, c: Byte)
    requires Room(r, 1) && r.p.state.SpacesBeforeUrl? && r.p.verb == CONNECT && IsAlpha(c)
    ensures var q := StepOn(r, c); q.Going() && q.p.state.Server? && q.log == Emit(r.log, Data(Url, [c]))
  {
    EmitOne(r.log, Data(Url, [c]));
  }
}
