/** The request parser over buffers: fields, marks into the buffer, bodies read in bulk, callbacks. */
module HttpParser {
  import opened Bytes
  import opened HttpSyntax
  import opened HttpMachine
  import opened HttpInvariant
  import opened HttpLog

  /** Where in the buffer each text began; nothing when no such text is open. */
  datatype Marks = Marks(name: Option<nat>, value: Option<nat>, url: Option<nat>, body: Option<nat>)
  {
    function Get(k: Kind): Option<nat> {
      match k
      case Url => url
      case FieldName => name
      case FieldValue => value
      case Body => body
    }

    function With(k: Kind, at: Option<nat>): (r: Marks)
      ensures r.Get(k) == at && forall j :: j != k ==> r.Get(j) == Get(j)
    {
      match k
      case Url => this.(url := at)
      case FieldName => this.(name := at)
      case FieldValue => this.(value := at)
      case Body => this.(body := at)
    }
  }

  const NO_MARKS := Marks(None, None, None, None)

  /** An empty value is reported before what the next line's first byte reports. */
  lemma {:induction false} EmptyFirst(seen: seq<Event>, s: Stepped)
    ensures EmitAll(seen, EmptyValue(s).out) == EmitAll(Emit(seen, Data(FieldValue, [])), s.out)
  {
    EmitOne(seen, Data(FieldValue, []));
    EmitAllConcat(seen, [Data(FieldValue, [])], s.out);
  }

  class Parser {
    var state: State
    var headerState: HeaderState
    var index: nat
    var nread: nat
    var contentLength: nat
    var flags: Flags
    var major: nat
    var minor: nat
    var verb: Method
    var errno: Errno
    var upgrade: bool

    /** The callbacks made so far; like the handler's, they append data that follows data of its kind. */
    var log: seq<Event>

    /** The marks of the call in progress. */
    var marks: Marks
    ghost var open: Option<Kind>

    function Now(): HttpMachine.Parser
      reads this
    {
      HttpMachine.Parser(state, headerState, index, nread, contentLength, flags, major, minor, verb, errno, upgrade)
    }

    /** Between calls: no mark, and a parser that is not in error is in a reachable state. */
    ghost predicate Valid()
      reads this
    {
      marks == NO_MARKS && open.None? && (errno == OK ==> Sound(Now()) && LogFits(Now(), log))
    }

    constructor ()
      ensures Valid() && Now() == INIT && log == []
    {
      state, headerState, index, nread, contentLength := StartReq, General, 0, 0, 0;
      flags, major, minor, verb, errno, upgrade := NO_FLAGS, 0, 0, DELETE, OK, false;
      log, marks, open := [], NO_MARKS, None;
    }

    // -------------------------------------------------------------- marks and callbacks

    /** At most one mark is set, and it is behind the cursor. */
    ghost predicate MarksOk(i: nat)
      reads this
    {
      && (forall k: Kind :: marks.Get(k).Some? <==> open == Some(k))
      && (open.Some? ==> marks.Get(open.value).value <= i)
    }

    /** What has been seen: the callbacks made, and the text under the mark. */
    ghost function Shown(data: Text, i: nat): seq<Event>
      requires MarksOk(i) && i <= |data|
      reads this
    {
      if open.None? then log else Emit(log, Data(open.value, data[marks.Get(open.value).value..i]))
    }

    method Mark(k: Kind, i: nat)
      requires MarksOk(i) && (open.None? || open == Some(k))
      modifies `marks, `open
      ensures MarksOk(i) && open == Some(k)
      ensures marks.Get(k) == if old(open).Some? then old(marks.Get(k)) else Some(i)
    {
      if marks.Get(k).None? {
        marks := marks.With(k, Some(i));
        open := Some(k);
      }
    }

    /** Marks bytes as part of a text and leaves them under the mark. */
    method CoverTo(k: Kind, data: Text, i: nat, j: nat)
      requires i <= j <= |data| && MarksOk(i) && (open.None? || open == Some(k))
      modifies `marks, `open
      ensures MarksOk(j) && open == Some(k)
      ensures Shown(data, j) == Emit(old(Shown(data, i)), Data(k, data[i..j]))
    {
      Mark(k, i);
      ghost var m := marks.Get(k).value;
      assert data[m..j] == data[m..i] + data[i..j];
      EmitMerge(log, k, data[m..i], data[i..j]);
    }

    method Cover(k: Kind, data: Text, i: nat)
      requires i < |data| && MarksOk(i) && (open.None? || open == Some(k))
      modifies `marks, `open
      ensures MarksOk(i + 1) && open == Some(k)
      ensures Shown(data, i + 1) == Emit(old(Shown(data, i)), Data(k, [data[i]]))
    {
      assert data[i..i + 1] == [data[i]];
      CoverTo(k, data, i, i + 1);
    }

    /** The data callback for one kind: reports the text under its mark, if there is one, and clears the mark. */
    method Flush(k: Kind, data: Text, i: nat)
      requires i <= |data| && MarksOk(i)
      modifies `log, `marks, `open
      ensures MarksOk(i) && Shown(data, i) == old(Shown(data, i))
      ensures open == if old(open) == Some(k) then None else old(open)
    {
      var m := marks.Get(k);
      if m.Some? {
        assert open == Some(k);
        Notify(Data(k, data[m.value..i]));
        marks := marks.With(k, None);
        open := None;
      }
    }

    method Notify(e: Event)
      modifies `log
      ensures log == Emit(old(log), e)
    {
      log := Emit(log, e);
    }

    /** Only the text the state is in the middle of is under a mark. */
    ghost predicate OpenFits()
      reads this
    {
      open == KindOf(state) || (open == Some(Body) && (InBody(state) || state.ChunkDataAlmostDone?))
    }

    /** The callbacks made, with the text under the mark, show `seen`. */
    ghost predicate Reports(data: Text, i: nat, seen: seq<Event>)
      requires i <= |data|
      reads this
    {
      MarksOk(i) && OpenFits() && Shown(data, i) == seen
    }

    /** In a state outside texts, with nothing under a mark, what is shown are the callbacks made. */
    lemma {:induction false} ReportsClosed(data: Text, i: nat)
      requires i < |data| && MarksOk(i) && open.None? && KindOf(state).None?
      ensures Reports(data, i + 1, log)
    {
    }

    // -------------------------------------------------------------- the request line

    /** The first byte of a request, or a line end before it. */
    method StartRequest(ch: Byte)
      requires errno == OK && (state.Dead? || state.StartReq?)
      modifies `state, `flags, `contentLength, `verb, `index, `errno
      ensures Now() == RequestByte(old(Now()), ch).p
    {
      if ch == CR || ch == LF {
        return;
      }
      if state.Dead? {
        errno := ClosedConnection;
        return;
      }
      flags, contentLength := NO_FLAGS, ULLONG_MAX;
      if !IsAlpha(ch) {
        errno := InvalidMethod;
        return;
      }
      verb, index := DELETE, 1;
      var m := FirstGuess(ch);
      if m.None? {
        errno := InvalidMethod;
      } else {
        verb, state := m.value, ReqMethod;
      }
    }

    method OnStart(data: Text, i: nat, ghost seen: seq<Event>)
      requires errno == OK && i < |data| && Reports(data, i, seen) && (state.Dead? || state.StartReq?)
      modifies this
      ensures Now() == RequestByte(old(Now()), data[i]).p
      ensures errno == OK ==> Reports(data, i + 1, EmitAll(seen, RequestByte(old(Now()), data[i]).out))
      ensures errno != OK ==> log == EmitAll(old(log), RequestByte(old(Now()), data[i]).out)
    {
      EmitOne(seen, MessageBegin);
      StartRequest(data[i]);
      if state.ReqMethod? {
        Notify(MessageBegin);
      }
    }

    method OnMethod(ch: Byte)
      requires errno == OK && state.ReqMethod?
      modifies `state, `index, `verb, `errno
      ensures Now() == MethodByte(old(Now()), ch).p
    {
      if ch == NUL {
        errno := InvalidMethod;
        return;
      }
      var matcher := MethodName(verb);
      if ch == SPACE && Peek(matcher, index) == NUL {
        state := SpacesBeforeUrl;
      } else if ch != Peek(matcher, index) {
        var m := NextGuess(verb, index, ch);
        if m.None? {
          errno := InvalidMethod;
          return;
        }
        verb := m.value;
      }
      index := index + 1;
    }

    /** The url automaton. */
    method CheckUrl(ch: Byte)
      requires errno == OK
      modifies `state, `errno
      ensures Now() == UrlByte(old(Now()), UrlStateOf(old(Now())), ch).p
    {
      if state.SpacesBeforeUrl? && verb == CONNECT {
        state := ServerStart;
      }
      state := NextInUrl(state, ch);
      if state == Dead {
        errno := InvalidUrl;
      }
    }

    /** A byte of the url: marked, and checked by the url automaton. */
    method OnUrl(data: Text, i: nat, ghost seen: seq<Event>)
      requires errno == OK && i < |data| && Reports(data, i, seen) && (state.SpacesBeforeUrl? || state.InUrl())
      requires data[i] != SPACE
      modifies this
      ensures Now() == UrlByte(old(Now()), UrlStateOf(old(Now())), data[i]).p
      ensures errno == OK ==> Reports(data, i + 1, EmitAll(seen, UrlByte(old(Now()), UrlStateOf(old(Now())), data[i]).out))
      ensures errno != OK ==> log == EmitAll(old(log), UrlByte(old(Now()), UrlStateOf(old(Now())), data[i]).out)
    {
      UrlOut(Now(), UrlStateOf(Now()), data[i]);
      EmitOne(seen, Data(Url, [data[i]]));
      CheckUrl(data[i]);
      if errno == OK {
        Cover(Url, data, i);
      }
    }

    /** What the blank after the url says. */
    method LeaveUrl(ch: Byte)
      requires errno == OK && (ch == SPACE || ch == CR || ch == LF)
      modifies `state, `major, `minor, `errno
      ensures Now() == UrlEnd(old(Now()), ch).p
      ensures errno == OK ==> state.HttpStart? || state.LineAlmostDone? || state.FieldStart?
    {
      if state.Schema? || state.SchemaSlash? || state.SchemaSlashSlash? || state.ServerStart? {
        errno := InvalidUrl;
      } else if ch == SPACE {
        state := HttpStart;
      } else {
        major, minor := 0, 9;
        state := if ch == CR then LineAlmostDone else FieldStart;
      }
    }

    /** The blank after the url. */
    method EndUrl(data: Text, i: nat, ghost seen: seq<Event>)
      requires errno == OK && i < |data| && MarksOk(i) && open == Some(Url) && Shown(data, i) == seen
      requires data[i] == SPACE || data[i] == CR || data[i] == LF
      modifies this
      ensures Now() == UrlEnd(old(Now()), data[i]).p
      ensures if errno == OK then Reports(data, i + 1, seen) else log == old(log)
    {
      LeaveUrl(data[i]);
      if errno == OK {
        Flush(Url, data, i);
      }
    }

    method OnInUrl(data: Text, i: nat, ghost seen: seq<Event>)
      requires errno == OK && i < |data| && Reports(data, i, seen) && state.InUrl()
      modifies this
      ensures Now() == InUrlByte(old(Now()), data[i]).p
      ensures errno == OK ==> Reports(data, i + 1, EmitAll(seen, InUrlByte(old(Now()), data[i]).out))
      ensures errno != OK ==> log == EmitAll(old(log), InUrlByte(old(Now()), data[i]).out)
    {
      if data[i] == SPACE || data[i] == CR || data[i] == LF {
        EndUrl(data, i, seen);
      } else {
        OnUrl(data, i, seen);
      }
    }

    /** In strict mode a byte that is not the one expected ends the parse. */
    method StrictCheck(ok: bool, next: State, e: Errno)
      requires errno == OK
      modifies `state, `errno
      ensures Now() == Expect(old(Now()), ok, next, e).p
    {
      if ok {
        state := next;
      } else {
        errno := e;
      }
    }

    method OnVersion(ch: Byte)
      requires errno == OK && InVersion(state)
      modifies `state, `major, `minor, `errno
      ensures Now() == VersionByte(old(Now()), ch).p
    {
      match state
      case HttpStart =>
        if ch == 'H' {
          state := HttpH;
        } else if ch != SPACE {
          errno := InvalidConstant;
        }
      case HttpH => StrictCheck(ch == 'T', HttpHT, Strict);
      case HttpHT => StrictCheck(ch == 'T', HttpHTT, Strict);
      case HttpHTT => StrictCheck(ch == 'P', HttpHTTP, Strict);
      case HttpHTTP => StrictCheck(ch == '/', FirstMajor, Strict);
      case FirstMajor =>
        if ch < '1' || ch > '9' {
          errno := InvalidVersion;
        } else {
          major, state := DigitValue(ch), Major;
        }
      case Major =>
        if ch == '.' {
          state := FirstMinor;
        } else if !IsDigit(ch) {
          errno := InvalidVersion;
        } else {
          major := major * 10 + DigitValue(ch);
          if major > 999 {
            errno := InvalidVersion;
          }
        }
      case FirstMinor =>
        if !IsDigit(ch) {
          errno := InvalidVersion;
        } else {
          minor, state := DigitValue(ch), Minor;
        }
      case Minor =>
        if ch == CR {
          state := LineAlmostDone;
        } else if ch == LF {
          state := FieldStart;
        } else if !IsDigit(ch) {
          errno := InvalidVersion;
        } else {
          minor := minor * 10 + DigitValue(ch);
          if minor > 999 {
            errno := InvalidVersion;
          }
        }
      case LineAlmostDone => StrictCheck(ch == LF, FieldStart, LfExpected);
      case _ =>
    }

    // -------------------------------------------------------------- the headers

    /** The line feed that ends the headers, or the trailers of a chunked message. */
    method OnHeadersAlmostDone(ghost seen: seq<Event>) returns (left: bool)
      requires errno == OK && log == seen
      modifies `state, `upgrade, `nread, `log
      ensures Now() == HeadersEnd(old(Now())).p && left == HeadersEnd(old(Now())).leave
      ensures log == EmitAll(seen, HeadersEnd(old(Now())).out)
    {
      if flags.trailing {
        state := NewMessage(Now());
        EmitOne(seen, MessageComplete);
        Notify(MessageComplete);
        left := false;
      } else {
        state := HeadersDone;
        upgrade := flags.upgrade || verb == CONNECT;
        Notify(HeadersComplete);
        left := OnHeadersDone(seen);
      }
    }

    /** What follows the headers. */
    method OnHeadersDone(ghost seen: seq<Event>) returns (left: bool)
      requires errno == OK && state.HeadersDone? && log == Emit(seen, HeadersComplete)
      requires !flags.trailing && upgrade == (flags.upgrade || verb == CONNECT)
      modifies `state, `nread, `log
      ensures Now() == HeadersEnd(old(Now())).p && left == HeadersEnd(old(Now())).leave
      ensures log == EmitAll(seen, HeadersEnd(old(Now())).out)
    {
      nread := 0;
      left := upgrade;
      EmitOne(seen, HeadersComplete);
      EmitTwo(seen, HeadersComplete, MessageComplete);
      if !upgrade && flags.chunked {
        state := ChunkSizeStart;
      } else if !upgrade && contentLength != 0 && contentLength != ULLONG_MAX {
        state := BodyIdentity;
      } else {
        state := NewMessage(Now());
        Notify(MessageComplete);
      }
    }

    /** The line feed, seen from the headers. */
    method EndHeaders(data: Text, i: nat, ghost seen: seq<Event>) returns (left: bool)
      requires errno == OK && i < |data| && Reports(data, i, seen) && open.None?
      modifies this
      ensures errno == OK && Now() == HeadersEnd(old(Now())).p && left == HeadersEnd(old(Now())).leave
      ensures Reports(data, i + 1, EmitAll(seen, HeadersEnd(old(Now())).out))
    {
      HeadersEndBetweenTexts(Now());
      left := OnHeadersAlmostDone(seen);
    }

    /** The first byte of a header's name. */
    method StartName(data: Text, i: nat, ghost seen: seq<Event>)
      requires errno == OK && i < |data| && MarksOk(i) && Shown(data, i) == seen && open.None? && state.FieldStart?
      requires data[i] != CR && data[i] != LF
      modifies this
      ensures Now() == FieldStartByte(old(Now()), data[i]).p
      ensures errno == OK ==> Reports(data, i + 1, EmitAll(seen, FieldStartByte(old(Now()), data[i]).out))
      ensures errno != OK ==> log == EmitAll(old(log), FieldStartByte(old(Now()), data[i]).out)
    {
      var c := Token(data[i]);
      if c == NUL {
        errno := InvalidHeaderToken;
      } else {
        EmitOne(seen, Data(FieldName, [data[i]]));
        Cover(FieldName, data, i);
        index, state, headerState := 0, Field, FirstOfName(c);
      }
    }

    method OnFieldStart(data: Text, i: nat, ghost seen: seq<Event>) returns (left: bool)
      requires errno == OK && i < |data| && Reports(data, i, seen) && open.None? && state.FieldStart?
      modifies this
      ensures Now() == FieldStartByte(old(Now()), data[i]).p
      ensures left == FieldStartByte(old(Now()), data[i]).leave
      ensures errno == OK ==> Reports(data, i + 1, EmitAll(seen, FieldStartByte(old(Now()), data[i]).out))
      ensures errno != OK ==> log == EmitAll(old(log), FieldStartByte(old(Now()), data[i]).out)
    {
      var ch := data[i];
      left := false;
      if ch == CR {
        state := HeadersAlmostDone;
        ReportsClosed(data, i);
      } else if ch == LF {
        state := HeadersAlmostDone;
        left := EndHeaders(data, i, seen);
      } else {
        StartName(data, i, seen);
      }
    }

    /** One more byte against the names that matter. */
    method MatchName(ch: Byte, c: Byte)
      requires errno == OK && state.Field? && c == Token(ch) != NUL
      modifies `headerState, `index
      ensures Now() == FieldByte(old(Now()), ch).p
    {
      var m := NextOfName(headerState, index, ch, c);
      headerState, index := m.0, m.1;
    }

    /** The end of a name. */
    method EndName(data: Text, i: nat, ghost seen: seq<Event>)
      requires errno == OK && i < |data| && Reports(data, i, seen) && state.Field?
      requires data[i] == ':' || data[i] == CR || data[i] == LF
      modifies this
      ensures errno == OK && Now() == FieldByte(old(Now()), data[i]).p
      ensures Reports(data, i + 1, seen)
    {
      state := if data[i] == ':' then DiscardWs else if data[i] == CR then HeaderAlmostDone else FieldStart;
      Flush(FieldName, data, i);
    }

    method OnField(data: Text, i: nat, ghost seen: seq<Event>)
      requires errno == OK && i < |data| && Reports(data, i, seen) && state.Field?
      modifies this
      ensures Now() == FieldByte(old(Now()), data[i]).p
      ensures errno == OK ==> Reports(data, i + 1, EmitAll(seen, FieldByte(old(Now()), data[i]).out))
      ensures errno != OK ==> log == EmitAll(old(log), FieldByte(old(Now()), data[i]).out)
    {
      var ch := data[i];
      var c := Token(ch);
      if c != NUL {
        Cover(FieldName, data, i);
        MatchName(ch, c);
        EmitOne(seen, Data(FieldName, [ch]));
      } else if ch == ':' || ch == CR || ch == LF {
        EndName(data, i, seen);
      } else {
        errno := InvalidHeaderToken;
      }
    }

    /** What the first byte of a value says, given the header's name. */
    method StartValue(ch: Byte)
      requires errno == OK
      modifies `state, `index, `headerState, `flags, `contentLength, `errno
      ensures Now() == ValueStartByte(old(Now()), ch).p
    {
      state, index := Value, 0;
      var c := Lower(ch);
      match headerState
      case Upgrade => flags, headerState := flags.(upgrade := true), General;
      case TransferEncoding => headerState := if c == 'c' then MatchingChunked else General;
      case ContentLength =>
        if !IsDigit(ch) {
          errno := InvalidContentLength;
        } else {
          contentLength := DigitValue(ch);
        }
      case Connection =>
        headerState := if c == 'k' then MatchingKeepAlive else if c == 'c' then MatchingClose else General;
      case _ => headerState := General;
    }

    method OnValueStart(data: Text, i: nat, ghost seen: seq<Event>)
      requires errno == OK && i < |data| && Reports(data, i, seen) && open.None? && (state.DiscardWs? || state.ValueStart?)
      modifies this
      ensures Now() == ValueStartByte(old(Now()), data[i]).p
      ensures errno == OK ==> Reports(data, i + 1, EmitAll(seen, ValueStartByte(old(Now()), data[i]).out))
      ensures errno != OK ==> log == EmitAll(old(log), ValueStartByte(old(Now()), data[i]).out)
    {
      ValueStartOut(Now(), data[i]);
      EmitOne(seen, Data(FieldValue, [data[i]]));
      StartValue(data[i]);
      if errno == OK {
        Cover(FieldValue, data, i);
      }
    }

    /** A byte of a length; the test comes before the product could wrap. */
    method OnLength(ch: Byte)
      requires errno == OK && state.Value? && headerState.ContentLength? && contentLength <= ULLONG_MAX
      requires ch != CR && ch != LF
      modifies `contentLength, `errno
      ensures Now() == ValueByte(old(Now()), ch).p
      ensures errno == OK ==> contentLength < ULLONG_MAX || ch == SPACE
    {
      if ch == SPACE {
        return;
      }
      if !IsDigit(ch) {
        errno := InvalidContentLength;
        return;
      }
      if (ULLONG_MAX - 10) / 10 < contentLength {
        errno := InvalidContentLength;
        return;
      }
      contentLength := contentLength * 10 + DigitValue(ch);
    }

    /** One more byte of a value against what matters in it. */
    method MatchValue(ch: Byte)
      requires errno == OK && state.Value? && contentLength <= ULLONG_MAX && ch != CR && ch != LF
      modifies `headerState, `index, `contentLength, `errno
      ensures Now() == ValueByte(old(Now()), ch).p
    {
      if headerState.ContentLength? {
        OnLength(ch);
      } else {
        var m := NextOfValue(headerState, index, ch);
        headerState, index := m.0, m.1;
      }
    }

    /** The end of a line of the value. */
    method EndValue(data: Text, i: nat, ghost seen: seq<Event>)
      requires errno == OK && i < |data| && Reports(data, i, seen) && state.Value? && (data[i] == CR || data[i] == LF)
      modifies this
      ensures errno == OK && Now() == ValueByte(old(Now()), data[i]).p
      ensures Reports(data, i + 1, seen)
    {
      assert open == Some(FieldValue);
      state := HeaderAlmostDone;
      Flush(FieldValue, data, i);
      if data[i] == LF {
        StrictCheck(true, ValueLws, Strict);
      }
      ReportsClosed(data, i);
    }

    method OnValue(data: Text, i: nat, ghost seen: seq<Event>)
      requires errno == OK && i < |data| && Reports(data, i, seen) && state.Value? && contentLength <= ULLONG_MAX
      modifies this
      ensures Now() == ValueByte(old(Now()), data[i]).p
      ensures errno == OK ==> Reports(data, i + 1, EmitAll(seen, ValueByte(old(Now()), data[i]).out))
      ensures errno != OK ==> log == EmitAll(old(log), ValueByte(old(Now()), data[i]).out)
    {
      if data[i] == CR || data[i] == LF {
        EndValue(data, i, seen);
      } else {
        CoverValue(data, i, seen);
      }
    }

    /** A byte of the value itself. */
    method CoverValue(data: Text, i: nat, ghost seen: seq<Event>)
      requires errno == OK && i < |data| && Reports(data, i, seen) && state.Value? && contentLength <= ULLONG_MAX
      requires data[i] != CR && data[i] != LF
      modifies this
      ensures Now() == ValueByte(old(Now()), data[i]).p
      ensures errno == OK ==> Reports(data, i + 1, EmitAll(seen, ValueByte(old(Now()), data[i]).out))
      ensures errno != OK ==> log == EmitAll(old(log), ValueByte(old(Now()), data[i]).out)
    {
      Cover(FieldValue, data, i);
      EmitOne(seen, Data(FieldValue, [data[i]]));
      MatchValue(data[i]);
    }

    /** An empty value is reported once its line has ended. */
    method ReportEmpty(data: Text, i: nat, ghost seen: seq<Event>)
      requires i < |data| && Reports(data, i, seen) && state.DiscardLws?
      modifies `log, `marks, `open, `state
      ensures seen == old(log) && Now() == old(Now()).(state := FieldStart) && open.None?
      ensures log == Emit(seen, Data(FieldValue, [])) && Reports(data, i, log)
    {
      Mark(FieldValue, i);
      assert data[i..i] == [];
      state := FieldStart;
      Flush(FieldValue, data, i);
    }

    /** After an empty value: it is reported, and the byte starts the next line. */
    method OnEmptyValue(data: Text, i: nat, ghost seen: seq<Event>) returns (left: bool)
      requires errno == OK && i < |data| && Reports(data, i, seen) && state.DiscardLws?
      modifies this
      ensures var s := EmptyValue(FieldStartByte(old(Now()).(state := FieldStart), data[i]));
              && Now() == s.p && left == s.leave
              && (errno == OK ==> Reports(data, i + 1, EmitAll(seen, s.out)))
              && (errno != OK ==> log == EmitAll(old(log), s.out))
    {
      EmptyFirst(seen, FieldStartByte(Now().(state := FieldStart), data[i]));
      ReportEmpty(data, i, seen);
      left := OnFieldStart(data, i, log);
    }

    /** The byte after a finished line: a continuation, or the next line. */
    method OnAfterLine(data: Text, i: nat, ghost seen: seq<Event>) returns (left: bool)
      requires errno == OK && i < |data| && Reports(data, i, seen) && state.ValueLws?
      modifies this
      ensures Now() == HeaderByte(old(Now()), data[i]).p && left == HeaderByte(old(Now()), data[i]).leave
      ensures errno == OK ==> Reports(data, i + 1, EmitAll(seen, HeaderByte(old(Now()), data[i]).out))
      ensures errno != OK ==> log == EmitAll(old(log), HeaderByte(old(Now()), data[i]).out)
    {
      left := false;
      ghost var was := Now();
      if data[i] == SPACE || data[i] == TAB {
        state := ValueStart;
        assert HeaderByte(was, data[i]) == ValueStartByte(Now(), data[i]);
        OnValueStart(data, i, seen);
      } else {
        flags := FinishedHeader(Now());
        state := FieldStart;
        assert HeaderByte(was, data[i]) == FieldStartByte(Now(), data[i]);
        left := OnFieldStart(data, i, seen);
      }
    }

    /** The states between texts that only wait for some byte. */
    method OnBlank(ch: Byte)
      requires errno == OK && IsBlankByte(Now(), ch)
      modifies `state, `errno
      ensures Now() == HeaderByte(old(Now()), ch).p
    {
      match state
      case DiscardWs =>
        if ch == CR {
          state := DiscardWsAlmostDone;
        } else if ch == LF {
          state := DiscardLws;
        }
      case DiscardLws => state := DiscardWs;
      case DiscardWsAlmostDone => StrictCheck(ch == LF, DiscardLws, Strict);
      case HeaderAlmostDone => StrictCheck(ch == LF, ValueLws, Strict);
      case HeadersAlmostDone => errno := Strict;
      case _ =>
    }

    method OnHeader(data: Text, i: nat, ghost seen: seq<Event>) returns (left: bool)
      requires errno == OK && i < |data| && Reports(data, i, seen) && InHeaders(state) && contentLength <= ULLONG_MAX
      modifies this
      ensures Now() == HeaderByte(old(Now()), data[i]).p && left == HeaderByte(old(Now()), data[i]).leave
      ensures errno == OK ==> Reports(data, i + 1, EmitAll(seen, HeaderByte(old(Now()), data[i]).out))
      ensures errno != OK ==> log == EmitAll(old(log), HeaderByte(old(Now()), data[i]).out)
    {
      left := false;
      if IsBlankByte(Now(), data[i]) {
        BlankIsQuiet(Now(), data[i]);
        OnBlank(data[i]);
        return;
      }
      match state
      case FieldStart => left := OnFieldStart(data, i, seen);
      case Field => OnField(data, i, seen);
      case Value => OnValue(data, i, seen);
      case ValueLws => left := OnAfterLine(data, i, seen);
      case DiscardWs => OnValueStart(data, i, seen);
      case DiscardLws => left := OnEmptyValue(data, i, seen);
      case HeadersAlmostDone => left := EndHeaders(data, i, seen);
      case _ =>
    }

    // -------------------------------------------------------------- bodies

    /** Chunk sizes and the line ends around chunks. */
    method OnChunkLine(ch: Byte)
      requires errno == OK && FieldsFit(Now()) && InChunk(state) && !state.ChunkData? && (state.ChunkSizeStart? ==> nread == 1)
      requires state.ChunkSizeStart? || StateFits(Now())
      modifies `state, `contentLength, `nread, `flags, `errno
      ensures Now() == ChunkByte(old(Now()), ch).p
    {
      assert flags.chunked;
      match state
      case ChunkSizeStart =>
        assert nread == 1;
        var v := Unhex(ch);
        if v.None? {
          errno := InvalidChunkSize;
        } else {
          contentLength, state := v.value, ChunkSize;
        }
      case ChunkSize => OnChunkSize(ch);
      case ChunkParameters =>
        if ch == CR {
          state := ChunkSizeAlmostDone;
        }
      case ChunkSizeAlmostDone =>
        if ch != LF {
          errno := Strict;
        } else {
          nread := 0;
          if contentLength == 0 {
            flags, state := flags.(trailing := true), FieldStart;
          } else {
            state := ChunkData;
          }
        }
      case ChunkDataAlmostDone =>
        assert contentLength == 0;
        StrictCheck(ch == CR, ChunkDataDone, Strict);
      case ChunkDataDone =>
        if ch != LF {
          errno := Strict;
        } else {
          nread, state := 0, ChunkSizeStart;
        }
      case _ =>
    }

    /** One more digit of a chunk size; the test comes before the product could wrap. */
    method OnChunkSize(ch: Byte)
      requires errno == OK && state.ChunkSize? && contentLength < ULLONG_MAX
      modifies `state, `contentLength, `errno
      ensures Now() == ChunkByte(old(Now()), ch).p
    {
      if ch == CR {
        state := ChunkSizeAlmostDone;
        return;
      }
      var v := Unhex(ch);
      if v.None? {
        if ch == ';' || ch == SPACE {
          state := ChunkParameters;
        } else {
          errno := InvalidChunkSize;
        }
      } else if (ULLONG_MAX - 16) / 16 < contentLength {
        errno := InvalidContentLength;
      } else {
        contentLength := contentLength * 16 + v.value;
      }
    }

    /** Chunk lines, and the chunk data reported at the carriage return after it. */
    method OnChunk(data: Text, i: nat, ghost seen: seq<Event>)
      requires errno == OK && i < |data| && Reports(data, i, seen)
      requires FieldsFit(Now()) && InChunk(state) && !state.ChunkData? && (state.ChunkSizeStart? ==> nread == 1)
      requires state.ChunkSizeStart? || StateFits(Now())
      modifies this
      ensures Now() == ChunkByte(old(Now()), data[i]).p
      ensures ChunkByte(old(Now()), data[i]).out == []
      ensures if errno == OK then Reports(data, i + 1, seen) else log == old(log)
    {
      var reported := state.ChunkDataAlmostDone?;
      ChunkLineIsQuiet(Now(), data[i]);
      OnChunkLine(data[i]);
      if reported && errno == OK {
        Flush(Body, data, i);
      }
    }

    /** How much of the body the buffer holds. */
    function ToRead(data: Text, i: nat): (n: nat)
      requires i < |data| && contentLength > 0
      reads this
      ensures 0 < n <= contentLength && i + n <= |data|
    {
      if contentLength < |data| - i then contentLength else |data| - i
    }

    /** Chunk data, as much as the buffer holds, in one piece. */
    method ReadChunk(data: Text, i: nat, ghost seen: seq<Event>) returns (next: nat)
      requires errno == OK && i < |data| && Reports(data, i, seen) && state.ChunkData? && 0 < contentLength < ULLONG_MAX
      modifies this
      ensures next == i + old(ToRead(data, i)) && errno == OK
      ensures Now() == Shortened(old(Now()), next - i)
      ensures Reports(data, next, Emit(seen, Data(Body, data[i..next])))
    {
      var toRead := ToRead(data, i);
      next := i + toRead;
      CoverTo(Body, data, i, next);
      contentLength := contentLength - toRead;
      if contentLength == 0 {
        state := ChunkDataAlmostDone;
      }
    }

    /** An identity body, as much as the buffer holds, in one piece; its last byte ends the message too. */
    method ReadIdentity(data: Text, i: nat, ghost seen: seq<Event>) returns (next: nat)
      requires errno == OK && i < |data| && Reports(data, i, seen) && state.BodyIdentity? && 0 < contentLength < ULLONG_MAX
      modifies this
      ensures next == i + old(ToRead(data, i)) && errno == OK
      ensures Now() == Shortened(old(Now()), next - i)
      ensures var e := Emit(seen, Data(Body, data[i..next]));
              Reports(data, next, if next - i == old(contentLength) then Emit(e, MessageComplete) else e)
    {
      var toRead := ToRead(data, i);
      next := i + toRead;
      CoverTo(Body, data, i, next);
      contentLength := contentLength - toRead;
      if contentLength == 0 {
        EndBody(data, next, Emit(seen, Data(Body, data[i..next])));
      }
    }

    method ReadBody(data: Text, i: nat, ghost seen: seq<Event>) returns (next: nat)
      requires errno == OK && i < |data| && Reports(data, i, seen) && InBody(state) && 0 < contentLength < ULLONG_MAX
      modifies this
      ensures next == i + old(ToRead(data, i)) && errno == OK
      ensures Now() == Shortened(old(Now()), next - i)
      ensures Reports(data, next, EmitAll(seen, BodyEvents(old(Now()), data[i..next])))
    {
      ghost var r := Progress(Now(), seen, false);
      if state.ChunkData? {
        next := ReadChunk(data, i, seen);
      } else {
        next := ReadIdentity(data, i, seen);
      }
      BodyEventsEmitted(r, data[i..next]);
    }

    /** The last byte of an identity body ends the message too. */
    method EndBody(data: Text, next: nat, ghost seen: seq<Event>)
      requires errno == OK && next <= |data| && MarksOk(next) && open == Some(Body) && Shown(data, next) == seen
      modifies this
      ensures Now() == old(Now()).(state := NewMessage(old(Now()))) && errno == OK
      ensures Reports(data, next, Emit(seen, MessageComplete))
    {
      state := MessageDone;
      Flush(Body, data, next);
      state := NewMessage(Now());
      Notify(MessageComplete);
    }

    // -------------------------------------------------------------- the byte loop

    /** The switch over the state, for the states that take one byte at a time. */
    method OnSwitch(data: Text, i: nat, ghost seen: seq<Event>) returns (left: bool)
      requires errno == OK && i < |data| && Reports(data, i, seen) && !InBody(state)
      requires FieldsFit(Now()) && (if state.ChunkSizeStart? then nread == 1 else StateFits(Now()))
      modifies this
      ensures Now() == Switch(old(Now()), data[i]).p && left == Switch(old(Now()), data[i]).leave
      ensures errno == OK ==> Reports(data, i + 1, EmitAll(seen, Switch(old(Now()), data[i]).out))
      ensures errno != OK ==> log == EmitAll(old(log), Switch(old(Now()), data[i]).out)
    {
      left := false;
      SwitchByGroup(Now(), data[i]);
      if InRequest(state) {
        RequestStays(Now(), data[i]);
        OnRequest(data, i, seen);
      } else if InVersion(state) {
        VersionIsQuiet(Now(), data[i]);
        OnVersion(data[i]);
      } else if InHeaders(state) {
        left := OnHeader(data, i, seen);
      } else {
        ChunkLineIsQuiet(Now(), data[i]);
        OnChunk(data, i, seen);
      }
    }

    method OnRequest(data: Text, i: nat, ghost seen: seq<Event>)
      requires errno == OK && i < |data| && Reports(data, i, seen) && InRequest(state)
      modifies this
      ensures Now() == RequestByte(old(Now()), data[i]).p
      ensures errno == OK ==> Reports(data, i + 1, EmitAll(seen, RequestByte(old(Now()), data[i]).out))
      ensures errno != OK ==> log == EmitAll(old(log), RequestByte(old(Now()), data[i]).out)
    {
      if state.Dead? || state.StartReq? {
        OnStart(data, i, seen);
      } else if state.ReqMethod? {
        MethodIsQuiet(Now(), data[i]);
        OnMethod(data[i]);
      } else if state.SpacesBeforeUrl? {
        if data[i] != SPACE {
          OnUrl(data, i, seen);
        }
      } else {
        OnInUrl(data, i, seen);
      }
    }

    /** One byte of a state that takes one byte at a time, counted first. */
    method OnByte(data: Text, i: nat, ghost seen: seq<Event>) returns (left: bool)
      requires errno == OK && i < |data| && Reports(data, i, seen) && !InBody(state) && Sound(Now())
      modifies this
      ensures Now() == Step(old(Now()), data[i]).p && left == Step(old(Now()), data[i]).leave
      ensures errno == OK ==> Reports(data, i + 1, EmitAll(seen, Step(old(Now()), data[i]).out))
      ensures errno != OK ==> log == EmitAll(old(log), Step(old(Now()), data[i]).out)
    {
      ghost var q := Counted(Now());
      left := false;
      if state.IsHeader() {
        nread := nread + 1;
        if nread > MAX_HEADER_SIZE {
          errno := HeaderOverflow;
          return;
        }
      }
      assert Now() == q;
      left := OnSwitch(data, i, seen);
    }

    /** The texts still open when the buffer is used up are reported as far as they go. */
    method FlushAll(data: Text)
      requires MarksOk(|data|)
      modifies `log, `marks, `open
      ensures marks == NO_MARKS && open.None? && log == old(Shown(data, |data|))
    {
      Flush(FieldName, data, |data|);
      Flush(FieldValue, data, |data|);
      Flush(Url, data, |data|);
      Flush(Body, data, |data|);
    }

    /** A text that was open when the last buffer ended goes on at the start of this one. */
    method OpenMarks(data: Text)
      requires Valid() && errno == OK
      modifies `marks, `open
      ensures Reports(data, 0, log)
    {
      var k := KindOf(state);
      if k.Some? {
        marks := marks.With(k.value, Some(0));
        open := k;
        assert data[0..0] == [];
        EmitEmpty(log, k.value);
      }
    }

    /** The end of the connection. */
    method ExecuteEnd() returns (parsed: nat)
      requires Valid() && errno == OK
      modifies `errno
      ensures Valid()
      ensures if state.Dead? || state.StartReq? then parsed == 0 && Now() == old(Now())
              else parsed == 1 && Now() == old(Now()).(errno := InvalidEofState)
    {
      if state.Dead? || state.StartReq? {
        return 0;
      }
      errno := InvalidEofState;
      return 1;
    }

    lemma {:induction false} NoMarks(i: nat)
      requires MarksOk(i) && open.None?
      ensures marks == NO_MARKS
    {
      assert marks.Get(Url).None? && marks.Get(FieldName).None? && marks.Get(FieldValue).None? && marks.Get(Body).None?;
    }

    /** What is reported lacks at most the open text. */
    lemma {:induction false} OpenText(data: Text, i: nat, seen: seq<Event>)
      requires i <= |data| && Reports(data, i, seen)
      ensures ReportedBut(log, seen) && (state.DiscardLws? ==> seen == log)
    {
    }

    /** The parser has followed the run up to `p`. */
    ghost predicate Follows(r: Progress, data: Text, p: nat, seen: seq<Event>)
      requires p <= |data|
      reads this
    {
      errno == OK && Sound(Now()) && Reports(data, p, seen) && Run(r, data[..p]) == Progress(Now(), seen, false)
    }

    /** The parser has ended where the run ends, having taken `parsed` bytes. */
    ghost predicate Ended(r: Progress, data: Text, parsed: nat)
      reads this
    {
      && marks == NO_MARKS && open.None? && Now() == Run(r, data).p && parsed <= |data|
      && (errno == OK ==> Sound(Now()) && LogFits(Now(), log) && log == Run(r, data).log)
      && (errno != OK ==> ReportedBut(log, Run(r, data).log))
      && (if Run(r, data).Going() then parsed == |data|
          else Stopped(r, data, if errno == OK then parsed - 1 else parsed))
    }

    /** One turn of the loop over a stretch of body. */
    method TurnBody(ghost r: Progress, data: Text, p: nat, ghost seen: seq<Event>) returns (next: nat, ghost after: seq<Event>)
      requires p < |data| && Follows(r, data, p, seen) && InBody(state)
      modifies this
      ensures p < next <= |data| && Follows(r, data, next, after)
    {
      ghost var here := Progress(Now(), seen, false);
      next := ReadBody(data, p, seen);
      ShortenedSound(here.p, next - p);
      ReadOn(r, here, data, p, next);
      after := EmitAll(seen, BodyEvents(here.p, data[p..next]));
    }

    /** One turn of the loop over one byte; the parser may stop at it. */
    method TurnByte(ghost r: Progress, data: Text, p: nat, ghost seen: seq<Event>) returns (stop: bool, parsed: nat, ghost after: seq<Event>)
      requires p < |data| && Follows(r, data, p, seen) && !InBody(state)
      modifies this
      ensures if stop then Ended(r, data, parsed) else Follows(r, data, p + 1, after)
    {
      ghost var here, before := Progress(Now(), seen, false), log;
      OpenText(data, p, seen);
      var left := OnByte(data, p, seen);
      after := EmitAll(seen, Step(here.p, data[p]).out);
      StepNext(r, here, data, p);
      stop, parsed := false, 0;
      if errno != OK {
        StopOnError(r, here, data, p, before);
        return true, p, after;
      }
      StepKeepsSound(here.p, data[p]);
      if left {
        LeftBetweenTexts(here.p, data[p]);
        StopAt(r, data, p);
        NoMarks(p + 1);
        return true, p + 1, after;
      }
    }

    /** The marks of a call that ends in an error are forgotten. */
    method StopOnError(ghost r: Progress, ghost here: Progress, data: Text, p: nat, ghost before: seq<Event>)
      requires p < |data| && Run(r, data[..p]) == here && here.Going() && Sound(here.p) && ReportedBut(before, here.log)
      requires here.p.state.DiscardLws? ==> here.log == before
      requires errno != OK && Now() == Step(here.p, data[p]).p && log == EmitAll(before, Step(here.p, data[p]).out)
      modifies `marks, `open
      ensures Ended(r, data, p)
    {
      StepNext(r, here, data, p);
      ErrorAt(here, data[p], before, log);
      StopAt(r, data, p);
      marks, open := NO_MARKS, None;
    }

    /**
     * One buffer. The fields afterwards, and the callbacks, are those of the byte by byte run; after an error
     * the text then under a mark has not been reported.
     */
    method Execute(data: Text) returns (parsed: nat)
      requires Valid() && errno == OK && data != []
      modifies this
      ensures Valid() && Ended(Progress(old(Now()), old(log), false), data, parsed)
    {
      ghost var r := Progress(Now(), log, false);
      OpenMarks(data);
      var p := 0;
      ghost var seen := log;
      assert data[..0] == [];
      while p < |data|
        invariant 0 <= p <= |data| && Follows(r, data, p, seen)
      {
        if InBody(state) {
          p, seen := TurnBody(r, data, p, seen);
        } else {
          var stop;
          stop, parsed, seen := TurnByte(r, data, p, seen);
          if stop {
            return;
          }
          p := p + 1;
        }
      }
      assert data[..p] == data;
      FlushAll(data);
      RunStaysHealthy(r, data);
      return |data|;
    }
  }

  /** Everything is reported but at most one open text. */
  ghost predicate ReportedBut(log: seq<Event>, all: seq<Event>) {
    log == all || exists k, x :: Emit(log, Data(k, x)) == all
  }

  /** The run stops at byte `p` and not before. */
  ghost predicate Stopped(r: Progress, d: Text, p: int) {
    0 <= p < |d| && Run(r, d[..p]).Going() && Run(r, d[..p + 1]) == Run(r, d) && !Run(r, d).Going()
  }

  lemma {:induction false} VersionIsQuiet(p: HttpMachine.Parser, ch: Byte)
    requires InVersion(p.state)
    ensures var s := VersionByte(p, ch);
            s.out == [] && !s.leave && KindOf(s.p.state).None? && !InBody(s.p.state) && !s.p.state.ChunkDataAlmostDone?
  {
  }

  lemma {:induction false} RequestStays(p: HttpMachine.Parser, ch: Byte)
    requires InRequest(p.state)
    ensures !RequestByte(p, ch).leave
  {
  }

  lemma {:induction false} MethodIsQuiet(p: HttpMachine.Parser, ch: Byte)
    requires p.state.ReqMethod?
    ensures var s := MethodByte(p, ch); s.out == [] && (s.p.state.ReqMethod? || s.p.state.SpacesBeforeUrl?)
  {
  }

  /** The next byte of a run. */
  lemma {:induction false} StepNext(r: Progress, here: Progress, data: Text, p: nat)
    requires p < |data| && Run(r, data[..p]) == here
    ensures Run(r, data[..p + 1]) == StepOn(here, data[p])
  {
    assert data[..p + 1] == data[..p] + [data[p]];
    RunConcat(r, data[..p], [data[p]]);
    RunOne(here, data[p]);
  }

  lemma {:induction false} ShortenedSound(p: HttpMachine.Parser, n: nat)
    requires Sound(p) && InBody(p.state) && n <= p.contentLength
    ensures Sound(Shortened(p, n))
  {
  }

  lemma {:induction false} RunBodyAfter(r: Progress, here: Progress, a: Text, d: Text)
    requires Run(r, a) == here && here.Going() && InBody(here.p.state) && 0 < |d| <= here.p.contentLength
    ensures Run(r, a + d) == Progress(Shortened(here.p, |d|), EmitAll(here.log, BodyEvents(here.p, d)), false)
  {
    RunConcat(r, a, d);
    RunBody(here, d);
  }

  /** The next stretch of body of a run. */
  lemma {:induction false} ReadOn(r: Progress, here: Progress, data: Text, p: nat, next: nat)
    requires p < next <= |data| && Run(r, data[..p]) == here && here.Going()
    requires InBody(here.p.state) && next - p <= here.p.contentLength
    ensures Run(r, data[..next]) == Progress(Shortened(here.p, next - p), EmitAll(here.log, BodyEvents(here.p, data[p..next])), false)
  {
    NextStretch(data, p, next);
    RunBodyAfter(r, here, data[..p], data[p..next]);
  }

  lemma {:induction false} NextStretch(data: Text, p: nat, next: nat)
    requires p < next <= |data|
    ensures data[..next] == data[..p] + data[p..next] && |data[p..next]| == next - p
  {
  }

  lemma {:induction false} StopAt(r: Progress, data: Text, p: nat)
    requires p < |data| && Run(r, data[..p]).Going() && !Run(r, data[..p + 1]).Going()
    ensures Stopped(r, data, p) && Run(r, data) == Run(r, data[..p + 1])
  {
    assert data == data[..p + 1] + data[p + 1..];
    RunConcat(r, data[..p + 1], data[p + 1..]);
    RunStopped(Run(r, data[..p + 1]), data[p + 1..]);
  }

  lemma {:induction false} RequestErrorIsQuiet(p: HttpMachine.Parser, ch: Byte)
    requires InRequest(p.state) && p.errno == OK != RequestByte(p, ch).p.errno
    ensures RequestByte(p, ch).out == []
  {
    UrlOut(p, p.state, ch);
    UrlOut(p, UrlStateOf(p), ch);
  }

  lemma {:induction false} HeaderErrorIsQuiet(p: HttpMachine.Parser, ch: Byte)
    requires InHeaders(p.state) && p.errno == OK != HeaderByte(p, ch).p.errno
    ensures !HeaderByte(p, ch).leave && (HeaderByte(p, ch).out != [] ==> p.state.DiscardLws?)
  {
    if IsBlankByte(p, ch) {
      BlankIsQuiet(p, ch);
    } else {
      match p.state
      case DiscardWs => ValueStartOut(p, ch);
      case FieldStart => FieldStartErrorIsQuiet(p, ch);
      case DiscardLws => FieldStartErrorIsQuiet(p.(state := FieldStart), ch);
      case ValueLws =>
        ValueStartOut(p.(state := ValueStart), ch);
        FieldStartErrorIsQuiet(p.(flags := FinishedHeader(p), state := FieldStart), ch);
      case HeadersAlmostDone => HeadersEndBetweenTexts(p);
      case _ =>
    }
  }

  lemma {:induction false} FieldStartErrorIsQuiet(p: HttpMachine.Parser, ch: Byte)
    ensures p.errno == OK != FieldStartByte(p, ch).p.errno ==> FieldStartByte(p, ch).out == [] && !FieldStartByte(p, ch).leave
  {
    HeadersEndBetweenTexts(p);
  }

  /** A byte in error reports nothing, but for an empty value just before it. */
  lemma {:induction false} ErrorReports(p: HttpMachine.Parser, ch: Byte)
    requires Sound(p) && p.errno == OK != Step(p, ch).p.errno
    ensures !Step(p, ch).leave && (Step(p, ch).out != [] ==> p.state.DiscardLws?)
  {
    var q := Counted(p);
    if Step(p, ch) != Fail(q, HeaderOverflow) {
      assert Step(p, ch) == Switch(q, ch);
      SwitchByGroup(q, ch);
      if InRequest(q.state) {
        RequestStays(q, ch);
        RequestErrorIsQuiet(q, ch);
      } else if InVersion(q.state) {
        VersionIsQuiet(q, ch);
      } else if InHeaders(q.state) {
        HeaderErrorIsQuiet(q, ch);
      } else if !InBody(q.state) {
        ChunkLineIsQuiet(q, ch);
      }
    }
  }

  lemma {:induction false} ErrorAt(here: Progress, ch: Byte, before: seq<Event>, after: seq<Event>)
    requires here.Going() && Sound(here.p) && ReportedBut(before, here.log) && (here.p.state.DiscardLws? ==> here.log == before)
    requires Step(here.p, ch).p.errno != OK && after == EmitAll(before, Step(here.p, ch).out)
    ensures ReportedBut(after, StepOn(here, ch).log)
  {
    ErrorReports(here.p, ch);
  }

  lemma {:induction false} LeftBetweenTexts(p: HttpMachine.Parser, ch: Byte)
    requires Sound(p) && Step(p, ch).leave
    ensures KindOf(Step(p, ch).p.state).None? && (Step(p, ch).p.state.Dead? || Step(p, ch).p.state.StartReq?)
  {
    var q := Counted(p);
    SwitchByGroup(q, ch);
    if InHeaders(q.state) {
      LeavesAtHeadersEnd(q, ch);
    }
  }

  lemma {:induction false} LeavesAtHeadersEnd(p: HttpMachine.Parser, ch: Byte)
    requires InHeaders(p.state) && HeaderByte(p, ch).leave
    ensures HeaderByte(p, ch).p.state.Dead? || HeaderByte(p, ch).p.state.StartReq?
  {
  }

  lemma {:induction false} ChunkLineIsQuiet(p: HttpMachine.Parser, ch: Byte)
    requires InChunk(p.state) && !p.state.ChunkData?
    ensures var s := ChunkByte(p, ch);
            s.out == [] && !s.leave && KindOf(s.p.state).None? && (p.state.ChunkDataAlmostDone? || !s.p.state.ChunkDataAlmostDone?)
  {
  }

  /** Whether a byte between texts only moves the state on, or ends the parse. */
  predicate IsBlankByte(p: HttpMachine.Parser, ch: Byte) {
    match p.state
    case DiscardWs => ch == SPACE || ch == TAB || ch == CR || ch == LF
    case DiscardLws => ch == SPACE || ch == TAB
    case DiscardWsAlmostDone => true
    case HeaderAlmostDone => true
    case HeadersAlmostDone => ch != LF
    case _ => false
  }

  lemma {:induction false} BlankIsQuiet(p: HttpMachine.Parser, ch: Byte)
    requires IsBlankByte(p, ch)
    ensures var s := HeaderByte(p, ch); s.out == [] && !s.leave && (s.p.errno == p.errno ==> KindOf(s.p.state).None? && !s.p.state.ChunkData?)
  {
  }

  lemma {:induction false} HeadersEndBetweenTexts(p: HttpMachine.Parser)
    ensures KindOf(HeadersEnd(p).p.state).None? && HeadersEnd(p).p.errno == p.errno
  {
  }

  lemma {:induction false} ValueStartOut(p: HttpMachine.Parser, ch: Byte)
    requires p.errno == OK
    ensures var s := ValueStartByte(p, ch);
            if s.p.errno == OK then s.p.state.Value? && s.out == [Data(FieldValue, [ch])] else s.out == []
  {
  }

  lemma {:induction false} UrlOut(p: HttpMachine.Parser, s: State, ch: Byte)
    requires p.errno == OK
    ensures var r := UrlByte(p, s, ch);
            if r.p.errno == OK then KindOf(r.p.state) == Some(Url) && r.out == [Data(Url, [ch])] else r.out == []
  {
  }
}
