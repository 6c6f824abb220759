/** The JSON reader: one object with a cursor, an event trace, an error and a stack, and its two parsers. */
module JsonReader {
  import opened Bytes
  import opened JsonLexer
  import opened JsonGrammar
  import opened JsonMachine
  import opened JsonEquivalence
  import JsonNumber

  datatype ParseResult = NoError | ParseError(code: ParseErrorCode, offset: nat)

  class Reader {
    const src: Text
    const flags: Settings
    var pos: nat
    var events: seq<Event>       // what the handler, which never stops the parse, has been sent
    var parseResult: ParseResult
    var stack: seq<StackWord>

    constructor (src: Text, flags: Settings)
      ensures this.src == src && this.flags == flags && Progress() == Going(0, []) && stack == []
    {
      this.src, this.flags := src, flags;
      pos, events, parseResult, stack := 0, [], NoError, [];
    }

    ghost function Progress(): Progress
      reads this
    {
      match parseResult
      case NoError => Going(pos, events)
      case ParseError(code, offset) => Failed(code, offset, events)
    }

    /** No error so far, and the cursor inside the text. */
    ghost predicate Ready()
      reads this
    {
      Progress().At(src)
    }

    predicate HasParseError()
      reads this
    {
      parseResult.ParseError?
    }

    // -------------------------------------------------------------- blanks and comments

    method SkipWhitespace()
      requires Ready()
      modifies `pos
      ensures Progress() == Going(SkipBlanks(src, old(pos)), events)
    {
      while IsBlank(Peek(src, pos))
        invariant old(pos) <= pos <= |src| && SkipBlanks(src, old(pos)) == SkipBlanks(src, pos)
        decreases |src| - pos
      {
        pos := pos + 1;
      }
    }

    method SkipBlockComment()
      requires Ready()
      modifies `pos, `parseResult
      ensures match BlockCommentEnd(src, old(pos))
              case Found(end, _) => Progress() == Going(end, events)
              case Bad(code, off) => Progress() == Failed(code, off, events)
    {
      while true
        invariant Ready() && BlockCommentEnd(src, old(pos)) == BlockCommentEnd(src, pos)
        decreases |src| - pos
      {
        if Peek(src, pos) == NUL {
          parseResult := ParseError(UnspecificSyntaxError, pos);
          return;
        } else if Peek(src, pos) == '*' {
          pos := pos + 1;
          if Peek(src, pos) == '/' {
            pos := pos + 1;
            return;
          }
        } else {
          pos := pos + 1;
        }
      }
    }

    method SkipLineComment()
      requires Ready()
      modifies `pos
      ensures Progress() == Going(LineCommentEnd(src, old(pos)), events)
    {
      while Peek(src, pos) != NUL
        invariant old(pos) <= pos <= |src| && LineCommentEnd(src, old(pos)) == LineCommentEnd(src, pos)
        decreases |src| - pos
      {
        pos := pos + 1;
        if src[pos - 1] == '\n' {
          return;
        }
      }
    }

    /** One comment, whose slash is at the cursor. */
    method SkipComment()
      requires Ready() && Peek(src, pos) == '/'
      modifies `pos, `parseResult
      ensures match CommentEnd(src, old(pos))
              case Found(end, _) => Progress() == Going(end, events)
              case Bad(code, off) => Progress() == Failed(code, off, events)
    {
      pos := pos + 1;
      if Peek(src, pos) == '*' {
        pos := pos + 1;
        SkipBlockComment();
      } else if Peek(src, pos) == '/' {
        pos := pos + 1;
        SkipLineComment();
      } else {
        parseResult := ParseError(UnspecificSyntaxError, pos);
      }
    }

    method SkipWhitespaceAndComments()
      requires Ready()
      modifies `pos, `parseResult
      ensures Progress() == Space(src, flags, old(Progress()))
    {
      SkipWhitespace();
      if flags.comments {
        while Peek(src, pos) == '/'
          invariant Ready() && SkipComments(src, SkipBlanks(src, old(pos))) == SkipComments(src, pos)
          decreases |src| - pos
        {
          SkipComment();
          if HasParseError() {
            return;
          }
          SkipWhitespace();
        }
      }
    }

    // -------------------------------------------------------------- scalars

    method Consume(expected: Byte) returns (took: bool)
      requires Ready() && expected != NUL
      modifies `pos
      ensures took == (Peek(src, old(pos)) == expected)
      ensures Progress() == Going(if took then old(pos) + 1 else old(pos), events) && Ready()
    {
      took := Peek(src, pos) == expected;
      if took {
        pos := pos + 1;
      }
    }

    /** `null`, `true` and `false`: the first byte is there, the others are consumed one after another. */
    method ParseLiteral(word: Text, e: Event)
      requires Ready() && 1 <= |word| <= 5 && (forall i :: 0 <= i < |word| ==> word[i] != NUL) && Peek(src, pos) == word[0]
      modifies `pos, `events, `parseResult
      ensures Progress() == Word(src, word, e, old(Progress()))
    {
      pos := pos + 1;
      var k := 1;
      while k < |word|
        invariant Ready() && events == old(events) && 1 <= k <= |word| && pos == old(pos) + k
        invariant Agree(src, old(pos), word, 1) == Agree(src, old(pos), word, k)
      {
        var took := Consume(word[k]);
        if !took {
          parseResult := ParseError(ValueInvalid, pos);
          return;
        }
        k := k + 1;
      }
      events := events + [e];
    }

    /** Four hexadecimal digits, or an error at the escape they belong to. */
    method ParseHex4(escapeOffset: nat) returns (codepoint: nat)
      requires Ready()
      modifies `pos, `parseResult
      ensures match Hex4(src, old(pos))
              case Some(v) => codepoint == v && Progress() == Going(old(pos) + 4, events)
              case None => Progress() == Failed(StringUnicodeEscapeInvalidHex, escapeOffset, events)
    {
      codepoint := 0;
      for i := 0 to 4
        invariant Ready() && pos == old(pos) + i
        invariant HexPrefix(src, old(pos), i) == Some(codepoint)
      {
        var c := Peek(src, pos);
        codepoint := codepoint * 16;
        var v := HexValue(c);
        if v.None? {
          NoHexPrefixNoHex4(src, old(pos), i + 1);
          parseResult := ParseError(StringUnicodeEscapeInvalidHex, escapeOffset);
          return;
        }
        codepoint := codepoint + v.value;
        pos := pos + 1;
      }
    }
  
    /** One escape sequence; `os` is what it stands for. */
    method ParseEscape() returns (os: Text)
      requires Ready() && Peek(src, pos) == '\\'
      modifies `pos, `parseResult
      ensures match ScanEscape(src, old(pos))
              case Found(end, v) => os == v && Progress() == Going(end, events)
              case Bad(code, off) => Progress() == Failed(code, off, events)
    {
      os := [];
      var escapeOffset := pos;
      pos := pos + 1;
      var e := Peek(src, pos);
      if Unescape(e) != NUL {
        pos := pos + 1;
        os := [Unescape(e)];
      } else if e == 'u' {
        pos := pos + 1;
        var codepoint := ParseHex4(escapeOffset);
        if HasParseError() {
          return;
        }
        if 0xD800 <= codepoint <= 0xDBFF {
          var slash := Consume('\\');
          var u := false;
          if slash {
            u := Consume('u');
          }
          if !slash || !u {
            parseResult := ParseError(StringUnicodeSurrogateInvalid, escapeOffset);
            return;
          }
          var codepoint2 := ParseHex4(escapeOffset);
          if HasParseError() {
            return;
          }
          if codepoint2 < 0xDC00 || codepoint2 > 0xDFFF {
            parseResult := ParseError(StringUnicodeSurrogateInvalid, escapeOffset);
            return;
          }
          codepoint := (codepoint - 0xD800) * 1024 + (codepoint2 - 0xDC00) + 0x1_0000;
        }
        os := Utf8(codepoint);
      } else {
        parseResult := ParseError(StringEscapeInvalid, escapeOffset);
      }
    }

    method ParseString(isKey: bool)
      requires Ready() && Peek(src, pos) == '"'
      modifies `pos, `events, `parseResult
      ensures Progress() == Str(src, isKey, old(Progress()))
    {
      pos := pos + 1;
      var str: Text := [];
      while true
        invariant Ready() && old(pos) < pos && events == old(events)
        invariant ScanString(src, old(pos) + 1, []) == ScanString(src, pos, str)
        decreases |src| - pos
      {
        var c := Peek(src, pos);
        if c == '\\' {
          var os := ParseEscape();
          if HasParseError() {
            return;
          }
          str := str + os;
        } else if c == '"' {
          pos := pos + 1;
          break;
        } else if c as int < 0x20 {
          parseResult := ParseError(if c == NUL then StringMissQuotationMark else StringInvalidEncoding, pos);
          return;
        } else {
          pos := pos + 1;
          str := str + [c];
        }
      }
      events := events + [if isKey then Key(str) else String(str)];
    }

    method ParseNumber()
      requires Ready()
      modifies `pos, `events, `parseResult
      ensures Progress() == Number(src, flags, old(Progress()))
    {
      var r := JsonNumber.ParseNumber(src, flags, pos);
      match r {
        case Found(end, e) =>
          pos := end;
          events := events + [e];
        case Bad(code, offset) =>
          parseResult := ParseError(code, offset);
      }
    }

    // -------------------------------------------------------------- recursive descent

    method ParseValue()
      requires Ready()
      modifies `pos, `events, `parseResult
      ensures Progress() == Value(src, flags, old(Progress()))
      decreases |src| - pos, 1
    {
      match Peek(src, pos) {
        case 'n' => ParseLiteral("null", Null);
        case 't' => ParseLiteral("true", Bool(true));
        case 'f' => ParseLiteral("false", Bool(false));
        case '"' => ParseString(false);
        case '{' => ParseObject();
        case '[' => ParseArray();
        case _ => ParseNumber();
      }
    }

    /** Past an element: a comma and perhaps a trailing close, or the close. True when another element follows. */
    method ParseElementSeparator(elementCount: nat) returns (more: bool)
      requires Ready()
      modifies `pos, `events, `parseResult
      ensures more ==> Ready() && old(pos) < pos
      ensures ArrayAfterElement(src, flags, elementCount, old(Progress()))
           == if more then ArrayElements(src, flags, elementCount + 1, Progress()) else Progress()
    {
      ghost var whole := ArrayAfterElement(src, flags, elementCount, Progress());
      more := false;
      SkipWhitespaceAndComments();
      if HasParseError() {
        return;
      }
      assert whole == ArraySeparator(src, flags, elementCount, Progress());
      if Peek(src, pos) == ',' {
        pos := pos + 1;
        SkipWhitespaceAndComments();
        if HasParseError() {
          return;
        }
        assert whole == ArrayAfterComma(src, flags, elementCount + 1, Progress());
      } else {
        if Peek(src, pos) == ']' {
          pos := pos + 1;
          events := events + [EndArray(elementCount + 1)];
        } else {
          parseResult := ParseError(ArrayMissCommaOrSquareBracket, pos);
        }
        return;
      }
      more := true;
      if flags.trailingCommas {
        if Peek(src, pos) == ']' {
          events := events + [EndArray(elementCount + 1)];
          pos := pos + 1;
          more := false;
        }
      }
    }

    /** The elements of an array and its close. */
    method ParseElements()
      requires Ready()
      modifies `pos, `events, `parseResult
      ensures Progress() == ArrayElements(src, flags, 0, old(Progress()))
      decreases |src| - pos, 2
    {
      ghost var whole := ArrayElements(src, flags, 0, Progress());
      var elementCount := 0;
      while true
        invariant Ready() && old(pos) <= pos
        invariant whole == ArrayElements(src, flags, elementCount, Progress())
        decreases |src| - pos
      {
        ParseValue();
        if HasParseError() {
          return;
        }
        var more := ParseElementSeparator(elementCount);
        if !more {
          return;
        }
        elementCount := elementCount + 1;
      }
    }

    method ParseArray()
      requires Ready() && Peek(src, pos) == '['
      modifies `pos, `events, `parseResult
      ensures Progress() == Array(src, flags, old(Progress()))
      decreases |src| - pos, 0
    {
      pos := pos + 1;
      events := events + [StartArray];
      SkipWhitespaceAndComments();
      if HasParseError() {
        return;
      }
      if Peek(src, pos) == ']' {
        pos := pos + 1;
        events := events + [EndArray(0)];
        return;
      }
      ParseElements();
    }

    /** The colon of a member and the blanks after it. */
    method ParseColon(ghost memberCount: nat)
      requires Ready()
      modifies `pos, `parseResult
      ensures Progress().Going? ==> Ready() && old(pos) < pos
      ensures ObjectColon(src, flags, memberCount, old(Progress()))
           == if Progress().Going? then ObjectValue(src, flags, memberCount, Progress()) else Progress()
    {
      if Peek(src, pos) != ':' {
        parseResult := ParseError(ObjectMissColon, pos);
        return;
      }
      pos := pos + 1;
      SkipWhitespaceAndComments();
    }

    /** The name of a member, its colon and the blanks around it. */
    method ParseMemberName(ghost memberCount: nat)
      requires Ready()
      modifies `pos, `events, `parseResult
      ensures Progress().Going? ==> Ready() && old(pos) < pos
      ensures ObjectMembers(src, flags, memberCount, old(Progress()))
           == if Progress().Going? then ObjectValue(src, flags, memberCount, Progress()) else Progress()
    {
      if Peek(src, pos) != '"' {
        parseResult := ParseError(ObjectMissName, pos);
        return;
      }
      ParseString(true);
      if HasParseError() {
        return;
      }
      SkipWhitespaceAndComments();
      if HasParseError() {
        return;
      }
      assert ObjectMembers(src, flags, memberCount, old(Progress())) == ObjectColon(src, flags, memberCount, Progress());
      ParseColon(memberCount);
    }

    /** Past a member: a comma and perhaps a trailing close, or the close. True when another member follows. */
    method ParseMemberSeparator(memberCount: nat) returns (more: bool)
      requires Ready()
      modifies `pos, `events, `parseResult
      ensures more ==> Ready() && old(pos) < pos
      ensures ObjectAfterValue(src, flags, memberCount, old(Progress()))
           == if more then ObjectMembers(src, flags, memberCount + 1, Progress()) else Progress()
    {
      ghost var whole := ObjectAfterValue(src, flags, memberCount, Progress());
      more := false;
      SkipWhitespaceAndComments();
      if HasParseError() {
        return;
      }
      assert whole == ObjectSeparator(src, flags, memberCount, Progress());
      match Peek(src, pos) {
        case ',' =>
          pos := pos + 1;
          SkipWhitespaceAndComments();
          if HasParseError() {
            return;
          }
          assert whole == ObjectAfterComma(src, flags, memberCount + 1, Progress());
        case '}' =>
          pos := pos + 1;
          events := events + [EndObject(memberCount + 1)];
          return;
        case _ =>
          parseResult := ParseError(ObjectMissCommaOrCurlyBracket, pos);
          return;
      }
      more := true;
      if flags.trailingCommas {
        if Peek(src, pos) == '}' {
          events := events + [EndObject(memberCount + 1)];
          pos := pos + 1;
          more := false;
        }
      }
    }

    /** The members of an object and its close. */
    method ParseMembers()
      requires Ready()
      modifies `pos, `events, `parseResult
      ensures Progress() == ObjectMembers(src, flags, 0, old(Progress()))
      decreases |src| - pos, 2
    {
      ghost var whole := ObjectMembers(src, flags, 0, Progress());
      var memberCount := 0;
      while true
        invariant Ready() && old(pos) <= pos
        invariant whole == ObjectMembers(src, flags, memberCount, Progress())
        decreases |src| - pos
      {
        ParseMemberName(memberCount);
        if HasParseError() {
          return;
        }
        ParseValue();
        if HasParseError() {
          return;
        }
        var more := ParseMemberSeparator(memberCount);
        if !more {
          return;
        }
        memberCount := memberCount + 1;
      }
    }

    method ParseObject()
      requires Ready() && Peek(src, pos) == '{'
      modifies `pos, `events, `parseResult
      ensures Progress() == Object(src, flags, old(Progress()))
      decreases |src| - pos, 0
    {
      pos := pos + 1;
      events := events + [StartObject];
      SkipWhitespaceAndComments();
      if HasParseError() {
        return;
      }
      if Peek(src, pos) == '}' {
        pos := pos + 1;
        events := events + [EndObject(0)];
        return;
      }
      ParseMembers();
    }

    /** The recursive parser, on a fresh reader. */
    method Parse()
      requires Progress() == Going(0, [])
      modifies `pos, `events, `parseResult
      ensures Progress() == Document(src, flags)
    {
      SkipWhitespaceAndComments();
      if HasParseError() {
        return;
      }
      if Peek(src, pos) == NUL {
        parseResult := ParseError(DocumentEmpty, pos);
        return;
      }
      ParseValue();
      if HasParseError() {
        return;
      }
      if !flags.stopWhenDone {
        SkipWhitespaceAndComments();
        if HasParseError() {
          return;
        }
        if Peek(src, pos) != NUL {
          parseResult := ParseError(DocumentRootNotSingular, pos);
        }
      }
    }

    // -------------------------------------------------------------- the stack machine

    /** One transition; true when the machine moves on to `d`. */
    method Transit(src_: State, dst: State) returns (d: State)
      requires Ready() && Peek(src, pos) != NUL && dst == Predict(src_, Tokenize(Peek(src, pos))) && StackFits(dst, stack)
      modifies `pos, `events, `parseResult, `stack
      ensures Outcome(d, stack, Progress())
           == JsonMachine.Transit(src, flags, src_, dst, old(stack), old(Progress()))
    {
      match dst {
        case Error =>
          return dst;
        case ObjectInitial | ArrayInitial =>
          var n := src_;
          if src_ == ArrayInitial || src_ == ElementDelimiter {
            n := Element;
          } else if src_ == KeyValueDelimiter {
            n := MemberValue;
          }
          stack := stack + [StateWord(n)];
          stack := stack + [CountWord(0)];
          events := events + [if dst == ObjectInitial then StartObject else StartArray];
          pos := pos + 1;
          assert stack == old(stack) + [StateWord(n), CountWord(0)];
          return dst;
        case MemberKey =>
          ParseString(true);
          return if HasParseError() then Error else dst;
        case KeyValueDelimiter =>
          pos := pos + 1;
          return dst;
        case MemberValue | Element =>
          ParseValue();
          return if HasParseError() then Error else dst;
        case MemberDelimiter | ElementDelimiter =>
          pos := pos + 1;
          stack := stack[|stack| - 1 := CountWord(stack[|stack| - 1].count + 1)];
          return dst;
        case ObjectFinish | ArrayFinish =>
          d := TransitClose(src_, dst);
        case SingleValue =>
          ParseValue();
          return if HasParseError() then Error else Finish;
      }
    }

    /** The transition of a closing bracket: pops the count, then the state to return to. */
    method TransitClose(src_: State, dst: State) returns (d: State)
      requires Ready() && (dst.ObjectFinish? || dst.ArrayFinish?) && StackFits(dst, stack)
      modifies `pos, `events, `parseResult, `stack
      ensures Outcome(d, stack, Progress()) == CloseBracket(flags, dst, src_, old(stack), old(Progress()))
    {
      if !flags.trailingCommas && src_ == (if dst.ObjectFinish? then MemberDelimiter else ElementDelimiter) {
        parseResult := ParseError(if dst.ObjectFinish? then ObjectMissName else ValueInvalid, pos);
        return Error;
      }
      var c := stack[|stack| - 1].count;
      stack := stack[..|stack| - 1];
      if src_ == (if dst.ObjectFinish? then MemberValue else Element) {
        c := c + 1;
      }
      var n := stack[|stack| - 1].state;
      stack := stack[..|stack| - 1];
      if n == Start {
        n := Finish;
      }
      events := events + [if dst.ObjectFinish? then EndObject(c) else EndArray(c)];
      pos := pos + 1;
      return n;
    }

    method HandleError(src_: State)
      requires Ready() || HasParseError()
      requires !src_.Error? && !src_.ObjectFinish? && !src_.ArrayFinish? && !src_.SingleValue?
      modifies `parseResult
      ensures Progress() == JsonMachine.HandleError(src_, old(Progress()))
    {
      if HasParseError() {
        return;
      }
      var code := match src_
        case Start => DocumentEmpty
        case Finish => DocumentRootNotSingular
        case ObjectInitial | MemberDelimiter => ObjectMissName
        case MemberKey => ObjectMissColon
        case MemberValue => ObjectMissCommaOrCurlyBracket
        case KeyValueDelimiter | ArrayInitial | ElementDelimiter => ValueInvalid
        case Element => ArrayMissCommaOrSquareBracket;
      parseResult := ParseError(code, pos);
    }

    /** One turn of the iterative parser's loop, up to the blanks after the token. */
    method Turn(state: State, ghost open: seq<Bracket>) returns (d: State, ghost after: seq<Bracket>)
      requires Ready() && Reachable(state, stack, open) && Peek(src, pos) != NUL
      modifies `pos, `events, `parseResult, `stack
      ensures d.Error? ==> Progress() == Run(src, flags, state, old(stack), open, old(Progress()))
      ensures !d.Error? ==>
        && Ready() && old(pos) < pos && Reachable(d, stack, after)
        && Run(src, flags, state, old(stack), open, old(Progress()))
           == Continue(src, flags, Outcome(d, stack, Progress()), after, old(pos))
    {
      var t := Tokenize(Peek(src, pos));
      var n := Predict(state, t);
      StackAlwaysFits(state, stack, open, t);
      TransitKeepsReachable(src, flags, state, stack, open, Progress());
      after := OpenAfter(open, n);
      d := Transit(state, n);
      if d == Error {
        HandleError(state);
      }
    }

    /** The iterative parser, on a fresh reader. It sends the same events and ends with the same result as `Parse`. */
    method IterativeParse()
      requires Progress() == Going(0, []) && stack == []
      modifies `pos, `events, `parseResult, `stack
      ensures Progress() == Iterative(src, flags)
    {
      var state := Start;
      ghost var open: seq<Bracket> := [];
      ghost var whole := Iterative(src, flags);
      SkipWhitespaceAndComments();
      if HasParseError() {
        return;
      }
      while Peek(src, pos) != NUL
        invariant Ready() && Reachable(state, stack, open)
        invariant whole == Run(src, flags, state, stack, open, Progress())
        decreases |src| - pos
      {
        var d;
        d, open := Turn(state, open);
        if d == Error {
          return;
        }
        state := d;
        if flags.stopWhenDone && state == Finish {
          return;
        }
        SkipWhitespaceAndComments();
        if HasParseError() {
          return;
        }
      }
      if state != Finish {
        HandleError(state);
      }
    }
  }
}
