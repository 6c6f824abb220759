/**
 * The recursive-descent parser of the JSON reader as functions on a parse in progress.
 * The function named after a loop of the source is what that loop still has to do.
 */
module JsonGrammar {
  import opened Bytes
  import opened JsonLexer

  /** A parse in progress: a cursor and the events sent so far, or the error that stopped it. */
  datatype Progress =
    | Going(pos: nat, out: seq<Event>)
    | Failed(error: ParseErrorCode, offset: nat, out: seq<Event>)
  {
    predicate At(s: Text) {
      Going? && pos <= |s|
    }

    /** Still inside the text and past `from`, unless stopped. */
    predicate Beyond(from: nat, s: Text) {
      Going? ==> from < pos <= |s|
    }

    function Emit(e: Event): Progress
      requires Going?
    {
      Going(pos, out + [e])
    }

    function Step(n: nat): Progress
      requires Going?
    {
      Going(pos + n, out)
    }

    function Fail(code: ParseErrorCode): Progress
      requires Going?
    {
      Failed(code, pos, out)
    }
  }

  function Space(s: Text, f: Settings, g: Progress): (r: Progress)
    requires g.At(s)
    ensures r.Going? ==> g.pos <= r.pos <= |s|
  {
    match SkipSpace(s, f, g.pos)
    case Found(end, _) => Going(end, g.out)
    case Bad(code, off) => Failed(code, off, g.out)
  }

  /** The literal `word`, whose first byte is already known to be at the cursor. */
  function Word(s: Text, word: Text, e: Event, g: Progress): (r: Progress)
    requires g.At(s) && 1 <= |word| <= 5 && (forall i :: 0 <= i < |word| ==> word[i] != NUL) && Peek(s, g.pos) == word[0]
    ensures r.Beyond(g.pos, s)
  {
    var k := Agree(s, g.pos, word, 1);
    if k == |word| then
      assert Peek(s, g.pos + (k - 1)) == word[k - 1];
      g.Step(k).Emit(e)
    else Failed(ValueInvalid, g.pos + k, g.out)
  }

  /** The length of the longest prefix of `word`, no shorter than `k`, found at `p`. */
  function Agree(s: Text, p: nat, word: Text, k: nat): (r: nat)
    requires k <= |word|
    ensures k <= r <= |word|
    ensures forall i :: k <= i < r ==> Peek(s, p + i) == word[i]
    decreases |word| - k
  {
    if k < |word| && Peek(s, p + k) == word[k] then Agree(s, p, word, k + 1) else k
  }

  function Str(s: Text, isKey: bool, g: Progress): (r: Progress)
    requires g.At(s) && Peek(s, g.pos) == '"'
    ensures r.Beyond(g.pos, s)
  {
    match ScanString(s, g.pos + 1, [])
    case Found(end, v) => Going(end, g.out + [if isKey then Key(v) else String(v)])
    case Bad(code, off) => Failed(code, off, g.out)
  }

  function Number(s: Text, f: Settings, g: Progress): (r: Progress)
    requires g.At(s)
    ensures r.Beyond(g.pos, s)
  {
    match ScanNumber(s, f, g.pos)
    case Found(end, e) => Going(end, g.out + [e])
    case Bad(code, off) => Failed(code, off, g.out)
  }

  function Value(s: Text, f: Settings, g: Progress): (r: Progress)
    requires g.At(s)
    ensures r.Beyond(g.pos, s)
    decreases |s| - g.pos, 3
  {
    match Peek(s, g.pos)
    case 'n' => Word(s, "null", Null, g)
    case 't' => Word(s, "true", Bool(true), g)
    case 'f' => Word(s, "false", Bool(false), g)
    case '"' => Str(s, false, g)
    case '{' => Object(s, f, g)
    case '[' => Array(s, f, g)
    case _ => Number(s, f, g)
  }

  // ---------------------------------------------------------------- arrays

  function Array(s: Text, f: Settings, g: Progress): (r: Progress)
    requires g.At(s) && Peek(s, g.pos) == '['
    ensures r.Beyond(g.pos, s)
    decreases |s| - g.pos, 2
  {
    var h := Space(s, f, g.Step(1).Emit(StartArray));
    if h.Failed? then h else ArrayFirst(s, f, h)
  }

  /** After `[` and blanks. */
  function ArrayFirst(s: Text, f: Settings, g: Progress): (r: Progress)
    requires g.At(s)
    ensures r.Beyond(g.pos, s)
    decreases |s| - g.pos, 5
  {
    if Peek(s, g.pos) == ']' then g.Step(1).Emit(EndArray(0)) else ArrayElements(s, f, 0, g)
  }

  /** At an element, after `count` earlier ones. */
  function ArrayElements(s: Text, f: Settings, count: nat, g: Progress): (r: Progress)
    requires g.At(s)
    ensures r.Beyond(g.pos, s)
    decreases |s| - g.pos, 4
  {
    var v := Value(s, f, g);
    if v.Failed? then v else ArrayAfterElement(s, f, count, v)
  }

  /** Just past the element that follows `count` others. */
  function ArrayAfterElement(s: Text, f: Settings, count: nat, g: Progress): (r: Progress)
    requires g.At(s)
    ensures r.Beyond(g.pos, s)
    decreases |s| - g.pos, 8
  {
    var h := Space(s, f, g);
    if h.Failed? then h else ArraySeparator(s, f, count, h)
  }

  /** At what should be `,` or `]`, past the element that follows `count` others. */
  function ArraySeparator(s: Text, f: Settings, count: nat, g: Progress): (r: Progress)
    requires g.At(s)
    ensures r.Beyond(g.pos, s)
    decreases |s| - g.pos, 7
  {
    if Peek(s, g.pos) == ',' then
      var h := Space(s, f, g.Step(1));
      if h.Failed? then h else ArrayAfterComma(s, f, count + 1, h)
    else if Peek(s, g.pos) == ']' then g.Step(1).Emit(EndArray(count + 1))
    else g.Fail(ArrayMissCommaOrSquareBracket)
  }

  /** After a comma that follows `count` elements. */
  function ArrayAfterComma(s: Text, f: Settings, count: nat, g: Progress): (r: Progress)
    requires g.At(s)
    ensures r.Beyond(g.pos, s)
    decreases |s| - g.pos, 6
  {
    if f.trailingCommas && Peek(s, g.pos) == ']' then g.Step(1).Emit(EndArray(count))
    else ArrayElements(s, f, count, g)
  }

  // ---------------------------------------------------------------- objects

  function Object(s: Text, f: Settings, g: Progress): (r: Progress)
    requires g.At(s) && Peek(s, g.pos) == '{'
    ensures r.Beyond(g.pos, s)
    decreases |s| - g.pos, 2
  {
    var h := Space(s, f, g.Step(1).Emit(StartObject));
    if h.Failed? then h else ObjectFirst(s, f, h)
  }

  /** After `{` and blanks. */
  function ObjectFirst(s: Text, f: Settings, g: Progress): (r: Progress)
    requires g.At(s)
    ensures r.Beyond(g.pos, s)
    decreases |s| - g.pos, 5
  {
    if Peek(s, g.pos) == '}' then g.Step(1).Emit(EndObject(0)) else ObjectMembers(s, f, 0, g)
  }

  /** At a member name, after `count` earlier members. */
  function ObjectMembers(s: Text, f: Settings, count: nat, g: Progress): (r: Progress)
    requires g.At(s)
    ensures r.Beyond(g.pos, s)
    decreases |s| - g.pos, 4
  {
    if Peek(s, g.pos) != '"' then g.Fail(ObjectMissName)
    else
      var k := Str(s, true, g);
      if k.Failed? then k else
        var h := Space(s, f, k);
        if h.Failed? then h else ObjectColon(s, f, count, h)
  }

  /** At what should be the colon of the member that follows `count` others. */
  function ObjectColon(s: Text, f: Settings, count: nat, g: Progress): (r: Progress)
    requires g.At(s)
    ensures r.Beyond(g.pos, s)
    decreases |s| - g.pos, 3
  {
    if Peek(s, g.pos) != ':' then g.Fail(ObjectMissColon)
    else
      var h := Space(s, f, g.Step(1));
      if h.Failed? then h else ObjectValue(s, f, count, h)
  }

  /** At the value of the member that follows `count` others. */
  function ObjectValue(s: Text, f: Settings, count: nat, g: Progress): (r: Progress)
    requires g.At(s)
    ensures r.Beyond(g.pos, s)
    decreases |s| - g.pos, 4
  {
    var v := Value(s, f, g);
    if v.Failed? then v else ObjectAfterValue(s, f, count, v)
  }

  function ObjectAfterValue(s: Text, f: Settings, count: nat, g: Progress): (r: Progress)
    requires g.At(s)
    ensures r.Beyond(g.pos, s)
    decreases |s| - g.pos, 8
  {
    var h := Space(s, f, g);
    if h.Failed? then h else ObjectSeparator(s, f, count, h)
  }

  /** At what should be `,` or `}`, past the member that follows `count` others. */
  function ObjectSeparator(s: Text, f: Settings, count: nat, g: Progress): (r: Progress)
    requires g.At(s)
    ensures r.Beyond(g.pos, s)
    decreases |s| - g.pos, 7
  {
    if Peek(s, g.pos) == ',' then
      var h := Space(s, f, g.Step(1));
      if h.Failed? then h else ObjectAfterComma(s, f, count + 1, h)
    else if Peek(s, g.pos) == '}' then g.Step(1).Emit(EndObject(count + 1))
    else g.Fail(ObjectMissCommaOrCurlyBracket)
  }

  /** After a comma that follows `count` members. */
  function ObjectAfterComma(s: Text, f: Settings, count: nat, g: Progress): (r: Progress)
    requires g.At(s)
    ensures r.Beyond(g.pos, s)
    decreases |s| - g.pos, 6
  {
    if f.trailingCommas && Peek(s, g.pos) == '}' then g.Step(1).Emit(EndObject(count))
    else ObjectMembers(s, f, count, g)
  }

  // ---------------------------------------------------------------- documents

  /** What follows a complete root value. */
  function Epilogue(s: Text, f: Settings, g: Progress): (r: Progress)
    requires g.At(s)
    ensures r.Going? ==> r.pos <= |s|
  {
    if f.stopWhenDone then g
    else
      var h := Space(s, f, g);
      if h.Failed? then h else DocumentEnd(s, h)
  }

  function DocumentEnd(s: Text, g: Progress): Progress
    requires g.At(s)
  {
    if Peek(s, g.pos) == NUL then g else g.Fail(DocumentRootNotSingular)
  }

  /** The root value, leading blanks skipped. */
  function Root(s: Text, f: Settings, g: Progress): (r: Progress)
    requires g.At(s)
    ensures r.Going? ==> r.pos <= |s|
  {
    if Peek(s, g.pos) == NUL then g.Fail(DocumentEmpty)
    else
      var v := Value(s, f, g);
      if v.Failed? then v else Epilogue(s, f, v)
  }

  /** The whole recursive parse of `s`. */
  function Document(s: Text, f: Settings): (r: Progress)
    ensures r.Going? ==> r.pos <= |s|
  {
    var h := Space(s, f, Going(0, []));
    if h.Failed? then h else Root(s, f, h)
  }
}
