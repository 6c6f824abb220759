/** What the writer prints, in either layout, the reader reads back. */
module JsonRoundTrip {
  import opened Bytes
  import opened JsonLexer
  import opened JsonGrammar
  import opened JsonValue
  import opened JsonWriter
  import opened JsonEscape
  import JsonAscii

  // ---------------------------------------------------------------- numbers

  lemma {:induction false} DigitByte(v: nat)
    requires v < 10
    ensures var c := ByteOf('0' as int + v); IsDigit(c) && DigitValue(c) == v && (c == '0' <==> v == 0)
  {
  }

  lemma {:induction false} AppendDigit(d: Text, v: nat)
    requires AllDigits(d) && v < 10
    ensures var w := d + [ByteOf('0' as int + v)]; AllDigits(w) && DecimalValue(w) == 10 * DecimalValue(d) + v
  {
    DigitByte(v);
    var w := d + [ByteOf('0' as int + v)];
    assert w[..|w| - 1] == d;
  }

  lemma {:induction false} DecimalReads(n: nat)
    ensures AllDigits(Decimal(n)) && DecimalValue(Decimal(n)) == n
    ensures if n == 0 then Decimal(n) == ['0'] else Decimal(n)[0] != '0'
  {
    var q, r := n / 10, n % 10;
    DigitByte(r);
    if n >= 10 {
      DecimalReads(q);
      AppendDigit(Decimal(q), r);
      assert Decimal(n) == Decimal(q) + [ByteOf('0' as int + r)];
      assert Decimal(n)[0] == Decimal(q)[0];
    } else {
      AppendDigit([], n);
      assert [] + [ByteOf('0' as int + n)] == [ByteOf('0' as int + n)];
    }
  }

  lemma {:induction false} DigitsEndAt(s: Text, p: nat, w: Text)
    requires StandsAt(s, p, w) && AllDigits(w) && !IsDigit(Peek(s, p + |w|))
    ensures DigitsEnd(s, p) == p + |w|
    decreases |w|
  {
    if w != [] {
      StandsByte(s, p, w, 0);
      assert s[p + 1..p + 1 + |w[1..]|] == w[1..];
      DigitsEndAt(s, p + 1, w[1..]);
    }
  }

  /** A byte that cannot continue a number. */
  predicate Stops(c: Byte) {
    !IsDigit(c) && c != '.' && c != 'e' && c != 'E'
  }

  lemma {:induction false} NumberStops(s: Text, f: Settings, start: nat, minus: bool, q: nat, end: nat)
    requires start <= q < end <= |s| && AllDigits(s[q..end]) && Stops(Peek(s, end))
    requires IntegerEvent(minus, DecimalValue(s[q..end])).Some?
    ensures ScanNumberRest(s, f, start, minus, q, end) == Found(end, IntegerEvent(minus, DecimalValue(s[q..end])).value)
  {
  }

  lemma {:induction false} NumberStarts(s: Text, f: Settings, start: nat, minus: bool, q: nat, end: nat)
    requires start <= |s| && minus == (Peek(s, start) == '-') && q == (if minus then start + 1 else start)
    requires q < |s| && IsDigit(s[q]) && end == (if s[q] == '0' then q + 1 else DigitsEnd(s, q))
    ensures AllDigits(s[q..end]) && ScanNumber(s, f, start) == ScanNumberRest(s, f, start, minus, q, end)
  {
  }

  /** A printed unsigned number `d`, after an optional minus sign, is read as one integer literal. */
  lemma {:induction false} DigitsRead(s: Text, f: Settings, start: nat, minus: bool, q: nat, d: Text)
    requires StandsAt(s, q, d) && Stops(Peek(s, q + |d|)) && d != [] && AllDigits(d) && (d[0] == '0' ==> |d| == 1)
    requires IntegerEvent(minus, DecimalValue(d)).Some?
    requires start <= |s| && minus == (Peek(s, start) == '-') && q == (if minus then start + 1 else start)
    ensures ScanNumber(s, f, start) == Found(q + |d|, IntegerEvent(minus, DecimalValue(d)).value)
  {
    DigitsEndAt(s, q, d);
    StandsByte(s, q, d, 0);
    NumberStarts(s, f, start, minus, q, q + |d|);
    NumberStops(s, f, start, minus, q, q + |d|);
  }

  /** The event the reader sends for a printed scalar: integers in the narrowest type of their sign. */
  function ReadEvent(e: Event): Event {
    match NumberOf(e)
    case Some(i) =>
      var r := if i < 0 then IntegerEvent(true, -i) else IntegerEvent(false, i);
      if r.Some? then r.value else e
    case None => e
  }

  lemma {:induction false} ReadEventSame(e: Event)
    requires ScalarEvent(e)
    ensures SameEvent(ReadEvent(e), e) && ScalarEvent(ReadEvent(e))
  {
  }

  lemma {:induction false} NumberReads(s: Text, f: Settings, p: nat, i: int)
    requires StandsAt(s, p, Signed(i)) && Stops(Peek(s, p + |Signed(i)|))
    requires -0x8000_0000_0000_0000 <= i <= 0xFFFF_FFFF_FFFF_FFFF
    ensures var r := if i < 0 then IntegerEvent(true, -i) else IntegerEvent(false, i);
            r.Some? && ScanNumber(s, f, p) == Found(p + |Signed(i)|, r.value)
    ensures IsDigit(Peek(s, p)) || Peek(s, p) == '-'
  {
    StandsByte(s, p, Signed(i), 0);
    var n := if i < 0 then -i else i;
    DecimalReads(n);
    if i < 0 {
      StandsThen(s, p, p + |['-']|, ['-'], Decimal(n));
      DigitsRead(s, f, p, true, p + 1, Decimal(n));
    } else {
      DigitsRead(s, f, p, false, p, Decimal(n));
    }
  }

  // ---------------------------------------------------------------- strings

  /** What is printed between quotes, for either target, is read back. */
  lemma {:induction false} InsideReads(s: Text, fmt: Format, p: nat, str: Text, stop: nat)
    requires Quotable(fmt, str) && StandsAt(s, p, Inside(fmt, str)) && stop == p + |Inside(fmt, str)| && Peek(s, stop) == '"'
    ensures ScanString(s, p, []) == Found(stop + 1, str)
  {
    if fmt.ascii {
      JsonAscii.AsciiReads(s, p, str, [], stop);
    } else {
      StringReads(s, p, str, [], stop);
    }
    assert [] + str == str;
  }

  /** Where the quotes of a printed string are, and what is between them. */
  lemma {:induction false} QuotesStand(s: Text, fmt: Format, p: nat, str: Text)
    requires StandsAt(s, p, Quoted(fmt, str))
    ensures |Quoted(fmt, str)| == |Inside(fmt, str)| + 2 && p < |s| && s[p] == '"' && Peek(s, p + 1 + |Inside(fmt, str)|) == '"'
    ensures StandsAt(s, p + 1, Inside(fmt, str))
  {
    var w := Inside(fmt, str);
    StandsThen(s, p, p + |['"'] + w|, ['"'] + w, ['"']);
    StandsThen(s, p, p + |['"']|, ['"'], w);
    StandsByte(s, p, Quoted(fmt, str), 0);
    StandsByte(s, p, Quoted(fmt, str), |Quoted(fmt, str)| - 1);
  }

  lemma {:induction false} QuotedReads(s: Text, fmt: Format, isKey: bool, str: Text, g: Progress)
    requires g.At(s) && Quotable(fmt, str) && StandsAt(s, g.pos, Quoted(fmt, str))
    ensures Peek(s, g.pos) == '"'
    ensures Str(s, isKey, g) == Going(g.pos + |Quoted(fmt, str)|, g.out + [if isKey then Key(str) else String(str)])
  {
    QuotesStand(s, fmt, g.pos, str);
    InsideReads(s, fmt, g.pos + 1, str, g.pos + |Quoted(fmt, str)| - 1);
  }

  // ---------------------------------------------------------------- blanks

  predicate AllBlank(w: Text) {
    forall i :: 0 <= i < |w| ==> IsBlank(w[i])
  }

  lemma {:induction false} BlanksSkipped(s: Text, p: nat, w: Text)
    requires StandsAt(s, p, w) && AllBlank(w) && !IsBlank(Peek(s, p + |w|))
    ensures SkipBlanks(s, p) == p + |w|
    decreases |w|
  {
    if w != [] {
      StandsByte(s, p, w, 0);
      assert s[p + 1..p + 1 + |w[1..]|] == w[1..];
      BlanksSkipped(s, p + 1, w[1..]);
    }
  }

  /** Printed blanks are skipped up to the token after them, comments allowed or not. */
  lemma {:induction false} SpaceSkips(s: Text, f: Settings, g: Progress, w: Text)
    requires g.At(s) && StandsAt(s, g.pos, w) && AllBlank(w)
    requires !IsBlank(Peek(s, g.pos + |w|)) && Peek(s, g.pos + |w|) != '/'
    ensures Space(s, f, g) == Going(g.pos + |w|, g.out)
  {
    BlanksSkipped(s, g.pos, w);
  }

  lemma {:induction false} GapsAreBlank(fmt: Format, depth: nat, inArray: bool, flag: bool)
    requires fmt.Valid()
    ensures AllBlank(Gap(fmt, depth, inArray, flag)) && AllBlank(CloseGap(fmt, depth, inArray, flag))
  {
  }

  // ---------------------------------------------------------------- trees

  /** The tree the reader announces for a printed tree. */
  function ReadTree(t: Tree): Tree {
    match t
    case Leaf(e) => Leaf(ReadEvent(e))
    case Arr(ts) => Arr(ReadElements(ts))
    case Obj(ms) => Obj(ReadMembers(ms))
  }

  function ReadElements(ts: seq<Tree>): (r: seq<Tree>)
    ensures |r| == |ts|
  {
    if ts == [] then [] else [ReadTree(ts[0])] + ReadElements(ts[1..])
  }

  function ReadMembers(ms: seq<Member>): (r: seq<Member>)
    ensures |r| == |ms|
  {
    if ms == [] then [] else [Member(ms[0].name, ReadTree(ms[0].value))] + ReadMembers(ms[1..])
  }

  /** A byte that begins a printed value: no blank, no slash, no separator and no closing bracket. */
  predicate Begins(c: Byte) {
    c == 'n' || c == 't' || c == 'f' || c == '"' || c == '[' || c == '{' || c == '-' || IsDigit(c)
  }

  lemma {:induction false} PrintBegins(fmt: Format, depth: nat, t: Tree)
    requires WellFormed(t) && Printable(fmt, t)
    ensures |Print(fmt, depth, t)| >= 1 && Begins(Print(fmt, depth, t)[0])
  {
    match t {
      case Leaf(e) => ScalarBegins(fmt, e);
      case Arr(ts) =>
      case Obj(ms) =>
    }
  }

  lemma {:induction false} ScalarBegins(fmt: Format, e: Event)
    requires ScalarEvent(e) && ScalarPrintable(fmt, e)
    ensures |ScalarText(fmt, e)| >= 1 && Begins(ScalarText(fmt, e)[0])
  {
    if NumberOf(e).Some? {
      var i := NumberOf(e).value;
      DecimalReads(if i < 0 then -i else i);
    }
  }

  lemma {:induction false} WordReads(s: Text, word: Text, e: Event, g: Progress)
    requires g.At(s) && 1 <= |word| <= 5 && (forall i :: 0 <= i < |word| ==> word[i] != NUL)
    requires StandsAt(s, g.pos, word)
    ensures Peek(s, g.pos) == word[0] && Word(s, word, e, g) == Going(g.pos + |word|, g.out + [e])
  {
    StandsByte(s, g.pos, word, 0);
    AgreeAll(s, g.pos, word, 1);
  }

  lemma {:induction false} AgreeAll(s: Text, p: nat, word: Text, k: nat)
    requires StandsAt(s, p, word) && k <= |word|
    ensures Agree(s, p, word, k) == |word|
    decreases |word| - k
  {
    if k < |word| {
      StandsByte(s, p, word, k);
      AgreeAll(s, p, word, k + 1);
    }
  }

  lemma {:induction false} ScalarReads(s: Text, f: Settings, fmt: Format, e: Event, g: Progress)
    requires ScalarEvent(e) && ScalarPrintable(fmt, e) && g.At(s) && StandsAt(s, g.pos, ScalarText(fmt, e)) && Stops(Peek(s, g.pos + |ScalarText(fmt, e)|))
    ensures Value(s, f, g) == Going(g.pos + |ScalarText(fmt, e)|, g.out + [ReadEvent(e)])
  {
    match e {
      case Null => WordReads(s, "null", e, g);
      case Bool(b) => WordReads(s, if b then "true" else "false", e, g);
      case String(str) => QuotedReads(s, fmt, false, str, g);
      case _ => NumberValueReads(s, f, e, g);
    }
  }

  lemma {:induction false} NumberValueReads(s: Text, f: Settings, e: Event, g: Progress)
    requires ScalarEvent(e) && NumberOf(e).Some? && g.At(s)
    requires StandsAt(s, g.pos, Signed(NumberOf(e).value)) && Stops(Peek(s, g.pos + |Signed(NumberOf(e).value)|))
    ensures Value(s, f, g) == Going(g.pos + |Signed(NumberOf(e).value)|, g.out + [ReadEvent(e)])
  {
    NumberReads(s, f, g.pos, NumberOf(e).value);
    NumberIsRead(e, NumberOf(e).value);
    NumberIsValue(s, f, g);
  }

  lemma {:induction false} NumberIsRead(e: Event, i: int)
    requires ScalarEvent(e) && NumberOf(e) == Some(i)
    ensures (if i < 0 then IntegerEvent(true, -i) else IntegerEvent(false, i)) == Some(ReadEvent(e))
  {
  }

  lemma {:induction false} NumberIsValue(s: Text, f: Settings, g: Progress)
    requires g.At(s) && (IsDigit(Peek(s, g.pos)) || Peek(s, g.pos) == '-')
    ensures Value(s, f, g) == Number(s, f, g)
  {
  }

  /** The reader undoes the printer, one value at a time. */
  lemma {:induction false} TreeReads(s: Text, f: Settings, fmt: Format, depth: nat, t: Tree, g: Progress)
    requires fmt.Valid() && WellFormed(t) && Printable(fmt, t)
    requires g.At(s) && StandsAt(s, g.pos, Print(fmt, depth, t)) && Stops(Peek(s, g.pos + |Print(fmt, depth, t)|))
    ensures Value(s, f, g) == Going(g.pos + |Print(fmt, depth, t)|, g.out + Events(ReadTree(t)))
    decreases t, 3
  {
    match t {
      case Leaf(e) => ScalarReads(s, f, fmt, e, g);
      case Arr(ts) => ArrayReads(s, f, fmt, depth, ts, g);
      case Obj(ms) => ObjectReads(s, f, fmt, depth, ms, g);
    }
  }

  // ---------------------------------------------------------------- arrays

  /** What is printed from just before the element that follows `count` others, its comma already printed. */
  function ElementsFrom(fmt: Format, depth: nat, count: nat, ts: seq<Tree>): Text
    requires ts != []
    decreases |ts|, 0
  {
    Gap(fmt, depth + 1, true, count == 0) + Print(fmt, depth + 1, ts[0]) + AfterElements(fmt, depth, count + 1, ts[1..])
  }

  /** What is printed just after `count` elements. */
  function AfterElements(fmt: Format, depth: nat, count: nat, ts: seq<Tree>): Text
    decreases |ts|, 1
  {
    if ts == [] then CloseGap(fmt, depth, true, false) + "]" else "," + ElementsFrom(fmt, depth, count, ts)
  }

  lemma {:induction false} ElementsSplit(fmt: Format, depth: nat, count: nat, ts: seq<Tree>)
    requires ts != []
    ensures PrintElements(fmt, depth + 1, count, ts) + CloseGap(fmt, depth, true, false) + "]"
         == (if count > 0 then "," else "") + ElementsFrom(fmt, depth, count, ts)
    decreases |ts|
  {
    var comma: Text := if count > 0 then "," else "";
    var gap := Gap(fmt, depth + 1, true, count == 0);
    var first := Print(fmt, depth + 1, ts[0]);
    var rest := PrintElements(fmt, depth + 1, count + 1, ts[1..]);
    var close := CloseGap(fmt, depth, true, false) + "]";
    assert rest + close == AfterElements(fmt, depth, count + 1, ts[1..]) by {
      if ts[1..] != [] {
        ElementsSplit(fmt, depth, count + 1, ts[1..]);
        Concat3(rest, CloseGap(fmt, depth, true, false), "]");
      } else {
        assert [] + close == close;
      }
    }
    Regroup(comma, gap, first, rest, CloseGap(fmt, depth, true, false), "]");
  }

  lemma {:induction false} Regroup(a: Text, b: Text, c: Text, d: Text, e: Text, z: Text)
    ensures (a + b) + c + d + e + z == a + (b + c + (d + (e + z)))
  {
  }

  lemma {:induction false} PrintArray(fmt: Format, depth: nat, ts: seq<Tree>)
    requires ts != []
    ensures Print(fmt, depth, Arr(ts)) == "[" + ElementsFrom(fmt, depth, 0, ts)
  {
    var elements := PrintElements(fmt, depth + 1, 0, ts);
    ElementsSplit(fmt, depth, 0, ts);
    assert [] + ElementsFrom(fmt, depth, 0, ts) == ElementsFrom(fmt, depth, 0, ts);
    Concat4("[", elements, CloseGap(fmt, depth, true, false), "]");
  }

  lemma {:induction false} EmptyReads(s: Text, f: Settings, g: Progress)
    requires g.At(s) && (StandsAt(s, g.pos, "[]") || StandsAt(s, g.pos, "{}"))
    ensures Value(s, f, g) == Going(g.pos + 2, g.out + Events(if Peek(s, g.pos) == '[' then Arr([]) else Obj([])))
    ensures StandsAt(s, g.pos, "[]") ==> Peek(s, g.pos) == '['
    ensures StandsAt(s, g.pos, "{}") ==> Peek(s, g.pos) == '{'
  {
    if StandsAt(s, g.pos, "[]") {
      StandsByte(s, g.pos, "[]", 0);
      StandsByte(s, g.pos, "[]", 1);
      var h := g.Step(1).Emit(StartArray);
      assert s[h.pos..h.pos] == [];
      SpaceSkips(s, f, h, []);
      assert Value(s, f, g) == Array(s, f, g) == ArrayFirst(s, f, h);
      assert g.out + [StartArray] + [EndArray(0)] == g.out + ([StartArray] + [] + [EndArray(0)]);
    } else {
      StandsByte(s, g.pos, "{}", 0);
      StandsByte(s, g.pos, "{}", 1);
      var h := g.Step(1).Emit(StartObject);
      assert s[h.pos..h.pos] == [];
      SpaceSkips(s, f, h, []);
      assert Value(s, f, g) == Object(s, f, g) == ObjectFirst(s, f, h);
      assert g.out + [StartObject] + [EndObject(0)] == g.out + ([StartObject] + [] + [EndObject(0)]);
    }
  }

  /** A bracket followed by blanks and a value or a name enters the loop of its kind. */
  lemma {:induction false} BracketEnters(s: Text, f: Settings, g: Progress)
    requires g.At(s) && (Peek(s, g.pos) == '[' || Peek(s, g.pos) == '{')
    requires var at := Space(s, f, g.Step(1).Emit(if Peek(s, g.pos) == '[' then StartArray else StartObject));
             at.At(s) && Peek(s, at.pos) != ']' && Peek(s, at.pos) != '}'
    ensures var at := Space(s, f, g.Step(1).Emit(if Peek(s, g.pos) == '[' then StartArray else StartObject));
            Value(s, f, g) == if Peek(s, g.pos) == '[' then ArrayElements(s, f, 0, at) else ObjectMembers(s, f, 0, at)
  {
    var at := Space(s, f, g.Step(1).Emit(if Peek(s, g.pos) == '[' then StartArray else StartObject));
    if Peek(s, g.pos) == '[' {
      assert Value(s, f, g) == Array(s, f, g) == ArrayFirst(s, f, at);
    } else {
      assert Value(s, f, g) == Object(s, f, g) == ObjectFirst(s, f, at);
    }
  }

  lemma {:induction false} ArrayReads(s: Text, f: Settings, fmt: Format, depth: nat, ts: seq<Tree>, g: Progress)
    requires fmt.Valid() && AllWellFormed(ts) && AllPrintable(fmt, ts)
    requires g.At(s) && StandsAt(s, g.pos, Print(fmt, depth, Arr(ts)))
    ensures Value(s, f, g) == Going(g.pos + |Print(fmt, depth, Arr(ts))|, g.out + Events(Arr(ReadElements(ts))))
    decreases ts, 4
  {
    if ts == [] {
      assert Print(fmt, depth, Arr(ts)) == "[]";
      EmptyReads(s, f, g);
    } else {
      PrintArray(fmt, depth, ts);
      StandsFirst(s, g.pos, '[', ElementsFrom(fmt, depth, 0, ts));
      var at := ElementsRead(s, f, fmt, depth, 0, ts, g.Step(1).Emit(StartArray), |ts|,
                             g.pos + |Print(fmt, depth, Arr(ts))|);
      BracketEnters(s, f, g);
      Concat4(g.out, [StartArray], ElementEvents(ReadElements(ts)), [EndArray(|ts|)]);
    }
  }

  lemma {:induction false} AfterElementsBegins(fmt: Format, depth: nat, count: nat, ts: seq<Tree>)
    ensures var a := AfterElements(fmt, depth, count, ts);
            |a| >= 1 && Stops(a[0]) && (ts != [] ==> a[0] == ',')
  {
  }

  /** Where blanks, a value and what follows it lie. */
  lemma {:induction false} ValueLies(s: Text, f: Settings, gap: Text, value: Text, after: Text, g: Progress)
    returns (at: Progress, end: nat)
    requires g.At(s) && StandsAt(s, g.pos, gap + value + after) && AllBlank(gap)
    requires |value| >= 1 && Begins(value[0]) && |after| >= 1 && Stops(after[0])
    ensures at.At(s) && at.out == g.out && Space(s, f, g) == at && Begins(Peek(s, at.pos))
    ensures StandsAt(s, at.pos, value) && end == at.pos + |value|
    ensures Stops(Peek(s, end)) && StandsAt(s, end, after) && end + |after| == g.pos + |gap + value + after|
  {
    StandsThen(s, g.pos, g.pos + |gap + value|, gap + value, after);
    StandsThen(s, g.pos, g.pos + |gap|, gap, value);
    at := Going(g.pos + |gap|, g.out);
    end := g.pos + |gap + value|;
    StandsByte(s, at.pos, value, 0);
    StandsByte(s, end, after, 0);
    SpaceSkips(s, f, g, gap);
  }

  lemma {:induction false} ValueThen(s: Text, f: Settings, count: nat, at: Progress, v: Progress)
    requires at.At(s) && v.At(s) && Value(s, f, at) == v
    ensures ArrayElements(s, f, count, at) == ArrayAfterElement(s, f, count, v)
    ensures ObjectValue(s, f, count, at) == ObjectAfterValue(s, f, count, v)
  {
  }

  lemma {:induction false} FirstElementEvents(out: seq<Event>, ts: seq<Tree>, n: nat)
    requires ts != []
    ensures out + Events(ReadTree(ts[0])) + ElementEvents(ReadElements(ts[1..])) + [EndArray(n)]
         == out + ElementEvents(ReadElements(ts)) + [EndArray(n)]
  {
    assert ReadElements(ts)[1..] == ReadElements(ts[1..]);
    Concat3(out, Events(ReadTree(ts[0])), ElementEvents(ReadElements(ts[1..])));
  }

  /** Where the parts of a printed element lie. */
  lemma {:induction false} ElementLies(s: Text, f: Settings, fmt: Format, depth: nat, count: nat, ts: seq<Tree>, g: Progress)
    returns (at: Progress, end: nat)
    requires fmt.Valid() && ts != [] && WellFormed(ts[0]) && Printable(fmt, ts[0])
    requires g.At(s) && StandsAt(s, g.pos, ElementsFrom(fmt, depth, count, ts))
    ensures at.At(s) && at.out == g.out && Space(s, f, g) == at && Begins(Peek(s, at.pos))
    ensures StandsAt(s, at.pos, Print(fmt, depth + 1, ts[0])) && end == at.pos + |Print(fmt, depth + 1, ts[0])| && Stops(Peek(s, end))
    ensures StandsAt(s, end, AfterElements(fmt, depth, count + 1, ts[1..]))
    ensures end + |AfterElements(fmt, depth, count + 1, ts[1..])| == g.pos + |ElementsFrom(fmt, depth, count, ts)|
  {
    var gap := Gap(fmt, depth + 1, true, count == 0);
    var value := Print(fmt, depth + 1, ts[0]);
    var after := AfterElements(fmt, depth, count + 1, ts[1..]);
    GapsAreBlank(fmt, depth + 1, true, count == 0);
    PrintBegins(fmt, depth + 1, ts[0]);
    AfterElementsBegins(fmt, depth, count + 1, ts[1..]);
    assert ElementsFrom(fmt, depth, count, ts) == gap + value + after;
    at, end := ValueLies(s, f, gap, value, after, g);
  }

  /** The cursor just before the blanks of an element: the rest of the array is read back, the count going on from `count`. */
  lemma {:induction false} ElementsRead(s: Text, f: Settings, fmt: Format, depth: nat, count: nat, ts: seq<Tree>, g: Progress,
                                        total: nat, stop: nat)
    returns (at: Progress)
    requires g.Going? && ts != [] && total == count + |ts| && stop == g.pos + |ElementsFrom(fmt, depth, count, ts)|
    requires fmt.Valid() && AllWellFormed(ts) && AllPrintable(fmt, ts)
    requires g.At(s) && StandsAt(s, g.pos, ElementsFrom(fmt, depth, count, ts))
    ensures Space(s, f, g) == at && at.At(s) && Begins(Peek(s, at.pos))
    ensures ArrayElements(s, f, count, at) == Going(stop, g.out + ElementEvents(ReadElements(ts)) + [EndArray(total)])
    decreases ts, 1
  {
    var end;
    at, end := ElementLies(s, f, fmt, depth, count, ts, g);
    var v := Going(end, g.out + Events(ReadTree(ts[0])));
    TreeReads(s, f, fmt, depth + 1, ts[0], at);
    ValueThen(s, f, count, at, v);
    AfterElementReads(s, f, fmt, depth, count, ts[1..], v, total, stop);
    FirstElementEvents(g.out, ts, total);
  }

  /** Blanks and the closing bracket after a value. */
  lemma {:induction false} CloseReads(s: Text, f: Settings, count: nat, gap: Text, v: Progress)
    requires v.At(s) && AllBlank(gap)
    ensures StandsAt(s, v.pos, gap + "]") ==>
              ArrayAfterElement(s, f, count, v) == Going(v.pos + |gap| + 1, v.out + [EndArray(count + 1)])
    ensures StandsAt(s, v.pos, gap + "}") ==>
              ObjectAfterValue(s, f, count, v) == Going(v.pos + |gap| + 1, v.out + [EndObject(count + 1)])
  {
    if StandsAt(s, v.pos, gap + "]") {
      StandsThen(s, v.pos, v.pos + |gap|, gap, "]");
      StandsByte(s, v.pos + |gap|, "]", 0);
      SpaceSkips(s, f, v, gap);
    }
    if StandsAt(s, v.pos, gap + "}") {
      StandsThen(s, v.pos, v.pos + |gap|, gap, "}");
      StandsByte(s, v.pos + |gap|, "}", 0);
      SpaceSkips(s, f, v, gap);
    }
  }

  /** A comma after a value, and what begins another element or member. */
  lemma {:induction false} CommaReads(s: Text, f: Settings, count: nat, v: Progress, at: Progress)
    requires v.At(s) && Peek(s, v.pos) == ',' && at == Space(s, f, v.Step(1)) && at.At(s) && Begins(Peek(s, at.pos))
    ensures ArrayAfterElement(s, f, count, v) == ArrayElements(s, f, count + 1, at)
    ensures ObjectAfterValue(s, f, count, v) == ObjectMembers(s, f, count + 1, at)
  {
    assert s[v.pos..v.pos] == [];
    SpaceSkips(s, f, v, []);
    assert ArrayAfterElement(s, f, count, v) == ArraySeparator(s, f, count, v) == ArrayAfterComma(s, f, count + 1, at);
    assert ObjectAfterValue(s, f, count, v) == ObjectSeparator(s, f, count, v) == ObjectAfterComma(s, f, count + 1, at);
  }

  lemma {:induction false} AfterElementReads(s: Text, f: Settings, fmt: Format, depth: nat, count: nat, ts: seq<Tree>, v: Progress,
                                             total: nat, stop: nat)
    requires v.Going? && total == count + 1 + |ts| && stop == v.pos + |AfterElements(fmt, depth, count + 1, ts)|
    requires fmt.Valid() && AllWellFormed(ts) && AllPrintable(fmt, ts)
    requires v.At(s) && StandsAt(s, v.pos, AfterElements(fmt, depth, count + 1, ts))
    ensures ArrayAfterElement(s, f, count, v) == Going(stop, v.out + ElementEvents(ReadElements(ts)) + [EndArray(total)])
    decreases ts, 3
  {
    if ts == [] {
      GapsAreBlank(fmt, depth, true, false);
      CloseReads(s, f, count, CloseGap(fmt, depth, true, false), v);
      assert v.out + [] == v.out;
    } else {
      NextElementsRead(s, f, fmt, depth, count, ts, v, total, stop);
    }
  }

  lemma {:induction false} NextElementsRead(s: Text, f: Settings, fmt: Format, depth: nat, count: nat, ts: seq<Tree>, v: Progress,
                                            total: nat, stop: nat)
    requires v.Going? && ts != [] && total == count + 1 + |ts| && stop == v.pos + 1 + |ElementsFrom(fmt, depth, count + 1, ts)|
    requires fmt.Valid() && AllWellFormed(ts) && AllPrintable(fmt, ts)
    requires v.At(s) && StandsAt(s, v.pos, "," + ElementsFrom(fmt, depth, count + 1, ts))
    ensures ArrayAfterElement(s, f, count, v) == Going(stop, v.out + ElementEvents(ReadElements(ts)) + [EndArray(total)])
    decreases ts, 2
  {
    StandsFirst(s, v.pos, ',', ElementsFrom(fmt, depth, count + 1, ts));
    var at := ElementsRead(s, f, fmt, depth, count + 1, ts, Going(v.pos + 1, v.out), total, stop);
    CommaReads(s, f, count, v, at);
  }

  // ---------------------------------------------------------------- objects

  function ColonText(fmt: Format): Text {
    if fmt.Compact? then ":" else ": "
  }

  /** What is printed from just before the member that follows `count` others, its comma already printed. */
  function MembersFrom(fmt: Format, depth: nat, count: nat, ms: seq<Member>): Text
    requires ms != []
    decreases |ms|, 0
  {
    Gap(fmt, depth + 1, false, count == 0) + (Quoted(fmt, ms[0].name) + (ColonText(fmt) + (Print(fmt, depth + 1, ms[0].value)
    + AfterMembers(fmt, depth, count + 1, ms[1..]))))
  }

  /** What is printed just after `count` members. */
  function AfterMembers(fmt: Format, depth: nat, count: nat, ms: seq<Member>): Text
    decreases |ms|, 1
  {
    if ms == [] then CloseGap(fmt, depth, false, false) + "}" else "," + MembersFrom(fmt, depth, count, ms)
  }

  lemma {:induction false} MembersSplit(fmt: Format, depth: nat, count: nat, ms: seq<Member>)
    requires ms != []
    ensures PrintMembers(fmt, depth + 1, count, ms) + CloseGap(fmt, depth, false, false) + "}"
         == (if count > 0 then "," else "") + MembersFrom(fmt, depth, count, ms)
    decreases |ms|
  {
    var comma: Text := if count > 0 then "," else "";
    var gap := Gap(fmt, depth + 1, false, count == 0);
    var rest := PrintMembers(fmt, depth + 1, count + 1, ms[1..]);
    var close := CloseGap(fmt, depth, false, false) + "}";
    assert rest + close == AfterMembers(fmt, depth, count + 1, ms[1..]) by {
      if ms[1..] != [] {
        MembersSplit(fmt, depth, count + 1, ms[1..]);
        Concat3(rest, CloseGap(fmt, depth, false, false), "}");
      } else {
        assert [] + close == close;
      }
    }
    MemberText(fmt, depth, count, ms[0]);
    RegroupMember(comma, gap, Quoted(fmt, ms[0].name), ColonText(fmt), Print(fmt, depth + 1, ms[0].value), rest,
                  CloseGap(fmt, depth, false, false), "}");
  }

  lemma {:induction false} MemberText(fmt: Format, depth: nat, count: nat, m: Member)
    ensures PrintMember(fmt, depth + 1, count, m)
         == ((if count > 0 then "," else "") + Gap(fmt, depth + 1, false, count == 0))
            + Quoted(fmt, m.name) + ColonText(fmt) + Print(fmt, depth + 1, m.value)
  {
  }

  lemma {:induction false} RegroupMember(a: Text, b: Text, k: Text, c: Text, v: Text, d: Text, e: Text, z: Text)
    ensures ((a + b) + k + c + v) + d + e + z == a + (b + (k + (c + (v + (d + (e + z))))))
  {
    assert (a + b) + k + c + v == a + (b + (k + (c + v)));
  }

  lemma {:induction false} PrintObject(fmt: Format, depth: nat, ms: seq<Member>)
    requires ms != []
    ensures Print(fmt, depth, Obj(ms)) == "{" + MembersFrom(fmt, depth, 0, ms)
  {
    var members := PrintMembers(fmt, depth + 1, 0, ms);
    MembersSplit(fmt, depth, 0, ms);
    assert [] + MembersFrom(fmt, depth, 0, ms) == MembersFrom(fmt, depth, 0, ms);
    Concat4("{", members, CloseGap(fmt, depth, false, false), "}");
  }

  lemma {:induction false} ObjectReads(s: Text, f: Settings, fmt: Format, depth: nat, ms: seq<Member>, g: Progress)
    requires fmt.Valid() && MembersWellFormed(ms) && MembersPrintable(fmt, ms)
    requires g.At(s) && StandsAt(s, g.pos, Print(fmt, depth, Obj(ms)))
    ensures Value(s, f, g) == Going(g.pos + |Print(fmt, depth, Obj(ms))|, g.out + Events(Obj(ReadMembers(ms))))
    decreases ms, 4
  {
    if ms == [] {
      assert Print(fmt, depth, Obj(ms)) == "{}";
      EmptyReads(s, f, g);
    } else {
      PrintObject(fmt, depth, ms);
      StandsFirst(s, g.pos, '{', MembersFrom(fmt, depth, 0, ms));
      var at := MembersRead(s, f, fmt, depth, 0, ms, g.Step(1).Emit(StartObject), |ms|,
                             g.pos + |Print(fmt, depth, Obj(ms))|);
      BracketEnters(s, f, g);
      Concat4(g.out, [StartObject], MemberEvents(ReadMembers(ms)), [EndObject(|ms|)]);
    }
  }

  lemma {:induction false} AfterMembersBegins(fmt: Format, depth: nat, count: nat, ms: seq<Member>)
    ensures var a := AfterMembers(fmt, depth, count, ms); |a| >= 1 && Stops(a[0])
  {
  }

  /** The colon of a printed member and the blank after it. */
  lemma {:induction false} ColonReads(s: Text, f: Settings, fmt: Format, count: nat, text: Text, k: Progress)
    returns (value: Progress)
    requires fmt.Valid() && k.At(s) && StandsAt(s, k.pos, ColonText(fmt) + text)
    requires |text| >= 1 && Begins(text[0])
    ensures Space(s, f, k) == k
    ensures value.At(s) && value == Going(k.pos + |ColonText(fmt)|, k.out) && StandsAt(s, value.pos, text)
    ensures ObjectColon(s, f, count, k) == ObjectValue(s, f, count, value)
  {
    StandsThen(s, k.pos, k.pos + |ColonText(fmt)|, ColonText(fmt), text);
    value := Going(k.pos + |ColonText(fmt)|, k.out);
    StandsByte(s, k.pos, ColonText(fmt), 0);
    StandsByte(s, value.pos, text, 0);
    assert s[k.pos..k.pos] == [];
    SpaceSkips(s, f, k, []);
    var blank := ColonText(fmt)[1..];
    assert ColonText(fmt) == [':'] + blank;
    StandsFirst(s, k.pos, ':', blank);
    SpaceSkips(s, f, k.Step(1), blank);
  }

  /** The name and the colon of a printed member. */
  lemma {:induction false} NameReads(s: Text, f: Settings, fmt: Format, count: nat, name: Text, text: Text, g: Progress)
    returns (value: Progress)
    requires fmt.Valid() && Quotable(fmt, name) && g.At(s) && StandsAt(s, g.pos, Quoted(fmt, name) + (ColonText(fmt) + text))
    requires |text| >= 1 && Begins(text[0])
    ensures value.At(s) && value == Going(g.pos + |Quoted(fmt, name)| + |ColonText(fmt)|, g.out + [Key(name)])
    ensures Peek(s, g.pos) == '"' && StandsAt(s, value.pos, text)
    ensures ObjectMembers(s, f, count, g) == ObjectValue(s, f, count, value)
  {
    StandsThen(s, g.pos, g.pos + |Quoted(fmt, name)|, Quoted(fmt, name), ColonText(fmt) + text);
    QuotedReads(s, fmt, true, name, g);
    var k := Str(s, true, g);
    value := ColonReads(s, f, fmt, count, text, k);
    assert ObjectMembers(s, f, count, g) == ObjectColon(s, f, count, k);
  }

  /** Where blanks, a name, its colon, a value and what follows it lie. */
  lemma {:induction false} MemberLies(
    s: Text, f: Settings, fmt: Format, count: nat, gap: Text, name: Text, printed: Text, after: Text, g: Progress)
    returns (at: Progress, value: Progress, end: nat)
    requires fmt.Valid() && Quotable(fmt, name) && g.At(s) && StandsAt(s, g.pos, gap + (Quoted(fmt, name) + (ColonText(fmt) + (printed + after))))
    requires AllBlank(gap) && |printed| >= 1 && Begins(printed[0]) && |after| >= 1 && Stops(after[0])
    ensures Space(s, f, g) == at && at.At(s) && Peek(s, at.pos) == '"'
    ensures value.At(s) && value.out == g.out + [Key(name)]
    ensures ObjectMembers(s, f, count, at) == ObjectValue(s, f, count, value)
    ensures StandsAt(s, value.pos, printed) && end == value.pos + |printed|
    ensures Stops(Peek(s, end)) && StandsAt(s, end, after)
    ensures end + |after| == g.pos + |gap + (Quoted(fmt, name) + (ColonText(fmt) + (printed + after)))|
  {
    var tail := printed + after;
    at := GapLies(s, f, gap, Quoted(fmt, name) + (ColonText(fmt) + tail), g);
    value := NameReads(s, f, fmt, count, name, tail, at);
    end := value.pos + |printed|;
    TailLies(s, value.pos, printed, after, end);
  }

  /** Blanks and what follows them. */
  lemma {:induction false} GapLies(s: Text, f: Settings, gap: Text, rest: Text, g: Progress) returns (at: Progress)
    requires g.At(s) && StandsAt(s, g.pos, gap + rest) && AllBlank(gap) && rest != [] && !IsBlank(rest[0]) && rest[0] != '/'
    ensures at == Going(g.pos + |gap|, g.out) && at.At(s) && Space(s, f, g) == at && StandsAt(s, at.pos, rest)
  {
    at := Going(g.pos + |gap|, g.out);
    StandsThen(s, g.pos, at.pos, gap, rest);
    StandsByte(s, at.pos, rest, 0);
    SpaceSkips(s, f, g, gap);
  }

  /** A printed value and what follows it. */
  lemma {:induction false} TailLies(s: Text, p: nat, printed: Text, after: Text, end: nat)
    requires StandsAt(s, p, printed + after) && end == p + |printed| && |after| >= 1 && Stops(after[0])
    ensures StandsAt(s, p, printed) && StandsAt(s, end, after) && Stops(Peek(s, end))
  {
    StandsThen(s, p, end, printed, after);
    StandsByte(s, end, after, 0);
  }

  lemma {:induction false} NextMemberLies(s: Text, f: Settings, fmt: Format, depth: nat, count: nat, ms: seq<Member>, g: Progress)
    returns (at: Progress, value: Progress, end: nat)
    requires fmt.Valid() && ms != [] && Quotable(fmt, ms[0].name) && WellFormed(ms[0].value) && Printable(fmt, ms[0].value)
    requires g.At(s) && StandsAt(s, g.pos, MembersFrom(fmt, depth, count, ms))
    ensures at.At(s) && Space(s, f, g) == at && Begins(Peek(s, at.pos))
    ensures value.At(s) && value.out == g.out + [Key(ms[0].name)]
    ensures ObjectMembers(s, f, count, at) == ObjectValue(s, f, count, value)
    ensures StandsAt(s, value.pos, Print(fmt, depth + 1, ms[0].value)) && end == value.pos + |Print(fmt, depth + 1, ms[0].value)|
    ensures Stops(Peek(s, end)) && StandsAt(s, end, AfterMembers(fmt, depth, count + 1, ms[1..]))
    ensures end + |AfterMembers(fmt, depth, count + 1, ms[1..])| == g.pos + |MembersFrom(fmt, depth, count, ms)|
  {
    var gap := Gap(fmt, depth + 1, false, count == 0);
    var printed := Print(fmt, depth + 1, ms[0].value);
    var after := AfterMembers(fmt, depth, count + 1, ms[1..]);
    GapsAreBlank(fmt, depth + 1, false, count == 0);
    PrintBegins(fmt, depth + 1, ms[0].value);
    AfterMembersBegins(fmt, depth, count + 1, ms[1..]);
    assert MembersFrom(fmt, depth, count, ms) == gap + (Quoted(fmt, ms[0].name) + (ColonText(fmt) + (printed + after)));
    at, value, end := MemberLies(s, f, fmt, count, gap, ms[0].name, printed, after, g);
  }

  /** The cursor just before the blanks of a member: the rest of the object is read back. */
  lemma {:induction false} MembersRead(s: Text, f: Settings, fmt: Format, depth: nat, count: nat, ms: seq<Member>, g: Progress,
                                        total: nat, stop: nat)
    returns (at: Progress)
    requires g.Going? && ms != [] && total == count + |ms| && stop == g.pos + |MembersFrom(fmt, depth, count, ms)|
    requires fmt.Valid() && MembersWellFormed(ms) && MembersPrintable(fmt, ms)
    requires g.At(s) && StandsAt(s, g.pos, MembersFrom(fmt, depth, count, ms))
    ensures Space(s, f, g) == at && at.At(s) && Begins(Peek(s, at.pos))
    ensures ObjectMembers(s, f, count, at) == Going(stop, g.out + MemberEvents(ReadMembers(ms)) + [EndObject(total)])
    decreases ms, 1
  {
    var v;
    at, v := FirstMemberReads(s, f, fmt, depth, count, ms, g);
    AfterMemberReads(s, f, fmt, depth, count, ms[1..], v, total, stop);
    FirstMemberEvents(g.out, ms, total);
  }

  /** One member, from the blanks before it to the end of its value. */
  lemma {:induction false} FirstMemberReads(s: Text, f: Settings, fmt: Format, depth: nat, count: nat, ms: seq<Member>, g: Progress)
    returns (at: Progress, v: Progress)
    requires g.Going? && ms != [] && fmt.Valid() && MembersWellFormed(ms) && MembersPrintable(fmt, ms)
    requires g.At(s) && StandsAt(s, g.pos, MembersFrom(fmt, depth, count, ms))
    ensures Space(s, f, g) == at && at.At(s) && Begins(Peek(s, at.pos))
    ensures v.At(s) && v.out == g.out + [Key(ms[0].name)] + Events(ReadTree(ms[0].value))
    ensures StandsAt(s, v.pos, AfterMembers(fmt, depth, count + 1, ms[1..]))
    ensures v.pos + |AfterMembers(fmt, depth, count + 1, ms[1..])| == g.pos + |MembersFrom(fmt, depth, count, ms)|
    ensures ObjectMembers(s, f, count, at) == ObjectAfterValue(s, f, count, v)
    decreases ms, 0
  {
    var value, end;
    at, value, end := NextMemberLies(s, f, fmt, depth, count, ms, g);
    v := MemberValueReads(s, f, fmt, depth + 1, count, ms[0].value, value, end);
  }

  /** The value of a member. */
  lemma {:induction false} MemberValueReads(s: Text, f: Settings, fmt: Format, depth: nat, count: nat, t: Tree, value: Progress, end: nat)
    returns (v: Progress)
    requires fmt.Valid() && WellFormed(t) && Printable(fmt, t) && value.At(s)
    requires StandsAt(s, value.pos, Print(fmt, depth, t)) && end == value.pos + |Print(fmt, depth, t)| && Stops(Peek(s, end))
    ensures v == Going(end, value.out + Events(ReadTree(t))) && v.At(s)
    ensures ObjectValue(s, f, count, value) == ObjectAfterValue(s, f, count, v)
    decreases t, 4
  {
    TreeReads(s, f, fmt, depth, t, value);
    v := Going(end, value.out + Events(ReadTree(t)));
    ValueThen(s, f, count, value, v);
  }

  lemma {:induction false} FirstMemberEvents(out: seq<Event>, ms: seq<Member>, n: nat)
    requires ms != []
    ensures out + [Key(ms[0].name)] + Events(ReadTree(ms[0].value)) + MemberEvents(ReadMembers(ms[1..])) + [EndObject(n)]
         == out + MemberEvents(ReadMembers(ms)) + [EndObject(n)]
  {
    assert ReadMembers(ms)[1..] == ReadMembers(ms[1..]);
    Concat4(out, [Key(ms[0].name)], Events(ReadTree(ms[0].value)), MemberEvents(ReadMembers(ms[1..])));
  }

  lemma {:induction false} AfterMemberReads(s: Text, f: Settings, fmt: Format, depth: nat, count: nat, ms: seq<Member>, v: Progress,
                                             total: nat, stop: nat)
    requires v.Going? && total == count + 1 + |ms| && stop == v.pos + |AfterMembers(fmt, depth, count + 1, ms)|
    requires fmt.Valid() && MembersWellFormed(ms) && MembersPrintable(fmt, ms)
    requires v.At(s) && StandsAt(s, v.pos, AfterMembers(fmt, depth, count + 1, ms))
    ensures ObjectAfterValue(s, f, count, v) == Going(stop, v.out + MemberEvents(ReadMembers(ms)) + [EndObject(total)])
    decreases ms, 3
  {
    if ms == [] {
      GapsAreBlank(fmt, depth, false, false);
      CloseReads(s, f, count, CloseGap(fmt, depth, false, false), v);
      assert v.out + [] == v.out;
    } else {
      NextMembersRead(s, f, fmt, depth, count, ms, v, total, stop);
    }
  }

  lemma {:induction false} NextMembersRead(s: Text, f: Settings, fmt: Format, depth: nat, count: nat, ms: seq<Member>, v: Progress,
                                            total: nat, stop: nat)
    requires v.Going? && ms != [] && total == count + 1 + |ms| && stop == v.pos + 1 + |MembersFrom(fmt, depth, count + 1, ms)|
    requires fmt.Valid() && MembersWellFormed(ms) && MembersPrintable(fmt, ms)
    requires v.At(s) && StandsAt(s, v.pos, "," + MembersFrom(fmt, depth, count + 1, ms))
    ensures ObjectAfterValue(s, f, count, v) == Going(stop, v.out + MemberEvents(ReadMembers(ms)) + [EndObject(total)])
    decreases ms, 2
  {
    StandsFirst(s, v.pos, ',', MembersFrom(fmt, depth, count + 1, ms));
    var at := MembersRead(s, f, fmt, depth, count + 1, ms, Going(v.pos + 1, v.out), total, stop);
    CommaReads(s, f, count, v, at);
  }

  // ---------------------------------------------------------------- the round trip

  lemma {:induction false} ReadTreeSame(t: Tree)
    requires WellFormed(t)
    ensures SameEvents(Events(ReadTree(t)), Events(t))
    decreases t, 1
  {
    match t {
      case Leaf(e) => ReadEventSame(e);
      case Arr(ts) =>
        ReadElementsSame(ts);
      case Obj(ms) =>
        ReadMembersSame(ms);
    }
  }

  lemma {:induction false} ReadElementsSame(ts: seq<Tree>)
    requires AllWellFormed(ts)
    ensures SameEvents(ElementEvents(ReadElements(ts)), ElementEvents(ts))
    decreases ts, 0
  {
    if ts != [] {
      ReadTreeSame(ts[0]);
      ReadElementsSame(ts[1..]);
      assert ReadElements(ts)[1..] == ReadElements(ts[1..]);
    }
  }

  lemma {:induction false} ReadMembersSame(ms: seq<Member>)
    requires MembersWellFormed(ms)
    ensures SameEvents(MemberEvents(ReadMembers(ms)), MemberEvents(ms))
    decreases ms, 0
  {
    if ms != [] {
      ReadTreeSame(ms[0].value);
      ReadMembersSame(ms[1..]);
      assert ReadMembers(ms)[1..] == ReadMembers(ms[1..]);
    }
  }

  /**
   * For every printable tree, either layout and either target, the reader accepts the printed text to its end, whatever its flags,
   * and sends the events of the tree again, integers compared by value.
   */
  lemma {:induction false} PrintedTextReadsBack(f: Settings, fmt: Format, t: Tree)
    requires fmt.Valid() && WellFormed(t) && Printable(fmt, t)
    ensures var s := Print(fmt, 0, t);
            var r := Document(s, f);
            r.Going? && r.pos == |s| && r.out == Events(ReadTree(t)) && SameEvents(r.out, Events(t))
  {
    var s := Print(fmt, 0, t);
    var g := Going(0, []);
    assert s[0..0 + |s|] == s;
    PrintBegins(fmt, 0, t);
    SpaceSkips(s, f, g, []);
    TreeReads(s, f, fmt, 0, t, g);
    ReadTreeSame(t);
    assert [] + Events(ReadTree(t)) == Events(ReadTree(t));
    SpaceSkips(s, f, Going(|s|, Events(ReadTree(t))), []);
  }
}
