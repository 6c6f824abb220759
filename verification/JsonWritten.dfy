/**
 * Texts as RFC 8259 lets them be written, with any blanks around every token and any spelling of strings and numbers; and
 * with comments and commas before closing brackets where flags allow them. The reader accepts each of them, and announces
 * the tree that was written.
 */
module JsonWritten {
  import opened Bytes
  import opened JsonLexer
  import opened JsonGrammar
  import opened JsonValue
  import opened JsonGaps
  import opened JsonStrings
  import opened JsonNumerals
  import opened JsonRoundTrip

  /** A value as it is written, with what fills the space inside its brackets; `comma` is one before the closing bracket. */
  datatype Doc =
    | NullWord | TrueWord | FalseWord | Number(n: Numeral) | String(cs: seq<Char>)
    | EmptyArray(gap: Gap) | EmptyObject(gap: Gap)
    | Array(items: seq<Item>, comma: Option<Gap>) | Object(entries: seq<Entry>, comma: Option<Gap>)

  /** An element, and what fills the space around it. */
  datatype Item = Item(before: Gap, value: Doc, after: Gap)

  /** A member: its name and its value, and what fills the space around each. */
  datatype Entry = Entry(before: Gap, name: seq<Char>, beforeColon: Gap, afterColon: Gap, value: Doc, after: Gap)

  predicate DocFits(f: Settings, d: Doc) {
    match d
    case NullWord | TrueWord | FalseWord => true
    case Number(n) => n.Fits() && (!n.IsInteger() ==> !f.overflows(n.Text()))
    case String(cs) => AllFit(cs)
    case EmptyArray(gap) => GapFits(f.comments, gap)
    case EmptyObject(gap) => GapFits(f.comments, gap)
    case Array(items, comma) => items != [] && ItemsFit(f, items) && CommaFits(f, comma)
    case Object(entries, comma) => entries != [] && EntriesFit(f, entries) && CommaFits(f, comma)
  }

  predicate CommaFits(f: Settings, comma: Option<Gap>) {
    comma.Some? ==> f.trailingCommas && GapFits(f.comments, comma.value)
  }

  predicate ItemsFit(f: Settings, items: seq<Item>) {
    items == [] || (ItemFits(f, items[0]) && ItemsFit(f, items[1..]))
  }

  predicate ItemFits(f: Settings, i: Item) {
    GapFits(f.comments, i.before) && DocFits(f, i.value) && GapFits(f.comments, i.after)
  }

  predicate EntriesFit(f: Settings, entries: seq<Entry>) {
    entries == [] || (EntryFits(f, entries[0]) && EntriesFit(f, entries[1..]))
  }

  predicate EntryFits(f: Settings, e: Entry) {
    && GapFits(f.comments, e.before) && AllFit(e.name) && GapFits(f.comments, e.beforeColon)
    && GapFits(f.comments, e.afterColon) && DocFits(f, e.value) && GapFits(f.comments, e.after)
  }

  // ---------------------------------------------------------------- the text

  function QuotedText(cs: seq<Char>): Text {
    ['"'] + (CharsText(cs) + ['"'])
  }

  function DocText(d: Doc): Text {
    match d
    case NullWord => "null"
    case TrueWord => "true"
    case FalseWord => "false"
    case Number(n) => n.Text()
    case String(cs) => QuotedText(cs)
    case EmptyArray(gap) => ['['] + (GapText(gap) + [']'])
    case EmptyObject(gap) => ['{'] + (GapText(gap) + ['}'])
    case Array(items, comma) => ['['] + ItemsText(items, Closing(comma, ']'))
    case Object(entries, comma) => ['{'] + EntriesText(entries, Closing(comma, '}'))
  }

  /** The closing bracket, and a comma before it if there is one. */
  function Closing(comma: Option<Gap>, bracket: Byte): Text {
    match comma
    case None => [bracket]
    case Some(gap) => [','] + (GapText(gap) + [bracket])
  }

  /** The elements and what closes them. */
  function ItemsText(items: seq<Item>, close: Text): Text
    decreases items, 0
  {
    if items == [] then [] else ItemText(items[0]) + AfterItem(items[1..], close)
  }

  function AfterItem(items: seq<Item>, close: Text): Text
    decreases items, 1
  {
    if items == [] then close else [','] + ItemsText(items, close)
  }

  function ItemText(i: Item): Text {
    GapText(i.before) + (DocText(i.value) + GapText(i.after))
  }

  /** The members and what closes them. */
  function EntriesText(entries: seq<Entry>, close: Text): Text
    decreases entries, 0
  {
    if entries == [] then [] else EntryText(entries[0]) + AfterEntry(entries[1..], close)
  }

  function AfterEntry(entries: seq<Entry>, close: Text): Text
    decreases entries, 1
  {
    if entries == [] then close else [','] + EntriesText(entries, close)
  }

  function EntryText(e: Entry): Text {
    GapText(e.before) + (QuotedText(e.name) + (GapText(e.beforeColon) + ([':'] + (GapText(e.afterColon) + (DocText(e.value) + GapText(e.after))))))
  }

  // ---------------------------------------------------------------- the tree

  /** The tree that was written. */
  function TreeOf(f: Settings, d: Doc): Tree
    requires DocFits(f, d)
  {
    match d
    case NullWord => Leaf(Null)
    case TrueWord => Leaf(Bool(true))
    case FalseWord => Leaf(Bool(false))
    case Number(n) => Leaf(n.Announced())
    case String(cs) => Leaf(JsonLexer.String(CharsBytes(cs)))
    case EmptyArray(_) => Arr([])
    case EmptyObject(_) => Obj([])
    case Array(items, _) => Arr(TreesOf(f, items))
    case Object(entries, _) => Obj(MembersOf(f, entries))
  }

  function TreesOf(f: Settings, items: seq<Item>): (r: seq<Tree>)
    requires ItemsFit(f, items)
    ensures |r| == |items|
  {
    if items == [] then []
    else
      assert ItemFits(f, items[0]);
      [TreeOf(f, items[0].value)] + TreesOf(f, items[1..])
  }

  function MembersOf(f: Settings, entries: seq<Entry>): (r: seq<Member>)
    requires EntriesFit(f, entries)
    ensures |r| == |entries|
  {
    if entries == [] then []
    else
      assert EntryFits(f, entries[0]);
      [Member(CharsBytes(entries[0].name), TreeOf(f, entries[0].value))] + MembersOf(f, entries[1..])
  }

  // ---------------------------------------------------------------- brackets and separators

  /** A number may not be followed by a byte that it would go on with. */
  predicate EndsBefore(f: Settings, d: Doc, c: Byte)
    requires DocFits(f, d)
  {
    d.Number? ==> d.n.EndsBefore(c)
  }

  lemma {:induction false} StopsEnd(f: Settings, d: Doc, c: Byte)
    requires DocFits(f, d) && Stops(c)
    ensures EndsBefore(f, d, c)
  {
  }

  /** A written value begins with a byte that begins a value. */
  lemma {:induction false} DocBegins(f: Settings, d: Doc)
    requires DocFits(f, d)
    ensures DocText(d) != [] && Begins(DocText(d)[0])
  {
    if d.Number? {
      NumeralBegins(d.n);
    }
  }

  lemma {:induction false} NumeralBegins(n: Numeral)
    requires n.Fits()
    ensures n.Text() != [] && Begins(n.Text()[0])
  {
    if n.minus {
      assert n.Text()[0] == '-';
    } else {
      assert n.Text()[0] == n.whole[0];
    }
  }

  /** Filled space, and what follows it. */
  lemma {:induction false} GapEnters(s: Text, f: Settings, gap: Gap, rest: Text, g: Progress) returns (at: Progress)
    requires g.At(s) && GapFits(f.comments, gap) && StandsAt(s, g.pos, GapText(gap) + rest) && rest != [] && EndsGap(rest[0])
    ensures at == Going(g.pos + |GapText(gap)|, g.out) && at.At(s) && Space(s, f, g) == at && StandsAt(s, at.pos, rest)
  {
    var q := g.pos + |GapText(gap)|;
    at := Going(q, g.out);
    StandsThen(s, g.pos, q, GapText(gap), rest);
    StandsByte(s, q, rest, 0);
    GapReads(s, f, g.pos, gap, q);
    NothingSkipped(s, f, q);
  }

  /** Filled space ends a number, as what comes behind it does. */
  lemma {:induction false} GapStops(comments: bool, gap: Gap, rest: Text)
    requires GapFits(comments, gap) && rest != [] && Stops(rest[0])
    ensures |GapText(gap) + rest| >= 1 && Stops((GapText(gap) + rest)[0])
  {
    if gap != [] {
      assert GapText(gap)[0] == gap[0].Text()[0];
    }
  }

  /** Filled space behind a value, and then a comma with what it is followed by. */
  lemma {:induction false} GapAndComma(s: Text, f: Settings, count: nat, gap: Gap, rest: Text, v: Progress)
    returns (next: Progress, at: Progress)
    requires v.At(s) && GapFits(f.comments, gap) && StandsAt(s, v.pos, GapText(gap) + ([','] + rest))
    ensures next == Going(v.pos + |GapText(gap)| + 1, v.out) && next.At(s) && StandsAt(s, next.pos, rest) && at == Space(s, f, next)
    ensures at.At(s) ==> ArrayAfterElement(s, f, count, v) == ArrayAfterComma(s, f, count + 1, at)
    ensures at.At(s) ==> ObjectAfterValue(s, f, count, v) == ObjectAfterComma(s, f, count + 1, at)
  {
    var h := GapEnters(s, f, gap, [','] + rest, v);
    StandsFirst(s, h.pos, ',', rest);
    next := Going(h.pos + 1, v.out);
    at := Space(s, f, next);
    CommaSeparates(s, f, count, v, h, next, at);
  }

  lemma {:induction false} CommaSeparates(s: Text, f: Settings, count: nat, v: Progress, h: Progress, next: Progress, at: Progress)
    requires v.At(s) && h == Space(s, f, v) && h.At(s) && Peek(s, h.pos) == ','
    requires next == Going(h.pos + 1, h.out) && at == Space(s, f, next)
    ensures at.At(s) ==> ArrayAfterElement(s, f, count, v) == ArrayAfterComma(s, f, count + 1, at)
    ensures at.At(s) ==> ObjectAfterValue(s, f, count, v) == ObjectAfterComma(s, f, count + 1, at)
  {
    assert next == h.Step(1);
    if at.At(s) {
      assert ArrayAfterElement(s, f, count, v) == ArraySeparator(s, f, count, h);
      assert ObjectAfterValue(s, f, count, v) == ObjectSeparator(s, f, count, h);
    }
  }

  lemma {:induction false} CommaGoesOn(s: Text, f: Settings, count: nat, at: Progress)
    requires at.At(s) && Begins(Peek(s, at.pos))
    ensures ArrayAfterComma(s, f, count, at) == ArrayElements(s, f, count, at)
    ensures ObjectAfterComma(s, f, count, at) == ObjectMembers(s, f, count, at)
  {
  }

  /** A closing bracket behind a value. */
  lemma {:induction false} BracketCloses(s: Text, f: Settings, count: nat, gap: Gap, bracket: Byte, v: Progress)
    requires v.At(s) && GapFits(f.comments, gap) && StandsAt(s, v.pos, GapText(gap) + [bracket]) && (bracket == ']' || bracket == '}')
    ensures bracket == ']' ==> ArrayAfterElement(s, f, count, v) == Going(v.pos + |GapText(gap)| + 1, v.out + [EndArray(count + 1)])
    ensures bracket == '}' ==> ObjectAfterValue(s, f, count, v) == Going(v.pos + |GapText(gap)| + 1, v.out + [EndObject(count + 1)])
  {
    var h := GapEnters(s, f, gap, [bracket], v);
    StandsByte(s, h.pos, [bracket], 0);
  }

  /** A comma and a closing bracket behind a value. */
  lemma {:induction false} CommaCloses(s: Text, f: Settings, count: nat, gap: Gap, more: Gap, bracket: Byte, v: Progress)
    requires v.At(s) && GapFits(f.comments, gap) && f.trailingCommas && GapFits(f.comments, more) && (bracket == ']' || bracket == '}')
    requires StandsAt(s, v.pos, GapText(gap) + ([','] + (GapText(more) + [bracket])))
    ensures var stop := v.pos + |GapText(gap)| + |GapText(more)| + 2;
            && (bracket == ']' ==> ArrayAfterElement(s, f, count, v) == Going(stop, v.out + [EndArray(count + 1)]))
            && (bracket == '}' ==> ObjectAfterValue(s, f, count, v) == Going(stop, v.out + [EndObject(count + 1)]))
  {
    var next, at := GapAndComma(s, f, count, gap, GapText(more) + [bracket], v);
    var h := GapEnters(s, f, more, [bracket], next);
    StandsByte(s, h.pos, [bracket], 0);
    CommaEnds(s, f, count + 1, h);
  }

  lemma {:induction false} CommaEnds(s: Text, f: Settings, count: nat, h: Progress)
    requires h.At(s) && f.trailingCommas
    ensures Peek(s, h.pos) == ']' ==> ArrayAfterComma(s, f, count, h) == Going(h.pos + 1, h.out + [EndArray(count)])
    ensures Peek(s, h.pos) == '}' ==> ObjectAfterComma(s, f, count, h) == Going(h.pos + 1, h.out + [EndObject(count)])
  {
  }

  /** What closes an array or an object. */
  lemma {:induction false} ClosingReads(s: Text, f: Settings, count: nat, gap: Gap, comma: Option<Gap>, bracket: Byte, v: Progress, stop: nat)
    requires v.At(s) && GapFits(f.comments, gap) && CommaFits(f, comma) && StandsAt(s, v.pos, GapText(gap) + Closing(comma, bracket))
    requires stop == v.pos + |GapText(gap)| + |Closing(comma, bracket)| && (bracket == ']' || bracket == '}')
    ensures bracket == ']' ==> ArrayAfterElement(s, f, count, v) == Going(stop, v.out + [EndArray(count + 1)])
    ensures bracket == '}' ==> ObjectAfterValue(s, f, count, v) == Going(stop, v.out + [EndObject(count + 1)])
  {
    match comma
    case None => BracketCloses(s, f, count, gap, bracket, v);
    case Some(more) => CommaCloses(s, f, count, gap, more, bracket, v);
  }

  lemma {:induction false} ClosingStops(f: Settings, comma: Option<Gap>, bracket: Byte)
    requires bracket == ']' || bracket == '}'
    ensures var c := Closing(comma, bracket); c != [] && Stops(c[0]) && EndsGap(c[0])
  {
  }

  /** A string between quotes. */
  lemma {:induction false} QuotesEnclose(s: Text, p: nat, cs: seq<Char>)
    requires StandsAt(s, p, QuotedText(cs))
    ensures p < |s| && s[p] == '"' && StandsAt(s, p + 1, CharsText(cs)) && Peek(s, p + 1 + |CharsText(cs)|) == '"'
    ensures |QuotedText(cs)| == |CharsText(cs)| + 2
  {
    StandsFirst(s, p, '"', CharsText(cs) + ['"']);
    StandsThen(s, p + 1, p + 1 + |CharsText(cs)|, CharsText(cs), ['"']);
    StandsByte(s, p + 1 + |CharsText(cs)|, ['"'], 0);
  }

  lemma {:induction false} QuotedReads(s: Text, isKey: bool, cs: seq<Char>, g: Progress)
    requires g.At(s) && AllFit(cs) && StandsAt(s, g.pos, QuotedText(cs))
    ensures Peek(s, g.pos) == '"'
    ensures Str(s, isKey, g) ==
            Going(g.pos + |QuotedText(cs)|, g.out + [if isKey then Key(CharsBytes(cs)) else JsonLexer.String(CharsBytes(cs))])
  {
    var stop := g.pos + 1 + |CharsText(cs)|;
    var bytes := CharsBytes(cs);
    QuotesEnclose(s, g.pos, cs);
    CharsRead(s, g.pos + 1, cs, [], stop);
    assert [] + bytes == bytes;
    StringIs(s, isKey, g, stop + 1, bytes);
  }

  lemma {:induction false} StringIs(s: Text, isKey: bool, g: Progress, end: nat, bytes: Text)
    requires g.At(s) && Peek(s, g.pos) == '"' && ScanString(s, g.pos + 1, []) == Found(end, bytes)
    ensures Str(s, isKey, g) == Going(end, g.out + [if isKey then Key(bytes) else JsonLexer.String(bytes)])
  {
  }

  /** Brackets with no value between them. */
  lemma {:induction false} EmptyArrayReads(s: Text, f: Settings, gap: Gap, g: Progress)
    requires g.At(s) && GapFits(f.comments, gap) && StandsAt(s, g.pos, ['['] + (GapText(gap) + [']']))
    ensures Value(s, f, g) == Going(g.pos + |GapText(gap)| + 2, g.out + Events(Arr([])))
  {
    StandsFirst(s, g.pos, '[', GapText(gap) + [']']);
    var h := GapEnters(s, f, gap, [']'], g.Step(1).Emit(StartArray));
    StandsByte(s, h.pos, [']'], 0);
    NothingBetween(s, f, g, h);
  }

  lemma {:induction false} NothingBetween(s: Text, f: Settings, g: Progress, h: Progress)
    requires g.At(s) && (Peek(s, g.pos) == '[' || Peek(s, g.pos) == '{')
    requires h == Space(s, f, g.Step(1).Emit(if Peek(s, g.pos) == '[' then StartArray else StartObject)) && h.At(s)
    ensures Peek(s, g.pos) == '[' && Peek(s, h.pos) == ']' ==> Value(s, f, g) == Going(h.pos + 1, g.out + Events(Arr([])))
    ensures Peek(s, g.pos) == '{' && Peek(s, h.pos) == '}' ==> Value(s, f, g) == Going(h.pos + 1, g.out + Events(Obj([])))
  {
    if Peek(s, g.pos) == '[' && Peek(s, h.pos) == ']' {
      assert Value(s, f, g) == JsonGrammar.Array(s, f, g) == ArrayFirst(s, f, h);
      assert g.out + [StartArray] + [EndArray(0)] == g.out + Events(Arr([]));
    }
    if Peek(s, g.pos) == '{' && Peek(s, h.pos) == '}' {
      assert Value(s, f, g) == JsonGrammar.Object(s, f, g) == ObjectFirst(s, f, h);
      assert g.out + [StartObject] + [EndObject(0)] == g.out + Events(Obj([]));
    }
  }

  lemma {:induction false} EmptyObjectReads(s: Text, f: Settings, gap: Gap, g: Progress)
    requires g.At(s) && GapFits(f.comments, gap) && StandsAt(s, g.pos, ['{'] + (GapText(gap) + ['}']))
    ensures Value(s, f, g) == Going(g.pos + |GapText(gap)| + 2, g.out + Events(Obj([])))
  {
    StandsFirst(s, g.pos, '{', GapText(gap) + ['}']);
    var h := GapEnters(s, f, gap, ['}'], g.Step(1).Emit(StartObject));
    StandsByte(s, h.pos, ['}'], 0);
    NothingBetween(s, f, g, h);
  }

  // ---------------------------------------------------------------- values

  /** A written value is read as a whole, and announced as its tree. */
  lemma {:induction false} DocReads(s: Text, f: Settings, d: Doc, g: Progress)
    requires g.At(s) && DocFits(f, d) && StandsAt(s, g.pos, DocText(d)) && EndsBefore(f, d, Peek(s, g.pos + |DocText(d)|))
    ensures Value(s, f, g) == Going(g.pos + |DocText(d)|, g.out + Events(TreeOf(f, d)))
    decreases d, 5
  {
    match d
    case NullWord => WordReads(s, "null", Null, g);
    case TrueWord => WordReads(s, "true", Bool(true), g);
    case FalseWord => WordReads(s, "false", Bool(false), g);
    case Number(n) =>
      NumeralReads(s, f, g.pos, n);
      NumberIsValue(s, f, g);
    case String(cs) => QuotedReads(s, false, cs, g);
    case EmptyArray(gap) => EmptyArrayReads(s, f, gap, g);
    case EmptyObject(gap) => EmptyObjectReads(s, f, gap, g);
    case Array(items, comma) => ArrayReads(s, f, items, comma, Closing(comma, ']'), g);
    case Object(entries, comma) => ObjectReads(s, f, entries, comma, Closing(comma, '}'), g);
  }

  lemma {:induction false} ArrayReads(s: Text, f: Settings, items: seq<Item>, comma: Option<Gap>, close: Text, g: Progress)
    requires items != [] && ItemsFit(f, items) && CommaFits(f, comma) && close == Closing(comma, ']')
    requires g.At(s) && StandsAt(s, g.pos, ['['] + ItemsText(items, close))
    ensures Value(s, f, g) == Going(g.pos + 1 + |ItemsText(items, close)|, g.out + Events(Arr(TreesOf(f, items))))
    decreases items, 4
  {
    StandsFirst(s, g.pos, '[', ItemsText(items, close));
    var at := ItemsRead(s, f, 0, items, comma, close, g.Step(1).Emit(StartArray), |items|);
    BracketEnters(s, f, g);
    Concat4(g.out, [StartArray], ElementEvents(TreesOf(f, items)), [EndArray(|items|)]);
  }

  /** Where the first of some elements lies: the space before it, its value, and what comes behind it. */
  lemma {:induction false} ItemLies(s: Text, f: Settings, i: Item, rest: Text, g: Progress) returns (at: Progress, end: nat)
    requires g.At(s) && ItemFits(f, i) && StandsAt(s, g.pos, ItemText(i) + rest) && rest != [] && Stops(rest[0])
    ensures Space(s, f, g) == at && at.At(s) && at.out == g.out && Begins(Peek(s, at.pos))
    ensures StandsAt(s, at.pos, DocText(i.value)) && end == at.pos + |DocText(i.value)| <= |s| && Stops(Peek(s, end))
    ensures StandsAt(s, end, GapText(i.after) + rest) && end + |GapText(i.after) + rest| == g.pos + |ItemText(i) + rest|
  {
    var value, behind := DocText(i.value), GapText(i.after) + rest;
    DocBegins(f, i.value);
    ItemSplit(GapText(i.before), value, GapText(i.after), rest);
    at := GapEnters(s, f, i.before, value + behind, g);
    StandsByte(s, at.pos, value + behind, 0);
    end := at.pos + |value|;
    GapStops(f.comments, i.after, rest);
    TailLies(s, at.pos, value, behind, end);
  }

  lemma {:induction false} ItemSplit(before: Text, value: Text, after: Text, rest: Text)
    ensures before + (value + after) + rest == before + (value + (after + rest))
  {
  }

  lemma {:induction false} FirstItemReads(s: Text, f: Settings, count: nat, i: Item, rest: Text, g: Progress)
    returns (at: Progress, v: Progress)
    requires g.At(s) && ItemFits(f, i) && StandsAt(s, g.pos, ItemText(i) + rest) && rest != [] && Stops(rest[0])
    ensures Space(s, f, g) == at && at.At(s) && Begins(Peek(s, at.pos))
    ensures v.At(s) && v.out == g.out + Events(TreeOf(f, i.value)) && ArrayElements(s, f, count, at) == ArrayAfterElement(s, f, count, v)
    ensures StandsAt(s, v.pos, GapText(i.after) + rest) && v.pos + |GapText(i.after) + rest| == g.pos + |ItemText(i) + rest|
    decreases i, 3
  {
    var end;
    at, end := ItemLies(s, f, i, rest, g);
    v := ValueReads(s, f, count, i.value, at, end);
  }

  /** A written value with a byte behind it that ends a number. */
  lemma {:induction false} ValueReads(s: Text, f: Settings, count: nat, d: Doc, at: Progress, end: nat) returns (v: Progress)
    requires at.At(s) && DocFits(f, d) && StandsAt(s, at.pos, DocText(d)) && end == at.pos + |DocText(d)| && Stops(Peek(s, end))
    ensures v == Going(end, at.out + Events(TreeOf(f, d))) && v.At(s)
    ensures ArrayElements(s, f, count, at) == ArrayAfterElement(s, f, count, v)
    ensures ObjectValue(s, f, count, at) == ObjectAfterValue(s, f, count, v)
    decreases d, 6
  {
    v := Going(end, at.out + Events(TreeOf(f, d)));
    StopsEnd(f, d, Peek(s, end));
    DocReads(s, f, d, at);
    ValueThen(s, f, count, at, v);
  }

  lemma {:induction false} ItemsRead(
    s: Text, f: Settings, count: nat, items: seq<Item>, comma: Option<Gap>, close: Text, g: Progress, total: nat) returns (at: Progress)
    requires items != [] && ItemsFit(f, items) && CommaFits(f, comma) && close == Closing(comma, ']')
    requires g.At(s) && total == count + |items| && StandsAt(s, g.pos, ItemsText(items, close))
    ensures Space(s, f, g) == at && at.At(s) && Begins(Peek(s, at.pos))
    ensures ArrayElements(s, f, count, at) ==
            Going(g.pos + |ItemsText(items, close)|, g.out + ElementEvents(TreesOf(f, items)) + [EndArray(total)])
    decreases items, 3
  {
    var v;
    ClosingStops(f, comma, ']');
    at, v := FirstItemReads(s, f, count, items[0], AfterItem(items[1..], close), g);
    AfterItemReads(s, f, count, items[0].after, items[1..], comma, close, v, total);
    assert TreesOf(f, items)[1..] == TreesOf(f, items[1..]);
    Concat3(g.out, Events(TreeOf(f, items[0].value)), ElementEvents(TreesOf(f, items[1..])));
  }

  lemma {:induction false} AfterItemReads(
    s: Text, f: Settings, count: nat, gap: Gap, items: seq<Item>, comma: Option<Gap>, close: Text, v: Progress, total: nat)
    requires GapFits(f.comments, gap) && ItemsFit(f, items) && CommaFits(f, comma) && close == Closing(comma, ']')
    requires v.At(s) && total == count + 1 + |items| && StandsAt(s, v.pos, GapText(gap) + AfterItem(items, close))
    ensures ArrayAfterElement(s, f, count, v) ==
            Going(v.pos + |GapText(gap) + AfterItem(items, close)|, v.out + ElementEvents(TreesOf(f, items)) + [EndArray(total)])
    decreases items, 6
  {
    if items == [] {
      ClosingReads(s, f, count, gap, comma, ']', v, v.pos + |GapText(gap) + close|);
      assert v.out + [] == v.out;
    } else {
      var next, at := GapAndComma(s, f, count, gap, ItemsText(items, close), v);
      at := ItemsRead(s, f, count + 1, items, comma, close, next, total);
      CommaGoesOn(s, f, count + 1, at);
    }
  }

  // ---------------------------------------------------------------- objects

  lemma {:induction false} ObjectReads(s: Text, f: Settings, entries: seq<Entry>, comma: Option<Gap>, close: Text, g: Progress)
    requires entries != [] && EntriesFit(f, entries) && CommaFits(f, comma) && close == Closing(comma, '}')
    requires g.At(s) && StandsAt(s, g.pos, ['{'] + EntriesText(entries, close))
    ensures Value(s, f, g) == Going(g.pos + 1 + |EntriesText(entries, close)|, g.out + Events(Obj(MembersOf(f, entries))))
    decreases entries, 4
  {
    StandsFirst(s, g.pos, '{', EntriesText(entries, close));
    var at := EntriesRead(s, f, 0, entries, comma, close, g.Step(1).Emit(StartObject), |entries|);
    BracketEnters(s, f, g);
    Concat4(g.out, [StartObject], MemberEvents(MembersOf(f, entries)), [EndObject(|entries|)]);
  }

  /** A name, and the colon behind it. */
  lemma {:induction false} NameReads(s: Text, f: Settings, count: nat, e: Entry, rest: Text, g: Progress)
    returns (at: Progress, colon: Progress)
    requires g.At(s) && EntryFits(f, e)
    requires StandsAt(s, g.pos, GapText(e.before) + (QuotedText(e.name) + (GapText(e.beforeColon) + ([':'] + rest))))
    ensures Space(s, f, g) == at && at.At(s) && Begins(Peek(s, at.pos))
    ensures colon == Going(g.pos + |GapText(e.before)| + |QuotedText(e.name)| + |GapText(e.beforeColon)|, g.out + [Key(CharsBytes(e.name))])
    ensures colon.At(s) && StandsAt(s, colon.pos, [':'] + rest) && ObjectMembers(s, f, count, at) == ObjectColon(s, f, count, colon)
  {
    var tail := GapText(e.beforeColon) + ([':'] + rest);
    at := GapEnters(s, f, e.before, QuotedText(e.name) + tail, g);
    var k := QuotedThen(s, e.name, tail, at);
    colon := GapEnters(s, f, e.beforeColon, [':'] + rest, k);
    NameThen(s, f, count, at, k, colon);
  }

  lemma {:induction false} QuotedThen(s: Text, name: seq<Char>, tail: Text, at: Progress) returns (k: Progress)
    requires at.At(s) && AllFit(name) && StandsAt(s, at.pos, QuotedText(name) + tail)
    ensures Peek(s, at.pos) == '"' && k == Str(s, true, at) && k.At(s) && StandsAt(s, k.pos, tail)
    ensures k == Going(at.pos + |QuotedText(name)|, at.out + [Key(CharsBytes(name))])
  {
    StandsThen(s, at.pos, at.pos + |QuotedText(name)|, QuotedText(name), tail);
    QuotedReads(s, true, name, at);
    k := Str(s, true, at);
  }

  lemma {:induction false} NameThen(s: Text, f: Settings, count: nat, at: Progress, k: Progress, colon: Progress)
    requires at.At(s) && Peek(s, at.pos) == '"' && k == Str(s, true, at) && k.At(s) && colon == Space(s, f, k) && colon.At(s)
    ensures ObjectMembers(s, f, count, at) == ObjectColon(s, f, count, colon)
  {
  }

  /** The colon, and the value behind it. */
  lemma {:induction false} ColonReads(s: Text, f: Settings, count: nat, gap: Gap, rest: Text, colon: Progress) returns (value: Progress)
    requires colon.At(s) && GapFits(f.comments, gap) && StandsAt(s, colon.pos, [':'] + (GapText(gap) + rest)) && rest != [] && Begins(rest[0])
    ensures value == Going(colon.pos + 1 + |GapText(gap)|, colon.out) && value.At(s) && StandsAt(s, value.pos, rest)
    ensures ObjectColon(s, f, count, colon) == ObjectValue(s, f, count, value)
  {
    StandsFirst(s, colon.pos, ':', GapText(gap) + rest);
    value := GapEnters(s, f, gap, rest, colon.Step(1));
  }

  lemma {:induction false} EntrySplit(before: Text, name: Text, beforeColon: Text, afterColon: Text, v: Text, after: Text, rest: Text)
    ensures before + (name + (beforeColon + ([':'] + (afterColon + (v + after))))) + rest
         == before + (name + (beforeColon + ([':'] + (afterColon + (v + (after + rest))))))
  {
    Concat3(v, after, rest);
    Concat3(afterColon, v + after, rest);
    Concat3([':'], afterColon + (v + after), rest);
    Concat3(beforeColon, [':'] + (afterColon + (v + after)), rest);
    Concat3(name, beforeColon + ([':'] + (afterColon + (v + after))), rest);
    Concat3(before, name + (beforeColon + ([':'] + (afterColon + (v + after)))), rest);
  }

  /** The first of some members up to its value, and what comes behind it. */
  lemma {:induction false} EntryLies(s: Text, f: Settings, count: nat, e: Entry, rest: Text, g: Progress)
    returns (at: Progress, value: Progress, end: nat)
    requires g.At(s) && EntryFits(f, e) && StandsAt(s, g.pos, EntryText(e) + rest) && rest != [] && Stops(rest[0])
    ensures Space(s, f, g) == at && at.At(s) && Begins(Peek(s, at.pos))
    ensures value.At(s) && value.out == g.out + [Key(CharsBytes(e.name))] && ObjectMembers(s, f, count, at) == ObjectValue(s, f, count, value)
    ensures StandsAt(s, value.pos, DocText(e.value)) && end == value.pos + |DocText(e.value)| <= |s| && Stops(Peek(s, end))
    ensures StandsAt(s, end, GapText(e.after) + rest) && end + |GapText(e.after) + rest| == g.pos + |EntryText(e) + rest|
  {
    var v, behind := DocText(e.value), GapText(e.after) + rest;
    DocBegins(f, e.value);
    EntrySplit(GapText(e.before), QuotedText(e.name), GapText(e.beforeColon), GapText(e.afterColon), v, GapText(e.after), rest);
    var colon;
    at, colon := NameReads(s, f, count, e, GapText(e.afterColon) + (v + behind), g);
    value := ColonReads(s, f, count, e.afterColon, v + behind, colon);
    end := value.pos + |v|;
    GapStops(f.comments, e.after, rest);
    TailLies(s, value.pos, v, behind, end);
  }

  lemma {:induction false} FirstEntryReads(s: Text, f: Settings, count: nat, e: Entry, rest: Text, g: Progress)
    returns (at: Progress, v: Progress)
    requires g.At(s) && EntryFits(f, e) && StandsAt(s, g.pos, EntryText(e) + rest) && rest != [] && Stops(rest[0])
    ensures Space(s, f, g) == at && at.At(s) && Begins(Peek(s, at.pos))
    ensures v.At(s) && v.out == g.out + [Key(CharsBytes(e.name))] + Events(TreeOf(f, e.value))
    ensures ObjectMembers(s, f, count, at) == ObjectAfterValue(s, f, count, v)
    ensures StandsAt(s, v.pos, GapText(e.after) + rest) && v.pos + |GapText(e.after) + rest| == g.pos + |EntryText(e) + rest|
    decreases e, 3
  {
    var value, end;
    at, value, end := EntryLies(s, f, count, e, rest, g);
    v := ValueReads(s, f, count, e.value, value, end);
  }

  lemma {:induction false} EntriesRead(
    s: Text, f: Settings, count: nat, entries: seq<Entry>, comma: Option<Gap>, close: Text, g: Progress, total: nat)
    returns (at: Progress)
    requires entries != [] && EntriesFit(f, entries) && CommaFits(f, comma) && close == Closing(comma, '}')
    requires g.At(s) && total == count + |entries| && StandsAt(s, g.pos, EntriesText(entries, close))
    ensures Space(s, f, g) == at && at.At(s) && Begins(Peek(s, at.pos))
    ensures ObjectMembers(s, f, count, at) ==
            Going(g.pos + |EntriesText(entries, close)|, g.out + MemberEvents(MembersOf(f, entries)) + [EndObject(total)])
    decreases entries, 3
  {
    var v;
    ClosingStops(f, comma, '}');
    at, v := FirstEntryReads(s, f, count, entries[0], AfterEntry(entries[1..], close), g);
    AfterEntryReads(s, f, count, entries[0].after, entries[1..], comma, close, v, total);
    assert MembersOf(f, entries)[1..] == MembersOf(f, entries[1..]);
    Concat4(g.out, [Key(CharsBytes(entries[0].name))], Events(TreeOf(f, entries[0].value)), MemberEvents(MembersOf(f, entries[1..])));
  }

  lemma {:induction false} AfterEntryReads(
    s: Text, f: Settings, count: nat, gap: Gap, entries: seq<Entry>, comma: Option<Gap>, close: Text, v: Progress, total: nat)
    requires GapFits(f.comments, gap) && EntriesFit(f, entries) && CommaFits(f, comma) && close == Closing(comma, '}')
    requires v.At(s) && total == count + 1 + |entries| && StandsAt(s, v.pos, GapText(gap) + AfterEntry(entries, close))
    ensures ObjectAfterValue(s, f, count, v) ==
            Going(v.pos + |GapText(gap) + AfterEntry(entries, close)|, v.out + MemberEvents(MembersOf(f, entries)) + [EndObject(total)])
    decreases entries, 6
  {
    if entries == [] {
      ClosingReads(s, f, count, gap, comma, '}', v, v.pos + |GapText(gap) + close|);
      assert v.out + [] == v.out;
    } else {
      var next, at := GapAndComma(s, f, count, gap, EntriesText(entries, close), v);
      at := EntriesRead(s, f, count + 1, entries, comma, close, next, total);
      CommaGoesOn(s, f, count + 1, at);
    }
  }
}
