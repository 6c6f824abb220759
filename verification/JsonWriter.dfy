/** The two JSON printers: one object with a level stack and an output stream, fed by handler events. */
module JsonWriter {
  import opened Bytes
  import opened JsonLexer
  import opened JsonValue
  import opened JsonEscape
  import JsonAscii
  import Utf8Codec
  import JsonDocument

  /** The layout: the plain writer's, or the pretty writer's with its indent and its array option; the target may be ASCII. */
  datatype Format = Compact(ascii: bool) | Pretty(indentChar: Byte, indentCount: nat, singleLineArray: bool, ascii: bool)
  {
    predicate Valid() {
      Pretty? ==> indentChar == ' ' || indentChar == '\t' || indentChar == '\n' || indentChar == '\r'
    }
  }

  // ---------------------------------------------------------------- what is printed

  /** Decimal printing of a number. */
  function Decimal(n: nat): (r: Text)
    ensures |r| >= 1
  {
    (if n < 10 then [] else Decimal(n / 10)) + [ByteOf('0' as int + n % 10)]
  }

  function Signed(i: int): Text {
    if i < 0 then ['-'] + Decimal(-i) else Decimal(i)
  }

  /** A string that can be printed: for an ASCII target a text of whole characters. */
  predicate Quotable(fmt: Format, str: Text) {
    fmt.ascii ==> Utf8Codec.IsText(str)
  }

  function Inside(fmt: Format, str: Text): Text {
    if fmt.ascii && Utf8Codec.IsText(str) then JsonAscii.AsciiAll(str) else EscapedAll(str)
  }

  function Quoted(fmt: Format, str: Text): Text {
    ['"'] + Inside(fmt, str) + ['"']
  }

  /** The text of a scalar event; doubles are printed by a conversion that is not part of this model. */
  function ScalarText(fmt: Format, e: Event): Text {
    match e
    case Bool(b) => if b then "true" else "false"
    case String(s) => Quoted(fmt, s)
    case Int(i) => Signed(i)
    case Uint(u) => Decimal(u)
    case Int64(i) => Signed(i)
    case Uint64(u) => Decimal(u)
    case _ => "null"
  }

  function Indent(fmt: Format, depth: nat): Text
    requires fmt.Pretty?
  {
    seq(depth * fmt.indentCount, _ => fmt.indentChar)
  }

  /** The blanks before an element or a member name, inside `depth` open brackets. */
  function Gap(fmt: Format, depth: nat, inArray: bool, first: bool): Text {
    if fmt.Compact? then []
    else if inArray && fmt.singleLineArray then (if first then [] else " ")
    else "\n" + Indent(fmt, depth)
  }

  /** The blanks before a closing bracket that leaves `depth` brackets open. */
  function CloseGap(fmt: Format, depth: nat, inArray: bool, empty: bool): Text {
    if fmt.Compact? || empty || (inArray && fmt.singleLineArray) then [] else "\n" + Indent(fmt, depth)
  }

  /** What precedes the value that follows `count` others in its bracket; names and values of members both count. */
  function ValuePrefix(fmt: Format, depth: nat, inArray: bool, count: nat): Text {
    if !inArray && count % 2 == 1 then (if fmt.Compact? then ":" else ": ")
    else (if count > 0 then "," else "") + Gap(fmt, depth, inArray, count == 0)
  }

  /** The printed form of a tree inside `depth` open brackets. */
  function Print(fmt: Format, depth: nat, t: Tree): Text
    decreases t, 1
  {
    match t
    case Leaf(e) => ScalarText(fmt, e)
    case Arr(ts) => "[" + PrintElements(fmt, depth + 1, 0, ts) + CloseGap(fmt, depth, true, ts == []) + "]"
    case Obj(ms) => "{" + PrintMembers(fmt, depth + 1, 0, ms) + CloseGap(fmt, depth, false, ms == []) + "}"
  }

  function PrintElements(fmt: Format, depth: nat, count: nat, ts: seq<Tree>): Text
    decreases ts, 0
  {
    if ts == [] then []
    else ValuePrefix(fmt, depth, true, count) + Print(fmt, depth, ts[0]) + PrintElements(fmt, depth, count + 1, ts[1..])
  }

  function PrintMembers(fmt: Format, depth: nat, count: nat, ms: seq<Member>): Text
    decreases ms, 0
  {
    if ms == [] then [] else PrintMember(fmt, depth, count, ms[0]) + PrintMembers(fmt, depth, count + 1, ms[1..])
  }

  function PrintMember(fmt: Format, depth: nat, count: nat, m: Member): Text
    decreases m, 0
  {
    ValuePrefix(fmt, depth, false, 2 * count) + Quoted(fmt, m.name) + ValuePrefix(fmt, depth, false, 2 * count + 1) + Print(fmt, depth, m.value)
  }

  // ---------------------------------------------------------------- the writer's state

  /** One open bracket of the writer. */
  datatype Level = Level(valueCount: nat, inArray: bool)

  datatype Printed = Printed(out: Text, levels: seq<Level>, hasRoot: bool)
  {
    /** A value may come next: at the root once, in an array, or after a name. A name may come where a value may not. */
    predicate Accepts(isName: bool) {
      if levels == [] then !hasRoot && !isName
      else isName == (!levels[|levels| - 1].inArray && levels[|levels| - 1].valueCount % 2 == 0)
    }

    /** The state after the prefix of one more value. */
    function Prefixed(fmt: Format): Printed {
      if levels == [] then this.(hasRoot := true)
      else
        var top := levels[|levels| - 1];
        this.(out := out + ValuePrefix(fmt, |levels|, top.inArray, top.valueCount),
              levels := levels[|levels| - 1 := top.(valueCount := top.valueCount + 1)])
    }

    function Put(text: Text): Printed {
      this.(out := out + text)
    }
  }

  /** A closing bracket: it must match the innermost open one, and an object must not end after a name. */
  function Close(fmt: Format, w: Printed, isArray: bool): Option<Printed> {
    if w.levels == [] then None
    else
      var top := w.levels[|w.levels| - 1];
      if top.inArray != isArray || (!isArray && top.valueCount % 2 != 0) then None
      else
        Some(Printed(w.out + CloseGap(fmt, |w.levels| - 1, isArray, top.valueCount == 0) + (if isArray then "]" else "}"),
                     w.levels[..|w.levels| - 1], w.hasRoot))
  }

  /** The state behind an opening bracket. */
  function Begun(p: Printed, isArray: bool): Printed {
    Printed(p.out + (if isArray then "[" else "{"), p.levels + [Level(0, isArray)], p.hasRoot)
  }

  /** The writer's response to an event; none where one of its assertions fails, or a string cannot be printed. */
  function Write(fmt: Format, w: Printed, e: Event): Option<Printed> {
    match e
    case StartObject | StartArray =>
      if !w.Accepts(false) then None
      else
        Some(Begun(w.Prefixed(fmt), e.StartArray?))
    case EndObject(_) => Close(fmt, w, false)
    case EndArray(_) => Close(fmt, w, true)
    case Key(name) => if !w.Accepts(true) || !Quotable(fmt, name) then None else Some(w.Prefixed(fmt).Put(Quoted(fmt, name)))
    case _ => if !w.Accepts(false) || !ScalarPrintable(fmt, e) then None else Some(w.Prefixed(fmt).Put(ScalarText(fmt, e)))
  }

  function WriteAll(fmt: Format, w: Printed, es: seq<Event>): Option<Printed>
    decreases |es|
  {
    if es == [] then Some(w)
    else
      var next := Write(fmt, w, es[0]);
      if next.None? then None else WriteAll(fmt, next.value, es[1..])
  }

  /** A tree without doubles, whose names and strings can all be printed. */
  predicate Printable(fmt: Format, t: Tree) {
    match t
    case Leaf(e) => ScalarPrintable(fmt, e)
    case Arr(ts) => AllPrintable(fmt, ts)
    case Obj(ms) => MembersPrintable(fmt, ms)
  }

  predicate ScalarPrintable(fmt: Format, e: Event) {
    !e.Double? && (e.String? ==> Quotable(fmt, e.str))
  }

  predicate AllPrintable(fmt: Format, ts: seq<Tree>) {
    ts == [] || (Printable(fmt, ts[0]) && AllPrintable(fmt, ts[1..]))
  }

  predicate MembersPrintable(fmt: Format, ms: seq<Member>) {
    ms == [] || (Quotable(fmt, ms[0].name) && Printable(fmt, ms[0].value) && MembersPrintable(fmt, ms[1..]))
  }

  lemma {:induction false} WriteJoin(fmt: Format, w: Printed, a: seq<Event>, v: Printed, b: seq<Event>)
    requires WriteAll(fmt, w, a) == Some(v)
    ensures WriteAll(fmt, w, a + b) == WriteAll(fmt, v, b)
    decreases |a|
  {
    if a == [] {
      assert a + b == b;
    } else {
      assert (a + b)[1..] == a[1..] + b;
      WriteJoin(fmt, Write(fmt, w, a[0]).value, a[1..], v, b);
    }
  }

  /**
   * The events of a tree print that tree, where a value may come: no assertion of the writer fails on the way,
   * every bracket it opens is closed again, and the enclosing bracket counts one more value.
   */
  lemma {:induction false} WritesTree(fmt: Format, w: Printed, t: Tree)
    requires WellFormed(t) && Printable(fmt, t) && w.Accepts(false)
    ensures WriteAll(fmt, w, Events(t)) == Some(w.Prefixed(fmt).Put(Print(fmt, |w.levels|, t)))
    decreases t, 1
  {
    match t {
      case Leaf(e) =>
        assert WriteAll(fmt, w, [e]) == Write(fmt, w, e);
      case Arr(ts) =>
        WritesArray(fmt, w, ts);
      case Obj(ms) =>
        WritesObject(fmt, w, ms);
    }
  }

  lemma {:induction false} WritesArray(fmt: Format, w: Printed, ts: seq<Tree>)
    requires AllWellFormed(ts) && AllPrintable(fmt, ts) && w.Accepts(false)
    ensures WriteAll(fmt, w, Events(Arr(ts))) == Some(w.Prefixed(fmt).Put(Print(fmt, |w.levels|, Arr(ts))))
    decreases ts, 1
  {
    var p := w.Prefixed(fmt);
    var begun := Begun(p, true);
    WritesElements(fmt, begun, p.levels, 0, ts);
    var text := PrintElements(fmt, |w.levels| + 1, 0, ts);
    WritesBracketed(fmt, w, p, begun, Printed(begun.out + text, p.levels + [Level(|ts|, true)], p.hasRoot),
                    StartArray, ElementEvents(ts), EndArray(|ts|), text, |ts|);
  }

  lemma {:induction false} WritesObject(fmt: Format, w: Printed, ms: seq<Member>)
    requires MembersWellFormed(ms) && MembersPrintable(fmt, ms) && w.Accepts(false)
    ensures WriteAll(fmt, w, Events(Obj(ms))) == Some(w.Prefixed(fmt).Put(Print(fmt, |w.levels|, Obj(ms))))
    decreases ms, 2
  {
    var p := w.Prefixed(fmt);
    var begun := Begun(p, false);
    WritesMembers(fmt, begun, p.levels, 0, ms, |ms|);
    var text := PrintMembers(fmt, |w.levels| + 1, 0, ms);
    WritesBracketed(fmt, w, p, begun, Printed(begun.out + text, p.levels + [Level(2 * |ms|, false)], p.hasRoot),
                    StartObject, MemberEvents(ms), EndObject(|ms|), text, 2 * |ms|);
  }

  lemma {:induction false} WritesBracketed(
    fmt: Format, w: Printed, p: Printed, begun: Printed, full: Printed, start: Event, es: seq<Event>, end: Event, text: Text, count: nat)
    requires w.Accepts(false) && ((start.StartArray? && end.EndArray?) || (start.StartObject? && end.EndObject? && count % 2 == 0))
    requires p == w.Prefixed(fmt) && begun == Begun(p, start.StartArray?)
    requires full == Printed(begun.out + text, p.levels + [Level(count, start.StartArray?)], p.hasRoot)
    requires WriteAll(fmt, begun, es) == Some(full)
    ensures WriteAll(fmt, w, [start] + es + [end])
         == Some(p.Put((if start.StartArray? then "[" else "{") + text
                       + CloseGap(fmt, |w.levels|, start.StartArray?, count == 0) + (if start.StartArray? then "]" else "}")))
  {
    var open: Text := if start.StartArray? then "[" else "{";
    assert WriteAll(fmt, w, [start]) == Write(fmt, w, start) == Some(begun);
    WriteJoin(fmt, w, [start], begun, es);
    WriteJoin(fmt, w, [start] + es, full, [end]);
    assert full.levels[..|p.levels|] == p.levels;
    assert WriteAll(fmt, full, [end]) == Write(fmt, full, end);
    var gap := CloseGap(fmt, |w.levels|, start.StartArray?, count == 0);
    var close: Text := if start.StartArray? then "]" else "}";
    Concat5(p.out, open, text, gap, close);
  }

  lemma {:induction false} WritesElements(fmt: Format, w: Printed, outer: seq<Level>, count: nat, ts: seq<Tree>)
    requires AllWellFormed(ts) && AllPrintable(fmt, ts) && w.levels == outer + [Level(count, true)]
    ensures WriteAll(fmt, w, ElementEvents(ts))
         == Some(Printed(w.out + PrintElements(fmt, |outer| + 1, count, ts), outer + [Level(count + |ts|, true)], w.hasRoot))
    decreases ts, 0
  {
    if ts != [] {
      WritesTree(fmt, w, ts[0]);
      var v := w.Prefixed(fmt).Put(Print(fmt, |w.levels|, ts[0]));
      assert v.levels == outer + [Level(count + 1, true)];
      WriteJoin(fmt, w, Events(ts[0]), v, ElementEvents(ts[1..]));
      WritesElements(fmt, v, outer, count + 1, ts[1..]);
      Concat4(w.out, ValuePrefix(fmt, |outer| + 1, true, count), Print(fmt, |outer| + 1, ts[0]),
              PrintElements(fmt, |outer| + 1, count + 1, ts[1..]));
    } else {
      assert w.out + [] == w.out;
    }
  }

  lemma {:induction false} WritesMembers(fmt: Format, w: Printed, outer: seq<Level>, count: nat, ms: seq<Member>, total: nat)
    requires MembersWellFormed(ms) && MembersPrintable(fmt, ms) && w.levels == outer + [Level(2 * count, false)] && total == count + |ms|
    ensures WriteAll(fmt, w, MemberEvents(ms))
         == Some(Printed(w.out + PrintMembers(fmt, |outer| + 1, count, ms), outer + [Level(2 * total, false)], w.hasRoot))
    decreases ms, 1
  {
    if ms != [] {
      var v := Printed(w.out + PrintMember(fmt, |outer| + 1, count, ms[0]), outer + [Level(2 * (count + 1), false)], w.hasRoot);
      WritesMember(fmt, w, outer, count, ms[0]);
      WritesMembers(fmt, v, outer, count + 1, ms[1..], total);
      MoreMembers(fmt, w, outer, count, ms, v);
    } else {
      assert w.out + [] == w.out;
    }
  }

  lemma {:induction false} MoreMembers(fmt: Format, w: Printed, outer: seq<Level>, count: nat, ms: seq<Member>, v: Printed)
    requires ms != [] && v.out == w.out + PrintMember(fmt, |outer| + 1, count, ms[0])
    requires WriteAll(fmt, w, [Key(ms[0].name)] + Events(ms[0].value)) == Some(v)
    ensures WriteAll(fmt, w, MemberEvents(ms)) == WriteAll(fmt, v, MemberEvents(ms[1..]))
    ensures v.out + PrintMembers(fmt, |outer| + 1, count + 1, ms[1..]) == w.out + PrintMembers(fmt, |outer| + 1, count, ms)
  {
    WriteJoin(fmt, w, [Key(ms[0].name)] + Events(ms[0].value), v, MemberEvents(ms[1..]));
    Concat3(w.out, PrintMember(fmt, |outer| + 1, count, ms[0]), PrintMembers(fmt, |outer| + 1, count + 1, ms[1..]));
  }

  lemma {:induction false} WritesMember(fmt: Format, w: Printed, outer: seq<Level>, count: nat, m: Member)
    requires Quotable(fmt, m.name) && WellFormed(m.value) && Printable(fmt, m.value) && w.levels == outer + [Level(2 * count, false)]
    ensures WriteAll(fmt, w, [Key(m.name)] + Events(m.value))
         == Some(Printed(w.out + PrintMember(fmt, |outer| + 1, count, m), outer + [Level(2 * (count + 1), false)], w.hasRoot))
    decreases m, 0
  {
    var named := w.Prefixed(fmt).Put(Quoted(fmt, m.name));
    WritesName(fmt, w, outer, count, m.name, named);
    WriteJoin(fmt, w, [Key(m.name)], named, Events(m.value));
    WritesTree(fmt, named, m.value);
    var v := named.Prefixed(fmt).Put(Print(fmt, |named.levels|, m.value));
    assert v.levels == outer + [Level(2 * (count + 1), false)];
    Concat5(w.out, ValuePrefix(fmt, |outer| + 1, false, 2 * count), Quoted(fmt, m.name),
            ValuePrefix(fmt, |outer| + 1, false, 2 * count + 1), Print(fmt, |outer| + 1, m.value));
  }

  lemma {:induction false} WritesName(fmt: Format, w: Printed, outer: seq<Level>, count: nat, name: Text, named: Printed)
    requires Quotable(fmt, name) && w.levels == outer + [Level(2 * count, false)] && named == w.Prefixed(fmt).Put(Quoted(fmt, name))
    ensures WriteAll(fmt, w, [Key(name)]) == Some(named) && named.levels == outer + [Level(2 * count + 1, false)]
  {
    assert WriteAll(fmt, w, [Key(name)]) == Write(fmt, w, Key(name));
  }
}
