/** The writer object, plain and pretty, and a document printed through it. */
module JsonPrinter {
  import opened Bytes
  import opened JsonLexer
  import opened JsonValue
  import opened JsonWriter
  import opened JsonDocument
  import opened JsonEscape
  import JsonAscii
  import JsonGrammar
  import JsonBalanced
  import JsonRoundTrip

  /** Splits a run of the writer at an intermediate point. */
  lemma {:induction false} WriteSplit(fmt: Format, w: Printed, a: seq<Event>, b: seq<Event>)
    requires WriteAll(fmt, w, a + b).Some?
    ensures WriteAll(fmt, w, a).Some? && WriteAll(fmt, w, a + b) == WriteAll(fmt, WriteAll(fmt, w, a).value, b)
    decreases |a|
  {
    if a == [] {
      assert a + b == b;
    } else {
      assert (a + b)[1..] == a[1..] + b;
      WriteSplit(fmt, Write(fmt, w, a[0]).value, a[1..], b);
    }
  }

  lemma {:induction false} WriteOne(fmt: Format, w: Printed, e: Event)
    ensures WriteAll(fmt, w, [e]) == Write(fmt, w, e)
  {
    var next := Write(fmt, w, e);
    assert [e][1..] == [];
  }

  /** A bracketed sequence of events, split at its brackets. */
  lemma {:induction false} WriteBracketed(fmt: Format, w: Printed, start: Event, es: seq<Event>, end: Event)
    requires WriteAll(fmt, w, [start] + es + [end]).Some?
    ensures Write(fmt, w, start).Some? && WriteAll(fmt, Write(fmt, w, start).value, es).Some?
    ensures WriteAll(fmt, w, [start] + es + [end])
         == Write(fmt, WriteAll(fmt, Write(fmt, w, start).value, es).value, end)
  {
    WriteSplit(fmt, w, [start] + es, [end]);
    WriteSplit(fmt, w, [start], es);
    WriteOne(fmt, w, start);
    WriteOne(fmt, WriteAll(fmt, w, [start] + es).value, end);
  }

  class Writer {
    const fmt: Format
    var os: Text
    var levelStack: seq<Level>
    var hasRoot: bool

    constructor (fmt: Format)
      ensures this.fmt == fmt && State() == Printed([], [], false)
    {
      this.fmt := fmt;
      os, levelStack, hasRoot := [], [], false;
    }

    ghost function State(): Printed
      reads this
    {
      Printed(os, levelStack, hasRoot)
    }

    method PutN(c: Byte, n: nat)
      modifies `os
      ensures os == old(os) + seq(n, _ => c)
    {
      for i := 0 to n
        invariant os == old(os) + seq(i, _ => c)
      {
        os := os + [c];
        assert seq(i + 1, _ => c) == seq(i, _ => c) + [c];
      }
    }

    method WriteIndent()
      requires fmt.Pretty?
      modifies `os
      ensures os == old(os) + Indent(fmt, |levelStack|)
    {
      PutN(fmt.indentChar, |levelStack| * fmt.indentCount);
    }

    /** The plain writer's separator before a value or a name. */
    method Prefix(isName: bool)
      requires fmt.Compact? && State().Accepts(isName)
      modifies `os, `levelStack, `hasRoot
      ensures State() == old(State()).Prefixed(fmt)
    {
      if |levelStack| != 0 {
        var level := levelStack[|levelStack| - 1];
        if level.valueCount > 0 {
          if level.inArray {
            os := os + ",";
          } else {
            os := os + (if level.valueCount % 2 == 0 then "," else ":");
          }
        }
        assert old(os) + [] == old(os);
        levelStack := levelStack[|levelStack| - 1 := level.(valueCount := level.valueCount + 1)];
      } else {
        hasRoot := true;
      }
    }

    /** The pretty writer's separator, line break and indent before a value or a name. */
    method PrettyPrefix(isName: bool)
      requires fmt.Pretty? && State().Accepts(isName)
      modifies `os, `levelStack, `hasRoot
      ensures State() == old(State()).Prefixed(fmt)
    {
      if |levelStack| != 0 {
        var level := levelStack[|levelStack| - 1];
        if level.inArray {
          PrettyArrayPrefix(level.valueCount);
        } else {
          PrettyObjectPrefix(level.valueCount);
        }
        levelStack := levelStack[|levelStack| - 1 := level.(valueCount := level.valueCount + 1)];
      } else {
        hasRoot := true;
      }
    }

    method PrettyArrayPrefix(valueCount: nat)
      requires fmt.Pretty?
      modifies `os
      ensures os == old(os) + ValuePrefix(fmt, |levelStack|, true, valueCount)
    {
      if valueCount > 0 {
        os := os + ",";
        if fmt.singleLineArray {
          os := os + " ";
        }
      }
      if !fmt.singleLineArray {
        os := os + "\n";
        WriteIndent();
      }
      assert os == old(os) + ((if valueCount > 0 then "," else "") + Gap(fmt, |levelStack|, true, valueCount == 0));
    }

    method PrettyObjectPrefix(valueCount: nat)
      requires fmt.Pretty?
      modifies `os
      ensures os == old(os) + ValuePrefix(fmt, |levelStack|, false, valueCount)
    {
      if valueCount > 0 {
        if valueCount % 2 == 0 {
          os := os + ",";
          os := os + "\n";
        } else {
          os := os + ":";
          os := os + " ";
        }
      } else {
        os := os + "\n";
      }
      if valueCount % 2 == 0 {
        WriteIndent();
        assert os == old(os) + ((if valueCount > 0 then "," else "") + ("\n" + Indent(fmt, |levelStack|)));
      }
    }

    method AnyPrefix(isName: bool)
      requires State().Accepts(isName)
      modifies `os, `levelStack, `hasRoot
      ensures State() == old(State()).Prefixed(fmt)
    {
      if fmt.Compact? {
        Prefix(isName);
      } else {
        PrettyPrefix(isName);
      }
    }

    /** A string for a target that takes all its bytes. */
    method WritePlain(str: Text)
      modifies `os
      ensures os == old(os) + (['"'] + EscapedAll(str) + ['"'])
    {
      os := os + ['"'];
      var i := 0;
      assert str[0..] == str;
      while i < |str|
        invariant 0 <= i <= |str|
        invariant os + EscapedAll(str[i..]) == old(os) + ['"'] + EscapedAll(str)
      {
        ghost var before := os;
        var c := str[i];
        if c as int < 0x20 && !(c == 8 as char || c == '\t' || c == '\n' || c == 12 as char || c == '\r') {
          os := os + ['\\', 'u', '0', '0'];
          os := os + [HexDigit(c as int / 16)];
          os := os + [HexDigit(c as int % 16)];
          assert os == before + Escaped(c);
        } else {
          os := os + Escaped(c);
        }
        assert str[i..][0] == c && str[i..][1..] == str[i + 1..];
        Concat3(before, Escaped(c), EscapedAll(str[i + 1..]));
        i := i + 1;
      }
      assert os + [] == os;
      os := os + ['"'];
      Concat4(old(os), ['"'], EscapedAll(str), ['"']);
    }

    /** A string for either target; a broken character stops it. */
    method WriteString(str: Text) returns (ok: bool)
      modifies `os
      ensures ok <==> Quotable(fmt, str)
      ensures ok ==> os == old(os) + Quoted(fmt, str)
    {
      ok := true;
      if fmt.ascii {
        var quoted;
        ok, quoted := JsonAscii.WriteString(str);
        os := os + quoted;
      } else {
        WritePlain(str);
      }
    }

    // -------------------------------------------------------------- handler methods

    method Scalar(e: Event) returns (ok: bool)
      requires ScalarEvent(e) && !e.Double? && State().Accepts(false)
      modifies `os, `levelStack, `hasRoot
      ensures ok <==> ScalarPrintable(fmt, e)
      ensures ok ==> Write(fmt, old(State()), e) == Some(State())
    {
      ok := true;
      AnyPrefix(false);
      if e.String? {
        ok := WriteString(e.str);
      } else {
        os := os + ScalarText(fmt, e);
      }
    }

    method Key(name: Text) returns (ok: bool)
      requires State().Accepts(true)
      modifies `os, `levelStack, `hasRoot
      ensures ok <==> Quotable(fmt, name)
      ensures ok ==> Write(fmt, old(State()), JsonLexer.Key(name)) == Some(State())
    {
      AnyPrefix(true);
      ok := WriteString(name);
    }

    method Start(e: Event)
      requires (e.StartObject? || e.StartArray?) && State().Accepts(false)
      modifies `os, `levelStack, `hasRoot
      ensures Write(fmt, old(State()), e) == Some(State())
    {
      AnyPrefix(false);
      levelStack := levelStack + [Level(0, e.StartArray?)];
      os := os + (if e.StartArray? then "[" else "{");
    }

    method End(e: Event)
      requires (e.EndObject? || e.EndArray?) && Write(fmt, State(), e).Some?
      modifies `os, `levelStack
      ensures Write(fmt, old(State()), e) == Some(State())
    {
      var level := levelStack[|levelStack| - 1];
      levelStack := levelStack[..|levelStack| - 1];
      var empty := level.valueCount == 0;
      if fmt.Pretty? && !empty && !(e.EndArray? && fmt.singleLineArray) {
        os := os + "\n";
        WriteIndent();
        assert os == old(os) + CloseGap(fmt, |levelStack|, e.EndArray?, empty);
      } else {
        assert old(os) + [] == old(os);
      }
      os := os + (if e.EndArray? then "]" else "}");
    }

    // -------------------------------------------------------------- a value as events

    /** Sends a value to the writer, one handler call after another. */
    method Accept(v: Value)
      requires WriteAll(fmt, State(), AcceptEvents(v)).Some?
      modifies `os, `levelStack, `hasRoot
      ensures WriteAll(fmt, old(State()), AcceptEvents(v)) == Some(State())
      decreases v, 0
    {
      match v {
        case ArrayValue(vs) =>
          WriteBracketed(fmt, State(), StartArray, AcceptElements(vs), EndArray(|vs|));
          Start(StartArray);
          AcceptAll(vs);
          End(EndArray(|vs|));
        case ObjectValue(ms) =>
          WriteBracketed(fmt, State(), StartObject, AcceptMembers(ms), EndObject(|ms|));
          Start(StartObject);
          AcceptAllMembers(ms);
          End(EndObject(|ms|));
        case _ =>
          var e := AcceptEvents(v)[0];
          assert AcceptEvents(v) == [e];
          WriteOne(fmt, State(), e);
          SendScalar(v, e);
      }
    }

    method SendScalar(v: Value, e: Event)
      requires !v.ArrayValue? && !v.ObjectValue? && AcceptEvents(v) == [e] && Write(fmt, State(), e).Some?
      modifies `os, `levelStack, `hasRoot
      ensures Write(fmt, old(State()), e) == Some(State())
    {
      AnyPrefix(false);
      if e.String? {
        var ok := WriteString(e.str);
      } else {
        os := os + ScalarText(fmt, e);
      }
    }

    method AcceptAll(vs: seq<Value>)
      requires WriteAll(fmt, State(), AcceptElements(vs)).Some?
      modifies `os, `levelStack, `hasRoot
      ensures WriteAll(fmt, old(State()), AcceptElements(vs)) == Some(State())
      decreases vs
    {
      var i := 0;
      assert vs[0..] == vs;
      while i < |vs|
        invariant 0 <= i <= |vs|
        invariant WriteAll(fmt, State(), AcceptElements(vs[i..])).Some?
        invariant WriteAll(fmt, old(State()), AcceptElements(vs)) == WriteAll(fmt, State(), AcceptElements(vs[i..]))
      {
        assert vs[i..][0] == vs[i] && vs[i..][1..] == vs[i + 1..];
        WriteSplit(fmt, State(), AcceptEvents(vs[i]), AcceptElements(vs[i + 1..]));
        Accept(vs[i]);
        i := i + 1;
      }
    }

    method AcceptMember(m: ValueMember)
      requires WriteAll(fmt, State(), JsonDocument.AcceptMember(m)).Some?
      modifies `os, `levelStack, `hasRoot
      ensures WriteAll(fmt, old(State()), JsonDocument.AcceptMember(m)) == Some(State())
      decreases m
    {
      var name := if m.name.StringValue? then m.name.str else [];
      WriteSplit(fmt, State(), [JsonLexer.Key(name)], AcceptEvents(m.value));
      WriteOne(fmt, State(), JsonLexer.Key(name));
      var ok := Key(name);
      Accept(m.value);
    }

    method AcceptAllMembers(ms: seq<ValueMember>)
      requires WriteAll(fmt, State(), AcceptMembers(ms)).Some?
      modifies `os, `levelStack, `hasRoot
      ensures WriteAll(fmt, old(State()), AcceptMembers(ms)) == Some(State())
      decreases ms
    {
      var i := 0;
      assert ms[0..] == ms;
      while i < |ms|
        invariant 0 <= i <= |ms|
        invariant WriteAll(fmt, State(), AcceptMembers(ms[i..])).Some?
        invariant WriteAll(fmt, old(State()), AcceptMembers(ms)) == WriteAll(fmt, State(), AcceptMembers(ms[i..]))
      {
        assert ms[i..][0] == ms[i] && ms[i..][1..] == ms[i + 1..];
        WriteSplit(fmt, State(), JsonDocument.AcceptMember(ms[i]), AcceptMembers(ms[i + 1..]));
        AcceptMember(ms[i]);
        i := i + 1;
      }
    }
  }

  // ---------------------------------------------------------------- a document printed and read again

  /** The tree that a built value announces: integers in the type their flags select. */
  function ReplayTree(t: Tree): Tree
    requires WellFormed(t)
  {
    match t
    case Leaf(e) => Leaf(AcceptEvents(ScalarValue(e))[0])
    case Arr(ts) => Arr(ReplayElements(ts))
    case Obj(ms) => Obj(ReplayMembers(ms))
  }

  function ReplayElements(ts: seq<Tree>): (r: seq<Tree>)
    requires AllWellFormed(ts)
    ensures |r| == |ts|
  {
    if ts == [] then [] else [ReplayTree(ts[0])] + ReplayElements(ts[1..])
  }

  function ReplayMembers(ms: seq<Member>): (r: seq<Member>)
    requires MembersWellFormed(ms)
    ensures |r| == |ms|
  {
    if ms == [] then [] else [Member(ms[0].name, ReplayTree(ms[0].value))] + ReplayMembers(ms[1..])
  }

  lemma {:induction false} ReplayedEvents(fmt: Format, t: Tree)
    requires WellFormed(t) && Printable(fmt, t)
    ensures AcceptEvents(Dom(t)) == Events(ReplayTree(t)) && WellFormed(ReplayTree(t)) && Printable(fmt, ReplayTree(t))
    decreases t, 1
  {
    match t {
      case Leaf(e) => ReplayedScalar(fmt, e);
      case Arr(ts) => ReplayedElements(fmt, ts);
      case Obj(ms) => ReplayedMembers(fmt, ms);
    }
  }

  lemma {:induction false} ReplayedScalar(fmt: Format, e: Event)
    requires ScalarEvent(e) && ScalarPrintable(fmt, e)
    ensures var r := AcceptEvents(ScalarValue(e)); |r| == 1 && ScalarEvent(r[0]) && ScalarPrintable(fmt, r[0])
  {
  }

  lemma {:induction false} ReplayedElements(fmt: Format, ts: seq<Tree>)
    requires AllWellFormed(ts) && AllPrintable(fmt, ts)
    ensures AcceptElements(DomElements(ts)) == ElementEvents(ReplayElements(ts))
    ensures AllWellFormed(ReplayElements(ts)) && AllPrintable(fmt, ReplayElements(ts))
    decreases ts, 0
  {
    if ts != [] {
      ReplayedEvents(fmt, ts[0]);
      ReplayedElements(fmt, ts[1..]);
      assert DomElements(ts)[1..] == DomElements(ts[1..]);
      assert ReplayElements(ts)[1..] == ReplayElements(ts[1..]);
    }
  }

  lemma {:induction false} ReplayedMembers(fmt: Format, ms: seq<Member>)
    requires MembersWellFormed(ms) && MembersPrintable(fmt, ms)
    ensures AcceptMembers(DomMembers(ms)) == MemberEvents(ReplayMembers(ms))
    ensures MembersWellFormed(ReplayMembers(ms)) && MembersPrintable(fmt, ReplayMembers(ms))
    decreases ms, 0
  {
    if ms != [] {
      ReplayedEvents(fmt, ms[0].value);
      ReplayedMembers(fmt, ms[1..]);
      assert DomMembers(ms)[1..] == DomMembers(ms[1..]);
      assert ReplayMembers(ms)[1..] == ReplayMembers(ms[1..]);
    }
  }

  /** The text a writer makes of the value a tree builds, and what reading it gives. */
  lemma {:induction false} PrintedDocument(fmt: Format, t: Tree, flags: Settings)
    requires fmt.Valid() && WellFormed(t) && Printable(fmt, t)
    ensures var text := Print(fmt, 0, ReplayTree(t));
            && WriteAll(fmt, Printed([], [], false), AcceptEvents(Dom(t))) == Some(Printed(text, [], true))
            && var r := JsonGrammar.Document(text, flags);
            && r.Going? && r.pos == |text| && SameEvents(r.out, Events(t))
  {
    var blank := Printed([], [], false);
    var u := ReplayTree(t);
    ReplayedEvents(fmt, t);
    WritesTree(fmt, blank, u);
    assert [] + Print(fmt, 0, u) == Print(fmt, 0, u);
    JsonRoundTrip.PrintedTextReadsBack(flags, fmt, u);
    AcceptReplays(t);
    SameTrans(JsonGrammar.Document(Print(fmt, 0, u), flags).out, Events(u), Events(t));
  }

  lemma {:induction false} SameTrans(a: seq<Event>, b: seq<Event>, c: seq<Event>)
    requires SameEvents(a, b) && SameEvents(b, c)
    ensures SameEvents(a, c)
  {
  }

  /** Prints the value built from a tree: the text reads back, under any flags, to the events the value was built from. */
  method PrintValue(v: Value, fmt: Format, ghost t: Tree, ghost flags: Settings) returns (text: Text)
    requires fmt.Valid() && WellFormed(t) && Printable(fmt, t) && v == Dom(t)
    ensures var r := JsonGrammar.Document(text, flags); r.Going? && r.pos == |text| && SameEvents(r.out, Events(t))
  {
    PrintedDocument(fmt, t, flags);
    var writer := new Writer(fmt);
    writer.Accept(v);
    text := writer.os;
  }
}
