/** A writer with an ASCII target prints ASCII only, whatever the tree, and what it prints is read back. */
module JsonTarget {
  import opened Bytes
  import opened JsonLexer
  import opened JsonValue
  import opened JsonEscape
  import opened JsonWriter
  import opened JsonAscii
  import JsonGrammar
  import JsonRoundTrip

  lemma {:induction false} AsciiJoin(a: Text, b: Text)
    requires AllAscii(a) && AllAscii(b)
    ensures AllAscii(a + b)
  {
  }

  lemma {:induction false} DecimalIsAscii(n: nat)
    ensures AllAscii(Decimal(n))
  {
    if n >= 10 {
      DecimalIsAscii(n / 10);
    }
  }

  lemma {:induction false} QuotedIsAscii(fmt: Format, str: Text)
    requires fmt.ascii && Quotable(fmt, str)
    ensures AllAscii(Quoted(fmt, str))
  {
    AsciiIsAscii(str);
  }

  lemma {:induction false} ScalarIsAscii(fmt: Format, e: Event)
    requires fmt.ascii && ScalarEvent(e) && ScalarPrintable(fmt, e)
    ensures AllAscii(ScalarText(fmt, e))
  {
    match e
    case String(str) => QuotedIsAscii(fmt, str);
    case Int(i) => DecimalIsAscii(if i < 0 then -i else i);
    case Int64(i) => DecimalIsAscii(if i < 0 then -i else i);
    case Uint(u) => DecimalIsAscii(u);
    case Uint64(u) => DecimalIsAscii(u);
    case _ =>
  }

  lemma {:induction false} GapIsAscii(fmt: Format, depth: nat, inArray: bool, flag: bool)
    requires fmt.Valid()
    ensures AllAscii(Gap(fmt, depth, inArray, flag)) && AllAscii(CloseGap(fmt, depth, inArray, flag))
  {
  }

  lemma {:induction false} PrefixIsAscii(fmt: Format, depth: nat, inArray: bool, count: nat)
    requires fmt.Valid()
    ensures AllAscii(ValuePrefix(fmt, depth, inArray, count))
  {
    GapIsAscii(fmt, depth, inArray, count == 0);
  }

  lemma {:induction false} BracketedIsAscii(open: Text, inner: Text, gap: Text, close: Text)
    requires AllAscii(open) && AllAscii(inner) && AllAscii(gap) && AllAscii(close)
    ensures AllAscii(open + inner + gap + close)
  {
    AsciiJoin(open, inner);
    AsciiJoin(open + inner, gap);
    AsciiJoin(open + inner + gap, close);
  }

  lemma {:induction false} TreeIsAscii(fmt: Format, depth: nat, t: Tree)
    requires fmt.Valid() && fmt.ascii && WellFormed(t) && Printable(fmt, t)
    ensures AllAscii(Print(fmt, depth, t))
    decreases t, 1
  {
    match t
    case Leaf(e) => ScalarIsAscii(fmt, e);
    case Arr(ts) =>
      ElementsAreAscii(fmt, depth + 1, 0, ts);
      GapIsAscii(fmt, depth, true, ts == []);
      BracketedIsAscii("[", PrintElements(fmt, depth + 1, 0, ts), CloseGap(fmt, depth, true, ts == []), "]");
    case Obj(ms) =>
      MembersAreAscii(fmt, depth + 1, 0, ms);
      GapIsAscii(fmt, depth, false, ms == []);
      BracketedIsAscii("{", PrintMembers(fmt, depth + 1, 0, ms), CloseGap(fmt, depth, false, ms == []), "}");
  }

  lemma {:induction false} ElementsAreAscii(fmt: Format, depth: nat, count: nat, ts: seq<Tree>)
    requires fmt.Valid() && fmt.ascii && AllWellFormed(ts) && AllPrintable(fmt, ts)
    ensures AllAscii(PrintElements(fmt, depth, count, ts))
    decreases ts, 0
  {
    if ts != [] {
      PrefixIsAscii(fmt, depth, true, count);
      TreeIsAscii(fmt, depth, ts[0]);
      ElementsAreAscii(fmt, depth, count + 1, ts[1..]);
      AsciiJoin(ValuePrefix(fmt, depth, true, count), Print(fmt, depth, ts[0]));
      AsciiJoin(ValuePrefix(fmt, depth, true, count) + Print(fmt, depth, ts[0]), PrintElements(fmt, depth, count + 1, ts[1..]));
    }
  }

  lemma {:induction false} MembersAreAscii(fmt: Format, depth: nat, count: nat, ms: seq<Member>)
    requires fmt.Valid() && fmt.ascii && MembersWellFormed(ms) && MembersPrintable(fmt, ms)
    ensures AllAscii(PrintMembers(fmt, depth, count, ms))
    decreases ms, 0
  {
    if ms != [] {
      TreeIsAscii(fmt, depth, ms[0].value);
      MemberIsAscii(fmt, depth, count, ms[0]);
      MembersAreAscii(fmt, depth, count + 1, ms[1..]);
      AsciiJoin(PrintMember(fmt, depth, count, ms[0]), PrintMembers(fmt, depth, count + 1, ms[1..]));
    }
  }

  lemma {:induction false} MemberIsAscii(fmt: Format, depth: nat, count: nat, m: Member)
    requires fmt.Valid() && fmt.ascii && Quotable(fmt, m.name) && AllAscii(Print(fmt, depth, m.value))
    ensures AllAscii(PrintMember(fmt, depth, count, m))
  {
    var prefix, name, colon := ValuePrefix(fmt, depth, false, 2 * count), Quoted(fmt, m.name), ValuePrefix(fmt, depth, false, 2 * count + 1);
    PrefixIsAscii(fmt, depth, false, 2 * count);
    QuotedIsAscii(fmt, m.name);
    PrefixIsAscii(fmt, depth, false, 2 * count + 1);
    AsciiJoin(prefix, name);
    AsciiJoin(prefix + name, colon);
    AsciiJoin(prefix + name + colon, Print(fmt, depth, m.value));
  }

  /**
   * A whole tree printed for an ASCII target: nothing beyond ASCII is printed, and the reader sends the tree's events
   * again, names and strings byte for byte, integers by value.
   */
  lemma {:induction false} AsciiTreeReadsBack(f: Settings, fmt: Format, t: Tree)
    requires fmt.Valid() && fmt.ascii && WellFormed(t) && Printable(fmt, t)
    ensures var s := Print(fmt, 0, t);
            var r := JsonGrammar.Document(s, f);
            AllAscii(s) && r.Going? && r.pos == |s| && SameEvents(r.out, Events(t))
  {
    TreeIsAscii(fmt, 0, t);
    JsonRoundTrip.PrintedTextReadsBack(f, fmt, t);
  }
}
