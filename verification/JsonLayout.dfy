/** What the two writers print, laid out: where commas, line breaks, indents and blanks are, and how bytes are escaped. */
module JsonLayout {
  import opened Bytes
  import opened JsonLexer
  import opened JsonValue
  import opened JsonEscape
  import opened JsonWriter

  /** Parts with a separator between any two. */
  function Join(separator: Text, parts: seq<Text>): Text {
    if parts == [] then []
    else if |parts| == 1 then parts[0]
    else parts[0] + separator + Join(separator, parts[1..])
  }

  /** One indent for each open bracket. */
  function Indents(fmt: Format, depth: nat): Text
    requires fmt.Pretty?
  {
    if depth == 0 then [] else Indents(fmt, depth - 1) + seq(fmt.indentCount, _ => fmt.indentChar)
  }

  lemma {:induction false} IndentIs(fmt: Format, depth: nat)
    requires fmt.Pretty?
    ensures Indent(fmt, depth) == Indents(fmt, depth)
  {
    if depth > 0 {
      IndentIs(fmt, depth - 1);
      IndentsAdd(depth, fmt.indentCount);
      var n := fmt.indentCount;
      assert seq(depth * n, _ => fmt.indentChar) == seq((depth - 1) * n, _ => fmt.indentChar) + seq(n, _ => fmt.indentChar);
    }
  }

  lemma {:induction false} IndentsAdd(depth: nat, n: nat)
    requires depth > 0
    ensures depth * n == (depth - 1) * n + n
  {
  }

  // ---------------------------------------------------------------- bytes

  /** The letters of hexadecimal digits are capitals. */
  lemma {:induction false} DigitIs(v: nat)
    requires v < 16
    ensures HexDigit(v) == "0123456789ABCDEF"[v]
  {
  }

  /** Quotes and backslashes are escaped, control characters by their letter or four digits, and nothing else. */
  lemma {:induction false} EscapedIs(c: Byte)
    ensures var n := c as int;
            Escaped(c) ==
              if c == '"' || c == '\\' then ['\\', c]
              else if n == 0x08 then ['\\', 'b']
              else if n == 0x09 then ['\\', 't']
              else if n == 0x0A then ['\\', 'n']
              else if n == 0x0C then ['\\', 'f']
              else if n == 0x0D then ['\\', 'r']
              else if n < 0x10 then "\\u000" + ["0123456789ABCDEF"[n]]
              else if n < 0x20 then "\\u001" + ["0123456789ABCDEF"[n - 0x10]]
              else [c]
  {
    var n := c as int;
    if n < 0x20 {
      DigitIs(n / 16);
      DigitIs(n % 16);
    }
  }

  // ---------------------------------------------------------------- trees

  /** What is between a bracket and what it encloses, and between what is enclosed. */
  datatype Spread = Spread(open: Text, between: Text, close: Text)

  /**
   * The plain writer puts nothing but commas; the pretty writer a line for each element or member, one indent deeper than
   * the bracket, or, if asked to, a blank behind the commas of an array.
   */
  function SpreadOf(fmt: Format, depth: nat, isArray: bool): Spread {
    match fmt
    case Compact(_) => Spread([], ",", [])
    case Pretty(_, _, singleLine, _) =>
      if isArray && singleLine then Spread([], ", ", [])
      else Spread("\n" + Indents(fmt, depth + 1), ",\n" + Indents(fmt, depth + 1), "\n" + Indents(fmt, depth))
  }

  function Colon(fmt: Format): Text {
    if fmt.Compact? then ":" else ": "
  }

  function Enclosed(open: Text, s: Spread, parts: seq<Text>, close: Text): Text {
    if parts == [] then open + close else open + s.open + Join(s.between, parts) + s.close + close
  }

  function Layout(fmt: Format, depth: nat, t: Tree): Text
    decreases t, 1
  {
    match t
    case Leaf(e) => ScalarText(fmt, e)
    case Arr(ts) => Enclosed("[", SpreadOf(fmt, depth, true), Layouts(fmt, depth + 1, ts), "]")
    case Obj(ms) => Enclosed("{", SpreadOf(fmt, depth, false), MemberLayouts(fmt, depth + 1, ms), "}")
  }

  function Layouts(fmt: Format, depth: nat, ts: seq<Tree>): (r: seq<Text>)
    ensures |r| == |ts|
    decreases ts, 0
  {
    if ts == [] then [] else [Layout(fmt, depth, ts[0])] + Layouts(fmt, depth, ts[1..])
  }

  function MemberLayouts(fmt: Format, depth: nat, ms: seq<Member>): (r: seq<Text>)
    ensures |r| == |ms|
    decreases ms, 1
  {
    if ms == [] then [] else [MemberLayout(fmt, depth, ms[0])] + MemberLayouts(fmt, depth, ms[1..])
  }

  function MemberLayout(fmt: Format, depth: nat, m: Member): Text
    decreases m, 0
  {
    Quoted(fmt, m.name) + Colon(fmt) + Layout(fmt, depth, m.value)
  }

  // ---------------------------------------------------------------- the writers print the layout

  /** What is printed in front of what is enclosed. */
  function Front(s: Spread, count: nat): Text {
    if count == 0 then s.open else s.between
  }

  lemma {:induction false} PrefixIs(fmt: Format, depth: nat, isArray: bool, count: nat)
    requires isArray || count % 2 == 0
    ensures ValuePrefix(fmt, depth + 1, isArray, count) == Front(SpreadOf(fmt, depth, isArray), count)
  {
    if fmt.Pretty? {
      IndentIs(fmt, depth + 1);
    }
    assert ValuePrefix(fmt, depth + 1, isArray, count) == (if count > 0 then "," else "") + Gap(fmt, depth + 1, isArray, count == 0);
  }

  lemma {:induction false} CloseIs(fmt: Format, depth: nat, isArray: bool)
    ensures CloseGap(fmt, depth, isArray, false) == SpreadOf(fmt, depth, isArray).close
  {
    if fmt.Pretty? {
      IndentIs(fmt, depth);
    }
  }

  lemma {:induction false} JoinMore(front: Text, separator: Text, part: Text, rest: seq<Text>, tail: Text)
    requires if rest == [] then tail == [] else tail == separator + Join(separator, rest)
    ensures front + part + tail == front + Join(separator, [part] + rest)
  {
    assert ([part] + rest)[1..] == rest;
    if rest == [] {
      assert [part] + rest == [part] && front + part + [] == front + part;
    } else {
      Concat3(front, part, tail);
      Concat3(part, separator, Join(separator, rest));
    }
  }

  lemma {:induction false} ElementsLaidOut(fmt: Format, depth: nat, count: nat, ts: seq<Tree>)
    ensures var s := SpreadOf(fmt, depth, true);
            PrintElements(fmt, depth + 1, count, ts) ==
              if ts == [] then [] else Front(s, count) + Join(s.between, Layouts(fmt, depth + 1, ts))
    decreases ts, 2
  {
    if ts != [] {
      PrefixIs(fmt, depth, true, count);
      LaidOut(fmt, depth + 1, ts[0]);
      ElementsLaidOut(fmt, depth, count + 1, ts[1..]);
      var s := SpreadOf(fmt, depth, true);
      JoinMore(Front(s, count), s.between, Layout(fmt, depth + 1, ts[0]), Layouts(fmt, depth + 1, ts[1..]),
               PrintElements(fmt, depth + 1, count + 1, ts[1..]));
    }
  }

  lemma {:induction false} MembersLaidOut(fmt: Format, depth: nat, count: nat, ms: seq<Member>)
    ensures var s := SpreadOf(fmt, depth, false);
            PrintMembers(fmt, depth + 1, count, ms) ==
              if ms == [] then [] else Front(s, count) + Join(s.between, MemberLayouts(fmt, depth + 1, ms))
    decreases ms, 2
  {
    if ms != [] {
      MemberLaidOut(fmt, depth, count, ms[0]);
      MembersLaidOut(fmt, depth, count + 1, ms[1..]);
      var s := SpreadOf(fmt, depth, false);
      JoinMore(Front(s, count), s.between, MemberLayout(fmt, depth + 1, ms[0]), MemberLayouts(fmt, depth + 1, ms[1..]),
               PrintMembers(fmt, depth + 1, count + 1, ms[1..]));
    }
  }

  lemma {:induction false} MemberLaidOut(fmt: Format, depth: nat, count: nat, m: Member)
    ensures PrintMember(fmt, depth + 1, count, m) == Front(SpreadOf(fmt, depth, false), count) + MemberLayout(fmt, depth + 1, m)
    decreases m, 1
  {
    PrefixIs(fmt, depth, false, 2 * count);
    LaidOut(fmt, depth + 1, m.value);
    ColonIs(fmt, depth + 1, count);
    Concat4(Front(SpreadOf(fmt, depth, false), count), Quoted(fmt, m.name), Colon(fmt), Layout(fmt, depth + 1, m.value));
  }

  lemma {:induction false} ColonIs(fmt: Format, depth: nat, count: nat)
    ensures ValuePrefix(fmt, depth, false, 2 * count + 1) == Colon(fmt)
  {
  }

  /** Every tree is printed as its layout. */
  lemma {:induction false} LaidOut(fmt: Format, depth: nat, t: Tree)
    ensures Print(fmt, depth, t) == Layout(fmt, depth, t)
    decreases t, 3
  {
    match t
    case Leaf(e) =>
    case Arr(ts) =>
      var s := SpreadOf(fmt, depth, true);
      if ts != [] {
        ElementsLaidOut(fmt, depth, 0, ts);
        CloseIs(fmt, depth, true);
        Concat3("[", s.open, Join(s.between, Layouts(fmt, depth + 1, ts)));
      }
    case Obj(ms) =>
      var s := SpreadOf(fmt, depth, false);
      if ms != [] {
        MembersLaidOut(fmt, depth, 0, ms);
        CloseIs(fmt, depth, false);
        Concat3("{", s.open, Join(s.between, MemberLayouts(fmt, depth + 1, ms)));
      }
  }
}
