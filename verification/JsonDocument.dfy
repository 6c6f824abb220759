/** The DOM: a stack machine that builds values from events, and the visitor that replays a value as events. */
module JsonDocument {
  import opened Bytes
  import opened JsonLexer
  import opened JsonValue
  import JsonGrammar
  import JsonBalanced
  import JsonReader

  /** The integer types a number value may be read as. */
  datatype NumberFlags = NumberFlags(int32: bool, uint32: bool, int64: bool, uint64: bool)

  datatype Value =
    | NullValue
    | BoolValue(b: bool)
    | NumberValue(n: int, flags: NumberFlags)
    | DoubleValue(literal: Text)
    | StringValue(str: Text)
    | ObjectValue(members: seq<ValueMember>)
    | ArrayValue(elements: seq<Value>)

  /** A member is laid out as two values, name and value. */
  datatype ValueMember = ValueMember(name: Value, value: Value)

  // ---------------------------------------------------------------- building

  function FlagsOf(e: Event): NumberFlags
    requires NumberOf(e).Some?
  {
    match e
    case Int(i) => NumberFlags(true, i >= 0, true, i >= 0)
    case Uint(u) => NumberFlags(u < 0x8000_0000, true, true, true)
    case Int64(i) =>
      NumberFlags(-0x8000_0000 <= i < 0x8000_0000, 0 <= i < 0x1_0000_0000, true, i >= 0)
    case Uint64(u) =>
      NumberFlags(u < 0x8000_0000, u < 0x1_0000_0000, u < 0x8000_0000_0000_0000, true)
  }

  /** The types that hold a number, by their bounds. */
  predicate FlagsTell(n: int, flags: NumberFlags) {
    && (flags.int32 <==> -0x8000_0000 <= n < 0x8000_0000)
    && (flags.uint32 <==> 0 <= n < 0x1_0000_0000)
    && (flags.int64 <==> -0x8000_0000_0000_0000 <= n < 0x8000_0000_0000_0000)
    && (flags.uint64 <==> 0 <= n < 0x1_0000_0000_0000_0000)
  }

  /** Whatever type a number was announced in, its flags are those of the types that hold it. */
  lemma {:induction false} FlagsOfTell(e: Event)
    requires ScalarEvent(e) && NumberOf(e).Some?
    ensures FlagsTell(NumberOf(e).value, FlagsOf(e))
  {
  }

  /** Every number in a value tells its types. */
  predicate Typed(v: Value) {
    match v
    case NumberValue(n, flags) => FlagsTell(n, flags)
    case ArrayValue(vs) => AllTyped(vs)
    case ObjectValue(ms) => MembersTyped(ms)
    case _ => true
  }

  predicate AllTyped(vs: seq<Value>) {
    vs == [] || (Typed(vs[0]) && AllTyped(vs[1..]))
  }

  predicate MembersTyped(ms: seq<ValueMember>) {
    ms == [] || (MemberTyped(ms[0]) && MembersTyped(ms[1..]))
  }

  predicate MemberTyped(m: ValueMember) {
    Typed(m.name) && Typed(m.value)
  }

  /** The value pushed for a scalar event. */
  function ScalarValue(e: Event): Value
    requires ScalarEvent(e)
  {
    match e
    case Null => NullValue
    case Bool(b) => BoolValue(b)
    case String(s) => StringValue(s)
    case Double(l) => DoubleValue(l)
    case Int(_) | Uint(_) | Int64(_) | Uint64(_) => NumberValue(NumberOf(e).value, FlagsOf(e))
  }

  /** Values read two by two as members. */
  function Paired(vs: seq<Value>): seq<ValueMember>
    requires |vs| % 2 == 0
  {
    if vs == [] then [] else [ValueMember(vs[0], vs[1])] + Paired(vs[2..])
  }

  /** The handler's stack after an event; none when a pop would underflow. */
  function Push(stack: seq<Value>, e: Event): Option<seq<Value>> {
    match e
    case StartObject => Some(stack + [ObjectValue([])])
    case StartArray => Some(stack + [ArrayValue([])])
    case Key(name) => Some(stack + [StringValue(name)])
    case EndObject(n) =>
      if |stack| < 2 * n + 1 then None
      else
        var base := |stack| - 2 * n;
        Some(stack[..base - 1] + [ObjectValue(Paired(stack[base..]))])
    case EndArray(n) =>
      if |stack| < n + 1 then None
      else Some(stack[..|stack| - n - 1] + [ArrayValue(stack[|stack| - n..])])
    case _ => if ScalarEvent(e) then Some(stack + [ScalarValue(e)]) else None
  }

  function PushAll(stack: seq<Value>, es: seq<Event>): Option<seq<Value>>
    decreases |es|
  {
    if es == [] then Some(stack)
    else
      var next := Push(stack, es[0]);
      if next.None? then None else PushAll(next.value, es[1..])
  }

  /** The value a tree builds. */
  function Dom(t: Tree): Value
    requires WellFormed(t)
  {
    match t
    case Leaf(e) => ScalarValue(e)
    case Arr(ts) => ArrayValue(DomElements(ts))
    case Obj(ms) => ObjectValue(DomMembers(ms))
  }

  function DomElements(ts: seq<Tree>): (r: seq<Value>)
    requires AllWellFormed(ts)
    ensures |r| == |ts|
  {
    if ts == [] then [] else [Dom(ts[0])] + DomElements(ts[1..])
  }

  function DomMembers(ms: seq<Member>): (r: seq<ValueMember>)
    requires MembersWellFormed(ms)
    ensures |r| == |ms|
  {
    if ms == [] then [] else [ValueMember(StringValue(ms[0].name), Dom(ms[0].value))] + DomMembers(ms[1..])
  }

  lemma {:induction false} DomTyped(t: Tree)
    requires WellFormed(t)
    ensures Typed(Dom(t))
    decreases t, 1
  {
    match t {
      case Leaf(e) =>
        if NumberOf(e).Some? {
          FlagsOfTell(e);
        }
      case Arr(ts) => DomElementsTyped(ts);
      case Obj(ms) => DomMembersTyped(ms);
    }
  }

  lemma {:induction false} DomElementsTyped(ts: seq<Tree>)
    requires AllWellFormed(ts)
    ensures AllTyped(DomElements(ts))
    decreases ts, 0
  {
    if ts != [] {
      DomTyped(ts[0]);
      DomElementsTyped(ts[1..]);
      assert DomElements(ts)[1..] == DomElements(ts[1..]);
    }
  }

  lemma {:induction false} DomMembersTyped(ms: seq<Member>)
    requires MembersWellFormed(ms)
    ensures MembersTyped(DomMembers(ms))
    decreases ms, 0
  {
    if ms != [] {
      DomTyped(ms[0].value);
      DomMembersTyped(ms[1..]);
      assert DomMembers(ms)[1..] == DomMembers(ms[1..]);
    }
  }

  /** Members laid out flat, as they lie on the stack. */
  function Flat(ms: seq<ValueMember>): (r: seq<Value>)
    ensures |r| == 2 * |ms|
  {
    if ms == [] then [] else [ms[0].name, ms[0].value] + Flat(ms[1..])
  }

  lemma {:induction false} PairedFlat(ms: seq<ValueMember>)
    ensures Paired(Flat(ms)) == ms
  {
    if ms != [] {
      assert Flat(ms)[2..] == Flat(ms[1..]);
      PairedFlat(ms[1..]);
    }
  }

  lemma {:induction false} PushAllJoin(stack: seq<Value>, a: seq<Event>, b: seq<Event>)
    ensures PushAll(stack, a + b)
         == if PushAll(stack, a).None? then None else PushAll(PushAll(stack, a).value, b)
    decreases |a|
  {
    if a == [] {
      assert a + b == b;
    } else {
      assert (a + b)[1..] == a[1..] + b;
      if Push(stack, a[0]).Some? {
        PushAllJoin(Push(stack, a[0]).value, a[1..], b);
      }
    }
  }

  lemma {:induction false} PushOne(stack: seq<Value>, e: Event)
    ensures PushAll(stack, [e]) == Push(stack, e)
  {
  }

  /** A balanced event sequence with correct counts leaves exactly the one value it announces, on top of what was there. */
  lemma {:induction false} BuildsOneValue(stack: seq<Value>, t: Tree)
    requires WellFormed(t)
    ensures PushAll(stack, Events(t)) == Some(stack + [Dom(t)])
    decreases t, 1
  {
    match t {
      case Leaf(e) =>
        PushOne(stack, e);
      case Arr(ts) =>
        BuildsElements(stack + [ArrayValue([])], ts);
        ClosesArray(stack, ts);
      case Obj(ms) =>
        BuildsMembers(stack + [ObjectValue([])], ms);
        ClosesObject(stack, ms);
    }
  }

  lemma {:induction false} ClosesArray(stack: seq<Value>, ts: seq<Tree>)
    requires AllWellFormed(ts)
    requires PushAll(stack + [ArrayValue([])], ElementEvents(ts)) == Some(stack + [ArrayValue([])] + DomElements(ts))
    ensures PushAll(stack, [StartArray] + ElementEvents(ts) + [EndArray(|ts|)]) == Some(stack + [ArrayValue(DomElements(ts))])
  {
    var full := stack + [ArrayValue([])] + DomElements(ts);
    PushOne(stack, StartArray);
    PushAllJoin(stack, [StartArray], ElementEvents(ts));
    PushAllJoin(stack, [StartArray] + ElementEvents(ts), [EndArray(|ts|)]);
    PushOne(full, EndArray(|ts|));
    assert full[|full| - |ts|..] == DomElements(ts) && full[..|full| - |ts| - 1] == stack;
  }

  lemma {:induction false} ClosesObject(stack: seq<Value>, ms: seq<Member>)
    requires MembersWellFormed(ms)
    requires PushAll(stack + [ObjectValue([])], MemberEvents(ms)) == Some(stack + [ObjectValue([])] + Flat(DomMembers(ms)))
    ensures PushAll(stack, [StartObject] + MemberEvents(ms) + [EndObject(|ms|)]) == Some(stack + [ObjectValue(DomMembers(ms))])
  {
    var full := stack + [ObjectValue([])] + Flat(DomMembers(ms));
    PushOne(stack, StartObject);
    PushAllJoin(stack, [StartObject], MemberEvents(ms));
    PushAllJoin(stack, [StartObject] + MemberEvents(ms), [EndObject(|ms|)]);
    PushOne(full, EndObject(|ms|));
    assert full[|full| - 2 * |ms|..] == Flat(DomMembers(ms)) && full[..|full| - 2 * |ms| - 1] == stack;
    PairedFlat(DomMembers(ms));
  }

  lemma {:induction false} BuildsElements(stack: seq<Value>, ts: seq<Tree>)
    requires AllWellFormed(ts)
    ensures PushAll(stack, ElementEvents(ts)) == Some(stack + DomElements(ts))
    decreases ts, 0
  {
    if ts == [] {
      assert stack + [] == stack;
    } else {
      BuildsOneValue(stack, ts[0]);
      PushAllJoin(stack, Events(ts[0]), ElementEvents(ts[1..]));
      BuildsElements(stack + [Dom(ts[0])], ts[1..]);
      assert stack + DomElements(ts) == stack + [Dom(ts[0])] + DomElements(ts[1..]);
    }
  }

  lemma {:induction false} BuildsMembers(stack: seq<Value>, ms: seq<Member>)
    requires MembersWellFormed(ms)
    ensures PushAll(stack, MemberEvents(ms)) == Some(stack + Flat(DomMembers(ms)))
    decreases ms, 0
  {
    if ms == [] {
      assert stack + [] == stack;
    } else {
      var named := stack + [StringValue(ms[0].name)];
      var valued := named + [Dom(ms[0].value)];
      PushOne(stack, Key(ms[0].name));
      BuildsOneValue(named, ms[0].value);
      PushThree(stack, [Key(ms[0].name)], named, Events(ms[0].value), valued, MemberEvents(ms[1..]));
      BuildsMembers(valued, ms[1..]);
      FlatFirst(stack, ms);
    }
  }

  lemma {:induction false} PushThree(stack: seq<Value>, a: seq<Event>, s1: seq<Value>, b: seq<Event>, s2: seq<Value>, c: seq<Event>)
    requires PushAll(stack, a) == Some(s1) && PushAll(s1, b) == Some(s2)
    ensures PushAll(stack, a + b + c) == PushAll(s2, c)
  {
    PushAllJoin(stack, a, b);
    PushAllJoin(stack, a + b, c);
  }

  lemma {:induction false} FlatFirst(stack: seq<Value>, ms: seq<Member>)
    requires ms != [] && MembersWellFormed(ms)
    ensures stack + Flat(DomMembers(ms))
         == stack + [StringValue(ms[0].name)] + [Dom(ms[0].value)] + Flat(DomMembers(ms[1..]))
  {
    assert DomMembers(ms)[1..] == DomMembers(ms[1..]);
  }

  // ---------------------------------------------------------------- replaying

  /** A number is announced in the first of the four types that its flags allow. */
  function NumberEvent(n: int, flags: NumberFlags): Event {
    if flags.int32 then Int(n)
    else if flags.uint32 && n >= 0 then Uint(n)
    else if flags.int64 || n < 0 then Int64(n)
    else Uint64(n)
  }

  /** The events a value sends to a handler; a member whose name is no string would break an assertion. */
  function AcceptEvents(v: Value): (r: seq<Event>)
    ensures |r| >= 1
  {
    match v
    case NullValue => [Null]
    case BoolValue(b) => [Bool(b)]
    case StringValue(s) => [String(s)]
    case DoubleValue(l) => [Double(l)]
    case NumberValue(n, flags) => [NumberEvent(n, flags)]
    case ArrayValue(vs) => [StartArray] + AcceptElements(vs) + [EndArray(|vs|)]
    case ObjectValue(ms) => [StartObject] + AcceptMembers(ms) + [EndObject(|ms|)]
  }

  function AcceptElements(vs: seq<Value>): seq<Event> {
    if vs == [] then [] else AcceptEvents(vs[0]) + AcceptElements(vs[1..])
  }

  function AcceptMembers(ms: seq<ValueMember>): seq<Event> {
    if ms == [] then []
    else AcceptMember(ms[0]) + AcceptMembers(ms[1..])
  }

  function AcceptMember(m: ValueMember): seq<Event> {
    [Key(if m.name.StringValue? then m.name.str else [])] + AcceptEvents(m.value)
  }

  /** A number that tells its types is announced in the first of them that holds it. */
  lemma {:induction false} AnnouncedNarrowest(n: int, flags: NumberFlags)
    requires FlagsTell(n, flags) && -0x8000_0000_0000_0000 <= n < 0x1_0000_0000_0000_0000
    ensures AcceptEvents(NumberValue(n, flags)) ==
            [if -0x8000_0000 <= n < 0x8000_0000 then Int(n)
             else if 0 <= n < 0x1_0000_0000 then Uint(n)
             else if n < 0x8000_0000_0000_0000 then Int64(n)
             else Uint64(n)]
  {
  }

  lemma {:induction false} SameJoin(a: seq<Event>, b: seq<Event>, c: seq<Event>, d: seq<Event>)
    requires SameEvents(a, b) && SameEvents(c, d)
    ensures SameEvents(a + c, b + d)
  {
  }

  /** The replay of a built value is the sequence it was built from, and its integers are in range for their type. */
  lemma {:induction false} AcceptReplays(t: Tree)
    requires WellFormed(t)
    ensures SameEvents(AcceptEvents(Dom(t)), Events(t))
    decreases t, 1
  {
    match t {
      case Leaf(e) =>
      case Arr(ts) =>
        AcceptReplaysElements(ts);
        SameJoin([StartArray], [StartArray], AcceptElements(DomElements(ts)), ElementEvents(ts));
        SameJoin([StartArray] + AcceptElements(DomElements(ts)), [StartArray] + ElementEvents(ts), [EndArray(|ts|)], [EndArray(|ts|)]);
      case Obj(ms) =>
        AcceptReplaysMembers(ms);
        SameJoin([StartObject], [StartObject], AcceptMembers(DomMembers(ms)), MemberEvents(ms));
        SameJoin([StartObject] + AcceptMembers(DomMembers(ms)), [StartObject] + MemberEvents(ms), [EndObject(|ms|)], [EndObject(|ms|)]);
    }
  }

  lemma {:induction false} AcceptReplaysElements(ts: seq<Tree>)
    requires AllWellFormed(ts)
    ensures SameEvents(AcceptElements(DomElements(ts)), ElementEvents(ts))
    decreases ts, 0
  {
    if ts != [] {
      AcceptReplays(ts[0]);
      AcceptReplaysElements(ts[1..]);
      assert DomElements(ts)[1..] == DomElements(ts[1..]);
      SameJoin(AcceptEvents(Dom(ts[0])), Events(ts[0]), AcceptElements(DomElements(ts[1..])), ElementEvents(ts[1..]));
    }
  }

  lemma {:induction false} AcceptReplaysMembers(ms: seq<Member>)
    requires MembersWellFormed(ms)
    ensures SameEvents(AcceptMembers(DomMembers(ms)), MemberEvents(ms))
    decreases ms, 0
  {
    if ms != [] {
      var k := [Key(ms[0].name)];
      AcceptReplays(ms[0].value);
      AcceptReplaysMembers(ms[1..]);
      assert DomMembers(ms)[1..] == DomMembers(ms[1..]);
      SameJoin(k, k, AcceptEvents(Dom(ms[0].value)), Events(ms[0].value));
      SameJoin(k + AcceptEvents(Dom(ms[0].value)), k + Events(ms[0].value), AcceptMembers(DomMembers(ms[1..])), MemberEvents(ms[1..]));
    }
  }

  /** What the events of a whole text leave on an empty stack. */
  lemma {:induction false} BuildsTheTree(t: Tree)
    requires WellFormed(t)
    ensures PushAll([], Events(t)) == Some([Dom(t)]) && SameEvents(AcceptEvents(Dom(t)), Events(t)) && Typed(Dom(t))
  {
    BuildsOneValue([], t);
    assert [] + [Dom(t)] == [Dom(t)];
    AcceptReplays(t);
    DomTyped(t);
  }

  // ---------------------------------------------------------------- the document

  /** The document as a handler: its stack is all that the handler methods touch. */
  class GenericDocument {
    var stack: seq<Value>
    var root: Value
    var parseResult: JsonReader.ParseResult

    constructor ()
      ensures stack == [] && root == NullValue
    {
      stack, root, parseResult := [], NullValue, JsonReader.NoError;
    }

    method Scalar(e: Event)
      requires ScalarEvent(e)
      modifies `stack
      ensures Push(old(stack), e) == Some(stack)
    {
      stack := stack + [ScalarValue(e)];
    }

    method StartContainer(e: Event)
      requires e.StartObject? || e.StartArray?
      modifies `stack
      ensures Push(old(stack), e) == Some(stack)
    {
      stack := stack + [if e.StartObject? then ObjectValue([]) else ArrayValue([])];
    }

    method Key(name: Text)
      modifies `stack
      ensures Push(old(stack), JsonLexer.Key(name)) == Some(stack)
    {
      stack := stack + [StringValue(name)];
    }

    method EndObject(memberCount: nat)
      requires |stack| >= 2 * memberCount + 1
      modifies `stack
      ensures Push(old(stack), JsonLexer.EndObject(memberCount)) == Some(stack)
    {
      var base := |stack| - 2 * memberCount;
      var members := Paired(stack[base..]);
      stack := stack[..base];
      assert stack[..|stack| - 1] == old(stack)[..base - 1];
      stack := stack[..|stack| - 1] + [ObjectValue(members)];
    }

    method EndArray(elementCount: nat)
      requires |stack| >= elementCount + 1
      modifies `stack
      ensures Push(old(stack), JsonLexer.EndArray(elementCount)) == Some(stack)
    {
      var elements := stack[|stack| - elementCount..];
      stack := stack[..|stack| - elementCount];
      assert stack[..|stack| - 1] == old(stack)[..|old(stack)| - elementCount - 1];
      stack := stack[..|stack| - 1] + [ArrayValue(elements)];
    }

    /** Sends one event to the handler it belongs to. */
    method Handle(e: Event)
      requires Push(stack, e).Some?
      modifies `stack
      ensures Push(old(stack), e) == Some(stack)
    {
      match e {
        case StartObject | StartArray => StartContainer(e);
        case Key(name) => Key(name);
        case EndObject(n) => EndObject(n);
        case EndArray(n) => EndArray(n);
        case _ => Scalar(e);
      }
    }

    /** Sends events that leave one value. */
    method HandleAll(events: seq<Event>, ghost v: Value)
      requires stack == [] && PushAll([], events) == Some([v])
      modifies `stack
      ensures stack == [v]
    {
      var i := 0;
      assert events[0..] == events;
      while i < |events|
        invariant 0 <= i <= |events|
        invariant PushAll(stack, events[i..]) == Some([v])
      {
        assert events[i..][0] == events[i] && events[i..][1..] == events[i + 1..];
        Handle(events[i]);
        i := i + 1;
      }
    }

    /**
     * Parses a text into the document. On success the stack holds exactly one value, which becomes the root,
     * replaying that root gives back the events of the text, and every number in it tells the types that hold it; on
     * failure the root is untouched.
     */
    method ParseStream(text: Text, flags: Settings)
      requires stack == []
      modifies this
      ensures stack == []
      ensures var result := JsonGrammar.Document(text, flags);
        match result
        case Going(_, out) => parseResult == JsonReader.NoError && SameEvents(AcceptEvents(root), out) && Typed(root)
        case Failed(code, off, _) => parseResult == JsonReader.ParseError(code, off) && root == old(root)
    {
      var reader := new JsonReader.Reader(text, flags);
      reader.Parse();
      parseResult := reader.parseResult;
      if parseResult.NoError? {
        ghost var t := JsonBalanced.AcceptedTextAnnouncesOneTree(text, flags);
        BuildsTheTree(t);
        HandleAll(reader.events, Dom(t));
        root := stack[|stack| - 1];
        stack := stack[..|stack| - 1];
      }
    }
  }
}
