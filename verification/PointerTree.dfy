/** Looking up, creating and setting values in a DOM tree by the tokens of a pointer. */
module PointerTree {
  import opened Bytes
  import opened JsonDocument
  import PointerParser

  /** A token as the tree operations see it: a name, and an array index if it is one. */
  datatype Token = Token(name: Text, index: Option<nat>)

  const DASH: Text := "-"

  // ---------------------------------------------------------------- children

  predicate HasChild(v: Value, i: nat) {
    match v
    case ArrayValue(es) => i < |es|
    case ObjectValue(ms) => i < |ms|
    case _ => false
  }

  function Child(v: Value, i: nat): Value
    requires HasChild(v, i)
  {
    if v.ArrayValue? then v.elements[i] else v.members[i].value
  }

  function WithChild(v: Value, i: nat, c: Value): (r: Value)
    requires HasChild(v, i)
    ensures HasChild(r, i) && Child(r, i) == c
    ensures forall j :: j != i ==> HasChild(r, j) == HasChild(v, j) && (HasChild(v, j) ==> Child(r, j) == Child(v, j))
  {
    if v.ArrayValue? then ArrayValue(v.elements[i := c])
    else ObjectValue(v.members[i := v.members[i].(value := c)])
  }

  /** The place of the first member of a name; the number of members when there is none. */
  function MemberAt(ms: seq<ValueMember>, name: Text): (i: nat)
    ensures i <= |ms| && (i < |ms| ==> ms[i].name == StringValue(name))
    ensures forall j :: 0 <= j < i ==> ms[j].name != StringValue(name)
  {
    if ms == [] || ms[0].name == StringValue(name) then 0 else 1 + MemberAt(ms[1..], name)
  }

  /** The value at the end of a path of places. */
  predicate HasPath(v: Value, path: seq<nat>)
    decreases |path|
  {
    path == [] || (HasChild(v, path[0]) && HasPath(Child(v, path[0]), path[1..]))
  }

  function AtPath(v: Value, path: seq<nat>): Value
    requires HasPath(v, path)
    decreases |path|
  {
    if path == [] then v else AtPath(Child(v, path[0]), path[1..])
  }

  function SetAt(v: Value, path: seq<nat>, c: Value): Value
    requires HasPath(v, path)
    decreases |path|
  {
    if path == [] then c else WithChild(v, path[0], SetAt(Child(v, path[0]), path[1..], c))
  }

  lemma {:induction false} SetAtReads(v: Value, path: seq<nat>, c: Value)
    requires HasPath(v, path)
    ensures HasPath(SetAt(v, path, c), path) && AtPath(SetAt(v, path, c), path) == c
    decreases |path|
  {
    if path != [] {
      SetAtReads(Child(v, path[0]), path[1..], c);
    }
  }

  // ---------------------------------------------------------------- lookup

  /** The place a token leads to, if it leads anywhere. */
  function Place(v: Value, t: Token): (r: Option<nat>)
    ensures r.Some? ==> HasChild(v, r.value)
  {
    match v
    case ObjectValue(ms) => if MemberAt(ms, t.name) < |ms| then Some(MemberAt(ms, t.name)) else None
    case ArrayValue(es) => if t.index.Some? && t.index.value < |es| then t.index else None
    case _ => None
  }

  /** What a lookup finds: the path, or the number of the first token that leads nowhere. */
  datatype Lookup = Found(path: seq<nat>) | Unresolved(token: nat)

  function Get(v: Value, ts: seq<Token>): (r: Lookup)
    ensures r.Found? ==> HasPath(v, r.path) && |r.path| == |ts|
    ensures r.Unresolved? ==> r.token < |ts|
    decreases |ts|
  {
    if ts == [] then Found([])
    else
      var p := Place(v, ts[0]);
      if p.None? then Unresolved(0)
      else
        match Get(Child(v, p.value), ts[1..])
        case Found(path) => Found([p.value] + path)
        case Unresolved(k) => Unresolved(k + 1)
  }

  // ---------------------------------------------------------------- creation

  /** One token's step of a creation: the value with the child made, its place, and whether it was there before. */
  datatype Made = Made(value: Value, place: nat, exist: bool)

  /** An array with nulls appended until it holds a place. */
  function Padded(es: seq<Value>, i: nat): (r: seq<Value>)
    ensures i < |r| && |r| >= |es| && r[..|es|] == es
    ensures i < |es| ==> r == es
    ensures i >= |es| ==> r[i] == NullValue
    decreases i + 1 - |es|
  {
    if i < |es| then es else Padded(es + [NullValue], i)
  }

  /** The kind of value a token needs where it is neither an array nor an object; a name makes an array an object. */
  function Reshaped(v: Value, t: Token): Value {
    if v.ObjectValue? then v
    else if t.index.None? then ObjectValue([])
    else if v.ArrayValue? then v
    else ArrayValue([])
  }

  predicate Appends(v: Value, t: Token) {
    v.ArrayValue? && t.name == DASH
  }

  function Make(v: Value, t: Token): (r: Made)
    ensures HasChild(r.value, r.place)
    ensures !r.exist ==> Child(r.value, r.place) == NullValue
  {
    if Appends(v, t) then Made(ArrayValue(v.elements + [NullValue]), |v.elements|, false)
    else
      var u := Reshaped(v, t);
      match u
      case ArrayValue(es) => Made(ArrayValue(Padded(es, t.index.value)), t.index.value, t.index.value < |es|)
      case ObjectValue(ms) =>
        var i := MemberAt(ms, t.name);
        if i < |ms| then Made(u, i, true) else Made(ObjectValue(ms + [ValueMember(StringValue(t.name), NullValue)]), i, false)
  }

  /** A whole creation: the new tree, the path of the value, and whether it was there before. */
  datatype Created = Created(value: Value, path: seq<nat>, exist: bool)

  function Create(v: Value, ts: seq<Token>): (r: Created)
    ensures HasPath(r.value, r.path) && |r.path| == |ts|
    decreases |ts|
  {
    if ts == [] then Created(v, [], true)
    else
      var m := Make(v, ts[0]);
      var below := Create(Child(m.value, m.place), ts[1..]);
      Created(WithChild(m.value, m.place, below.value), [m.place] + below.path, m.exist && below.exist)
  }

  /** Setting is creating, then assigning. */
  function Set(v: Value, ts: seq<Token>, c: Value): Value {
    SetAt(Create(v, ts).value, Create(v, ts).path, c)
  }

  /** Some token of a creation appends to an array. */
  predicate AppendsSomewhere(v: Value, ts: seq<Token>)
    decreases |ts|
  {
    ts != [] && (Appends(v, ts[0]) || AppendsSomewhere(Child(Make(v, ts[0]).value, Make(v, ts[0]).place), ts[1..]))
  }

  /** Tokens as the parser makes them: a dash is no index. */
  predicate Sensible(ts: seq<Token>) {
    forall i :: 0 <= i < |ts| ==> ts[i].name == DASH ==> ts[i].index.None?
  }

  /** The tokens of some parsed names. */
  function TokensOf(names: seq<Text>): (ts: seq<Token>)
    ensures |ts| == |names|
    ensures forall i :: 0 <= i < |ts| ==> ts[i] == TokenOf(names[i])
  {
    if names == [] then [] else [TokenOf(names[0])] + TokensOf(names[1..])
  }

  function TokenOf(name: Text): Token {
    var index := PointerParser.IndexOf(name);
    Token(name, if index == PointerParser.INVALID_INDEX then None else Some(index))
  }

  /** Parsed tokens are sensible: a dash is no number. */
  lemma {:induction false} ParsedAreSensible(names: seq<Text>)
    ensures Sensible(TokensOf(names))
  {
    forall i | 0 <= i < |names| && names[i] == DASH ensures TokenOf(names[i]).index.None? {
      assert !IsDigit(names[i][0]);
    }
  }

  // ---------------------------------------------------------------- creation against lookup

  lemma {:induction false} WithSameChild(v: Value, i: nat)
    requires HasChild(v, i)
    ensures WithChild(v, i, Child(v, i)) == v
  {
    if v.ArrayValue? {
      assert v.elements[i := v.elements[i]] == v.elements;
    } else {
      assert v.members[i := v.members[i].(value := v.members[i].value)] == v.members;
    }
  }

  /** A step finds what lookup finds, and then changes nothing; else it makes a null. */
  lemma {:induction false} MakeAgainstPlace(v: Value, t: Token)
    requires t.name == DASH ==> t.index.None?
    ensures Make(v, t).exist <==> Place(v, t).Some?
    ensures Make(v, t).exist ==> Make(v, t).value == v && Make(v, t).place == Place(v, t).value
  {
  }

  /** A created value was there before exactly when lookup finds it; then it is the one found and the tree is as it was. */
  lemma {:induction false} CreateAgainstGet(v: Value, ts: seq<Token>)
    requires Sensible(ts)
    ensures Create(v, ts).exist <==> Get(v, ts).Found?
    ensures Create(v, ts).exist ==> Create(v, ts).value == v && Create(v, ts).path == Get(v, ts).path
    decreases |ts|
  {
    if ts != [] {
      var m := Make(v, ts[0]);
      MakeAgainstPlace(v, ts[0]);
      CreateAgainstGet(Child(m.value, m.place), ts[1..]);
      if m.exist {
        WithSameChild(v, m.place);
      }
    }
  }

  /** A value that was not there is created as a null. */
  lemma {:induction false} CreatedIsNull(v: Value, ts: seq<Token>)
    ensures !Create(v, ts).exist ==> AtPath(Create(v, ts).value, Create(v, ts).path) == NullValue
    decreases |ts|
  {
    if ts != [] {
      var m := Make(v, ts[0]);
      var child := Child(m.value, m.place);
      CreatedIsNull(child, ts[1..]);
      if !m.exist && ts[1..] != [] {
        FreshBelowNull(ts[1..]);
      }
    }
  }

  /** Nothing is there before below a null. */
  lemma {:induction false} FreshBelowNull(ts: seq<Token>)
    requires ts != []
    ensures !Create(NullValue, ts).exist
  {
  }

  /** Places in the old kind of value and in the new: a step's child is found again, unless it was appended by a dash. */
  lemma {:induction false} MadeIsFound(v: Value, t: Token, c: Value)
    requires t.name == DASH ==> t.index.None?
    ensures var m := Make(v, t);
            Place(WithChild(m.value, m.place, c), t) == if Appends(v, t) then None else Some(m.place)
  {
    var m := Make(v, t);
    if !Appends(v, t) && Reshaped(v, t).ObjectValue? {
      var ms := Reshaped(v, t).members;
      MemberFound(ms, t.name, m.value.members[m.place := m.value.members[m.place].(value := c)]);
    }
  }

  lemma {:induction false} MemberFound(ms: seq<ValueMember>, name: Text, after: seq<ValueMember>)
    requires |after| > MemberAt(ms, name) && after[MemberAt(ms, name)].name == StringValue(name)
    requires forall j :: 0 <= j < MemberAt(ms, name) ==> after[j].name == ms[j].name
    ensures MemberAt(after, name) == MemberAt(ms, name)
  {
    MemberFirst(after, name, MemberAt(ms, name));
  }

  /**
   * After a creation, and after an assignment to the value it made, lookup finds exactly that place; unless a dash was
   * applied to an array, which lookup never resolves.
   */
  lemma {:induction false} FoundAgain(v: Value, ts: seq<Token>, c: Value)
    requires Sensible(ts)
    ensures var after := SetAt(Create(v, ts).value, Create(v, ts).path, c);
            && (Get(after, ts).Found? <==> !AppendsSomewhere(v, ts))
            && (Get(after, ts).Found? ==> Get(after, ts).path == Create(v, ts).path && AtPath(after, Get(after, ts).path) == c)
    decreases |ts|
  {
    var made := Create(v, ts);
    SetAtReads(made.value, made.path, c);
    if ts != [] {
      var m := Make(v, ts[0]);
      var below := Create(Child(m.value, m.place), ts[1..]);
      assert made.path[1..] == below.path && made.path[0] == m.place;
      var after := SetAt(below.value, below.path, c);
      FoundAgain(Child(m.value, m.place), ts[1..], c);
      MadeIsFound(v, ts[0], after);
      WithChildTwice(m.value, m.place, below.value, after);
    }
  }

  lemma {:induction false} WithChildTwice(v: Value, i: nat, c: Value, d: Value)
    requires HasChild(v, i)
    ensures WithChild(WithChild(v, i, c), i, d) == WithChild(v, i, d)
  {
    if v.ArrayValue? {
      assert v.elements[i := c][i := d] == v.elements[i := d];
    } else {
      var m := v.members[i];
      assert v.members[i := m.(value := c)][i := m.(value := c).(value := d)] == v.members[i := m.(value := d)];
    }
  }

  /** What is set is what lookup then finds. */
  lemma {:induction false} SetThenGet(v: Value, ts: seq<Token>, c: Value)
    requires Sensible(ts)
    ensures Get(Set(v, ts, c), ts).Found? <==> !AppendsSomewhere(v, ts)
    ensures Get(Set(v, ts, c), ts).Found? ==> AtPath(Set(v, ts, c), Get(Set(v, ts, c), ts).path) == c
  {
    FoundAgain(v, ts, c);
  }

  lemma {:induction false} SetSame(v: Value, path: seq<nat>)
    requires HasPath(v, path)
    ensures SetAt(v, path, AtPath(v, path)) == v
    decreases |path|
  {
    if path != [] {
      SetSame(Child(v, path[0]), path[1..]);
      WithSameChild(v, path[0]);
    }
  }

  /** A created value is found again, as a null if it was not there before. */
  lemma {:induction false} CreateThenGet(v: Value, ts: seq<Token>)
    requires Sensible(ts)
    ensures var made := Create(v, ts);
            && (Get(made.value, ts).Found? <==> !AppendsSomewhere(v, ts))
            && (Get(made.value, ts).Found? ==> Get(made.value, ts).path == made.path)
            && (!made.exist ==> AtPath(made.value, made.path) == NullValue)
  {
    var made := Create(v, ts);
    FoundAgain(v, ts, AtPath(made.value, made.path));
    SetSame(made.value, made.path);
    CreatedIsNull(v, ts);
  }

  // ---------------------------------------------------------------- the loops

  /** The walk down a tree: each value on the way, and the place of the next in it. */
  datatype Frame = Frame(value: Value, place: nat)

  /** The frames fit together. */
  ghost predicate FramesFit(frames: seq<Frame>) {
    forall k :: 0 <= k < |frames| ==> HasChild(frames[k].value, frames[k].place)
  }

  /** The whole tree, with `v` at the end of the walk. */
  function Plug(frames: seq<Frame>, v: Value): Value
    requires FramesFit(frames)
    decreases |frames|
  {
    if frames == [] then v
    else
      var last := frames[|frames| - 1];
      Plug(frames[..|frames| - 1], WithChild(last.value, last.place, v))
  }

  function Places(frames: seq<Frame>): (r: seq<nat>)
    ensures |r| == |frames|
  {
    seq(|frames|, k requires 0 <= k < |frames| => frames[k].place)
  }

  /** The place of a member, by search. */
  method FindMember(ms: seq<ValueMember>, name: Text) returns (i: nat)
    ensures i == MemberAt(ms, name)
  {
    i := 0;
    while i < |ms| && ms[i].name != StringValue(name)
      invariant i <= |ms| && forall j :: 0 <= j < i ==> ms[j].name != StringValue(name)
    {
      i := i + 1;
    }
    MemberFirst(ms, name, i);
  }

  lemma {:induction false} MemberFirst(ms: seq<ValueMember>, name: Text, i: nat)
    requires i <= |ms| && (i < |ms| ==> ms[i].name == StringValue(name))
    requires forall j :: 0 <= j < i ==> ms[j].name != StringValue(name)
    ensures MemberAt(ms, name) == i
  {
  }

  /** A lookup that has come `places` far. */
  ghost function Onward(places: seq<nat>, r: Lookup): Lookup {
    match r
    case Found(path) => Found(places + path)
    case Unresolved(k) => Unresolved(|places| + k)
  }

  lemma {:induction false} OneFurther(root: Value, v: Value, places: seq<nat>, p: nat, t: Token, rest: seq<Token>)
    requires HasPath(root, places) && AtPath(root, places) == v && Place(v, t) == Some(p)
    ensures HasPath(root, places + [p]) && AtPath(root, places + [p]) == Child(v, p)
    ensures Onward(places, Get(v, [t] + rest)) == Onward(places + [p], Get(Child(v, p), rest))
  {
    PathMore(root, places, p);
    assert ([t] + rest)[1..] == rest;
    if Get(Child(v, p), rest).Found? {
      Concat3(places, [p], Get(Child(v, p), rest).path);
    }
  }

  lemma {:induction false} PathMore(root: Value, places: seq<nat>, p: nat)
    requires HasPath(root, places) && HasChild(AtPath(root, places), p)
    ensures HasPath(root, places + [p]) && AtPath(root, places + [p]) == Child(AtPath(root, places), p)
    decreases |places|
  {
    if places == [] {
      assert [p][1..] == [];
    } else {
      assert (places + [p])[1..] == places[1..] + [p];
      PathMore(Child(root, places[0]), places[1..], p);
    }
  }

  /** The place a token leads to from a value. */
  method FindPlace(v: Value, t: Token) returns (place: Option<nat>)
    ensures place == Place(v, t)
  {
    place := None;
    match v
    case ObjectValue(ms) =>
      var j := FindMember(ms, t.name);
      if j < |ms| {
        place := Some(j);
      }
    case ArrayValue(es) =>
      if t.index.Some? && t.index.value < |es| {
        place := t.index;
      }
    case _ =>
  }

  /** Lookup, token by token. */
  method GetValue(root: Value, ts: seq<Token>) returns (value: Option<Value>, unresolved: nat)
    ensures match Get(root, ts)
            case Found(path) => value == Some(AtPath(root, path))
            case Unresolved(k) => value == None && unresolved == k
  {
    var v := root;
    ghost var places: seq<nat> := [];
    assert ts[0..] == ts;
    for i := 0 to |ts|
      invariant |places| == i && HasPath(root, places) && AtPath(root, places) == v
      invariant Get(root, ts) == Onward(places, Get(v, ts[i..]))
    {
      assert ts[i..] == [ts[i]] + ts[i + 1..];
      var place := FindPlace(v, ts[i]);
      if place.None? {
        return None, i;
      }
      OneFurther(root, v, places, place.value, ts[i], ts[i + 1..]);
      v := Child(v, place.value);
      places := places + [place.value];
    }
    assert ts[|ts|..] == [] && places + [] == places;
    return Some(v), 0;
  }

  /** One token of a creation. */
  method MakeChild(v: Value, t: Token) returns (m: Made)
    ensures m == Make(v, t)
  {
    if v.ArrayValue? && t.name == DASH {
      return Made(ArrayValue(v.elements + [NullValue]), |v.elements|, false);
    }
    var u := v;
    if t.index.None? {
      if !u.ObjectValue? {
        u := ObjectValue([]);
      }
    } else {
      if !u.ArrayValue? && !u.ObjectValue? {
        u := ArrayValue([]);
      }
    }
    if u.ArrayValue? {
      var es, exist := u.elements, true;
      if t.index.value >= |es| {
        while t.index.value >= |es|
          invariant Padded(es, t.index.value) == Padded(u.elements, t.index.value)
          decreases t.index.value + 1 - |es|
        {
          es := es + [NullValue];
        }
        exist := false;
      }
      return Made(ArrayValue(es), t.index.value, exist);
    }
    var i := FindMember(u.members, t.name);
    if i == |u.members| {
      return Made(ObjectValue(u.members + [ValueMember(StringValue(t.name), NullValue)]), i, false);
    }
    return Made(u, i, true);
  }

  /** Creation, token by token, down the tree. */
  method CreateValue(root: Value, ts: seq<Token>) returns (tree: Value, path: seq<nat>, exist: bool)
    ensures Created(tree, path, exist) == Create(root, ts)
  {
    var v, frames: seq<Frame> := root, [];
    exist := true;
    assert ts[0..] == ts;
    for i := 0 to |ts|
      invariant FramesFit(frames)
      invariant var below, all := Create(v, ts[i..]), Create(root, ts);
                Plug(frames, below.value) == all.value && Places(frames) + below.path == all.path && (exist && below.exist) == all.exist
    {
      var rest := ts[i..];
      assert rest[0] == ts[i] && rest[1..] == ts[i + 1..];
      var m := MakeChild(v, ts[i]);
      ghost var below := Create(Child(m.value, m.place), rest[1..]);
      FrameMore(frames, Frame(m.value, m.place), below);
      frames := frames + [Frame(m.value, m.place)];
      exist := exist && m.exist;
      v := Child(m.value, m.place);
    }
    assert ts[|ts|..] == [];
    path := Places(frames);
    tree := v;
    while frames != []
      invariant FramesFit(frames) && Plug(frames, tree) == Create(root, ts).value
      decreases |frames|
    {
      var last := frames[|frames| - 1];
      tree := WithChild(last.value, last.place, tree);
      frames := frames[..|frames| - 1];
    }
  }

  lemma {:induction false} FrameMore(frames: seq<Frame>, f: Frame, below: Created)
    requires FramesFit(frames) && HasChild(f.value, f.place)
    ensures FramesFit(frames + [f]) && Plug(frames + [f], below.value) == Plug(frames, WithChild(f.value, f.place, below.value))
    ensures Places(frames + [f]) + below.path == Places(frames) + ([f.place] + below.path)
  {
    assert (frames + [f])[..|frames|] == frames;
    assert Places(frames + [f]) == Places(frames) + [f.place];
  }
}
