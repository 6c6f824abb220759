/** Every text the reader accepts announces exactly one tree, with correct counts. */
module JsonBalanced {
  import opened Bytes
  import opened JsonLexer
  import opened JsonGrammar
  import opened JsonValue

  lemma {:induction false} ValueAnnounces(s: Text, f: Settings, g: Progress) returns (t: Tree)
    requires g.At(s) && Value(s, f, g).Going?
    ensures WellFormed(t) && Value(s, f, g).out == g.out + Events(t)
    decreases |s| - g.pos, 0
  {
    if Peek(s, g.pos) == '[' {
      t := ArrayAnnounces(s, f, g);
    } else if Peek(s, g.pos) == '{' {
      t := ObjectAnnounces(s, f, g);
    } else {
      t := Leaf(Value(s, f, g).out[|g.out|]);
    }
  }

  lemma {:induction false} ArrayAnnounces(s: Text, f: Settings, g: Progress) returns (t: Tree)
    requires g.At(s) && Peek(s, g.pos) == '[' && Array(s, f, g).Going?
    ensures WellFormed(t) && Array(s, f, g).out == g.out + Events(t)
    decreases |s| - g.pos - 1, 3
  {
    var h := Space(s, f, g.Step(1).Emit(StartArray));
    assert Array(s, f, g) == ArrayFirst(s, f, h);
    if Peek(s, h.pos) == ']' {
      t := Arr([]);
      assert Events(t) == [StartArray] + [EndArray(0)];
    } else {
      assert ArrayFirst(s, f, h) == ArrayElements(s, f, 0, h);
      var ts := ElementsAnnounce(s, f, 0, h);
      t := Arr(ts);
      assert g.out + Events(t) == g.out + [StartArray] + ElementEvents(ts) + [EndArray(|ts|)];
    }
  }

  lemma {:induction false} ObjectAnnounces(s: Text, f: Settings, g: Progress) returns (t: Tree)
    requires g.At(s) && Peek(s, g.pos) == '{' && Object(s, f, g).Going?
    ensures WellFormed(t) && Object(s, f, g).out == g.out + Events(t)
    decreases |s| - g.pos - 1, 3
  {
    var h := Space(s, f, g.Step(1).Emit(StartObject));
    assert Object(s, f, g) == ObjectFirst(s, f, h);
    if Peek(s, h.pos) == '}' {
      t := Obj([]);
      assert Events(t) == [StartObject] + [EndObject(0)];
    } else {
      assert ObjectFirst(s, f, h) == ObjectMembers(s, f, 0, h);
      var ms := MembersAnnounce(s, f, 0, h);
      t := Obj(ms);
      assert g.out + Events(t) == g.out + [StartObject] + MemberEvents(ms) + [EndObject(|ms|)];
    }
  }

  /** Past an element the array either ends, with one more element counted, or has another one. */
  lemma {:induction false} AfterElement(s: Text, f: Settings, count: nat, g: Progress) returns (more: bool, at: Progress)
    requires g.At(s) && ArrayAfterElement(s, f, count, g).Going?
    ensures more ==> at.At(s) && g.pos < at.pos && at.out == g.out
                     && ArrayAfterElement(s, f, count, g) == ArrayElements(s, f, count + 1, at)
    ensures !more ==> ArrayAfterElement(s, f, count, g).out == g.out + [EndArray(count + 1)]
  {
    at := Space(s, f, g);
    more := false;
    if Peek(s, at.pos) == ',' {
      var k := Space(s, f, at.Step(1));
      assert ArraySeparator(s, f, count, at) == ArrayAfterComma(s, f, count + 1, k);
      more, at := !(f.trailingCommas && Peek(s, k.pos) == ']'), k;
    }
  }

  lemma {:induction false} ElementsAnnounce(s: Text, f: Settings, count: nat, g: Progress) returns (ts: seq<Tree>)
    requires g.At(s) && ArrayElements(s, f, count, g).Going?
    ensures AllWellFormed(ts)
    ensures ArrayElements(s, f, count, g).out == g.out + ElementEvents(ts) + [EndArray(count + |ts|)]
    decreases |s| - g.pos, 1
  {
    var v := Value(s, f, g);
    var t := ValueAnnounces(s, f, g);
    var more, at := AfterElement(s, f, count, v);
    var rest := [];
    if more {
      rest := ElementsAnnounce(s, f, count + 1, at);
    }
    ts := [t] + rest;
    FirstElement(t, rest, g.out);
  }

  lemma {:induction false} FirstElement(t: Tree, rest: seq<Tree>, before: seq<Event>)
    ensures before + ElementEvents([t] + rest) == before + Events(t) + ElementEvents(rest)
    ensures WellFormed(t) && AllWellFormed(rest) ==> AllWellFormed([t] + rest)
  {
    assert ([t] + rest)[1..] == rest;
  }

  lemma {:induction false} FirstMember(m: Member, rest: seq<Member>, before: seq<Event>)
    ensures before + MemberEvents([m] + rest) == before + [Key(m.name)] + Events(m.value) + MemberEvents(rest)
    ensures WellFormed(m.value) && MembersWellFormed(rest) ==> MembersWellFormed([m] + rest)
  {
    assert ([m] + rest)[1..] == rest;
  }

  /** The name and colon of a member, up to its value. */
  lemma {:induction false} NameAnnounces(s: Text, f: Settings, count: nat, g: Progress) returns (name: Text, at: Progress)
    requires g.At(s) && ObjectMembers(s, f, count, g).Going?
    ensures at.At(s) && g.pos < at.pos && at.out == g.out + [Key(name)]
    ensures ObjectMembers(s, f, count, g) == ObjectValue(s, f, count, at)
  {
    var k := Str(s, true, g);
    name := k.out[|g.out|].name;
    var c := Space(s, f, k);
    assert ObjectMembers(s, f, count, g) == ObjectColon(s, f, count, c);
    at := Space(s, f, c.Step(1));
  }

  /** Past a member the object either ends, with one more member counted, or has another one. */
  lemma {:induction false} AfterMember(s: Text, f: Settings, count: nat, g: Progress) returns (more: bool, at: Progress)
    requires g.At(s) && ObjectAfterValue(s, f, count, g).Going?
    ensures more ==> at.At(s) && g.pos < at.pos && at.out == g.out
                     && ObjectAfterValue(s, f, count, g) == ObjectMembers(s, f, count + 1, at)
    ensures !more ==> ObjectAfterValue(s, f, count, g).out == g.out + [EndObject(count + 1)]
  {
    at := Space(s, f, g);
    more := false;
    if Peek(s, at.pos) == ',' {
      var k := Space(s, f, at.Step(1));
      assert ObjectSeparator(s, f, count, at) == ObjectAfterComma(s, f, count + 1, k);
      more, at := !(f.trailingCommas && Peek(s, k.pos) == '}'), k;
    }
  }

  lemma {:induction false} MemberAnnounces(s: Text, f: Settings, count: nat, g: Progress) returns (m: Member, v: Progress)
    requires g.At(s) && ObjectMembers(s, f, count, g).Going?
    ensures v.At(s) && g.pos < v.pos && ObjectMembers(s, f, count, g) == ObjectAfterValue(s, f, count, v)
    ensures WellFormed(m.value) && v.out == g.out + [Key(m.name)] + Events(m.value)
    decreases |s| - g.pos, 1
  {
    var name, at := NameAnnounces(s, f, count, g);
    var t := ValueAnnounces(s, f, at);
    m, v := Member(name, t), Value(s, f, at);
  }

  lemma {:induction false} MembersAnnounce(s: Text, f: Settings, count: nat, g: Progress) returns (ms: seq<Member>)
    requires g.At(s) && ObjectMembers(s, f, count, g).Going?
    ensures MembersWellFormed(ms)
    ensures ObjectMembers(s, f, count, g).out == g.out + MemberEvents(ms) + [EndObject(count + |ms|)]
    decreases |s| - g.pos, 2
  {
    var m, v := MemberAnnounces(s, f, count, g);
    var more, next := AfterMember(s, f, count, v);
    var rest := [];
    if more {
      rest := MembersAnnounce(s, f, count + 1, next);
    }
    ms := [m] + rest;
    FirstMember(m, rest, g.out);
  }

  /** The events of an accepted text are those of one tree. */
  lemma {:induction false} AcceptedTextAnnouncesOneTree(s: Text, f: Settings) returns (t: Tree)
    requires Document(s, f).Going?
    ensures WellFormed(t) && Document(s, f).out == Events(t)
  {
    t := ValueAnnounces(s, f, Space(s, f, Going(0, [])));
  }
}
