/** What a creation makes of each kind of value, and what it leaves alone. */
module PointerFrame {
  import opened Bytes
  import opened JsonDocument
  import opened PointerTree

  // ---------------------------------------------------------------- one token

  /** A dash puts a null behind the last element of an array. */
  lemma {:induction false} DashAppends(es: seq<Value>, t: Token)
    requires t.name == "-"
    ensures Make(ArrayValue(es), t) == Made(ArrayValue(es + [NullValue]), |es|, false)
  {
  }

  /** An index finds its element, or adds nulls up to it; the elements before stay. */
  lemma {:induction false} IndexPads(es: seq<Value>, name: Text, i: nat)
    requires name != "-"
    ensures var m := Make(ArrayValue(es), Token(name, Some(i)));
            && m.place == i && (m.exist <==> i < |es|) && m.value.ArrayValue?
            && m.value.elements == es + seq(if i < |es| then 0 else i + 1 - |es|, _ => NullValue)
  {
    PaddedIs(es, i);
  }

  lemma {:induction false} PaddedIs(es: seq<Value>, i: nat)
    ensures Padded(es, i) == es + seq(if i < |es| then 0 else i + 1 - |es|, _ => NullValue)
    decreases i + 1 - |es|
  {
    if i >= |es| {
      PaddedIs(es + [NullValue], i);
      var n := i + 1 - |es|;
      assert [NullValue] + seq(n - 1, _ => NullValue) == seq(n, _ => NullValue);
      Concat3(es, [NullValue], seq(n - 1, _ => NullValue));
    } else {
      assert es + seq(0, _ => NullValue) == es;
    }
  }

  /** A name, even one that is an index, finds its member in an object, or adds it behind the last, as a null. */
  lemma {:induction false} NameAdds(ms: seq<ValueMember>, t: Token)
    ensures var m := Make(ObjectValue(ms), t);
            if exists k :: 0 <= k < |ms| && ms[k].name == StringValue(t.name) then
              && m.exist && m.value == ObjectValue(ms) && m.place < |ms| && ms[m.place].name == StringValue(t.name)
              && forall k :: 0 <= k < m.place ==> ms[k].name != StringValue(t.name)
            else m == Made(ObjectValue(ms + [ValueMember(StringValue(t.name), NullValue)]), |ms|, false)
  {
    var i := MemberAt(ms, t.name);
    if k :| 0 <= k < |ms| && ms[k].name == StringValue(t.name) {
      assert i <= k;
    }
  }

  /** Any other value gives way: to an array of nulls for an index, to an object of one null for a name. */
  lemma {:induction false} OthersGiveWay(v: Value, t: Token)
    requires !v.ObjectValue? && !v.ArrayValue?
    ensures Make(v, t) == match t.index
                          case Some(i) => Made(ArrayValue(seq(i + 1, _ => NullValue)), i, false)
                          case None => Made(ObjectValue([ValueMember(StringValue(t.name), NullValue)]), 0, false)
  {
    match t.index
    case Some(i) =>
      PaddedIs([], i);
      assert [] + seq(i + 1, _ => NullValue) == seq(i + 1, _ => NullValue);
    case None => assert [] + [ValueMember(StringValue(t.name), NullValue)] == [ValueMember(StringValue(t.name), NullValue)];
  }

  /** An array, too, gives way to an object for a name that is neither an index nor a dash. */
  lemma {:induction false} ArraysGiveWay(es: seq<Value>, name: Text)
    requires name != "-"
    ensures Make(ArrayValue(es), Token(name, None)) == Made(ObjectValue([ValueMember(StringValue(name), NullValue)]), 0, false)
  {
    assert [] + [ValueMember(StringValue(name), NullValue)] == [ValueMember(StringValue(name), NullValue)];
  }

  // ---------------------------------------------------------------- the rest of the tree

  /** The value is kept by a step, but for the step's child. */
  predicate Keeps(v: Value, t: Token) {
    v.ObjectValue? || (v.ArrayValue? && (t.name == "-" || t.index.Some?))
  }

  /** The tokens `us`, which lead somewhere, leave the path of `ts` at a value that is kept there. */
  ghost predicate Leaves(v: Value, ts: seq<Token>, us: seq<Token>)
    decreases |us|
  {
    && ts != [] && us != [] && Place(v, us[0]).Some? && Keeps(v, ts[0])
    && var p := Place(v, us[0]).value;
       (Make(v, ts[0]).place == p ==> Make(v, ts[0]).exist && Leaves(Child(v, p), ts[1..], us[1..]))
  }

  /** A step keeps the children of a value that is kept, where they are. */
  lemma {:induction false} StepKeeps(v: Value, t: Token, p: nat, c: Value)
    requires Keeps(v, t) && HasChild(v, p)
    ensures var m := Make(v, t);
            var after := WithChild(m.value, m.place, c);
            HasChild(after, p) && Child(after, p) == if p == m.place then c else Child(v, p)
  {
    if v.ArrayValue? && t.name != "-" {
      PaddedIs(v.elements, t.index.value);
    }
  }

  /** A token finds the same place in a value that is kept, whatever became of the step's child. */
  lemma {:induction false} PlaceKept(v: Value, t: Token, u: Token, c: Value)
    requires Keeps(v, t) && Place(v, u).Some?
    ensures var m := Make(v, t);
            Place(WithChild(m.value, m.place, c), u) == Place(v, u)
  {
    var m := Make(v, t);
    var after := WithChild(m.value, m.place, c);
    if v.ArrayValue? {
      if t.name != "-" {
        PaddedIs(v.elements, t.index.value);
      }
    } else {
      var i := MemberAt(v.members, u.name);
      NameAdds(v.members, t);
      MemberFirst(after.members, u.name, i);
    }
  }

  /** Setting a value leaves alone whatever other tokens lead to: they lead there still, and to the same value. */
  lemma {:induction false} OthersStay(v: Value, ts: seq<Token>, us: seq<Token>, c: Value)
    requires Get(v, us).Found? && Leaves(v, ts, us)
    ensures var after := Set(v, ts, c);
            Get(after, us).Found? && Get(after, us).path == Get(v, us).path && AtPath(after, Get(v, us).path) == AtPath(v, Get(v, us).path)
    decreases |us|
  {
    var m, p := Make(v, ts[0]), Place(v, us[0]).value;
    var child := Child(m.value, m.place);
    var below := Create(child, ts[1..]);
    var inner := SetAt(below.value, below.path, c);
    SetIsStep(v, ts, c);
    PlaceKept(v, ts[0], us[0], inner);
    StepKeeps(v, ts[0], p, inner);
    if m.place == p {
      StepKeeps(v, ts[0], p, child);
      WithSameChild(m.value, m.place);
      OthersStay(Child(v, p), ts[1..], us[1..], c);
    }
  }

  /** Setting, one token at a time. */
  lemma {:induction false} SetIsStep(v: Value, ts: seq<Token>, c: Value)
    requires ts != []
    ensures var m := Make(v, ts[0]);
            Set(v, ts, c) == WithChild(m.value, m.place, Set(Child(m.value, m.place), ts[1..], c))
  {
    var m := Make(v, ts[0]);
    var below := Create(Child(m.value, m.place), ts[1..]);
    var made := Create(v, ts);
    assert made.path[1..] == below.path && made.path[0] == m.place;
    WithChildTwice(m.value, m.place, below.value, SetAt(below.value, below.path, c));
  }
}
