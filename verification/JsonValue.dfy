/** JSON trees and the event sequences that announce them: the balanced sequences with correct counts. */
module JsonValue {
  import opened Bytes
  import opened JsonLexer

  datatype Tree =
    | Leaf(event: Event)
    | Arr(elements: seq<Tree>)
    | Obj(members: seq<Member>)

  datatype Member = Member(name: Text, value: Tree)

  /** Leaves carry scalar events. */
  predicate WellFormed(t: Tree) {
    match t
    case Leaf(e) => ScalarEvent(e)
    case Arr(ts) => AllWellFormed(ts)
    case Obj(ms) => MembersWellFormed(ms)
  }

  predicate AllWellFormed(ts: seq<Tree>) {
    ts == [] || (WellFormed(ts[0]) && AllWellFormed(ts[1..]))
  }

  predicate MembersWellFormed(ms: seq<Member>) {
    ms == [] || (WellFormed(ms[0].value) && MembersWellFormed(ms[1..]))
  }

  /** The events that announce a tree. */
  function Events(t: Tree): (r: seq<Event>)
    ensures |r| >= 1
  {
    match t
    case Leaf(e) => [e]
    case Arr(ts) => [StartArray] + ElementEvents(ts) + [EndArray(|ts|)]
    case Obj(ms) => [StartObject] + MemberEvents(ms) + [EndObject(|ms|)]
  }

  function ElementEvents(ts: seq<Tree>): seq<Event> {
    if ts == [] then [] else Events(ts[0]) + ElementEvents(ts[1..])
  }

  function MemberEvents(ms: seq<Member>): seq<Event> {
    if ms == [] then [] else [Key(ms[0].name)] + Events(ms[0].value) + MemberEvents(ms[1..])
  }

  /** The number an integer event carries. */
  function NumberOf(e: Event): Option<int> {
    match e
    case Int(i) => Some(i)
    case Uint(u) => Some(u)
    case Int64(i) => Some(i)
    case Uint64(u) => Some(u)
    case _ => None
  }

  /** Equal events, integers compared by value. */
  predicate SameEvent(a: Event, b: Event) {
    if NumberOf(a).Some? then NumberOf(a) == NumberOf(b) else a == b
  }

  predicate SameEvents(a: seq<Event>, b: seq<Event>) {
    |a| == |b| && forall i :: 0 <= i < |a| ==> SameEvent(a[i], b[i])
  }
}
