/** The message the parser's callbacks put together. */
module HttpMessage {
  import opened Bytes
  import opened HttpMachine
  import opened HttpLog

  /** The texts gathered so far; `inName` while a header's name is being received. */
  datatype Message = Message(
    rawUrl: Text, url: Text, inName: bool, name: Text, value: Text, headers: seq<(Text, Text)>, body: Text, complete: bool)
  {
    /** A finished header is kept; moving it out leaves empty strings behind. */
    function Kept(): Message {
      this.(headers := headers + [(name, value)], name := [], value := [])
    }
  }

  const EMPTY_MESSAGE := Message([], [], false, [], [], [], [], false)

  /** The part of a url before its query. */
  function BeforeQuery(url: Text): (r: Text)
    ensures r <= url && '?' !in r && (r == url || url[|r|] == '?')
  {
    if url == [] || url[0] == '?' then []
    else
      assert url == [url[0]] + url[1..];
      [url[0]] + BeforeQuery(url[1..])
  }

  /** What one callback does to the message. */
  function On(m: Message, e: Event): Message {
    match e
    case MessageBegin => EMPTY_MESSAGE
    case Data(Url, d) => m.(rawUrl := m.rawUrl + d)
    case Data(FieldName, d) =>
      if m.inName then m.(name := m.name + d)
      else (if m.value != [] then m.Kept() else m).(name := d, inName := true)
    case Data(FieldValue, d) => if m.inName then m.(value := d, inName := false) else m.(value := m.value + d)
    case Data(Body, d) => m.(body := m.body + d)
    case HeadersComplete => if m.name != [] then m.Kept() else m
    case MessageComplete => m.(url := BeforeQuery(m.rawUrl), complete := true)
  }

  /** What a log of callbacks leaves. */
  function Told(m: Message, log: seq<Event>): Message
    decreases |log|
  {
    if log == [] then m else On(Told(m, log[..|log| - 1]), log[|log| - 1])
  }

  /** A text may arrive in any pieces. */
  lemma {:induction false} OnPieces(m: Message, k: Kind, x: Text, y: Text)
    ensures On(On(m, Data(k, x)), Data(k, y)) == On(m, Data(k, x + y))
  {
    match k
    case Url => Concat3(m.rawUrl, x, y);
    case FieldName => Concat3(m.name, x, y);
    case FieldValue => Concat3(m.value, x, y);
    case Body => Concat3(m.body, x, y);
  }

  /** The message does not depend on how the texts were cut: joining the callbacks changes nothing. */
  lemma {:induction false} ToldJoined(m: Message, log: seq<Event>, e: Event)
    ensures Told(m, Emit(log, e)) == On(Told(m, log), e)
  {
    if EndsIn(log, e) {
      var front, last := log[..|log| - 1], log[|log| - 1];
      assert Emit(log, e)[..|log| - 1] == front;
      OnPieces(Told(m, front), e.kind, last.bytes, e.bytes);
    } else {
      assert (log + [e])[..|log|] == log;
    }
  }

  /** The object whose members the callbacks fill in. */
  class Receiver {
    var rawUrl: Text
    var url: Text
    var inName: bool
    var name: Text
    var value: Text
    var headers: seq<(Text, Text)>
    var body: Text
    var complete: bool

    function Now(): Message
      reads this
    {
      Message(rawUrl, url, inName, name, value, headers, body, complete)
    }

    constructor ()
      ensures Now() == EMPTY_MESSAGE
    {
      rawUrl, url, inName, name, value, headers, body, complete := [], [], false, [], [], [], [], false;
    }

    method Keep()
      modifies `headers, `name, `value
      ensures Now() == old(Now()).Kept()
    {
      headers := headers + [(name, value)];
      name, value := [], [];
    }

    method OnFieldName(d: Text)
      modifies this
      ensures Now() == On(old(Now()), Data(FieldName, d))
    {
      if inName {
        name := name + d;
        return;
      }
      if value != [] {
        Keep();
      }
      name, inName := d, true;
    }

    method OnFieldValue(d: Text)
      modifies this
      ensures Now() == On(old(Now()), Data(FieldValue, d))
    {
      if inName {
        inName, value := false, d;
      } else {
        value := value + d;
      }
    }

    /** One callback. */
    method Call(e: Event)
      modifies this
      ensures Now() == On(old(Now()), e)
    {
      match e
      case MessageBegin =>
        rawUrl, url, inName, name, value, headers, body, complete := [], [], false, [], [], [], [], false;
      case Data(Url, d) => rawUrl := rawUrl + d;
      case Data(FieldName, d) => OnFieldName(d);
      case Data(FieldValue, d) => OnFieldValue(d);
      case Data(Body, d) => body := body + d;
      case HeadersComplete =>
        if name != [] {
          Keep();
        }
      case MessageComplete => url, complete := BeforeQuery(rawUrl), true;
    }

    /** A run of callbacks, piece by piece, leaves what the joined log of it tells. */
    method CallAll(es: seq<Event>)
      modifies this
      ensures Now() == Told(old(Now()), EmitAll([], es))
    {
      ghost var m := Now();
      for i := 0 to |es|
        invariant Now() == Told(m, EmitAll([], es[..i]))
      {
        Call(es[i]);
        assert es[..i + 1][..i] == es[..i];
        ToldJoined(m, EmitAll([], es[..i]), es[i]);
      }
      assert es[..|es|] == es;
    }
  }

  // ---------------------------------------------------------------- the log of a plain request

  /** The callbacks of some headers. */
  function HeaderEvents(hs: seq<(Text, Text)>): seq<Event> {
    if hs == [] then []
    else HeaderEvents(hs[..|hs| - 1]) + [Data(FieldName, hs[|hs| - 1].0), Data(FieldValue, hs[|hs| - 1].1)]
  }

  /** The callbacks of a whole request. */
  function RequestEvents(url: Text, hs: seq<(Text, Text)>, body: Text): seq<Event> {
    [MessageBegin, Data(Url, url)] + HeaderEvents(hs) + [HeadersComplete]
    + (if body == [] then [] else [Data(Body, body)]) + [MessageComplete]
  }

  lemma {:induction false} ToldConcat(m: Message, a: seq<Event>, b: seq<Event>)
    ensures Told(m, a + b) == Told(Told(m, a), b)
    decreases |b|
  {
    if b == [] {
      assert a + b == a;
    } else {
      var front := b[..|b| - 1];
      assert (a + b)[..|a + b| - 1] == a + front;
      ToldConcat(m, a, front);
    }
  }

  lemma {:induction false} ToldTwo(m: Message, e: Event, f: Event)
    ensures Told(m, [e, f]) == On(On(m, e), f)
  {
    assert [e, f][..1] == [e];
    assert [e][..0] == [];
    assert Told(m, []) == m;
  }

  lemma {:induction false} ToldOne(m: Message, e: Event)
    ensures Told(m, [e]) == On(m, e)
  {
    assert [e][..0] == [];
    assert Told(m, []) == m;
  }

  /** Headers with non-empty values are all kept but the last, which is still being received. */
  lemma {:induction false} ToldHeaders(m: Message, hs: seq<(Text, Text)>)
    requires m.name == m.value == [] && m.headers == [] && !m.inName
    requires forall i :: 0 <= i < |hs| ==> hs[i].0 != [] && hs[i].1 != []
    ensures var r := Told(m, HeaderEvents(hs));
            r == if hs == [] then m
                 else m.(headers := hs[..|hs| - 1], name := hs[|hs| - 1].0, value := hs[|hs| - 1].1)
    decreases |hs|
  {
    if hs != [] {
      var front, h := hs[..|hs| - 1], hs[|hs| - 1];
      ToldHeaders(m, front);
      ToldConcat(m, HeaderEvents(front), [Data(FieldName, h.0), Data(FieldValue, h.1)]);
      ToldTwo(Told(m, HeaderEvents(front)), Data(FieldName, h.0), Data(FieldValue, h.1));
      if front != [] {
        assert front == front[..|front| - 1] + [(front[|front| - 1].0, front[|front| - 1].1)];
      }
    }
  }

  /** From the callbacks of a request its url, headers and body are put together again. */
  lemma {:induction false} ToldRequest(m: Message, url: Text, hs: seq<(Text, Text)>, body: Text)
    requires forall i :: 0 <= i < |hs| ==> hs[i].0 != [] && hs[i].1 != []
    ensures var r := Told(m, RequestEvents(url, hs, body));
            r.complete && r.rawUrl == url && r.url == BeforeQuery(url) && r.headers == hs && r.body == body
  {
    var start, mid, tail := [MessageBegin, Data(Url, url)], HeaderEvents(hs), if body == [] then [] else [Data(Body, body)];
    var m1 := Told(m, start);
    ToldTwo(m, MessageBegin, Data(Url, url));
    assert [] + url == url;
    ToldHeaders(m1, hs);
    var m2 := Told(m1, mid);
    ToldConcat(m, start, mid);
    ToldConcat(m, start + mid, [HeadersComplete]);
    ToldOne(m2, HeadersComplete);
    if hs != [] {
      assert hs == hs[..|hs| - 1] + [(hs[|hs| - 1].0, hs[|hs| - 1].1)];
    }
    var m3 := On(m2, HeadersComplete);
    ToldConcat(m, start + mid + [HeadersComplete], tail);
    if body != [] {
      ToldOne(m3, Data(Body, body));
      assert [] + body == body;
    }
    ToldConcat(m, start + mid + [HeadersComplete] + tail, [MessageComplete]);
    ToldOne(Told(m3, tail), MessageComplete);
  }
}
