/** What the receiver makes of headers without a value, and of a url. */
module HttpReceiver {
  import opened Bytes
  import opened HttpMachine
  import opened HttpMessage

  type Header = (Text, Text)

  /** The headers that have a value. */
  function Valued(hs: seq<Header>): seq<Header> {
    if hs == [] then []
    else Valued(hs[..|hs| - 1]) + (if hs[|hs| - 1].1 != [] then [hs[|hs| - 1]] else [])
  }

  /** All headers that have a value are gathered, and the last one whether it has or not. */
  function Gathered(hs: seq<Header>): seq<Header> {
    if hs == [] then [] else Valued(hs[..|hs| - 1]) + [hs[|hs| - 1]]
  }

  lemma {:induction false} GatheredMore(hs: seq<Header>, h: Header)
    requires hs != []
    ensures Valued(hs) == Valued(hs[..|hs| - 1]) + (if hs[|hs| - 1].1 != [] then [hs[|hs| - 1]] else [])
    ensures Gathered(hs + [h]) == Valued(hs) + [h]
  {
    assert (hs + [h])[..|hs|] == hs;
  }

  /** The state behind some headers: the last one is still being received. */
  lemma {:induction false} HeadersTold(m: Message, hs: seq<Header>)
    requires m.name == m.value == [] && m.headers == [] && !m.inName && hs != []
    requires forall i :: 0 <= i < |hs| ==> hs[i].0 != []
    ensures Told(m, HeaderEvents(hs)) == m.(headers := Valued(hs[..|hs| - 1]), name := hs[|hs| - 1].0, value := hs[|hs| - 1].1)
    decreases |hs|
  {
    var front, h := hs[..|hs| - 1], hs[|hs| - 1];
    ToldConcat(m, HeaderEvents(front), [Data(FieldName, h.0), Data(FieldValue, h.1)]);
    ToldTwo(Told(m, HeaderEvents(front)), Data(FieldName, h.0), Data(FieldValue, h.1));
    if front != [] {
      HeadersTold(m, front);
      var last := front[|front| - 1];
      assert last == (last.0, last.1);
      assert Valued(front[..|front| - 1]) + [] == Valued(front[..|front| - 1]);
    }
  }

  /**
   * From the callbacks of any request: its url up to the first question mark, its body, and of its headers those that
   * have a value, and the last one.
   */
  lemma {:induction false} AnyRequestTold(m: Message, url: Text, hs: seq<Header>, body: Text)
    requires forall i :: 0 <= i < |hs| ==> hs[i].0 != []
    ensures var r := Told(m, RequestEvents(url, hs, body));
            && r.complete && r.rawUrl == url && r.headers == Gathered(hs) && r.body == body
            && r.url <= url && '?' !in r.url && (r.url == url || url[|r.url|] == '?')
  {
    var start, mid, tail := [MessageBegin, Data(Url, url)], HeaderEvents(hs), if body == [] then [] else [Data(Body, body)];
    var m1 := Told(m, start);
    ToldTwo(m, MessageBegin, Data(Url, url));
    assert [] + url == url;
    var m3 := On(Told(m1, mid), HeadersComplete);
    HeadersEnd(m1, hs);
    ToldConcat(m, start, mid);
    ToldConcat(m, start + mid, [HeadersComplete]);
    ToldOne(Told(m1, mid), HeadersComplete);
    ToldConcat(m, start + mid + [HeadersComplete], tail);
    if body != [] {
      ToldOne(m3, Data(Body, body));
      assert [] + body == body;
    }
    ToldConcat(m, start + mid + [HeadersComplete] + tail, [MessageComplete]);
    ToldOne(Told(m3, tail), MessageComplete);
  }

  lemma {:induction false} HeadersEnd(m: Message, hs: seq<Header>)
    requires m.name == m.value == [] && m.headers == [] && !m.inName && forall i :: 0 <= i < |hs| ==> hs[i].0 != []
    ensures On(Told(m, HeaderEvents(hs)), HeadersComplete) == m.(headers := Gathered(hs))
  {
    if hs != [] {
      HeadersTold(m, hs);
      assert hs[|hs| - 1] == (hs[|hs| - 1].0, hs[|hs| - 1].1);
    }
  }
}
