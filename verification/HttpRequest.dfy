/** The benchmark's request: its fields, how many bytes it takes, and how it is printed into a buffer. */
module HttpRequest {
  import opened Bytes
  import opened ReadBuffer

  type Header = (Text, Text)

  const CRLF: Text := "\r\n"
  const BLANK: Text := " "
  const COLON: Text := ": "

  /** What `%s` prints of a string: its bytes before the first NUL. */
  function Printed(s: Text): (r: Text)
    ensures |r| <= |s| && (|r| == |s| <==> NUL !in s) && (NUL !in s ==> r == s)
  {
    if s == [] || s[0] == NUL then []
    else
      assert s == [s[0]] + s[1..];
      [s[0]] + Printed(s[1..])
  }

  function RequestLine(verb: Text, uri: Text, version: Text): Text {
    verb + BLANK + uri + BLANK + version + CRLF
  }

  function HeaderText(h: Header): Text {
    h.0 + COLON + h.1 + CRLF
  }

  function HeadersText(hs: seq<Header>): Text {
    if hs == [] then [] else HeadersText(hs[..|hs| - 1]) + HeaderText(hs[|hs| - 1])
  }

  /** A request as it goes over the wire. */
  function RequestText(verb: Text, uri: Text, version: Text, hs: seq<Header>, body: Text): Text {
    RequestLine(verb, uri, version) + HeadersText(hs) + CRLF + body
  }

  function PrintedHeader(h: Header): Header {
    (Printed(h.0), Printed(h.1))
  }

  function PrintedHeaders(hs: seq<Header>): seq<Header> {
    if hs == [] then [] else PrintedHeaders(hs[..|hs| - 1]) + [PrintedHeader(hs[|hs| - 1])]
  }

  predicate HeaderHasNul(h: Header) {
    NUL in h.0 || NUL in h.1
  }

  // ---------------------------------------------------------------- sizes

  function HeaderSize(key: Text, value: Text): nat {
    |key| + 2 + |value| + 2
  }

  /** The bytes of all headers, in no particular order. */
  ghost function HeadersSize(headers: map<Text, Text>): nat {
    if headers == map[] then 0
    else
      var k :| k in headers;
      HeaderSize(k, headers[k]) + HeadersSize(headers - {k})
  }

  /** Any header may be taken out of the sum. */
  lemma {:induction false} SizeWithout(headers: map<Text, Text>, k: Text)
    requires k in headers
    ensures HeadersSize(headers) == HeaderSize(k, headers[k]) + HeadersSize(headers - {k})
    decreases |headers|
  {
    var j :| j in headers && HeadersSize(headers) == HeaderSize(j, headers[j]) + HeadersSize(headers - {j});
    if j != k {
      SizeWithout(headers - {j}, k);
      SizeWithout(headers - {k}, j);
      assert headers - {j} - {k} == headers - {k} - {j};
    }
  }

  /** `order` runs through all headers once. */
  ghost predicate Lists(order: seq<Header>, headers: map<Text, Text>) {
    && |order| == |headers|
    && (forall i :: 0 <= i < |order| ==> order[i].0 in headers && headers[order[i].0] == order[i].1)
    && (forall i, j :: 0 <= i < j < |order| ==> order[i].0 != order[j].0)
  }

  /** No header holds a NUL. */
  predicate HeadersNulFree(headers: map<Text, Text>) {
    forall k :: k in headers ==> !HeaderHasNul((k, headers[k]))
  }

  lemma {:induction false} ListedNulFree(order: seq<Header>, headers: map<Text, Text>)
    requires Lists(order, headers)
    ensures HeadersNulFree(headers) <==> forall i :: 0 <= i < |order| ==> !HeaderHasNul(order[i])
  {
    ListsAll(order, headers);
    if forall i :: 0 <= i < |order| ==> !HeaderHasNul(order[i]) {
      forall k | k in headers ensures !HeaderHasNul((k, headers[k])) {
        assert (k, headers[k]) in order;
      }
    }
    if HeadersNulFree(headers) {
      forall i | 0 <= i < |order| ensures !HeaderHasNul(order[i]) {
        assert order[i] == (order[i].0, headers[order[i].0]);
      }
    }
  }

  /** As many different keys as there are, are all of them. */
  lemma {:induction false} ListsAll(order: seq<Header>, headers: map<Text, Text>)
    requires Lists(order, headers)
    ensures forall k :: k in headers ==> (k, headers[k]) in order
    decreases |order|
  {
    if order == [] {
      assert headers == map[];
    } else {
      var last := order[|order| - 1];
      var rest := headers - {last.0};
      assert |rest| == |headers| - 1;
      ListsAll(order[..|order| - 1], rest);
      forall k | k in headers ensures (k, headers[k]) in order {
        if k != last.0 {
          assert k in rest && (k, rest[k]) in order[..|order| - 1];
        }
      }
    }
  }

  /** The printed headers are no longer than counted, and as long exactly when none holds a NUL. */
  ghost predicate SizeFits(order: seq<Header>, size: nat) {
    && |HeadersText(PrintedHeaders(order))| <= size
    && (|HeadersText(PrintedHeaders(order))| == size <==> forall i :: 0 <= i < |order| ==> !HeaderHasNul(order[i]))
  }

  lemma {:induction false} SizeOneMore(order: seq<Header>, size: nat, h: Header)
    requires SizeFits(order, size)
    ensures SizeFits(order + [h], size + HeaderSize(h.0, h.1))
    ensures HeadersText(PrintedHeaders(order + [h])) == HeadersText(PrintedHeaders(order)) + HeaderText(PrintedHeader(h))
  {
    var more := order + [h];
    assert more[..|order|] == order && more[|order|] == h;
    var texts := PrintedHeaders(more);
    assert texts[..|texts| - 1] == PrintedHeaders(order);
    assert forall i :: 0 <= i < |more| ==> more[i] == if i < |order| then order[i] else h;
    if !HeaderHasNul(h) && forall i :: 0 <= i < |order| ==> !HeaderHasNul(order[i]) {
      assert forall i :: 0 <= i < |more| ==> !HeaderHasNul(more[i]);
    } else if i :| 0 <= i < |order| && HeaderHasNul(order[i]) {
      assert HeaderHasNul(more[i]);
    } else {
      assert HeaderHasNul(more[|order|]);
    }
  }

  class Request {
    var verb: Text
    var uri: Text
    var version: Text
    var headers: map<Text, Text>
    var body: Option<Text>

    constructor (verb: Text, uri: Text, version: Text)
      ensures this.verb == verb && this.uri == uri && this.version == version && headers == map[] && body == None
    {
      this.verb, this.uri, this.version, headers, body := verb, uri, version, map[], None;
    }

    method SetHeaderItem(key: Text, value: Text)
      modifies `headers
      ensures headers == old(headers)[key := value]
    {
      headers := headers[key := value];
    }

    method PutBody(b: Text)
      modifies `body
      ensures body == Some(b)
    {
      body := Some(b);
    }

    function BodyText(): Text
      reads this
    {
      if body.Some? then body.value else []
    }

    ghost function Size(): nat
      reads this
    {
      |RequestLine(verb, uri, version)| + HeadersSize(headers) + 2 + |BodyText()|
    }

    /** No string of the request holds a NUL; the body may. */
    predicate NulFree()
      reads this
    {
      NUL !in verb && NUL !in uri && NUL !in version && HeadersNulFree(headers)
    }

    method CalcRequestSize() returns (size: nat)
      ensures size == Size()
    {
      size := |verb| + 1 + |uri| + 1 + |version| + 2;
      var rest := headers;
      ghost var line := size;
      while rest != map[]
        invariant size + HeadersSize(rest) == line + HeadersSize(headers)
        decreases |rest|
      {
        var k :| k in rest;
        SizeWithout(rest, k);
        size := size + HeaderSize(k, rest[k]);
        rest := rest - {k};
      }
      size := size + 2 + |BodyText()|;
    }

    /** Prints the headers, in the order the table yields them; behind them there is room for more. */
    method DumpHeaders(buffer: ReadBufferAdapter) returns (inside: bool, ghost order: seq<Header>)
      requires buffer.Valid() && buffer.cursor + HeadersSize(headers) < buffer.data.Length
      modifies buffer`cursor, buffer.data
      ensures buffer.Valid() && Lists(order, headers) && SizeFits(order, HeadersSize(headers)) && inside
      ensures buffer.cursor == old(buffer.cursor) + |HeadersText(PrintedHeaders(order))|
      ensures buffer.data[..buffer.cursor] == old(buffer.data[..buffer.cursor]) + HeadersText(PrintedHeaders(order))
    {
      order := [];
      inside := true;
      var rest := headers;
      ghost var start, text := buffer.data[..buffer.cursor], HeadersText(PrintedHeaders(order));
      assert start + text == start;
      while rest != map[]
        invariant buffer.Valid() && Done(order, headers, rest) && inside
        invariant text == HeadersText(PrintedHeaders(order)) && HeadersSize(rest) <= HeadersSize(headers)
        invariant SizeFits(order, HeadersSize(headers) - HeadersSize(rest))
        invariant buffer.cursor == old(buffer.cursor) + |text|
        invariant buffer.data[..buffer.cursor] == start + text
        decreases |rest|
      {
        var k :| k in rest;
        ghost var h, line := (k, rest[k]), HeaderText(PrintedHeader((k, rest[k])));
        SizeWithout(rest, k);
        SizeOneMore(order, HeadersSize(headers) - HeadersSize(rest), h);
        DoneOneMore(order, headers, rest, k);
        var printed := buffer.Print(Printed(k) + COLON + Printed(rest[k]) + CRLF);
        inside := inside && printed;
        Concat3(start, text, line);
        order, text := order + [h], text + line;
        rest := rest - {k};
      }
    }

    /**
     * The printed request, at the start of a buffer of the calculated size. It fills the buffer exactly when none of
     * its strings holds a NUL, and then it is the request as it goes over the wire. Every byte written, terminators
     * included, lies in the buffer exactly when there is a body or some string holds a NUL: otherwise the last
     * terminator goes behind the buffer.
     */
    method Dump() returns (buffer: ReadBufferAdapter, inside: bool, ghost order: seq<Header>, ghost text: Text)
      ensures fresh(buffer) && fresh(buffer.data) && buffer.Valid() && buffer.cursor == 0
      ensures buffer.data.Length == Size() && Lists(order, headers)
      ensures text == RequestText(Printed(verb), Printed(uri), Printed(version), PrintedHeaders(order), BodyText())
      ensures |text| <= buffer.data.Length && buffer.data[..|text|] == text
      ensures |text| == buffer.data.Length <==> NulFree()
      ensures inside <==> BodyText() != [] || !NulFree()
    {
      var size := CalcRequestSize();
      buffer := new ReadBufferAdapter(size);
      assert buffer.data[..0] == [];
      var line := RequestLine(Printed(verb), Printed(uri), Printed(version));
      var lineInside := buffer.Print(line);
      assert [] + line == line;
      var headersInside, endInside;
      headersInside, order := DumpHeaders(buffer);
      endInside := buffer.Print(CRLF);
      inside := lineInside && headersInside && endInside;
      buffer.Put(BodyText());
      text := buffer.data[..buffer.cursor];
      ListedNulFree(order, headers);
      buffer.ResetCursor();
    }
  }

  lemma {:induction false} PlainStrings()
    ensures NUL !in "GET" && NUL !in "/" && NUL !in "HTTP/1.1"
    ensures |RequestText("GET", "/", "HTTP/1.1", [], [])| == 18 && PrintedHeaders([]) == []
  {
    assert |RequestLine("GET", "/", "HTTP/1.1")| == 16;
  }

  /** A request without a body: the buffer has the eighteen bytes calculated, and nineteen are written. */
  method PlainGetOverruns() returns (buffer: ReadBufferAdapter, inside: bool)
    ensures buffer.data.Length == 18 && !inside
    ensures buffer.data[..] == RequestText("GET", "/", "HTTP/1.1", [], [])
  {
    var request := new Request("GET", "/", "HTTP/1.1");
    PlainStrings();
    ghost var order, text;
    buffer, inside, order, text := request.Dump();
    assert order == [];
    assert buffer.data[..] == text;
  }

  /** A NUL in the url: three bytes are counted for it and one is printed, so the last byte of the buffer is never written. */
  method NulLeavesGap() returns (buffer: ReadBufferAdapter, inside: bool)
    ensures buffer.data.Length == 20 && inside
    ensures buffer.data[..18] == RequestText("GET", "/", "HTTP/1.1", [], [])
  {
    var uri := ['/', NUL, 'a'];
    var request := new Request("GET", uri, "HTTP/1.1");
    PlainStrings();
    NulCuts();
    ghost var order, text;
    buffer, inside, order, text := request.Dump();
    assert order == [] && |text| == 18;
  }

  lemma {:induction false} NulCuts()
    ensures Printed(['/', NUL, 'a']) == "/"
  {
    var uri: Text := ['/', NUL, 'a'];
    assert uri[1..][0] == NUL;
    assert Printed(uri) == [uri[0]] + Printed(uri[1..]);
  }

  /** The headers in `order` are all but the `rest`. */
  ghost predicate Done(order: seq<Header>, headers: map<Text, Text>, rest: map<Text, Text>) {
    && |order| + |rest| == |headers|
    && (forall k :: k in rest ==> k in headers && rest[k] == headers[k])
    && (forall i :: 0 <= i < |order| ==> order[i].0 in headers && headers[order[i].0] == order[i].1 && order[i].0 !in rest)
    && (forall i, j :: 0 <= i < j < |order| ==> order[i].0 != order[j].0)
  }

  lemma {:induction false} DoneOneMore(order: seq<Header>, headers: map<Text, Text>, rest: map<Text, Text>, k: Text)
    requires Done(order, headers, rest) && k in rest
    ensures Done(order + [(k, rest[k])], headers, rest - {k})
  {
    assert |rest - {k}| == |rest| - 1;
  }
}
