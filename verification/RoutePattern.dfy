/** Route patterns: what one names, what it matches in a request url, and the parameters it captures. */
module RoutePattern {
  import opened Bytes

  datatype Param = IntParam | UintParam | DoubleParam | StringParam | PathParam

  /** A pattern is a string of literal bytes and parameter tags. */
  datatype Token = Lit(c: Byte) | Tag(param: Param)

  /** The parameters captured so far, kind by kind. */
  datatype Params = Params(ints: seq<int>, uints: seq<nat>, doubles: seq<real>, strings: seq<Text>)
  {
    function Join(p: Params): Params {
      Params(ints + p.ints, uints + p.uints, doubles + p.doubles, strings + p.strings)
    }
  }

  const EMPTY := Params([], [], [], [])

  // ---------------------------------------------------------------- reading a pattern

  const TAGS: seq<(Param, Text)> := [
    (IntParam, "<int>"), (UintParam, "<uint>"), (DoubleParam, "<float>"), (DoubleParam, "<double>"),
    (StringParam, "<str>"), (StringParam, "<string>"), (PathParam, "<path>")]

  /** The first tag of the table, from entry `k` on, that stands at `p`. */
  function TagAt(s: Text, p: nat, k: nat): (r: Option<(Param, Text)>)
    requires k <= |TAGS|
    ensures r.Some? ==> |r.value.1| >= 1 && StandsAt(s, p, r.value.1)
    decreases |TAGS| - k
  {
    if k == |TAGS| then None
    else if StandsAt(s, p, TAGS[k].1) then Some(TAGS[k])
    else TagAt(s, p, k + 1)
  }

  /** The tokens of a pattern from `p` on; none when a `<` opens no known tag. */
  function TokensFrom(s: Text, p: nat): Option<seq<Token>>
    decreases |s| - p
  {
    if p >= |s| then Some([])
    else if s[p] != '<' then
      var rest := TokensFrom(s, p + 1);
      if rest.None? then None else Some([Lit(s[p])] + rest.value)
    else
      var tag := TagAt(s, p, 0);
      if tag.None? then None
      else
        var rest := TokensFrom(s, p + |tag.value.1|);
        if rest.None? then None else Some([Tag(tag.value.0)] + rest.value)
  }

  /** The tokens from a tag on, and from a literal byte on. */
  lemma {:induction false} NextToken(s: Text, p: nat, t: Token, next: nat)
    requires p < |s| && TokensFrom(s, p).Some?
    requires if s[p] == '<' then TagAt(s, p, 0).Some? && t == Tag(TagAt(s, p, 0).value.0) && next == p + |TagAt(s, p, 0).value.1|
             else t == Lit(s[p]) && next == p + 1
    ensures p < next <= |s| && TokensFrom(s, next).Some? && TokensFrom(s, p).value == [t] + TokensFrom(s, next).value
  {
  }

  // ---------------------------------------------------------------- matching

  /**
   * The number conversions of the C library, as functions of the text they are given: a value and how many bytes it took,
   * or nothing when no number is there or it is out of range.
   */
  datatype Numbers = Numbers(
    strtoll: Text -> Option<(int, nat)>, strtoull: Text -> Option<(nat, nat)>, strtod: Text -> Option<(real, nat)>)
  {
    /** A conversion that succeeds takes at least one byte and stays inside the text. */
    ghost predicate Valid() {
      && (forall t: Text :: strtoll(t).Some? ==> 1 <= strtoll(t).value.1 <= |t|)
      && (forall t: Text :: strtoull(t).Some? ==> 1 <= strtoull(t).value.1 <= |t|)
      && (forall t: Text :: strtod(t).Some? ==> 1 <= strtod(t).value.1 <= |t|)
    }
  }

  /** What a token takes from the url: the position after it and what it captures. */
  datatype Taken = Taken(end: nat, captured: Params)

  /** The end of the path segment at `p`. */
  function SegmentEnd(url: Text, p: nat): (r: nat)
    requires p <= |url|
    ensures p <= r <= |url|
    ensures r < |url| ==> url[r] == '/'
    ensures forall i :: p <= i < r ==> url[i] != '/'
    decreases |url| - p
  {
    if p < |url| && url[p] != '/' then SegmentEnd(url, p + 1) else p
  }

  function Take(n: Numbers, t: Token, url: Text, p: nat): (r: Option<Taken>)
    requires p <= |url|
  {
    if p == |url| then None
    else
      var c := url[p];
      match t
      case Lit(l) => if c == l then Some(Taken(p + 1, EMPTY)) else None
      case Tag(IntParam) =>
        if !(IsDigit(c) || c == '+' || c == '-') then None
        else
          var v := n.strtoll(url[p..]);
          if v.None? then None else Some(Taken(p + v.value.1, EMPTY.(ints := [v.value.0])))
      case Tag(UintParam) =>
        if !(IsDigit(c) || c == '+') then None
        else
          var v := n.strtoull(url[p..]);
          if v.None? then None else Some(Taken(p + v.value.1, EMPTY.(uints := [v.value.0])))
      case Tag(DoubleParam) =>
        if !(IsDigit(c) || c == '+' || c == '-' || c == '.') then None
        else
          var v := n.strtod(url[p..]);
          if v.None? then None else Some(Taken(p + v.value.1, EMPTY.(doubles := [v.value.0])))
      case Tag(StringParam) =>
        var e := SegmentEnd(url, p);
        if e == p then None else Some(Taken(e, EMPTY.(strings := [url[p..e]])))
      case Tag(PathParam) => Some(Taken(|url|, EMPTY.(strings := [url[p..]])))
  }

  lemma {:induction false} TakeMovesOn(n: Numbers, t: Token, url: Text, p: nat)
    requires n.Valid() && p <= |url| && Take(n, t, url, p).Some?
    ensures p < Take(n, t, url, p).value.end <= |url|
  {
  }

  /** The naive match of a pattern against the url from `p` on. */
  predicate Matches(n: Numbers, ts: seq<Token>, url: Text, p: nat)
    decreases |ts|
  {
    if p > |url| then false
    else if ts == [] then p == |url|
    else
      var t := Take(n, ts[0], url, p);
      t.Some? && Matches(n, ts[1..], url, t.value.end)
  }

  /** What a matching pattern captures. */
  function Captures(n: Numbers, ts: seq<Token>, url: Text, p: nat): Params
    requires Matches(n, ts, url, p)
    decreases |ts|
  {
    if ts == [] then EMPTY
    else
      var t := Take(n, ts[0], url, p).value;
      t.captured.Join(Captures(n, ts[1..], url, t.end))
  }

  /** Literal tokens of a text. */
  function Literals(w: Text): (r: seq<Token>)
    ensures |r| == |w| && forall i :: 0 <= i < |w| ==> r[i] == Lit(w[i])
  {
    seq(|w|, i requires 0 <= i < |w| => Lit(w[i]))
  }

  /** A run of literals matches exactly when the text stands in the url, and captures nothing. */
  lemma {:induction false} LiteralsMatch(n: Numbers, w: Text, rest: seq<Token>, url: Text, p: nat)
    requires p <= |url|
    ensures Matches(n, Literals(w) + rest, url, p) <==> StandsAt(url, p, w) && Matches(n, rest, url, p + |w|)
    ensures Matches(n, Literals(w) + rest, url, p) ==>
              Captures(n, Literals(w) + rest, url, p) == Captures(n, rest, url, p + |w|)
    decreases |w|
  {
    var ts := Literals(w) + rest;
    if w == [] {
      assert ts == rest;
    } else {
      assert Literals(w)[1..] == Literals(w[1..]);
      assert ts[1..] == Literals(w[1..]) + rest;
      if p < |url| && url[p] == w[0] {
        LiteralsMatch(n, w[1..], rest, url, p + 1);
        if p + |w| <= |url| {
          assert url[p..p + |w|] == [url[p]] + url[p + 1..p + |w|];
          assert w == [w[0]] + w[1..];
        }
      } else if p + |w| <= |url| {
        assert url[p..p + |w|][0] == url[p];
      }
    }
  }
}
