/** Route patterns as their authors write them: which words stand for which parameters, and what each parameter takes. */
module RouteWritten {
  import opened Bytes
  import opened RoutePattern

  /** A piece of a pattern: a literal byte, or one of the seven tags. */
  datatype Piece = Literal(c: Byte) | Int | Uint | Float | Double | Str | String | Path

  function PieceText(p: Piece): Text {
    match p
    case Literal(c) => [c]
    case Int => "<int>"
    case Uint => "<uint>"
    case Float => "<float>"
    case Double => "<double>"
    case Str => "<str>"
    case String => "<string>"
    case Path => "<path>"
  }

  /** What a piece stands for: integers of either kind, doubles by two words, strings by two words, the rest of the path. */
  function PieceToken(p: Piece): Token {
    match p
    case Literal(c) => Lit(c)
    case Int => Tag(IntParam)
    case Uint => Tag(UintParam)
    case Float | Double => Tag(DoubleParam)
    case Str | String => Tag(StringParam)
    case Path => Tag(PathParam)
  }

  function PatternText(ps: seq<Piece>): Text {
    if ps == [] then [] else PieceText(ps[0]) + PatternText(ps[1..])
  }

  function PatternTokens(ps: seq<Piece>): (r: seq<Token>)
    ensures |r| == |ps|
  {
    if ps == [] then [] else [PieceToken(ps[0])] + PatternTokens(ps[1..])
  }

  /** A literal piece is no opening bracket. */
  predicate Plain(ps: seq<Piece>) {
    forall i :: 0 <= i < |ps| ==> ps[i] != Literal('<')
  }

  // ---------------------------------------------------------------- words and tags

  /** Words that differ in one of their first bytes do not stand at one place. */
  lemma {:induction false} WordsApart(s: Text, p: nat, a: Text, b: Text, i: nat)
    requires StandsAt(s, p, a) && i < |a| && i < |b| && a[i] != b[i]
    ensures !StandsAt(s, p, b)
  {
    StandsByte(s, p, a, i);
    if StandsAt(s, p, b) {
      StandsByte(s, p, b, i);
    }
  }

  /** The tag of each word, wherever it stands. */
  lemma {:induction false} WordIsTag(s: Text, p: nat, t: Piece)
    requires !t.Literal? && StandsAt(s, p, PieceText(t))
    ensures TagAt(s, p, 0) == Some((PieceToken(t).param, PieceText(t)))
  {
    var w := PieceText(t);
    forall k: nat | k < |TAGS| && TAGS[k].1 != w ensures !StandsAt(s, p, TAGS[k].1) {
      var i :| 1 <= i < 5 && i < |w| && i < |TAGS[k].1| && w[i] != TAGS[k].1[i];
      WordsApart(s, p, w, TAGS[k].1, i);
    }
    var n := TagNumber(t);
    FirstTag(s, p, 0, n);
  }

  function TagNumber(t: Piece): (k: nat)
    requires !t.Literal?
    ensures k < |TAGS| && TAGS[k] == (PieceToken(t).param, PieceText(t))
  {
    match t
    case Int => 0
    case Uint => 1
    case Float => 2
    case Double => 3
    case Str => 4
    case String => 5
    case Path => 6
  }

  lemma {:induction false} FirstTag(s: Text, p: nat, k: nat, n: nat)
    requires k <= n < |TAGS| && StandsAt(s, p, TAGS[n].1) && forall j :: k <= j < n ==> !StandsAt(s, p, TAGS[j].1)
    ensures TagAt(s, p, k) == Some(TAGS[n])
    decreases n - k
  {
    if k < n {
      FirstTag(s, p, k + 1, n);
    }
  }

  /** A pattern is read as it was written: every word as its own parameter, every other byte as itself. */
  lemma {:induction false} PatternReads(s: Text, p: nat, ps: seq<Piece>)
    requires Plain(ps) && StandsAt(s, p, PatternText(ps)) && p + |PatternText(ps)| == |s|
    ensures TokensFrom(s, p) == Some(PatternTokens(ps))
    decreases |ps|
  {
    if ps != [] {
      var first, rest := PieceText(ps[0]), PatternText(ps[1..]);
      StandsThen(s, p, p + |first|, first, rest);
      PatternReads(s, p + |first|, ps[1..]);
      PieceReads(s, p, ps[0], p + |first|);
    }
  }

  lemma {:induction false} PieceReads(s: Text, p: nat, piece: Piece, next: nat)
    requires piece != Literal('<') && StandsAt(s, p, PieceText(piece)) && next == p + |PieceText(piece)| && TokensFrom(s, next).Some?
    ensures TokensFrom(s, p) == Some([PieceToken(piece)] + TokensFrom(s, next).value)
  {
    StandsByte(s, p, PieceText(piece), 0);
    if !piece.Literal? {
      WordIsTag(s, p, piece);
    }
  }

  lemma {:induction false} WrittenReads(ps: seq<Piece>)
    requires Plain(ps)
    ensures TokensFrom(PatternText(ps), 0) == Some(PatternTokens(ps))
  {
    var s := PatternText(ps);
    assert s[0..|s|] == s;
    PatternReads(s, 0, ps);
  }

  /** Every pattern without an error is written in this way. */
  lemma {:induction false} TokensAreWritten(s: Text, p: nat) returns (ps: seq<Piece>)
    requires p <= |s| && TokensFrom(s, p).Some?
    ensures Plain(ps) && s[p..] == PatternText(ps) && TokensFrom(s, p).value == PatternTokens(ps)
    decreases |s| - p
  {
    if p == |s| {
      ps := [];
    } else {
      var piece, next := FirstPiece(s, p);
      var rest := TokensAreWritten(s, next);
      ps := [piece] + rest;
      assert s[p..] == s[p..next] + s[next..];
    }
  }

  lemma {:induction false} FirstPiece(s: Text, p: nat) returns (piece: Piece, next: nat)
    requires p < |s| && TokensFrom(s, p).Some?
    ensures piece != Literal('<') && p < next <= |s| && s[p..next] == PieceText(piece) && TokensFrom(s, next).Some?
    ensures TokensFrom(s, p).value == [PieceToken(piece)] + TokensFrom(s, next).value
  {
    if s[p] == '<' {
      var tag := TagAt(s, p, 0).value;
      piece := TagPiece(s, p, 0);
      next := p + |tag.1|;
      NextToken(s, p, Tag(tag.0), next);
    } else {
      piece, next := Literal(s[p]), p + 1;
      NextToken(s, p, Lit(s[p]), next);
    }
  }

  lemma {:induction false} TagPiece(s: Text, p: nat, k: nat) returns (piece: Piece)
    requires k <= |TAGS| && TagAt(s, p, k).Some?
    ensures !piece.Literal? && TagAt(s, p, k) == Some((PieceToken(piece).param, PieceText(piece))) && StandsAt(s, p, PieceText(piece))
    decreases |TAGS| - k
  {
    if StandsAt(s, p, TAGS[k].1) {
      piece := [Int, Uint, Float, Double, Str, String, Path][k];
    } else {
      piece := TagPiece(s, p, k + 1);
    }
  }

  // ---------------------------------------------------------------- what a parameter takes

  /** The first bytes with which a number of each kind may begin. */
  predicate MayBegin(param: Param, c: Byte) {
    match param
    case IntParam => c in "0123456789+-"
    case UintParam => c in "0123456789+"
    case DoubleParam => c in "0123456789+-."
    case StringParam => c != '/'
    case PathParam => true
  }

  /** What the conversion of a kind gives for a text, as a number of bytes and one captured parameter. */
  function Converted(n: Numbers, param: Param, t: Text): Option<(nat, Params)> {
    match param
    case IntParam => (match n.strtoll(t) case None => None case Some(v) => Some((v.1, Params([v.0], [], [], []))))
    case UintParam => (match n.strtoull(t) case None => None case Some(v) => Some((v.1, Params([], [v.0], [], []))))
    case DoubleParam => (match n.strtod(t) case None => None case Some(v) => Some((v.1, Params([], [], [v.0], []))))
    case StringParam => Some((SegmentEnd(t, 0), Params([], [], [], [t[..SegmentEnd(t, 0)]])))
    case PathParam => Some((|t|, Params([], [], [], [t])))
  }

  /** A parameter takes what the conversion of its kind takes, from a first byte with which its kind may begin. */
  lemma {:induction false} ParameterTakes(n: Numbers, param: Param, url: Text, p: nat)
    requires p < |url|
    ensures var c := Converted(n, param, url[p..]);
            Take(n, Tag(param), url, p) ==
              if MayBegin(param, url[p]) && c.Some? then Some(Taken(p + c.value.0, c.value.1)) else None
  {
    if param.StringParam? {
      SegmentsAlike(url, p, 0);
      var e := SegmentEnd(url, p);
      assert url[p..][..e - p] == url[p..e];
    }
  }

  lemma {:induction false} SegmentsAlike(url: Text, p: nat, k: nat)
    requires p + k <= |url|
    ensures SegmentEnd(url, p + k) == p + SegmentEnd(url[p..], k)
    decreases |url| - (p + k)
  {
    if p + k < |url| && url[p + k] != '/' {
      SegmentsAlike(url, p, k + 1);
    }
  }

  /** Nothing is taken at the end of the url, and a literal takes its own byte and captures nothing. */
  lemma {:induction false} LiteralTakes(n: Numbers, t: Token, url: Text, p: nat)
    requires p <= |url|
    ensures p == |url| ==> Take(n, t, url, p).None?
    ensures p < |url| && t.Lit? ==> Take(n, t, url, p) == if url[p] == t.c then Some(Taken(p + 1, Params([], [], [], []))) else None
  {
  }

  /** A signed number in a url is captured by the pattern of an integer, and by none of an unsigned one. */
  lemma {:induction false} SignedNumbers(n: Numbers, digits: Text, v: int)
    requires n.strtoll("-" + digits) == Some((v, 1 + |digits|))
    ensures TokensFrom("/<int>", 0) == Some([Lit('/'), Tag(IntParam)]) && TokensFrom("/<uint>", 0) == Some([Lit('/'), Tag(UintParam)])
    ensures var url := "/-" + digits;
            && Matches(n, [Lit('/'), Tag(IntParam)], url, 0) && Captures(n, [Lit('/'), Tag(IntParam)], url, 0) == Params([v], [], [], [])
            && !Matches(n, [Lit('/'), Tag(UintParam)], url, 0)
  {
    var url := "/-" + digits;
    IntPattern();
    assert url[1..] == "-" + digits;
    ParameterTakes(n, IntParam, url, 1);
    ParameterTakes(n, UintParam, url, 1);
    var ts, us: seq<Token> := [Lit('/'), Tag(IntParam)], [Lit('/'), Tag(UintParam)];
    assert ts[1..] == [Tag(IntParam)] && ts[1..][1..] == [] && us[1..] == [Tag(UintParam)];
  }

  lemma {:induction false} IntPattern()
    ensures TokensFrom("/<int>", 0) == Some([Lit('/'), Tag(IntParam)]) && TokensFrom("/<uint>", 0) == Some([Lit('/'), Tag(UintParam)])
  {
    var a, b: seq<Piece> := [Literal('/'), Int], [Literal('/'), Uint];
    assert a[1..] == [Int] && a[1..][1..] == [] && b[1..] == [Uint] && b[1..][1..] == [];
    assert PatternText([]) == [] && PatternTokens([]) == [];
    assert PatternText([Int]) == "<int>" + PatternText([Int][1..]) == "<int>";
    assert PatternText([Uint]) == "<uint>" + PatternText([Uint][1..]) == "<uint>";
    assert PatternTokens([Int]) == [Tag(IntParam)] && PatternTokens([Uint]) == [Tag(UintParam)];
    assert PatternText(a) == "/<int>" && PatternText(b) == "/<uint>";
    assert PatternTokens(a) == [Lit('/'), Tag(IntParam)] && PatternTokens(b) == [Lit('/'), Tag(UintParam)];
    WrittenReads(a);
    WrittenReads(b);
  }
}
