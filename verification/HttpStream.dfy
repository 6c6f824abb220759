/** A stream fed buffer by buffer: how it is cut makes no difference. */
module HttpStream {
  import opened Bytes
  import opened HttpSyntax
  import opened HttpMachine
  import opened HttpInvariant
  import opened HttpLog
  import opened HttpParser

  /** The stream the buffers make up. */
  function Flat(parts: seq<Text>): Text {
    if parts == [] then [] else Flat(parts[..|parts| - 1]) + parts[|parts| - 1]
  }

  lemma {:induction false} FlatTail(parts: seq<Text>, i: nat) returns (tail: Text)
    requires i <= |parts|
    ensures Flat(parts) == Flat(parts[..i]) + tail
    decreases |parts| - i
  {
    if i == |parts| {
      assert parts[..i] == parts;
      tail := [];
    } else {
      var rest := FlatTail(parts, i + 1);
      assert parts[..i + 1][..i] == parts[..i];
      tail := parts[i] + rest;
    }
  }

  /** Until a request asks for it, the parser is not upgraded; the byte that upgrades it is the byte it leaves at. */
  lemma {:induction false} UpgradeLeaves(p: HttpMachine.Parser, ch: Byte)
    requires Sound(p) && p.errno == OK && !p.upgrade
    ensures Step(p, ch).leave == Step(p, ch).p.upgrade
  {
    var q := Counted(p);
    SwitchByGroup(q, ch);
    if Step(p, ch) != Fail(q, HeaderOverflow) {
      if InRequest(q.state) {
        RequestStays(q, ch);
      } else if InHeaders(q.state) {
        HeaderUpgrades(q, ch);
      }
    }
  }

  lemma {:induction false} HeadersEndUpgrades(p: HttpMachine.Parser)
    requires !p.upgrade
    ensures HeadersEnd(p).leave == HeadersEnd(p).p.upgrade
  {
  }

  lemma {:induction false} FieldStartUpgrades(p: HttpMachine.Parser, ch: Byte)
    requires !p.upgrade
    ensures FieldStartByte(p, ch).leave == FieldStartByte(p, ch).p.upgrade
  {
    HeadersEndUpgrades(p);
  }

  lemma {:induction false} HeaderUpgrades(p: HttpMachine.Parser, ch: Byte)
    requires InHeaders(p.state) && !p.upgrade
    ensures HeaderByte(p, ch).leave == HeaderByte(p, ch).p.upgrade
  {
    match p.state
    case FieldStart => FieldStartUpgrades(p, ch);
    case DiscardLws => FieldStartUpgrades(p.(state := FieldStart), ch);
    case ValueLws => FieldStartUpgrades(p.(flags := FinishedHeader(p), state := FieldStart), ch);
    case HeadersAlmostDone => HeadersEndUpgrades(p);
    case _ =>
  }

  lemma {:induction false} RunUpgrades(r: Progress, d: Text)
    requires Healthy(r) && !r.p.upgrade
    ensures Run(r, d).left == Run(r, d).p.upgrade
    decreases |d|
  {
    if d != [] {
      var front := d[..|d| - 1];
      RunUpgrades(r, front);
      if Run(r, front).Going() {
        RunStaysHealthy(r, front);
        UpgradeLeaves(Run(r, front).p, d[|d| - 1]);
      }
    }
  }

  /**
   * One read of a connection: feeds a buffer, or reports the end of the stream when it is empty; a parser in error
   * takes nothing. True when everything was taken.
   */
  method Feed(parser: HttpParser.Parser, data: Text) returns (ok: bool)
    requires parser.Valid()
    modifies parser
    ensures parser.Valid()
    ensures old(parser.errno) != OK ==> ok == (data == []) && parser.Now() == old(parser.Now()) && parser.log == old(parser.log)
    ensures old(parser.errno) == OK && data == [] ==>
              && parser.log == old(parser.log) && ok == old(parser.state.Dead? || parser.state.StartReq?)
              && parser.Now() == if ok then old(parser.Now()) else old(parser.Now()).(errno := InvalidEofState)
    ensures old(parser.errno) == OK && data != [] ==>
              exists parsed :: parser.Ended(Progress(old(parser.Now()), old(parser.log), false), data, parsed) && ok == (parsed == |data|)
  {
    if parser.errno != OK {
      return 0 == |data|;
    }
    var parsed;
    if data == [] {
      parsed := parser.ExecuteEnd();
    } else {
      parsed := parser.Execute(data);
    }
    ok := parsed == |data|;
  }

  /**
   * The reads of a connection, in order, until one of them fails or the request upgrades the connection. However the
   * stream is cut into buffers, the parser ends with the fields, and has made the callbacks, of one run over the whole
   * stream; after an error at most the text then open is missing.
   */
  method FeedAll(parser: HttpParser.Parser, parts: seq<Text>)
    requires parser.Valid() && parser.errno == OK && !parser.upgrade
    requires forall i :: 0 <= i < |parts| ==> parts[i] != []
    modifies parser
    ensures var r := Run(Progress(old(parser.Now()), old(parser.log), false), Flat(parts));
            && parser.Now() == r.p
            && (parser.errno == OK ==> parser.log == r.log)
            && (parser.errno != OK ==> ReportedBut(parser.log, r.log))
  {
    ghost var r := Progress(parser.Now(), parser.log, false);
    ghost var taken: Text := [];
    for i := 0 to |parts|
      invariant parser.Valid() && parser.errno == OK && !parser.upgrade
      invariant taken == Flat(parts[..i]) && Run(r, taken) == Progress(parser.Now(), parser.log, false)
    {
      ghost var here := Progress(parser.Now(), parser.log, false);
      var ok := Feed(parser, parts[i]);
      assert parts[..i + 1][..i] == parts[..i];
      RunConcat(r, taken, parts[i]);
      RunUpgrades(here, parts[i]);
      taken := taken + parts[i];
      if !ok || parser.errno != OK || parser.upgrade {
        ghost var tail := FlatTail(parts, i + 1);
        RunConcat(r, taken, tail);
        RunStopped(Run(r, taken), tail);
        return;
      }
    }
    assert parts[..|parts|] == parts;
  }

  /** The whole stream in one buffer, for comparison: every cut of it ends the same way. */
  method FeedTwoWays(one: HttpParser.Parser, other: HttpParser.Parser, parts: seq<Text>, cut: seq<Text>)
    requires one != other && one.Valid() && other.Valid() && one.Now() == other.Now() && one.log == other.log
    requires one.errno == OK && !one.upgrade
    requires forall i :: 0 <= i < |parts| ==> parts[i] != []
    requires forall i :: 0 <= i < |cut| ==> cut[i] != []
    requires Flat(parts) == Flat(cut)
    modifies one, other
    ensures one.Now() == other.Now()
    ensures one.errno == OK ==> one.log == other.log
  {
    FeedAll(one, parts);
    FeedAll(other, cut);
  }
}
