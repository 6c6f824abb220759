/** Laws of joined callback logs, and of bodies read in one piece. */
module HttpLog {
  import opened Bytes
  import opened HttpSyntax
  import opened HttpMachine

  lemma {:induction false} EmitOne(log: seq<Event>, e: Event)
    ensures EmitAll(log, [e]) == Emit(log, e)
  {
    assert [e][..0] == [];
  }

  lemma {:induction false} EmitAllConcat(log: seq<Event>, a: seq<Event>, b: seq<Event>)
    ensures EmitAll(log, a + b) == EmitAll(EmitAll(log, a), b)
    decreases |b|
  {
    if b == [] {
      assert a + b == a;
    } else {
      var front := b[..|b| - 1];
      assert (a + b)[..|a + b| - 1] == a + front;
      EmitAllConcat(log, a, front);
    }
  }

  lemma {:induction false} EmitTwo(log: seq<Event>, e: Event, f: Event)
    ensures EmitAll(log, [e, f]) == Emit(Emit(log, e), f)
  {
    assert [e, f] == [e] + [f];
    EmitAllConcat(log, [e], [f]);
    EmitOne(log, e);
    EmitOne(Emit(log, e), f);
  }

  /** A text reported in two pieces is the text reported in one. */
  lemma {:induction false} EmitMerge(log: seq<Event>, k: Kind, x: Text, y: Text)
    ensures Emit(Emit(log, Data(k, x)), Data(k, y)) == Emit(log, Data(k, x + y))
  {
    var once := Emit(log, Data(k, x));
    assert once[..|once| - 1] == if EndsInKind(log, k) then log[..|log| - 1] else log;
    if EndsInKind(log, k) {
      Concat3(log[|log| - 1].bytes, x, y);
    }
  }

  /** An empty piece after a piece of its kind is no piece at all. */
  lemma {:induction false} EmitEmpty(log: seq<Event>, k: Kind)
    requires EndsInKind(log, k)
    ensures Emit(log, Data(k, [])) == log
  {
    var last := log[|log| - 1];
    assert last.bytes + [] == last.bytes;
    assert log == log[..|log| - 1] + [last];
  }

  // ---------------------------------------------------------------- bodies

  predicate InBody(s: State) {
    s.BodyIdentity? || s.ChunkData?
  }

  /** The fields after `n` bytes of body. */
  function Shortened(p: Parser, n: nat): Parser
    requires n <= p.contentLength
  {
    var left := p.contentLength - n;
    p.(contentLength := left, state :=
      if left > 0 then p.state else if p.state.BodyIdentity? then NewMessage(p) else ChunkDataAlmostDone)
  }

  /** What `d` reports as body: its bytes, and the end of an identity body. */
  function BodyEvents(p: Parser, d: Text): seq<Event> {
    [Data(Body, d)] + if p.state.BodyIdentity? && |d| == p.contentLength then [MessageComplete] else []
  }

  /** Reading body bytes in one piece is reading them one by one. */
  lemma {:induction false} RunBody(r: Progress, d: Text)
    requires r.Going() && InBody(r.p.state) && 0 < |d| <= r.p.contentLength
    ensures Run(r, d) == Progress(Shortened(r.p, |d|), EmitAll(r.log, BodyEvents(r.p, d)), false)
    decreases |d|
  {
    var front, c := d[..|d| - 1], d[|d| - 1];
    assert d == front + [c];
    if front == [] {
      RunOne(r, c);
      assert d == [c];
      BodyStep(r, c);
    } else {
      RunBody(r, front);
      EmitOne(r.log, Data(Body, front));
      var q := Run(r, front);
      assert BodyEvents(r.p, front) == [Data(Body, front)];
      ShortenedOneMore(r.p, |front|);
      BodyStep(q, c);
      EmitMerge(r.log, Body, front, [c]);
      BodyEventsEmitted(q, [c]);
      BodyEventsEmitted(r, d);
    }
  }

  lemma {:induction false} ShortenedOneMore(p: Parser, n: nat)
    requires InBody(p.state) && n < p.contentLength
    ensures Shortened(p, n).state == p.state && Shortened(p, n).contentLength == p.contentLength - n
    ensures Shortened(Shortened(p, n), 1) == Shortened(p, n + 1)
  {
  }

  lemma {:induction false} BodyEventsEmitted(r: Progress, d: Text)
    ensures EmitAll(r.log, BodyEvents(r.p, d)) ==
            var e := Emit(r.log, Data(Body, d));
            if r.p.state.BodyIdentity? && |d| == r.p.contentLength then Emit(e, MessageComplete) else e
  {
    if r.p.state.BodyIdentity? && |d| == r.p.contentLength {
      assert BodyEvents(r.p, d) == [Data(Body, d), MessageComplete];
      EmitTwo(r.log, Data(Body, d), MessageComplete);
    } else {
      assert BodyEvents(r.p, d) == [Data(Body, d)];
      EmitOne(r.log, Data(Body, d));
    }
  }

  lemma {:induction false} BodyStep(r: Progress, c: Byte)
    requires r.Going() && InBody(r.p.state) && r.p.contentLength > 0
    ensures StepOn(r, c) == Progress(Shortened(r.p, 1), EmitAll(r.log, BodyEvents(r.p, [c])), false)
  {
    BodySwitch(r.p, c);
  }

  lemma {:induction false} BodySwitch(p: Parser, c: Byte)
    requires InBody(p.state) && p.contentLength > 0
    ensures Step(p, c) == Stepped(Shortened(p, 1), BodyEvents(p, [c]), false)
  {
    var s := Step(p, c);
    if p.state.BodyIdentity? && p.contentLength == 1 {
      assert BodyEvents(p, [c]) == [Data(Body, [c]), MessageComplete] == s.out;
    } else {
      assert BodyEvents(p, [c]) == [Data(Body, [c])] == s.out;
    }
  }
}
