/** The closed loop of the benchmark: a session that reports is replaced by a new one, until the loop is stopped. */
module ClientScheduler {
  import opened Bytes
  import opened ClientSession
  import opened ClientHistory
  import opened ReadBuffer

  /** All sessions in flight, by number, and what has been reported, in order. */
  datatype System = System(
    secure: bool, size: nat, spawned: nat, sessions: map<nat, Session>, list: seq<(nat, Report)>, stopped: bool)

  /** A completion for some session, or the end of the benchmark. */
  datatype Event = Completed(id: nat, completion: Completion, now: int) | Stop(now: int)

  function SpawnOne(sys: System, now: int): System {
    sys.(sessions := sys.sessions[sys.spawned := NewSession(sys.secure, sys.size, now)], spawned := sys.spawned + 1)
  }

  function SpawnMany(sys: System, n: nat, now: int): System {
    if n == 0 then sys else SpawnOne(SpawnMany(sys, n - 1, now), now)
  }

  /** A finished session hands in its report; unless the loop was stopped, the next session starts. */
  function TakeReport(sys: System, id: nat, r: Report, now: int): System {
    var kept := sys.(sessions := sys.sessions - {id}, list := sys.list + [(id, r)]);
    if sys.stopped then kept else SpawnOne(kept, now)
  }

  /** Completions come only for operations in progress. */
  predicate Enabled(sys: System, e: Event) {
    e.Completed? ==> e.id in sys.sessions
  }

  function Next(sys: System, e: Event): System
    requires Enabled(sys, e)
  {
    match e
    case Stop(_) => sys.(stopped := true)
    case Completed(id, c, now) =>
      var s := Complete(sys.sessions[id], c, now);
      if s.pending.Reported? then TakeReport(sys, id, s.report, now) else sys.(sessions := sys.sessions[id := s])
  }

  // ---------------------------------------------------------------- what every run keeps

  /** The completions of one session among the events. */
  function StepsOf(past: seq<Event>, id: nat): seq<Step>
    decreases |past|
  {
    if past == [] then []
    else
      var e := past[|past| - 1];
      StepsOf(past[..|past| - 1], id) + if e.Completed? && e.id == id then [Step(e.completion, e.now)] else []
  }

  lemma {:induction false} StepsOfMore(past: seq<Event>, e: Event, id: nat)
    ensures StepsOf(past + [e], id) ==
              if e.Completed? && e.id == id then StepsOf(past, id) + [Step(e.completion, e.now)] else StepsOf(past, id)
  {
    assert (past + [e])[..|past|] == past;
    assert StepsOf(past, id) + [] == StepsOf(past, id);
  }

  /** A session started at `start` and brought to `s` by its completions. */
  ghost predicate Led(sys: System, steps: seq<Step>, s: Session, start: int, now: int) {
    && 0 <= start <= now && Clocked(start, steps) && Latest(start, steps) <= now
    && s == RunAll(NewSession(sys.secure, sys.size, start), steps)
  }

  /** A session in flight is what its completions so far made of it. */
  ghost predicate InFlight(sys: System, past: seq<Event>, id: nat, now: int)
    requires id in sys.sessions
  {
    !sys.sessions[id].pending.Reported? && exists start :: Led(sys, StepsOf(past, id), sys.sessions[id], start, now)
  }

  /** A report is that of a session which its completions brought to its end. */
  ghost predicate Reports(sys: System, past: seq<Event>, id: nat, r: Report, now: int) {
    exists s, start :: Led(sys, StepsOf(past, id), s, start, now) && s.pending.Reported? && r == s.report
  }

  /** Every session spawned is in flight or has reported, once; while the loop runs, `clients` are in flight. */
  ghost predicate Balanced(sys: System, clients: nat) {
    && sys.spawned == |sys.list| + |sys.sessions|
    && (!sys.stopped ==> |sys.sessions| == clients)
    && (forall id :: id in sys.sessions ==> id < sys.spawned)
    && (forall k :: 0 <= k < |sys.list| ==> sys.list[k].0 < sys.spawned && sys.list[k].0 !in sys.sessions)
    && (forall k, l :: 0 <= k < l < |sys.list| ==> sys.list[k].0 != sys.list[l].0)
  }

  /** Every session, in flight or reported, is explained by the events of its own. */
  ghost predicate Explained(sys: System, past: seq<Event>, now: int) {
    && (forall id :: id in sys.sessions ==> InFlight(sys, past, id, now))
    && (forall k :: 0 <= k < |sys.list| ==> Reports(sys, past, sys.list[k].0, sys.list[k].1, now))
    && (forall id :: id >= sys.spawned ==> StepsOf(past, id) == [])
  }

  lemma {:induction false} SpawnBalanced(sys: System, clients: nat, now: int)
    requires Balanced(sys.(stopped := true), clients) && |sys.sessions| + 1 == clients
    ensures Balanced(SpawnOne(sys, now), clients)
  {
  }

  lemma {:induction false} NewLed(sys: System, now: int)
    requires now >= 0
    ensures Led(sys, [], NewSession(sys.secure, sys.size, now), now, now)
  {
  }

  lemma {:induction false} SpawnExplained(sys: System, past: seq<Event>, now: int)
    requires Explained(sys, past, now) && now >= 0 && sys.spawned !in sys.sessions
    ensures Explained(SpawnOne(sys, now), past, now)
  {
    var after := SpawnOne(sys, now);
    NewLed(sys, now);
    forall id | id in after.sessions ensures InFlight(after, past, id, now) {
      if id == sys.spawned {
        assert Led(after, StepsOf(past, id), after.sessions[id], now, now);
      } else {
        assert InFlight(sys, past, id, now);
        var start :| Led(sys, StepsOf(past, id), sys.sessions[id], start, now);
        assert Led(after, StepsOf(past, id), after.sessions[id], start, now);
      }
    }
    forall k | 0 <= k < |after.list| ensures Reports(after, past, after.list[k].0, after.list[k].1, now) {
      ReportsStay(sys, after, past, past, sys.list[k].0, sys.list[k].1, now, now);
    }
  }

  /** What explains a report goes on explaining it when others move. */
  lemma {:induction false} ReportsStay(sys: System, after: System, past: seq<Event>, more: seq<Event>, id: nat, r: Report, now: int, later: int)
    requires Reports(sys, past, id, r, now) && now <= later && after.secure == sys.secure && after.size == sys.size
    requires StepsOf(more, id) == StepsOf(past, id)
    ensures Reports(after, more, id, r, later)
  {
    var s, start :| Led(sys, StepsOf(past, id), s, start, now) && s.pending.Reported? && r == s.report;
    assert Led(after, StepsOf(more, id), s, start, later);
  }

  lemma {:induction false} StartBalanced(sys: System, clients: nat, now: int)
    requires sys.sessions == map[] && sys.list == [] && sys.spawned == 0 && !sys.stopped && now >= 0
    ensures var started := SpawnMany(sys, clients, now);
            && started.secure == sys.secure && started.size == sys.size && !started.stopped
            && Balanced(started, clients) && Explained(started, [], now)
  {
    if clients > 0 {
      StartBalanced(sys, clients - 1, now);
      SpawnBalanced(SpawnMany(sys, clients - 1, now), clients, now);
      SpawnExplained(SpawnMany(sys, clients - 1, now), [], now);
    }
  }

  /** One completion more brings the session where `Complete` says. */
  lemma {:induction false} LedOn(sys: System, steps: seq<Step>, s: Session, start: int, before: int, c: Completion, now: int)
    requires Led(sys, steps, s, start, before) && before <= now
    ensures Led(sys, steps + [Step(c, now)], Complete(s, c, now), start, now)
  {
    var more := steps + [Step(c, now)];
    assert more[..|steps|] == steps;
    assert forall i :: 0 <= i < |more| ==> more[i] == if i < |steps| then steps[i] else Step(c, now);
    if steps != [] {
      assert Latest(start, steps) == steps[|steps| - 1].now;
    }
  }

  /** A session that the event is not for stays explained. */
  lemma {:induction false} FlightStays(sys: System, rest: System, past: seq<Event>, e: Event, id: nat, before: int)
    requires id in sys.sessions && id in rest.sessions && rest.sessions[id] == sys.sessions[id] && InFlight(sys, past, id, before)
    requires before <= e.now && rest.secure == sys.secure && rest.size == sys.size && (e.Completed? ==> e.id != id)
    ensures InFlight(rest, past + [e], id, e.now)
  {
    StepsOfMore(past, e, id);
    var start :| Led(sys, StepsOf(past, id), sys.sessions[id], start, before);
    assert Led(rest, StepsOf(past + [e], id), rest.sessions[id], start, e.now);
  }

  /** Nothing but the event's own session needs a new explanation. */
  lemma {:induction false} OthersStay(sys: System, past: seq<Event>, e: Event, before: int, rest: System)
    requires Explained(sys, past, before) && before <= e.now && Balanced(sys, |sys.sessions|)
    requires rest.secure == sys.secure && rest.size == sys.size && rest.list == sys.list && rest.spawned == sys.spawned
    requires e.Completed? ==> e.id in sys.sessions && rest.sessions == sys.sessions - {e.id}
    requires e.Stop? ==> rest.sessions == sys.sessions
    ensures Explained(rest, past + [e], e.now)
  {
    forall id | id in rest.sessions ensures InFlight(rest, past + [e], id, e.now) {
      FlightStays(sys, rest, past, e, id, before);
    }
    forall k | 0 <= k < |rest.list| ensures Reports(rest, past + [e], rest.list[k].0, rest.list[k].1, e.now) {
      StepsOfMore(past, e, sys.list[k].0);
      ReportsStay(sys, rest, past, past + [e], sys.list[k].0, sys.list[k].1, before, e.now);
    }
    forall id | id >= rest.spawned ensures StepsOf(past + [e], id) == [] {
      StepsOfMore(past, e, id);
    }
  }

  /** Every step of every interleaving keeps the balance. */
  lemma {:induction false} NextBalanced(sys: System, clients: nat, e: Event)
    requires Balanced(sys, clients) && Enabled(sys, e)
    ensures Balanced(Next(sys, e), clients)
  {
    if e.Completed? {
      var t := Complete(sys.sessions[e.id], e.completion, e.now);
      if t.pending.Reported? {
        var kept := sys.(sessions := sys.sessions - {e.id}, list := sys.list + [(e.id, t.report)]);
        assert |kept.sessions| == |sys.sessions| - 1;
        assert Balanced(kept.(stopped := true), clients);
        if !sys.stopped {
          SpawnBalanced(kept, clients, e.now);
        }
      } else {
        assert sys.sessions[e.id := t].Keys == sys.sessions.Keys;
        assert |sys.sessions[e.id := t].Keys| == |sys.sessions.Keys|;
      }
    }
  }

  /** Every step of every interleaving moves one session by its own completion, and all others stay. */
  lemma {:induction false} NextExplained(sys: System, clients: nat, past: seq<Event>, e: Event, before: int)
    requires Balanced(sys, clients) && Explained(sys, past, before) && Enabled(sys, e) && 0 <= before <= e.now
    ensures Explained(Next(sys, e), past + [e], e.now)
  {
    var more := past + [e];
    match e
    case Stop(now) => OthersStay(sys, past, e, before, Next(sys, e));
    case Completed(id, c, now) =>
      var s := sys.sessions[id];
      assert InFlight(sys, past, id, before);
      var start :| Led(sys, StepsOf(past, id), s, start, before);
      LedOn(sys, StepsOf(past, id), s, start, before, c, now);
      StepsOfMore(past, e, id);
      var t := Complete(s, c, now);
      var rest := sys.(sessions := sys.sessions - {id});
      OthersStay(sys, past, e, before, rest);
      if t.pending.Reported? {
        var kept := rest.(list := rest.list + [(id, t.report)]);
        ReportAdded(rest, kept, more, id, t, start, now);
        if !sys.stopped {
          SpawnExplained(kept, more, now);
        }
      } else {
        SessionAdded(rest, sys.(sessions := sys.sessions[id := t]), more, id, t, start, now);
      }
  }

  lemma {:induction false} ReportAdded(rest: System, kept: System, past: seq<Event>, id: nat, t: Session, start: int, now: int)
    requires Explained(rest, past, now) && kept == rest.(list := rest.list + [(id, t.report)])
    requires Led(rest, StepsOf(past, id), t, start, now) && t.pending.Reported?
    ensures Explained(kept, past, now)
  {
    forall i | i in kept.sessions ensures InFlight(kept, past, i, now) {
      assert InFlight(rest, past, i, now);
      var begin :| Led(rest, StepsOf(past, i), rest.sessions[i], begin, now);
      assert Led(kept, StepsOf(past, i), kept.sessions[i], begin, now);
    }
    forall k | 0 <= k < |kept.list| ensures Reports(kept, past, kept.list[k].0, kept.list[k].1, now) {
      if k < |rest.list| {
        ReportsStay(rest, kept, past, past, rest.list[k].0, rest.list[k].1, now, now);
      } else {
        assert Led(kept, StepsOf(past, id), t, start, now);
      }
    }
  }

  lemma {:induction false} SessionAdded(rest: System, after: System, past: seq<Event>, id: nat, t: Session, start: int, now: int)
    requires Explained(rest, past, now) && after == rest.(sessions := after.sessions)
    requires after.sessions.Keys == rest.sessions.Keys + {id} && after.sessions[id] == t
    requires forall i :: i in rest.sessions && i != id ==> after.sessions[i] == rest.sessions[i]
    requires Led(rest, StepsOf(past, id), t, start, now) && !t.pending.Reported?
    ensures Explained(after, past, now)
  {
    forall i | i in after.sessions ensures InFlight(after, past, i, now) {
      if i == id {
        assert Led(after, StepsOf(past, id), t, start, now);
      } else {
        assert InFlight(rest, past, i, now);
        var begin :| Led(rest, StepsOf(past, i), rest.sessions[i], begin, now);
        assert Led(after, StepsOf(past, i), after.sessions[i], begin, now);
      }
    }
    forall k | 0 <= k < |after.list| ensures Reports(after, past, after.list[k].0, after.list[k].1, now) {
      ReportsStay(rest, after, past, past, rest.list[k].0, rest.list[k].1, now, now);
    }
  }

  /** A run whose events come only when they can, with a clock that does not run backwards. */
  predicate Runs(sys: System, events: seq<Event>, now: int)
    decreases |events|
  {
    if events == [] then true
    else Enabled(sys, events[0]) && now <= events[0].now && Runs(Next(sys, events[0]), events[1..], events[0].now)
  }

  function RunEvents(sys: System, events: seq<Event>, now: int): System
    requires Runs(sys, events, now)
    decreases |events|
  {
    if events == [] then sys else RunEvents(Next(sys, events[0]), events[1..], events[0].now)
  }

  function LastTime(events: seq<Event>, now: int): int {
    if events == [] then now else events[|events| - 1].now
  }

  lemma {:induction false} RunBalanced(sys: System, clients: nat, past: seq<Event>, events: seq<Event>, now: int)
    requires Balanced(sys, clients) && Explained(sys, past, now) && now >= 0 && Runs(sys, events, now)
    ensures Balanced(RunEvents(sys, events, now), clients)
    ensures Explained(RunEvents(sys, events, now), past + events, LastTime(events, now))
    ensures RunEvents(sys, events, now).secure == sys.secure && RunEvents(sys, events, now).size == sys.size
    decreases |events|
  {
    if events == [] {
      assert past + events == past;
    } else {
      var e, rest := events[0], events[1..];
      NextBalanced(sys, clients, e);
      NextExplained(sys, clients, past, e, now);
      RunBalanced(Next(sys, e), clients, past + [e], rest, e.now);
      assert past + events == past + [e] + rest;
    }
  }

  /**
   * What a report in the list says of its session: with the completions that were its own, it is right exactly when the
   * session ended on the end of the stream; then its times fit, and the bytes written are those of the request exactly
   * when no write took more than was left. The bytes read are the sum of its reads, and a secure session writes only after
   * its handshake.
   */
  ghost predicate TellsRight(secure: bool, size: nat, steps: seq<Step>, r: Report) {
    exists h: History :: h.secure == secure && h.size == size && h.Steps() == steps && TellsRightFrom(h, steps, r)
  }

  /** The report is told by the session's history: which completions were its dials, its writes and its reads. */
  ghost predicate TellsRightFrom(h: History, steps: seq<Step>, r: Report) {
    var s := NewSession(h.secure, h.size, h.start);
    && h.Fits() && r == h.Told() && r == RunAll(s, steps).report
    && (r.IsRight() <==> EndsOnEof(s, steps))
    && (r.IsRight() ==> h.outcome.Ended? && r.ConnectTime() + r.IoTime() + r.DealingTime() == r.WholeTime())
    && (r.IsRight() ==> r.writeBytes == h.size + Overruns(s, steps))
  }

  lemma {:induction false} ReportsTell(sys: System, past: seq<Event>, id: nat, r: Report, now: int)
    requires Reports(sys, past, id, r, now)
    ensures TellsRight(sys.secure, sys.size, StepsOf(past, id), r)
  {
    var steps := StepsOf(past, id);
    var s, start :| Led(sys, steps, s, start, now) && s.pending.Reported? && r == s.report;
    RightReports(sys.secure, sys.size, start, steps);
    var h := RunIsTold(sys.secure, sys.size, start, steps);
    if h.outcome.Ended? {
      TimesTold(h);
    }
    assert TellsRightFrom(h, steps, r);
  }

  /**
   * Over every interleaving of completions from the start of the benchmark on: the sessions spawned are those that
   * reported, each once, and those in flight; until it is stopped, as many are in flight as there are clients; and every
   * report in the list is right exactly when the completions of its own session end on the end of the stream.
   */
  lemma {:induction false} ClosedLoop(secure: bool, size: nat, clients: nat, start: int, events: seq<Event>)
    requires start >= 0 && Runs(SpawnMany(System(secure, size, 0, map[], [], false), clients, start), events, start)
    ensures var sys := RunEvents(SpawnMany(System(secure, size, 0, map[], [], false), clients, start), events, start);
            && sys.spawned == |sys.list| + |sys.sessions|
            && (!sys.stopped ==> |sys.sessions| == clients)
            && (forall k, l :: 0 <= k < l < |sys.list| ==> sys.list[k].0 != sys.list[l].0)
            && (forall k :: 0 <= k < |sys.list| ==>
                  sys.list[k].0 !in sys.sessions && TellsRight(secure, size, StepsOf(events, sys.list[k].0), sys.list[k].1))
  {
    var begun := SpawnMany(System(secure, size, 0, map[], [], false), clients, start);
    StartBalanced(System(secure, size, 0, map[], [], false), clients, start);
    RunBalanced(begun, clients, [], events, start);
    assert [] + events == events;
    var sys := RunEvents(begun, events, start);
    forall k | 0 <= k < |sys.list| ensures TellsRight(secure, size, StepsOf(events, sys.list[k].0), sys.list[k].1) {
      ReportsTell(sys, events, sys.list[k].0, sys.list[k].1, LastTime(events, start));
    }
  }

  /** A completion moves its own session, which then goes on or hands in its report. */
  lemma {:induction false} NextIsOneSession(sys: System, id: nat, c: Completion, now: int)
    requires id in sys.sessions
    ensures var t := Complete(sys.sessions[id], c, now);
            var moved := sys.(sessions := sys.sessions[id := t]);
            Next(sys, Completed(id, c, now)) == if t.pending.Reported? then TakeReport(moved, id, t.report, now) else moved
  {
    var t := Complete(sys.sessions[id], c, now);
    assert sys.sessions[id := t] - {id} == sys.sessions - {id};
  }

  // ---------------------------------------------------------------- the object

  class Scheduler {
    const secure: bool
    const request: array<Byte>
    var list: seq<(nat, Report)>
    var stopped: bool

    /** The sessions, held by their completion handlers; `spawned` numbers them. */
    var sessions: map<nat, HttpSession>
    var spawned: nat

    /** What the sessions are at, and whose each object is. */
    ghost var states: map<nat, Session>
    ghost var owner: map<object, nat>

    constructor (secure: bool, request: array<Byte>)
      ensures Valid() && Now() == System(secure, request.Length, 0, map[], [], false)
    {
      this.secure, this.request, list, stopped, sessions, spawned := secure, request, [], false, map[], 0;
      states, owner := map[], map[];
    }

    /** No two sessions share an object but the request; none is the scheduler. */
    ghost predicate Valid()
      reads this, owner.Keys
    {
      && this !in owner && states.Keys == sessions.Keys
      && forall id :: id in sessions ==> id < spawned && Owns(id, sessions[id]) && SessionOk(sessions[id], states[id])
    }

    ghost predicate Owns(id: nat, s: HttpSession)
      reads `owner
    {
      && s in owner && s.buffer in owner && s.report in owner
      && owner[s] == id && owner[s.buffer] == id && owner[s.report] == id
    }

    static ghost predicate SessionOk(s: HttpSession, state: Session)
      reads s, s.buffer, s.report
    {
      s.Valid() && s.Now() == state
    }

    ghost function Now(): System
      reads this
    {
      System(secure, request.Length, spawned, states, list, stopped)
    }

    /** The objects of a new session get an owner. */
    ghost method Own(a: object, b: object, c: object, id: nat)
      requires a !in owner && b !in owner && c !in owner
      modifies `owner
      ensures owner.Keys == old(owner.Keys) + {a, b, c} && owner[a] == owner[b] == owner[c] == id
      ensures forall o :: o in old(owner) ==> owner[o] == old(owner)[o]
    {
      owner := owner[a := id];
      owner := owner[b := id];
      owner := owner[c := id];
    }

    /** A new session is held under the next number. */
    method Add(s: HttpSession)
      requires Valid() && Owns(spawned, s) && SessionOk(s, s.Now())
      modifies `sessions, `states, `spawned
      ensures Valid()
      ensures Now() == old(Now()).(sessions := old(states)[old(spawned) := s.Now()], spawned := old(spawned) + 1)
    {
      sessions := sessions[spawned := s];
      states := states[spawned := s.Now()];
      spawned := spawned + 1;
    }

    method SpawnSession(now: int)
      requires Valid()
      modifies this
      ensures Valid() && Now() == SpawnOne(old(Now()), now) && owner.Keys >= old(owner.Keys) && fresh(owner.Keys - old(owner.Keys))
    {
      var s := new HttpSession(secure, request, now);
      Own(s, s.buffer, s.report, spawned);
      Add(s);
    }

    method Spawn(numbers: nat, now: int)
      requires Valid()
      modifies this
      ensures Valid() && Now() == SpawnMany(old(Now()), numbers, now)
      ensures owner.Keys >= old(owner.Keys) && fresh(owner.Keys - old(owner.Keys))
    {
      for i := 0 to numbers
        invariant Valid() && Now() == SpawnMany(old(Now()), i, now)
        invariant owner.Keys >= old(owner.Keys) && fresh(owner.Keys - old(owner.Keys))
      {
        SpawnSession(now);
      }
    }

    /** A finished session is let go. */
    method LetGo(id: nat)
      requires Valid()
      modifies this
      ensures Valid() && owner == old(owner)
      ensures Now() == old(Now()).(sessions := old(Now()).sessions - {id})
    {
      sessions := sessions - {id};
      states := states - {id};
    }

    /** A finished session is let go, and its report kept. */
    method ReportSession(id: nat, report: Report, now: int)
      requires Valid()
      modifies this
      ensures Valid() && Now() == TakeReport(old(Now()), id, report, now)
      ensures owner.Keys >= old(owner.Keys) && fresh(owner.Keys - old(owner.Keys))
    {
      LetGo(id);
      list := list + [(id, report)];
      if !stopped {
        SpawnSession(now);
      }
    }

    /** The handler of the operation in progress. */
    method Handle(s: HttpSession, c: Completion, now: int)
      requires s.Valid() && !s.pending.Reported?
      modifies s`pending, s.report, s.buffer`cursor
      ensures s.Valid() && s.Now() == Complete(old(s.Now()), c, now)
    {
      match s.pending
      case Connecting => s.OnConnect(c, now);
      case Handshaking => s.OnHandshake(c, now);
      case Writing => s.OnWrite(c, now);
      case Reading => s.OnRead(c, now);
      case Reported =>
    }

    /** Driving one session leaves the others alone. */
    method Drive(id: nat, s: HttpSession, c: Completion, now: int)
      requires Valid() && id in sessions && sessions[id] == s && !s.pending.Reported?
      modifies this, s, s.report, s.buffer
      ensures Valid() && s.Now() == Complete(old(states[id]), c, now) && owner == old(owner)
      ensures Now() == old(Now()).(sessions := old(states)[id := s.Now()])
    {
      Handle(s, c, now);
      states := states[id := s.Now()];
    }

    /** The completion of an operation, handed to the session that its handler holds. */
    method OnCompletion(id: nat, s: HttpSession, c: Completion, now: int)
      requires Valid() && id in sessions && sessions[id] == s && !s.pending.Reported?
      modifies this, s, s.report, s.buffer
      ensures Valid() && Now() == Next(old(Now()), Completed(id, c, now))
      ensures owner.Keys >= old(owner.Keys) && fresh(owner.Keys - old(owner.Keys))
    {
      NextIsOneSession(Now(), id, c, now);
      Drive(id, s, c, now);
      if s.pending.Reported? {
        ReportSession(id, s.report.Now(), now);
      }
    }
  }
}
