/** A session told from its completions alone: which operations they belong to, and the report they make. */
module ClientHistory {
  import opened ClientSession

  /** A completion that went well: how many bytes, and when. */
  type Transfer = (nat, int)

  /** How a session came to its end, if it did. */
  datatype Outcome = Unfinished | Ended(at: int) | Broken(completion: Completion, at: int)

  /**
   * The completions of a session by the operation they belong to: the connection, and for a secure session the handshake;
   * the writes; the reads; what ended it; and what came after that.
   */
  datatype History = History(
    secure: bool, size: nat, start: int, dials: seq<Transfer>, sent: seq<Transfer>, received: seq<Transfer>, outcome: Outcome,
    ignored: seq<Step>)
  {
    /** A secure session shakes hands once it is connected. */
    function Needed(): nat {
      if secure then 2 else 1
    }

    predicate Dialled() {
      |dials| == Needed()
    }

    predicate Written() {
      sent != [] && Sum(sent) >= size
    }

    /** Each operation begins when the one before is through: writing after the dials, reading after the whole request. */
    predicate Fits() {
      && |dials| <= Needed()
      && (sent != [] ==> Dialled() && (|sent| > 1 ==> Sum(sent[..|sent| - 1]) < size))
      && (received != [] ==> Written())
      && (outcome.Ended? ==> Written())
      && (outcome.Broken? ==> !outcome.completion.Done? && (outcome.completion.Eof? ==> !Written()))
      && (outcome.Unfinished? ==> ignored == [])
    }

    function Steps(): seq<Step> {
      Dones(dials) + Dones(sent) + Dones(received) + Last() + ignored
    }

    function Last(): seq<Step> {
      match outcome
      case Unfinished => []
      case Ended(at) => [Step(Eof, at)]
      case Broken(c, at) => [Step(c, at)]
    }

    /** The report: the bytes are the sums of the transfers, and each time is that of the completion it is named for. */
    function Told(): Report {
      var dialled := if Dialled() then dials[|dials| - 1].1 else UNSET;
      var written := if Written() then sent[|sent| - 1].1 else UNSET;
      Report(Sum(received), Sum(sent), start, dialled, dialled, written, written,
             if outcome.Ended? then outcome.at else UNSET,
             if outcome.Unfinished? then UNSET else outcome.at, outcome.Broken?)
    }

    /** The operation in progress. */
    function Awaited(): Pending {
      if !outcome.Unfinished? then Reported
      else if dials == [] then Connecting
      else if !Dialled() then Handshaking
      else if !Written() then Writing
      else Reading
    }

    function Now(): Session {
      Session(secure, size, Awaited(), if Written() then 0 else Sum(sent), Told())
    }
  }

  function Sum(ts: seq<Transfer>): nat {
    if ts == [] then 0 else Sum(ts[..|ts| - 1]) + ts[|ts| - 1].0
  }

  function Dones(ts: seq<Transfer>): seq<Step> {
    if ts == [] then [] else Dones(ts[..|ts| - 1]) + [Step(Done(ts[|ts| - 1].0), ts[|ts| - 1].1)]
  }

  lemma {:induction false} OneDone(ts: seq<Transfer>, t: Transfer)
    ensures Sum(ts + [t]) == Sum(ts) + t.0 && Dones(ts + [t]) == Dones(ts) + [Step(Done(t.0), t.1)]
  {
    assert (ts + [t])[..|ts|] == ts;
  }

  /** No time of a session that is running was unset by the clock. */
  predicate Timed(h: History) {
    h.start >= 0 && (forall t :: t in h.dials ==> t.1 >= 0) && (forall t :: t in h.sent ==> t.1 >= 0)
  }

  // ---------------------------------------------------------------- one completion more

  /** The history with one completion more. */
  function Extended(h: History, c: Completion, now: int): History {
    match h.Awaited()
    case Connecting | Handshaking =>
      if c.Done? then h.(dials := h.dials + [(c.bytes, now)]) else h.(outcome := Broken(c, now))
    case Writing => if c.Done? then h.(sent := h.sent + [(c.bytes, now)]) else h.(outcome := Broken(c, now))
    case Reading =>
      if c.Done? then h.(received := h.received + [(c.bytes, now)])
      else if c.Eof? then h.(outcome := Ended(now)) else h.(outcome := Broken(c, now))
    case Reported => h.(ignored := h.ignored + [Step(c, now)])
  }

  /** One completion more, and the session it leads to. */
  ghost predicate Follows(h: History, k: History, c: Completion, now: int) {
    && k.Fits() && Timed(k) && k.secure == h.secure && k.size == h.size && k.start == h.start
    && k.Steps() == h.Steps() + [Step(c, now)] && k.Now() == Complete(h.Now(), c, now)
  }

  lemma {:induction false} DialledOnce(h: History, b: nat, now: int)
    requires h.Fits() && Timed(h) && now >= 0 && (h.Awaited().Connecting? || h.Awaited().Handshaking?)
    ensures Follows(h, h.(dials := h.dials + [(b, now)]), Done(b), now)
  {
    OneDone(h.dials, (b, now));
  }

  lemma {:induction false} SentOnce(h: History, b: nat, now: int)
    requires h.Fits() && Timed(h) && now >= 0 && h.Awaited().Writing?
    ensures Follows(h, h.(sent := h.sent + [(b, now)]), Done(b), now)
  {
    OneDone(h.sent, (b, now));
    assert (h.sent + [(b, now)])[..|h.sent|] == h.sent;
  }

  lemma {:induction false} ReceivedOnce(h: History, b: nat, now: int)
    requires h.Fits() && Timed(h) && now >= 0 && h.Awaited().Reading?
    ensures Follows(h, h.(received := h.received + [(b, now)]), Done(b), now)
  {
    OneDone(h.received, (b, now));
  }

  lemma {:induction false} EndedOnce(h: History, now: int)
    requires h.Fits() && Timed(h) && now >= 0 && h.Awaited().Reading?
    ensures Follows(h, h.(outcome := Ended(now)), Eof, now)
  {
  }

  lemma {:induction false} BrokenOnce(h: History, c: Completion, now: int)
    requires h.Fits() && Timed(h) && now >= 0 && !h.Awaited().Reported? && !c.Done? && (h.Awaited().Reading? ==> c.Error?)
    ensures Follows(h, h.(outcome := Broken(c, now)), c, now)
  {
  }

  lemma {:induction false} IgnoredOnce(h: History, c: Completion, now: int)
    requires h.Fits() && Timed(h) && h.Awaited().Reported?
    ensures Follows(h, h.(ignored := h.ignored + [Step(c, now)]), c, now)
  {
  }

  lemma {:induction false} ExtendedFollows(h: History, c: Completion, now: int)
    requires h.Fits() && Timed(h) && now >= 0
    ensures Follows(h, Extended(h, c, now), c, now)
  {
    match h.Awaited()
    case Connecting | Handshaking =>
      if c.Done? {
        DialledOnce(h, c.bytes, now);
      } else {
        BrokenOnce(h, c, now);
      }
    case Writing =>
      if c.Done? {
        SentOnce(h, c.bytes, now);
      } else {
        BrokenOnce(h, c, now);
      }
    case Reading =>
      match c {
        case Done(b) => ReceivedOnce(h, b, now);
        case Eof => EndedOnce(h, now);
        case Error => BrokenOnce(h, c, now);
      }
    case Reported => IgnoredOnce(h, c, now);
  }

  // ---------------------------------------------------------------- all runs

  /**
   * Every run of a session has a history, and the session is what the history tells: a secure session writes only after
   * its handshake; the bytes read are the sum of all reads, those written the sum of all writes; every time is that of the
   * completion it is named for.
   */
  lemma {:induction false} RunIsTold(secure: bool, size: nat, start: int, steps: seq<Step>) returns (h: History)
    requires start >= 0 && Clocked(start, steps)
    ensures h.Fits() && Timed(h) && h.secure == secure && h.size == size && h.start == start && h.Steps() == steps
    ensures RunAll(NewSession(secure, size, start), steps) == h.Now()
    decreases |steps|
  {
    if steps == [] {
      h := History(secure, size, start, [], [], [], Unfinished, []);
    } else {
      var front, last := steps[..|steps| - 1], steps[|steps| - 1];
      var before := RunIsTold(secure, size, start, front);
      h := Extended(before, last.completion, last.now);
      ExtendedFollows(before, last.completion, last.now);
    }
  }

  /** The times of a session that ended: they are those between its last dial, its last write and its end, and add up. */
  lemma {:induction false} TimesTold(h: History)
    requires h.Fits() && h.outcome.Ended?
    ensures var r, dialled, written := h.Told(), h.dials[|h.dials| - 1].1, h.sent[|h.sent| - 1].1;
            && r.ConnectTime() == dialled - h.start && r.WritingTime() == written - dialled && r.DealingTime() == 0
            && r.ReadingTime() == h.outcome.at - written && r.WholeTime() == h.outcome.at - h.start
            && r.IoTime() == h.outcome.at - dialled
            && r.ConnectTime() + r.IoTime() + r.DealingTime() == r.WholeTime()
  {
  }
}
