/** A benchmark client's session: its report, its buffer cursor, and what each completion of an operation does to them. */
module ClientSession {
  import opened Bytes
  import opened ReadBuffer

  const UNSET := -1

  // ---------------------------------------------------------------- the report

  /** Times are set once; the start is the time the report was made. */
  datatype Report = Report(
    readBytes: nat, writeBytes: nat, start: int, connected: int, writeStart: int, writeEnd: int, readStart: int, readEnd: int,
    end: int, failed: bool)
  {
    predicate IsRight() {
      !failed && connected != UNSET && writeStart != UNSET && writeEnd != UNSET && readStart != UNSET && readEnd != UNSET
      && end != UNSET
    }

    function ConnectTime(): int {
      connected - start
    }

    function WritingTime(): int {
      writeEnd - writeStart
    }

    function ReadingTime(): int {
      readEnd - readStart
    }

    function DealingTime(): int {
      readStart - writeEnd
    }

    function WholeTime(): int {
      end - start
    }

    function IoTime(): int {
      ReadingTime() + WritingTime()
    }
  }

  function Once(time: int, now: int): int {
    if time == UNSET then now else time
  }

  function NewReport(now: int): Report {
    Report(0, 0, now, UNSET, UNSET, UNSET, UNSET, UNSET, UNSET, false)
  }

  // ---------------------------------------------------------------- the session

  /** The operation in progress. A report is handed in when none is left. */
  datatype Pending = Connecting | Handshaking | Writing | Reading | Reported

  /** How an operation completes. The end of the stream is an error code of a read like any other to the socket. */
  datatype Completion = Done(bytes: nat) | Eof | Error

  datatype Session = Session(secure: bool, size: nat, pending: Pending, cursor: nat, report: Report)

  function NewSession(secure: bool, size: nat, now: int): Session {
    Session(secure, size, Connecting, 0, NewReport(now))
  }

  function ToWrite(s: Session, now: int): Session {
    s.(pending := Writing, report := s.report.(connected := Once(s.report.connected, now), writeStart := Once(s.report.writeStart, now)))
  }

  function ToRead(s: Session, now: int): Session {
    s.(pending := Reading, report := s.report.(writeEnd := Once(s.report.writeEnd, now), readStart := Once(s.report.readStart, now)))
  }

  function ToError(s: Session, now: int): Session {
    s.(pending := Reported, report := s.report.(failed := true, end := Once(s.report.end, now)))
  }

  function ToDone(s: Session, now: int): Session {
    s.(pending := Reported, report := s.report.(readEnd := Once(s.report.readEnd, now), end := Once(s.report.end, now)))
  }

  /** The cursor after a write; it stops at the end of the request. */
  function Advanced(s: Session, bytes: nat): nat {
    if s.cursor + bytes <= s.size then s.cursor + bytes else s.size
  }

  /** What the completion of the operation in progress does. */
  function Complete(s: Session, c: Completion, now: int): Session {
    match s.pending
    case Connecting =>
      if !c.Done? then ToError(s, now) else if s.secure then s.(pending := Handshaking) else ToWrite(s, now)
    case Handshaking => if c.Done? then ToWrite(s, now) else ToError(s, now)
    case Writing =>
      if !c.Done? then ToError(s, now)
      else
        var t := s.(cursor := Advanced(s, c.bytes), report := s.report.(writeBytes := s.report.writeBytes + c.bytes));
        if t.cursor == t.size then ToRead(t.(cursor := 0), now) else ToWrite(t, now)
    case Reading =>
      if c.Done? then ToRead(s.(report := s.report.(readBytes := s.report.readBytes + c.bytes)), now)
      else if c.Eof? then ToDone(s, now)
      else ToError(s, now)
    case Reported => s
  }

  // ---------------------------------------------------------------- what holds in every state

  /** Times in order, up to the latest, `now`. */
  ghost predicate Ordered(r: Report, now: int) {
    && 0 <= r.start <= now
    && (r.connected != UNSET ==> r.start <= r.connected <= now)
    && (r.writeStart != UNSET ==> r.connected != UNSET && r.connected <= r.writeStart <= now)
    && (r.writeEnd != UNSET ==> r.writeStart != UNSET && r.writeStart <= r.writeEnd <= now)
    && (r.readStart != UNSET ==> r.writeEnd != UNSET && r.writeEnd <= r.readStart <= now)
    && (r.readEnd != UNSET ==> r.readStart != UNSET && r.readStart <= r.readEnd <= now)
    && (r.end != UNSET ==> r.start <= r.end <= now && r.readEnd <= r.end)
  }

  /**
   * `extra` is by how much write completions took more than was left of the request: the operation offers as many
   * bytes as the whole request has, from the cursor on.
   */
  ghost predicate Sound(s: Session, now: int, extra: nat) {
    var r := s.report;
    && Ordered(r, now) && s.cursor <= s.size
    && match s.pending
       case Connecting => r == NewReport(r.start) && s.cursor == 0 && extra == 0
       case Handshaking => r == NewReport(r.start) && s.cursor == 0 && extra == 0
       case Writing =>
         && !r.failed && r.connected != UNSET && r.writeStart != UNSET && r.writeEnd == UNSET && r.readEnd == UNSET && r.end == UNSET
         && r.writeBytes == s.cursor && extra == 0 && r.readStart == UNSET
       case Reading =>
         && !r.failed && r.connected != UNSET && r.writeStart != UNSET && r.writeEnd != UNSET && r.readStart != UNSET
         && r.readEnd == UNSET && r.end == UNSET && r.writeBytes == s.size + extra && s.cursor == 0
       case Reported => r.end != UNSET && (!r.failed ==> r.IsRight() && r.writeBytes == s.size + extra)
  }

  /** What a write completion takes beyond what was left. */
  function Overrun(s: Session, c: Completion): nat {
    if s.pending.Writing? && c.Done? && s.cursor + c.bytes > s.size then s.cursor + c.bytes - s.size else 0
  }

  lemma {:induction false} NewIsSound(secure: bool, size: nat, now: int)
    requires now >= 0
    ensures Sound(NewSession(secure, size, now), now, 0)
  {
  }

  /** Every completion keeps the invariant, with a clock that does not run backwards. */
  lemma {:induction false} CompleteKeepsSound(s: Session, c: Completion, before: int, now: int, extra: nat)
    requires Sound(s, before, extra) && before <= now
    ensures Sound(Complete(s, c, now), now, extra + Overrun(s, c))
  {
  }

  /** The completions of one session, each with its time. */
  datatype Step = Step(completion: Completion, now: int)

  function RunAll(s: Session, steps: seq<Step>): Session
    decreases |steps|
  {
    if steps == [] then s
    else var last := steps[|steps| - 1]; Complete(RunAll(s, steps[..|steps| - 1]), last.completion, last.now)
  }

  function Overruns(s: Session, steps: seq<Step>): nat
    decreases |steps|
  {
    if steps == [] then 0
    else
      var front := steps[..|steps| - 1];
      Overruns(s, front) + Overrun(RunAll(s, front), steps[|steps| - 1].completion)
  }

  /** The clock of a run does not run backwards. */
  predicate Clocked(start: int, steps: seq<Step>) {
    && (forall i :: 0 <= i < |steps| ==> start <= steps[i].now)
    && (forall i, j :: 0 <= i < j < |steps| ==> steps[i].now <= steps[j].now)
  }

  function Latest(start: int, steps: seq<Step>): int {
    if steps == [] then start else steps[|steps| - 1].now
  }

  lemma {:induction false} RunIsSound(secure: bool, size: nat, start: int, steps: seq<Step>)
    requires start >= 0 && Clocked(start, steps)
    ensures var s := NewSession(secure, size, start);
            Sound(RunAll(s, steps), Latest(start, steps), Overruns(s, steps))
    decreases |steps|
  {
    var s := NewSession(secure, size, start);
    if steps == [] {
      NewIsSound(secure, size, start);
    } else {
      var front, last := steps[..|steps| - 1], steps[|steps| - 1];
      RunIsSound(secure, size, start, front);
      CompleteKeepsSound(RunAll(s, front), last.completion, Latest(start, front), last.now, Overruns(s, front));
    }
  }

  /** Whether a run ends on the end of the stream. */
  predicate EndsOnEof(s: Session, steps: seq<Step>)
    decreases |steps|
  {
    && steps != []
    && var front := steps[..|steps| - 1];
       EndsOnEof(s, front) || (RunAll(s, front).pending.Reading? && steps[|steps| - 1].completion.Eof?)
  }

  lemma {:induction false} RightMeansEof(s: Session, steps: seq<Step>)
    requires !s.pending.Reported?
    ensures RunAll(s, steps).pending.Reported? ==> (RunAll(s, steps).report.failed <==> !EndsOnEof(s, steps) || s.report.failed)
    ensures !RunAll(s, steps).pending.Reported? ==> !EndsOnEof(s, steps) && RunAll(s, steps).report.failed == s.report.failed
    decreases |steps|
  {
    if steps != [] {
      RightMeansEof(s, steps[..|steps| - 1]);
    }
  }

  /**
   * Whatever the completions, a session's report is right exactly when the session ended on the end of the stream, and
   * then its parts of time fit into the whole; the bytes written are then those of the request exactly when no write
   * took more than was left of it.
   */
  lemma {:induction false} RightReports(secure: bool, size: nat, start: int, steps: seq<Step>)
    requires start >= 0 && Clocked(start, steps)
    ensures var s := NewSession(secure, size, start);
            var r := RunAll(s, steps).report;
            && (r.IsRight() <==> EndsOnEof(s, steps))
            && (r.IsRight() ==> r.ConnectTime() + r.IoTime() + r.DealingTime() <= r.WholeTime())
            && (r.IsRight() ==> r.writeBytes == size + Overruns(s, steps))
            && (r.IsRight() ==> (r.writeBytes == size <==> Overruns(s, steps) == 0))
  {
    var s := NewSession(secure, size, start);
    RunIsSound(secure, size, start, steps);
    RightMeansEof(s, steps);
    SizeStays(s, steps);
  }

  lemma {:induction false} SizeStays(s: Session, steps: seq<Step>)
    ensures RunAll(s, steps).size == s.size
    decreases |steps|
  {
    if steps != [] {
      SizeStays(s, steps[..|steps| - 1]);
    }
  }

  /** A run in which more is written than the request has: the second write is offered ten bytes with six left, and takes them. */
  lemma {:induction false} TooMuchWritten()
    ensures var s := NewSession(false, 10, 0);
            var steps := [Step(Done(0), 0), Step(Done(4), 0), Step(Done(10), 0), Step(Eof, 0)];
            RunAll(s, steps).report.IsRight() && RunAll(s, steps).report.writeBytes == 14
  {
    var s := NewSession(false, 10, 0);
    var steps := [Step(Done(0), 0), Step(Done(4), 0), Step(Done(10), 0), Step(Eof, 0)];
    assert steps[..3][..2] == steps[..2] && steps[..2][..1] == steps[..1] && steps[..1][..0] == [];
    assert RunAll(s, []) == s;
    var s1 := RunAll(s, steps[..1]);
    assert s1 == ToWrite(s, 0);
    var s2 := RunAll(s, steps[..2]);
    assert s2.pending.Writing? && s2.cursor == 4 && s2.report.writeBytes == 4;
    var s3 := RunAll(s, steps[..3]);
    assert s3.pending.Reading? && s3.report.writeBytes == 14;
  }

  // ---------------------------------------------------------------- the objects

  class ClientReport {
    var readBytes: nat
    var writeBytes: nat
    var start: int
    var connected: int
    var writeStart: int
    var writeEnd: int
    var readStart: int
    var readEnd: int
    var end: int
    var failed: bool

    constructor (now: int)
      ensures Now() == NewReport(now)
    {
      readBytes, writeBytes, start, failed := 0, 0, now, false;
      connected, writeStart, writeEnd, readStart, readEnd, end := UNSET, UNSET, UNSET, UNSET, UNSET, UNSET;
    }

    function Now(): Report
      reads this
    {
      Report(readBytes, writeBytes, start, connected, writeStart, writeEnd, readStart, readEnd, end, failed)
    }

    method ReportConnectedTime(now: int)
      modifies `connected
      ensures connected == Once(old(connected), now)
    {
      if connected == UNSET {
        connected := now;
      }
    }

    method ReportWriteStartTime(now: int)
      modifies `writeStart
      ensures writeStart == Once(old(writeStart), now)
    {
      if writeStart == UNSET {
        writeStart := now;
      }
    }

    method ReportWriteEndTime(now: int)
      modifies `writeEnd
      ensures writeEnd == Once(old(writeEnd), now)
    {
      if writeEnd == UNSET {
        writeEnd := now;
      }
    }

    method ReportReadStartTime(now: int)
      modifies `readStart
      ensures readStart == Once(old(readStart), now)
    {
      if readStart == UNSET {
        readStart := now;
      }
    }

    method ReportReadEndTime(now: int)
      modifies `readEnd
      ensures readEnd == Once(old(readEnd), now)
    {
      if readEnd == UNSET {
        readEnd := now;
      }
    }

    method ReportEndTime(now: int)
      modifies `end
      ensures end == Once(old(end), now)
    {
      if end == UNSET {
        end := now;
      }
    }
  }

  /** The states the completion handlers move a session to. */
  datatype BenchState = KToWrite | KToRead | KDone | KError

  class HttpSession {
    const secure: bool
    const buffer: ReadBufferAdapter
    const report: ClientReport
    var pending: Pending

    ghost predicate Valid()
      reads this, buffer
    {
      buffer.Valid()
    }

    /** A session over a request that other sessions share, with a cursor of its own. */
    constructor (secure: bool, request: array<Byte>, now: int)
      ensures Valid() && Now() == NewSession(secure, request.Length, now) && fresh(buffer) && fresh(report)
      ensures buffer.data == request
    {
      this.secure, pending := secure, Connecting;
      buffer := new ReadBufferAdapter.Shared(request);
      report := new ClientReport(now);
    }

    function Now(): Session
      reads this, buffer, report
    {
      Session(secure, buffer.data.Length, pending, buffer.cursor, report.Now())
    }

    /** Starts the next operation; once it is done, or in error, the report is finished. */
    method Bench(state: BenchState, now: int)
      modifies `pending, report
      ensures Now() == match state
                       case KToWrite => ToWrite(old(Now()), now)
                       case KToRead => ToRead(old(Now()), now)
                       case KDone => ToDone(old(Now()), now)
                       case KError => old(Now()).(pending := Reported, report := old(Now()).report.(end := Once(old(report.end), now)))
    {
      match state
      case KToWrite =>
        report.ReportConnectedTime(now);
        if !secure {
          if report.writeStart == UNSET {
            report.ReportWriteStartTime(now);
          }
        } else {
          report.ReportWriteStartTime(now);
        }
        pending := Writing;
      case KToRead =>
        report.ReportWriteEndTime(now);
        report.ReportReadStartTime(now);
        pending := Reading;
      case KDone =>
        report.ReportReadEndTime(now);
        report.ReportEndTime(now);
        pending := Reported;
      case KError =>
        report.ReportEndTime(now);
        pending := Reported;
    }

    method Fail(now: int)
      modifies `pending, report
      ensures Now() == ToError(old(Now()), now)
    {
      report.failed := true;
      Bench(KError, now);
    }

    method OnConnect(c: Completion, now: int)
      requires Valid() && pending.Connecting?
      modifies `pending, report
      ensures Now() == Complete(old(Now()), c, now)
    {
      if !c.Done? {
        Fail(now);
      } else if secure {
        pending := Handshaking;
      } else {
        Bench(KToWrite, now);
      }
    }

    method OnHandshake(c: Completion, now: int)
      requires Valid() && pending.Handshaking?
      modifies `pending, report
      ensures Now() == Complete(old(Now()), c, now)
    {
      if c.Done? {
        Bench(KToWrite, now);
      } else {
        Fail(now);
      }
    }

    method OnWrite(c: Completion, now: int)
      requires Valid() && pending.Writing?
      modifies `pending, report, buffer`cursor
      ensures Valid() && Now() == Complete(old(Now()), c, now)
    {
      if !c.Done? {
        Fail(now);
        return;
      }
      buffer.IncreaseCursor(c.bytes);
      report.writeBytes := report.writeBytes + c.bytes;
      if buffer.IsFinish() {
        buffer.ResetCursor();
        Bench(KToRead, now);
      } else {
        Bench(KToWrite, now);
      }
    }

    method OnRead(c: Completion, now: int)
      requires Valid() && pending.Reading?
      modifies `pending, report
      ensures Now() == Complete(old(Now()), c, now)
    {
      match c
      case Done(bytes) =>
        report.readBytes := report.readBytes + bytes;
        Bench(KToRead, now);
      case Eof => Bench(KDone, now);
      case Error => Fail(now);
    }
  }
}
