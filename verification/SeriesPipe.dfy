/**
 The FIFO between k6, the goroutine that reads its series and the harness that runs both
 (loadgen/k6.go), as a machine of their steps in every possible order.

 Opening follows the pipe's rules (open() in the System Interfaces volume of POSIX.1-2017, and
 Linux on what counts as present): a blocking open waits until the other side has opened since, and a
 side counts as present from the moment it enters open().  k6 opens the pipe at most once.
 */
module SeriesPipe {
  import opened Options

  type Bytes = seq<char>

  /** free: a writer has appeared since the reader entered open(). */
  datatype Reader = NotStarted | Opening(free: bool) | Reading | Finished(eof: bool)

  /** met: a reader has been present since k6 entered open(). */
  datatype Writer = NotOpened | Waiting(met: bool) | Writing | Exited

  datatype Outcome = RunFailed | SeriesFailed | TimedOut | Complete

  /** failed: runner.Run returned an error. */
  datatype Harness =
    | Running
    | Releasing(failed: bool)
    | Holding(failed: bool)
    | Awaiting(failed: bool)
    | Returned(outcome: Outcome)

  /** left: how much more k6 may write.  late: the reader had not entered open() when the release was tried. */
  datatype State = State(
    reader: Reader, k6: Writer, harness: Harness, late: bool,
    buffer: Bytes, written: Bytes, consumed: Bytes, left: nat)

  datatype Event =
    | ReaderEnters | ReaderCannotOpen | ReaderOpens | ReaderConsumes(n: nat) | ReaderSeesEnd | ReaderGivesUp
    | K6Attempts | K6Opens | K6Writes(bytes: Bytes) | K6Exits
    | RunReturns(failed: bool) | ReleaseOpens | ReleaseCloses | ReadDone | TimerFires

  function Init(budget: nat): State {
    State(NotStarted, NotOpened, Running, false, [], [], [], budget)
  }

  /** Inside open() or past it. */
  predicate ReaderPresent(s: State) {
    s.reader.Opening? || s.reader.Reading?
  }

  predicate WriterPresent(s: State) {
    s.k6.Waiting? || s.k6.Writing? || s.harness.Holding?
  }

  function Freed(r: Reader): Reader {
    if r.Opening? then Opening(true) else r
  }

  /** The state after an event; None when it cannot happen.  capacity is what the pipe buffers. */
  function Do(s: State, e: Event, capacity: nat): Option<State> {
    match e
    case ReaderEnters =>
      if s.reader == NotStarted
      then Some(s.(reader := Opening(WriterPresent(s)), k6 := if s.k6.Waiting? then Waiting(true) else s.k6))
      else None
    case ReaderCannotOpen => if s.reader == NotStarted then Some(s.(reader := Finished(false))) else None
    case ReaderOpens => if s.reader == Opening(true) then Some(s.(reader := Reading)) else None
    case ReaderConsumes(n) =>
      if s.reader == Reading && 0 < n <= |s.buffer|
      then Some(s.(consumed := s.consumed + s.buffer[..n], buffer := s.buffer[n..]))
      else None
    case ReaderSeesEnd =>
      if s.reader == Reading && s.buffer == [] && !WriterPresent(s) then Some(s.(reader := Finished(true))) else None
    case ReaderGivesUp => if s.reader == Reading then Some(s.(reader := Finished(false))) else None
    case K6Attempts =>
      if s.k6 == NotOpened then Some(s.(k6 := Waiting(ReaderPresent(s)), reader := Freed(s.reader))) else None
    case K6Opens => if s.k6 == Waiting(true) then Some(s.(k6 := Writing)) else None
    case K6Writes(bytes) =>
      if s.k6 == Writing && ReaderPresent(s) && 0 < |bytes| <= s.left && |s.buffer| + |bytes| <= capacity
      then Some(s.(buffer := s.buffer + bytes, written := s.written + bytes, left := s.left - |bytes|))
      else None
    case K6Exits => if s.k6 != Exited then Some(s.(k6 := Exited)) else None
    case RunReturns(failed) => if s.harness == Running && s.k6 == Exited then Some(s.(harness := Releasing(failed))) else None
    case ReleaseOpens =>
      if !s.harness.Releasing? then None
      else if ReaderPresent(s) then Some(s.(harness := Holding(s.harness.failed), reader := Freed(s.reader)))
      else Some(s.(harness := Awaiting(s.harness.failed), late := s.reader == NotStarted))
    case ReleaseCloses => if s.harness.Holding? then Some(s.(harness := Awaiting(s.harness.failed))) else None
    case ReadDone =>
      if s.harness.Awaiting? && s.reader.Finished?
      then Some(s.(harness := Returned(
             if s.harness.failed then RunFailed else if s.reader.eof then Complete else SeriesFailed)))
      else None
    case TimerFires =>
      if s.harness == Awaiting(false) then Some(s.(harness := Returned(TimedOut))) else None
  }

  function Exec(s: State, events: seq<Event>, capacity: nat): Option<State>
    decreases events
  {
    if events == [] then Some(s)
    else match Do(s, events[0], capacity) case Some(s') => Exec(s', events[1..], capacity) case None => None
  }

  // ---------- what every step keeps ----------

  predicate Released(h: Harness) { h.Awaiting? || h.Returned? }

  predicate Inv(s: State) {
    // Every byte written is consumed or still in the pipe, in order.
    && s.consumed + s.buffer == s.written
    // The harness moves past Running only when k6 is gone.
    && (s.harness != Running ==> s.k6 == Exited)
    // A reader gets out of open() only on account of a writer.
    && (s.reader == Opening(true) || s.reader == Reading || s.reader == Finished(true) ==> s.k6 != NotOpened)
    // A reader and a writer that are both inside open() have met.
    && (s.k6.Waiting? && ReaderPresent(s) ==> s.k6.met && s.reader != Opening(false))
    && (s.k6 == Waiting(true) || s.k6 == Writing ==> s.reader != Opening(false) && s.reader != NotStarted)
    // Only an ended stream is reported as ended.
    && (s.reader == Finished(true) ==> s.k6 == Exited && s.buffer == [])
    && (s.reader == Opening(false) && (s.harness.Holding? || Released(s.harness)) ==> s.late)
    && (s.harness.Holding? ==> s.reader != NotStarted && !s.late)
    && (Released(s.harness) && s.reader == NotStarted ==> s.late)
    && (s.late ==> Released(s.harness) && (s.reader == NotStarted || s.reader == Opening(false) || s.reader == Finished(false)))
    && (s.harness.Returned? && s.harness.outcome == Complete ==> s.reader == Finished(true))
    && (s.k6 == NotOpened ==> s.written == [])
  }

  lemma StepKeepsInv(s: State, e: Event, capacity: nat)
    requires Inv(s) && Do(s, e, capacity).Some?
    ensures Inv(Do(s, e, capacity).value)
  {
    match e
    case ReaderConsumes(n) =>
      assert s.buffer == s.buffer[..n] + s.buffer[n..];
    case _ =>
  }

  lemma {:induction false} RunKeepsInv(s: State, events: seq<Event>, capacity: nat)
    requires Inv(s) && Exec(s, events, capacity).Some?
    ensures Inv(Exec(s, events, capacity).value)
    decreases events
  {
    if events != [] {
      StepKeepsInv(s, events[0], capacity);
      RunKeepsInv(Do(s, events[0], capacity).value, events[1..], capacity);
      hide Do, Inv;
    }
  }

  ghost predicate Reachable(s: State, budget: nat, capacity: nat) {
    exists events :: Exec(Init(budget), events, capacity) == Some(s)
  }

  lemma ReachableInv(s: State, budget: nat, capacity: nat)
    requires Reachable(s, budget, capacity)
    ensures Inv(s)
  {
    var events :| Exec(Init(budget), events, capacity) == Some(s);
    RunKeepsInv(Init(budget), events, capacity);
  }

  // ---------- safety ----------

  /** A run is reported complete only when every byte k6 ever wrote has been consumed, in order, and k6 is gone. */
  lemma CompleteMeansEverything(s: State, budget: nat, capacity: nat)
    requires Reachable(s, budget, capacity) && s.harness == Returned(Complete)
    ensures s.consumed == s.written && s.k6 == Exited
  {
    ReachableInv(s, budget, capacity);
    assert s.consumed + [] == s.consumed;
  }

  /** The same of the end of the stream itself, whatever the harness goes on to report. */
  lemma EndMeansEverything(s: State, budget: nat, capacity: nat)
    requires Reachable(s, budget, capacity) && s.reader == Finished(true)
    ensures s.consumed == s.written && s.k6 == Exited
  {
    ReachableInv(s, budget, capacity);
    assert s.consumed + [] == s.consumed;
  }

  // ---------- every run ends ----------

  function RankOfReader(r: Reader): nat {
    match r case NotStarted => 4 case Opening(free) => if free then 2 else 3 case Reading => 1 case Finished(_) => 0
  }

  function RankOfWriter(w: Writer): nat {
    match w case NotOpened => 4 case Waiting(met) => if met then 2 else 3 case Writing => 1 case Exited => 0
  }

  function RankOfHarness(h: Harness): nat {
    match h case Running => 4 case Releasing(_) => 3 case Holding(_) => 2 case Awaiting(_) => 1 case Returned(_) => 0
  }

  /** How many more events there can be at most. */
  function Rank(s: State): nat {
    RankOfReader(s.reader) + RankOfWriter(s.k6) + RankOfHarness(s.harness) + 2 * s.left + |s.buffer|
  }

  lemma StepsTowardsTheEnd(s: State, e: Event, capacity: nat)
    requires Do(s, e, capacity).Some?
    ensures Rank(Do(s, e, capacity).value) < Rank(s)
  {
  }

  /** No run goes on for ever: with a bounded amount to write, the number of steps is bounded. */
  lemma {:induction false} RunsAreBounded(s: State, events: seq<Event>, capacity: nat)
    requires Exec(s, events, capacity).Some?
    ensures |events| <= Rank(s)
    decreases events
  {
    if events != [] {
      StepsTowardsTheEnd(s, events[0], capacity);
      RunsAreBounded(Do(s, events[0], capacity).value, events[1..], capacity);
      hide Do, Rank;
    }
  }

  // ---------- where runs end ----------

  /** Nothing can happen any more. */
  ghost predicate Terminal(s: State, capacity: nat) {
    forall e :: Do(s, e, capacity) == None
  }

  /** `<-readDone` on the error path, with the reader blocked in open() and nobody left to open the other end. */
  predicate Stuck(s: State) {
    s.harness == Awaiting(true) && s.reader == Opening(false) && s.k6 == Exited
  }

  /** Nothing can happen any more but an error of the reader's own. */
  ghost predicate Settled(s: State, capacity: nat) {
    forall e :: e != ReaderGivesUp && e != ReaderCannotOpen ==> Do(s, e, capacity) == None
  }

  /** In a settled state, what each participant must already have done. */
  lemma SettledMeans(s: State, capacity: nat)
    requires Settled(s, capacity)
    ensures s.k6 == Exited && s.reader != NotStarted && s.reader != Opening(true) && s.reader != Reading
    ensures s.harness.Returned? || s.harness == Awaiting(true)
    ensures s.harness.Awaiting? ==> !s.reader.Finished?
  {
    assert Do(s, K6Exits, capacity) == None;
    assert Do(s, ReaderEnters, capacity) == None;
    assert Do(s, ReaderOpens, capacity) == None;
    assert Do(s, ReaderConsumes(1), capacity) == None;
    assert Do(s, RunReturns(false), capacity) == None;
    assert Do(s, ReleaseOpens, capacity) == None;
    assert Do(s, ReleaseCloses, capacity) == None;
    assert Do(s, TimerFires, capacity) == None;
    assert Do(s, ReadDone, capacity) == None;
    assert Do(s, ReaderSeesEnd, capacity) == None;
  }

  /**
   Every run ends with the harness returned, except one way: runner.Run failed, and the reader had not
   entered open() when the pipe was released.  Those states are exactly the stuck ones.
   */
  lemma OnlyOneWayToHang(s: State, budget: nat, capacity: nat)
    requires Reachable(s, budget, capacity) && Terminal(s, capacity)
    ensures !s.harness.Returned? <==> Stuck(s)
    ensures Stuck(s) ==> s.late
  {
    ReachableInv(s, budget, capacity);
    SettledMeans(s, capacity);
    hide Do, Terminal, Settled;
  }

  /** And stuck is stuck: no event of any participant is possible. */
  lemma StuckForGood(s: State, capacity: nat)
    requires Inv(s) && Stuck(s)
    ensures Terminal(s, capacity)
  {
  }

  /** The hang is real: a run that reaches it, whatever the budget and capacity. */
  lemma HangIsReachable(budget: nat, capacity: nat) returns (s: State)
    ensures Reachable(s, budget, capacity) && Stuck(s)
  {
    var s0 := Init(budget);
    var s1 := s0.(k6 := Exited);
    var s2 := s1.(harness := Releasing(true));
    var s3 := s2.(harness := Awaiting(true), late := true);
    s := s3.(reader := Opening(false));
    Exec1(s3, ReaderEnters, s, [], s, capacity);
    Exec1(s2, ReleaseOpens, s3, [ReaderEnters], s, capacity);
    Exec1(s1, RunReturns(true), s2, [ReleaseOpens, ReaderEnters], s, capacity);
    Exec1(s0, K6Exits, s1, [RunReturns(true), ReleaseOpens, ReaderEnters], s, capacity);
    assert Exec(Init(budget), [K6Exits] + [RunReturns(true), ReleaseOpens, ReaderEnters], capacity) == Some(s);
  }

  lemma Exec1(s: State, e: Event, s': State, rest: seq<Event>, end: State, capacity: nat)
    requires Do(s, e, capacity) == Some(s') && Exec(s', rest, capacity) == Some(end)
    ensures Exec(s, [e] + rest, capacity) == Some(end)
  {
    assert ([e] + rest)[1..] == rest;
  }

  predicate Failed(h: Harness) {
    ((h.Releasing? || h.Holding? || h.Awaiting?) && h.failed) || h == Returned(RunFailed)
  }

  lemma {:induction false} FailureComesFromTheRun(s: State, events: seq<Event>, capacity: nat)
    requires Exec(s, events, capacity).Some? && RunReturns(true) !in events && !Failed(s.harness)
    ensures !Failed(Exec(s, events, capacity).value.harness)
    decreases events
  {
    if events != [] {
      assert events[0] in events && forall e :: e in events[1..] ==> e in events;
      FailureComesFromTheRun(Do(s, events[0], capacity).value, events[1..], capacity);
    }
  }

  /**
   When runner.Run gives no error the wait is bounded: every run that has come to an end, whatever the
   reader and k6 did, has the harness returned, and not with a failed run.
   */
  lemma BoundedWaitReturns(events: seq<Event>, s: State, budget: nat, capacity: nat)
    requires Exec(Init(budget), events, capacity) == Some(s) && Settled(s, capacity)
    requires RunReturns(true) !in events
    ensures s.harness.Returned? && s.harness.outcome != RunFailed
  {
    SettledMeans(s, capacity);
    FailureComesFromTheRun(Init(budget), events, capacity);
    hide Do, Settled, Exec;
  }

  /** Whether the reader enters open(), or fails to, before the release is tried. */
  predicate InTime(events: seq<Event>) {
    events != [] &&
    if events[0] == ReaderEnters || events[0] == ReaderCannotOpen then true
    else events[0] != ReleaseOpens && InTime(events[1..])
  }

  lemma {:induction false} LateStays(s: State, events: seq<Event>, capacity: nat)
    requires Inv(s) && Exec(s, events, capacity).Some? && (s.reader != NotStarted || Released(s.harness))
    ensures Exec(s, events, capacity).value.late == s.late
    decreases events
  {
    if events != [] {
      StepKeepsInv(s, events[0], capacity);
      LateStays(Do(s, events[0], capacity).value, events[1..], capacity);
    }
  }

  /** The late flag means what it says: a release was tried, and the reader had not been in open() before it. */
  lemma {:induction false} LateIff(s: State, events: seq<Event>, capacity: nat)
    requires Inv(s) && s.reader == NotStarted && (s.harness.Running? || s.harness.Releasing?)
    requires Exec(s, events, capacity).Some?
    ensures Exec(s, events, capacity).value.late <==> ReleaseOpens in events && !InTime(events)
    decreases events
  {
    if events != [] {
      var e, s' := events[0], Do(s, events[0], capacity).value;
      StepKeepsInv(s, e, capacity);
      assert events == [e] + events[1..];
      if e == ReaderEnters || e == ReaderCannotOpen || e == ReleaseOpens {
        LateStays(s', events[1..], capacity);
      } else {
        LateIff(s', events[1..], capacity);
      }
    }
  }

  lemma {:induction false} NoErrorNoFailure(s: State, events: seq<Event>, capacity: nat)
    requires Exec(s, events, capacity).Some? && s.reader != Finished(false)
    requires ReaderGivesUp !in events && ReaderCannotOpen !in events
    ensures Exec(s, events, capacity).value.reader != Finished(false)
    decreases events
  {
    if events != [] {
      assert events[0] in events && forall e :: e in events[1..] ==> e in events;
      NoErrorNoFailure(Do(s, events[0], capacity).value, events[1..], capacity);
    }
  }

  /**
   In every run in which the reader meets no error of its own and was in open() before the release, once
   nothing more can happen the reader has reached the end of the stream with every byte k6 wrote, in
   order, and the harness has returned.
   */
  lemma PromptReaderReadsEverything(events: seq<Event>, s: State, budget: nat, capacity: nat)
    requires Exec(Init(budget), events, capacity) == Some(s) && Settled(s, capacity)
    requires ReaderGivesUp !in events && ReaderCannotOpen !in events && InTime(events)
    ensures s.reader == Finished(true) && s.consumed == s.written && s.harness.Returned?
  {
    RunKeepsInv(Init(budget), events, capacity);
    LateIff(Init(budget), events, capacity);
    NoErrorNoFailure(Init(budget), events, capacity);
    SettledMeans(s, capacity);
    assert s.consumed + [] == s.consumed;
    hide Do, Settled, Exec, InTime;
  }

  /** What the release is for: with k6 gone before it opened, nothing but the harness can free the reader. */
  lemma OnlyTheHarnessCanFree(s: State, e: Event, capacity: nat)
    requires s.reader == Opening(false) && s.k6 == Exited && Do(s, e, capacity).Some?
    ensures e.RunReturns? || e.ReleaseOpens? || e.ReleaseCloses? || e.TimerFires?
    ensures e != ReleaseOpens ==> Do(s, e, capacity).value.reader == Opening(false)
    ensures e == ReleaseOpens ==> Do(s, e, capacity).value.reader == Opening(true)
  {
  }

  /** The timer is only a backstop: while it can fire on a reader that was in time, that reader is never blocked. */
  lemma PromptReaderIsNeverBlocked(s: State, budget: nat, capacity: nat)
    requires Reachable(s, budget, capacity) && s.harness.Awaiting? && !s.late && !s.reader.Finished?
    ensures exists e: Event :: (e.ReaderOpens? || e.ReaderConsumes? || e.ReaderSeesEnd?) && Do(s, e, capacity).Some?
  {
    ReachableInv(s, budget, capacity);
    if s.reader == Opening(true) {
      assert Do(s, ReaderOpens, capacity).Some?;
    } else if s.buffer != [] {
      assert Do(s, ReaderConsumes(1), capacity).Some?;
    } else {
      assert Do(s, ReaderSeesEnd, capacity).Some?;
    }
  }
}
