/**
 The PTY drainer's acknowledged shutdown and deferred clean-up, as the interleavings of
 its owner and its drainer over an honest kernel (benchmarks/pty_blackhole.py), and the
 writer that feeds its byte target (benchmarks/_pty_writer.py).
 */
module PtyBlackhole {
  import opened Prelude

  /** Where the owner stands, from the body of its `with` to the end of `__exit__`. */
  datatype OwnerAt =
    | Writing                    // in the body, or flushing on the way out
    | Recording(count: nat)      // the kernel took these bytes; they are not counted yet
    | Flushed                    // about to publish the target
    | Published                  // about to wake the drainer
    | Joining
    | Deciding                   // the drainer did not stop in time
    | ClosingWake                // cleaning up: the wake pipe first
    | ClosingSlave
    | OwnerDone

  /** Where the drainer stands in its loop and its `finally`. */
  datatype DrainerAt =
    | Checking
    | Selecting
    | Selected(masterReady: bool, wakeReady: bool)
    | Reading(target: Option<nat>)
    | Finishing
    | CleaningWake
    | CleaningSlave
    | Dead

  datatype DrainError = NoError | OsFailure | WakeClosed | NotPublished | MoreThanTarget | MasterClosed

  datatype State = State(
    owner: OwnerAt, drainer: DrainerAt,
    inPty: nat, drained: nat, expected: nat, target: Option<nat>, error: DrainError,
    wakes: nat, wakeClosed: bool, slaveClosed: bool,
    finished: bool, deferred: bool,
    // What an observer writes down: bytes the slave accepted, those accepted when the
    // target was published, and how often clean-up has begun.
    accepted: nat, acceptedAtPublish: nat, cleanups: nat)

  function Start(): State
  {
    State(Writing, Checking, 0, 0, 0, None, NoError, 0, false, false, false, false, 0, 0, 0)
  }

  datatype Event =
    | SlaveTakes(count: nat)       // the kernel accepts output, already translated
    | Record
    | FlushEnds
    | Publish
    | Wake
    | JoinStopped
    | JoinTimesOut
    | CloseOrDefer
    | OwnerClosesWake
    | OwnerClosesSlave(late: nat)  // closing flushes what an earlier flush could not
    | Check
    | SelectReturns
    | TakeWake
    | ReadReturns(got: Option<nat>)
    | OsFails
    | FinishDrain
    | DrainerClosesWake
    | DrainerClosesSlave(late: nat)
    | DrainerCloseFails(late: nat)  // the slave is closed, and its flush raised

  const READ_SIZE := 65536

  function ReadLimit(target: Option<nat>, drained: nat): int
  {
    match target
    case None => READ_SIZE
    case Some(t) => Min(READ_SIZE, t - drained)
  }

  /** Which steps the program and the kernel allow. An honest kernel ends the master only once the slave is closed. */
  predicate Enabled(s: State, e: Event)
  {
    match e
    case SlaveTakes(count) => s.owner.Writing? && count > 0
    case Record => s.owner.Recording?
    case FlushEnds => s.owner.Writing?
    case Publish => s.owner.Flushed?
    case Wake => s.owner.Published?
    case JoinStopped => s.owner.Joining? && s.drainer.Dead?
    case JoinTimesOut => s.owner.Joining?
    case CloseOrDefer => s.owner.Deciding?
    case OwnerClosesWake => s.owner.ClosingWake?
    case OwnerClosesSlave(_) => s.owner.ClosingSlave?
    case Check => s.drainer.Checking?
    case SelectReturns => s.drainer.Selecting? && (s.inPty > 0 || s.slaveClosed || s.wakes > 0 || s.wakeClosed)
    case TakeWake => s.drainer.Selected?
    case ReadReturns(count) =>
      && s.drainer.Reading?
      && (match count
          case None => true
          case Some(n) => n <= Min(s.inPty, ReadLimit(s.drainer.target, s.drained)) && (n == 0 ==> s.inPty == 0 && s.slaveClosed))
    case OsFails => s.drainer.Selecting? || s.drainer.Selected? || s.drainer.Reading?
    case FinishDrain => s.drainer.Finishing?
    case DrainerClosesWake => s.drainer.CleaningWake?
    case DrainerClosesSlave(_) => s.drainer.CleaningSlave?
    case DrainerCloseFails(_) => s.drainer.CleaningSlave?
  }

  function Fail(s: State, error: DrainError): State
  {
    s.(error := error, drainer := Finishing)
  }

  /** `_drain_until_target`: stop at the target, else wait for more. */
  function CheckStep(s: State): State
  {
    match s.target
    case None => s.(drainer := Selecting)
    case Some(t) =>
      if s.drained > t then Fail(s, MoreThanTarget)
      else if s.drained == t then s.(drainer := Finishing)
      else s.(drainer := Selecting)
  }

  /** The rest of `_drain_read_cycle` up to its read: take the control byte, look at the target again. */
  function TakeWakeStep(s: State): State
    requires s.drainer.Selected?
  {
    var ready, woken := s.drainer.masterReady, s.drainer.wakeReady;
    if woken && s.wakes == 0 then Fail(s, WakeClosed)
    else if woken && s.target.None? then Fail(s.(wakes := s.wakes - 1), NotPublished)
    else
      var t := if woken then s.(wakes := s.wakes - 1) else s;
      if t.target.Some? && t.drained > t.target.value then Fail(t, MoreThanTarget)
      else if (t.target.Some? && t.drained == t.target.value) || !ready then t.(drainer := Checking)
      else t.(drainer := Reading(t.target))
  }

  function ReadStep(s: State, count: Option<nat>): State
  {
    match count
    case None => s.(drainer := Checking)
    case Some(n) =>
      if n == 0 then Fail(s, MasterClosed)
      else s.(drained := s.drained + n, inPty := Max(s.inPty - n, 0), drainer := Checking)
  }

  /** The locked part of `_drain`'s `finally`: publish completion, and take over a deferred clean-up. */
  function FinishStep(s: State): State
  {
    s.(finished := true, deferred := false,
       drainer := if s.deferred then CleaningWake else Dead,
       cleanups := if s.deferred then s.cleanups + 1 else s.cleanups)
  }

  /** The locked part of `_close_or_defer_resources`. */
  function CloseOrDeferStep(s: State): State
  {
    if s.finished then s.(owner := ClosingWake, cleanups := s.cleanups + 1)
    else s.(owner := OwnerDone, deferred := true)
  }

  function CloseSlave(s: State, late: nat): State
  {
    s.(slaveClosed := true, inPty := s.inPty + late, accepted := s.accepted + late, expected := s.expected + late)
  }

  function Step(s: State, e: Event): State
    requires Enabled(s, e)
  {
    match e
    case SlaveTakes(n) => s.(owner := Recording(n), inPty := s.inPty + n, accepted := s.accepted + n)
    case Record => s.(owner := Writing, expected := s.expected + s.owner.count)
    case FlushEnds => s.(owner := Flushed)
    case Publish => s.(owner := Published, target := Some(s.expected), acceptedAtPublish := s.accepted)
    case Wake => s.(owner := Joining, wakes := s.wakes + 1)
    case JoinStopped => s.(owner := ClosingWake, cleanups := s.cleanups + 1)
    case JoinTimesOut => s.(owner := Deciding)
    case CloseOrDefer => CloseOrDeferStep(s)
    case OwnerClosesWake => s.(wakeClosed := true, owner := ClosingSlave)
    case OwnerClosesSlave(late) => CloseSlave(s, late).(owner := OwnerDone)
    case Check => CheckStep(s)
    case SelectReturns => s.(drainer := Selected(s.inPty > 0 || s.slaveClosed, s.wakes > 0 || s.wakeClosed))
    case TakeWake => TakeWakeStep(s)
    case ReadReturns(count) => ReadStep(s, count)
    case OsFails => Fail(s, OsFailure)
    case FinishDrain => FinishStep(s)
    case DrainerClosesWake => s.(wakeClosed := true, drainer := CleaningSlave)
    case DrainerClosesSlave(late) => CloseSlave(s, late).(drainer := Dead)
    case DrainerCloseFails(late) => CloseSlave(s, late).(drainer := Dead, error := OsFailure)
  }

  predicate Leads(s: State, events: seq<Event>, t: State)
    decreases |events|
  {
    if events == [] then s == t
    else Enabled(s, events[0]) && Leads(Step(s, events[0]), events[1..], t)
  }

  // ----------------------------------------------------------------- invariants

  /** Bytes are neither made nor lost, and the published target counts all of them. */
  ghost predicate Counted(s: State)
  {
    && s.accepted == s.drained + s.inPty
    && s.accepted == s.expected + (if s.owner.Recording? then s.owner.count else 0)
    && (s.target.Some? <==> !s.owner.Writing? && !s.owner.Recording? && !s.owner.Flushed?)
    && (s.target.Some? ==> s.target.value == s.acceptedAtPublish && s.drained <= s.target.value)
    && (s.target.Some? && !s.slaveClosed ==> s.accepted == s.acceptedAtPublish)
    && (s.wakes > 0 ==> s.target.Some? && !s.owner.Published?)
    && s.wakes <= 1
  }

  /** What the drainer knows at each point of its loop. */
  ghost predicate DrainerKnows(s: State)
  {
    && (s.drainer.Selected? && s.drainer.wakeReady ==> s.wakes > 0)
    && (s.drainer.Selected? && s.drainer.masterReady ==> s.inPty > 0)
    && (s.drainer.Selected? ==> s.drainer.masterReady || s.drainer.wakeReady)
    && (s.drainer.Reading? && s.drainer.target.Some? ==> s.drainer.target == s.target && s.drained < s.target.value)
    && (s.drainer.Reading? ==> s.inPty > 0)
    && (s.drainer.Finishing? && s.error.NoError? ==> s.target == Some(s.drained))
    && (s.finished && s.error.NoError? ==> s.target == Some(s.drained))
    && (s.drainer.Selecting? && s.target == Some(s.drained) ==> s.owner.Published? || s.wakes > 0)
    && (s.error.NoError? || s.error.OsFailure?)
    && (s.error.OsFailure? ==> s.drainer.Finishing? || s.finished)
  }

  /** Completion comes before every close, and one side cleans up. */
  ghost predicate OneCleanup(s: State)
  {
    && (s.finished <==> s.drainer.CleaningWake? || s.drainer.CleaningSlave? || s.drainer.Dead?)
    && (s.wakeClosed || s.slaveClosed ==> s.finished)
    && (s.slaveClosed || s.owner.ClosingSlave? || s.drainer.CleaningSlave? ==> s.wakeClosed)
    && (s.owner.ClosingWake? || s.owner.ClosingSlave? ==> s.finished && s.drainer.Dead? && !s.slaveClosed && s.cleanups == 1)
    && (s.drainer.CleaningWake? || s.drainer.CleaningSlave? ==> s.owner.OwnerDone? && !s.slaveClosed && s.cleanups == 1)
    && (s.deferred ==> s.owner.OwnerDone? && !s.finished && s.cleanups == 0)
    && (s.owner.OwnerDone? && !s.finished ==> s.deferred)
    && (!s.owner.ClosingWake? && !s.owner.ClosingSlave? && !s.owner.OwnerDone? ==> s.cleanups == 0 && !s.wakeClosed)
    && s.cleanups <= 1
    && (s.owner.OwnerDone? && s.drainer.Dead? ==> s.cleanups == 1 && s.slaveClosed)
  }

  ghost predicate Inv(s: State)
  {
    Counted(s) && DrainerKnows(s) && OneCleanup(s)
  }

  /** The steps of the drainer's thread; the rest are its owner's. */
  predicate OfDrainer(e: Event)
  {
    match e
    case Check | SelectReturns | TakeWake | ReadReturns(_) | OsFails | FinishDrain
       | DrainerClosesWake | DrainerClosesSlave(_) | DrainerCloseFails(_) => true
    case _ => false
  }

  lemma OwnerKeepsCounts(s: State, e: Event)
    requires Inv(s) && Enabled(s, e) && !OfDrainer(e)
    ensures Counted(Step(s, e))
  {
  }

  lemma CycleKeepsCounts(s: State, e: Event)
    requires Inv(s) && Enabled(s, e) && (e.Check? || e.SelectReturns? || e.TakeWake? || e.OsFails? || e.FinishDrain?)
    ensures Counted(Step(s, e))
  {
  }

  lemma ReadKeepsCounts(s: State, count: Option<nat>)
    requires Inv(s) && Enabled(s, ReadReturns(count))
    ensures Counted(ReadStep(s, count))
  {
  }

  lemma ClosingKeepsCounts(s: State, e: Event)
    requires Inv(s) && Enabled(s, e)
    requires e.DrainerClosesWake? || e.DrainerClosesSlave? || e.DrainerCloseFails?
    ensures Counted(Step(s, e))
  {
  }

  lemma StepKeepsCounts(s: State, e: Event)
    requires Inv(s) && Enabled(s, e)
    ensures Counted(Step(s, e))
  {
    match e
    case ReadReturns(count) => ReadKeepsCounts(s, count);
    case DrainerClosesWake | DrainerClosesSlave(_) | DrainerCloseFails(_) => ClosingKeepsCounts(s, e);
    case Check | SelectReturns | TakeWake | OsFails | FinishDrain => CycleKeepsCounts(s, e);
    case _ => OwnerKeepsCounts(s, e);
  }

  lemma OwnerKeepsKnowledge(s: State, e: Event)
    requires Inv(s) && Enabled(s, e) && !OfDrainer(e)
    ensures DrainerKnows(Step(s, e))
  {
  }

  lemma DrainerKeepsKnowledge(s: State, e: Event)
    requires Inv(s) && Enabled(s, e) && OfDrainer(e)
    ensures DrainerKnows(Step(s, e))
  {
  }

  lemma StepKeepsKnowledge(s: State, e: Event)
    requires Inv(s) && Enabled(s, e)
    ensures DrainerKnows(Step(s, e))
  {
    if OfDrainer(e) {
      DrainerKeepsKnowledge(s, e);
    } else {
      OwnerKeepsKnowledge(s, e);
    }
  }

  lemma OwnerKeepsOneCleanup(s: State, e: Event)
    requires Inv(s) && Enabled(s, e) && !OfDrainer(e)
    ensures OneCleanup(Step(s, e))
  {
  }

  lemma DrainerKeepsOneCleanup(s: State, e: Event)
    requires Inv(s) && Enabled(s, e) && OfDrainer(e)
    ensures OneCleanup(Step(s, e))
  {
  }

  lemma StepKeeps(s: State, e: Event)
    requires Inv(s) && Enabled(s, e)
    ensures Inv(Step(s, e))
  {
    StepKeepsCounts(s, e);
    StepKeepsKnowledge(s, e);
    if OfDrainer(e) {
      DrainerKeepsOneCleanup(s, e);
    } else {
      OwnerKeepsOneCleanup(s, e);
    }
  }

  lemma {:induction false} RunKeeps(s: State, events: seq<Event>, t: State)
    requires Inv(s) && Leads(s, events, t)
    ensures Inv(t)
    decreases |events|
  {
    if events != [] {
      StepKeeps(s, events[0]);
      RunKeeps(Step(s, events[0]), events[1..], t);
    }
  }

  lemma Reached(events: seq<Event>, s: State)
    requires Leads(Start(), events, s)
    ensures Inv(s)
  {
    RunKeeps(Start(), events, s);
  }

  // -------------------------------------------------------- what every run obeys

  /** In every interleaving the slave, and the wake pipe, are closed only after the drainer has published completion. */
  lemma SlaveOutlivesDrain(events: seq<Event>, s: State)
    requires Leads(Start(), events, s)
    ensures s.slaveClosed || s.wakeClosed ==> s.finished
  {
    Reached(events, s);
  }

  /** Clean-up begins at most once; when both sides are done, exactly one of them has closed the slave. */
  lemma ExactlyOneSideCleansUp(events: seq<Event>, s: State)
    requires Leads(Start(), events, s)
    ensures s.cleanups <= 1
    ensures s.owner.OwnerDone? && s.drainer.Dead? ==> s.cleanups == 1 && s.slaveClosed && !s.deferred
    ensures s.owner.OwnerDone? && !s.drainer.Dead? ==> s.deferred || s.drainer.CleaningWake? || s.drainer.CleaningSlave?
  {
    Reached(events, s);
  }

  /** Over an honest kernel the drainer's own protocol errors never happen: it fails only when a system call does. */
  lemma OnlyTheSystemFails(events: seq<Event>, s: State)
    requires Leads(Start(), events, s)
    ensures s.error == NoError || s.error == OsFailure
  {
    Reached(events, s);
  }

  predicate SystemFails(e: Event) { e.OsFails? || e.DrainerCloseFails? }

  ghost predicate SomeFailed(events: seq<Event>)
  {
    exists i :: 0 <= i < |events| && SystemFails(events[i])
  }

  lemma StepFails(s: State, e: Event)
    requires Inv(s) && Enabled(s, e)
    ensures Step(s, e).error == (if SystemFails(e) then OsFailure else s.error)
  {
    StepKeeps(s, e);
  }

  lemma {:induction false} FailsIff(s: State, events: seq<Event>, t: State)
    requires Inv(s) && Leads(s, events, t)
    ensures t.error == OsFailure <==> s.error == OsFailure || SomeFailed(events)
    decreases |events|
  {
    if events != [] {
      var rest := events[1..];
      StepFails(s, events[0]);
      StepKeeps(s, events[0]);
      FailsIff(Step(s, events[0]), rest, t);
      assert forall i :: 0 <= i < |rest| ==> rest[i] == events[i + 1];
      if SomeFailed(events) && !SystemFails(events[0]) {
        var i :| 0 <= i < |events| && SystemFails(events[i]);
        assert SystemFails(rest[i - 1]);
      }
      if SomeFailed(rest) {
        var i :| 0 <= i < |rest| && SystemFails(rest[i]);
        assert SystemFails(events[i + 1]);
      }
    }
  }

  /** The drainer reports a failure exactly when one of its system calls, or its closing flush, has failed. */
  lemma ReportsIffSystemFailed(events: seq<Event>, s: State)
    requires Leads(Start(), events, s)
    ensures s.error == OsFailure <==> SomeFailed(events)
  {
    FailsIff(Start(), events, s);
  }

  /**
   Acknowledgement is exact: a drainer that finished without failing has read precisely
   the bytes the slave had accepted when the target was published, and never more.
   */
  lemma AcknowledgedIsAccepted(events: seq<Event>, s: State)
    requires Leads(Start(), events, s)
    ensures s.finished && s.error == NoError ==> s.drained == s.acceptedAtPublish && s.target == Some(s.drained)
    ensures s.target.Some? ==> s.drained <= s.acceptedAtPublish
  {
    Reached(events, s);
  }

  /** A drainer that waits while bytes are owed to it, or while it has not been told, is woken. */
  lemma WaitIsAnswered(s: State)
    requires Inv(s) && s.drainer.Selecting? && s.target.Some? && !s.owner.Published?
    ensures Enabled(s, SelectReturns)
  {
  }

  lemma ReadIsAnswered(s: State)
    requires Inv(s) && s.drainer.Reading?
    ensures Enabled(s, ReadReturns(Some(1)))
  {
  }

  /** No wake-up is lost: once the target is out and the owner waits, the drainer can always go on. */
  lemma DrainerIsNeverStuck(events: seq<Event>, s: State)
    requires Leads(Start(), events, s) && s.target.Some? && !s.owner.Published? && !s.drainer.Dead?
    ensures
      || Enabled(s, Check) || Enabled(s, SelectReturns) || Enabled(s, TakeWake) || Enabled(s, FinishDrain)
      || Enabled(s, DrainerClosesWake) || Enabled(s, DrainerClosesSlave(0))
      || (s.drainer.Reading? && Enabled(s, ReadReturns(Some(1))))
  {
    Reached(events, s);
    if s.drainer.Selecting? {
      WaitIsAnswered(s);
    } else if s.drainer.Reading? {
      ReadIsAnswered(s);
    }
  }

  /** The target is out and the drainer has been told so. */
  predicate Woken(s: State)
  {
    s.target.Some? && !s.owner.Published?
  }

  /**
   How far a drainer that has been woken still has to go: four steps for each byte and each control
   byte, and the way out.
   */
  function ToGo(s: State): int
    requires s.target.Some?
  {
    4 * (s.target.value - s.drained) + 4 * s.wakes + (
      match s.drainer
      case Checking => 7
      case Selecting => 6
      case Selected(_, _) => 5
      case Reading(_) => 4
      case Finishing => 3
      case CleaningWake => 2
      case CleaningSlave => 1
      case Dead => 0)
  }

  /** The drainer's steps in a run, and those of them that were reads of a terminal that turned out not to be ready. */
  function DrainerSteps(events: seq<Event>): nat
  {
    if events == [] then 0 else (if OfDrainer(events[0]) then 1 else 0) + DrainerSteps(events[1..])
  }

  function FalseStarts(events: seq<Event>): nat
  {
    if events == [] then 0 else (if events[0] == ReadReturns(None) then 1 else 0) + FalseStarts(events[1..])
  }

  lemma OwnerLeavesToGo(s: State, e: Event)
    requires Inv(s) && Enabled(s, e) && Woken(s) && !OfDrainer(e)
    ensures Woken(Step(s, e)) && ToGo(Step(s, e)) == ToGo(s)
  {
  }

  lemma DrainerGetsOn(s: State, e: Event)
    requires Inv(s) && Enabled(s, e) && Woken(s) && OfDrainer(e)
    ensures Woken(Step(s, e)) && ToGo(Step(s, e)) < ToGo(s) + (if e == ReadReturns(None) then 4 else 0)
  {
  }

  lemma {:induction false} RunGetsOn(s: State, events: seq<Event>, t: State)
    requires Inv(s) && Woken(s) && Leads(s, events, t)
    ensures Inv(t) && Woken(t) && DrainerSteps(events) + ToGo(t) <= ToGo(s) + 4 * FalseStarts(events)
    decreases |events|
  {
    if events != [] {
      StepKeeps(s, events[0]);
      if OfDrainer(events[0]) {
        DrainerGetsOn(s, events[0]);
      } else {
        OwnerLeavesToGo(s, events[0]);
      }
      RunGetsOn(Step(s, events[0]), events[1..], t);
    }
  }

  /**
   Once told of the target the drainer takes a bounded number of further steps, whatever the
   owner does meanwhile: four for each byte still to read, each control byte and each false
   start, and at most seven more. With `DrainerIsNeverStuck`, it comes to its end.
   */
  lemma DrainerFinishes(before: seq<Event>, s: State, events: seq<Event>, t: State)
    requires Leads(Start(), before, s) && Woken(s) && Leads(s, events, t)
    ensures t.target.Some? && t.drained <= t.target.value && s.wakes <= 1
    ensures DrainerSteps(events) <= 4 * (s.acceptedAtPublish - s.drained) + 4 * s.wakes + 7 + 4 * FalseStarts(events)
  {
    Reached(before, s);
    RunGetsOn(s, events, t);
  }

  // --------------------------------------------------------- reading as it is written

  predicate InLoop(s: State) { s.drainer.Checking? || s.drainer.Selecting? || s.drainer.Selected? || s.drainer.Reading? }

  /** The loop's next step while the terminal has bytes. */
  function NextInLoop(s: State): Event
  {
    match s.drainer
    case Selecting => SelectReturns
    case Selected(_, _) => TakeWake
    case Reading(_) => ReadReturns(Some(1))
    case _ => Check
  }

  function ToRead(s: State): nat
  {
    match s.drainer
    case Checking => 3
    case Selecting => 2
    case Selected(ready, _) => if ready then 1 else 4
    case _ => 0
  }

  predicate HasOutput(s: State) { InLoop(s) && s.inPty > 0 && !s.slaveClosed }

  lemma LoopGoesOn(s: State)
    requires Inv(s) && HasOutput(s) && !s.drainer.Reading?
    ensures Enabled(s, NextInLoop(s)) && HasOutput(Step(s, NextInLoop(s)))
    ensures ToRead(Step(s, NextInLoop(s))) < ToRead(s) && Step(s, NextInLoop(s)).drained == s.drained
  {
  }

  lemma {:induction false} ReadsOne(s: State) returns (events: seq<Event>, t: State)
    requires Inv(s) && HasOutput(s)
    ensures Leads(s, events, t) && |events| == DrainerSteps(events) <= ToRead(s) + 1
    ensures t.drained == s.drained + 1
    decreases ToRead(s)
  {
    var e := NextInLoop(s);
    var rest;
    if s.drainer.Reading? {
      ReadIsAnswered(s);
      rest, t := [], Step(s, e);
    } else {
      LoopGoesOn(s);
      StepKeeps(s, e);
      rest, t := ReadsOne(Step(s, e));
    }
    LeadsFrom(s, e, rest, t);
    events := [e] + rest;
    assert events[1..] == rest;
  }

  /**
   Output never waits for the target: while the drainer has not left its loop, at most five of its
   own steps read the next byte the terminal holds, in every reachable state.
   */
  lemma OutputIsRead(before: seq<Event>, s: State) returns (events: seq<Event>, t: State)
    requires Leads(Start(), before, s) && InLoop(s) && s.inPty > 0
    ensures Leads(s, events, t) && |events| == DrainerSteps(events) <= 5 && t.drained == s.drained + 1
  {
    Reached(before, s);
    events, t := ReadsOne(s);
  }

  lemma {:induction false} NoReadUnasked(s: State, events: seq<Event>, t: State)
    requires Leads(s, events, t) && !s.drainer.Selected? && !s.drainer.Reading?
    requires forall i :: 0 <= i < |events| ==> !events[i].SelectReturns?
    ensures !t.drainer.Selected? && !t.drainer.Reading?
    decreases |events|
  {
    if events != [] {
      assert !events[0].SelectReturns?;
      NoReadUnasked(Step(s, events[0]), events[1..], t);
    }
  }

  /** The drainer asks before every read: between two reads, even one that found nothing, a select has returned. */
  lemma SelectsBetweenReads(s: State, first: Option<nat>, between: seq<Event>, t: State, second: Option<nat>)
    requires Enabled(s, ReadReturns(first)) && Leads(Step(s, ReadReturns(first)), between, t)
    requires Enabled(t, ReadReturns(second))
    ensures exists i :: 0 <= i < |between| && between[i].SelectReturns?
  {
    if forall i :: 0 <= i < |between| ==> !between[i].SelectReturns? {
      NoReadUnasked(Step(s, ReadReturns(first)), between, t);
    }
  }

  lemma LeadsFrom(s: State, e: Event, events: seq<Event>, t: State)
    requires Enabled(s, e) && Leads(Step(s, e), events, t)
    ensures Leads(s, [e] + events, t)
  {
    assert ([e] + events)[1..] == events;
  }

  // ------------------------------------------------------------- both sides end

  /** The owner's next step, or the drainer's once the owner is done. */
  function NextStep(s: State): Event
  {
    match s.owner
    case Writing => FlushEnds
    case Recording(_) => Record
    case Flushed => Publish
    case Published => Wake
    case Joining => if s.drainer.Dead? then JoinStopped else JoinTimesOut
    case Deciding => CloseOrDefer
    case ClosingWake => OwnerClosesWake
    case ClosingSlave => OwnerClosesSlave(0)
    case OwnerDone =>
      match s.drainer
      case Checking => Check
      case Selecting => SelectReturns
      case Selected(_, _) => TakeWake
      case Reading(_) => ReadReturns(Some(1))
      case Finishing => FinishDrain
      case CleaningWake => DrainerClosesWake
      case CleaningSlave | Dead => DrainerClosesSlave(0)
  }

  function OwnerToGo(s: State): nat
  {
    match s.owner
    case Recording(_) => 9
    case Writing => 8
    case Flushed => 7
    case Published => 6
    case Joining => 5
    case Deciding => 4
    case ClosingWake => 3
    case ClosingSlave => 2
    case OwnerDone => 0
  }

  predicate BothDone(s: State) { s.owner.OwnerDone? && s.drainer.Dead? }

  lemma OwnerGoesOn(s: State)
    requires Inv(s) && !s.owner.OwnerDone?
    ensures Enabled(s, NextStep(s)) && OwnerToGo(Step(s, NextStep(s))) < OwnerToGo(s)
    ensures Step(s, NextStep(s)).error == s.error
  {
  }

  lemma DrainerGoesOn(s: State)
    requires Inv(s) && s.owner.OwnerDone? && !s.drainer.Dead?
    ensures Enabled(s, NextStep(s)) && OfDrainer(NextStep(s)) && NextStep(s) != ReadReturns(None)
    ensures Step(s, NextStep(s)).owner.OwnerDone?
  {
    if s.drainer.Selecting? {
      WaitIsAnswered(s);
    } else if s.drainer.Reading? {
      ReadIsAnswered(s);
    }
  }

  /** What is left of the drainer's way once its owner is done. */
  function DrainerToGo(s: State): nat
  {
    if s.owner.OwnerDone? && s.target.Some? then Max(ToGo(s), 0) else 0
  }

  lemma DrainerStepsOn(s: State)
    requires Inv(s) && s.owner.OwnerDone? && !s.drainer.Dead?
    ensures Enabled(s, NextStep(s)) && DrainerToGo(Step(s, NextStep(s))) < DrainerToGo(s)
    ensures s.error == NoError ==> Step(s, NextStep(s)).error == NoError
  {
    DrainerGoesOn(s);
    StepKeeps(s, NextStep(s));
    DrainerGetsOn(s, NextStep(s));
  }

  lemma {:induction false} CanEnd(s: State) returns (events: seq<Event>, t: State)
    requires Inv(s)
    ensures Leads(s, events, t) && BothDone(t)
    ensures s.error == NoError ==> t.error == NoError
    decreases OwnerToGo(s), DrainerToGo(s)
  {
    if BothDone(s) {
      events, t := [], s;
    } else {
      var e := NextStep(s);
      if s.owner.OwnerDone? {
        DrainerStepsOn(s);
      } else {
        OwnerGoesOn(s);
      }
      StepKeeps(s, e);
      events, t := CanEnd(Step(s, e));
      LeadsFrom(s, e, events, t);
      events := [e] + events;
    }
  }

  /**
   From every reachable state both sides can come to their end: one of them has closed the slave and,
   unless a system call had failed before, every byte accepted at publication has been read and
   nothing reported.
   */
  lemma ShutdownCompletes(before: seq<Event>, s: State) returns (events: seq<Event>, t: State)
    requires Leads(Start(), before, s)
    ensures Leads(s, events, t) && BothDone(t) && t.cleanups == 1 && t.slaveClosed && t.wakeClosed
    ensures s.error == NoError ==> t.error == NoError && t.drained == t.acceptedAtPublish
  {
    Reached(before, s);
    events, t := CanEnd(s);
    RunKeeps(s, events, t);
  }

  // -------------------------------------------------------------------- the writer

  const LF: Byte := '\n' as int

  /** The bytes the terminal will show for some output: LF becomes CR LF when it is translated. */
  function Shown(data: seq<Byte>, translates: bool): (n: nat)
  {
    if data == [] then 0
    else (if translates && data[0] == LF then 2 else 1) + Shown(data[1..], translates)
  }

  lemma {:induction false} ShownConcat(a: seq<Byte>, b: seq<Byte>, translates: bool)
    ensures Shown(a + b, translates) == Shown(a, translates) + Shown(b, translates)
  {
    if a == [] {
      assert a + b == b;
    } else {
      ShownConcat(a[1..], b, translates);
      DropWithinFront(a, b, 1);
    }
  }

  function Newlines(data: seq<Byte>): (n: nat)
  {
    if data == [] then 0 else (if data[0] == LF then 1 else 0) + Newlines(data[1..])
  }

  lemma {:induction false} ShownCountsNewlines(data: seq<Byte>, translates: bool)
    ensures Shown(data, translates) == |data| + (if translates then Newlines(data) else 0)
  {
    if data != [] {
      ShownCountsNewlines(data[1..], translates);
    }
  }

  /** What a terminal shows is one byte for each byte written and, when it translates, one more for each newline. */
  lemma {:induction false} ShownIs(data: seq<Byte>, translates: bool)
    ensures Shown(data, translates) == |data| + (if translates then multiset(data)['\n' as int] else 0)
  {
    if data != [] {
      ShownIs(data[1..], translates);
      assert data == [data[0]] + data[1..];
    }
  }

  /** How one `os.write` ends: it takes some bytes, or raises. */
  datatype OsWrite = Takes(count: nat) | Raises

  /** The bytes the slave is willing to take before it first raises, takes nothing or stops answering. */
  function Willing(kernel: seq<OsWrite>): (n: nat)
  {
    if kernel == [] || kernel[0].Raises? || kernel[0].count == 0 then 0
    else kernel[0].count + Willing(kernel[1..])
  }

  class CountingPtyWriter {
    const translates: bool
    /** What the sink expects the terminal to show. */
    var expectedOutputBytes: nat
    /** Everything the slave has accepted. */
    ghost var accepted: seq<Byte>

    ghost predicate Valid()
      reads this
    {
      expectedOutputBytes == Shown(accepted, translates)
    }

    constructor (translates: bool)
      ensures Valid() && accepted == [] && this.translates == translates
    {
      this.translates, expectedOutputBytes, accepted := translates, 0, [];
    }

    /** `_record_expected_bytes`: the length of the piece, and one more byte for each translated newline. */
    method RecordExpectedBytes(piece: seq<Byte>)
      modifies this`expectedOutputBytes
      ensures expectedOutputBytes == old(expectedOutputBytes) + Shown(piece, translates)
    {
      ShownCountsNewlines(piece, translates);
      var translated := if translates then Newlines(piece) else 0;
      expectedOutputBytes := expectedOutputBytes + |piece| + translated;
    }

    /**
     `write`: write all of the data, counting each prefix the slave takes. The kernel's
     answers come from `kernel`; it takes no more than it is offered. `None` is an error:
     it raised, took nothing, or the answers ran out, with data still to write.
     */
    method Write(data: seq<Byte>, kernel: seq<OsWrite>) returns (written: Option<nat>)
      requires Valid()
      modifies this
      ensures Valid()
      ensures accepted == old(accepted) + data[..Min(|data|, Willing(kernel))]
      ensures written == if Willing(kernel) >= |data| then Some(|data|) else None
    {
      var total := 0;
      var calls := 0;
      assert kernel[0..] == kernel;
      while total < |data|
        invariant total <= |data| && calls <= |kernel| && Valid()
        invariant accepted == old(accepted) + data[..total]
        invariant if total < |data| then total + Willing(kernel[calls..]) == Willing(kernel) else Willing(kernel) >= |data|
        decreases |kernel| - calls
      {
        if calls == |kernel| || kernel[calls].Raises? || kernel[calls].count == 0 {
          assert Willing(kernel[calls..]) == 0;
          return None;
        }
        var start := total;
        total := Min(total + kernel[calls].count, |data|);
        WillingAfter(kernel, calls);
        calls := calls + 1;
        var piece := data[start..total];
        Accept(piece);
        TakeMore(data, start, total);
        ConcatAssociative(old(accepted), data[..start], piece);
      }
      assert data[..total] == data;
      return Some(total);
    }

    /** The slave has taken a piece, and it is counted. */
    method Accept(piece: seq<Byte>)
      requires Valid()
      modifies this
      ensures Valid() && accepted == old(accepted) + piece
    {
      ShownConcat(accepted, piece, translates);
      accepted := accepted + piece;
      RecordExpectedBytes(piece);
    }
  }

  lemma WillingAfter(kernel: seq<OsWrite>, i: nat)
    requires i < |kernel| && kernel[i].Takes? && kernel[i].count > 0
    ensures Willing(kernel[i..]) == kernel[i].count + Willing(kernel[i + 1..])
  {
    assert kernel[i..][1..] == kernel[i + 1..];
  }
}
