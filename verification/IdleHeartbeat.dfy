/** The idle schedule and its polling, over a clock that never goes back (cuprum/_idle_heartbeat.py). */
module IdleHeartbeat {
  import opened Prelude

  datatype Schedule = Schedule(
    interval: real, startedAt: real, lastActivity: real, nextDeadline: real, isStopped: bool)

  /** One notification: when, and the ages of the run and of its silence it reports. */
  datatype Notice = Notice(at: real, total: real, idle: real)

  function StartSchedule(interval: real, now: real): Schedule
  {
    Schedule(interval, now, now, now + interval, false)
  }

  function Noted(s: Schedule, now: real): Schedule
  {
    if s.isStopped then s else s.(lastActivity := now, nextDeadline := now + s.interval)
  }

  /** The notice a poll claims, if one is due. */
  function DueAt(s: Schedule, now: real): (notice: Option<Notice>)
  {
    if s.isStopped || now < s.nextDeadline then None
    else Some(Notice(now, now - s.startedAt, now - s.lastActivity))
  }

  function Polled(s: Schedule, now: real, more: bool): Schedule
  {
    if DueAt(s, now).None? then s
    else s.(nextDeadline := now + s.interval, isStopped := !more)
  }

  class IdleMonitor {
    const interval: real
    /** `None` until the run is armed. */
    var schedule: Option<Schedule>

    constructor (interval: real)
      ensures schedule.None? && this.interval == interval
    {
      this.interval, schedule := interval, None;
    }

    /** `launch`: arm the heartbeat at the current clock time. */
    method Launch(now: real)
      modifies this
      ensures schedule == Some(StartSchedule(interval, now))
    {
      schedule := Some(StartSchedule(interval, now));
    }

    method NoteActivity(now: real)
      modifies this
      ensures schedule == if old(schedule).None? then None else Some(Noted(old(schedule).value, now))
    {
      if schedule.Some? && !schedule.value.isStopped {
        schedule := Some(schedule.value.(lastActivity := now, nextDeadline := now + schedule.value.interval));
      }
    }

    /** `take_due`: claim the notice due now, and measure the next interval from this one. */
    method TakeDue(now: real) returns (notice: Option<Notice>)
      requires schedule.Some?
      modifies this
      ensures notice == DueAt(old(schedule).value, now)
      ensures schedule == Some(Polled(old(schedule).value, now, true))
    {
      var s := schedule.value;
      if s.isStopped || now < s.nextDeadline {
        return None;
      }
      schedule := Some(s.(nextDeadline := now + s.interval));
      return Some(Notice(now, now - s.startedAt, now - s.lastActivity));
    }

    method Stop()
      modifies this
      ensures schedule == if old(schedule).None? then None else Some(old(schedule).value.(isStopped := true))
    {
      if schedule.Some? {
        schedule := Some(schedule.value.(isStopped := true));
      }
    }

    /** `poll`: emit one notice when one is due; a notifier that is done ends the heartbeat. */
    method Poll(now: real, more: bool) returns (notice: Option<Notice>)
      modifies this
      ensures notice == if old(schedule).None? then None else DueAt(old(schedule).value, now)
      ensures schedule == if old(schedule).None? then None else Some(Polled(old(schedule).value, now, more))
    {
      if schedule.None? {
        return None;
      }
      notice := TakeDue(now);
      if notice.Some? && !more {
        Stop();
      }
    }
  }

  // ------------------------------------------------------------------- whole runs

  /** What happens to an armed run: child output, a poll with the notifier's answer, or a stop. */
  datatype Event = Activity(at: real) | Poll(at: real, more: bool) | Stop(at: real)

  function Apply(s: Schedule, e: Event): Schedule
  {
    match e
    case Activity(at) => Noted(s, at)
    case Poll(at, more) => Polled(s, at, more)
    case Stop(_) => s.(isStopped := true)
  }

  function Emitted(s: Schedule, e: Event): Option<Notice>
  {
    if e.Poll? then DueAt(s, e.at) else None
  }

  /** Every notice of a run, in order. */
  function Notices(s: Schedule, events: seq<Event>): (notices: seq<Notice>)
    decreases |events|
  {
    if events == [] then []
    else
      var rest := Notices(Apply(s, events[0]), events[1..]);
      if Emitted(s, events[0]).Some? then [Emitted(s, events[0]).value] + rest else rest
  }

  /** The clock never goes back, from `now` on. */
  predicate ClockedFrom(now: real, events: seq<Event>)
    decreases |events|
  {
    events == [] || (now <= events[0].at && ClockedFrom(events[0].at, events[1..]))
  }

  predicate Running(s: Schedule, now: real)
  {
    && s.interval > 0.0 && s.startedAt <= s.lastActivity <= now
    && s.lastActivity + s.interval <= s.nextDeadline <= now + s.interval
  }

  /**
   Over every run: a notice reports at least a whole interval of silence, never before
   the deadline, and the next one follows it by at least an interval.
   */
  lemma {:induction false} NoticesAreSpaced(s: Schedule, now: real, events: seq<Event>)
    requires Running(s, now) && ClockedFrom(now, events)
    ensures
      var notices := Notices(s, events);
      && (notices != [] ==> s.nextDeadline <= notices[0].at)
      && (forall i :: 0 <= i < |notices| ==> notices[i].total >= notices[i].idle >= s.interval)
      && (forall i :: 0 <= i < |notices| - 1 ==> notices[i].at + s.interval <= notices[i + 1].at)
    decreases |events|
  {
    if events != [] {
      var e := events[0];
      NoticesAreSpaced(Apply(s, e), e.at, events[1..]);
      var rest := Notices(Apply(s, e), events[1..]);
      if Emitted(s, e).Some? {
        var notices := [Emitted(s, e).value] + rest;
        assert forall i :: 0 < i < |notices| ==> notices[i] == rest[i - 1];
      }
    }
  }

  /** A stopped run stays silent, whatever happens to it. */
  lemma {:induction false} StoppedIsSilent(s: Schedule, events: seq<Event>)
    requires s.isStopped
    ensures Notices(s, events) == []
    decreases |events|
  {
    if events != [] {
      StoppedIsSilent(Apply(s, events[0]), events[1..]);
    }
  }

  /** Every poll before a stop comes less than an interval after the last output. */
  predicate NeverQuiet(lastOutput: real, interval: real, events: seq<Event>)
    decreases |events|
  {
    || events == [] || events[0].Stop?
    || (&& (events[0].Poll? ==> events[0].at < lastOutput + interval)
        && NeverQuiet(if events[0].Activity? then events[0].at else lastOutput, interval, events[1..]))
  }

  /** A run that has emitted nothing yet stays silent exactly while no poll finds a whole interval without output. */
  lemma {:induction false} SilentIffNeverQuiet(s: Schedule, events: seq<Event>)
    requires !s.isStopped && s.nextDeadline == s.lastActivity + s.interval
    ensures Notices(s, events) == [] <==> NeverQuiet(s.lastActivity, s.interval, events)
    decreases |events|
  {
    if events != [] {
      var e := events[0];
      if e.Stop? {
        StoppedIsSilent(Apply(s, e), events[1..]);
      } else if Emitted(s, e).None? {
        SilentIffNeverQuiet(Apply(s, e), events[1..]);
      }
    }
  }

  /** Output within every interval keeps a run silent: nothing is ever due. */
  lemma ActivityKeepsSilent(s: Schedule, events: seq<Event>)
    requires s.nextDeadline == s.lastActivity + s.interval && NeverQuiet(s.lastActivity, s.interval, events)
    ensures Notices(s, events) == []
  {
    if s.isStopped {
      StoppedIsSilent(s, events);
    } else {
      SilentIffNeverQuiet(s, events);
    }
  }

  function After(s: Schedule, events: seq<Event>): Schedule
    decreases |events|
  {
    if events == [] then s else After(Apply(s, events[0]), events[1..])
  }

  /** When the last output or notice of a run was, `since` if there was neither. */
  function LastSign(s: Schedule, since: real, events: seq<Event>): real
    decreases |events|
  {
    if events == [] then since
    else
      var e := events[0];
      LastSign(Apply(s, e), if e.Activity? || Emitted(s, e).Some? then e.at else since, events[1..])
  }

  lemma {:induction false} DeadlineFollowsLastSign(s: Schedule, since: real, events: seq<Event>)
    requires !s.isStopped && s.nextDeadline == since + s.interval
    ensures After(s, events).interval == s.interval
    ensures !After(s, events).isStopped ==> After(s, events).nextDeadline == LastSign(s, since, events) + s.interval
    decreases |events|
  {
    if events != [] {
      var t := Apply(s, events[0]);
      if t.isStopped {
        StaysStopped(t, events[1..]);
      } else {
        var e := events[0];
        DeadlineFollowsLastSign(t, if e.Activity? || Emitted(s, e).Some? then e.at else since, events[1..]);
      }
    }
  }

  lemma {:induction false} StaysStopped(s: Schedule, events: seq<Event>)
    requires s.isStopped
    ensures After(s, events).isStopped && After(s, events).interval == s.interval
    decreases |events|
  {
    if events != [] {
      StaysStopped(Apply(s, events[0]), events[1..]);
    }
  }

  /**
   After every run so far, a poll of a run not stopped emits exactly when a whole interval has passed
   since its last output, notice or start.
   */
  lemma PollEmitsIffQuiet(interval: real, start: real, events: seq<Event>, at: real, more: bool)
    ensures
      var s := After(StartSchedule(interval, start), events);
      var sign := LastSign(StartSchedule(interval, start), start, events);
      Emitted(s, Poll(at, more)).Some? <==> !s.isStopped && at >= sign + interval
  {
    DeadlineFollowsLastSign(StartSchedule(interval, start), start, events);
  }

  // ------------------------------------------------------ what a notice reports

  /** When the run last produced output, its start before any. */
  function LastOutput(start: real, events: seq<Event>): real
    decreases |events|
  {
    if events == [] then start
    else LastOutput(if events[0].Activity? then events[0].at else start, events[1..])
  }

  /** Whether a stop, or a notifier that answered its notice with "no more", has ended the run. */
  predicate Ended(s: Schedule, events: seq<Event>)
    decreases |events|
  {
    && events != []
    && var e := events[0];
       || e.Stop?
       || (e.Poll? && !e.more && Emitted(s, e).Some?)
       || Ended(Apply(s, e), events[1..])
  }

  lemma {:induction false} RunRemembers(s: Schedule, events: seq<Event>)
    ensures var r := After(s, events);
      && r.startedAt == s.startedAt
      && (r.isStopped <==> s.isStopped || Ended(s, events))
      && (!r.isStopped ==> r.lastActivity == LastOutput(s.lastActivity, events))
    decreases |events|
  {
    if events != [] {
      RunRemembers(Apply(s, events[0]), events[1..]);
    }
  }

  /**
   After every run so far, what a poll emits: nothing once the run has ended or within an
   interval of its last sign, and otherwise its own time, the age of the run, and how long
   ago the last output was, however many notices came since.
   */
  lemma PollReports(interval: real, start: real, events: seq<Event>, at: real, more: bool)
    ensures
      var armed := StartSchedule(interval, start);
      Emitted(After(armed, events), Poll(at, more))
      == if Ended(armed, events) || at < LastSign(armed, start, events) + interval then None
         else Some(Notice(at, at - start, at - LastOutput(start, events)))
  {
    PollEmitsIffQuiet(interval, start, events, at, more);
    RunRemembers(StartSchedule(interval, start), events);
  }
}
