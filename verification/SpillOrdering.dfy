/**
 The ordered seam one capture's storage calls run through: a lock, and a shield that is a
 loop re-awaiting the worker through every cancellation, whatever calls are made and
 cancelled meanwhile (cuprum/_capture_spill_io.py, cuprum/_process_lifecycle.py).
 */
module SpillOrdering {
  import opened CaptureSpillIo
  import opened Prelude

  /** A call, named by its place among the calls made. */
  type Call = nat

  /** The await a caller is suspended at, or how it went on. */
  datatype CallerAt =
    | Queued                   // awaiting the lock
    | Shielding                // awaiting the shielded worker for the first time
    | Settling                 // awaiting it again, after a cancellation
    | Withdrawn                // cancelled while it awaited the lock
    | Left(how: Outcome)       // the lock released: with the result, the call's failure or a cancellation

  datatype Work = Unstarted | AtWork | Done(failed: bool)

  datatype Caller = Caller(at: CallerAt, work: Work)

  /**
   The seam: every caller and its worker, whose frame holds the lock, and who queues for it.
   For an observer, the calls in the order their workers began and ended, the callers some
   cancellation was delivered to, and those it was delivered to after their worker ended.
   */
  datatype State = State(
    callers: seq<Caller>, holder: Option<Call>, waiting: seq<Call>,
    begun: seq<Call>, ended: seq<Call>, cancelled: set<Call>, late: set<Call>)

  function Start(): State
  {
    State([], None, [], [], [], {}, {})
  }

  datatype Event =
    | Make                     // a caller reaches `run`
    | Grant                    // the first waiter gets the free lock
    | WorkerEnds(call: Call, failed: bool)
    | Resume(call: Call)       // the await of a finished worker returns, or raises its failure
    | Cancel(call: Call)       // a cancellation is delivered at the caller's await

  /** A caller suspended inside `run`. */
  predicate Suspended(at: CallerAt)
  {
    at.Queued? || InShield(at)
  }

  predicate InShield(at: CallerAt)
  {
    at.Shielding? || at.Settling?
  }

  /** What the lock, the worker threads and the event loop allow. */
  predicate Enabled(s: State, e: Event)
  {
    match e
    case Make => true
    case Grant => s.holder.None? && s.waiting != [] && s.waiting[0] < |s.callers|
    case WorkerEnds(call, _) => call < |s.callers| && s.callers[call].work.AtWork?
    case Resume(call) => call < |s.callers| && InShield(s.callers[call].at) && s.callers[call].work.Done?
    case Cancel(call) => call < |s.callers| && Suspended(s.callers[call].at)
  }

  function Moved(s: State, call: Call, at: CallerAt): State
    requires call < |s.callers|
  {
    s.(callers := s.callers[call := s.callers[call].(at := at)])
  }

  /** The lock is held and the worker started: the caller awaits the shield. */
  function Began(s: State, call: Call): State
    requires call < |s.callers|
  {
    s.(callers := s.callers[call := Caller(Shielding, AtWork)], holder := Some(call), begun := s.begun + [call])
  }

  /** Out of `run`, past the `finally` that releases the lock. */
  function Leave(s: State, call: Call, how: Outcome): State
    requires call < |s.callers|
  {
    Moved(s, call, Left(how)).(holder := None)
  }

  /**
   The await of a finished worker. A failure of the call is raised by it at either await, and
   the loop holds back cancellations only, so the failure goes on in place of the one that
   was to be re-raised; a result ends the loop, and then that one is.
   */
  function ResumeStep(s: State, call: Call): State
    requires Enabled(s, Resume(call))
  {
    var caller := s.callers[call];
    Leave(s, call, if caller.work.failed then Raised else if caller.at.Settling? then Cancelled else Returned)
  }

  function Without(waiting: seq<Call>, call: Call): (rest: seq<Call>)
    ensures call !in rest
    ensures forall c :: c in rest <==> c in waiting && c != call
  {
    if waiting == [] then []
    else if waiting[0] == call then Without(waiting[1..], call)
    else [waiting[0]] + Without(waiting[1..], call)
  }

  /**
   A cancellation at a caller's await. In the queue it is raised at once. At the shield it
   leads to the loop's test, whose `while` asks whether the worker is done: if so the
   cancellation goes on to the caller's own caller, and if not the worker is awaited again.
   */
  function CancelStep(s: State, call: Call): State
    requires Enabled(s, Cancel(call))
  {
    var t := s.(cancelled := s.cancelled + {call});
    if s.callers[call].at.Queued? then Moved(t, call, Withdrawn).(waiting := Without(s.waiting, call))
    else if s.callers[call].work.Done? then Leave(t.(late := s.late + {call}), call, Cancelled)
    else Moved(t, call, Settling)
  }

  function MakeStep(s: State): State
  {
    var call := |s.callers|;
    var t := s.(callers := s.callers + [Caller(Queued, Unstarted)]);
    if s.holder.None? && s.waiting == [] then Began(t, call) else t.(waiting := s.waiting + [call])
  }

  function Step(s: State, e: Event): State
    requires Enabled(s, e)
  {
    match e
    case Make => MakeStep(s)
    case Grant => Began(s.(waiting := s.waiting[1..]), s.waiting[0])
    case WorkerEnds(call, failed) =>
      s.(callers := s.callers[call := s.callers[call].(work := Done(failed))], ended := s.ended + [call])
    case Resume(call) => ResumeStep(s, call)
    case Cancel(call) => CancelStep(s, call)
  }

  predicate Leads(s: State, events: seq<Event>, t: State)
    decreases |events|
  {
    if events == [] then s == t
    else Enabled(s, events[0]) && Leads(Step(s, events[0]), events[1..], t)
  }

  // ----------------------------------------------------------------- invariants

  predicate Increasing(calls: seq<Call>)
  {
    forall i, j :: 0 <= i < j < |calls| ==> calls[i] < calls[j]
  }

  /** The queue: the waiters, in the order they came, after every call that began. */
  ghost predicate Ordered(s: State)
  {
    && Increasing(s.begun + s.waiting)
    && (forall c :: c in s.begun || c in s.waiting ==> c < |s.callers|)
    && (forall c: nat :: c < |s.callers| ==> (s.callers[c].at.Queued? <==> c in s.waiting))
  }

  /** The lock: a caller inside the shield holds it, and no other does. */
  ghost predicate OneHolder(s: State)
  {
    && (forall c: nat :: c < |s.callers| ==> (InShield(s.callers[c].at) <==> s.holder == Some(c)))
    && (s.holder.Some? ==> s.holder.value < |s.callers| && !s.callers[s.holder.value].work.Unstarted?)
    && s.begun == s.ended + (if s.holder.Some? && s.callers[s.holder.value].work.AtWork? then [s.holder.value] else [])
  }

  /** Each caller beside its worker: none is past its await while the worker is at it. */
  ghost predicate NoneAhead(s: State)
  {
    forall c: nat :: c < |s.callers| ==>
      && (s.callers[c].work.Unstarted? <==> s.callers[c].at.Queued? || s.callers[c].at.Withdrawn?)
      && (s.callers[c].at.Left? ==> s.callers[c].work.Done?)
      && (s.callers[c].work.Unstarted? <==> c !in s.begun)
      && (s.callers[c].work.Done? <==> c in s.ended)
  }

  /** When the last cancellation reached a caller, of those delivered past the lock. */
  function DeliveryTo(s: State, call: Call): Delivery
  {
    if call in s.late then After else if call in s.cancelled then During else Never
  }

  /** What the world did to a finished call, as the storage model has it. */
  function AwaitOf(s: State, call: Call): Await
    requires call < |s.callers| && s.callers[call].work.Done?
  {
    Await(s.callers[call].work.failed, 0, DeliveryTo(s, call))
  }

  /** Each caller beside the cancellations delivered to it. */
  ghost predicate Accounts(s: State, call: Call)
    requires call < |s.callers|
  {
    match s.callers[call].at
    case Queued | Shielding => call !in s.cancelled && call !in s.late
    case Settling | Withdrawn => call in s.cancelled && call !in s.late
    case Left(how) => s.callers[call].work.Done? && how == OutcomeOf(AwaitOf(s, call)) && (call in s.late ==> call in s.cancelled)
  }

  /** Delivered cancellations are held through the shield; none is made up. */
  ghost predicate CancellationsHeld(s: State)
  {
    && (forall c :: c in s.cancelled || c in s.late ==> c < |s.callers|)
    && (forall c: nat :: c < |s.callers| ==> Accounts(s, c))
  }

  ghost predicate Inv(s: State)
  {
    Ordered(s) && OneHolder(s) && NoneAhead(s) && CancellationsHeld(s)
  }

  lemma DropOne(front: seq<Call>, call: Call, rest: seq<Call>)
    requires Increasing(front + ([call] + rest))
    ensures Increasing(front + rest)
  {
    var longer := front + ([call] + rest);
    assert forall i :: 0 <= i < |front| + |rest| ==> (front + rest)[i] == longer[if i < |front| then i else i + 1];
  }

  lemma {:induction false} WithoutIncreasing(front: seq<Call>, waiting: seq<Call>, call: Call)
    requires Increasing(front + waiting)
    ensures Increasing(front + Without(waiting, call))
    decreases |waiting|
  {
    if waiting != [] {
      var first, rest := waiting[0], waiting[1..];
      assert waiting == [first] + rest;
      if first == call {
        DropOne(front, first, rest);
        WithoutIncreasing(front, rest, call);
      } else {
        ConcatAssociative(front, [first], rest);
        WithoutIncreasing(front + [first], rest, call);
        ConcatAssociative(front, [first], Without(rest, call));
      }
    }
  }

  lemma AppendGreater(calls: seq<Call>, call: Call)
    requires Increasing(calls) && forall c :: c in calls ==> c < call
    ensures Increasing(calls + [call])
  {
    assert forall i :: 0 <= i < |calls| ==> calls[i] in calls;
  }

  /** A caller's account changes only by a step of its own. */
  lemma StepKeepsAccount(s: State, e: Event, call: Call)
    requires Inv(s) && Enabled(s, e) && call < |s.callers|
    ensures call < |Step(s, e).callers| && Accounts(Step(s, e), call)
  {
    assert Accounts(s, call);
    if e.Grant? {
      FirstWaiter(s);
    }
  }

  lemma StepKeepsCancellations(s: State, e: Event)
    requires Inv(s) && Enabled(s, e)
    ensures CancellationsHeld(Step(s, e))
  {
    var t := Step(s, e);
    forall c: nat | c < |t.callers|
      ensures Accounts(t, c)
    {
      if c < |s.callers| {
        StepKeepsAccount(s, e, c);
      }
    }
  }

  /** The call that comes next began or queued after all before it. */
  lemma MakeKeepsOrder(s: State)
    requires Inv(s)
    ensures Ordered(MakeStep(s))
  {
    var t := MakeStep(s);
    AppendGreater(s.begun + s.waiting, |s.callers|);
    assert t.begun + t.waiting == (s.begun + s.waiting) + [|s.callers|];
  }

  lemma MakeKeeps(s: State)
    requires Inv(s)
    ensures Inv(MakeStep(s))
  {
    MakeKeepsOrder(s);
    StepKeepsCancellations(s, Make);
    assert |s.callers| !in s.begun;
  }

  lemma IncreasingApart(front: seq<Call>, call: Call, rest: seq<Call>)
    requires Increasing(front + ([call] + rest))
    ensures call !in front && call !in rest
  {
    var all := front + ([call] + rest);
    assert all[|front|] == call;
    assert forall i :: 0 <= i < |front| ==> all[i] == front[i];
    assert forall i :: 0 <= i < |rest| ==> all[|front| + 1 + i] == rest[i];
  }

  lemma FirstWaiter(s: State)
    requires Inv(s) && Enabled(s, Grant)
    ensures s.waiting[0] !in s.waiting[1..] && s.waiting[0] !in s.begun
    ensures forall c :: c in s.waiting <==> c == s.waiting[0] || c in s.waiting[1..]
    ensures s.callers[s.waiting[0]] == Caller(Queued, Unstarted)
    ensures (s.begun + [s.waiting[0]]) + s.waiting[1..] == s.begun + s.waiting
  {
    assert s.waiting == [s.waiting[0]] + s.waiting[1..];
    assert s.waiting[0] in s.waiting;
    IncreasingApart(s.begun, s.waiting[0], s.waiting[1..]);
  }

  lemma GrantKeeps(s: State)
    requires Inv(s) && Enabled(s, Grant)
    ensures Inv(Step(s, Grant))
  {
    FirstWaiter(s);
    StepKeepsCancellations(s, Grant);
  }

  lemma WorkerEndsKeeps(s: State, call: Call, failed: bool)
    requires Inv(s) && Enabled(s, WorkerEnds(call, failed))
    ensures Inv(Step(s, WorkerEnds(call, failed)))
  {
    assert call in s.begun;
    StepKeepsCancellations(s, WorkerEnds(call, failed));
  }

  lemma ResumeKeeps(s: State, call: Call)
    requires Inv(s) && Enabled(s, Resume(call))
    ensures Inv(Step(s, Resume(call)))
  {
    StepKeepsCancellations(s, Resume(call));
  }

  lemma CancelKeepsOrder(s: State, call: Call)
    requires Inv(s) && Enabled(s, Cancel(call))
    ensures Ordered(CancelStep(s, call))
  {
    WithoutIncreasing(s.begun, s.waiting, call);
  }

  lemma CancelKeeps(s: State, call: Call)
    requires Inv(s) && Enabled(s, Cancel(call))
    ensures Inv(CancelStep(s, call))
  {
    CancelKeepsOrder(s, call);
    StepKeepsCancellations(s, Cancel(call));
  }

  lemma StepKeeps(s: State, e: Event)
    requires Inv(s) && Enabled(s, e)
    ensures Inv(Step(s, e))
  {
    match e
    case Make => MakeKeeps(s);
    case Grant => GrantKeeps(s);
    case WorkerEnds(call, failed) => WorkerEndsKeeps(s, call, failed);
    case Resume(call) => ResumeKeeps(s, call);
    case Cancel(call) => CancelKeeps(s, call);
  }

  lemma {:induction false} RunKeeps(s: State, events: seq<Event>, t: State)
    requires Inv(s) && Leads(s, events, t)
    ensures Inv(t)
    decreases |events|
  {
    if events != [] {
      StepKeeps(s, events[0]);
      RunKeeps(Step(s, events[0]), events[1..], t);
    }
  }

  // -------------------------------------------------------- what every run obeys

  /**
   In every interleaving calls begin in the order they were made, one at a time, and one
   that gave up waiting never begins.
   */
  lemma CallsRunInOrderOneAtATime(events: seq<Event>, s: State)
    requires Leads(Start(), events, s)
    ensures s.ended <= s.begun && |s.begun| <= |s.ended| + 1
    ensures Increasing(s.begun)
    ensures forall c: nat :: c < |s.callers| && s.callers[c].at.Withdrawn? ==> c !in s.begun
    ensures s.holder.None? ==> s.begun == s.ended
  {
    RunKeeps(Start(), events, s);
    assert forall i :: 0 <= i < |s.begun| ==> (s.begun + s.waiting)[i] == s.begun[i];
  }

  /**
   However many cancellations are delivered, and at whichever await, no caller goes on while
   its own worker is at work: one that left has had its call end, and one that withdrew
   never began it.
   */
  lemma NoCallerLeavesItsWorker(events: seq<Event>, s: State, call: Call)
    requires Leads(Start(), events, s) && call < |s.callers|
    ensures s.callers[call].work.AtWork? ==> InShield(s.callers[call].at) && s.holder == Some(call)
    ensures s.callers[call].at.Left? ==> call in s.ended
    ensures s.callers[call].at.Withdrawn? ==> call !in s.begun
  {
    RunKeeps(Start(), events, s);
  }

  /**
   How every caller past the lock leaves is the storage model's rule for its call, over every
   interleaving: a cancellation is raised exactly when one was delivered and either the call
   did not fail or one came after its worker had ended. Otherwise a delivered cancellation is
   lost to the call's failure. In the queue it is always raised.
   */
  lemma CancellationIsRaisedIff(events: seq<Event>, s: State, call: Call)
    requires Leads(Start(), events, s) && call < |s.callers|
    ensures s.callers[call].at.Left? ==>
      var (how, failed) := (s.callers[call].at.how, s.callers[call].work.Done? && s.callers[call].work.failed);
      && s.callers[call].work.Done? && how == OutcomeOf(AwaitOf(s, call))
      && (how == Cancelled <==> call in s.cancelled && (!failed || call in s.late))
      && (how == Raised <==> failed && call !in s.late)
    ensures s.callers[call].at.Withdrawn? ==> call in s.cancelled
    ensures call in s.late ==> s.callers[call].at == Left(Cancelled)
  {
    RunKeeps(Start(), events, s);
    assert Accounts(s, call);
  }

  /** A run that loses a cancellation: delivered while the worker is at a call that then fails, it is never raised. */
  lemma LostCancellation() returns (s: State)
    ensures Leads(Start(), [Make, Cancel(0), WorkerEnds(0, true), Resume(0)], s)
    ensures |s.callers| == 1 && 0 in s.cancelled && s.callers[0].at == Left(Raised)
  {
    var s1 := Step(Start(), Make);
    var s2 := Step(s1, Cancel(0));
    var s3 := Step(s2, WorkerEnds(0, true));
    s := Step(s3, Resume(0));
    LeadsFrom(s3, Resume(0), [], s);
    LeadsFrom(s2, WorkerEnds(0, true), [Resume(0)], s);
    LeadsFrom(s1, Cancel(0), [WorkerEnds(0, true), Resume(0)], s);
    LeadsFrom(Start(), Make, [Cancel(0), WorkerEnds(0, true), Resume(0)], s);
  }

  lemma LeadsFrom(s: State, e: Event, events: seq<Event>, t: State)
    requires Enabled(s, e) && Leads(Step(s, e), events, t)
    ensures Leads(s, [e] + events, t)
  {
    assert ([e] + events)[1..] == events;
  }

  // ------------------------------------------------------------- the queue moves on

  /** The steps that move the queue on: the lock granted, the holder's worker ended, the holder resumed. */
  predicate MovesOn(e: Event)
  {
    e.Grant? || e.WorkerEnds? || e.Resume?
  }

  function Moves(events: seq<Event>): nat
  {
    if events == [] then 0 else (if MovesOn(events[0]) then 1 else 0) + Moves(events[1..])
  }

  /** How many waiters stand before a call. */
  function Place(waiting: seq<Call>, call: Call): (n: nat)
    ensures n <= |waiting| && (call in waiting ==> n < |waiting|)
  {
    if waiting == [] || waiting[0] == call then 0 else 1 + Place(waiting[1..], call)
  }

  /** The moves the holder still has to make. */
  function HolderMoves(s: State): nat
  {
    if s.holder.None? || s.holder.value >= |s.callers| then 0
    else if s.callers[s.holder.value].work.AtWork? then 2 else 1
  }

  /**
   The moves ahead of a suspended caller, its own included: three for each waiter before it, and
   those of the holder.
   */
  function Ahead(s: State, call: Call): nat
    requires call < |s.callers|
  {
    if s.callers[call].at.Queued? then HolderMoves(s) + 3 * (Place(s.waiting, call) + 1) else HolderMoves(s)
  }

  lemma {:induction false} PlaceAppend(waiting: seq<Call>, more: Call, call: Call)
    requires call in waiting
    ensures Place(waiting + [more], call) == Place(waiting, call)
  {
    if waiting[0] != call {
      assert (waiting + [more])[1..] == waiting[1..] + [more];
      PlaceAppend(waiting[1..], more, call);
    }
  }

  lemma {:induction false} PlaceWithout(waiting: seq<Call>, gone: Call, call: Call)
    requires call != gone
    ensures Place(Without(waiting, gone), call) <= Place(waiting, call)
  {
    if waiting != [] && waiting[0] != call {
      PlaceWithout(waiting[1..], gone, call);
    }
  }

  lemma MakeAhead(s: State, call: Call)
    requires Inv(s) && call < |s.callers| && Suspended(s.callers[call].at)
    ensures Ahead(MakeStep(s), call) <= Ahead(s, call)
  {
    if s.callers[call].at.Queued? {
      PlaceAppend(s.waiting, |s.callers|, call);
    }
  }

  lemma CancelAhead(s: State, gone: Call, call: Call)
    requires Inv(s) && Enabled(s, Cancel(gone)) && call < |s.callers|
    requires Suspended(s.callers[call].at) && Suspended(CancelStep(s, gone).callers[call].at)
    ensures Ahead(CancelStep(s, gone), call) <= Ahead(s, call)
  {
    if gone != call {
      PlaceWithout(s.waiting, gone, call);
    }
  }

  lemma GrantAhead(s: State, call: Call)
    requires Inv(s) && Enabled(s, Grant) && call < |s.callers| && Suspended(s.callers[call].at)
    ensures Ahead(Step(s, Grant), call) < Ahead(s, call)
  {
    FirstWaiter(s);
  }

  lemma HolderAhead(s: State, e: Event, call: Call)
    requires Inv(s) && Enabled(s, e) && (e.WorkerEnds? || e.Resume?) && call < |s.callers|
    requires Suspended(s.callers[call].at) && Suspended(Step(s, e).callers[call].at)
    ensures Ahead(Step(s, e), call) < Ahead(s, call)
  {
  }

  lemma {:induction false} RunMovesOn(s: State, events: seq<Event>, t: State, call: Call)
    requires Inv(s) && Leads(s, events, t) && call < |s.callers| && call < |t.callers| && Suspended(t.callers[call].at)
    ensures Suspended(s.callers[call].at) && Moves(events) + Ahead(t, call) <= Ahead(s, call)
    decreases |events|
  {
    if events != [] {
      var e := events[0];
      StepKeeps(s, e);
      RunMovesOn(Step(s, e), events[1..], t, call);
      LeftStaysLeft(s, e, call);
      match e
      case Make => MakeAhead(s, call);
      case Cancel(gone) => CancelAhead(s, gone, call);
      case Grant => GrantAhead(s, call);
      case _ => HolderAhead(s, e, call);
    }
  }

  lemma LeftStaysLeft(s: State, e: Event, call: Call)
    requires Inv(s) && Enabled(s, e) && call < |s.callers|
    ensures call < |Step(s, e).callers|
    ensures Suspended(Step(s, e).callers[call].at) ==> Suspended(s.callers[call].at)
  {
    if e.Grant? {
      FirstWaiter(s);
    }
  }

  lemma AheadBounds(s: State, call: Call)
    requires Inv(s) && call < |s.callers| && Suspended(s.callers[call].at)
    ensures 0 < Ahead(s, call) <= 3 * |s.waiting| + 2
  {
  }

  lemma SomeMove(s: State, call: Call)
    requires Inv(s) && call < |s.callers| && Suspended(s.callers[call].at)
    ensures
      || Enabled(s, Grant)
      || (s.holder.Some? && Enabled(s, Resume(s.holder.value)))
      || (s.holder.Some? && Enabled(s, WorkerEnds(s.holder.value, true)) && Enabled(s, WorkerEnds(s.holder.value, false)))
  {
    if s.holder.None? {
      assert s.callers[call].at.Queued? && call in s.waiting;
      assert s.waiting[0] in s.waiting;
    }
  }

  /**
   No wake-up is lost: while a caller is suspended some move can be made, waiting only for a
   worker, and however calls are made and cancelled meanwhile at most three moves for each
   call before it, its own three and the holder's two keep it from going on.
   */
  lemma EverySuspendedCallerGoesOn(before: seq<Event>, s: State, events: seq<Event>, t: State, call: Call)
    requires Leads(Start(), before, s) && Leads(s, events, t)
    requires call < |s.callers| && call < |t.callers| && Suspended(t.callers[call].at)
    ensures Moves(events) < Ahead(s, call) <= 3 * |s.waiting| + 2
    ensures
      || Enabled(t, Grant)
      || (t.holder.Some? && Enabled(t, Resume(t.holder.value)))
      || (t.holder.Some? && Enabled(t, WorkerEnds(t.holder.value, true)) && Enabled(t, WorkerEnds(t.holder.value, false)))
  {
    RunKeeps(Start(), before, s);
    RunKeeps(s, events, t);
    RunMovesOn(s, events, t, call);
    AheadBounds(s, call);
    AheadBounds(t, call);
    SomeMove(t, call);
  }
}
