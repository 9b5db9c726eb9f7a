/**
 The native pump pool: submitting threads and workers around one small list of idle
 workers, where no job may ever queue behind a running one
 (cuprum/_pipeline_native_pump_runtime.py).
 */
module NativePumpPool {
  import opened Prelude

  type Job = nat

  /** Where a worker thread stands in its loop. */
  datatype WorkerAt =
    | Waiting              // blocked on its inbox
    | Running(job: Job)
    | Finished             // about to retire or offer itself for reuse
    | Retired
    | Died                 // settling a cancelled future raised out of the thread

  datatype Worker = Worker(at: WorkerAt, inbox: seq<Job>)

  datatype Future = Pending | Settled | Cancelled

  /**
   The pool: its workers, the idle ones, the hand-offs under way (a job, and the worker
   taken for it once there is one), and the future of every submitted job. `ended`
   counts, for an observer, how often each job has come to the end of a worker.
   */
  datatype State = State(
    idleLimit: int, workers: seq<Worker>, idle: seq<nat>,
    handing: map<Job, Option<nat>>, futures: seq<Future>, ended: multiset<Job>)

  function Start(idleLimit: int): State
  {
    State(idleLimit, [], [], map[], [], multiset{})
  }

  datatype Event =
    | Submit
    | StartWorker(job: Job)
    | Put(job: Job)
    | Get(worker: nat)
    | Settle(worker: nat)
    | RetireOrReuse(worker: nat)
    | Cancel(job: Job)

  predicate Enabled(s: State, e: Event)
  {
    match e
    case Submit => true
    case StartWorker(job) => job in s.handing && s.handing[job].None?
    case Put(job) => job in s.handing && s.handing[job].Some? && s.handing[job].value < |s.workers|
    case Get(w) => w < |s.workers| && s.workers[w].at.Waiting? && s.workers[w].inbox != []
    case Settle(w) => w < |s.workers| && s.workers[w].at.Running? && s.workers[w].at.job < |s.futures|
    case RetireOrReuse(w) => w < |s.workers| && s.workers[w].at.Finished?
    // Only a caller that already holds the future can cancel it.
    case Cancel(job) => job < |s.futures| && job !in s.handing && s.futures[job].Pending?
  }

  function Moved(s: State, w: nat, worker: Worker): State
    requires w < |s.workers|
  {
    s.(workers := s.workers[w := worker])
  }

  /** `submit` up to the end of `_take_worker`'s locked part: pop an idle worker, or find none. */
  function SubmitStep(s: State): State
  {
    var job := |s.futures|;
    var begun := s.(futures := s.futures + [Pending]);
    if s.idle == [] then begun.(handing := s.handing[job := None])
    else
      var (idle, worker) := TakeLast(s.idle);
      begun.(idle := idle, handing := s.handing[job := Some(worker)])
  }

  function TakeLast(idle: seq<nat>): (r: (seq<nat>, nat))
    requires idle != []
  {
    (idle[..|idle| - 1], idle[|idle| - 1])
  }

  function SettleStep(s: State, w: nat): State
    requires Enabled(s, Settle(w))
  {
    var job := s.workers[w].at.job;
    var cancelled := s.futures[job].Cancelled?;
    Moved(s, w, s.workers[w].(at := if cancelled then Died else Finished)).(
      futures := if cancelled then s.futures else s.futures[job := Settled],
      ended := s.ended + multiset{job})
  }

  /** `_retire_or_reuse`: the idle list after a worker offers itself, and whether it stays. */
  function Offered(idle: seq<nat>, idleLimit: int, w: nat): (r: (seq<nat>, bool))
  {
    if |idle| >= idleLimit then (idle, false) else (idle + [w], true)
  }

  function Step(s: State, e: Event): State
    requires Enabled(s, e)
  {
    match e
    case Submit => SubmitStep(s)
    case StartWorker(job) =>
      s.(workers := s.workers + [Worker(Waiting, [])], handing := s.handing[job := Some(|s.workers|)])
    case Put(job) =>
      var w := s.handing[job].value;
      Moved(s, w, s.workers[w].(inbox := s.workers[w].inbox + [job])).(handing := s.handing - {job})
    case Get(w) =>
      var worker := s.workers[w];
      Moved(s, w, Worker(Running(worker.inbox[0]), worker.inbox[1..]))
    case Settle(w) => SettleStep(s, w)
    case RetireOrReuse(w) =>
      var (idle, stays) := Offered(s.idle, s.idleLimit, w);
      Moved(s, w, s.workers[w].(at := if stays then Waiting else Retired)).(idle := idle)
    case Cancel(job) => s.(futures := s.futures[job := Cancelled])
  }

  predicate Leads(s: State, events: seq<Event>, t: State)
    decreases |events|
  {
    if events == [] then s == t
    else Enabled(s, events[0]) && Leads(Step(s, events[0]), events[1..], t)
  }

  // ----------------------------------------------------------------- invariants

  /** A worker is bound to a job: in its inbox, or under its hands. */
  predicate Holds(worker: Worker, job: Job)
  {
    job in worker.inbox || worker.at == Running(job)
  }

  /** A worker with nothing to do and nothing coming. */
  predicate Free(worker: Worker)
  {
    worker == Worker(Waiting, [])
  }

  /** Each worker holds at most one job, and only a waiting one has it in its inbox. */
  ghost predicate OneJobEach(s: State)
  {
    forall w :: 0 <= w < |s.workers| ==>
      |s.workers[w].inbox| <= 1 && (s.workers[w].inbox != [] ==> s.workers[w].at.Waiting?)
  }

  /** The idle list: distinct free workers, no more than its limit. */
  ghost predicate IdleAreFree(s: State)
  {
    && (forall i :: 0 <= i < |s.idle| ==> s.idle[i] < |s.workers| && Free(s.workers[s.idle[i]]))
    && (forall i, j :: 0 <= i < j < |s.idle| ==> s.idle[i] != s.idle[j])
    && |s.idle| <= Max(s.idleLimit, 0)
  }

  /** A worker taken for a job is free, off the idle list, and taken for no other. */
  ghost predicate TakenAreFree(s: State)
  {
    && (forall job :: job in s.handing && s.handing[job].Some? ==>
          && s.handing[job].value < |s.workers|
          && Free(s.workers[s.handing[job].value])
          && s.handing[job].value !in s.idle)
    && (forall a, b :: a in s.handing && b in s.handing && a != b && s.handing[a].Some? ==> s.handing[a] != s.handing[b])
  }

  ghost predicate HandedAreNew(s: State)
  {
    forall job :: job in s.handing ==> job < |s.futures| && s.futures[job].Pending? && job !in s.ended
  }

  ghost predicate HeldAreOpen(s: State)
  {
    forall w, job: nat :: 0 <= w < |s.workers| && Holds(s.workers[w], job) ==> IsOpen(s, job)
  }

  /** A job that has been put to a worker and has not ended. */
  predicate IsOpen(s: State, job: Job)
  {
    job < |s.futures| && !s.futures[job].Settled? && job !in s.handing && job !in s.ended
  }

  ghost predicate HeldOnce(s: State)
  {
    forall v, w, job: nat :: 0 <= v < w < |s.workers| && Holds(s.workers[v], job) ==> !Holds(s.workers[w], job)
  }

  ghost predicate EndedOnce(s: State)
  {
    forall job :: job in s.ended ==> job < |s.futures| && !s.futures[job].Pending? && s.ended[job] == 1
  }

  ghost predicate AllPlaced(s: State)
  {
    forall job: nat :: job < |s.futures| ==> Placed(s, job)
  }

  /** Every submitted job is in exactly one place: being handed over, with one worker, or ended once. */
  ghost predicate JobsInOnePlace(s: State)
  {
    HandedAreNew(s) && HeldAreOpen(s) && HeldOnce(s) && EndedOnce(s) && AllPlaced(s)
  }

  ghost predicate Placed(s: State, job: Job)
  {
    job in s.handing || job in s.ended || exists w :: 0 <= w < |s.workers| && Holds(s.workers[w], job)
  }

  ghost predicate Inv(s: State)
  {
    OneJobEach(s) && IdleAreFree(s) && TakenAreFree(s) && JobsInOnePlace(s)
  }

  lemma StepKeepsOneJob(s: State, e: Event)
    requires Inv(s) && Enabled(s, e)
    ensures OneJobEach(Step(s, e))
  {
  }

  lemma SubmitKeepsIdle(s: State)
    requires Inv(s)
    ensures IdleAreFree(SubmitStep(s)) && TakenAreFree(SubmitStep(s))
  {
  }

  lemma StepKeepsIdle(s: State, e: Event)
    requires Inv(s) && Enabled(s, e) && !e.Submit?
    ensures IdleAreFree(Step(s, e))
  {
  }

  lemma StartKeepsTaken(s: State, job: Job)
    requires Inv(s) && Enabled(s, StartWorker(job))
    ensures TakenAreFree(Step(s, StartWorker(job)))
  {
  }

  lemma PutKeepsTaken(s: State, job: Job)
    requires Inv(s) && Enabled(s, Put(job))
    ensures TakenAreFree(Step(s, Put(job)))
  {
  }

  lemma WorkerKeepsTaken(s: State, e: Event)
    requires Inv(s) && Enabled(s, e) && (e.Get? || e.Settle? || e.RetireOrReuse?)
    ensures TakenAreFree(Step(s, e))
  {
    var t := Step(s, e);
    forall job | job in t.handing && t.handing[job].Some?
      ensures t.handing[job].value != e.worker
    {
      assert Free(s.workers[s.handing[job].value]);
    }
  }

  lemma StepKeepsTaken(s: State, e: Event)
    requires Inv(s) && Enabled(s, e) && !e.Submit?
    ensures TakenAreFree(Step(s, e))
  {
    match e
    case StartWorker(job) => StartKeepsTaken(s, job);
    case Put(job) => PutKeepsTaken(s, job);
    case Cancel(_) =>
    case _ => WorkerKeepsTaken(s, e);
  }

  /** The jobs a step adds to a worker: none, but for the one put into its inbox. */
  lemma StepHolds(s: State, e: Event, w: nat, job: Job)
    requires Inv(s) && Enabled(s, e) && w < |Step(s, e).workers| && Holds(Step(s, e).workers[w], job)
    ensures
      || (w < |s.workers| && Holds(s.workers[w], job))
      || (e == Put(job) && s.handing[job] == Some(w) && w < |s.workers|)
  {
  }

  lemma StepKeepsHanded(s: State, e: Event)
    requires Inv(s) && Enabled(s, e)
    ensures HandedAreNew(Step(s, e)) && EndedOnce(Step(s, e))
  {
    if e.Settle? {
      RunningIsOpen(s, e.worker);
    }
  }

  lemma RunningIsOpen(s: State, w: nat)
    requires HeldAreOpen(s) && w < |s.workers| && s.workers[w].at.Running?
    ensures IsOpen(s, s.workers[w].at.job)
  {
    assert Holds(s.workers[w], s.workers[w].at.job);
  }

  lemma StepKeepsHeld(s: State, e: Event)
    requires Inv(s) && Enabled(s, e)
    ensures HeldAreOpen(Step(s, e))
  {
    var t := Step(s, e);
    forall w, job: nat | 0 <= w < |t.workers| && Holds(t.workers[w], job)
      ensures IsOpen(t, job)
    {
      StepHolds(s, e, w, job);
      if e.Settle? {
        SettlesAnother(s, e.worker, w, job);
      }
      if w < |s.workers| && Holds(s.workers[w], job) {
        assert IsOpen(s, job);
      }
    }
  }

  /** A worker that settles a job is not the one still holding another. */
  lemma SettlesAnother(s: State, settling: nat, w: nat, job: Job)
    requires Inv(s) && Enabled(s, Settle(settling)) && w < |s.workers|
    requires Holds(Step(s, Settle(settling)).workers[w], job)
    ensures s.workers[settling].at.job != job && Holds(s.workers[w], job)
  {
    assert Holds(s.workers[settling], s.workers[settling].at.job);
  }

  lemma StepKeepsHeldOnce(s: State, e: Event)
    requires Inv(s) && Enabled(s, e)
    ensures HeldOnce(Step(s, e))
  {
    var t := Step(s, e);
    forall v, w, job: nat | 0 <= v < w < |t.workers| && Holds(t.workers[v], job)
      ensures !Holds(t.workers[w], job)
    {
      StepHolds(s, e, v, job);
      assert Holds(s.workers[v], job) ==> IsOpen(s, job);
      assert w < |s.workers| && Holds(s.workers[w], job) ==> IsOpen(s, job);
      if Holds(t.workers[w], job) {
        StepHolds(s, e, w, job);
      }
    }
  }

  /** The worker a step does not touch keeps what it holds, and so does every touched one but the one that settles. */
  lemma StillHeld(s: State, e: Event, w: nat, job: Job)
    requires Inv(s) && Enabled(s, e) && w < |s.workers| && Holds(s.workers[w], job)
    ensures w < |Step(s, e).workers|
    ensures Holds(Step(s, e).workers[w], job) || (e == Settle(w) && job in Step(s, e).ended)
  {
    if e == Get(w) {
      assert s.workers[w].inbox == [s.workers[w].inbox[0]];
    }
  }

  lemma StepKeepsPlaced(s: State, e: Event)
    requires Inv(s) && Enabled(s, e)
    ensures AllPlaced(Step(s, e))
  {
    var t := Step(s, e);
    forall job: nat | job < |t.futures|
      ensures Placed(t, job)
    {
      if job < |s.futures| {
        assert Placed(s, job);
        if w :| 0 <= w < |s.workers| && Holds(s.workers[w], job) {
          StillHeld(s, e, w, job);
        } else if e == Put(job) {
          assert Holds(t.workers[s.handing[job].value], job);
        }
      }
    }
  }

  lemma StepKeeps(s: State, e: Event)
    requires Inv(s) && Enabled(s, e)
    ensures Inv(Step(s, e)) && Step(s, e).idleLimit == s.idleLimit
  {
    StepKeepsOneJob(s, e);
    if e.Submit? {
      SubmitKeepsIdle(s);
    } else {
      StepKeepsIdle(s, e);
      StepKeepsTaken(s, e);
    }
    StepKeepsHanded(s, e);
    StepKeepsHeld(s, e);
    StepKeepsHeldOnce(s, e);
    StepKeepsPlaced(s, e);
  }

  lemma {:induction false} RunKeeps(s: State, events: seq<Event>, t: State)
    requires Inv(s) && Leads(s, events, t)
    ensures Inv(t) && t.idleLimit == s.idleLimit
    decreases |events|
  {
    if events != [] {
      StepKeeps(s, events[0]);
      RunKeeps(Step(s, events[0]), events[1..], t);
    }
  }

  lemma Reached(idleLimit: int, events: seq<Event>, s: State)
    requires Leads(Start(idleLimit), events, s)
    ensures Inv(s) && s.idleLimit == idleLimit
  {
    assert Inv(Start(idleLimit));
    RunKeeps(Start(idleLimit), events, s);
  }

  // -------------------------------------------------------- what every run obeys

  /**
   In every interleaving the idle workers are distinct, hold nothing, are taken for nothing, and stay
   within the limit.
   */
  lemma IdleWorkersHoldNothing(idleLimit: int, events: seq<Event>, s: State, i: nat)
    requires Leads(Start(idleLimit), events, s) && i < |s.idle|
    ensures |s.idle| <= Max(idleLimit, 0)
    ensures s.idle[i] < |s.workers| && Free(s.workers[s.idle[i]])
    ensures forall j :: 0 <= j < |s.idle| && j != i ==> s.idle[j] != s.idle[i]
    ensures forall job :: job in s.handing ==> s.handing[job] != Some(s.idle[i])
  {
    Reached(idleLimit, events, s);
    assert s.idle[i] in s.idle;
  }

  /** A worker holds at most one job, counting its inbox, its hands and a hand-off under way. */
  lemma WorkersHoldOneJob(idleLimit: int, events: seq<Event>, s: State, w: nat, a: Job, b: Job)
    requires Leads(Start(idleLimit), events, s) && w < |s.workers|
    requires Holds(s.workers[w], a) || (a in s.handing && s.handing[a] == Some(w))
    requires Holds(s.workers[w], b) || (b in s.handing && s.handing[b] == Some(w))
    ensures a == b && |s.workers[w].inbox| <= 1
    ensures !s.workers[w].at.Finished? && !s.workers[w].at.Retired? && !s.workers[w].at.Died?
  {
    Reached(idleLimit, events, s);
  }

  /**
   Nothing ever queues behind running work: a hand-off always lands in the empty inbox
   of a worker that is waiting for it, and that job is the next thing the worker runs.
   */
  lemma HandOffNeverQueues(idleLimit: int, events: seq<Event>, s: State, job: Job)
    requires Leads(Start(idleLimit), events, s) && Enabled(s, Put(job))
    ensures
      var w := s.handing[job].value;
      var t := Step(s, Put(job));
      && Free(s.workers[w]) && w !in s.idle
      && t.workers[w] == Worker(Waiting, [job])
      && Enabled(t, Get(w)) && Step(t, Get(w)).workers[w] == Worker(Running(job), [])
  {
    Reached(idleLimit, events, s);
    var w := s.handing[job].value;
    assert s.workers[w].inbox + [job] == [job];
  }

  /** Some step that concerns only this job can be taken. */
  predicate CanGoOn(s: State, job: Job)
  {
    || Enabled(s, StartWorker(job)) || Enabled(s, Put(job))
    || (exists w: nat :: w < |s.workers| && Serves(s, w, job))
  }

  predicate Serves(s: State, w: nat, job: Job)
    requires w < |s.workers|
  {
    || (s.workers[w] == Worker(Waiting, [job]) && Enabled(s, Get(w)))
    || (s.workers[w].at == Running(job) && Enabled(s, Settle(w)))
  }

  /** Each unfinished job has a step of its own to take: it never waits for another job to end. */
  lemma NoJobWaitsForAnother(idleLimit: int, events: seq<Event>, s: State, job: Job)
    requires Leads(Start(idleLimit), events, s) && job < |s.futures| && job !in s.ended
    ensures CanGoOn(s, job)
  {
    Reached(idleLimit, events, s);
    assert Placed(s, job);
    if job !in s.handing {
      var w: nat :| w < |s.workers| && Holds(s.workers[w], job);
      if job in s.workers[w].inbox {
        assert s.workers[w].inbox == [job];
      }
      assert Serves(s, w, job);
    }
  }

  /**
   Every submitted job comes to an end at most once; a settled future is an ended job's, and an ended
   job's future is settled or cancelled.
   */
  lemma JobsEndAtMostOnce(idleLimit: int, events: seq<Event>, s: State, job: Job)
    requires Leads(Start(idleLimit), events, s) && job < |s.futures|
    ensures s.ended[job] <= 1
    ensures s.futures[job].Settled? ==> s.ended[job] == 1
    ensures s.ended[job] == 1 ==> !s.futures[job].Pending?
  {
    Reached(idleLimit, events, s);
    assert Placed(s, job);
    if w :| 0 <= w < |s.workers| && Holds(s.workers[w], job) {
      assert IsOpen(s, job);
    }
  }

  // -------------------------------------------------------- no worker is forgotten

  ghost predicate Taken(s: State, w: nat)
  {
    exists job :: job in s.handing && s.handing[job] == Some(w)
  }

  ghost predicate FreeAreKnown(s: State)
  {
    forall w :: 0 <= w < |s.workers| && Free(s.workers[w]) ==> w in s.idle || Taken(s, w)
  }

  lemma SubmitKeepsKnown(s: State)
    requires Inv(s) && FreeAreKnown(s)
    ensures FreeAreKnown(SubmitStep(s))
  {
    var t, job := SubmitStep(s), |s.futures|;
    forall w | 0 <= w < |t.workers| && Free(t.workers[w])
      ensures w in t.idle || Taken(t, w)
    {
      if Taken(s, w) {
        var other :| other in s.handing && s.handing[other] == Some(w);
        assert other in t.handing && t.handing[other] == Some(w);
      } else if w !in t.idle {
        assert job in t.handing && t.handing[job] == Some(w);
      }
    }
  }

  lemma HandingKeepsKnown(s: State, e: Event)
    requires Inv(s) && FreeAreKnown(s) && Enabled(s, e) && (e.StartWorker? || e.Put?)
    ensures FreeAreKnown(Step(s, e))
  {
    var t := Step(s, e);
    forall w | 0 <= w < |t.workers| && Free(t.workers[w])
      ensures w in t.idle || Taken(t, w)
    {
      if w == |s.workers| {
        assert e.job in t.handing && t.handing[e.job] == Some(w);
      } else if Taken(s, w) {
        var other :| other in s.handing && s.handing[other] == Some(w);
        assert other in t.handing && t.handing[other] == Some(w);
      }
    }
  }

  lemma OthersKeepKnown(s: State, e: Event)
    requires Inv(s) && FreeAreKnown(s) && Enabled(s, e) && !e.Submit? && !e.StartWorker? && !e.Put?
    ensures FreeAreKnown(Step(s, e))
  {
    var t := Step(s, e);
    forall w | 0 <= w < |t.workers| && Free(t.workers[w])
      ensures w in t.idle || Taken(t, w)
    {
      if Free(s.workers[w]) && Taken(s, w) {
        var other :| other in s.handing && s.handing[other] == Some(w);
        assert other in t.handing && t.handing[other] == Some(w);
      }
    }
  }

  lemma {:induction false} RunKeepsKnown(s: State, events: seq<Event>, t: State)
    requires Inv(s) && FreeAreKnown(s) && Leads(s, events, t)
    ensures FreeAreKnown(t)
    decreases |events|
  {
    if events != [] {
      var e := events[0];
      StepKeeps(s, e);
      if e.Submit? {
        SubmitKeepsKnown(s);
      } else if e.StartWorker? || e.Put? {
        HandingKeepsKnown(s, e);
      } else {
        OthersKeepKnown(s, e);
      }
      RunKeepsKnown(Step(s, e), events[1..], t);
    }
  }

  /**
   In every interleaving a thread waits with an empty inbox exactly while it is on the idle list or a
   submission has taken it: no thread is lost to the pool.
   */
  lemma NoWorkerIsForgotten(idleLimit: int, events: seq<Event>, s: State, w: nat)
    requires Leads(Start(idleLimit), events, s) && w < |s.workers|
    ensures Free(s.workers[w]) <==> w in s.idle || Taken(s, w)
  {
    Reached(idleLimit, events, s);
    RunKeepsKnown(Start(idleLimit), events, s);
  }

  /**
   What a finished worker does next and whom the next submission gets: below the limit the
   worker waits and is the one taken, at the limit it exits; a submission that finds nobody
   idle is left to start a thread, and no other is.
   */
  lemma FinishedWorkerServesNext(idleLimit: int, events: seq<Event>, s: State, w: nat)
    requires Leads(Start(idleLimit), events, s) && Enabled(s, RetireOrReuse(w))
    ensures
      var t := Step(s, RetireOrReuse(w));
      var next := Step(t, Submit).handing[|s.futures|];
      && (|s.idle| < idleLimit ==> t.workers[w] == Worker(Waiting, []) && next == Some(w))
      && (|s.idle| >= idleLimit ==> t.workers[w] == Worker(Retired, []) && t.idle == s.idle)
      && (next.None? <==> idleLimit <= 0)
  {
    Reached(idleLimit, events, s);
  }

  // ------------------------------------------------------------- a job by itself

  /** A step that moves this job on, and no other. */
  predicate OwnStep(s: State, e: Event, job: Job)
  {
    match e
    case StartWorker(j) => j == job
    case Put(j) => j == job
    case Get(w) => w < |s.workers| && s.workers[w].inbox == [job]
    case Settle(w) => w < |s.workers| && s.workers[w].at == Running(job)
    case _ => false
  }

  /** A run of one job's own steps. */
  predicate OwnRun(s: State, events: seq<Event>, job: Job, t: State)
    decreases |events|
  {
    if events == [] then s == t
    else Enabled(s, events[0]) && OwnStep(s, events[0], job) && OwnRun(Step(s, events[0]), events[1..], job, t)
  }

  lemma OwnRunFrom(s: State, e: Event, events: seq<Event>, job: Job, t: State)
    requires Enabled(s, e) && OwnStep(s, e, job) && OwnRun(Step(s, e), events, job, t)
    ensures OwnRun(s, [e] + events, job, t)
  {
    assert ([e] + events)[1..] == events;
  }

  lemma RunningEnds(s: State, w: nat, job: Job) returns (events: seq<Event>, t: State)
    requires Inv(s) && w < |s.workers| && s.workers[w].at == Running(job)
    ensures OwnRun(s, events, job, t) && |events| == 1 && job in t.ended
  {
    RunningIsOpen(s, w);
    t := Step(s, Settle(w));
    OwnRunFrom(s, Settle(w), [], job, t);
    events := [Settle(w)] + [];
  }

  lemma AwaitedEnds(s: State, w: nat, job: Job) returns (events: seq<Event>, t: State)
    requires Inv(s) && w < |s.workers| && s.workers[w] == Worker(Waiting, [job])
    ensures OwnRun(s, events, job, t) && |events| == 2 && job in t.ended
  {
    var rest;
    StepKeeps(s, Get(w));
    rest, t := RunningEnds(Step(s, Get(w)), w, job);
    OwnRunFrom(s, Get(w), rest, job, t);
    events := [Get(w)] + rest;
  }

  lemma TakenEnds(s: State, job: Job) returns (events: seq<Event>, t: State)
    requires Inv(s) && job in s.handing && s.handing[job].Some?
    ensures OwnRun(s, events, job, t) && |events| == 3 && job in t.ended
  {
    var w, rest := s.handing[job].value, [];
    assert s.workers[w].inbox + [job] == [job];
    StepKeeps(s, Put(job));
    rest, t := AwaitedEnds(Step(s, Put(job)), w, job);
    OwnRunFrom(s, Put(job), rest, job, t);
    events := [Put(job)] + rest;
  }

  lemma UnservedEnds(s: State, job: Job) returns (events: seq<Event>, t: State)
    requires Inv(s) && job in s.handing && s.handing[job].None?
    ensures OwnRun(s, events, job, t) && |events| == 4 && job in t.ended
  {
    var rest;
    StepKeeps(s, StartWorker(job));
    rest, t := TakenEnds(Step(s, StartWorker(job)), job);
    OwnRunFrom(s, StartWorker(job), rest, job, t);
    events := [StartWorker(job)] + rest;
  }

  /**
   From every reachable state every submitted job can be brought to its end by at most four
   steps of its own, whatever the other jobs are doing: no running job is ever in its way.
   */
  lemma EveryJobEndsByItself(idleLimit: int, events: seq<Event>, s: State, job: Job) returns (own: seq<Event>, t: State)
    requires Leads(Start(idleLimit), events, s) && job < |s.futures|
    ensures OwnRun(s, own, job, t) && |own| <= 4 && job in t.ended
  {
    Reached(idleLimit, events, s);
    assert Placed(s, job);
    if job in s.ended {
      own, t := [], s;
    } else if job in s.handing {
      if s.handing[job].None? {
        own, t := UnservedEnds(s, job);
      } else {
        own, t := TakenEnds(s, job);
      }
    } else {
      var w: nat :| w < |s.workers| && Holds(s.workers[w], job);
      if s.workers[w].at == Running(job) {
        own, t := RunningEnds(s, w, job);
      } else {
        assert s.workers[w].inbox == [job];
        own, t := AwaitedEnds(s, w, job);
      }
    }
  }

  // --------------------------------------------------------------- workers that die

  ghost predicate SomeDied(s: State)
  {
    exists w :: 0 <= w < |s.workers| && s.workers[w].at.Died?
  }

  /** Some job came to its end with its future already cancelled. */
  ghost predicate SomeEndedCancelled(s: State)
  {
    exists job: nat :: job < |s.futures| && s.futures[job].Cancelled? && job in s.ended
  }

  lemma OthersKeepDead(s: State, e: Event)
    requires Inv(s) && Enabled(s, e) && !e.Settle? && (SomeDied(s) <==> SomeEndedCancelled(s))
    ensures SomeDied(Step(s, e)) <==> SomeEndedCancelled(Step(s, e))
  {
    var t := Step(s, e);
    assert forall w :: 0 <= w < |s.workers| && s.workers[w].at.Died? ==> t.workers[w].at.Died?;
    assert forall w :: 0 <= w < |t.workers| && t.workers[w].at.Died? ==> w < |s.workers| && s.workers[w].at.Died?;
    assert forall job: nat :: job < |s.futures| && s.futures[job].Cancelled? ==> t.futures[job].Cancelled?;
    assert forall job: nat :: job < |t.futures| && t.futures[job].Cancelled? && job in t.ended ==>
      job < |s.futures| && s.futures[job].Cancelled?;
  }

  lemma SettleKeepsDead(s: State, w: nat)
    requires Inv(s) && Enabled(s, Settle(w)) && (SomeDied(s) <==> SomeEndedCancelled(s))
    ensures SomeDied(Step(s, Settle(w))) <==> SomeEndedCancelled(Step(s, Settle(w)))
  {
    var t := SettleStep(s, w);
    var job := s.workers[w].at.job;
    if s.futures[job].Cancelled? {
      assert t.workers[w].at.Died? && t.futures[job].Cancelled? && job in t.ended;
    } else {
      assert forall v :: 0 <= v < |s.workers| ==> (t.workers[v].at.Died? <==> s.workers[v].at.Died?);
      assert forall j: nat :: j < |s.futures| ==> (t.futures[j].Cancelled? <==> s.futures[j].Cancelled?);
      assert forall j: nat :: j < |s.futures| && s.futures[j].Cancelled? ==> (j in t.ended <==> j in s.ended);
    }
  }

  lemma {:induction false} RunKeepsDead(s: State, events: seq<Event>, t: State)
    requires Inv(s) && Leads(s, events, t) && (SomeDied(s) <==> SomeEndedCancelled(s))
    ensures SomeDied(t) <==> SomeEndedCancelled(t)
    decreases |events|
  {
    if events != [] {
      StepKeeps(s, events[0]);
      if events[0].Settle? {
        SettleKeepsDead(s, events[0].worker);
      } else {
        OthersKeepDead(s, events[0]);
      }
      RunKeepsDead(Step(s, events[0]), events[1..], t);
    }
  }

  /**
   A worker has died, rather than retired or gone back to the pool, exactly when a job ended whose
   caller had cancelled its future.
   */
  lemma DiedIffEndedCancelled(idleLimit: int, events: seq<Event>, s: State)
    requires Leads(Start(idleLimit), events, s)
    ensures SomeDied(s) <==> SomeEndedCancelled(s)
  {
    assert Inv(Start(idleLimit));
    RunKeepsDead(Start(idleLimit), events, s);
  }

  lemma {:induction false} NothingCancelled(s: State, events: seq<Event>, t: State)
    requires Leads(s, events, t) && forall i :: 0 <= i < |s.futures| ==> !s.futures[i].Cancelled?
    requires forall i :: 0 <= i < |events| ==> !events[i].Cancel?
    ensures forall i :: 0 <= i < |t.futures| ==> !t.futures[i].Cancelled?
    decreases |events|
  {
    if events != [] {
      assert !events[0].Cancel?;
      NothingCancelled(Step(s, events[0]), events[1..], t);
    }
  }

  /** While no caller cancels the pool's own future, every worker that finishes retires or goes back to the pool. */
  lemma ShieldedWorkersLive(idleLimit: int, events: seq<Event>, s: State, w: nat)
    requires Leads(Start(idleLimit), events, s) && w < |s.workers|
    requires forall i :: 0 <= i < |events| ==> !events[i].Cancel?
    ensures !s.workers[w].at.Died?
  {
    NothingCancelled(Start(idleLimit), events, s);
    DiedIffEndedCancelled(idleLimit, events, s);
  }

  /** A run in which a worker dies: its job's future is cancelled while it runs. */
  lemma DeathWitness(idleLimit: int) returns (s: State)
    ensures Leads(Start(idleLimit), [Submit, StartWorker(0), Put(0), Get(0), Cancel(0), Settle(0)], s)
    ensures SomeDied(s)
  {
    var events := [Submit, StartWorker(0), Put(0), Get(0), Cancel(0), Settle(0)];
    var s1 := Step(Start(idleLimit), Submit);
    var s2 := Step(s1, StartWorker(0));
    var s3 := Step(s2, Put(0));
    var s4 := Step(s3, Get(0));
    var s5 := Step(s4, Cancel(0));
    s := Step(s5, Settle(0));
    assert Leads(s, [], s);
    LeadsFrom(s5, Settle(0), [], s);
    LeadsFrom(s4, Cancel(0), [Settle(0)], s);
    LeadsFrom(s3, Get(0), [Cancel(0), Settle(0)], s);
    LeadsFrom(s2, Put(0), [Get(0), Cancel(0), Settle(0)], s);
    LeadsFrom(s1, StartWorker(0), [Put(0), Get(0), Cancel(0), Settle(0)], s);
    LeadsFrom(Start(idleLimit), Submit, [StartWorker(0), Put(0), Get(0), Cancel(0), Settle(0)], s);
    assert s.workers[0].at.Died?;
  }

  lemma LeadsFrom(s: State, e: Event, events: seq<Event>, t: State)
    requires Enabled(s, e) && Leads(Step(s, e), events, t)
    ensures Leads(s, [e] + events, t)
  {
    assert ([e] + events)[1..] == events;
  }

  /** The pool's shared list and the two sections that touch it under its lock. */
  class PooledExecutor {
    const idleLimit: int
    var idle: seq<nat>

    constructor (idleLimit: int)
      ensures idle == [] && this.idleLimit == idleLimit
    {
      this.idleLimit, idle := idleLimit, [];
    }

    /** `_take_worker`: the most recently idle worker, or none, and then one must be started. */
    method TakeWorker() returns (worker: Option<nat>)
      modifies this
      ensures worker.None? <==> old(idle) == []
      ensures worker.None? ==> idle == old(idle)
      ensures worker.Some? ==> old(idle) == idle + [worker.value] && (idle, worker.value) == TakeLast(old(idle))
    {
      if idle == [] {
        return None;
      }
      worker := Some(idle[|idle| - 1]);
      idle := idle[..|idle| - 1];
    }

    /** `_retire_or_reuse`: keep a finished worker, or report that it should exit. */
    method RetireOrReuseWorker(worker: nat) returns (stays: bool)
      modifies this
      ensures (idle, stays) == Offered(old(idle), idleLimit, worker)
      ensures stays <==> |old(idle)| < idleLimit
      ensures idle == if stays then old(idle) + [worker] else old(idle)
    {
      if |idle| >= idleLimit {
        return false;
      }
      idle := idle + [worker];
      return true;
    }
  }
}
