/**
 What a schedule of storage outcomes makes of a file-backed capture: which calls it makes,
 which of them decide how it ends, and which bytes its file takes (cuprum/_capture_file.py).
 */
module CaptureSchedule {
  import opened Prelude
  import opened CaptureSpillIo

  datatype Policy = FileBacked(spillThreshold: Option<nat>, keepFile: bool)

  // --------------------------------------------------------------------- one spill

  /** Whether the write and the flush that carry the prefix both return. */
  predicate PrefixLands(schedule: seq<Await>)
  {
    OutcomeOf(At(schedule, 0)) == Returned && OutcomeOf(At(schedule, 1)) == Returned
  }

  /** Where the failed transition starts its clean-up, if the write or the flush was refused. */
  function DiscardFrom(schedule: seq<Await>): Option<nat>
  {
    if OutcomeOf(At(schedule, 0)) == Raised then Some(1)
    else if OutcomeOf(At(schedule, 0)) == Returned && OutcomeOf(At(schedule, 1)) == Raised then Some(2)
    else None
  }

  predicate PrefixLeaks(schedule: seq<Await>)
  {
    match DiscardFrom(schedule)
    case None => false
    case Some(i) => OutcomeOf(At(schedule, i)) != Cancelled && OutcomeOf(At(schedule, i + 1)) == Raised
  }

  predicate PrefixCancelled(schedule: seq<Await>)
  {
    || OutcomeOf(At(schedule, 0)) == Cancelled
    || (OutcomeOf(At(schedule, 0)) == Returned && OutcomeOf(At(schedule, 1)) == Cancelled)
    || (match DiscardFrom(schedule)
        case None => false
        case Some(i) => OutcomeOf(At(schedule, i)) == Cancelled || OutcomeOf(At(schedule, i + 1)) == Cancelled)
  }

  /** The calls of a failed transition's clean-up: the close, and the unlink unless the close was cancelled. */
  function DiscardCalls(schedule: seq<Await>): nat
  {
    if OutcomeOf(At(schedule, 0)) == Cancelled then 1 else 2
  }

  /** The calls made once the file exists: the write, the flush if it returned, the clean-up if either was refused. */
  function PrefixCalls(schedule: seq<Await>): nat
  {
    match DiscardFrom(schedule)
    case None => if OutcomeOf(At(schedule, 0)) == Returned then 2 else 1
    case Some(i) => i + DiscardCalls(Skip(schedule, i))
  }

  /** Whether the spill completes: create, write and flush all return. */
  predicate SpillLands(schedule: seq<Await>)
  {
    OutcomeOf(At(schedule, 0)) == Returned && PrefixLands(Skip(schedule, 1))
  }

  /** The one way a file escapes its run: the spill failed, was not cancelled, and the unlink was refused too. */
  predicate SpillLeaks(schedule: seq<Await>)
  {
    OutcomeOf(At(schedule, 0)) == Returned && PrefixLeaks(Skip(schedule, 1))
  }

  predicate SpillCancelled(schedule: seq<Await>)
  {
    || OutcomeOf(At(schedule, 0)) == Cancelled
    || (OutcomeOf(At(schedule, 0)) == Returned && PrefixCancelled(Skip(schedule, 1)))
  }

  /** Whether the clean-up of a failed transition got as far as removing the file. */
  predicate PrefixRemoves(schedule: seq<Await>)
  {
    match DiscardFrom(schedule)
    case None => false
    case Some(i) => OutcomeOf(At(schedule, i)) != Cancelled && !At(schedule, i + 1).refused
  }

  predicate SpillRemoves(schedule: seq<Await>)
  {
    OutcomeOf(At(schedule, 0)) == Returned && PrefixRemoves(Skip(schedule, 1))
  }

  /** Whether an attempt to spill ends with a handle to its file: it landed, or a cancellation left it half made. */
  predicate SpillHeld(schedule: seq<Await>)
  {
    !At(schedule, 0).refused && (SpillLands(schedule) || SpillCancelled(schedule))
  }

  /** The calls one attempt to spill makes. */
  function SpillCalls(schedule: seq<Await>): nat
  {
    if OutcomeOf(At(schedule, 0)) == Returned then 1 + PrefixCalls(Skip(schedule, 1)) else 1
  }

  /** Cancellations alone never lose a file, wherever they strike; it takes two refusals. */
  lemma LeakNeedsTwoRefusals(schedule: seq<Await>)
    requires SpillLeaks(schedule)
    ensures exists i, j :: 0 <= i < j < |schedule| && schedule[i].refused && schedule[j].refused
  {
    var from := DiscardFrom(Skip(schedule, 1)).value;
    SkipAt(schedule, 1, from - 1);
    SkipAt(schedule, 1, from + 1);
    assert At(schedule, from).refused && At(schedule, from + 2).refused;
    assert schedule[from].refused && schedule[from + 2].refused;
  }

  /** A full disk in a directory that refuses removals. */
  function FullDisk(): seq<Await>
  {
    [Await(false, 0, Never), Await(true, 0, Never), Await(false, 0, Never), Await(true, 0, Never)]
  }

  lemma FullDiskLeaks()
    ensures SpillLeaks(FullDisk()) && !SpillCancelled(FullDisk())
  {
    assert Skip(FullDisk(), 1) == [Await(true, 0, Never), Await(false, 0, Never), Await(true, 0, Never)];
  }

  /** A cancellation that a call's own failure keeps from being raised. */
  predicate Lost(a: Await)
  {
    a.cancel == During && a.refused
  }

  /** Calls end in a cancellation exactly when one is delivered to them that no failure of theirs swallows. */
  lemma CancelledUnlessLost(schedule: seq<Await>, n: nat)
    ensures CancelledIn(schedule, n) <==> exists i :: 0 <= i < n && At(schedule, i).Struck() && !Lost(At(schedule, i))
  {
    forall i | 0 <= i < n
      ensures OutcomeOf(At(schedule, i)) == Cancelled <==> At(schedule, i).Struck() && !Lost(At(schedule, i))
    {
    }
  }

  /**
   The prefix's write is cancelled while a full disk refuses it: the cancellation is lost, and the
   run goes on to leak its file.
   */
  lemma LostCancellationLeaks()
    ensures
      var schedule := FullDisk()[1 := Await(true, 0, During)];
      && At(schedule, 1).Struck() && !CancelledIn(schedule, SpillCalls(schedule))
      && SpillLeaks(schedule) && !SpillLands(schedule)
  {
    var schedule := FullDisk()[1 := Await(true, 0, During)];
    assert Skip(schedule, 1) == [Await(true, 0, During), Await(false, 0, Never), Await(true, 0, Never)];
    SpillVerdict(schedule);
  }

  lemma InSkip(schedule: seq<Await>, m: nat, n: nat)
    ensures CancelledIn(schedule, m + n) <==> CancelledIn(schedule, m) || CancelledIn(Skip(schedule, m), n)
    ensures RaisedIn(schedule, m + n) <==> RaisedIn(schedule, m) || RaisedIn(Skip(schedule, m), n)
    decreases n
  {
    if n > 0 {
      InSkip(schedule, m, n - 1);
      OneMoreCall(schedule, m + n - 1);
      OneMoreCall(Skip(schedule, m), n - 1);
      SkipAt(schedule, m, n - 1);
    }
  }

  lemma FewCalls(schedule: seq<Await>)
    ensures !CancelledIn(schedule, 0) && !RaisedIn(schedule, 0)
    ensures CancelledIn(schedule, 1) <==> OutcomeOf(At(schedule, 0)) == Cancelled
    ensures RaisedIn(schedule, 1) <==> OutcomeOf(At(schedule, 0)) == Raised
    ensures CancelledIn(schedule, 2) <==>
      OutcomeOf(At(schedule, 0)) == Cancelled || OutcomeOf(At(schedule, 1)) == Cancelled
    ensures RaisedIn(schedule, 2) <==> OutcomeOf(At(schedule, 0)) == Raised || OutcomeOf(At(schedule, 1)) == Raised
  {
    OneMoreCall(schedule, 0);
    OneMoreCall(schedule, 1);
  }

  /** A prefix's fate is that of the calls made for it: cancelled by any of them, refused by any of them. */
  lemma PrefixVerdict(schedule: seq<Await>)
    ensures CancelledIn(schedule, PrefixCalls(schedule)) <==> PrefixCancelled(schedule)
    ensures !PrefixCancelled(schedule) ==> (RaisedIn(schedule, PrefixCalls(schedule)) <==> !PrefixLands(schedule))
  {
    FewCalls(schedule);
    match DiscardFrom(schedule)
    case None =>
    case Some(i) =>
      var rest := Skip(schedule, i);
      SkipAt(schedule, i, 0);
      SkipAt(schedule, i, 1);
      FewCalls(rest);
      InSkip(schedule, i, DiscardCalls(rest));
  }

  /** A spill is cancelled, or fails, exactly when a call it made is cancelled, or refused. */
  lemma SpillVerdict(schedule: seq<Await>)
    ensures CancelledIn(schedule, SpillCalls(schedule)) <==> SpillCancelled(schedule)
    ensures !SpillCancelled(schedule) ==> (RaisedIn(schedule, SpillCalls(schedule)) <==> !SpillLands(schedule))
    ensures SpillLands(schedule) ==> SpillCalls(schedule) == 3 && !SpillCancelled(schedule)
  {
    var rest := Skip(schedule, 1);
    FewCalls(schedule);
    PrefixVerdict(rest);
    InSkip(schedule, 1, PrefixCalls(rest));
  }

  // --------------------------------------------------------------- a whole stream

  /** Whether a stream ever outgrows the heap: the threshold is asked about after every chunk. */
  predicate SpillAttempted(policy: Policy, chunks: seq<seq<Byte>>)
  {
    chunks != [] && (policy.spillThreshold.None? || |Joined(chunks)| > policy.spillThreshold.value)
  }

  /** The capture's prefix landed on file. */
  predicate Landed(policy: Policy, chunks: seq<seq<Byte>>, schedule: seq<Await>)
  {
    SpillAttempted(policy, chunks) && SpillLands(schedule)
  }

  /** The capture left a file no handle reaches. */
  predicate Leaked(policy: Policy, chunks: seq<seq<Byte>>, schedule: seq<Await>)
  {
    SpillAttempted(policy, chunks) && SpillLeaks(schedule)
  }

  /** The capture holds a handle, and so an obligation to clean up. */
  predicate Held(policy: Policy, chunks: seq<seq<Byte>>, schedule: seq<Await>)
  {
    SpillAttempted(policy, chunks) && SpillHeld(schedule)
  }

  /** The file of that handle is still there when the clean-up starts. */
  predicate OnDisk(policy: Policy, chunks: seq<seq<Byte>>, schedule: seq<Await>)
  {
    Held(policy, chunks, schedule) && !SpillRemoves(schedule)
  }

  /** The file is the caller's: it landed, and the policy keeps it. */
  predicate Kept(policy: Policy, chunks: seq<seq<Byte>>, schedule: seq<Await>)
  {
    Landed(policy, chunks, schedule) && policy.keepFile
  }

  /**
   Whether a clean-up under `schedule` leaves the file: it was kept, or the unlink was not reached,
   or was refused.
   */
  predicate CleanupLeaves(kept: bool, schedule: seq<Await>)
  {
    kept || At(schedule, 0).Struck() || At(schedule, 1).refused
  }

  /** Whether a cancellation escapes from a clean-up, whose awaits nothing shields. */
  predicate CleanupCancelled(kept: bool, schedule: seq<Await>)
  {
    At(schedule, 0).Struck() || (!kept && At(schedule, 1).Struck())
  }

  /** A spill that lands removes nothing. */
  lemma LandedIsOnDisk(policy: Policy, chunks: seq<seq<Byte>>, schedule: seq<Await>)
    ensures Landed(policy, chunks, schedule) ==> OnDisk(policy, chunks, schedule)
  {
  }

  function Front(chunks: seq<seq<Byte>>): seq<seq<Byte>>
    requires chunks != []
  {
    chunks[..|chunks| - 1]
  }

  function Last(chunks: seq<seq<Byte>>): seq<Byte>
    requires chunks != []
  {
    chunks[|chunks| - 1]
  }

  /** How many chunks come after the one that outgrew the heap. */
  function Later(policy: Policy, chunks: seq<seq<Byte>>): (k: nat)
    ensures k <= |chunks|
  {
    if chunks == [] || !SpillAttempted(policy, Front(chunks)) then 0 else 1 + Later(policy, Front(chunks))
  }

  /** The chunks a spill carries: all those that came before the heap was outgrown, and the one that outgrew it. */
  function Spilled(policy: Policy, chunks: seq<seq<Byte>>): seq<Byte>
  {
    Joined(chunks[..|chunks| - Later(policy, chunks)])
  }

  /** After a spill that landed, each of `k` later chunks is one write, while writes return. */
  predicate AppendsReturn(schedule: seq<Await>, k: nat)
  {
    forall j :: 3 <= j < 3 + k ==> OutcomeOf(At(schedule, j)) == Returned
  }

  /** The writes `k` later chunks make: one each, up to the first that does not return. */
  function AppendCalls(schedule: seq<Await>, k: nat): nat
  {
    if k == 0 then 0 else if AppendsReturn(schedule, k - 1) then k else AppendCalls(schedule, k - 1)
  }

  /** The storage calls that absorbing these chunks makes. */
  function AbsorbCalls(policy: Policy, chunks: seq<seq<Byte>>, schedule: seq<Await>): nat
  {
    if !SpillAttempted(policy, chunks) then 0
    else SpillCalls(schedule) + (if SpillLands(schedule) then AppendCalls(schedule, Later(policy, chunks)) else 0)
  }

  /**
   The calls of a finalize on file: the flush, and the read-back if bytes are wanted and the flush
   was not cancelled.
   */
  function FinalizeCalls(captureBytes: bool, schedule: seq<Await>): nat
  {
    if captureBytes && OutcomeOf(At(schedule, 0)) != Cancelled then 2 else 1
  }

  /** The storage calls of a whole capture, from its first chunk to its result. */
  function CaptureCalls(policy: Policy, captureBytes: bool, chunks: seq<seq<Byte>>, schedule: seq<Await>): nat
  {
    var n := AbsorbCalls(policy, chunks, schedule);
    if CancelledIn(schedule, n) || !Landed(policy, chunks, schedule) then n
    else n + FinalizeCalls(captureBytes, Skip(schedule, n))
  }

  /** What a write leaves with its file: all of it, or as much as a refused one moved. */
  function Accepted(a: Await, chunk: seq<Byte>): seq<Byte>
  {
    if a.refused then chunk[..Min(a.moved, |chunk|)] else chunk
  }

  /**
   Every byte the file has taken: the spilled prefix, and each later chunk up to the first write that
   did not return.
   */
  function FileTakes(policy: Policy, chunks: seq<seq<Byte>>, schedule: seq<Await>): seq<Byte>
  {
    var k := Later(policy, chunks);
    if k == 0 then Joined(chunks)
    else
      var before := FileTakes(policy, Front(chunks), schedule);
      if AppendsReturn(schedule, k - 1) then before + Accepted(At(schedule, 2 + k), Last(chunks)) else before
  }

  lemma SnocParts(chunks: seq<seq<Byte>>, chunk: seq<Byte>)
    ensures Front(chunks + [chunk]) == chunks && Last(chunks + [chunk]) == chunk
  {
  }

  lemma OneMoreAppend(schedule: seq<Await>, k: nat)
    ensures AppendsReturn(schedule, k + 1) <==> AppendsReturn(schedule, k) && OutcomeOf(At(schedule, 3 + k)) == Returned
  {
  }

  /** Appending stops exactly when a call so far was cancelled or refused. */
  lemma {:induction false} AppendVerdict(schedule: seq<Await>, k: nat)
    requires SpillLands(schedule)
    ensures AppendsReturn(schedule, k) <==>
      !CancelledIn(schedule, 3 + AppendCalls(schedule, k)) && !RaisedIn(schedule, 3 + AppendCalls(schedule, k))
    ensures AppendsReturn(schedule, k) ==> AppendCalls(schedule, k) == k
  {
    SpillVerdict(schedule);
    if k > 0 {
      AppendVerdict(schedule, k - 1);
      OneMoreAppend(schedule, k - 1);
      OneMoreCall(schedule, 2 + k);
    }
  }

  lemma JoinedFront(chunks: seq<seq<Byte>>)
    requires chunks != []
    ensures Joined(chunks) == Joined(Front(chunks)) + Last(chunks)
  {
    JoinedAppend(Front(chunks), Last(chunks));
    assert chunks == Front(chunks) + [Last(chunks)];
  }

  /** While no call so far was cancelled or refused, every chunk has its write and the file has the stream. */
  lemma {:induction false} TakesEverything(policy: Policy, chunks: seq<seq<Byte>>, schedule: seq<Await>)
    requires AppendsReturn(schedule, Later(policy, chunks))
    ensures FileTakes(policy, chunks, schedule) == Joined(chunks)
    decreases |chunks|
  {
    var k := Later(policy, chunks);
    if k > 0 {
      OneMoreAppend(schedule, k - 1);
      TakesEverything(policy, Front(chunks), schedule);
      JoinedFront(chunks);
    }
  }

  lemma PrefixOfPrefix(a: seq<Byte>, b: seq<Byte>, c: seq<Byte>, d: seq<Byte>)
    requires a <= b && c <= d
    ensures a <= b + d
    ensures a == b ==> a + c <= b + d
  {
  }

  lemma SpilledByFront(policy: Policy, chunks: seq<seq<Byte>>)
    requires Later(policy, chunks) > 0
    ensures Spilled(policy, chunks) == Spilled(policy, Front(chunks))
  {
    var n := |chunks| - Later(policy, chunks);
    assert chunks[..n] == Front(chunks)[..n];
  }

  /** What the file takes is a gap-free prefix of the stream, from the spilled prefix on. */
  lemma {:induction false} TakesPrefix(policy: Policy, chunks: seq<seq<Byte>>, schedule: seq<Await>)
    ensures Spilled(policy, chunks) <= FileTakes(policy, chunks, schedule) <= Joined(chunks)
    decreases |chunks|
  {
    var k := Later(policy, chunks);
    if k == 0 {
      assert chunks[..|chunks|] == chunks;
    } else {
      var front := Front(chunks);
      TakesPrefix(policy, front, schedule);
      if AppendsReturn(schedule, k - 1) {
        TakesEverything(policy, front, schedule);
      }
      JoinedFront(chunks);
      SpilledByFront(policy, chunks);
      PrefixOfPrefix(FileTakes(policy, front, schedule), Joined(front), Accepted(At(schedule, 2 + k), Last(chunks)), Last(chunks));
    }
  }

  lemma {:induction false} AttemptsGrow(policy: Policy, chunks: seq<seq<Byte>>, chunk: seq<Byte>)
    ensures SpillAttempted(policy, chunks) ==> SpillAttempted(policy, chunks + [chunk])
    ensures Later(policy, chunks + [chunk]) == if SpillAttempted(policy, chunks) then 1 + Later(policy, chunks) else 0
  {
    SnocParts(chunks, chunk);
    JoinedAppend(chunks, chunk);
  }

  /** No chunk unmakes a call. */
  lemma CallsGrow(policy: Policy, chunks: seq<seq<Byte>>, chunk: seq<Byte>, schedule: seq<Await>)
    ensures AbsorbCalls(policy, chunks, schedule) <= AbsorbCalls(policy, chunks + [chunk], schedule)
  {
    AttemptsGrow(policy, chunks, chunk);
    AppendCallsBounded(schedule, Later(policy, chunks));
  }

  lemma {:induction false} AppendCallsBounded(schedule: seq<Await>, k: nat)
    ensures AppendCalls(schedule, k) <= k
  {
    if k > 0 {
      AppendCallsBounded(schedule, k - 1);
    }
  }

  lemma {:induction false} CallsMonotone(policy: Policy, chunks: seq<seq<Byte>>, n: nat, schedule: seq<Await>)
    requires n <= |chunks|
    ensures AbsorbCalls(policy, chunks[..n], schedule) <= AbsorbCalls(policy, chunks, schedule)
    decreases |chunks| - n
  {
    if n == |chunks| {
      assert chunks[..n] == chunks;
    } else {
      assert chunks[..n + 1] == chunks[..n] + [chunks[n]];
      CallsGrow(policy, chunks[..n], chunks[n], schedule);
      CallsMonotone(policy, chunks, n + 1, schedule);
    }
  }

  // ----------------------------------------------------- what the inputs alone decide

  /** The heap holds the whole stream: there is none, or it is within a threshold. */
  predicate FitsHeap(policy: Policy, chunks: seq<seq<Byte>>)
  {
    chunks == [] || (policy.spillThreshold.Some? && |Joined(chunks)| <= policy.spillThreshold.value)
  }

  /** Nothing the world does is a refusal or a cancellation. */
  predicate Undisturbed(schedule: seq<Await>)
  {
    forall i :: 0 <= i < |schedule| ==> !schedule[i].refused && !schedule[i].Struck()
  }

  lemma {:induction false} JoinedPrefixIsShorter(chunks: seq<seq<Byte>>, n: nat)
    requires n <= |chunks|
    ensures |Joined(chunks[..n])| <= |Joined(chunks)|
    decreases |chunks| - n
  {
    if n == |chunks| {
      assert chunks[..n] == chunks;
    } else {
      assert chunks[..n + 1] == chunks[..n] + [chunks[n]];
      JoinedAppend(chunks[..n], chunks[n]);
      JoinedPrefixIsShorter(chunks, n + 1);
    }
  }

  /** A stream the heap holds makes no storage call, and leaves nothing to clean up. */
  lemma HeapMakesNoCalls(policy: Policy, captureBytes: bool, chunks: seq<seq<Byte>>, n: nat, schedule: seq<Await>)
    requires FitsHeap(policy, chunks) && n <= |chunks|
    ensures AbsorbCalls(policy, chunks[..n], schedule) == CaptureCalls(policy, captureBytes, chunks[..n], schedule) == 0
    ensures !CancelledIn(schedule, 0) && !RaisedIn(schedule, 0)
    ensures !Landed(policy, chunks[..n], schedule) && !Leaked(policy, chunks[..n], schedule)
    ensures !Held(policy, chunks[..n], schedule)
  {
    JoinedPrefixIsShorter(chunks, n);
    FewCalls(schedule);
  }

  /** An undisturbed schedule cancels and fails nothing. */
  lemma UndisturbedReturns(schedule: seq<Await>, n: nat)
    requires Undisturbed(schedule)
    ensures OutcomeOf(At(schedule, n)) == Returned && !At(schedule, n).refused && !At(schedule, n).Struck()
    ensures !CancelledIn(schedule, n) && !RaisedIn(schedule, n) && Undisturbed(Skip(schedule, n))
  {
    forall i: nat
      ensures OutcomeOf(At(schedule, i)) == Returned
    {
    }
  }

  /** Any other stream lands on file when nothing disturbs it, with all its bytes. */
  lemma OthersLand(policy: Policy, chunks: seq<seq<Byte>>, schedule: seq<Await>)
    requires !FitsHeap(policy, chunks) && Undisturbed(schedule)
    ensures Landed(policy, chunks, schedule) && FileTakes(policy, chunks, schedule) == Joined(chunks)
  {
    UndisturbedReturns(schedule, 0);
    UndisturbedReturns(schedule, 1);
    UndisturbedReturns(Skip(schedule, 1), 0);
    UndisturbedReturns(Skip(schedule, 1), 1);
    forall j | 3 <= j < 3 + Later(policy, chunks)
      ensures OutcomeOf(At(schedule, j)) == Returned
    {
      UndisturbedReturns(schedule, j);
    }
    TakesEverything(policy, chunks, schedule);
  }
}
