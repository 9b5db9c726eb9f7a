/**
 The storage a file-backed capture spills to, and the ordered seam its blocking calls
 run through (cuprum/_capture_spill_io.py, cuprum/_capture_types.py).
 */
module CaptureSpillIo {
  import opened Prelude

  /** When the last cancellation reached the caller of a call: never, while it ran, or once it had ended. */
  datatype Delivery = Never | During | After

  /**
   What the world does to one awaited storage call: whether the call raises `OSError`,
   how many bytes it still moved, and when a cancellation arrives.
   */
  datatype Await = Await(refused: bool, moved: nat, cancel: Delivery)
  {
    predicate Struck()
    {
      cancel != Never
    }
  }

  datatype Outcome = Returned | Raised | Cancelled

  /** The `i`-th thing the world does; once the schedule is spent every call succeeds. */
  function At(schedule: seq<Await>, i: nat): Await
  {
    if i < |schedule| then schedule[i] else Await(false, 0, Never)
  }

  /**
   How a shielded call ends for its caller. A cancellation that comes while it runs is raised
   once it has ended, but not over the call's own failure, which the settling loop lets
   through; one that comes after the end, before the caller has gone on, is always raised.
   */
  function OutcomeOf(a: Await): Outcome
  {
    match a.cancel
    case Never => if a.refused then Raised else Returned
    case During => if a.refused then Raised else Cancelled
    case After => Cancelled
  }

  function Skip(schedule: seq<Await>, n: nat): seq<Await>
  {
    if n <= |schedule| then schedule[n..] else []
  }

  lemma SkipAt(schedule: seq<Await>, n: nat, i: nat)
    ensures At(Skip(schedule, n), i) == At(schedule, n + i)
    ensures Skip(Skip(schedule, n), i) == Skip(schedule, n + i)
  {
  }

  /** Whether one of the first `n` shielded calls ends in a cancellation. */
  predicate CancelledIn(schedule: seq<Await>, n: nat)
  {
    exists i :: 0 <= i < n && OutcomeOf(At(schedule, i)) == Cancelled
  }

  /** Whether one of the first `n` shielded calls ends in its own failure. */
  predicate RaisedIn(schedule: seq<Await>, n: nat)
  {
    exists i :: 0 <= i < n && OutcomeOf(At(schedule, i)) == Raised
  }

  lemma OneMoreCall(schedule: seq<Await>, n: nat)
    ensures CancelledIn(schedule, n + 1) <==> CancelledIn(schedule, n) || OutcomeOf(At(schedule, n)) == Cancelled
    ensures RaisedIn(schedule, n + 1) <==> RaisedIn(schedule, n) || OutcomeOf(At(schedule, n)) == Raised
  {
  }

  /**
   One capture's storage. Every call finishes before its caller goes on, cancelled or
   not: that is what the seam's lock and shield are for.
   */
  class SpillIo {
    /** What the world will do to the calls still to come. */
    var schedule: seq<Await>
    /** The bytes on disk, by file. */
    var files: map<nat, seq<Byte>>
    /** The bytes an open file's writer has accepted and not yet put on disk. */
    var buffers: map<nat, seq<Byte>>
    /** A name no file has had yet. */
    var unused: nat

    constructor (schedule: seq<Await>)
      ensures this.schedule == schedule && files == map[] && buffers == map[] && Valid()
    {
      this.schedule := schedule;
      files, buffers, unused := map[], map[], 0;
    }

    ghost predicate Valid()
      reads this
    {
      && (forall p :: p in files ==> p < unused)
      && (forall p :: p in buffers ==> p < unused)
    }

    predicate IsOpen(p: nat)
      reads this
    {
      p in files && p in buffers
    }

    /** Every byte the open file has taken, on disk or still buffered. */
    function Taken(p: nat): seq<Byte>
      requires IsOpen(p)
      reads this
    {
      files[p] + buffers[p]
    }

    method Next() returns (a: Await)
      modifies this`schedule
      ensures a == At(old(schedule), 0) && schedule == Skip(old(schedule), 1)
    {
      a := At(schedule, 0);
      schedule := Skip(schedule, 1);
    }

    /** Create an empty file under a fresh name, unless the filesystem refuses. */
    method Create() returns (created: Option<nat>, a: Await)
      requires Valid()
      modifies this
      ensures Valid()
      ensures a == At(old(schedule), 0) && schedule == Skip(old(schedule), 1)
      ensures a.refused ==> created.None? && files == old(files) && buffers == old(buffers)
      ensures !a.refused ==>
        && created.Some? && created.value !in old(files) && created.value !in old(buffers)
        && files == old(files)[created.value := []] && buffers == old(buffers)[created.value := []]
    {
      a := Next();
      created := None;
      if !a.refused {
        created := Some(unused);
        files := files[unused := []];
        buffers := buffers[unused := []];
        unused := unused + 1;
      }
    }

    /** Move the first `n` buffered bytes of a file to disk. */
    method Settle(p: nat, n: nat)
      requires Valid() && IsOpen(p)
      modifies this`files, this`buffers
      ensures Valid() && IsOpen(p) && Taken(p) == old(Taken(p))
      ensures files.Keys == old(files).Keys && buffers.Keys == old(buffers).Keys
      ensures |files[p]| == |old(files[p])| + Min(n, |old(buffers[p])|)
    {
      var k := Min(n, |buffers[p]|);
      assert files[p] + buffers[p] == files[p] + buffers[p][..k] + buffers[p][k..];
      files := files[p := files[p] + buffers[p][..k]];
      buffers := buffers[p := buffers[p][k..]];
    }

    /** Hand bytes to an open file's writer; a refused write may have taken any prefix of them. */
    method Write(p: nat, data: seq<Byte>) returns (a: Await)
      requires Valid() && IsOpen(p)
      modifies this
      ensures Valid() && IsOpen(p)
      ensures a == At(old(schedule), 0) && schedule == Skip(old(schedule), 1)
      ensures files.Keys == old(files).Keys && buffers.Keys == old(buffers).Keys
      ensures Taken(p) == old(Taken(p)) + (if a.refused then data[..Min(a.moved, |data|)] else data)
      ensures |files[p]| >= |old(files[p])|
    {
      a := Next();
      var landed := if a.refused then data[..Min(a.moved, |data|)] else data;
      buffers := buffers[p := buffers[p] + landed];
      assert Taken(p) == old(Taken(p)) + landed;
      Settle(p, a.moved);
    }

    /** Put an open file's buffered bytes on disk; a refused flush may have moved any of them. */
    method Flush(p: nat) returns (a: Await)
      requires Valid() && IsOpen(p)
      modifies this
      ensures Valid() && IsOpen(p) && Taken(p) == old(Taken(p))
      ensures a == At(old(schedule), 0) && schedule == Skip(old(schedule), 1)
      ensures files.Keys == old(files).Keys && buffers.Keys == old(buffers).Keys
      ensures !a.refused ==> files[p] == Taken(p)
      ensures |files[p]| >= |old(files[p])|
    {
      a := Next();
      Settle(p, if a.refused then a.moved else |buffers[p]|);
    }

    /** Close a file, flushing what its writer still holds; a refused close loses some of it. */
    method Close(p: nat) returns (a: Await)
      requires Valid()
      modifies this
      ensures Valid() && p !in buffers
      ensures a == At(old(schedule), 0) && schedule == Skip(old(schedule), 1)
      ensures files.Keys == old(files).Keys
      ensures buffers.Keys == old(buffers).Keys - {p}
      ensures old(IsOpen(p)) && !a.refused ==> files[p] == old(Taken(p))
      ensures old(IsOpen(p)) ==> old(files[p]) <= files[p] <= old(Taken(p))
      ensures !old(IsOpen(p)) ==> files == old(files)
      ensures forall q :: q in files && q != p ==> files[q] == old(files)[q]
    {
      a := Next();
      if IsOpen(p) {
        var k := if a.refused then Min(a.moved, |buffers[p]|) else |buffers[p]|;
        files := files[p := files[p] + buffers[p][..k]];
      }
      buffers := buffers - {p};
    }

    /** Remove a file; a file already gone is no failure. */
    method Unlink(p: nat) returns (a: Await)
      requires Valid()
      modifies this
      ensures Valid() && buffers == old(buffers)
      ensures a == At(old(schedule), 0) && schedule == Skip(old(schedule), 1)
      ensures files == if a.refused then old(files) else old(files) - {p}
    {
      a := Next();
      if !a.refused {
        files := files - {p};
      }
    }

    /** Read what is on disk. */
    method ReadBytes(p: nat) returns (a: Await, data: seq<Byte>)
      requires Valid() && p in files
      modifies this`schedule
      ensures a == At(old(schedule), 0) && schedule == Skip(old(schedule), 1)
      ensures data == files[p]
    {
      a := Next();
      data := files[p];
    }
  }

  /** A spill file this run created, shared by every path that may have to remove it. */
  class SpillHandle {
    const path: nat
    var keep: bool
    var closed: bool

    /** `_publish_spill`: a provisional handle, owned by the run whatever its policy says. */
    constructor Publish(path: nat)
      ensures this.path == path && !keep && !closed
    {
      this.path := path;
      keep, closed := false, false;
    }

    /** Whether this run is still responsible for removing the file. */
    predicate Owned()
      reads this
    {
      !keep
    }

    /**
     `close`: close once, and try to remove whenever asked and not kept. These awaits are
     not shielded: a cancelled one may or may not have run, and nothing follows it.
     */
    method CloseFile(io: SpillIo, remove: bool) returns (outcome: Outcome)
      requires io.Valid()
      modifies this`closed, io
      ensures io.Valid() && closed
      ensures io.files.Keys <= old(io.files).Keys
      ensures old(io.files).Keys - {path} <= io.files.Keys
      ensures forall q :: q in io.files && q != path ==> io.files[q] == old(io.files)[q]
      ensures path in io.files ==>
        if old(io.IsOpen(path)) then old(io.files[path]) <= io.files[path] <= old(io.Taken(path))
        else io.files[path] == old(io.files)[path]
      ensures
        var first := At(old(io.schedule), 0);
        var last := At(old(io.schedule), if old(closed) then 0 else 1);
        var tries := (old(closed) || !first.Struck()) && remove && !keep;
        && outcome == (if (!old(closed) && first.Struck()) || (tries && last.Struck()) then Cancelled else Returned)
        && (path in io.files <==> path in old(io.files) && !(tries && !last.refused))
      ensures !old(closed) && !At(old(io.schedule), 0).Struck() ==> path !in io.buffers
      ensures
        var first := At(old(io.schedule), 0);
        !old(closed) && !first.Struck() && !first.refused && old(io.IsOpen(path)) && path in io.files
        ==> io.files[path] == old(io.Taken(path))
    {
      SkipAt(io.schedule, 1, 0);
      if !closed {
        closed := true;
        var first := At(io.schedule, 0);
        if first.Struck() && first.refused {
          first := io.Next();
        } else {
          first := io.Close(path);
        }
        if first.Struck() {
          return Cancelled;
        }
      }
      if remove && !keep {
        var last := io.Unlink(path);
        if last.Struck() {
          return Cancelled;
        }
      }
      return Returned;
    }
  }
}
