/**
 The accumulator that keeps a stream on the heap and then spills it to a file, under
 every schedule of storage failures and cancellations (cuprum/_capture_file.py).
 */
module CaptureFile {
  import opened Prelude
  import opened CaptureDecode
  import opened CaptureSchedule
  import opened CaptureSpillIo

  datatype FileFinal = FileFinal(
    payload: Option<Rendered>, totalBytes: nat, path: Option<nat>, owned: bool, storageFailed: bool)

  lemma PrefixOfLonger(taken: seq<Byte>, stream: seq<Byte>, n: nat)
    requires n <= |stream| && taken <= stream[..n]
    ensures taken <= stream
  {
  }

  /** A write that follows all the stream before it leaves the file with a prefix, and with all of it unless refused. */
  lemma AcceptedEndsStream(stream: seq<Byte>, chunk: seq<Byte>, a: Await)
    requires |chunk| <= |stream| && chunk == stream[|stream| - |chunk|..]
    ensures stream[..|stream| - |chunk|] + Accepted(a, chunk) <= stream
    ensures !a.refused ==> stream[..|stream| - |chunk|] + Accepted(a, chunk) == stream
  {
    TakeMore(stream, |stream| - |chunk|, |stream|);
  }

  class FileAccumulator {
    const policy: Policy
    const settings: DecodeSettings
    const littleHost: bool
    const io: SpillIo
    var buffer: Option<seq<Byte>>
    var file: Option<nat>
    var handle: SpillHandle?
    var provisional: SpillHandle?
    var path: Option<nat>
    var total: nat
    var spilledBytes: nat
    var flushedBytes: nat
    var failed: bool
    /** Every byte absorbed so far. */
    ghost var stream: seq<Byte>
    /** Whether a cancellation has escaped; the drain then only cleans up. */
    ghost var interrupted: bool
    /** Whether a failed transition left its file behind. */
    ghost var leaked: bool

    /** Every file on disk can be reached from the accumulator's handle. */
    ghost predicate NothingOrphaned()
      reads this, io, handle
    {
      forall p :: p in io.files ==> handle != null && handle.path == p
    }

    /** Still on the heap: the buffer is the stream, and no file carries any of it. */
    ghost predicate OnHeap()
      reads this, io, handle
    {
      && path.None? && file.None? && buffer == Some(stream)
      && spilledBytes == flushedBytes == 0
      && handle == provisional
      && (handle != null ==> interrupted && !handle.keep && !handle.closed)
      && (leaked ==> failed && handle == null && io.files != map[])
      && (!leaked ==> NothingOrphaned())
      && (!failed && !interrupted ==> io.files == map[])
    }

    /** On file: the file has taken a gap-free prefix of the stream, all of it unless a call failed. */
    ghost predicate OnFile()
      reads this, io, handle
    {
      && path.Some? && file == path && buffer.None? && provisional == null && !leaked
      && handle != null && handle.path == path.value && handle.keep == policy.keepFile && !handle.closed
      && io.files.Keys == {path.value} && io.IsOpen(path.value)
      && io.Taken(path.value) <= stream
      && flushedBytes <= spilledBytes <= |io.Taken(path.value)|
      && flushedBytes <= |io.files[path.value]|
      && (!failed && !interrupted ==> spilledBytes == total && io.Taken(path.value) == stream)
    }

    ghost predicate Valid()
      reads this, io, handle
    {
      && io.Valid() && total == |stream|
      && (OnHeap() || OnFile())
    }

    constructor (policy: Policy, settings: DecodeSettings, littleHost: bool, io: SpillIo)
      requires io.Valid() && io.files == map[]
      ensures Valid() && OnHeap() && stream == [] && !failed && !interrupted && !leaked && handle == null
      ensures this.policy == policy && this.settings == settings && this.littleHost == littleHost && this.io == io
    {
      this.policy, this.settings, this.littleHost, this.io := policy, settings, littleHost, io;
      buffer, file, handle, provisional, path := Some([]), None, null, null, None;
      total, spilledBytes, flushedBytes, failed := 0, 0, 0, false;
      stream, interrupted, leaked := [], false, false;
    }

    /** `_should_spill`: a failed transition is not retried. */
    predicate ShouldSpill(buffered: nat)
      reads this
    {
      !failed && (policy.spillThreshold.None? || buffered > policy.spillThreshold.value)
    }

    /** `absorb`: buffer the chunk, spill it, or append it, by where the capture is. */
    method Absorb(chunk: seq<Byte>) returns (cancelled: bool)
      requires Valid() && !interrupted
      modifies this, io
      ensures Valid() && stream == old(stream) + chunk && interrupted == cancelled
      ensures handle == old(handle) || handle == null || fresh(handle)
      ensures old(path).Some? ==> path == old(path) && leaked == old(leaked) && flushedBytes == old(flushedBytes)
      // On file, a failed capture touches nothing, and any other makes one write and ends as it ends.
      ensures old(path).Some? && old(failed) ==>
        && failed && !cancelled && io.schedule == old(io.schedule)
        && io.files == old(io.files) && io.buffers == old(io.buffers)
      ensures old(path).Some? && !old(failed) ==>
        var a := At(old(io.schedule), 0);
        && cancelled == (OutcomeOf(a) == Cancelled) && failed == (OutcomeOf(a) == Raised) && io.schedule == Skip(old(io.schedule), 1)
        && io.Taken(path.value) == old(io.Taken(path.value)) + Accepted(a, chunk)
      // On the heap, the chunk that outgrows it is followed by the one attempt to spill.
      ensures old(path).None? ==>
        var spills := !old(failed) && (policy.spillThreshold.None? || |stream| > policy.spillThreshold.value);
        && (path.Some? <==> spills && SpillLands(old(io.schedule)))
        && (leaked <==> old(leaked) || (spills && SpillLeaks(old(io.schedule))))
        && (cancelled <==> spills && SpillCancelled(old(io.schedule)))
        && (failed <==> old(failed) || (spills && path.None? && !cancelled))
        && io.schedule == Skip(old(io.schedule), if spills then SpillCalls(old(io.schedule)) else 0)
        && (path.Some? ==> io.Taken(path.value) == stream && flushedBytes == |stream|)
        && (handle != null <==> spills && SpillHeld(old(io.schedule)))
        && (handle != null ==> (handle.path in io.files <==> !SpillRemoves(old(io.schedule))))
      ensures old(path).Some? ==> handle == old(handle)
    {
      total := total + |chunk|;
      stream := stream + chunk;
      if path.Some? {
        cancelled := Append(chunk);
        return;
      }
      buffer := Some(buffer.value + chunk);
      cancelled := false;
      if ShouldSpill(|buffer.value|) {
        cancelled := Spill();
      }
    }

    /** `_spill`: move the buffered prefix into a new file, or stay on the heap. */
    method Spill() returns (cancelled: bool)
      requires Valid() && OnHeap() && !interrupted && !failed && handle == null
      modifies this, io
      ensures Valid() && stream == old(stream) && interrupted == cancelled
      ensures handle == null || fresh(handle)
      ensures path.Some? <==> SpillLands(old(io.schedule))
      ensures leaked <==> SpillLeaks(old(io.schedule))
      ensures cancelled <==> SpillCancelled(old(io.schedule))
      ensures failed <==> path.None? && !cancelled
      ensures io.schedule == Skip(old(io.schedule), SpillCalls(old(io.schedule)))
      ensures path.Some? ==> io.Taken(path.value) == stream && flushedBytes == |stream|
      ensures handle != null <==> SpillHeld(old(io.schedule))
      ensures handle != null ==> (handle.path in io.files <==> !SpillRemoves(old(io.schedule)))
    {
      SkipAt(io.schedule, 1, PrefixCalls(Skip(io.schedule, 1)));
      var created, a := CreatePublishedSpill();
      if OutcomeOf(a) == Cancelled {
        interrupted := true;
        return true;
      }
      if created.None? {
        failed := true;
        return false;
      }
      cancelled := LandPrefix(created.value, buffer.value);
    }

    /** An adopted file that carries nothing yet. */
    ghost predicate Adopted(spill: nat)
      reads this, io, handle
    {
      && io.Valid() && !failed && !interrupted && !leaked && total == |stream|
      && path.None? && file.None? && buffer == Some(stream) && spilledBytes == flushedBytes == 0
      && handle != null && handle == provisional && handle.path == spill && !handle.keep && !handle.closed
      && io.files.Keys == {spill}
    }

    /** The rest of `_spill`, once the file is adopted. */
    method LandPrefix(spill: nat, buffered: seq<Byte>) returns (cancelled: bool)
      requires Adopted(spill) && buffered == stream
      requires io.files == map[spill := []] && io.IsOpen(spill) && io.buffers[spill] == []
      modifies this, io, handle`keep
      ensures Valid() && stream == old(stream) && interrupted == cancelled
      ensures handle == old(handle) || handle == null
      ensures path.Some? <==> PrefixLands(old(io.schedule))
      ensures leaked <==> PrefixLeaks(old(io.schedule))
      ensures cancelled <==> PrefixCancelled(old(io.schedule))
      ensures failed <==> path.None? && !cancelled
      ensures io.schedule == Skip(old(io.schedule), PrefixCalls(old(io.schedule)))
      ensures path.Some? ==> io.Taken(path.value) == stream && flushedBytes == |stream|
      ensures handle != null <==> PrefixLands(old(io.schedule)) || PrefixCancelled(old(io.schedule))
      ensures handle != null ==> (handle.path in io.files <==> !PrefixRemoves(old(io.schedule)))
    {
      ghost var plan := io.schedule;
      var a := WritePrefix(spill, buffered);
      if OutcomeOf(a) == Cancelled {
        interrupted := true;
        return true;
      }
      if a.refused {
        ghost var from := DiscardFrom(plan).value;
        SkipAt(plan, from, 0);
        SkipAt(plan, from, 1);
        SkipAt(plan, from, DiscardCalls(Skip(plan, from)));
        cancelled := DiscardFailedSpill(spill);
        return;
      }
      cancelled := false;
      SettleOnFile(spill, buffered);
    }

    /** The write and the flush that land the prefix: the await that ended them. */
    method WritePrefix(spill: nat, buffered: seq<Byte>) returns (a: Await)
      requires io.Valid() && io.files == map[spill := []] && io.IsOpen(spill) && io.buffers[spill] == []
      modifies io
      ensures io.Valid() && io.files.Keys == {spill} && io.IsOpen(spill)
      ensures
        var wrote := OutcomeOf(At(old(io.schedule), 0)) == Returned;
        && a == At(old(io.schedule), if wrote then 1 else 0)
        && io.schedule == Skip(old(io.schedule), if wrote then 2 else 1)
      ensures OutcomeOf(a) == Returned ==> io.files[spill] == io.Taken(spill) == buffered
    {
      SkipAt(io.schedule, 1, 0);
      SkipAt(io.schedule, 1, 1);
      a := io.Write(spill, buffered);
      if OutcomeOf(a) == Returned {
        a := io.Flush(spill);
      }
    }

    /** The tail of a spill that landed: the file, not the buffer, is the capture from here on. */
    method SettleOnFile(spill: nat, buffered: seq<Byte>)
      requires Adopted(spill) && stream == buffered
      requires io.IsOpen(spill) && io.files[spill] == io.Taken(spill) == buffered
      modifies this`spilledBytes, this`flushedBytes, this`file, this`path, this`buffer, this`provisional, handle`keep
      ensures Valid() && OnFile() && path == Some(spill) && flushedBytes == |stream|
    {
      spilledBytes, flushedBytes := |buffered|, |buffered|;
      file, path := Some(spill), Some(spill);
      PromoteProvisionalSpill();
      buffer := None;
    }

    /** `_create_published_spill`: the new file is adopted before any cancellation escapes. */
    method CreatePublishedSpill() returns (created: Option<nat>, a: Await)
      requires io.Valid() && io.files == map[]
      modifies this`handle, this`provisional, io
      ensures io.Valid() && a == At(old(io.schedule), 0) && io.schedule == Skip(old(io.schedule), 1)
      ensures created.Some? <==> !a.refused
      ensures created.None? ==> handle == old(handle) && provisional == old(provisional) && io.files == map[]
      ensures created.Some? ==>
        && fresh(handle) && provisional == handle && handle.path == created.value && !handle.keep && !handle.closed
        && io.files == map[created.value := []] && io.IsOpen(created.value) && io.buffers[created.value] == []
    {
      created, a := io.Create();
      if created.Some? {
        handle := new SpillHandle.Publish(created.value);
        provisional := handle;
      }
    }

    /** `_promote_provisional_spill`: give the handle the keep policy the spill has now earned. */
    method PromoteProvisionalSpill()
      requires provisional != null
      modifies this`provisional, provisional`keep
      ensures provisional == null && old(provisional).keep == policy.keepFile
    {
      provisional.keep := policy.keepFile;
      provisional := null;
    }

    /** `_discard_failed_spill`: close, remove and forget a file that never took the prefix. */
    method DiscardFailedSpill(spill: nat) returns (cancelled: bool)
      requires Adopted(spill)
      modifies this, io
      ensures Valid() && path.None? && stream == old(stream) && interrupted == cancelled
      ensures handle == old(handle) || handle == null
      ensures cancelled <==>
        OutcomeOf(At(old(io.schedule), 0)) == Cancelled || OutcomeOf(At(old(io.schedule), 1)) == Cancelled
      ensures leaked <==>
        OutcomeOf(At(old(io.schedule), 0)) != Cancelled && OutcomeOf(At(old(io.schedule), 1)) == Raised
      ensures failed <==> !cancelled
      ensures io.schedule == Skip(old(io.schedule), DiscardCalls(old(io.schedule)))
      ensures handle != null <==> cancelled
      ensures handle != null ==>
        (handle.path in io.files <==>
           OutcomeOf(At(old(io.schedule), 0)) == Cancelled || At(old(io.schedule), 1).refused)
    {
      SkipAt(io.schedule, 1, 0);
      SkipAt(io.schedule, 1, 1);
      var closing := io.Close(spill);
      if OutcomeOf(closing) == Cancelled {
        interrupted := true;
        assert NothingOrphaned() && OnHeap();
        return true;
      }
      var removal := io.Unlink(spill);
      if OutcomeOf(removal) == Cancelled {
        interrupted := true;
        assert NothingOrphaned() && OnHeap();
        return true;
      }
      ForgetSpill(spill, removal.refused);
      return false;
    }

    /** The end of `_discard_failed_spill`: the handle is dropped, whether or not the file is gone. */
    method ForgetSpill(spill: nat, left: bool)
      requires io.Valid() && !interrupted && !leaked && total == |stream|
      requires path.None? && file.None? && buffer == Some(stream) && spilledBytes == flushedBytes == 0
      requires handle != null && handle == provisional
      requires if left then spill in io.files else io.files.Keys == {}
      modifies this`handle, this`provisional, this`failed, this`leaked
      ensures Valid() && handle == null && failed && leaked == left
    {
      if handle == provisional {
        handle := null;
      }
      provisional := null;
      failed := true;
      leaked := left;
      assert OnHeap();
    }

    /** `_append`: hand one chunk to the file, absorbing a write failure. */
    method Append(chunk: seq<Byte>) returns (cancelled: bool)
      requires io.Valid() && path.Some? && !interrupted && total == |stream|
      requires |chunk| <= |stream| && chunk == stream[|stream| - |chunk|..]
      requires OnFileBefore(chunk)
      modifies this`spilledBytes, this`failed, this`interrupted, io
      ensures Valid() && OnFile() && interrupted == cancelled
      ensures old(failed) ==>
        && failed && !cancelled && io.schedule == old(io.schedule)
        && io.files == old(io.files) && io.buffers == old(io.buffers)
      ensures !old(failed) ==>
        var a := At(old(io.schedule), 0);
        && cancelled == (OutcomeOf(a) == Cancelled) && failed == (OutcomeOf(a) == Raised) && io.schedule == Skip(old(io.schedule), 1)
        && io.Taken(path.value) == old(io.Taken(path.value)) + Accepted(a, chunk)
        && spilledBytes == old(spilledBytes) + (if OutcomeOf(a) == Returned then |chunk| else 0)
    {
      if failed {
        PrefixOfLonger(io.Taken(path.value), stream, |stream| - |chunk|);
        return false;
      }
      cancelled := AppendWrite(chunk);
    }

    /** The write of `_append`. */
    method AppendWrite(chunk: seq<Byte>) returns (cancelled: bool)
      requires io.Valid() && path.Some? && !interrupted && !failed && total == |stream|
      requires |chunk| <= |stream| && chunk == stream[|stream| - |chunk|..]
      requires OnFileBefore(chunk)
      modifies this`spilledBytes, this`failed, this`interrupted, io
      ensures io.Valid() && OnFile() && interrupted == cancelled
      ensures
        var a := At(old(io.schedule), 0);
        && cancelled == (OutcomeOf(a) == Cancelled) && failed == (OutcomeOf(a) == Raised) && io.schedule == Skip(old(io.schedule), 1)
        && io.Taken(path.value) == old(io.Taken(path.value)) + Accepted(a, chunk)
        && spilledBytes == old(spilledBytes) + (if OutcomeOf(a) == Returned then |chunk| else 0)
    {
      AcceptedEndsStream(stream, chunk, At(io.schedule, 0));
      var a := io.Write(path.value, chunk);
      if OutcomeOf(a) == Returned {
        spilledBytes := spilledBytes + |chunk|;
      }
      cancelled := OutcomeOf(a) == Cancelled;
      interrupted, failed := cancelled, OutcomeOf(a) == Raised;
    }

    /** `_flush_before_reading`: one flush, so a read-back sees every byte the file took. */
    method FlushBeforeReading() returns (cancelled: bool)
      requires Valid() && OnFile() && !interrupted
      modifies this`spilledBytes, this`flushedBytes, this`failed, this`interrupted, io
      ensures Valid() && OnFile() && interrupted == cancelled == (OutcomeOf(At(old(io.schedule), 0)) == Cancelled)
      ensures io.schedule == Skip(old(io.schedule), 1)
      ensures failed <==> old(failed) || OutcomeOf(At(old(io.schedule), 0)) == Raised
      ensures !At(old(io.schedule), 0).refused ==> io.files[path.value] == io.Taken(path.value)
      ensures io.Taken(path.value) == old(io.Taken(path.value)) && |io.files[path.value]| >= |old(io.files[path.value])|
    {
      var a := io.Flush(path.value);
      if OutcomeOf(a) == Cancelled {
        interrupted := true;
        return true;
      }
      if a.refused {
        spilledBytes := flushedBytes;
        failed := true;
        return false;
      }
      flushedBytes := spilledBytes;
      return false;
    }

    /**
     `finalize`: the whole stream from the heap, or what the file took of it. `None` is a
     cancellation that escaped.
     */
    method Finalize() returns (final: Option<FileFinal>)
      requires Valid() && !interrupted
      modifies this, io
      ensures Valid() && stream == old(stream) && path == old(path) && leaked == old(leaked) && handle == old(handle)
      ensures final.None? <==> interrupted
      // On the heap no call is made; on file the flush and the read-back decide, and only they.
      ensures path.None? ==> !interrupted && failed == old(failed) && io.schedule == old(io.schedule) && io.files == old(io.files)
      ensures path.Some? ==>
        var n := FinalizeCalls(settings.captureBytes, old(io.schedule));
        && io.schedule == Skip(old(io.schedule), n)
        && (interrupted <==> CancelledIn(old(io.schedule), n))
        && (final.Some? ==> (failed <==> old(failed) || RaisedIn(old(io.schedule), n)))
      ensures path.Some? ==>
        && io.Taken(path.value) == old(io.Taken(path.value)) && |io.files[path.value]| >= old(flushedBytes)
        && (!At(old(io.schedule), 0).refused ==> io.files[path.value] == io.Taken(path.value))
      ensures path.Some? && !interrupted && !failed ==> io.Taken(path.value) == stream
      ensures final.Some? ==> final.value.totalBytes == |stream| && final.value.storageFailed == failed
      ensures final.Some? && path.None? ==>
        && final.value.payload == Some(Render(stream, settings, littleHost))
        && final.value.path == None && !final.value.owned
      ensures final.Some? && path.Some? ==>
        var payload := final.value.payload;
        && final.value.path == path && final.value.owned == !policy.keepFile
        && (!settings.captureBytes ==> payload == None)
        && (settings.captureBytes ==> (payload.None? <==> At(old(io.schedule), 1).refused))
        && (payload.Some? ==> payload.value == RawBytes(io.files[path.value]) && io.files[path.value] <= stream)
        && (!failed ==> io.files[path.value] == stream)
    {
      FewCalls(io.schedule);
      SkipAt(io.schedule, 1, 0);
      SkipAt(io.schedule, 1, 1);
      if path.None? {
        return Some(FileFinal(Some(Render(buffer.value, settings, littleHost)), total, None, false, failed));
      }
      var cancelled := FlushBeforeReading();
      if cancelled {
        return None;
      }
      var payload := None;
      if settings.captureBytes {
        cancelled, payload := ReadBack();
        if cancelled {
          return None;
        }
      }
      return Some(FileFinal(payload, total, path, handle.Owned(), failed));
    }

    /** `_read_back`: what is on disk, or nothing when it cannot be read. */
    method ReadBack() returns (cancelled: bool, payload: Option<Rendered>)
      requires Valid() && OnFile() && !interrupted
      requires !failed ==> io.files[path.value] == stream
      modifies this`failed, this`interrupted, io`schedule
      ensures Valid() && OnFile() && interrupted == cancelled
      ensures cancelled == (OutcomeOf(At(old(io.schedule), 0)) == Cancelled) && io.schedule == Skip(old(io.schedule), 1)
      ensures failed <==> old(failed) || OutcomeOf(At(old(io.schedule), 0)) == Raised
      ensures payload.Some? <==> OutcomeOf(At(old(io.schedule), 0)) == Returned
      ensures payload.Some? ==>
        && payload.value == RawBytes(io.files[path.value]) && io.files[path.value] <= stream
    {
      var a, data := io.ReadBytes(path.value);
      if OutcomeOf(a) == Cancelled {
        interrupted := true;
        return true, None;
      }
      if a.refused {
        failed := true;
        return false, None;
      }
      assert io.files[path.value] <= io.Taken(path.value);
      return false, Some(RawBytes(data));
    }

    /** `cleanup`: close the file, removing it unless the caller kept it. */
    method Cleanup() returns (outcome: Outcome)
      requires io.Valid() && (leaked || NothingOrphaned())
      modifies io, handle
      ensures io.Valid() && (leaked || NothingOrphaned())
      ensures handle == null ==> outcome == Returned && io.files == old(io.files)
      ensures handle != null ==>
        var first := At(old(io.schedule), 0);
        var last := At(old(io.schedule), if old(handle.closed) then 0 else 1);
        && handle.closed && handle.keep == old(handle.keep)
        && (outcome == Cancelled <==>
              || (!old(handle.closed) && first.Struck())
              || (!handle.keep && last.Struck()))
        && outcome != Raised
        // The one file this can remove is the handle's, and it does exactly when it gets to the unlink and that runs.
        && (handle.path in io.files <==>
              && handle.path in old(io.files)
              && (handle.keep || (!old(handle.closed) && first.Struck()) || last.refused))
        && io.files.Keys - {handle.path} == old(io.files).Keys - {handle.path}
        && (forall p :: p in io.files && p in old(io.files) && p != handle.path ==> io.files[p] == old(io.files)[p])
        && (handle.path in io.files && old(io.IsOpen(handle.path)) ==>
              old(io.files[handle.path]) <= io.files[handle.path] <= old(io.Taken(handle.path)))
        && (!old(handle.closed) && !first.Struck() && !first.refused && old(io.IsOpen(handle.path)) && handle.keep
            ==> io.files.Keys == old(io.files).Keys && io.files[handle.path] == old(io.Taken(handle.path)))
    {
      outcome := Returned;
      if handle != null {
        outcome := handle.CloseFile(io, !handle.keep);
      }
    }

    /** `OnFile`, with the last chunk counted but not yet handed to the file. */
    ghost predicate OnFileBefore(chunk: seq<Byte>)
      requires |chunk| <= |stream|
      reads this, io, handle
    {
      && path.Some? && file == path && buffer.None? && provisional == null && !leaked
      && handle != null && handle.path == path.value && handle.keep == policy.keepFile && !handle.closed
      && io.files.Keys == {path.value} && io.IsOpen(path.value)
      && io.Taken(path.value) <= stream[..|stream| - |chunk|]
      && flushedBytes <= spilledBytes <= |io.Taken(path.value)|
      && flushedBytes <= |io.files[path.value]|
      && (!failed && !interrupted ==>
            spilledBytes == total - |chunk| && io.Taken(path.value) == stream[..|stream| - |chunk|])
    }
  }

  // ----------------------------------------------------------------- whole captures

  /** Where a capture stands after some chunks, by the schedule it started with. */
  ghost predicate Tracks(capture: FileAccumulator, chunks: seq<seq<Byte>>, schedule: seq<Await>)
    reads capture, capture.io, capture.handle
  {
    var n := AbsorbCalls(capture.policy, chunks, schedule);
    && capture.Valid() && capture.stream == Joined(chunks)
    && capture.io.schedule == Skip(schedule, n)
    && (capture.interrupted <==> CancelledIn(schedule, n))
    && (!capture.interrupted ==> (capture.failed <==> RaisedIn(schedule, n)))
    && (capture.path.Some? <==> Landed(capture.policy, chunks, schedule))
    && (capture.leaked <==> Leaked(capture.policy, chunks, schedule))
    && (capture.path.Some? ==>
          && capture.io.Taken(capture.path.value) == FileTakes(capture.policy, chunks, schedule)
          && capture.flushedBytes == |Spilled(capture.policy, chunks)|)
    && HoldsHandle(capture, chunks, schedule)
  }

  /** Whether a capture has a handle, and whether its file is there. */
  ghost predicate HoldsHandle(capture: FileAccumulator, chunks: seq<seq<Byte>>, schedule: seq<Await>)
    reads capture, capture.io, capture.handle
  {
    && (capture.handle != null <==> Held(capture.policy, chunks, schedule))
    && (capture.handle != null ==> (capture.handle.path in capture.io.files <==> OnDisk(capture.policy, chunks, schedule)))
  }

  /** What the chunk after some others adds before any attempt to spill: an attempt, or nothing. */
  lemma FirstAttempt(policy: Policy, chunks: seq<seq<Byte>>, chunk: seq<Byte>, schedule: seq<Await>)
    requires !SpillAttempted(policy, chunks)
    ensures AbsorbCalls(policy, chunks, schedule) == 0 && !CancelledIn(schedule, 0) && !RaisedIn(schedule, 0)
    ensures
      var n := AbsorbCalls(policy, chunks + [chunk], schedule);
      var attempted := SpillAttempted(policy, chunks + [chunk]);
      && n == (if attempted then SpillCalls(schedule) else 0)
      && (CancelledIn(schedule, n) <==> attempted && SpillCancelled(schedule))
      && (attempted && !SpillCancelled(schedule) ==> (RaisedIn(schedule, n) <==> !SpillLands(schedule)))
      && FileTakes(policy, chunks + [chunk], schedule) == Spilled(policy, chunks + [chunk]) == Joined(chunks + [chunk])
  {
    FewCalls(schedule);
    SpillVerdict(schedule);
    AttemptsGrow(policy, chunks, chunk);
    assert (chunks + [chunk])[..|chunks + [chunk]|] == chunks + [chunk];
  }

  /** What a chunk adds after an attempt to spill that failed: no call. */
  lemma NoMoreAttempts(policy: Policy, chunks: seq<seq<Byte>>, chunk: seq<Byte>, schedule: seq<Await>)
    requires SpillAttempted(policy, chunks) && !SpillLands(schedule)
    ensures SpillAttempted(policy, chunks + [chunk])
    ensures
      var n := AbsorbCalls(policy, chunks, schedule);
      && AbsorbCalls(policy, chunks + [chunk], schedule) == n
      && (!CancelledIn(schedule, n) ==> RaisedIn(schedule, n))
  {
    SpillVerdict(schedule);
    AttemptsGrow(policy, chunks, chunk);
  }

  /** What one more chunk after a landed spill adds to the calls made and the bytes taken. */
  lemma OneMoreChunk(policy: Policy, chunks: seq<seq<Byte>>, chunk: seq<Byte>, schedule: seq<Await>)
    requires Landed(policy, chunks, schedule)
    ensures
      var n, k := AbsorbCalls(policy, chunks, schedule), Later(policy, chunks);
      var going := !CancelledIn(schedule, n) && !RaisedIn(schedule, n);
      && (going ==> n == 3 + k)
      && AbsorbCalls(policy, chunks + [chunk], schedule) == n + (if going then 1 else 0)
      && FileTakes(policy, chunks + [chunk], schedule)
          == FileTakes(policy, chunks, schedule) + (if going then Accepted(At(schedule, n), chunk) else [])
      && Spilled(policy, chunks + [chunk]) == Spilled(policy, chunks)
      && Landed(policy, chunks + [chunk], schedule)
  {
    var k := Later(policy, chunks);
    SpillVerdict(schedule);
    AppendVerdict(schedule, k);
    AttemptsGrow(policy, chunks, chunk);
    SnocParts(chunks, chunk);
    assert (chunks + [chunk])[..|chunks| - k] == chunks[..|chunks| - k];
  }

  /** One turn of a drain's loop. */
  method AbsorbNext(capture: FileAccumulator, ghost chunks: seq<seq<Byte>>, chunk: seq<Byte>, ghost schedule: seq<Await>)
    returns (cancelled: bool)
    requires Tracks(capture, chunks, schedule) && !capture.interrupted
    modifies capture, capture.io
    ensures Tracks(capture, chunks + [chunk], schedule) && capture.interrupted == cancelled
    ensures capture.handle == old(capture.handle) || capture.handle == null || fresh(capture.handle)
  {
    ghost var n := AbsorbCalls(capture.policy, chunks, schedule);
    JoinedAppend(chunks, chunk);
    if !SpillAttempted(capture.policy, chunks) {
      FirstAttempt(capture.policy, chunks, chunk, schedule);
    } else if !SpillLands(schedule) {
      NoMoreAttempts(capture.policy, chunks, chunk, schedule);
    } else {
      OneMoreChunk(capture.policy, chunks, chunk, schedule);
      OneMoreCall(schedule, n);
      SkipAt(schedule, n, 0);
      SkipAt(schedule, n, 1);
    }
    cancelled := capture.Absorb(chunk);
  }

  /** A capture that has seen no chunk has made no call. */
  lemma TracksNothing(capture: FileAccumulator)
    requires capture.Valid() && capture.stream == [] && capture.path.None?
    requires !capture.failed && !capture.interrupted && !capture.leaked
    ensures Tracks(capture, [], capture.io.schedule)
    ensures !CancelledIn(capture.io.schedule, AbsorbCalls(capture.policy, [], capture.io.schedule))
  {
    FewCalls(capture.io.schedule);
  }

  lemma TakeOne(chunks: seq<seq<Byte>>, n: nat)
    requires n < |chunks|
    ensures chunks[..n + 1] == chunks[..n] + [chunks[n]]
    ensures chunks[..0] == []
  {
  }

  /** The chunk loop of a drain, ended early by a cancellation. */
  method AbsorbAll(capture: FileAccumulator, chunks: seq<seq<Byte>>) returns (absorbed: nat, cancelled: bool)
    requires capture.Valid() && capture.stream == [] && capture.handle == null && capture.path.None?
    requires !capture.failed && !capture.interrupted && !capture.leaked
    modifies capture, capture.io
    ensures absorbed <= |chunks| && (!cancelled ==> absorbed == |chunks|) && capture.interrupted == cancelled
    ensures Tracks(capture, chunks[..absorbed], old(capture.io.schedule))
    // The drain goes on to the first chunk one of whose calls is cancelled, and no further.
    ensures forall n :: 0 <= n < absorbed ==>
      !CancelledIn(old(capture.io.schedule), AbsorbCalls(capture.policy, chunks[..n], old(capture.io.schedule)))
    ensures capture.handle == null || fresh(capture.handle)
  {
    ghost var schedule := capture.io.schedule;
    absorbed, cancelled := 0, false;
    TracksNothing(capture);
    assert chunks[..0] == [];
    while absorbed < |chunks| && !cancelled
      invariant absorbed <= |chunks| && capture.interrupted == cancelled
      invariant Tracks(capture, chunks[..absorbed], schedule)
      invariant capture.handle == null || fresh(capture.handle)
      invariant forall n :: 0 <= n < absorbed ==> !CancelledIn(schedule, AbsorbCalls(capture.policy, chunks[..n], schedule))
      decreases |chunks| - absorbed
    {
      TakeOne(chunks, absorbed);
      cancelled := AbsorbNext(capture, chunks[..absorbed], chunks[absorbed], schedule);
      absorbed := absorbed + 1;
    }
  }

  /** Every call of a whole capture: those of its chunks, then the flush and the read-back if it is on file. */
  lemma FinalizeIsLast(policy: Policy, captureBytes: bool, chunks: seq<seq<Byte>>, schedule: seq<Await>)
    requires !CancelledIn(schedule, AbsorbCalls(policy, chunks, schedule)) && Landed(policy, chunks, schedule)
    ensures
      var n := AbsorbCalls(policy, chunks, schedule);
      var m := FinalizeCalls(captureBytes, Skip(schedule, n));
      && CaptureCalls(policy, captureBytes, chunks, schedule) == n + m
      && (CancelledIn(schedule, n + m) <==> CancelledIn(Skip(schedule, n), m))
      && (RaisedIn(schedule, n + m) <==> RaisedIn(schedule, n) || RaisedIn(Skip(schedule, n), m))
  {
    var n := AbsorbCalls(policy, chunks, schedule);
    InSkip(schedule, n, FinalizeCalls(captureBytes, Skip(schedule, n)));
  }

  /** The bytes a landed capture reads back, when its flush was or was not refused. */
  ghost predicate ReadsBack(policy: Policy, chunks: seq<seq<Byte>>, schedule: seq<Await>, flush: Await, bytes: seq<Byte>)
  {
    var taken := FileTakes(policy, chunks, schedule);
    && bytes <= taken && |bytes| >= |Spilled(policy, chunks)|
    && (!flush.refused ==> bytes == taken)
  }

  /**
   What the result of a capture says, by the schedule it ran under. A stream that stayed on
   the heap is rendered as a full capture renders it, whatever failed. A stream on file is
   read back in byte mode unless the read is refused: every byte the file took, or, after a
   refused flush, a prefix of them that holds at least what was spilled.
   */
  ghost predicate Reports(
    final: FileFinal, policy: Policy, settings: DecodeSettings, littleHost: bool, chunks: seq<seq<Byte>>, schedule: seq<Await>)
  {
    var rest := Skip(schedule, AbsorbCalls(policy, chunks, schedule));
    && final.totalBytes == |Joined(chunks)|
    && (final.storageFailed <==> RaisedIn(schedule, CaptureCalls(policy, settings.captureBytes, chunks, schedule)))
    && (final.path.Some? <==> Landed(policy, chunks, schedule))
    && (final.owned <==> Landed(policy, chunks, schedule) && !policy.keepFile)
    && if !Landed(policy, chunks, schedule) then
         final.payload == Some(Render(Joined(chunks), settings, littleHost))
       else
         && (final.payload.None? <==> !settings.captureBytes || At(rest, 1).refused)
         && (final.payload.Some? ==>
               && final.payload.value.RawBytes?
               && ReadsBack(policy, chunks, schedule, At(rest, 0), final.payload.value.bytes))
  }

  /** While no call is refused or cancelled, the file takes the whole stream. */
  lemma UndisturbedTakesAll(policy: Policy, chunks: seq<seq<Byte>>, schedule: seq<Await>)
    requires Landed(policy, chunks, schedule)
    requires var n := AbsorbCalls(policy, chunks, schedule); !CancelledIn(schedule, n) && !RaisedIn(schedule, n)
    ensures FileTakes(policy, chunks, schedule) == Joined(chunks)
  {
    AppendVerdict(schedule, Later(policy, chunks));
    TakesEverything(policy, chunks, schedule);
  }

  /**
   A stream read back is a gap-free prefix of what the child wrote, and all of it unless the record
   says otherwise.
   */
  lemma ReportIsGapFree(
    final: FileFinal, policy: Policy, settings: DecodeSettings, littleHost: bool, chunks: seq<seq<Byte>>, schedule: seq<Await>)
    requires Reports(final, policy, settings, littleHost, chunks, schedule) && Landed(policy, chunks, schedule)
    requires !CancelledIn(schedule, CaptureCalls(policy, settings.captureBytes, chunks, schedule))
    ensures final.payload.Some? ==> Spilled(policy, chunks) <= final.payload.value.bytes <= Joined(chunks)
    ensures settings.captureBytes && final.payload.None? ==> final.storageFailed
    ensures settings.captureBytes && !final.storageFailed ==> final.payload == Some(RawBytes(Joined(chunks)))
  {
    var n := AbsorbCalls(policy, chunks, schedule);
    TakesPrefix(policy, chunks, schedule);
    FinalizeIsLast(policy, settings.captureBytes, chunks, schedule);
    FewCalls(Skip(schedule, n));
    if !final.storageFailed {
      UndisturbedTakesAll(policy, chunks, schedule);
    }
  }

  /** Where a capture stands when its clean-up starts, having absorbed these chunks. */
  ghost predicate Ended(capture: FileAccumulator, chunks: seq<seq<Byte>>, schedule: seq<Await>)
    reads capture, capture.io, capture.handle
  {
    && capture.Valid()
    && capture.io.schedule
        == Skip(schedule, CaptureCalls(capture.policy, capture.settings.captureBytes, chunks, schedule))
    && (capture.path.Some? <==> Landed(capture.policy, chunks, schedule))
    && (capture.leaked <==> Leaked(capture.policy, chunks, schedule))
    && (capture.path.Some? ==>
          && capture.io.Taken(capture.path.value) == FileTakes(capture.policy, chunks, schedule)
          && |capture.io.files[capture.path.value]| >= |Spilled(capture.policy, chunks)|)
    && HoldsHandle(capture, chunks, schedule)
  }

  /** A capture whose absorbing was cancelled has made its last call before the clean-up. */
  lemma InterruptedEnds(capture: FileAccumulator, chunks: seq<seq<Byte>>, schedule: seq<Await>)
    requires Tracks(capture, chunks, schedule) && capture.interrupted
    ensures Ended(capture, chunks, schedule)
  {
  }

  /** What a capture that absorbed all its chunks makes of them. */
  method FinishCapture(capture: FileAccumulator, ghost chunks: seq<seq<Byte>>, ghost schedule: seq<Await>)
    returns (final: Option<FileFinal>)
    requires Tracks(capture, chunks, schedule) && !capture.interrupted
    modifies capture, capture.io
    ensures Ended(capture, chunks, schedule) && capture.handle == old(capture.handle)
    ensures final.None? <==>
      CancelledIn(schedule, CaptureCalls(capture.policy, capture.settings.captureBytes, chunks, schedule))
    ensures final.Some? ==>
      Reports(final.value, capture.policy, capture.settings, capture.littleHost, chunks, schedule) && final.value.path == capture.path
  {
    if Landed(capture.policy, chunks, schedule) {
      ghost var n := AbsorbCalls(capture.policy, chunks, schedule);
      FinalizeIsLast(capture.policy, capture.settings.captureBytes, chunks, schedule);
      SkipAt(schedule, n, FinalizeCalls(capture.settings.captureBytes, Skip(schedule, n)));
    }
    final := capture.Finalize();
  }

  /** Drain every chunk unless a cancellation escapes, and finalize if none did. */
  method DrainAndFinish(capture: FileAccumulator, chunks: seq<seq<Byte>>) returns (absorbed: nat, final: Option<FileFinal>)
    requires capture.Valid() && capture.stream == [] && capture.handle == null && capture.path.None?
    requires !capture.failed && !capture.interrupted && !capture.leaked
    modifies capture, capture.io
    ensures absorbed <= |chunks| && (final.Some? ==> absorbed == |chunks|)
    ensures Ended(capture, chunks[..absorbed], old(capture.io.schedule))
    ensures capture.handle == null || fresh(capture.handle)
    ensures
      var schedule := old(capture.io.schedule);
      && (absorbed < |chunks| ==> CancelledIn(schedule, AbsorbCalls(capture.policy, chunks[..absorbed], schedule)))
      && (forall n :: 0 <= n < absorbed ==> !CancelledIn(schedule, AbsorbCalls(capture.policy, chunks[..n], schedule)))
      && (final.None? <==> CancelledIn(schedule, CaptureCalls(capture.policy, capture.settings.captureBytes, chunks, schedule)))
      && (final.Some? ==>
            && Reports(final.value, capture.policy, capture.settings, capture.littleHost, chunks, schedule)
            && final.value.path == capture.path)
  {
    ghost var schedule := capture.io.schedule;
    var cancelled;
    absorbed, cancelled := AbsorbAll(capture, chunks);
    final := None;
    if cancelled {
      CallsMonotone(capture.policy, chunks, absorbed, schedule);
      InterruptedEnds(capture, chunks[..absorbed], schedule);
    } else {
      assert chunks[..absorbed] == chunks;
      final := FinishCapture(capture, chunks, schedule);
    }
  }

  /** A disk with one file on it. */
  predicate Holds(files: map<nat, seq<Byte>>, p: nat, bytes: seq<Byte>)
  {
    files == map[p := bytes]
  }

  /**
   What a run leaves on disk when its clean-up runs under `schedule`: the file it lost, or
   the one it holds unless the clean-up removes it. A landed file keeps a gap-free prefix of
   what it took, all of it if it is kept and its close is neither refused nor cancelled.
   */
  ghost predicate LeavesBehind(
    remaining: map<nat, seq<Byte>>, policy: Policy, chunks: seq<seq<Byte>>, schedule: seq<Await>, rest: seq<Await>)
  {
    var kept := Kept(policy, chunks, schedule);
    && (remaining != map[] <==>
          Leaked(policy, chunks, schedule) || (OnDisk(policy, chunks, schedule) && CleanupLeaves(kept, rest)))
    && (Landed(policy, chunks, schedule) ==>
          forall p :: p in remaining ==>
            && remaining[p] <= FileTakes(policy, chunks, schedule)
            && |remaining[p]| >= |Spilled(policy, chunks)|)
    && (kept && OutcomeOf(At(rest, 0)) == Returned ==>
          exists p: nat :: Holds(remaining, p, FileTakes(policy, chunks, schedule)))
  }

  /** A clean-up that nothing disturbs leaves exactly the kept file and the one whose removal was refused before. */
  lemma UndisturbedLeavesKept(
    remaining: map<nat, seq<Byte>>, policy: Policy, chunks: seq<seq<Byte>>, schedule: seq<Await>, rest: seq<Await>)
    requires LeavesBehind(remaining, policy, chunks, schedule, rest)
    requires !At(rest, 0).Struck() && !At(rest, 1).refused
    ensures remaining != map[] <==> Leaked(policy, chunks, schedule) || Kept(policy, chunks, schedule)
  {
    LandedIsOnDisk(policy, chunks, schedule);
  }

  /** The way out of a capture, disturbed or not. */
  method LeaveDisk(capture: FileAccumulator, ghost chunks: seq<seq<Byte>>, ghost schedule: seq<Await>)
    returns (outcome: Outcome, remaining: map<nat, seq<Byte>>)
    requires Ended(capture, chunks, schedule)
    modifies capture.io, capture.handle
    ensures LeavesBehind(remaining, capture.policy, chunks, schedule, old(capture.io.schedule))
    ensures outcome ==
      if Held(capture.policy, chunks, schedule)
        && CleanupCancelled(Kept(capture.policy, chunks, schedule), old(capture.io.schedule)) then Cancelled
      else Returned
    ensures capture.path.Some? ==> remaining.Keys <= {capture.path.value}
  {
    LandedIsOnDisk(capture.policy, chunks, schedule);
    outcome := capture.Cleanup();
    remaining := capture.io.files;
    if capture.handle != null {
      assert remaining.Keys <= {capture.handle.path};
      assert remaining != map[] <==> capture.handle.path in remaining;
      assert capture.handle.path in remaining ==> Holds(remaining, capture.handle.path, remaining[capture.handle.path]);
    }
  }

  /** What the clean-up makes of the disk, and whether a cancellation escapes from it. */
  ghost predicate Closes(
    closing: Outcome, remaining: map<nat, seq<Byte>>, policy: Policy, captureBytes: bool, taken: seq<seq<Byte>>,
    schedule: seq<Await>)
  {
    var rest := Skip(schedule, CaptureCalls(policy, captureBytes, taken, schedule));
    && LeavesBehind(remaining, policy, taken, schedule, rest)
    && closing == (if Held(policy, taken, schedule) && CleanupCancelled(Kept(policy, taken, schedule), rest)
                   then Cancelled else Returned)
  }

  /** Everything a run yields, by the schedule it ran under. */
  ghost predicate Yields(
    absorbed: nat, final: Option<FileFinal>, closing: Outcome, remaining: map<nat, seq<Byte>>,
    policy: Policy, settings: DecodeSettings, littleHost: bool, chunks: seq<seq<Byte>>, schedule: seq<Await>)
  {
    && absorbed <= |chunks|
    && (absorbed < |chunks| ==> CancelledIn(schedule, AbsorbCalls(policy, chunks[..absorbed], schedule)))
    && (final.None? <==> CancelledIn(schedule, CaptureCalls(policy, settings.captureBytes, chunks, schedule)))
    && (final.Some? ==> Reports(final.value, policy, settings, littleHost, chunks, schedule))
    && (final.Some? && final.value.path.Some? ==> remaining.Keys <= {final.value.path.value})
    && Closes(closing, remaining, policy, settings.captureBytes, chunks[..absorbed], schedule)
  }

  /** A stream the heap holds is a full capture's, whatever storage would have done. */
  lemma HeapYields(
    absorbed: nat, final: Option<FileFinal>, closing: Outcome, remaining: map<nat, seq<Byte>>,
    policy: Policy, settings: DecodeSettings, littleHost: bool, chunks: seq<seq<Byte>>, schedule: seq<Await>)
    requires Yields(absorbed, final, closing, remaining, policy, settings, littleHost, chunks, schedule)
    requires FitsHeap(policy, chunks)
    ensures absorbed == |chunks| && closing == Returned && remaining == map[]
    ensures final == Some(FileFinal(Some(Render(Joined(chunks), settings, littleHost)), |Joined(chunks)|, None, false, false))
  {
    HeapMakesNoCalls(policy, settings.captureBytes, chunks, absorbed, schedule);
    assert chunks[..absorbed] == chunks;
  }

  /** Any other stream is on file, all of it, when nothing disturbs the run. */
  lemma FileYields(
    absorbed: nat, final: Option<FileFinal>, closing: Outcome, remaining: map<nat, seq<Byte>>,
    policy: Policy, settings: DecodeSettings, littleHost: bool, chunks: seq<seq<Byte>>, schedule: seq<Await>)
    requires Yields(absorbed, final, closing, remaining, policy, settings, littleHost, chunks, schedule)
    requires !FitsHeap(policy, chunks) && Undisturbed(schedule)
    ensures absorbed == |chunks| && closing == Returned && final.Some? && final.value.path.Some?
    ensures
      var payload := if settings.captureBytes then Some(RawBytes(Joined(chunks))) else None;
      final.value == FileFinal(payload, |Joined(chunks)|, final.value.path, !policy.keepFile, false)
    ensures remaining == if policy.keepFile then map[final.value.path.value := Joined(chunks)] else map[]
  {
    var n := CaptureCalls(policy, settings.captureBytes, chunks, schedule);
    UndisturbedReturns(schedule, AbsorbCalls(policy, chunks[..absorbed], schedule));
    assert chunks[..absorbed] == chunks;
    UndisturbedReturns(schedule, n);
    OthersLand(policy, chunks, schedule);
    ReportIsGapFree(final.value, policy, settings, littleHost, chunks, schedule);
    UndisturbedReturns(Skip(schedule, n), 0);
    UndisturbedReturns(Skip(schedule, n), 1);
    FileLeft(final.value, remaining, policy, chunks, schedule, Skip(schedule, n));
  }

  lemma FileLeft(
    final: FileFinal, remaining: map<nat, seq<Byte>>, policy: Policy, chunks: seq<seq<Byte>>, schedule: seq<Await>,
    rest: seq<Await>)
    requires LeavesBehind(remaining, policy, chunks, schedule, rest) && Landed(policy, chunks, schedule)
    requires FileTakes(policy, chunks, schedule) == Joined(chunks)
    requires final.path.Some? && remaining.Keys <= {final.path.value}
    requires OutcomeOf(At(rest, 0)) == Returned && !At(rest, 0).Struck() && !At(rest, 1).refused
    ensures remaining == if policy.keepFile then map[final.path.value := Joined(chunks)] else map[]
  {
    UndisturbedLeavesKept(remaining, policy, chunks, schedule, rest);
    if policy.keepFile {
      var p: nat :| Holds(remaining, p, Joined(chunks));
      assert p in remaining.Keys;
    }
  }

  /** The statements of a run: drain, finalize, clean up. */
  method DriveCapture(policy: Policy, settings: DecodeSettings, littleHost: bool, chunks: seq<seq<Byte>>, schedule: seq<Await>)
    returns (absorbed: nat, final: Option<FileFinal>, closing: Outcome, remaining: map<nat, seq<Byte>>)
    ensures Yields(absorbed, final, closing, remaining, policy, settings, littleHost, chunks, schedule)
    ensures final.Some? ==> absorbed == |chunks|
    ensures forall n :: 0 <= n < absorbed ==> !CancelledIn(schedule, AbsorbCalls(policy, chunks[..n], schedule))
  {
    var io := new SpillIo(schedule);
    var capture := new FileAccumulator(policy, settings, littleHost, io);
    absorbed, final := DrainAndFinish(capture, chunks);
    closing, remaining := LeaveDisk(capture, chunks[..absorbed], schedule);
  }

  /**
   One whole capture as its drain runs it: absorb every chunk unless a cancellation
   escapes, finalize if none did, and clean up on the way out under what is left of the
   schedule. `absorbed` counts the chunks taken, `closing` is how the clean-up ended, and
   `remaining` is what is left on disk.
   */
  method RunCapture(policy: Policy, settings: DecodeSettings, littleHost: bool, chunks: seq<seq<Byte>>, schedule: seq<Await>)
    returns (absorbed: nat, final: Option<FileFinal>, closing: Outcome, remaining: map<nat, seq<Byte>>)
    ensures absorbed <= |chunks| && (final.Some? ==> absorbed == |chunks|)
    // Absorbing goes on to the first chunk one of whose calls ends in a cancellation, and otherwise to the end.
    ensures absorbed < |chunks| ==> CancelledIn(schedule, AbsorbCalls(policy, chunks[..absorbed], schedule))
    ensures forall n :: 0 <= n < absorbed ==> !CancelledIn(schedule, AbsorbCalls(policy, chunks[..n], schedule))
    // There is a result unless a call the capture made ended in a cancellation, and it reports every failure.
    ensures final.None? <==> CancelledIn(schedule, CaptureCalls(policy, settings.captureBytes, chunks, schedule))
    ensures final.Some? ==> Reports(final.value, policy, settings, littleHost, chunks, schedule)
    // A stream on file is a gap-free prefix of what the child wrote, and all of it unless the record says otherwise.
    ensures final.Some? && Landed(policy, chunks, schedule) && settings.captureBytes ==>
      && (final.value.payload.None? ==> final.value.storageFailed)
      && (final.value.payload.Some? ==>
            final.value.payload.value.RawBytes? && final.value.payload.value.bytes <= Joined(chunks))
      && (!final.value.storageFailed ==> final.value.payload == Some(RawBytes(Joined(chunks))))
    ensures Closes(closing, remaining, policy, settings.captureBytes, chunks[..absorbed], schedule)
    // A stream within its threshold never meets storage, and is read as a full capture reads it.
    ensures chunks == [] || (policy.spillThreshold.Some? && |Joined(chunks)| <= policy.spillThreshold.value) ==>
      && absorbed == |chunks| && closing == Returned && remaining == map[]
      && final == Some(FileFinal(Some(Render(Joined(chunks), settings, littleHost)), |Joined(chunks)|, None, false, false))
    // Any other is on file, all of it, when no call is refused or cancelled.
    ensures
      var outgrown := chunks != [] && (policy.spillThreshold.None? || |Joined(chunks)| > policy.spillThreshold.value);
      var undisturbed := forall i :: 0 <= i < |schedule| ==> !schedule[i].refused && schedule[i].cancel == Never;
      outgrown && undisturbed ==>
      && absorbed == |chunks| && closing == Returned && final.Some? && final.value.path.Some?
      && final.value.payload == (if settings.captureBytes then Some(RawBytes(Joined(chunks))) else None)
      && final.value.totalBytes == |Joined(chunks)| && final.value.owned == !policy.keepFile && !final.value.storageFailed
      && remaining == (if policy.keepFile then map[final.value.path.value := Joined(chunks)] else map[])
    ensures final.Some? && final.value.path.Some? ==> remaining.Keys <= {final.value.path.value}
  {
    absorbed, final, closing, remaining := DriveCapture(policy, settings, littleHost, chunks, schedule);
    if final.Some? && Landed(policy, chunks, schedule) {
      ReportIsGapFree(final.value, policy, settings, littleHost, chunks, schedule);
    }
    if FitsHeap(policy, chunks) {
      HeapYields(absorbed, final, closing, remaining, policy, settings, littleHost, chunks, schedule);
    } else if Undisturbed(schedule) {
      FileYields(absorbed, final, closing, remaining, policy, settings, littleHost, chunks, schedule);
    }
  }

  /**
   On a full disk that refuses removals a file is left behind that no handle reaches, and no
   cancellation was needed.
   */
  method LeakWitness(settings: DecodeSettings, littleHost: bool) returns (capture: FileAccumulator)
    ensures capture.Valid() && capture.stream == [65] && capture.leaked && !capture.interrupted
    ensures capture.handle == null && capture.io.files != map[]
  {
    FullDiskLeaks();
    var io := new SpillIo(FullDisk());
    capture := new FileAccumulator(FileBacked(None, false), settings, littleHost, io);
    var _ := capture.Absorb([65]);
  }
}
