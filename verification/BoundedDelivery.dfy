/**
 The delivery worker's object: the fields its threads share and the sections they
 run under its condition (cuprum/_bounded_delivery.py). Each section is proved to be
 the step of the same name of the transition system.
 */
module BoundedDelivery {
  import opened Prelude
  import opened DeliveryProtocol

  class DeliveryWorker {
    const maxQueuedBytes: nat
    var queue: seq<Item>
    var queuedBytes: int
    var active: Option<Item>
    var closing: bool
    var abandoned: bool
    var disabled: bool
    var failures: seq<Target>
    var undelivered: seq<Entry>
    var closeResult: Option<CloseResult>
    var reported: bool
    /** Where the threads stand and what became of every item; the fields above are copied from the object. */
    ghost var history: State

    /** The state of the transition system this object is in. */
    ghost function Model(): State
      reads this
    {
      history.(maxQueuedBytes := maxQueuedBytes, queue := queue, queuedBytes := queuedBytes, active := active,
               closing := closing, abandoned := abandoned, disabled := disabled, failures := failures,
               undelivered := undelivered, closeResult := closeResult, reported := reported)
    }

    constructor (maxQueuedBytes: nat)
      ensures Model() == Start(maxQueuedBytes)
    {
      this.maxQueuedBytes := maxQueuedBytes;
      queue, queuedBytes, active := [], 0, None;
      closing, abandoned, disabled := false, false, false;
      failures, undelivered, closeResult, reported := [], [], None, false;
      history := Start(maxQueuedBytes);
    }

    /** `_add_undelivered`: scan for the target's entry, else open one. */
    method AddUndeliveredEntry(target: Target, byteCount: nat)
      modifies this`undelivered
      ensures undelivered == AddUndelivered(old(undelivered), target, byteCount)
    {
      if byteCount == 0 {
        return;
      }
      for index := 0 to |undelivered|
        invariant undelivered == old(undelivered)
        invariant forall j :: 0 <= j < index ==> undelivered[j].target != target
      {
        AddUndeliveredAt(undelivered, target, byteCount, index);
        var entry := undelivered[index];
        if entry.target == target {
          undelivered := undelivered[index := entry.(bytes := entry.bytes + byteCount)];
          return;
        }
      }
      AddUndeliveredAt(undelivered, target, byteCount, |undelivered|);
      undelivered := undelivered + [Entry(target, byteCount)];
    }

    /** `_discard_queued`: forget every pending item, front to back. */
    method DiscardQueued()
      modifies this`queue, this`queuedBytes, this`undelivered
      ensures queue == [] && queuedBytes == 0
      ensures undelivered == Discard(old(undelivered), old(queue))
    {
      while queue != []
        invariant Discard(undelivered, queue) == Discard(old(undelivered), old(queue))
        decreases |queue|
      {
        var item := queue[0];
        queue := queue[1..];
        AddUndeliveredEntry(item.target, item.bytes);
      }
      queuedBytes := 0;
    }

    /** `enqueue`: queue one write without blocking and return the bytes rejected by load. */
    method EnqueueItem(item: Item) returns (rejectedBytes: nat)
      modifies this
      ensures Model() == Step(old(Model()), Enqueue(item))
      ensures rejectedBytes == Bytes(Model().rejected, None) - Bytes(old(Model()).rejected, None)
      ensures
        var empty := item.bytes == 0 && !item.hasValue;
        var stopped := old(disabled) || old(closing);
        rejectedBytes == if empty || stopped || old(queuedBytes) + item.bytes <= maxQueuedBytes then 0 else item.bytes
    {
      ghost var before := Model();
      rejectedBytes := 0;
      if item.bytes == 0 && !item.hasValue {
        return;
      }
      if disabled || closing {
        AddUndeliveredEntry(item.target, item.bytes);
      } else if queuedBytes + item.bytes > maxQueuedBytes {
        BytesAppend(history.rejected, item, None);
        rejectedBytes := item.bytes;
      } else {
        queue := queue + [item];
        queuedBytes := queuedBytes + item.bytes;
      }
      history := EnqueueStep(before, item);
    }

    /** The first section of `close`: stop accepting, unless a result is already published. */
    method BeginClose() returns (published: Option<CloseResult>)
      requires Enabled(Model(), CloseBegin)
      modifies this
      ensures Model() == Step(old(Model()), CloseBegin)
      ensures published == old(closeResult)
      ensures closing <==> old(closing) || published.None?
    {
      ghost var before := Model();
      published := closeResult;
      if closeResult.None? {
        closing := true;
      }
      history := CloseBeginStep(before);
    }

    /** An item still with the worker, or a worker that did not stop, is given up. */
    method GiveUpActive(alive: bool)
      modifies this`abandoned, this`undelivered, this`active
      ensures active == None && abandoned == (old(abandoned) || alive || old(active).Some?)
      ensures undelivered ==
        match old(active)
        case Some(item) => AddUndelivered(old(undelivered), item.target, item.bytes)
        case None => old(undelivered)
    {
      if alive || active.Some? {
        abandoned := true;
        if active.Some? {
          AddUndeliveredEntry(active.value.target, active.value.bytes);
          active := None;
        }
      }
    }

    /** The last section of `close`, after `join` found the thread alive or not. */
    method EndClose(alive: bool) returns (result: CloseResult)
      requires Enabled(Model(), CloseEnd(alive))
      modifies this
      ensures Model() == Step(old(Model()), CloseEnd(alive))
      ensures Some(result) == closeResult
      ensures queue == [] && active == None && (abandoned <==> old(abandoned) || alive || old(active).Some?)
      ensures result == CloseResult(old(failures), undelivered)
    {
      ghost var before := Model();
      GiveUpActive(alive);
      DiscardQueued();
      assert undelivered == GivenUp(before);
      result := CloseResult(failures, undelivered);
      closeResult := Some(result);
      history := CloseEndStep(before, alive);
    }

    /** `take_close_result`: hand the diagnostics out once, after close has completed. */
    method TakeCloseResult() returns (result: Option<CloseResult>)
      modifies this
      ensures Model() == Step(old(Model()), TakeResult)
      ensures result == if old(reported) then None else closeResult
    {
      ghost var before := Model();
      result := None;
      if closeResult.Some? && !reported {
        reported := true;
        result := closeResult;
      }
      history := TakeResultStep(before);
    }

    /** `_next_item`, once its wait is over: take the next item, or stop. */
    method TakeNextItem() returns (item: Option<Item>)
      requires Enabled(Model(), NextItem)
      modifies this
      ensures Model() == Step(old(Model()), NextItem)
      ensures item.Some? <==> Model().worker.Holding?
      ensures item.Some? ==> item.value == Model().worker.item
      ensures if old(abandoned) || old(queue) == [] then item == None && queue == old(queue)
              else item.Some? && old(queue) == [item.value] + queue && active == item
    {
      ghost var before := Model();
      item := None;
      if !abandoned && queue != [] {
        item := Some(queue[0]);
        queue := queue[1..];
        queuedBytes := queuedBytes - item.value.bytes;
        active := item;
      }
      history := NextItemStep(before);
    }

    /** The check inside `_deliver`: whether the write may still be started. */
    method MayWrite() returns (write: bool)
      requires Enabled(Model(), CheckAbandoned)
      modifies this
      ensures Model() == Step(old(Model()), CheckAbandoned)
      ensures write <==> Model().worker.Writing?
      ensures write <==> !abandoned
    {
      ghost var before := Model();
      write := !abandoned;
      history := CheckAbandonedStep(before);
    }

    /** The section of `_run` after a delivery: carry on, or stop for good after a failure. */
    method FinishDelivery(item: Item, ok: bool) returns (goOn: bool)
      requires Model().worker == Returned(item, ok)
      modifies this
      ensures Model() == Step(old(Model()), Finish)
      ensures goOn <==> Model().worker.AtNext?
      ensures goOn <==> ok && !abandoned
      ensures failures == if ok || abandoned then old(failures) else old(failures) + [item.target]
    {
      ghost var before := Model();
      if !ok {
        goOn := false;
        if !abandoned {
          failures := failures + [item.target];
          disabled := true;
          active := None;
          DiscardQueued();
        }
      } else {
        active := None;
        goOn := !abandoned;
      }
      history := FinishStep(before);
    }
  }
}
