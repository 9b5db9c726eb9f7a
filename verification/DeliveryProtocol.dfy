/**
 The bounded delivery worker as a transition system: every section the source runs
 under its condition is one step, the blocking sink write is a step of the
 environment, and steps of the enqueuing loop, the worker and the closer interleave
 freely (cuprum/_bounded_delivery.py).
 */
module DeliveryProtocol {
  import opened Prelude

  datatype Stream = Stdout | Stderr

  /** The drain that queued some bytes: its stream and the identity of its diagnostics. */
  datatype Target = Target(stream: Stream, diagnostics: Option<nat>)

  datatype Item = Item(target: Target, hasValue: bool, bytes: nat, flush: bool)

  datatype Entry = Entry(target: Target, bytes: nat)

  datatype CloseResult = CloseResult(failures: seq<Target>, undelivered: seq<Entry>)

  /** Where the worker thread stands between two of its sections. */
  datatype WorkerAt =
    | AtNext
    | Holding(item: Item)
    | Writing(item: Item)
    | Returned(item: Item, ok: bool)
    | Exited

  datatype CloserAt = NotClosing | Joining | Closed

  /**
   The worker's fields, followed by what an observer of the whole run would have
   written down: where each thread is, and what became of every offered item.
   */
  datatype State = State(
    maxQueuedBytes: nat,
    queue: seq<Item>, queuedBytes: int, active: Option<Item>,
    closing: bool, abandoned: bool, disabled: bool,
    failures: seq<Target>, undelivered: seq<Entry>,
    closeResult: Option<CloseResult>, reported: bool,
    worker: WorkerAt, closer: CloserAt,
    offered: seq<Item>, rejected: seq<Item>, accepted: seq<Item>,
    taken: seq<Item>, handed: seq<Item>, confirmed: seq<Item>, failed: seq<Item>,
    reports: nat)

  function Start(maxQueuedBytes: nat): State
  {
    State(maxQueuedBytes, [], 0, None, false, false, false, [], [], None, false,
          AtNext, NotClosing, [], [], [], [], [], [], [], 0)
  }

  // ------------------------------------------------------------------- measures

  /** Whether a selection covers a target: `None` selects every target. */
  predicate Covers(selection: Option<Target>, target: Target)
  {
    selection.None? || selection.value == target
  }

  function Weight(item: Item, selection: Option<Target>): nat
  {
    if Covers(selection, item.target) then item.bytes else 0
  }

  /** The bytes of the items a selection covers. */
  function Bytes(items: seq<Item>, selection: Option<Target>): (n: nat)
  {
    if items == [] then 0 else Weight(items[0], selection) + Bytes(items[1..], selection)
  }

  /** The bytes a table reports undelivered for the targets a selection covers. */
  function Amount(table: seq<Entry>, selection: Option<Target>): (n: nat)
  {
    if table == [] then 0
    else (if Covers(selection, table[0].target) then table[0].bytes else 0) + Amount(table[1..], selection)
  }

  function ActiveBytes(active: Option<Item>, selection: Option<Target>): nat
  {
    match active
    case None => 0
    case Some(item) => Weight(item, selection)
  }

  // ------------------------------------------------------------ the undelivered table

  /** `_add_undelivered`: grow the target's entry, or open one at the end. */
  function AddUndelivered(table: seq<Entry>, target: Target, n: nat): (grown: seq<Entry>)
  {
    if n == 0 then table
    else if table == [] then [Entry(target, n)]
    else if table[0].target == target then [Entry(target, table[0].bytes + n)] + table[1..]
    else [table[0]] + AddUndelivered(table[1..], target, n)
  }

  /** The table after every item of a queue was discarded, front to back. */
  function Discard(table: seq<Entry>, items: seq<Item>): (grown: seq<Entry>)
    decreases |items|
  {
    if items == [] then table
    else Discard(AddUndelivered(table, items[0].target, items[0].bytes), items[1..])
  }

  // ---------------------------------------------------------------------- steps

  datatype Event =
    | Enqueue(item: Item)
    | CloseBegin
    | CloseEnd(alive: bool)
    | TakeResult
    | NextItem
    | CheckAbandoned
    | SinkReturns(ok: bool)
    | Finish

  predicate Enabled(s: State, e: Event)
  {
    match e
    case Enqueue(_) => true
    case CloseBegin => s.closer != Joining
    // `join` came back: a thread reported dead has left its last section.
    case CloseEnd(alive) => s.closer == Joining && (!alive ==> s.worker == Exited)
    case TakeResult => true
    case NextItem => s.worker == AtNext && (s.queue != [] || s.closing)
    case CheckAbandoned => s.worker.Holding?
    case SinkReturns(_) => s.worker.Writing?
    case Finish => s.worker.Returned?
  }

  function EnqueueStep(s: State, item: Item): State
  {
    if item.bytes == 0 && !item.hasValue then s
    else
      var offered := s.offered + [item];
      if s.disabled || s.closing then
        s.(offered := offered, undelivered := AddUndelivered(s.undelivered, item.target, item.bytes))
      else if s.queuedBytes + item.bytes > s.maxQueuedBytes then
        s.(offered := offered, rejected := s.rejected + [item])
      else
        s.(offered := offered, accepted := s.accepted + [item],
           queue := s.queue + [item], queuedBytes := s.queuedBytes + item.bytes)
  }

  function CloseBeginStep(s: State): State
  {
    if s.closeResult.Some? then s else s.(closing := true, closer := Joining)
  }

  /** The table once an active item and then the queue have been given up. */
  function GivenUp(s: State): seq<Entry>
  {
    Discard(
      match s.active
      case Some(item) => AddUndelivered(s.undelivered, item.target, item.bytes)
      case None => s.undelivered,
      s.queue)
  }

  function CloseEndStep(s: State, alive: bool): State
  {
    var table := GivenUp(s);
    s.(abandoned := s.abandoned || alive || s.active.Some?, active := None,
       queue := [], queuedBytes := 0, undelivered := table,
       closeResult := Some(CloseResult(s.failures, table)), closer := Closed)
  }

  function TakeResultStep(s: State): State
  {
    if s.closeResult.None? || s.reported then s else s.(reported := true, reports := s.reports + 1)
  }

  function NextItemStep(s: State): State
  {
    if s.abandoned || s.queue == [] then s.(worker := Exited)
    else
      var item := s.queue[0];
      s.(queue := s.queue[1..], queuedBytes := s.queuedBytes - item.bytes, active := Some(item),
         worker := Holding(item), taken := s.taken + [item])
  }

  function CheckAbandonedStep(s: State): State
    requires s.worker.Holding?
  {
    if s.abandoned then s.(worker := Returned(s.worker.item, true))
    else s.(worker := Writing(s.worker.item), handed := s.handed + [s.worker.item])
  }

  function FinishStep(s: State): State
    requires s.worker.Returned?
  {
    var item := s.worker.item;
    if s.worker.ok then
      if s.abandoned then s.(active := None, worker := Exited)
      else s.(active := None, worker := AtNext, confirmed := s.confirmed + [item])
    else if s.abandoned then s.(worker := Exited)
    else
      s.(failures := s.failures + [item.target], disabled := true, active := None,
         undelivered := Discard(s.undelivered, s.queue), queue := [], queuedBytes := 0,
         worker := Exited, failed := s.failed + [item])
  }

  function Step(s: State, e: Event): State
    requires Enabled(s, e)
  {
    match e
    case Enqueue(item) => EnqueueStep(s, item)
    case CloseBegin => CloseBeginStep(s)
    case CloseEnd(alive) => CloseEndStep(s, alive)
    case TakeResult => TakeResultStep(s)
    case NextItem => NextItemStep(s)
    case CheckAbandoned => CheckAbandonedStep(s)
    case SinkReturns(ok) => s.(worker := Returned(s.worker.item, ok))
    case Finish => FinishStep(s)
  }

  /** Whether some interleaving of steps, `events`, leads from `s` to `t`. */
  predicate Leads(s: State, events: seq<Event>, t: State)
    decreases |events|
  {
    if events == [] then s == t
    else Enabled(s, events[0]) && Leads(Step(s, events[0]), events[1..], t)
  }

  // ----------------------------------------------------------------- invariants

  /** Every offered byte the selection covers is in exactly one place. */
  predicate Balanced(s: State, selection: Option<Target>)
  {
    Bytes(s.offered, selection)
      == Bytes(s.rejected, selection) + Bytes(s.queue, selection) + ActiveBytes(s.active, selection)
       + Bytes(s.confirmed, selection) + Bytes(s.failed, selection) + Amount(s.undelivered, selection)
  }

  ghost predicate Conserved(s: State)
  {
    forall selection: Option<Target> :: Balanced(s, selection)
  }

  function InHand(active: Option<Item>): seq<Item>
  {
    match active
    case Some(item) => [item]
    case None => []
  }

  predicate BusyWith(w: WorkerAt, item: Item)
  {
    (w.Holding? || w.Writing? || w.Returned?) && w.item == item
  }

  /** The byte bound and the FIFO order. */
  ghost predicate Ordered(s: State)
  {
    && s.queuedBytes == Bytes(s.queue, None) <= s.maxQueuedBytes
    && s.handed <= s.taken <= s.accepted
    && (s.worker.Holding? ==> s.taken == s.handed + [s.worker.item])
    && (s.worker.AtNext? || s.worker.Writing? ==> s.taken == s.handed)
    && ((s.worker.Returned? || s.worker.Exited?) && !s.abandoned ==> s.taken == s.handed)
    && (!s.disabled && s.closeResult.None? ==> s.accepted == s.taken + s.queue)
    && (!s.abandoned ==> s.taken == s.confirmed + s.failed + InHand(s.active))
  }

  /** The item that failed is the one handed to a sink last, and the recorded failure names its target. */
  ghost predicate LastOneFailed(s: State)
  {
    && (s.failed != [] ==> s.handed != [] && s.failed == [s.handed[|s.handed| - 1]])
    && |s.failures| == |s.failed|
    && (forall i :: 0 <= i < |s.failed| ==> s.failures[i] == s.failed[i].target)
  }

  /** How the flags, the two threads and the close result go together. */
  ghost predicate Consistent(s: State)
  {
    && (s.active.Some? ==> !s.abandoned && BusyWith(s.worker, s.active.value))
    && (s.active.None? && !s.abandoned ==> s.worker.AtNext? || s.worker.Exited?)
    && (s.worker.Exited? && !s.abandoned ==> s.disabled || (s.closing && s.queue == []))
    && (s.disabled ==> s.worker.Exited? && s.queue == [] && s.active.None?)
    && (s.abandoned ==> s.closeResult.Some?)
    && (s.closeResult.Some? ==> s.queue == [] && s.active.None? && (s.abandoned || s.worker.Exited?))
    && (s.closer == NotClosing <==> !s.closing)
    && (s.closer == Closed <==> s.closeResult.Some?)
    && |s.failures| == |s.failed| == (if s.disabled then 1 else 0)
    && s.reports == (if s.reported then 1 else 0)
    && (s.reported ==> s.closeResult.Some?)
  }

  /** One entry per target, none of them empty. */
  ghost predicate Grouped(table: seq<Entry>)
  {
    && (forall i :: 0 <= i < |table| ==> table[i].bytes > 0)
    && (forall i, j :: 0 <= i < j < |table| ==> table[i].target != table[j].target)
  }

  ghost predicate Inv(s: State)
  {
    Conserved(s) && Ordered(s) && Consistent(s) && LastOneFailed(s) && Grouped(s.undelivered)
  }

  // ------------------------------------------------------------------- arithmetic

  lemma {:induction false} BytesAppend(items: seq<Item>, item: Item, selection: Option<Target>)
    ensures Bytes(items + [item], selection) == Bytes(items, selection) + Weight(item, selection)
  {
    if items == [] {
      assert (items + [item])[1..] == [];
    } else {
      BytesAppend(items[1..], item, selection);
      assert (items + [item])[1..] == items[1..] + [item];
    }
  }

  lemma {:induction false} AddUndeliveredAmount(table: seq<Entry>, target: Target, n: nat, selection: Option<Target>)
    ensures Amount(AddUndelivered(table, target, n), selection)
         == Amount(table, selection) + (if Covers(selection, target) then n else 0)
  {
    if n > 0 && table != [] && table[0].target != target {
      AddUndeliveredAmount(table[1..], target, n, selection);
      var grown := AddUndelivered(table, target, n);
      assert grown[1..] == AddUndelivered(table[1..], target, n);
    }
  }

  lemma {:induction false} DiscardAmount(table: seq<Entry>, items: seq<Item>, selection: Option<Target>)
    ensures Amount(Discard(table, items), selection) == Amount(table, selection) + Bytes(items, selection)
    decreases |items|
  {
    if items != [] {
      DiscardAmount(AddUndelivered(table, items[0].target, items[0].bytes), items[1..], selection);
      AddUndeliveredAmount(table, items[0].target, items[0].bytes, selection);
    }
  }

  /** The entry that grows is the target's first one, wherever it stands; the rest stay put. */
  lemma {:induction false} AddUndeliveredAt(table: seq<Entry>, target: Target, n: nat, index: nat)
    requires n > 0 && index <= |table|
    requires forall j :: 0 <= j < index ==> table[j].target != target
    ensures index == |table| ==> AddUndelivered(table, target, n) == table + [Entry(target, n)]
    ensures index < |table| && table[index].target == target
        ==> AddUndelivered(table, target, n) == table[index := Entry(target, table[index].bytes + n)]
  {
    if index > 0 {
      AddUndeliveredAt(table[1..], target, n, index - 1);
      assert table == [table[0]] + table[1..];
    }
  }

  /** Growing the table keeps one non-empty entry per target, in the order targets first appeared. */
  lemma {:induction false} AddUndeliveredGrouped(table: seq<Entry>, target: Target, n: nat)
    requires Grouped(table)
    ensures
      var grown := AddUndelivered(table, target, n);
      && Grouped(grown) && |table| <= |grown|
      && (forall i :: 0 <= i < |table| ==> grown[i].target == table[i].target)
      && (forall i :: |table| <= i < |grown| ==> grown[i].target == target)
  {
    if n > 0 && table != [] && table[0].target != target {
      AddUndeliveredGrouped(table[1..], target, n);
    }
  }

  lemma {:induction false} DiscardGrouped(table: seq<Entry>, items: seq<Item>)
    requires Grouped(table)
    ensures Grouped(Discard(table, items))
    decreases |items|
  {
    if items != [] {
      AddUndeliveredGrouped(table, items[0].target, items[0].bytes);
      DiscardGrouped(AddUndelivered(table, items[0].target, items[0].bytes), items[1..]);
    }
  }

  // ------------------------------------------------------ every step keeps them

  /** A late item goes straight to the undelivered table. */
  lemma RefusedBalances(s: State, item: Item, selection: Option<Target>)
    requires Balanced(s, selection)
    ensures Balanced(s.(offered := s.offered + [item],
                        undelivered := AddUndelivered(s.undelivered, item.target, item.bytes)), selection)
  {
    BytesAppend(s.offered, item, selection);
    AddUndeliveredAmount(s.undelivered, item.target, item.bytes, selection);
  }

  lemma RejectedBalances(s: State, item: Item, selection: Option<Target>)
    requires Balanced(s, selection)
    ensures Balanced(s.(offered := s.offered + [item], rejected := s.rejected + [item]), selection)
  {
    BytesAppend(s.offered, item, selection);
    BytesAppend(s.rejected, item, selection);
  }

  lemma AcceptedBalances(s: State, item: Item, selection: Option<Target>)
    requires Balanced(s, selection)
    ensures Balanced(s.(offered := s.offered + [item], accepted := s.accepted + [item],
                        queue := s.queue + [item], queuedBytes := s.queuedBytes + item.bytes), selection)
  {
    BytesAppend(s.offered, item, selection);
    BytesAppend(s.queue, item, selection);
  }

  lemma EnqueueBalances(s: State, item: Item, selection: Option<Target>)
    requires Balanced(s, selection)
    ensures Balanced(EnqueueStep(s, item), selection)
  {
    RefusedBalances(s, item, selection);
    RejectedBalances(s, item, selection);
    AcceptedBalances(s, item, selection);
  }

  lemma CloseEndBalances(s: State, alive: bool, selection: Option<Target>)
    requires Balanced(s, selection)
    ensures Balanced(CloseEndStep(s, alive), selection)
  {
    match s.active
    case Some(item) =>
      AddUndeliveredAmount(s.undelivered, item.target, item.bytes, selection);
      DiscardAmount(AddUndelivered(s.undelivered, item.target, item.bytes), s.queue, selection);
    case None =>
      DiscardAmount(s.undelivered, s.queue, selection);
  }

  lemma NextItemBalances(s: State, selection: Option<Target>)
    requires Balanced(s, selection) && s.active.None?
    ensures Balanced(NextItemStep(s), selection)
  {
    if !s.abandoned && s.queue != [] {
      var t := NextItemStep(s);
      assert Bytes(s.queue, selection) == ActiveBytes(t.active, selection) + Bytes(t.queue, selection);
    }
  }

  lemma FailureBalances(s: State, selection: Option<Target>)
    requires Balanced(s, selection) && s.worker.Returned? && !s.worker.ok
    requires !s.abandoned && s.active == Some(s.worker.item)
    ensures Balanced(FinishStep(s), selection)
  {
    BytesAppend(s.failed, s.worker.item, selection);
    DiscardAmount(s.undelivered, s.queue, selection);
  }

  lemma SuccessBalances(s: State, selection: Option<Target>)
    requires Balanced(s, selection) && s.worker.Returned? && s.worker.ok
    requires !s.abandoned && s.active == Some(s.worker.item)
    ensures Balanced(FinishStep(s), selection)
  {
    BytesAppend(s.confirmed, s.worker.item, selection);
  }

  lemma FinishBalances(s: State, selection: Option<Target>)
    requires Balanced(s, selection) && s.worker.Returned?
    requires if s.abandoned then s.active == None else s.active == Some(s.worker.item)
    ensures Balanced(FinishStep(s), selection)
  {
    if !s.abandoned {
      if s.worker.ok {
        SuccessBalances(s, selection);
      } else {
        FailureBalances(s, selection);
      }
    }
  }

  lemma StepConserves(s: State, e: Event)
    requires Inv(s) && Enabled(s, e)
    ensures Conserved(Step(s, e))
  {
    forall selection: Option<Target>
      ensures Balanced(Step(s, e), selection)
    {
      assert Balanced(s, selection);
      match e
      case Enqueue(item) => EnqueueBalances(s, item, selection);
      case CloseEnd(alive) => CloseEndBalances(s, alive, selection);
      case NextItem => NextItemBalances(s, selection);
      case Finish => FinishBalances(s, selection);
      case _ =>
    }
  }

  lemma EnqueueKeepsOrder(s: State, item: Item)
    requires Inv(s)
    ensures Ordered(EnqueueStep(s, item))
  {
    BytesAppend(s.queue, item, None);
    if !s.disabled && !s.closing {
      assert s.taken + (s.queue + [item]) == (s.taken + s.queue) + [item];
    }
  }

  lemma NextItemKeepsOrder(s: State)
    requires Inv(s) && Enabled(s, NextItem)
    ensures Ordered(NextItemStep(s))
  {
    if !s.abandoned && s.queue != [] {
      var item := s.queue[0];
      assert s.taken + s.queue == (s.taken + [item]) + s.queue[1..];
      assert s.confirmed + s.failed + InHand(s.active) == s.confirmed + s.failed;
    }
  }

  lemma FinishKeepsOrder(s: State)
    requires Inv(s) && Enabled(s, Finish)
    ensures Ordered(FinishStep(s))
  {
    if !s.abandoned {
      var item := s.worker.item;
      var t := FinishStep(s);
      assert s.failed == [];
      assert s.taken == s.confirmed + [item];
      assert t.confirmed + t.failed + InHand(t.active) == s.confirmed + [item];
    }
  }

  lemma StepKeepsOrder(s: State, e: Event)
    requires Inv(s) && Enabled(s, e)
    ensures Ordered(Step(s, e))
  {
    match e
    case Enqueue(item) => EnqueueKeepsOrder(s, item);
    case NextItem => NextItemKeepsOrder(s);
    case Finish => FinishKeepsOrder(s);
    case _ =>
  }

  lemma StepKeepsGrouping(s: State, e: Event)
    requires Inv(s) && Enabled(s, e)
    ensures Grouped(Step(s, e).undelivered)
  {
    match e
    case Enqueue(item) => AddUndeliveredGrouped(s.undelivered, item.target, item.bytes);
    case CloseEnd(_) =>
      match s.active {
        case Some(item) =>
          AddUndeliveredGrouped(s.undelivered, item.target, item.bytes);
          DiscardGrouped(AddUndelivered(s.undelivered, item.target, item.bytes), s.queue);
        case None =>
          DiscardGrouped(s.undelivered, s.queue);
      }
    case Finish => DiscardGrouped(s.undelivered, s.queue);
    case _ =>
  }

  lemma StepKeepsConsistency(s: State, e: Event)
    requires Inv(s) && Enabled(s, e)
    ensures Consistent(Step(s, e))
  {
  }

  lemma StepKeepsLastOne(s: State, e: Event)
    requires Inv(s) && Enabled(s, e)
    ensures LastOneFailed(Step(s, e))
  {
    if e.Finish? && !s.abandoned {
      assert s.taken == s.confirmed + s.failed + InHand(s.active);
    }
  }

  lemma StepKeeps(s: State, e: Event)
    requires Inv(s) && Enabled(s, e)
    ensures Inv(Step(s, e)) && Step(s, e).maxQueuedBytes == s.maxQueuedBytes
  {
    StepConserves(s, e);
    StepKeepsOrder(s, e);
    StepKeepsGrouping(s, e);
    StepKeepsConsistency(s, e);
    StepKeepsLastOne(s, e);
  }

  lemma StartHolds(maxQueuedBytes: nat)
    ensures Inv(Start(maxQueuedBytes))
  {
  }

  lemma {:induction false} RunKeeps(s: State, events: seq<Event>, t: State)
    requires Inv(s) && Leads(s, events, t)
    ensures Inv(t) && t.maxQueuedBytes == s.maxQueuedBytes
    decreases |events|
  {
    if events != [] {
      StepKeeps(s, events[0]);
      RunKeeps(Step(s, events[0]), events[1..], t);
    }
  }

  lemma Reached(maxQueuedBytes: nat, events: seq<Event>, s: State)
    requires Leads(Start(maxQueuedBytes), events, s)
    ensures Inv(s) && s.maxQueuedBytes == maxQueuedBytes
  {
    StartHolds(maxQueuedBytes);
    RunKeeps(Start(maxQueuedBytes), events, s);
  }

  // -------------------------------------------------------- what every run obeys

  /**
   Conservation, in every interleaving: target by target and in total, the offered
   bytes are the rejected, queued, active, confirmed, failed and undelivered ones.
   */
  lemma BytesAreConserved(maxQueuedBytes: nat, events: seq<Event>, s: State, selection: Option<Target>)
    requires Leads(Start(maxQueuedBytes), events, s)
    ensures Bytes(s.offered, selection)
         == Bytes(s.rejected, selection) + Bytes(s.queue, selection) + ActiveBytes(s.active, selection)
          + Bytes(s.confirmed, selection) + Bytes(s.failed, selection) + Amount(s.undelivered, selection)
  {
    Reached(maxQueuedBytes, events, s);
    assert Balanced(s, selection);
  }

  /**
   When `close` publishes, nothing is queued or active, so its result accounts for
   every byte offered so far; and there is one entry per target.
   */
  lemma CloseAccountsForEveryByte(maxQueuedBytes: nat, events: seq<Event>, s: State, alive: bool, selection: Option<Target>)
    requires Leads(Start(maxQueuedBytes), events, s) && Enabled(s, CloseEnd(alive))
    ensures
      var t := Step(s, CloseEnd(alive));
      && t.closeResult.Some? && t.queue == [] && t.active.None?
      && Bytes(t.offered, selection)
         == Bytes(t.rejected, selection) + Bytes(t.confirmed, selection) + Bytes(t.failed, selection)
          + Amount(t.closeResult.value.undelivered, selection)
      && t.closeResult.value.failures == t.failures && |t.failures| == |t.failed| <= 1
      // The one failure names the item handed to a sink last, and its target.
      && (t.failed != [] ==>
            && t.handed != [] && t.failed == [t.handed[|t.handed| - 1]]
            && t.closeResult.value.failures == [t.handed[|t.handed| - 1].target])
      && Grouped(t.closeResult.value.undelivered)
  {
    Reached(maxQueuedBytes, events, s);
    StepKeeps(s, CloseEnd(alive));
    assert Balanced(Step(s, CloseEnd(alive)), selection);
  }

  /**
   FIFO and the byte bound, in every interleaving: sinks are handed a prefix of the
   accepted items, in order, and the queue never holds more than the bound.
   */
  lemma DeliveryIsFifoAndBounded(maxQueuedBytes: nat, events: seq<Event>, s: State)
    requires Leads(Start(maxQueuedBytes), events, s)
    ensures s.handed <= s.accepted
    ensures s.queuedBytes == Bytes(s.queue, None) <= maxQueuedBytes
    ensures |s.failures| <= 1 && s.reports <= 1
    ensures s.closeResult.None? && !s.disabled ==> s.accepted == s.taken + s.queue
  {
    Reached(maxQueuedBytes, events, s);
  }

  /** What is over at `s` is still over at `t`, and nothing came of it between. */
  predicate StaysOver(s: State, t: State)
  {
    && (s.disabled || s.abandoned ==>
          (t.disabled || t.abandoned) && t.taken == s.taken && t.handed == s.handed && t.queue == [])
    && (s.closeResult.Some? ==> t.closeResult == s.closeResult && t.accepted == s.accepted)
    && (s.disabled ==> t.disabled && t.failures == s.failures)
  }

  lemma StepStaysOver(s: State, e: Event)
    requires Inv(s) && Enabled(s, e)
    ensures StaysOver(s, Step(s, e))
  {
  }

  lemma StaysOverOnward(s: State, u: State, t: State)
    requires StaysOver(s, u) && StaysOver(u, t)
    ensures StaysOver(s, t)
  {
  }

  lemma NothingNew(s: State)
    requires Inv(s)
    ensures StaysOver(s, s)
  {
  }

  /** A closed or failed worker takes nothing more, and a published result never changes. */
  lemma {:induction false} NothingAfterTheEnd(s: State, events: seq<Event>, t: State)
    requires Inv(s) && Leads(s, events, t)
    ensures StaysOver(s, t)
    decreases |events|
  {
    if events == [] {
      NothingNew(s);
    } else {
      var u := Step(s, events[0]);
      StepKeeps(s, events[0]);
      StepStaysOver(s, events[0]);
      NothingAfterTheEnd(u, events[1..], t);
      StaysOverOnward(s, u, t);
    }
  }

  lemma StoppedCleanly(s: State)
    requires Inv(s) && Enabled(s, CloseEnd(false)) && !s.disabled
    ensures s.accepted == s.handed == s.confirmed
    ensures GivenUp(s) == s.undelivered
  {
    assert !s.abandoned && s.active.None? && s.queue == [] && s.failed == [];
    assert s.taken + s.queue == s.taken;
    assert s.confirmed + s.failed + InHand(s.active) == s.confirmed;
  }

  /** A close that found its worker stopped and unfailed delivered every accepted item, in order. */
  lemma CleanCloseDeliversEverything(maxQueuedBytes: nat, events: seq<Event>, s: State)
    requires Leads(Start(maxQueuedBytes), events, s) && Enabled(s, CloseEnd(false)) && !s.disabled
    ensures s.accepted == s.handed == s.confirmed
    ensures Step(s, CloseEnd(false)).closeResult == Some(CloseResult([], s.undelivered))
  {
    Reached(maxQueuedBytes, events, s);
    StoppedCleanly(s);
  }

  /**
   What becomes of an offered item in any reachable state: refused once the worker
   closes or fails, rejected exactly when it would overflow the bound, else queued last.
   */
  lemma OfferIsDecidedByFit(maxQueuedBytes: nat, events: seq<Event>, s: State, item: Item)
    requires Leads(Start(maxQueuedBytes), events, s)
    ensures
      var t := Step(s, Enqueue(item));
      var empty := item.bytes == 0 && !item.hasValue;
      var stopped := s.disabled || s.closing;
      var fits := Bytes(s.queue, None) + item.bytes <= maxQueuedBytes;
      && (empty ==> t == s)
      && t.accepted == (if empty || stopped || !fits then s.accepted else s.accepted + [item])
      && t.queue == (if empty || stopped || !fits then s.queue else s.queue + [item])
      && t.rejected == (if empty || stopped || fits then s.rejected else s.rejected + [item])
      && t.undelivered == (if !empty && stopped then AddUndelivered(s.undelivered, item.target, item.bytes)
                           else s.undelivered)
  {
    Reached(maxQueuedBytes, events, s);
  }

  // -------------------------------------------------------- a closing worker's end

  /** The worker thread's steps, and the return of a write it waits for. */
  predicate OfWorker(e: Event)
  {
    e.NextItem? || e.CheckAbandoned? || e.SinkReturns? || e.Finish?
  }

  function WorkerSteps(events: seq<Event>): nat
  {
    if events == [] then 0 else (if OfWorker(events[0]) then 1 else 0) + WorkerSteps(events[1..])
  }

  /** How far a closing worker still has to go: four steps for each queued item, and those of the one at hand. */
  function WorkLeft(s: State): nat
  {
    4 * |s.queue| + (
      match s.worker
      case AtNext => 1
      case Holding(_) => 4
      case Writing(_) => 3
      case Returned(_, _) => 2
      case Exited => 0)
  }

  lemma WorkShrinks(s: State, e: Event)
    requires Enabled(s, e) && s.closing
    ensures Step(s, e).closing
    ensures WorkLeft(Step(s, e)) + (if OfWorker(e) then 1 else 0) <= WorkLeft(s)
  {
  }

  lemma {:induction false} RunShrinksWork(s: State, events: seq<Event>, t: State)
    requires s.closing && Leads(s, events, t)
    ensures t.closing && WorkerSteps(events) + WorkLeft(t) <= WorkLeft(s)
    decreases |events|
  {
    if events != [] {
      WorkShrinks(s, events[0]);
      RunShrinksWork(Step(s, events[0]), events[1..], t);
    }
  }

  lemma ClosingWorkerCanGoOn(t: State)
    requires Inv(t) && t.closing
    ensures t.worker != Exited ==>
      || Enabled(t, NextItem) || Enabled(t, CheckAbandoned) || Enabled(t, Finish)
      || (Enabled(t, SinkReturns(true)) && Enabled(t, SinkReturns(false)))
    ensures t.worker == Exited ==> t.queue == []
  {
  }

  /**
   Once a close has begun the worker has a bounded number of steps left, whatever else is
   offered or closed meanwhile, and until it has left it has one to take; the only wait is
   for a write to return. When it has left, nothing is queued.
   */
  lemma ClosingWorkerFinishes(maxQueuedBytes: nat, before: seq<Event>, s: State, events: seq<Event>, t: State)
    requires Leads(Start(maxQueuedBytes), before, s) && s.closing && Leads(s, events, t)
    ensures WorkerSteps(events) <= 4 * |s.queue| + 4
    ensures t.worker != Exited ==>
      || Enabled(t, NextItem) || Enabled(t, CheckAbandoned) || Enabled(t, Finish)
      || (Enabled(t, SinkReturns(true)) && Enabled(t, SinkReturns(false)))
    ensures t.worker == Exited ==> t.queue == []
  {
    Reached(maxQueuedBytes, before, s);
    RunShrinksWork(s, events, t);
    RunKeeps(s, events, t);
    ClosingWorkerCanGoOn(t);
  }

  /** The worker's next step, when writes succeed. */
  function NextOwn(s: State): Event
  {
    match s.worker
    case Holding(_) => CheckAbandoned
    case Writing(_) => SinkReturns(true)
    case Returned(_, _) => Finish
    case _ => NextItem
  }

  /** Still delivering: nothing failed, was given up, or is about to. */
  predicate Sound(s: State)
  {
    s.closing && !s.abandoned && !s.disabled && s.closeResult.None? && (s.worker.Returned? ==> s.worker.ok)
  }

  lemma OwnStepIsSound(s: State)
    requires Sound(s) && s.worker != Exited
    ensures Enabled(s, NextOwn(s)) && OfWorker(NextOwn(s))
    ensures Sound(Step(s, NextOwn(s))) && Step(s, NextOwn(s)).accepted == s.accepted
    ensures Step(s, NextOwn(s)).undelivered == s.undelivered
  {
  }

  lemma {:induction false} DrainFrom(s: State) returns (events: seq<Event>, t: State)
    requires Inv(s) && Sound(s)
    ensures Leads(s, events, t) && |events| == WorkerSteps(events)
    ensures Inv(t) && Sound(t) && t.worker == Exited && t.accepted == s.accepted && t.undelivered == s.undelivered
    decreases WorkLeft(s)
  {
    if s.worker == Exited {
      events, t := [], s;
    } else {
      var e := NextOwn(s);
      OwnStepIsSound(s);
      WorkShrinks(s, e);
      StepKeeps(s, e);
      var rest;
      rest, t := DrainFrom(Step(s, e));
      events := [e] + rest;
      assert events[1..] == rest;
    }
  }

  lemma DrainedIs(t: State)
    requires Inv(t) && Sound(t) && t.worker == Exited
    ensures t.queue == [] && t.accepted == t.handed == t.confirmed
    ensures t.active == None && t.failures == [] && t.closer == Joining
  {
    assert t.taken + t.queue == t.taken;
    assert t.failed == [] && t.confirmed + t.failed + InHand(t.active) == t.confirmed;
  }

  /**
   From every reachable state of a closing worker that has not failed or been abandoned,
   writes that succeed bring it to its end, with every accepted item delivered in order.
   */
  lemma ClosingDeliversTheQueue(maxQueuedBytes: nat, before: seq<Event>, s: State) returns (events: seq<Event>, t: State)
    requires Leads(Start(maxQueuedBytes), before, s) && Sound(s)
    ensures Leads(s, events, t) && |events| == WorkerSteps(events) <= 4 * |s.queue| + 4
    ensures t.worker == Exited && t.queue == [] && t.accepted == t.handed == t.confirmed == s.accepted
  {
    Reached(maxQueuedBytes, before, s);
    events, t := DrainFrom(s);
    RunShrinksWork(s, events, t);
    DrainedIs(t);
  }

  lemma {:induction false} LeadsOn(s: State, first: seq<Event>, m: State, e: Event)
    requires Leads(s, first, m) && Enabled(m, e)
    ensures Leads(s, first + [e], Step(m, e))
    decreases |first|
  {
    if first == [] {
      assert first + [e] == [e] && [e][1..] == [];
    } else {
      LeadsOn(Step(s, first[0]), first[1..], m, e);
      assert (first + [e])[0] == first[0] && (first + [e])[1..] == first[1..] + [e];
    }
  }

  lemma FirstThenLeads(s: State, e: Event, events: seq<Event>, t: State)
    requires Enabled(s, e) && Leads(Step(s, e), events, t)
    ensures Leads(s, [e] + events, t)
  {
    assert ([e] + events)[1..] == events;
  }

  /**
   From every reachable state at most two steps of the closer alone publish a result, even past a
   worker that never stops.
   */
  lemma CloseAlwaysPublishes(maxQueuedBytes: nat, before: seq<Event>, s: State) returns (events: seq<Event>, t: State)
    requires Leads(Start(maxQueuedBytes), before, s)
    ensures Leads(s, events, t) && |events| <= 2 && t.closeResult.Some?
    ensures forall i :: 0 <= i < |events| ==> events[i] == CloseBegin || events[i] == CloseEnd(true)
  {
    Reached(maxQueuedBytes, before, s);
    if s.closeResult.Some? {
      events, t := [], s;
    } else if s.closer == Joining {
      t := Step(s, CloseEnd(true));
      FirstThenLeads(s, CloseEnd(true), [], t);
      events := [CloseEnd(true)] + [];
    } else {
      var m := Step(s, CloseBegin);
      t := Step(m, CloseEnd(true));
      FirstThenLeads(m, CloseEnd(true), [], t);
      FirstThenLeads(s, CloseBegin, [CloseEnd(true)], t);
      events := [CloseBegin] + [CloseEnd(true)];
    }
  }

  /**
   From every reachable state that is still open and in which no write has failed, a close
   whose writes succeed delivers every item accepted so far, in order, and its result
   reports no failure and nothing more undelivered.
   */
  lemma CleanCloseIsReached(maxQueuedBytes: nat, before: seq<Event>, s: State) returns (events: seq<Event>, t: State)
    requires Leads(Start(maxQueuedBytes), before, s) && !s.closing && !s.disabled
    requires s.worker.Returned? ==> s.worker.ok
    ensures Leads(s, events, t) && t.accepted == t.handed == t.confirmed == s.accepted
    ensures t.closeResult == Some(CloseResult([], s.undelivered))
  {
    Reached(maxQueuedBytes, before, s);
    var m := Step(s, CloseBegin);
    StepKeeps(s, CloseBegin);
    var drained, u := DrainFrom(m);
    DrainedIs(u);
    FirstThenLeads(s, CloseBegin, drained, u);
    LeadsOn(s, [CloseBegin] + drained, u, CloseEnd(false));
    events, t := [CloseBegin] + drained + [CloseEnd(false)], Step(u, CloseEnd(false));
  }
}
