/**
 The worker thread and the single producer of daemon/worker.c, one step per
 atomic action, over any interleaving. The mutex is explicit; a condition
 wait may return at any time (spurious wakeup), and a signal reaches a
 worker only while it is blocked.
 */
module WorkerProtocol {
  import opened WorkerQueue

  // One allocated work item; `serial` is its identity on the heap.
  datatype Item = Item(serial: nat, message: Message)

  datatype Owner = Nobody | ByWorker | ByProducer

  datatype WorkerPc =
    | Starting                  // about to lock the queue
    | Testing                   // holds the lock, at the top of the loop
    | Executing(item: Item)     // unlocked, dispatching the head
    | Relocking(item: Item)     // dispatch done, about to lock
    | Dropping(item: Item)      // holds the lock, about to dequeue
    | Blocked                   // inside the condition wait
    | Woken                     // released from the wait, about to re-lock
    | Exited                    // the wait reported an error

  datatype ProducerPc =
    | Idle
    | Locking(item: Item)       // item allocated, about to lock
    | Appending(item: Item)     // holds the lock, about to link the item
    | Appended                  // holds the lock, item linked
    | TestingLength             // unlocked, about to read queue_length
    | Signalling                // read a length of one, about to signal

  datatype State = State(
    owner: Owner,
    worker: WorkerPc,
    producer: ProducerPc,
    queue: seq<Item>,
    length: int,
    serial: nat,
    enqueued: seq<Item>,
    completed: seq<Item>,
    dispatched: seq<Item>)

  datatype Step =
    | Receive(message: Message)
    | ProducerLock
    | Append
    | ProducerUnlock
    | TestLength
    | Signal
    | WorkerLock
    | Test
    | WaitFails
    | Finish
    | Relock
    | Drop
    | SpuriousWakeup

  const INIT: State := State(Nobody, Starting, Idle, [], 0, 0, [], [], [])

  predicate Enabled(s: State, step: Step) {
    match step
    case Receive(_) => s.producer.Idle?
    case ProducerLock => s.producer.Locking? && s.owner.Nobody?
    case Append => s.producer.Appending?
    case ProducerUnlock => s.producer.Appended?
    case TestLength => s.producer.TestingLength?
    case Signal => s.producer.Signalling?
    case WorkerLock => (s.worker.Starting? || s.worker.Woken?) && s.owner.Nobody?
    case Test => s.worker.Testing?
    case WaitFails => s.worker.Testing? && s.queue == []
    case Finish => s.worker.Executing?
    case Relock => s.worker.Relocking? && s.owner.Nobody?
    case Drop => s.worker.Dropping? && s.queue != []
    case SpuriousWakeup => s.worker.Blocked?
  }

  function Apply(s: State, step: Step): State
    requires Enabled(s, step)
  {
    match step
    case Receive(m) =>
      s.(producer := Locking(Item(s.serial, m)), serial := s.serial + 1)
    case ProducerLock =>
      s.(producer := Appending(s.producer.item), owner := ByProducer)
    case Append =>
      s.(producer := Appended, queue := s.queue + [s.producer.item], length := s.length + 1,
         enqueued := s.enqueued + [s.producer.item])
    case ProducerUnlock =>
      s.(producer := TestingLength, owner := Nobody)
    case TestLength =>
      s.(producer := if s.length == 1 then Signalling else Idle)
    case Signal =>
      s.(producer := Idle, worker := if s.worker.Blocked? then Woken else s.worker)
    case WorkerLock =>
      s.(worker := Testing, owner := ByWorker)
    case Test =>
      s.(worker := if s.queue == [] then Blocked else Executing(s.queue[0]), owner := Nobody)
    case WaitFails =>
      s.(worker := Exited, owner := Nobody)
    case Finish =>
      s.(worker := Relocking(s.worker.item),
         dispatched := if s.worker.item.message.kind > TYPE_FIRST
                       then s.dispatched + [s.worker.item] else s.dispatched)
    case Relock =>
      s.(worker := Dropping(s.worker.item), owner := ByWorker)
    case Drop =>
      s.(worker := Testing, queue := s.queue[1..], length := s.length - 1,
         completed := s.completed + [s.queue[0]])
    case SpuriousWakeup =>
      s.(worker := Woken)
  }

  ghost predicate Runs(s: State, steps: seq<Step>, t: State)
    decreases |steps|
  {
    if steps == [] then s == t
    else Enabled(s, steps[0]) && Runs(Apply(s, steps[0]), steps[1..], t)
  }

  /** The items whose messages are of a dispatchable class, in order. */
  function Dispatchable(items: seq<Item>): seq<Item> {
    if items == [] then []
    else Dispatchable(items[..|items| - 1]) +
         if items[|items| - 1].message.kind > TYPE_FIRST then [items[|items| - 1]] else []
  }

  ghost predicate ProducerEnqueueing(s: State) {
    s.producer.Appended? || s.producer.TestingLength? || s.producer.Signalling?
  }

  ghost predicate OwnerMatches(s: State) {
    && (s.owner.ByWorker? <==> s.worker.Testing? || s.worker.Dropping?)
    && (s.owner.ByProducer? <==> s.producer.Appending? || s.producer.Appended?)
  }

  ghost predicate SerialsFresh(s: State) {
    && (forall i :: 0 <= i < |s.enqueued| ==> s.enqueued[i].serial < s.serial)
    && (forall i, j :: 0 <= i < j < |s.enqueued| ==> s.enqueued[i].serial < s.enqueued[j].serial)
    && (s.producer.Locking? || s.producer.Appending? ==>
          && s.producer.item.serial < s.serial
          && forall i :: 0 <= i < |s.enqueued| ==> s.enqueued[i].serial < s.producer.item.serial)
  }

  ghost predicate HeadInHand(s: State) {
    s.worker.Executing? || s.worker.Relocking? || s.worker.Dropping? ==>
      s.queue != [] && s.queue[0] == s.worker.item
  }

  ghost predicate DispatchLogged(s: State) {
    s.dispatched ==
      Dispatchable(if s.worker.Relocking? || s.worker.Dropping?
                   then s.completed + [s.worker.item] else s.completed)
  }

  ghost predicate NoLostSignal(s: State) {
    s.worker.Blocked? && s.queue != [] ==> ProducerEnqueueing(s) && s.length == 1
  }

  ghost predicate Inv(s: State) {
    && OwnerMatches(s)
    && s.length == |s.queue|
    && s.completed + s.queue == s.enqueued
    && SerialsFresh(s)
    && HeadInHand(s)
    && DispatchLogged(s)
    && NoLostSignal(s)
  }

  lemma DispatchableAppend(items: seq<Item>, item: Item)
    ensures Dispatchable(items + [item]) ==
            Dispatchable(items) + if item.message.kind > TYPE_FIRST then [item] else []
  {
    assert (items + [item])[..|items|] == items;
  }

  lemma ReceiveKeepsInv(s: State, step: Step)
    requires Inv(s) && Enabled(s, step) && step.Receive?
    ensures Inv(Apply(s, step))
  {
    hide Dispatchable;
  }

  lemma AppendKeepsInv(s: State)
    requires Inv(s) && Enabled(s, Append)
    ensures Inv(Apply(s, Append))
  {
    hide Dispatchable;
    assert s.completed + (s.queue + [s.producer.item]) == (s.completed + s.queue) + [s.producer.item];
  }

  // The steps of the producer that touch neither the queue nor the counter.
  lemma ProducerKeepsInv(s: State, step: Step)
    requires Inv(s) && Enabled(s, step)
    requires step.ProducerLock? || step.ProducerUnlock? || step.TestLength? || step.Signal?
    ensures Inv(Apply(s, step))
  {
    hide Dispatchable;
  }

  lemma FinishKeepsInv(s: State)
    requires Inv(s) && Enabled(s, Finish)
    ensures Inv(Apply(s, Finish))
  {
    hide Dispatchable, SerialsFresh, NoLostSignal;
    DispatchableAppend(s.completed, s.worker.item);
    assert s.dispatched + [] == s.dispatched;
    FinishKeepsRest(s);
  }

  lemma FinishKeepsRest(s: State)
    requires Enabled(s, Finish)
    ensures SerialsFresh(s) ==> SerialsFresh(Apply(s, Finish))
    ensures NoLostSignal(s) ==> NoLostSignal(Apply(s, Finish))
  {
  }

  lemma DropKeepsInv(s: State)
    requires Inv(s) && Enabled(s, Drop)
    ensures Inv(Apply(s, Drop))
  {
    hide Dispatchable;
    assert s.completed + s.queue == (s.completed + [s.queue[0]]) + s.queue[1..];
  }

  // The other steps of the worker.
  lemma WorkerKeepsInv(s: State, step: Step)
    requires Inv(s) && Enabled(s, step)
    requires step.WorkerLock? || step.Test? || step.WaitFails? || step.Relock? || step.SpuriousWakeup?
    ensures Inv(Apply(s, step))
  {
    hide Dispatchable;
  }

  lemma StepKeepsInv(s: State, step: Step)
    requires Inv(s) && Enabled(s, step)
    ensures Inv(Apply(s, step))
  {
    hide Inv, Apply;
    match step
    case Receive(_) => ReceiveKeepsInv(s, step);
    case Append => AppendKeepsInv(s);
    case ProducerLock => ProducerKeepsInv(s, step);
    case ProducerUnlock => ProducerKeepsInv(s, step);
    case TestLength => ProducerKeepsInv(s, step);
    case Signal => ProducerKeepsInv(s, step);
    case Finish => FinishKeepsInv(s);
    case Drop => DropKeepsInv(s);
    case WorkerLock => WorkerKeepsInv(s, step);
    case Test => WorkerKeepsInv(s, step);
    case WaitFails => WorkerKeepsInv(s, step);
    case Relock => WorkerKeepsInv(s, step);
    case SpuriousWakeup => WorkerKeepsInv(s, step);
  }

  lemma {:induction false} RunsKeepInv(s: State, steps: seq<Step>, t: State)
    requires Inv(s) && Runs(s, steps, t)
    ensures Inv(t)
    decreases |steps|
  {
    if steps != [] {
      StepKeepsInv(s, steps[0]);
      RunsKeepInv(Apply(s, steps[0]), steps[1..], t);
    }
  }

  /** Over every run nothing is lost, duplicated or reordered, and exactly the dispatchable
      items among the finished ones have been dispatched. */
  lemma Conservation(steps: seq<Step>, t: State)
    requires Runs(INIT, steps, t)
    ensures t.completed + t.queue == t.enqueued
    ensures forall i, j :: 0 <= i < j < |t.enqueued| ==> t.enqueued[i] != t.enqueued[j]
    ensures t.length == |t.queue|
    ensures t.worker.Executing? || t.worker.Relocking? || t.worker.Dropping? ==>
              t.queue != [] && t.queue[0] == t.worker.item
    ensures t.dispatched == Dispatchable(if t.worker.Relocking? || t.worker.Dropping?
                                         then t.completed + [t.worker.item] else t.completed)
  {
    RunsKeepInv(INIT, steps, t);
  }

  /** A worker asleep on a non-empty queue always has its signal still to come. */
  lemma NoLostWakeup(steps: seq<Step>, t: State)
    requires Runs(INIT, steps, t)
    requires t.worker.Blocked? && t.queue != []
    ensures t.length == |t.queue| == 1
    ensures t.producer.Appended? || t.producer.TestingLength? || t.producer.Signalling?
  {
    RunsKeepInv(INIT, steps, t);
  }

  /** The producer signals if and only if it finds a single message in the queue. */
  lemma SignalledIffSingle(steps: seq<Step>, s: State)
    requires Runs(INIT, steps, s) && s.producer.TestingLength?
    ensures Apply(s, TestLength).producer.Signalling? <==> |s.queue| == 1
  {
    RunsKeepInv(INIT, steps, s);
  }

  /** A worker whose wait reports an error is gone for good and leaves the lock free: whatever comes later is
      enqueued, and nothing is dispatched or taken off the queue. */
  lemma FailedWaitEndsWorker(s: State, steps: seq<Step>, t: State)
    requires Enabled(s, WaitFails) && Runs(Apply(s, WaitFails), steps, t)
    ensures Apply(s, WaitFails).owner.Nobody?
    ensures t.worker.Exited? && !t.owner.ByWorker?
    ensures s.queue <= t.queue && t.completed == s.completed && t.dispatched == s.dispatched
  {
    ExitedForGood(Apply(s, WaitFails), steps, t);
  }

  lemma {:induction false} ExitedForGood(s: State, steps: seq<Step>, t: State)
    requires s.worker.Exited? && !s.owner.ByWorker? && Runs(s, steps, t)
    ensures t.worker.Exited? && !t.owner.ByWorker?
    ensures s.queue <= t.queue && t.completed == s.completed && t.dispatched == s.dispatched
    decreases |steps|
  {
    if steps != [] {
      ExitedForGood(Apply(s, steps[0]), steps[1..], t);
    }
  }

  /** The work left before the queue is empty, counted in steps. */
  function Rank(s: State): nat {
    12 * |s.queue|
    + (match s.worker
       case Blocked => 6
       case Woken => 5
       case Starting => 5
       case Testing => 4
       case Executing(_) => 3
       case Relocking(_) => 2
       case Dropping(_) => 1
       case Exited => 0)
    + (match s.producer
       case Locking(_) => 17
       case Appending(_) => 16
       case Appended => 3
       case TestingLength => 2
       case Signalling => 1
       case Idle => 0)
  }

  /** While work is queued, every step that is not a new arrival makes progress. */
  lemma StepLowersRank(s: State, step: Step)
    requires Inv(s) && Enabled(s, step) && s.queue != [] && !step.Receive?
    ensures Rank(Apply(s, step)) < Rank(s)
  {
  }

  /** While work is queued and the worker lives, some step other than a new arrival
      or a spurious wakeup can be taken: no deadlock and no lost wakeup. */
  lemma WorkIsNeverStuck(s: State) returns (step: Step)
    requires Inv(s) && s.queue != [] && !s.worker.Exited?
    ensures Enabled(s, step) && !step.Receive? && !step.SpuriousWakeup? && !step.WaitFails?
  {
    match s.producer {
      case Appending(_) => step := Append;
      case Appended => step := ProducerUnlock;
      case TestingLength => step := TestLength;
      case Signalling => step := Signal;
      case _ =>
        match s.worker {
          case Starting => step := WorkerLock;
          case Woken => step := WorkerLock;
          case Testing => step := Test;
          case Executing(_) => step := Finish;
          case Relocking(_) => step := Relock;
          case Dropping(_) => step := Drop;
        }
    }
  }

  ghost predicate BusyWithoutArrivals(s: State, steps: seq<Step>)
    decreases |steps|
  {
    steps == [] ||
    (Enabled(s, steps[0]) && s.queue != [] && !steps[0].Receive?
     && BusyWithoutArrivals(Apply(s, steps[0]), steps[1..]))
  }

  lemma {:induction false} BusyRunIsBounded(s: State, steps: seq<Step>)
    requires Inv(s) && BusyWithoutArrivals(s, steps)
    ensures |steps| <= Rank(s)
    decreases |steps|
  {
    if steps != [] {
      StepLowersRank(s, steps[0]);
      StepKeepsInv(s, steps[0]);
      BusyRunIsBounded(Apply(s, steps[0]), steps[1..]);
    }
  }

  /** From any reachable state the queue drains: a run without new arrivals during which the
      queue is never seen empty is no longer than the rank of its first state, and until then
      a live worker or its producer always has a step to take. */
  lemma QueueDrains(history: seq<Step>, s: State, steps: seq<Step>)
    requires Runs(INIT, history, s) && BusyWithoutArrivals(s, steps)
    ensures |steps| <= Rank(s)
    ensures s.queue != [] && !s.worker.Exited? ==>
              exists step :: Enabled(s, step) && !step.Receive? && !step.SpuriousWakeup?
  {
    RunsKeepInv(INIT, history, s);
    BusyRunIsBounded(s, steps);
    if s.queue != [] && !s.worker.Exited? {
      var step := WorkIsNeverStuck(s);
    }
  }
}
