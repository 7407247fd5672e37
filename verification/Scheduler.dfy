/** ScheduleLeastBusy (daemon/scheduler.c): the scan that picks the worker for a message. */
module Scheduler {

  // Scan bound that every candidate's queue length must be below.
  const LONGEST_QUEUE := 10000

  ghost predicate Balanced(alive: seq<bool>, lengths: seq<int>)
    requires |alive| == |lengths|
  {
    forall i, j :: 0 <= i < |alive| && 0 <= j < |alive| && alive[i] && alive[j] ==> lengths[i] <= lengths[j] + 1
  }

  /** The chosen worker: the first live one among those with the shortest queue. */
  ghost predicate IsFirstLeastBusy(alive: seq<bool>, lengths: seq<int>, chosen: int)
    requires |alive| == |lengths|
  {
    && 0 <= chosen < |alive| && alive[chosen]
    && (forall i :: 0 <= i < |alive| && alive[i] ==> lengths[chosen] <= lengths[i])
    && (forall i :: 0 <= i < chosen && alive[i] ==> lengths[chosen] < lengths[i])
  }

  /** One message: scan for the least busy live worker, stop at the first idle one, enqueue there. */
  method ScheduleLeastBusy(alive: array<bool>, lengths: array<int>) returns (chosen: int)
    requires alive.Length == lengths.Length
    requires forall i :: 0 <= i < lengths.Length ==> lengths[i] >= 0
    requires exists i :: 0 <= i < alive.Length && alive[i] && lengths[i] < LONGEST_QUEUE
    modifies lengths
    ensures IsFirstLeastBusy(alive[..], old(lengths[..]), chosen)
    ensures lengths[..] == old(lengths[..])[chosen := old(lengths[chosen]) + 1]
  {
    var shortestQueue := LONGEST_QUEUE;
    chosen := -1;
    for i := 0 to alive.Length
      invariant lengths[..] == old(lengths[..])
      invariant shortestQueue > 0
      invariant forall k :: 0 <= k < i && alive[k] ==> shortestQueue <= lengths[k]
      invariant if chosen == -1 then shortestQueue == LONGEST_QUEUE
                else 0 <= chosen < i && alive[chosen] && lengths[chosen] == shortestQueue
      invariant forall k :: 0 <= k < chosen && alive[k] ==> shortestQueue < lengths[k]
    {
      if alive[i] {
        if lengths[i] == 0 {
          lengths[i] := 1;
          return i;
        } else if lengths[i] < shortestQueue {
          shortestQueue := lengths[i];
          chosen := i;
        }
      }
    }
    lengths[chosen] := lengths[chosen] + 1;
  }

  /** Any number of enqueues with no completion in between, each to a least busy live worker. */
  ghost predicate Schedules(alive: seq<bool>, before: seq<int>, picks: seq<int>, after: seq<int>)
    requires |alive| == |before| == |after|
    decreases |picks|
  {
    if picks == [] then after == before
    else
      IsFirstLeastBusy(alive, before, picks[0])
      && Schedules(alive, before[picks[0] := before[picks[0]] + 1], picks[1..], after)
  }

  /** Scheduling keeps the live queues within one message of each other. */
  lemma {:induction false} SchedulingKeepsBalance(alive: seq<bool>, before: seq<int>, picks: seq<int>, after: seq<int>)
    requires |alive| == |before| == |after|
    requires Balanced(alive, before) && Schedules(alive, before, picks, after)
    ensures Balanced(alive, after)
    decreases |picks|
  {
    if picks != [] {
      var next := before[picks[0] := before[picks[0]] + 1];
      assert Balanced(alive, next);
      SchedulingKeepsBalance(alive, next, picks[1..], after);
    }
  }
}
