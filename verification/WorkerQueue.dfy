/**
 The work queue of one daemon worker (daemon/worker.c): a singly linked list
 of heap items with a length counter, refining a sequence of messages.
 */
module WorkerQueue {

  // The message classes above this one are dispatched; the rest are dropped.
  const TYPE_FIRST := 100

  datatype Message = Message(id: int, kind: int)

  class QueueItem {
    const message: Message
    var next: QueueItem?

    constructor (message: Message)
      ensures this.message == message && next == null
    {
      this.message := message;
      next := null;
    }
  }

  /** The item at position i of a spine; the null pointer just past its end. */
  ghost function At(spine: seq<QueueItem>, i: nat): QueueItem? {
    if i < |spine| then spine[i] else null
  }

  class Worker {
    var queueHead: QueueItem?
    var queueLength: int
    ghost var spine: seq<QueueItem>

    ghost predicate Valid()
      reads this, spine
    {
      && queueLength == |spine|
      && queueHead == At(spine, 0)
      && (forall i, j :: 0 <= i < j < |spine| ==> spine[i] != spine[j])
      && (forall i :: 0 <= i < |spine| ==> spine[i].next == At(spine, i + 1))
    }

    ghost function Contents(): seq<Message>
      reads this
    {
      seq(|spine|, i requires 0 <= i < |spine| reads this => spine[i].message)
    }

    constructor ()
      ensures Valid() && spine == []
    {
      queueHead, queueLength, spine := null, 0, [];
    }

    /** The part of WorkerEnqueue between lock and unlock: walk to the tail and link a new item. */
    method Append(message: Message)
      requires Valid()
      modifies this, spine
      ensures Valid()
      ensures Contents() == old(Contents()) + [message] && queueLength == old(queueLength) + 1
      ensures old(spine) <= spine && fresh(spine[|spine| - 1])
    {
      var work := new QueueItem(message);
      if queueHead == null {
        queueHead := work;
      } else {
        var q := queueHead;
        ghost var at := 0;
        while q.next != null
          invariant 0 <= at < |spine| && q == spine[at]
          decreases |spine| - at
        {
          q := q.next;
          at := at + 1;
        }
        q.next := work;
      }
      queueLength := queueLength + 1;
      spine := spine + [work];
    }

    /** WorkerDequeue: unlink the head; EINVAL (false) on an empty queue. */
    method Dequeue() returns (dropped: bool)
      requires Valid()
      modifies this
      ensures Valid()
      ensures dropped <==> old(spine) != []
      ensures spine == if dropped then old(spine)[1..] else old(spine)
      ensures Contents() == if dropped then old(Contents())[1..] else old(Contents())
      ensures queueLength == old(queueLength) - if dropped then 1 else 0
    {
      if queueHead == null {
        return false;
      }
      if queueHead.next != null {
        queueHead := queueHead.next;
      } else {
        queueHead := null;
      }
      queueLength := queueLength - 1;
      spine := spine[1..];
      return true;
    }
  }
}
