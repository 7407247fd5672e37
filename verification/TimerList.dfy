/**
 The pending-callback list of lib/callback.c: a doubly linked list kept in
 order of time, refining a sequence of timers.
 */
module TimerList {
  import opened Wrappers
  import opened Timespecs

  const EINVAL := 22

  datatype Timer = Timer(id: int, when: Time)

  /** Where a timer goes: after everything that is not strictly later. */
  function Insert(timers: seq<Timer>, t: Timer): seq<Timer> {
    if timers == [] then [t]
    else if t.when.Earlier(timers[0].when) then [t] + timers
    else [timers[0]] + Insert(timers[1..], t)
  }

  /** The list without the first timer of that id. */
  function Remove(timers: seq<Timer>, id: int): seq<Timer> {
    if timers == [] then []
    else if timers[0].id == id then timers[1..]
    else [timers[0]] + Remove(timers[1..], id)
  }

  ghost predicate Listed(timers: seq<Timer>, id: int) {
    exists i :: 0 <= i < |timers| && timers[i].id == id
  }

  ghost predicate InTimeOrder(timers: seq<Timer>) {
    forall i, j :: 0 <= i < j < |timers| ==> !timers[j].when.Earlier(timers[i].when)
  }

  ghost predicate UniqueIds(timers: seq<Timer>) {
    forall i, j :: 0 <= i < j < |timers| ==> timers[i].id != timers[j].id
  }

  /** What every locked section keeps: time order, distinct ids, all issued by the counter. */
  ghost predicate Ordered(timers: seq<Timer>, uid: int) {
    && InTimeOrder(timers)
    && UniqueIds(timers)
    && forall i :: 0 <= i < |timers| ==> timers[i].id <= uid
  }

  /** Insertion cuts the list after the last timer that is not strictly later. */
  lemma {:induction false} InsertAt(timers: seq<Timer>, t: Timer, k: nat)
    requires k <= |timers|
    requires forall i :: 0 <= i < k ==> !t.when.Earlier(timers[i].when)
    requires k < |timers| ==> t.when.Earlier(timers[k].when)
    ensures Insert(timers, t) == timers[..k] + [t] + timers[k..]
    decreases k
  {
    if k > 0 {
      InsertAt(timers[1..], t, k - 1);
      assert timers[..k] == [timers[0]] + timers[1..][..k - 1];
      assert timers[k..] == timers[1..][k - 1..];
    }
  }

  /** The cut that insertion makes, in an ordered list: everything before is no later than the
      new timer, everything after is strictly later, so equal times stay in arrival order. */
  lemma {:induction false} InsertCut(timers: seq<Timer>, t: Timer) returns (k: nat)
    requires InTimeOrder(timers)
    ensures k <= |timers| && Insert(timers, t) == timers[..k] + [t] + timers[k..]
    ensures forall i :: 0 <= i < k ==> !t.when.Earlier(timers[i].when)
    ensures forall i :: k <= i < |timers| ==> t.when.Earlier(timers[i].when)
    ensures InTimeOrder(Insert(timers, t))
  {
    k := 0;
    while k < |timers| && !t.when.Earlier(timers[k].when)
      invariant 0 <= k <= |timers|
      invariant forall i :: 0 <= i < k ==> !t.when.Earlier(timers[i].when)
    {
      k := k + 1;
    }
    InsertAt(timers, t, k);
  }

  lemma {:induction false} RemoveAt(timers: seq<Timer>, id: int, k: nat)
    requires k < |timers| && timers[k].id == id
    requires forall i :: 0 <= i < k ==> timers[i].id != id
    ensures Remove(timers, id) == timers[..k] + timers[k + 1..]
    decreases k
  {
    if k > 0 {
      RemoveAt(timers[1..], id, k - 1);
      assert timers[..k] == [timers[0]] + timers[1..][..k - 1];
      assert timers[k + 1..] == timers[1..][k..];
    }
  }

  lemma {:induction false} RemoveAbsent(timers: seq<Timer>, id: int)
    requires !Listed(timers, id)
    ensures Remove(timers, id) == timers
  {
    if timers != [] {
      assert timers[0].id != id;
      assert forall i :: 0 <= i < |timers[1..]| ==> timers[1..][i] == timers[i + 1];
      RemoveAbsent(timers[1..], id);
    }
  }

  lemma InsertKeepsOrder(timers: seq<Timer>, t: Timer, uid: int)
    requires Ordered(timers, uid) && t.id == uid + 1
    ensures Ordered(Insert(timers, t), uid + 1)
  {
    var k := InsertCut(timers, t);
  }

  // The position in the whole sequence of element i of a sequence with element k cut out.
  function Past(k: nat, i: nat): nat {
    if i < k then i else i + 1
  }

  lemma CutAt<T>(xs: seq<T>, k: nat, i: nat)
    requires k < |xs| && i < |xs| - 1
    ensures (xs[..k] + xs[k + 1..])[i] == xs[Past(k, i)]
  {
  }

  lemma CutKeepsOrder(timers: seq<Timer>, k: nat, uid: int)
    requires k < |timers| && Ordered(timers, uid)
    ensures Ordered(timers[..k] + timers[k + 1..], uid) && !Listed(timers[..k] + timers[k + 1..], timers[k].id)
  {
    var rest := timers[..k] + timers[k + 1..];
    forall i | 0 <= i < |rest|
      ensures rest[i].id <= uid && rest[i].id != timers[k].id
    {
      CutAt(timers, k, i);
    }
    forall i, j | 0 <= i < j < |rest|
      ensures !rest[j].when.Earlier(rest[i].when) && rest[i].id != rest[j].id
    {
      CutAt(timers, k, i);
      CutAt(timers, k, j);
    }
  }

  lemma RemoveKeepsOrder(timers: seq<Timer>, id: int, uid: int)
    requires Ordered(timers, uid)
    ensures Ordered(Remove(timers, id), uid) && !Listed(Remove(timers, id), id)
  {
    if Listed(timers, id) {
      var k :| 0 <= k < |timers| && timers[k].id == id;
      RemoveAt(timers, id, k);
      CutKeepsOrder(timers, k, uid);
    } else {
      RemoveAbsent(timers, id);
    }
  }

  class Entry {
    const timer: Timer
    var next: Entry?
    var prev: Entry?

    constructor (timer: Timer)
      ensures this.timer == timer && next == null && prev == null
    {
      this.timer := timer;
      next, prev := null, null;
    }
  }

  ghost function At(spine: seq<Entry>, i: int): Entry? {
    if 0 <= i < |spine| then spine[i] else null
  }

  ghost predicate Links(spine: seq<Entry>)
    reads spine
  {
    && (forall i {:trigger spine[i].next} :: 0 <= i < |spine| ==> spine[i].next == At(spine, i + 1))
    && (forall i {:trigger spine[i].prev} :: 0 <= i < |spine| ==> spine[i].prev == At(spine, i - 1))
  }

  /** The links that bypass position `at`. */
  ghost predicate LinksPast(spine: seq<Entry>, at: nat)
    reads spine
  {
    && (forall i {:trigger spine[i].next} :: 0 <= i < |spine| && i != at ==>
          spine[i].next == At(spine, if i + 1 == at then at + 1 else i + 1))
    && (forall i {:trigger spine[i].prev} :: 0 <= i < |spine| && i != at ==>
          spine[i].prev == At(spine, if i - 1 == at then at - 1 else i - 1))
  }

  lemma SplicedLinks(all: seq<Entry>, at: nat)
    requires at < |all| && Distinct(all) && LinksPast(all, at)
    ensures Distinct(all[..at] + all[at + 1..]) && Links(all[..at] + all[at + 1..])
  {
    var rest := all[..at] + all[at + 1..];
    forall i | 0 <= i < |rest|
      ensures rest[i] == all[Past(at, i)]
    {
      CutAt(all, at, i);
    }
  }

  lemma TailLinks(all: seq<Entry>)
    requires all != [] && Distinct(all) && LinksPast(all, 0)
    ensures Distinct(all[1..]) && Links(all[1..])
  {
    assert forall i :: 0 <= i < |all[1..]| ==> all[1..][i] == all[i + 1];
  }

  /** The links that lead through a new entry before position `at`. */
  ghost predicate LinksThrough(spine: seq<Entry>, info: Entry, at: nat)
    reads spine, info
  {
    && info.next == At(spine, at) && info.prev == At(spine, at - 1)
    && (forall i {:trigger spine[i].next} :: 0 <= i < |spine| ==>
          spine[i].next == if i + 1 == at then info else At(spine, i + 1))
    && (forall i {:trigger spine[i].prev} :: 0 <= i < |spine| ==>
          spine[i].prev == if i == at then info else At(spine, i - 1))
  }

  lemma WovenLinks(all: seq<Entry>, info: Entry, at: nat)
    requires at <= |all| && Distinct(all) && info !in all && LinksThrough(all, info, at)
    ensures Distinct(all[..at] + [info] + all[at..]) && Links(all[..at] + [info] + all[at..])
  {
    var woven := all[..at] + [info] + all[at..];
    forall i | 0 <= i < |woven|
      ensures woven[i] == if i < at then all[i] else if i == at then info else all[i - 1]
    {
    }
  }

  ghost function Timers(spine: seq<Entry>): seq<Timer> {
    seq(|spine|, i requires 0 <= i < |spine| => spine[i].timer)
  }

  lemma TimersOfParts(a: seq<Entry>, b: seq<Entry>)
    ensures Timers(a + b) == Timers(a) + Timers(b)
  {
  }

  lemma TimersOfSlice(spine: seq<Entry>, k: nat)
    requires k <= |spine|
    ensures Timers(spine[..k]) == Timers(spine)[..k] && Timers(spine[k..]) == Timers(spine)[k..]
  {
  }

  lemma InsertedView(spine: seq<Entry>, info: Entry, at: nat)
    requires at <= |spine|
    ensures Timers(spine[..at] + [info] + spine[at..]) == Timers(spine)[..at] + [info.timer] + Timers(spine)[at..]
  {
    TimersOfParts(spine[..at] + [info], spine[at..]);
    TimersOfParts(spine[..at], [info]);
    TimersOfSlice(spine, at);
  }

  lemma RemovedView(spine: seq<Entry>, at: nat)
    requires at < |spine|
    ensures Timers(spine[..at] + spine[at + 1..]) == Timers(spine)[..at] + Timers(spine)[at + 1..]
  {
    TimersOfParts(spine[..at], spine[at + 1..]);
    TimersOfSlice(spine, at);
    TimersOfSlice(spine, at + 1);
  }

  class CallbackList {
    var callbacks: Entry?
    var uid: int
    ghost var spine: seq<Entry>

    ghost predicate Linked()
      reads this, spine
    {
      callbacks == At(spine, 0) && Distinct(spine) && Links(spine)
    }

    ghost function View(): seq<Timer>
      reads this
    {
      Timers(spine)
    }

    ghost predicate Valid()
      reads this, spine
    {
      Linked() && Ordered(View(), uid)
    }

    constructor ()
      ensures Valid() && View() == [] && uid == 0
    {
      callbacks, uid, spine := null, 0, [];
    }

    /** mcCallbackAbs up to its unlock: refuse a bad time, else link a new entry in time order. */
    method Schedule(when: Time, hasCallback: bool) returns (id: int)
      requires Valid()
      modifies this, spine
      ensures Valid()
      ensures !hasCallback || when.nsec < 0 || when.nsec > BILLION || when.sec < 0 ==>
                id == -EINVAL && View() == old(View()) && uid == old(uid)
      ensures hasCallback && 0 <= when.nsec <= BILLION && when.sec >= 0 ==>
                id == old(uid) + 1 && uid == id && View() == Insert(old(View()), Timer(id, when))
    {
      if !hasCallback {
        return -EINVAL;
      } else if when.nsec < 0 || when.nsec > BILLION || when.sec < 0 {
        return -EINVAL;
      }
      InsertKeepsOrder(View(), Timer(uid + 1, when), uid);
      uid := uid + 1;
      id := uid;
      Add(Timer(id, when));
    }

    // A new entry for the timer, linked where the search says.
    method Add(timer: Timer)
      requires Linked()
      modifies this`callbacks, this`spine, spine
      ensures Linked() && View() == Insert(old(View()), timer)
    {
      var info := new Entry(timer);
      var current, tail, at := Search(timer.when);
      InsertAt(View(), timer, at);
      InsertedView(spine, info, at);
      Link(info, current, tail, at);
    }

    // The search of mcCallbackAbs: the first strictly later entry, and the one before it.
    method Search(when: Time) returns (current: Entry?, tail: Entry?, ghost at: nat)
      requires Linked()
      ensures at <= |spine| && current == At(spine, at) && tail == At(spine, at - 1)
      ensures forall i :: 0 <= i < at ==> !when.Earlier(spine[i].timer.when)
      ensures at < |spine| ==> when.Earlier(spine[at].timer.when)
    {
      current, tail, at := callbacks, null, 0;
      while current != null && !when.Earlier(current.timer.when)
        invariant at <= |spine| && current == At(spine, at) && tail == At(spine, at - 1)
        invariant forall i :: 0 <= i < at ==> !when.Earlier(spine[i].timer.when)
        decreases |spine| - at
      {
        tail := current;
        current := current.next;
        at := at + 1;
      }
    }

    // The relinking of mcCallbackAbs.
    method Link(info: Entry, current: Entry?, tail: Entry?, ghost at: nat)
      requires Linked() && info !in spine && info.next == null && info.prev == null
      requires at <= |spine| && current == At(spine, at) && tail == At(spine, at - 1)
      modifies this`callbacks, this`spine, spine, info
      ensures Linked() && spine == old(spine)[..at] + [info] + old(spine)[at..]
    {
      if current != null {
        info.next := current;
        if current.prev != null {
          info.prev := current.prev;
          current.prev.next := info;
        }
        current.prev := info;
        if current == callbacks {
          callbacks := info;
        }
      } else if tail != null {
        tail.next := info;
        info.prev := tail;
      } else if callbacks == null {
        callbacks := info;
      }
      WovenLinks(spine, info, at);
      spine := spine[..at] + [info] + spine[at..];
    }

    /** mcCallbackDequeue: unlink the entry of that id wherever it is; false (EINVAL) if none is. */
    method Dequeue(id: int) returns (found: bool)
      requires Valid()
      modifies this, spine
      ensures Valid() && uid == old(uid)
      ensures found <==> Listed(old(View()), id)
      ensures View() == Remove(old(View()), id)
    {
      var current := callbacks;
      ghost var at := 0;
      while current != null && current.timer.id != id
        invariant at <= |spine| && current == At(spine, at)
        invariant forall i :: 0 <= i < at ==> spine[i].timer.id != id
        decreases |spine| - at
      {
        current := current.next;
        at := at + 1;
      }
      hide Remove, InTimeOrder, UniqueIds;
      RemoveKeepsOrder(View(), id, uid);
      if current == null {
        RemoveAbsent(View(), id);
        return false;
      }
      assert View()[at].id == id;
      RemoveAt(View(), id, at);
      RemovedView(spine, at);
      Unlink(current, at);
      return true;
    }

    // The four relinking cases of mcCallbackDequeue.
    method Unlink(current: Entry, ghost at: nat)
      requires Linked() && at < |spine| && current == spine[at]
      modifies this`callbacks, this`spine, spine
      ensures Linked() && spine == old(spine)[..at] + old(spine)[at + 1..]
    {
      if current.prev != null && current.next != null {
        current.prev.next := current.next;
        current.next.prev := current.prev;
      } else if current.prev != null {
        current.prev.next := null;
      } else if current == callbacks && current.next != null {
        callbacks := current.next;
        callbacks.prev := null;
      } else if current == callbacks {
        callbacks := null;
      }
      ghost var all := spine;
      spine := spine[..at] + spine[at + 1..];
      SplicedLinks(all, at);
    }

    /** _mcCallbackListPop: unlink the first entry. */
    method Pop()
      requires Valid() && View() != []
      modifies this, spine
      ensures Valid() && uid == old(uid) && View() == old(View())[1..]
    {
      if callbacks.next != null {
        callbacks := callbacks.next;
        callbacks.prev := null;
      } else {
        callbacks := null;
      }
      TimersOfSlice(spine, 1);
      TailLinks(spine);
      spine := spine[1..];
    }
  }
}
