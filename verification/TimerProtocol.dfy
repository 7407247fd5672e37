/**
 The timer thread of lib/callback.c against any number of concurrent callers
 of mcCallbackAbs and mcCallbackCancel (the running callback among them), one
 step per atomic action. A caller's locked section is one step, taken while
 the thread does not hold the lock; its signal is a later step. The thread
 unlocks, then reads the head of the list twice, for the function to call and for
 its argument, and only then calls back.
 */
module TimerProtocol {
  import opened Timespecs
  import opened TimerList

  datatype Pc =
    | Locking                           // not holding the lock, about to take it
    | Top                               // holds the lock, at the top of the loop
    | TimedWait(deadline: Time)         // inside the timed condition wait
    | IdleWait                          // inside the untimed condition wait
    | TimedOut                          // the timed wait expired, about to re-lock
    | Checking                          // holds the lock, below the timed wait
    | Fetching(id: int, now: Time)      // unlocked; head's id and the clock noted
    | HalfFetched(id: int, now: Time, first: Timer) // read the head once, for one half of the call
    | Calling(id: int, call: Firing)    // unlocked; the callback runs
    | Crashed                           // read the head of an empty list

  /** A call of one timer's function with another's argument; which of the two is read first is left open
      by C. The call is whole when both belong to one timer. */
  datatype Firing = Firing(first: Timer, second: Timer) {
    predicate Whole() {
      first.id == second.id
    }
  }

  datatype State = State(
    pc: Pc,
    timers: seq<Timer>,
    uid: int,
    issued: set<int>,                   // ids taken from the counter, not yet inserted
    arrival: map<int, nat>,             // the order of insertion
    pending: nat,                       // callers that unlocked but did not signal yet
    fired: seq<Firing>,
    dropped: seq<Timer>)                // popped as invalid by the thread

  datatype Step =
    | TakeId
    | InsertTimer(timer: Timer)
    | Cancel(id: int)
    | Signal
    | Lock
    | BeginWait
    | SpuriousWakeup
    | Expire
    | Relock
    | Check(now: Time)
    | Read
    | Fetch
    | Return

  const INIT: State := State(Locking, [], 0, {}, map[], 0, [], [])

  predicate ThreadHoldsLock(s: State) {
    s.pc.Top? || s.pc.Checking?
  }

  predicate CallerStep(step: Step) {
    step.TakeId? || step.InsertTimer? || step.Cancel? || step.Signal?
  }

  predicate Enabled(s: State, step: Step) {
    match step
    case TakeId => true
    case InsertTimer(t) => !ThreadHoldsLock(s) && t.id in s.issued && t.when.NearlyNormal() && t.when.sec >= 0
    case Cancel(_) => !ThreadHoldsLock(s)
    case Signal => s.pending > 0
    case Lock => s.pc.Locking?
    case BeginWait => s.pc.Top?
    case SpuriousWakeup => s.pc.TimedWait? || s.pc.IdleWait?
    case Expire => s.pc.TimedWait?
    case Relock => s.pc.TimedOut?
    case Check(_) => s.pc.Checking?
    case Read => s.pc.Fetching?
    case Fetch => s.pc.HalfFetched?
    case Return => s.pc.Calling?
  }

  function Apply(s: State, step: Step): State
    requires Enabled(s, step)
  {
    match step
    case TakeId =>
      s.(uid := s.uid + 1, issued := s.issued + {s.uid + 1})
    case InsertTimer(t) =>
      s.(timers := Insert(s.timers, t), issued := s.issued - {t.id},
         arrival := s.arrival[t.id := |s.arrival|], pending := s.pending + 1)
    case Cancel(id) =>
      if exists i :: 0 <= i < |s.timers| && s.timers[i].id == id
      then s.(timers := Remove(s.timers, id), pending := s.pending + 1)
      else s
    case Signal =>
      s.(pending := s.pending - 1,
         pc := if s.pc.TimedWait? || s.pc.IdleWait? then Locking else s.pc)
    case Lock =>
      s.(pc := Top)
    case BeginWait =>
      if s.timers == [] then s.(pc := Checking)
      else if s.timers[0].when.Normal() then s.(pc := TimedWait(s.timers[0].when))
      else s.(pc := Checking, dropped := s.dropped + [s.timers[0]], timers := s.timers[1..])
    case SpuriousWakeup =>
      s.(pc := Locking)
    case Expire =>
      s.(pc := TimedOut)
    case Relock =>
      s.(pc := Checking)
    case Check(now) =>
      if s.timers == [] then s.(pc := IdleWait)
      else if now.Earlier(s.timers[0].when) then s.(pc := Top)
      else s.(pc := Fetching(s.timers[0].id, now))
    case Read =>
      if s.timers == [] then s.(pc := Crashed)
      else s.(pc := HalfFetched(s.pc.id, s.pc.now, s.timers[0]))
    case Fetch =>
      if s.timers == [] then s.(pc := Crashed)
      else
        var call := Firing(s.pc.first, s.timers[0]);
        s.(pc := Calling(s.pc.id, call), fired := s.fired + [call])
    case Return =>
      s.(pc := Top, timers := Remove(s.timers, s.pc.id))
  }

  /** Between the unlock and the second read of the head. */
  predicate InWindow(s: State) {
    s.pc.Fetching? || s.pc.HalfFetched?
  }

  /** The head the thread noted before unlocking is still the head. */
  predicate HeadKept(s: State) {
    InWindow(s) ==> s.timers != [] && s.timers[0].id == s.pc.id
  }

  ghost predicate Runs(s: State, steps: seq<Step>, t: State)
    decreases |steps|
  {
    if steps == [] then s == t
    else Enabled(s, steps[0]) && Runs(Apply(s, steps[0]), steps[1..], t)
  }

  /** Runs in which every read of the head finds the head that was noted under the lock. */
  ghost predicate QuietRuns(s: State, steps: seq<Step>, t: State)
    decreases |steps|
  {
    if steps == [] then s == t
    else
      Enabled(s, steps[0]) && (steps[0].Read? || steps[0].Fetch? ==> HeadKept(s))
      && QuietRuns(Apply(s, steps[0]), steps[1..], t)
  }

  // ---------- What every run keeps ----------

  ghost predicate Known(s: State, id: int) {
    id <= s.uid && id !in s.issued
  }

  /** Time order, and arrival order among equal times. */
  ghost predicate StableOrder(s: State) {
    && InTimeOrder(s.timers)
    && (forall i :: 0 <= i < |s.timers| ==> s.timers[i].id in s.arrival && Known(s, s.timers[i].id))
    && (forall i, j :: 0 <= i < j < |s.timers| && s.timers[i].when == s.timers[j].when ==>
          s.arrival[s.timers[i].id] < s.arrival[s.timers[j].id])
  }

  ghost predicate ArrivalLogged(s: State) {
    && (forall id :: id in s.arrival ==> Known(s, id) && s.arrival[id] < |s.arrival|)
    && (forall id :: id in s.issued ==> id <= s.uid)
  }

  /** No stale deadline: unless a signal is coming, a waiting thread wakes in time for the head. */
  ghost predicate NoStaleDeadline(s: State) {
    s.pending == 0 ==>
      && (s.pc.IdleWait? ==> s.timers == [])
      && (s.pc.TimedWait? && s.timers != [] ==> !s.timers[0].when.Earlier(s.pc.deadline))
  }

  ghost predicate Inv(s: State) {
    && UniqueIds(s.timers)
    && StableOrder(s)
    && ArrivalLogged(s)
    && NoStaleDeadline(s)
    && (forall i :: 0 <= i < |s.dropped| ==> !s.dropped[i].when.Normal())
  }

  // Element i of a sequence with t put in at position k.
  ghost function Woven(timers: seq<Timer>, t: Timer, k: nat, i: nat): Timer
    requires k <= |timers| && i <= |timers|
  {
    if i < k then timers[i] else if i == k then t else timers[i - 1]
  }

  lemma InsertKeepsInv(s: State, t: Timer)
    requires Inv(s) && Enabled(s, InsertTimer(t))
    ensures Inv(Apply(s, InsertTimer(t)))
  {
    var k := InsertCut(s.timers, t);
    assert t.id !in s.arrival;
    var s' := Apply(s, InsertTimer(t));
    forall i | 0 <= i < |s'.timers|
      ensures s'.timers[i] == Woven(s.timers, t, k, i)
      ensures s'.timers[i].id in s'.arrival && Known(s', s'.timers[i].id)
    {
    }
    forall i, j | 0 <= i < j < |s'.timers|
      ensures s'.timers[i].id != s'.timers[j].id
      ensures s'.timers[i].when == s'.timers[j].when ==> s'.arrival[s'.timers[i].id] < s'.arrival[s'.timers[j].id]
    {
      assert s'.timers[i] == Woven(s.timers, t, k, i) && s'.timers[j] == Woven(s.timers, t, k, j);
    }
  }

  lemma CutKeepsOrderInv(s: State, k: nat, s': State)
    requires k < |s.timers| && UniqueIds(s.timers) && StableOrder(s)
    requires s'.timers == s.timers[..k] + s.timers[k + 1..]
    requires s'.uid == s.uid && s'.issued == s.issued && s'.arrival == s.arrival
    ensures UniqueIds(s'.timers) && StableOrder(s')
    ensures !Listed(s'.timers, s.timers[k].id)
    ensures s'.timers != [] ==> !s'.timers[0].when.Earlier(s.timers[0].when)
  {
    forall i | 0 <= i < |s'.timers|
      ensures s'.timers[i] == s.timers[Past(k, i)]
    {
      CutAt(s.timers, k, i);
    }
    CutKeepsTimeOrder(s, k, s');
    CutKeepsArrivalOrder(s, k, s');
    hide StableOrder;
  }

  lemma CutKeepsTimeOrder(s: State, k: nat, s': State)
    requires k < |s.timers| && |s'.timers| == |s.timers| - 1
    requires UniqueIds(s.timers) && InTimeOrder(s.timers)
    requires forall i :: 0 <= i < |s'.timers| ==> s'.timers[i] == s.timers[Past(k, i)]
    ensures UniqueIds(s'.timers) && InTimeOrder(s'.timers) && !Listed(s'.timers, s.timers[k].id)
    ensures s'.timers != [] ==> !s'.timers[0].when.Earlier(s.timers[0].when)
  {
  }

  lemma CutKeepsArrivalOrder(s: State, k: nat, s': State)
    requires k < |s.timers| && |s'.timers| == |s.timers| - 1 && StableOrder(s) && InTimeOrder(s'.timers)
    requires forall i :: 0 <= i < |s'.timers| ==> s'.timers[i] == s.timers[Past(k, i)]
    requires s'.uid == s.uid && s'.issued == s.issued && s'.arrival == s.arrival
    ensures StableOrder(s')
  {
    hide InTimeOrder;
  }

  /** Removing an id, listed or not, keeps the order and delays the head at most. */
  lemma RemoveKeepsOrderInv(s: State, id: int, s': State)
    requires UniqueIds(s.timers) && StableOrder(s)
    requires s'.timers == Remove(s.timers, id)
    requires s'.uid == s.uid && s'.issued == s.issued && s'.arrival == s.arrival
    ensures UniqueIds(s'.timers) && StableOrder(s')
    ensures !Listed(s'.timers, id)
    ensures s'.timers != [] ==> s.timers != [] && !s'.timers[0].when.Earlier(s.timers[0].when)
  {
    if Listed(s.timers, id) {
      var k :| 0 <= k < |s.timers| && s.timers[k].id == id;
      RemoveAt(s.timers, id, k);
      CutKeepsOrderInv(s, k, s');
    } else {
      RemoveAbsent(s.timers, id);
    }
  }

  lemma RemovalKeepsInv(s: State, step: Step)
    requires Inv(s) && Enabled(s, step) && (step.Cancel? || step.Return?)
    ensures Inv(Apply(s, step))
  {
    var id := if step.Cancel? then step.id else s.pc.id;
    if step.Return? || Listed(s.timers, id) {
      RemoveKeepsOrderInv(s, id, Apply(s, step));
    }
  }

  lemma DropKeepsInv(s: State)
    requires Inv(s) && s.pc.Top? && s.timers != [] && !s.timers[0].when.Normal()
    ensures Inv(Apply(s, BeginWait))
  {
    var s' := Apply(s, BeginWait);
    assert s.timers[..0] + s.timers[1..] == s.timers[1..];
    CutKeepsOrderInv(s, 0, s');
    hide StableOrder, UniqueIds;
    assert ArrivalLogged(s') by { hide NoStaleDeadline; }
  }

  lemma BeginWaitKeepsInv(s: State)
    requires Inv(s) && s.pc.Top?
    ensures Inv(Apply(s, BeginWait))
  {
    if s.timers != [] && !s.timers[0].when.Normal() {
      hide *;
      DropKeepsInv(s);
    } else {
      var s' := Apply(s, BeginWait);
      assert s'.timers == s.timers && s'.dropped == s.dropped;
      OrderUnchanged(s, s');
      hide StableOrder, UniqueIds, ArrivalLogged;
    }
  }

  lemma OrderUnchanged(s: State, s': State)
    requires s'.timers == s.timers && s'.uid == s.uid && s'.issued == s.issued && s'.arrival == s.arrival
    ensures StableOrder(s) ==> StableOrder(s')
    ensures ArrivalLogged(s) ==> ArrivalLogged(s')
  {
  }

  lemma StepKeepsInv(s: State, step: Step)
    requires Inv(s) && Enabled(s, step)
    ensures Inv(Apply(s, step))
  {
    match step
    case InsertTimer(t) => InsertKeepsInv(s, t);
    case Cancel(_) => RemovalKeepsInv(s, step);
    case Return => RemovalKeepsInv(s, step);
    case BeginWait => BeginWaitKeepsInv(s);
    case _ =>
  }
}
