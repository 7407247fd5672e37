/**
 What the protocol of TimerProtocol guarantees over every run, what it guarantees
 while the head of the list is kept in the unlocked window, and what happens when
 it is not.
 */
module TimerSafety {
  import opened Timespecs
  import opened TimerList
  import opened TimerProtocol

  lemma {:induction false} RunsKeepInv(s: State, steps: seq<Step>, t: State)
    requires Inv(s) && Runs(s, steps, t)
    ensures Inv(t)
    decreases |steps|
  {
    if steps != [] {
      StepKeepsInv(s, steps[0]);
      RunsKeepInv(Apply(s, steps[0]), steps[1..], t);
    }
  }

  /** Over every run, racing ones included: the list is ordered by time and stable for equal
      times, ids are unique, whatever the thread dropped had an invalid time, and a waiting
      thread without a signal on its way never sleeps past the head. */
  lemma ListAndDeadlineSafety(steps: seq<Step>, t: State)
    requires Runs(INIT, steps, t)
    ensures UniqueIds(t.timers) && InTimeOrder(t.timers)
    ensures forall i, j :: 0 <= i < j < |t.timers| && t.timers[i].when == t.timers[j].when ==>
              t.timers[i].id in t.arrival && t.timers[j].id in t.arrival
              && t.arrival[t.timers[i].id] < t.arrival[t.timers[j].id]
    ensures forall i :: 0 <= i < |t.dropped| ==> !t.dropped[i].when.Normal()
    ensures t.pending == 0 && t.pc.IdleWait? ==> t.timers == []
    ensures t.pending == 0 && t.pc.TimedWait? && t.timers != [] ==>
              !t.timers[0].when.Earlier(t.pc.deadline)
  {
    RunsKeepInv(INIT, steps, t);
  }

  // A caller's step that changes the list.
  predicate Changes(s: State, step: Step) {
    step.InsertTimer? || (step.Cancel? && exists i :: 0 <= i < |s.timers| && s.timers[i].id == step.id)
  }

  function ChangeCount(s: State, steps: seq<Step>): nat
    decreases |steps|
  {
    if steps == [] || !Enabled(s, steps[0]) then 0
    else (if Changes(s, steps[0]) then 1 else 0) + ChangeCount(Apply(s, steps[0]), steps[1..])
  }

  function SignalCount(steps: seq<Step>): nat {
    if steps == [] then 0 else (if steps[0].Signal? then 1 else 0) + SignalCount(steps[1..])
  }

  /** Over every run, one signal for every change that a caller made, less those still to come. */
  lemma {:induction false} ChangesAreSignalled(s: State, steps: seq<Step>, t: State)
    requires Runs(s, steps, t)
    ensures SignalCount(steps) + t.pending == ChangeCount(s, steps) + s.pending
    decreases |steps|
  {
    if steps != [] {
      ChangesAreSignalled(Apply(s, steps[0]), steps[1..], t);
    }
  }

  // ---------- Firing, in quiet runs ----------

  ghost predicate Fired(s: State, id: int) {
    exists i :: 0 <= i < |s.fired| && s.fired[i].first.id == id
  }

  ghost predicate FiredOnce(s: State) {
    && (forall i :: 0 <= i < |s.fired| ==> s.fired[i].Whole())
    && (forall i, j :: 0 <= i < j < |s.fired| ==> s.fired[i].first.id != s.fired[j].first.id)
    && (forall i :: 0 <= i < |s.fired| ==> Known(s, s.fired[i].first.id))
    // what fired is off the list, except the one whose callback runs
    && (forall i, j :: 0 <= i < |s.fired| && 0 <= j < |s.timers| && s.fired[i].first.id == s.timers[j].id ==>
          s.pc.Calling? && s.fired[i].first.id == s.pc.id)
    && (s.pc.Calling? ==> s.pc.call.first.id == s.pc.id && Fired(s, s.pc.id))
  }

  ghost predicate NotedHeadDue(s: State) {
    InWindow(s) ==>
      forall i :: 0 <= i < |s.timers| && s.timers[i].id == s.pc.id ==> !s.pc.now.Earlier(s.timers[i].when)
  }

  ghost predicate QuietInv(s: State) {
    Inv(s) && FiredOnce(s) && NotedHeadDue(s) && !s.pc.Crashed?
    && (InWindow(s) ==> Known(s, s.pc.id)) && (s.pc.HalfFetched? ==> s.pc.first.id == s.pc.id)
  }

  lemma {:induction false} RemoveIsSubset(timers: seq<Timer>, id: int)
    ensures forall i :: 0 <= i < |Remove(timers, id)| ==> Remove(timers, id)[i] in timers
  {
    if timers != [] && timers[0].id != id {
      RemoveIsSubset(timers[1..], id);
    }
  }

  lemma QuietInsert(s: State, t: Timer)
    requires QuietInv(s) && Enabled(s, InsertTimer(t))
    ensures FiredOnce(Apply(s, InsertTimer(t))) && NotedHeadDue(Apply(s, InsertTimer(t)))
  {
    var k := InsertCut(s.timers, t);
    var s' := Apply(s, InsertTimer(t));
    assert !Known(s, t.id);
    forall i | 0 <= i < |s'.timers|
      ensures s'.timers[i] == t || s'.timers[i] in s.timers
    {
      assert s'.timers[i] == Woven(s.timers, t, k, i);
    }
  }

  lemma QuietStep(s: State, step: Step)
    requires QuietInv(s) && Enabled(s, step) && (step.Read? || step.Fetch? ==> HeadKept(s))
    ensures QuietInv(Apply(s, step))
  {
    StepKeepsInv(s, step);
    hide Inv, QuietInv, Enabled, Apply;
    match step
    case InsertTimer(timer) => QuietInsertion(s, timer);
    case Cancel(id) => QuietCancel(s, id);
    case Return => QuietReturn(s);
    case Fetch => QuietFetch(s);
    case _ => QuietOther(s, step);
  }

  lemma QuietInsertion(s: State, t: Timer)
    requires QuietInv(s) && Enabled(s, InsertTimer(t)) && Inv(Apply(s, InsertTimer(t)))
    ensures QuietInv(Apply(s, InsertTimer(t)))
  {
    QuietInsert(s, t);
    hide Inv, FiredOnce, NotedHeadDue;
  }

  lemma QuietCancel(s: State, id: int)
    requires QuietInv(s) && Enabled(s, Cancel(id)) && Inv(Apply(s, Cancel(id)))
    ensures QuietInv(Apply(s, Cancel(id)))
  {
    RemoveIsSubset(s.timers, id);
    hide Inv;
  }

  lemma QuietOther(s: State, step: Step)
    requires QuietInv(s) && Enabled(s, step) && (step.Read? ==> HeadKept(s)) && Inv(Apply(s, step))
    requires !step.InsertTimer? && !step.Cancel? && !step.Return? && !step.Fetch?
    ensures QuietInv(Apply(s, step))
  {
    assert forall i :: 0 <= i < |s.timers| ==> Known(s, s.timers[i].id);
    assert UniqueIds(s.timers);
    hide Inv;
  }

  lemma QuietReturn(s: State)
    requires QuietInv(s) && s.pc.Calling? && Inv(Apply(s, Return))
    ensures QuietInv(Apply(s, Return))
  {
    RemoveIsSubset(s.timers, s.pc.id);
    RemoveKeepsOrderInv(s, s.pc.id, Apply(s, Return));
    hide StableOrder, ArrivalLogged, NoStaleDeadline, Inv;
  }

  lemma QuietFetch(s: State)
    requires QuietInv(s) && s.pc.HalfFetched? && HeadKept(s) && Inv(Apply(s, Fetch))
    ensures QuietInv(Apply(s, Fetch))
  {
    assert UniqueIds(s.timers);
    hide StableOrder, ArrivalLogged, NoStaleDeadline, Inv;
    var t := Apply(s, Fetch);
    assert t.fired[|s.fired|].first.id == s.pc.id;
  }

  lemma {:induction false} QuietRunsKeepInv(s: State, steps: seq<Step>, t: State)
    requires QuietInv(s) && QuietRuns(s, steps, t)
    ensures QuietInv(t)
    decreases |steps|
  {
    if steps != [] {
      QuietStep(s, steps[0]);
      QuietRunsKeepInv(Apply(s, steps[0]), steps[1..], t);
    }
  }

  /** In a quiet run every call is of one timer's function with its own argument, no timer fires twice, a
      fired timer is off the list once its callback has returned whatever was inserted or cancelled
      meanwhile, and the thread never crashes. */
  lemma FiresAtMostOnce(steps: seq<Step>, t: State)
    requires QuietRuns(INIT, steps, t)
    ensures forall i :: 0 <= i < |t.fired| ==> t.fired[i].Whole()
    ensures forall i, j :: 0 <= i < j < |t.fired| ==> t.fired[i].first.id != t.fired[j].first.id
    ensures forall i, j :: 0 <= i < |t.fired| && 0 <= j < |t.timers| && t.fired[i].first.id == t.timers[j].id ==>
              t.pc.Calling? && t.pc.id == t.fired[i].first.id
    ensures !t.pc.Crashed?
  {
    QuietRunsKeepInv(INIT, steps, t);
  }

  /** In a quiet run a firing is of the noted timer, which is due by the clock that was read,
      and no other listed timer is earlier. */
  lemma FiresOnlyDueAndEarliest(steps: seq<Step>, s: State)
    requires QuietRuns(INIT, steps, s)
    requires s.pc.HalfFetched? && HeadKept(s)
    ensures Apply(s, Fetch).fired == s.fired + [Firing(s.pc.first, s.timers[0])]
    ensures s.pc.first.id == s.timers[0].id == s.pc.id && !s.pc.now.Earlier(s.timers[0].when)
    ensures forall i :: 0 <= i < |s.timers| ==> !s.timers[i].when.Earlier(s.timers[0].when)
  {
    hide QuietInv, QuietRuns, Runs;
    assert QuietInv(INIT) by { NothingFired(); }
    QuietRunsKeepInv(INIT, steps, s);
    QuietHead(s);
  }

  lemma NothingFired()
    ensures QuietInv(INIT)
  {
  }

  lemma QuietHead(s: State)
    requires QuietInv(s) && s.pc.HalfFetched? && HeadKept(s)
    ensures s.pc.first.id == s.timers[0].id == s.pc.id && !s.pc.now.Earlier(s.timers[0].when)
    ensures InTimeOrder(s.timers)
  {
    assert InTimeOrder(s.timers);
    hide FiredOnce, Inv, InTimeOrder;
  }

  // ---------- Exactly when the unlocked read is safe ----------

  /** One caller's step between the unlock and the second read keeps the noted head iff it neither
      cancels it nor inserts a strictly earlier timer. */
  lemma WindowStepKeepsHeadIff(s: State, step: Step)
    requires Inv(s) && InWindow(s) && HeadKept(s) && CallerStep(step) && Enabled(s, step)
    ensures HeadKept(Apply(s, step)) <==>
            !(step.Cancel? && step.id == s.pc.id)
            && !(step.InsertTimer? && step.timer.when.Earlier(s.timers[0].when))
  {
    if step.Cancel? && Listed(s.timers, step.id) {
      var k :| 0 <= k < |s.timers| && s.timers[k].id == step.id;
      RemoveAt(s.timers, step.id, k);
    }
  }

  /** What is asked of a caller in the window: neither to cancel the timer that was noted, nor to insert
      one that is earlier than the head. */
  predicate Gentle(s: State, step: Step) {
    InWindow(s) ==>
      && !(step.Cancel? && step.id == s.pc.id)
      && !(step.InsertTimer? && s.timers != [] && step.timer.when.Earlier(s.timers[0].when))
  }

  ghost predicate GentleRuns(s: State, steps: seq<Step>, t: State)
    decreases |steps|
  {
    if steps == [] then s == t
    else Enabled(s, steps[0]) && Gentle(s, steps[0]) && GentleRuns(Apply(s, steps[0]), steps[1..], t)
  }

  lemma GentleStep(s: State, step: Step)
    requires Inv(s) && HeadKept(s) && Enabled(s, step) && Gentle(s, step)
    ensures HeadKept(Apply(s, step))
  {
    if InWindow(s) && CallerStep(step) {
      WindowStepKeepsHeadIff(s, step);
    }
  }

  lemma {:induction false} GentleRunsAreQuietFrom(s: State, steps: seq<Step>, t: State)
    requires Inv(s) && HeadKept(s) && GentleRuns(s, steps, t)
    ensures QuietRuns(s, steps, t)
    decreases |steps|
  {
    hide Inv, HeadKept, Gentle, Apply, Enabled;
    if steps != [] {
      StepKeepsInv(s, steps[0]);
      GentleStep(s, steps[0]);
      GentleRunsAreQuietFrom(Apply(s, steps[0]), steps[1..], t);
    }
  }

  /** Callers that leave the noted timer alone and insert nothing before it in the window are all it takes:
      both reads of the head then find the head that was noted, no timer fires twice or with another's
      argument, and the thread never crashes. */
  lemma GentleRunsAreQuiet(steps: seq<Step>, t: State)
    requires GentleRuns(INIT, steps, t)
    ensures QuietRuns(INIT, steps, t)
    ensures forall i, j :: 0 <= i < j < |t.fired| ==> t.fired[i].first.id != t.fired[j].first.id
    ensures forall i :: 0 <= i < |t.fired| ==> t.fired[i].Whole()
    ensures !t.pc.Crashed?
  {
    GentleRunsAreQuietFrom(INIT, steps, t);
    FiresAtMostOnce(steps, t);
  }

  /** What is called is one timer, and the one taken off the list afterwards, iff both reads found the head
      that was noted. Otherwise the thread crashes, or a timer that was called in whole or in part stays
      listed (to fire again), and the noted one is removed without having been called. */
  lemma CycleExact(s: State)
    requires Inv(s) && s.pc.HalfFetched?
    ensures var called := Apply(s, Fetch);
            (called.pc.Calling? && called.pc.call.Whole()
             && !Listed(Apply(called, Return).timers, called.pc.call.second.id)) <==>
            s.timers != [] && s.timers[0].id == s.pc.id && s.pc.first.id == s.pc.id
    ensures var called := Apply(s, Fetch);
            called.pc.Calling? ==> !Listed(Apply(called, Return).timers, s.pc.id)
  {
    var called := Apply(s, Fetch);
    if called.pc.Calling? {
      RemoveKeepsOrderInv(called, s.pc.id, Apply(called, Return));
      if s.timers[0].id != s.pc.id {
        assert Remove(s.timers, s.pc.id)[0] == s.timers[0];
      }
    }
  }

  ghost predicate Reachable(t: State) {
    exists steps :: Runs(INIT, steps, t)
  }

  lemma {:induction false} Extend(s: State, steps: seq<Step>, t: State, step: Step)
    requires Runs(s, steps, t) && Enabled(t, step)
    ensures Runs(s, steps + [step], Apply(t, step))
    decreases |steps|
  {
    if steps != [] {
      Extend(Apply(s, steps[0]), steps[1..], t, step);
      assert (steps + [step])[1..] == steps[1..] + [step];
    } else {
      assert (steps + [step])[1..] == [];
    }
  }

  lemma Then(s: State, step: Step) returns (t: State)
    requires Reachable(s) && Enabled(s, step)
    ensures t == Apply(s, step) && Reachable(t)
  {
    var steps :| Runs(INIT, steps, s);
    Extend(INIT, steps, s, step);
    t := Apply(s, step);
  }

  // The thread waits for the head, times out, and finds it due.
  lemma ServeHead(s: State, now: Time) returns (t: State)
    requires Reachable(s) && s.pc.Top? && s.timers != []
    requires s.timers[0].when.Normal() && !now.Earlier(s.timers[0].when)
    ensures Reachable(t) && t == s.(pc := Fetching(s.timers[0].id, now))
  {
    t := Then(s, BeginWait);
    t := Then(t, Expire);
    t := Then(t, Relock);
    t := Then(t, Check(now));
  }

  // Two callers take ids and the first inserts its timer; the thread then finds it due.
  lemma FirstOfTwo(first: Timer, now: Time) returns (s: State)
    requires first.id == 1 && first.when.Normal() && first.when.sec >= 0 && !now.Earlier(first.when)
    ensures Reachable(s) && s.pc == Fetching(1, now) && s.timers == [first]
    ensures s.fired == [] && s.issued == {2} && s.uid == 2
  {
    assert Runs(INIT, [], INIT);
    s := Then(INIT, TakeId);
    s := Then(s, TakeId);
    s := Then(s, InsertTimer(first));
    s := Then(s, Lock);
    s := ServeHead(s, now);
  }

  // Both reads of the head, with nothing between them.
  lemma CallHead(s: State) returns (t: State)
    requires Reachable(s) && s.pc.Fetching? && s.timers != []
    ensures var call := Firing(s.timers[0], s.timers[0]);
            Reachable(t) && t == s.(pc := Calling(s.pc.id, call), fired := s.fired + [call])
  {
    t := Then(s, Read);
    t := Then(t, Fetch);
  }

  /** A run in which the race happens: an earlier timer inserted in the window is called twice,
      and the timer that was due is removed uncalled. */
  lemma RaceFiresTwice() returns (t: State)
    ensures var early := Timer(2, Time(3, 0));
            Reachable(t) && t.fired == [Firing(early, early), Firing(early, early)] && t.timers == []
  {
    var late, early, now := Timer(1, Time(5, 0)), Timer(2, Time(3, 0)), Time(6, 0);
    t := FirstOfTwo(late, now);
    t := Then(t, InsertTimer(early));
    assert t.timers == [early, late];
    t := CallHead(t);
    t := Then(t, Return);
    assert t.timers == [early] by {
      RemoveAt([early, late], 1, 1);
    }
    t := ServeHead(t, now);
    t := CallHead(t);
    t := Then(t, Return);
  }

  /** A run in which cancelling the noted timer makes the thread call one that is not due. */
  lemma RaceFiresEarly() returns (t: State, now: Time)
    ensures var early := Timer(2, Time(9, 0));
            Reachable(t) && t.fired == [Firing(early, early)] && now.Earlier(early.when)
  {
    var due, later := Timer(1, Time(5, 0)), Timer(2, Time(9, 0));
    now := Time(6, 0);
    t := FirstOfTwo(due, now);
    t := Then(t, InsertTimer(later));
    assert t.timers == [due, later] by {
      InsertAt([due], later, 1);
    }
    t := Then(t, Cancel(1));
    t := CallHead(t);
  }

  /** A run in which a timer inserted between the two reads makes the thread call one timer's function with
      another's argument. */
  lemma RaceMixesCalls() returns (t: State)
    ensures Reachable(t) && |t.fired| == 1 && !t.fired[0].Whole()
  {
    var late, early := Timer(1, Time(5, 0)), Timer(2, Time(3, 0));
    t := FirstOfTwo(late, Time(6, 0));
    t := Then(t, Read);
    t := Then(t, InsertTimer(early));
    t := Then(t, Fetch);
  }

  /** A run in which the only timer is cancelled in the window, and the thread reads an empty list. */
  lemma RaceReadsEmptyList() returns (t: State)
    ensures Reachable(t) && t.pc == Crashed
  {
    t := FirstOfTwo(Timer(1, Time(5, 0)), Time(6, 0));
    t := Then(t, Cancel(1));
    t := Then(t, Read);
  }
}
