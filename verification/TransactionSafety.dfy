/** What every run of the transactions of mdrive_communicate guarantees. */
module TransactionSafety {
  import opened Wrappers
  import opened Transaction

  lemma {:induction false} RunsKeepInv(s: State, steps: seq<Step>, t: State)
    requires Inv(s) && Runs(s, steps, t)
    ensures Inv(t)
    decreases |steps|
  {
    if steps != [] {
      StepKeepsInv(s, steps[0]);
      RunsKeepInv(Apply(s, steps[0]), steps[1..], t);
    }
  }

  /** Every finished call, nested ones included: a result it copied out carries the id of its own last
      transmission, it drew at most its number of tries of strictly increasing ids, and it left
      the nesting count and both locks as it found them. */
  lemma CallsAreSafe(steps: seq<Step>, t: State, o: Outcome)
    requires Runs(INIT, steps, t) && o in t.finished
    ensures o.result.Some? ==> o.call.txids != [] && o.result.value.txid == o.call.txids[|o.call.txids| - 1]
    ensures |o.call.txids| <= (if o.call.options.tries != 0 then o.call.options.tries else 2)
    ensures forall i, j :: 0 <= i < j < |o.call.txids| ==> o.call.txids[i] < o.call.txids[j]
    ensures o.exitNest == o.call.entryNest && o.exitDepth == o.call.entryDepth && !o.exitReceiveLocked
  {
    RunsKeepInv(INIT, steps, t);
  }

  /** Frames go out under strictly increasing ids, whichever call writes them. */
  lemma TransmissionsAreDistinct(steps: seq<Step>, t: State)
    requires Runs(INIT, steps, t)
    ensures forall i, j :: 0 <= i < j < |t.sent| ==> t.sent[i] < t.sent[j]
    ensures forall i :: 0 <= i < |t.sent| ==> t.sent[i] <= t.txid
  {
    RunsKeepInv(INIT, steps, t);
  }

  /** The non-recursive receive lock is free whenever a call is about to take it, in particular
      in the middle of a nested call; and once no call is in progress nothing is held. */
  lemma NoSelfDeadlock(steps: seq<Step>, t: State)
    requires Runs(INIT, steps, t)
    ensures At(t, Flushing) || At(t, LockingReceive) || At(t, Sleeping) ==> !t.receiveLocked
    ensures t.frames == [] ==> t.depth == 0 && t.txnest == 0 && !t.receiveLocked
  {
    RunsKeepInv(INIT, steps, t);
  }

  // ---------- Which frame a result answers ----------

  // The response replies to no frame but the one whose id it carries.
  predicate Timely(r: Response) {
    r.answers <= {r.txid}
  }

  /** While a call is in progress, the reader pushes no reply to a frame after a later id was drawn. */
  predicate InTime(s: State, step: Step) {
    step.ReaderPush? && s.txnest > 0 ==> step.answers <= {s.txid}
  }

  ghost predicate TimelyRuns(s: State, steps: seq<Step>, t: State)
    decreases |steps|
  {
    if steps == [] then s == t
    else Enabled(s, steps[0]) && InTime(s, steps[0]) && TimelyRuns(Apply(s, steps[0]), steps[1..], t)
  }

  ghost predicate TimelyInv(s: State) {
    && (s.txnest > 0 ==> forall i :: 0 <= i < |s.queue| ==> Timely(s.queue[i]))
    && (forall k :: 0 <= k < |s.frames| && s.frames[k].response.Some? ==> Timely(s.frames[k].response.value))
    && (forall i :: 0 <= i < |s.finished| && s.finished[i].result.Some? ==> Timely(s.finished[i].result.value))
  }

  lemma LookStaysTimely(s: State)
    requires Inv(s) && TimelyInv(s) && Enabled(s, Look)
    ensures TimelyInv(Apply(s, Look))
  {
    assert FrameInv(s, |s.frames| - 1) && s.txnest > 0;
    hide Inv;
  }

  lemma OutsideStaysTimely(s: State, step: Step)
    requires Inv(s) && TimelyInv(s) && Enabled(s, step) && InTime(s, step) && (step.ReaderPush? || step.OtherCaller?)
    ensures TimelyInv(Apply(s, step))
  {
  }

  lemma FinishStaysTimely(s: State)
    requires Inv(s) && TimelyInv(s) && Enabled(s, Finish)
    ensures TimelyInv(Apply(s, Finish))
  {
    hide Inv;
  }

  lemma StepStaysTimely(s: State, step: Step)
    requires Inv(s) && TimelyInv(s) && Enabled(s, step) && InTime(s, step)
    ensures TimelyInv(Apply(s, step))
  {
    match step
    case Look => LookStaysTimely(s);
    case ReaderPush(_, _, _, _) => OutsideStaysTimely(s, step);
    case OtherCaller(_, _) => OutsideStaysTimely(s, step);
    case Finish => FinishStaysTimely(s);
    case _ => hide Inv;
  }

  lemma {:induction false} TimelyRunsKeepInv(s: State, steps: seq<Step>, t: State)
    requires Inv(s) && TimelyInv(s) && TimelyRuns(s, steps, t)
    ensures Inv(t) && TimelyInv(t)
    decreases |steps|
  {
    hide Inv, TimelyInv, Enabled, Apply, InTime;
    if steps != [] {
      StepKeepsInv(s, steps[0]);
      StepStaysTimely(s, steps[0]);
      TimelyRunsKeepInv(Apply(s, steps[0]), steps[1..], t);
    }
  }

  /** As long as no reply comes in after the id of a later frame was drawn, a result holds replies to the
      last transmission of its call and to no other. */
  lemma ResultsAnswerLastFrame(steps: seq<Step>, t: State, o: Outcome)
    requires TimelyRuns(INIT, steps, t) && o in t.finished && o.result.Some?
    ensures o.call.txids != [] && o.result.value.answers <= {o.call.txids[|o.call.txids| - 1]}
  {
    TimelyRunsKeepInv(INIT, steps, t);
  }

  ghost predicate Reachable(t: State) {
    exists steps :: Runs(INIT, steps, t)
  }

  lemma {:induction false} Extend(s: State, steps: seq<Step>, t: State, step: Step)
    requires Runs(s, steps, t) && Enabled(t, step)
    ensures Runs(s, steps + [step], Apply(t, step))
    decreases |steps|
  {
    hide Enabled, Apply;
    if steps != [] {
      Extend(Apply(s, steps[0]), steps[1..], t, step);
      assert (steps + [step])[1..] == steps[1..] + [step];
    } else {
      assert (steps + [step])[1..] == [];
    }
  }

  lemma Then(s: State, step: Step) returns (t: State)
    requires Reachable(s) && Enabled(s, step)
    ensures t == Apply(s, step) && Reachable(t)
  {
    var steps :| Runs(INIT, steps, s);
    Extend(INIT, steps, s, step);
    t := Apply(s, step);
  }

  // One call with the default options is in progress.
  function Solo(pc: Pc, left: int, txids: seq<int>, status: Status, response: Option<Response>,
                queue: seq<Response>, locked: bool): State
  {
    State(|txids|, queue, locked, 1, 1, [SoloFrame(pc, left, txids, status, response)], txids, [])
  }

  function SoloFrame(pc: Pc, left: int, txids: seq<int>, status: Status, response: Option<Response>): Frame {
    var judged := if pc == Finishing && response.Some? then [Judgement(2, Timeout, LATE, status, 0)] else [];
    Frame(pc, Options(0, false, false, false, false), left, txids, status, response, 0, 0, txids, judged)
  }

  lemma Entered() returns (s: State)
    ensures Reachable(s) && s == Solo(Trying, 2, [], Ok, None, [], false)
  {
    assert Runs(INIT, [], INIT);
    s := Then(INIT, Call(Options(0, false, false, false, false)));
    s := Then(s, TakeTransactionLock);
    s := Then(s, Flush);
    assert s.sent == [];
  }

  // A transmission, under the next id.
  lemma Transmitted(s: State, left: nat, txids: seq<int>, status: Status) returns (t: State)
    requires Reachable(s) && s == Solo(Trying, left + 1, txids, status, None, [], false)
    ensures Reachable(t) && t == Solo(LockingReceive, left, txids + [|txids| + 1], status, None, [], false)
  {
    t := Then(s, Try);
    t := Then(t, Write(true));
  }

  lemma Slept(s: State) returns (t: State)
    requires Reachable(s) && s == Solo(LockingReceive, 1, [1], Ok, None, [], false)
    ensures Reachable(t) && t == Solo(Sleeping, 1, [1], Ok, None, [], false)
  {
    t := Then(s, TakeReceiveLock);
    t := Then(t, Look);
  }

  lemma HeardNothing(s: State) returns (t: State)
    requires Reachable(s) && s == Solo(Sleeping, 1, [1], Ok, None, [], false)
    ensures Reachable(t) && t == Solo(Processing, 1, [1], Timeout, None, [], false)
  {
    t := Then(s, TimeOut);
  }

  lemma Retried(s: State) returns (t: State)
    requires Reachable(s) && s == Solo(Processing, 1, [1], Timeout, None, [], false)
    ensures Reachable(t) && t == Solo(Trying, 1, [1], Timeout, None, [], false)
  {
    t := Then(s, Examine);
    assert t == Solo(Resending, 1, [1], Timeout, None, [], false);
    t := Then(t, Resend);
  }

  // The reply to the first frame, read after the second was sent.
  const LATE := Response(2, 1, 0, true, {1})

  lemma LateReplyComesIn(s: State) returns (t: State)
    requires Reachable(s) && s == Solo(LockingReceive, 0, [1, 2], Timeout, None, [], false)
    ensures Reachable(t) && t == Solo(Waiting, 0, [1, 2], Timeout, None, [LATE], true)
  {
    t := Then(s, ReaderPush(1, 0, true, {1}));
    assert t == Solo(LockingReceive, 0, [1, 2], Timeout, None, [LATE], false);
    t := Then(t, TakeReceiveLock);
  }

  lemma LateReplyIsPopped(s: State) returns (t: State)
    requires Reachable(s) && s == Solo(Waiting, 0, [1, 2], Timeout, None, [LATE], true)
    ensures Reachable(t) && t == Solo(Deciding, 0, [1, 2], Timeout, Some(LATE), [], false)
  {
    t := Then(s, Look);
    assert [LATE][..0] == [];
    t := Then(t, Examine);
  }

  lemma LateReplyIsKept(s: State) returns (t: State)
    requires Reachable(s) && s == Solo(Deciding, 0, [1, 2], Timeout, Some(LATE), [], false)
    ensures Reachable(t) && t == Solo(Classifying, 0, [1, 2], Timeout, Some(LATE), [], false)
  {
    t := Then(s, Decide(false));
  }

  lemma LateReplyIsTaken(s: State) returns (t: State)
    requires Reachable(s) && s == Solo(Classifying, 0, [1, 2], Timeout, Some(LATE), [], false)
    ensures Reachable(t) && t == Solo(Finishing, 0, [1, 2], Ok, Some(LATE), [], false)
  {
    var judgement := Judgement(2, Timeout, LATE, Ok, 0);
    assert [] + [judgement] == [judgement];
    t := Then(s, Classify(Ok, 0));
  }

  lemma LateReplyIsHandedOut(s: State) returns (t: State)
    requires Reachable(s) && s == Solo(Finishing, 0, [1, 2], Ok, Some(LATE), [], false)
    ensures Reachable(t) && |t.finished| == 1 && t.finished[0].status == Ok
    ensures t.finished[0].call.txids == [1, 2] && t.finished[0].result == Some(LATE)
  {
    t := Then(s, Finish);
  }

  /** Otherwise it need not: the reply to the first frame, read after the retry has drawn its id, is
      stamped with that id, and is returned as the answer to the retry. */
  lemma LateReplyIsReturned() returns (t: State)
    ensures Reachable(t) && |t.finished| == 1 && t.finished[0].status == Ok
    ensures t.finished[0].call.txids == [1, 2] && t.finished[0].result == Some(LATE)
    ensures LATE.txid == 2 && LATE.answers == {1}
  {
    hide Reachable, Solo;
    t := Entered();
    t := Transmitted(t, 1, [], Ok);
    assert [] + [1] == [1] && [1] + [2] == [1, 2];
    t := Slept(t);
    t := HeardNothing(t);
    t := Retried(t);
    t := Transmitted(t, 0, [1], Timeout);
    t := LateReplyComesIn(t);
    t := LateReplyIsPopped(t);
    t := LateReplyIsKept(t);
    t := LateReplyIsTaken(t);
    t := LateReplyIsHandedOut(t);
  }
}
