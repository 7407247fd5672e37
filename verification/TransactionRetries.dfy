/**
 When mdrive_communicate sends a frame again, what it hands out and with what status:
 read off the finished calls of every run.
 */
module TransactionRetries {
  import opened Wrappers
  import opened Transaction
  import opened TransactionSafety

  /** A judgement after which the call is over. */
  predicate Settles(options: Options, j: Judgement) {
    j.status == Ok || options.expectError || (j.status == Error && j.code != 0)
  }

  /** A bare acknowledgement is not judged where data is expected, as long as nothing has timed out. */
  predicate MayBeJudged(options: Options, j: Judgement) {
    options.expectData && j.reply.length == 0 && j.reply.mark ==> j.reply.code == 0 && j.before == Timeout
  }

  ghost predicate JudgedOnce(f: Frame) {
    && (forall i, j :: 0 <= i < j < |f.judged| ==> f.judged[i].txid < f.judged[j].txid)
    && (forall i :: 0 <= i < |f.judged| ==> f.judged[i].txid in f.txids && MayBeJudged(f.options, f.judged[i]))
    && (f.judged != [] ==> f.txids != [] && f.judged[|f.judged| - 1].txid <= f.Txid())
  }

  // The last judgement is of the last transmission.
  predicate JudgedLast(f: Frame) {
    f.judged != [] && f.txids != [] && f.judged[|f.judged| - 1].txid == f.Txid()
  }

  /** None of the first n judgements settled the call. */
  ghost predicate Unsettled(f: Frame, n: nat) {
    forall i :: 0 <= i < |f.judged| && i < n ==> !Settles(f.options, f.judged[i])
  }

  // Whether what was written and judged fits where the call is.
  ghost predicate Explained(f: Frame) {
    if f.pc == Finishing then Ended(f)
    else
      && Unsettled(f, |f.judged|)
      && (JudgedLast(f) ==> f.pc in {Resending, Trying})
      && f.written == if f.pc == Sending then Before(f.txids) else f.txids
  }

  function Before(ids: seq<int>): seq<int> {
    if ids == [] then [] else ids[..|ids| - 1]
  }

  /** The result is the reply of the last judgement, which settled the call. */
  predicate Answered(f: Frame) {
    && f.response.Some? && JudgedLast(f) && f.written == f.txids
    && var j := f.judged[|f.judged| - 1];
       Settles(f.options, j) && f.status == j.status && f.response == Some(j.reply.(code := j.code))
  }

  /** Data was expected, and an acknowledgement came without it but with an error code. */
  predicate EndedEarly(f: Frame) {
    && f.response.Some? && !JudgedLast(f) && f.written == f.txids && f.txids != []
    && f.options.expectData && f.response.value.length == 0 && f.response.value.mark && f.response.value.code != 0
  }

  /** All tries were drawn, written, and came to nothing. */
  predicate Exhausted(f: Frame) {
    f.response.None? && f.left == -1 && |f.txids| == f.Tries() && f.written == f.txids
  }

  predicate WriteFailed(f: Frame) {
    f.response.None? && f.txids != [] && f.written == Before(f.txids) && f.status == IoError && !JudgedLast(f)
  }

  /** Nothing was to be heard, and nothing was. */
  predicate Silent(f: Frame) {
    f.response.None? && f.txids != [] && f.written == f.txids && f.status == Status.Ok
    && f.options.silent && !f.options.expectData && !JudgedLast(f)
  }

  ghost predicate Ended(f: Frame) {
    (Answered(f) && Unsettled(f, |f.judged| - 1))
    || (Unsettled(f, |f.judged|) && (EndedEarly(f) || Exhausted(f) || WriteFailed(f) || Silent(f)))
  }

  // A response that is waited on came because data is expected, and one that is going to be judged may be.
  predicate Fitting(f: Frame) {
    && (f.pc in {LockingReceive, Waiting, Sleeping} && f.response.Some? ==> f.options.expectData)
    && (f.pc == Classifying && f.response.Some? ==>
          MayBeJudged(f.options, Judgement(0, f.status, f.response.value, Ok, 0)))
  }

  ghost predicate Account(f: Frame) {
    JudgedOnce(f) && Explained(f) && Fitting(f)
  }

  ghost predicate AccountInv(s: State) {
    && (forall k :: 0 <= k < |s.frames| ==> Account(s.frames[k]))
    && (forall i :: 0 <= i < |s.finished| ==> Settled(s.finished[i]))
  }

  ghost predicate Settled(o: Outcome) {
    && JudgedOnce(o.call) && Ended(o.call)
    && |o.call.txids| == o.call.Tries() - (if o.call.left == -1 then 0 else o.call.left)
    && o.result == o.call.response
    && o.status == if o.result.None? && o.call.left == 0 then IoError else o.call.status
  }

  // ---------- What every step keeps ----------

  // A step of the innermost call that neither draws an id nor judges.
  predicate Plain(step: Step) {
    step.TakeTransactionLock? || step.Flush? || step.TakeReceiveLock? || step.Look? || step.Wake? || step.TimeOut?
    || step.Examine? || step.Resend? || step.Write? || step.Decide?
  }

  lemma SameJudgements(f: Frame, g: Frame)
    requires g.judged == f.judged && g.txids == f.txids && g.options == f.options
    ensures JudgedOnce(g) == JudgedOnce(f) && JudgedLast(g) == JudgedLast(f)
    ensures Unsettled(g, |g.judged|) == Unsettled(f, |f.judged|)
  {
  }

  lemma PlainStep(s: State, step: Step)
    requires Enabled(s, step) && Plain(step) && s.frames != [] && Account(Top(s))
    requires TriesAccounted(Top(s)) && ResponseIsCurrent(Top(s))
    ensures Account(Top(Apply(s, step)))
  {
    match step
    case Write(ok) => WriteStep(s, ok);
    case Look => LookStep(s);
    case Decide(echoed) => DecideStep(s, echoed);
    case TimeOut => TimeOutStep(s);
    case _ => QuietStep(s, step);
  }

  lemma QuietStep(s: State, step: Step)
    requires Enabled(s, step) && Plain(step) && s.frames != [] && Account(Top(s)) && ResponseIsCurrent(Top(s))
    requires !step.Write? && !step.Look? && !step.Decide? && !step.TimeOut?
    ensures Account(Top(Apply(s, step)))
  {
    var f, g := Top(s), Top(Apply(s, step));
    SameJudgements(f, g);
    hide JudgedOnce, JudgedLast, Unsettled, Ended, MayBeJudged;
  }

  lemma TimeOutStep(s: State)
    requires Enabled(s, TimeOut) && Account(Top(s)) && ResponseIsCurrent(Top(s))
    ensures Account(Top(Apply(s, TimeOut)))
  {
    var f, g := Top(s), Top(Apply(s, TimeOut));
    SameJudgements(f, g);
    hide JudgedOnce, JudgedLast, Unsettled, MayBeJudged;
  }

  lemma WriteStep(s: State, ok: bool)
    requires Enabled(s, Write(ok)) && Account(Top(s)) && ResponseIsCurrent(Top(s))
    ensures Account(Top(Apply(s, Write(ok))))
  {
    var f, g := Top(s), Top(Apply(s, Write(ok)));
    SameJudgements(f, g);
    LastWritten(f.txids);
    hide JudgedOnce, JudgedLast, Unsettled, MayBeJudged, Before;
    if ok {
      hide Ended;
    } else {
      hide Answered, EndedEarly, Exhausted, Silent;
    }
  }

  lemma LastWritten(ids: seq<int>)
    requires ids != []
    ensures Before(ids) + [ids[|ids| - 1]] == ids
  {
  }

  lemma LookStep(s: State)
    requires Enabled(s, Look) && Account(Top(s)) && ResponseIsCurrent(Top(s))
    ensures Account(Top(Apply(s, Look)))
  {
    var f, g := Top(s), Top(Apply(s, Look));
    SameJudgements(f, g);
    hide JudgedOnce, JudgedLast, Unsettled, MayBeJudged, Combined;
  }

  lemma DecideStep(s: State, echoed: bool)
    requires Enabled(s, Decide(echoed)) && Account(Top(s)) && ResponseIsCurrent(Top(s))
    ensures Account(Top(Apply(s, Decide(echoed))))
  {
    var f, g := Top(s), Top(Apply(s, Decide(echoed)));
    SameJudgements(f, g);
    hide JudgedOnce, JudgedLast, Unsettled;
  }

  lemma TryStep(s: State)
    requires Enabled(s, Try) && Account(Top(s)) && TriesAccounted(Top(s)) && ResponseIsCurrent(Top(s))
    requires forall i :: 0 <= i < |Top(s).txids| ==> Top(s).txids[i] <= s.txid
    ensures Account(Top(Apply(s, Try)))
  {
    hide Account, TriesAccounted, ResponseIsCurrent;
    var f := Top(s);
    if f.left == 0 {
      assert Top(Apply(s, Try)) == f.(pc := Finishing, left := -1);
      NoTryLeft(f);
    } else {
      assert Top(Apply(s, Try)) == f.(pc := Sending, left := f.left - 1, txids := f.txids + [s.txid + 1]);
      TryAgain(f, s.txid + 1);
    }
  }

  lemma NoTryLeft(f: Frame)
    requires f.pc == Trying && f.left == 0 && Account(f) && TriesAccounted(f) && ResponseIsCurrent(f)
    ensures Account(f.(pc := Finishing, left := -1))
  {
    SameJudgements(f, f.(pc := Finishing, left := -1));
    hide JudgedOnce, JudgedLast, Unsettled, Increasing;
  }

  lemma TryAgain(f: Frame, id: int)
    requires f.pc == Trying && Account(f) && ResponseIsCurrent(f)
    requires forall i :: 0 <= i < |f.txids| ==> f.txids[i] < id
    ensures Account(f.(pc := Sending, left := f.left - 1, txids := f.txids + [id]))
  {
    var g := f.(pc := Sending, left := f.left - 1, txids := f.txids + [id]);
    assert Before(g.txids) == f.txids;
    NewId(f, g, id);
    hide JudgedOnce, JudgedLast, Unsettled, Before, Ended;
  }

  lemma NewId(f: Frame, g: Frame, id: int)
    requires JudgedOnce(f) && g.judged == f.judged && g.txids == f.txids + [id] && g.options == f.options
    requires forall i :: 0 <= i < |f.txids| ==> f.txids[i] < id
    ensures JudgedOnce(g) && !JudgedLast(g) && Unsettled(g, |g.judged|) == Unsettled(f, |f.judged|)
  {
    assert forall x :: x in f.txids ==> x < id;
  }

  lemma ClassifyStep(s: State, status: Status, code: int)
    requires Enabled(s, Classify(status, code)) && Account(Top(s)) && ResponseIsCurrent(Top(s))
    ensures Account(Top(Apply(s, Classify(status, code))))
  {
    var f, g := Top(s), Top(Apply(s, Classify(status, code)));
    var j := Judgement(f.Txid(), f.status, f.response.value, status, code);
    assert g.judged == f.judged + [j];
    NewJudgement(f, g, j);
    hide JudgedOnce, Unsettled;
  }

  lemma NewJudgement(f: Frame, g: Frame, j: Judgement)
    requires JudgedOnce(f) && f.txids != [] && !JudgedLast(f) && Unsettled(f, |f.judged|)
    requires g.judged == f.judged + [j] && g.txids == f.txids && g.options == f.options
    requires j.txid == f.Txid() && MayBeJudged(f.options, j)
    ensures JudgedOnce(g) && JudgedLast(g) && Unsettled(g, |g.judged| - 1)
    ensures Unsettled(g, |g.judged|) <==> !Settles(g.options, j)
  {
    hide Settles, MayBeJudged;
    assert g.judged[|f.judged|] == j;
  }

  // ---------- Over runs ----------

  lemma FrameStep(s: State, step: Step)
    requires Inv(s) && Enabled(s, step) && s.frames != [] && Account(Top(s))
    requires Plain(step) || step.Try? || step.Classify?
    ensures Account(Top(Apply(s, step)))
  {
    assert FrameInv(s, |s.frames| - 1);
    hide Account, Inv, Enabled, Apply;
    match step
    case Try => TryStep(s);
    case Classify(status, code) => ClassifyStep(s, status, code);
    case _ => PlainStep(s, step);
  }

  lemma AccountStep(s: State, step: Step)
    requires Inv(s) && Enabled(s, step) && AccountInv(s)
    ensures AccountInv(Apply(s, step))
  {
    var t := Apply(s, step);
    if Plain(step) || step.Try? || step.Classify? {
      FrameStep(s, step);
      OneFrame(s, t);
    } else if step.Call? {
      FirstAccount(Top(t));
      hide Account, Settled, Inv;
    } else if step.Finish? {
      FinishStep(s);
    } else {
      hide Account, Settled, Inv;
    }
  }

  lemma FinishStep(s: State)
    requires Inv(s) && Enabled(s, Finish) && AccountInv(s)
    ensures AccountInv(Apply(s, Finish))
  {
    hide Account, Settled, TriesAccounted, ResponseIsCurrent, Increasing, OutcomeInv, LocksAccounted;
    assert FrameInv(s, |s.frames| - 1) && Account(Top(s));
    hide Inv, FrameInv;
    var t := Apply(s, Finish);
    FinishedCall(Top(s), t.finished[|s.finished|]);
  }

  lemma FinishedCall(f: Frame, o: Outcome)
    requires f.pc == Finishing && Account(f) && TriesAccounted(f) && o.call == f && o.result == f.response
    requires o.status == if f.response.None? && f.left == 0 then IoError else f.status
    ensures Settled(o)
  {
    hide JudgedOnce, Ended, Fitting, Increasing;
  }

  lemma FirstAccount(f: Frame)
    requires f.pc == Entering && f.txids == [] && f.judged == [] && f.written == [] && f.response.None?
    ensures Account(f)
  {
  }

  lemma OneFrame(s: State, t: State)
    requires AccountInv(s) && s.frames != [] && |t.frames| == |s.frames| && Account(Top(t)) && t.finished == s.finished
    requires forall k :: 0 <= k < |s.frames| - 1 ==> t.frames[k] == s.frames[k]
    ensures AccountInv(t)
  {
    hide Account, Settled;
  }

  lemma {:induction false} RunsAccount(s: State, steps: seq<Step>, t: State)
    requires Inv(s) && AccountInv(s) && Runs(s, steps, t)
    ensures AccountInv(t)
    decreases |steps|
  {
    hide Inv, AccountInv, Enabled, Apply;
    if steps != [] {
      StepKeepsInv(s, steps[0]);
      AccountStep(s, steps[0]);
      RunsAccount(Apply(s, steps[0]), steps[1..], t);
    }
  }

  // ---------- What the caller can rely on ----------

  /** What is handed out: without `expectError`, only with status Ok, or Error and an error code, or because
      data was expected and only an acknowledgement with an error code came. */
  lemma WhatIsHandedOut(steps: seq<Step>, t: State, o: Outcome)
    requires Runs(INIT, steps, t) && o in t.finished && o.result.Some? && !o.call.options.expectError
    ensures
      var r := o.result.value;
      || o.status == Ok
      || (o.status == Error && r.code != 0)
      || (o.call.options.expectData && r.length == 0 && r.mark && r.code != 0)
  {
    RunsAccount(INIT, steps, t);
  }

  /** When a frame is sent again: a judgement of Ok, or of Error with an error code, or any if errors are
      expected, is the last, with no id drawn after it, and is what the call returns; after any other an id
      is drawn again, unless all tries were. And one transmission is judged once. */
  lemma WhenSentAgain(steps: seq<Step>, t: State, o: Outcome, i: nat)
    requires Runs(INIT, steps, t) && o in t.finished && i < |o.call.judged|
    ensures
      var j, ids := o.call.judged[i], o.call.txids;
      && ids != [] && j.txid in ids && (forall k :: 0 <= k < |o.call.judged| && k != i ==> o.call.judged[k].txid != j.txid)
      && (if Settles(o.call.options, j)
          then j.txid == ids[|ids| - 1] && o.status == j.status && o.result == Some(j.reply.(code := j.code))
          else j.txid < ids[|ids| - 1] || (o.result.None? && |ids| == o.call.Tries()))
  {
    RunsAccount(INIT, steps, t);
    var f, j := o.call, o.call.judged[i];
    assert Settled(o);
    assert j.txid <= f.judged[|f.judged| - 1].txid;
    hide MayBeJudged;
  }

  /** Without a result the call has drawn all its tries, or the last write failed, or nothing was to be heard;
      a silent call says IoError instead of Ok if it has drawn its only or last try. */
  lemma WithoutResult(steps: seq<Step>, t: State, o: Outcome)
    requires Runs(INIT, steps, t) && o in t.finished && o.result.None?
    ensures
      var f := o.call;
      || (|f.txids| == f.Tries() && f.written == f.txids)
      || (f.txids != [] && f.written == Before(f.txids) && o.status == IoError)
      || (f.options.silent && !f.options.expectData && f.written == f.txids && o.status == Ok)
    ensures o.call.left == 0 ==> o.status == IoError
  {
    RunsAccount(INIT, steps, t);
    assert Settled(o);
    hide JudgedOnce, Unsettled;
  }

  /** Where data is expected, an acknowledgement without it is only judged after something timed out. */
  lemma AcknowledgementsAreWaitedOut(steps: seq<Step>, t: State, o: Outcome, i: nat)
    requires Runs(INIT, steps, t) && o in t.finished && i < |o.call.judged|
    ensures MayBeJudged(o.call.options, o.call.judged[i])
  {
    RunsAccount(INIT, steps, t);
  }
}
