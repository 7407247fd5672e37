/**
 mdrive_communicate (drivers/mdrive/serial.c) as a state machine: any nesting
 of calls made while a reply is classified, against any behaviour of the
 reader thread and of other users of the channel. One step per atomic action;
 the transaction lock is recursive, the receive lock is not.
 */
module Transaction {
  import opened Wrappers

  // Number of tries when the caller gives none: one and MAX_RETRIES.
  const DEFAULT_TRIES := 2

  // What the call looks at in a response; `mark` stands for ACK, NACK or CR LF received. The transaction id
  // is the one the channel had when the reader pushed the response; the frames that its bytes reply to are
  // noted for the proof, by their ids, and nothing in the program looks at them.
  datatype Response = Response(txid: int, length: nat, code: int, mark: bool, answers: set<int>)

  datatype Status = Ok | Retry | Error | Nack | BadChecksum | Unknown | Timeout | IoError

  datatype Options = Options(tries: nat, expectData: bool, expectError: bool, silent: bool, echo: bool)

  datatype Pc =
    | Entering          // about to take the transaction lock
    | Flushing          // about to flush the queue if this is the outermost call
    | Trying            // at the head of the retry loop
    | Sending           // transaction id drawn, about to write
    | LockingReceive    // about to take the receive lock
    | Waiting           // holds the receive lock, looks at the queue
    | Sleeping          // inside the timed condition wait
    | Processing        // looks at the response, if any
    | Deciding          // the response is for this transaction
    | Classifying       // may make nested calls
    | Resending
    | Finishing

  // A response as it was handed to the classifier, under which id, with what status before and after.
  datatype Judgement = Judgement(txid: int, before: Status, reply: Response, status: Status, code: int)

  datatype Frame = Frame(
    pc: Pc,
    options: Options,
    left: int,                    // the loop counter
    txids: seq<int>,              // the ids this call has drawn
    status: Status,
    response: Option<Response>,
    entryNest: int,
    entryDepth: nat,
    written: seq<int>,            // kept for the proof: the ids whose frames were written
    judged: seq<Judgement>)       // and the judgements, in order
  {
    function Tries(): nat {
      if options.tries != 0 then options.tries else DEFAULT_TRIES
    }

    function Txid(): int
      requires txids != []
    {
      txids[|txids| - 1]
    }
  }

  // One finished call.
  datatype Outcome = Outcome(
    call: Frame,
    status: Status,
    result: Option<Response>,     // what is copied to the caller
    exitNest: int,
    exitDepth: nat,
    exitReceiveLocked: bool)

  datatype State = State(
    txid: int,                    // of the channel
    queue: seq<Response>,
    receiveLocked: bool,
    depth: nat,                   // how often the calling thread holds the transaction lock
    txnest: int,
    frames: seq<Frame>,           // the calls in progress, innermost last
    sent: seq<int>,               // ids of the frames written, by whatever call
    finished: seq<Outcome>)

  datatype Step =
    | Call(options: Options)
    | TakeTransactionLock
    | Flush
    | Try
    | Write(ok: bool)
    | TakeReceiveLock
    | Look
    | Wake
    | TimeOut
    | Examine
    | Decide(echoed: bool)
    | Classify(status: Status, code: int)
    | Resend
    | Finish
    | ReaderPush(length: nat, code: int, mark: bool, answers: set<int>)
    | OtherCaller(advance: nat, queue: seq<Response>)

  const INIT: State := State(0, [], false, 0, 0, [], [], [])

  function Top(s: State): Frame
    requires s.frames != []
  {
    s.frames[|s.frames| - 1]
  }

  predicate At(s: State, pc: Pc) {
    s.frames != [] && Top(s).pc == pc
  }

  function WithTop(s: State, f: Frame): State
    requires s.frames != []
  {
    s.(frames := s.frames[|s.frames| - 1 := f])
  }

  predicate Enabled(s: State, step: Step) {
    match step
    case Call(_) => s.frames == [] || At(s, Classifying)
    case TakeTransactionLock => At(s, Entering)
    case Flush => At(s, Flushing) && !s.receiveLocked
    case Try => At(s, Trying)
    case Write(_) => At(s, Sending) && Top(s).txids != []
    case TakeReceiveLock => At(s, LockingReceive) && !s.receiveLocked
    case Look => At(s, Waiting)
    case Wake => At(s, Sleeping) && !s.receiveLocked
    case TimeOut => At(s, Sleeping) && !s.receiveLocked
    case Examine => At(s, Processing) && Top(s).txids != []
    case Decide(_) => At(s, Deciding) && Top(s).response.Some?
    case Classify(_, _) => At(s, Classifying) && Top(s).response.Some? && Top(s).txids != []
    case Resend => At(s, Resending)
    case Finish => At(s, Finishing) && s.depth > 0
    case ReaderPush(_, _, _, answers) => !s.receiveLocked && forall id <- answers :: id in s.sent
    case OtherCaller(_, _) => s.depth == 0 && !s.receiveLocked
  }

  /** mdrive_combine_response, as far as it matters here: other transactions are not joined. */
  function Combined(a: Response, b: Response): Response {
    if a.txid != b.txid then a
    else
      Response(a.txid, a.length + b.length, if b.code != 0 then b.code else a.code, a.mark || b.mark,
               a.answers + b.answers)
  }

  // The queue is used as a stack: the newest response is taken.
  function Taken(s: State): State
    requires At(s, Waiting) && s.queue != []
  {
    var f, newest := Top(s), s.queue[|s.queue| - 1];
    var response := match f.response case Some(r) => Combined(r, newest) case None => newest;
    WithTop(s, f.(pc := Processing, response := Some(response)))
      .(queue := s.queue[..|s.queue| - 1], receiveLocked := false)
  }

  function Decided(f: Frame, echoed: bool): Frame
    requires f.response.Some?
  {
    var r := f.response.value;
    if f.options.expectData && r.length == 0 && r.mark then
      if r.code != 0 then f.(pc := Finishing)
      else if f.status != Timeout then f.(pc := LockingReceive)
      else f.(pc := Classifying)
    else if f.options.expectData && f.options.echo && r.length > 0 && echoed then
      f.(pc := LockingReceive, response := Some(r.(length := 0)))
    else f.(pc := Classifying)
  }

  function Classified(f: Frame, status: Status, code: int): Frame
    requires f.response.Some?
  {
    var f := f.(status := status, response := Some(f.response.value.(code := code)));
    if status == Ok || f.options.expectError || (status == Error && code != 0) then f.(pc := Finishing)
    else f.(pc := Resending)
  }

  /** The exit: copy the result out, undo the nesting, release the transaction lock. */
  function Returned(s: State): State
    requires At(s, Finishing) && s.depth > 0
  {
    var f := Top(s);
    var status := if f.response.None? && f.left == 0 then IoError else f.status;
    s.(frames := s.frames[..|s.frames| - 1], txnest := s.txnest - 1, depth := s.depth - 1,
       finished := s.finished + [Outcome(f, status, f.response, s.txnest - 1, s.depth - 1, s.receiveLocked)])
  }

  function Apply(s: State, step: Step): State
    requires Enabled(s, step)
  {
    match step
    case Call(options) =>
      var frame := Frame(Entering, options, 0, [], Ok, None, s.txnest, s.depth, [], []);
      s.(frames := s.frames + [frame.(left := frame.Tries())])
    case TakeTransactionLock =>
      WithTop(s, Top(s).(pc := Flushing)).(depth := s.depth + 1)
    case Flush =>
      WithTop(s, Top(s).(pc := Trying))
        .(queue := if s.txnest == 0 then [] else s.queue, txnest := s.txnest + 1)
    case Try =>
      if Top(s).left == 0 then WithTop(s, Top(s).(pc := Finishing, left := -1))
      else WithTop(s, Top(s).(pc := Sending, left := Top(s).left - 1, txids := Top(s).txids + [s.txid + 1]))
             .(txid := s.txid + 1)
    case Write(ok) =>
      if ok then
        WithTop(s, Top(s).(pc := LockingReceive, written := Top(s).written + [Top(s).Txid()]))
          .(sent := s.sent + [Top(s).Txid()])
      else WithTop(s, Top(s).(pc := Finishing, status := IoError))
    case TakeReceiveLock =>
      WithTop(s, Top(s).(pc := Waiting)).(receiveLocked := true)
    case Look =>
      if s.queue == [] then WithTop(s, Top(s).(pc := Sleeping)).(receiveLocked := false)
      else Taken(s)
    case Wake =>
      WithTop(s, Top(s).(pc := Waiting)).(receiveLocked := true)
    case TimeOut =>
      if Top(s).options.silent && !Top(s).options.expectData
      then WithTop(s, Top(s).(pc := Finishing, status := Ok))
      else WithTop(s, Top(s).(pc := Processing, status := Timeout))
    case Examine =>
      WithTop(s, Top(s).(pc := if Top(s).response.Some? && Top(s).response.value.txid == Top(s).Txid()
                               then Deciding else Resending))
    case Decide(echoed) =>
      WithTop(s, Decided(Top(s), echoed))
    case Classify(status, code) =>
      var f := Top(s);
      var judgement := Judgement(f.Txid(), f.status, f.response.value, status, code);
      WithTop(s, Classified(f, status, code).(judged := f.judged + [judgement]))
    case Resend =>
      WithTop(s, Top(s).(pc := Trying, response := None))
    case Finish =>
      Returned(s)
    case ReaderPush(length, code, mark, answers) =>
      s.(queue := s.queue + [Response(s.txid, length, code, mark, answers)])
    case OtherCaller(advance, queue) =>
      s.(txid := s.txid + advance, queue := queue)
  }

  ghost predicate Runs(s: State, steps: seq<Step>, t: State)
    decreases |steps|
  {
    if steps == [] then s == t
    else Enabled(s, steps[0]) && Runs(Apply(s, steps[0]), steps[1..], t)
  }

  // ---------- Invariants ----------

  ghost predicate Increasing(ids: seq<int>) {
    forall i, j :: 0 <= i < j < |ids| ==> ids[i] < ids[j]
  }

  /** The counters of one call: the tries left and the ids drawn account for each other. */
  ghost predicate TriesAccounted(f: Frame) {
    && -1 <= f.left <= f.Tries()
    && |f.txids| == f.Tries() - (if f.left == -1 then 0 else f.left)
    && (f.left == -1 ==> f.pc == Finishing && f.response.None?)
    && Increasing(f.txids)
  }

  /** Beyond the check, and whenever it waits for more, a call only holds a response to its
      latest transmission. */
  ghost predicate ResponseIsCurrent(f: Frame) {
    && (f.pc in {Entering, Flushing, Trying, Sending} ==> f.response.None?)
    && (f.pc in {Deciding, Classifying} ==> f.response.Some?)
    && (f.pc in {Sending, LockingReceive, Waiting, Sleeping, Processing, Deciding, Classifying} ==> f.txids != [])
    && (f.response.Some? && f.pc !in {Processing, Resending} ==>
          f.txids != [] && f.response.value.txid == f.Txid())
  }

  /** Call number k of the nesting, and what it has done to the shared counters. */
  ghost predicate FrameInv(s: State, k: nat)
    requires k < |s.frames|
  {
    var f := s.frames[k];
    && f.entryNest == k && f.entryDepth == k
    && (k + 1 < |s.frames| ==> f.pc == Classifying)
    && TriesAccounted(f) && ResponseIsCurrent(f)
    && (forall i :: 0 <= i < |f.txids| ==> f.txids[i] <= s.txid)
    && (f.pc == Sending ==> f.txids[|f.txids| - 1] == s.txid && forall i :: 0 <= i < |s.sent| ==> s.sent[i] < s.txid)
  }

  ghost predicate LocksAccounted(s: State) {
    var n := |s.frames|;
    && s.depth == (if At(s, Entering) then n - 1 else n)
    && s.txnest == (if At(s, Entering) || At(s, Flushing) then n - 1 else n)
    && (s.receiveLocked <==> At(s, Waiting))
  }

  ghost predicate OutcomeInv(o: Outcome) {
    && (o.result.Some? ==> o.call.txids != [] && o.result.value.txid == o.call.Txid())
    && |o.call.txids| <= o.call.Tries()
    && Increasing(o.call.txids)
    && o.exitNest == o.call.entryNest && o.exitDepth == o.call.entryDepth && !o.exitReceiveLocked
  }

  ghost predicate Inv(s: State) {
    && LocksAccounted(s)
    && (forall k :: 0 <= k < |s.frames| ==> FrameInv(s, k))
    && Increasing(s.sent) && (forall i :: 0 <= i < |s.sent| ==> s.sent[i] <= s.txid)
    && (forall i :: 0 <= i < |s.finished| ==> OutcomeInv(s.finished[i]))
  }

  // A step that changes the innermost call only.
  lemma TopChanged(s: State, t: State, f: Frame)
    requires Inv(s) && s.frames != [] && t.frames == s.frames[|s.frames| - 1 := f]
    requires t.txid >= s.txid && t.sent == s.sent
    requires f.entryNest == Top(s).entryNest && f.entryDepth == Top(s).entryDepth
    requires TriesAccounted(f) && ResponseIsCurrent(f)
    requires forall i :: 0 <= i < |f.txids| ==> f.txids[i] <= t.txid
    requires f.pc == Sending ==> f.txids[|f.txids| - 1] == t.txid && forall i :: 0 <= i < |t.sent| ==> t.sent[i] < t.txid
    ensures forall k :: 0 <= k < |t.frames| ==> FrameInv(t, k)
  {
    forall k | 0 <= k < |t.frames|
      ensures FrameInv(t, k)
    {
      assert FrameInv(s, k);
    }
  }

  lemma EntryKeepsInv(s: State, step: Step)
    requires Inv(s) && Enabled(s, step) && (step.TakeTransactionLock? || step.Flush?)
    ensures Inv(Apply(s, step))
  {
    assert FrameInv(s, |s.frames| - 1);
    TopChanged(s, Apply(s, step), Top(Apply(s, step)));
  }

  lemma LaterId(ids: seq<int>, id: int)
    requires Increasing(ids) && forall i :: 0 <= i < |ids| ==> ids[i] < id
    ensures Increasing(ids + [id])
  {
  }

  lemma TryKeepsInv(s: State)
    requires Inv(s) && Enabled(s, Try)
    ensures Inv(Apply(s, Try))
  {
    assert FrameInv(s, |s.frames| - 1);
    var t := Apply(s, Try);
    if Top(s).left != 0 {
      LaterId(Top(s).txids, s.txid + 1);
    }
    TopChanged(s, t, Top(t));
  }

  lemma WaitingKeepsInv(s: State, step: Step)
    requires Inv(s) && Enabled(s, step) && (step.TakeReceiveLock? || step.Wake? || step.TimeOut?)
    ensures Inv(Apply(s, step))
  {
    assert FrameInv(s, |s.frames| - 1);
    TopChanged(s, Apply(s, step), Top(Apply(s, step)));
  }

  lemma LookKeepsInv(s: State)
    requires Inv(s) && Enabled(s, Look)
    ensures Inv(Apply(s, Look))
  {
    assert FrameInv(s, |s.frames| - 1);
    TopChanged(s, Apply(s, Look), Top(Apply(s, Look)));
  }

  lemma DecideKeepsInv(s: State, step: Step)
    requires Inv(s) && Enabled(s, step) && (step.Decide?)
    ensures Inv(Apply(s, step))
  {
    assert FrameInv(s, |s.frames| - 1);
    TopChanged(s, Apply(s, step), Top(Apply(s, step)));
  }

  lemma ClassifyKeepsInv(s: State, step: Step)
    requires Inv(s) && Enabled(s, step) && (step.Classify?)
    ensures Inv(Apply(s, step))
  {
    assert FrameInv(s, |s.frames| - 1);
    var t := Apply(s, step);
    ClassifiedFrame(Top(s), Top(t), step.status, step.code);
    hide Classified, TriesAccounted, ResponseIsCurrent;
    TopChanged(s, t, Top(t));
  }

  lemma ClassifiedFrame(f: Frame, g: Frame, status: Status, code: int)
    requires f.pc == Classifying && f.response.Some? && TriesAccounted(f) && ResponseIsCurrent(f)
    requires g.(judged := f.judged) == Classified(f, status, code)
    ensures TriesAccounted(g) && ResponseIsCurrent(g) && (g.pc == Finishing || g.pc == Resending)
    ensures g.txids == f.txids && g.entryNest == f.entryNest && g.entryDepth == f.entryDepth
  {
    hide Increasing;
  }

  lemma ExamineKeepsInv(s: State, step: Step)
    requires Inv(s) && Enabled(s, step) && (step.Examine? || step.Resend?)
    ensures Inv(Apply(s, step))
  {
    assert FrameInv(s, |s.frames| - 1);
    TopChanged(s, Apply(s, step), Top(Apply(s, step)));
  }

  lemma CallKeepsInv(s: State, options: Options)
    requires Inv(s) && Enabled(s, Call(options))
    ensures Inv(Apply(s, Call(options)))
  {
    var t := Apply(s, Call(options));
    forall k | 0 <= k < |t.frames|
      ensures FrameInv(t, k)
    {
      if k < |s.frames| {
        assert FrameInv(s, k);
      }
    }
  }

  lemma FinishKeepsInv(s: State)
    requires Inv(s) && Enabled(s, Finish)
    ensures Inv(Apply(s, Finish))
  {
    var t := Apply(s, Finish);
    assert FrameInv(s, |s.frames| - 1);
    if t.frames != [] {
      assert Top(t) == s.frames[|s.frames| - 2] && FrameInv(s, |s.frames| - 2);
    }
    forall k | 0 <= k < |t.frames|
      ensures FrameInv(t, k)
    {
      assert FrameInv(s, k);
    }
  }

  lemma OutsideKeepsInv(s: State, step: Step)
    requires Inv(s) && Enabled(s, step) && (step.ReaderPush? || step.OtherCaller?)
    ensures Inv(Apply(s, step))
  {
    var t := Apply(s, step);
    forall k | 0 <= k < |t.frames|
      ensures FrameInv(t, k)
    {
      assert FrameInv(s, k);
    }
  }

  lemma WriteKeepsInv(s: State, ok: bool)
    requires Inv(s) && Enabled(s, Write(ok))
    ensures Inv(Apply(s, Write(ok)))
  {
    var t := Apply(s, Write(ok));
    assert FrameInv(s, |s.frames| - 1);
    forall k | 0 <= k < |t.frames|
      ensures FrameInv(t, k)
    {
      assert FrameInv(s, k);
    }
  }

  lemma StepKeepsInv(s: State, step: Step)
    requires Inv(s) && Enabled(s, step)
    ensures Inv(Apply(s, step))
  {
    hide Inv, Enabled, Apply;
    match step
    case Call(options) => CallKeepsInv(s, options);
    case TakeTransactionLock => EntryKeepsInv(s, step);
    case Flush => EntryKeepsInv(s, step);
    case Try => TryKeepsInv(s);
    case Write(ok) => WriteKeepsInv(s, ok);
    case TakeReceiveLock => WaitingKeepsInv(s, step);
    case Look => LookKeepsInv(s);
    case Wake => WaitingKeepsInv(s, step);
    case TimeOut => WaitingKeepsInv(s, step);
    case Examine => ExamineKeepsInv(s, step);
    case Decide(_) => DecideKeepsInv(s, step);
    case Classify(_, _) => ClassifyKeepsInv(s, step);
    case Resend => ExamineKeepsInv(s, step);
    case Finish => FinishKeepsInv(s);
    case ReaderPush(_, _, _, _) => OutsideKeepsInv(s, step);
    case OtherCaller(_, _) => OutsideKeepsInv(s, step);
  }
}
