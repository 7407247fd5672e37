/**
 What a call of mdrive_communicate does with the responses it finds: which it takes, how
 it joins two, when it waits for more; and the run of a command that is answered first
 by an acknowledgement and then by data.
 */
module TransactionReplies {
  import opened Wrappers
  import RP = ReplyParser
  import opened Transaction
  import opened TransactionSafety

  /** Data was expected, and there is only an acknowledgement. */
  predicate Bare(f: Frame) {
    f.response.Some? && f.options.expectData && f.response.value.length == 0 && f.response.value.mark
  }

  /** Data was expected, and there is only the command come back. */
  predicate EchoOnly(f: Frame, echoed: bool) {
    f.response.Some? && f.options.expectData && f.options.echo && f.response.value.length > 0 && echoed
  }

  /** What becomes of a response to the current transmission: a bare acknowledgement with an error code ends
      the call, one without is waited on until something has timed out, an echo is emptied and waited on, and
      anything else is judged. Nothing else changes. */
  lemma WhatIsDecided(s: State, echoed: bool)
    requires Enabled(s, Decide(echoed))
    ensures
      var f, t := Top(s), Apply(s, Decide(echoed));
      var g, r := Top(t), f.response.value;
      && (g.pc == Finishing <==> Bare(f) && r.code != 0)
      && (g.pc == LockingReceive <==> (Bare(f) && r.code == 0 && f.status != Timeout) || EchoOnly(f, echoed))
      && (g.pc == Classifying <==> if Bare(f) then r.code == 0 && f.status == Timeout else !EchoOnly(f, echoed))
      && g.response == Some(if EchoOnly(f, echoed) then r.(length := 0) else r)
      && g == f.(pc := g.pc, response := g.response) && t == s.(frames := s.frames[|s.frames| - 1 := g])
  {
  }

  /** The response that came last is taken, and all the others stay; the receive lock is released. */
  lemma NewestIsTaken(s: State, earlier: seq<Response>, newest: Response)
    requires Enabled(s, Look) && s.queue == earlier + [newest]
    ensures
      var t := Apply(s, Look);
      && t.queue == earlier && !t.receiveLocked && Top(t).pc == Processing
      && (Top(s).response.None? ==> Top(t).response == Some(newest))
      && (Top(s).response.Some? ==> Top(t).response == Some(Combined(Top(s).response.value, newest)))
  {
  }

  /** The outermost call starts with an empty queue; a nested one leaves the responses of the outer one. */
  lemma OnlyOutermostFlushes(steps: seq<Step>, s: State)
    requires Runs(INIT, steps, s) && Enabled(s, Flush)
    ensures Apply(s, Flush).queue == if |s.frames| == 1 then [] else s.queue
  {
    RunsKeepInv(INIT, steps, s);
  }

  // ---------- Joining ----------

  // What a call looks at in a response of the parser.
  function Seen(r: RP.Reply): Response {
    Response(r.txid, r.length, r.code, RP.Acked in r.flags || RP.Nacked in r.flags || RP.CrLf in r.flags, {})
  }

  // The payload ends where the length says, and fits behind the other's.
  ghost predicate Joinable(a: RP.Reply, b: RP.Reply) {
    a.Valid() && b.Valid() && RP.StringLength(b.buf) == b.length && a.length + b.length < 128
  }

  /** Two responses are joined as mdrive_combine_response joins them. */
  lemma CombinedIsCombine(a: RP.Reply, b: RP.Reply)
    requires Joinable(a, b)
    ensures Combined(Seen(a), Seen(b)) == Seen(RP.Combine(a, b))
  {
  }

  // ---------- A command that is answered in two ----------

  const EXPECTING := Options(0, true, false, false, false)

  // One call that expects data is in progress, with its first frame sent.
  function Asking(pc: Pc, response: Option<Response>, queue: seq<Response>, locked: bool): State {
    State(1, queue, locked, 1, 1, [AskingFrame(pc, response)], [1], [])
  }

  function AskingFrame(pc: Pc, response: Option<Response>): Frame {
    Frame(pc, EXPECTING, 1, [1], Ok, response, 0, 0, [1], [])
  }

  const ACKED := Response(1, 0, 0, true, {1})

  function Data(length: nat): Response {
    Response(1, length, 0, true, {1})
  }

  lemma Asked() returns (s: State)
    ensures Reachable(s) && s == Asking(LockingReceive, None, [], false)
  {
    assert Runs(INIT, [], INIT);
    s := Then(INIT, Call(EXPECTING));
    s := Then(s, TakeTransactionLock);
    s := Then(s, Flush);
    s := Transmits(s);
  }

  lemma Transmits(s: State) returns (t: State)
    requires Reachable(s) && s.txid == 0 && s.queue == [] && !s.receiveLocked && s.depth == 1 && s.txnest == 1
    requires s.sent == [] && s.finished == []
    requires s.frames == [Frame(Trying, EXPECTING, 2, [], Ok, None, 0, 0, [], [])]
    ensures Reachable(t) && t == Asking(LockingReceive, None, [], false)
  {
    t := Then(s, Try);
    assert [] + [1] == [1];
    assert Top(t) == Frame(Sending, EXPECTING, 1, [1], Ok, None, 0, 0, [], []);
    t := Then(t, Write(true));
    assert t.frames == [AskingFrame(LockingReceive, None)] && t.sent == [1];
  }

  // A response comes in and is taken.
  lemma Hears(s: State, before: Option<Response>, length: nat) returns (t: State)
    requires Reachable(s) && s == Asking(LockingReceive, before, [], false)
    ensures Reachable(t) && t == Asking(Waiting, before, [Data(length)], true)
  {
    t := Then(s, ReaderPush(length, 0, true, {1}));
    assert t == Asking(LockingReceive, before, [Data(length)], false);
    t := Then(t, TakeReceiveLock);
  }

  lemma Takes(s: State, before: Option<Response>, length: nat) returns (t: State)
    requires Reachable(s) && s == Asking(Waiting, before, [Data(length)], true)
    requires before.None? || before == Some(ACKED)
    ensures Reachable(t) && t == Asking(Deciding, Some(Data(length)), [], false)
  {
    assert [] + [Data(length)] == [Data(length)];
    NewestIsTaken(s, [], Data(length));
    t := Then(s, Look);
    assert before.Some? ==> Combined(ACKED, Data(length)) == Data(length);
    assert t == Asking(Processing, Some(Data(length)), [], false);
    t := Then(t, Examine);
  }

  lemma WaitsLonger(s: State) returns (t: State)
    requires Reachable(s) && s == Asking(Deciding, Some(ACKED), [], false)
    ensures Reachable(t) && t == Asking(LockingReceive, Some(ACKED), [], false)
  {
    t := Then(s, Decide(false));
  }

  lemma JudgesData(s: State, length: nat) returns (t: State)
    requires Reachable(s) && s == Asking(Deciding, Some(Data(length)), [], false) && length > 0
    ensures Reachable(t) && t == Asking(Classifying, Some(Data(length)), [], false)
  {
    t := Then(s, Decide(false));
  }

  lemma HandsOut(s: State, length: nat) returns (t: State)
    requires Reachable(s) && s == Asking(Classifying, Some(Data(length)), [], false)
    ensures Reachable(t) && |t.finished| == 1 && t.finished[0].status == Ok && t.finished[0].result == Some(Data(length))
    ensures t.finished[0].call.txids == [1] && t.frames == []
  {
    t := Then(s, Classify(Ok, 0));
    t := Then(t, Finish);
  }

  /** An acknowledgement is waited on, and the data that follows it is handed out, after one transmission. */
  lemma AnsweredInTwo(length: nat) returns (t: State)
    requires length > 0
    ensures Reachable(t) && |t.finished| == 1 && t.finished[0].status == Ok
    ensures t.finished[0].result == Some(Response(1, length, 0, true, {1})) && t.finished[0].call.txids == [1]
  {
    hide Reachable, Asking;
    t := Asked();
    t := Hears(t, None, 0);
    t := Takes(t, None, 0);
    t := WaitsLonger(t);
    t := Hears(t, Some(ACKED), length);
    t := Takes(t, Some(ACKED), length);
    t := JudgesData(t, length);
    t := HandsOut(t, length);
  }
}
