/**
 Move completion in drivers/mdrive/motion.c: the timer that a move leaves behind, the
 event it ends in, and the accounting between them. Handlers are taken one at a time.
 */
module Completion {
  import opened Wrappers
  import opened Timespecs

  const MS := 1_000_000
  const EINVAL := 22
  const EIO := 5
  const EBUSY := 16
  const ENOTSUP := 95

  // ---------- Deadlines ----------

  /** The bit rates the driver can set. */
  const SPEEDS: set<int> := {4800, 9600, 19200, 38400, 115200}

  // mdrive_xmit_time: ten bits for each character.
  function XmitTime(speed: int, chars: int): int
    requires speed in SPEEDS
  {
    chars * (BILLION / (speed / 10))
  }

  function Borrow(t: Time): Time
    decreases if t.nsec < 0 then -t.nsec else 0
  {
    if t.nsec < 0 then Borrow(Time(t.sec - 1, t.nsec + BILLION)) else t
  }

  /** The loop that brings the nanoseconds of a deadline back above zero. */
  method Normalize(t: Time) returns (r: Time)
    ensures r == Borrow(t) && r.Nanoseconds() == t.Nanoseconds()
    ensures r.nsec >= 0 && (t.nsec < 0 ==> r.nsec < BILLION) && (t.nsec >= 0 ==> r == t)
  {
    r := t;
    while r.nsec < 0
      invariant Borrow(r) == Borrow(t) && r.Nanoseconds() == t.Nanoseconds()
      invariant t.nsec >= 0 ==> r == t
      invariant t.nsec < 0 ==> r.nsec < BILLION
    {
      r := Time(r.sec - 1, r.nsec + BILLION);
    }
  }

  lemma {:induction false} BorrowKeepsTotal(t: Time)
    ensures
      var r := Borrow(t);
      && r.Nanoseconds() == t.Nanoseconds() && r.nsec >= 0
      && (t.nsec < 0 ==> r.nsec < BILLION) && (t.nsec >= 0 ==> r == t)
    decreases if t.nsec < 0 then -t.nsec else 0
  {
    if t.nsec < 0 {
      BorrowKeepsTotal(Time(t.sec - 1, t.nsec + BILLION));
    }
  }

  /** The first deadline of a move: its projected end, less half the latency and the time for fifteen
      characters, plus a millisecond. */
  function FirstDeadline(projected: Time, latency: nat, speed: int): Time
    requires speed in SPEEDS
  {
    Borrow(Time(projected.sec, projected.nsec - latency / 2 - XmitTime(speed, 15) + MS))
  }

  /** The deadline of another look, as an absolute time: half the latency before the velocity is gone,
      plus a millisecond. */
  function NextDeadline(now: Time, rest: Time, latency: nat): Time {
    Sum(now, Borrow(Time(rest.sec, rest.nsec - (latency / 2 - MS))))
  }

  // What mcCallbackAbs accepts.
  predicate Valid(t: Time) {
    t.NearlyNormal() && t.sec >= 0
  }

  /** At every speed the driver supports, the first deadline has acceptable nanoseconds; it is refused
      only when it falls before the epoch. */
  lemma FirstDeadlineIsValid(projected: Time, latency: nat, speed: int)
    requires speed in SPEEDS && projected.NearlyNormal()
    ensures var t := FirstDeadline(projected, latency, speed); Valid(t) <==> t.sec >= 0
    ensures projected.sec * BILLION >= latency / 2 + XmitTime(speed, 15) ==>
              Valid(FirstDeadline(projected, latency, speed))
  {
    assert XmitTime(speed, 15) >= 1_302_075;
    BorrowKeepsTotal(Time(projected.sec, projected.nsec - latency / 2 - XmitTime(speed, 15) + MS));
  }

  /** Another look is refused if and only if the millisecond of slack pushes the sum of the nanoseconds
      over two seconds; with a latency of two milliseconds or more it never is. */
  lemma NextDeadlineIsValidIff(now: Time, rest: Time, latency: nat)
    requires now.Normal() && rest.Normal() && now.sec * BILLION >= latency / 2 && rest.sec >= 0
    ensures Valid(NextDeadline(now, rest, latency)) <==> now.nsec + rest.nsec - latency / 2 + MS <= 2 * BILLION
    ensures latency >= 2 * MS ==> Valid(NextDeadline(now, rest, latency))
  {
    var t := Time(rest.sec, rest.nsec - (latency / 2 - MS));
    BorrowKeepsTotal(t);
    var b := Borrow(t);
    assert NextDeadline(now, rest, latency).Nanoseconds() == now.Nanoseconds() + b.Nanoseconds();
  }

  // ---------- The device ----------

  datatype MoveType = Absolute | Relative | Slew | Jitter

  datatype Motion = Motion(moving: bool, kind: MoveType, urevs: int)

  const AT_REST := Motion(false, Absolute, 0)

  /** What the handlers work on: the completion trip, the id of the timer, the timers of this device that
      are in the timer list, the id counter of that list, and two counts kept for the proof. */
  datatype State = State(
    trip: bool, cb: int, timers: set<int>, uid: nat, movement: Motion, moves: nat, events: nat)

  const INIT := State(false, 0, {}, 0, AT_REST, 0, 0)

  /** How the calls that a move makes turn out: enabling the drive, sending the command, and whether the
      timer list accepts the deadline. */
  datatype Answers = Answers(enabled: int, sent: int, deadline: bool)

  function Scheduled(s: State, accepted: bool): State {
    if accepted then s.(cb := s.uid + 1, uid := s.uid + 1, timers := s.timers + {s.uid + 1})
    else s.(cb := -EINVAL)
  }

  function Cancelled(s: State): State {
    if s.trip then
      s.(trip := false, timers := if s.cb != 0 then s.timers - {s.cb} else s.timers, events := s.events + 1)
    else s
  }

  function Armed(s: State, accepted: bool): State {
    if s.trip then s else Scheduled(s, accepted).(trip := true)
  }

  // The status of a move, and whether it did anything beyond noting the movement.
  function MoveStatus(s: State, kind: MoveType, urevs: int, a: Answers): int {
    if kind == Slew && s.movement == Motion(true, Slew, urevs) then 0
    else if kind == Jitter then ENOTSUP
    else if a.enabled != 0 then a.enabled
    else a.sent
  }

  predicate SameSlew(s: State, kind: MoveType, urevs: int) {
    kind == Slew && s.movement == Motion(true, Slew, urevs)
  }

  function Moved(s: State, kind: MoveType, urevs: int, a: Answers): State {
    if SameSlew(s, kind, urevs) || kind == Jitter || a.enabled != 0 then s
    else
      var going := s.(movement := Motion(true, kind, urevs));
      if a.sent != 0 then going
      else if kind == Slew then Cancelled(going)
      else Armed(Cancelled(going), a.deadline).(moves := s.moves + 1)
  }

  function Stopped(s: State): State {
    Cancelled(s.(movement := AT_REST))
  }

  /** The timer calls back, then drops the entry it called for: either the unit rests and the move is
      reported, or another look is scheduled. */
  function Fired(s: State, id: int, rests: bool, accepted: bool): State {
    var after := if rests then s.(trip := false, events := s.events + 1) else Scheduled(s, accepted);
    after.(timers := after.timers - {id})
  }

  class Device {
    var trip: bool
    var cb: int
    var timers: set<int>
    var uid: nat
    var movement: Motion
    ghost var moves: nat
    ghost var events: nat

    ghost function View(): State
      reads this
    {
      State(trip, cb, timers, uid, movement, moves, events)
    }

    constructor ()
      ensures View() == INIT
    {
      trip, cb, timers, uid, movement, moves, events := false, 0, {}, 0, AT_REST, 0, 0;
    }

    // The timer list: a new id, or a refusal.
    method Schedule(accepted: bool) returns (id: int)
      modifies this`timers, this`uid
      ensures id == if accepted then old(uid) + 1 else -EINVAL
      ensures uid == (if accepted then old(uid) + 1 else old(uid))
      ensures timers == if accepted then old(timers) + {id} else old(timers)
    {
      if accepted {
        uid := uid + 1;
        timers := timers + {uid};
        return uid;
      }
      return -EINVAL;
    }

    method AsyncComplete(accepted: bool) returns (status: int)
      modifies this
      ensures View() == Armed(old(View()), accepted) && status == if old(trip) then EBUSY else 0
    {
      if trip {
        return EBUSY;
      }
      cb := Schedule(accepted);
      trip := true;
      return 0;
    }

    method AsyncCompleteCancel()
      modifies this
      ensures View() == Cancelled(old(View()))
    {
      if trip {
        if cb != 0 {
          timers := timers - {cb};
        }
        trip := false;
        events := events + 1;
      }
    }

    method Move(kind: MoveType, urevs: int, a: Answers) returns (status: int)
      modifies this
      ensures View() == Moved(old(View()), kind, urevs, a)
      ensures status == MoveStatus(old(View()), kind, urevs, a)
    {
      match kind {
        case Absolute =>
        case Relative =>
        case Slew =>
          if movement.moving && movement.kind == Slew && movement.urevs == urevs {
            return 0;
          }
        case Jitter => return ENOTSUP;
      }
      if a.enabled != 0 {
        return a.enabled;
      }
      movement := Motion(true, kind, urevs);
      if a.sent != 0 {
        return a.sent;
      }
      AsyncCompleteCancel();
      if kind != Slew {
        var _ := AsyncComplete(a.deadline);
        moves := moves + 1;
      }
      return 0;
    }

    method Stop()
      modifies this
      ensures View() == Stopped(old(View()))
    {
      movement := AT_REST;
      AsyncCompleteCancel();
    }

    // mdrive_async_completion_correct, called by the timer for the entry of that id.
    method CompletionCorrect(id: int, rests: bool, accepted: bool)
      modifies this
      ensures View() == Fired(old(View()), id, rests, accepted)
    {
      if rests {
        trip := false;
        events := events + 1;
      } else {
        cb := Schedule(accepted);
      }
      timers := timers - {id};
    }
  }

  // ---------- Runs ----------

  datatype Step =
    | MoveStep(kind: MoveType, urevs: int, answers: Answers)
    | StopStep
    | FireStep(id: int, rests: bool, accepted: bool)
    | OthersSchedule                    // another device takes an id

  predicate Enabled(s: State, step: Step) {
    match step
    case MoveStep(_, _, _) => true
    case StopStep => true
    case FireStep(id, _, _) => id in s.timers
    case OthersSchedule => true
  }

  function Apply(s: State, step: Step): State {
    match step
    case MoveStep(kind, urevs, answers) => Moved(s, kind, urevs, answers)
    case StopStep => Stopped(s)
    case FireStep(id, rests, accepted) => Fired(s, id, rests, accepted)
    case OthersSchedule => s.(uid := s.uid + 1)
  }

  ghost predicate Runs(s: State, steps: seq<Step>, t: State)
    decreases |steps|
  {
    if steps == [] then t == s else Enabled(s, steps[0]) && Runs(Apply(s, steps[0]), steps[1..], t)
  }

  /** One event for every accepted move, save the one still awaited; and one timer exactly while one is
      awaited, under the noted id, unless the timer list refused it. */
  predicate Inv(s: State) {
    && s.moves == s.events + (if s.trip then 1 else 0)
    && (s.trip ==> (s.timers == {s.cb} && 0 < s.cb) || (s.timers == {} && s.cb == -EINVAL))
    && (!s.trip ==> s.timers == {})
    && s.cb <= s.uid
  }

  lemma StepKeepsInv(s: State, step: Step)
    requires Inv(s) && Enabled(s, step)
    ensures Inv(Apply(s, step))
  {
    match step
    case MoveStep(kind, urevs, answers) =>
      CancelKeepsInv(s.(movement := Motion(true, kind, urevs)));
    case StopStep => CancelKeepsInv(s.(movement := AT_REST));
    case FireStep(id, rests, accepted) =>
      assert s.timers == {id};
    case OthersSchedule =>
  }

  lemma CancelKeepsInv(s: State)
    requires Inv(s)
    ensures Inv(Cancelled(s)) && !Cancelled(s).trip && Cancelled(s).moves == s.moves
  {
  }

  lemma {:induction false} RunKeepsInv(s: State, steps: seq<Step>, t: State)
    requires Inv(s) && Runs(s, steps, t)
    ensures Inv(t)
    decreases |steps|
  {
    if steps != [] {
      StepKeepsInv(s, steps[0]);
      RunKeepsInv(Apply(s, steps[0]), steps[1..], t);
    }
  }

  function AcceptedMoves(s: State, steps: seq<Step>): nat
    decreases |steps|
  {
    if steps == [] then 0
    else
      var m := steps[0];
      var one :=
        if m.MoveStep? && m.kind in {Absolute, Relative} && MoveStatus(s, m.kind, m.urevs, m.answers) == 0 then 1
        else 0;
      one + AcceptedMoves(Apply(s, m), steps[1..])
  }

  lemma {:induction false} MovesAreCounted(s: State, steps: seq<Step>, t: State)
    requires Runs(s, steps, t)
    ensures t.moves == s.moves + AcceptedMoves(s, steps)
    decreases |steps|
  {
    if steps != [] {
      MovesAreCounted(Apply(s, steps[0]), steps[1..], t);
    }
  }

  /** Over every run: the moves that were accepted, slewing aside, are the events sent plus the one that
      is awaited; a timer is outstanding only while one is awaited, and then it is the noted one. */
  lemma Accounting(steps: seq<Step>, t: State)
    requires Runs(INIT, steps, t)
    ensures AcceptedMoves(INIT, steps) == t.events + (if t.trip then 1 else 0)
    ensures t.timers == if t.trip && t.cb != -EINVAL then {t.cb} else {}
    ensures forall id <- t.timers :: 0 < id <= t.uid
  {
    RunKeepsInv(INIT, steps, t);
    MovesAreCounted(INIT, steps, t);
  }

  /** A stop, in every reachable state, leaves nothing awaited and no timer, and the movement at rest; it sends
      one event if a move was awaited and none otherwise. */
  lemma StopEndsMove(steps: seq<Step>, s: State)
    requires Runs(INIT, steps, s)
    ensures
      var t := Apply(s, StopStep);
      && !t.trip && t.timers == {} && !t.movement.moving && t.uid == s.uid
      && t.events == s.events + (if s.trip then 1 else 0) && t.moves == s.moves
  {
    RunKeepsInv(INIT, steps, s);
  }

  /** A slew that is enabled and sent, unless it is the one in progress, ends an awaited move likewise and
      leaves nothing awaited; one in progress changes nothing. */
  lemma SlewEndsMove(steps: seq<Step>, s: State, urevs: int, a: Answers)
    requires Runs(INIT, steps, s) && a.enabled == a.sent == 0
    ensures
      var t := Apply(s, MoveStep(Slew, urevs, a));
      if s.movement == Motion(true, Slew, urevs) then t == s
      else
        && !t.trip && t.timers == {} && t.movement == Motion(true, Slew, urevs) && t.uid == s.uid
        && t.events == s.events + (if s.trip then 1 else 0) && t.moves == s.moves
  {
    RunKeepsInv(INIT, steps, s);
  }

  /** An absolute or relative move that is enabled and sent ends an awaited one with one event, and is awaited
      itself: with a timer of its own, of an id not used before, or with none if its deadline is refused. */
  lemma MoveReplacesMove(steps: seq<Step>, s: State, kind: MoveType, urevs: int, a: Answers)
    requires Runs(INIT, steps, s) && a.enabled == a.sent == 0 && kind in {Absolute, Relative}
    ensures
      var t := Apply(s, MoveStep(kind, urevs, a));
      && t.trip && t.movement == Motion(true, kind, urevs)
      && t.events == s.events + (if s.trip then 1 else 0) && t.moves == s.moves + 1
      && (if a.deadline then t.timers == {t.cb} && t.cb == t.uid == s.uid + 1 && t.cb !in s.timers
          else t.timers == {} && t.cb == -EINVAL && t.uid == s.uid)
  {
    RunKeepsInv(INIT, steps, s);
  }

  /** A move that is refused or not sent ends nothing and is not awaited; only its movement may be noted. */
  lemma FailedMoveEndsNothing(s: State, kind: MoveType, urevs: int, a: Answers)
    requires MoveStatus(s, kind, urevs, a) != 0
    ensures
      var t := Apply(s, MoveStep(kind, urevs, a));
      && t == s.(movement := t.movement)
      && t.movement == if kind != Jitter && a.enabled == 0 then Motion(true, kind, urevs) else s.movement
  {
  }

  /** A timer that calls back, in every reachable state, either ends the awaited move with one event, or
      leaves it awaited with a timer of its own, or with none if that deadline is refused. */
  lemma CallbackEndsOrRenews(steps: seq<Step>, s: State, id: int, rests: bool, accepted: bool)
    requires Runs(INIT, steps, s) && id in s.timers
    ensures
      var t := Apply(s, FireStep(id, rests, accepted));
      && s.trip && id == s.cb && id !in t.timers && t.movement == s.movement && t.moves == s.moves
      && (if rests then !t.trip && t.timers == {} && t.events == s.events + 1
          else
            && t.trip && t.events == s.events
            && (if accepted then t.timers == {t.cb} && t.cb == t.uid == s.uid + 1
                else t.timers == {} && t.cb == -EINVAL))
  {
    RunKeepsInv(INIT, steps, s);
  }

  predicate Refuses(step: Step) {
    match step
    case MoveStep(_, _, answers) => !answers.deadline
    case FireStep(_, _, accepted) => !accepted
    case StopStep => false
    case OthersSchedule => false
  }

  /** When the timer list refuses no deadline, the trip holds exactly when one timer is outstanding, and
      its id is the noted one. */
  lemma {:induction false} TripIffTimer(s: State, steps: seq<Step>, t: State)
    requires Inv(s) && Runs(s, steps, t) && s.timers == if s.trip then {s.cb} else {}
    requires forall i :: 0 <= i < |steps| ==> !Refuses(steps[i])
    ensures t.timers == if t.trip then {t.cb} else {}
    decreases |steps|
  {
    if steps != [] {
      var next := Apply(s, steps[0]);
      StepKeepsInv(s, steps[0]);
      OneStepTimer(s, steps[0]);
      forall i | 0 <= i < |steps[1..]|
        ensures !Refuses(steps[1..][i])
      {
        assert steps[1..][i] == steps[i + 1];
      }
      TripIffTimer(next, steps[1..], t);
    }
  }

  lemma OneStepTimer(s: State, step: Step)
    requires Inv(s) && Enabled(s, step) && !Refuses(step) && s.timers == if s.trip then {s.cb} else {}
    ensures var next := Apply(s, step); next.timers == if next.trip then {next.cb} else {}
  {
    match step
    case MoveStep(kind, urevs, answers) =>
    case StopStep =>
    case FireStep(id, rests, accepted) => assert s.timers == {id};
    case OthersSchedule =>
  }

  /** A refused deadline is not reported: the move stays awaited without a timer, and no timer will ever
      end it, only a later move or a stop. */
  lemma {:induction false} RefusedDeadlineIsStuck(s: State, steps: seq<Step>, t: State)
    requires Inv(s) && s.trip && s.timers == {} && Runs(s, steps, t)
    requires forall i :: 0 <= i < |steps| ==> !steps[i].MoveStep? && !steps[i].StopStep?
    ensures t.trip && t.timers == {} && t.events == s.events
    decreases |steps|
  {
    if steps != [] {
      assert steps[0].OthersSchedule?;
      StepKeepsInv(s, steps[0]);
      forall i | 0 <= i < |steps[1..]|
        ensures !steps[1..][i].MoveStep? && !steps[1..][i].StopStep?
      {
        assert steps[1..][i] == steps[i + 1];
      }
      RefusedDeadlineIsStuck(Apply(s, steps[0]), steps[1..], t);
    }
  }

  /** It can happen while a move comes to rest: a unit with a latency under two milliseconds, looked at
      late in a second with most of a second to go. Its deadline is refused, and the move is stuck. */
  lemma RescheduleCanBeRefused(now: Time, rest: Time, steps: seq<Step>, t: State)
    requires now.sec >= 1 && now.nsec == 999_999_000 && rest == Time(0, 999_999_000)
    requires Runs(Apply(Apply(INIT, MoveStep(Relative, 1, Answers(0, 0, true))),
                        FireStep(1, false, Valid(NextDeadline(now, rest, MS)))), steps, t)
    requires forall i :: 0 <= i < |steps| ==> !steps[i].MoveStep? && !steps[i].StopStep?
    ensures t.trip && t.timers == {} && t.events == 0
  {
    NextDeadlineIsValidIff(now, rest, MS);
    var moved, look := MoveStep(Relative, 1, Answers(0, 0, true)), FireStep(1, false, false);
    StepKeepsInv(INIT, moved);
    StepKeepsInv(Apply(INIT, moved), look);
    hide Runs, NextDeadline;
    RefusedDeadlineIsStuck(Apply(Apply(INIT, moved), look), steps, t);
  }
}
