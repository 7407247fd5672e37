/**
 The deadline that drivers/mdrive/motion.c asks for when a move starts, from the
 projected time; and what becomes of a move that has no peak velocity, so that its
 projected time is no number.
 */
module PeaklessMoves {
  import opened Timespecs
  import opened Motion
  import opened Projection
  import opened Completion

  // What the conversion of no number to a 64-bit integer gives on the x86-64; C leaves it undefined.
  const INDEFINITE := -0x8000_0000_0000_0000

  // A projected time as a duration.
  function Duration(total: int): Time {
    var sec := Trunc(total, BILLION);
    Time(sec, total - sec * BILLION)
  }

  /** When the first deadline falls, in nanoseconds. */
  function DueAt(start: Time, total: int, latency: nat, speed: int): int
    requires speed in SPEEDS
  {
    start.Nanoseconds() + total - latency / 2 - XmitTime(speed, 15) + MS
  }

  lemma TruncatedRest(total: int)
    ensures -BILLION < Duration(total).nsec < BILLION && Duration(total).Nanoseconds() == total
  {
    TruncBounds(total, BILLION);
  }

  /** For every projected time, negative ones included, the first deadline of a move is accepted if and only
      if it does not fall before the epoch. */
  lemma FirstDeadlineIsValidIff(start: Time, total: int, latency: nat, speed: int)
    requires speed in SPEEDS && start.Normal()
    ensures Valid(FirstDeadline(Sum(start, Duration(total)), latency, speed)) <==> DueAt(start, total, latency, speed) >= 0
  {
    TruncatedRest(total);
    FifteenCharacters(speed);
    hide Duration, SPEEDS, XmitTime;
    var projected := Sum(start, Duration(total));
    var t := Time(projected.sec, projected.nsec - latency / 2 - XmitTime(speed, 15) + MS);
    BorrowKeepsTotal(t);
    hide Borrow;
  }

  /** A short move with no peak velocity. */
  predicate Peakless(r: Rates, urevs: int)
    requires Usable(r)
  {
    Remainder(r, urevs) < 0.0 && 2 * ShortDistance(urevs) * r.accel < r.vstart * r.vstart
  }

  /** The projected time of a move: any number, unless the move is peakless. */
  predicate IsProjected(r: Rates, urevs: int, total: int)
    requires Usable(r)
  {
    Peakless(r, urevs) ==> total == INDEFINITE
  }

  // How a move turns out that is enabled and sent.
  function SentMove(start: Time, total: int, latency: nat, speed: int): Answers
    requires speed in SPEEDS
  {
    Answers(0, 0, Valid(FirstDeadline(Sum(start, Duration(total)), latency, speed)))
  }

  /** Until the year 2262 a peakless move is accepted and then awaited for ever: its deadline is refused, and
      no timer ends it, only a later move or a stop. */
  lemma PeaklessMoveIsStuck(
    r: Rates, urevs: int, total: int, start: Time, latency: nat, speed: int, kind: MoveType, s: State,
    steps: seq<Step>, t: State)
    requires Usable(r) && Peakless(r, urevs) && IsProjected(r, urevs, total)
    requires speed in SPEEDS && start.Normal() && start.sec < 9_223_372_036
    requires kind in {Absolute, Relative} && Inv(s)
    requires Runs(Moved(s, kind, urevs, SentMove(start, total, latency, speed)), steps, t)
    requires forall i :: 0 <= i < |steps| ==> !steps[i].MoveStep? && !steps[i].StopStep?
    ensures forall v: real :: !IsPeak(r, ShortDistance(urevs), v)
    ensures MoveStatus(s, kind, urevs, SentMove(start, total, latency, speed)) == 0
    ensures t.trip && t.timers == {}
  {
    hide SentMove, PeakSquare, SPEEDS, Remainder, IsPeak, ShortDistance;
    PeakNeedsDistance(r, ShortDistance(urevs));
    IndefiniteIsRefused(start, latency, speed);
    hide Peakless, IsProjected;
    var answers := SentMove(start, total, latency, speed);
    StepKeepsInv(s, MoveStep(kind, urevs, answers));
    RefusedMove(s, kind, urevs, answers);
    hide Moved, Apply, MoveStatus;
    RefusedDeadlineIsStuck(Moved(s, kind, urevs, answers), steps, t);
  }

  lemma IndefiniteIsRefused(start: Time, latency: nat, speed: int)
    requires speed in SPEEDS && start.Normal() && start.sec < 9_223_372_036
    ensures SentMove(start, INDEFINITE, latency, speed) == Answers(0, 0, false)
  {
    FirstDeadlineIsValidIff(start, INDEFINITE, latency, speed);
    FifteenCharacters(speed);
    hide XmitTime, FirstDeadline, Sum, Duration, Valid, SPEEDS;
    assert DueAt(start, INDEFINITE, latency, speed) < 0;
    hide DueAt;
  }

  lemma FifteenCharacters(speed: int)
    requires speed in SPEEDS
    ensures XmitTime(speed, 15) >= 1_302_075
  {
  }

  lemma RefusedMove(s: State, kind: MoveType, urevs: int, a: Answers)
    requires Inv(s) && kind in {Absolute, Relative} && a == Answers(0, 0, false)
    ensures var next := Moved(s, kind, urevs, a); next.trip && next.timers == {} && MoveStatus(s, kind, urevs, a) == 0
  {
  }

  /** An absolute move to the present position is peakless if there is a start velocity, unless vmax is one
      micro-revolution per second. */
  lemma NoDistanceIsPeakless(r: Rates)
    requires Usable(r) && r.vstart > 0 && r.vmax > 1
    ensures Peakless(r, 0)
  {
    var half, ramp := Real(r.vmax / 2), Real(r.vmax - r.vstart);
    Times(Real(r.vmax), Real(r.decel));
    Times(ramp, Real(r.accel));
    assert half > 0.0;
    Scale(half, 0.0, StopTime(r));
    assert RampTime(r) >= 0.0;
    Scale(ramp / 2.0 + Real(r.vstart), 0.0, RampTime(r));
    assert StopDistance(r) > 0.0 && RampDistance(r) >= 0.0;
    assert Remainder(r, 0) < 0.0;
    assert r.vstart * r.vstart > 0;
  }
}
