/**
 The projected time of a move (drivers/mdrive/motion.c, mdrive_project_completion and
 travel_to_time), in exact arithmetic: the trapezoid of velocity over time, and the
 distance it covers.
 */
module Projection {
  import opened Motion

  /** The profile of a move, in micro-revolutions and seconds. */
  datatype Rates = Rates(accel: int, decel: int, vmax: int, vstart: int)

  predicate Usable(r: Rates) {
    r.accel > 0 && r.decel > 0 && 0 <= r.vstart <= r.vmax && 0 < r.vmax
  }

  /** Part of a move in which the velocity changes evenly. */
  datatype Phase = Phase(from: real, until: real, time: real) {
    function Area(): real {
      (from + until) / 2.0 * time
    }
  }

  function Real(x: int): real {
    x as real
  }

  // The area of the acceleration ramp, and the one the code takes for the deceleration ramp.
  function RampTime(r: Rates): real
    requires Usable(r)
  {
    Real(r.vmax - r.vstart) / Real(r.accel)
  }

  function StopTime(r: Rates): real
    requires Usable(r)
  {
    Real(r.vmax) / Real(r.decel)
  }

  function RampDistance(r: Rates): real
    requires Usable(r)
  {
    (Real(r.vmax - r.vstart) / 2.0 + Real(r.vstart)) * RampTime(r)
  }

  function StopDistance(r: Rates): real
    requires Usable(r)
  {
    Real(r.vmax / 2) * StopTime(r)
  }

  /** What is left of the distance between the two ramps; negative if they meet. */
  function Remainder(r: Rates, urevs: int): real
    requires Usable(r)
  {
    Real(Abs(urevs)) - (RampDistance(r) + StopDistance(r))
  }

  // ---------- Algebra ----------

  lemma Times(x: real, y: real)
    requires y > 0.0
    ensures x / y * y == x && (x >= 0.0 <==> x / y >= 0.0)
  {
  }

  lemma Scale(k: real, x: real, y: real)
    requires k > 0.0
    ensures x <= y <==> k * x <= k * y
    ensures x < y <==> k * x < k * y
  {
    assert k * y - k * x == k * (y - x);
  }

  lemma SquareOrder(v: real, w: real, k: real)
    requires v >= 0.0 && w >= 0.0 && k > 0.0
    ensures v >= w <==> v * v * k >= w * w * k
  {
    if v >= w {
      assert v * v - w * w == (v - w) * (v + w) && (v - w) * (v + w) >= 0.0;
    } else {
      Scale(w + v, v, w);
      assert w * w - v * v == (w + v) * w - (w + v) * v;
    }
    Scale(k, v * v, w * w);
    Scale(k, w * w, v * v);
  }

  // An even ramp between two velocities at a given rate.
  lemma RampArea(a: real, from: real, until: real, t: real)
    requires a * t == until - from
    ensures 2.0 * a * ((from + until) / 2.0 * t) == until * until - from * from
  {
    assert 2.0 * a * ((from + until) / 2.0 * t) == (from + until) * (a * t);
    assert (from + until) * (until - from) == until * until - from * from;
  }

  lemma StopArea(d: real, vm: real, half: real, t: real)
    requires d * t == vm && 2.0 * half <= vm && 0.0 <= vm
    ensures 2.0 * d * (half * t) <= vm * vm
  {
    assert 2.0 * d * (half * t) == 2.0 * half * (d * t);
    assert (vm - 2.0 * half) * vm >= 0.0;
  }

  lemma BothAreas(a: real, d: real, vm: real, vi: real, up: real, down: real)
    requires a > 0.0 && d > 0.0 && 2.0 * a * up == vm * vm - vi * vi && 2.0 * d * down <= vm * vm
    ensures 2.0 * a * d * (up + down) <= vm * vm * (a + d) - d * (vi * vi)
    ensures 2.0 * d * down == vm * vm ==> 2.0 * a * d * (up + down) == vm * vm * (a + d) - d * (vi * vi)
  {
    assert 2.0 * a * d * (up + down) == d * (2.0 * a * up) + a * (2.0 * d * down);
    Scale(a, 2.0 * d * down, vm * vm);
    assert d * (vm * vm - vi * vi) == d * (vm * vm) - d * (vi * vi);
    assert vm * vm * (a + d) == a * (vm * vm) + d * (vm * vm);
  }

  lemma Cancel(k: real, x: real, y: real)
    requires k > 0.0 && k * x == k * y
    ensures x == y
  {
    Scale(k, x, y);
    Scale(k, y, x);
  }

  // ---------- Long moves ----------

  function LongMove(r: Rates, urevs: int): seq<Phase>
    requires Usable(r)
  {
    [Phase(Real(r.vstart), Real(r.vmax), RampTime(r)),
     Phase(Real(r.vmax), Real(r.vmax), Remainder(r, urevs) / Real(r.vmax)),
     Phase(Real(r.vmax), 0.0, StopTime(r))]
  }

  /** A move that reaches vmax: three phases in order, ramping at the profile's own rates, and covering
      the requested distance exactly, but for the half unit that `vmax >> 1` drops when vmax is odd. */
  lemma LongMoveCoversDistance(r: Rates, urevs: int)
    requires Usable(r) && Remainder(r, urevs) >= 0.0
    ensures
      var p := LongMove(r, urevs);
      && p[0].time >= 0.0 && p[1].time >= 0.0 && p[2].time > 0.0
      && p[0].from + Real(r.accel) * p[0].time == p[0].until
      && p[2].from - Real(r.decel) * p[2].time == 0.0
      && p[0].Area() + p[1].Area() + p[2].Area() == Real(Abs(urevs)) + Real(r.vmax % 2) / 2.0 * StopTime(r)
  {
    var vmax := Real(r.vmax);
    Times(Real(r.vmax - r.vstart), Real(r.accel));
    Times(Remainder(r, urevs), vmax);
    Times(vmax, Real(r.decel));
    RampIsCovered(r);
    StopIsCovered(r);
    hide RampDistance, StopDistance, RampTime;
    assert (vmax + vmax) / 2.0 == vmax;
    assert LongMove(r, urevs)[1].Area() == Remainder(r, urevs);
    hide Remainder;
  }

  lemma RampIsCovered(r: Rates)
    requires Usable(r)
    ensures Phase(Real(r.vstart), Real(r.vmax), RampTime(r)).Area() == RampDistance(r)
  {
    assert (Real(r.vstart) + Real(r.vmax)) / 2.0 == Real(r.vmax - r.vstart) / 2.0 + Real(r.vstart);
    hide RampTime;
  }

  lemma StopIsCovered(r: Rates)
    requires Usable(r)
    ensures Phase(Real(r.vmax), 0.0, StopTime(r)).Area() == StopDistance(r) + Real(r.vmax % 2) / 2.0 * StopTime(r)
    ensures StopTime(r) > 0.0
  {
    Times(Real(r.vmax), Real(r.decel));
    assert r.vmax == 2 * (r.vmax / 2) + r.vmax % 2;
    assert Real(r.vmax) / 2.0 == Real(r.vmax / 2) + Real(r.vmax % 2) / 2.0;
    hide StopTime;
    Distribute(Real(r.vmax / 2), Real(r.vmax % 2) / 2.0, StopTime(r));
  }

  lemma Distribute(a: real, b: real, t: real)
    ensures (a + b) * t == a * t + b * t
  {
  }

  // ---------- Short moves ----------

  // abs() takes an int: a distance beyond 32 bits is cut, and the most negative one stays negative.
  function ShortDistance(urevs: int): int {
    var cut := Int32(urevs);
    if cut == -0x8000_0000 then cut else Abs(cut)
  }

  /** The square of the peak velocity of a short move, times A + D. */
  function PeakSquare(r: Rates, u: int): int {
    2 * u * r.accel * r.decel - r.decel * r.vstart * r.vstart
  }

  // v is the peak velocity that the square root gives.
  predicate IsPeak(r: Rates, u: int, v: real) {
    v >= 0.0 && v * v * Real(r.accel + r.decel) == Real(PeakSquare(r, u))
  }

  /** There is a number to take the root of if and only if the distance is at least what half the square of
      vstart needs; otherwise there is no peak velocity, as for a move over no distance at a start velocity. */
  lemma PeakNeedsDistance(r: Rates, u: int)
    requires Usable(r)
    ensures PeakSquare(r, u) >= 0 <==> 2 * u * r.accel >= r.vstart * r.vstart
    ensures PeakSquare(r, u) < 0 ==> forall v: real :: !IsPeak(r, u, v)
    ensures u <= 0 && r.vstart > 0 ==> PeakSquare(r, u) < 0
  {
    var slack := 2 * u * r.accel - r.vstart * r.vstart;
    assert PeakSquare(r, u) == r.decel * slack by {
      assert 2 * u * r.accel * r.decel == r.decel * (2 * u * r.accel);
    }
    Multiples(slack, r.decel);
    assert slack >= 0 <==> r.decel * slack >= 0;
    if u <= 0 && r.vstart > 0 {
      assert 2 * u * r.accel <= 0 && r.vstart * r.vstart > 0;
    }
    forall v: real | PeakSquare(r, u) < 0
      ensures !IsPeak(r, u, v)
    {
      SquareTimes(v, Real(r.accel + r.decel));
      hide PeakSquare;
    }
  }

  lemma SquareTimes(v: real, k: real)
    requires k > 0.0
    ensures v * v * k >= 0.0
  {
    assert v * v >= 0.0;
  }

  lemma CutIsShorter(urevs: int)
    ensures ShortDistance(urevs) <= Abs(urevs)
  {
  }

  // A move that just reaches vmax: its distance, against the square of vmax.
  lemma ReachNeeds(r: Rates)
    requires Usable(r)
    ensures
      2.0 * Real(r.accel) * Real(r.decel) * (RampDistance(r) + StopDistance(r))
      <= Real(r.vmax) * Real(r.vmax) * Real(r.accel + r.decel) - Real(r.decel) * (Real(r.vstart) * Real(r.vstart))
  {
    var a, d, vm, vi := Real(r.accel), Real(r.decel), Real(r.vmax), Real(r.vstart);
    var t1, t3, half := RampTime(r), StopTime(r), Real(r.vmax / 2);
    Times(vm - vi, a);
    Times(vm, d);
    assert Real(r.vmax - r.vstart) / 2.0 + vi == (vi + vm) / 2.0;
    RampArea(a, vi, vm, t1);
    StopArea(d, vm, half, t3);
    BothAreas(a, d, vm, vi, RampDistance(r), StopDistance(r));
  }

  /** When the ramps meet, the peak velocity is below vmax, so the error exit of travel_to_time is
      never taken; this holds although the distance is cut to an int on the way. */
  lemma PeakBelowMax(r: Rates, urevs: int)
    requires Usable(r) && Remainder(r, urevs) < 0.0
    ensures forall v: real :: IsPeak(r, ShortDistance(urevs), v) ==> v < Real(r.vmax)
    ensures Real(PeakSquare(r, ShortDistance(urevs))) < Real(r.vmax) * Real(r.vmax) * Real(r.accel + r.decel)
  {
    CutIsShorter(urevs);
    SquareIsLow(r, urevs, ShortDistance(urevs));
    forall v: real | IsPeak(r, ShortDistance(urevs), v)
      ensures v < Real(r.vmax)
    {
      PeakIsLow(r, ShortDistance(urevs), v);
    }
  }

  lemma SquareIsLow(r: Rates, urevs: int, short: int)
    requires Usable(r) && Remainder(r, urevs) < 0.0 && short <= Abs(urevs)
    ensures Real(PeakSquare(r, short)) < Real(r.vmax) * Real(r.vmax) * Real(r.accel + r.decel)
  {
    hide RampDistance, StopDistance, PeakSquare;
    var a, d, vi, vm := Real(r.accel), Real(r.decel), Real(r.vstart), Real(r.vmax);
    ReachNeeds(r);
    PeakReal(r, short);
    assert Real(r.accel + r.decel) == a + d;
    PeakBound(a, d, vi, vm, Real(Abs(urevs)), Real(short), RampDistance(r) + StopDistance(r), Real(PeakSquare(r, short)));
  }

  lemma PeakIsLow(r: Rates, u: int, v: real)
    requires Usable(r) && IsPeak(r, u, v)
    requires Real(PeakSquare(r, u)) < Real(r.vmax) * Real(r.vmax) * Real(r.accel + r.decel)
    ensures v < Real(r.vmax)
  {
    hide PeakSquare;
    SquareOrder(v, Real(r.vmax), Real(r.accel + r.decel));
  }

  lemma PeakBound(a: real, d: real, vi: real, vm: real, u: real, short: real, reach: real, peak: real)
    requires a > 0.0 && d > 0.0 && short <= u < reach
    requires 2.0 * a * d * reach <= vm * vm * (a + d) - d * (vi * vi)
    requires peak == 2.0 * a * d * short - d * (vi * vi)
    ensures peak < vm * vm * (a + d)
  {
    assert 2.0 * a * d > 0.0;
    Scale(2.0 * a * d, short, reach);
    assert vi * vi >= 0.0;
    Scale(d, 0.0, vi * vi);
  }

  lemma PeakReal(r: Rates, u: int)
    ensures Real(PeakSquare(r, u))
         == 2.0 * Real(r.accel) * Real(r.decel) * Real(u) - Real(r.decel) * (Real(r.vstart) * Real(r.vstart))
  {
    RealProduct(2 * u, r.accel);
    RealProduct(2 * u * r.accel, r.decel);
    RealProduct(r.decel, r.vstart);
    RealProduct(r.decel * r.vstart, r.vstart);
    assert Real(2 * u) == 2.0 * Real(u);
  }

  lemma RealProduct(a: int, b: int)
    ensures Real(a * b) == Real(a) * Real(b)
  {
  }

  /** A short move: up from vstart to the peak, down to rest. */
  function ShortMove(r: Rates, v: real): seq<Phase>
    requires Usable(r)
  {
    [Phase(Real(r.vstart), v, (v - Real(r.vstart)) / Real(r.accel)), Phase(v, 0.0, v / Real(r.decel))]
  }

  /** The velocity profile of a short move falls short of the distance by exactly vstart^2 / A: it covers
      the distance if and only if it starts from rest. */
  lemma ShortMoveDeficit(r: Rates, u: int, v: real)
    requires Usable(r) && IsPeak(r, u, v)
    ensures
      var p := ShortMove(r, v);
      p[0].Area() + p[1].Area() == Real(u) - Real(r.vstart) * Real(r.vstart) / Real(r.accel)
    ensures
      var p := ShortMove(r, v);
      p[0].Area() + p[1].Area() == Real(u) <==> r.vstart == 0
  {
    var a, d, vi := Real(r.accel), Real(r.decel), Real(r.vstart);
    var p := ShortMove(r, v);
    ShortAreas(r, v);
    PeakReal(r, u);
    assert v * v * (a + d) == 2.0 * a * d * Real(u) - d * (vi * vi);
    ZeroReal(r.vstart);
    hide *;
    Deficit(a, d, vi, Real(u), v, p[0].Area(), p[1].Area());
  }

  lemma Deficit(a: real, d: real, vi: real, u: real, v: real, up: real, down: real)
    requires a > 0.0 && d > 0.0 && v * v * (a + d) == 2.0 * a * d * u - d * (vi * vi)
    requires 2.0 * a * up == v * v - vi * vi && 2.0 * d * down == v * v
    ensures up + down == u - vi * vi / a && (up + down == u <==> vi == 0.0)
  {
    Times(vi * vi, a);
    BothAreas(a, d, v, vi, up, down);
    LostDistance(a, d, vi, u, vi * vi / a, up + down, v * v * (a + d));
    LostNothing(vi, a, vi * vi / a);
  }

  lemma ShortAreas(r: Rates, v: real)
    requires Usable(r)
    ensures
      var p := ShortMove(r, v);
      && 2.0 * Real(r.accel) * p[0].Area() == v * v - Real(r.vstart) * Real(r.vstart)
      && 2.0 * Real(r.decel) * p[1].Area() == v * v
  {
    var a, d, vi := Real(r.accel), Real(r.decel), Real(r.vstart);
    var p := ShortMove(r, v);
    Times(v - vi, a);
    Times(v, d);
    RampArea(a, vi, v, p[0].time);
    assert d * p[1].time == v && -d * p[1].time == -(d * p[1].time);
    RampArea(-d, v, 0.0, p[1].time);
    assert 2.0 * -d * p[1].Area() == -(2.0 * d * p[1].Area());
  }

  lemma NoFactorZero(x: real, y: real)
    requires y != 0.0
    ensures x * y == 0.0 <==> x == 0.0
  {
  }

  lemma LostNothing(vi: real, a: real, lost: real)
    requires a > 0.0 && lost * a == vi * vi
    ensures lost == 0.0 <==> vi == 0.0
  {
    NoFactorZero(lost, a);
    if vi != 0.0 {
      NoFactorZero(vi, vi);
    } else {
      assert vi * vi == 0.0;
    }
  }

  lemma ZeroReal(x: int)
    ensures Real(x) == 0.0 <==> x == 0
  {
  }

  lemma LostDistance(a: real, d: real, vi: real, u: real, lost: real, area: real, peak: real)
    requires a > 0.0 && d > 0.0 && lost * a == vi * vi
    requires 2.0 * a * d * area == peak - d * (vi * vi) && peak == 2.0 * a * d * u - d * (vi * vi)
    ensures area == u - lost
  {
    assert 2.0 * a * d * (u - lost) == 2.0 * a * d * u - 2.0 * d * (lost * a);
    assert 2.0 * a * d > 0.0;
    Cancel(2.0 * a * d, area, u - lost);
  }

  /** The first phase of a short move takes no negative time if and only if the distance is at least
      what the ramp down from vstart, and twice that for the ramp up, need. */
  lemma ShortMoveOrderedIff(r: Rates, u: int, v: real)
    requires Usable(r) && IsPeak(r, u, v)
    ensures
      var a, d, vi := Real(r.accel), Real(r.decel), Real(r.vstart);
      ShortMove(r, v)[0].time >= 0.0 <==> 2.0 * a * d * Real(u) >= vi * vi * (a + 2.0 * d)
  {
    PeakReal(r, u);
    hide PeakSquare;
    Ordered(Real(r.accel), Real(r.decel), Real(r.vstart), 2.0 * Real(r.accel) * Real(r.decel) * Real(u), v);
  }

  lemma Ordered(a: real, d: real, vi: real, x: real, v: real)
    requires a > 0.0 && d > 0.0 && vi >= 0.0 && v >= 0.0 && v * v * (a + d) == x - d * (vi * vi)
    ensures (v - vi) / a >= 0.0 <==> x >= vi * vi * (a + 2.0 * d)
  {
    Times(v - vi, a);
    SquareOrder(v, vi, a + d);
    MovedOver(x, vi * vi, a, d);
  }

  lemma MovedOver(x: real, w: real, a: real, d: real)
    ensures x - d * w >= w * (a + d) <==> x >= w * (a + 2.0 * d)
  {
    assert w * (a + d) == a * w + d * w;
    assert w * (a + 2.0 * d) == a * w + 2.0 * (d * w);
  }
}
