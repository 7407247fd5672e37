/**
 Unit conversion of drivers/mdrive/motion.c: micro-revolutions to motor steps and
 back, with C's truncating division and the widths of its integers.
 */
module Motion {
  import opened Wrappers

  const MILLION := 1_000_000
  const EIO := 5
  const ENCODER_STEPS := 2048

  // Division that truncates towards zero.
  function Trunc(a: int, b: int): int
    requires b > 0
  {
    if a >= 0 then a / b else -((-a) / b)
  }

  function Wrap(x: int, modulus: int): int
    requires modulus > 0
  {
    var r := x % modulus;
    if 2 * r >= modulus then r - modulus else r
  }

  function Int32(x: int): int {
    Wrap(x, 0x1_0000_0000)
  }

  function Int64(x: int): int {
    Wrap(x, 0x1_0000_0000_0000_0000)
  }

  predicate IsInt32(x: int) {
    -0x8000_0000 <= x < 0x8000_0000
  }

  predicate IsInt64(x: int) {
    -0x8000_0000_0000_0000 <= x < 0x8000_0000_0000_0000
  }

  function Abs(x: int): nat {
    if x < 0 then -x else x
  }

  /** The steps per revolution as the driver keeps them. */
  predicate IsPerRev(perRev: int) {
    0 < perRev < 0x8000_0000
  }

  function ToSteps(perRev: int, microrevs: int): int {
    Int32(Trunc(Int64(microrevs * perRev), MILLION))
  }

  function ToMicrorevs(perRev: int, steps: int): int
    requires perRev > 0
  {
    Int64(Trunc(Int64(steps * MILLION), perRev))
  }

  // A driver may report a negative setting; the quotient truncates towards zero all the same.
  function MicrorevsOf(perRev: int, steps: int): int
    requires perRev != 0
  {
    if perRev > 0 then ToMicrorevs(perRev, steps) else Int64(-Trunc(Int64(steps * MILLION), -perRev))
  }

  lemma WrapsNothing(x: int)
    ensures IsInt32(x) ==> Int32(x) == x
    ensures IsInt64(x) ==> Int64(x) == x
  {
  }

  // a / b is between 0 and a, and b times it misses a by less than b.
  lemma TruncBounds(a: int, b: int)
    requires b > 0
    ensures var q := Trunc(a, b); Abs(q) * b <= Abs(a) < Abs(q) * b + b
    ensures var q := Trunc(a, b); (a >= 0 ==> q >= 0) && (a <= 0 ==> q <= 0)
  {
    var x := Abs(a);
    assert x == b * (x / b) + x % b;
    assert Abs(Trunc(a, b)) == x / b;
  }

  lemma Multiples(x: int, d: int)
    requires d > 0
    ensures x >= 1 ==> x * d >= d && x * d >= x
    ensures x <= -1 ==> x * d <= -d
    ensures x == 0 ==> x * d == 0
  {
    if x >= 1 {
      assert x * d == (x - 1) * d + d && (x - 1) * d >= 0;
      assert x * d == x * (d - 1) + x && x * (d - 1) >= 0;
    } else if x <= -1 {
      assert x * d == (x + 1) * d - d && (x + 1) * d <= 0;
    }
  }

  lemma ProductBounds(a: int, b: int, x: nat, y: nat)
    requires Abs(a) <= x && 0 <= b <= y
    ensures Abs(a * b) == Abs(a) * b <= x * y
  {
    if a >= 0 {
      assert Abs(a * b) == a * b by { assert a * b >= 0; }
      assert a * b <= x * b <= x * y;
    } else {
      assert -a * b == -(a * b) && -a * b >= 0;
      assert -a * b <= x * b <= x * y;
    }
  }

  // ---------- Steps to micro-revolutions and back ----------

  /** No intermediate value overflows. */
  lemma StepsNeverOverflow(perRev: int, steps: int)
    requires IsPerRev(perRev) && IsInt32(steps)
    ensures ToMicrorevs(perRev, steps) == Trunc(steps * MILLION, perRev)
    ensures
      var m := ToMicrorevs(perRev, steps);
      && IsInt64(m * perRev) && Abs(m) * perRev <= Abs(steps) * MILLION < Abs(m) * perRev + perRev
      && (steps >= 0 ==> m >= 0) && (steps <= 0 ==> m <= 0)
  {
    hide Trunc, Int64;
    WrapsNothing(steps * MILLION);
    var m := Trunc(steps * MILLION, perRev);
    TruncBounds(steps * MILLION, perRev);
    Multiples(Abs(m), perRev);
    WrapsNothing(m);
    ProductBounds(m, perRev, Abs(m), perRev);
  }

  function StepsTrip(perRev: int, steps: int): int
    requires perRev > 0
  {
    ToSteps(perRev, ToMicrorevs(perRev, steps))
  }

  predicate Divides(d: int, x: int)
    requires d > 0
  {
    x % d == 0
  }

  /** Steps to micro-revolutions and back: the sign is kept, the result does not overshoot, the loss is
      under 1 + perRev / 1e6 steps, and there is none if and only if perRev divides steps * 1e6. */
  lemma StepsRoundTrip(perRev: int, steps: int)
    requires IsPerRev(perRev) && IsInt32(steps)
    ensures
      var back := StepsTrip(perRev, steps);
      && IsInt32(back)
      && (steps >= 0 ==> 0 <= back <= steps) && (steps <= 0 ==> steps <= back <= 0)
      && MILLION * (Abs(steps) - Abs(back)) < MILLION + perRev
      && (perRev <= MILLION ==> Abs(steps) - Abs(back) <= 1)
      && (back == steps <==> Divides(perRev, steps * MILLION))
  {
    StepsNeverOverflow(perRev, steps);
    var m := ToMicrorevs(perRev, steps);
    var x := m * perRev;
    WrapsNothing(x);
    var back := Trunc(x, MILLION);
    TruncBounds(x, MILLION);
    ProductBounds(m, perRev, Abs(m), perRev);
    assert Abs(back) * MILLION <= Abs(m) * perRev <= Abs(steps) * MILLION;
    assert Abs(back) <= Abs(steps);
    SameSign(m, perRev);
    WrapsNothing(back);
    ExactIff(perRev, steps, m, back);
  }

  lemma SameSign(a: int, b: int)
    requires b > 0
    ensures (a >= 0 ==> a * b >= 0) && (a <= 0 ==> a * b <= 0)
  {
  }

  // The trip is exact exactly when the first division left no remainder.
  lemma ExactIff(perRev: int, steps: int, m: int, back: int)
    requires perRev > 0 && m == Trunc(steps * MILLION, perRev) && back == Trunc(m * perRev, MILLION)
    requires (steps >= 0 ==> m >= 0) && (steps <= 0 ==> m <= 0)
    ensures back == steps <==> Divides(perRev, steps * MILLION)
  {
    SameSign(m, perRev);
    var a := Abs(steps) * MILLION;
    assert Abs(m) == a / perRev;
    assert a == perRev * (a / perRev) + a % perRev;
    assert Divides(perRev, steps * MILLION) <==> a % perRev == 0 by {
      NegativeMod(steps * MILLION, perRev);
    }
    assert Abs(m * perRev) == perRev * Abs(m) by {
      ProductBounds(m, perRev, Abs(m), perRev);
    }
    TruncBounds(m * perRev, MILLION);
  }

  lemma NegativeMod(x: int, d: int)
    requires d > 0
    ensures x % d == 0 <==> (-x) % d == 0
  {
    if x % d == 0 {
      MultipleMod(-(x / d), d);
      assert -x == -(x / d) * d;
    }
    if (-x) % d == 0 {
      MultipleMod(-((-x) / d), d);
      assert x == -((-x) / d) * d;
    }
  }

  lemma MultipleMod(k: int, d: int)
    requires d > 0
    ensures (k * d) % d == 0
  {
    var q, r := (k * d) / d, (k * d) % d;
    assert k * d == q * d + r;
    assert (k - q) * d == r;
    Multiples(k - q, d);
  }

  // ---------- Many trips ----------

  function Trips(perRev: int, steps: int, n: nat): int
    requires perRev > 0
    decreases n
  {
    if n == 0 then steps else Trips(perRev, StepsTrip(perRev, steps), n - 1)
  }

  function Towards(steps: int, n: int): int {
    if steps >= 0 then steps - n else steps + n
  }

  /** n round trips lose at most n steps and never change the sign. */
  lemma {:induction false} TripsDrift(perRev: int, steps: int, n: nat)
    requires IsPerRev(perRev) && perRev <= MILLION && IsInt32(steps)
    ensures
      var back := Trips(perRev, steps, n);
      && Abs(steps) - n <= Abs(back) <= Abs(steps)
      && (steps >= 0 ==> back >= 0) && (steps <= 0 ==> back <= 0)
    decreases n
  {
    if n > 0 {
      StepsRoundTrip(perRev, steps);
      TripsDrift(perRev, StepsTrip(perRev, steps), n - 1);
    }
  }

  /** The drift is exact: each trip loses one step as long as the count is not one that converts
      without remainder, and from then on nothing is lost. */
  lemma {:induction false} TripsStopAtExact(perRev: int, steps: int, k: nat, n: nat)
    requires IsPerRev(perRev) && perRev <= MILLION && IsInt32(steps) && k <= Abs(steps)
    requires forall j :: 0 <= j < k ==> !Divides(perRev, Towards(steps, j) * MILLION)
    requires Divides(perRev, Towards(steps, k) * MILLION)
    ensures Trips(perRev, steps, n) == Towards(steps, if n < k then n else k)
    decreases n
  {
    if n > 0 {
      StepsRoundTrip(perRev, steps);
      var next := StepsTrip(perRev, steps);
      if k == 0 {
        assert Towards(steps, 0) == steps;
        TripsStopAtExact(perRev, steps, 0, n - 1);
      } else {
        assert !Divides(perRev, Towards(steps, 0) * MILLION);
        assert next == Towards(steps, 1);
        assert forall j :: 0 <= j < k ==> Towards(next, j) == Towards(steps, j + 1) || next == 0;
        TowardsAgain(steps, k);
        forall j | 0 <= j < k - 1
          ensures !Divides(perRev, Towards(next, j) * MILLION)
        {
          assert Towards(next, j) == Towards(steps, j + 1);
        }
        TripsStopAtExact(perRev, next, k - 1, n - 1);
      }
    }
  }

  lemma TowardsAgain(steps: int, k: nat)
    requires 0 < k <= Abs(steps)
    ensures forall j :: 0 <= j < k ==> Towards(Towards(steps, 1), j) == Towards(steps, j + 1)
  {
  }

  // ---------- Micro-revolutions to steps and back ----------

  /** What a trip from micro-revolutions to steps and back must keep: the sign, no overshoot, and all but
      1 + 1e6 / perRev micro-revolutions. */
  predicate KeepsMicrorevs(perRev: int, microrevs: int, back: int) {
    && (microrevs >= 0 ==> 0 <= back <= microrevs) && (microrevs <= 0 ==> microrevs <= back <= 0)
    && perRev * (Abs(microrevs) - Abs(back)) < MILLION + perRev
  }

  /** The trip does so if and only if the step count fits 32 bits, for every product that fits 64. */
  lemma MicrorevsRoundTrip(perRev: int, microrevs: int)
    requires IsPerRev(perRev) && IsInt64(microrevs * perRev)
    ensures KeepsMicrorevs(perRev, microrevs, ToMicrorevs(perRev, ToSteps(perRev, microrevs)))
       <==> IsInt32(Trunc(microrevs * perRev, MILLION))
  {
    hide Trunc, Int64, Int32, ToMicrorevs, KeepsMicrorevs;
    var x := microrevs * perRev;
    var q := Trunc(x, MILLION);
    ProductBounds(microrevs, perRev, Abs(microrevs), perRev);
    SameSign(microrevs, perRev);
    WrapsNothing(x);
    TruncBounds(x, MILLION);
    Wrapped(q);
    var steps := Int32(q);
    StepsNeverOverflow(perRev, steps);
    var back := ToMicrorevs(perRev, steps);
    if IsInt32(q) {
      LossBound(Abs(microrevs), Abs(back), perRev);
      assert KeepsMicrorevs(perRev, microrevs, back) by { hide *; LossIsKept(perRev, microrevs, back); }
    } else {
      WrappedLosesMuch(perRev, microrevs, q, steps, back);
    }
  }

  lemma Wrapped(q: int)
    ensures IsInt32(Int32(q)) && (IsInt32(q) ==> Int32(q) == q)
    ensures q >= 0x8000_0000 ==> Int32(q) <= q - 0x1_0000_0000
    ensures q < -0x8000_0000 ==> Int32(q) >= q + 0x1_0000_0000
  {
  }

  lemma LossIsKept(perRev: int, microrevs: int, back: int)
    requires (microrevs >= 0 ==> back >= 0) && (microrevs <= 0 ==> back <= 0)
    requires Abs(back) <= Abs(microrevs) && perRev * (Abs(microrevs) - Abs(back)) < MILLION + perRev
    ensures KeepsMicrorevs(perRev, microrevs, back)
  {
  }

  lemma WrappedLosesMuch(perRev: int, microrevs: int, q: int, steps: int, back: int)
    requires IsPerRev(perRev) && !IsInt32(q) && IsInt32(steps)
    requires q >= 0x8000_0000 ==> steps <= q - 0x1_0000_0000 && microrevs >= 0
    requires q < -0x8000_0000 ==> steps >= q + 0x1_0000_0000 && microrevs <= 0
    requires Abs(q) * MILLION <= Abs(microrevs) * perRev
    requires Abs(back) * perRev <= Abs(steps) * MILLION && (steps >= 0 ==> back >= 0) && (steps <= 0 ==> back <= 0)
    ensures !KeepsMicrorevs(perRev, microrevs, back)
  {
    var lost := (Abs(microrevs) - Abs(back)) * perRev;
    assert lost == Abs(microrevs) * perRev - Abs(back) * perRev;
    assert perRev * (Abs(microrevs) - Abs(back)) == lost;
    if (q >= 0) == (steps >= 0) || steps == 0 {
      assert Abs(q) - Abs(steps) >= 0x8000_0000;
    } else if back == 0 {
      assert Abs(back) * perRev == 0;
    }
  }

  lemma LossBound(m: nat, b: nat, perRev: int)
    requires perRev > 0 && b * perRev <= m * perRev < b * perRev + perRev + MILLION
    ensures b <= m && perRev * (m - b) < MILLION + perRev
  {
    assert (m - b) * perRev == m * perRev - b * perRev;
    Multiples(m - b, perRev);
  }

  // ---------- The device ----------

  /** The part of a device that conversions use: its settings are asked for once. */
  class Device {
    var perRev: int
    var encoder: int
    var enabled: int
    var loaded: bool

    // The settings are the first answer for good: microsteps of 200 full steps, encoder, enabled.
    twostate predicate LoadedOnce(answer: Option<(int, int, int)>)
      reads this
    {
      && loaded == (old(loaded) || answer.Some?)
      && if old(loaded) || answer.None? then
           perRev == old(perRev) && encoder == old(encoder) && enabled == old(enabled)
         else
           perRev == Int32(answer.value.0 * 200) && encoder == answer.value.1 && enabled == answer.value.2
    }

    // The answer to the queries for MS, EE and DE; none if the device does not answer.
    method LazyLoad(answer: Option<(int, int, int)>) returns (status: int)
      modifies this
      ensures status == if old(loaded) || answer.Some? then 0 else EIO
      ensures LoadedOnce(answer)
    {
      status := 0;
      if !loaded {
        if answer.None? {
          return EIO;
        }
        perRev, encoder, enabled := answer.value.0, answer.value.1, answer.value.2;
        perRev := Int32(perRev * 200);
        loaded := true;
      }
    }

    /** A device that cannot be asked gives -EIO in place of a step count. */
    method MicrorevsToSteps(microrevs: int, answer: Option<(int, int, int)>) returns (steps: int)
      modifies this
      ensures LoadedOnce(answer)
      ensures steps == if loaded then ToSteps(if encoder == 0 then perRev else 2048, microrevs) else -EIO
    {
      var status := LazyLoad(answer);
      if status != 0 {
        return -EIO;
      }
      var n := if encoder != 0 then ENCODER_STEPS else perRev;
      steps := ToSteps(n, microrevs);
    }

    /** The same in the other direction; no value if the setting that it divides by is zero. */
    method StepsToMicrorevs(steps: int, answer: Option<(int, int, int)>) returns (microrevs: Option<int>)
      modifies this
      ensures LoadedOnce(answer)
      ensures microrevs.None? <==> loaded && encoder == 0 && perRev == 0
      ensures microrevs.Some? ==>
                microrevs.value == if loaded then MicrorevsOf(if encoder == 0 then perRev else 2048, steps) else -EIO
    {
      var status := LazyLoad(answer);
      if status != 0 {
        return Some(-EIO);
      }
      var n := if encoder != 0 then ENCODER_STEPS else perRev;
      return if n == 0 then None else Some(MicrorevsOf(n, steps));
    }
  }
}
