/**
 The profile cache of drivers/mdrive/profile.c: a copy of the unit's motion settings, in
 micro-revolutions, loaded once and written through. The settings for steps per revolution
 and encoder mode are taken as loaded and fixed.
 */
module Profile {
  import opened Wrappers
  import opened Motion

  datatype Variable = A | D | VM | VI | SF | DB | RC | HC

  datatype Settings = Settings(a: int, d: int, vm: int, vi: int, sf: int, db: int, rc: int, hc: int) {
    function Get(v: Variable): int {
      match v
      case A => a
      case D => d
      case VM => vm
      case VI => vi
      case SF => sf
      case DB => db
      case RC => rc
      case HC => hc
    }

    function With(v: Variable, x: int): (s: Settings)
      ensures forall w: Variable :: s.Get(w) == if w == v then x else Get(w)
    {
      match v
      case A => this.(a := x)
      case D => this.(d := x)
      case VM => this.(vm := x)
      case VI => this.(vi := x)
      case SF => this.(sf := x)
      case DB => this.(db := x)
      case RC => this.(rc := x)
      case HC => this.(hc := x)
    }
  }

  lemma SameSettings(s: Settings, t: Settings)
    requires forall v: Variable :: s.Get(v) == t.Get(v)
    ensures s == t
  {
    assert s.Get(A) == t.Get(A) && s.Get(D) == t.Get(D) && s.Get(VM) == t.Get(VM) && s.Get(VI) == t.Get(VI);
    assert s.Get(SF) == t.Get(SF) && s.Get(DB) == t.Get(DB) && s.Get(RC) == t.Get(RC) && s.Get(HC) == t.Get(HC);
  }

  const ENOTSUP := 95
  const EINVAL := 22

  // Distances and rates are converted; currents are percentages.
  predicate Measured(v: Variable) {
    v != RC && v != HC
  }

  predicate EncoderOnly(v: Variable) {
    v == SF || v == DB
  }

  predicate Allowed(v: Variable, x: int) {
    if Measured(v) then x >= 1 else 10 <= x <= 100
  }

  function OnUnit(perRev: int, v: Variable, x: int): int {
    if Measured(v) then ToSteps(perRev, x) else x
  }

  // The currents are kept in a byte.
  function FromUnit(perRev: int, v: Variable, u: int): int
    requires perRev > 0
  {
    if Measured(v) then ToMicrorevs(perRev, u) else u % 256
  }

  // What a load caches.
  function Converted(perRev: int, u: Settings): (s: Settings)
    requires perRev > 0
    ensures forall v: Variable :: s.Get(v) == FromUnit(perRev, v, u.Get(v))
  {
    Settings(FromUnit(perRev, A, u.a), FromUnit(perRev, D, u.d), FromUnit(perRev, VM, u.vm),
             FromUnit(perRev, VI, u.vi), FromUnit(perRev, SF, u.sf), FromUnit(perRev, DB, u.db),
             FromUnit(perRev, RC, u.rc), FromUnit(perRev, HC, u.hc))
  }

  /** What becomes of a write: acknowledged; not carried out; or carried out, but the answer is lost. */
  datatype Outcome = Acked | Refused | Lost

  // Whether the unit answers the queries of a load, and what becomes of a write, if there is one.
  datatype Reply = Reply(answers: bool, write: Outcome)

  datatype Copy = Copy(loaded: bool, cache: Settings, unit: Settings, writes: nat)

  function Load(perRev: int, c: Copy, answers: bool): Copy
    requires perRev > 0
  {
    if c.loaded || !answers then c
    else c.(loaded := true, cache := Converted(perRev, c.unit))
  }

  // After the load: no write, and the status; or a write.
  function Checked(encoder: bool, c: Copy, v: Variable, x: int): Option<int> {
    if c.cache.Get(v) == x then Some(0)
    else if EncoderOnly(v) && !encoder then Some(ENOTSUP)
    else if !Allowed(v, x) then Some(EINVAL)
    else None
  }

  /** One setter. */
  function Set(perRev: int, encoder: bool, was: Copy, v: Variable, x: int, reply: Reply): (Copy, int)
    requires perRev > 0
  {
    var c := Load(perRev, was, reply.answers);
    match Checked(encoder, c, v, x)
    case Some(status) => (c, status)
    case None =>
      var unit := if reply.write.Refused? then c.unit else c.unit.With(v, OnUnit(perRev, v, x));
      if reply.write.Acked? then (c.(unit := unit, cache := c.cache.With(v, x), writes := c.writes + 1), 0)
      else (c.(unit := unit, writes := c.writes + 1), EIO)
  }

  /** The status of a setter, exactly, by the value that a load leaves in the cache: rates and distances are at
      least one micro-revolution, currents from 10 to 100 per cent, and the stall factor and the deadband only
      for units with an encoder. A write is sent in just the remaining cases. */
  lemma SetStatusIff(perRev: int, encoder: bool, was: Copy, v: Variable, x: int, reply: Reply)
    requires perRev > 0
    ensures
      var c, (after, status) := Load(perRev, was, reply.answers), Set(perRev, encoder, was, v, x, reply);
      var differs, fit := c.cache.Get(v) != x, v in {SF, DB} ==> encoder;
      var good := if v in {RC, HC} then 10 <= x <= 100 else x >= 1;
      && (status == ENOTSUP <==> differs && !fit)
      && (status == EINVAL <==> differs && fit && !good)
      && (status == EIO <==> differs && fit && good && !reply.write.Acked?)
      && (status == 0 <==> !differs || (fit && good && reply.write.Acked?))
      && after.writes == was.writes + (if differs && fit && good then 1 else 0)
      && (after.loaded <==> was.loaded || reply.answers)
  {
  }

  /** The cached value, converted, is within a step of what the unit has. */
  predicate Near(perRev: int, c: Copy, v: Variable) {
    Abs(c.unit.Get(v) - OnUnit(perRev, v, c.cache.Get(v))) <= 1
  }

  // What the unit can hold: 32 bits, and currents that fit the cache's byte.
  predicate IsOnUnit(v: Variable, u: int) {
    IsInt32(u) && (!Measured(v) ==> 0 <= u < 256)
  }

  ghost predicate Coherent(perRev: int, c: Copy) {
    && (forall v: Variable :: IsOnUnit(v, c.unit.Get(v)))
    && (c.loaded ==> forall v: Variable :: Near(perRev, c, v))
  }

  predicate Fits(perRev: int) {
    0 < perRev <= MILLION
  }

  lemma LoadIsCoherent(perRev: int, c: Copy, answers: bool)
    requires Fits(perRev) && Coherent(perRev, c)
    ensures Coherent(perRev, Load(perRev, c, answers))
  {
    hide ToSteps, ToMicrorevs;
    var after := Load(perRev, c, answers);
    if !c.loaded && answers {
      forall v: Variable
        ensures Near(perRev, after, v)
      {
        StepsRoundTrip(perRev, c.unit.Get(v));
      }
    }
  }

  /** A load of values of 32 bits is within a step everywhere if and only if the currents fit a byte. */
  lemma LoadIsCoherentIff(perRev: int, c: Copy)
    requires Fits(perRev) && !c.loaded && forall v: Variable :: IsInt32(c.unit.Get(v))
    ensures (forall v: Variable :: Near(perRev, Load(perRev, c, true), v))
            <==> forall v: Variable :: IsOnUnit(v, c.unit.Get(v))
  {
    hide ToSteps, ToMicrorevs;
    var after := Load(perRev, c, true);
    forall v: Variable
      ensures Near(perRev, after, v) <==> IsOnUnit(v, c.unit.Get(v))
    {
      StepsRoundTrip(perRev, c.unit.Get(v));
    }
  }

  lemma StepsFitUnit(perRev: int, v: Variable, x: int)
    requires Allowed(v, x)
    ensures IsOnUnit(v, OnUnit(perRev, v, x))
  {
  }

  /** A setter keeps the cache coherent if and only if it does not send a write that is carried out,
      goes unacknowledged, and moves the unit more than a step away from the cached value. */
  lemma SetKeepsCoherenceIff(perRev: int, encoder: bool, c: Copy, v: Variable, x: int, reply: Reply)
    requires Fits(perRev) && Coherent(perRev, c)
    ensures
      var loaded := Load(perRev, c, reply.answers);
      Coherent(perRev, Set(perRev, encoder, c, v, x, reply).0) <==>
      !(loaded.loaded && Checked(encoder, loaded, v, x).None? && reply.write.Lost?
        && Abs(OnUnit(perRev, v, x) - OnUnit(perRev, v, loaded.cache.Get(v))) > 1)
  {
    hide OnUnit, Load, Checked, Coherent, Set;
    LoadIsCoherent(perRev, c, reply.answers);
    var loaded := Load(perRev, c, reply.answers);
    if Checked(encoder, loaded, v, x).None? {
      AllowedIfWritten(encoder, loaded, v, x);
      StepsFitUnit(perRev, v, x);
      WriteKeepsCoherenceIff(perRev, loaded, v, x, reply.write);
    }
    SetIsWrite(perRev, encoder, c, v, x, reply);
  }

  // The write of a setter.
  function Write(perRev: int, c: Copy, v: Variable, x: int, write: Outcome): Copy {
    var unit := if write.Refused? then c.unit else c.unit.With(v, OnUnit(perRev, v, x));
    c.(unit := unit, cache := if write.Acked? then c.cache.With(v, x) else c.cache, writes := c.writes + 1)
  }

  lemma SetIsWrite(perRev: int, encoder: bool, c: Copy, v: Variable, x: int, reply: Reply)
    requires perRev > 0
    ensures
      var loaded := Load(perRev, c, reply.answers);
      Set(perRev, encoder, c, v, x, reply)
      == if Checked(encoder, loaded, v, x).Some? then (loaded, Checked(encoder, loaded, v, x).value)
         else (Write(perRev, loaded, v, x, reply.write), if reply.write.Acked? then 0 else EIO)
  {
    hide OnUnit, Load, Checked;
  }

  lemma WriteKeepsCoherenceIff(perRev: int, c: Copy, v: Variable, x: int, write: Outcome)
    requires Coherent(perRev, c) && IsOnUnit(v, OnUnit(perRev, v, x))
    ensures Coherent(perRev, Write(perRev, c, v, x, write)) <==>
            !(c.loaded && write.Lost? && Abs(OnUnit(perRev, v, x) - OnUnit(perRev, v, c.cache.Get(v))) > 1)
  {
    hide OnUnit, Near, IsOnUnit;
    var after := Write(perRev, c, v, x, write);
    OthersStayNear(perRev, c, after, v);
    WrittenIsNear(perRev, c, after, v, x, write);
    assert forall w: Variable :: IsOnUnit(w, after.unit.Get(w));
  }

  lemma AllowedIfWritten(encoder: bool, c: Copy, v: Variable, x: int)
    requires Checked(encoder, c, v, x).None?
    ensures Allowed(v, x)
  {
  }

  lemma OthersStayNear(perRev: int, c: Copy, after: Copy, v: Variable)
    requires forall w: Variable :: w != v ==> after.unit.Get(w) == c.unit.Get(w) && after.cache.Get(w) == c.cache.Get(w)
    ensures forall w: Variable :: w != v ==> (Near(perRev, after, w) <==> Near(perRev, c, w))
  {
  }

  lemma WrittenIsNear(perRev: int, c: Copy, after: Copy, v: Variable, x: int, write: Outcome)
    requires Near(perRev, c, v) || !c.loaded
    requires after.unit == if write.Refused? then c.unit else c.unit.With(v, OnUnit(perRev, v, x))
    requires after.cache == if write.Acked? then c.cache.With(v, x) else c.cache
    ensures c.loaded ==> (Near(perRev, after, v) <==>
              !(write.Lost? && Abs(OnUnit(perRev, v, x) - OnUnit(perRev, v, c.cache.Get(v))) > 1))
  {
    hide OnUnit;
  }

  /** A setter that succeeds on a loaded profile leaves the cache at the value; if it had to write, the
      unit has exactly that value. Nothing else changes. */
  lemma SetSucceeds(perRev: int, encoder: bool, c: Copy, v: Variable, x: int, reply: Reply)
    requires perRev > 0 && c.loaded && Set(perRev, encoder, c, v, x, reply).1 == 0
    ensures
      var after := Set(perRev, encoder, c, v, x, reply).0;
      && after.loaded && after.cache == c.cache.With(v, x)
      && (c.cache.Get(v) != x ==>
            after.unit == c.unit.With(v, if v == RC || v == HC then x else ToSteps(perRev, x)))
      && (c.cache.Get(v) == x ==> after == c)
  {
    hide ToSteps;
  }

  // ---------- Runs ----------

  datatype Request = Request(v: Variable, x: int, reply: Reply)

  function Run(perRev: int, encoder: bool, c: Copy, requests: seq<Request>): Copy
    requires perRev > 0
    decreases |requests|
  {
    if requests == [] then c
    else
      var r := requests[0];
      Run(perRev, encoder, Set(perRev, encoder, c, r.v, r.x, r.reply).0, requests[1..])
  }

  /** Over any run in which no acknowledgement is lost, the cache stays coherent. */
  lemma {:induction false} RunIsCoherent(perRev: int, encoder: bool, c: Copy, requests: seq<Request>)
    requires Fits(perRev) && Coherent(perRev, c)
    requires forall i :: 0 <= i < |requests| ==> !requests[i].reply.write.Lost?
    ensures Coherent(perRev, Run(perRev, encoder, c, requests))
    decreases |requests|
  {
    hide Set, Coherent, Load, Checked;
    if requests != [] {
      var r := requests[0];
      SetKeepsCoherenceIff(perRev, encoder, c, r.v, r.x, r.reply);
      RunIsCoherent(perRev, encoder, Set(perRev, encoder, c, r.v, r.x, r.reply).0, requests[1..]);
    }
  }

  // ---------- mdrive_set_profile ----------

  const ORDER: seq<Variable> := [A, D, VM, VI, SF, DB, RC, HC]

  // The setters one after another; their statuses are ignored.
  function SetAll(perRev: int, encoder: bool, c: Copy, p: Settings, order: seq<Variable>, replies: seq<Reply>):
      (Copy, seq<int>)
    requires perRev > 0 && |replies| == |order|
    decreases |order|
  {
    if order == [] then (c, [])
    else
      var (next, status) := Set(perRev, encoder, c, order[0], p.Get(order[0]), replies[0]);
      var (last, statuses) := SetAll(perRev, encoder, next, p, order[1..], replies[1..]);
      (last, [status] + statuses)
  }

  predicate AllZero(statuses: seq<int>) {
    forall i :: 0 <= i < |statuses| ==> statuses[i] == 0
  }

  lemma {:induction false} SetAllSucceeds(
    perRev: int, encoder: bool, c: Copy, p: Settings, order: seq<Variable>, replies: seq<Reply>)
    requires Fits(perRev) && Coherent(perRev, c) && c.loaded && |replies| == |order|
    requires AllZero(SetAll(perRev, encoder, c, p, order, replies).1)
    ensures
      var last := SetAll(perRev, encoder, c, p, order, replies).0;
      && last.loaded && Coherent(perRev, last)
      && (forall v: Variable :: v in order || c.cache.Get(v) == p.Get(v) ==> last.cache.Get(v) == p.Get(v))
    decreases |order|
  {
    hide Coherent, Set, Load, Checked;
    if order != [] {
      var v := order[0];
      var (next, status) := Set(perRev, encoder, c, v, p.Get(v), replies[0]);
      var (last, statuses) := SetAll(perRev, encoder, next, p, order[1..], replies[1..]);
      var all := [status] + statuses;
      assert all[0] == status && statuses == all[1..];
      assert AllZero(statuses) by {
        forall i | 0 <= i < |statuses|
          ensures statuses[i] == 0
        {
          assert statuses[i] == all[i + 1];
        }
      }
      SetSucceeds(perRev, encoder, c, v, p.Get(v), replies[0]);
      AckedKeepsCoherence(perRev, encoder, c, v, p.Get(v), replies[0]);
      SetAllSucceeds(perRev, encoder, next, p, order[1..], replies[1..]);
    }
  }

  lemma AckedKeepsCoherence(perRev: int, encoder: bool, c: Copy, v: Variable, x: int, reply: Reply)
    requires Fits(perRev) && Coherent(perRev, c) && Set(perRev, encoder, c, v, x, reply).1 == 0
    ensures Coherent(perRev, Set(perRev, encoder, c, v, x, reply).0)
  {
    SetKeepsCoherenceIff(perRev, encoder, c, v, x, reply);
    hide Coherent, Load, OnUnit;
  }

  /** When the whole profile is set without an error on a loaded cache, the unit is within a step of
      it everywhere, and setting it again sends nothing and changes nothing. */
  lemma ProfileIsSet(perRev: int, encoder: bool, c: Copy, p: Settings, replies: seq<Reply>, again: seq<Reply>)
    requires Fits(perRev) && Coherent(perRev, c) && c.loaded && |replies| == |again| == |ORDER|
    requires AllZero(SetAll(perRev, encoder, c, p, ORDER, replies).1)
    ensures
      var last := SetAll(perRev, encoder, c, p, ORDER, replies).0;
      && last.cache == p
      && (forall v: Variable :: Abs(last.unit.Get(v) - OnUnit(perRev, v, p.Get(v))) <= 1)
      && SetAll(perRev, encoder, last, p, ORDER, again).0 == last
      && AllZero(SetAll(perRev, encoder, last, p, ORDER, again).1)
  {
    hide SetAll, OnUnit;
    SetAllSucceeds(perRev, encoder, c, p, ORDER, replies);
    var last := SetAll(perRev, encoder, c, p, ORDER, replies).0;
    forall v: Variable
      ensures last.cache.Get(v) == p.Get(v) && Abs(last.unit.Get(v) - OnUnit(perRev, v, p.Get(v))) <= 1
    {
      EveryVariable(v);
      assert Near(perRev, last, v);
    }
    SameSettings(last.cache, p);
    SetAgain(perRev, encoder, last, p, ORDER, again);
  }

  lemma EveryVariable(v: Variable)
    ensures v in ORDER
  {
    OrderIs();
  }

  lemma {:induction false} SetAgain(
    perRev: int, encoder: bool, c: Copy, p: Settings, order: seq<Variable>, replies: seq<Reply>)
    requires perRev > 0 && c.loaded && c.cache == p && |replies| == |order|
    ensures SetAll(perRev, encoder, c, p, order, replies).0 == c
    ensures AllZero(SetAll(perRev, encoder, c, p, order, replies).1)
    decreases |order|
  {
    if order != [] {
      SetAgain(perRev, encoder, c, p, order[1..], replies[1..]);
    }
  }

  // ---------- The driver ----------

  /** The driver's copy of the settings, and the unit at the other end of the line. */
  class Driver {
    const perRev: int
    const encoder: bool
    var loaded: bool
    var cache: Settings
    var unit: Settings
    ghost var writes: nat

    constructor (perRev: int, encoder: bool, zero: Settings, unit: Settings)
      requires perRev > 0
      ensures this.perRev == perRev && this.encoder == encoder && State() == Copy(false, zero, unit, 0)
    {
      this.perRev, this.encoder := perRev, encoder;
      loaded, cache, this.unit, writes := false, zero, unit, 0;
    }

    ghost function State(): Copy
      reads this
    {
      Copy(loaded, cache, unit, writes)
    }

    method LazyLoad(answers: bool)
      requires perRev > 0
      modifies this`loaded, this`cache
      ensures State() == Load(perRev, old(State()), answers)
    {
      hide FromUnit;
      if loaded {
        return;
      }
      if !answers {
        return;
      }
      cache := Converted(perRev, unit);
      loaded := true;
    }

    // mdrive_profile_accel and its seven siblings.
    method SetVariable(v: Variable, x: int, reply: Reply) returns (status: int)
      requires perRev > 0
      modifies this
      ensures (State(), status) == Set(perRev, encoder, old(State()), v, x, reply)
    {
      hide FromUnit, OnUnit, Allowed, Load, EncoderOnly, Set;
      SetIsWrite(perRev, encoder, State(), v, x, reply);
      LazyLoad(reply.answers);
      if cache.Get(v) == x {
        return 0;
      }
      if EncoderOnly(v) && !encoder {
        return ENOTSUP;
      }
      if !Allowed(v, x) {
        return EINVAL;
      }
      if !reply.write.Refused? {
        unit := unit.With(v, OnUnit(perRev, v, x));
      }
      writes := writes + 1;
      if !reply.write.Acked? {
        return EIO;
      }
      cache := cache.With(v, x);
      return 0;
    }

    // The statuses of the setters are ignored.
    method SetProfile(p: Settings, replies: seq<Reply>) returns (status: int)
      requires perRev > 0 && |replies| == |ORDER|
      modifies this
      ensures status == 0 && State() == SetAll(perRev, encoder, old(State()), p, ORDER, replies).0
    {
      hide Set, SetAll, Remaining, ORDER;
      OrderIs();
      ghost var first := State();
      Started(perRev, encoder, first, p, replies);
      SetOne(perRev, encoder, State(), p, A, 0, replies);
      var _ := SetVariable(A, p.Get(A), replies[0]);
      SetOne(perRev, encoder, State(), p, D, 1, replies);
      var _ := SetVariable(D, p.Get(D), replies[1]);
      SetOne(perRev, encoder, State(), p, VM, 2, replies);
      var _ := SetVariable(VM, p.Get(VM), replies[2]);
      SetOne(perRev, encoder, State(), p, VI, 3, replies);
      var _ := SetVariable(VI, p.Get(VI), replies[3]);
      SetOne(perRev, encoder, State(), p, SF, 4, replies);
      var _ := SetVariable(SF, p.Get(SF), replies[4]);
      SetOne(perRev, encoder, State(), p, DB, 5, replies);
      var _ := SetVariable(DB, p.Get(DB), replies[5]);
      SetOne(perRev, encoder, State(), p, RC, 6, replies);
      var _ := SetVariable(RC, p.Get(RC), replies[6]);
      SetOne(perRev, encoder, State(), p, HC, 7, replies);
      var _ := SetVariable(HC, p.Get(HC), replies[7]);
      Finished(perRev, encoder, State(), p, replies);
      return 0;
    }
  }

  lemma OrderIs()
    ensures |ORDER| == 8 && ORDER[0] == A && ORDER[1] == D && ORDER[2] == VM && ORDER[3] == VI
    ensures ORDER[4] == SF && ORDER[5] == DB && ORDER[6] == RC && ORDER[7] == HC
  {
  }

  // What is left to set from variable k on.
  function Remaining(perRev: int, encoder: bool, c: Copy, p: Settings, k: nat, replies: seq<Reply>): Copy
    requires perRev > 0 && |replies| == |ORDER| && k <= |ORDER|
  {
    SetAll(perRev, encoder, c, p, ORDER[k..], replies[k..]).0
  }

  lemma Started(perRev: int, encoder: bool, c: Copy, p: Settings, replies: seq<Reply>)
    requires perRev > 0 && |replies| == |ORDER|
    ensures Remaining(perRev, encoder, c, p, 0, replies) == SetAll(perRev, encoder, c, p, ORDER, replies).0
  {
    assert ORDER[0..] == ORDER && replies[0..] == replies;
  }

  lemma SetOne(perRev: int, encoder: bool, c: Copy, p: Settings, v: Variable, k: nat, replies: seq<Reply>)
    requires perRev > 0 && |replies| == |ORDER| && k < |ORDER| && ORDER[k] == v
    ensures
      var next := Set(perRev, encoder, c, v, p.Get(v), replies[k]).0;
      Remaining(perRev, encoder, c, p, k, replies) == Remaining(perRev, encoder, next, p, k + 1, replies)
  {
    hide Set, ORDER;
    assert ORDER[k..][1..] == ORDER[k + 1..] && replies[k..][1..] == replies[k + 1..];
  }

  lemma Finished(perRev: int, encoder: bool, c: Copy, p: Settings, replies: seq<Reply>)
    requires perRev > 0 && |replies| == |ORDER|
    ensures |ORDER| == 8 && Remaining(perRev, encoder, c, p, 8, replies) == c
  {
  }
}
