/**
 Setting the same profile twice when the cache was not loaded at first
 (mdrive_set_profile in drivers/mdrive/profile.c): exactly when the second time sends
 nothing.
 */
module ProfileRepeats {
  import opened Wrappers
  import opened Motion
  import opened Profile

  /** The setter at which the unit first answers the queries of a load; the number of setters if it
      never does. */
  function FirstAnswer(replies: seq<Reply>): (k: nat)
    ensures k <= |replies| && (k < |replies| ==> replies[k].answers) && forall i :: 0 <= i < k ==> !replies[i].answers
  {
    if replies == [] || replies[0].answers then 0 else 1 + FirstAnswer(replies[1..])
  }

  // The setter would send the value: the mode and the value allow it.
  predicate Writable(encoder: bool, v: Variable, x: int) {
    (EncoderOnly(v) ==> encoder) && Allowed(v, x)
  }

  /** What the unit holds of a variable that was set, without an error, before any load. */
  function Held(perRev: int, c: Copy, p: Settings, v: Variable): int {
    if c.cache.Get(v) != p.Get(v) then OnUnit(perRev, v, p.Get(v)) else c.unit.Get(v)
  }

  /** A load replaces the value in the cache by another one, and the setter sends it again. */
  predicate SentAgain(perRev: int, encoder: bool, c: Copy, p: Settings, v: Variable)
    requires perRev > 0
  {
    Writable(encoder, v, p.Get(v)) && FromUnit(perRev, v, Held(perRev, c, p, v)) != p.Get(v)
  }

  // ---------- The setters one after another ----------

  lemma HeadSucceeds(perRev: int, encoder: bool, c: Copy, p: Settings, order: seq<Variable>, replies: seq<Reply>)
    requires perRev > 0 && |replies| == |order| > 0 && AllZero(SetAll(perRev, encoder, c, p, order, replies).1)
    ensures
      var (next, status) := Set(perRev, encoder, c, order[0], p.Get(order[0]), replies[0]);
      status == 0 && AllZero(SetAll(perRev, encoder, next, p, order[1..], replies[1..]).1)
  {
    hide Set;
    var (next, status) := Set(perRev, encoder, c, order[0], p.Get(order[0]), replies[0]);
    var statuses := SetAll(perRev, encoder, next, p, order[1..], replies[1..]).1;
    var all := [status] + statuses;
    assert all[0] == status;
    forall i | 0 <= i < |statuses|
      ensures statuses[i] == 0
    {
      assert statuses[i] == all[i + 1];
    }
  }

  // A success on a cache that stays unloaded.
  lemma UnloadedSucceeds(perRev: int, encoder: bool, c: Copy, v: Variable, x: int, reply: Reply)
    requires perRev > 0 && !c.loaded && !reply.answers && Set(perRev, encoder, c, v, x, reply).1 == 0
    ensures
      var after := Set(perRev, encoder, c, v, x, reply).0;
      && !after.loaded && after.cache == c.cache.With(v, x)
      && after.unit == (if c.cache.Get(v) != x then c.unit.With(v, OnUnit(perRev, v, x)) else c.unit)
      && (c.cache.Get(v) == x ==> after == c)
  {
    hide OnUnit;
  }

  // Before the load: every variable set is cached, and held by the unit; the others are untouched.
  lemma {:induction false} UnloadedPhase(
    perRev: int, encoder: bool, c: Copy, p: Settings, order: seq<Variable>, replies: seq<Reply>)
    requires perRev > 0 && !c.loaded && |replies| == |order| && Distinct(order)
    requires (forall i :: 0 <= i < |replies| ==> !replies[i].answers)
    requires AllZero(SetAll(perRev, encoder, c, p, order, replies).1)
    ensures
      var last := SetAll(perRev, encoder, c, p, order, replies).0;
      && !last.loaded
      && (forall v: Variable :: last.cache.Get(v) == if v in order then p.Get(v) else c.cache.Get(v))
      && (forall v: Variable :: last.unit.Get(v) == if v in order then Held(perRev, c, p, v) else c.unit.Get(v))
    decreases |order|
  {
    hide Set, OnUnit;
    if order != [] {
      var v := order[0];
      HeadSucceeds(perRev, encoder, c, p, order, replies);
      UnloadedSucceeds(perRev, encoder, c, v, p.Get(v), replies[0]);
      var next := Set(perRev, encoder, c, v, p.Get(v), replies[0]).0;
      assert v !in order[1..];
      forall i | 0 <= i < |replies[1..]|
        ensures !replies[1..][i].answers
      {
        assert replies[1..][i] == replies[i + 1];
      }
      UnloadedPhase(perRev, encoder, next, p, order[1..], replies[1..]);
      forall w: Variable
        ensures w in order <==> w == v || w in order[1..]
      {
      }
    }
  }

  // After the load: every variable set is cached, and the others are untouched.
  lemma {:induction false} LoadedPhase(
    perRev: int, encoder: bool, c: Copy, p: Settings, order: seq<Variable>, replies: seq<Reply>)
    requires perRev > 0 && c.loaded && |replies| == |order|
    requires AllZero(SetAll(perRev, encoder, c, p, order, replies).1)
    ensures
      var last := SetAll(perRev, encoder, c, p, order, replies).0;
      last.loaded && forall v: Variable :: last.cache.Get(v) == if v in order then p.Get(v) else c.cache.Get(v)
    decreases |order|
  {
    hide Set;
    if order != [] {
      var v := order[0];
      HeadSucceeds(perRev, encoder, c, p, order, replies);
      SetSucceeds(perRev, encoder, c, v, p.Get(v), replies[0]);
      LoadedPhase(perRev, encoder, Set(perRev, encoder, c, v, p.Get(v), replies[0]).0, p, order[1..], replies[1..]);
    }
  }

  lemma {:induction false} SetAllSplits(
    perRev: int, encoder: bool, c: Copy, p: Settings, order: seq<Variable>, replies: seq<Reply>, k: nat)
    requires perRev > 0 && |replies| == |order| && k <= |order|
    ensures
      var (mid, first) := SetAll(perRev, encoder, c, p, order[..k], replies[..k]);
      var (last, second) := SetAll(perRev, encoder, mid, p, order[k..], replies[k..]);
      SetAll(perRev, encoder, c, p, order, replies) == (last, first + second)
    decreases k
  {
    hide Set;
    if k == 0 {
      assert order[..0] == [] && order[0..] == order && replies[0..] == replies;
      var all := SetAll(perRev, encoder, c, p, order, replies).1;
      assert [] + all == all;
    } else {
      var next := Set(perRev, encoder, c, order[0], p.Get(order[0]), replies[0]).0;
      assert order[..k][1..] == order[1..][..k - 1] && replies[..k][1..] == replies[1..][..k - 1];
      assert order[1..][k - 1..] == order[k..] && replies[1..][k - 1..] == replies[k..];
      SetAllSplits(perRev, encoder, next, p, order[1..], replies[1..], k - 1);
      var status := Set(perRev, encoder, c, order[0], p.Get(order[0]), replies[0]).1;
      var (mid, first) := SetAll(perRev, encoder, next, p, order[1..][..k - 1], replies[1..][..k - 1]);
      var second := SetAll(perRev, encoder, mid, p, order[k..], replies[k..]).1;
      assert [status] + (first + second) == [status] + first + second;
    }
  }

  lemma ZeroParts(a: seq<int>, b: seq<int>)
    requires AllZero(a + b)
    ensures AllZero(a) && AllZero(b)
  {
    assert forall i :: 0 <= i < |a| ==> a[i] == (a + b)[i];
    assert forall i :: 0 <= i < |b| ==> b[i] == (a + b)[|a| + i];
  }

  // A load on the way makes no difference to a cache that has just been loaded.
  lemma LoadedAlready(
    perRev: int, encoder: bool, c: Copy, p: Settings, order: seq<Variable>, replies: seq<Reply>)
    requires perRev > 0 && |replies| == |order| > 0 && replies[0].answers
    ensures SetAll(perRev, encoder, c, p, order, replies)
         == SetAll(perRev, encoder, Load(perRev, c, true), p, order, replies)
  {
    assert Load(perRev, Load(perRev, c, true), true) == Load(perRev, c, true);
    hide Load, Checked, OnUnit;
  }

  // ---------- Whether anything is sent ----------

  lemma {:induction false} WritesGrow(
    perRev: int, encoder: bool, c: Copy, p: Settings, order: seq<Variable>, replies: seq<Reply>)
    requires perRev > 0 && |replies| == |order|
    ensures SetAll(perRev, encoder, c, p, order, replies).0.writes >= c.writes
    decreases |order|
  {
    if order != [] {
      var next := Set(perRev, encoder, c, order[0], p.Get(order[0]), replies[0]).0;
      WritesGrow(perRev, encoder, next, p, order[1..], replies[1..]);
    }
  }

  // On a loaded cache something is sent for exactly the values that differ and may be sent.
  lemma {:induction false} LoadedSendsNothingIff(
    perRev: int, encoder: bool, c: Copy, p: Settings, order: seq<Variable>, replies: seq<Reply>)
    requires perRev > 0 && c.loaded && |replies| == |order|
    ensures SetAll(perRev, encoder, c, p, order, replies).0.writes == c.writes
            <==> forall i :: 0 <= i < |order| ==>
                   c.cache.Get(order[i]) == p.Get(order[i]) || !Writable(encoder, order[i], p.Get(order[i]))
    decreases |order|
  {
    if order != [] {
      var v := order[0];
      var next := Set(perRev, encoder, c, v, p.Get(v), replies[0]).0;
      HeadSends(perRev, encoder, c, v, p.Get(v), replies[0]);
      hide Set, Writable;
      WritesGrow(perRev, encoder, next, p, order[1..], replies[1..]);
      if c.cache.Get(v) == p.Get(v) || !Writable(encoder, v, p.Get(v)) {
        LoadedSendsNothingIff(perRev, encoder, c, p, order[1..], replies[1..]);
        assert forall i :: 0 < i < |order| ==> order[i] == order[1..][i - 1];
      }
    }
  }

  lemma HeadSends(perRev: int, encoder: bool, c: Copy, v: Variable, x: int, reply: Reply)
    requires perRev > 0 && c.loaded
    ensures
      var next := Set(perRev, encoder, c, v, x, reply).0;
      if c.cache.Get(v) == x || !Writable(encoder, v, x) then next == c else next.writes == c.writes + 1
  {
    hide OnUnit;
  }

  lemma {:induction false} UnloadedSendsNothing(
    perRev: int, encoder: bool, c: Copy, p: Settings, order: seq<Variable>, replies: seq<Reply>)
    requires perRev > 0 && !c.loaded && c.cache == p && |replies| == |order|
    requires (forall i :: 0 <= i < |replies| ==> !replies[i].answers)
    ensures SetAll(perRev, encoder, c, p, order, replies).0 == c
    decreases |order|
  {
    if order != [] {
      assert forall i :: 0 <= i < |replies[1..]| ==> replies[1..][i] == replies[i + 1];
      UnloadedSendsNothing(perRev, encoder, c, p, order[1..], replies[1..]);
    }
  }

  // ---------- The whole profile ----------

  lemma OrderIsDistinct()
    ensures Distinct(ORDER) && |ORDER| == 8 && forall v: Variable :: v in ORDER
  {
    OrderIs();
    forall v: Variable
      ensures v in ORDER
    {
      EveryVariable(v);
    }
  }

  lemma {:induction false} DistinctParts(order: seq<Variable>, k: nat)
    requires Distinct(order) && k <= |order|
    ensures Distinct(order[..k]) && forall v <- order[..k] :: v !in order[k..]
  {
    forall v <- order[..k]
      ensures v !in order[k..]
    {
      var i :| 0 <= i < k && order[i] == v;
      forall j | 0 <= j < |order[k..]|
        ensures order[k..][j] != v
      {
        assert order[k..][j] == order[k + j];
      }
    }
  }

  /** The profile is set without an error on a cache that is not loaded, and the load succeeds at setter
      k: setting it again sends nothing if and only if no variable set before k has a value that the
      load turned into another one and that may be sent. For a unit whose cache was all zero, these are
      the values v with ToMicrorevs(ToSteps(v)) != v. */
  lemma {:induction false} LateLoadSendsNothingIff(
    perRev: int, encoder: bool, c: Copy, p: Settings, replies: seq<Reply>, again: seq<Reply>)
    requires perRev > 0 && !c.loaded && |replies| == |again| == |ORDER|
    requires AllZero(SetAll(perRev, encoder, c, p, ORDER, replies).1)
    requires FirstAnswer(replies) < |ORDER|
    ensures
      var last := SetAll(perRev, encoder, c, p, ORDER, replies).0;
      SetAll(perRev, encoder, last, p, ORDER, again).0.writes == last.writes
      <==> forall i :: 0 <= i < FirstAnswer(replies) ==> !SentAgain(perRev, encoder, c, p, ORDER[i])
  {
    hide Set, SetAll, ORDER, Writable, AllZero, Held, FromUnit;
    OrderIsDistinct();
    var k := FirstAnswer(replies);
    var last := SetAll(perRev, encoder, c, p, ORDER, replies).0;
    CachedAfterLateLoad(perRev, encoder, c, p, replies);
    LoadedSendsNothingIff(perRev, encoder, last, p, ORDER, again);
    forall i | 0 <= i < |ORDER|
      ensures last.cache.Get(ORDER[i]) == p.Get(ORDER[i]) || !Writable(encoder, ORDER[i], p.Get(ORDER[i]))
              <==> i >= k || !SentAgain(perRev, encoder, c, p, ORDER[i])
    {
      assert i >= k ==> ORDER[k..][i - k] == ORDER[i];
      assert i < k ==> ORDER[..k][i] == ORDER[i];
    }
  }

  // What the cache holds when the load came at setter k.
  lemma {:induction false} CachedAfterLateLoad(perRev: int, encoder: bool, c: Copy, p: Settings, replies: seq<Reply>)
    requires perRev > 0 && !c.loaded && |replies| == |ORDER| && FirstAnswer(replies) < |ORDER|
    requires AllZero(SetAll(perRev, encoder, c, p, ORDER, replies).1)
    ensures
      var k, last := FirstAnswer(replies), SetAll(perRev, encoder, c, p, ORDER, replies).0;
      && last.loaded && (forall v <- ORDER[k..] :: last.cache.Get(v) == p.Get(v))
      && forall v <- ORDER[..k] :: last.cache.Get(v) == FromUnit(perRev, v, Held(perRev, c, p, v))
  {
    hide Set, SetAll, ORDER, AllZero, Held, FromUnit;
    OrderIsDistinct();
    var k := FirstAnswer(replies);
    SetAllSplits(perRev, encoder, c, p, ORDER, replies, k);
    var (mid, first) := SetAll(perRev, encoder, c, p, ORDER[..k], replies[..k]);
    ZeroParts(first, SetAll(perRev, encoder, mid, p, ORDER[k..], replies[k..]).1);
    DistinctParts(ORDER, k);
    UnloadedPhase(perRev, encoder, c, p, ORDER[..k], replies[..k]);
    LoadedAlready(perRev, encoder, mid, p, ORDER[k..], replies[k..]);
    LoadedPhase(perRev, encoder, Load(perRev, mid, true), p, ORDER[k..], replies[k..]);
  }

  /** The profile is set without an error and the load never succeeds: the cache is the profile, and
      setting it again sends nothing if and only if no variable set from the first answer on has a value
      that the load turns into another one and that may be sent; without an answer it sends nothing. */
  lemma {:induction false} NeverLoadedSendsNothingIff(
    perRev: int, encoder: bool, c: Copy, p: Settings, replies: seq<Reply>, again: seq<Reply>)
    requires perRev > 0 && !c.loaded && |replies| == |again| == |ORDER|
    requires AllZero(SetAll(perRev, encoder, c, p, ORDER, replies).1)
    requires FirstAnswer(replies) == |ORDER|
    ensures
      var last := SetAll(perRev, encoder, c, p, ORDER, replies).0;
      && !last.loaded && last.cache == p
      && (SetAll(perRev, encoder, last, p, ORDER, again).0.writes == last.writes
          <==> forall i :: FirstAnswer(again) <= i < |ORDER| ==> !SentAgain(perRev, encoder, c, p, ORDER[i]))
  {
    hide Set, SetAll, ORDER, Writable, AllZero, Held, FromUnit;
    OrderIsDistinct();
    UnloadedPhase(perRev, encoder, c, p, ORDER, replies);
    var last := SetAll(perRev, encoder, c, p, ORDER, replies).0;
    SameSettings(last.cache, p);
    var j := FirstAnswer(again);
    SetAllSplits(perRev, encoder, last, p, ORDER, again, j);
    UnloadedSendsNothing(perRev, encoder, last, p, ORDER[..j], again[..j]);
    if j < |ORDER| {
      LoadedAlready(perRev, encoder, last, p, ORDER[j..], again[j..]);
      LoadedSendsNothingIff(perRev, encoder, Load(perRev, last, true), p, ORDER[j..], again[j..]);
      forall i | j <= i < |ORDER|
        ensures Load(perRev, last, true).cache.Get(ORDER[i]) == p.Get(ORDER[i])
                || !Writable(encoder, ORDER[i], p.Get(ORDER[i]))
                <==> !SentAgain(perRev, encoder, c, p, ORDER[i])
      {
        assert ORDER[j..][i - j] == ORDER[i];
      }
      assert forall i :: 0 <= i < |ORDER[j..]| ==> ORDER[j..][i] == ORDER[j + i];
    } else {
      assert ORDER[j..] == [] && again[j..] == [];
      NoSetters(perRev, encoder, last, p);
    }
  }

  lemma NoSetters(perRev: int, encoder: bool, c: Copy, p: Settings)
    requires perRev > 0
    ensures SetAll(perRev, encoder, c, p, [], []).0 == c
  {
  }

  /** A profile that is sent again: at 51200 steps per revolution an acceleration of 20 micro-revolutions
      is one step, and one step is 19 of them. */
  lemma LateLoadWritesAgain(c: Copy, p: Settings, replies: seq<Reply>, again: seq<Reply>)
    requires !c.loaded && c.cache.Get(A) == 0 && p.Get(A) == 20 && |replies| == |again| == |ORDER|
    requires AllZero(SetAll(51200, true, c, p, ORDER, replies).1) && 0 < FirstAnswer(replies) < |ORDER|
    ensures
      var last := SetAll(51200, true, c, p, ORDER, replies).0;
      SetAll(51200, true, last, p, ORDER, again).0.writes > last.writes
  {
    hide SetAll, SentAgain, ORDER;
    LateLoadSendsNothingIff(51200, true, c, p, replies, again);
    OrderIs();
    WritesGrow(51200, true, SetAll(51200, true, c, p, ORDER, replies).0, p, ORDER, again);
    TwentyIsNineteen(c, p);
  }

  lemma TwentyIsNineteen(c: Copy, p: Settings)
    requires c.cache.Get(A) == 0 && p.Get(A) == 20
    ensures SentAgain(51200, true, c, p, A)
  {
    assert OnUnit(51200, A, 20) == 1 && FromUnit(51200, A, 1) == 19;
  }
}
