/** Counting the slots of a table that satisfy a condition. */
module Slots {

  function Count<T>(slots: seq<T>, p: T -> bool): nat {
    if slots == [] then 0 else (if p(slots[0]) then 1 else 0) + Count(slots[1..], p)
  }

  lemma {:induction false} CountSplit<T>(a: seq<T>, b: seq<T>, p: T -> bool)
    ensures Count(a + b, p) == Count(a, p) + Count(b, p)
  {
    if a == [] {
      assert a + b == b;
    } else {
      assert (a + b)[1..] == a[1..] + b;
      CountSplit(a[1..], b, p);
    }
  }

  /** Rewriting one slot changes the count by that slot alone. */
  lemma CountUpdate<T>(slots: seq<T>, k: nat, s: T, p: T -> bool)
    requires k < |slots|
    ensures Count(slots[k := s], p) == Count(slots, p) - (if p(slots[k]) then 1 else 0) + (if p(s) then 1 else 0)
  {
    var tail := slots[k + 1..];
    assert slots == slots[..k] + ([slots[k]] + tail) && slots[k := s] == slots[..k] + ([s] + tail);
    CountSplit(slots[..k], [slots[k]] + tail, p);
    CountSplit(slots[..k], [s] + tail, p);
    assert ([slots[k]] + tail)[1..] == tail && ([s] + tail)[1..] == tail;
  }

  /** All slots are counted if and only if the count is the length, and none if and only if it is zero. */
  lemma {:induction false} CountBounds<T>(slots: seq<T>, p: T -> bool)
    ensures Count(slots, p) <= |slots|
    ensures Count(slots, p) == |slots| <==> forall i :: 0 <= i < |slots| ==> p(slots[i])
    ensures Count(slots, p) == 0 <==> forall i :: 0 <= i < |slots| ==> !p(slots[i])
  {
    if slots != [] {
      CountBounds(slots[1..], p);
      assert forall i :: 0 < i < |slots| ==> slots[i] == slots[1..][i - 1];
      assert forall i :: 0 <= i < |slots[1..]| ==> slots[1..][i] == slots[i + 1];
    }
  }

  /** With fewer counted slots than places, the first slot not counted is one of the places. */
  lemma FirstFree<T>(slots: seq<T>, places: nat, k: nat, p: T -> bool)
    requires k <= places < |slots| && Count(slots, p) < places
    requires forall i :: 0 <= i < k ==> p(slots[i])
    ensures k < places
  {
    CountBounds(slots[..k], p);
    assert slots == slots[..k] + slots[k..];
    CountSplit(slots[..k], slots[k..], p);
  }
}
