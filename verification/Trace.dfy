/** The trace subscribers of lib/trace.c: 64 slots and a sentinel, scanned to a high-water mark. */
module Trace {
  import opened TraceMask
  import opened Slots

  const EINVAL := 22

  /** A slot that was never used has id 0. */
  datatype Slot = Slot(id: int, active: bool, callback: bool, level: int, channels: nat, pid: int)

  const UNUSED := Slot(0, false, false, 0, 0, 0)

  predicate Admits(s: Slot, level: int, channel: nat)
    requires channel >= 1
  {
    s.active && s.level >= level && HasBit(s.channels, channel - 1)
  }

  function Bits(slots: seq<Slot>, level: int, channel: nat): (bits: seq<bool>)
    requires channel >= 1
    ensures |bits| == |slots| && forall i :: 0 <= i < |slots| ==> bits[i] == Admits(slots[i], level, channel)
  {
    if slots == [] then [] else [Admits(slots[0], level, channel)] + Bits(slots[1..], level, channel)
  }

  predicate IsActive(s: Slot) {
    s.active
  }

  // The slots that have been used come first, with distinct ids that the counter has issued.
  predicate Table(slots: seq<Slot>, used: nat, serial: int) {
    && |slots| == WIDTH + 1 && used <= WIDTH
    && (forall i :: 0 <= i < used ==> 1 <= slots[i].id <= serial)
    && (forall i :: used <= i <= WIDTH ==> slots[i].id == 0 && !slots[i].active)
    && (forall i, j :: 0 <= i < j < used ==> slots[i].id != slots[j].id)
  }

  predicate Below(places: seq<nat>, n: nat) {
    forall i :: 0 <= i < |places| ==> places[i] < n
  }

  /** A visited slot whose client has gone becomes inactive. */
  function Swept(slots: seq<Slot>, places: seq<nat>, gone: set<int>): (s: seq<Slot>)
    requires Below(places, |slots|)
    ensures |s| == |slots|
    decreases |places|
  {
    if places == [] then slots
    else
      var k := places[0];
      assert forall i :: 0 <= i < |places[1..]| ==> places[1..][i] == places[i + 1];
      Swept(if Leaves(slots[k], gone) then slots[k := slots[k].(active := false)] else slots, places[1..], gone)
  }

  predicate Leaves(s: Slot, gone: set<int>) {
    !s.callback && s.pid != 0 && s.pid in gone
  }

  // The first inactive slot is the first of the unused, or one before.
  lemma SlotTaken(slots: seq<Slot>, used: nat, serial: int, k: nat, s: Slot)
    requires Table(slots, used, serial) && serial >= 0 && k <= used && s.id == serial + 1 && s.active
    ensures k < WIDTH ==> Table(slots[k := s], if k == used then used + 1 else used, serial + 1)
    ensures k == WIDTH ==> !Table(slots[k := s], used, serial + 1)
  {
    assert slots[k := s][k].active;
  }

  class Subscribers {
    const slots: array<Slot>
    var count: int
    var serial: int
    ghost var used: nat
    ghost var lost: int                 // clients gone without unsubscribing, less ids unsubscribed again

    /** The count is the number of active slots and of lost clients, and the last slot is not in use: it is
        the sentinel of every scan. */
    ghost predicate Valid()
      reads this, slots
    {
      && slots.Length == WIDTH + 1 && serial >= 0 && used <= WIDTH
      && Table(slots[..], used, serial)
      && count == Count(slots[..], IsActive) + lost && count <= WIDTH
      && (count != 0 ==> used > 0)
    }

    /** Places there are, whatever the count says. */
    ghost predicate Full()
      reads slots
    {
      slots.Length == WIDTH + 1 && forall i :: 0 <= i < WIDTH ==> slots[i].active
    }

    constructor ()
      ensures Valid() && fresh(slots) && count == 0 && used == 0 && serial == 0 && lost == 0
    {
      slots := new Slot[WIDTH + 1](_ => UNUSED);
      count, serial, used, lost := 0, 0, 0, 0;
      new;
      CountBounds(slots[..], IsActive);
    }

    method FirstInactive() returns (k: nat)
      requires Valid()
      ensures k <= used && !slots[k].active && forall i :: 0 <= i < k ==> slots[i].active
      ensures k < WIDTH <==> !Full()
    {
      hide Count;
      k := 0;
      while slots[k].active
        invariant 0 <= k <= used && forall i :: 0 <= i < k ==> slots[i].active
        decreases WIDTH - k
      {
        k := k + 1;
      }
    }

    // An inactive slot is filled in.
    method Take(k: nat, s: Slot)
      requires Valid() && k <= used && !slots[k].active && count < WIDTH && s.active && s.id == serial + 1
      modifies this`count, this`serial, this`used, slots
      ensures slots[..] == old(slots[..])[k := s] && serial == old(serial) + 1 && count == old(count) + 1
      ensures Valid() <==> k < WIDTH
    {
      hide Count, Table;
      ghost var was := slots[..];
      SlotTaken(was, used, serial, k, s);
      CountUpdate(was, k, s, IsActive);
      serial := serial + 1;
      slots[k] := s;
      assert slots[..] == was[k := s];
      count := count + 1;
      if k == used && k < WIDTH {
        used := used + 1;
      }
    }

    /** The first free slot is taken, under a new id; refused when the count says all are taken. The slot is
        one of the 64 places, unless all of these are active although the count is lower: then it is the
        sentinel. As long as no fewer clients were lost than ids unsubscribed again, that does not happen. */
    method Subscribe(level: int, channels: nat, callback: bool, pid: int) returns (id: int)
      requires Valid()
      modifies this`count, this`serial, this`used, slots
      ensures lost == old(lost) && (Valid() <==> old(count) == WIDTH || !old(Full()))
      ensures old(lost) >= 0 ==> Valid()
      ensures old(count) == WIDTH ==> id < 0 && slots[..] == old(slots[..]) && serial == old(serial) && count == WIDTH
      ensures old(count) < WIDTH ==>
                && id == old(serial) + 1 == serial && count == old(count) + 1
                && exists k :: 0 <= k <= WIDTH && !old(slots[k].active)
                     && (forall i :: 0 <= i < k ==> old(slots[i].active))
                     && slots[..] == old(slots[..])[k := Slot(id, true, callback, level, channels, pid)]
    {
      if count == WIDTH {
        return -1;
      }
      var k := FirstInactive();
      if lost >= 0 {
        FirstFree(slots[..], WIDTH, k, IsActive);
      }
      Take(k, Slot(serial + 1, true, callback, level, channels, pid));
      return serial;
    }

    /** The slot of that id becomes inactive and is counted off, even if it was inactive before. */
    method Unsubscribe(id: int) returns (status: int)
      requires Valid()
      modifies this`count, this`lost, slots
      ensures Valid() && used == old(used) && serial == old(serial)
      ensures (exists k :: 0 <= k < used && old(slots[k].id) == id) <==> status == 0
      ensures status != 0 ==>
                status == EINVAL && slots[..] == old(slots[..]) && count == old(count) && lost == old(lost)
      ensures status == 0 ==>
                exists k :: 0 <= k < used && old(slots[k].id) == id
                  && count == old(count) - 1 && lost == old(lost) - (if old(slots[k].active) then 0 else 1)
                  && slots[..] == old(slots[..])[k := old(slots[k]).(active := false)]
    {
      var k := 0;
      ghost var was := slots[..];
      while slots[k].id != 0 && slots[k].id != id
        invariant 0 <= k <= used && forall i :: 0 <= i < k ==> slots[i].id != id
        decreases WIDTH - k
      {
        k := k + 1;
      }
      if slots[k].id == 0 {
        return EINVAL;
      }
      count := count - 1;
      if !slots[k].active {
        lost := lost - 1;
      }
      slots[k] := slots[k].(active := false);
      CountUpdate(was, k, slots[k], IsActive);
      assert slots[..] == was[k := slots[k]];
      return 0;
    }

    /** The mask of a message: bit i is set if and only if slot i is active, its level admits the message
        and its channel bit is set. A count of zero makes it empty. The last shift is by the places that were
        never used, which is 0..63. */
    method SubscribersLookup(level: int, channel: nat) returns (mask: nat)
      requires Valid() && 1 <= channel <= WIDTH
      ensures mask == if count == 0 then 0 else Number(Bits(slots[..used], level, channel))
      ensures count != 0 ==>
                forall i: nat :: HasBit(mask, i) <==>
                  i < used && slots[i].active && level <= slots[i].level && HasBit(slots[i].channels, channel - 1)
      ensures count != 0 ==> 0 <= WIDTH - used < WIDTH && slots[used].id == 0 && forall i :: 0 <= i < used ==> slots[i].id != 0
    {
      if count == 0 {
        return 0;
      }
      var n := 0;
      mask := 0;
      while slots[n].id != 0
        invariant 0 <= n <= used
        invariant mask == Aligned(Bits(slots[..n], level, channel))
        decreases WIDTH - n
      {
        var bits := Bits(slots[..n], level, channel);
        PushedIsAligned(bits, Admits(slots[n], level, channel));
        BitsMore(slots[..n], slots[n], level, channel);
        assert slots[..n + 1] == slots[..n] + [slots[n]];
        mask := mask / 2;
        if Admits(slots[n], level, channel) {
          // the top bit is clear after the shift, so setting it adds
          mask := mask + Pow2(WIDTH - 1);
        }
        n := n + 1;
      }
      assert n == used && 0 <= WIDTH - n <= WIDTH - 1;
      var bits := Bits(slots[..n], level, channel);
      ShiftedDown(bits);
      mask := mask / Pow2(WIDTH - n);
      forall i: nat
        ensures HasBit(mask, i) <==>
                i < used && slots[i].active && level <= slots[i].level && HasBit(slots[i].channels, channel - 1)
      {
        NumberHasBit(bits, i);
      }
    }

    // One message to one slot.
    method Deliver(k: nat, gone: set<int>)
      requires Valid() && k < used
      modifies slots, this`lost
      ensures Valid()
      ensures slots[..] == if Leaves(old(slots[k]), gone) then old(slots[..])[k := old(slots[k]).(active := false)]
                           else old(slots[..])
    {
      if !slots[k].callback && slots[k].pid != 0 && slots[k].pid in gone {
        ghost var was := slots[..];
        if slots[k].active {
          lost := lost + 1;
        }
        slots[k] := slots[k].(active := false);
        CountUpdate(was, k, slots[k], IsActive);
        assert slots[..] == was[k := slots[k]];
      }
    }

    /** The message goes to exactly the slots whose bits are set, once each, in the order of the slots;
        clients that have gone are made inactive and counted as lost. */
    method Write(mask: nat, gone: set<int>) returns (written: seq<nat>)
      requires Valid() && Below(Visited(mask, 0), used)
      modifies slots, this`lost
      ensures Valid() && used == old(used) && serial == old(serial) && count == old(count)
      ensures written == Visited(mask, 0) && Below(written, |old(slots[..])|)
      ensures slots[..] == Swept(old(slots[..]), written, gone)
    {
      hide Swept, Visited, Leaves, Count, Table;
      var k := 0;
      var rest := mask;
      written := [];
      ghost var all := Visited(mask, 0);
      while rest != 0
        invariant Valid()
        invariant written + Visited(rest, k) == all
        invariant Below(Visited(rest, k), used)
        invariant Swept(slots[..], Visited(rest, k), gone) == Swept(old(slots[..]), all, gone)
        decreases rest
      {
        VisitedStep(slots[..], rest, k, used, gone);
        ghost var next := Visited(rest / 2, k + 1);
        if rest % 2 == 1 {
          Deliver(k, gone);
          assert written + ([k] + next) == (written + [k]) + next;
          written := written + [k];
        } else {
          assert [] + next == next;
        }
        k := k + 1;
        rest := rest / 2;
      }
      VisitedNothing(slots[..], k, gone);
    }

    /** A message reaches exactly the subscribers that admit it, in slot order, unless the count is zero. */
    method Trace(level: int, channel: nat, gone: set<int>) returns (written: seq<nat>)
      requires Valid() && 1 <= channel <= WIDTH
      modifies slots, this`lost
      ensures Valid() && used == old(used) && serial == old(serial) && count == old(count)
      ensures forall k :: k in written <==>
                0 <= k < used && old(count) != 0
                && old(slots[k].active && level <= slots[k].level && HasBit(slots[k].channels, channel - 1))
      ensures old(lost) >= 0 && old(count) == 0 ==> forall k :: 0 <= k < used ==> !old(Admits(slots[k], level, channel))
      ensures forall i, j :: 0 <= i < j < |written| ==> written[i] < written[j]
      ensures Below(written, |old(slots[..])|)
      ensures slots[..] == Swept(old(slots[..]), written, gone)
    {
      hide Number, Visited, Places, Bits, Count, Swept, HasBit, Admits;
      var mask := SubscribersLookup(level, channel);
      written := [];
      ghost var was := slots[..];
      ghost var bits := Bits(was[..used], level, channel);
      assert slots[..used] == was[..used];
      if count == 0 && lost >= 0 {
        NobodyAdmits(was, level, channel);
      }
      VisitedArePlaces(bits, 0);
      PlacesAreExact(bits, 0);
      PlacesBelow(bits);
      NothingVisited();
      assert forall k :: 0 <= k < used ==> bits[k] == Admits(was[k], level, channel);
      AdmitsIff(was, level, channel);
      if mask != 0 {
        written := Write(mask, gone);
      }
    }
  }

  /** A slot after a message: one that got it becomes inactive if its client is a process that has gone. */
  function AfterMessage(s: Slot, got: bool, gone: set<int>): Slot {
    if got && !s.callback && s.pid != 0 && s.pid in gone then s.(active := false) else s
  }

  /** What sweeping means for each slot. */
  lemma {:induction false} SweptEach(slots: seq<Slot>, places: seq<nat>, gone: set<int>)
    requires Below(places, |slots|)
    ensures forall k :: 0 <= k < |slots| ==> Swept(slots, places, gone)[k] == AfterMessage(slots[k], k in places, gone)
    decreases |places|
  {
    if places != [] {
      var k, more := places[0], places[1..];
      assert forall i :: 0 <= i < |more| ==> more[i] == places[i + 1];
      assert forall j :: j in places <==> j == k || j in more;
      SweptEach(if Leaves(slots[k], gone) then slots[k := slots[k].(active := false)] else slots, more, gone);
    }
  }

  lemma AdmitsIff(slots: seq<Slot>, level: int, channel: nat)
    requires channel >= 1
    ensures forall i :: 0 <= i < |slots| ==>
              (Admits(slots[i], level, channel) <==>
                 slots[i].active && level <= slots[i].level && HasBit(slots[i].channels, channel - 1))
  {
  }

  lemma NobodyAdmits(slots: seq<Slot>, level: int, channel: nat)
    requires Count(slots, IsActive) == 0 && channel >= 1
    ensures forall i :: 0 <= i < |slots| ==> !Admits(slots[i], level, channel)
  {
    CountBounds(slots, IsActive);
  }

  lemma PlacesBelow(bits: seq<bool>)
    ensures Below(Places(bits, 0), |bits|)
  {
    PlacesAreExact(bits, 0);
    forall i | 0 <= i < |Places(bits, 0)|
      ensures Places(bits, 0)[i] < |bits|
    {
      assert Places(bits, 0)[i] in Places(bits, 0);
    }
  }

  lemma NothingVisited()
    ensures Visited(0, 0) == [] && forall slots, gone :: Swept(slots, [], gone) == slots
  {
  }

  // One halving of the mask, and what it sweeps.
  lemma VisitedStep(slots: seq<Slot>, rest: nat, k: nat, used: nat, gone: set<int>)
    requires rest > 0 && used <= |slots| && Below(Visited(rest, k), used)
    ensures
      var next := Visited(rest / 2, k + 1);
      && Visited(rest, k) == (if rest % 2 == 1 then [k] else []) + next && Below(next, used)
      && (rest % 2 == 1 ==> k < used)
      && Swept(slots, Visited(rest, k), gone) ==
         if rest % 2 == 1 && Leaves(slots[k], gone) then Swept(slots[k := slots[k].(active := false)], next, gone)
         else Swept(slots, next, gone)
  {
    var here, next := Visited(rest, k), Visited(rest / 2, k + 1);
    if rest % 2 == 1 {
      assert here == [k] + next && here[0] == k && here[1..] == next;
    } else {
      assert here == next;
    }
    forall i | 0 <= i < |next|
      ensures next[i] < used
    {
      assert next[i] == here[if rest % 2 == 1 then i + 1 else i];
    }
  }

  lemma VisitedNothing(slots: seq<Slot>, k: nat, gone: set<int>)
    ensures Visited(0, k) == [] && Swept(slots, [], gone) == slots
  {
  }

  // A client subscribes until every place is taken.
  method Fill(s: Subscribers)
    requires s.Valid() && s.count == 0 && s.used == 0 && s.serial == 0 && s.lost == 0
    modifies s`count, s`serial, s`used, s.slots
    ensures s.Valid() && s.Full() && s.count == WIDTH && s.lost == 0 && s.slots[0].id == 1
  {
    CountBounds(s.slots[..], IsActive);
    while s.count < WIDTH
      invariant s.Valid() && s.lost == 0
      invariant s.serial == s.count && (s.count > 0 ==> s.slots[0].active && s.slots[0].id == 1)
      decreases WIDTH - s.count
    {
      var _ := s.Subscribe(0, 1, true, 0);
    }
    AllPlaces(s.slots[..]);
  }

  lemma AllPlaces(slots: seq<Slot>)
    requires |slots| == WIDTH + 1 && !slots[WIDTH].active && Count(slots, IsActive) == WIDTH
    ensures forall i :: 0 <= i < WIDTH ==> slots[i].active
  {
    assert slots == slots[..WIDTH] + [slots[WIDTH]];
    CountSplit(slots[..WIDTH], [slots[WIDTH]], IsActive);
    CountBounds(slots[..WIDTH], IsActive);
    forall i | 0 <= i < WIDTH
      ensures slots[i].active
    {
      assert slots[..WIDTH][i] == slots[i];
    }
  }

  // With one place free and a count two short, the second of two subscriptions takes the sentinel.
  method SubscribeTwo(s: Subscribers)
    requires s.Valid() && s.count == WIDTH - 2 && s.lost == -1
    requires !s.slots[0].active && forall i :: 1 <= i < WIDTH ==> s.slots[i].active
    modifies s`count, s`serial, s`used, s.slots
    ensures s.slots.Length == WIDTH + 1 && s.count == WIDTH
    ensures forall i :: 0 <= i <= WIDTH ==> s.slots[i].active && s.slots[i].id != 0
  {
    var _ := s.Subscribe(0, 1, true, 0);
    assert s.Full();
    var _ := s.Subscribe(0, 1, true, 0);
  }

  /** A run that loses the sentinel: 64 subscriptions, the first of them unsubscribed twice, and two more
      subscriptions. All 65 slots are active and have an id then, so that no scan ends inside the table. */
  method UnsubscribedTwice() returns (s: Subscribers)
    ensures fresh(s) && fresh(s.slots) && s.slots.Length == WIDTH + 1 && s.count == WIDTH
    ensures forall i :: 0 <= i <= WIDTH ==> s.slots[i].active && s.slots[i].id != 0
  {
    s := new Subscribers();
    Fill(s);
    var first := s.Unsubscribe(1);
    var second := s.Unsubscribe(1);
    assert first == second == 0;
    SubscribeTwo(s);
  }

  lemma {:induction false} BitsMore(slots: seq<Slot>, s: Slot, level: int, channel: nat)
    requires channel >= 1
    ensures Bits(slots + [s], level, channel) == Bits(slots, level, channel) + [Admits(s, level, channel)]
  {
  }
}
