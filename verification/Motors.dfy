/** The server's table of motor connections in lib/motor.c: 64 slots and a sentinel. */
module Motors {
  import opened Wrappers
  import opened Slots

  const SIZE := 64

  datatype Motor = Motor(id: int, pid: int, active: bool)

  const UNUSED := Motor(0, 0, false)

  datatype Status = Done | TooMany | Invalid | Refused(code: int)

  predicate IsActive(m: Motor) {
    m.active
  }

  /** The used slots come first, with distinct ids below the counter; the last slot is never one. */
  predicate Table(slots: seq<Motor>, used: nat, uid: int) {
    && |slots| == SIZE + 1 && used <= SIZE
    && (forall i :: 0 <= i < used ==> 1 <= slots[i].id < uid)
    && (forall i :: used <= i <= SIZE ==> slots[i].id == 0 && !slots[i].active)
    && (forall i, j :: 0 <= i < j < used ==> slots[i].id != slots[j].id)
  }

  /** The motors of clients that no longer run become inactive. */
  function Collected(slots: seq<Motor>, dead: set<int>): (r: seq<Motor>)
    ensures |r| == |slots|
    ensures forall i :: 0 <= i < |slots| ==> r[i] == CollectedOne(slots[i], dead)
    ensures forall i :: 0 <= i < |slots| ==> r[i] == slots[i].(active := slots[i].active && slots[i].pid !in dead)
  {
    if slots == [] then [] else [CollectedOne(slots[0], dead)] + Collected(slots[1..], dead)
  }

  function CollectedOne(m: Motor, dead: set<int>): Motor {
    if m.active && m.pid in dead then m.(active := false) else m
  }

  predicate IsMotor(m: Motor, id: int, pid: int) {
    m.id == id && m.pid == pid && m.active
  }

  class Connections {
    const slots: array<Motor>
    var count: int
    var uid: int
    ghost var used: nat

    ghost predicate Valid()
      reads this, slots
    {
      && slots.Length == SIZE + 1 && uid >= 1
      && Table(slots[..], used, uid)
      && count == Count(slots[..], IsActive)
    }

    constructor ()
      ensures Valid() && fresh(slots) && count == 0 && used == 0 && uid == 1
    {
      slots := new Motor[SIZE + 1](_ => UNUSED);
      count, uid, used := 0, 1, 0;
      new;
      CountBounds(slots[..], IsActive);
    }

    method GarbageCollect(dead: set<int>)
      requires Valid()
      modifies this`count, slots
      ensures Valid() && slots[..] == Collected(old(slots[..]), dead)
    {
      hide Count, Collected;
      ghost var was := slots[..];
      var k := 0;
      while slots[k].id != 0
        invariant 0 <= k <= used && Valid()
        invariant forall i :: 0 <= i < k ==> slots[i] == CollectedOne(was[i], dead)
        invariant forall i :: k <= i < |was| ==> slots[i] == was[i]
        decreases SIZE - k
      {
        if slots[k].active && slots[k].pid in dead {
          ghost var now := slots[..];
          slots[k] := slots[k].(active := false);
          count := count - 1;
          CountUpdate(now, k, slots[k], IsActive);
          assert slots[..] == now[k := slots[k]];
        }
        k := k + 1;
      }
    }

    /** A connection takes the first free slot under a new id. Even one that then fails keeps the id and
        the slot's place in the table, inactive. */
    method Connect(pid: int, dead: set<int>, code: int, found: bool, recovery: bool) returns (status: Status, id: int)
      requires Valid()
      modifies this`count, this`uid, this`used, slots
      ensures Valid()
      ensures status == TooMany <==> Count(Collected(old(slots[..]), dead), IsActive) == SIZE
      ensures status == TooMany ==> slots[..] == Collected(old(slots[..]), dead) && uid == old(uid)
      ensures status != TooMany ==>
                && uid == old(uid) + 1 && id == old(uid)
                && status == (if code != 0 && !recovery then Refused(code) else if !found then Invalid else Done)
                && exists k :: 0 <= k < SIZE
                     && var was := Collected(old(slots[..]), dead);
                        (forall i :: 0 <= i < k ==> was[i].active) && !was[k].active
                        && slots[..] == was[k := Motor(id, pid, status == Done)]
    {
      hide Count, Collected;
      GarbageCollect(dead);
      ghost var was := slots[..];
      id := 0;
      if count == SIZE {
        return TooMany, id;
      }
      ActiveBelow(was);
      var k := TakeSlot(pid);
      id := slots[k].id;
      if code != 0 && !recovery {
        return Refused(code), id;
      }
      if !found {
        return Invalid, id;
      }
      SetActive(k);
      assert slots[..] == was[k := slots[k]];
      return Done, id;
    }

    // The first inactive slot, rewritten under a new id.
    method TakeSlot(pid: int) returns (k: nat)
      requires Valid() && count < SIZE
      modifies this`uid, this`used, slots
      ensures Valid() && k < used && uid == old(uid) + 1
      ensures (forall i :: 0 <= i < k ==> old(slots[i].active)) && !old(slots[k].active)
      ensures slots[..] == old(slots[..])[k := Motor(old(uid), pid, false)]
    {
      hide Count;
      ghost var was := slots[..];
      k := 0;
      while slots[k].active
        invariant 0 <= k <= used && forall i :: 0 <= i < k ==> slots[i].active
        decreases SIZE - k
      {
        k := k + 1;
      }
      FirstFree(was, SIZE, k, IsActive);
      slots[k] := Motor(uid, pid, false);
      uid := uid + 1;
      CountUpdate(was, k, slots[k], IsActive);
      assert slots[..] == was[k := slots[k]];
      if k == used {
        used := used + 1;
      }
    }

    method SetActive(k: nat)
      requires Valid() && k < used && !slots[k].active
      modifies this`count, slots
      ensures Valid() && slots[..] == old(slots[..])[k := old(slots[k]).(active := true)]
    {
      hide Count;
      ghost var was := slots[..];
      slots[k] := slots[k].(active := true);
      CountUpdate(was, k, slots[k], IsActive);
      assert slots[..] == was[k := slots[k]];
      count := count + 1;
    }

    /** The lookup succeeds if and only if an active slot has that id and that client. */
    method FindMotor(id: int, pid: int) returns (slot: Option<nat>)
      requires Valid()
      ensures slot.Some? ==> slot.value < used && IsMotor(slots[slot.value], id, pid)
      ensures slot.None? ==> forall i :: 0 <= i < slots.Length ==> !IsMotor(slots[i], id, pid)
    {
      var k := 0;
      while slots[k].id != 0
        invariant 0 <= k <= used && forall i :: 0 <= i < k ==> !IsMotor(slots[i], id, pid)
        decreases SIZE - k
      {
        if slots[k].id == id && pid == slots[k].pid && slots[k].active {
          return Some(k);
        }
        k := k + 1;
      }
      return None;
    }

    /** Disconnecting makes the one motor found inactive; a second time, and for another client's motor,
        nothing is found. */
    method Disconnect(id: int, pid: int) returns (status: Status)
      requires Valid()
      modifies this`count, slots
      ensures Valid() && used == old(used) && uid == old(uid)
      ensures status == if exists i :: 0 <= i < slots.Length && old(IsMotor(slots[i], id, pid)) then Done else Invalid
      ensures status == Invalid ==> slots[..] == old(slots[..]) && count == old(count)
      ensures status == Done ==>
                && count == old(count) - 1
                && exists k :: 0 <= k < used && old(IsMotor(slots[k], id, pid))
                     && slots[..] == old(slots[..])[k := Motor(id, pid, false)]
      ensures forall i :: 0 <= i < slots.Length ==> !IsMotor(slots[i], id, pid)
    {
      ghost var was := slots[..];
      var slot := FindMotor(id, pid);
      if slot.None? {
        return Invalid;
      }
      var k := slot.value;
      assert was[k] == slots[k] && IsMotor(was[k], id, pid);
      slots[k] := slots[k].(active := false);
      count := count - 1;
      CountUpdate(was, k, slots[k], IsActive);
      assert slots[..] == was[k := slots[k]];
      return Done;
    }
  }

  lemma ActiveBelow(slots: seq<Motor>)
    requires |slots| == SIZE + 1 && !slots[SIZE].active && Count(slots, IsActive) != SIZE
    ensures Count(slots, IsActive) < SIZE
  {
    CountBounds(slots[..SIZE], IsActive);
    CountBounds(slots[SIZE..], IsActive);
    assert slots == slots[..SIZE] + slots[SIZE..];
    CountSplit(slots[..SIZE], slots[SIZE..], IsActive);
  }
}
