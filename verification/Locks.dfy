/** The locks of a driver in lib/locks.c: a set of motor ids kept in a zero-terminated array. */
module Locks {
  import opened Wrappers

  const SLOTS := 32
  const ENOENT := 2

  /** The ids before the first zero. */
  function Held(locks: seq<int>): seq<int> {
    if locks == [] || locks[0] == 0 then [] else [locks[0]] + Held(locks[1..])
  }

  lemma {:induction false} HeldAt(locks: seq<int>, n: nat)
    requires n <= |locks| && (forall i :: 0 <= i < n ==> locks[i] != 0) && (n < |locks| ==> locks[n] == 0)
    ensures Held(locks) == locks[..n]
  {
    if n > 0 {
      HeldAt(locks[1..], n - 1);
      assert locks[..n] == [locks[0]] + locks[1..][..n - 1];
    }
  }

  class Driver {
    const locks: array<int>
    ghost var n: nat

    /** Distinct ids, then zeros to the end; at least one zero. */
    ghost predicate Valid()
      reads this, locks
    {
      && locks.Length == SLOTS && n < SLOTS
      && (forall i :: 0 <= i < n ==> locks[i] != 0)
      && (forall i :: n <= i < SLOTS ==> locks[i] == 0)
      && Distinct(locks[..n]) && Held(locks[..]) == locks[..n]
    }

    constructor ()
      ensures Valid() && Held(locks[..]) == [] && fresh(locks)
    {
      locks := new int[SLOTS](_ => 0);
      n := 0;
    }

    /** Locking again changes nothing; a new id goes to the end. Nothing looks whether the array is full: the
        id that takes the last place leaves no terminator, which the other operations need. */
    method Lock(id: int) returns (status: int)
      requires Valid()
      modifies this`n, locks
      ensures status == 0
      ensures Valid() <==> id == 0 || id in old(Held(locks[..])) || |old(Held(locks[..]))| + 1 < SLOTS
      ensures !Valid() ==> forall i :: 0 <= i < SLOTS ==> locks[i] != 0
      ensures Held(locks[..]) == old(Held(locks[..])) + (if id == 0 || id in old(Held(locks[..])) then [] else [id])
    {
      var k := 0;
      while locks[k] != 0
        invariant 0 <= k <= n && id !in locks[..k]
        decreases SLOTS - k
      {
        if locks[k] == id {
          assert locks[..n][k] == id;
          return 0;
        }
        k := k + 1;
      }
      ghost var was := locks[..n];
      locks[k] := id;
      if id != 0 {
        n := n + 1;
        assert locks[..n] == was + [id];
        HeldAt(locks[..], n);
      } else {
        assert locks[..n] == was;
        HeldAt(locks[..], n);
      }
      return 0;
    }

    /** Unlocking removes exactly that id; the last one moves into its place. */
    method Unlock(id: int) returns (status: int)
      requires Valid()
      modifies this`n, locks
      ensures Valid()
      ensures status == if id in old(Held(locks[..])) then 0 else ENOENT
      ensures id !in old(Held(locks[..])) ==> Held(locks[..]) == old(Held(locks[..]))
      ensures forall x :: x in Held(locks[..]) <==> x != id && x in old(Held(locks[..]))
      ensures |Held(locks[..])| == |old(Held(locks[..]))| - (if status == 0 then 1 else 0)
    {
      var k, found := 0, -1;
      ghost var was := locks[..n];
      while locks[k] != 0
        invariant 0 <= k <= n && -1 <= found < k
        invariant found == -1 ==> id !in locks[..k]
        invariant found >= 0 ==> locks[found] == id
        decreases SLOTS - k
      {
        if locks[k] == id {
          found := k;
        }
        k := k + 1;
      }
      if found >= 0 {
        k := k - 1;
        assert was[found] == id;
        locks[found] := locks[k];
        locks[k] := 0;
        n := n - 1;
        assert locks[..n] == was[found := was[k]][..k];
        HeldAt(locks[..], n);
        Removed(was, found);
        return 0;
      }
      return ENOENT;
    }

    method IsLocked() returns (locked: bool)
      requires Valid()
      ensures locked <==> Held(locks[..]) != []
    {
      locked := locks[0] != 0;
    }
  }

  /** Overwriting one of several distinct ids by the last and dropping the last removes exactly it. */
  lemma Removed(ids: seq<int>, k: nat)
    requires Distinct(ids) && k < |ids|
    ensures
      var rest := ids[k := ids[|ids| - 1]][..|ids| - 1];
      Distinct(rest) && forall x :: x in rest <==> x != ids[k] && x in ids
  {
    var last := |ids| - 1;
    var rest := ids[k := ids[last]][..last];
    forall x
      ensures x in rest <==> x != ids[k] && x in ids
    {
      if x in ids && x != ids[k] {
        var i :| 0 <= i < |ids| && ids[i] == x;
        assert rest[if i == last then k else i] == x;
      }
    }
  }
}
