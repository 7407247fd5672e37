/** The subscriber mask of lib/trace.c as a number, and the slots it stands for. */
module TraceMask {

  const WIDTH := 64

  function Pow2(n: nat): (p: nat)
    ensures p > 0
  {
    if n == 0 then 1 else 2 * Pow2(n - 1)
  }

  function Bit(b: bool): nat {
    if b then 1 else 0
  }

  /** The number whose binary digits, lowest first, are the given ones. */
  function Number(bits: seq<bool>): nat {
    if bits == [] then 0 else Bit(bits[0]) + 2 * Number(bits[1..])
  }

  predicate HasBit(mask: nat, i: nat) {
    (mask / Pow2(i)) % 2 == 1
  }

  lemma {:induction false} NumberBounded(bits: seq<bool>)
    ensures Number(bits) < Pow2(|bits|)
  {
    if bits != [] {
      NumberBounded(bits[1..]);
    }
  }

  lemma {:induction false} NumberAppend(bits: seq<bool>, b: bool)
    ensures Number(bits + [b]) == Number(bits) + Bit(b) * Pow2(|bits|)
  {
    if bits == [] {
      assert bits + [b] == [b] && [b][1..] == [];
    } else {
      assert (bits + [b])[1..] == bits[1..] + [b];
      NumberAppend(bits[1..], b);
      assert 2 * (Bit(b) * Pow2(|bits| - 1)) == Bit(b) * Pow2(|bits|);
    }
  }

  lemma {:induction false} Pow2Adds(m: nat, n: nat)
    ensures Pow2(m + n) == Pow2(m) * Pow2(n)
  {
    if m > 0 {
      Pow2Adds(m - 1, n);
      Doubled(Pow2(m - 1), Pow2(n));
      assert Pow2(m) == 2 * Pow2(m - 1) && Pow2(m + n) == 2 * Pow2(m - 1 + n);
    }
  }

  lemma Doubled(x: nat, y: nat)
    ensures 2 * (x * y) == (2 * x) * y
  {
  }

  /** Bit i of the number is digit i. */
  lemma {:induction false} NumberHasBit(bits: seq<bool>, i: nat)
    ensures HasBit(Number(bits), i) <==> i < |bits| && bits[i]
    decreases i
  {
    if bits == [] {
      NothingOver(Pow2(i));
    } else if i > 0 {
      NumberHasBit(bits[1..], i - 1);
      HalfThenRest(Number(bits), Pow2(i - 1));
    }
  }

  lemma NothingOver(p: nat)
    requires p > 0
    ensures 0 / p == 0
  {
  }

  lemma HalfThenRest(n: nat, p: nat)
    requires p > 0
    ensures n / (2 * p) == (n / 2) / p
  {
    var q, r := (n / 2) / p, (n / 2) % p;
    assert n / 2 == p * q + r && n == 2 * (n / 2) + n % 2;
    assert n == (2 * p) * q + (2 * r + n % 2);
    Quotient(n, 2 * p, q, 2 * r + n % 2);
  }

  lemma Quotient(n: int, d: int, q: int, r: int)
    requires d > 0 && n == d * q + r && 0 <= r < d
    ensures n / d == q
  {
    var k, m := n / d, n % d;
    assert n == d * k + m;
    Times(d, k, q);
    Between(d, k - q);
  }

  lemma Times(d: int, k: int, q: int)
    ensures d * (k - q) == d * k - d * q
  {
  }

  lemma Between(d: int, x: int)
    requires d > 0 && -d < d * x < d
    ensures x == 0
  {
    Times(d, x, 1);
    Times(d, x, -1);
    assert x >= 1 ==> d * (x - 1) >= 0;
    assert x <= -1 ==> d * (x + 1) <= 0;
  }

  // ---------- Building from the top ----------

  /** One slot more: everything moves down a place and the new digit goes in at the top. */
  function Pushed(mask: nat, b: bool): nat {
    mask / 2 + Bit(b) * Pow2(WIDTH - 1)
  }

  /** The mask after some slots, as the code builds it. */
  function Aligned(bits: seq<bool>): nat
    requires |bits| <= WIDTH
  {
    Number(bits) * Pow2(WIDTH - |bits|)
  }

  lemma PushedIsAligned(bits: seq<bool>, b: bool)
    requires |bits| < WIDTH
    ensures Pushed(Aligned(bits), b) == Aligned(bits + [b])
    ensures Aligned(bits) / 2 < Pow2(WIDTH - 1)
  {
    var k := |bits|;
    var low := Pow2(WIDTH - k - 1);
    assert Pow2(WIDTH - k) == 2 * low;
    Pow2Adds(k, WIDTH - k - 1);
    NumberAppend(bits, b);
    NumberBounded(bits);
    assert WIDTH - |bits + [b]| == WIDTH - k - 1 && k + (WIDTH - k - 1) == WIDTH - 1;
    hide Pow2, Number;
    Halved(Number(bits), low);
    Smaller(Number(bits), Pow2(k), low);
    Distribute(Number(bits), Bit(b), Pow2(k), low);
  }

  lemma Halved(n: nat, low: nat)
    ensures n * (2 * low) / 2 == n * low
  {
    assert n * (2 * low) == 2 * (n * low);
  }

  lemma Distribute(n: nat, b: nat, p: nat, low: nat)
    ensures (n + b * p) * low == n * low + b * (p * low)
  {
  }

  lemma Smaller(x: nat, y: nat, k: nat)
    requires x < y && k > 0
    ensures x * k < y * k
  {
    Times(k, y, x);
    Product(y - x, k);
  }

  lemma Product(x: int, y: int)
    requires x > 0 && y > 0
    ensures y * x > 0
  {
  }

  /** Shifted down past the unused places, the mask is the number of the digits. */
  lemma ShiftedDown(bits: seq<bool>)
    requires |bits| <= WIDTH
    ensures Aligned(bits) / Pow2(WIDTH - |bits|) == Number(bits)
  {
    hide Pow2, Number;
    var p := Pow2(WIDTH - |bits|);
    assert Number(bits) * p == p * Number(bits) + 0;
    Quotient(Aligned(bits), p, Number(bits), 0);
  }

  // ---------- Reading from the bottom ----------

  /** The places of the set digits, counted from a first one, in order. */
  function Places(bits: seq<bool>, first: nat): (s: seq<nat>) {
    if bits == [] then [] else (if bits[0] then [first] else []) + Places(bits[1..], first + 1)
  }

  /** The places a loop visits that halves the mask until it is zero. */
  function Visited(mask: nat, first: nat): seq<nat> {
    if mask == 0 then [] else (if mask % 2 == 1 then [first] else []) + Visited(mask / 2, first + 1)
  }

  lemma {:induction false} VisitedArePlaces(bits: seq<bool>, first: nat)
    ensures Visited(Number(bits), first) == Places(bits, first)
    decreases bits
  {
    if bits != [] {
      VisitedArePlaces(bits[1..], first + 1);
      if Number(bits) == 0 {
        assert Number(bits[1..]) == 0;
      } else {
        assert Number(bits) / 2 == Number(bits[1..]) && Number(bits) % 2 == Bit(bits[0]);
      }
    }
  }

  /** The places are exactly the set digits, each once, in increasing order. */
  lemma {:induction false} PlacesAreExact(bits: seq<bool>, first: nat)
    ensures forall k :: k in Places(bits, first) <==> first <= k < first + |bits| && bits[k - first]
    ensures forall i, j :: 0 <= i < j < |Places(bits, first)| ==> Places(bits, first)[i] < Places(bits, first)[j]
    decreases bits
  {
    if bits != [] {
      PlacesAreExact(bits[1..], first + 1);
      var more := Places(bits[1..], first + 1);
      assert forall j :: 0 <= j < |more| ==> more[j] in more;
      forall k
        ensures k in Places(bits, first) <==> first <= k < first + |bits| && bits[k - first]
      {
        if first < k < first + |bits| {
          assert bits[k - first] == bits[1..][k - (first + 1)];
        }
      }
    }
  }
}
