/**
 The parser of drivers/mdrive/serial.c in several calls: feeding it a stream in
 pieces leaves the same response as feeding it at once, as long as no call closes
 the response. ReplyReader has the thread that makes these calls and closes them.
 */
module ReplyChunks {
  import opened ReplyParser

  ghost predicate AgreeBelow(memA: seq<Byte>, memB: seq<Byte>, limit: int) {
    forall i {:trigger Peek(memA, i)} :: i < limit ==> Peek(memA, i) == Peek(memB, i)
  }

  lemma {:induction false} SumsAgree(memA: seq<Byte>, memB: seq<Byte>, lo: int, hi: int)
    requires AgreeBelow(memA, memB, hi)
    ensures SumFrom(memA, lo, hi) == SumFrom(memB, lo, hi)
    decreases hi - lo
  {
    if lo < hi {
      SumsAgree(memA, memB, lo, hi - 1);
    }
  }

  /** A step that neither ends the reply nor skips ahead reads nothing after its byte. */
  lemma StepsAgree(memA: seq<Byte>, memB: seq<Byte>, base: int, pos: int, r: Reply)
    requires r.Open() && AgreeBelow(memA, memB, pos + 1)
    requires var (next, r') := Step(memA, base, pos, r); Processed !in r'.flags && next == pos + 1
    ensures Step(memA, base, pos, r) == Step(memB, base, pos, r)
  {
    assert Peek(memA, pos) == Peek(memB, pos) && Peek(memA, pos - 1) == Peek(memB, pos - 1);
    SumsAgree(memA, memB, ChecksumStart(base, r), pos);
  }

  lemma {:induction false} LoopAdvances(mem: seq<Byte>, base: int, pos: int, n: nat, r: Reply)
    requires r.Valid()
    ensures var (end, r') := Loop(mem, base, pos, n, r);
            r'.received == r.received && (Processed !in r'.flags ==> end >= pos + n)
    decreases n
  {
    hide Step;
    if n > 0 && Processed !in r.flags {
      var (next, r') := Step(mem, base, pos, r);
      assert r'.received == r.received by { StepKeepsReceived(mem, base, pos, r); }
      LoopAdvances(mem, base, next, n - 1, r');
    }
  }

  lemma StepKeepsReceived(mem: seq<Byte>, base: int, pos: int, r: Reply)
    requires r.Open()
    ensures Step(mem, base, pos, r).1.received == r.received
    ensures Event in r.flags ==> Event in Step(mem, base, pos, r).1.flags
    ensures Error in r.flags ==> Error in Step(mem, base, pos, r).1.flags
    ensures Event !in Step(mem, base, pos, r).1.flags && Processed !in Step(mem, base, pos, r).1.flags ==>
              Step(mem, base, pos, r).0 == pos + 1
  {
  }

  lemma {:induction false} LoopsAgree(memA: seq<Byte>, memB: seq<Byte>, base: int, pos: int, n: nat, r: Reply)
    requires r.Valid() && AgreeBelow(memA, memB, pos + n)
    requires var (end, r') := Loop(memA, base, pos, n, r); Processed !in r'.flags && end == pos + n
    ensures Loop(memA, base, pos, n, r) == Loop(memB, base, pos, n, r)
    decreases n
  {
    hide Step;
    if n > 0 && Processed !in r.flags {
      var (next, r') := Step(memA, base, pos, r);
      LoopAdvances(memA, base, next, n - 1, r');
      if Processed in r'.flags {
        assert false;
      }
      StepsAgree(memA, memB, base, pos, r);
      LoopsAgree(memA, memB, base, next, n - 1, r');
    }
  }

  lemma {:induction false} LoopSplits(mem: seq<Byte>, base: int, pos: int, m: nat, n: nat, r: Reply)
    requires r.Valid()
    ensures var (mid, r') := Loop(mem, base, pos, m, r);
            Loop(mem, base, pos, m + n, r) == Loop(mem, base, mid, n, r')
    decreases m
  {
    hide Step;
    if m > 0 && Processed !in r.flags {
      var (next, r') := Step(mem, base, pos, r);
      LoopSplits(mem, base, next, m - 1, n, r');
    }
  }

  function Shifted(k: nat, r: Reply): Reply
    requires r.received + k < 128
  {
    r.(received := r.received + k)
  }

  // Only the start of the stream, base minus what was received before, enters a step.
  lemma StepShifts(mem: seq<Byte>, base: int, k: nat, pos: int, r: Reply)
    requires r.Open() && r.received + k < 128
    ensures var (next, r') := Step(mem, base, pos, r);
            r'.received == r.received && Step(mem, base + k, pos, Shifted(k, r)) == (next, Shifted(k, r'))
  {
    DataShifts(mem, base, k, pos, r);
    hide DataByte, ChecksumMatches;
  }

  lemma DataShifts(mem: seq<Byte>, base: int, k: nat, pos: int, r: Reply)
    requires r.Open() && r.received + k < 128
    ensures DataByte(mem, base + k, pos, Shifted(k, r)) == Shifted(k, DataByte(mem, base, pos, r))
  {
    hide ChecksumMatches;
  }

  lemma {:induction false} LoopShifts(mem: seq<Byte>, base: int, k: nat, pos: int, n: nat, r: Reply)
    requires r.Valid() && r.received + k < 128
    ensures var (end, r') := Loop(mem, base, pos, n, r);
            r'.received == r.received && Loop(mem, base + k, pos, n, Shifted(k, r)) == (end, Shifted(k, r'))
    decreases n
  {
    hide Step;
    if n > 0 && Processed !in r.flags {
      var (next, r') := Step(mem, base, pos, r);
      StepShifts(mem, base, k, pos, r);
      LoopShifts(mem, base, k, next, n - 1, r');
    }
  }

  /** Feeding m bytes, then n more, is feeding m + n bytes: the same response (buffer, flags,
      counters, ACK location) and the same bytes consumed. The first call must leave the
      response open, have consumed exactly its own bytes, and not overflow the byte counter;
      what follows the first piece in memory while it is parsed does not matter. */
  lemma ChunkIndependence(memA: seq<Byte>, mem: seq<Byte>, base: int, m: nat, n: nat, r: Reply)
    requires r.Open() && AgreeBelow(memA, mem, base + m)
    requires r.received + m < 128
    requires var (consumed, r1) := Process(memA, base, m, r); Processed !in r1.flags && consumed == m
    ensures var (_, r1) := Process(memA, base, m, r);
            var (consumed, r2) := Process(mem, base + m, n, r1);
            Process(mem, base, m + n, r) == (m + consumed, r2)
  {
    hide Step, Loop;
    if m > 0 {
      LoopsAgree(memA, mem, base, base, m, r);
      LoopAdvances(mem, base, base, m, r);
      LoopSplits(mem, base, base, m, n, r);
      var (mid, open) := Loop(mem, base, base, m, r);
      if n > 0 {
        LoopShifts(mem, base, m, mid, n, open);
        LoopAdvances(mem, base, mid, n, open);
      } else {
        assert Loop(mem, base, base, m + n, r) == (mid, open);
      }
    }
  }

  /** Outside event reports a call that leaves the response open consumes exactly its bytes. */
  lemma {:induction false} OpenReplyConsumesAll(mem: seq<Byte>, base: int, pos: int, n: nat, r: Reply)
    requires r.Valid()
    requires var (_, r') := Loop(mem, base, pos, n, r); Processed !in r'.flags && Event !in r'.flags
    ensures Loop(mem, base, pos, n, r).0 == pos + n
    decreases n
  {
    hide Step;
    if n > 0 {
      var (next, r') := Step(mem, base, pos, r);
      LoopKeepsMarks(mem, base, next, n - 1, r');
      if Processed in r'.flags {
        assert false;
      }
      StepKeepsReceived(mem, base, pos, r);
      OpenReplyConsumesAll(mem, base, next, n - 1, r');
    }
  }

  lemma {:induction false} LoopKeepsMarks(mem: seq<Byte>, base: int, pos: int, n: nat, r: Reply)
    requires r.Valid()
    ensures Event in r.flags ==> Event in Loop(mem, base, pos, n, r).1.flags
    ensures Error in r.flags ==> Error in Loop(mem, base, pos, n, r).1.flags
    ensures Processed in r.flags ==> Processed in Loop(mem, base, pos, n, r).1.flags
    decreases n
  {
    hide Step;
    if n > 0 && Processed !in r.flags {
      var (next, r') := Step(mem, base, pos, r);
      StepKeepsReceived(mem, base, pos, r);
      LoopKeepsMarks(mem, base, next, n - 1, r');
    }
  }

  /** Any number of pieces: piece i is parsed with memory mems[i], in which only the bytes
      received so far need to be what they finally are. */
  function Feed(mems: seq<seq<Byte>>, sizes: seq<nat>, base: int, r: Reply): Reply
    requires |mems| == |sizes| && r.Valid()
    decreases |sizes|
  {
    if sizes == [] then r
    else Feed(mems[1..], sizes[1..], base + sizes[0], Process(mems[0], base, sizes[0], r).1)
  }

  function Total(sizes: seq<nat>): nat {
    if sizes == [] then 0 else sizes[0] + Total(sizes[1..])
  }

  /** Every piece but the last leaves the response open and outside an event report. */
  ghost predicate StaysOpen(mems: seq<seq<Byte>>, sizes: seq<nat>, base: int, r: Reply)
    requires |mems| == |sizes| && r.Valid()
    decreases |sizes|
  {
    |sizes| <= 1 ||
    (var r' := Process(mems[0], base, sizes[0], r).1;
     Processed !in r'.flags && Event !in r'.flags && StaysOpen(mems[1..], sizes[1..], base + sizes[0], r'))
  }

  ghost predicate GrowingMemory(mems: seq<seq<Byte>>, sizes: seq<nat>, base: int)
    requires |mems| == |sizes|
    decreases |sizes|
  {
    |sizes| <= 1 ||
    (AgreeBelow(mems[0], mems[|mems| - 1], base + sizes[0]) && GrowingMemory(mems[1..], sizes[1..], base + sizes[0]))
  }

  /** A response of fewer than 128 bytes that no call but the last closes ends as if it were fed at
      once, however many calls feed it. */
  lemma {:induction false} PiecesOfOneResponse(mems: seq<seq<Byte>>, sizes: seq<nat>, base: int, r: Reply)
    requires |mems| == |sizes| > 0 && r.Open()
    requires r.received + Total(sizes) < 128
    requires StaysOpen(mems, sizes, base, r) && GrowingMemory(mems, sizes, base)
    ensures Feed(mems, sizes, base, r) == Process(mems[|mems| - 1], base, Total(sizes), r).1
    decreases |sizes|
  {
    hide Loop, Step;
    var mem := mems[|mems| - 1];
    if |sizes| == 1 {
      assert sizes[1..] == [];
    } else {
      var (consumed, r') := Process(mems[0], base, sizes[0], r);
      if sizes[0] > 0 {
        OpenReplyConsumesAll(mems[0], base, base, sizes[0], r);
        LoopAdvances(mems[0], base, base, sizes[0], r);
      }
      PiecesOfOneResponse(mems[1..], sizes[1..], base + sizes[0], r');
      ChunkIndependence(mems[0], mem, base, sizes[0], Total(sizes[1..]), r);
    }
  }
}
