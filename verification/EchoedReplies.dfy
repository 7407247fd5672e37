/**
 Replies behind the echo of the command, which units send while their echo is on: the
 parser of drivers/mdrive/serial.c drops the echo when the ACK behind it comes, but
 neither where the checksum starts nor that one was seen already.
 */
module EchoedReplies {
  import opened ReplyParser
  import opened ReplyRoundTrip
  import opened ReplyRefusals
  import opened ReplyVerdicts
  import opened EventCuts

  /** A command comes back, with its checksum or without, up to a line feed, or the character that some units
      turn a carriage return into; then comes the reply. */
  datatype Echoed = Echoed(command: seq<Byte>, checked: bool, end: Byte, payload: seq<Byte>) {
    function Front(): seq<Byte> {
      command + if checked then [Checksum(SumFrom(command, 0, |command|))] else []
    }

    function Bytes(): seq<Byte> {
      Front() + [end, ACK] + Body(payload)
    }

    ghost predicate Sendable() {
      && Printable(command) && Carriable(command) && |command| < 62 && (end == LF || end == XOFF)
      && Printable(payload) && Carriable(payload) && |payload| < 62
    }
  }

  lemma EchoedBytes(mem: seq<Byte>, base: int, w: Echoed)
    requires Holds(mem, base, w.Bytes())
    ensures Lies(mem, base, w.command)
    ensures w.checked ==> Peek(mem, base + |w.command|) == Checksum(SumFrom(w.command, 0, |w.command|))
    ensures
      var at := base + |w.Front()|;
      && Peek(mem, at) == w.end && Peek(mem, at + 1) == ACK && Lies(mem, at + 2, Body(w.payload))
      && Peek(mem, at + 2 + |Body(w.payload)|) == 0
  {
    var front, body, all := w.Front(), Body(w.payload), w.Bytes();
    forall i {:trigger w.command[i]} | 0 <= i < |w.command|
      ensures Peek(mem, base + i) == w.command[i]
    {
      assert all[i] == w.command[i];
    }
    if w.checked {
      assert all[|w.command|] == front[|w.command|];
      assert Peek(mem, base + |w.command|) == all[|w.command|];
    }
    assert all[|front|] == w.end && all[|front| + 1] == ACK;
    assert Peek(mem, base + |front|) == all[|front|] && Peek(mem, base + (|front| + 1)) == all[|front| + 1];
    forall i {:trigger body[i]} | 0 <= i < |body|
      ensures Peek(mem, base + |front| + 2 + i) == body[i]
    {
      assert all[|front| + 2 + i] == body[i];
    }
    assert |all| == |front| + 2 + |body|;
  }

  // ---------- The echo ----------

  // The response when the echo has been dropped.
  function Dropped(w: Echoed): (r: Reply)
    requires |w.command| < 62
    ensures r.Open()
  {
    var r := Texted(BLANK, w.command);
    Put(r, w.end).(length := 0, ackLocation := (|w.Front()| + 1) % 256,
                   flags := {Acked, Echo} + if w.checked then {GoodChecksum} else {})
  }

  lemma CommandLoop(mem: seq<Byte>, base: int, w: Echoed, n: nat)
    requires w.Sendable() && Holds(mem, base, w.Bytes())
    ensures
      var r := Texted(BLANK, w.command);
      Loop(mem, base, base, |w.Front()| + n, BLANK)
      == Loop(mem, base, base + |w.Front()|, n, if w.checked then r.(flags := {GoodChecksum}) else r)
  {
    hide Step, Checksum, SumFrom;
    EchoedBytes(mem, base, w);
    TextLoop(mem, base, base, w.command, |w.Front()| - |w.command| + n, BLANK);
    var r := Texted(BLANK, w.command);
    if w.checked {
      SumsShift(mem, base, w.command, |w.command|);
      ChecksumStep(mem, base, base + |w.command|, r);
      assert r.flags + {GoodChecksum} == {GoodChecksum};
    }
  }

  lemma EndStep(mem: seq<Byte>, base: int, pos: int, r: Reply)
    requires r.Open() && r.length < 62 && (Peek(mem, pos) == LF || Peek(mem, pos) == XOFF)
    requires Peek(mem, pos - 1) != CR && InError !in r.flags
    ensures Step(mem, base, pos, r) == (pos + 1, Put(r, Peek(mem, pos)))
  {
    assert r.flags - {InError} + {} == r.flags;
  }

  lemma AckBehindEcho(mem: seq<Byte>, base: int, pos: int, r: Reply)
    requires r.Open() && r.length > 0 && Event !in r.flags && r.received == 0
    requires Peek(mem, pos) == ACK && (Peek(mem, pos - 1) == LF || Peek(mem, pos - 1) == XOFF)
    ensures Step(mem, base, pos, r)
         == (pos + 1, r.(length := 0, flags := r.flags + {Acked, Echo}, ackLocation := (pos - base) % 256))
  {
    assert r.flags + {Acked} + {Echo} == r.flags + {Acked, Echo};
  }

  lemma EchoLoop(mem: seq<Byte>, base: int, w: Echoed, n: nat)
    requires w.Sendable() && Holds(mem, base, w.Bytes())
    ensures Loop(mem, base, base, |w.Front()| + 2 + n, BLANK)
         == Loop(mem, base, base + |w.Front()| + 2, n, Dropped(w))
  {
    hide Step, Checksum, SumFrom;
    EchoedBytes(mem, base, w);
    CommandLoop(mem, base, w, 2 + n);
    var at := base + |w.Front()|;
    var r := Texted(BLANK, w.command);
    var seen := if w.checked then r.(flags := {GoodChecksum}) else r;
    BeforeEnd(mem, base, w);
    EndStep(mem, base, at, seen);
    var ended := Put(seen, w.end);
    AckBehindEcho(mem, base, at + 1, ended);
    assert ended.flags + {Acked, Echo} == Dropped(w).flags;
    assert Loop(mem, base, at, 2 + n, seen) == Loop(mem, base, at + 1, 1 + n, ended);
  }

  lemma BeforeEnd(mem: seq<Byte>, base: int, w: Echoed)
    requires w.Sendable() && Holds(mem, base, w.Bytes())
    ensures Peek(mem, base + |w.Front()| - 1) != CR
  {
    EchoedBytes(mem, base, w);
    assert Peek(mem, base + (|w.command| - 1)) == w.command[|w.command| - 1];
  }

  // ---------- The reply ----------

  // With the ACK counted in, no checksum of the payload matches.
  lemma AckCountedIn(mem: seq<Byte>, at: int, p: seq<Byte>)
    requires Peek(mem, at) == ACK && Lies(mem, at + 1, p)
    ensures !ChecksumMatches(mem, at, at + 1 + |p|, Checksum(SumFrom(p, 0, |p|)))
  {
    SumsShift(mem, at + 1, p, |p|);
    SumStarts(mem, at, at + 1 + |p|);
    var sum := SumFrom(p, 0, |p|);
    SixMore(sum);
  }

  lemma {:induction false} SumStarts(mem: seq<Byte>, lo: int, hi: int)
    requires lo < hi
    ensures SumFrom(mem, lo, hi) == Peek(mem, lo) + SumFrom(mem, lo + 1, hi)
    decreases hi - lo
  {
    if lo + 1 < hi {
      SumStarts(mem, lo, hi - 1);
    }
  }

  lemma SixMore(sum: nat)
    ensures Checksum(6 + sum) != Checksum(sum)
  {
  }

  // The payload's checksum, which is taken for one more character.
  lemma ChecksumKept(mem: seq<Byte>, base: int, pos: int, r: Reply)
    requires r.Open() && r.length < 62 && Peek(mem, pos) >= 128 && InError !in r.flags
    requires GoodChecksum in r.flags || !ChecksumMatches(mem, ChecksumStart(base, r), pos, Peek(mem, pos))
    ensures Step(mem, base, pos, r) == (pos + 1, Put(r, Peek(mem, pos)))
  {
    assert r.flags - {InError} + {} == r.flags;
  }

  // The response to an echoed reply.
  function Garbled(w: Echoed): (r: Reply)
    requires |w.command| < 62 && |w.payload| < 62
    ensures r.Valid()
  {
    var r := Put(Texted(Dropped(w), w.payload), Checksum(SumFrom(w.payload, 0, |w.payload|)));
    r.(flags := r.flags + {Processed, CrLf}, received := |w.Bytes()| % 128)
  }

  lemma PayloadLoop(mem: seq<Byte>, base: int, w: Echoed)
    requires w.Sendable() && Holds(mem, base, w.Bytes())
    ensures Loop(mem, base, base + |w.Front()| + 2, |w.payload| + 3, Dropped(w))
         == (base + |w.Bytes()|, Garbled(w).(received := 0))
  {
    hide Step, Checksum, SumFrom, Put, Texted, Dropped, Garbled;
    EchoedBytes(mem, base, w);
    var p, body, at := w.payload, Body(w.payload), base + |w.Front()| + 2;
    forall i {:trigger p[i]} | 0 <= i < |p|
      ensures Peek(mem, at + i) == p[i]
    {
      assert body[i] == p[i];
    }
    DroppedFlags(w);
    TextLoop(mem, base, at, p, 3, Dropped(w));
    GarbledEnd(mem, base, w);
  }

  lemma GarbledEnd(mem: seq<Byte>, base: int, w: Echoed)
    requires w.Sendable() && Holds(mem, base, w.Bytes())
    ensures Loop(mem, base, base + |w.Front()| + 2 + |w.payload|, 3, Texted(Dropped(w), w.payload))
         == (base + |w.Bytes()|, Garbled(w).(received := 0))
  {
    var pos := base + |w.Front()| + 2 + |w.payload|;
    var r := Texted(Dropped(w), w.payload);
    hide Step, Checksum, SumFrom, Dropped, Garbled, Loop, Holds, Body, ChecksumMatches, ChecksumStart, Echoed.Bytes;
    EndBytes(mem, base, w);
    DroppedFlags(w);
    GarbledIs(w);
    assert ChecksumStart(base, r) == ChecksumStart(base, Dropped(w)) by { SameStart(base, Dropped(w), w.payload); }
    ChecksumKept(mem, base, pos, r);
    SplitFirst(mem, base, pos, 2, r);
    PlainLineEnd(mem, base, pos + 1, Put(r, Peek(mem, pos)));
  }

  lemma SameStart(base: int, r: Reply, t: seq<Byte>)
    requires r.Valid() && r.length + |t| <= 62
    ensures ChecksumStart(base, Texted(r, t)) == ChecksumStart(base, r)
  {
  }

  lemma EndBytes(mem: seq<Byte>, base: int, w: Echoed)
    requires w.Sendable() && Holds(mem, base, w.Bytes())
    ensures
      var start, pos, sum := base + |w.Front()| + 1, base + |w.Front()| + 2 + |w.payload|, SumFrom(w.payload, 0, |w.payload|);
      && Peek(mem, pos) == Checksum(sum) && Peek(mem, pos) >= 128
      && Peek(mem, pos + 1) == CR && Peek(mem, pos + 2) == LF && Peek(mem, pos + 3) == 0
      && (!w.checked ==> !ChecksumMatches(mem, start, pos, Peek(mem, pos)))
  {
    hide Checksum, SumFrom;
    EchoedBytes(mem, base, w);
    var p, body, at := w.payload, Body(w.payload), base + |w.Front()| + 2;
    assert Peek(mem, at + |p|) == body[|p|] && Peek(mem, at + (|p| + 1)) == body[|p| + 1];
    assert Peek(mem, at + (|p| + 2)) == body[|p| + 2];
    HighChecksum(p);
    forall i {:trigger p[i]} | 0 <= i < |p|
      ensures Peek(mem, at + i) == p[i]
    {
      assert body[i] == p[i];
    }
    AckCountedIn(mem, at - 1, p);
  }

  lemma GarbledIs(w: Echoed)
    requires w.Sendable()
    ensures
      var r := Put(Texted(Dropped(w), w.payload), Checksum(SumFrom(w.payload, 0, |w.payload|)));
      && Garbled(w).(received := 0) == r.(flags := r.flags + {Processed, CrLf})
      && |w.Bytes()| == |w.Front()| + 2 + (|w.payload| + 3)
  {
    hide Checksum, SumFrom;
  }

  lemma DroppedFlags(w: Echoed)
    requires w.Sendable()
    ensures
      var r := Dropped(w);
      && r.flags !! {InError, Event} && r.length == 0 && (GoodChecksum in r.flags <==> w.checked)
      && forall base :: ChecksumStart(base, r) == base + |w.Front()| + 1
  {
  }

  lemma HighChecksum(p: seq<Byte>)
    ensures Checksum(SumFrom(p, 0, |p|)) >= 128
  {
  }

  /** Behind an echo no checksum of a reply is recognised: it ends up as one more character of the payload.
      Nothing of the echo does. */
  lemma EchoedReplyIsGarbled(mem: seq<Byte>, base: int, w: Echoed)
    requires w.Sendable() && Holds(mem, base, w.Bytes())
    ensures
      var (consumed, r) := Process(mem, base, |w.Bytes()|, BLANK);
      && consumed == |w.Bytes()| && r.Valid()
      && r.Payload() == w.payload + [Checksum(SumFrom(w.payload, 0, |w.payload|))]
      && r.flags == {Acked, Echo, Processed, CrLf} + (if w.checked then {GoodChecksum} else {})
      && r.code == 0 && r.length == |w.payload| + 1
  {
    hide Loop, Checksum, SumFrom;
    EchoLoop(mem, base, w, |w.payload| + 3);
    PayloadLoop(mem, base, w);
    assert |w.Bytes()| == |w.Front()| + 2 + (|w.payload| + 3);
    GarbledFields(w);
    assert Garbled(w).flags + {Processed} == Garbled(w).flags;
  }

  lemma GarbledFields(w: Echoed)
    requires w.Sendable()
    ensures
      var r := Garbled(w);
      && r.Payload() == w.payload + [Checksum(SumFrom(w.payload, 0, |w.payload|))]
      && r.flags == {Acked, Echo, Processed, CrLf} + (if w.checked then {GoodChecksum} else {})
      && r.code == 0 && r.length == |w.payload| + 1 && Garbled(w).(received := 0).received == 0
  {
    hide Checksum, SumFrom;
  }

  /** In checksum mode such a reply counts as carried out, with that character in its payload, if the echo had
      a checksum itself, and as a bad checksum if not. */
  lemma EchoedReplyIsReported(mem: seq<Byte>, base: int, w: Echoed, link: Link)
    requires w.Sendable() && Holds(mem, base, w.Bytes()) && link.checksumMode != 0
    ensures
      var v := Classify(link, Process(mem, base, |w.Bytes()|, BLANK).1);
      v.status == if w.checked then ResponseOk else BadChecksum
  {
    EchoedReplyIsGarbled(mem, base, w);
    hide Process;
    StatusIff(link, Process(mem, base, |w.Bytes()|, BLANK).1);
  }
}
