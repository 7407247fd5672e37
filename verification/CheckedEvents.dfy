/**
 Event reports that carry a checksum: the parser of drivers/mdrive/serial.c takes a
 character off the received text for it, although a checksum is never put there.
 */
module CheckedEvents {
  import opened ReplyParser
  import opened ReplyRoundTrip
  import opened EventCuts
  import opened ReplyRefusals

  function Front(a: Byte, digits: seq<Byte>): seq<Byte> {
    [BANG, QUOTE, a, QUOTE, QUESTION] + digits
  }

  /** An event report with the checksum of all that stands before it. */
  function CheckedReport(a: Byte, digits: seq<Byte>): seq<Byte> {
    Front(a, digits) + [Checksum(SumFrom(Front(a, digits), 0, |digits| + 5)), ACK]
  }

  lemma CheckedBytes(mem: seq<Byte>, base: int, a: Byte, digits: seq<Byte>)
    requires Lies(mem, base, CheckedReport(a, digits))
    ensures Peek(mem, base) == BANG && Peek(mem, base + 1) == QUOTE && Peek(mem, base + 2) == a
    ensures Peek(mem, base + 4) == QUESTION && Lies(mem, base + 5, digits)
    ensures
      var pos := base + 5 + |digits|;
      Peek(mem, pos) == Checksum(SumFrom(mem, base, pos)) && Peek(mem, pos + 1) == ACK
  {
    hide Checksum, SumFrom;
    var front, all := Front(a, digits), CheckedReport(a, digits);
    assert all[0] == BANG && all[1] == QUOTE && all[2] == a && all[4] == QUESTION;
    assert Peek(mem, base + 0) == all[0] && Peek(mem, base + 1) == all[1] && Peek(mem, base + 2) == all[2];
    assert Peek(mem, base + 4) == all[4];
    forall i {:trigger digits[i]} | 0 <= i < |digits|
      ensures Peek(mem, base + 5 + i) == digits[i]
    {
      assert Peek(mem, base + (5 + i)) == all[5 + i];
    }
    forall i {:trigger front[i]} | 0 <= i < |front|
      ensures Peek(mem, base + i) == front[i]
    {
      assert all[i] == front[i];
    }
    SumsShift(mem, base, front, |front|);
    var n := 5 + |digits|;
    assert Peek(mem, base + n) == all[n] && Peek(mem, base + (n + 1)) == all[n + 1];
  }

  lemma CheckedAckStep(mem: seq<Byte>, base: int, pos: int, r: Reply)
    requires r.Open() && Peek(mem, pos) == ACK && r.length == 0 && {Event, GoodChecksum} <= r.flags
    ensures Step(mem, base, pos, r) ==
            (pos + 1, r.(flags := r.flags + {Acked, Processed}, ackLocation := (pos - base + r.received) % 256, length := 127))
  {
    assert r.flags + {Acked} + {Processed} == r.flags + {Acked, Processed};
  }

  // The response at the checksum.
  function AtChecksum(a: Byte, digits: seq<Byte>): (r: Reply)
    ensures r.Open()
  {
    Header(a).(code := CodeOf(digits, 0), flags := {Event, InError, Error})
  }

  lemma AtChecksumIs(a: Byte, digits: seq<Byte>)
    ensures
      var h := Header(a);
      && h.Open() && h.code == 0
      && AtChecksum(a, digits) == h.(code := CodeOf(digits, 0), flags := h.flags + {InError, Error})
  {
    hide CodeOf;
    assert Header(a).flags + {InError, Error} == {Event, InError, Error};
  }

  lemma ReportLoop(mem: seq<Byte>, base: int, a: Byte, digits: seq<Byte>)
    requires AllCodeDigits(digits) && Lies(mem, base, CheckedReport(a, digits))
    ensures Loop(mem, base, base, |digits| + 7, BLANK)
         == Loop(mem, base, base + 5 + |digits|, 4, AtChecksum(a, digits))
  {
    hide Checksum, SumFrom, CheckedReport, Step, Loop, Lies, CodeOf, AllCodeDigits, Header, AtChecksum;
    CheckedBytes(mem, base, a, digits);
    AtChecksumIs(a, digits);
    HeaderLoop(mem, base, |digits| + 5);
    CodeOfLoop(mem, base, base + 4, digits, 4, Header(a));
  }

  // The checksum and the ACK behind it.
  lemma ReportEnd(mem: seq<Byte>, base: int, pos: int, r: Reply)
    requires r.Open() && r.flags == {Event, InError, Error} && r.received == r.ackLocation == r.length == 0 && pos > base
    requires Peek(mem, pos) == Checksum(SumFrom(mem, base, pos)) && Peek(mem, pos + 1) == ACK
    ensures
      Loop(mem, base, pos, 4, r) ==
      (pos + 2, r.(flags := {Event, Error, InError, GoodChecksum, Acked, Processed}, length := 127,
                   ackLocation := (pos + 1 - base) % 256))
  {
    hide Step, Checksum, SumFrom, Loop;
    var checked := r.(flags := r.flags + {GoodChecksum});
    NoMark(base, r);
    ChecksumStep(mem, base, pos, r);
    CheckedAckStep(mem, base, pos + 1, checked);
    SplitFirst(mem, base, pos, 3, r);
    SplitFirst(mem, base, pos + 1, 2, checked);
    EndsThere(mem, base, pos + 2, 2, Step(mem, base, pos + 1, checked).1);
    assert checked.flags + {Acked, Processed} == {Event, Error, InError, GoodChecksum, Acked, Processed};
  }

  /** The address and the code of such a report are right, but its length is that of a text of 127 characters,
      of which not one was received. */
  lemma CheckedReportHasNoLength(mem: seq<Byte>, base: int, a: Byte, digits: seq<Byte>)
    requires AllCodeDigits(digits) && Lies(mem, base, CheckedReport(a, digits))
    ensures
      var (consumed, r) := Process(mem, base, |CheckedReport(a, digits)|, BLANK);
      && consumed == |CheckedReport(a, digits)| && r.address == a && r.code == CodeOf(digits, 0)
      && r.length == 127 && r.buf == BLANK.buf
      && r.flags == {Event, Error, InError, GoodChecksum, Acked, Processed}
  {
    assert |CheckedReport(a, digits)| == |digits| + 7;
    CheckedBytes(mem, base, a, digits);
    hide Loop, CheckedReport, Lies, CodeOf, AllCodeDigits, Checksum, SumFrom;
    ReportLoop(mem, base, a, digits);
    ReportEnd(mem, base, base + 5 + |digits|, AtChecksum(a, digits));
  }

  lemma NoMark(base: int, r: Reply)
    requires r.received == 0 && r.ackLocation == 0 && r.flags !! {Acked, Nacked}
    ensures ChecksumStart(base, r) == base
  {
  }

  lemma EndsThere(mem: seq<Byte>, base: int, pos: int, n: nat, r: Reply)
    requires r.Valid() && Processed in r.flags
    ensures Loop(mem, base, pos, n, r) == (pos, r)
  {
  }
}
