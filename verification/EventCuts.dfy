/**
 Event reports in pieces: the parser of drivers/mdrive/serial.c looks ahead for the
 address and then reads past what it was given, so that where a read ends inside a
 report matters. This is exactly where it does not.
 */
module EventCuts {
  import opened ReplyParser
  import opened ReplyChunks

  /** An event report: the unit's address in quotes, the event's code, and an ACK. */
  function Report(a: Byte, digits: seq<Byte>): seq<Byte> {
    [BANG, QUOTE, a, QUOTE, QUESTION] + digits + [ACK]
  }

  predicate IsCodeDigit(c: Byte) {
    48 <= c <= 57
  }

  predicate AllCodeDigits(digits: seq<Byte>) {
    forall i :: 0 <= i < |digits| ==> IsCodeDigit(digits[i])
  }

  function CodeOf(digits: seq<Byte>, code: Byte): Byte {
    if digits == [] then code
    else
      var digit: int := digits[0];
      CodeOf(digits[1..], (code * 10 + (digit - 48)) % 256)
  }

  ghost predicate Lies(mem: seq<Byte>, base: int, bytes: seq<Byte>) {
    forall i {:trigger bytes[i]} :: 0 <= i < |bytes| ==> Peek(mem, base + i) == bytes[i]
  }

  // The response at the address and code of a report, before the byte count.
  function Reported(a: Byte, code: Byte, ackLocation: Byte): Reply {
    BLANK.(address := a, code := code, ackLocation := ackLocation, flags := {Event, Error, InError, Acked, Processed})
  }

  // ---------- A report in one read ----------

  lemma DigitStep(mem: seq<Byte>, base: int, pos: int, r: Reply)
    requires r.Open() && IsCodeDigit(Peek(mem, pos)) && InError in r.flags
    ensures Step(mem, base, pos, r) == (pos + 1, r.(code := CodeOf([Peek(mem, pos)], r.code)))
  {
    assert [Peek(mem, pos)][1..] == [];
  }

  lemma {:induction false} DigitsLoop(mem: seq<Byte>, base: int, pos: int, digits: seq<Byte>, n: nat, r: Reply)
    requires r.Open() && AllCodeDigits(digits) && InError in r.flags && Lies(mem, pos, digits)
    ensures Loop(mem, base, pos, |digits| + n, r)
         == Loop(mem, base, pos + |digits|, n, r.(code := CodeOf(digits, r.code)))
    decreases digits
  {
    hide Step;
    if digits != [] {
      assert Peek(mem, pos + 0) == digits[0];
      DigitStep(mem, base, pos, r);
      assert [digits[0]][1..] == [];
      forall i {:trigger digits[1..][i]} | 0 <= i < |digits[1..]|
        ensures Peek(mem, pos + 1 + i) == digits[1..][i]
      {
        assert Peek(mem, pos + (i + 1)) == digits[i + 1];
      }
      DigitsLoop(mem, base, pos + 1, digits[1..], n, r.(code := CodeOf([digits[0]], r.code)));
    }
  }

  lemma EventAckStep(mem: seq<Byte>, base: int, pos: int, r: Reply)
    requires r.Open() && Peek(mem, pos) == ACK && Event in r.flags && GoodChecksum !in r.flags
    ensures Step(mem, base, pos, r) ==
            (pos + 1, r.(flags := r.flags + {Acked, Processed}, ackLocation := (pos - base + r.received) % 256))
  {
    assert r.flags + {Acked} + {Processed} == r.flags + {Acked, Processed};
  }

  lemma QuestionMarkStep(mem: seq<Byte>, base: int, pos: int, r: Reply)
    requires r.Open() && Peek(mem, pos) == QUESTION
    ensures Step(mem, base, pos, r) == (pos + 1, r.(flags := r.flags + {InError, Error}))
  {
  }

  // The code and the ACK, with an error mark before them already read.
  lemma {:induction false} CodeLoop(mem: seq<Byte>, base: int, pos: int, digits: seq<Byte>, n: nat, r: Reply)
    requires r.Open() && r.flags == {Event, InError, Error} && AllCodeDigits(digits)
    requires Lies(mem, pos, digits) && Peek(mem, pos + |digits|) == ACK
    ensures Loop(mem, base, pos, |digits| + 1 + n, r) ==
            (pos + |digits| + 1,
             r.(code := CodeOf(digits, r.code), flags := {Event, Error, InError, Acked, Processed},
                ackLocation := (pos + |digits| - base + r.received) % 256))
  {
    hide Step;
    DigitsLoop(mem, base, pos, digits, 1 + n, r);
    var coded := r.(code := CodeOf(digits, r.code));
    EventAckStep(mem, base, pos + |digits|, coded);
    assert r.flags + {Acked, Processed} == {Event, Error, InError, Acked, Processed};
  }

  lemma HeaderSteps(mem: seq<Byte>, base: int)
    requires Peek(mem, base) == BANG && Peek(mem, base + 1) == QUOTE
    ensures Step(mem, base, base, BLANK) == (base + 1, BLANK.(flags := {Event}))
    ensures Step(mem, base, base + 1, BLANK.(flags := {Event})) ==
            (base + 4, BLANK.(flags := {Event}, address := Peek(mem, base + 2)))
  {
    assert BLANK.flags + {Event} == {Event};
  }

  // The response to the header.
  function Header(a: Byte): Reply {
    BLANK.(flags := {Event}, address := a)
  }

  lemma HeaderLoop(mem: seq<Byte>, base: int, n: nat)
    requires Peek(mem, base) == BANG && Peek(mem, base + 1) == QUOTE
    ensures Loop(mem, base, base, 1, BLANK) == (base + 1, BLANK.(flags := {Event}))
    ensures Loop(mem, base, base, 2 + n, BLANK) == Loop(mem, base, base + 4, n, Header(Peek(mem, base + 2)))
  {
    hide Step;
    HeaderSteps(mem, base);
    assert Loop(mem, base, base + 1, 0, BLANK.(flags := {Event})) == (base + 1, BLANK.(flags := {Event}));
  }

  lemma {:induction false} ReportBytes(mem: seq<Byte>, base: int, a: Byte, digits: seq<Byte>)
    requires Lies(mem, base, Report(a, digits))
    ensures Peek(mem, base) == BANG && Peek(mem, base + 1) == QUOTE && Peek(mem, base + 2) == a
    ensures Peek(mem, base + 3) == QUOTE && Peek(mem, base + 4) == QUESTION
    ensures Lies(mem, base + 5, digits) && Peek(mem, base + 5 + |digits|) == ACK
  {
    var report := Report(a, digits);
    assert report[0] == BANG && report[1] == QUOTE && report[2] == a && report[3] == QUOTE && report[4] == QUESTION;
    assert Peek(mem, base + 0) == report[0];
    forall i {:trigger digits[i]} | 0 <= i < |digits|
      ensures Peek(mem, base + 5 + i) == digits[i]
    {
      assert Peek(mem, base + (i + 5)) == report[i + 5];
    }
    assert report[|digits| + 5] == ACK;
  }

  // The error mark, the code and the ACK.
  lemma {:induction false} RestLoop(mem: seq<Byte>, base: int, pos: int, digits: seq<Byte>, n: nat, r: Reply)
    requires r.Open() && r.flags == {Event} && AllCodeDigits(digits)
    requires Peek(mem, pos) == QUESTION && Lies(mem, pos + 1, digits) && Peek(mem, pos + 1 + |digits|) == ACK
    ensures Loop(mem, base, pos, |digits| + 2 + n, r) ==
            (pos + |digits| + 2,
             r.(code := CodeOf(digits, r.code), flags := {Event, Error, InError, Acked, Processed},
                ackLocation := (pos + 1 + |digits| - base + r.received) % 256))
  {
    hide Step;
    QuestionMarkStep(mem, base, pos, r);
    var marked := r.(flags := {Event, InError, Error});
    assert r.flags + {InError, Error} == marked.flags;
    CodeLoop(mem, base, pos + 1, digits, n, marked);
  }

  /** A report that arrives whole is read as sent. */
  lemma {:induction false} WholeReport(mem: seq<Byte>, base: int, a: Byte, digits: seq<Byte>)
    requires AllCodeDigits(digits) && Lies(mem, base, Report(a, digits))
    ensures
      var n := |digits| + 6;
      Process(mem, base, n, BLANK) ==
        (n, Reported(a, CodeOf(digits, 0), (n - 1) % 256).(received := n % 128))
  {
    hide Step, Loop, Process;
    var n := |digits| + 6;
    ReportBytes(mem, base, a, digits);
    HeaderLoop(mem, base, |digits| + 4);
    RestLoop(mem, base, base + 4, digits, 2, Header(a));
    CallOfLoop(mem, base, n, BLANK, base + n, Reported(a, CodeOf(digits, 0), (n - 1) % 256));
  }

  // A call, from its loop.
  lemma CallOfLoop(mem: seq<Byte>, base: int, n: nat, r: Reply, end: int, r': Reply)
    requires n > 0 && r.Valid() && Loop(mem, base, base, n, r) == (end, r') && r'.length != 1
    ensures Process(mem, base, n, r) == (end - base, r'.(received := (r'.received + (end - base)) % 128))
  {
    hide Loop;
  }

  // ---------- A report in two reads ----------

  /** Two reads: m bytes, then the rest of the n. The first call sees a terminator after its bytes, and
      behind it whatever the buffer held; the second starts where the first stopped. */
  function TwoReads(memA: seq<Byte>, mem: seq<Byte>, base: int, m: nat, n: nat): Reply {
    var (c1, r1) := Process(memA, base, m, BLANK);
    if Processed in r1.flags || c1 >= n || c1 < 0 then r1 else Process(mem, base + c1, n - c1, r1).1
  }

  ghost predicate CutAt(memA: seq<Byte>, mem: seq<Byte>, base: int, m: nat) {
    AgreeBelow(memA, mem, base + m) && Peek(memA, base + m) == 0
  }

  // After the exclamation mark alone.
  lemma {:induction false} CutAfterMark(memA: seq<Byte>, mem: seq<Byte>, base: int, a: Byte, digits: seq<Byte>)
    requires AllCodeDigits(digits) && Lies(mem, base, Report(a, digits)) && CutAt(memA, mem, base, 1)
    ensures TwoReads(memA, mem, base, 1, |digits| + 6) == Process(mem, base, |digits| + 6, BLANK).1
  {
    hide Step, Loop, Process;
    ReportBytes(mem, base, a, digits);
    assert Peek(memA, base) == Peek(mem, base);
    FirstMark(memA, base);
    ChunkIndependence(memA, mem, base, 1, |digits| + 5, BLANK);
  }

  lemma FirstMark(memA: seq<Byte>, base: int)
    requires Peek(memA, base) == BANG
    ensures Process(memA, base, 1, BLANK) == (1, BLANK.(flags := {Event}, received := 1))
  {
    hide Loop, Process;
    assert Loop(memA, base, base, 1, BLANK) == (base + 1, BLANK.(flags := {Event})) by {
      FirstMarkLoop(memA, base);
    }
    CallOfLoop(memA, base, 1, BLANK, base + 1, BLANK.(flags := {Event}));
  }

  lemma FirstMarkLoop(memA: seq<Byte>, base: int)
    requires Peek(memA, base) == BANG
    ensures Loop(memA, base, base, 1, BLANK) == (base + 1, BLANK.(flags := {Event}))
  {
    assert BLANK.flags + {Event} == {Event};
    assert Loop(memA, base, base + 1, 0, BLANK.(flags := {Event})) == (base + 1, BLANK.(flags := {Event}));
  }

  // After the opening quote: the address is read as the terminator.
  lemma {:induction false} CutAfterQuote(memA: seq<Byte>, mem: seq<Byte>, base: int, a: Byte, digits: seq<Byte>)
    requires AllCodeDigits(digits) && Lies(mem, base, Report(a, digits)) && CutAt(memA, mem, base, 2)
    ensures TwoReads(memA, mem, base, 2, |digits| + 6) == Process(mem, base, |digits| + 6, BLANK).1.(address := 0)
  {
    hide Step, Loop, Process;
    var n := |digits| + 6;
    ReportBytes(mem, base, a, digits);
    assert Peek(memA, base) == Peek(mem, base) && Peek(memA, base + 1) == Peek(mem, base + 1);
    HeaderLoop(memA, base, 0);
    NoLoop(memA, base, base + 4, Header(0));
    CallOfLoop(memA, base, 2, BLANK, base + 4, Header(0));
    WholeReport(mem, base, a, digits);
    RestLoop(mem, base + 4, base + 4, digits, 0, Header(0).(received := 4));
    CallOfLoop(mem, base + 4, n - 4, Header(0).(received := 4), base + n,
               Reported(0, CodeOf(digits, 0), (n - 1) % 256).(received := 4));
  }

  lemma NoLoop(mem: seq<Byte>, base: int, pos: int, r: Reply)
    requires r.Valid()
    ensures Loop(mem, base, pos, 0, r) == (pos, r)
  {
  }

  // ---------- After the address byte ----------

  // Bytes that are digits or an ACK.
  predicate Plain(c: Byte) {
    IsCodeDigit(c) || c == ACK
  }

  lemma {:induction false} PlainEnd(mem: seq<Byte>, base: int, a: Byte, digits: seq<Byte>, i: int)
    requires AllCodeDigits(digits) && Lies(mem, base, Report(a, digits)) && 5 <= i < |digits| + 6
    ensures Plain(Peek(mem, base + i))
  {
    ReportBytes(mem, base, a, digits);
    if i < |digits| + 5 {
      assert digits[i - 5] == Peek(mem, base + 5 + (i - 5));
    }
  }

  // No byte but an error mark marks an error.
  lemma NoErrorStep(mem: seq<Byte>, base: int, pos: int, r: Reply)
    requires r.Open() && Error !in r.flags && Peek(mem, pos) != QUESTION
    requires !(Peek(mem, pos) == LF && Peek(mem, pos - 1) == CR)
    ensures Error !in Step(mem, base, pos, r).1.flags
    ensures Plain(Peek(mem, pos)) ==> Step(mem, base, pos, r).0 == pos + 1
  {
  }

  lemma {:induction false} NoErrorLoop(mem: seq<Byte>, base: int, pos: int, n: nat, r: Reply)
    requires r.Valid() && Error !in r.flags && forall i :: pos <= i < pos + n ==> Plain(Peek(mem, i))
    ensures Error !in Loop(mem, base, pos, n, r).1.flags
    decreases n
  {
    hide Step;
    if n > 0 && Processed !in r.flags {
      NoErrorStep(mem, base, pos, r);
      var (next, r') := Step(mem, base, pos, r);
      NoErrorLoop(mem, base, next, n - 1, r');
    }
  }

  lemma CallKeepsFlags(mem: seq<Byte>, base: int, n: nat, r: Reply)
    requires n > 0 && r.Valid()
    ensures
      var called, looped := Process(mem, base, n, r), Loop(mem, base, base, n, r);
      && called.0 == looped.0 - base && called.1.length == looped.1.length
      && looped.1.flags <= called.1.flags <= looped.1.flags + {Processed}
      && (looped.1.length != 1 || looped.1.buf[0] != DOLLAR ==> called.1.flags == looped.1.flags)
  {
    hide Loop;
  }

  lemma {:induction false} CutAfterAddress(
    memA: seq<Byte>, mem: seq<Byte>, base: int, a: Byte, digits: seq<Byte>)
    requires AllCodeDigits(digits) && Lies(mem, base, Report(a, digits)) && CutAt(memA, mem, base, 3)
    ensures TwoReads(memA, mem, base, 3, |digits| + 6) == Process(mem, base, |digits| + 6, BLANK).1
            <==> Peek(memA, base + 4) == QUESTION
  {
    hide Step, Loop, Process;
    ReportBytes(mem, base, a, digits);
    assert Peek(memA, base) == BANG && Peek(memA, base + 1) == QUOTE && Peek(memA, base + 2) == a;
    HeaderLoop(memA, base, 1);
    OneStep(memA, base, base + 4, Header(a));
    WholeReport(mem, base, a, digits);
    if Peek(memA, base + 4) == QUESTION {
      StaleMark(memA, mem, base, a, digits);
    } else {
      StaleOther(memA, mem, base, a, digits);
    }
  }

  lemma OneStep(mem: seq<Byte>, base: int, pos: int, r: Reply)
    requires r.Open()
    ensures Loop(mem, base, pos, 1, r) == Step(mem, base, pos, r)
  {
    hide Step;
    var (next, r') := Step(mem, base, pos, r);
    NoLoop(mem, base, next, r');
  }

  lemma {:induction false} StaleMark(memA: seq<Byte>, mem: seq<Byte>, base: int, a: Byte, digits: seq<Byte>)
    requires AllCodeDigits(digits) && Lies(mem, base, Report(a, digits))
    requires Loop(memA, base, base, 3, BLANK) == Step(memA, base, base + 4, Header(a))
    requires Peek(memA, base + 4) == QUESTION
    ensures TwoReads(memA, mem, base, 3, |digits| + 6) == Process(mem, base, |digits| + 6, BLANK).1
  {
    hide Step, Loop, Process;
    var n := |digits| + 6;
    ReportBytes(mem, base, a, digits);
    WholeReport(mem, base, a, digits);
    QuestionMarkStep(memA, base, base + 4, Header(a));
    var marked := Header(a).(flags := {Event, InError, Error});
    assert Header(a).flags + {InError, Error} == marked.flags;
    CallOfLoop(memA, base, 3, BLANK, base + 5, marked);
    var first := marked.(received := 5);
    CodeLoop(mem, base + 5, base + 5, digits, 0, first);
    CallOfLoop(mem, base + 5, n - 5, first, base + n, Reported(a, CodeOf(digits, 0), (n - 1) % 256).(received := 5));
  }

  lemma {:induction false} StaleOther(memA: seq<Byte>, mem: seq<Byte>, base: int, a: Byte, digits: seq<Byte>)
    requires AllCodeDigits(digits) && Lies(mem, base, Report(a, digits))
    requires Loop(memA, base, base, 3, BLANK) == Step(memA, base, base + 4, Header(a))
    requires Peek(memA, base + 4) != QUESTION && Peek(memA, base + 3) == 0
    ensures Error !in TwoReads(memA, mem, base, 3, |digits| + 6).flags
  {
    hide Step, Loop, Process, Lies, AllCodeDigits;
    var n := |digits| + 6;
    NoErrorStep(memA, base, base + 4, Header(a));
    StepAdvances(memA, base, base + 4, Header(a));
    CallKeepsFlags(memA, base, 3, BLANK);
    var (c1, r1) := Process(memA, base, 3, BLANK);
    if Processed !in r1.flags && c1 < n {
      forall i | base + c1 <= i < base + n
        ensures Plain(Peek(mem, i))
      {
        PlainEnd(mem, base, a, digits, i - base);
      }
      NoErrorLoop(mem, base + c1, base + c1, n - c1, r1);
      CallKeepsFlags(mem, base + c1, n - c1, r1);
    }
  }

  lemma StepAdvances(mem: seq<Byte>, base: int, pos: int, r: Reply)
    requires r.Open()
    ensures Step(mem, base, pos, r).0 > pos
  {
  }

  // ---------- Later cuts ----------

  /** What the terminator read as a byte of the report leaves behind. */
  predicate Spoilt(r: Reply) {
    Event in r.flags && (GoodChecksum in r.flags || r.length >= 1)
  }

  lemma SpoiltStep(mem: seq<Byte>, base: int, pos: int, r: Reply)
    requires r.Open() && Spoilt(r) && Plain(Peek(mem, pos))
    ensures Spoilt(Step(mem, base, pos, r).1) && Step(mem, base, pos, r).0 == pos + 1
  {
  }

  lemma {:induction false} SpoiltLoop(mem: seq<Byte>, base: int, pos: int, n: nat, r: Reply)
    requires r.Valid() && Spoilt(r) && forall i :: pos <= i < pos + n ==> Plain(Peek(mem, i))
    ensures Spoilt(Loop(mem, base, pos, n, r).1)
    decreases n
  {
    hide Step;
    if n > 0 && Processed !in r.flags {
      SpoiltStep(mem, base, pos, r);
      var (next, r') := Step(mem, base, pos, r);
      SpoiltLoop(mem, base, next, n - 1, r');
    }
  }

  // The terminator, and one byte behind it.
  lemma TerminatorStep(mem: seq<Byte>, base: int, pos: int, r: Reply)
    requires r.Open() && Event in r.flags && r.length == 0 && Peek(mem, pos) == 0
    ensures
      var (next, r') := Step(mem, base, pos, r);
      next == pos + 1 && r'.Open() && Event in r'.flags && r'.length == 1
  {
  }

  lemma StaleStep(mem: seq<Byte>, base: int, pos: int, r: Reply)
    requires r.Open() && Event in r.flags && r.length == 1 && Peek(mem, pos - 1) == 0
    ensures Spoilt(Step(mem, base, pos, r).1) && Step(mem, base, pos, r).0 == pos + 1
  {
  }

  lemma OverreadLoop(mem: seq<Byte>, base: int, pos: int, r: Reply)
    requires r.Open() && Event in r.flags && r.length == 0 && Peek(mem, pos) == 0
    ensures var (end, r') := Loop(mem, base, pos, 2, r); end == pos + 2 && Spoilt(r')
  {
    hide Step;
    TerminatorStep(mem, base, pos, r);
    var (p1, r1) := Step(mem, base, pos, r);
    StaleStep(mem, base, p1, r1);
    OneStep(mem, base, p1, r1);
  }

  // The bytes of the report between the closing quote and the cut, then the two bytes too many.
  lemma {:induction false} LateLoop(
    memA: seq<Byte>, mem: seq<Byte>, base: int, a: Byte, digits: seq<Byte>, m: nat)
    requires AllCodeDigits(digits) && Lies(mem, base, Report(a, digits)) && CutAt(memA, mem, base, m)
    requires 4 <= m < |digits| + 6
    ensures var (end, r) := Loop(memA, base, base, m, BLANK); end == base + m + 2 && Spoilt(r)
  {
    hide Step, Loop;
    ReportBytes(mem, base, a, digits);
    assert Peek(memA, base) == BANG && Peek(memA, base + 1) == QUOTE && Peek(memA, base + 2) == a;
    HeaderLoop(memA, base, m - 2);
    var r := Header(a);
    if m == 4 {
      OverreadLoop(memA, base, base + 4, r);
    } else {
      var marked := r.(flags := {Event, InError, Error});
      assert Peek(memA, base + 4) == QUESTION;
      QuestionMarkStep(memA, base, base + 4, r);
      assert r.flags + {InError, Error} == marked.flags;
      SplitFirst(memA, base, base + 4, m - 3, r);
      var some := digits[..m - 5];
      forall i {:trigger some[i]} | 0 <= i < |some|
        ensures Peek(memA, base + 5 + i) == some[i]
      {
        assert Peek(mem, base + 5 + i) == digits[i];
      }
      DigitsLoop(memA, base, base + 5, some, 2, marked);
      OverreadLoop(memA, base, base + m, marked.(code := CodeOf(some, marked.code)));
    }
  }

  lemma SplitFirst(mem: seq<Byte>, base: int, pos: int, n: nat, r: Reply)
    requires r.Open()
    ensures var (next, r') := Step(mem, base, pos, r); Loop(mem, base, pos, n + 1, r) == Loop(mem, base, next, n, r')
  {
    hide Step;
  }

  lemma {:induction false} LateCutSpoils(
    memA: seq<Byte>, mem: seq<Byte>, base: int, a: Byte, digits: seq<Byte>, m: nat)
    requires AllCodeDigits(digits) && Lies(mem, base, Report(a, digits)) && CutAt(memA, mem, base, m)
    requires 4 <= m < |digits| + 6
    ensures Spoilt(TwoReads(memA, mem, base, m, |digits| + 6))
  {
    LateLoop(memA, mem, base, a, digits, m);
    hide Step, Loop, Process, Lies, AllCodeDigits, CutAt;
    var n := |digits| + 6;
    CallKeepsFlags(memA, base, m, BLANK);
    var (c1, r1) := Process(memA, base, m, BLANK);
    if Processed !in r1.flags && c1 < n {
      forall i | base + c1 <= i < base + n
        ensures Plain(Peek(mem, i))
      {
        PlainEnd(mem, base, a, digits, i - base);
      }
      SpoiltLoop(mem, base + c1, base + c1, n - c1, r1);
      CallKeepsFlags(mem, base + c1, n - c1, r1);
    }
  }

  /** Where a read may end inside an event report without changing the response: after the exclamation
      mark; after the opening quote, if the address is NUL; and after the address, if the buffer happens
      to hold an error mark two places on, where the report's own is never looked at. Nowhere else. */
  lemma {:induction false} EventCutIsHarmlessIff(
    memA: seq<Byte>, mem: seq<Byte>, base: int, a: Byte, digits: seq<Byte>, m: nat)
    requires AllCodeDigits(digits) && Lies(mem, base, Report(a, digits)) && CutAt(memA, mem, base, m)
    requires 0 < m < |Report(a, digits)|
    ensures TwoReads(memA, mem, base, m, |Report(a, digits)|) == Process(mem, base, |Report(a, digits)|, BLANK).1
            <==> m == 1 || (m == 2 && a == 0) || (m == 3 && Peek(memA, base + 4) == QUESTION)
  {
    hide Process, TwoReads, Lies, AllCodeDigits, CutAt;
    WholeReport(mem, base, a, digits);
    if m == 1 {
      CutAfterMark(memA, mem, base, a, digits);
    } else if m == 2 {
      CutAfterQuote(memA, mem, base, a, digits);
    } else if m == 3 {
      CutAfterAddress(memA, mem, base, a, digits);
    } else {
      LateCutSpoils(memA, mem, base, a, digits, m);
    }
  }
}
