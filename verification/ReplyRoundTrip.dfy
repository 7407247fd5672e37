/**
 What the unit sends in checksum mode, ACK, payload, checksum, CR, LF, is what
 the parser of drivers/mdrive/serial.c recovers, whole or split after the ACK.
 */
module ReplyRoundTrip {
  import opened ReplyParser
  import opened ReplyChunks

  /** The unit's side of the protocol: a payload with its checksum and line end. */
  function Body(p: seq<Byte>): seq<Byte> {
    p + [Checksum(SumFrom(p, 0, |p|)), CR, LF]
  }

  function Frame(p: seq<Byte>): seq<Byte> {
    [ACK] + Body(p)
  }

  ghost predicate Printable(p: seq<Byte>) {
    forall i :: 0 <= i < |p| ==> 32 <= p[i] <= 126
  }

  /** The payloads the protocol can carry. */
  predicate Carriable(p: seq<Byte>) {
    1 <= |p| <= 62 && QUESTION !in p && p[0] != PROMPT && p[0] != BANG
  }

  /** Memory holds the bytes from base on, NUL-terminated. */
  ghost predicate Holds(mem: seq<Byte>, base: int, bytes: seq<Byte>) {
    && (forall i {:trigger bytes[i]} :: 0 <= i < |bytes| ==> Peek(mem, base + i) == bytes[i])
    && Peek(mem, base + |bytes|) == 0
  }

  function Lead(acked: bool): nat {
    if acked then 1 else 0
  }

  /** The response after k bytes of payload. */
  function After(acked: bool, p: seq<Byte>, k: nat): Reply
    requires k <= |p| && k <= BUFFER_SIZE
  {
    BLANK.(buf := p[..k] + BLANK.buf[k..], length := k, flags := if acked then {Acked} else {})
  }

  function Recovered(acked: bool, p: seq<Byte>): (r: Reply)
    requires |p| <= BUFFER_SIZE
    ensures r.Valid()
  {
    After(acked, p, |p|).(flags := {GoodChecksum, CrLf, Processed} + if acked then {Acked} else {},
                          received := (Lead(acked) + |p| + 3) % 128)
  }

  // The bytes of p lie in memory from origin + Lead on, followed by the rest of the body.
  ghost predicate BodyAt(mem: seq<Byte>, base: int, acked: bool, p: seq<Byte>) {
    && Holds(mem, base + Lead(acked), Body(p))
    && (acked ==> Peek(mem, base) == ACK)
  }

  lemma {:induction false} SumsShift(mem: seq<Byte>, at: int, p: seq<Byte>, k: nat)
    requires k <= |p| && forall i {:trigger p[i]} :: 0 <= i < k ==> Peek(mem, at + i) == p[i]
    ensures SumFrom(mem, at, at + k) == SumFrom(p, 0, k)
    decreases k
  {
    if k > 0 {
      SumsShift(mem, at, p, k - 1);
      assert Peek(mem, at + (k - 1)) == p[k - 1];
    }
  }

  lemma BodyBytes(mem: seq<Byte>, base: int, acked: bool, p: seq<Byte>)
    requires BodyAt(mem, base, acked, p)
    ensures var at := base + Lead(acked);
            && (forall i {:trigger p[i]} :: 0 <= i < |p| ==> Peek(mem, at + i) == p[i])
            && Peek(mem, at + |p|) == Checksum(SumFrom(mem, at, at + |p|))
            && Peek(mem, at + |p| + 1) == CR && Peek(mem, at + |p| + 2) == LF && Peek(mem, at + |p| + 3) == 0
  {
    var at, body := base + Lead(acked), Body(p);
    forall i {:trigger p[i]} | 0 <= i < |p|
      ensures Peek(mem, at + i) == p[i]
    {
      assert body[i] == p[i];
    }
    SumsShift(mem, at, p, |p|);
    assert body[|p|] == Checksum(SumFrom(p, 0, |p|)) && body[|p| + 1] == CR && body[|p| + 2] == LF;
  }

  // One payload byte that is no control character where it stands.
  lemma PayloadStep(mem: seq<Byte>, base: int, acked: bool, p: seq<Byte>, k: nat)
    requires k < |p| && k < 63 && Peek(mem, base + Lead(acked) + k) == p[k] && 32 <= p[k] <= 126
    requires p[k] != QUESTION && (k == 0 ==> p[k] != PROMPT && p[k] != BANG)
    ensures var full: set<Flag> := if k + 1 == 63 then {Processed} else {};
            var next := After(acked, p, k + 1);
            Step(mem, base, base + Lead(acked) + k, After(acked, p, k)) ==
              (base + Lead(acked) + k + 1, next.(flags := next.flags + full))
  {
    var r, full: set<Flag> := After(acked, p, k), if k + 1 == 63 then {Processed} else {};
    assert r.buf[k := p[k]] == p[..k + 1] + BLANK.buf[k + 1..];
    assert r.flags - {InError} + full == r.flags + full;
  }

  /** Payload bytes that are no control characters are collected one by one. */
  lemma {:induction false} PayloadPrefix(mem: seq<Byte>, base: int, acked: bool, p: seq<Byte>, k: nat, j: nat, n: nat)
    requires k <= j <= |p| && j <= 62 && Printable(p[..j]) && QUESTION !in p[..j]
    requires j > 0 ==> p[0] != PROMPT && p[0] != BANG
    requires forall i {:trigger p[i]} :: 0 <= i < j ==> Peek(mem, base + Lead(acked) + i) == p[i]
    ensures Loop(mem, base, base + Lead(acked) + k, n + (j - k), After(acked, p, k)) ==
            Loop(mem, base, base + Lead(acked) + j, n, After(acked, p, j))
    decreases j - k
  {
    hide Step;
    if k < j {
      assert p[..j][k] == p[k] && p[..j][0] == p[0];
      PayloadStep(mem, base, acked, p, k);
      assert After(acked, p, k + 1).flags + {} == After(acked, p, k + 1).flags;
      PayloadPrefix(mem, base, acked, p, k + 1, j, n);
    }
  }

  lemma ChecksumStep(mem: seq<Byte>, base: int, pos: int, r: Reply)
    requires r.Open() && GoodChecksum !in r.flags && ChecksumStart(base, r) < pos
    requires Peek(mem, pos) == Checksum(SumFrom(mem, ChecksumStart(base, r), pos))
    ensures Step(mem, base, pos, r) == (pos + 1, r.(flags := r.flags + {GoodChecksum}))
  {
  }

  lemma LineEndSteps(mem: seq<Byte>, base: int, pos: int, r: Reply)
    requires r.Open() && Peek(mem, pos - 1) >= 128
    requires Peek(mem, pos) == CR && Peek(mem, pos + 1) == LF && Peek(mem, pos + 2) == 0
    ensures Step(mem, base, pos, r) == (pos + 1, r)
    ensures Step(mem, base, pos + 1, r) == (pos + 2, r.(flags := r.flags + {Processed, CrLf}))
  {
    assert r.flags + {Processed, CrLf} + {} == r.flags + {Processed, CrLf};
  }

  // Checksum, CR and LF close the reply, whatever the payload left behind.
  lemma CloseReply(mem: seq<Byte>, base: int, acked: bool, p: seq<Byte>, r: Reply)
    requires BodyAt(mem, base, acked, p) && p != [] && r.Open()
    requires r.received == 0 && r.ackLocation == 0 && GoodChecksum !in r.flags && Nacked !in r.flags
    requires Acked in r.flags <==> acked
    ensures Loop(mem, base, base + Lead(acked) + |p|, 3, r) ==
            (base + Lead(acked) + |p| + 3, r.(flags := r.flags + {GoodChecksum, Processed, CrLf}))
  {
    hide Step;
    BodyBytes(mem, base, acked, p);
    var at := base + Lead(acked) + |p|;
    var r1 := r.(flags := r.flags + {GoodChecksum});
    var r2 := r.(flags := r.flags + {GoodChecksum, Processed, CrLf});
    ChecksumStep(mem, base, at, r);
    LineEndSteps(mem, base, at + 1, r1);
    assert r1.flags + {Processed, CrLf} == r2.flags;
    assert Loop(mem, base, at + 3, 0, r2) == (at + 3, r2);
    assert Loop(mem, base, at + 2, 1, r1) == (at + 3, r2);
    assert Loop(mem, base, at + 1, 2, r1) == (at + 3, r2);
  }

  lemma BodyRecovered(mem: seq<Byte>, base: int, acked: bool, p: seq<Byte>)
    requires BodyAt(mem, base, acked, p) && Printable(p) && Carriable(p)
    ensures Loop(mem, base, base + Lead(acked), |p| + 3, After(acked, p, 0)) ==
            (base + Lead(acked) + |p| + 3,
             Recovered(acked, p).(received := 0))
  {
    hide Step;
    assert p[..|p|] == p;
    BodyBytes(mem, base, acked, p);
    PayloadPrefix(mem, base, acked, p, 0, |p|, 3);
    CloseReply(mem, base, acked, p, After(acked, p, |p|));
    assert After(acked, p, |p|).flags + {GoodChecksum, Processed, CrLf} == Recovered(acked, p).flags;
  }

  lemma FrameIsBody(mem: seq<Byte>, base: int, p: seq<Byte>)
    requires Holds(mem, base, Frame(p))
    ensures BodyAt(mem, base, true, p)
    ensures Step(mem, base, base, BLANK) == (base + 1, After(true, p, 0))
  {
    var frame, body := Frame(p), Body(p);
    assert Peek(mem, base + 0) == frame[0];
    forall i {:trigger body[i]} | 0 <= i < |body|
      ensures Peek(mem, base + 1 + i) == body[i]
    {
      assert Peek(mem, base + (i + 1)) == frame[i + 1];
    }
    assert p[..0] + BLANK.buf[0..] == BLANK.buf;
    assert BLANK.flags + {Acked} == {Acked};
  }

  /** The whole reply: everything is consumed and the response is exactly as sent. */
  lemma ReplyRoundTrip(mem: seq<Byte>, base: int, p: seq<Byte>)
    requires Holds(mem, base, Frame(p)) && Printable(p) && Carriable(p)
    ensures Process(mem, base, |Frame(p)|, BLANK) == (|Frame(p)|, Recovered(true, p))
    ensures Recovered(true, p).Payload() == p
  {
    hide Step;
    FrameIsBody(mem, base, p);
    BodyRecovered(mem, base, true, p);
    var r := Recovered(true, p);
    assert r.flags + {Processed} == r.flags;
  }

  // ---------- Exactly which payloads ----------

  ghost predicate CleanlyReceived(r: Reply, p: seq<Byte>) {
    && |r.buf| == BUFFER_SIZE && r.Payload() == p
    && {Acked, GoodChecksum, CrLf, Processed} <= r.flags
    && r.flags !! {Nacked, Event, Error}
  }

  // What any printable byte can do to a response.
  lemma PrintableStep(mem: seq<Byte>, base: int, pos: int, r: Reply)
    requires r.Open() && 32 <= Peek(mem, pos) <= 126
    ensures var (next, r') := Step(mem, base, pos, r);
            && r'.received == r.received && r'.ackLocation == r.ackLocation
            && (Event !in r.flags && Event !in r'.flags ==> next == pos + 1)
            && r'.length <= r.length + 1
            && (forall f :: f in {Acked, GoodChecksum, Nacked} ==> (f in r.flags <==> f in r'.flags))
  {
  }

  // Once a leading prompt was swallowed the payload comes out short.
  lemma {:induction false} ShortOrEvent(mem: seq<Byte>, base: int, p: seq<Byte>, k: nat, r: Reply)
    requires BodyAt(mem, base, true, p) && Printable(p) && p != [] && k <= |p| && r.Valid()
    requires r.received == 0 && r.ackLocation == 0 && Acked in r.flags && r.flags !! {GoodChecksum, Nacked, Event}
    requires r.length + (|p| - k) < |p|
    ensures var r' := Loop(mem, base, base + 1 + k, |p| - k + 3, r).1;
            r'.length < |p| || Event in r'.flags
    decreases |p| - k
  {
    hide Step;
    if Processed !in r.flags {
      if k == |p| {
        CloseReply(mem, base, true, p, r);
      } else {
        BodyBytes(mem, base, true, p);
        assert Peek(mem, base + 1 + k) == p[k];
        PrintableStep(mem, base, base + 1 + k, r);
        var (next, r') := Step(mem, base, base + 1 + k, r);
        LoopKeepsMarks(mem, base, next, |p| - k - 1 + 3, r');
        if Event !in r'.flags {
          ShortOrEvent(mem, base, p, k + 1, r');
        }
      }
    }
  }

  lemma QuestionStep(mem: seq<Byte>, base: int, pos: int, r: Reply)
    requires r.Open() && Peek(mem, pos) == QUESTION
    ensures Error in Step(mem, base, pos, r).1.flags
  {
  }

  // A prompt or an exclamation mark before any payload is not collected.
  lemma BadStartStep(mem: seq<Byte>, base: int, pos: int, r: Reply)
    requires r.Open() && r.length == 0 && (Peek(mem, pos) == PROMPT || Peek(mem, pos) == BANG)
    ensures Step(mem, base, pos, r) ==
            (pos + 1, if Peek(mem, pos) == BANG then r.(flags := r.flags + {Event}) else r)
  {
  }

  lemma BadStart(mem: seq<Byte>, base: int, p: seq<Byte>)
    requires BodyAt(mem, base, true, p) && Printable(p) && p != [] && (p[0] == PROMPT || p[0] == BANG)
    ensures var r := Loop(mem, base, base + 1, |p| + 3, After(true, p, 0)).1;
            r.length < |p| || Event in r.flags
  {
    hide Step;
    var r := After(true, p, 0);
    BodyBytes(mem, base, true, p);
    assert Peek(mem, base + 1 + 0) == p[0];
    BadStartStep(mem, base, base + 1, r);
    var (next, r') := Step(mem, base, base + 1, r);
    LoopKeepsMarks(mem, base, next, |p| - 1 + 3, r');
    if p[0] == PROMPT {
      ShortOrEvent(mem, base, p, 1, r');
    }
  }

  lemma QuestionSpoils(mem: seq<Byte>, base: int, p: seq<Byte>, j: nat)
    requires BodyAt(mem, base, true, p) && j < |p| && j <= 62 && p[j] == QUESTION
    ensures Error in Loop(mem, base, base + 1 + j, |p| - j + 3, After(true, p, j)).1.flags
  {
    hide Step;
    BodyBytes(mem, base, true, p);
    QuestionStep(mem, base, base + 1 + j, After(true, p, j));
    var (next, r) := Step(mem, base, base + 1 + j, After(true, p, j));
    LoopKeepsMarks(mem, base, next, |p| - j - 1 + 3, r);
  }

  lemma FullBufferSpoils(mem: seq<Byte>, base: int, p: seq<Byte>)
    requires BodyAt(mem, base, true, p) && |p| > 62 && Printable(p) && p[62] != QUESTION
    ensures CrLf !in Loop(mem, base, base + 1 + 62, |p| - 62 + 3, After(true, p, 62)).1.flags
  {
    hide Step;
    BodyBytes(mem, base, true, p);
    PayloadStep(mem, base, true, p, 62);
    var next := After(true, p, 63);
    var full := next.(flags := next.flags + {Processed});
    assert Loop(mem, base, base + 1 + 63, |p| - 63 + 3, full) == (base + 1 + 63, full);
  }

  // A question mark, or a payload that fills the buffer, spoils the reply.
  // The first question mark, or the end of the response's buffer.
  lemma FirstQuestion(p: seq<Byte>) returns (j: nat)
    requires |p| > 62 || QUESTION in p
    ensures j < |p| && j <= 62 && QUESTION !in p[..j] && (p[j] == QUESTION || j == 62)
  {
    j := 0;
    while j < |p| && j < 62 && p[j] != QUESTION
      invariant j <= |p| && j <= 62 && QUESTION !in p[..j]
    {
      assert p[..j + 1] == p[..j] + [p[j]];
      j := j + 1;
    }
    assert p[..|p|] == p;
  }

  lemma SpoiltReply(mem: seq<Byte>, base: int, p: seq<Byte>)
    requires BodyAt(mem, base, true, p) && Printable(p) && p != []
    requires p[0] != PROMPT && p[0] != BANG && (|p| > 62 || QUESTION in p)
    ensures var r := Loop(mem, base, base + 1, |p| + 3, After(true, p, 0)).1;
            Error in r.flags || CrLf !in r.flags
  {
    hide Step, Loop;
    BodyBytes(mem, base, true, p);
    var j := FirstQuestion(p);
    PayloadPrefix(mem, base, true, p, 0, j, |p| - j + 3);
    if p[j] == QUESTION {
      QuestionSpoils(mem, base, p, j);
    } else {
      FullBufferSpoils(mem, base, p);
    }
  }

  // The call as a whole: the loop after the ACK, then the reboot check and the byte count.
  lemma FrameEnds(mem: seq<Byte>, base: int, p: seq<Byte>)
    requires Step(mem, base, base, BLANK) == (base + 1, After(true, p, 0))
    ensures var r := Loop(mem, base, base + 1, |p| + 3, After(true, p, 0)).1;
            var r' := Process(mem, base, |Frame(p)|, BLANK).1;
            r'.length == r.length && r'.buf == r.buf && r.flags <= r'.flags <= r.flags + {Processed}
  {
    hide Step;
  }

  /** Among printable payloads, exactly the carriable ones are cleanly received. */
  lemma RecoveredIffCarriable(mem: seq<Byte>, base: int, p: seq<Byte>)
    requires Holds(mem, base, Frame(p)) && Printable(p)
    ensures CleanlyReceived(Process(mem, base, |Frame(p)|, BLANK).1, p) <==> Carriable(p)
  {
    hide Step, Process;
    if Carriable(p) {
      ReplyRoundTrip(mem, base, p);
    } else if p == [] {
      EmptyPayload(mem, base);
    } else {
      FrameIsBody(mem, base, p);
      FrameEnds(mem, base, p);
      if p[0] == PROMPT || p[0] == BANG {
        BadStart(mem, base, p);
      } else {
        SpoiltReply(mem, base, p);
      }
    }
  }

  // The checksum of nothing is taken for a character.
  lemma EmptyPayload(mem: seq<Byte>, base: int)
    requires Holds(mem, base, Frame([]))
    ensures Process(mem, base, 4, BLANK).1.length == 1
  {
    FrameIsBody(mem, base, []);
    BodyBytes(mem, base, true, []);
    var (p1, r1) := Step(mem, base, base, BLANK);
    var (p2, r2) := Step(mem, base, p1, r1);
    var (p3, r3) := Step(mem, base, p2, r2);
    var (p4, r4) := Step(mem, base, p3, r3);
    assert r4.length == 1;
    assert Loop(mem, base, p3, 1, r3).1 == r4;
    assert Loop(mem, base, p2, 2, r2).1 == r4;
    assert Loop(mem, base, p1, 3, r1).1 == r4;
  }

  // ---------- Recombination ----------

  /** What the reader queues: the buffer NUL-terminated and stamped with the transaction. */
  function Queued(r: Reply, txid: int): (r': Reply)
    requires r.Valid()
    ensures r'.Valid()
  {
    r.(buf := if r.length < BUFFER_SIZE then r.buf[r.length := 0] else r.buf, txid := txid)
  }

  lemma {:induction false} StringOfPayload(buf: seq<Byte>, n: nat)
    requires n < |buf| && buf[n] == 0 && forall i :: 0 <= i < n ==> buf[i] != 0
    ensures StringLength(buf) == n
    decreases n
  {
    if n > 0 {
      StringOfPayload(buf[1..], n - 1);
    }
  }

  lemma AckAlone(mem: seq<Byte>, base: int)
    requires Holds(mem, base, [ACK])
    ensures Process(mem, base, 1, BLANK) == (1, BLANK.(flags := {Acked}, received := 1))
  {
    assert Peek(mem, base + 0) == [ACK as Byte][0];
    assert BLANK.flags + {Acked} == {Acked};
    var r := BLANK.(flags := {Acked});
    assert Loop(mem, base, base + 1, 0, r) == (base + 1, r);
    assert r.length == 0;
  }

  lemma BodyAlone(mem: seq<Byte>, base: int, p: seq<Byte>)
    requires Holds(mem, base, Body(p)) && Printable(p) && Carriable(p)
    ensures Process(mem, base, |Body(p)|, BLANK) == (|Body(p)|, Recovered(false, p))
  {
    hide Step, Loop;
    var r := Recovered(false, p);
    assert p[..0] + BLANK.buf[0..] == BLANK.buf;
    BodyRecovered(mem, base, false, p);
    assert r.flags + {Processed} == r.flags;
  }

  lemma AppendedPayload(buf: seq<Byte>, text: seq<Byte>, p: seq<Byte>)
    requires |buf| == |text| == BUFFER_SIZE && |p| <= 62 && text[..|p|] == p && text[|p|] == 0
    requires forall i :: 0 <= i < |p| ==> p[i] != 0
    ensures StringLength(text) == |p| && |Appended(buf, 0, text)| == BUFFER_SIZE && Appended(buf, 0, text)[..|p|] == p
  {
    assert forall i :: 0 <= i < |p| ==> text[i] == p[i];
    StringOfPayload(text, |p|);
  }

  lemma JoinOfParts(a: Reply, b: Reply, p: seq<Byte>)
    requires a.Valid() && b.Valid() && a.txid == b.txid && |p| <= 62 && forall i :: 0 <= i < |p| ==> p[i] != 0
    requires a.length == 0 && a.flags == {Acked} && a.code == 0 && a.received == 1
    requires b.buf[..|p|] == p && b.buf[|p|] == 0 && b.flags == {GoodChecksum, CrLf, Processed}
    requires b.code == 0 && b.received == |p| + 3
    ensures var joined := Combine(a, b);
            && joined.length == |p| && |joined.buf| == BUFFER_SIZE && joined.buf[..|p|] == p
            && joined.flags == {Acked, GoodChecksum, CrLf}
            && joined.code == 0 && joined.received == |p| + 4 && joined.txid == a.txid
  {
    hide Appended, Kept, StringLength;
    AppendedPayload(a.buf, b.buf, p);
    assert a.flags + b.flags * {Acked, Nacked, Prompt, CrLf, Error, GoodChecksum} == {Acked, GoodChecksum, CrLf};
  }

  lemma AckQueued(txid: int)
    ensures var a := Queued(BLANK.(flags := {Acked}, received := 1), txid);
            a.Valid() && a.txid == txid && a.length == 0 && a.flags == {Acked} && a.code == 0 && a.received == 1
  {
  }

  lemma RestQueued(p: seq<Byte>, txid: int)
    requires Printable(p) && Carriable(p)
    ensures var b := Queued(Recovered(false, p), txid);
            && b.Valid() && b.txid == txid && b.buf[..|p|] == p && b.buf[|p|] == 0
            && b.flags == {GoodChecksum, CrLf, Processed} && b.code == 0 && b.received == |p| + 3
  {
  }

  lemma JoinedAfterAck(p: seq<Byte>, txid: int)
    requires Printable(p) && Carriable(p)
    ensures var first := BLANK.(flags := {Acked}, received := 1);
            var joined := Combine(Queued(first, txid), Queued(Recovered(false, p), txid));
            && joined.length == |p| && |joined.buf| == BUFFER_SIZE && joined.buf[..|p|] == p
            && joined.flags == {Acked, GoodChecksum, CrLf}
            && joined.code == 0 && joined.received == |p| + 4 && joined.txid == txid
  {
    hide Combine;
    AckQueued(txid);
    RestQueued(p, txid);
    hide Queued, Recovered, BLANK;
    JoinOfParts(Queued(BLANK.(flags := {Acked}, received := 1), txid), Queued(Recovered(false, p), txid), p);
  }

  // A clean acknowledged reply is OK on any link.
  lemma CleanIsOk(link: Link, r: Reply)
    requires r.length > 0 && {Acked, GoodChecksum, CrLf} <= r.flags && Error !in r.flags
    ensures Classify(link, r).status == ResponseOk
  {
    if link.checksumMode != 0 {
      AcknowledgedIsOkIffChecksum(link, r);
    }
  }

  lemma WholeQueued(p: seq<Byte>, txid: int)
    requires Printable(p) && Carriable(p)
    ensures var whole := Queued(Recovered(true, p), txid);
            && whole.length == |p| && |whole.buf| == BUFFER_SIZE && whole.buf[..|p|] == p
            && whole.flags == {Acked, GoodChecksum, CrLf, Processed}
            && whole.code == 0 && whole.received == |p| + 4 && whole.txid == txid
  {
  }

  /** Split after the ACK, into a response that is queued early and a second one with the
      payload, the combination equals the unsplit response in payload, flags that count,
      counters and every classification. */
  lemma SplitReplyRecombines(mem1: seq<Byte>, base1: int, mem2: seq<Byte>, base2: int, p: seq<Byte>, txid: int, link: Link)
    requires Holds(mem1, base1, [ACK]) && Holds(mem2, base2, Body(p)) && Printable(p) && Carriable(p)
    ensures var first := Process(mem1, base1, 1, BLANK).1;
            var second := Process(mem2, base2, |Body(p)|, BLANK).1;
            var whole := Queued(Recovered(true, p), txid);
            var joined := Combine(Queued(first, txid), Queued(second, txid));
            && first.flags == {Acked} && first.length == 0 && Processed in second.flags
            && joined.Payload() == whole.Payload() == p
            && joined.flags + {Processed} == whole.flags
            && joined.code == whole.code && joined.received == whole.received && joined.txid == whole.txid
            && Classify(link, joined).status == Classify(link, whole).status == ResponseOk
  {
    hide Combine, Process, Classify, Queued, Recovered;
    AckAlone(mem1, base1);
    BodyAlone(mem2, base2, p);
    JoinedAfterAck(p, txid);
    WholeQueued(p, txid);
    RecoveredIsProcessed(p);
    CleanIsOk(link, Queued(Recovered(true, p), txid));
    CleanIsOk(link, Combine(Queued(BLANK.(flags := {Acked}, received := 1), txid), Queued(Recovered(false, p), txid)));
  }

  lemma RecoveredIsProcessed(p: seq<Byte>)
    requires |p| <= BUFFER_SIZE
    ensures Processed in Recovered(false, p).flags
  {
  }
}
