/**
 Replies with an acknowledgement, a refusal or neither in front, with or without the
 code of an error, in checksum mode and out of it: what the parser of
 drivers/mdrive/serial.c makes of them, and what the classifier makes of that.
 */
module ReplyRefusals {
  import opened Wrappers
  import opened ReplyParser
  import opened ReplyChunks
  import opened ReplyRoundTrip
  import opened ReplyVerdicts
  import opened EventCuts

  datatype Mark = Plain | Ack | Nack

  /** What a unit sends: a mark, a payload, the digits of an error code behind a question mark, a checksum
      over these, and a line end. */
  datatype Wire = Wire(mark: Mark, payload: seq<Byte>, code: Option<seq<Byte>>, checked: bool) {
    function Front(): seq<Byte> {
      match mark case Plain => [] case Ack => [ACK] case Nack => [NACK]
    }

    function Text(): seq<Byte> {
      payload + if code.Some? then [QUESTION] + code.value else []
    }

    function Tail(): seq<Byte> {
      if checked then [Checksum(SumFrom(Text(), 0, |Text()|)), CR, LF] else [CR, LF]
    }

    function Bytes(): seq<Byte> {
      Front() + Text() + Tail()
    }

    /** The payload does not start like a prompt or an event, and ends like no prompt before a line end. */
    ghost predicate Sendable() {
      && Printable(payload) && |payload| <= 62 && QUESTION !in payload
      && (payload != [] ==> payload[0] != PROMPT && payload[0] != BANG)
      && (code.Some? ==> AllCodeDigits(code.value))
      && (if checked then Text() != []
          else code.None? && payload != [] ==> payload[|payload| - 1] != PROMPT)
    }

    function Code(): Byte {
      if code.Some? then CodeOf(code.value, 0) else 0
    }

    function Flags(): set<Flag> {
      (match mark case Plain => {} case Ack => {Acked} case Nack => {Nacked})
      + (if code.Some? then {InError, Error} else {})
      + (if checked then {GoodChecksum} else {})
      + {Processed, CrLf}
    }
  }

  // ---------- Payload ----------

  function Put(r: Reply, c: Byte): (r': Reply)
    requires r.Open() && r.length < 62
    ensures r'.Valid()
  {
    r.(buf := r.buf[r.length := c], length := r.length + 1)
  }

  lemma TextStep(mem: seq<Byte>, base: int, pos: int, r: Reply)
    requires r.Open() && r.length < 62 && r.flags !! {InError, Event}
    requires var c := Peek(mem, pos);
             32 <= c <= 126 && c != QUESTION && (r.length == 0 ==> c != PROMPT && c != BANG)
    ensures Step(mem, base, pos, r) == (pos + 1, Put(r, Peek(mem, pos)))
  {
    assert r.flags - {InError} + {} == r.flags;
  }

  function Texted(r: Reply, t: seq<Byte>): (r': Reply)
    requires r.Valid() && r.length + |t| <= 62
    ensures r'.Valid()
  {
    r.(buf := r.buf[..r.length] + t + r.buf[r.length + |t|..], length := r.length + |t|)
  }

  lemma {:induction false} TextLoop(mem: seq<Byte>, base: int, pos: int, t: seq<Byte>, n: nat, r: Reply)
    requires r.Open() && r.length + |t| <= 62 && r.flags !! {InError, Event}
    requires Printable(t) && QUESTION !in t && (r.length == 0 && t != [] ==> t[0] != PROMPT && t[0] != BANG)
    requires Lies(mem, pos, t)
    ensures Loop(mem, base, pos, |t| + n, r) == Loop(mem, base, pos + |t|, n, Texted(r, t))
    decreases |t|
  {
    hide Step;
    if t == [] {
      assert r.buf[..r.length] + [] + r.buf[r.length..] == r.buf;
    } else {
      assert Peek(mem, pos + 0) == t[0];
      TextStep(mem, base, pos, r);
      forall i {:trigger t[1..][i]} | 0 <= i < |t[1..]|
        ensures Peek(mem, pos + 1 + i) == t[1..][i]
      {
        assert Peek(mem, pos + (i + 1)) == t[i + 1];
      }
      TextLoop(mem, base, pos + 1, t[1..], n, Put(r, t[0]));
      TextedParts(r, t);
    }
  }

  lemma TextedParts(r: Reply, t: seq<Byte>)
    requires r.Open() && t != [] && r.length + |t| <= 62
    ensures Texted(Put(r, t[0]), t[1..]) == Texted(r, t)
  {
    var b := r.buf[r.length := t[0]];
    assert b[..r.length + 1] == r.buf[..r.length] + [t[0]];
    assert b[r.length + |t|..] == r.buf[r.length + |t|..];
    assert r.buf[..r.length] + [t[0]] + t[1..] == r.buf[..r.length] + t;
  }

  // ---------- The parts of what is sent ----------

  lemma WireBytes(mem: seq<Byte>, base: int, w: Wire)
    requires Holds(mem, base, w.Bytes())
    ensures Lies(mem, base, w.Front()) && Lies(mem, base + |w.Front()|, w.Text())
    ensures Lies(mem, base + |w.Front()| + |w.Text()|, w.Tail()) && Peek(mem, base + |w.Bytes()|) == 0
  {
    var front, text, tail, all := w.Front(), w.Text(), w.Tail(), w.Bytes();
    forall i {:trigger front[i]} | 0 <= i < |front|
      ensures Peek(mem, base + i) == front[i]
    {
      assert all[i] == front[i];
    }
    forall i {:trigger text[i]} | 0 <= i < |text|
      ensures Peek(mem, base + |front| + i) == text[i]
    {
      assert all[|front| + i] == text[i];
    }
    forall i {:trigger tail[i]} | 0 <= i < |tail|
      ensures Peek(mem, base + |front| + |text| + i) == tail[i]
    {
      assert all[|front| + |text| + i] == tail[i];
    }
  }

  function Marked(m: Mark): (r: Reply)
    ensures r.Open()
  {
    match m case Plain => BLANK case Ack => BLANK.(flags := {Acked}) case Nack => BLANK.(flags := {Nacked})
  }

  lemma FrontLoop(mem: seq<Byte>, base: int, w: Wire, n: nat)
    requires Lies(mem, base, w.Front())
    ensures Loop(mem, base, base, |w.Front()| + n, BLANK) == Loop(mem, base, base + |w.Front()|, n, Marked(w.mark))
  {
    if w.mark != Plain {
      assert Peek(mem, base + 0) == w.Front()[0];
      assert BLANK.flags + {Acked} == {Acked} && BLANK.flags + {Nacked} == {Nacked};
      assert Step(mem, base, base, BLANK) == (base + 1, Marked(w.mark));
    }
  }

  // The reply before the checksum.
  function Coded(w: Wire): (r: Reply)
    requires |w.payload| <= 62
    ensures r.Open() && r.length == |w.payload|
  {
    var r := Texted(Marked(w.mark), w.payload);
    if w.code.Some? then r.(code := CodeOf(w.code.value, 0), flags := r.flags + {InError, Error}) else r
  }

  lemma TextParts(mem: seq<Byte>, at: int, w: Wire)
    requires Lies(mem, at, w.Text())
    ensures Lies(mem, at, w.payload)
    ensures w.code.Some? ==>
              Peek(mem, at + |w.payload|) == QUESTION && Lies(mem, at + |w.payload| + 1, w.code.value)
  {
    var t, text := w.payload, w.Text();
    forall i {:trigger t[i]} | 0 <= i < |t|
      ensures Peek(mem, at + i) == t[i]
    {
      assert text[i] == t[i];
    }
    if w.code.Some? {
      var digits := w.code.value;
      assert Peek(mem, at + |t|) == text[|t|];
      forall i {:trigger digits[i]} | 0 <= i < |digits|
        ensures Peek(mem, at + |t| + 1 + i) == digits[i]
      {
        assert text[|t| + 1 + i] == digits[i];
      }
    }
  }

  lemma TextLength(w: Wire)
    ensures |w.Text()| == |w.payload| + if w.code.Some? then 1 + |w.code.value| else 0
  {
  }

  lemma SendableParts(w: Wire)
    requires w.Sendable()
    ensures Printable(w.payload) && |w.payload| <= 62 && QUESTION !in w.payload
    ensures w.payload != [] ==> w.payload[0] != PROMPT && w.payload[0] != BANG
    ensures w.code.Some? ==> AllCodeDigits(w.code.value)
  {
  }

  lemma MarkedParts(mark: Mark, t: seq<Byte>)
    requires |t| <= 62
    ensures Marked(mark).Open() && Marked(mark).length == 0 && Marked(mark).flags !! {InError, Event}
    ensures Texted(Marked(mark), t).Open() && Texted(Marked(mark), t).code == 0
  {
  }

  lemma CodedLoop(mem: seq<Byte>, base: int, w: Wire, n: nat)
    requires w.Sendable() && Lies(mem, base + |w.Front()|, w.Text())
    ensures Loop(mem, base, base + |w.Front()|, |w.Text()| + n, Marked(w.mark))
         == Loop(mem, base, base + |w.Front()| + |w.Text()|, n, Coded(w))
  {
    hide Step, Loop, Wire.Sendable, Printable, AllCodeDigits, Lies, CodeOf, Wire.Text, Wire.Front, Marked, Texted;
    SendableParts(w);
    TextLength(w);
    var at, t := base + |w.Front()|, w.payload;
    TextParts(mem, at, w);
    MarkedParts(w.mark, t);
    TextLoop(mem, base, at, t, |w.Text()| - |t| + n, Marked(w.mark));
    if w.code.Some? {
      CodeOfLoop(mem, base, at + |t|, w.code.value, n, Texted(Marked(w.mark), t));
    }
  }

  lemma CodeOfLoop(mem: seq<Byte>, base: int, pos: int, digits: seq<Byte>, n: nat, r: Reply)
    requires r.Open() && r.code == 0 && AllCodeDigits(digits)
    requires Peek(mem, pos) == QUESTION && Lies(mem, pos + 1, digits)
    ensures Loop(mem, base, pos, 1 + |digits| + n, r)
         == Loop(mem, base, pos + 1 + |digits|, n, r.(code := CodeOf(digits, 0), flags := r.flags + {InError, Error}))
  {
    hide Step;
    QuestionMarkStep(mem, base, pos, r);
    DigitsLoop(mem, base, pos + 1, digits, n, r.(flags := r.flags + {InError, Error}));
  }

  // The character that ends the digits of a code.
  lemma FirstBehindCode(mem: seq<Byte>, base: int, pos: int, r: Reply)
    requires r.Open() && r.length == 0 && r.flags == {InError, Error}
    requires var c := Peek(mem, pos); 32 <= c <= 126 && !(48 <= c <= 57) && c != QUESTION && c != PROMPT && c != BANG
    ensures Step(mem, base, pos, r) == (pos + 1, Put(r, Peek(mem, pos)).(flags := {Error}))
  {
    assert r.flags - {InError} + {} == {Error};
  }

  // The response to text behind a code.
  function Behind(digits: seq<Byte>, text: seq<Byte>): (r: Reply)
    requires 0 < |text| <= 62
    ensures r.Valid() && r.length == |text| && r.buf[..|text|] == text
  {
    BLANK.(code := CodeOf(digits, 0), buf := text + BLANK.buf[|text|..], length := |text|, flags := {Error})
  }

  ghost predicate EndsCode(text: seq<Byte>) {
    && Printable(text) && 0 < |text| <= 62 && QUESTION !in text && text != [DOLLAR]
    && !(48 <= text[0] <= 57) && text[0] != PROMPT && text[0] != BANG
  }

  lemma FirstOfText(mem: seq<Byte>, at: int, text: seq<Byte>)
    requires text != [] && Lies(mem, at, text)
    ensures Peek(mem, at) == text[0] && Lies(mem, at + 1, text[1..])
  {
    assert Peek(mem, at + 0) == text[0];
    forall i {:trigger text[1..][i]} | 0 <= i < |text[1..]|
      ensures Peek(mem, at + 1 + i) == text[1..][i]
    {
      assert Peek(mem, at + (i + 1)) == text[i + 1];
    }
  }

  // The response to a code and the first character behind it.
  function OneBehind(digits: seq<Byte>, c: Byte): (r: Reply)
    ensures r.Open() && r.length == 1 && r.flags == {Error}
  {
    Put(BLANK.(code := CodeOf(digits, 0), flags := {InError, Error}), c).(flags := {Error})
  }

  lemma BehindIs(digits: seq<Byte>, text: seq<Byte>)
    requires 0 < |text| <= 62
    ensures Texted(OneBehind(digits, text[0]), text[1..]) == Behind(digits, text)
  {
    hide CodeOf;
    assert Texted(OneBehind(digits, text[0]), text[1..]).buf == text + BLANK.buf[|text|..];
  }

  lemma TextBehindCode(mem: seq<Byte>, base: int, at: int, digits: seq<Byte>, text: seq<Byte>)
    requires EndsCode(text) && Lies(mem, at, text)
    ensures Loop(mem, base, at, |text|, BLANK.(code := CodeOf(digits, 0), flags := {InError, Error}))
         == (at + |text|, Behind(digits, text))
  {
    FirstOfText(mem, at, text);
    BehindIs(digits, text);
    FirstBehindCode(mem, base, at, BLANK.(code := CodeOf(digits, 0), flags := {InError, Error}));
    hide Step, Lies, Behind, Texted, CodeOf;
    TextLoop(mem, base, at + 1, text[1..], 0, OneBehind(digits, text[0]));
  }

  /** The digits of a code end at the first character that is none: from there on digits are payload. */
  lemma CodeEndsAtText(mem: seq<Byte>, base: int, digits: seq<Byte>, text: seq<Byte>)
    requires AllCodeDigits(digits) && EndsCode(text)
    requires Lies(mem, base, [QUESTION] + digits + text)
    ensures
      var n := 1 + |digits| + |text|;
      var (consumed, r) := Process(mem, base, n, BLANK);
      consumed == n && r.code == CodeOf(digits, 0) && r.Payload() == text && r.flags == {Error}
  {
    assert 0 < |text| <= 62;
    hide Process, Lies, EndsCode, AllCodeDigits, CodeOf, BLANK, Loop;
    CodeProcessed(mem, base, digits, text);
  }

  lemma CodeProcessed(mem: seq<Byte>, base: int, digits: seq<Byte>, text: seq<Byte>)
    requires AllCodeDigits(digits) && EndsCode(text)
    requires Lies(mem, base, [QUESTION] + digits + text)
    ensures var n := 1 + |digits| + |text|;
            Process(mem, base, n, BLANK) == (n, Behind(digits, text).(received := n % 128))
  {
    var n := 1 + |digits| + |text|;
    CodeLoop(mem, base, digits, text);
    BehindParts(digits, text);
    hide *;
    OpenLoopIsProcess(mem, base, n, Behind(digits, text));
  }

  lemma BehindParts(digits: seq<Byte>, text: seq<Byte>)
    requires EndsCode(text)
    ensures var r := Behind(digits, text);
            r.Valid() && r.received == 0 && (r.length == 1 ==> r.buf[0] != DOLLAR)
  {
    assert |text| == 1 && text[0] == DOLLAR ==> text == [DOLLAR];
  }

  lemma CodeLoop(mem: seq<Byte>, base: int, digits: seq<Byte>, text: seq<Byte>)
    requires AllCodeDigits(digits) && EndsCode(text)
    requires Lies(mem, base, [QUESTION] + digits + text)
    ensures var n := 1 + |digits| + |text|; Loop(mem, base, base, n, BLANK) == (base + n, Behind(digits, text))
  {
    assert 0 < |text| <= 62;
    hide Step, Loop, AllCodeDigits, CodeOf, Lies, EndsCode;
    CodeAndText(mem, base, digits, text);
    assert BLANK.flags + {InError, Error} == {InError, Error};
    CodeOfLoop(mem, base, base, digits, |text|, BLANK);
    TextBehindCode(mem, base, base + 1 + |digits|, digits, text);
  }

  lemma CodeAndText(mem: seq<Byte>, base: int, digits: seq<Byte>, text: seq<Byte>)
    requires Lies(mem, base, [QUESTION] + digits + text)
    ensures Peek(mem, base) == QUESTION && Lies(mem, base + 1, digits) && Lies(mem, base + 1 + |digits|, text)
  {
    var all := [QUESTION] + digits + text;
    assert Peek(mem, base + 0) == all[0];
    forall i {:trigger digits[i]} | 0 <= i < |digits|
      ensures Peek(mem, base + 1 + i) == digits[i]
    {
      assert all[1 + i] == digits[i];
    }
    forall i {:trigger text[i]} | 0 <= i < |text|
      ensures Peek(mem, base + 1 + |digits| + i) == text[i]
    {
      assert all[1 + |digits| + i] == text[i];
    }
  }

  // A call, from a loop that leaves the response open.
  lemma OpenLoopIsProcess(mem: seq<Byte>, base: int, n: nat, r: Reply)
    requires n > 0 && r.Valid() && r.received == 0 && (r.length == 1 ==> r.buf[0] != DOLLAR)
    requires Loop(mem, base, base, n, BLANK) == (base + n, r)
    ensures Process(mem, base, n, BLANK) == (n, r.(received := n % 128))
  {
    hide Loop;
  }

  // ---------- The line end ----------

  // A carriage return that strips no prompt, and a line feed with nothing behind it.
  lemma PlainLineEnd(mem: seq<Byte>, base: int, pos: int, r: Reply)
    requires r.Open() && (Peek(mem, pos - 1) == PROMPT ==> r.length == 0)
    requires Peek(mem, pos) == CR && Peek(mem, pos + 1) == LF && Peek(mem, pos + 2) == 0
    ensures Loop(mem, base, pos, 2, r) == (pos + 2, r.(flags := r.flags + {Processed, CrLf}))
  {
    var done := r.(flags := r.flags + {Processed, CrLf});
    assert r.flags + {Processed, CrLf} + {} == done.flags;
    assert Step(mem, base, pos, r) == (pos + 1, r);
    assert Step(mem, base, pos + 1, r) == (pos + 2, done);
    hide Step;
    assert Loop(mem, base, pos + 2, 0, done) == (pos + 2, done);
    assert Loop(mem, base, pos + 1, 1, r) == (pos + 2, done);
  }

  lemma CheckedLineEnd(mem: seq<Byte>, base: int, pos: int, r: Reply)
    requires r.Open() && GoodChecksum !in r.flags && ChecksumStart(base, r) < pos
    requires Peek(mem, pos) == Checksum(SumFrom(mem, ChecksumStart(base, r), pos))
    requires Peek(mem, pos + 1) == CR && Peek(mem, pos + 2) == LF && Peek(mem, pos + 3) == 0
    ensures Loop(mem, base, pos, 3, r) == (pos + 3, r.(flags := r.flags + {GoodChecksum} + {Processed, CrLf}))
  {
    hide Step, ChecksumStart;
    ChecksumStep(mem, base, pos, r);
    var checked := r.(flags := r.flags + {GoodChecksum});
    PlainLineEnd(mem, base, pos + 1, checked);
  }

  lemma TailLoop(mem: seq<Byte>, base: int, w: Wire)
    requires w.Sendable() && Holds(mem, base, w.Bytes())
    ensures
      var at := base + |w.Front()| + |w.Text()|;
      Loop(mem, base, at, |w.Tail()|, Coded(w)) == (base + |w.Bytes()|, Coded(w).(flags := w.Flags()))
  {
    hide Loop, SumFrom, Checksum;
    WireBytes(mem, base, w);
    var start := base + |w.Front()|;
    var at, tail := start + |w.Text()|, w.Tail();
    CodedFlags(w, base);
    assert Peek(mem, at + 0) == tail[0] && Peek(mem, at + 1) == tail[1];
    if w.checked {
      SumsShift(mem, start, w.Text(), |w.Text()|);
      assert Peek(mem, at + 2) == tail[2];
      CheckedLineEnd(mem, base, at, Coded(w));
    } else {
      TextEnds(mem, base, w);
      PlainLineEnd(mem, base, at, Coded(w));
    }
  }

  lemma CodedFlags(w: Wire, base: int)
    requires |w.payload| <= 62
    ensures
      var r := Coded(w);
      && ChecksumStart(base, r) == base + |w.Front()| && GoodChecksum !in r.flags && Processed !in r.flags
      && w.Flags() == (if w.checked then r.flags + {GoodChecksum} else r.flags) + {Processed, CrLf}
      && r.length == |w.payload|
  {
    var marks: set<Flag> := match w.mark case Plain => {} case Ack => {Acked} case Nack => {Nacked};
    assert Marked(w.mark).flags == marks;
    assert marks + {} == marks;
  }

  // What stands before the line end of an unchecked reply.
  lemma TextEnds(mem: seq<Byte>, base: int, w: Wire)
    requires w.Sendable() && !w.checked && Lies(mem, base + |w.Front()|, w.Text()) && Lies(mem, base, w.Front())
    ensures Peek(mem, base + |w.Front()| + |w.Text()| - 1) == PROMPT ==> Coded(w).length == 0
  {
    var text, at := w.Text(), base + |w.Front()|;
    if text != [] {
      var last := |text| - 1;
      assert Peek(mem, at + last) == text[last];
      if w.code.Some? && w.code.value != [] {
        assert text[last] == w.code.value[|w.code.value| - 1];
      }
    }
  }

  // ---------- The whole reply ----------

  /** What the parser makes of it: the payload, the code and the flags of what was sent, and nothing else. */
  function Received(w: Wire): (r: Reply)
    requires |w.payload| <= 62
    ensures r.Valid()
  {
    BLANK.(buf := w.payload + BLANK.buf[|w.payload|..], length := |w.payload|, code := w.Code(), flags := w.Flags(),
           received := |w.Bytes()| % 128)
  }

  /** For every mark, payload and error code, with a checksum or without: all is consumed, and the response is
      exactly as sent. */
  lemma WireIsReceived(mem: seq<Byte>, base: int, w: Wire)
    requires w.Sendable() && Holds(mem, base, w.Bytes())
    ensures Process(mem, base, |w.Bytes()|, BLANK) == (|w.Bytes()|, Received(w))
    ensures Received(w).Payload() == w.payload
  {
    hide Loop, Checksum, SumFrom;
    WireBytes(mem, base, w);
    FrontLoop(mem, base, w, |w.Text()| + |w.Tail()|);
    CodedLoop(mem, base, w, |w.Tail()|);
    TailLoop(mem, base, w);
    CodedFields(w);
    assert |w.Bytes()| == |w.Front()| + (|w.Text()| + |w.Tail()|) && |w.Bytes()| >= 2;
    assert w.Flags() + {Processed} == w.Flags();
  }

  lemma CodedFields(w: Wire)
    requires |w.payload| <= 62
    ensures Coded(w).(flags := w.Flags(), received := |w.Bytes()| % 128) == Received(w) && Coded(w).received == 0
  {
    assert Marked(w.mark).buf[..0] + w.payload + BLANK.buf[|w.payload|..] == w.payload + BLANK.buf[|w.payload|..];
  }

  /** A refusal that is a single byte. */
  lemma RefusalAlone(mem: seq<Byte>, base: int)
    requires Holds(mem, base, [NACK])
    ensures Process(mem, base, 1, BLANK) == (1, BLANK.(flags := {Nacked}, received := 1))
  {
    assert Peek(mem, base + 0) == [NACK as Byte][0];
    assert BLANK.flags + {Nacked} == {Nacked};
    var r := BLANK.(flags := {Nacked});
    assert Step(mem, base, base, BLANK) == (base + 1, r);
    hide Step;
    assert Loop(mem, base, base + 1, 0, r) == (base + 1, r);
    assert r.length == 0;
  }

  // ---------- What the caller is told ----------

  /** The status that the code of an error stands for. */
  function StatusOfCode(code: Byte, refused: bool): Status {
    if code == 63 || code == 24 then ResponseRetry
    else if code == 86 then ResponseOk
    else if code != 0 then ResponseError
    else if refused then ResponseNack
    else ResponseUnknown
  }

  /** A refused command in checksum mode, whether refused by a single byte or with a payload and a checksum,
      is reported by the error the unit gives: it passes for carried out for a stall only. */
  lemma RefusalIsReported(mem: seq<Byte>, base: int, link: Link)
    requires link.checksumMode != 0 && Holds(mem, base, [NACK])
    ensures
      var code := if link.txnest == 1 && !link.ignoreErrors then link.fetchedError else 0;
      Classify(link, Process(mem, base, 1, BLANK).1).status == StatusOfCode(code, true)
  {
    RefusalAlone(mem, base);
    StatusIff(link, BLANK.(flags := {Nacked}, received := 1));
  }

  lemma RefusalWithPayloadIsReported(mem: seq<Byte>, base: int, link: Link, w: Wire)
    requires link.checksumMode != 0 && w.mark == Nack && w.checked && w.payload != []
    requires w.Sendable() && Holds(mem, base, w.Bytes())
    ensures Classify(link, Process(mem, base, |w.Bytes()|, BLANK).1).status == StatusOfCode(ErrorInForce(link, Received(w)), true)
    ensures w.code.Some? && w.Code() != 0 ==> ErrorInForce(link, Received(w)) == w.Code()
  {
    hide Process;
    WireIsReceived(mem, base, w);
    StatusIff(link, Received(w));
  }

  /** Out of checksum mode a reply with an error code is reported by that code, and one without an error by
      its line end as carried out. */
  lemma CodeIsReported(mem: seq<Byte>, base: int, link: Link, w: Wire)
    requires link.checksumMode == 0 && w.Sendable() && Holds(mem, base, w.Bytes())
    ensures
      var status := Classify(link, Process(mem, base, |w.Bytes()|, BLANK).1).status;
      if w.code.None? then status == ResponseOk
      else status == StatusOfCode(ErrorInForce(link, Received(w)), w.mark == Nack)
    ensures w.code.Some? && w.Code() != 0 ==> ErrorInForce(link, Received(w)) == w.Code()
  {
    hide Process;
    WireIsReceived(mem, base, w);
    StatusIff(link, Received(w));
  }

  // ---------- A prompt before the line end ----------

  /** A prompt right before the line end is noted and taken off the payload; without a payload it is not even
      noted. */
  lemma PromptIsStripped(mem: seq<Byte>, base: int, w: Wire)
    requires w.Sendable() && w.code.None? && !w.checked && |w.payload| < 62
    requires Holds(mem, base, w.Front() + w.payload + [PROMPT, CR, LF])
    ensures
      var n := |w.Front()| + |w.payload| + 3;
      var (consumed, r) := Process(mem, base, n, BLANK);
      && consumed == n && r.Valid() && r.Payload() == w.payload && r.length == |w.payload|
      && r.flags == w.Flags() + (if w.payload == [] then {} else {Prompt})
  {
    PromptProcessed(mem, base, w);
    PromptedFields(w);
    hide Process, Prompted, Texted, Marked, Holds, Printable;
  }

  lemma PromptProcessed(mem: seq<Byte>, base: int, w: Wire)
    requires w.Sendable() && w.code.None? && !w.checked && |w.payload| < 62
    requires Holds(mem, base, w.Front() + w.payload + [PROMPT, CR, LF])
    ensures
      var n := |w.Front()| + |w.payload| + 3;
      Process(mem, base, n, BLANK) == (n, Prompted(Texted(Marked(w.mark), w.payload)).(received := n % 128))
  {
    hide *;
    MarkedText(w.mark, w.payload);
    PromptBytes(mem, base, w.Front(), w.payload);
    PromptLoop(mem, base, w);
    PromptedFields(w);
    LoopIsProcess(mem, base, |w.Front()| + |w.payload| + 3, Prompted(Texted(Marked(w.mark), w.payload)));
  }

  lemma PromptedFields(w: Wire)
    requires |w.payload| < 62 && w.code.None? && !w.checked
    ensures
      var r := Prompted(Texted(Marked(w.mark), w.payload));
      && r.Valid() && Processed in r.flags && r.length == |w.payload| && r.buf[..|w.payload|] == w.payload
      && r.received == 0 && r.flags == w.Flags() + (if w.payload == [] then {} else {Prompt})
  {
    MarkedText(w.mark, w.payload);
    PromptedFlags(w, Texted(Marked(w.mark), w.payload));
  }

  lemma PromptedFlags(w: Wire, r: Reply)
    requires r.Open() && r.length < 62 && w.code.None? && !w.checked
    requires r.flags == (match w.mark case Plain => {} case Ack => {Acked} case Nack => {Nacked})
    ensures Prompted(r).flags == w.Flags() + (if r.length == 0 then {} else {Prompt})
  {
  }

  // A call, from a loop that ends with a processed response.
  lemma LoopIsProcess(mem: seq<Byte>, base: int, n: nat, r: Reply)
    requires n > 0 && r.Valid() && Processed in r.flags && r.received == 0 && Loop(mem, base, base, n, BLANK) == (base + n, r)
    ensures Process(mem, base, n, BLANK) == (n, r.(received := n % 128))
  {
    hide Loop;
    assert r.flags + {Processed} == r.flags;
  }

  // The response to a text that a prompt and the line end follow.
  function Prompted(r: Reply): (r': Reply)
    requires r.Open() && r.length < 62
    ensures r'.Valid() && r'.length == r.length && r'.buf[..r.length] == r.buf[..r.length]
  {
    if r.length == 0 then r.(flags := r.flags + {Processed, CrLf})
    else r.(buf := r.buf[r.length := PROMPT], flags := r.flags + {Prompt} + {Processed, CrLf})
  }

  lemma PromptLoop(mem: seq<Byte>, base: int, w: Wire)
    requires w.Sendable() && |w.payload| < 62
    requires Laid(mem, base, w.Front(), w.payload)
    ensures Loop(mem, base, base, |w.Front()| + |w.payload| + 3, BLANK)
         == (base + |w.Front()| + |w.payload| + 3, Prompted(Texted(Marked(w.mark), w.payload)))
  {
    hide Loop, Prompted, Lies;
    var t, at := w.payload, base + |w.Front()|;
    FrontLoop(mem, base, w, |t| + 3);
    PayloadLoop(mem, base, w, at, 3);
    MarkedText(w.mark, t);
    hide Texted, Marked, BLANK;
    PromptEnd(mem, base, at + |t|, Texted(Marked(w.mark), t));
  }

  lemma PayloadLoop(mem: seq<Byte>, base: int, w: Wire, at: int, n: nat)
    requires w.Sendable() && Lies(mem, at, w.payload)
    ensures Loop(mem, base, at, |w.payload| + n, Marked(w.mark))
         == Loop(mem, base, at + |w.payload|, n, Texted(Marked(w.mark), w.payload))
  {
    hide Loop, Lies;
    TextLoop(mem, base, at, w.payload, n, Marked(w.mark));
  }

  lemma PromptEnd(mem: seq<Byte>, base: int, pos: int, r: Reply)
    requires r.Open() && r.length < 62 && r.flags !! {InError, Event} && Peek(mem, pos) == PROMPT
    requires Peek(mem, pos + 1) == CR && Peek(mem, pos + 2) == LF && Peek(mem, pos + 3) == 0
    ensures Loop(mem, base, pos, 3, r) == (pos + 3, Prompted(r))
  {
    hide Loop, Step;
    PromptStep(mem, base, pos, r);
    SplitFirst(mem, base, pos, 2, r);
    LineEndAfterPrompt(mem, base, pos + 1, if r.length == 0 then r else Put(r, PROMPT));
  }

  // A text in memory, and a prompt and the line end behind it.
  ghost predicate Laid(mem: seq<Byte>, base: int, front: seq<Byte>, t: seq<Byte>) {
    && Lies(mem, base, front) && Lies(mem, base + |front|, t)
    && var pos := base + |front| + |t|;
       Peek(mem, pos) == PROMPT && Peek(mem, pos + 1) == CR && Peek(mem, pos + 2) == LF && Peek(mem, pos + 3) == 0
  }

  lemma PromptBytes(mem: seq<Byte>, base: int, front: seq<Byte>, t: seq<Byte>)
    requires Holds(mem, base, front + t + [PROMPT, CR, LF])
    ensures Laid(mem, base, front, t)
  {
    var all := front + t + [PROMPT, CR, LF];
    forall i {:trigger front[i]} | 0 <= i < |front|
      ensures Peek(mem, base + i) == front[i]
    {
      assert all[i] == front[i];
    }
    forall i {:trigger t[i]} | 0 <= i < |t|
      ensures Peek(mem, base + |front| + i) == t[i]
    {
      assert all[|front| + i] == t[i];
    }
    var n := |front| + |t|;
    assert all[n] == PROMPT && all[n + 1] == CR && all[n + 2] == LF;
    assert Peek(mem, base + n) == all[n] && Peek(mem, base + (n + 1)) == all[n + 1];
    assert Peek(mem, base + (n + 2)) == all[n + 2];
  }

  lemma MarkedText(mark: Mark, t: seq<Byte>)
    requires |t| < 62
    ensures Marked(mark).length == 0 && Marked(mark).Open()
    ensures
      var r := Texted(Marked(mark), t);
      && r.Open() && r.length == |t| && r.buf[..|t|] == t && r.flags !! {InError, Event}
      && r.flags == (match mark case Plain => {} case Ack => {Acked} case Nack => {Nacked})
  {
  }

  lemma PromptStep(mem: seq<Byte>, base: int, pos: int, r: Reply)
    requires r.Open() && r.length < 62 && r.flags !! {InError, Event} && Peek(mem, pos) == PROMPT
    ensures Step(mem, base, pos, r) == (pos + 1, if r.length == 0 then r else Put(r, PROMPT))
  {
    assert r.flags - {InError} + {} == r.flags;
  }

  lemma LineEndAfterPrompt(mem: seq<Byte>, base: int, pos: int, r: Reply)
    requires r.Open() && Peek(mem, pos - 1) == PROMPT
    requires Peek(mem, pos) == CR && Peek(mem, pos + 1) == LF && Peek(mem, pos + 2) == 0
    ensures
      var stripped := if r.length == 0 then r else r.(length := r.length - 1, flags := r.flags + {Prompt});
      Loop(mem, base, pos, 2, r) == (pos + 2, stripped.(flags := stripped.flags + {Processed, CrLf}))
  {
    var stripped := if r.length == 0 then r else r.(length := r.length - 1, flags := r.flags + {Prompt});
    var done := stripped.(flags := stripped.flags + {Processed, CrLf});
    assert stripped.flags + {Processed, CrLf} + {} == done.flags;
    assert Step(mem, base, pos, r) == (pos + 1, stripped);
    assert Step(mem, base, pos + 1, stripped) == (pos + 2, done);
    hide Step;
    assert Loop(mem, base, pos + 2, 0, done) == (pos + 2, done);
    assert Loop(mem, base, pos + 1, 1, stripped) == (pos + 2, done);
  }

  // ---------- Read in two ----------

  // The response to the mark alone.
  function MarkAlone(mark: Mark): (r: Reply)
    ensures r.Valid()
  {
    Marked(mark).(received := 1)
  }

  /** A reply whose mark was read alone: combined, the two responses have its payload, its flags that count,
      its code and its verdict on every link. */
  lemma SplitWireRecombines(w: Wire, txid: int, link: Link)
    requires w.Sendable() && w.mark != Plain && |w.Bytes()| < 128
    ensures
      var whole := Queued(Received(w), txid);
      var joined := Combine(Queued(MarkAlone(w.mark), txid), Queued(Received(w.(mark := Plain)), txid));
      && joined.length == whole.length && joined.Payload() == whole.Payload() == w.payload
      && joined.flags == w.Flags() - {Processed, InError}
      && joined.code == whole.code == w.Code() && joined.received == whole.received && joined.txid == txid
      && Classify(link, joined).status == Classify(link, whole).status
  {
    var a, b := Queued(MarkAlone(w.mark), txid), Queued(Received(w.(mark := Plain)), txid);
    var whole := Queued(Received(w), txid);
    PlainParts(w, txid);
    assert forall i :: 0 <= i < |w.payload| ==> w.payload[i] != 0;
    AppendedPayload(a.buf, b.buf, w.payload);
    JoinedParts(w, a, b);
    var joined := Combine(a, b);
    hide Combine, Queued, Received, Appended;
    SameVerdict(link, joined, whole);
  }

  lemma PlainParts(w: Wire, txid: int)
    requires w.Sendable() && w.mark != Plain && |w.Bytes()| < 128
    ensures
      var a, b := Queued(MarkAlone(w.mark), txid), Queued(Received(w.(mark := Plain)), txid);
      && a.txid == b.txid == txid && a.length == 0 && a.code == 0 && a.received == 1
      && a.flags == (if w.mark == Ack then {Acked} else {Nacked})
      && b.buf[..|w.payload|] == w.payload && b.buf[|w.payload|] == 0 && b.length == |w.payload|
      && b.flags == w.Flags() - {Acked, Nacked} && b.code == w.Code() && b.received + 1 == |w.Bytes()|
    ensures
      var whole := Queued(Received(w), txid);
      && whole.flags == w.Flags() && whole.code == w.Code() && whole.length == |w.payload| && whole.txid == txid
      && whole.received == |w.Bytes()| && |whole.buf| == BUFFER_SIZE && whole.buf[..|w.payload|] == w.payload
  {
    var plain := w.(mark := Plain);
    PlainWire(w);
    QueuedMark(w.mark, txid);
    hide Received, MarkAlone, Queued;
    QueuedWire(w, txid);
    QueuedWire(plain, txid);
  }

  lemma QueuedMark(mark: Mark, txid: int)
    requires mark != Plain
    ensures
      var a := Queued(MarkAlone(mark), txid);
      && a.Valid() && a.txid == txid && a.length == 0 && a.code == 0 && a.received == 1
      && a.flags == (if mark == Ack then {Acked} else {Nacked})
  {
  }

  lemma QueuedWire(w: Wire, txid: int)
    requires |w.payload| <= 62
    ensures
      var q := Queued(Received(w), txid);
      && q.Valid() && q.flags == w.Flags() && q.code == w.Code() && q.length == |w.payload| && q.txid == txid
      && q.received == |w.Bytes()| % 128 && q.buf[..|w.payload|] == w.payload && q.buf[|w.payload|] == 0
  {
    hide Checksum, SumFrom;
  }

  lemma PlainWire(w: Wire)
    requires w.mark != Plain
    ensures
      var plain := w.(mark := Plain);
      && plain.Flags() == w.Flags() - {Acked, Nacked} && plain.Code() == w.Code()
      && |plain.Bytes()| + 1 == |w.Bytes()|
  {
    hide Checksum, SumFrom;
  }

  lemma JoinedParts(w: Wire, a: Reply, b: Reply)
    requires a.Valid() && b.Valid() && a.txid == b.txid && a.length == 0 && a.code == 0 && a.received == 1
    requires |w.payload| <= 62 && w.mark != Plain && |w.Bytes()| < 128
    requires a.flags == (if w.mark == Ack then {Acked} else {Nacked})
    requires b.flags == w.Flags() - {Acked, Nacked} && b.code == w.Code() && b.received + 1 == |w.Bytes()|
    requires StringLength(b.buf) == |w.payload| && |Appended(a.buf, 0, b.buf)| == BUFFER_SIZE
    requires Appended(a.buf, 0, b.buf)[..|w.payload|] == w.payload
    ensures
      var joined := Combine(a, b);
      && joined.length == |w.payload| && |joined.buf| == BUFFER_SIZE && joined.buf[..|w.payload|] == w.payload
      && joined.flags == w.Flags() - {Processed, InError} && joined.code == w.Code()
      && joined.received == |w.Bytes()| && joined.txid == a.txid
  {
    hide Appended, StringLength;
  }

  // The verdict looks at neither of the flags that a combination drops.
  lemma SameVerdict(link: Link, a: Reply, b: Reply)
    requires a.length == b.length && a.code == b.code && a.flags == b.flags - {Processed, InError}
    ensures Classify(link, a).status == Classify(link, b).status
  {
    StatusIff(link, a);
    StatusIff(link, b);
    hide Classify;
  }
}
