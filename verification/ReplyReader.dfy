/**
 The reader thread's buffer (mdrive_async_read in drivers/mdrive/serial.c): bytes are
 stored at the load pointer and parsed from the process pointer; a response is closed
 when it is complete or has only been acknowledged so far, and is then queued, reported
 as an event, or, if more bytes were read behind it, freed.
 */
module ReplyReader {
  import opened ReplyParser
  import opened ReplyChunks
  import opened ReplyRoundTrip

  const SIZE := 512

  datatype Reader = Reader(
    memory: seq<Byte>,
    process: nat,
    load: nat,
    response: Reply,
    txid: int,
    queue: seq<Reply>,
    events: seq<(Byte, Byte)>)          // address and code of each event report
  {
    predicate Valid() {
      |memory| == SIZE && load <= SIZE && response.Open()
    }

    predicate Idle() {
      Valid() && process == load && response == BLANK
    }
  }

  // A response that is closed now: the rest of an acknowledged reply may still roll in.
  predicate Complete(r: Reply) {
    (r.length == 0 && (Acked in r.flags || Nacked in r.flags)) || Processed in r.flags
  }

  // What becomes of a closed response.
  function Closed(s: Reader): (t: Reader)
    requires s.response.Valid()
  {
    if Event in s.response.flags then
      s.(response := BLANK, events := s.events + [(s.response.address, s.response.code)])
    else if s.process == s.load then
      s.(process := 0, load := 0, response := BLANK, queue := s.queue + [Queued(s.response, s.txid)])
    else
      s.(response := BLANK)
  }

  // One call of the parser on what is loaded.
  function Parsed(s: Reader): (t: Reader)
    requires s.Valid() && s.process < s.load
    ensures t.response.Valid() && t == s.(process := t.process, response := t.response) && t.process > s.process
  {
    var (consumed, r) := Process(s.memory, s.process, s.load - s.process, s.response);
    ProcessAdvances(s.memory, s.process, s.load - s.process, s.response);
    s.(process := s.process + consumed, response := r)
  }

  lemma ProcessAdvances(mem: seq<Byte>, base: int, n: nat, r: Reply)
    requires r.Open() && n > 0
    ensures Process(mem, base, n, r).0 > 0
  {
    hide Step;
  }

  /** Parsing until the process pointer has caught up with the load pointer. */
  function Drain(s: Reader): (t: Reader)
    requires s.Valid()
    ensures t.Valid() && t.load <= s.load && t.txid == s.txid && t.memory == s.memory
    ensures s.queue <= t.queue && s.events <= t.events
    decreases if s.process < s.load then s.load - s.process else 0
  {
    if s.process >= s.load then s
    else
      var t := Parsed(s);
      Drain(if Complete(t.response) then Closed(t) else t)
  }

  // The bytes behind what is loaded, and a terminator if there is room for one.
  function Stored(memory: seq<Byte>, load: nat, bytes: seq<Byte>): (m: seq<Byte>)
    requires |memory| == SIZE && load + |bytes| <= SIZE
    ensures |m| == SIZE
  {
    var end := load + |bytes|;
    if end < SIZE then memory[..load] + bytes + [0] + memory[end + 1..] else memory[..load] + bytes
  }

  /** One read of the thread's loop. A response begun in an earlier transaction is scratched. */
  function Receive(s: Reader, bytes: seq<Byte>, txid: int): (t: Reader)
    requires s.Valid() && s.load + |bytes| <= SIZE
    ensures t.Valid() && t.load <= s.load + |bytes| && s.queue <= t.queue && s.events <= t.events && t.txid == txid
  {
    Drain(s.(memory := Stored(s.memory, s.load, bytes), load := s.load + |bytes|, txid := txid,
             response := if s.txid != 0 && s.txid != txid then BLANK else s.response))
  }

  function Stream(pieces: seq<seq<Byte>>): seq<Byte> {
    if pieces == [] then [] else pieces[0] + Stream(pieces[1..])
  }

  /** No read brings more than there is room for behind the load pointer. */
  predicate Fits(s: Reader, pieces: seq<seq<Byte>>, txid: int)
    requires s.Valid()
    decreases |pieces|
  {
    pieces == [] || (s.load + |pieces[0]| <= SIZE && Fits(Receive(s, pieces[0], txid), pieces[1..], txid))
  }

  function Deliver(s: Reader, pieces: seq<seq<Byte>>, txid: int): (t: Reader)
    requires s.Valid() && Fits(s, pieces, txid)
    ensures t.Valid() && s.queue <= t.queue && s.events <= t.events
    decreases |pieces|
  {
    if pieces == [] then s else Deliver(Receive(s, pieces[0], txid), pieces[1..], txid)
  }

  // ---------- Parts of a reply ----------

  // The response after j bytes of the body, before the byte count.
  function Stage(acked: bool, p: seq<Byte>, j: nat): (r: Reply)
    requires |p| <= 62 && j <= |p| + 3
    ensures r.Valid()
  {
    if j <= |p| then After(acked, p, j)
    else
      var r := After(acked, p, |p|);
      r.(flags := r.flags + if j == |p| + 3 then {GoodChecksum, CrLf, Processed} else {GoodChecksum})
  }

  // A single dollar sign so far: the parser takes it for a reboot.
  predicate Rebooted(p: seq<Byte>, j: nat) {
    p != [] && p[0] == DOLLAR && (j == 1 || (|p| == 1 && 1 <= j))
  }

  function Part(acked: bool, p: seq<Byte>, j: nat): (r: Reply)
    requires |p| <= 62 && j <= |p| + 3
    ensures r.Valid()
  {
    var r := Stage(acked, p, j);
    r.(flags := r.flags + (if Rebooted(p, j) then {Processed} else {}), received := (Lead(acked) + j) % 128)
  }

  // What the unit sends for one response: with or without the leading ACK.
  function Sent(acked: bool, p: seq<Byte>): seq<Byte> {
    if acked then Frame(p) else Body(p)
  }

  lemma SentBytes(acked: bool, p: seq<Byte>)
    ensures |Sent(acked, p)| == Lead(acked) + |p| + 3 && (acked ==> Sent(acked, p)[0] == ACK)
    ensures forall i {:trigger p[i]} :: 0 <= i < |p| ==> Sent(acked, p)[Lead(acked) + i] == p[i]
    ensures Sent(acked, p)[Lead(acked) + |p|] == Checksum(SumFrom(p, 0, |p|))
    ensures Sent(acked, p)[Lead(acked) + |p| + 1] == CR && Sent(acked, p)[Lead(acked) + |p| + 2] == LF
  {
    hide Checksum, SumFrom;
    var body := Body(p);
    assert body[|p|] == Checksum(SumFrom(p, 0, |p|)) && body[|p| + 1] == CR && body[|p| + 2] == LF;
    assert acked ==> forall i {:trigger body[i]} :: 0 <= i < |body| ==> Frame(p)[i + 1] == body[i];
  }

  lemma AckStep(mem: seq<Byte>, base: int, p: seq<Byte>)
    requires Peek(mem, base) == ACK
    ensures Step(mem, base, base, BLANK) == (base + 1, After(true, p, 0))
  {
    assert p[..0] + BLANK.buf[0..] == BLANK.buf;
    assert BLANK.flags + {Acked} == {Acked};
  }

  lemma NothingYet(p: seq<Byte>)
    ensures After(false, p, 0) == BLANK
  {
    assert p[..0] + BLANK.buf[0..] == BLANK.buf;
  }

  lemma CarriageReturnStep(mem: seq<Byte>, base: int, pos: int, r: Reply)
    requires r.Open() && Peek(mem, pos) == CR && Peek(mem, pos - 1) != PROMPT
    ensures Step(mem, base, pos, r) == (pos + 1, r)
  {
  }

  // What the parser finds in memory of the first j bytes of the body.
  ghost predicate BodyPart(mem: seq<Byte>, base: int, acked: bool, p: seq<Byte>, j: nat) {
    var at := base + Lead(acked);
    && (acked ==> Peek(mem, base) == ACK)
    && (forall i {:trigger p[i]} :: 0 <= i < |p| && i < j ==> Peek(mem, at + i) == p[i])
    && (j > |p| ==> Peek(mem, at + |p|) == Checksum(SumFrom(mem, at, at + |p|)) && Peek(mem, at + |p|) >= 128)
    && (j > |p| + 1 ==> Peek(mem, at + |p| + 1) == CR)
    && (j > |p| + 2 ==> Peek(mem, at + |p| + 2) == LF && Peek(mem, at + |p| + 3) == 0)
  }

  lemma HeldBodyPart(mem: seq<Byte>, base: int, acked: bool, p: seq<Byte>, j: nat)
    requires j <= |p| + 3 && Lead(acked) + j > 0 && Holds(mem, base, Sent(acked, p)[..Lead(acked) + j])
    ensures BodyPart(mem, base, acked, p, j)
  {
    hide Checksum, SumFrom, Holds, Sent;
    SentBytes(acked, p);
    var at, sent := base + Lead(acked), Sent(acked, p)[..Lead(acked) + j];
    if acked {
      HeldAt(mem, base, sent, 0);
    }
    forall i {:trigger p[i]} | 0 <= i < |p| && i < j
      ensures Peek(mem, at + i) == p[i]
    {
      HeldAt(mem, base, sent, Lead(acked) + i);
    }
    if j > |p| {
      SumsShift(mem, at, p, |p|);
      HighBit(SumFrom(p, 0, |p|));
      HeldAt(mem, base, sent, Lead(acked) + |p|);
    }
    if j > |p| + 1 {
      HeldAt(mem, base, sent, Lead(acked) + |p| + 1);
    }
    if j > |p| + 2 {
      HeldAt(mem, base, sent, Lead(acked) + |p| + 2);
      HeldEnd(mem, base, sent);
    }
  }

  lemma HeldAt(mem: seq<Byte>, base: int, bytes: seq<Byte>, i: nat)
    requires Holds(mem, base, bytes) && i < |bytes|
    ensures Peek(mem, base + i) == bytes[i]
  {
  }

  lemma HeldEnd(mem: seq<Byte>, base: int, bytes: seq<Byte>)
    requires Holds(mem, base, bytes)
    ensures Peek(mem, base + |bytes|) == 0
  {
  }

  lemma HighBit(sum: nat)
    ensures Checksum(sum) >= 128
  {
  }

  // The loop over the first j bytes of the body.
  lemma PartLoop(mem: seq<Byte>, base: int, acked: bool, p: seq<Byte>, j: nat)
    requires Printable(p) && Carriable(p) && j <= |p| + 3 && BodyPart(mem, base, acked, p, j)
    ensures Loop(mem, base, base + Lead(acked), j, After(acked, p, 0)) == (base + Lead(acked) + j, Stage(acked, p, j))
  {
    hide Step, Loop, Stage, Checksum, SumFrom;
    var k := if j <= |p| then j else |p|;
    assert p[..|p|] == p;
    PayloadPrefix(mem, base, acked, p, 0, k, j - k);
    if j <= |p| {
      PlainStage(mem, base, acked, p, j);
    } else {
      TailLoop(mem, base, acked, p, j);
    }
  }

  lemma PlainStage(mem: seq<Byte>, base: int, acked: bool, p: seq<Byte>, j: nat)
    requires j <= |p| <= 62
    ensures Loop(mem, base, base + Lead(acked) + j, 0, After(acked, p, j)) == (base + Lead(acked) + j, Stage(acked, p, j))
  {
  }

  // The checksum, CR and LF, as far as they have come.
  lemma TailLoop(mem: seq<Byte>, base: int, acked: bool, p: seq<Byte>, j: nat)
    requires Carriable(p) && |p| < j <= |p| + 3 && BodyPart(mem, base, acked, p, j)
    ensures Loop(mem, base, base + Lead(acked) + |p|, j - |p|, After(acked, p, |p|))
         == (base + Lead(acked) + j, Stage(acked, p, j))
  {
    hide Step, Checksum, SumFrom;
    var at := base + Lead(acked) + |p|;
    var r := After(acked, p, |p|);
    var good := r.(flags := r.flags + {GoodChecksum});
    ChecksumStep(mem, base, at, r);
    assert Loop(mem, base, at + 1, 0, good) == (at + 1, good);
    if j >= |p| + 2 {
      CarriageReturnStep(mem, base, at + 1, good);
      assert Loop(mem, base, at + 2, 0, good) == (at + 2, good);
    }
    if j == |p| + 3 {
      var done := good.(flags := good.flags + {Processed, CrLf});
      LineEndSteps(mem, base, at + 1, good);
      assert done.flags == r.flags + {GoodChecksum, CrLf, Processed};
      assert Loop(mem, base, at + 3, 0, done) == (at + 3, done);
      assert Loop(mem, base, at + 2, 1, good) == (at + 3, done);
      assert Loop(mem, base, at + 1, 2, good) == (at + 3, done);
    } else if j == |p| + 2 {
      assert Loop(mem, base, at + 1, 1, good) == (at + 2, good);
    }
  }

  lemma WholeLoop(mem: seq<Byte>, base: int, acked: bool, p: seq<Byte>, j: nat)
    requires Printable(p) && Carriable(p) && j <= |p| + 3 && BodyPart(mem, base, acked, p, j)
    ensures Loop(mem, base, base, Lead(acked) + j, BLANK) == (base + Lead(acked) + j, Stage(acked, p, j))
  {
    hide Step, Stage, Checksum, SumFrom;
    PartLoop(mem, base, acked, p, j);
    if acked {
      AckStep(mem, base, p);
    } else {
      NothingYet(p);
    }
  }

  /** Parsing the first part of what is sent, in one call. */
  lemma PartProcessed(mem: seq<Byte>, base: int, acked: bool, p: seq<Byte>, j: nat)
    requires Printable(p) && Carriable(p) && j <= |p| + 3 && Lead(acked) + j > 0
    requires Holds(mem, base, Sent(acked, p)[..Lead(acked) + j])
    ensures Process(mem, base, Lead(acked) + j, BLANK) == (Lead(acked) + j, Part(acked, p, j))
  {
    hide Loop, Stage, Sent, Holds, BodyPart;
    HeldBodyPart(mem, base, acked, p, j);
    WholeLoop(mem, base, acked, p, j);
    StageStart(acked, p, j);
  }

  // What the reboot check looks at.
  lemma StageStart(acked: bool, p: seq<Byte>, j: nat)
    requires Carriable(p) && j <= |p| + 3
    ensures var r := Stage(acked, p, j);
            && r.length == (if j <= |p| then j else |p|) && r.received == 0 && |r.buf| == BUFFER_SIZE
            && (r.length == 1 && r.buf[0] == DOLLAR <==> Rebooted(p, j))
            && (Rebooted(p, j) || r.flags + {} == r.flags)
  {
    assert BLANK.buf[0] == 0;
  }

  // ---------- What is complete, and when ----------

  lemma PartComplete(acked: bool, p: seq<Byte>, j: nat)
    requires Carriable(p) && j <= |p| + 3
    ensures Complete(Part(acked, p, j)) <==> (acked && j == 0) || Rebooted(p, j) || j == |p| + 3
    ensures Event !in Part(acked, p, j).flags
    ensures !Rebooted(p, j) && j < |p| + 3 ==> Part(acked, p, j).Open()
  {
    assert acked ==> Acked in After(acked, p, 0).flags;
  }

  lemma WholePart(acked: bool, p: seq<Byte>)
    requires Carriable(p)
    ensures Part(acked, p, |p| + 3) == Recovered(acked, p)
  {
    var r := After(acked, p, |p|);
    assert r.flags + {GoodChecksum, CrLf, Processed} == Recovered(acked, p).flags;
    assert Recovered(acked, p).flags + {Processed} == Recovered(acked, p).flags + {} == Recovered(acked, p).flags;
  }

  // The response to an ACK alone.
  const ACKNOWLEDGED: Reply := BLANK.(flags := {Acked}, received := 1)

  lemma AckPart(p: seq<Byte>)
    requires |p| <= 62
    ensures Part(true, p, 0) == ACKNOWLEDGED && Part(false, p, 0) == BLANK
  {
    assert p[..0] + BLANK.buf[0..] == BLANK.buf;
    var acked: set<Flag> := {Acked};
    assert acked + {} == acked;
  }

  // ---------- The reader on a reply in pieces ----------

  // The response to q bytes of what is sent, and those bytes in memory.
  function PartOf(acked: bool, p: seq<Byte>, q: nat): (r: Reply)
    requires Carriable(p) && q <= |Sent(acked, p)|
    ensures r.Valid()
  {
    if q == 0 then BLANK else Part(acked, p, q - Lead(acked))
  }

  /** c bytes of the reply have come, with or without a cut after the ACK. */
  ghost predicate Midway(s: Reader, p: seq<Byte>, base: nat, c: nat, split: bool)
    requires Carriable(p)
  {
    && c < |p| + 4 && (if split then c >= 1 else c != 1)
    && HasPart(s, !split, p, if split then 0 else base, if split then c - 1 else c)
  }

  ghost predicate HasPart(s: Reader, acked: bool, p: seq<Byte>, base: nat, q: nat)
    requires Carriable(p) && q < |Sent(acked, p)|
  {
    && s.Valid() && s.process == s.load == base + q
    && s.response == PartOf(acked, p, q)
    && (q > 0 ==> Holds(s.memory, base, Sent(acked, p)[..q]))
  }

  lemma StoredBytes(memory: seq<Byte>, load: nat, bytes: seq<Byte>, base: nat, before: seq<Byte>)
    requires |memory| == SIZE && load + |bytes| <= SIZE && base + |before| == load
    requires before != [] ==> Holds(memory, base, before)
    ensures AgreeBelow(memory, Stored(memory, load, bytes), load)
    ensures Holds(Stored(memory, load, bytes), base, before + bytes)
  {
    var stored, all := Stored(memory, load, bytes), before + bytes;
    forall i {:trigger all[i]} | 0 <= i < |all|
      ensures Peek(stored, base + i) == all[i]
    {
      if i < |before| {
        assert before[i] == Peek(memory, base + i);
      }
    }
  }

  lemma PartStaysOpen(acked: bool, p: seq<Byte>, q: nat)
    requires Carriable(p) && Lead(acked) <= q < |Sent(acked, p)| && q > 0 && !Rebooted(p, q - Lead(acked))
    ensures Processed !in Part(acked, p, q - Lead(acked)).flags
  {
    PartComplete(acked, p, q - Lead(acked));
  }

  // The next m bytes, parsed into the response to the first q.
  lemma NextPart(memory: seq<Byte>, stored: seq<Byte>, base: nat, acked: bool, p: seq<Byte>, q: nat, m: nat)
    requires Printable(p) && Carriable(p) && m > 0 && q + m <= |Sent(acked, p)|
    requires q > 0 ==> !Rebooted(p, q - Lead(acked)) && Holds(memory, base, Sent(acked, p)[..q])
    requires AgreeBelow(memory, stored, base + q) && Holds(stored, base, Sent(acked, p)[..q + m])
    ensures Process(stored, base + q, m, PartOf(acked, p, q)) == (m, PartOf(acked, p, q + m))
  {
    SentBytes(acked, p);
    hide Process, Part, Holds, Sent, AgreeBelow, Rebooted;
    PartProcessed(stored, base, acked, p, q + m - Lead(acked));
    if q > 0 {
      PartProcessed(memory, base, acked, p, q - Lead(acked));
      PartStaysOpen(acked, p, q);
      ChunkIndependence(memory, stored, base, q, m, BLANK);
    }
  }

  // The reader on the next m bytes.
  lemma NextDrained(s: Reader, acked: bool, p: seq<Byte>, base: nat, q: nat, bytes: seq<Byte>, txid: int)
    requires Printable(p) && Carriable(p) && q + |bytes| <= |Sent(acked, p)| && |bytes| > 0
    requires HasPart(s, acked, p, base, q) && (q > 0 ==> !Rebooted(p, q - Lead(acked)))
    requires bytes == Sent(acked, p)[q..q + |bytes|] && base + q + |bytes| <= SIZE
    requires s.txid == 0 || s.txid == txid || s.response == BLANK
    ensures
      var next := Reader(Stored(s.memory, s.load, bytes), base + q + |bytes|, base + q + |bytes|,
                         PartOf(acked, p, q + |bytes|), txid, s.queue, s.events);
      && Receive(s, bytes, txid) == (if Complete(next.response) then Drain(Closed(next)) else next)
      && Holds(next.memory, base, Sent(acked, p)[..q + |bytes|])
  {
    hide Sent, Part, Process, Rebooted, Complete, Closed, Holds, Stored, PartOf, Drain, BLANK, Printable, Receive,
         HasPart, Carriable;
    PartIsLoaded(s, acked, p, base, q);
    assert s.load + |bytes| == base + q + |bytes|;
    NextParsed(s, acked, p, base, q, bytes);
    ReceiveConsumes(s, bytes, txid, PartOf(acked, p, q + |bytes|));
  }

  // A read that one call consumes.
  lemma ReceiveConsumes(s: Reader, bytes: seq<Byte>, txid: int, r: Reply)
    requires s.Valid() && s.process == s.load && s.load + |bytes| <= SIZE && bytes != [] && r.Valid()
    requires s.txid == 0 || s.txid == txid || s.response == BLANK
    requires Process(Stored(s.memory, s.load, bytes), s.load, |bytes|, s.response) == (|bytes|, r)
    ensures
      var end := s.load + |bytes|;
      var next := Reader(Stored(s.memory, s.load, bytes), end, end, r, txid, s.queue, s.events);
      Receive(s, bytes, txid) == if Complete(r) then Drain(Closed(next)) else next
  {
    hide Process, Closed, Complete, Drain, BLANK;
    var stored := Stored(s.memory, s.load, bytes);
    hide Stored;
    var start := s.(memory := stored, load := s.load + |bytes|, txid := txid);
    assert Receive(s, bytes, txid) == Drain(start);
    OneParse(start, start.(process := start.load, response := r));
  }

  lemma NextParsed(s: Reader, acked: bool, p: seq<Byte>, base: nat, q: nat, bytes: seq<Byte>)
    requires Printable(p) && Carriable(p) && q + |bytes| <= |Sent(acked, p)| && |bytes| > 0
    requires HasPart(s, acked, p, base, q) && (q > 0 ==> !Rebooted(p, q - Lead(acked)))
    requires bytes == Sent(acked, p)[q..q + |bytes|] && base + q + |bytes| <= SIZE
    ensures
      var stored := Stored(s.memory, s.load, bytes);
      && Process(stored, s.load, |bytes|, s.response) == (|bytes|, PartOf(acked, p, q + |bytes|))
      && Holds(stored, base, Sent(acked, p)[..q + |bytes|])
  {
    hide Sent, Part, Process, Rebooted, Carriable, Printable, BLANK;
    var sent := Sent(acked, p);
    assert sent[..q] + bytes == sent[..q + |bytes|];
    StoredBytes(s.memory, s.load, bytes, base, sent[..q]);
    var stored := Stored(s.memory, s.load, bytes);
    hide Stored, Holds, AgreeBelow, PartOf;
    NextPart(s.memory, stored, base, acked, p, q, |bytes|);
  }

  // One call that consumes everything.
  lemma OneParse(s: Reader, next: Reader)
    requires s.Valid() && s.process < s.load
    requires Process(s.memory, s.process, s.load - s.process, s.response) == (s.load - s.process, next.response)
    requires next == s.(process := s.load, response := next.response) && next.response.Valid()
    ensures Drain(s) == if Complete(next.response) then Drain(Closed(next)) else next
  {
    hide Process, Closed;
    assert Parsed(s) == next;
  }

  /** The next bytes of a reply: it is complete and queued; or a lone dollar sign is taken for a reboot
      and queued; or the ACK is queued on its own; or nothing happens yet. */
  lemma PieceReceived(s: Reader, p: seq<Byte>, base: nat, c: nat, split: bool, bytes: seq<Byte>, txid: int)
    requires Printable(p) && Carriable(p) && s.load + |bytes| <= SIZE
    requires s.txid == 0 || s.txid == txid || s.response == BLANK
    requires Midway(s, p, base, c, split) && (c >= 2 ==> !Rebooted(p, c - 1))
    requires |bytes| > 0 && c + |bytes| <= |Frame(p)| && bytes == Frame(p)[c..c + |bytes|]
    ensures
      var t, n := Receive(s, bytes, txid), c + |bytes|;
      t.events == s.events &&
      if n == |Frame(p)| then t.Idle() && t.load == 0 && t.queue == s.queue + [Queued(Recovered(!split, p), txid)]
      else if n == 1 then Midway(t, p, base, 1, true) && t.queue == s.queue + [Queued(ACKNOWLEDGED, txid)]
      else if Rebooted(p, n - 1) then t.queue == s.queue + [Queued(Part(!split, p, n - 1), txid)]
      else Midway(t, p, base, n, split) && t.queue == s.queue
  {
    hide Part, Rebooted, Holds, Process, Queued, Stored, Recovered, Frame, Body;
    var q, b := if split then c - 1 else c, if split then 0 else base;
    var n := c + |bytes|;
    FrameParts(p, c, n, split);
    NextDrained(s, !split, p, b, q, bytes, txid);
    PartComplete(!split, p, n - 1);
    WholePart(!split, p);
    AckPart(p);
  }

  lemma FrameParts(p: seq<Byte>, c: nat, n: nat, split: bool)
    requires c < n <= |Frame(p)| && (split ==> c >= 1)
    ensures |Frame(p)| == |p| + 4 && |Sent(!split, p)| == |p| + 4 - (if split then 1 else 0)
    ensures var d := if split then 1 else 0; Frame(p)[c..n] == Sent(!split, p)[c - d..n - d]
  {
  }

  lemma NothingReceived(s: Reader, p: seq<Byte>, base: nat, c: nat, split: bool, txid: int)
    requires Carriable(p) && Midway(s, p, base, c, split)
    requires s.txid == 0 || s.txid == txid || s.response == BLANK
    ensures var t := Receive(s, [], txid); Midway(t, p, base, c, split) && t.queue == s.queue && t.events == s.events
  {
    hide Part, PartOf;
    var q, b := if split then c - 1 else c, if split then 0 else base;
    var sent := Sent(!split, p)[..q];
    hide Sent;
    StoredBytes(s.memory, s.load, [], b, sent);
    assert sent + [] == sent;
  }

  // ---------- Any partition ----------

  /** The positions at which a read ends, counted from the first byte of the reply. */
  function Cuts(pieces: seq<seq<Byte>>, c: nat): set<nat>
    decreases |pieces|
  {
    if pieces == [] then {} else {c + |pieces[0]|} + Cuts(pieces[1..], c + |pieces[0]|)
  }

  /** A cut that makes the parser take a dollar sign for a reboot: right after the first character of the
      payload, or, when it is the only one, anywhere between it and the line feed. */
  predicate Spoils(p: seq<Byte>, k: nat) {
    p != [] && p[0] == DOLLAR && 2 <= k <= (if |p| == 1 then 4 else 2)
  }

  function Expected(p: seq<Byte>, ackAlone: bool, txid: int): seq<Reply>
    requires |p| <= BUFFER_SIZE
  {
    if ackAlone then [Queued(ACKNOWLEDGED, txid), Queued(Recovered(false, p), txid)] else [Queued(Recovered(true, p), txid)]
  }

  lemma SpoilsIsReboot(p: seq<Byte>, k: nat)
    requires Carriable(p)
    ensures Spoils(p, k) <==> 2 <= k < |Frame(p)| && Rebooted(p, k - 1)
  {
  }

  lemma {:induction false} CutsAreLater(pieces: seq<seq<Byte>>, c: nat)
    ensures forall k <- Cuts(pieces, c) :: c <= k <= c + |Stream(pieces)|
    decreases |pieces|
  {
    if pieces != [] {
      CutsAreLater(pieces[1..], c + |pieces[0]|);
    }
  }

  lemma {:induction false} NothingDelivered(s: Reader, pieces: seq<seq<Byte>>, txid: int)
    requires s.Idle() && Stream(pieces) == []
    ensures Fits(s, pieces, txid)
    ensures var t := Deliver(s, pieces, txid); t.Idle() && t.load == s.load && t.queue == s.queue && t.events == s.events
    decreases |pieces|
  {
    if pieces != [] {
      assert pieces[0] == [] && Stream(pieces[1..]) == [];
      NothingDelivered(Receive(s, pieces[0], txid), pieces[1..], txid);
    }
  }

  // What the remaining pieces are pieces of.
  lemma NextPieces(p: seq<Byte>, c: nat, pieces: seq<seq<Byte>>)
    requires pieces != [] && c <= |Frame(p)| && Stream(pieces) == Frame(p)[c..]
    ensures c + |pieces[0]| <= |Frame(p)|
    ensures |Stream(pieces)| == |pieces[0]| + |Stream(pieces[1..])|
    ensures pieces[0] == Frame(p)[c..c + |pieces[0]|] && Stream(pieces[1..]) == Frame(p)[c + |pieces[0]|..]
  {
    var frame, n := Frame(p), c + |pieces[0]|;
    hide Frame;
    assert Stream(pieces)[..|pieces[0]|] == pieces[0] && Stream(pieces)[|pieces[0]|..] == Stream(pieces[1..]);
    assert |frame[c..]| >= |pieces[0]|;
    assert frame[c..][..|pieces[0]|] == frame[c..n] && frame[c..][|pieces[0]|..] == frame[n..];
  }

  // What the rest of the reply adds to the queue.
  function Remaining(p: seq<Byte>, c: nat, split: bool, pieces: seq<seq<Byte>>, txid: int): seq<Reply>
    requires |p| <= BUFFER_SIZE
  {
    if split then [Queued(Recovered(false, p), txid)] else Expected(p, c == 0 && 1 in Cuts(pieces, c), txid)
  }

  lemma {:induction false} PiecesDelivered(
    s: Reader, p: seq<Byte>, base: nat, c: nat, split: bool, pieces: seq<seq<Byte>>, txid: int)
    requires Printable(p) && Carriable(p)
    requires c < |Frame(p)| && Stream(pieces) == Frame(p)[c..]
    requires s.txid == 0 || s.txid == txid || s.response == BLANK
    requires Midway(s, p, base, c, split) && !Spoils(p, c)
    requires forall k <- Cuts(pieces, c) :: !Spoils(p, k)
    requires Fits(s, pieces, txid)
    ensures
      var t := Deliver(s, pieces, txid);
      t.Idle() && t.load == 0 && t.events == s.events && t.queue == s.queue + Remaining(p, c, split, pieces, txid)
    decreases |pieces|
  {
    hide Part, Rebooted, Holds, Process, Queued, Stored, Recovered, Frame, Body, Midway, Receive, Spoils;
    var n := c + |pieces[0]|;
    NextPieces(p, c, pieces);
    SpoilsIsReboot(p, c);
    SpoilsIsReboot(p, n);
    MidwayFits(s, p, base, c, split);
    var t := Receive(s, pieces[0], txid);
    CutsAreLater(pieces[1..], n);
    assert n in Cuts(pieces, c) && Cuts(pieces[1..], n) <= Cuts(pieces, c);
    assert !Spoils(p, n) && (c == 0 && n >= 2 ==> 1 !in Cuts(pieces, c));
    if pieces[0] == [] {
      NothingReceived(s, p, base, c, split, txid);
      PiecesDelivered(t, p, base, c, split, pieces[1..], txid);
    } else {
      PieceReceived(s, p, base, c, split, pieces[0], txid);
      if n == |Frame(p)| {
        NothingDelivered(t, pieces[1..], txid);
      } else if n == 1 {
        PiecesDelivered(t, p, base, 1, true, pieces[1..], txid);
        var ack, rest := Queued(ACKNOWLEDGED, txid), Queued(Recovered(false, p), txid);
        assert s.queue + [ack] + [rest] == s.queue + [ack, rest];
      } else {
        PiecesDelivered(t, p, base, n, split, pieces[1..], txid);
      }
    }
  }

  lemma MidwayFits(s: Reader, p: seq<Byte>, base: nat, c: nat, split: bool)
    requires Carriable(p) && Midway(s, p, base, c, split)
    ensures s.Valid() && |Frame(p)| == |p| + 4 && (if split then c >= 1 else c != 1)
  {
  }

  // A response that was closed before its line end.
  predicate ClosedEarly(r: Reply) {
    CrLf !in r.flags && r.length == 1
  }

  lemma EarlyPart(acked: bool, p: seq<Byte>, j: nat, txid: int)
    requires Carriable(p) && j < |p| + 3 && Rebooted(p, j)
    ensures ClosedEarly(Queued(Part(acked, p, j), txid))
  {
  }

  lemma {:induction false} PiecesSpoilt(
    s: Reader, p: seq<Byte>, base: nat, c: nat, split: bool, pieces: seq<seq<Byte>>, txid: int) returns (i: nat)
    requires Printable(p) && Carriable(p)
    requires c < |Frame(p)| && Stream(pieces) == Frame(p)[c..]
    requires s.txid == 0 || s.txid == txid || s.response == BLANK
    requires Midway(s, p, base, c, split) && !Spoils(p, c)
    requires exists k :: k in Cuts(pieces, c) && Spoils(p, k)
    requires Fits(s, pieces, txid)
    ensures var t := Deliver(s, pieces, txid); |s.queue| <= i < |t.queue| && ClosedEarly(t.queue[i])
    decreases |pieces|
  {
    hide Part, Rebooted, Holds, Process, Queued, Stored, Recovered, Frame, Body, Midway, Receive, Spoils, ClosedEarly,
         Printable, BLANK;
    var n := c + |pieces[0]|;
    NextPieces(p, c, pieces);
    SpoilsIsReboot(p, c);
    SpoilsIsReboot(p, n);
    MidwayFits(s, p, base, c, split);
    var t := Receive(s, pieces[0], txid);
    CutsAreLater(pieces[1..], n);
    var k :| k in Cuts(pieces, c) && Spoils(p, k);
    SpoilsIsReboot(p, k);
    assert k == n || k in Cuts(pieces[1..], n);
    assert n <= k < |Frame(p)|;
    if pieces[0] == [] {
      NothingReceived(s, p, base, c, split, txid);
      i := PiecesSpoilt(t, p, base, c, split, pieces[1..], txid);
    } else {
      PieceReceived(s, p, base, c, split, pieces[0], txid);
      if n == 1 {
        i := PiecesSpoilt(t, p, base, 1, true, pieces[1..], txid);
      } else if Rebooted(p, n - 1) {
        i := |s.queue|;
        EarlyPart(!split, p, n - 1, txid);
        assert t.queue[i] == Queued(Part(!split, p, n - 1), txid);
      } else {
        i := PiecesSpoilt(t, p, base, n, split, pieces[1..], txid);
      }
    }
  }

  lemma ExpectedIsComplete(p: seq<Byte>, ackAlone: bool, txid: int)
    requires Carriable(p)
    ensures forall r <- Expected(p, ackAlone, txid) :: !ClosedEarly(r)
  {
  }

  lemma DeliveredToIdle(s: Reader, p: seq<Byte>, pieces: seq<seq<Byte>>, txid: int)
    requires s.Idle() && Printable(p) && Carriable(p)
    requires Stream(pieces) == Frame(p) && Fits(s, pieces, txid)
    ensures
      var t, cuts := Deliver(s, pieces, txid), Cuts(pieces, 0);
      && (t.queue == s.queue + Expected(p, 1 in cuts, txid) <==> forall k <- cuts :: !Spoils(p, k))
      && ((forall k <- cuts :: !Spoils(p, k)) ==> t.Idle() && t.load == 0 && t.events == s.events)
  {
    hide Frame, Spoils, Queued, ClosedEarly;
    assert Frame(p)[0..] == Frame(p);
    Untouched(s, p);
    if forall k <- Cuts(pieces, 0) :: !Spoils(p, k) {
      PiecesDelivered(s, p, s.load, 0, false, pieces, txid);
    } else {
      var i := PiecesSpoilt(s, p, s.load, 0, false, pieces, txid);
      ExpectedIsComplete(p, 1 in Cuts(pieces, 0), txid);
      Unexpected(Deliver(s, pieces, txid).queue, s.queue, Expected(p, 1 in Cuts(pieces, 0), txid), i);
    }
  }

  /** Nothing is left to parse, and no response was begun, unless in an earlier transaction. */
  predicate Ready(s: Reader, txid: int) {
    s.Valid() && s.process == s.load && (s.response == BLANK || (s.txid != 0 && s.txid != txid))
  }

  // What was begun in an earlier transaction is scratched.
  lemma BegunIsScratched(s: Reader, pieces: seq<seq<Byte>>, txid: int)
    requires Ready(s, txid) && pieces != []
    ensures
      var idle := s.(response := BLANK);
      && idle.Idle() && (Fits(idle, pieces, txid) <==> Fits(s, pieces, txid))
      && (Fits(s, pieces, txid) ==> Deliver(idle, pieces, txid) == Deliver(s, pieces, txid))
  {
    hide Drain, Stored;
  }

  /** The reply to a transaction, in any pieces, to a reader that was idle before or had begun a response in
      an earlier transaction: the reader is idle again with its buffer empty, and what it queued is the whole
      reply, or, if a read ended right after the ACK, the ACK and the rest; if and only if no read ended where
      a dollar sign stands alone. */
  lemma ReplyIsDelivered(s: Reader, p: seq<Byte>, pieces: seq<seq<Byte>>, txid: int)
    requires Ready(s, txid) && Printable(p) && Carriable(p)
    requires Stream(pieces) == Frame(p) && Fits(s, pieces, txid)
    ensures
      var t, cuts := Deliver(s, pieces, txid), Cuts(pieces, 0);
      && (t.queue == s.queue + Expected(p, 1 in cuts, txid) <==> forall k <- cuts :: !Spoils(p, k))
      && ((forall k <- cuts :: !Spoils(p, k)) ==> t.Idle() && t.load == 0 && t.events == s.events)
  {
    assert pieces != [];
    hide Frame, Spoils, Queued, Fits, Deliver;
    BegunIsScratched(s, pieces, txid);
    DeliveredToIdle(s.(response := BLANK), p, pieces, txid);
  }

  lemma Unexpected(queue: seq<Reply>, before: seq<Reply>, expected: seq<Reply>, i: nat)
    requires |before| <= i < |queue| && ClosedEarly(queue[i]) && forall r <- expected :: !ClosedEarly(r)
    ensures queue != before + expected
  {
    assert i < |before + expected| ==> (before + expected)[i] == expected[i - |before|];
  }

  lemma Untouched(s: Reader, p: seq<Byte>)
    requires s.Idle() && Carriable(p)
    ensures Midway(s, p, s.load, 0, false) && !Spoils(p, 0) && |Frame(p)| > 0
  {
  }

  /** Either way the caller ends up with the payload and a reply that is OK on every link. */
  lemma DeliveredReplyIsOk(p: seq<Byte>, txid: int, link: Link)
    requires Printable(p) && Carriable(p)
    ensures
      var whole, parts := Expected(p, false, txid), Expected(p, true, txid);
      var joined := Combine(parts[0], parts[1]);
      && whole[0].Payload() == p && joined.Payload() == p && joined.flags + {Processed} == whole[0].flags
      && Classify(link, whole[0]).status == Classify(link, joined).status == ResponseOk
  {
    hide Combine, Classify, Queued, Recovered;
    JoinedAfterAck(p, txid);
    WholeQueued(p, txid);
    CleanIsOk(link, Queued(Recovered(true, p), txid));
    CleanIsOk(link, Combine(Queued(ACKNOWLEDGED, txid), Queued(Recovered(false, p), txid)));
  }

  // ---------- Bytes behind the reply ----------

  // How many bytes behind the line feed belong to the reply: a prompt, an error mark, or an ACK.
  function Taken(after: Byte): nat {
    if after == PROMPT || after == QUESTION || after == ACK then 1 else 0
  }

  function Mark(after: Byte): set<Flag> {
    if after == PROMPT then {Prompt} else if after == QUESTION then {Error} else {}
  }

  function Followed(acked: bool, p: seq<Byte>, after: Byte): (r: Reply)
    requires |p| <= BUFFER_SIZE
    ensures r.Valid()
  {
    var r := Recovered(acked, p);
    r.(flags := r.flags + Mark(after), received := (r.received + Taken(after)) % 128)
  }

  lemma FollowedBytes(mem: seq<Byte>, base: int, acked: bool, p: seq<Byte>, extra: seq<Byte>)
    requires extra != [] && Holds(mem, base, Sent(acked, p) + extra)
    ensures BodyPart(mem, base, acked, p, |p| + 2)
    ensures var at := base + Lead(acked) + |p|; Peek(mem, at + 2) == LF && Peek(mem, at + 3) == extra[0]
  {
    hide Checksum, SumFrom, Holds, Sent;
    SentBytes(acked, p);
    var at, sent := base + Lead(acked), Sent(acked, p);
    var bytes := sent + extra;
    if acked {
      HeldAt(mem, base, bytes, 0);
    }
    forall i {:trigger p[i]} | 0 <= i < |p|
      ensures Peek(mem, at + i) == p[i]
    {
      HeldAt(mem, base, bytes, Lead(acked) + i);
    }
    SumsShift(mem, at, p, |p|);
    HighBit(SumFrom(p, 0, |p|));
    HeldAt(mem, base, bytes, Lead(acked) + |p|);
    HeldAt(mem, base, bytes, Lead(acked) + |p| + 1);
    HeldAt(mem, base, bytes, Lead(acked) + |p| + 2);
    HeldAt(mem, base, bytes, Lead(acked) + |p| + 3);
  }

  // The line feed and what it takes with it.
  lemma FollowedStep(mem: seq<Byte>, base: int, acked: bool, p: seq<Byte>, after: Byte)
    requires Carriable(p)
    requires var at := base + Lead(acked) + |p|;
             Peek(mem, at + 1) == CR && Peek(mem, at + 2) == LF && Peek(mem, at + 3) == after
    ensures Step(mem, base, base + Lead(acked) + |p| + 2, Stage(acked, p, |p| + 2))
         == (base + Lead(acked) + |p| + 3 + Taken(after), Followed(acked, p, after).(received := 0))
  {
    var r := After(acked, p, |p|);
    var good := r.flags + {GoodChecksum};
    assert good + {Processed, CrLf} + Mark(after) == Recovered(acked, p).flags + Mark(after);
  }

  lemma FollowedProcessed(mem: seq<Byte>, base: int, acked: bool, p: seq<Byte>, extra: seq<Byte>)
    requires Printable(p) && Carriable(p) && extra != [] && Holds(mem, base, Sent(acked, p) + extra)
    ensures Process(mem, base, |Sent(acked, p)| + |extra|, BLANK)
         == (|Sent(acked, p)| + Taken(extra[0]), Followed(acked, p, extra[0]))
  {
    hide Step, Stage, Holds, BodyPart, Sent;
    SentBytes(acked, p);
    FollowedBytes(mem, base, acked, p, extra);
    FollowedLoop(mem, base, acked, p, extra);
    FollowedIsClosed(acked, p, extra[0]);
    hide Loop;
    var r := Followed(acked, p, extra[0]);
    assert r.flags + {Processed} == r.flags;
    FollowedCount(acked, p, extra[0]);
    hide Followed;
  }

  lemma FollowedCount(acked: bool, p: seq<Byte>, after: Byte)
    requires Carriable(p)
    ensures Followed(acked, p, after).received == (Lead(acked) + |p| + 3 + Taken(after)) % 128
  {
  }

  lemma FollowedLoop(mem: seq<Byte>, base: int, acked: bool, p: seq<Byte>, extra: seq<Byte>)
    requires Printable(p) && Carriable(p) && extra != [] && BodyPart(mem, base, acked, p, |p| + 2)
    requires var at := base + Lead(acked) + |p|; Peek(mem, at + 2) == LF && Peek(mem, at + 3) == extra[0]
    ensures Loop(mem, base, base, Lead(acked) + |p| + 3 + |extra|, BLANK)
         == (base + Lead(acked) + |p| + 3 + Taken(extra[0]), Followed(acked, p, extra[0]).(received := 0))
  {
    hide Step, Stage, Checksum, SumFrom;
    var at := base + Lead(acked) + |p|;
    WholeLoop(mem, base, acked, p, |p| + 2);
    LoopSplits(mem, base, base, Lead(acked) + |p| + 2, 1 + |extra|, BLANK);
    StageIsOpen(acked, p);
    FollowedStep(mem, base, acked, p, extra[0]);
    hide Loop, BodyPart;
    ClosingLoop(mem, base, at + 2, |extra|, Stage(acked, p, |p| + 2));
  }

  lemma StageIsOpen(acked: bool, p: seq<Byte>)
    requires Carriable(p)
    ensures Processed !in Stage(acked, p, |p| + 2).flags
  {
  }

  // A step that closes the reply ends the loop.
  lemma ClosingLoop(mem: seq<Byte>, base: int, pos: int, n: nat, r: Reply)
    requires r.Open() && Processed in Step(mem, base, pos, r).1.flags
    ensures Loop(mem, base, pos, 1 + n, r) == Step(mem, base, pos, r)
  {
    hide Step;
  }

  /** The last bytes of a reply, with more read behind them. A single prompt, error mark or ACK belongs to
      the reply, which is queued with it. Anything else, and the reply is freed: the reader goes on with
      the bytes behind it and a new response, and with the queue as it was. */
  lemma FollowedReplyIsFreed(
    s: Reader, p: seq<Byte>, base: nat, c: nat, split: bool, bytes: seq<Byte>, extra: seq<Byte>, txid: int)
    requires Printable(p) && Carriable(p) && s.load + |bytes| <= SIZE && c < |Frame(p)|
    requires bytes == Frame(p)[c..] + extra && extra != []
    requires s.txid == 0 || s.txid == txid || s.response == BLANK
    requires Midway(s, p, base, c, split) && (c >= 2 ==> !Rebooted(p, c - 1))
    ensures
      var t, reply := Receive(s, bytes, txid), Queued(Followed(!split, p, extra[0]), txid);
      var load := s.load + |bytes|;
      if |extra| == Taken(extra[0]) then t.Idle() && t.load == 0 && t.queue == s.queue + [reply]
      else t == Drain(Reader(Stored(s.memory, s.load, bytes), load - |extra| + Taken(extra[0]), load, BLANK, txid,
                             s.queue, s.events))
  {
    hide Part, Rebooted, Holds, Process, Queued, Stored, Followed, Frame, Body, Sent;
    var q, b := if split then c - 1 else c, if split then 0 else base;
    FrameParts(p, c, |Frame(p)|, split);
    assert Frame(p)[c..|Frame(p)|] == Frame(p)[c..];
    FollowedDrained(s, !split, p, b, q, bytes, extra, txid);
    hide Complete, PartOf;
  }

  lemma {:induction false} FollowedDrained(
    s: Reader, acked: bool, p: seq<Byte>, base: nat, q: nat, bytes: seq<Byte>, extra: seq<Byte>, txid: int)
    requires Printable(p) && Carriable(p) && q < |Sent(acked, p)| && extra != []
    requires HasPart(s, acked, p, base, q) && (q > 0 ==> Lead(acked) <= q && !Rebooted(p, q - Lead(acked)))
    requires bytes == Sent(acked, p)[q..] + extra && s.load + |bytes| <= SIZE
    requires s.txid == 0 || s.txid == txid || s.response == BLANK
    ensures
      var load := s.load + |bytes|;
      var next := Reader(Stored(s.memory, s.load, bytes), load - |extra| + Taken(extra[0]), load,
                         Followed(acked, p, extra[0]), txid, s.queue, s.events);
      Complete(next.response) && Event !in next.response.flags && Receive(s, bytes, txid) == Drain(Closed(next))
  {
    hide Stored, Taken, Followed, Process, Closed, Drain, Receive, HasPart, Rebooted, Sent, Printable, Complete;
    PartIsLoaded(s, acked, p, base, q);
    var load := s.load + |bytes|;
    var next := Reader(Stored(s.memory, s.load, bytes), load - |extra| + Taken(extra[0]), load,
                       Followed(acked, p, extra[0]), txid, s.queue, s.events);
    assert Process(next.memory, s.load, |bytes|, s.response) == (next.process - s.load, next.response) by {
      FollowedParsed(s, acked, p, base, q, bytes, extra);
    }
    FollowedIsClosed(acked, p, extra[0]);
    ReceiveCloses(s, bytes, txid, next);
  }

  lemma PartIsLoaded(s: Reader, acked: bool, p: seq<Byte>, base: nat, q: nat)
    requires Carriable(p) && q < |Sent(acked, p)| && HasPart(s, acked, p, base, q)
    ensures s.Valid() && s.process == s.load == base + q
  {
  }

  lemma FollowedParsed(
    s: Reader, acked: bool, p: seq<Byte>, base: nat, q: nat, bytes: seq<Byte>, extra: seq<Byte>)
    requires Printable(p) && Carriable(p) && q < |Sent(acked, p)| && extra != []
    requires HasPart(s, acked, p, base, q) && (q > 0 ==> Lead(acked) <= q && !Rebooted(p, q - Lead(acked)))
    requires bytes == Sent(acked, p)[q..] + extra && s.load + |bytes| <= SIZE
    ensures Process(Stored(s.memory, s.load, bytes), s.load, |bytes|, s.response)
         == (|bytes| - |extra| + Taken(extra[0]), Followed(acked, p, extra[0]))
  {
    hide Sent, Process, Rebooted, Carriable, Printable, BLANK, Followed, Taken, Stored, PartOf, Holds;
    var sent, stored := Sent(acked, p), Stored(s.memory, s.load, bytes);
    Rejoined(sent, q, bytes, extra);
    assert sent[..0] == [];
    StoredBytes(s.memory, s.load, bytes, base, sent[..q]);
    hide AgreeBelow;
    FollowedNext(s.memory, stored, base, acked, p, q, extra);
  }

  // A read whose first call completes the response.
  lemma ReceiveCloses(s: Reader, bytes: seq<Byte>, txid: int, next: Reader)
    requires s.Valid() && s.process == s.load && s.load + |bytes| <= SIZE && bytes != []
    requires s.txid == 0 || s.txid == txid || s.response == BLANK
    requires next.memory == Stored(s.memory, s.load, bytes) && next.load == s.load + |bytes| && next.txid == txid
    requires next.queue == s.queue && next.events == s.events && next.response.Valid() && Complete(next.response)
    requires next.process >= s.load
    requires Process(next.memory, s.load, |bytes|, s.response) == (next.process - s.load, next.response)
    ensures Receive(s, bytes, txid) == Drain(Closed(next))
  {
    hide Process, Closed, Complete, Drain, BLANK;
    var start := s.(memory := Stored(s.memory, s.load, bytes), load := s.load + |bytes|, txid := txid);
    hide Stored;
    assert Receive(s, bytes, txid) == Drain(start);
    ParseCloses(start, next, next.process - s.load);
  }

  lemma Rejoined(sent: seq<Byte>, q: nat, bytes: seq<Byte>, extra: seq<Byte>)
    requires q <= |sent| && bytes == sent[q..] + extra
    ensures sent[..q] + bytes == sent + extra && |bytes| == |sent| - q + |extra|
  {
  }

  // One call that completes the response.
  lemma ParseCloses(s: Reader, next: Reader, consumed: nat)
    requires s.Valid() && s.process < s.load && next.response.Valid() && Complete(next.response)
    requires Process(s.memory, s.process, s.load - s.process, s.response) == (consumed, next.response)
    requires next == s.(process := s.process + consumed, response := next.response)
    ensures Drain(s) == Drain(Closed(next))
  {
    hide Process, Closed, Complete;
    assert Parsed(s) == next;
  }

  lemma FollowedIsClosed(acked: bool, p: seq<Byte>, after: Byte)
    requires Carriable(p)
    ensures var r := Followed(acked, p, after); Processed in r.flags && Event !in r.flags && Complete(r)
  {
  }

  lemma FollowedNext(
    memory: seq<Byte>, stored: seq<Byte>, base: nat, acked: bool, p: seq<Byte>, q: nat, extra: seq<Byte>)
    requires Printable(p) && Carriable(p) && q < |Sent(acked, p)| && extra != []
    requires q > 0 ==> Lead(acked) <= q && !Rebooted(p, q - Lead(acked)) && Holds(memory, base, Sent(acked, p)[..q])
    requires AgreeBelow(memory, stored, base + q) && Holds(stored, base, Sent(acked, p) + extra)
    ensures Process(stored, base + q, |Sent(acked, p)| - q + |extra|, PartOf(acked, p, q))
         == (|Sent(acked, p)| - q + Taken(extra[0]), Followed(acked, p, extra[0]))
  {
    SentBytes(acked, p);
    hide Process, Part, Holds, Sent, AgreeBelow, Rebooted, Followed, Taken;
    FollowedProcessed(stored, base, acked, p, extra);
    if q > 0 {
      PartProcessed(memory, base, acked, p, q - Lead(acked));
      PartStaysOpen(acked, p, q);
      ChunkIndependence(memory, stored, base, q, |Sent(acked, p)| - q + |extra|, BLANK);
    }
  }
}
