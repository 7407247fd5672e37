/**
 The reader thread (mdrive_async_read in drivers/mdrive/serial.c) on refusals, error codes
 and plain replies, read whole or with the mark in front read alone.
 */
module RefusalReader {
  import opened ReplyParser
  import opened ReplyChunks
  import opened ReplyRoundTrip
  import opened ReplyReader
  import opened ReplyRefusals

  // What is stored, parsed.
  lemma StoredIsParsed(s: Reader, bytes: seq<Byte>, r: Reply)
    requires s.Valid() && s.load + |bytes| <= SIZE && r.Valid()
    requires forall mem :: Holds(mem, s.load, bytes) ==> Process(mem, s.load, |bytes|, BLANK) == (|bytes|, r)
    ensures Process(Stored(s.memory, s.load, bytes), s.load, |bytes|, BLANK) == (|bytes|, r)
  {
    hide Process, Stored, Holds, BLANK;
    StoredBytes(s.memory, s.load, bytes, s.load, []);
    assert [] + bytes == bytes;
  }

  lemma BegunIsDropped(s: Reader, bytes: seq<Byte>, txid: int)
    requires Ready(s, txid) && s.load + |bytes| <= SIZE
    ensures s.(response := BLANK).Idle() && Receive(s, bytes, txid) == Receive(s.(response := BLANK), bytes, txid)
  {
    hide Drain, Stored;
  }

  // A complete response that leaves nothing to be parsed.
  lemma CompleteIsQueued(s: Reader)
    requires |s.memory| == SIZE && s.process == s.load && s.response.Valid() && Event !in s.response.flags
    ensures
      var t := Drain(Closed(s));
      && t.Idle() && t.load == 0 && t.queue == s.queue + [Queued(s.response, s.txid)] && t.events == s.events
  {
    hide Queued;
  }

  // A read that is parsed in one call and leaves a complete response.
  lemma ReadIsQueued(s: Reader, bytes: seq<Byte>, txid: int, r: Reply)
    requires Ready(s, txid) && bytes != [] && s.load + |bytes| <= SIZE && r.Valid()
    requires forall mem :: Holds(mem, s.load, bytes) ==> Process(mem, s.load, |bytes|, BLANK) == (|bytes|, r)
    requires Complete(r) && Event !in r.flags
    ensures var t := Receive(s, bytes, txid);
            t.Idle() && t.load == 0 && t.queue == s.queue + [Queued(r, txid)] && t.events == s.events
  {
    var idle, end := s.(response := BLANK), s.load + |bytes|;
    hide Process, Stored, Holds, Complete, Queued, Receive, BLANK, Drain, Closed;
    StoredIsParsed(s, bytes, r);
    BegunIsDropped(s, bytes, txid);
    ReceiveConsumes(idle, bytes, txid, r);
    CompleteIsQueued(Reader(Stored(s.memory, s.load, bytes), end, end, r, txid, s.queue, s.events));
  }

  /** A reply read whole: marked as acknowledged, as refused or not at all, with or without payload, error code
      and checksum, it is queued as it was sent. */
  lemma WireIsQueued(s: Reader, w: Wire, txid: int)
    requires Ready(s, txid) && w.Sendable() && s.load + |w.Bytes()| <= SIZE
    ensures var t := Receive(s, w.Bytes(), txid);
            t.Idle() && t.load == 0 && t.queue == s.queue + [Queued(Received(w), txid)] && t.events == s.events
  {
    forall mem | Holds(mem, s.load, w.Bytes())
      ensures Process(mem, s.load, |w.Bytes()|, BLANK) == (|w.Bytes()|, Received(w))
    {
      WireIsReceived(mem, s.load, w);
    }
    assert Received(w).flags == w.Flags();
    assert |w.Bytes()| >= 2;
    hide Process, Receive, Holds, Queued;
    ReadIsQueued(s, w.Bytes(), txid, Received(w));
  }

  lemma MarkIsParsed(mem: seq<Byte>, base: int, w: Wire)
    requires w.mark != Plain && Holds(mem, base, w.Front())
    ensures Process(mem, base, 1, BLANK) == (1, MarkAlone(w.mark))
  {
    assert Peek(mem, base + 0) == w.Front()[0];
    var r := ReplyRefusals.Marked(w.mark);
    assert BLANK.flags + {Acked} == {Acked} && BLANK.flags + {Nacked} == {Nacked};
    assert Step(mem, base, base, BLANK) == (base + 1, r);
    hide Step;
    assert Loop(mem, base, base + 1, 0, r) == (base + 1, r);
  }

  /** The mark read alone, acknowledgement or refusal: it is queued, and nothing is left to be parsed. */
  lemma MarkIsQueued(s: Reader, w: Wire, txid: int)
    requires Ready(s, txid) && w.mark != Plain && s.load < SIZE
    ensures var t := Receive(s, w.Front(), txid);
            t.Idle() && t.load == 0 && t.queue == s.queue + [Queued(MarkAlone(w.mark), txid)] && t.events == s.events
  {
    forall mem | Holds(mem, s.load, w.Front())
      ensures Process(mem, s.load, |w.Front()|, BLANK) == (|w.Front()|, MarkAlone(w.mark))
    {
      MarkIsParsed(mem, s.load, w);
    }
    assert |w.Front()| == 1;
    hide Process, Receive, Holds, Queued;
    ReadIsQueued(s, w.Front(), txid, MarkAlone(w.mark));
  }

  lemma FrontAndRest(w: Wire)
    ensures w.Bytes() == w.Front() + w.(mark := Plain).Bytes()
  {
    hide Checksum, SumFrom;
  }

  // What one read queues, and what two queue.
  lemma MarkedReplyIsQueued(s: Reader, w: Wire, txid: int)
    requires Ready(s, txid) && w.Sendable() && w.mark != Plain && s.load + |w.Bytes()| <= SIZE
    ensures
      var rest := w.(mark := Plain);
      var once, first := Receive(s, w.Bytes(), txid), Receive(s, w.Front(), txid);
      && rest.Sendable() && first.load + |rest.Bytes()| <= SIZE
      && (var twice := Receive(first, rest.Bytes(), txid);
          && once.Idle() && twice.Idle() && once.load == twice.load == 0
          && once.queue == s.queue + [Queued(Received(w), txid)]
          && twice.queue == s.queue + [Queued(MarkAlone(w.mark), txid), Queued(Received(rest), txid)])
  {
    var rest := w.(mark := Plain);
    FrontAndRest(w);
    assert rest.Sendable();
    hide Receive, Received, MarkAlone, Queued, Wire.Bytes, Wire.Sendable, BLANK;
    WireIsQueued(s, w, txid);
    MarkIsQueued(s, w, txid);
    WireIsQueued(Receive(s, w.Front(), txid), rest, txid);
  }

  /** A marked reply, read whole or in two reads, the first of the mark alone: the reader queues one response or
      two, and is idle again with its buffer empty; and the two combined have the payload, the code and, on every
      link, the verdict of the one. */
  lemma MarkedReplyIsDelivered(s: Reader, w: Wire, txid: int, link: Link) returns (whole: Reply, a: Reply, b: Reply)
    requires Ready(s, txid) && w.Sendable() && w.mark != Plain && s.load + |w.Bytes()| <= SIZE && |w.Bytes()| < 128
    ensures w.Bytes() == w.Front() + w.(mark := Plain).Bytes()
    ensures var once := Receive(s, w.Bytes(), txid); once.Idle() && once.load == 0 && once.queue == s.queue + [whole]
    ensures var first := Receive(s, w.Front(), txid);
            && first.load + |w.(mark := Plain).Bytes()| <= SIZE
            && var twice := Receive(first, w.(mark := Plain).Bytes(), txid);
               twice.Idle() && twice.load == 0 && twice.queue == s.queue + [a, b]
    ensures whole.Valid() && a.Valid() && b.Valid() && a.txid == b.txid == whole.txid == txid
    ensures whole.length == |w.payload| && whole.Payload() == w.payload && whole.code == w.Code()
    ensures var joined := Combine(a, b);
            && joined.length == |w.payload| && joined.Payload() == w.payload && joined.code == w.Code()
            && Classify(link, joined).status == Classify(link, whole).status
  {
    MarkedReplyIsQueued(s, w, txid);
    whole, a, b := Queued(Received(w), txid), Queued(MarkAlone(w.mark), txid), Queued(Received(w.(mark := Plain)), txid);
    FrontAndRest(w);
    hide Receive, Combine, Classify, Received, MarkAlone, Queued, Wire.Bytes, Wire.Sendable, BLANK;
    SplitWireRecombines(w, txid, link);
    QueuedParts(w, txid);
  }

  lemma QueuedParts(w: Wire, txid: int)
    requires |w.payload| <= 62
    ensures
      var whole := Queued(Received(w), txid);
      whole.Valid() && whole.txid == txid && whole.length == |w.payload| && whole.code == w.Code()
    ensures Queued(MarkAlone(w.mark), txid).Valid() && Queued(MarkAlone(w.mark), txid).txid == txid
    ensures Queued(Received(w.(mark := Plain)), txid).Valid() && Queued(Received(w.(mark := Plain)), txid).txid == txid
  {
  }
}
