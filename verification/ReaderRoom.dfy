/**
 The room behind the load pointer of the reader thread (drivers/mdrive/serial.c:545-604):
 only a response that is queued resets the pointers, so that event reports and replies
 that are freed use the buffer up; a reader that has no room left hears nothing more.
 */
module ReaderRoom {
  import opened ReplyParser
  import opened ReplyChunks
  import opened ReplyRoundTrip
  import opened ReplyReader
  import opened EventCuts

  // ---------- When a reply fits ----------

  /** Whether the rest of a reply fits: always once the ACK was read alone, since the pointers are reset then;
      otherwise with room for the ACK, if it is going to be read alone, or for the whole reply. */
  predicate HasRoom(p: seq<Byte>, base: nat, c: nat, split: bool, pieces: seq<seq<Byte>>) {
    split || (c == 0 && 1 in Cuts(pieces, 0) && base + 1 <= SIZE) || base + |Frame(p)| <= SIZE
  }

  lemma {:induction false} PiecesFitIff(
    s: Reader, p: seq<Byte>, base: nat, c: nat, split: bool, pieces: seq<seq<Byte>>, txid: int)
    requires Printable(p) && Carriable(p)
    requires c < |Frame(p)| && Stream(pieces) == Frame(p)[c..]
    requires s.txid == 0 || s.txid == txid || s.response == BLANK
    requires Midway(s, p, base, c, split) && !Spoils(p, c)
    requires forall k <- Cuts(pieces, c) :: !Spoils(p, k)
    ensures Fits(s, pieces, txid) <==> HasRoom(p, base, c, split, pieces)
    decreases |pieces|
  {
    hide Part, Rebooted, Holds, Process, Queued, Stored, Recovered, Frame, Body, Midway, Receive, Spoils;
    var n := c + |pieces[0]|;
    NextPieces(p, c, pieces);
    SpoilsIsReboot(p, c);
    SpoilsIsReboot(p, n);
    MidwayFits(s, p, base, c, split);
    MidwayLoad(s, p, base, c, split);
    CutsAreLater(pieces[1..], n);
    assert n in Cuts(pieces, c) && Cuts(pieces[1..], n) <= Cuts(pieces, c);
    assert !Spoils(p, n) && (c == 0 && n >= 2 ==> 1 !in Cuts(pieces, c));
    if s.load + |pieces[0]| <= SIZE {
      var t := Receive(s, pieces[0], txid);
      if pieces[0] == [] {
        NothingReceived(s, p, base, c, split, txid);
        PiecesFitIff(t, p, base, c, split, pieces[1..], txid);
      } else {
        PieceReceived(s, p, base, c, split, pieces[0], txid);
        if n == |Frame(p)| {
          NothingDelivered(t, pieces[1..], txid);
        } else if n == 1 {
          PiecesFitIff(t, p, base, 1, true, pieces[1..], txid);
        } else {
          PiecesFitIff(t, p, base, n, split, pieces[1..], txid);
        }
      }
    }
  }

  lemma MidwayLoad(s: Reader, p: seq<Byte>, base: nat, c: nat, split: bool)
    requires Carriable(p) && Midway(s, p, base, c, split)
    ensures s.process == s.load == if split then c - 1 else base + c
    ensures |Frame(p)| <= 66
  {
  }

  /** An idle reader has room for a reply, in whatever pieces it is read, if and only if the whole reply fits
      behind what is loaded, or the ACK is read alone and fits. */
  lemma ReplyFitsIff(s: Reader, p: seq<Byte>, pieces: seq<seq<Byte>>, txid: int)
    requires s.Idle() && Printable(p) && Carriable(p) && Stream(pieces) == Frame(p)
    requires forall k <- Cuts(pieces, 0) :: !Spoils(p, k)
    ensures Fits(s, pieces, txid) <==>
              s.load + |Frame(p)| <= SIZE || (1 in Cuts(pieces, 0) && s.load + 1 <= SIZE)
  {
    hide Frame, Spoils, Fits, Cuts;
    assert Frame(p)[0..] == Frame(p);
    Untouched(s, p);
    PiecesFitIff(s, p, s.load, 0, false, pieces, txid);
  }

  // ---------- No room left ----------

  /** Nothing can be read behind the load pointer, and nothing is left to be parsed. */
  predicate Deaf(s: Reader) {
    s.Valid() && s.load == SIZE && s.process >= SIZE
  }

  /** A reader without room stays so: whatever the units send, and in whatever transactions, a read brings
      nothing, queues nothing and reports nothing. */
  lemma {:induction false} DeafForever(s: Reader, heard: seq<(seq<Byte>, int)>)
    requires Deaf(s) && Heard(s, heard)
    ensures var t := Listened(s, heard); Deaf(t) && t.queue == s.queue && t.events == s.events
    decreases |heard|
  {
    if heard != [] {
      var (bytes, txid) := heard[0];
      assert bytes == [];
      assert Stored(s.memory, s.load, []) == s.memory;
      DeafForever(Receive(s, bytes, txid), heard[1..]);
    }
  }

  // Reads over any number of transactions, each as much as fits.
  predicate Heard(s: Reader, heard: seq<(seq<Byte>, int)>)
    requires s.Valid()
    decreases |heard|
  {
    heard == []
    || (s.load + |heard[0].0| <= SIZE && Heard(Receive(s, heard[0].0, heard[0].1), heard[1..]))
  }

  function Listened(s: Reader, heard: seq<(seq<Byte>, int)>): (t: Reader)
    requires s.Valid() && Heard(s, heard)
    ensures t.Valid()
    decreases |heard|
  {
    if heard == [] then s else Listened(Receive(s, heard[0].0, heard[0].1), heard[1..])
  }

  // The first bytes of a reply, in pieces that fit, none ending where the ACK or a dollar sign is alone.
  lemma {:induction false} PartDelivered(
    s: Reader, p: seq<Byte>, base: nat, c: nat, n: nat, pieces: seq<seq<Byte>>, txid: int)
    requires Printable(p) && Carriable(p) && c <= n < |Frame(p)| && base + n <= SIZE
    requires Stream(pieces) == Frame(p)[c..n]
    requires s.txid == 0 || s.txid == txid || s.response == BLANK
    requires Midway(s, p, base, c, false) && !Spoils(p, c)
    requires forall k <- Cuts(pieces, c) :: k != 1 && !Spoils(p, k)
    ensures Fits(s, pieces, txid)
    ensures var t := Deliver(s, pieces, txid);
            t.load == t.process == base + n && t.queue == s.queue && t.events == s.events
    decreases |pieces|
  {
    hide Part, Rebooted, Holds, Process, Queued, Stored, Recovered, Frame, Body, Midway, Receive, Spoils;
    MidwayLoad(s, p, base, c, false);
    MidwayFits(s, p, base, c, false);
    if pieces != [] {
      var m := c + |pieces[0]|;
      NextOf(Frame(p)[c..n], pieces);
      assert Frame(p)[c..n][..|pieces[0]|] == Frame(p)[c..m] && Frame(p)[c..n][|pieces[0]|..] == Frame(p)[m..n];
      SpoilsIsReboot(p, c);
      SpoilsIsReboot(p, m);
      CutsAreLater(pieces[1..], m);
      assert m in Cuts(pieces, c) && Cuts(pieces[1..], m) <= Cuts(pieces, c);
      var t := Receive(s, pieces[0], txid);
      if pieces[0] == [] {
        NothingReceived(s, p, base, c, false, txid);
      } else {
        PieceReceived(s, p, base, c, false, pieces[0], txid);
      }
      PartDelivered(t, p, base, m, n, pieces[1..], txid);
    }
  }

  lemma NextOf(all: seq<Byte>, pieces: seq<seq<Byte>>)
    requires pieces != [] && Stream(pieces) == all
    ensures |pieces[0]| <= |all| && pieces[0] == all[..|pieces[0]|] && Stream(pieces[1..]) == all[|pieces[0]|..]
  {
  }

  /** A reply that does not fit fills the buffer up: the reader gets its first bytes and is deaf from then on. */
  lemma CutOffReplyDeafens(s: Reader, p: seq<Byte>, pieces: seq<seq<Byte>>, txid: int)
    requires s.Idle() && Printable(p) && Carriable(p) && s.load + |Frame(p)| > SIZE
    requires Stream(pieces) == Frame(p)[..SIZE - s.load]
    requires forall k <- Cuts(pieces, 0) :: k != 1 && !Spoils(p, k)
    ensures Fits(s, pieces, txid) && Deaf(Deliver(s, pieces, txid))
  {
    hide Frame, Spoils, Fits, Cuts, Deliver, Receive;
    assert Frame(p)[0..SIZE - s.load] == Frame(p)[..SIZE - s.load];
    Untouched(s, p);
    PartDelivered(s, p, s.load, 0, SIZE - s.load, pieces, txid);
  }

  // ---------- Event reports use the room up ----------

  // A call that completes a response does not look at the bytes behind it.
  lemma LongerCall(mem: seq<Byte>, base: int, n: nat, more: nat, r: Reply)
    requires n > 0 && Process(mem, base, n, BLANK) == (n, r) && Processed in r.flags && r.length != 1
    ensures Process(mem, base, n + more, BLANK) == (n, r)
  {
    LoopSplits(mem, base, base, n, more, BLANK);
    hide Step;
    var (end, r') := Loop(mem, base, base, n, BLANK);
    assert end == base + n && Processed in r'.flags;
    assert Loop(mem, base, end, more, r') == (end, r');
  }

  // What is stored of a report and the bytes behind it.
  lemma StoredReport(s: Reader, a: Byte, digits: seq<Byte>, more: seq<Byte>)
    requires s.Valid() && s.load + |Report(a, digits) + more| <= SIZE
    ensures Lies(Stored(s.memory, s.load, Report(a, digits) + more), s.load, Report(a, digits))
  {
    var report, all := Report(a, digits), Report(a, digits) + more;
    hide Report;
    StoredBytes(s.memory, s.load, all, s.load, []);
    assert [] + all == all;
    var stored := Stored(s.memory, s.load, all);
    hide Stored;
    forall i {:trigger report[i]} | 0 <= i < |report|
      ensures Peek(stored, s.load + i) == report[i]
    {
      assert all[i] == report[i];
    }
  }

  // The response to a report.
  function Response(a: Byte, digits: seq<Byte>): (r: Reply)
    ensures r.Valid() && Complete(r) && Event in r.flags && Processed in r.flags && r.length == 0
    ensures r.address == a && r.code == CodeOf(digits, 0)
  {
    var n := |digits| + 6;
    Reported(a, CodeOf(digits, 0), (n - 1) % 256).(received := n % 128)
  }

  lemma ReportParsed(mem: seq<Byte>, base: int, a: Byte, digits: seq<Byte>, more: nat)
    requires AllCodeDigits(digits) && Lies(mem, base, Report(a, digits))
    ensures Process(mem, base, |digits| + 6 + more, BLANK) == (|digits| + 6, Response(a, digits))
  {
    WholeReport(mem, base, a, digits);
    hide Process, Lies, Report, AllCodeDigits, CodeOf, BLANK;
    LongerCall(mem, base, |digits| + 6, more, Response(a, digits));
  }

  lemma ReportIsClosed(next: Reader, a: Byte, digits: seq<Byte>)
    requires next.response == Response(a, digits)
    ensures Closed(next) == next.(response := BLANK, events := next.events + [(a, CodeOf(digits, 0))])
  {
    hide Response, CodeOf, BLANK;
  }

  /** An event report with more bytes behind it in the same read is reported all the same, and the reader goes
      on behind it with a new response. */
  lemma EventAmongOthers(s: Reader, a: Byte, digits: seq<Byte>, more: seq<Byte>, txid: int)
    requires s.Idle() && AllCodeDigits(digits) && s.load + |Report(a, digits) + more| <= SIZE
    ensures
      var bytes, n := Report(a, digits) + more, |digits| + 6;
      Receive(s, bytes, txid) == Drain(Reader(Stored(s.memory, s.load, bytes), s.load + n, s.load + n + |more|, BLANK,
                                              txid, s.queue, s.events + [(a, CodeOf(digits, 0))]))
  {
    hide Process, Response, BLANK, Report, Stored, Lies, AllCodeDigits, CodeOf, Receive, Drain, Closed, Complete;
    var bytes, n := Report(a, digits) + more, |digits| + 6;
    ReportLength(a, digits);
    StoredReport(s, a, digits, more);
    var stored := Stored(s.memory, s.load, bytes);
    ReportParsed(stored, s.load, a, digits, |more|);
    var next := Reader(stored, s.load + n, s.load + n + |more|, Response(a, digits), txid, s.queue, s.events);
    ReceiveCloses(s, bytes, txid, next);
    ReportIsClosed(next, a, digits);
  }

  /** An event report read whole by an idle reader is reported, and its bytes stay in the buffer. */
  lemma EventReceived(s: Reader, a: Byte, digits: seq<Byte>, txid: int)
    requires s.Idle() && AllCodeDigits(digits) && s.load + |Report(a, digits)| <= SIZE
    ensures
      var t := Receive(s, Report(a, digits), txid);
      && t.Idle() && t.load == s.load + |digits| + 6
      && t.queue == s.queue && t.events == s.events + [(a, CodeOf(digits, 0))]
  {
    hide Receive, CodeOf, Stored, BLANK;
    assert Report(a, digits) + [] == Report(a, digits);
    EventAmongOthers(s, a, digits, [], txid);
  }

  function Reports(a: Byte, digits: seq<Byte>, n: nat): seq<seq<Byte>> {
    if n == 0 then [] else [Report(a, digits)] + Reports(a, digits, n - 1)
  }

  /** Event reports, each read whole, leave an idle reader deaf once they fill the buffer; 64 of them with a
      code of two digits do that from its start. */
  lemma {:induction false} EventsDeafen(s: Reader, a: Byte, digits: seq<Byte>, n: nat, txid: int)
    requires s.Idle() && AllCodeDigits(digits) && s.load + n * (|digits| + 6) <= SIZE
    ensures Fits(s, Reports(a, digits, n), txid)
    ensures
      var t := Deliver(s, Reports(a, digits, n), txid);
      t.Idle() && t.load == s.load + n * (|digits| + 6) && t.queue == s.queue && |t.events| == |s.events| + n
    ensures s.load + n * (|digits| + 6) == SIZE ==> Deaf(Deliver(s, Reports(a, digits, n), txid))
    decreases n
  {
    hide Receive, Report, AllCodeDigits, CodeOf;
    if n > 0 {
      assert n * (|digits| + 6) == (|digits| + 6) + (n - 1) * (|digits| + 6);
      ReportLength(a, digits);
      EventReceived(s, a, digits, txid);
      var more := Reports(a, digits, n - 1);
      assert ([Report(a, digits)] + more)[1..] == more;
      EventsDeafen(Receive(s, Report(a, digits), txid), a, digits, n - 1, txid);
    }
  }

  lemma ReportLength(a: Byte, digits: seq<Byte>)
    ensures |Report(a, digits)| == |digits| + 6
  {
  }
}
