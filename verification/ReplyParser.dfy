/**
 The reply side of the serial link (drivers/mdrive/serial.c): checksum, the
 incremental reply parser, the combiner and the classifier. A reply is a value
 here; ReplyBuffer.dfy has the struct that the code updates in place.
 */
module ReplyParser {

  type Byte = b: int | 0 <= b < 256

  const ACK: Byte := 6
  const LF: Byte := 10
  const CR: Byte := 13
  const XOFF: Byte := 19
  const NACK: Byte := 21
  const BANG: Byte := 33
  const QUOTE: Byte := 34
  const DOLLAR: Byte := 36
  const PROMPT: Byte := 62
  const QUESTION: Byte := 63

  const BUFFER_SIZE := 64

  // The one-bit members of the struct.
  datatype Flag =
    | Acked | Nacked
    | GoodChecksum      // a checksum in the reply is correct
    | Event             // the reply is an event report
    | Error             // the unit marked an error
    | Processed         // nothing more is expected for this reply
    | Echo              // the reply began with an echo of the command
    | Prompt | CrLf
    | InError           // digits of an error code are being read

  datatype Reply = Reply(
    buf: seq<Byte>,
    txid: int,
    address: Byte,
    ackLocation: Byte,
    received: nat,          // seven bits
    length: nat,            // seven bits
    code: Byte,
    flags: set<Flag>)
  {
    predicate Valid() {
      |buf| == BUFFER_SIZE && received < 128 && length < 128 && (Processed !in flags ==> length < BUFFER_SIZE - 1)
    }

    predicate Open() {
      Valid() && Processed !in flags
    }

    function Payload(): seq<Byte>
      requires |buf| == BUFFER_SIZE
    {
      if length <= BUFFER_SIZE then buf[..length] else buf
    }
  }

  function Zeros(n: nat): (zeros: seq<Byte>)
    ensures |zeros| == n && forall i :: 0 <= i < n ==> zeros[i] == 0
  {
    if n == 0 then [] else Zeros(n - 1) + [0]
  }

  /** A freshly allocated response. */
  const BLANK: Reply := Reply(Zeros(BUFFER_SIZE), 0, 0, 0, 0, 0, 0, {})

  /** Memory around the receive buffer; whatever lies outside it reads as NUL. */
  function Peek(mem: seq<Byte>, i: int): Byte {
    if 0 <= i < |mem| then mem[i] else 0
  }

  // ---------- Checksum ----------

  function SumFrom(mem: seq<Byte>, lo: int, hi: int): nat
    decreases hi - lo
  {
    if hi <= lo then 0 else SumFrom(mem, lo, hi - 1) + Peek(mem, hi - 1)
  }

  function Checksum(sum: nat): Byte {
    128 + (128 - sum % 128) % 128
  }

  predicate ChecksumMatches(mem: seq<Byte>, lo: int, hi: int, checksum: Byte) {
    hi - lo >= 1 && checksum >= 128 && checksum == Checksum(SumFrom(mem, lo, hi))
  }

  /** A checksum is accepted iff it covers something, has its high bit set, and makes the
      seven-bit sum zero. */
  lemma ChecksumAcceptedIff(mem: seq<Byte>, lo: int, hi: int, checksum: Byte)
    ensures ChecksumMatches(mem, lo, hi, checksum) <==>
            lo < hi && checksum >= 128 && (SumFrom(mem, lo, hi) + checksum) % 128 == 0
  {
    var sum := SumFrom(mem, lo, hi);
    var q, m := sum / 128, sum % 128;
    assert sum == 128 * q + m;
    if checksum >= 128 {
      assert (sum + checksum) % 128 == (m + (checksum - 128)) % 128;
    }
  }

  // ---------- The parser, one byte at a time ----------

  /** The first byte the checksum covers, as an offset into memory. */
  function ChecksumStart(base: int, r: Reply): int {
    base - r.received + if r.ackLocation != 0 then r.ackLocation else if Acked in r.flags || Nacked in r.flags then 1 else 0
  }

  /** A byte that is neither control nor checksum: a digit of an error code, or payload. */
  function Normal(c: Byte, r: Reply): (r': Reply)
    requires r.Open()
    ensures r'.Valid()
  {
    if InError in r.flags && 48 <= c <= 57 then
      r.(code := (r.code * 10 + (c - 48)) % 256)
    else
      r.(buf := r.buf[r.length := c], length := r.length + 1,
         flags := r.flags - {InError} + if r.length + 1 == BUFFER_SIZE - 1 then {Processed} else {})
  }

  // ACK or NACK noted in the flags.
  function Marked(mem: seq<Byte>, base: int, pos: int, r: Reply): Reply {
    if Peek(mem, pos) == ACK then r.(flags := r.flags + {Acked}, ackLocation := (pos - base + r.received) % 256)
    else r.(flags := r.flags + {Nacked})
  }

  function AckOrNack(mem: seq<Byte>, base: int, pos: int, r: Reply): (r': Reply)
    requires r.Open()
    ensures r'.Valid()
  {
    var m := Marked(mem, base, pos, r);
    if Event in r.flags then
      m.(flags := m.flags + {Processed},
         length := if GoodChecksum in r.flags then (r.length + 127) % 128 else r.length)
    else if r.length > 0 && (Peek(mem, pos - 1) == LF || Peek(mem, pos - 1) == XOFF) then
      m.(length := 0, flags := m.flags + {Echo})
    else m
  }

  // The line feed of a CR LF, with the prompt, error mark or ACK that may follow it.
  function LineEnd(pos: int, after: Byte, r: Reply): (next: (int, Reply))
    requires r.Open()
    ensures next.1.Valid() && pos < next.0 <= pos + 3
  {
    var mark := if after == PROMPT then {Prompt} else if after == QUESTION then {Error} else {};
    (if after == PROMPT || after == QUESTION || after == ACK then pos + 2 else pos + 1,
     r.(flags := r.flags + {Processed, CrLf} + mark))
  }

  function CarriageReturn(before: Byte, r: Reply): (r': Reply)
    requires r.Open()
    ensures r'.Valid()
  {
    if before == PROMPT && r.length > 0 then r.(length := r.length - 1, flags := r.flags + {Prompt}) else r
  }

  // A byte that may be the checksum of what came before it.
  function DataByte(mem: seq<Byte>, base: int, pos: int, r: Reply): (r': Reply)
    requires r.Open()
    ensures r'.Valid()
  {
    var c := Peek(mem, pos);
    if c >= 128 && GoodChecksum !in r.flags && ChecksumMatches(mem, ChecksumStart(base, r), pos, c)
    then r.(flags := r.flags + {GoodChecksum})
    else Normal(c, r)
  }

  /** The effect of the byte at pos: the next position and the new reply. */
  function Step(mem: seq<Byte>, base: int, pos: int, r: Reply): (next: (int, Reply))
    requires r.Open()
    ensures next.1.Valid() && pos < next.0 <= pos + 3
  {
    var c, before, after := Peek(mem, pos), Peek(mem, pos - 1), Peek(mem, pos + 1);
    if c == LF then
      if before == CR then LineEnd(pos, after, r) else (pos + 1, Normal(c, r))
    else if c == CR then
      (pos + 1, CarriageReturn(before, r))
    else if c == ACK || c == NACK then
      (pos + 1, AckOrNack(mem, base, pos, r))
    else if c == QUESTION then
      (pos + 1, r.(flags := r.flags + {InError, Error}))
    else if c == PROMPT then
      (pos + 1, if r.length == 0 then r else Normal(c, r))
    else if c == BANG then
      (pos + 1, if r.length == 0 then r.(flags := r.flags + {Event}) else Normal(c, r))
    else if c == QUOTE && Event in r.flags && r.address == 0 && r.length == 0 then
      (pos + 3, r.(address := after))
    else
      (pos + 1, DataByte(mem, base, pos, r))
  }

  /** At most n bytes from pos on, until the reply is processed. */
  function Loop(mem: seq<Byte>, base: int, pos: int, n: nat, r: Reply): (end: (int, Reply))
    requires r.Valid()
    ensures end.1.Valid() && pos <= end.0
    decreases n
  {
    if n == 0 || Processed in r.flags then (pos, r)
    else
      var (next, r') := Step(mem, base, pos, r);
      Loop(mem, base, next, n - 1, r')
  }

  /** One call of the parser on n bytes at base: the bytes consumed and the new reply. */
  function Process(mem: seq<Byte>, base: int, n: nat, r: Reply): (result: (int, Reply))
    requires r.Valid()
    ensures result.1.Valid()
  {
    if n == 0 then (0, r)
    else
      var (end, r') := Loop(mem, base, base, n, r);
      var r'' := if r'.length == 1 && r'.buf[0] == DOLLAR then r'.(flags := r'.flags + {Processed}) else r';
      (end - base, r''.(received := (r''.received + (end - base)) % 128))
  }

  // ---------- Combining and classifying ----------

  /** The length of the C string that starts the buffer. */
  function StringLength(buf: seq<Byte>): nat
    ensures StringLength(buf) <= |buf|
    ensures StringLength(buf) < |buf| ==> buf[StringLength(buf)] == 0
    ensures forall i :: 0 <= i < StringLength(buf) ==> buf[i] != 0
  {
    if buf == [] || buf[0] == 0 then 0 else 1 + StringLength(buf[1..])
  }

  /** How many characters a bounded string copy to offset `at` of a buffer keeps. */
  function Kept(at: nat, length: nat): nat {
    if at >= BUFFER_SIZE then 0
    else if length <= BUFFER_SIZE - 1 - at then length
    else BUFFER_SIZE - 1 - at
  }

  /** The flags and counters of two responses, joined. */
  function Joined(a: Reply, b: Reply): Reply {
    a.(flags := a.flags + b.flags * {Acked, Nacked, Prompt, CrLf, Error, GoodChecksum},
       code := if b.code != 0 then b.code else a.code,
       received := (a.received + b.received) % 128)
  }

  /** A bounded copy of the string that starts `from` to offset `at` of a buffer. */
  function Appended(buf: seq<Byte>, at: nat, from: seq<Byte>): seq<Byte>
    requires |buf| == |from| == BUFFER_SIZE
  {
    var kept := Kept(at, StringLength(from));
    if at >= BUFFER_SIZE then buf else buf[..at] + from[..kept] + [0] + buf[at + kept + 1..]
  }

  /** mdrive_combine_response: flags joined, b's string appended to a. */
  function Combine(a: Reply, b: Reply): Reply
    requires a.Valid() && b.Valid()
  {
    if a.txid != b.txid then a
    else
      Joined(a, b).(buf := Appended(a.buf, a.length, b.buf), length := (a.length + StringLength(b.buf)) % 128)
  }

  datatype Status =
    ResponseOk | ResponseRetry | ResponseError | ResponseNack | BadChecksum | ResponseUnknown

  const EWHAT: Byte := 24
  const EOVERRUN: Byte := 63
  const ESTALL: Byte := 86

  // The device settings the classifier looks at; what nested exchanges bring back is given.
  datatype Link = Link(
    checksumMode: int,
    txnest: int,
    ignoreErrors: bool,
    fetchedError: Byte,       // what asking the unit for its error code returns
    modeAfterReboot: int)     // the checksum mode once the unit has been set up again

  datatype Verdict = Verdict(status: Status, reply: Reply, checksumMode: int)

  /** The second half of mdrive_classify_response: error, prompt and unexpected NACK. */
  function ClassifyByFlags(link: Link, mode: int, r: Reply): Verdict {
    if Error in r.flags then
      var r := if r.code == 0 && link.txnest == 1 && !link.ignoreErrors
               then r.(code := link.fetchedError) else r;
      if r.code == EOVERRUN || r.code == EWHAT then Verdict(ResponseRetry, r, mode)
      else if r.code == ESTALL then Verdict(ResponseOk, r, mode)
      else if r.code != 0 then Verdict(ResponseError, r, mode)
      else if Nacked in r.flags then Verdict(ResponseNack, r, mode)
      else Verdict(ResponseUnknown, r, mode)
    else if Prompt in r.flags || CrLf in r.flags then Verdict(ResponseOk, r, mode)
    else Verdict(ResponseUnknown, r, if Nacked in r.flags && r.length == 0 && mode == 0 then 1 else mode)
  }

  function Classify(link: Link, r: Reply): Verdict {
    if link.checksumMode == 0 then ClassifyByFlags(link, 0, r)
    else if (r.length > 0) == (GoodChecksum in r.flags) then
      if Acked in r.flags then Verdict(ResponseOk, r, link.checksumMode)
      else ClassifyByFlags(link, link.checksumMode, if Nacked in r.flags then r.(flags := r.flags + {Error}) else r)
    else if Nacked in r.flags then Verdict(ResponseNack, r, link.checksumMode)
    else if Acked !in r.flags then
      ClassifyByFlags(link, if link.txnest == 1 then link.modeAfterReboot else link.checksumMode, r)
    else if GoodChecksum !in r.flags then Verdict(BadChecksum, r, link.checksumMode)
    else ClassifyByFlags(link, link.checksumMode, r)
  }

  /** In checksum mode a refusal counts as success only for a stall, and only when the reply is either empty
      or carries a good checksum. The stall is read off the reply, or, for an outermost transaction that does
      not ignore errors and whose reply has no code, given by the nested query. */
  lemma RefusalIsOkIffStall(link: Link, r: Reply)
    requires link.checksumMode != 0 && Nacked in r.flags && Acked !in r.flags
    ensures
      Classify(link, r).status == ResponseOk <==>
        && (r.length > 0) == (GoodChecksum in r.flags)
        && (r.code == ESTALL
            || (r.code == 0 && link.txnest == 1 && !link.ignoreErrors && link.fetchedError == ESTALL))
  {
  }

  /** In checksum mode an acknowledged reply with a payload is OK iff its checksum is good. */
  lemma AcknowledgedIsOkIffChecksum(link: Link, r: Reply)
    requires link.checksumMode != 0 && Acked in r.flags && r.length > 0
    ensures Classify(link, r).status == ResponseOk <==> GoodChecksum in r.flags
    ensures GoodChecksum !in r.flags && Nacked !in r.flags ==> Classify(link, r).status == BadChecksum
  {
  }
}
