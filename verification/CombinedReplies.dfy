/**
 What mdrive_combine_response (drivers/mdrive/serial.c) makes of the text of two responses,
 also when there is no room for both.
 */
module CombinedReplies {
  import opened ReplyParser

  // The text of a response, up to its terminator.
  function Text(r: Reply): (text: seq<Byte>)
    ensures forall i :: 0 <= i < |text| ==> text[i] != 0
  {
    r.buf[..StringLength(r.buf)]
  }

  /** Combined with a response of the same transaction, a response keeps its own payload and is followed by
      as much of the other's text as leaves room for a terminator. The length counts all of that text, kept or
      not: the payload is the two together if and only if they fit. */
  lemma CombinedTextIff(a: Reply, b: Reply)
    requires a.Valid() && b.Valid() && a.txid == b.txid && a.length < BUFFER_SIZE
    ensures
      var joined, text := Combine(a, b), Text(b);
      && |joined.buf| == BUFFER_SIZE && joined.length == a.length + |text|
      && (joined.length < BUFFER_SIZE ==> joined.buf[..joined.length] == a.Payload() + text && joined.buf[joined.length] == 0)
      && (joined.length >= BUFFER_SIZE ==>
            joined.buf == a.Payload() + text[..BUFFER_SIZE - 1 - a.length] + [0])
    ensures Combine(a, b).Payload() == a.Payload() + Text(b) <==> a.length + |Text(b)| < BUFFER_SIZE
  {
    var joined, text := Combine(a, b), Text(b);
    var n := a.length + |text|;
    if n < BUFFER_SIZE {
      assert joined.buf[..n] == a.Payload() + text;
    } else {
      var kept := text[..BUFFER_SIZE - 1 - a.length];
      assert joined.buf == a.Payload() + kept + [0];
      assert (a.Payload() + text)[BUFFER_SIZE - 1] == text[BUFFER_SIZE - 1 - a.length] != 0;
    }
  }

  /** A mark that either response bears the two combined bear, unless it is one of the second that concerns its own
      text only: an echo, an event, an error code being read, the end. The later error code counts. A response
      of another transaction is not heeded. */
  lemma CombinedMarks(a: Reply, b: Reply, mark: Flag)
    requires a.Valid() && b.Valid()
    ensures a.txid != b.txid ==> Combine(a, b) == a
    ensures a.txid == b.txid ==>
              var joined := Combine(a, b);
              && (mark in joined.flags <==>
                    mark in a.flags || (mark in b.flags && mark !in {Echo, Event, InError, Processed}))
              && (b.code != 0 ==> joined.code == b.code) && (b.code == 0 ==> joined.code == a.code)
              && (joined.received - a.received - b.received) % 128 == 0
              && joined.txid == a.txid && joined.address == a.address && joined.ackLocation == a.ackLocation
  {
    hide Appended, StringLength;
  }
}
