/**
 Each status that mdrive_classify_response (drivers/mdrive/serial.c) gives, in terms of
 what the reply carries and of how the link is set.
 */
module ReplyVerdicts {
  import opened ReplyParser

  /** The reply has both a payload and a good checksum, or neither. */
  predicate Sound(r: Reply) {
    r.length > 0 <==> GoodChecksum in r.flags
  }

  /** In checksum mode the reply settles the matter by itself: a sound one that is acknowledged, an unsound
      one that is refused, and one that is acknowledged with a bad checksum. */
  predicate SettledByChecksum(link: Link, r: Reply) {
    && link.checksumMode != 0
    && (if Sound(r) then Acked in r.flags
        else Nacked in r.flags || (Acked in r.flags && GoodChecksum !in r.flags))
  }

  /** Otherwise an error is in force if the reply is marked with one, or is a sound refusal in checksum mode. */
  predicate Faulty(link: Link, r: Reply) {
    Error in r.flags || (link.checksumMode != 0 && Sound(r) && Nacked in r.flags)
  }

  /** Its code: that of the reply, or what the unit says when an outermost call that heeds errors asks it. */
  function ErrorInForce(link: Link, r: Reply): Byte {
    if r.code != 0 then r.code
    else if link.txnest == 1 && !link.ignoreErrors then link.fetchedError
    else 0
  }

  /** Every status, for every link and reply, exactly. */
  lemma StatusIff(link: Link, r: Reply)
    ensures
      var s, settled, faulty, code := Classify(link, r).status, SettledByChecksum(link, r), Faulty(link, r), ErrorInForce(link, r);
      && (s == ResponseRetry <==> !settled && faulty && (code == 63 || code == 24))
      && (s == ResponseError <==> !settled && faulty && code != 0 && code != 63 && code != 24 && code != 86)
      && (s == BadChecksum <==> settled && !Sound(r) && Nacked !in r.flags)
      && (s == ResponseNack <==> if settled then !Sound(r) && Nacked in r.flags else faulty && code == 0 && Nacked in r.flags)
      && (s == ResponseOk <==>
            if settled then Sound(r)
            else if faulty then code == 86
            else Prompt in r.flags || CrLf in r.flags)
      && (s == ResponseUnknown <==>
            !settled && (if faulty then code == 0 && Nacked !in r.flags else Prompt !in r.flags && CrLf !in r.flags))
  {
  }

  /** What the classifier changes: the reply gets the error in force if it is looked at, and the error mark if
      it is a sound refusal; the checksum mode is that of the reboot for an outermost call that got neither ACK
      nor NACK, and is switched on by a lone NACK out of checksum mode. */
  lemma ClassifiedReply(link: Link, r: Reply)
    ensures
      var v, settled, faulty := Classify(link, r), SettledByChecksum(link, r), Faulty(link, r);
      var rebooted := link.checksumMode != 0 && !Sound(r) && Nacked !in r.flags && Acked !in r.flags && link.txnest == 1;
      var mode := if rebooted then link.modeAfterReboot else link.checksumMode;
      && v.reply.code == (if !settled && faulty then ErrorInForce(link, r) else r.code)
      && v.reply.flags == (if !settled && link.checksumMode != 0 && Sound(r) && Nacked in r.flags then r.flags + {Error} else r.flags)
      && v.reply == r.(code := v.reply.code, flags := v.reply.flags)
      && v.checksumMode ==
         if !settled && !faulty && !(Prompt in r.flags || CrLf in r.flags) && Nacked in r.flags && r.length == 0 && mode == 0
         then 1 else mode
  {
  }
}
