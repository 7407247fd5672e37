/**
 The response struct of drivers/mdrive/serial.c and the routines that update
 it in place, each proved against the functions of ReplyParser.
 */
module ReplyBuffer {
  import opened ReplyParser

  lemma ResidueOfSum(x: nat, m: Byte, c: Byte)
    requires m == x % 256
    ensures (m + c) % 256 == (x + c) % 256
  {
    var q := x / 256;
    assert x == 256 * q + m;
    assert x + c == 256 * q + (m + c);
  }

  lemma NegatedResidue(x: nat, m: Byte)
    requires m == x % 256
    ensures Checksum(x) == var negated := (255 - m + 1) % 256; if negated < 128 then negated + 128 else negated
  {
    SameResidue(x, m);
    ByteNegated(m);
  }

  lemma SameResidue(x: nat, m: Byte)
    requires m == x % 256
    ensures x % 128 == m % 128
  {
    var q := x / 256;
    assert x == 128 * (2 * q) + m;
  }

  // A buffer that holds the first i bytes of a text, and the write of the next.
  function Copied(was: seq<Byte>, at: nat, text: seq<Byte>, i: nat): (s: seq<Byte>)
    requires at + i <= |was| && i <= |text|
    ensures |s| == |was|
  {
    was[..at] + text[..i] + was[at + i..]
  }

  lemma CopyOne(was: seq<Byte>, at: nat, text: seq<Byte>, i: nat)
    requires at + i < |was| && i < |text|
    ensures Copied(was, at, text, i)[at + i := text[i]] == Copied(was, at, text, i + 1)
  {
    assert text[..i + 1] == text[..i] + [text[i]];
  }

  lemma TerminateCopy(was: seq<Byte>, at: nat, text: seq<Byte>, i: nat)
    requires at + i < |was| && i <= |text|
    ensures Copied(was, at, text, i)[at + i := 0] == was[..at] + text[..i] + [0] + was[at + i + 1..]
  {
  }

  lemma ByteNegated(m: Byte)
    ensures 128 + (128 - m % 128) % 128 ==
            var negated := (255 - m + 1) % 256; if negated < 128 then negated + 128 else negated
  {
    assert m % 128 == if m < 128 then m else m - 128;
    if m % 128 == 0 {
      assert (255 - m + 1) % 256 == if m == 0 then 0 else 128;
    } else {
      assert (128 - m % 128) % 128 == 128 - m % 128;
      assert (255 - m + 1) % 256 == 256 - m;
    }
  }

  /** mdrive_calc_checksum: an eight-bit sum, negated, with the high bit set. */
  method CalcChecksum(mem: seq<Byte>, start: int, length: nat) returns (checksum: Byte)
    ensures checksum == Checksum(SumFrom(mem, start, start + length))
  {
    var sum: Byte := 0;
    ghost var total: nat := 0;
    for i := 0 to length
      invariant total == SumFrom(mem, start, start + i)
      invariant sum == total % 256
    {
      var c := Peek(mem, start + i);
      ResidueOfSum(total, sum, c);
      total := total + c;
      sum := (sum + c) % 256;
    }
    NegatedResidue(total, sum);
    var negated := (255 - sum + 1) % 256;
    checksum := if negated < 128 then negated + 128 else negated;
  }

  method CheckChecksum(mem: seq<Byte>, start: int, length: int, checksum: Byte) returns (good: bool)
    ensures good == ChecksumMatches(mem, start, start + length, checksum)
  {
    if length < 1 {
      return false;
    } else if checksum < 128 {
      return false;
    }
    var expected := CalcChecksum(mem, start, length);
    return checksum == expected;
  }

  class Response {
    const buffer: array<Byte>
    var txid: int
    var address: Byte
    var ackLocation: Byte
    var received: nat
    var length: nat
    var code: Byte
    var flags: set<Flag>

    ghost function View(): Reply
      reads this, buffer
    {
      Reply(buffer[..], txid, address, ackLocation, received, length, code, flags)
    }

    constructor ()
      ensures View() == BLANK && fresh(buffer)
    {
      buffer := new Byte[BUFFER_SIZE](i => 0);
      txid, address, ackLocation, received, length, code := 0, 0, 0, 0, 0, 0;
      flags := {};
    }

    // The label normal_char.
    method AddNormal(c: Byte)
      requires View().Open()
      modifies this, buffer
      ensures View() == Normal(c, old(View()))
    {
      if InError in flags {
        if 48 <= c <= 57 {
          code := (code * 10 + (c - 48)) % 256;
          return;
        }
        flags := flags - {InError};
      }
      buffer[length] := c;
      length := length + 1;
      if length == BUFFER_SIZE - 1 {
        flags := flags + {Processed};
      }
    }

    // The cases for CR LF, up to the prompt or error mark after it.
    method EndLine(mem: seq<Byte>, pos: int) returns (next: int)
      requires View().Open()
      modifies this
      ensures (next, View()) == LineEnd(pos, Peek(mem, pos + 1), old(View()))
    {
      flags := flags + {Processed};
      next := pos;
      var after := Peek(mem, pos + 1);
      if after == PROMPT {
        flags := flags + {Prompt};
        next := next + 1;
      } else if after == QUESTION {
        flags := flags + {Error};
        next := next + 1;
      } else if after == ACK {
        next := next + 1;
      }
      flags := flags + {CrLf};
      next := next + 1;
      assert flags == old(flags) + {Processed, CrLf} + if after == PROMPT then {Prompt} else if after == QUESTION then {Error} else {};
    }

    // The cases for ACK and NACK.
    method Acknowledge(mem: seq<Byte>, base: int, pos: int)
      requires View().Open()
      modifies this
      ensures View() == AckOrNack(mem, base, pos, old(View()))
    {
      var c := Peek(mem, pos);
      if c == ACK {
        flags := flags + {Acked};
        ackLocation := (pos - base + received) % 256;
      } else {
        flags := flags + {Nacked};
      }
      if Event in flags {
        flags := flags + {Processed};
        if GoodChecksum in flags {
          length := (length + 127) % 128;
        }
      } else if length > 0 {
        var before := Peek(mem, pos - 1);
        if before == LF || before == XOFF {
          length := 0;
          flags := flags + {Echo};
        }
      }
    }

    // The default case: a checksum, or data.
    method AddData(mem: seq<Byte>, base: int, pos: int)
      requires View().Open()
      modifies this, buffer
      ensures View() == DataByte(mem, base, pos, old(View()))
    {
      var c := Peek(mem, pos);
      if c >= 128 && GoodChecksum !in flags {
        var start := base - received;
        if ackLocation != 0 {
          start := start + ackLocation;
        } else {
          start := start + if Acked in flags || Nacked in flags then 1 else 0;
        }
        var good := CheckChecksum(mem, start, pos - start, c);
        if good {
          flags := flags + {GoodChecksum};
          return;
        }
      }
      AddNormal(c);
    }

    /** One turn of the parser's switch. */
    method ProcessByte(mem: seq<Byte>, base: int, pos: int) returns (next: int)
      requires View().Open()
      modifies this, buffer
      ensures (next, View()) == Step(mem, base, pos, old(View()))
    {
      var c := Peek(mem, pos);
      var before := Peek(mem, pos - 1);
      next := pos + 1;
      if c == LF {
        if before == CR {
          next := EndLine(mem, pos);
        } else {
          AddNormal(c);
        }
      } else if c == CR {
        if before == PROMPT && length > 0 {
          length := length - 1;
          flags := flags + {Prompt};
        }
      } else if c == ACK || c == NACK {
        Acknowledge(mem, base, pos);
      } else if c == QUESTION {
        flags := flags + {InError, Error};
      } else if c == PROMPT {
        if length != 0 {
          AddNormal(c);
        }
      } else if c == BANG {
        if length == 0 {
          flags := flags + {Event};
        } else {
          AddNormal(c);
        }
      } else if c == QUOTE && Event in flags && address == 0 && length == 0 {
        address := Peek(mem, pos + 1);
        next := pos + 3;
      } else {
        AddData(mem, base, pos);
      }
    }

    // The parser's loop.
    method ProcessBytes(mem: seq<Byte>, base: int, count: nat) returns (bufc: int)
      requires View().Valid()
      modifies this, buffer
      ensures (bufc, View()) == Loop(mem, base, base, count, old(View()))
    {
      hide Step;
      bufc := base;
      var left := count;
      while left > 0 && Processed !in flags
        invariant View().Valid()
        invariant Loop(mem, base, bufc, left, View()) == Loop(mem, base, base, count, old(View()))
        decreases left
      {
        bufc := ProcessByte(mem, base, bufc);
        left := left - 1;
      }
    }

    /** mdrive_process_response on `count` bytes at base. */
    method ProcessResponse(mem: seq<Byte>, base: int, count: nat) returns (consumed: int)
      requires View().Valid()
      modifies this, buffer
      ensures (consumed, View()) == Process(mem, base, count, old(View()))
    {
      hide Loop;
      if count < 1 {
        return 0;
      }
      var bufc := ProcessBytes(mem, base, count);
      if length == 1 && buffer[0] == DOLLAR {
        flags := flags + {Processed};
      }
      received := (received + (bufc - base)) % 128;
      consumed := bufc - base;
    }

    /** mdrive_combine_response: append another response for the same transaction to this one. */
    method CombineWith(b: Response) returns (status: int)
      requires View().Valid() && b.View().Valid() && b.buffer != buffer
      modifies this, buffer
      ensures View() == Combine(old(View()), old(b.View()))
      ensures status == if old(txid) == old(b.txid) then 0 else -1
    {
      if txid != b.txid {
        return -1;
      }
      JoinFlags(b);
      assert b.View() == old(b.View());
      var n := LengthOfString(b.buffer);
      CopyString(b.buffer, length, n);
      length := (length + n) % 128;
      return 0;
    }

    method JoinFlags(b: Response)
      requires b != this
      modifies this
      ensures View() == Joined(old(View()), b.View())
    {
      flags := flags + b.flags * {Acked, Nacked, Prompt, CrLf, Error};
      code := if b.code != 0 then b.code else code;
      flags := flags + b.flags * {GoodChecksum};
      received := (received + b.received) % 128;
    }

    static method LengthOfString(text: array<Byte>) returns (n: nat)
      ensures n == StringLength(text[..])
    {
      n := 0;
      while n < text.Length && text[n] != 0
        invariant n <= text.Length
        invariant n + StringLength(text[n..]) == StringLength(text[..])
        decreases text.Length - n
      {
        assert text[n..][1..] == text[n + 1..];
        n := n + 1;
      }
    }

    // The bounded, NUL-terminated copy at the end of the combination.
    method CopyString(from: array<Byte>, at: nat, n: nat)
      requires buffer.Length == from.Length == BUFFER_SIZE && from != buffer && n == StringLength(from[..])
      modifies buffer
      ensures buffer[..] == Appended(old(buffer[..]), at, old(from[..]))
    {
      if at >= BUFFER_SIZE {
        return;
      }
      var kept := Kept(at, n);
      ghost var was, text := buffer[..], from[..];
      var i := 0;
      while i < kept
        invariant i <= kept && from[..] == text
        invariant buffer[..] == Copied(was, at, text, i)
      {
        CopyOne(was, at, text, i);
        buffer[at + i] := from[i];
        i := i + 1;
      }
      TerminateCopy(was, at, text, kept);
      buffer[at + kept] := 0;
    }
  }
}
