/**
 The reader thread of drivers/mdrive/serial.c on its own buffer, pointers and response
 struct, proved against the reader of ReplyReader. A response that is pushed is given
 away; its value at that moment is what is recorded.
 */
module ReplyThread {
  import opened ReplyParser
  import opened ReplyBuffer
  import opened ReplyRoundTrip
  import opened ReplyReader

  class AsyncReader {
    const buffer: array<Byte>
    var load: nat
    var process: nat
    var txid: int
    var response: Response
    ghost var queue: seq<Reply>
    ghost var events: seq<(Byte, Byte)>

    ghost predicate Valid()
      reads this, buffer, response, response.buffer
    {
      buffer.Length == SIZE && load <= SIZE && response.buffer != buffer && response.View().Open()
    }

    ghost function View(): Reader
      reads this, buffer, response, response.buffer
    {
      Reader(buffer[..], process, load, response.View(), txid, queue, events)
    }

    constructor ()
      ensures Valid() && fresh(buffer) && fresh(response) && fresh(response.buffer)
      ensures View().Idle() && load == 0 && queue == [] && events == [] && txid == 0
    {
      buffer := new Byte[SIZE](_ => 0);
      response := new Response();
      load, process, txid, queue, events := 0, 0, 0, [], [];
    }

    // A complete response: reported, pushed, or freed; a new one takes its place.
    method Close()
      requires buffer.Length == SIZE && load <= SIZE && response.buffer != buffer && response.View().Valid()
      modifies this`load, this`process, this`response, this`queue, this`events, response, response.buffer
      ensures Valid() && View() == Closed(old(View()))
      ensures fresh(response) && fresh(response.buffer)
      ensures (process == old(process) && load == old(load)) || process == load == 0
    {
      ghost var was := response.View();
      if response.length < BUFFER_SIZE {
        response.buffer[response.length] := 0;
      }
      if Event in response.flags {
        events := events + [(response.address, response.code)];
      } else if process == load {
        process, load := 0, 0;
        response.txid := txid;
        assert response.View() == Queued(was, txid);
        queue := queue + [response.View()];
      }
      response := new Response();
    }

    // The parser on what is loaded.
    method Parse()
      requires Valid() && process < load
      modifies this`process, response, response.buffer
      ensures View() == Parsed(old(View())) && response.View().Valid()
    {
      hide Process;
      var consumed := response.ProcessResponse(buffer[..], process, load - process);
      ProcessAdvances(buffer[..], process, load - process, old(response.View()));
      process := process + consumed;
    }

    /** One turn of the thread's loop: the bytes that were read are stored and parsed. */
    method Read(bytes: seq<Byte>, transaction: int)
      requires Valid() && load + |bytes| <= SIZE
      modifies this, buffer, response, response.buffer
      ensures Valid() && View() == Receive(old(View()), bytes, transaction)
    {
      hide Process, Closed, Parsed, Queued;
      ghost var was := View();
      Store(bytes);
      ghost var first := response;
      if txid != 0 && txid != transaction {
        response := new Response();
      }
      txid := transaction;
      while process < load
        invariant Valid()
        invariant response == first || (fresh(response) && fresh(response.buffer))
        invariant Drain(View()) == Receive(was, bytes, transaction)
        decreases if process < load then load - process else 0
      {
        Turn();
      }
    }

    // One call of the parser, and what it completes.
    method Turn()
      requires Valid() && process < load
      modifies this`process, this`load, this`response, this`queue, this`events, response, response.buffer
      ensures Valid() && Drain(View()) == Drain(old(View())) && txid == old(txid)
      ensures (response == old(response) && response.buffer == old(response.buffer))
           || (fresh(response) && fresh(response.buffer))
      ensures (if process < load then load - process else 0) < old(load - process)
    {
      hide Process, Closed, Parsed, Queued;
      Parse();
      ghost var parsed := View();
      if (response.length == 0 && (Acked in response.flags || Nacked in response.flags))
         || Processed in response.flags {
        Close();
        assert View() == Closed(parsed);
      }
    }

    // The bytes go behind what is loaded, with a terminator.
    method Store(bytes: seq<Byte>)
      requires Valid() && load + |bytes| <= SIZE
      modifies this`load, buffer
      ensures Valid() && response.View() == old(response.View())
      ensures load == old(load) + |bytes| && buffer[..] == Stored(old(buffer[..]), old(load), bytes)
    {
      ghost var was := buffer[..];
      var i := 0;
      while i < |bytes|
        invariant 0 <= i <= |bytes| && load == old(load) && |was| == buffer.Length == SIZE
        invariant buffer[..] == Copied(was, load, bytes, i)
      {
        CopyOne(was, load, bytes, i);
        buffer[load + i] := bytes[i];
        i := i + 1;
      }
      assert bytes[..i] == bytes;
      load := load + |bytes|;
      if load < SIZE {
        TerminateCopy(was, load - |bytes|, bytes, i);
        buffer[load] := 0;
      }
      assert buffer[..] == Stored(was, old(load), bytes);
    }
  }
}
