/** One streamed response: the upstream connection that reads it, the transaction that forwards it
    and the client connection that writes it, with the watermark hysteresis between them.  All three
    run on one event loop; the kernel's answers to send and recv are parameters. */
module Backpressure {
  import opened Arith

  const READ_SIZE: nat := 64 * 1024

  /** One answer of send: `extra + 1` bytes (at most all), interrupted, would block, or an error. */
  datatype Send = Sent(extra: nat) | Interrupted | WouldBlock | Failed

  /** What the event loop can deliver. */
  datatype Event =
    | Readable(bytes: string, sends: seq<Send>)
    | Writable(sends: seq<Send>)
    | ClientGone(sends: seq<Send>)
    | UpstreamFailed

  class StreamRelay {
    const high: nat
    const low: nat
    const length: nat                 // declared body length
    const head: string                // the serialized response head

    // client connection
    var open: bool
    var output: string
    var writing: bool
    var committed: bool
    var responseFinished: bool
    var closeAfterWrite: bool
    // transaction
    var finished: bool
    var paused: bool
    // upstream connection
    var reading: bool
    var readPaused: bool
    var input: string
    var remaining: nat
    // history: every body byte received and every byte sent to the client
    ghost var body: string
    ghost var wire: string

    /** The client is there and the transaction is running. */
    ghost predicate Live()
      reads this
    {
      open && !finished
    }

    ghost function Taken(): int
      reads this
    {
      length - remaining
    }

    /** Between the three parties: a paused upstream has more than the low watermark queued. */
    ghost predicate Flow()
      reads this
    {
      && 0 < low < high && remaining <= length
      && (open || finished) && (open ==> (writing <==> output != ""))
      && (Live() ==> committed && !responseFinished && reading && paused == readPaused)
      && (Live() && paused ==> |output| > low)
    }

    /** Everything queued or sent is the head and the consumed body, once and in order. */
    ghost predicate Delivered(consumed: int)
      reads this
    {
      0 <= consumed <= |body| && wire + output == head + body[..consumed]
    }

    /** Delivery and the bounds on both buffers. */
    ghost predicate Settled()
      reads this
    {
      && Flow() && Delivered(Taken()) && input == body[Taken()..] && |input| <= READ_SIZE
      && |output| <= Max(high - 1, |head|) + READ_SIZE
      && (Live() && !paused ==> |output| <= Max(high - 1, |head|))
    }

    ghost predicate Valid()
      reads this
    {
      && Settled()
      && (Live() ==> input == "" && remaining > 0)
      && (remaining == 0 ==> !reading)
    }

    /** The header area was just parsed: nothing is written yet, and `rest` follows it. */
    constructor (high: nat, low: nat, head: string, length: nat, rest: string, closeAfterWrite: bool)
      requires 0 < low < high && head != "" && |rest| <= READ_SIZE
      ensures this.high == high && this.low == low && this.length == length
      ensures this.head == head && body == rest && Unstarted()
    {
      this.high, this.low, this.length, this.closeAfterWrite := high, low, length, closeAfterWrite;
      open, output, writing, committed, responseFinished := true, "", false, false, false;
      finished, paused := false, false;
      reading, readPaused, input, remaining := true, false, rest, length;
      this.head, body, wire := head, rest, "";
    }

    ghost predicate Unstarted()
      reads this
    {
      && 0 < low < high && head != "" && input == body && |input| <= READ_SIZE && remaining == length
      && open && output == "" && wire == "" && !writing && !committed && !responseFinished
      && !finished && !paused && reading && !readPaused
    }

    // -------------------------------------------------------------- resuming and pausing

    method PauseUpstreamReading()
      modifies this`paused, this`readPaused
      ensures paused
      ensures readPaused == (old(readPaused) || (!old(paused) && reading))
    {
      if paused { return; }
      paused := true;
      if reading { readPaused := true; }
    }

    /** The low-water notification.  Reading resumes only if it was paused, so a notification from
        inside the sink, whose chunk is still in the input, cannot forward that chunk again; and when
        it was paused there is no buffered input to forward. */
    method ResumeUpstreamReading()
      requires Live() && paused ==> input == "" && reading
      requires Live() ==> paused == readPaused
      requires open
      modifies this`paused, this`readPaused
      ensures finished ==> paused == old(paused) && readPaused == old(readPaused)
      ensures !finished ==> !paused && !readPaused
    {
      if finished || !paused { return; }
      paused := false;
      if !reading || !readPaused { return; }
      readPaused := false;
      if input != "" { assert false; }
    }

    method NotifyDrainedIfBelowLow(wasAboveLow: bool)
      requires Live() && paused ==> input == "" && reading
      requires Live() ==> paused == readPaused && committed && !responseFinished
      requires open
      modifies this`paused, this`readPaused
      ensures finished ==> paused == old(paused) && readPaused == old(readPaused)
      ensures !finished ==> paused == readPaused == (old(paused) && !(wasAboveLow && |output| <= low))
    {
      if !committed || responseFinished || !wasAboveLow || |output| > low { return; }
      ResumeUpstreamReading();
    }

    // -------------------------------------------------------------- the client connection

    method HandleClientAbort()
      modifies this`finished, this`open
      ensures finished && open == (old(open) && old(finished))
    {
      if finished { return; }
      finished := true;
      open := false;
    }

    /** Send until the queue is empty, the kernel blocks or the connection fails. */
    method SendQueue(sends: seq<Send>) returns (blocked: bool, failed: bool)
      modifies this`output, this`wire
      ensures wire + output == old(wire + output) && |output| <= |old(output)|
      ensures blocked ==> output != "" && !failed
      ensures !blocked && !failed ==> output == ""
    {
      blocked, failed := false, false;
      var i := 0;
      while |output| != 0
        invariant i <= |sends| && wire + output == old(wire + output) && |output| <= |old(output)|
        decreases |sends| - i
      {
        if i == |sends| || sends[i] == WouldBlock { return true, false; }
        if sends[i] == Failed { return false, true; }
        if sends[i].Sent? {
          var count := Min(sends[i].extra + 1, |output|);
          wire := wire + output[..count];
          output := output[count..];
        }
        i := i + 1;
      }
    }

    method HandleWrite(sends: seq<Send>)
      requires Flow() && (Live() && paused ==> input == "")
      modifies this`open, this`output, this`writing, this`committed, this`responseFinished, this`finished,
               this`paused, this`readPaused, this`wire
      ensures Flow() && wire + output == old(wire + output) && |output| <= |old(output)|
      ensures old(finished) ==> finished
      ensures Live() ==> old(Live()) && paused == (old(paused) && |output| > low)
    {
      if !open || !writing { return; }
      var wasAboveLow := |output| > low;
      var blocked, failed := SendQueue(sends);
      if blocked {
        NotifyDrainedIfBelowLow(wasAboveLow);
        return;
      }
      if failed {
        HandleClientAbort();
        open := false;
        return;
      }
      writing := false;
      if committed && !responseFinished {
        NotifyDrainedIfBelowLow(wasAboveLow);
        return;
      }
      if closeAfterWrite {
        open := false;
        return;
      }
      committed, responseFinished := false, false;
    }

    /** Queue body bytes and try to send.  Not possible once the response is closed or complete. */
    method WriteResponseBody(bytes: string, sends: seq<Send>) returns (ok: bool, atHigh: bool)
      requires Flow() && (Live() ==> !paused)
      modifies this`open, this`output, this`writing, this`committed, this`responseFinished, this`finished,
               this`paused, this`readPaused, this`wire
      ensures Flow()
      ensures old(finished) ==> finished
      ensures Live() ==> old(Live()) && !paused
      ensures old(Live()) ==> ok
      ensures wire + output == old(wire + output) + (if ok then bytes else "")
      ensures |output| <= |old(output)| + |bytes|
      ensures bytes != "" && ok ==> (atHigh <==> |output| >= high)
    {
      atHigh := false;
      if !open || !committed || responseFinished { return false, false; }
      ok := true;
      if bytes == "" { return; }
      ghost var before := wire + output;
      output := output + bytes;
      assert wire + output == before + bytes;
      writing := true;
      HandleWrite(sends);
      atHigh := |output| >= high;
    }

    /** The body sink: forward a chunk that is still in the input.  An accepted chunk is queued
        exactly once; reading is paused exactly when the queue has reached the high watermark. */
    method HandleResponseBody(bytes: string, sends: seq<Send>, ghost consumed: nat) returns (accepted: bool)
      requires Flow() && bytes != "" && (Live() ==> !paused)
      requires Delivered(consumed) && consumed + |bytes| <= |body| && body[consumed..consumed + |bytes|] == bytes
      modifies this`open, this`output, this`writing, this`committed, this`responseFinished, this`finished,
               this`paused, this`readPaused, this`wire
      ensures Flow()
      ensures old(finished) ==> finished
      ensures (Live() ==> accepted) && (accepted ==> old(Live()))
      ensures Delivered(if accepted then consumed + |bytes| else consumed)
      ensures |output| <= |old(output)| + |bytes|
      ensures !accepted ==> |output| <= |old(output)|
      ensures Live() ==> (paused <==> |output| >= high)
    {
      if finished { return false; }
      var ok, atHigh := WriteResponseBody(bytes, sends);
      assert body[..consumed] + bytes == body[..consumed + |bytes|];
      if !ok { assert false; }
      if atHigh { PauseUpstreamReading(); }
      return true;
    }

    /** The whole body was handed over: close the response. */
    method FinishUpstream()
      requires Flow()
      modifies this`reading, this`finished, this`open, this`committed, this`responseFinished
      ensures Flow() && !Live() && !reading && finished
    {
      reading := false;
      if finished { return; }
      finished := true;
      if !open || !committed || responseFinished { return; }
      responseFinished := true;
      if !writing {
        if closeAfterWrite {
          open := false;
        } else {
          committed, responseFinished := false, false;
        }
      }
    }

    // -------------------------------------------------------------- the upstream connection

    /** Offer `take` bytes of the input to the sink and drop them from the input if it accepts. */
    method ForwardChunk(take: nat, sends: seq<Send>) returns (accepted: bool)
      requires Settled() && (Live() ==> !paused) && 0 < take <= Min(remaining, |input|)
      modifies this`open, this`output, this`writing, this`committed, this`responseFinished, this`finished,
               this`paused, this`readPaused, this`wire, this`input, this`remaining
      ensures Settled() && (Live() ==> accepted) && (accepted ==> old(Live()))
      ensures accepted ==> remaining == old(remaining) - take && |input| == |old(input)| - take
      ensures !accepted ==> remaining == old(remaining) && input == old(input)
    {
      ghost var consumed := Taken();
      var chunk := input[..take];
      assert body[consumed..consumed + take] == chunk;
      accepted := HandleResponseBody(chunk, sends, consumed);
      if accepted {
        assert body[consumed..][take..] == body[consumed + take..];
        input := input[take..];
        remaining := remaining - take;
      }
    }

    /** Consume the buffered input: at most the declared length, in one chunk. */
    method ConsumeInput(sends: seq<Send>)
      requires Settled() && (Live() ==> !paused) && reading && input != "" && remaining > 0
      modifies this`open, this`output, this`writing, this`committed, this`responseFinished, this`finished,
               this`paused, this`readPaused, this`wire, this`input, this`remaining, this`reading
      ensures Valid() && (Live() ==> old(Live()))
    {
      var accepted := ForwardChunk(Min(remaining, |input|), sends);
      if !accepted {
        readPaused := true;
        return;
      }
      if remaining == 0 { FinishUpstream(); }
    }

    // -------------------------------------------------------------- events

    /** The response head commits the downstream response; the bytes after it are consumed. */
    method Begin(sends: seq<Send>, bodySends: seq<Send>)
      requires Unstarted()
      modifies this
      ensures Valid() && body == old(body)
    {
      output, writing, committed := head, true, true;
      assert wire + output == head + body[..0];
      HandleWrite(sends);
      if remaining == 0 {
        FinishUpstream();
        return;
      }
      if input != "" { ConsumeInput(bodySends); }
    }

    /** One turn of the streaming read loop: recv returned `bytes`. */
    method OnReadable(bytes: string, sends: seq<Send>)
      requires Valid() && 0 < |bytes| <= READ_SIZE
      modifies this
      ensures Valid()
      ensures old(readPaused || !reading) ==> body == old(body)
      ensures Live() && !old(readPaused) ==> body == old(body) + bytes
    {
      if readPaused || !reading { return; }
      if input != "" {
        ConsumeInput(sends);
        return;
      }
      input := bytes;
      ghost var taken := Taken();
      assert (body + bytes)[..taken] == body[..taken];
      body := body + bytes;
      ConsumeInput(sends);
    }

    /** The client socket takes bytes again.  While the exchange is live, the upstream stays paused
        exactly as long as more than the low watermark is queued: no drain loses its resume. */
    method OnWritable(sends: seq<Send>)
      requires Valid()
      modifies this
      ensures Valid() && body == old(body)
      ensures Live() ==> old(Live()) && paused == readPaused == (old(paused) && |output| > low)
    {
      HandleWrite(sends);
    }

    /** The client connection reports an error or a hang-up. */
    method OnClientGone(sends: seq<Send>)
      requires Valid()
      modifies this
      ensures Valid() && !Live() && body == old(body)
    {
      HandleClientAbort();
      closeAfterWrite := true;
      if writing { HandleWrite(sends); }
    }

    /** The upstream fails or a deadline passes after the head was committed: truncate the client. */
    method OnUpstreamFailed()
      requires Valid()
      modifies this
      ensures Valid() && !Live() && body == old(body)
    {
      if finished { return; }
      reading, finished, open := false, true, false;
    }

    /** Any sequence of events: what reached the client is always a prefix of the head and the
        declared body, no byte twice and none out of order; the queue stays bounded; and a live
        paused exchange always has more than the low watermark left to drain. */
    method Run(events: seq<Event>)
      requires Valid()
      requires forall e :: e in events && e.Readable? ==> 0 < |e.bytes| <= READ_SIZE
      modifies this
      ensures Valid()
      ensures wire <= head + body[..length - remaining]
      ensures |output| <= Max(high - 1, |head|) + READ_SIZE
      ensures open && !finished && paused ==> |output| > low
      ensures remaining == 0 && output == "" ==> wire == head + body[..length]
    {
      for i := 0 to |events|
        invariant Valid()
      {
        match events[i]
        case Readable(bytes, sends) =>
          assert events[i] in events;
          OnReadable(bytes, sends);
        case Writable(sends) => OnWritable(sends);
        case ClientGone(sends) => OnClientGone(sends);
        case UpstreamFailed => OnUpstreamFailed();
      }
      assert wire <= wire + output;
      assert output == "" ==> wire == wire + output;
    }
  }
}
