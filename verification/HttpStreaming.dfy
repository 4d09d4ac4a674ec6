/** Streaming a response: every segmentation of the bytes, every pattern of accepted and declined
    chunks, against what the whole-message parser makes of the same bytes. */
module HttpStreaming {
  import opened HttpText
  import opened HttpFraming
  import opened HttpSegments
  import opened HttpResponses

  datatype Event = Receive(bytes: string) | Headers | Body(accepts: bool)

  /** The parser's state, its input buffer, and the history: every byte received and every byte the
      sink accepted. */
  datatype Session = Session(stream: Stream, buffer: string, received: string, delivered: string)

  const START := Session(FRESH_STREAM, "", "", "")

  predicate Enabled(s: Session, e: Event) {
    match e
    case Receive(_) => true
    case Headers => !s.stream.headersComplete && s.stream.result == NeedMoreData
    case Body(_) => s.stream.headersComplete
  }

  function Apply(toHead: bool, s: Session, e: Event): Session
    requires Enabled(s, e)
  {
    match e
    case Receive(bytes) => s.(buffer := s.buffer + bytes, received := s.received + bytes)
    case Headers =>
      var (stream, used) := AfterHeaders(toHead, s.stream, s.buffer);
      s.(stream := stream, buffer := if used <= |s.buffer| then s.buffer[used..] else "")
    case Body(accepts) =>
      var chunk := Offered(s.stream, s.buffer);
      var stream := AfterBody(s.stream, chunk, accepts);
      if accepts then s.(stream := stream, buffer := s.buffer[|chunk|..], delivered := s.delivered + chunk)
      else s.(stream := stream)
  }

  ghost predicate Runs(toHead: bool, s: Session, events: seq<Event>, s': Session)
    decreases |events|
  {
    if events == [] then s == s'
    else Enabled(s, events[0]) && Runs(toHead, Apply(toHead, s, events[0]), events[1..], s')
  }

  /** Before the headers are complete nothing is consumed. */
  ghost predicate Waiting(s: Session) {
    && s.buffer == s.received && s.delivered == ""
    && s.stream.remaining == 0 && !s.stream.bodyComplete && s.stream.result != Complete
  }

  /** After: the stream is the head, the delivered bytes, and the buffer, in that order. */
  ghost predicate Delivering(head: Head, length: nat, s: Session) {
    var at := head.end + |s.delivered|;
    && at <= |s.received| && s.delivered == s.received[head.end..at] && s.buffer == s.received[at..]
    && |s.delivered| + s.stream.remaining == length
    && (s.stream.bodyComplete <==> s.stream.remaining == 0)
    && (s.stream.result == NeedMoreData || s.stream.bodyComplete)
  }

  ghost predicate Inv(toHead: bool, s: Session) {
    if !s.stream.headersComplete then Waiting(s)
    else
      var r := HeadOf(Responses(toHead), s.received);
      r.Ready? && Delivering(r.head, BodyLength(Responses(toHead), r.head), s)
  }

  lemma DeliveringMore(head: Head, length: nat, s: Session, bytes: string)
    requires Delivering(head, length, s)
    ensures Delivering(head, length, s.(buffer := s.buffer + bytes, received := s.received + bytes))
  {
    var at, all := head.end + |s.delivered|, s.received + bytes;
    assert all[head.end..at] == s.received[head.end..at];
    assert all[at..] == s.received[at..] + bytes;
  }

  lemma KeepsReceive(toHead: bool, s: Session, bytes: string)
    requires Inv(toHead, s)
    ensures Inv(toHead, Apply(toHead, s, Receive(bytes)))
  {
    if s.stream.headersComplete {
      HeadKept(Responses(toHead), s.received, bytes);
      var head := HeadOf(Responses(toHead), s.received).head;
      DeliveringMore(head, BodyLength(Responses(toHead), head), s, bytes);
    }
  }

  /** A bodyless or HEAD response has no body bytes on the wire. */
  lemma NoBody(toHead: bool, b: string)
    requires HeadOf(Responses(toHead), b).Ready?
    ensures var head := HeadOf(Responses(toHead), b).head;
            && head.end <= |b|
            && (Bodyless(Status(head.line)) || toHead ==> BodyLength(Responses(toHead), head) == 0)
  {
    HeadReady(Responses(toHead), b);
    var first := FindCrlf(b, 0).value;
    var head := HeadOf(Responses(toHead), b).head;
    assert head.line == b[..first] && ResponseFramed(toHead, head.line, head.length);
  }

  lemma KeepsHeaders(toHead: bool, s: Session)
    requires Inv(toHead, s) && Enabled(s, Headers)
    ensures Inv(toHead, Apply(toHead, s, Headers))
  {
    var r := HeadOf(Responses(toHead), s.buffer);
    if r.Ready? {
      NoBody(toHead, s.buffer);
      var s', end := Apply(toHead, s, Headers), r.head.end;
      assert s'.delivered == "" && s'.received[end..end] == "" && s'.buffer == s'.received[end..];
      assert Delivering(r.head, BodyLength(Responses(toHead), r.head), s');
    }
  }

  lemma DeliveringChunk(head: Head, length: nat, s: Session, accepts: bool)
    requires Delivering(head, length, s) && s.stream.headersComplete
    ensures Delivering(head, length, Apply(false, s, Body(accepts)))
    ensures Apply(true, s, Body(accepts)) == Apply(false, s, Body(accepts))
  {
    var chunk, at := Offered(s.stream, s.buffer), head.end + |s.delivered|;
    var s' := Apply(false, s, Body(accepts));
    if accepts {
      var at' := at + |chunk|;
      assert s.received[at..][..|chunk|] == chunk;
      assert s.received[head.end..at'] == s.received[head.end..at] + s.received[at..at'];
      assert s.received[at..][|chunk|..] == s.received[at'..];
    }
  }

  lemma KeepsBody(toHead: bool, s: Session, accepts: bool)
    requires Inv(toHead, s) && s.stream.headersComplete
    ensures Inv(toHead, Apply(toHead, s, Body(accepts)))
  {
    var head := HeadOf(Responses(toHead), s.received).head;
    DeliveringChunk(head, BodyLength(Responses(toHead), head), s, accepts);
  }

  lemma StepKeeps(toHead: bool, s: Session, e: Event)
    requires Inv(toHead, s) && Enabled(s, e)
    ensures Inv(toHead, Apply(toHead, s, e))
  {
    match e
    case Receive(bytes) => KeepsReceive(toHead, s, bytes);
    case Headers => KeepsHeaders(toHead, s);
    case Body(accepts) => KeepsBody(toHead, s, accepts);
  }

  lemma {:induction false} RunKeeps(toHead: bool, s: Session, events: seq<Event>, s': Session)
    requires Inv(toHead, s) && Runs(toHead, s, events, s')
    ensures Inv(toHead, s')
    decreases |events|
  {
    if events != [] {
      StepKeeps(toHead, s, events[0]);
      RunKeeps(toHead, Apply(toHead, s, events[0]), events[1..], s');
    }
  }

  lemma Matches(layout: Layout, head: Head, length: nat, s: Session, more: string, v: Verdict)
    requires Delivering(head, length, s) && length == BodyLength(layout, head)
    requires HeadOf(layout, s.received + more) == Ready(head)
    requires v == Judge(layout, s.received + more) && v.Accepted?
    ensures s.delivered <= v.body && |s.received| - |s.buffer| <= v.used
    ensures s.stream.bodyComplete <==> s.delivered == v.body
  {
    var all, at := s.received + more, head.end + |s.delivered|;
    assert all[head.end..at] == s.received[head.end..at];
    assert v.body == all[head.end..head.end + length];
    assert v.body[..|s.delivered|] == all[head.end..at];
  }

  /** For every response the whole-message parser accepts, whatever the pieces it arrives in and
      whatever the sink declines: what was delivered is a prefix of the body, it is the body exactly
      when the body is reported complete, and nothing past the message is consumed.  Before the
      headers are complete nothing is consumed at all. */
  lemma StreamsTheBody(toHead: bool, events: seq<Event>, s: Session, more: string, v: Verdict)
    requires Runs(toHead, START, events, s)
    requires v == Judge(Responses(toHead), s.received + more) && v.Accepted?
    ensures s.delivered <= v.body && |s.received| - |s.buffer| <= v.used
    ensures s.stream.headersComplete ==> (s.stream.bodyComplete <==> s.delivered == v.body)
    ensures !s.stream.headersComplete ==> s.buffer == s.received && s.delivered == "" && !s.stream.bodyComplete
  {
    RunKeeps(toHead, START, events, s);
    if s.stream.headersComplete {
      var layout := Responses(toHead);
      HeadKept(layout, s.received, more);
      var head := HeadOf(layout, s.received).head;
      Matches(layout, head, BodyLength(layout, head), s, more, v);
    }
  }
}
