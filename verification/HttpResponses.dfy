/** The response parser: whole messages, and streaming with a sink that may decline a chunk. */
module HttpResponses {
  import opened Attempts
  import opened HttpText
  import opened HttpFraming
  import opened ByteBuffer

  datatype BodyMode = Normal | SuppressedWithKnownLength | SuppressedWithUnknownLength

  datatype HttpResponseHead = HttpResponseHead(
    status: nat, reason: string, headers: seq<Field>, mode: BodyMode, contentLength: Option<nat>)

  datatype HttpResponse = HttpResponse(head: HttpResponseHead, body: string)

  const EMPTY_HEAD := HttpResponseHead(200, "OK", [], Normal, None)

  function Reason(line: string): string { if |line| >= 13 then line[13..] else "" }

  /** The head a HEAD response or a streamed response carries. */
  function StreamedHead(toHead: bool, head: Head): HttpResponseHead {
    var status := Status(head.line);
    if Bodyless(status) then HttpResponseHead(status, Reason(head.line), head.fields, Normal, None)
    else if toHead && head.length.None? then
      HttpResponseHead(status, Reason(head.line), head.fields, SuppressedWithUnknownLength, None)
    else
      HttpResponseHead(status, Reason(head.line), head.fields,
                       if toHead then SuppressedWithKnownLength else Normal, head.length)
  }

  /** A whole normal response carries its length as its body. */
  function WholeResponse(toHead: bool, head: Head, body: string): HttpResponse {
    var streamed := StreamedHead(toHead, head);
    HttpResponse(if toHead then streamed else streamed.(contentLength := None), body)
  }

  // ---------------------------------------------------------------- the streaming state

  datatype Stream = Stream(result: ParseResult, headersComplete: bool, remaining: nat, bodyComplete: bool)

  const FRESH_STREAM := Stream(NeedMoreData, false, 0, false)

  function ResultOf(r: Outcome): ParseResult {
    match r
    case NeedMore => NeedMoreData
    case Error => ParseError
    case Unsupported => NotSupported
    case Ready(_) => Complete
  }

  /** After parsing headers from `bytes`: the new state and how many bytes were consumed. */
  function AfterHeaders(toHead: bool, s: Stream, bytes: string): (Stream, nat) {
    match HeadOf(Responses(toHead), bytes)
    case Ready(head) => (BodyBegun(toHead, s, head), head.end)
    case r => (s.(result := ResultOf(r)), 0)
  }

  /** Bodyless and HEAD responses are complete with their head. */
  function BodyBegun(toHead: bool, s: Stream, head: Head): Stream {
    if Bodyless(Status(head.line)) || toHead then s.(headersComplete := true, bodyComplete := true)
    else
      var length := BodyLength(Responses(toHead), head);
      s.(headersComplete := true, remaining := length, bodyComplete := length == 0)
  }

  /** The chunk offered to the sink. */
  function Offered(s: Stream, bytes: string): (chunk: string)
    ensures chunk <= bytes && |chunk| <= s.remaining
  {
    if s.result != NeedMoreData || s.bodyComplete then ""
    else if s.remaining < |bytes| then bytes[..s.remaining] else bytes
  }

  function AfterBody(s: Stream, chunk: string, accepted: bool): Stream
    requires |chunk| <= s.remaining
  {
    if s.result != NeedMoreData || s.bodyComplete then s.(result := Complete)
    else if chunk == "" || !accepted then s
    else if |chunk| == s.remaining then s.(remaining := 0, bodyComplete := true, result := Complete)
    else s.(remaining := s.remaining - |chunk|)
  }

  // ---------------------------------------------------------------- reading a head

  method IsStatusLine(line: string) returns (ok: bool)
    ensures ok <==> StatusLine(line)
  {
    var first := FindChar(line, ' ', 0);
    if first != Some(8) { return false; }
    var second := FindChar(line, ' ', 9);
    if second != Some(12) || |line| <= 13 || line[..8] != "HTTP/1.1" { return false; }
    if line[9] < '2' || line[9] > '5' || line[10] < '0' || line[10] > '9' || line[11] < '0' || line[11] > '9' {
      return false;
    }
    ok := IsValidFieldValue(line[13..]);
  }

  /** The three digits of a status line as a number. */
  method StatusOf(line: string) returns (status: nat)
    requires StatusLine(line)
    ensures status == Status(line) && 200 <= status < 600
  {
    status := DigitValue(line[9]) * 100 + DigitValue(line[10]) * 10 + DigitValue(line[11]);
    assert line[9..12] == [line[9], line[10], line[11]];
    ThreeDigits(line[9], line[10], line[11]);
  }

  lemma ThreeDigits(a: char, b: char, c: char)
    requires Digit(a) && Digit(b) && Digit(c)
    ensures Number([a, b, c]) == DigitValue(a) * 100 + DigitValue(b) * 10 + DigitValue(c)
  {
    assert [a, b, c][..2] == [a, b] && [a, b][..1] == [a] && [a][..0] == "";
    assert Number([a]) == DigitValue(a);
    assert Number([a, b]) == Number([a]) * 10 + DigitValue(b);
    assert Number([a, b, c]) == Number([a, b]) * 10 + DigitValue(c);
  }

  method ParseField(line: string, length: Option<nat>) returns (r: LineOutcome)
    ensures r == ResponseRule(line, length)
  {
    var field := Split(line);
    if field.None? { return Bad; }
    var name := LowerAscii(field.value.name);
    if name == "transfer-encoding" { return Refused; }
    var declared := length;
    if name == "content-length" {
      declared := ParseContentLength(field.value.value);
      if length.Some? || declared.None? || declared.value > MAX_RESPONSE_BODY { return Bad; }
    }
    return Fine(field.value, declared);
  }

  /** The layout reads field lines as responses have them. */
  ghost predicate ForResponses(layout: Layout) {
    && layout.lineLimit
    && forall line, length {:trigger ResponseRule(line, length)} :: layout.rule(line, length) == ResponseRule(line, length)
  }

  /** One turn of the field-line loop: the loop's outcome, or the field read and where the next line
      starts. */
  method ReadField(ghost layout: Layout, bytes: string, first: nat, cursor: nat, ghost fields: seq<Field>,
                   length: Option<nat>)
    returns (stop: Option<Outcome>, field: Field, declared: Option<nat>, next: nat)
    requires ForResponses(layout) && first + 2 <= |bytes| && cursor <= |bytes|
    ensures stop.Some? && !stop.value.Ready? ==> Fields(layout, bytes, first, cursor, fields, length) == stop.value
    ensures stop.Some? && stop.value.Ready? ==>
              Fields(layout, bytes, first, cursor, fields, length) == Ready(stop.value.head.(fields := fields))
    ensures stop.None? ==>
              && cursor < next <= |bytes|
              && Fields(layout, bytes, first, cursor, fields, length)
                 == Fields(layout, bytes, first, next, fields + [field], declared)
  {
    var end;
    field, declared, next := Field("", ""), length, cursor;
    stop, end := LineEnd(layout, bytes, first, cursor, fields, length);
    if stop.Some? { return; }
    var line := ParseField(bytes[cursor..end], length);
    FieldLine(layout, bytes, first, cursor, end, fields, length, line);
    match line
    case Bad => stop := Some(Error);
    case Refused => stop := Some(Unsupported);
    case Fine(f, d) => field, declared, next := f, d, end + 2;
  }

  /** Where the next field line ends, unless the limits, the blank line or the end of input stop it. */
  method LineEnd(ghost layout: Layout, bytes: string, first: nat, cursor: nat, ghost fields: seq<Field>, length: Option<nat>)
    returns (stop: Option<Outcome>, end: nat)
    requires first + 2 <= |bytes| && cursor <= |bytes| && layout.lineLimit
    ensures stop.Some? && !stop.value.Ready? ==> Fields(layout, bytes, first, cursor, fields, length) == stop.value
    ensures stop.Some? && stop.value.Ready? ==>
              Fields(layout, bytes, first, cursor, fields, length) == Ready(stop.value.head.(fields := fields))
    ensures stop.None? ==>
              && cursor <= MAX_HEADER + first + 2 && FindCrlf(bytes, cursor) == Some(end) && end != cursor
              && end + 2 - (first + 2) <= MAX_HEADER && end - cursor <= MAX_LINE
  {
    end := cursor;
    if cursor > MAX_HEADER + first + 2 { return Some(Error), end; }
    var found := FindCrlf(bytes, cursor);
    if found.None? {
      var tooLong := |bytes| - cursor > MAX_LINE || |bytes| > MAX_HEADER + first + 2;
      return Some(if tooLong then Error else NeedMore), end;
    }
    end := found.value;
    if end + 2 - (first + 2) > MAX_HEADER { return Some(Error), end; }
    if end == cursor { return Some(Ready(Head(bytes[..first], [], length, cursor + 2))), end; }
    if end - cursor > MAX_LINE { return Some(Error), end; }
    return None, end;
  }

  method ParseFields(toHead: bool, bytes: string, first: nat) returns (r: Outcome)
    requires first + 2 <= |bytes|
    ensures r == Fields(Responses(toHead), bytes, first, first + 2, [], None)
  {
    var length: Option<nat> := None;
    var cursor := first + 2;
    var fields: seq<Field> := [];
    while true
      invariant first + 2 <= cursor <= |bytes|
      invariant Fields(Responses(toHead), bytes, first, cursor, fields, length)
                == Fields(Responses(toHead), bytes, first, first + 2, [], None)
      decreases |bytes| - cursor
    {
      var stop, field, declared, next := ReadField(Responses(toHead), bytes, first, cursor, fields, length);
      if stop.Some? {
        return if stop.value.Ready? then Ready(stop.value.head.(fields := fields)) else stop.value;
      }
      fields, length, cursor := fields + [field], declared, next;
    }
  }

  method ReadLines(toHead: bool, bytes: string, end: nat) returns (r: Outcome)
    requires end + 2 <= |bytes|
    ensures r == HeadAfter(Responses(toHead), bytes, end)
    ensures r.Ready? ==> StatusLine(r.head.line)
  {
    if end > MAX_LINE { return Error; }
    var line := bytes[..end];
    var ok := IsStatusLine(line);
    if !ok { return Error; }
    r := ParseFields(toHead, bytes, end);
    if r.Ready? {
      var status := StatusOf(line);
      var length := r.head.length;
      if Bodyless(status) {
        if length.Some? && length.value != 0 { r := Error; }
      } else if length.None? && !toHead {
        r := Error;
      }
    }
  }

  /** The read-only header phase. */
  method ParseHeaderArea(toHead: bool, bytes: string) returns (r: Outcome)
    ensures r == HeadOf(Responses(toHead), bytes)
    ensures r.Ready? ==> StatusLine(r.head.line) && r.head.end <= |bytes|
  {
    var blank := FindBlankLine(bytes, 0);
    var bare := HasBareLineFeed(if blank.Some? then bytes[..blank.value + 4] else bytes);
    if bare { return Error; }
    var end := FindCrlf(bytes, 0);
    if end.None? {
      return if |bytes| > MAX_LINE then Error else NeedMore;
    }
    r := ReadLines(toHead, bytes, end.value);
  }

  /** What the parser makes of a verdict on the bytes it has. */
  ghost predicate ParsedWhole(v: Verdict, toHead: bool, result: ParseResult, response: HttpResponse) {
    match v
    case Pending => result == NeedMoreData
    case Rejected(unsupported) => result == if unsupported then NotSupported else ParseError
    case Accepted(head, body, _) => result == Complete && response == WholeResponse(toHead, head, body)
  }

  /** The whole-message verdict on all the readable bytes. */
  method Decide(toHead: bool, bytes: string)
    returns (result: ParseResult, headersComplete: bool, response: HttpResponse, used: nat)
    ensures ParsedWhole(Judge(Responses(toHead), bytes), toHead, result, response)
    ensures headersComplete <==> HeadOf(Responses(toHead), bytes).Ready?
    ensures result == Complete ==> used == Judge(Responses(toHead), bytes).used
  {
    response, used := HttpResponse(EMPTY_HEAD, ""), 0;
    var r := ParseHeaderArea(toHead, bytes);
    headersComplete := r.Ready?;
    if !r.Ready? {
      result := ResultOf(r);
      return;
    }
    var streamed := StreamedHead(toHead, r.head);
    if toHead {
      result, used, response := Complete, r.head.end, HttpResponse(streamed, "");
      return;
    }
    var length := if r.head.length.Some? then r.head.length.value else 0;
    if |bytes| - r.head.end < length {
      result := NeedMoreData;
      return;
    }
    result, used := Complete, r.head.end + length;
    response := HttpResponse(streamed.(contentLength := None), bytes[r.head.end..used]);
  }

  // ---------------------------------------------------------------- the parser object

  class HttpResponseParser {
    var result: ParseResult
    var headersComplete: bool
    var responseToHead: bool
    var response: HttpResponse
    var head: HttpResponseHead
    var remaining: nat
    var bodyComplete: bool

    ghost function View(): Stream
      reads this
    {
      Stream(result, headersComplete, remaining, bodyComplete)
    }

    constructor ()
      ensures View() == FRESH_STREAM && !responseToHead
    {
      result, headersComplete, responseToHead := NeedMoreData, false, false;
      response, head := HttpResponse(EMPTY_HEAD, ""), EMPTY_HEAD;
      remaining, bodyComplete := 0, false;
    }

    method Reset(toHead: bool)
      modifies this
      ensures View() == FRESH_STREAM && responseToHead == toHead
      ensures response == HttpResponse(EMPTY_HEAD, "") && head == EMPTY_HEAD
    {
      result, headersComplete, responseToHead := NeedMoreData, false, toHead;
      response, head := HttpResponse(EMPTY_HEAD, ""), EMPTY_HEAD;
      remaining, bodyComplete := 0, false;
    }

    /** Parse exactly one whole response; incomplete and rejected input is left untouched. */
    method Parse(input: Buffer)
      requires input.Valid()
      modifies this`result, this`headersComplete, this`response, input
      ensures input.Valid()
      ensures old(result) != NeedMoreData ==>
                View() == old(View()) && response == old(response) && input.Contents() == old(input.Contents())
      ensures old(result) == NeedMoreData ==>
                var bytes := old(input.Contents());
                var v := Judge(Responses(responseToHead), bytes);
                && (headersComplete <==> old(headersComplete) || HeadOf(Responses(responseToHead), bytes).Ready?)
                && input.Contents() == (if v.Accepted? then bytes[v.used..] else bytes)
                && ParsedWhole(v, responseToHead, result, response)
                && (!v.Accepted? ==> response == old(response))
    {
      if result != NeedMoreData { return; }
      var bytes := input.ReadableView();
      var complete, whole, used;
      result, complete, whole, used := Decide(responseToHead, bytes);
      headersComplete := headersComplete || complete;
      if result == Complete {
        response := whole;
        var retrieved := input.Retrieve(used);
      }
    }

    /** Parse and consume only the header area. */
    method ParseHeaders(input: Buffer) returns (r: ParseResult)
      requires input.Valid()
      modifies this`result, this`headersComplete, this`head, this`remaining, this`bodyComplete, input
      ensures input.Valid()
      ensures old(result) != NeedMoreData ==>
                View() == old(View()) && head == old(head) && input.Contents() == old(input.Contents())
      ensures old(result) == NeedMoreData ==>
                var bytes := old(input.Contents());
                var outcome := HeadOf(Responses(responseToHead), bytes);
                var after := AfterHeaders(responseToHead, old(View()), bytes);
                && r == ResultOf(outcome)
                && View() == after.0
                && after.1 <= |bytes| && input.Contents() == bytes[after.1..]
                && head == (if outcome.Ready? then StreamedHead(responseToHead, outcome.head) else old(head))
    {
      if result != NeedMoreData { return result; }
      var bytes := input.ReadableView();
      var outcome := ParseHeaderArea(responseToHead, bytes);
      if !outcome.Ready? {
        result := ResultOf(outcome);
        return result;
      }
      var retrieved := input.Retrieve(outcome.head.end);
      BeginBody(outcome.head);
      return Complete;
    }

    /** Record the head and how many body bytes follow it. */
    method BeginBody(parsed: Head)
      modifies this`headersComplete, this`head, this`remaining, this`bodyComplete
      ensures head == StreamedHead(responseToHead, parsed)
      ensures View() == BodyBegun(responseToHead, old(View()), parsed)
    {
      headersComplete := true;
      head := StreamedHead(responseToHead, parsed);
      if Bodyless(head.status) || responseToHead {
        bodyComplete := true;
      } else {
        remaining := if parsed.length.Some? then parsed.length.value else 0;
        bodyComplete := remaining == 0;
      }
    }

    /** Offer the next contiguous body bytes to the sink, whose answer is `accepts`.  The sink is
        asked exactly when the offered chunk is not empty. */
    method ConsumeBody(input: Buffer, accepts: bool) returns (r: ParseResult, chunk: string)
      requires input.Valid() && headersComplete
      modifies this`result, this`remaining, this`bodyComplete, input
      ensures input.Valid()
      ensures chunk == Offered(old(View()), old(input.Contents()))
      ensures View() == AfterBody(old(View()), chunk, accepts)
      ensures input.Contents() == if accepts then old(input.Contents())[|chunk|..] else old(input.Contents())
      ensures r == result
    {
      if result != NeedMoreData || bodyComplete {
        result := Complete;
        return result, "";
      }
      var bytes := input.ReadableView();
      var take := if remaining < |bytes| then remaining else |bytes|;
      chunk := bytes[..take];
      if take == 0 { return NeedMoreData, chunk; }
      if !accepts { return NeedMoreData, chunk; }
      var retrieved := input.Retrieve(take);
      remaining := remaining - take;
      if remaining == 0 {
        bodyComplete, result := true, Complete;
      }
      return result, chunk;
    }
  }
}
