/** The request parser. */
module HttpRequests {
  import opened Attempts
  import opened HttpText
  import opened HttpFraming
  import opened ByteBuffer

  datatype HttpRequest = HttpRequest(
    method_: string, target: string, version: string, body: string, headers: map<string, string>)

  const EMPTY_REQUEST := HttpRequest("", "", "", "", map[])

  /** Later values replace earlier ones; `connection` values are joined with a comma. */
  function Add(headers: map<string, string>, field: Field): map<string, string> {
    var name := Lowered(field.name);
    if name == "connection" && name in headers then headers[name := headers[name] + "," + field.value]
    else headers[name := field.value]
  }

  function Merge(fields: seq<Field>): map<string, string> {
    if fields == [] then map[] else Add(Merge(fields[..|fields| - 1]), fields[|fields| - 1])
  }

  function RequestOf(line: string, fields: seq<Field>, body: string): HttpRequest
    requires RequestLine(line)
  {
    var first := FindChar(line, ' ', 0).value;
    var second := FindChar(line, ' ', first + 1).value;
    HttpRequest(line[..first], line[first + 1..second], "HTTP/1.1", body, Merge(fields))
  }

  /** What the parser makes of a verdict on the bytes it has. */
  ghost predicate Parsed(v: Verdict, result: ParseResult, request: HttpRequest) {
    match v
    case Pending => result == NeedMoreData
    case Rejected(unsupported) => result == if unsupported then NotSupported else ParseError
    case Accepted(head, body, _) =>
      result == Complete && RequestLine(head.line) && request == RequestOf(head.line, head.fields, body)
  }

  class HttpRequestParser {
    var result: ParseResult
    var request: HttpRequest

    constructor ()
      ensures result == NeedMoreData
    {
      result, request := NeedMoreData, EMPTY_REQUEST;
    }

    method Reset()
      modifies this
      ensures result == NeedMoreData && request == EMPTY_REQUEST
    {
      result, request := NeedMoreData, EMPTY_REQUEST;
    }

    /** Parse at most one request.  A decided parser stays decided; an undecided one takes the
        verdict on everything readable, consuming exactly an accepted request and nothing else. */
    method Parse(input: Buffer)
      requires input.Valid()
      modifies this, input
      ensures input.Valid()
      ensures old(result) != NeedMoreData ==>
                result == old(result) && request == old(request) && input.Contents() == old(input.Contents())
      ensures old(result) == NeedMoreData ==>
                var v := Judge(Requests(), old(input.Contents()));
                && Parsed(v, result, request)
                && input.Contents() == (if v.Accepted? then old(input.Contents())[v.used..] else old(input.Contents()))
    {
      if result != NeedMoreData { return; }
      var bytes := input.ReadableView();
      var outcome, parsed, used := Decide(bytes);
      result := outcome;
      if outcome == Complete {
        request := parsed;
        var retrieved := input.Retrieve(used);
      }
    }
  }

  /** The head of the request, its header map and the two spaces of its request line. */
  method ReadHead(bytes: string) returns (r: Outcome, headers: map<string, string>, first: nat, second: nat)
    ensures r == HeadOf(Requests(), bytes)
    ensures r.Ready? ==> headers == Merge(r.head.fields) && r.head.end <= |bytes| && Spaces(r.head.line, first, second)
  {
    var blank := FindBlankLine(bytes, 0);
    var bare := HasBareLineFeed(if blank.Some? then bytes[..blank.value + 4] else bytes);
    if bare { return Error, map[], 0, 0; }
    var end := FindCrlf(bytes, 0);
    if end.None? {
      return (if |bytes| > MAX_LINE then Error else NeedMore), map[], 0, 0;
    }
    r, headers, first, second := ReadLines(bytes, end.value);
  }

  ghost predicate Spaces(line: string, first: nat, second: nat) {
    RequestLine(line) && FindChar(line, ' ', 0) == Some(first) && FindChar(line, ' ', first + 1) == Some(second)
  }

  method ReadLines(bytes: string, end: nat) returns (r: Outcome, headers: map<string, string>, first: nat, second: nat)
    requires end + 2 <= |bytes|
    ensures r == HeadAfter(Requests(), bytes, end)
    ensures r.Ready? ==> headers == Merge(r.head.fields) && Spaces(r.head.line, first, second)
  {
    if end > MAX_LINE { return Error, map[], 0, 0; }
    var ok;
    ok, first, second := SplitRequestLine(bytes[..end]);
    if !ok { return Error, map[], 0, 0; }
    r, headers := ParseFields(bytes, end);
  }

  /** The verdict on all the readable bytes. */
  method Decide(bytes: string) returns (result: ParseResult, request: HttpRequest, used: nat)
    ensures Parsed(Judge(Requests(), bytes), result, request)
    ensures result == Complete ==> used == Judge(Requests(), bytes).used
  {
    result, request, used := NeedMoreData, EMPTY_REQUEST, 0;
    var outcome, headers, first, second := ReadHead(bytes);
    match outcome
    case NeedMore =>
    case Error => result := ParseError;
    case Unsupported => result := NotSupported;
    case Ready(head) =>
      var length := if head.length.Some? then head.length.value else 0;
      if |bytes| - head.end < length { return; }
      result, used := Complete, head.end + length;
      request := HttpRequest(head.line[..first], head.line[first + 1..second], "HTTP/1.1",
                             bytes[head.end..used], headers);
  }

  method SplitRequestLine(line: string) returns (ok: bool, first: nat, second: nat)
    ensures ok <==> RequestLine(line)
    ensures ok ==> Spaces(line, first, second)
  {
    ok, first, second := false, 0, 0;
    var space := FindChar(line, ' ', 0);
    if space.None? || space.value == 0 { return; }
    first := space.value;
    var next := FindChar(line, ' ', first + 1);
    if next.None? || next.value == first + 1 { return; }
    second := next.value;
    if FindChar(line, ' ', second + 1).Some? || line[second + 1..] != "HTTP/1.1" { return; }
    ok := IsToken(line[..first]);
  }

  method ParseField(line: string, length: Option<nat>) returns (r: LineOutcome)
    ensures r == RequestRule(line, length)
  {
    var field := Split(line);
    if field.None? { return Bad; }
    var name := LowerAscii(field.value.name);
    var declared := length;
    if name == "content-length" {
      declared := ParseContentLength(field.value.value);
      if length.Some? || declared.None? || declared.value > MAX_REQUEST_BODY { return Bad; }
    }
    if name == "transfer-encoding" {
      var chunked := ContainsChunked(field.value.value);
      if chunked { return Refused; }
    }
    return Fine(field.value, declared);
  }

  /** The layout reads field lines as requests have them. */
  ghost predicate ForRequests(layout: Layout) {
    && !layout.lineLimit
    && forall line, length {:trigger RequestRule(line, length)} :: layout.rule(line, length) == RequestRule(line, length)
  }

  /** One turn of the field-line loop: the loop's outcome, or the field read and where the next line
      starts. */
  method ReadField(ghost layout: Layout, bytes: string, first: nat, cursor: nat, ghost fields: seq<Field>,
                   length: Option<nat>)
    returns (stop: Option<Outcome>, field: Field, declared: Option<nat>, next: nat)
    requires ForRequests(layout) && first + 2 <= |bytes| && cursor <= |bytes|
    ensures stop.Some? && !stop.value.Ready? ==> Fields(layout, bytes, first, cursor, fields, length) == stop.value
    ensures stop.Some? && stop.value.Ready? ==>
              Fields(layout, bytes, first, cursor, fields, length) == Ready(stop.value.head.(fields := fields))
    ensures stop.None? ==>
              && cursor < next <= |bytes|
              && Fields(layout, bytes, first, cursor, fields, length)
                 == Fields(layout, bytes, first, next, fields + [field], declared)
  {
    var end;
    field, declared, next := Field("", ""), length, cursor;
    stop, end := LineEnd(layout, bytes, first, cursor, fields, length);
    if stop.Some? { return; }
    var line := ParseField(bytes[cursor..end], length);
    FieldLine(layout, bytes, first, cursor, end, fields, length, line);
    match line
    case Bad => stop := Some(Error);
    case Refused => stop := Some(Unsupported);
    case Fine(f, d) => field, declared, next := f, d, end + 2;
  }

  /** Where the next field line ends, unless the limit, the blank line or the end of input stops it. */
  method LineEnd(ghost layout: Layout, bytes: string, first: nat, cursor: nat, ghost fields: seq<Field>, length: Option<nat>)
    returns (stop: Option<Outcome>, end: nat)
    requires first + 2 <= |bytes| && cursor <= |bytes| && !layout.lineLimit
    ensures stop.Some? && !stop.value.Ready? ==> Fields(layout, bytes, first, cursor, fields, length) == stop.value
    ensures stop.Some? && stop.value.Ready? ==>
              Fields(layout, bytes, first, cursor, fields, length) == Ready(stop.value.head.(fields := fields))
    ensures stop.None? ==>
              && cursor <= MAX_HEADER + first + 2 && FindCrlf(bytes, cursor) == Some(end) && end != cursor
              && end + 2 - (first + 2) <= MAX_HEADER
  {
    end := cursor;
    if cursor > MAX_HEADER + first + 2 { return Some(Error), end; }
    var found := FindCrlf(bytes, cursor);
    if found.None? { return Some(if |bytes| > MAX_HEADER + first + 2 then Error else NeedMore), end; }
    end := found.value;
    if end + 2 - (first + 2) > MAX_HEADER { return Some(Error), end; }
    if end == cursor { return Some(Ready(Head(bytes[..first], [], length, cursor + 2))), end; }
    return None, end;
  }

  lemma MergeNext(fields: seq<Field>, field: Field)
    ensures Merge(fields + [field]) == Add(Merge(fields), field)
  {
    assert (fields + [field])[..|fields|] == fields;
  }

  /** The field-line loop, from the end of the request line. */
  method ParseFields(bytes: string, first: nat) returns (r: Outcome, headers: map<string, string>)
    requires first + 2 <= |bytes|
    ensures r == Fields(Requests(), bytes, first, first + 2, [], None)
    ensures r.Ready? ==> headers == Merge(r.head.fields)
  {
    headers := map[];
    var length: Option<nat> := None;
    var cursor := first + 2;
    var fields: seq<Field> := [];
    while true
      invariant first + 2 <= cursor <= |bytes| && headers == Merge(fields)
      invariant Fields(Requests(), bytes, first, cursor, fields, length)
                == Fields(Requests(), bytes, first, first + 2, [], None)
      decreases |bytes| - cursor
    {
      var stop, field, declared, next := ReadField(Requests(), bytes, first, cursor, fields, length);
      if stop.Some? {
        return (if stop.value.Ready? then Ready(stop.value.head.(fields := fields)) else stop.value), headers;
      }
      headers := Add(headers, field);
      MergeNext(fields, field);
      fields, length, cursor := fields + [field], declared, next;
    }
  }
}
