/** What the two parsers decide from the bytes received so far, and how that decision behaves as
    more bytes arrive.  Requests and responses share the head layout: a first line, field lines and
    a blank line.  They differ in the first line, the limits and the framing rules. */
module HttpFraming {
  import opened Attempts
  import opened HttpText

  const MAX_LINE: nat := 8 * 1024
  const MAX_HEADER: nat := 32 * 1024
  const MAX_REQUEST_BODY: nat := 1024 * 1024
  const MAX_RESPONSE_BODY: nat := 16 * 1024 * 1024

  /** A field line as written: name, and value without outer blanks. */
  datatype Field = Field(name: string, value: string)

  datatype Head = Head(line: string, fields: seq<Field>, length: Option<nat>, end: nat)

  datatype Outcome = NeedMore | Error | Unsupported | Ready(head: Head)

  /** What a parser reports; all but the first are final until the parser is reset. */
  datatype ParseResult = NeedMoreData | Complete | ParseError | NotSupported

  /** The verdict on one field line: malformed, refused, or a field and the length declared so far. */
  datatype LineOutcome = Bad | Refused | Fine(field: Field, length: Option<nat>)

  /** What distinguishes the two parsers: whether field lines have their own limit, the form of the
      first line, the rule for a field line given the length declared before it, what the complete
      head must declare, and whether the body is left off the wire. */
  datatype Layout = Layout(
    lineLimit: bool,
    first: string -> bool,
    rule: (string, Option<nat>) -> LineOutcome,
    framed: (string, Option<nat>) -> bool,
    bodyLeftOff: bool)

  // ---------------------------------------------------------------- lines

  predicate RequestLine(line: string) {
    var first := FindChar(line, ' ', 0);
    && first.Some? && first.value > 0
    && var second := FindChar(line, ' ', first.value + 1);
    && second.Some? && second.value != first.value + 1
    && FindChar(line, ' ', second.value + 1).None?
    && line[second.value + 1..] == "HTTP/1.1"
    && Token(line[..first.value])
  }

  predicate StatusLine(line: string) {
    && FindChar(line, ' ', 0) == Some(8)
    && FindChar(line, ' ', 9) == Some(12)
    && |line| > 13
    && line[..8] == "HTTP/1.1"
    && '2' <= line[9] <= '5' && Digit(line[10]) && Digit(line[11])
    && FieldValue(line[13..])
  }

  function Status(line: string): nat {
    if |line| >= 12 && Digits(line[9..12]) then Number(line[9..12]) else 0
  }

  function SplitField(line: string): (r: Option<Field>) {
    var colon := FindChar(line, ':', 0);
    if colon.None? || colon.value == 0 || !Token(line[..colon.value]) || !FieldValue(line[colon.value + 1..]) then None
    else Some(Field(line[..colon.value], Trim(line[colon.value + 1..])))
  }

  method Split(line: string) returns (r: Option<Field>)
    ensures r == SplitField(line)
  {
    var colon := FindChar(line, ':', 0);
    if colon.None? || colon.value == 0 { return None; }
    var token := IsToken(line[..colon.value]);
    if !token { return None; }
    var valid := IsValidFieldValue(line[colon.value + 1..]);
    if !valid { return None; }
    var value := TrimOws(line[colon.value + 1..]);
    return Some(Field(line[..colon.value], value));
  }

  function DeclaredLength(field: Field, length: Option<nat>, limit: nat): LineOutcome {
    var declared := Length(field.value);
    if length.Some? || declared.None? || declared.value > limit then Bad else Fine(field, declared)
  }

  function RequestRule(line: string, length: Option<nat>): LineOutcome {
    match SplitField(line)
    case None => Bad
    case Some(field) =>
      var name := Lowered(field.name);
      if name == "content-length" then DeclaredLength(field, length, MAX_REQUEST_BODY)
      else if name == "transfer-encoding" && Chunked(field.value) then Refused
      else Fine(field, length)
  }

  function ResponseRule(line: string, length: Option<nat>): LineOutcome {
    match SplitField(line)
    case None => Bad
    case Some(field) =>
      var name := Lowered(field.name);
      if name == "transfer-encoding" then Refused
      else if name == "content-length" then DeclaredLength(field, length, MAX_RESPONSE_BODY)
      else Fine(field, length)
  }

  predicate Bodyless(status: nat) { status == 204 || status == 304 }

  predicate ResponseFramed(toHead: bool, line: string, length: Option<nat>) {
    if Bodyless(Status(line)) then length.None? || length == Some(0) else length.Some? || toHead
  }

  function Requests(): Layout {
    Layout(false, RequestLine, RequestRule, (line, length) => true, false)
  }

  /** `toHead`: the response answers a HEAD request. */
  function Responses(toHead: bool): Layout {
    Layout(true, StatusLine, ResponseRule, (line, length) => ResponseFramed(toHead, line, length), toHead)
  }

  // ---------------------------------------------------------------- the head

  /** Read field lines from `cursor` until the blank line.  `first` is where the first line ended. */
  function Fields(layout: Layout, b: string, first: nat, cursor: nat, fields: seq<Field>, length: Option<nat>): (r: Outcome)
    requires first + 2 <= |b| && cursor <= |b|
    ensures r.Ready? ==> r.head.line == b[..first] && cursor + 2 <= r.head.end <= |b|
    decreases |b| - cursor
  {
    if cursor > MAX_HEADER + first + 2 then Error
    else
      match FindCrlf(b, cursor)
      case None =>
        if layout.lineLimit && |b| - cursor > MAX_LINE then Error
        else if |b| > MAX_HEADER + first + 2 then Error
        else NeedMore
      case Some(end) =>
        if end + 2 - (first + 2) > MAX_HEADER then Error
        else if end == cursor then Ready(Head(b[..first], fields, length, cursor + 2))
        else if layout.lineLimit && end - cursor > MAX_LINE then Error
        else
          match layout.rule(b[cursor..end], length)
          case Bad => Error
          case Refused => Unsupported
          case Fine(field, declared) => Fields(layout, b, first, end + 2, fields + [field], declared)
  }

  /** What one field line does to the scan. */
  lemma FieldLine(layout: Layout, b: string, first: nat, cursor: nat, end: nat, fields: seq<Field>, length: Option<nat>,
                  line: LineOutcome)
    requires first + 2 <= |b| && cursor <= |b| && cursor <= MAX_HEADER + first + 2 && FindCrlf(b, cursor) == Some(end)
    requires end + 2 - (first + 2) <= MAX_HEADER && end != cursor && (layout.lineLimit ==> end - cursor <= MAX_LINE)
    requires line == layout.rule(b[cursor..end], length)
    ensures Fields(layout, b, first, cursor, fields, length)
            == if line.Bad? then Error
               else if line.Refused? then Unsupported
               else Fields(layout, b, first, end + 2, fields + [line.field], line.length)
  {
  }

  /** The bytes checked for bare line feeds: the head if it is complete, else everything. */
  function Protocol(b: string): string {
    match FindBlankLine(b, 0)
    case None => b
    case Some(i) => b[..i + 4]
  }

  /** The head, once its first line is known to end at `first`. */
  function HeadAfter(layout: Layout, b: string, first: nat): (r: Outcome)
    requires first + 2 <= |b|
    ensures r.Ready? ==> r.head.line == b[..first] && r.head.end <= |b|
  {
    if first > MAX_LINE || !layout.first(b[..first]) then Error
    else
      var r := Fields(layout, b, first, first + 2, [], None);
      if r.Ready? && !layout.framed(b[..first], r.head.length) then Error else r
  }

  function HeadOf(layout: Layout, b: string): Outcome {
    if !NoBareLineFeed(Protocol(b)) then Error
    else
      match FindCrlf(b, 0)
      case None => if |b| > MAX_LINE then Error else NeedMore
      case Some(first) => HeadAfter(layout, b, first)
  }

  /** The body bytes that follow the head on the wire. */
  function BodyLength(layout: Layout, head: Head): nat {
    if layout.bodyLeftOff || head.length.None? then 0 else head.length.value
  }

  datatype Verdict = Pending | Rejected(unsupported: bool) | Accepted(head: Head, body: string, used: nat)

  /** The whole-message verdict on the bytes received so far. */
  function Judge(layout: Layout, b: string): (v: Verdict)
    ensures v.Accepted? ==> v.used <= |b|
  {
    match HeadOf(layout, b)
    case NeedMore => Pending
    case Error => Rejected(false)
    case Unsupported => Rejected(true)
    case Ready(head) =>
      if |b| < head.end + BodyLength(layout, head) then Pending
      else Accepted(head, b[head.end..head.end + BodyLength(layout, head)], head.end + BodyLength(layout, head))
  }
}
