/** The request serializer: which requests it writes, and the bytes it writes for them. */
module HttpSerializer {
  import opened Attempts
  import opened HttpText
  import opened HttpFraming
  import opened HttpRequests

  // ---------------------------------------------------------------- targets (RFC 3986, sections 3.3 and 3.4)

  predicate HexDigit(c: char) { '0' <= c <= '9' || 'A' <= c <= 'F' || 'a' <= c <= 'f' }

  predicate UriChar(c: char, isQuery: bool) {
    Alphanumeric(c) || c in "-._~" || c in "!$&'()*+,;=" || c in ":@/" || (isQuery && c == '?')
  }

  /** Allowed characters and percent-encoded triplets. */
  predicate Component(s: string, isQuery: bool) {
    if s == "" then true
    else if UriChar(s[0], isQuery) then Component(s[1..], isQuery)
    else s[0] == '%' && |s| >= 3 && HexDigit(s[1]) && HexDigit(s[2]) && Component(s[3..], isQuery)
  }

  predicate Target(s: string) {
    && s != "" && s[0] == '/'
    && match FindChar(s, '?', 0)
       case None => Component(s, false)
       case Some(q) => Component(s[..q], false) && Component(s[q + 1..], true)
  }

  method IsValidUriComponent(value: string, isQuery: bool) returns (ok: bool)
    ensures ok <==> Component(value, isQuery)
  {
    var index := 0;
    assert value[0..] == value;
    while index < |value|
      invariant 0 <= index <= |value|
      invariant Component(value, isQuery) <==> Component(value[index..], isQuery)
    {
      var rest := value[index..];
      if UriChar(value[index], isQuery) {
        assert rest[1..] == value[index + 1..];
        index := index + 1;
        continue;
      }
      if value[index] != '%' || index + 2 >= |value| || !HexDigit(value[index + 1]) || !HexDigit(value[index + 2]) {
        return false;
      }
      assert rest[3..] == value[index + 3..];
      index := index + 3;
    }
    return true;
  }

  method IsValidTarget(target: string) returns (ok: bool)
    ensures ok <==> Target(target)
  {
    if target == "" || target[0] != '/' { return false; }
    var query := FindChar(target, '?', 0);
    ok := IsValidUriComponent(if query.Some? then target[..query.value] else target, false);
    var queryOk := IsValidUriComponent(if query.Some? then target[query.value + 1..] else "", true);
    ok := ok && queryOk;
  }

  // ---------------------------------------------------------------- what is written

  const MANAGED := ["content-length", "transfer-encoding", "connection"]

  /** The map's iteration order: each header once. */
  ghost predicate Enumerates(order: seq<string>, headers: map<string, string>) {
    && (forall n :: n in order <==> n in headers)
    && (forall i, j :: 0 <= i < j < |order| ==> order[i] != order[j])
  }

  function Listed(order: seq<string>, headers: map<string, string>): (fs: seq<Field>)
    requires forall n :: n in order ==> n in headers
    ensures |fs| == |order| && forall i :: 0 <= i < |order| ==> fs[i] == Field(order[i], headers[order[i]])
  {
    seq(|order|, i requires 0 <= i < |order| => Field(order[i], headers[order[i]]))
  }

  function Line(f: Field): string { f.name + ": " + f.value }

  function Block(fs: seq<Field>): string {
    if fs == [] then "" else Line(fs[0]) + CRLF + Block(fs[1..])
  }

  function Framing(body: string): seq<Field> {
    [Field("Content-Length", Decimal(|body|)), Field("Connection", "keep-alive")]
  }

  function StartLine(r: HttpRequest): string { r.method_ + " " + r.target + " " + r.version }

  function Written(r: HttpRequest, order: seq<string>): seq<Field>
    requires forall n :: n in order ==> n in r.headers
  {
    Listed(order, r.headers) + Framing(r.body)
  }

  function HeadBytes(r: HttpRequest, order: seq<string>): string
    requires forall n :: n in order ==> n in r.headers
  {
    StartLine(r) + CRLF + Block(Written(r, order)) + CRLF
  }

  function Serialized(r: HttpRequest, order: seq<string>): string
    requires forall n :: n in order ==> n in r.headers
  {
    HeadBytes(r, order) + r.body
  }

  // ---------------------------------------------------------------- what is accepted

  predicate Allowed(name: string, value: string) {
    Token(name) && FieldValue(value) && Lowered(name) !in MANAGED
  }

  function Hosts(names: set<string>): set<string> { set n | n in names && Lowered(n) == "host" }

  ghost predicate Serializable(r: HttpRequest, order: seq<string>)
    requires forall n :: n in order ==> n in r.headers
  {
    && StartLineOk(r)
    && (forall n :: n in r.headers ==> Allowed(n, r.headers[n]))
    && |Hosts(r.headers.Keys)| == 1
    && |Block(Written(r, order))| + 2 <= MAX_HEADER
  }

  lemma {:induction false} BlockAppend(a: seq<Field>, b: seq<Field>)
    ensures Block(a + b) == Block(a) + Block(b)
  {
    if a == [] {
      assert a + b == b;
    } else {
      assert (a + b)[1..] == a[1..] + b;
      BlockAppend(a[1..], b);
    }
  }

  lemma BlockOne(f: Field)
    ensures Block([f]) == Line(f) + CRLF && |Block([f])| == |f.name| + 2 + |f.value| + 2
  {
    assert [f][1..] == [];
  }

  /** Add `value` to `total` when the sum stays within `limit`. */
  method TryAddWithinLimit(total: nat, value: nat, limit: nat) returns (ok: bool, sum: nat)
    requires total <= limit
    ensures ok <==> total + value <= limit
    ensures sum == if ok then total + value else total
  {
    if value > limit - total { return false, total; }
    return true, total + value;
  }

  function Names(order: seq<string>, k: nat): set<string>
    requires k <= |order|
  {
    if k == 0 then {} else Names(order, k - 1) + {order[k - 1]}
  }

  lemma {:induction false} NamesIs(order: seq<string>, k: nat)
    requires k <= |order|
    ensures forall n :: n in Names(order, k) <==> n in order[..k]
  {
    if k > 0 {
      NamesIs(order, k - 1);
      assert order[..k] == order[..k - 1] + [order[k - 1]];
    }
  }

  lemma HostsAfter(order: seq<string>, k: nat)
    requires k < |order| && forall i, j :: 0 <= i < j < |order| ==> order[i] != order[j]
    ensures |Hosts(Names(order, k + 1))| == |Hosts(Names(order, k))| + if Lowered(order[k]) == "host" then 1 else 0
  {
    NamesIs(order, k);
    assert order[k] !in Names(order, k);
    if Lowered(order[k]) == "host" {
      assert Hosts(Names(order, k + 1)) == Hosts(Names(order, k)) + {order[k]};
    } else {
      assert Hosts(Names(order, k + 1)) == Hosts(Names(order, k));
    }
  }

  /** One header of the validation loop: its form, its size and whether it is the host. */
  method CheckHeader(name: string, value: string, bytes: nat) returns (ok: bool, sum: nat, host: bool)
    requires bytes <= MAX_HEADER
    ensures ok <==> Allowed(name, value) && bytes + |name| + 2 + |value| + 2 <= MAX_HEADER
    ensures ok ==> sum == bytes + |name| + 2 + |value| + 2 && (host <==> Lowered(name) == "host")
  {
    ok, sum, host := false, bytes, false;
    var token := IsToken(name);
    var valid := IsValidFieldValue(value);
    if !token || !valid { return; }
    ok, sum := TryAddWithinLimit(sum, |name|, MAX_HEADER);
    if !ok { return; }
    ok, sum := TryAddWithinLimit(sum, 2, MAX_HEADER);
    if !ok { return; }
    ok, sum := TryAddWithinLimit(sum, |value|, MAX_HEADER);
    if !ok { return; }
    ok, sum := TryAddWithinLimit(sum, 2, MAX_HEADER);
    if !ok { return; }
    var lower := LowerAscii(name);
    host := lower == "host";
    ok := lower !in MANAGED;
  }

  ghost predicate HeadersOk(headers: map<string, string>, order: seq<string>)
    requires forall n :: n in order ==> n in headers
  {
    && (forall n :: n in headers ==> Allowed(n, headers[n]))
    && |Hosts(headers.Keys)| == 1 && |Block(Listed(order, headers))| <= MAX_HEADER
  }

  /** The block written for one more header, and that it is part of the whole block. */
  lemma BlockStep(fields: seq<Field>, k: nat)
    requires k < |fields|
    ensures Block(fields[..k + 1]) == Block(fields[..k]) + (Line(fields[k]) + CRLF)
    ensures |Block(fields[..k + 1])| == |Block(fields[..k])| + |fields[k].name| + 2 + |fields[k].value| + 2
    ensures |Block(fields[..k + 1])| <= |Block(fields)|
  {
    assert fields[..k + 1] == fields[..k] + [fields[k]];
    assert fields == fields[..k + 1] + fields[k + 1..];
    BlockAppend(fields[..k], [fields[k]]);
    BlockOne(fields[k]);
    BlockAppend(fields[..k + 1], fields[k + 1..]);
  }

  lemma AllHosts(order: seq<string>, headers: map<string, string>)
    requires Enumerates(order, headers)
    ensures Names(order, |order|) == headers.Keys
  {
    NamesIs(order, |order|);
    assert order[..|order|] == order;
  }

  method CheckHeaders(headers: map<string, string>, order: seq<string>) returns (ok: bool, bytes: nat)
    requires Enumerates(order, headers)
    ensures ok <==> HeadersOk(headers, order)
    ensures ok ==> bytes == |Block(Listed(order, headers))|
  {
    bytes := 0;
    var hosts := 0;
    ghost var fields := Listed(order, headers);
    for k := 0 to |order|
      invariant forall i :: 0 <= i < k ==> Allowed(order[i], headers[order[i]])
      invariant bytes == |Block(fields[..k])| <= MAX_HEADER
      invariant hosts == |Hosts(Names(order, k))|
    {
      var fits, sum, host := CheckHeader(order[k], headers[order[k]], bytes);
      BlockStep(fields, k);
      if !fits {
        assert order[k] in headers;
        return false, 0;
      }
      HostsAfter(order, k);
      bytes := sum;
      if host { hosts := hosts + 1; }
    }
    assert fields[..|order|] == fields;
    AllHosts(order, headers);
    ok := hosts == 1;
  }

  lemma FramingBlock(body: string)
    ensures Block(Framing(body))
            == Line(Field("Content-Length", Decimal(|body|))) + CRLF + (Line(Field("Connection", "keep-alive")) + CRLF)
  {
    var f := Framing(body);
    assert f[1..] == [f[1]];
    BlockOne(f[1]);
  }

  lemma WrittenBlock(r: HttpRequest, order: seq<string>)
    requires forall n :: n in order ==> n in r.headers
    ensures Block(Written(r, order)) == Block(Listed(order, r.headers)) + Block(Framing(r.body))
  {
    BlockAppend(Listed(order, r.headers), Framing(r.body));
  }

  /** Room for the managed fields and the blank line. */
  method CheckFraming(bytes: nat, body: string) returns (fits: bool)
    requires bytes <= MAX_HEADER
    ensures fits <==> bytes + |Block(Framing(body))| + 2 <= MAX_HEADER
  {
    FramingBlock(body);
    var sum := bytes;
    fits, sum := TryAddWithinLimit(sum, |Line(Field("Content-Length", Decimal(|body|))) + CRLF|, MAX_HEADER);
    if !fits { return; }
    fits, sum := TryAddWithinLimit(sum, |Line(Field("Connection", "keep-alive")) + CRLF|, MAX_HEADER);
    if !fits { return; }
    fits, sum := TryAddWithinLimit(sum, |CRLF|, MAX_HEADER);
  }

  method SerializeRequest(r: HttpRequest, order: seq<string>) returns (out: Option<string>)
    requires Enumerates(order, r.headers)
    ensures out.Some? <==> Serializable(r, order)
    ensures out.Some? ==> out.value == Serialized(r, order)
  {
    WrittenBlock(r, order);
    var ok := CheckStartLine(r);
    if !ok { return None; }
    var bytes;
    ok, bytes := CheckHeaders(r.headers, order);
    if !ok { return None; }
    ok := CheckFraming(bytes, r.body);
    if !ok { return None; }
    var block := WriteHeaders(r, order);
    var framing := WriteFraming(r.body);
    return Some(StartLine(r) + CRLF + (block + framing) + CRLF + r.body);
  }

  method WriteFraming(body: string) returns (framing: string)
    ensures framing == Block(Framing(body))
  {
    FramingBlock(body);
    return Line(Field("Content-Length", Decimal(|body|))) + CRLF + (Line(Field("Connection", "keep-alive")) + CRLF);
  }

  ghost predicate StartLineOk(r: HttpRequest) {
    && Token(r.method_) && Target(r.target) && r.version == "HTTP/1.1" && |r.body| <= MAX_REQUEST_BODY
    && |StartLine(r)| <= MAX_LINE
  }

  method CheckStartLine(r: HttpRequest) returns (fits: bool)
    ensures fits <==> StartLineOk(r)
  {
    var token := IsToken(r.method_);
    var target := IsValidTarget(r.target);
    if !token || !target || r.version != "HTTP/1.1" || |r.body| > MAX_REQUEST_BODY { return false; }
    var bytes: nat := 0;
    fits, bytes := TryAddWithinLimit(bytes, |r.method_|, MAX_LINE);
    if !fits { return; }
    fits, bytes := TryAddWithinLimit(bytes, 1, MAX_LINE);
    if !fits { return; }
    fits, bytes := TryAddWithinLimit(bytes, |r.target|, MAX_LINE);
    if !fits { return; }
    fits, bytes := TryAddWithinLimit(bytes, 1, MAX_LINE);
    if !fits { return; }
    fits, bytes := TryAddWithinLimit(bytes, |r.version|, MAX_LINE);
  }

  method WriteHeaders(r: HttpRequest, order: seq<string>) returns (block: string)
    requires forall n :: n in order ==> n in r.headers
    ensures block == Block(Listed(order, r.headers))
  {
    block := "";
    var fields := Listed(order, r.headers);
    for k := 0 to |order|
      invariant block == Block(fields[..k])
    {
      BlockStep(fields, k);
      block := block + (order[k] + ": " + r.headers[order[k]] + CRLF);
    }
    assert fields[..|order|] == fields;
  }
}
