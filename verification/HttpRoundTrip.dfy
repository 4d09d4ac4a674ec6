/** Parsing what the serializer wrote gives the request back and leaves what follows unread. */
module HttpRoundTrip {
  import opened Attempts
  import opened HttpText
  import opened HttpFraming
  import opened HttpRequests
  import opened HttpSerializer
  import opened HttpSegments
  import opened HttpGrammar

  // ---------------------------------------------------------------- characters on the wire

  lemma {:induction false} ComponentChars(s: string, isQuery: bool)
    requires Component(s, isQuery)
    ensures NoLineFeed(s) && ' ' !in s
  {
    if s != "" {
      if UriChar(s[0], isQuery) {
        ComponentChars(s[1..], isQuery);
        assert s == [s[0]] + s[1..];
      } else {
        ComponentChars(s[3..], isQuery);
        assert s == [s[0], s[1], s[2]] + s[3..];
      }
    }
  }

  lemma TargetChars(s: string)
    requires Target(s)
    ensures s != "" && NoLineFeed(s) && ' ' !in s
  {
    match FindChar(s, '?', 0)
    case None => ComponentChars(s, false);
    case Some(q) =>
      ComponentChars(s[..q], false);
      ComponentChars(s[q + 1..], true);
      assert s == s[..q] + ['?'] + s[q + 1..];
  }

  lemma TokenChars(s: string)
    requires Token(s)
    ensures NoLineFeed(s) && ' ' !in s && ':' !in s
  {
    forall i | 0 <= i < |s| ensures s[i] != ' ' && s[i] != ':' && s[i] != '\r' && s[i] != '\n' {
      assert TokenChar(s[i]);
    }
  }

  lemma FieldLineChars(f: Field)
    requires Token(f.name) && FieldValue(f.value)
    ensures NoLineFeed(Line(f)) && Line(f) != ""
  {
  }

  // ---------------------------------------------------------------- the first line

  lemma ThreeParts(a: string, b: string, c: string)
    requires ' ' !in a && ' ' !in b && ' ' !in c
    ensures var line, first, second := a + " " + b + " " + c, |a|, |a| + 1 + |b|;
            && FindChar(line, ' ', 0) == Some(first) && FindChar(line, ' ', first + 1) == Some(second)
            && FindChar(line, ' ', second + 1).None?
            && line[..first] == a && line[first + 1..second] == b && line[second + 1..] == c
  {
    var line, first, second := a + " " + b + " " + c, |a|, |a| + 1 + |b|;
    assert line[first] == ' ' && line[second] == ' ';
    assert forall i :: 0 <= i < first ==> line[i] == a[i];
    assert forall i :: first < i < second ==> line[i] == b[i - first - 1];
    assert forall i :: second < i < |line| ==> line[i] == c[i - second - 1];
  }

  lemma PartsRead(m: string, t: string, v: string, body: string)
    requires v == "HTTP/1.1" && Token(m) && ' ' !in m && t != "" && ' ' !in t
    ensures var line := m + " " + t + " " + v;
            RequestLine(line) && RequestOf(line, [], body) == HttpRequest(m, t, v, body, map[])
  {
    assert ' ' !in v;
    ThreeParts(m, t, v);
  }

  lemma PartsClean(m: string, t: string, v: string)
    requires NoLineFeed(m) && NoLineFeed(t) && NoLineFeed(v)
    ensures NoLineFeed(m + " " + t + " " + v)
  {
    NoLineFeedJoin(m, " ");
    NoLineFeedJoin(m + " ", t);
    NoLineFeedJoin(m + " " + t, " ");
    NoLineFeedJoin(m + " " + t + " ", v);
  }

  lemma StartLineReads(r: HttpRequest)
    requires StartLineOk(r)
    ensures RequestLine(StartLine(r)) && NoLineFeed(StartLine(r))
    ensures RequestOf(StartLine(r), [], r.body) == r.(headers := map[])
  {
    TargetChars(r.target);
    TokenChars(r.method_);
    PartsRead(r.method_, r.target, r.version, r.body);
    PartsClean(r.method_, r.target, r.version);
  }

  lemma NoLineFeedJoin(a: string, b: string)
    requires NoLineFeed(a) && NoLineFeed(b)
    ensures NoLineFeed(a + b)
  {
  }

  // ---------------------------------------------------------------- field lines

  function Kept(f: Field): Field { Field(f.name, Trim(f.value)) }

  function KeptAll(fs: seq<Field>): seq<Field> {
    if fs == [] then [] else [Kept(fs[0])] + KeptAll(fs[1..])
  }

  lemma SplitsBack(f: Field)
    requires Token(f.name) && FieldValue(f.value)
    ensures SplitField(Line(f)) == Some(Kept(f))
  {
    TokenChars(f.name);
    ColonSplit(f.name, " " + f.value);
    assert Line(f) == f.name + ":" + (" " + f.value);
    BlankFirst(f.value);
  }

  lemma ColonSplit(name: string, rest: string)
    requires ':' !in name
    ensures var line := name + ":" + rest;
            FindChar(line, ':', 0) == Some(|name|) && line[..|name|] == name && line[|name| + 1..] == rest
  {
    var line := name + ":" + rest;
    assert line[|name|] == ':' && forall i :: 0 <= i < |name| ==> line[i] == name[i];
  }

  /** The blank the serializer writes before a value is trimmed off again. */
  lemma BlankFirst(value: string)
    ensures Trim(" " + value) == Trim(value) && (FieldValue(" " + value) <==> FieldValue(value))
  {
    assert (" " + value)[1..] == value;
    if FieldValue(" " + value) {
      forall i | 0 <= i < |value| ensures FieldChar(value[i]) { assert (" " + value)[i + 1] == value[i]; }
    }
  }

  /** The fields pass the parser's rule one after another, ending with `final` declared. */
  ghost predicate Admits(layout: Layout, fs: seq<Field>, length: Option<nat>, final: Option<nat>) {
    if fs == [] then length == final
    else
      && NoLineFeed(Line(fs[0]))
      && var r := layout.rule(Line(fs[0]), length);
      r.Fine? && r.field == Kept(fs[0]) && Admits(layout, fs[1..], r.length, final)
  }

  function LinesOf(fs: seq<Field>): seq<string> {
    if fs == [] then [] else [Line(fs[0])] + LinesOf(fs[1..])
  }

  /** A written block is its lines stacked, and admitted fields are what those lines yield. */
  lemma {:induction false} BlockYields(layout: Layout, fs: seq<Field>, length: Option<nat>, final: Option<nat>)
    requires Admits(layout, fs, length, final) && !layout.lineLimit
    ensures Block(fs) == Stacked(LinesOf(fs))
    ensures Yields(layout, LinesOf(fs), length, KeptAll(fs), final)
  {
    if fs != [] {
      BlockYields(layout, fs[1..], layout.rule(Line(fs[0]), length).length, final);
      assert LinesOf(fs)[1..] == LinesOf(fs[1..]) && KeptAll(fs)[1..] == KeptAll(fs[1..]);
      assert Whole(Line(fs[0]));
    }
  }

  // ---------------------------------------------------------------- the fields the serializer writes

  lemma PlainRule(f: Field, length: Option<nat>)
    requires Token(f.name) && FieldValue(f.value)
    requires Lowered(f.name) != "content-length" && Lowered(f.name) != "transfer-encoding"
    ensures RequestRule(Line(f), length) == Fine(Kept(f), length)
  {
    SplitsBack(f);
  }

  lemma {:induction false} PlainAdmits(fs: seq<Field>, more: seq<Field>, length: Option<nat>, final: Option<nat>)
    requires forall i :: 0 <= i < |fs| ==> Allowed(fs[i].name, fs[i].value)
    requires Admits(Requests(), more, length, final)
    ensures Admits(Requests(), fs + more, length, final)
  {
    if fs == [] {
      assert fs + more == more;
    } else {
      PlainLine(fs[0], length);
      assert (fs + more)[0] == fs[0] && (fs + more)[1..] == fs[1..] + more;
      PlainAdmits(fs[1..], more, length, final);
    }
  }

  lemma PlainLine(f: Field, length: Option<nat>)
    requires Allowed(f.name, f.value)
    ensures NoLineFeed(Line(f)) && Requests().rule(Line(f), length) == Fine(Kept(f), length)
  {
    assert Lowered(f.name) !in MANAGED && MANAGED[0] in MANAGED && MANAGED[1] in MANAGED;
    PlainRule(f, length);
    FieldLineChars(f);
  }

  lemma {:induction false} DigitsTrimmed(s: string)
    requires s != "" && Digits(s)
    ensures Trim(s) == s && FieldValue(s)
  {
    assert !Blank(s[0]) && !Blank(s[|s| - 1]);
  }

  lemma LengthRule(body: string)
    requires |body| <= MAX_REQUEST_BODY
    ensures var f := Field("Content-Length", Decimal(|body|));
            && Kept(f) == f && NoLineFeed(Line(f))
            && RequestRule(Line(f), None) == Fine(f, Some(|body|))
  {
    var f := Field("Content-Length", Decimal(|body|));
    DigitsTrimmed(f.value);
    NumberOfDecimal(|body|);
    TokenName();
    FieldLineChars(f);
    SplitsBack(f);
  }

  lemma TokenName()
    ensures Token("Content-Length") && Lowered("Content-Length") == "content-length"
    ensures Token("Connection") && Lowered("Connection") == "connection"
    ensures FieldValue("keep-alive") && Trim("keep-alive") == "keep-alive"
  {
    var a, b := Lowered("Content-Length"), Lowered("Connection");
    assert forall i :: 0 <= i < |a| ==> a[i] == "content-length"[i];
    assert forall i :: 0 <= i < |b| ==> b[i] == "connection"[i];
  }

  lemma FramingAdmits(body: string)
    requires |body| <= MAX_REQUEST_BODY
    ensures Admits(Requests(), Framing(body), None, Some(|body|))
    ensures KeptAll(Framing(body)) == Framing(body)
  {
    var f := Framing(body);
    LengthRule(body);
    TokenName();
    PlainRule(f[1], Some(|body|));
    FieldLineChars(f[1]);
    assert f[1..] == [f[1]] && f[1..][1..] == [];
    assert KeptAll(f[1..]) == [Kept(f[1])] + KeptAll([]);
    assert Kept(f[1]) == f[1] && Kept(f[0]) == f[0];
    assert KeptAll(f) == [f[0]] + [f[1]];
  }

  // ---------------------------------------------------------------- the whole head

  lemma CleanJoin(a: string, b: string)
    requires NoBareLineFeed(a) && NoBareLineFeed(b)
    ensures NoBareLineFeed(a + b)
  {
  }

  lemma LineClean(line: string)
    requires NoLineFeed(line)
    ensures NoBareLineFeed(line + CRLF)
  {
  }

  lemma {:induction false} BlockClean(layout: Layout, fs: seq<Field>, length: Option<nat>, final: Option<nat>)
    requires Admits(layout, fs, length, final)
    ensures NoBareLineFeed(Block(fs))
  {
    if fs != [] {
      LineClean(Line(fs[0]));
      BlockClean(layout, fs[1..], layout.rule(Line(fs[0]), length).length, final);
      CleanJoin(Line(fs[0]) + CRLF, Block(fs[1..]));
    }
  }

  lemma {:induction false} BlockEnds(fs: seq<Field>)
    requires fs != []
    ensures |Block(fs)| >= 2 && CrlfAt(Block(fs), |Block(fs)| - 2)
  {
    if |fs| > 1 {
      BlockEnds(fs[1..]);
      assert Block(fs)[|Line(fs[0]) + CRLF|..] == Block(fs[1..]);
    } else {
      BlockOne(fs[0]);
      assert fs == [fs[0]];
    }
  }

  /** A head without bare line feeds that ends in a blank line is not refused for what follows. */
  lemma HeadClean(head: string, rest: string)
    requires NoBareLineFeed(head) && |head| >= 4 && BlankLineAt(head, |head| - 4)
    ensures NoBareLineFeed(Protocol(head + rest))
  {
    var b := head + rest;
    assert BlankLineAt(b, |head| - 4);
    var i := FindBlankLine(b, 0).value;
    assert b[..i + 4] == head[..i + 4];
  }

  lemma HeadEnds(line: string, block: string)
    requires |block| >= 2 && CrlfAt(block, |block| - 2)
    ensures var head := line + CRLF + block + CRLF; BlankLineAt(head, |head| - 4)
  {
    var head := line + CRLF + block + CRLF;
    var n := |line + CRLF|;
    assert head[n + |block| - 2] == block[|block| - 2] && head[n + |block| - 1] == block[|block| - 1];
    assert head[n + |block|] == '\r' && head[n + |block| + 1] == '\n';
  }

  lemma WrittenClean(layout: Layout, line: string, fs: seq<Field>, rest: string, final: Option<nat>)
    requires NoLineFeed(line) && fs != [] && Admits(layout, fs, None, final)
    ensures NoBareLineFeed(Protocol(line + CRLF + Block(fs) + CRLF + rest))
  {
    var block := Block(fs);
    LineClean(line);
    BlockClean(layout, fs, None, final);
    CleanJoin(line + CRLF, block);
    CleanJoin(line + CRLF + block, CRLF);
    BlockEnds(fs);
    HeadEnds(line, block);
    HeadClean(line + CRLF + block + CRLF, rest);
  }

  /** Any start line and block of admitted fields, written out, is read back. */
  lemma HeadReads(layout: Layout, line: string, fs: seq<Field>, rest: string, final: Option<nat>)
    requires !layout.lineLimit && layout.first(line) && layout.framed(line, final)
    requires NoLineFeed(line) && |line| <= MAX_LINE
    requires fs != [] && Admits(layout, fs, None, final) && |Block(fs)| + 2 <= MAX_HEADER
    ensures var head := line + CRLF + Block(fs) + CRLF;
            HeadOf(layout, head + rest) == Ready(Head(line, KeptAll(fs), final, |head|))
  {
    var written := line + CRLF + Block(fs) + CRLF;
    var head := Head(line, KeptAll(fs), final, |written|);
    WrittenClean(layout, line, fs, rest, final);
    BlockYields(layout, fs, None, final);
    assert (written + rest)[..|written|] == written == line + CRLF + (Block(fs) + CRLF);
    assert Whole(line);
    ComposedIsAccepted(layout, written + rest, head, LinesOf(fs));
  }

  lemma WrittenAdmits(r: HttpRequest, order: seq<string>)
    requires Enumerates(order, r.headers) && Serializable(r, order)
    ensures Admits(Requests(), Written(r, order), None, Some(|r.body|))
  {
    FramingAdmits(r.body);
    var fs := Listed(order, r.headers);
    forall i | 0 <= i < |fs| ensures Allowed(fs[i].name, fs[i].value) {
      assert order[i] in order;
    }
    PlainAdmits(fs, Framing(r.body), None, Some(|r.body|));
  }

  lemma SerializedHead(r: HttpRequest, order: seq<string>, rest: string)
    requires Enumerates(order, r.headers) && Serializable(r, order)
    ensures HeadOf(Requests(), HeadBytes(r, order) + rest)
            == Ready(Head(StartLine(r), KeptAll(Written(r, order)), Some(|r.body|), |HeadBytes(r, order)|))
  {
    StartLineReads(r);
    WrittenAdmits(r, order);
    HeadReads(Requests(), StartLine(r), Written(r, order), rest, Some(|r.body|));
  }

  lemma BodyFollows(layout: Layout, bytes: string, body: string, rest: string, head: Head)
    requires HeadOf(layout, bytes + body + rest) == Ready(head)
    requires head.end == |bytes| && BodyLength(layout, head) == |body|
    ensures Judge(layout, bytes + body + rest) == Accepted(head, body, |bytes + body|)
  {
    var b := bytes + body + rest;
    assert b[|bytes|..|bytes| + |body|] == body;
  }

  /** Parsing serialized bytes followed by anything completes with the same method, target and body
      and the written fields, and leaves exactly what follows. */
  lemma RoundTrip(r: HttpRequest, order: seq<string>, rest: string)
    requires Enumerates(order, r.headers) && Serializable(r, order)
    ensures var v := Judge(Requests(), Serialized(r, order) + rest);
            && v.Accepted? && v.body == r.body && v.used == |Serialized(r, order)|
            && RequestLine(v.head.line)
            && RequestOf(v.head.line, v.head.fields, v.body)
               == r.(headers := Merge(KeptAll(Written(r, order))))
  {
    Judged(r, order, rest);
    StartLineReads(r);
  }

  lemma Judged(r: HttpRequest, order: seq<string>, rest: string)
    requires Enumerates(order, r.headers) && Serializable(r, order)
    ensures Judge(Requests(), Serialized(r, order) + rest)
            == Accepted(Head(StartLine(r), KeptAll(Written(r, order)), Some(|r.body|), |HeadBytes(r, order)|),
                        r.body, |Serialized(r, order)|)
  {
    SerializedHead(r, order, r.body + rest);
    assert HeadBytes(r, order) + r.body + rest == HeadBytes(r, order) + (r.body + rest);
    var head := Head(StartLine(r), KeptAll(Written(r, order)), Some(|r.body|), |HeadBytes(r, order)|);
    BodyFollows(Requests(), HeadBytes(r, order), r.body, rest, head);
  }

  // ---------------------------------------------------------------- header maps

  /** Every header is written as it is stored: lower-case name, no outer blanks. */
  ghost predicate Canonical(headers: map<string, string>) {
    forall n :: n in headers ==> Lowered(n) == n && Trimmed(headers[n])
  }

  ghost predicate Restricts(m: map<string, string>, headers: map<string, string>, names: seq<string>) {
    && (forall n :: n in m <==> n in names)
    && (forall n :: n in m ==> n in headers && m[n] == headers[n])
  }

  lemma {:induction false} MergeListed(headers: map<string, string>, fs: seq<Field>, order: seq<string>, k: nat)
    requires |fs| == |order| && k <= |order| && Canonical(headers) && "connection" !in headers
    requires forall i :: 0 <= i < |order| ==> order[i] in headers && fs[i] == Field(order[i], headers[order[i]])
    ensures Restricts(Merge(fs[..k]), headers, order[..k])
  {
    if k > 0 {
      MergeListed(headers, fs, order, k - 1);
      assert fs[..k][..k - 1] == fs[..k - 1];
      assert order[..k] == order[..k - 1] + [order[k - 1]];
      assert Merge(fs[..k]) == Add(Merge(fs[..k - 1]), fs[k - 1]);
    }
  }

  lemma MergeAppend(fs: seq<Field>, f: Field)
    ensures Merge(fs + [f]) == Add(Merge(fs), f)
  {
    assert (fs + [f])[..|fs|] == fs;
  }

  lemma MergeFraming(fs: seq<Field>, body: string)
    requires "connection" !in Merge(fs)
    ensures Merge(fs + Framing(body)) == Merge(fs)["content-length" := Decimal(|body|)]["connection" := "keep-alive"]
  {
    var f := Framing(body);
    TokenName();
    MergeAppend(fs, f[0]);
    MergeAppend(fs + [f[0]], f[1]);
    assert fs + f == fs + [f[0]] + [f[1]];
  }

  lemma MergeWritten(r: HttpRequest, order: seq<string>)
    requires Canonical(r.headers) && Enumerates(order, r.headers) && "connection" !in r.headers
    ensures Merge(Written(r, order))
            == r.headers["content-length" := Decimal(|r.body|)]["connection" := "keep-alive"]
  {
    var fs, n := Listed(order, r.headers), |order|;
    assert forall i :: 0 <= i < n ==> order[i] in order;
    MergeListed(r.headers, fs, order, n);
    assert fs[..n] == fs && order[..n] == order;
    assert Merge(fs) == r.headers;
    MergeFraming(fs, r.body);
  }

  lemma KeptSame(f: Field)
    requires Trimmed(f.value)
    ensures Kept(f) == f
  {
    TrimIs("", f.value, "");
    assert "" + f.value + "" == f.value;
  }

  lemma {:induction false} KeptAppend(a: seq<Field>, b: seq<Field>)
    ensures KeptAll(a + b) == KeptAll(a) + KeptAll(b)
  {
    if a == [] {
      assert a + b == b;
    } else {
      assert (a + b)[1..] == a[1..] + b;
      KeptAppend(a[1..], b);
    }
  }

  lemma {:induction false} KeptAllSame(fs: seq<Field>)
    requires forall i :: 0 <= i < |fs| ==> Trimmed(fs[i].value)
    ensures KeptAll(fs) == fs
  {
    if fs != [] {
      KeptSame(fs[0]);
      KeptAllSame(fs[1..]);
    }
  }

  lemma KeptWritten(r: HttpRequest, order: seq<string>)
    requires Canonical(r.headers) && Enumerates(order, r.headers) && |r.body| <= MAX_REQUEST_BODY
    ensures KeptAll(Written(r, order)) == Written(r, order)
  {
    var fs := Listed(order, r.headers);
    forall i | 0 <= i < |fs| ensures Trimmed(fs[i].value) {
      assert order[i] in order;
    }
    KeptAllSame(fs);
    FramingAdmits(r.body);
    KeptAppend(fs, Framing(r.body));
  }

  /** For canonical headers the request itself comes back, plus the two managed fields. */
  lemma CanonicalRoundTrip(r: HttpRequest, order: seq<string>, rest: string)
    requires Enumerates(order, r.headers) && Serializable(r, order) && Canonical(r.headers)
    ensures var v := Judge(Requests(), Serialized(r, order) + rest);
            && v.Accepted? && v.used == |Serialized(r, order)| && RequestLine(v.head.line)
            && RequestOf(v.head.line, v.head.fields, v.body)
               == r.(headers := r.headers["content-length" := Decimal(|r.body|)]["connection" := "keep-alive"])
  {
    RoundTrip(r, order, rest);
    KeptWritten(r, order);
    assert MANAGED[2] in MANAGED;
    assert "connection" in r.headers ==> Allowed("connection", r.headers["connection"]);
    MergeWritten(r, order);
  }

  // ---------------------------------------------------------------- the one cut that matters, concretely

  function Letters(n: nat): (s: string)
    ensures |s| == n && forall i :: 0 <= i < n ==> s[i] == 'a'
  {
    seq(n, i => 'a')
  }

  lemma {:induction false} LettersComponent(s: string)
    requires forall i :: 0 <= i < |s| ==> s[i] == 'a'
    ensures Component(s, false)
  {
    if s != "" { LettersComponent(s[1..]); }
  }

  /** A request whose line has exactly the limit's length. */
  function LimitRequest(): HttpRequest {
    HttpRequest("G", "/" + Letters(MAX_LINE - 12), "HTTP/1.1", "", map["host" := "h"])
  }

  lemma LimitStart()
    ensures StartLineOk(LimitRequest()) && |StartLine(LimitRequest())| == MAX_LINE
  {
    var t := "/" + Letters(MAX_LINE - 12);
    assert t[1..] == Letters(MAX_LINE - 12);
    LettersComponent(t[1..]);
    assert UriChar(t[0], false) && Component(t, false);
    assert FindChar(t, '?', 0).None?;
  }

  lemma LimitHeaders(headers: map<string, string>)
    requires headers == map["host" := "h"]
    ensures Enumerates(["host"], headers) && Allowed("host", "h") && |Hosts(headers.Keys)| == 1
  {
    assert Lowered("host") == "host";
    assert Hosts(headers.Keys) == {"host"};
  }

  lemma LimitBlock(r: HttpRequest)
    requires r.headers == map["host" := "h"] && r.body == ""
    ensures |Block(Written(r, ["host"]))| + 2 <= MAX_HEADER
  {
    WrittenBlock(r, ["host"]);
    FramingBlock("");
    assert Listed(["host"], r.headers) == [Field("host", "h")];
    BlockOne(Field("host", "h"));
    assert Decimal(0) == "0";
  }

  lemma LimitFits(r: HttpRequest)
    requires r.headers == map["host" := "h"] && r.body == "" && StartLineOk(r)
    ensures Enumerates(["host"], r.headers) && Serializable(r, ["host"])
  {
    LimitHeaders(r.headers);
    LimitBlock(r);
  }

  lemma LimitSerializable()
    ensures Enumerates(["host"], LimitRequest().headers) && Serializable(LimitRequest(), ["host"])
    ensures |StartLine(LimitRequest())| == MAX_LINE
  {
    LimitStart();
    LimitFits(LimitRequest());
  }

  lemma NoCrlf(line: string)
    requires NoLineFeed(line)
    ensures FindBlankLine(line + "\r", 0).None? && Unfinished(line + "\r", 0) == 0
  {
    assert FindCrlf(line + "\r", 0).None?;
  }

  lemma CutLosesLine(layout: Layout, line: string, q: string)
    requires NoLineFeed(line) && |line| == MAX_LINE && q != "" && q[0] == '\n'
    requires Judge(layout, line + "\r" + q).Accepted?
    ensures Judge(layout, line + "\r").Rejected?
  {
    NoCrlf(line);
    JudgeExtends(layout, line + "\r", q);
  }

  /** Any serialized request whose line has the limit's length is accepted whole and rejected when
      the line's CR arrives alone. */
  lemma CutLoses(r: HttpRequest, order: seq<string>)
    requires Enumerates(order, r.headers) && Serializable(r, order) && |StartLine(r)| == MAX_LINE
    ensures Judge(Requests(), Serialized(r, order)).Accepted?
    ensures Judge(Requests(), StartLine(r) + "\r").Rejected?
    ensures StartLine(r) + "\r" <= Serialized(r, order)
  {
    RoundTrip(r, order, "");
    assert Serialized(r, order) + "" == Serialized(r, order);
    StartLineReads(r);
    var q := SplitAtCr(StartLine(r), Block(Written(r, order)), r.body);
    CutLosesLine(Requests(), StartLine(r), q);
  }

  lemma SplitAtCr(line: string, block: string, body: string) returns (q: string)
    ensures line + CRLF + block + CRLF + body == line + "\r" + q && q != "" && q[0] == '\n'
  {
    q := "\n" + block + CRLF + body;
  }

  /** Such a request exists. */
  lemma LimitLineCut()
    ensures Judge(Requests(), Serialized(LimitRequest(), ["host"])).Accepted?
    ensures Judge(Requests(), StartLine(LimitRequest()) + "\r").Rejected?
    ensures StartLine(LimitRequest()) + "\r" <= Serialized(LimitRequest(), ["host"])
  {
    LimitSerializable();
    CutLoses(LimitRequest(), ["host"]);
  }
}
