/** Text helpers shared by the HTTP request and response parsers.  A byte is the character with its
    code; nothing here depends on codes above 255. */
module HttpText {
  import opened Attempts

  const SIZE_MAX: nat := 0xFFFF_FFFF_FFFF_FFFF
  const CRLF: string := "\r\n"

  // ---------------------------------------------------------------- searching

  predicate CrlfAt(b: string, i: nat) { i + 1 < |b| && b[i] == '\r' && b[i + 1] == '\n' }

  function FindCrlf(b: string, from: nat): (r: Option<nat>)
    requires from <= |b|
    ensures r.Some? ==> from <= r.value && CrlfAt(b, r.value) && forall i :: from <= i < r.value ==> !CrlfAt(b, i)
    ensures r.None? ==> forall i :: from <= i ==> !CrlfAt(b, i)
    decreases |b| - from
  {
    if from == |b| then None else if CrlfAt(b, from) then Some(from) else FindCrlf(b, from + 1)
  }

  function FindChar(b: string, c: char, from: nat): (r: Option<nat>)
    requires from <= |b|
    ensures r.Some? ==> from <= r.value < |b| && b[r.value] == c && forall i :: from <= i < r.value ==> b[i] != c
    ensures r.None? ==> forall i :: from <= i < |b| ==> b[i] != c
    decreases |b| - from
  {
    if from == |b| then None else if b[from] == c then Some(from) else FindChar(b, c, from + 1)
  }

  predicate BlankLineAt(b: string, i: nat) { CrlfAt(b, i) && CrlfAt(b, i + 2) }

  function FindBlankLine(b: string, from: nat): (r: Option<nat>)
    requires from <= |b|
    ensures r.Some? ==> from <= r.value && BlankLineAt(b, r.value) && forall i :: from <= i < r.value ==> !BlankLineAt(b, i)
    ensures r.None? ==> forall i :: from <= i ==> !BlankLineAt(b, i)
    decreases |b| - from
  {
    if from == |b| then None else if BlankLineAt(b, from) then Some(from) else FindBlankLine(b, from + 1)
  }

  // ---------------------------------------------------------------- characters

  function Lower(c: char): char { if 'A' <= c <= 'Z' then c - 'A' + 'a' else c }

  function Lowered(s: string): (r: string)
    ensures |r| == |s| && forall i :: 0 <= i < |s| ==> r[i] == Lower(s[i])
  {
    seq(|s|, i requires 0 <= i < |s| => Lower(s[i]))
  }

  predicate Alphanumeric(c: char) { 'A' <= c <= 'Z' || 'a' <= c <= 'z' || '0' <= c <= '9' }

  predicate TokenChar(c: char) { Alphanumeric(c) || c in "!#$%&'*+-.^_`|~" }

  predicate Token(s: string) { s != "" && forall i :: 0 <= i < |s| ==> TokenChar(s[i]) }

  predicate Blank(c: char) { c == ' ' || c == '\t' }

  predicate FieldChar(c: char) { c == '\t' || (c >= ' ' && c != '\U{7F}') }

  predicate FieldValue(s: string) { forall i :: 0 <= i < |s| ==> FieldChar(s[i]) }

  /** Every line feed follows a carriage return. */
  predicate NoBareLineFeed(b: string) {
    forall i :: 0 <= i < |b| && b[i] == '\n' ==> i > 0 && b[i - 1] == '\r'
  }

  predicate NoLineFeed(b: string) { forall i :: 0 <= i < |b| ==> b[i] != '\n' && b[i] != '\r' }

  method LowerAscii(value: string) returns (r: string)
    ensures r == Lowered(value)
  {
    r := "";
    for k := 0 to |value|
      invariant |r| == k && forall i :: 0 <= i < k ==> r[i] == Lower(value[i])
    {
      r := r + [Lower(value[k])];
    }
  }

  method IsToken(value: string) returns (ok: bool)
    ensures ok <==> Token(value)
  {
    for k := 0 to |value|
      invariant forall i :: 0 <= i < k ==> TokenChar(value[i])
    {
      if !TokenChar(value[k]) { return false; }
    }
    return value != "";
  }

  method IsValidFieldValue(value: string) returns (ok: bool)
    ensures ok <==> FieldValue(value)
  {
    for k := 0 to |value|
      invariant forall i :: 0 <= i < k ==> FieldChar(value[i])
    {
      if value[k] == '\t' { continue; }
      if value[k] < ' ' || value[k] == '\U{7F}' { return false; }
    }
    return true;
  }

  method HasBareLineFeed(b: string) returns (bare: bool)
    ensures bare <==> !NoBareLineFeed(b)
  {
    for k := 0 to |b|
      invariant forall i :: 0 <= i < k && b[i] == '\n' ==> i > 0 && b[i - 1] == '\r'
    {
      if b[k] == '\n' && (k == 0 || b[k - 1] != '\r') { return true; }
    }
    return false;
  }

  // ---------------------------------------------------------------- optional white space

  /** No blank at either end. */
  predicate Trimmed(s: string) { s == "" || (!Blank(s[0]) && !Blank(s[|s| - 1])) }

  predicate AllBlank(s: string) { forall i :: 0 <= i < |s| ==> Blank(s[i]) }

  function TrimFront(s: string): string {
    if s != "" && Blank(s[0]) then TrimFront(s[1..]) else s
  }

  function TrimBack(s: string): string {
    if s != "" && Blank(s[|s| - 1]) then TrimBack(s[..|s| - 1]) else s
  }

  function Trim(s: string): string { TrimBack(TrimFront(s)) }

  lemma {:induction false} TrimFrontIs(front: string, core: string)
    requires AllBlank(front) && (core == "" || !Blank(core[0]))
    ensures TrimFront(front + core) == core
  {
    if front == "" {
      assert front + core == core;
    } else {
      assert (front + core)[1..] == front[1..] + core;
      assert (front + core)[0] == front[0];
      TrimFrontIs(front[1..], core);
    }
  }

  lemma {:induction false} TrimBackIs(core: string, back: string)
    requires AllBlank(back) && (core == "" || !Blank(core[|core| - 1]))
    ensures TrimBack(core + back) == core
  {
    if back == "" {
      assert core + back == core;
    } else {
      var s := core + back;
      assert s[..|s| - 1] == core + back[..|back| - 1];
      assert s[|s| - 1] == back[|back| - 1];
      TrimBackIs(core, back[..|back| - 1]);
    }
  }

  /** Trim removes exactly the outer blanks. */
  lemma TrimIs(front: string, core: string, back: string)
    requires AllBlank(front) && AllBlank(back) && Trimmed(core)
    ensures Trim(front + core + back) == core
  {
    if core == "" {
      assert front + core + back == (front + back) + "";
      TrimFrontIs(front + back, "");
    } else {
      assert front + core + back == front + (core + back);
      TrimFrontIs(front, core + back);
      TrimBackIs(core, back);
    }
  }

  /** The value is the trimmed text between two runs of blanks. */
  ghost predicate TrimsTo(value: string, r: string) {
    Trimmed(r) && exists front, back :: AllBlank(front) && AllBlank(back) && value == front + r + back
  }

  lemma {:induction false} FrontOf(s: string) returns (front: string)
    ensures AllBlank(front) && s == front + TrimFront(s) && (TrimFront(s) == "" || !Blank(TrimFront(s)[0]))
  {
    front := "";
    if s != "" && Blank(s[0]) {
      front := FrontOf(s[1..]);
      assert s == [s[0]] + s[1..];
      assert [s[0]] + (front + TrimFront(s[1..])) == [s[0]] + front + TrimFront(s[1..]);
      front := [s[0]] + front;
    }
  }

  lemma {:induction false} BackOf(s: string) returns (back: string)
    requires s == "" || !Blank(s[0])
    ensures AllBlank(back) && s == TrimBack(s) + back && Trimmed(TrimBack(s))
  {
    back := "";
    if s != "" && Blank(s[|s| - 1]) {
      var rest := s[..|s| - 1];
      back := BackOf(rest);
      assert s == rest + [s[|s| - 1]];
      assert TrimBack(rest) + back + [s[|s| - 1]] == TrimBack(rest) + (back + [s[|s| - 1]]);
      back := back + [s[|s| - 1]];
    }
  }

  lemma TrimParts(value: string)
    ensures TrimsTo(value, Trim(value))
  {
    var front := FrontOf(value);
    var back := BackOf(TrimFront(value));
    assert front + (Trim(value) + back) == front + Trim(value) + back;
  }

  method TrimOws(value: string) returns (r: string)
    ensures r == Trim(value) && TrimsTo(value, r)
  {
    r := value;
    while r != "" && Blank(r[0])
      invariant TrimFront(r) == TrimFront(value)
      decreases |r|
    {
      r := r[1..];
    }
    ghost var rest := r;
    while r != "" && Blank(r[|r| - 1])
      invariant TrimBack(r) == TrimBack(rest)
      decreases |r|
    {
      r := r[..|r| - 1];
    }
    TrimParts(value);
  }

  // ---------------------------------------------------------------- transfer codings

  /** Some comma-separated element of the value is the chunked coding. */
  predicate Chunked(value: string) {
    var comma := FindChar(value, ',', 0);
    if comma.None? then Lowered(Trim(value)) == "chunked"
    else Lowered(Trim(value[..comma.value])) == "chunked" || Chunked(value[comma.value + 1..])
  }

  /** The text between two commas, or between a comma and an end. */
  predicate Element(value: string, i: nat, j: nat) {
    && i <= j <= |value| && ',' !in value[i..j]
    && (i == 0 || value[i - 1] == ',') && (j == |value| || value[j] == ',')
  }

  ghost predicate ChunkedElement(value: string, i: nat, j: nat) {
    Element(value, i, j) && Lowered(Trim(value[i..j])) == "chunked"
  }

  ghost predicate HasChunked(value: string) { exists i, j :: ChunkedElement(value, i, j) }

  /** The recursion over commas finds exactly an element that is, trimmed and in any case, "chunked". */
  lemma ChunkedIff(value: string)
    ensures Chunked(value) <==> HasChunked(value)
  {
    if Chunked(value) {
      var i, j := ElementFound(value);
    } else if i, j :| ChunkedElement(value, i, j) {
      FoundElement(value, i, j);
    }
  }

  lemma {:induction false} ElementFound(value: string) returns (i: nat, j: nat)
    requires Chunked(value)
    ensures ChunkedElement(value, i, j)
    decreases |value|
  {
    var comma := FindChar(value, ',', 0);
    var end := if comma.Some? then comma.value else |value|;
    FirstElement(value, comma, end);
    if Lowered(Trim(value[..end])) == "chunked" {
      i, j := 0, end;
    } else {
      i, j := ElementFound(value[end + 1..]);
      ElementBehind(value, end, i, j);
      i, j := end + 1 + i, end + 1 + j;
    }
  }

  lemma {:induction false} FoundElement(value: string, i: nat, j: nat)
    requires ChunkedElement(value, i, j)
    ensures Chunked(value)
    decreases |value|
  {
    var comma := FindChar(value, ',', 0);
    if comma.None? {
      assert value[i..j] == value;
    } else if i > comma.value {
      ElementAhead(value, comma.value, i, j);
      FoundElement(value[comma.value + 1..], i - (comma.value + 1), j - (comma.value + 1));
    } else {
      ElementFirst(value, comma.value, i, j);
      assert value[0..j] == value[..j];
    }
  }

  lemma FirstElement(value: string, comma: Option<nat>, end: nat)
    requires comma == FindChar(value, ',', 0) && end == (if comma.Some? then comma.value else |value|)
    ensures Element(value, 0, end) && value[0..end] == value[..end] && (comma.None? ==> value[..end] == value)
  {
  }

  lemma ElementBehind(value: string, c: nat, i: nat, j: nat)
    requires c < |value| && value[c] == ',' && ChunkedElement(value[c + 1..], i, j)
    ensures ChunkedElement(value, c + 1 + i, c + 1 + j)
  {
    assert value[c + 1..][i..j] == value[c + 1 + i..c + 1 + j];
  }

  lemma ElementAhead(value: string, c: nat, i: nat, j: nat)
    requires c < |value| && value[c] == ',' && ChunkedElement(value, i, j) && i > c
    ensures ChunkedElement(value[c + 1..], i - (c + 1), j - (c + 1))
  {
    assert value[c + 1..][i - (c + 1)..j - (c + 1)] == value[i..j];
  }

  lemma ElementFirst(value: string, c: nat, i: nat, j: nat)
    requires FindChar(value, ',', 0) == Some(c) && Element(value, i, j) && i <= c
    ensures i == 0 && j == c
  {
    assert forall k :: i <= k < j ==> value[k] in value[i..j];
  }

  method ContainsChunked(value: string) returns (found: bool)
    ensures found <==> Chunked(value)
    ensures found <==> HasChunked(value)
  {
    found := false;
    var rest := value;
    while rest != ""
      invariant !found && (Chunked(value) <==> Chunked(rest))
      decreases |rest|
    {
      var comma := FindChar(rest, ',', 0);
      var element := TrimOws(if comma.Some? then rest[..comma.value] else rest);
      var coding := LowerAscii(element);
      found := coding == "chunked";
      if found || comma.None? { break; }
      rest := rest[comma.value + 1..];
    }
    assert found <==> Chunked(value);
    ChunkedIff(value);
  }

  // ---------------------------------------------------------------- decimal lengths

  predicate Digit(c: char) { '0' <= c <= '9' }

  predicate Digits(s: string) { forall i :: 0 <= i < |s| ==> Digit(s[i]) }

  function DigitValue(c: char): nat
    requires Digit(c)
  {
    c as int - '0' as int
  }

  function Number(s: string): nat
    requires Digits(s)
  {
    if s == "" then 0 else Number(s[..|s| - 1]) * 10 + DigitValue(s[|s| - 1])
  }

  function Decimal(n: nat): (s: string)
    ensures s != "" && Digits(s)
  {
    var last := [(n % 10) as char + '0'];
    if n < 10 then last else Decimal(n / 10) + last
  }

  lemma {:induction false} NumberOfDecimal(n: nat)
    ensures Number(Decimal(n)) == n
  {
    var s := Decimal(n);
    var last := (n % 10) as char + '0';
    assert s[|s| - 1] == last && DigitValue(last) == n % 10;
    if n < 10 {
      assert s[..|s| - 1] == "";
    } else {
      NumberOfDecimal(n / 10);
      assert s[..|s| - 1] == Decimal(n / 10);
    }
  }

  /** The value of a non-empty digit string that fits a 64-bit size. */
  function Length(value: string): Option<nat> {
    if value == "" || !Digits(value) || Number(value) > SIZE_MAX then None else Some(Number(value))
  }

  lemma {:induction false} NumberGrows(s: string, k: nat)
    requires Digits(s) && k <= |s|
    ensures Number(s[..k]) <= Number(s)
  {
    if k == |s| {
      assert s[..k] == s;
    } else {
      NumberGrows(s[..|s| - 1], k);
      assert s[..|s| - 1][..k] == s[..k];
    }
  }

  /** The guard against overflow rejects exactly the values above the 64-bit maximum. */
  method ParseContentLength(value: string) returns (r: Option<nat>)
    ensures r == Length(value)
  {
    if value == "" { return None; }
    var parsed: nat := 0;
    for k := 0 to |value|
      invariant Digits(value[..k]) && parsed == Number(value[..k]) <= SIZE_MAX
    {
      if value[k] < '0' || value[k] > '9' {
        assert !Digit(value[k]);
        return None;
      }
      var digit := DigitValue(value[k]);
      assert value[..k + 1][..k] == value[..k];
      assert Number(value[..k + 1]) == parsed * 10 + digit;
      if parsed > (SIZE_MAX - digit) / 10 {
        if Digits(value) { NumberGrows(value, k + 1); }
        return None;
      }
      parsed := parsed * 10 + digit;
    }
    assert value[..|value|] == value;
    return Some(parsed);
  }
}
