/** Feeding a parser a byte stream in pieces.  The pieces do not matter, except for one cut: between
    the CR and the LF of a line that has exactly the length limit. */
module HttpSegments {
  import opened Attempts
  import opened HttpText
  import opened HttpFraming

  /** Where the unterminated last line of `p` starts, reading lines from `from`. */
  function Unfinished(p: string, from: nat): (r: nat)
    requires from <= |p|
    ensures from <= r <= |p|
    decreases |p| - from
  {
    match FindCrlf(p, from)
    case None => from
    case Some(end) => Unfinished(p, end + 2)
  }

  /** The line starting at `start` has the limit's length and its CR arrived without its LF. */
  predicate Cut(p: string, q: string, start: nat)
  {
    |p| == start + MAX_LINE + 1 && p[|p| - 1] == '\r' && q != "" && q[0] == '\n'
  }

  /** The one cut that matters: inside the head; for requests, inside the request line. */
  predicate SplitInHead(layout: Layout, p: string, q: string) {
    && FindBlankLine(p, 0).None?
    && (Unfinished(p, 0) == 0 || layout.lineLimit)
    && Cut(p, q, Unfinished(p, 0))
  }

  // ---------------------------------------------------------------- what appending keeps

  lemma FindKept(p: string, q: string, from: nat)
    requires from <= |p|
    ensures FindCrlf(p, from).Some? ==> FindCrlf(p + q, from) == FindCrlf(p, from)
    ensures FindCrlf(p, from).None? && FindCrlf(p + q, from).Some? ==>
              var end := FindCrlf(p + q, from).value;
              && end + 1 >= |p|
              && (end + 1 == |p| ==> p != "" && p[|p| - 1] == '\r' && q != "" && q[0] == '\n')
  {
    forall i: nat | i + 1 < |p| ensures CrlfAt(p + q, i) == CrlfAt(p, i) {
    }
  }

  lemma BlankKept(p: string, q: string)
    ensures FindBlankLine(p, 0).Some? ==> FindBlankLine(p + q, 0) == FindBlankLine(p, 0)
    ensures FindBlankLine(p, 0).None? && FindBlankLine(p + q, 0).Some? ==> FindBlankLine(p + q, 0).value + 4 > |p|
  {
    forall i: nat | i + 3 < |p| ensures BlankLineAt(p + q, i) == BlankLineAt(p, i) {
    }
  }

  lemma ProtocolKept(p: string, q: string)
    ensures FindBlankLine(p, 0).Some? ==> Protocol(p + q) == Protocol(p)
    ensures NoBareLineFeed(Protocol(p + q)) ==> NoBareLineFeed(Protocol(p))
  {
    BlankKept(p, q);
    if FindBlankLine(p, 0).Some? {
      assert Protocol(p + q) == Protocol(p);
    } else if NoBareLineFeed(Protocol(p + q)) {
      assert p <= Protocol(p + q);
      PrefixClean(p, Protocol(p + q));
    }
  }

  lemma PrefixClean(p: string, all: string)
    requires p <= all && NoBareLineFeed(all)
    ensures NoBareLineFeed(p)
  {
    forall i | 0 <= i < |p| && p[i] == '\n' ensures i > 0 && p[i - 1] == '\r' {
      assert all[i] == '\n';
      assert i > 0 && all[i - 1] == '\r';
      assert p[i - 1] == all[i - 1];
    }
  }

  // ---------------------------------------------------------------- field lines

  predicate Refusal(r: Outcome) { r.Error? || r.Unsupported? }

  lemma {:induction false} ReadyHasBlankLine(layout: Layout, b: string, first: nat, cursor: nat, fields: seq<Field>,
                                             length: Option<nat>)
    requires first + 2 <= cursor <= |b| && CrlfAt(b, cursor - 2)
    requires Fields(layout, b, first, cursor, fields, length).Ready?
    ensures FindBlankLine(b, 0).Some?
    ensures var head := Fields(layout, b, first, cursor, fields, length).head;
            head.end <= |b| && head.end >= 4 && BlankLineAt(b, head.end - 4)
    decreases |b| - cursor
  {
    var end := FindCrlf(b, cursor).value;
    if end == cursor {
      assert BlankLineAt(b, cursor - 2);
    } else {
      var line := layout.rule(b[cursor..end], length);
      ReadyHasBlankLine(layout, b, first, end + 2, fields + [line.field], line.length);
    }
  }

  /** One line read from p is read the same from p + q: refused in both, or passed in both. */
  lemma LineKept(layout: Layout, p: string, q: string, first: nat, cursor: nat, end: nat, fields: seq<Field>,
                 length: Option<nat>)
    requires first + 2 <= |p| && cursor <= |p| && FindCrlf(p, cursor) == Some(end) && end != cursor
    ensures var line := layout.rule(p[cursor..end], length);
            var r, r' := Fields(layout, p, first, cursor, fields, length), Fields(layout, p + q, first, cursor, fields, length);
            || (Refusal(r) && r == r')
            || (&& line.Fine?
                && r == Fields(layout, p, first, end + 2, fields + [line.field], line.length)
                && r' == Fields(layout, p + q, first, end + 2, fields + [line.field], line.length))
  {
    FindKept(p, q, cursor);
    assert (p + q)[cursor..end] == p[cursor..end];
  }

  lemma {:induction false} FieldsKept(layout: Layout, p: string, q: string, first: nat, cursor: nat, fields: seq<Field>,
                                      length: Option<nat>)
    requires first + 2 <= |p| && cursor <= |p| && Fields(layout, p, first, cursor, fields, length).Ready?
    ensures Fields(layout, p + q, first, cursor, fields, length) == Fields(layout, p, first, cursor, fields, length)
    decreases |p| - cursor
  {
    var end := FindCrlf(p, cursor).value;
    if end == cursor {
      FindKept(p, q, cursor);
      assert (p + q)[..first] == p[..first];
    } else {
      LineKept(layout, p, q, first, cursor, end, fields, length);
      var line := layout.rule(p[cursor..end], length);
      FieldsKept(layout, p, q, first, end + 2, fields + [line.field], line.length);
    }
  }

  /** A line that p leaves open and p + q ends was not refused in p unless it was cut. */
  lemma OpenLine(layout: Layout, p: string, q: string, first: nat, cursor: nat, fields: seq<Field>, length: Option<nat>)
    requires first + 2 <= |p| && cursor <= |p| && FindCrlf(p, cursor).None?
    requires Refusal(Fields(layout, p, first, cursor, fields, length))
    requires Fields(layout, p + q, first, cursor, fields, length).Ready?
    ensures layout.lineLimit && Cut(p, q, cursor)
  {
    FindKept(p, q, cursor);
  }

  ghost predicate NoBlankFrom(p: string, from: nat) { forall i :: from <= i ==> !BlankLineAt(p, i) }

  lemma NoBlankBefore(p: string, cursor: nat, end: nat)
    requires 2 <= cursor <= |p| && CrlfAt(p, cursor - 2)
    requires FindCrlf(p, cursor) == Some(end) && end != cursor && NoBlankFrom(p, end)
    ensures NoBlankFrom(p, cursor - 2)
  {
  }

  lemma BlankSame(layout: Layout, p: string, q: string, first: nat, cursor: nat, fields: seq<Field>, length: Option<nat>)
    requires first + 2 <= |p| && cursor <= |p| && FindCrlf(p, cursor) == Some(cursor)
    ensures var r, r' := Fields(layout, p, first, cursor, fields, length), Fields(layout, p + q, first, cursor, fields, length);
            !(Refusal(r) && r'.Ready?)
  {
    FindKept(p, q, cursor);
  }

  /** A line that both read is passed by both, so the difference lies further on. */
  lemma CutFurtherOn(layout: Layout, p: string, q: string, first: nat, cursor: nat, end: nat, fields: seq<Field>,
                     length: Option<nat>) returns (line: LineOutcome)
    requires first + 2 <= |p| && cursor <= |p| && FindCrlf(p, cursor) == Some(end) && end != cursor
    requires Refusal(Fields(layout, p, first, cursor, fields, length))
    requires Fields(layout, p + q, first, cursor, fields, length).Ready?
    ensures line.Fine? && Refusal(Fields(layout, p, first, end + 2, fields + [line.field], line.length))
    ensures Fields(layout, p + q, first, end + 2, fields + [line.field], line.length).Ready?
  {
    LineKept(layout, p, q, first, cursor, end, fields, length);
    line := layout.rule(p[cursor..end], length);
  }

  lemma {:induction false} FieldsCutOnly(layout: Layout, p: string, q: string, first: nat, cursor: nat,
                                         fields: seq<Field>, length: Option<nat>)
    requires first + 2 <= cursor <= |p| && CrlfAt(p, cursor - 2)
    requires Refusal(Fields(layout, p, first, cursor, fields, length))
    requires Fields(layout, p + q, first, cursor, fields, length).Ready?
    ensures layout.lineLimit && Cut(p, q, Unfinished(p, cursor)) && NoBlankFrom(p, cursor - 2)
    decreases |p| - cursor
  {
    var found := FindCrlf(p, cursor);
    if found.None? {
      OpenLine(layout, p, q, first, cursor, fields, length);
    } else if found.value == cursor {
      BlankSame(layout, p, q, first, cursor, fields, length);
    } else {
      var line := CutFurtherOn(layout, p, q, first, cursor, found.value, fields, length);
      FieldsCutOnly(layout, p, q, first, found.value + 2, fields + [line.field], line.length);
      NoBlankBefore(p, cursor, found.value);
    }
  }

  lemma {:induction false} FieldsCut(layout: Layout, p: string, q: string, first: nat, cursor: nat, fields: seq<Field>,
                                     length: Option<nat>)
    requires first + 2 <= cursor <= |p| && CrlfAt(p, cursor - 2) && layout.lineLimit
    requires FindBlankLine(p, 0).None? && Cut(p, q, Unfinished(p, cursor))
    ensures Refusal(Fields(layout, p, first, cursor, fields, length))
    decreases |p| - cursor
  {
    assert !BlankLineAt(p, cursor - 2);
    if FindCrlf(p, cursor).Some? {
      var end := FindCrlf(p, cursor).value;
      var line := layout.rule(p[cursor..end], length);
      if line.Fine? {
        FieldsCut(layout, p, q, first, end + 2, fields + [line.field], line.length);
      }
    }
  }

  // ---------------------------------------------------------------- heads

  lemma HeadReady(layout: Layout, b: string)
    requires HeadOf(layout, b).Ready?
    ensures FindBlankLine(b, 0).Some? && HeadOf(layout, b).head.end <= |b|
    ensures FindCrlf(b, 0).Some? && layout.first(b[..FindCrlf(b, 0).value])
  {
    var first := FindCrlf(b, 0).value;
    ReadyHasBlankLine(layout, b, first, first + 2, [], None);
  }

  /** A complete head stays the same head. */
  lemma HeadKept(layout: Layout, p: string, q: string)
    requires HeadOf(layout, p).Ready?
    ensures HeadOf(layout, p + q) == HeadOf(layout, p)
  {
    HeadReady(layout, p);
    ProtocolKept(p, q);
    FindKept(p, q, 0);
    var first := FindCrlf(p, 0).value;
    assert (p + q)[..first] == p[..first];
    FieldsKept(layout, p, q, first, first + 2, [], None);
  }

  /** The case where p already ends its first line. */
  lemma RefusedLater(layout: Layout, p: string, q: string, first: nat)
    requires FindCrlf(p, 0) == Some(first)
    requires Refusal(HeadOf(layout, p)) && HeadOf(layout, p + q).Ready?
    ensures layout.lineLimit && Cut(p, q, Unfinished(p, first + 2)) && FindBlankLine(p, 0).None?
  {
    ProtocolKept(p, q);
    FindKept(p, q, 0);
    assert (p + q)[..first] == p[..first];
    var r := Fields(layout, p, first, first + 2, [], None);
    if r.Ready? {
      FieldsKept(layout, p, q, first, first + 2, [], None);
    } else {
      FieldsCutOnly(layout, p, q, first, first + 2, [], None);
    }
  }

  lemma RefusedThenReady(layout: Layout, p: string, q: string)
    requires Refusal(HeadOf(layout, p)) && HeadOf(layout, p + q).Ready?
    ensures SplitInHead(layout, p, q)
  {
    if FindCrlf(p, 0).Some? {
      RefusedLater(layout, p, q, FindCrlf(p, 0).value);
    } else {
      ProtocolKept(p, q);
      FindKept(p, q, 0);
    }
  }

  lemma SplitRefused(layout: Layout, p: string, q: string)
    requires SplitInHead(layout, p, q)
    ensures Refusal(HeadOf(layout, p))
  {
    if FindCrlf(p, 0).Some? {
      var first := FindCrlf(p, 0).value;
      FieldsCut(layout, p, q, first, first + 2, [], None);
    }
  }

  lemma AcceptedKept(layout: Layout, p: string, q: string)
    requires Judge(layout, p).Accepted?
    ensures Judge(layout, p + q) == Judge(layout, p)
  {
    HeadKept(layout, p, q);
    var head := HeadOf(layout, p).head;
    var used := head.end + BodyLength(layout, head);
    assert (p + q)[head.end..used] == p[head.end..used];
  }

  lemma RefusedIff(layout: Layout, p: string, q: string)
    requires HeadOf(layout, p + q).Ready?
    ensures Refusal(HeadOf(layout, p)) <==> SplitInHead(layout, p, q)
  {
    if Refusal(HeadOf(layout, p)) {
      RefusedThenReady(layout, p, q);
    } else if SplitInHead(layout, p, q) {
      SplitRefused(layout, p, q);
    }
  }

  /** Appending bytes: an accepted message stays accepted and unchanged; and a prefix of an accepted
      stream is rejected exactly when the cut falls inside the CRLF of a limit-length line. */
  lemma JudgeExtends(layout: Layout, p: string, q: string)
    ensures Judge(layout, p).Accepted? ==> Judge(layout, p + q) == Judge(layout, p)
    ensures Judge(layout, p + q).Accepted? ==> (Judge(layout, p).Rejected? <==> SplitInHead(layout, p, q))
  {
    if Judge(layout, p).Accepted? { AcceptedKept(layout, p, q); }
    if Judge(layout, p + q).Accepted? { RefusedIff(layout, p, q); }
  }

  // ---------------------------------------------------------------- feeding

  /** A parser and its buffer after some reads: append, then judge unless already decided. */
  datatype Parser = Parser(verdict: Verdict, buffer: string)

  function Feed(judge: string -> Verdict, parser: Parser, segment: string): Parser {
    var buffer := parser.buffer + segment;
    if !parser.verdict.Pending? then parser.(buffer := buffer)
    else
      var verdict := judge(buffer);
      Parser(verdict, if verdict.Accepted? && verdict.used <= |buffer| then buffer[verdict.used..] else buffer)
  }

  function FeedAll(judge: string -> Verdict, segments: seq<string>): Parser {
    if segments == [] then Parser(Pending, "")
    else Feed(judge, FeedAll(judge, segments[..|segments| - 1]), segments[|segments| - 1])
  }

  function Concat(segments: seq<string>): string {
    if segments == [] then "" else Concat(segments[..|segments| - 1]) + segments[|segments| - 1]
  }

  lemma {:induction false} ConcatPrefix(segments: seq<string>, k: nat)
    requires k <= |segments|
    ensures Concat(segments[..k]) <= Concat(segments)
  {
    if k == |segments| {
      assert segments[..k] == segments;
    } else {
      ConcatPrefix(segments[..|segments| - 1], k);
      assert segments[..|segments| - 1][..k] == segments[..k];
    }
  }

  /** A judge for which an accepted message stays accepted when more bytes follow. */
  ghost predicate Settles(judge: string -> Verdict) {
    && judge("").Pending?
    && (forall b :: judge(b).Accepted? ==> judge(b).used <= |b|)
    && (forall p, q :: judge(p).Accepted? ==> judge(p + q) == judge(p))
  }

  /** What the parser knows after reading `segments`. */
  ghost predicate Knows(judge: string -> Verdict, segments: seq<string>, parser: Parser) {
    var p := Concat(segments);
    match parser.verdict
    case Pending => parser.buffer == p && judge(p).Pending?
    case Accepted(_, _, used) => judge(p) == parser.verdict && used <= |p| && parser.buffer == p[used..]
    case Rejected(_) => parser.buffer == p && SomeRejected(judge, segments)
  }

  ghost predicate SomeRejected(judge: string -> Verdict, segments: seq<string>) {
    exists k :: 0 <= k <= |segments| && judge(Concat(segments[..k])).Rejected?
  }

  lemma RejectedLonger(judge: string -> Verdict, segments: seq<string>)
    requires segments != [] && SomeRejected(judge, segments[..|segments| - 1])
    ensures SomeRejected(judge, segments)
  {
    var before := segments[..|segments| - 1];
    var k :| 0 <= k <= |before| && judge(Concat(before[..k])).Rejected?;
    assert before[..k] == segments[..k];
  }

  lemma {:induction false} FeedKnows(judge: string -> Verdict, segments: seq<string>)
    requires Settles(judge)
    ensures Knows(judge, segments, FeedAll(judge, segments))
  {
    if segments != [] {
      var before, last := segments[..|segments| - 1], segments[|segments| - 1];
      FeedKnows(judge, before);
      var parser, p := FeedAll(judge, before), Concat(before);
      assert segments[..|segments|] == segments;
      match parser.verdict
      case Pending =>
      case Accepted(_, _, used) =>
        assert judge(p + last) == judge(p);
        assert (p + last)[used..] == p[used..] + last;
      case Rejected(_) =>
        RejectedLonger(judge, segments);
    }
  }

  /** Once the parser has seen a rejected prefix it never accepts. */
  lemma {:induction false} RejectedStays(judge: string -> Verdict, segments: seq<string>, k: nat)
    requires Settles(judge) && k <= |segments| && judge(Concat(segments[..k])).Rejected?
    ensures FeedAll(judge, segments).verdict.Rejected?
  {
    if k == |segments| {
      assert segments[..k] == segments;
      FeedKnows(judge, segments);
    } else {
      assert segments[..|segments| - 1][..k] == segments[..k];
      RejectedStays(judge, segments[..|segments| - 1], k);
    }
  }

  // ---------------------------------------------------------------- segmentation

  function JudgeOf(layout: Layout): string -> Verdict { b => Judge(layout, b) }

  lemma JudgeSettles(layout: Layout)
    ensures Settles(JudgeOf(layout))
  {
    forall p, q | Judge(layout, p).Accepted? ensures Judge(layout, p + q) == Judge(layout, p) {
      JudgeExtends(layout, p, q);
    }
  }

  /** The cut after `k` segments is the one that matters. */
  ghost predicate CutAt(layout: Layout, segments: seq<string>, k: nat) {
    && k <= |segments| && Concat(segments[..k]) <= Concat(segments)
    && SplitInHead(layout, Concat(segments[..k]), Concat(segments)[|Concat(segments[..k])|..])
  }

  lemma PrefixRejected(layout: Layout, p: string, whole: string)
    requires p <= whole && Judge(layout, whole).Accepted?
    ensures SplitInHead(layout, p, whole[|p|..]) <==> Judge(layout, p).Rejected?
  {
    var q := whole[|p|..];
    assert p + q == whole;
    JudgeExtends(layout, p, q);
  }

  lemma CutIsRejected(layout: Layout, segments: seq<string>, k: nat)
    requires JudgeOf(layout)(Concat(segments)).Accepted? && k <= |segments|
    ensures CutAt(layout, segments, k) <==> JudgeOf(layout)(Concat(segments[..k])).Rejected?
  {
    ConcatPrefix(segments, k);
    PrefixRejected(layout, Concat(segments[..k]), Concat(segments));
  }

  /** An acceptable stream is accepted in pieces exactly when no cut matters. */
  lemma AcceptedUnlessCut(layout: Layout, segments: seq<string>, judge: string -> Verdict)
    requires judge == JudgeOf(layout) && judge(Concat(segments)).Accepted?
    ensures FeedAll(judge, segments).verdict == judge(Concat(segments)) <==> !exists k :: CutAt(layout, segments, k)
  {
    JudgeSettles(layout);
    FeedKnows(judge, segments);
    if k :| CutAt(layout, segments, k) {
      CutIsRejected(layout, segments, k);
      RejectedStays(judge, segments, k);
    } else if FeedAll(judge, segments).verdict.Rejected? {
      var k :| 0 <= k <= |segments| && judge(Concat(segments[..k])).Rejected?;
      CutIsRejected(layout, segments, k);
    }
  }

  /** Segmentation: what is not accepted is never consumed; what is accepted is what the whole
      stream gives, with the rest left unread; and an acceptable stream is accepted in pieces
      exactly when no cut falls inside the CRLF of a limit-length head line. */
  lemma Segmentation(layout: Layout, segments: seq<string>, judge: string -> Verdict)
    requires judge == JudgeOf(layout)
    ensures var end, whole := FeedAll(judge, segments), Concat(segments);
            && (!end.verdict.Accepted? ==> end.buffer == whole)
            && (end.verdict.Accepted? ==>
                  judge(whole) == end.verdict && end.verdict.used <= |whole| && end.buffer == whole[end.verdict.used..])
            && (judge(whole).Accepted? ==>
                  (end.verdict == judge(whole) <==> !exists k :: CutAt(layout, segments, k)))
  {
    JudgeSettles(layout);
    FeedKnows(judge, segments);
    if judge(Concat(segments)).Accepted? { AcceptedUnlessCut(layout, segments, judge); }
  }
}
