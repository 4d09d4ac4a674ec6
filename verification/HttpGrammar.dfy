/** The message heads the parsers accept, described without a scan: a first line, field lines and a
    blank line laid end to end. */
module HttpGrammar {
  import opened Attempts
  import opened HttpText
  import opened HttpFraming

  /** A line holds no CRLF. */
  ghost predicate Whole(line: string) { forall i :: 0 <= i < |line| ==> !CrlfAt(line, i) }

  function Stacked(lines: seq<string>): string {
    if lines == [] then "" else lines[0] + CRLF + Stacked(lines[1..])
  }

  /** The lines pass the rule one after another, giving these fields and declaring `final`. */
  ghost predicate Yields(layout: Layout, lines: seq<string>, length: Option<nat>, fields: seq<Field>, final: Option<nat>) {
    if lines == [] then fields == [] && length == final
    else
      && lines[0] != "" && Whole(lines[0]) && (layout.lineLimit ==> |lines[0]| <= MAX_LINE)
      && var r := layout.rule(lines[0], length);
      && r.Fine? && fields != [] && fields[0] == r.field
      && Yields(layout, lines[1..], r.length, fields[1..], final)
  }

  /** `b` starts with this head, made of these field lines. */
  ghost predicate Composed(layout: Layout, b: string, head: Head, lines: seq<string>) {
    && NoBareLineFeed(Protocol(b))
    && head.end <= |b| && b[..head.end] == head.line + CRLF + (Stacked(lines) + CRLF)
    && Whole(head.line) && |head.line| <= MAX_LINE && layout.first(head.line)
    && Yields(layout, lines, None, head.fields, head.length) && |Stacked(lines)| + 2 <= MAX_HEADER
    && layout.framed(head.line, head.length)
  }

  // ---------------------------------------------------------------- line ends

  /** A line found by the search is whole, and the bytes go on after it. */
  lemma FoundLine(b: string, cursor: nat, end: nat)
    requires cursor <= |b| && FindCrlf(b, cursor) == Some(end)
    ensures Whole(b[cursor..end]) && b[cursor..] == b[cursor..end] + CRLF + b[end + 2..]
  {
    var line := b[cursor..end];
    forall i | 0 <= i < |line| ensures !CrlfAt(line, i) {
      assert !CrlfAt(b, cursor + i);
    }
  }

  /** A whole line standing at the cursor is what the search finds. */
  lemma StandingLine(b: string, cursor: nat, line: string, after: string)
    requires cursor <= |b| && b[cursor..] == line + CRLF + after && Whole(line)
    ensures FindCrlf(b, cursor) == Some(cursor + |line|)
    ensures b[cursor..cursor + |line|] == line && b[cursor + |line| + 2..] == after
  {
    var rest := b[cursor..];
    assert forall i :: 0 <= i < |rest| ==> b[cursor + i] == rest[i];
    assert rest[|line|] == '\r' && rest[|line| + 1] == '\n';
    assert CrlfAt(b, cursor + |line|);
    forall i | cursor <= i < cursor + |line| ensures !CrlfAt(b, i) {
      assert !CrlfAt(line, i - cursor);
      assert b[i] == line[i - cursor] && b[i + 1] == rest[i + 1 - cursor];
    }
    assert rest[..|line|] == line && rest[|line| + 2..] == after;
  }

  // ---------------------------------------------------------------- fields

  /** What the scan has read from the cursor on. */
  ghost predicate Read(layout: Layout, b: string, cursor: nat, fields: seq<Field>, length: Option<nat>, head: Head,
                       lines: seq<string>) {
    && cursor <= head.end <= |b| && b[cursor..head.end] == Stacked(lines) + CRLF
    && |fields| <= |head.fields| && head.fields[..|fields|] == fields
    && Yields(layout, lines, length, head.fields[|fields|..], head.length)
  }

  lemma ReadNext(layout: Layout, b: string, cursor: nat, end: nat, fields: seq<Field>, length: Option<nat>, head: Head,
                 rest: seq<string>)
    requires cursor < end && end + 2 <= |b| && CrlfAt(b, end) && Whole(b[cursor..end])
    requires layout.lineLimit ==> end - cursor <= MAX_LINE
    requires var r := layout.rule(b[cursor..end], length);
             r.Fine? && Read(layout, b, end + 2, fields + [r.field], r.length, head, rest)
    ensures Read(layout, b, cursor, fields, length, head, [b[cursor..end]] + rest)
  {
    var line, r := b[cursor..end], layout.rule(b[cursor..end], length);
    var lines := [line] + rest;
    Prepended(b, cursor, end, head.end, Stacked(rest) + CRLF);
    assert lines[1..] == rest;
    StackedNext(lines, "");
    assert Stacked(lines) + CRLF == line + CRLF + (Stacked(rest) + CRLF);
    FirstOf(head.fields, fields, r.field);
  }

  /** Whatever the field scan accepts is a stack of lines that yields those fields. */
  lemma {:induction false} ScannedIsStacked(layout: Layout, b: string, first: nat, cursor: nat, fields: seq<Field>,
                                            length: Option<nat>, head: Head) returns (lines: seq<string>)
    requires first + 2 <= |b| && cursor <= |b| && Fields(layout, b, first, cursor, fields, length) == Ready(head)
    ensures Read(layout, b, cursor, fields, length, head, lines)
    ensures head.line == b[..first] && head.end <= MAX_HEADER + first + 2
    decreases |b| - cursor
  {
    var end := FindCrlf(b, cursor).value;
    if end == cursor {
      lines := [];
      assert b[cursor..cursor + 2] == CRLF == Stacked(lines) + CRLF;
    } else {
      FoundLine(b, cursor, end);
      var r := layout.rule(b[cursor..end], length);
      var rest := ScannedIsStacked(layout, b, first, end + 2, fields + [r.field], r.length, head);
      ReadNext(layout, b, cursor, end, fields, length, head, rest);
      lines := [b[cursor..end]] + rest;
    }
  }

  lemma FirstOf(all: seq<Field>, before: seq<Field>, next: Field)
    requires |before| < |all| && all[..|before| + 1] == before + [next]
    ensures all[..|before|] == before
    ensures all[|before|..][0] == next && all[|before|..][1..] == all[|before| + 1..]
  {
    assert all[..|before| + 1][..|before|] == all[..|before|];
    assert all[..|before| + 1][|before|] == next;
  }

  lemma Prepended(b: string, cursor: nat, end: nat, stop: nat, rest: string)
    requires cursor <= end && end + 2 <= stop <= |b| && CrlfAt(b, end) && b[end + 2..stop] == rest
    ensures b[cursor..stop] == b[cursor..end] + CRLF + rest
  {
    assert b[cursor..stop] == b[cursor..end] + b[end..end + 2] + b[end + 2..stop];
    assert b[end..end + 2] == CRLF;
  }

  /** Scanning one standing line. */
  lemma LineScanned(layout: Layout, b: string, first: nat, cursor: nat, line: string, after: string,
                    fields: seq<Field>, length: Option<nat>)
    requires first + 2 <= |b| && cursor <= |b| && b[cursor..] == line + CRLF + after
    requires line != "" && Whole(line) && (layout.lineLimit ==> |line| <= MAX_LINE) && layout.rule(line, length).Fine?
    requires cursor + |line| + 2 <= MAX_HEADER + first + 2
    ensures b[cursor + |line| + 2..] == after
    ensures var r := layout.rule(line, length);
            Fields(layout, b, first, cursor, fields, length)
            == Fields(layout, b, first, cursor + |line| + 2, fields + [r.field], r.length)
  {
    StandingLine(b, cursor, line, after);
  }

  lemma BlankScanned(layout: Layout, b: string, first: nat, cursor: nat, after: string, fields: seq<Field>,
                     length: Option<nat>)
    requires first + 2 <= |b| && cursor <= |b| && b[cursor..] == CRLF + after
    requires cursor + 2 <= MAX_HEADER + first + 2
    ensures Fields(layout, b, first, cursor, fields, length) == Ready(Head(b[..first], fields, length, cursor + 2))
  {
    assert "" + CRLF + after == CRLF + after && Whole("");
    StandingLine(b, cursor, "", after);
  }

  lemma StackedNext(lines: seq<string>, after: string)
    requires lines != []
    ensures Stacked(lines) + CRLF + after == lines[0] + CRLF + (Stacked(lines[1..]) + CRLF + after)
    ensures |Stacked(lines)| == |lines[0]| + 2 + |Stacked(lines[1..])|
  {
  }

  lemma YieldsNext(layout: Layout, lines: seq<string>, length: Option<nat>, more: seq<Field>, final: Option<nat>,
                   fields: seq<Field>)
    requires Yields(layout, lines, length, more, final) && lines != []
    ensures lines[0] != "" && Whole(lines[0]) && (layout.lineLimit ==> |lines[0]| <= MAX_LINE)
    ensures var r := layout.rule(lines[0], length);
            && r.Fine? && more != [] && Yields(layout, lines[1..], r.length, more[1..], final)
            && fields + [r.field] + more[1..] == fields + more
  {
  }

  /** The bytes from the cursor on are these lines, a blank line and something, within the limit. */
  ghost predicate Stands(b: string, first: nat, cursor: nat, lines: seq<string>, after: string) {
    && first + 2 <= |b| && cursor <= |b| && b[cursor..] == Stacked(lines) + CRLF + after
    && cursor + |Stacked(lines)| + 2 <= MAX_HEADER + first + 2
  }

  lemma StandsNext(layout: Layout, b: string, first: nat, cursor: nat, fields: seq<Field>, length: Option<nat>,
                   lines: seq<string>, after: string)
    requires Stands(b, first, cursor, lines, after) && lines != []
    requires lines[0] != "" && Whole(lines[0]) && (layout.lineLimit ==> |lines[0]| <= MAX_LINE)
    requires layout.rule(lines[0], length).Fine?
    ensures Stands(b, first, cursor + |lines[0]| + 2, lines[1..], after)
    ensures var r := layout.rule(lines[0], length);
            Fields(layout, b, first, cursor, fields, length)
            == Fields(layout, b, first, cursor + |lines[0]| + 2, fields + [r.field], r.length)
    ensures |Stacked(lines)| == |lines[0]| + 2 + |Stacked(lines[1..])|
  {
    var below := StandsOn(b, first, cursor, lines, after);
    LineScanned(layout, b, first, cursor, lines[0], below, fields, length);
  }

  /** The first line and what stands below it. */
  lemma StandsOn(b: string, first: nat, cursor: nat, lines: seq<string>, after: string) returns (below: string)
    requires Stands(b, first, cursor, lines, after) && lines != []
    ensures b[cursor..] == lines[0] + CRLF + below && cursor + |lines[0]| + 2 <= MAX_HEADER + first + 2
    ensures Stands(b, first, cursor + |lines[0]| + 2, lines[1..], after)
    ensures |Stacked(lines)| == |lines[0]| + 2 + |Stacked(lines[1..])|
  {
    StackedNext(lines, after);
    below := Stacked(lines[1..]) + CRLF + after;
    var line := lines[0];
    assert |b[cursor..]| == |line| + 2 + |below|;
    assert b[cursor + |line| + 2..] == b[cursor..][|line| + 2..];
    assert (line + CRLF + below)[|line| + 2..] == below;
  }

  lemma StandsBlank(layout: Layout, b: string, first: nat, cursor: nat, fields: seq<Field>, length: Option<nat>,
                    after: string)
    requires Stands(b, first, cursor, [], after)
    ensures Fields(layout, b, first, cursor, fields, length) == Ready(Head(b[..first], fields, length, cursor + 2))
  {
    assert "" + CRLF + after == CRLF + after;
    BlankScanned(layout, b, first, cursor, after, fields, length);
  }

  /** The head that ends with these lines and the blank line. */
  function HeadUpTo(b: string, first: nat, cursor: nat, fields: seq<Field>, lines: seq<string>, final: Option<nat>): Head
    requires first <= |b|
  {
    Head(b[..first], fields, final, cursor + |Stacked(lines)| + 2)
  }

  /** And every such stack is accepted by the field scan. */
  lemma {:induction false} StackedIsScanned(layout: Layout, b: string, first: nat, cursor: nat, fields: seq<Field>,
                                            length: Option<nat>, lines: seq<string>, more: seq<Field>, final: Option<nat>,
                                            after: string, head: Head)
    requires Stands(b, first, cursor, lines, after) && Yields(layout, lines, length, more, final)
    requires head == HeadUpTo(b, first, cursor, fields + more, lines, final)
    ensures Fields(layout, b, first, cursor, fields, length) == Ready(head)
    decreases |lines|
  {
    if lines == [] {
      assert fields + more == fields;
      StandsBlank(layout, b, first, cursor, fields, length, after);
    } else {
      var r, next := layout.rule(lines[0], length), cursor + |lines[0]| + 2;
      YieldsNext(layout, lines, length, more, final, fields);
      StandsNext(layout, b, first, cursor, fields, length, lines, after);
      var fields' := fields + [r.field];
      assert Fields(layout, b, first, cursor, fields, length) == Fields(layout, b, first, next, fields', r.length);
      StackedIsScanned(layout, b, first, next, fields', r.length, lines[1..], more[1..], final, after, head);
    }
  }

  // ---------------------------------------------------------------- heads

  lemma AcceptedIsComposed(layout: Layout, b: string, head: Head) returns (lines: seq<string>)
    requires HeadOf(layout, b) == Ready(head)
    ensures Composed(layout, b, head, lines)
  {
    var first := FindCrlf(b, 0).value;
    lines := ScannedIsStacked(layout, b, first, first + 2, [], None, head);
    assert b[0..] == b && b[0..first] == b[..first];
    FoundLine(b, 0, first);
    Prepended(b, 0, first, head.end, Stacked(lines) + CRLF);
    assert b[0..head.end] == b[..head.end];
    assert head.fields[0..] == head.fields;
  }

  lemma ComposedIsAccepted(layout: Layout, b: string, head: Head, lines: seq<string>)
    requires Composed(layout, b, head, lines)
    ensures HeadOf(layout, b) == Ready(head)
  {
    var line, first, after := head.line, |head.line|, b[head.end..];
    var below := Stacked(lines) + CRLF + after;
    assert b == b[..head.end] + after == line + CRLF + below;
    FirstLine(b, line, below);
    assert [] + head.fields == head.fields;
    assert head.end == first + 2 + |Stacked(lines)| + 2 by { assert |b[..head.end]| == head.end; }
    StackedIsScanned(layout, b, first, first + 2, [], None, lines, head.fields, head.length, after, head);
  }

  lemma FirstLine(b: string, line: string, below: string)
    requires b == line + CRLF + below && Whole(line)
    ensures FindCrlf(b, 0) == Some(|line|) && b[..|line|] == line && b[|line| + 2..] == below
  {
    assert b[0..] == b;
    StandingLine(b, 0, line, below);
  }

  /** Both parsers accept exactly the composed heads. */
  lemma AcceptsExactly(layout: Layout, b: string, head: Head)
    ensures HeadOf(layout, b) == Ready(head) <==> exists lines :: Composed(layout, b, head, lines)
  {
    if HeadOf(layout, b) == Ready(head) {
      var lines := AcceptedIsComposed(layout, b, head);
    } else if lines :| Composed(layout, b, head, lines) {
      ComposedIsAccepted(layout, b, head, lines);
    }
  }
}
