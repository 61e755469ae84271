/**
 * The streaming half of `LlamaBot.send_agent_message`: the HTTP response
 * body arrives as a sequence of chunks, complete newline-terminated lines
 * are cut off a carry-over buffer and parsed as JSON, blank lines are
 * skipped, unparsable lines are logged and dropped, and a non-blank
 * remainder is parsed once after the body ends.
 *
 * JSON parsing is the parameter `parse` (None for a parse error); the
 * response is its status code and its body chunks.
 */
module LlamaBot {
  import opened Wrappers
  import Text

  /**
   * What one call produces, in order: values yielded to the caller's block
   * and the two kinds of error the decoder writes to the log.
   */
  datatype Event<J> =
    | Yielded(value: J)                 // `yield JSON.parse(...)`
    | ParseError(line: string)          // "Parse error: ..." for a complete line
    | FinalBufferParseError(rest: string) // "Final buffer parse error: ..." for the remainder

  predicate NoNewline(s: string) {
    '\n' !in s
  }

  /** The body text made of the given chunks, in arrival order. */
  function Concat(chunks: seq<string>): string {
    if chunks == [] then "" else Concat(chunks[..|chunks| - 1]) + chunks[|chunks| - 1]
  }

  /** Each line followed by its newline. */
  function Terminated(lines: seq<string>): string {
    if lines == [] then "" else lines[0] + "\n" + Terminated(lines[1..])
  }

  lemma {:induction false} TerminatedAppend(a: seq<string>, b: seq<string>)
    ensures Terminated(a + b) == Terminated(a) + Terminated(b)
    decreases |a|
  {
    if a == [] {
      assert a + b == b;
    } else {
      assert (a + b)[1..] == a[1..] + b;
      TerminatedAppend(a[1..], b);
    }
  }

  lemma TerminatedCons(line: string, lines: seq<string>, tail: string)
    ensures Terminated([line] + lines) + tail == line + "\n" + (Terminated(lines) + tail)
  {
    assert ([line] + lines)[1..] == lines;
  }

  /**
   * The complete lines of `t` and what follows the last newline, as the
   * repeated `line, buffer = buffer.split("\n", 2)` leaves them.
   */
  function SplitLines(t: string): (r: (seq<string>, string))
    ensures forall i :: 0 <= i < |r.0| ==> NoNewline(r.0[i])
    ensures NoNewline(r.1)
    ensures t == Terminated(r.0) + r.1
    decreases |t|
  {
    if '\n' in t then
      var (line, rest) := Text.SplitAtFirst(t, '\n');
      var (lines, tail) := SplitLines(rest);
      TerminatedCons(line, lines, tail);
      ([line] + lines, tail)
    else
      ([], t)
  }

  /** A text given as newline-free lines, each terminated, plus a newline-free tail splits back into exactly those. */
  lemma {:induction false} SplitLinesUnique(lines: seq<string>, tail: string)
    requires forall i :: 0 <= i < |lines| ==> NoNewline(lines[i])
    requires NoNewline(tail)
    ensures SplitLines(Terminated(lines) + tail) == (lines, tail)
    decreases |lines|
  {
    var t := Terminated(lines) + tail;
    if lines != [] {
      var first := lines[0];
      assert t == first + "\n" + (Terminated(lines[1..]) + tail);
      assert '\n' in t by { assert t[|first|] == '\n'; }
      var (line, rest) := Text.SplitAtFirst(t, '\n');
      assert line == first && rest == Terminated(lines[1..]) + tail by {
        var i := Text.IndexOf(t, '\n');
        assert t[..|first|] == first;
        assert i == |first|;
      }
      SplitLinesUnique(lines[1..], tail);
      assert [first] + lines[1..] == lines;
      assert SplitLines(t) == ([line] + SplitLines(rest).0, SplitLines(rest).1);
    } else {
      assert t == tail;
    }
  }

  /**
   * Chunk-boundary invariance of the line splitting: splitting `a + b` gives
   * the complete lines of `a`, then the lines obtained by appending `b` to
   * the carry-over buffer that `a` left behind.
   */
  lemma SplitLinesAppend(a: string, b: string)
    ensures SplitLines(a + b).0 == SplitLines(a).0 + SplitLines(SplitLines(a).1 + b).0
    ensures SplitLines(a + b).1 == SplitLines(SplitLines(a).1 + b).1
  {
    var (l1, r1) := SplitLines(a);
    var (l2, r2) := SplitLines(r1 + b);
    var lines := l1 + l2;
    TerminatedAppend(l1, l2);
    Text.AppendAssoc(Terminated(l1), r1, b);
    Text.AppendAssoc(Terminated(l1), Terminated(l2), r2);
    assert a + b == Terminated(lines) + r2;
    NoNewlineLinesAppend(l1, l2);
    SplitLinesUnique(lines, r2);
  }

  /** Joining two lists of newline-free lines gives newline-free lines. */
  lemma NoNewlineLinesAppend(l1: seq<string>, l2: seq<string>)
    requires forall i :: 0 <= i < |l1| ==> NoNewline(l1[i])
    requires forall i :: 0 <= i < |l2| ==> NoNewline(l2[i])
    ensures forall i :: 0 <= i < |l1 + l2| ==> NoNewline((l1 + l2)[i])
  {
    forall i | 0 <= i < |l1 + l2|
      ensures NoNewline((l1 + l2)[i])
    {
      if i >= |l1| {
        assert (l1 + l2)[i] == l2[i - |l1|];
      }
    }
  }

  /**
   * After any prefix of the body, the buffer holds no newline and is exactly
   * the text after the last newline received so far.
   */
  lemma BufferIsTextAfterLastNewline(t: string)
    ensures var rest := SplitLines(t).1;
      && NoNewline(rest)
      && |rest| <= |t| && rest == t[|t| - |rest|..]
      && (|rest| < |t| ==> t[|t| - |rest| - 1] == '\n')
  {
    var (lines, rest) := SplitLines(t);
    if lines != [] {
      TerminatedAppend(lines[..|lines| - 1], [lines[|lines| - 1]]);
      assert lines == lines[..|lines| - 1] + [lines[|lines| - 1]];
      assert Terminated([lines[|lines| - 1]]) == lines[|lines| - 1] + "\n";
    }
  }

  /** One complete line: skipped when blank, yielded when it parses, logged as a parse error otherwise. */
  function LineEvents<J>(line: string, parse: string -> Option<J>): seq<Event<J>> {
    if Text.Blank(Text.Strip(line)) then []
    else match parse(line)
      case Some(v) => [Yielded(v)]
      case None => [ParseError(line)]
  }

  function LinesEvents<J>(lines: seq<string>, parse: string -> Option<J>): seq<Event<J>> {
    if lines == [] then [] else LineEvents(lines[0], parse) + LinesEvents(lines[1..], parse)
  }

  lemma {:induction false} LinesEventsAppend<J>(a: seq<string>, b: seq<string>, parse: string -> Option<J>)
    ensures LinesEvents(a + b, parse) == LinesEvents(a, parse) + LinesEvents(b, parse)
    decreases |a|
  {
    if a == [] {
      assert a + b == b;
    } else {
      assert (a + b)[1..] == a[1..] + b;
      LinesEventsAppend(a[1..], b, parse);
    }
  }

  /** The remainder after the body ends: parsed once unless blank. */
  function FinalEvents<J>(rest: string, parse: string -> Option<J>): seq<Event<J>> {
    if Text.Blank(Text.Strip(rest)) then []
    else match parse(rest)
      case Some(v) => [Yielded(v)]
      case None => [FinalBufferParseError(rest)]
  }

  /** Everything a call delivers for a response with this status and body. */
  function StreamEvents<J>(status: int, body: string, parse: string -> Option<J>): seq<Event<J>> {
    if status != 200 then []
    else
      var (lines, rest) := SplitLines(body);
      LinesEvents(lines, parse) + FinalEvents(rest, parse)
  }

  /** The values handed to the caller's block, in order. */
  function Values<J>(events: seq<Event<J>>): seq<J> {
    if events == [] then []
    else (if events[0].Yielded? then [events[0].value] else []) + Values(events[1..])
  }

  /**
   * The decoder as the source runs it: a carry-over buffer grows by each
   * chunk, and an inner loop cuts complete lines off its front.
   */
  method SendAgentMessage<J>(status: int, chunks: seq<string>, parse: string -> Option<J>)
    returns (events: seq<Event<J>>)
    ensures events == StreamEvents(status, Concat(chunks), parse)
    ensures status != 200 ==> events == []
    ensures Concat(chunks) == "" ==> events == []
  {
    events := [];
    if status != 200 {
      return;
    }
    var buffer := "";
    for k := 0 to |chunks|
      invariant buffer == SplitLines(Concat(chunks[..k])).1
      invariant events == LinesEvents(SplitLines(Concat(chunks[..k])).0, parse)
    {
      ghost var received := Concat(chunks[..k + 1]);
      assert chunks[..k + 1][..k] == chunks[..k];
      assert received == Concat(chunks[..k]) + chunks[k];
      SplitLinesAppend(Concat(chunks[..k]), chunks[k]);
      buffer := buffer + chunks[k];
      LinesEventsAppend(SplitLines(Concat(chunks[..k])).0, SplitLines(buffer).0, parse);
      while '\n' in buffer
        invariant events + LinesEvents(SplitLines(buffer).0, parse) == LinesEvents(SplitLines(received).0, parse)
        invariant SplitLines(buffer).1 == SplitLines(received).1
        decreases |buffer|
      {
        var (line, rest) := Text.SplitAtFirst(buffer, '\n');
        CutStep(events, buffer, received, parse);
        buffer := rest;
        events := events + LineEvents(line, parse);
      }
    }
    assert chunks[..|chunks|] == chunks;
    if Text.Present(Text.Strip(buffer)) {
      match parse(buffer)
      case Some(v) => events := events + [Yielded(v)];
      case None => events := events + [FinalBufferParseError(buffer)];
    }
  }

  /** One turn of the inner loop keeps its invariant. */
  lemma CutStep<J>(events: seq<Event<J>>, buffer: string, received: string, parse: string -> Option<J>)
    requires '\n' in buffer
    requires events + LinesEvents(SplitLines(buffer).0, parse) == LinesEvents(SplitLines(received).0, parse)
    requires SplitLines(buffer).1 == SplitLines(received).1
    ensures (events + LineEvents(Text.SplitAtFirst(buffer, '\n').0, parse))
              + LinesEvents(SplitLines(Text.SplitAtFirst(buffer, '\n').1).0, parse)
         == LinesEvents(SplitLines(received).0, parse)
    ensures SplitLines(Text.SplitAtFirst(buffer, '\n').1).1 == SplitLines(received).1
  {
    var (line, rest) := Text.SplitAtFirst(buffer, '\n');
    CutLine(buffer, parse);
    var later := LinesEvents(SplitLines(rest).0, parse);
    Text.AppendAssoc(events, LineEvents(line, parse), later);
  }

  /** Cutting the first line off a buffer handles that line, then the lines of the rest. */
  lemma CutLine<J>(buffer: string, parse: string -> Option<J>)
    requires '\n' in buffer
    ensures LinesEvents(SplitLines(buffer).0, parse)
         == LineEvents(Text.SplitAtFirst(buffer, '\n').0, parse) + LinesEvents(SplitLines(Text.SplitAtFirst(buffer, '\n').1).0, parse)
    ensures SplitLines(buffer).1 == SplitLines(Text.SplitAtFirst(buffer, '\n').1).1
  {
    var (line, rest) := Text.SplitAtFirst(buffer, '\n');
    var lines := SplitLines(buffer).0;
    assert lines == [line] + SplitLines(rest).0;
    assert lines[1..] == SplitLines(rest).0;
  }

  /**
   * Complete lines are handled in stream order, each exactly once, and the
   * remainder after the last newline last.
   */
  lemma StreamOrder<J>(lines: seq<string>, tail: string, parse: string -> Option<J>)
    requires forall i :: 0 <= i < |lines| ==> NoNewline(lines[i])
    requires NoNewline(tail)
    ensures StreamEvents(200, Terminated(lines) + tail, parse) == LinesEvents(lines, parse) + FinalEvents(tail, parse)
  {
    SplitLinesUnique(lines, tail);
  }

  /** A whitespace-only line, or remainder, yields nothing and logs nothing. */
  lemma WhitespaceYieldsNothing<J>(s: string, parse: string -> Option<J>)
    requires forall k :: 0 <= k < |s| ==> Text.IsStripSpace(s[k])
    ensures LineEvents(s, parse) == [] && FinalEvents(s, parse) == []
  {
    Text.StripAllSpace(s);
  }

  /**
   * A malformed line between complete lines is logged as a parse error and
   * dropped; the lines before and after it are still handled.
   */
  lemma MalformedLineDropped<J>(before: seq<string>, bad: string, after: seq<string>, tail: string, parse: string -> Option<J>)
    requires forall i :: 0 <= i < |before| ==> NoNewline(before[i])
    requires forall i :: 0 <= i < |after| ==> NoNewline(after[i])
    requires NoNewline(bad) && NoNewline(tail)
    requires Text.Present(Text.Strip(bad)) && parse(bad) == None
    ensures StreamEvents(200, Terminated(before + [bad] + after) + tail, parse)
         == LinesEvents(before, parse) + [ParseError(bad)] + LinesEvents(after, parse) + FinalEvents(tail, parse)
  {
    var lines := before + [bad] + after;
    forall i | 0 <= i < |lines| ensures NoNewline(lines[i]) {
      if i < |before| { assert lines[i] == before[i]; }
      else if i > |before| { assert lines[i] == after[i - |before| - 1]; }
    }
    StreamOrder(lines, tail, parse);
    LinesEventsAppend(before + [bad], after, parse);
    LinesEventsAppend(before, [bad], parse);
    assert LinesEvents([bad], parse) == [ParseError(bad)] by {
      assert [bad][1..] == [];
    }
  }

  /** A body without a newline is all remainder. */
  lemma RemainderOnly<J>(body: string, parse: string -> Option<J>)
    requires NoNewline(body)
    ensures StreamEvents(200, body, parse) == FinalEvents(body, parse)
  {
    StreamOrder([], body, parse);
    assert Terminated([]) + body == body;
  }

  /**
   * Two JSON objects sent without a newline between them form one
   * remainder; if it does not parse, the call yields nothing and logs one
   * "Final buffer parse error".
   */
  lemma UnseparatedObjectsDropped<J>(body: string, parse: string -> Option<J>)
    requires NoNewline(body)
    requires Text.Present(Text.Strip(body)) && parse(body) == None
    ensures StreamEvents(200, body, parse) == [FinalBufferParseError(body)]
    ensures Values(StreamEvents(200, body, parse)) == []
  {
    RemainderOnly(body, parse);
    var events: seq<Event<J>> := [FinalBufferParseError(body)];
    assert FinalEvents(body, parse) == events;
    assert events[1..] == [];
  }
}
