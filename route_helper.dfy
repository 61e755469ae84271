/**
 * The string and array logic of `LlamaBotRails::RouteHelper`
 * (lib/llama_bot_rails/route_helper.rb): reading YARD comments, collecting
 * the comment block above an action and the source of its strong-parameter
 * method from the lines of a file, scanning `permit(...)` for symbol names,
 * and assembling the parameters a route accepts.
 *
 * The route table, reflection on controller classes and reading files are
 * outside the model: a file arrives as its lines and a method's position as
 * a 1-based line number, as `source_location` gives it.
 */
module RouteHelper {
  import opened Wrappers
  import Text
  import Arrays
  import ControllerExtensions

  /** The end of the line that contains position `k`: the next newline, or the end of the text. */
  function LineEnd(s: string, k: nat): (e: nat)
    requires k <= |s|
    ensures k <= e <= |s|
    ensures '\n' !in s[k..e]
    ensures e < |s| ==> s[e] == '\n'
    decreases |s| - k
  {
    if k == |s| || s[k] == '\n' then k
    else
      var e := LineEnd(s, k + 1);
      assert s[k..e] == [s[k]] + s[k + 1..e];
      e
  }

  // ----- extract_yard_description -----

  /** Ruby's `String#lines`: pieces that each end just after a newline, the last one possibly without. */
  function Lines(s: string): (r: seq<string>)
    ensures Text.Join(r, "") == s
    ensures forall i :: 0 <= i < |r| ==> r[i] != "" && '\n' !in r[i][..|r[i]| - 1]
    ensures forall i :: 0 <= i < |r| - 1 ==> r[i][|r[i]| - 1] == '\n'
    decreases |s|
  {
    if '\n' in s then
      var p := Text.SplitAtFirst(s, '\n');
      var line := p.0 + "\n";
      assert line[..|line| - 1] == p.0;
      var rest := Lines(p.1);
      if rest == [] then
        assert p.1 == "";
        [line]
      else
        JoinCons(line, rest);
        [line] + rest
    else if s == "" then []
    else [s]
  }

  lemma JoinCons(line: string, rest: seq<string>)
    requires rest != []
    ensures Text.Join([line] + rest, "") == line + Text.Join(rest, "")
  {
    assert ([line] + rest)[1..] == rest;
  }

  /** `l.sub(/^# ?/, '')` on one line: a leading `#` is removed, and with it one space right after it. */
  function Uncomment(l: string): (r: string)
    ensures Text.StartsWith(l, "# ") ==> l == "# " + r
    ensures Text.StartsWith(l, "#") && !Text.StartsWith(l, "# ") ==> l == "#" + r
    ensures !Text.StartsWith(l, "#") ==> r == l
  {
    if Text.StartsWith(l, "# ") then l[2..]
    else if Text.StartsWith(l, "#") then l[1..]
    else l
  }

  /** A line that opens a YARD tag once stripped. */
  predicate IsTagLine(l: string) {
    Text.StartsWith(Text.Strip(l), "@")
  }

  /**
   * `map { |l| l.sub(/^# ?/, '') }.take_while { |l| !l.strip.start_with?('@') }`:
   * the uncommented lines up to, not including, the first that is a tag line.
   */
  function DescriptionLines(ls: seq<string>): (r: seq<string>)
    ensures |r| <= |ls|
    ensures forall i :: 0 <= i < |r| ==> r[i] == Uncomment(ls[i]) && !IsTagLine(r[i])
    ensures |r| < |ls| ==> IsTagLine(Uncomment(ls[|r|]))
  {
    if ls == [] || IsTagLine(Uncomment(ls[0])) then []
    else [Uncomment(ls[0])] + DescriptionLines(ls[1..])
  }

  /** The description read from a comment block given as lines. */
  function DescriptionOf(ls: seq<string>): (r: string)
    ensures r != "" ==> !Text.IsStripSpace(r[0]) && !Text.IsStripSpace(r[|r| - 1])
  {
    Text.Strip(Text.Join(DescriptionLines(ls), " "))
  }

  /** `extract_yard_description`. */
  function ExtractYardDescription(commentText: string): (r: string)
    ensures r != "" ==> !Text.IsStripSpace(r[0]) && !Text.IsStripSpace(r[|r| - 1])
  {
    DescriptionOf(Lines(commentText))
  }

  /** No line after the first tag line contributes to the description. */
  lemma {:induction false} LinesAfterTagIgnored(before: seq<string>, tagLine: string, later1: seq<string>, later2: seq<string>)
    requires IsTagLine(Uncomment(tagLine))
    ensures DescriptionOf(before + [tagLine] + later1) == DescriptionOf(before + [tagLine] + later2)
    decreases |before|
  {
    DescriptionLinesStopAtTag(before, tagLine, later1);
    DescriptionLinesStopAtTag(before, tagLine, later2);
  }

  lemma {:induction false} DescriptionLinesStopAtTag(before: seq<string>, tagLine: string, later: seq<string>)
    requires IsTagLine(Uncomment(tagLine))
    ensures DescriptionLines(before + [tagLine] + later) == DescriptionLines(before + [tagLine])
    decreases |before|
  {
    var ls := before + [tagLine] + later;
    if before == [] {
      assert ls[0] == tagLine;
      assert (before + [tagLine])[0] == tagLine;
    } else {
      assert ls[0] == before[0];
      assert ls[1..] == before[1..] + [tagLine] + later;
      assert (before + [tagLine])[1..] == before[1..] + [tagLine];
      DescriptionLinesStopAtTag(before[1..], tagLine, later);
    }
  }

  // ----- extract_yard_tag -----

  /** `/@tag (.+)/` matches at `i`: the literal text `@tag ` and then at least one character that is not a newline. */
  predicate TagMatchesAt(text: string, tag: string, i: nat) {
    i + |tag| + 2 < |text| && text[i] == '@' && text[i + 1..i + 1 + |tag|] == tag
    && text[i + 1 + |tag|] == ' ' && text[i + |tag| + 2] != '\n'
  }

  /** Where the regular expression first matches at or after `from` (the leftmost match). */
  function FirstTagMatch(text: string, tag: string, from: nat): (r: Option<nat>)
    ensures r.Some? ==> from <= r.value && TagMatchesAt(text, tag, r.value)
    ensures r.Some? ==> forall j :: from <= j < r.value ==> !TagMatchesAt(text, tag, j)
    ensures r.None? ==> forall j: nat :: from <= j ==> !TagMatchesAt(text, tag, j)
    decreases |text| - from
  {
    if from >= |text| then None
    else if TagMatchesAt(text, tag, from) then Some(from)
    else FirstTagMatch(text, tag, from + 1)
  }

  /**
   * `extract_yard_tag`: the stripped rest of the line after the first
   * match of `@tag `, or nil when the pattern matches nowhere.
   */
  function ExtractYardTag(commentText: string, tag: string): (r: Option<string>)
    ensures r.Some? ==> r.value == "" || (!Text.IsStripSpace(r.value[0]) && !Text.IsStripSpace(r.value[|r.value| - 1]))
  {
    match FirstTagMatch(commentText, tag, 0)
    case None => None
    case Some(i) => Some(RestOfLine(commentText, i + |tag| + 2))
  }

  /** The captured group `(.+)`, stripped: the text from `start` to the end of its line. */
  function RestOfLine(text: string, start: nat): string
    requires start <= |text|
  {
    Text.Strip(text[start..LineEnd(text, start)])
  }

  /** A line that runs from `k` to a newline or the end of the text ends there. */
  lemma LineEndAt(s: string, k: nat, e: nat)
    requires k <= e <= |s|
    requires '\n' !in s[k..e]
    requires e == |s| || s[e] == '\n'
    ensures LineEnd(s, k) == e
  {
  }

  /**
   * At the leftmost match the value is the rest of that line, stripped:
   * whatever follows the next newline is not part of it.
   */
  lemma TagValueIsRestOfLine(text: string, tag: string, at: nat, e: nat)
    requires FirstTagMatch(text, tag, 0) == Some(at)
    requires at + |tag| + 2 <= e <= |text|
    requires '\n' !in text[at + |tag| + 2..e]
    requires e == |text| || text[e] == '\n'
    ensures ExtractYardTag(text, tag) == Some(Text.Strip(text[at + |tag| + 2..e]))
  {
    ExtractYardTagAt(text, tag, at);
    LineEndAt(text, at + |tag| + 2, e);
  }

  /** `extract_yard_tag` gives nil exactly when the pattern matches nowhere in the text. */
  lemma ExtractYardTagNil(commentText: string, tag: string)
    ensures ExtractYardTag(commentText, tag).None? <==> forall j: nat :: !TagMatchesAt(commentText, tag, j)
  {
  }

  /** The value read at the first match. */
  lemma ExtractYardTagAt(text: string, tag: string, at: nat)
    requires FirstTagMatch(text, tag, 0) == Some(at)
    ensures at + |tag| + 2 <= |text|
    ensures ExtractYardTag(text, tag) == Some(RestOfLine(text, at + |tag| + 2))
  {
  }

  // ----- the comment block above an action (lines 45-50) -----

  /** A file line that is a comment once stripped. */
  predicate IsCommentLine(l: string) {
    Text.StartsWith(Text.Strip(l), "#")
  }

  /** Where the run of comment lines that ends just before index `end` begins. */
  function CommentRunStart(fileLines: seq<string>, end: nat): (first: nat)
    requires end <= |fileLines|
    ensures first <= end
    ensures forall i :: first <= i < end ==> IsCommentLine(fileLines[i])
    ensures first > 0 ==> !IsCommentLine(fileLines[first - 1])
  {
    if end > 0 && IsCommentLine(fileLines[end - 1]) then CommentRunStart(fileLines, end - 1) else end
  }

  /** `strip` applied to every line. */
  function StripEach(ls: seq<string>): (r: seq<string>)
    ensures |r| == |ls| && forall i :: 0 <= i < |r| ==> r[i] == Text.Strip(ls[i])
  {
    seq(|ls|, i requires 0 <= i < |ls| => Text.Strip(ls[i]))
  }

  /** Stripping every line of a run one line longer adds that line, stripped, at its end. */
  lemma StripEachSnoc(lines: seq<string>, lo: nat, hi: nat)
    requires lo <= hi < |lines|
    ensures StripEach(lines[lo..hi + 1]) == StripEach(lines[lo..hi]) + [Text.Strip(lines[hi])]
  {
    assert lines[lo..hi + 1][..hi - lo] == lines[lo..hi];
  }

  /** Stripping every line of a run one line longer at its start adds that line, stripped, in front. */
  lemma StripEachCons(lines: seq<string>, lo: nat, hi: nat)
    requires lo < hi <= |lines|
    ensures StripEach(lines[lo..hi]) == [Text.Strip(lines[lo])] + StripEach(lines[lo + 1..hi])
  {
    assert lines[lo..hi][1..] == lines[lo + 1..hi];
  }

  /**
   * The backward scan from the line above the method definition at
   * `lineNumber` (1-based): the maximal run of comment lines directly
   * above it, stripped and in file order, and the index where it starts.
   * `source_location` names a line of the file, so `lineNumber` is at most
   * the number of lines.
   */
  method CollectComments(fileLines: seq<string>, lineNumber: nat) returns (comments: seq<string>, first: nat)
    requires 1 <= lineNumber <= |fileLines|
    ensures first == CommentRunStart(fileLines, lineNumber - 1)
    ensures comments == StripEach(fileLines[first..lineNumber - 1])
  {
    var current: int := lineNumber - 2;
    comments := [];
    while current >= 0 && IsCommentLine(fileLines[current])
      invariant -1 <= current <= lineNumber - 2
      invariant CommentRunStart(fileLines, current + 1) == CommentRunStart(fileLines, lineNumber - 1)
      invariant comments == StripEach(fileLines[current + 1..lineNumber - 1])
    {
      StripEachCons(fileLines, current, lineNumber - 1);
      comments := [Text.Strip(fileLines[current])] + comments;
      current := current - 1;
    }
    first := current + 1;
  }

  /** What the comment block says, as `yard_metadata` holds it. */
  datatype YardMetadata = YardMetadata(
    description: string,
    toolDescription: Option<string>,
    example: Option<string>,
    params: Option<string>)

  /** The metadata read from the collected comment lines, joined with newlines. */
  function YardMetadataOf(comments: seq<string>): YardMetadata {
    var commentText := Text.Join(comments, "\n");
    YardMetadata(
      ExtractYardDescription(commentText),
      ExtractYardTag(commentText, "tool_description"),
      ExtractYardTag(commentText, "example"),
      ExtractYardTag(commentText, "params"))
  }

  /** With a match at `at` and none before it, the leftmost match from `from` is `at`. */
  lemma {:induction false} FirstTagMatchAt(text: string, tag: string, from: nat, at: nat)
    requires from <= at && TagMatchesAt(text, tag, at)
    requires forall j :: from <= j < at ==> !TagMatchesAt(text, tag, j)
    ensures FirstTagMatch(text, tag, from) == Some(at)
    decreases at - from
  {
    if from < at {
      FirstTagMatchAt(text, tag, from + 1, at);
    }
  }

  /**
   * A comment block whose first `@` opens the line `@example x` records
   * `x`, stripped, as its example; its description is read from the same
   * newline-joined text.
   */
  lemma YardMetadataExample(comments: seq<string>, before: string, x: string, after: string)
    requires Text.Join(comments, "\n") == before + "@example " + x + after
    requires '@' !in before
    requires x != "" && '\n' !in x
    requires after == "" || after[0] == '\n'
    ensures YardMetadataOf(comments).example == Some(Text.Strip(x))
    ensures YardMetadataOf(comments).description == ExtractYardDescription(Text.Join(comments, "\n"))
  {
    var text := before + "@example " + x + after;
    var at := |before|;
    var e := at + 9 + |x|;
    assert text[at + 1..at + 8] == "example";
    assert text[at + 9] == x[0];
    assert TagMatchesAt(text, "example", at);
    forall j | 0 <= j < at
      ensures !TagMatchesAt(text, "example", j)
    {
      assert text[j] == before[j];
    }
    FirstTagMatchAt(text, "example", 0, at);
    assert text[at + 9..e] == x;
    if after != "" {
      assert text[e] == after[0];
    }
    TagValueIsRestOfLine(text, "example", at, e);
  }

  // ----- the strong-parameter method's source (lines 68-79) -----

  /** The forward scan stops after a line containing `end` but not `permit`. */
  predicate IsEndLine(line: string) {
    Text.Contains(line, "end") && !Text.Contains(line, "permit")
  }

  /** One past the first end line at or after `from`, or the length of the file when there is none. */
  function SourceEnd(fileLines: seq<string>, from: nat): (stop: nat)
    requires from <= |fileLines|
    ensures from <= stop <= |fileLines|
    ensures forall i :: from <= i < stop - 1 ==> !IsEndLine(Text.Strip(fileLines[i]))
    ensures stop < |fileLines| ==> from < stop && IsEndLine(Text.Strip(fileLines[stop - 1]))
    ensures stop == from ==> from == |fileLines|
    decreases |fileLines| - from
  {
    if from == |fileLines| then from
    else if IsEndLine(Text.Strip(fileLines[from])) then from + 1
    else SourceEnd(fileLines, from + 1)
  }

  /**
   * The forward scan from the method definition at `lineNumber`
   * (1-based): the stripped lines up to and including the first end line,
   * or to the end of the file.
   */
  method CollectMethodSource(fileLines: seq<string>, lineNumber: nat) returns (methodLines: seq<string>)
    requires 1 <= lineNumber <= |fileLines| + 1
    ensures methodLines == StripEach(fileLines[lineNumber - 1..SourceEnd(fileLines, lineNumber - 1)])
  {
    var current := lineNumber - 1;
    methodLines := [];
    while current < |fileLines|
      invariant lineNumber - 1 <= current <= |fileLines|
      invariant SourceEnd(fileLines, current) == SourceEnd(fileLines, lineNumber - 1)
      invariant methodLines == StripEach(fileLines[lineNumber - 1..current])
    {
      var line := Text.Strip(fileLines[current]);
      StripEachSnoc(fileLines, lineNumber - 1, current);
      methodLines := methodLines + [line];
      if IsEndLine(line) {
        break;
      }
      current := current + 1;
    }
  }

  /** From `k`, the first `)` if it comes before any newline: where `.*?\)` ends. */
  function CloseParen(s: string, k: nat): (r: Option<nat>)
    ensures r.Some? ==> k <= r.value < |s| && s[r.value] == ')' && ')' !in s[k..r.value] && '\n' !in s[k..r.value]
    ensures r.None? ==> forall j :: k <= j < |s| && s[j] == ')' ==> '\n' in s[k..j]
    decreases |s| - k
  {
    if k >= |s| || s[k] == '\n' then None
    else if s[k] == ')' then Some(k)
    else
      var r := CloseParen(s, k + 1);
      assert forall j :: k < j <= |s| ==> s[k..j] == [s[k]] + s[k + 1..j];
      r
  }

  /** `/\.permit\((.*?)\)/` matches at `i`. */
  predicate PermitAt(s: string, i: nat) {
    Text.OccursAt(s, ".permit(", i) && CloseParen(s, i + 8).Some?
  }

  /** Where `/\.permit\((.*?)\)/` first matches at or after `from`. */
  function FirstPermit(s: string, from: nat): (r: Option<nat>)
    ensures r.Some? ==> from <= r.value && PermitAt(s, r.value)
    ensures r.Some? ==> forall j :: from <= j < r.value ==> !PermitAt(s, j)
    ensures r.None? ==> forall j: nat :: from <= j ==> !PermitAt(s, j)
    decreases |s| - from
  {
    if from >= |s| then None
    else if PermitAt(s, from) then Some(from)
    else FirstPermit(s, from + 1)
  }

  /** The text between `.permit(` and `)` at the first match, or nil. */
  function PermitContent(s: string): (r: Option<string>)
    ensures r.None? <==> forall i: nat :: !PermitAt(s, i)
    ensures r.Some? ==> ')' !in r.value && '\n' !in r.value
  {
    match FirstPermit(s, 0)
    case None => None
    case Some(i) => Some(s[i + 8..CloseParen(s, i + 8).value])
  }

  /** The first `)` from `k`, with no newline before it, is where the lazy match closes. */
  lemma CloseParenAt(s: string, k: nat, close: nat)
    requires k <= close < |s| && s[close] == ')'
    requires ')' !in s[k..close] && '\n' !in s[k..close]
    ensures CloseParen(s, k) == Some(close)
  {
  }

  /** No match starts inside `before` when `.permit(` does not occur there. */
  lemma NoPermitBefore(before: string, rest: string)
    requires forall j :: 0 <= j < |before| ==> !Text.OccursAt(before + ".permit(", ".permit(", j)
    ensures forall j :: 0 <= j < |before| ==> !PermitAt(before + ".permit(" + rest, j)
  {
    var prefix := before + ".permit(";
    var s := prefix + rest;
    forall j | 0 <= j < |before|
      ensures !Text.OccursAt(s, ".permit(", j)
    {
      assert s[j..j + 8] == prefix[j..j + 8];
      assert !Text.OccursAt(prefix, ".permit(", j);
    }
  }

  /** With no earlier `.permit(`, the content is the text up to the first `)`. */
  lemma PermitContentOf(before: string, content: string, after: string)
    requires forall j :: 0 <= j < |before| ==> !Text.OccursAt(before + ".permit(", ".permit(", j)
    requires ')' !in content && '\n' !in content
    ensures PermitContent(before + ".permit(" + content + ")" + after) == Some(content)
  {
    var s := before + ".permit(" + (content + ")" + after);
    assert s == before + ".permit(" + content + ")" + after;
    NoPermitBefore(before, content + ")" + after);
    var at := |before|;
    var close := at + 8 + |content|;
    assert s[at + 8..close] == content;
    CloseParenAt(s, at + 8, close);
    assert s[at..at + 8] == ".permit(";
    assert PermitAt(s, at);
    assert FirstPermit(s, 0) == Some(at);
  }

  /** Ruby's `\w`: an ASCII letter, digit or underscore. */
  predicate IsWordChar(c: char) {
    ('a' <= c <= 'z') || ('A' <= c <= 'Z') || ('0' <= c <= '9') || c == '_'
  }

  predicate IsWord(w: string) {
    w != [] && forall i :: 0 <= i < |w| ==> IsWordChar(w[i])
  }

  /** The end of the run of word characters that starts at `k`. */
  function WordEnd(s: string, k: nat): (e: nat)
    requires k <= |s|
    ensures k <= e <= |s|
    ensures forall i :: k <= i < e ==> IsWordChar(s[i])
    ensures e < |s| ==> !IsWordChar(s[e])
    decreases |s| - k
  {
    if k < |s| && IsWordChar(s[k]) then WordEnd(s, k + 1) else k
  }

  /** A run of word characters followed by something else, or by the end, ends there. */
  lemma WordEndAt(s: string, k: nat, e: nat)
    requires k <= e <= |s|
    requires forall i :: k <= i < e ==> IsWordChar(s[i])
    requires e == |s| || !IsWordChar(s[e])
    ensures WordEnd(s, k) == e
    decreases e - k
  {
    if k < e {
      WordEndAt(s, k + 1, e);
    }
  }

  /**
   * `scan(/:(\w+)/).flatten`, and equally `scan(/:\w+/).map { |p| p[1..-1] }`:
   * the names after each colon, in order, each a maximal run of word characters.
   */
  function SymbolNames(s: string): (r: seq<string>)
    ensures forall i :: 0 <= i < |r| ==> IsWord(r[i])
    decreases |s|
  {
    if |s| < 2 then []
    else if s[0] == ':' && IsWordChar(s[1]) then
      var e := WordEnd(s, 1);
      [s[1..e]] + SymbolNames(s[e..])
    else SymbolNames(s[1..])
  }

  /** `:a, :b, :c`, the argument list of `permit` for the given names. */
  function SymbolList(names: seq<string>): string {
    if names == [] then ""
    else if |names| == 1 then ":" + names[0]
    else ":" + names[0] + ", " + SymbolList(names[1..])
  }

  /** A colon, a name, then a non-word character or nothing: the name is scanned, then the rest. */
  lemma SymbolNamesCons(n: string, rest: string)
    requires IsWord(n)
    requires rest == "" || !IsWordChar(rest[0])
    ensures SymbolNames(":" + n + rest) == [n] + SymbolNames(rest)
  {
    var s := ":" + n + rest;
    assert forall i :: 1 <= i < 1 + |n| ==> s[i] == n[i - 1];
    if rest != "" {
      assert s[1 + |n|] == rest[0];
    }
    WordEndAt(s, 1, 1 + |n|);
    assert s[1..1 + |n|] == n;
    assert s[1 + |n|..] == rest;
  }

  /** The separator `, ` contributes nothing. */
  lemma SymbolNamesSkipSeparator(t: string)
    ensures SymbolNames(", " + t) == SymbolNames(t)
  {
    assert (", " + t)[1..] == " " + t;
    if t != "" {
      assert (" " + t)[1..] == t;
    }
  }

  /** Scanning a symbol list gives back its names. */
  lemma {:induction false} SymbolNamesOfList(names: seq<string>)
    requires forall i :: 0 <= i < |names| ==> IsWord(names[i])
    ensures SymbolNames(SymbolList(names)) == names
    decreases |names|
  {
    if |names| == 1 {
      SymbolNamesCons(names[0], "");
      assert ":" + names[0] + "" == ":" + names[0];
    } else if |names| > 1 {
      var t := SymbolList(names[1..]);
      SymbolNamesCons(names[0], ", " + t);
      SymbolNamesSkipSeparator(t);
      SymbolNamesOfList(names[1..]);
      assert ":" + names[0] + (", " + t) == ":" + names[0] + ", " + t;
    }
  }

  /** The names in the first `permit(...)` of a method's source lines joined with spaces; none without one. */
  function StrongParams(methodLines: seq<string>): (r: seq<string>)
    ensures forall i :: 0 <= i < |r| ==> IsWord(r[i])
  {
    match PermitContent(Text.Join(methodLines, " "))
    case None => []
    case Some(content) => SymbolNames(content)
  }

  /** A symbol list holds no `)` and no newline, so the lazy `permit(...)` match runs to its end. */
  lemma {:induction false} SymbolListPlain(names: seq<string>)
    requires forall i :: 0 <= i < |names| ==> IsWord(names[i])
    ensures ')' !in SymbolList(names) && '\n' !in SymbolList(names)
    decreases |names|
  {
    if names != [] {
      var w := names[0];
      assert IsWord(w);
      assert ')' !in w && '\n' !in w by {
        forall i | 0 <= i < |w| ensures w[i] != ')' && w[i] != '\n' {
          assert IsWordChar(w[i]);
        }
      }
      if |names| > 1 {
        SymbolListPlain(names[1..]);
      }
    }
  }

  /**
   * A strong-parameter method whose first `.permit(` lists `:a, :b, …`
   * permits exactly `a, b, …`, in that order.
   */
  lemma StrongParamsOfPermit(methodLines: seq<string>, before: string, names: seq<string>, after: string)
    requires forall i :: 0 <= i < |names| ==> IsWord(names[i])
    requires forall j :: 0 <= j < |before| ==> !Text.OccursAt(before + ".permit(", ".permit(", j)
    requires Text.Join(methodLines, " ") == before + ".permit(" + SymbolList(names) + ")" + after
    ensures StrongParams(methodLines) == names
  {
    SymbolListPlain(names);
    PermitContentOf(before, SymbolList(names), after);
    SymbolNamesOfList(names);
  }

  // ----- the route's verb and parameters (lines 21, 27, 29, 84-93) -----

  /** `verb.gsub(/[$^]/, '')`. */
  function RemoveAnchors(verb: string): (r: string)
    ensures forall c :: c in r <==> c in verb && c != '$' && c != '^'
    ensures |r| <= |verb|
  {
    Arrays.Without(verb, "$^")
  }

  /** A verb without anchors is kept as it is. */
  lemma PlainVerbKept(verb: string)
    requires '$' !in verb && '^' !in verb
    ensures RemoveAnchors(verb) == verb
  {
    Arrays.WithoutNothingToRemove(verb, "$^");
  }

  /** Anchors are removed piecewise: the kept characters stay in their order. */
  lemma RemoveAnchorsAppend(a: string, b: string)
    ensures RemoveAnchors(a + b) == RemoveAnchors(a) + RemoveAnchors(b)
  {
    Arrays.WithoutAppend(a, b, "$^");
  }

  /** A verb string `^GET$` comes out as `GET`. */
  lemma AnchoredVerbUnwrapped(verb: string)
    requires '$' !in verb && '^' !in verb
    ensures RemoveAnchors("^" + verb + "$") == verb
  {
    RemoveAnchorsAppend("^" + verb, "$");
    RemoveAnchorsAppend("^", verb);
    PlainVerbKept(verb);
    assert RemoveAnchors("^") == "" by {
      assert "^"[..0] == [];
    }
    assert RemoveAnchors("$") == "" by {
      assert "$"[..0] == [];
    }
  }

  /** The extra parameter `message`, only for `pages#update`. */
  function AdditionalParams(controller: string, action: string): seq<string> {
    if (action == "update" || action == "create") && controller == "pages" && action == "update" then ["message"] else []
  }

  /**
   * `all_params`: without a controller class, the path parameters as they
   * are; with one, path, strong and additional parameters with duplicates
   * removed, each kept where it first occurs.
   */
  function AcceptedParams(controllerFound: bool, controller: string, action: string,
                          pathParams: seq<string>, strongParams: seq<string>): (r: seq<string>)
    ensures !controllerFound ==> r == pathParams
    ensures controllerFound ==> Arrays.NoDups(r)
    ensures controllerFound ==> forall p :: p in r <==>
      p in pathParams || p in strongParams || (p == "message" && controller == "pages" && action == "update")
    ensures controllerFound ==>
      r == Arrays.Uniq(pathParams) + Arrays.Without(Arrays.Uniq(strongParams + AdditionalParams(controller, action)), pathParams)
  {
    if controllerFound then
      var all := pathParams + strongParams + AdditionalParams(controller, action);
      assert all == pathParams + (strongParams + AdditionalParams(controller, action));
      Arrays.UniqAppend(pathParams, strongParams + AdditionalParams(controller, action));
      Arrays.UniqNoDups(all);
      Arrays.Uniq(all)
    else pathParams
  }

  /**
   * `all_params` of one route: the path parameters are the names after the
   * colons of its path, and the strong parameters come from the source of
   * the `<controller>_params` method, none when that method is not found.
   */
  function RouteParams(controllerFound: bool, controller: string, action: string,
                       path: string, paramMethodLines: Option<seq<string>>): seq<string>
  {
    AcceptedParams(controllerFound, controller, action, SymbolNames(path), StrongParamsOf(paramMethodLines))
  }

  /** The strong parameters, none when the parameter method is not found. */
  function StrongParamsOf(paramMethodLines: Option<seq<string>>): seq<string> {
    if paramMethodLines.Some? then StrongParams(paramMethodLines.value) else []
  }

  /** The path parameters are always accepted; with a controller class, so is every strong parameter, and nothing else but `message`. */
  lemma RouteParamsHold(controllerFound: bool, controller: string, action: string,
                        path: string, paramMethodLines: Option<seq<string>>)
    ensures var r := RouteParams(controllerFound, controller, action, path, paramMethodLines);
      && (!controllerFound ==> r == SymbolNames(path))
      && (forall p :: p in SymbolNames(path) ==> p in r)
      && (controllerFound ==> forall p :: p in StrongParamsOf(paramMethodLines) ==> p in r)
      && (controllerFound ==> forall p :: p in r ==> p in SymbolNames(path) || p in StrongParamsOf(paramMethodLines) || p == "message")
  {
  }

  /** `str.split(c)`: every field between occurrences of `c`, trailing empty fields included. */
  function SplitAll(s: string, c: char): (r: seq<string>)
    ensures |r| >= 1
    ensures forall i :: 0 <= i < |r| ==> c !in r[i]
    decreases |s|
  {
    if c in s then
      var p := Text.SplitAtFirst(s, c);
      [p.0] + SplitAll(p.1, c)
    else [s]
  }

  /** Ruby's `split` drops empty fields at the end. */
  function DropTrailingEmpty(fields: seq<string>): (r: seq<string>)
    ensures |r| <= |fields| && r == fields[..|r|]
    ensures r == [] || r[|r| - 1] != ""
    ensures forall i :: |r| <= i < |fields| ==> fields[i] == ""
  {
    if fields == [] || fields[|fields| - 1] != "" then fields
    else DropTrailingEmpty(fields[..|fields| - 1])
  }

  /** `controller, action = route_str.split('#')`, nil for a missing field. */
  function RouteTarget(route: string): (r: (Option<string>, Option<string>))
    ensures r.0.Some? ==> '#' !in r.0.value
    ensures r.1.Some? ==> r.0.Some? && '#' !in r.1.value
  {
    var f := DropTrailingEmpty(SplitAll(route, '#'));
    (if |f| > 0 then Some(f[0]) else None, if |f| > 1 then Some(f[1]) else None)
  }

  /** A registry entry `controller_path#action` splits back into its controller path and action. */
  lemma RouteTargetOfRouteKey(path: string, action: string)
    requires '#' !in path && '#' !in action && action != ""
    ensures RouteTarget(ControllerExtensions.RouteKey(path, action)) == (Some(path), Some(action))
  {
    var key := ControllerExtensions.RouteKey(path, action);
    assert key == path + ['#'] + action;
    Text.SplitAtFirstOf(path, '#', action);
    assert SplitAll(key, '#') == [path, action];
  }

  /** Without an action after `#`, the action is nil. */
  lemma RouteTargetWithoutAction(path: string)
    requires '#' !in path && path != ""
    ensures RouteTarget(path + "#") == (Some(path), None)
    ensures RouteTarget(path) == (Some(path), None)
  {
    Text.SplitAtFirstOf(path, '#', "");
    assert path + "#" == path + ['#'] + "";
    assert SplitAll("", '#') == [""];
    assert SplitAll(path + "#", '#') == [path, ""];
    assert DropTrailingEmpty([path, ""]) == DropTrailingEmpty([path, ""][..1]);
    assert [path, ""][..1] == [path];
  }
}
