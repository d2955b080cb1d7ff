/**
 The Markdown printers of reports: the fenced code block, read back by the rules of
 section 4.5 of CommonMark 0.31, and the escaping of inline text.
 */
module Markdown {
  import opened Prelude
  import opened PrefixCodes

  // ------------------------------------------------------------ runs of backticks

  function Ticks(n: nat): string {
    seq(n, _ => '`')
  }

  function TrailingRun(s: string): nat {
    if s != "" && s[|s| - 1] == '`' then 1 + TrailingRun(s[..|s| - 1]) else 0
  }

  function LongestRun(s: string): nat {
    if s == "" then 0 else Max(LongestRun(s[..|s| - 1]), TrailingRun(s))
  }

  predicate RunAt(s: string, i: int, n: nat) {
    0 <= i && i + n <= |s| && forall k :: i <= k < i + n ==> s[k] == '`'
  }

  lemma {:induction false} TrailingRunCovers(s: string, i: int, n: nat)
    requires RunAt(s, i, n) && i + n == |s|
    ensures n <= TrailingRun(s)
  {
    if n > 0 {
      assert RunAt(s[..|s| - 1], i, n - 1);
      TrailingRunCovers(s[..|s| - 1], i, n - 1);
    }
  }

  // No run in the text is longer than the longest one.
  lemma {:induction false} LongestRunCovers(s: string, i: int, n: nat)
    requires RunAt(s, i, n)
    ensures n <= LongestRun(s)
  {
    if i + n == |s| {
      TrailingRunCovers(s, i, n);
    } else {
      assert RunAt(s[..|s| - 1], i, n);
      LongestRunCovers(s[..|s| - 1], i, n);
    }
  }

  function FenceOf(value: string): string {
    Ticks(Max(3, LongestRun(value) + 1))
  }

  function FencedBlock(value: string): string {
    FenceOf(value) + "text\n" + value + "\n" + FenceOf(value)
  }

  method PrintFencedBlock(value: string) returns (r: string)
    ensures r == FencedBlock(value)
  {
    var longestRun, currentRun := 0, 0;
    for i := 0 to |value|
      invariant currentRun == TrailingRun(value[..i]) && longestRun == LongestRun(value[..i])
    {
      assert value[..i + 1][..i] == value[..i];
      if value[i] == '`' {
        currentRun := currentRun + 1;
        longestRun := Max(longestRun, currentRun);
      } else {
        currentRun := 0;
      }
    }
    assert value[..|value|] == value;
    var fence := Ticks(Max(3, longestRun + 1));
    r := fence + "text\n" + value + "\n" + fence;
  }

  lemma {:induction false} TrailingRunIsThere(s: string)
    ensures TrailingRun(s) <= |s| && RunAt(s, |s| - TrailingRun(s), TrailingRun(s))
  {
    if s != "" && s[|s| - 1] == '`' {
      TrailingRunIsThere(s[..|s| - 1]);
    }
  }

  // The longest run stands somewhere in the text.
  lemma {:induction false} LongestRunIsThere(s: string) returns (i: int)
    ensures RunAt(s, i, LongestRun(s))
  {
    i := 0;
    if s != "" {
      TrailingRunIsThere(s);
      i := |s| - TrailingRun(s);
      if LongestRun(s) == LongestRun(s[..|s| - 1]) {
        i := LongestRunIsThere(s[..|s| - 1]);
      }
    }
  }

  // No shorter fence would do: the value contains every one that has at least three ticks.
  lemma FenceIsShortest(value: string, n: nat)
    requires 3 <= n < |FenceOf(value)|
    ensures exists i :: RunAt(value, i, n)
  {
    var i := LongestRunIsThere(value);
    assert RunAt(value, i, n);
  }

  // ------------------------------------------------------------ reading a fenced block

  // A line ends at a line feed, a carriage return, or the two together.
  predicate EndsLine(s: string)
    requires s != ""
  {
    s[0] == '\n' || s[0] == '\r'
  }

  function Skip(s: string): (n: nat)
    requires s != ""
    ensures 1 <= n <= |s|
  {
    if s[0] == '\r' && |s| > 1 && s[1] == '\n' then 2 else 1
  }

  // The lines with one character, or one line ending, in front.
  function InFront(c: char, ends: bool, rest: seq<string>): (r: seq<string>)
    requires rest != []
    ensures r != []
  {
    if ends then [""] + rest else [[c] + rest[0]] + rest[1..]
  }

  function Lines(s: string): (r: seq<string>)
    ensures r != []
  {
    if s == "" then [""] else InFront(s[0], EndsLine(s), Lines(s[Skip(s)..]))
  }

  function Join(lines: seq<string>): string {
    if lines == [] then "" else if |lines| == 1 then lines[0] else lines[0] + "\n" + Join(lines[1..])
  }

  function Leading(s: string, c: char): (n: nat)
    ensures n <= |s| && forall k :: 0 <= k < n ==> s[k] == c
    ensures n < |s| ==> s[n] != c
  {
    if s != "" && s[0] == c then 1 + Leading(s[1..], c) else 0
  }

  predicate Blank(s: string) {
    forall i :: 0 <= i < |s| ==> s[i] == ' ' || s[i] == '\t'
  }

  // At most three spaces, at least as many backticks as the opening fence, then
  // nothing but spaces and tabs.
  predicate Closes(line: string, fence: nat) {
    var indent := Leading(line, ' ');
    var ticks := Leading(line[indent..], '`');
    indent <= 3 && ticks >= fence && Blank(line[indent + ticks..])
  }

  // An opening fence that is not indented: at least three backticks, and none in
  // the info string.
  predicate Opens(line: string) {
    var fence := Leading(line, '`');
    fence >= 3 && '`' !in line[fence..]
  }

  function ContentLines(lines: seq<string>, fence: nat): seq<string> {
    if lines == [] || Closes(lines[0], fence) then [] else [lines[0]] + ContentLines(lines[1..], fence)
  }

  datatype Block = Block(content: string, after: seq<string>)

  // The code block that a document starts with, and the lines after it.
  function ReadBlock(document: string): Option<Block> {
    var lines := Lines(document);
    if !Opens(lines[0]) then None
    else
      var content := ContentLines(lines[1..], Leading(lines[0], '`'));
      Some(Block(Join(content), lines[Min(|content| + 2, |lines|)..]))
  }

  // The lines before a line ending, as long as it does not split a pair.
  lemma {:induction false} LinesConcat(a: string, tail: string)
    requires tail != "" && EndsLine(tail)
    requires a == "" || a[|a| - 1] != '\r' || tail[0] != '\n'
    ensures Lines(a + tail) == Lines(a) + Lines(tail)[1..]
    decreases |a|
  {
    if a == "" {
      assert a + tail == tail && Lines(tail)[0] == "";
    } else {
      var s, rest := a + tail, a[Skip(a)..];
      SkipsTheSame(a, tail);
      LinesConcat(rest, tail);
      InFrontOfBoth(a[0], EndsLine(a), Lines(rest), Lines(tail)[1..]);
      assert Lines(s) == InFront(s[0], EndsLine(s), Lines(s[Skip(s)..]));
    }
  }

  lemma SkipsTheSame(a: string, tail: string)
    requires a != "" && tail != "" && (a[|a| - 1] != '\r' || tail[0] != '\n')
    ensures var s := a + tail; s[0] == a[0] && Skip(s) == Skip(a) && s[Skip(s)..] == a[Skip(a)..] + tail
  {
  }

  lemma InFrontOfBoth(c: char, ends: bool, front: seq<string>, behind: seq<string>)
    requires front != []
    ensures InFront(c, ends, front + behind) == InFront(c, ends, front) + behind
  {
    assert (front + behind)[1..] == front[1..] + behind;
  }

  lemma LinesAfterEnd(b: string)
    ensures Lines("\n" + b)[1..] == Lines(b)
    ensures Lines("\r\n" + b)[1..] == Lines(b)
  {
    assert ("\n" + b)[1..] == b && ("\r\n" + b)[2..] == b;
  }

  lemma {:induction false} JoinLines(s: string)
    requires '\r' !in s
    ensures Join(Lines(s)) == s
  {
    if s != "" {
      JoinLines(s[1..]);
      var rest := Lines(s[1..]);
      if s[0] == '\n' {
        assert Lines(s)[1..] == rest;
      } else {
        assert Lines(s)[1..] == rest[1..];
      }
    }
  }

  lemma {:induction false} LinesHaveNoReturns(s: string)
    ensures forall line :: line in Lines(s) ==> '\r' !in line
    decreases |s|
  {
    if s != "" {
      LinesHaveNoReturns(s[Skip(s)..]);
    }
  }

  lemma {:induction false} JoinHasNoReturns(lines: seq<string>)
    requires forall line :: line in lines ==> '\r' !in line
    ensures '\r' !in Join(lines)
  {
    if |lines| > 1 {
      JoinHasNoReturns(lines[1..]);
    }
  }

  lemma {:induction false} FirstLineIsPrefix(s: string)
    ensures Lines(s)[0] <= s
  {
    if s != "" && s[0] != '\n' && s[0] != '\r' {
      FirstLineIsPrefix(s[1..]);
    }
  }

  // A run in a line is a run in the text.
  lemma {:induction false} RunInLine(s: string, line: string, i: int, n: nat) returns (j: int)
    requires line in Lines(s) && RunAt(line, i, n) && n > 0
    ensures RunAt(s, j, n)
    decreases |s|
  {
    if line == Lines(s)[0] {
      FirstLineIsPrefix(s);
      j := i;
    } else {
      var k := RunInLine(s[Skip(s)..], line, i, n);
      j := k + Skip(s);
    }
  }

  // ------------------------------------------------------------ printing and reading

  function Chomp(s: string): string {
    if s != "" && s[|s| - 1] == '\r' then s[..|s| - 1] else s
  }

  lemma {:induction false} OneLine(s: string)
    requires '\n' !in s && '\r' !in s
    ensures Lines(s) == [s]
  {
    if s != "" {
      OneLine(s[1..]);
      assert s == [s[0]] + s[1..];
    }
  }

  lemma {:induction false} LeadingTicks(n: nat, rest: string)
    requires rest == "" || rest[0] != '`'
    ensures Leading(Ticks(n) + rest, '`') == n
  {
    var s := Ticks(n) + rest;
    if n == 0 {
      assert s == rest;
    } else {
      assert s[1..] == Ticks(n - 1) + rest;
      LeadingTicks(n - 1, rest);
    }
  }

  // A line with a shorter longest run does not close the block.
  lemma ShortRunsDoNotClose(s: string, line: string, fence: nat)
    requires line in Lines(s) && fence > LongestRun(s)
    ensures !Closes(line, fence)
  {
    var indent := Leading(line, ' ');
    var ticks := Leading(line[indent..], '`');
    if ticks >= fence {
      forall k | indent <= k < indent + fence
        ensures line[k] == '`'
      {
        assert line[indent..][k - indent] == '`';
      }
      assert RunAt(line, indent, fence);
      var j := RunInLine(s, line, indent, fence);
      LongestRunCovers(s, j, fence);
    }
  }

  lemma FenceCloses(n: nat)
    requires n >= 3
    ensures Closes(Ticks(n), n)
  {
    var line := Ticks(n);
    assert Leading(line, ' ') == 0;
    assert line[0..] == line && line + "" == line;
    LeadingTicks(n, "");
  }

  lemma {:induction false} ContentUpToFence(lines: seq<string>, closing: string, fence: nat)
    requires (forall line :: line in lines ==> !Closes(line, fence)) && Closes(closing, fence)
    ensures ContentLines(lines + [closing], fence) == lines
  {
    if lines != [] {
      ContentUpToFence(lines[1..], closing, fence);
      assert (lines + [closing])[1..] == lines[1..] + [closing];
    }
  }

  lemma {:induction false} ChompShortensRuns(s: string)
    ensures LongestRun(Chomp(s)) <= LongestRun(s)
  {
  }

  lemma OpeningLine(open: string, rest: string)
    requires '\n' !in open && '\r' !in open
    ensures Lines(open + ("\n" + rest)) == [open] + Lines(rest)
  {
    LinesConcat(open, "\n" + rest);
    LinesAfterEnd(rest);
    OneLine(open);
  }

  lemma LastLine(a: string, tail: string, fence: string)
    requires '\n' !in fence && '\r' !in fence && (tail == "\n" + fence || tail == "\r\n" + fence)
    requires a == "" || a[|a| - 1] != '\r' || tail[0] != '\n'
    ensures Lines(a + tail) == Lines(a) + [fence]
  {
    LinesAfterEnd(fence);
    OneLine(fence);
    LinesConcat(a, tail);
  }

  // The line feed after the value also ends a final carriage return.
  lemma ClosingLine(value: string, fence: string)
    requires '\n' !in fence && '\r' !in fence
    ensures Lines(value + ("\n" + fence)) == Lines(Chomp(value)) + [fence]
  {
    if Chomp(value) == value {
      LastLine(value, "\n" + fence, fence);
    } else {
      assert value + ("\n" + fence) == Chomp(value) + ("\r\n" + fence);
      LastLine(Chomp(value), "\r\n" + fence, fence);
    }
  }

  lemma FencedLines(value: string)
    ensures Lines(FencedBlock(value)) == [FenceOf(value) + "text"] + (Lines(Chomp(value)) + [FenceOf(value)])
  {
    var fence := FenceOf(value);
    assert FencedBlock(value) == (fence + "text") + ("\n" + (value + ("\n" + fence)));
    OpeningLine(fence + "text", value + ("\n" + fence));
    ClosingLine(value, fence);
  }

  lemma ContentIsTheValue(value: string)
    ensures ContentLines(Lines(Chomp(value)) + [FenceOf(value)], |FenceOf(value)|) == Lines(Chomp(value))
  {
    var inner, n := Lines(Chomp(value)), |FenceOf(value)|;
    ChompShortensRuns(value);
    forall line | line in inner
      ensures !Closes(line, n)
    {
      ShortRunsDoNotClose(Chomp(value), line, n);
    }
    FenceCloses(n);
    ContentUpToFence(inner, FenceOf(value), n);
  }

  lemma BlockOfLines(document: string, first: string, inner: seq<string>, last: string)
    requires Lines(document) == [first] + (inner + [last]) && Opens(first)
    requires ContentLines(inner + [last], Leading(first, '`')) == inner
    ensures ReadBlock(document) == Some(Block(Join(inner), []))
  {
    var lines := [first] + (inner + [last]);
    assert lines[1..] == inner + [last];
    assert lines[|lines|..] == [];
  }

  // Whatever the value, the block that is read ends at the closing fence, and
  // contains the lines of the value; a final carriage return is lost.
  lemma FencedBlockReadsBack(value: string)
    ensures ReadBlock(FencedBlock(value)) == Some(Block(Join(Lines(Chomp(value))), []))
  {
    var fence := FenceOf(value);
    FencedLines(value);
    LeadingTicks(|fence|, "text");
    assert (fence + "text")[|fence|..] == "text";
    ContentIsTheValue(value);
    BlockOfLines(FencedBlock(value), fence + "text", Lines(Chomp(value)), fence);
  }

  // The value comes back exactly when it has no carriage return.
  lemma FencedBlockIsExact(value: string)
    ensures ReadBlock(FencedBlock(value)) == Some(Block(value, [])) <==> '\r' !in value
  {
    FencedBlockReadsBack(value);
    if '\r' !in value {
      JoinLines(value);
    } else {
      LinesHaveNoReturns(Chomp(value));
      JoinHasNoReturns(Lines(Chomp(value)));
    }
  }

  // ------------------------------------------------------------ inline text

  // Every boundary at which the text is split into lines.
  predicate Boundary(c: char) {
    || c == '\n' || c == '\r' || c as int == 0x0B || c as int == 0x0C
    || 0x1C <= c as int <= 0x1E || c as int == 0x85 || c as int == 0x2028 || c as int == 0x2029
  }

  function FirstLine(s: string): (n: nat)
    ensures n <= |s| && (n < |s| ==> Boundary(s[n])) && forall i :: 0 <= i < n ==> !Boundary(s[i])
  {
    if s == "" || Boundary(s[0]) then 0 else 1 + FirstLine(s[1..])
  }

  function AfterFirstLine(s: string): (rest: string)
    ensures s != "" ==> |rest| < |s|
  {
    var n := FirstLine(s);
    if n == |s| then "" else s[n + Skip(s[n..])..]
  }

  // Without an empty line after a final boundary.
  function SplitLines(s: string): seq<string>
    decreases |s|
  {
    if s == "" then [] else [s[..FirstLine(s)]] + SplitLines(AfterFirstLine(s))
  }

  function JoinWith(separator: string, parts: seq<string>): string {
    if parts == [] then ""
    else if |parts| == 1 then parts[0]
    else parts[0] + separator + JoinWith(separator, parts[1..])
  }

  function SingleLine(value: string): string {
    JoinWith(" ", SplitLines(value))
  }

  predicate Special(c: char) {
    || c == '\\' || c == '`' || c == '*' || c == '_' || c == '{' || c == '}' || c == '[' || c == ']'
    || c == '(' || c == ')' || c == '#' || c == '+' || c == '!' || c == '|'
  }

  function EscapeChar(c: char): string {
    if Special(c) then ['\\', c] else [c]
  }

  function Replace(s: string, c: char, text: string): string {
    if s == "" then "" else (if s[0] == c then text else [s[0]]) + Replace(s[1..], c, text)
  }

  function Substitute(s: string, amp: string, lt: string, gt: string): string {
    Replace(Replace(Replace(s, '&', amp), '<', lt), '>', gt)
  }

  function Entities(s: string): string {
    Substitute(s, "&amp;", "&lt;", "&gt;")
  }

  function MarkdownInline(value: string): string {
    Entities(Encode(EscapeChar, SingleLine(value)))
  }

  // The same printer, character by character.
  function InlineChar(c: char): string {
    if Special(c) then ['\\', c]
    else if c == '&' then "&amp;"
    else if c == '<' then "&lt;"
    else if c == '>' then "&gt;"
    else [c]
  }

  lemma {:induction false} ReplaceConcat(a: string, b: string, c: char, text: string)
    ensures Replace(a + b, c, text) == Replace(a, c, text) + Replace(b, c, text)
  {
    if a == "" {
      assert a + b == b;
    } else {
      assert (a + b)[1..] == a[1..] + b;
      ReplaceConcat(a[1..], b, c, text);
    }
  }

  lemma {:induction false} ReplaceNothing(s: string, c: char, text: string)
    requires c !in s
    ensures Replace(s, c, text) == s
  {
    if s != "" {
      ReplaceNothing(s[1..], c, text);
    }
  }

  lemma SubstituteConcat(a: string, b: string, amp: string, lt: string, gt: string)
    ensures Substitute(a + b, amp, lt, gt) == Substitute(a, amp, lt, gt) + Substitute(b, amp, lt, gt)
  {
    ReplaceConcat(a, b, '&', amp);
    ReplaceConcat(Replace(a, '&', amp), Replace(b, '&', amp), '<', lt);
    ReplaceConcat(Replace(Replace(a, '&', amp), '<', lt), Replace(Replace(b, '&', amp), '<', lt), '>', gt);
  }

  lemma ReplaceOne(d: char, c: char, text: string)
    ensures Replace([d], c, text) == if d == c then text else [d]
  {
    assert [d][1..] == "";
    assert text + "" == text;
  }

  lemma SubstituteOne(c: char, amp: string, lt: string, gt: string)
    requires '<' !in amp && '>' !in amp && '>' !in lt
    ensures Substitute([c], amp, lt, gt) ==
            if c == '&' then amp else if c == '<' then lt else if c == '>' then gt else [c]
  {
    ReplaceOne(c, '&', amp);
    ReplaceOne(c, '<', lt);
    ReplaceOne(c, '>', gt);
    ReplaceNothing(amp, '<', lt);
    ReplaceNothing(amp, '>', gt);
    ReplaceNothing(lt, '>', gt);
  }

  lemma SubstituteNothing(s: string, amp: string, lt: string, gt: string)
    requires '&' !in s && '<' !in s && '>' !in s
    ensures Substitute(s, amp, lt, gt) == s
  {
    ReplaceNothing(s, '&', amp);
    ReplaceNothing(s, '<', lt);
    ReplaceNothing(s, '>', gt);
  }

  // The entities come after the escapes, and an ampersand of an entity is not escaped again.
  lemma EntitiesOfChar(c: char)
    ensures Entities(EscapeChar(c)) == InlineChar(c)
  {
    if Special(c) {
      SubstituteNothing(EscapeChar(c), "&amp;", "&lt;", "&gt;");
    } else {
      SubstituteOne(c, "&amp;", "&lt;", "&gt;");
    }
  }

  lemma {:induction false} EntitiesOfEscapes(s: string)
    ensures Entities(Encode(EscapeChar, s)) == Encode(InlineChar, s)
  {
    if s != "" {
      SubstituteConcat(EscapeChar(s[0]), Encode(EscapeChar, s[1..]), "&amp;", "&lt;", "&gt;");
      EntitiesOfChar(s[0]);
      EntitiesOfEscapes(s[1..]);
    }
  }

  // Reads backslash escapes and the three entities from left to right.
  function TakeInline(b: string): Taken<char> {
    if b == "" then Bad(0)
    else if b[0] == '\\' then if |b| > 1 && Special(b[1]) then Symbol(b[1], 2) else Bad(1)
    else if "&amp;" <= b then Symbol('&', 5)
    else if "&lt;" <= b then Symbol('<', 4)
    else if "&gt;" <= b then Symbol('>', 4)
    else if Special(b[0]) || b[0] == '&' || b[0] == '<' || b[0] == '>' then Bad(1)
    else Symbol(b[0], 1)
  }

  lemma InlineCharReadsBack(c: char, rest: string)
    ensures SymbolReadsBack(InlineChar, TakeInline, c, rest)
  {
    var b := InlineChar(c) + rest;
    if c == '&' {
      assert b[..5] == "&amp;";
    } else if c == '<' {
      assert b[..4] == "&lt;" && b[1] == 'l';
    } else if c == '>' {
      assert b[..4] == "&gt;" && b[1] == 'g';
    } else if !Special(c) {
      assert b[0] == c;
    }
  }

  ghost predicate OneLineOnly(s: string) {
    forall i :: 0 <= i < |s| ==> !Boundary(s[i])
  }

  lemma {:induction false} JoinedIsOneLine(parts: seq<string>)
    requires forall p :: p in parts ==> OneLineOnly(p)
    ensures OneLineOnly(JoinWith(" ", parts))
  {
    if |parts| > 1 {
      JoinedIsOneLine(parts[1..]);
      assert OneLineOnly(parts[0]);
    } else if |parts| == 1 {
      assert parts[0] in parts;
    }
  }

  lemma {:induction false} PartsAreOneLine(s: string)
    ensures forall p :: p in SplitLines(s) ==> OneLineOnly(p)
    decreases |s|
  {
    if s != "" {
      assert OneLineOnly(s[..FirstLine(s)]);
      PartsAreOneLine(AfterFirstLine(s));
    }
  }

  lemma NothingToSplit(value: string)
    requires OneLineOnly(value)
    ensures SingleLine(value) == value
  {
    if value != "" {
      assert FirstLine(value) == |value| && value[..|value|] == value;
      assert SplitLines(value) == [value];
    }
  }

  // A value is its own single line exactly when it has no line boundary.
  lemma SingleLineIsSame(value: string)
    ensures OneLineOnly(SingleLine(value))
    ensures SingleLine(value) == value <==> OneLineOnly(value)
  {
    PartsAreOneLine(value);
    JoinedIsOneLine(SplitLines(value));
    if OneLineOnly(value) {
      NothingToSplit(value);
    }
  }

  // Reading the printed text back gives the single line of the value, so two values
  // print alike exactly when their single lines are the same.
  lemma MarkdownInlineReadsBack(value: string)
    ensures Decode(TakeInline, MarkdownInline(value)) == Some(SingleLine(value))
  {
    EntitiesOfEscapes(SingleLine(value));
    forall c: char, rest: string
      ensures SymbolReadsBack(InlineChar, TakeInline, c, rest)
    {
      InlineCharReadsBack(c, rest);
    }
    DecodeEncoded(InlineChar, TakeInline, SingleLine(value));
  }

  lemma MarkdownInlineIsInjective(v: string, w: string)
    ensures MarkdownInline(v) == MarkdownInline(w) <==> SingleLine(v) == SingleLine(w)
    ensures OneLineOnly(v) && OneLineOnly(w) && MarkdownInline(v) == MarkdownInline(w) ==> v == w
  {
    MarkdownInlineReadsBack(v);
    MarkdownInlineReadsBack(w);
    SingleLineIsSame(v);
    SingleLineIsSame(w);
  }

  // ------------------------------------------------------------ nothing stands bare

  const MARKUP := {'`', '*', '_', '{', '}', '[', ']', '(', ')', '#', '+', '!', '|'}

  // How many backslashes stand directly before a position.
  function Backslashes(s: string, i: nat): nat
    requires i <= |s|
  {
    if i > 0 && s[i - 1] == '\\' then 1 + Backslashes(s, i - 1) else 0
  }

  // A markup character with an odd run of backslashes before it is a plain character, and
  // neither angle bracket stands anywhere.
  ghost predicate NothingBare(s: string) {
    && (forall i: nat :: i < |s| && s[i] in MARKUP ==> Backslashes(s, i) % 2 == 1)
    && (forall i :: 0 <= i < |s| ==> s[i] != '<' && s[i] != '>')
  }

  lemma {:induction false} BackslashesStay(a: string, b: string, i: nat)
    requires i <= |a|
    ensures Backslashes(a + b, i) == Backslashes(a, i)
  {
    if i > 0 {
      BackslashesStay(a, b, i - 1);
    }
  }

  ghost predicate Plain(s: string) {
    NothingBare(s) && Backslashes(s, |s|) % 2 == 0
  }

  // An even run of backslashes in front changes no parity.
  lemma {:induction false} SameParity(a: string, b: string, i: nat)
    requires i <= |b| && Backslashes(a, |a|) % 2 == 0
    ensures Backslashes(a + b, |a| + i) % 2 == Backslashes(b, i) % 2
  {
    if i > 0 {
      SameParity(a, b, i - 1);
      assert (a + b)[|a| + i - 1] == b[i - 1];
    } else {
      BackslashesStay(a, b, |a|);
    }
  }

  lemma PlainJoin(a: string, b: string)
    requires Plain(a) && Plain(b)
    ensures Plain(a + b)
  {
    var s := a + b;
    forall i: nat | i < |s| && s[i] in MARKUP
      ensures Backslashes(s, i) % 2 == 1
    {
      if i < |a| {
        BackslashesStay(a, b, i);
      } else {
        SameParity(a, b, i - |a|);
        assert s[i] == b[i - |a|];
      }
    }
    SameParity(a, b, |b|);
    assert forall i :: 0 <= i < |s| ==> s[i] == if i < |a| then a[i] else b[i - |a|];
  }

  lemma InlineCharIsPlain(c: char)
    ensures Plain(InlineChar(c))
  {
    var x := InlineChar(c);
    assert Backslashes(x, 0) == 0 && Backslashes(x, 1) == if x[0] == '\\' then 1 else 0;
    if Special(c) {
      assert Backslashes(x, 2) == if c == '\\' then 2 else 0;
    }
  }

  lemma {:induction false} EncodedIsNotBare(s: string)
    ensures Plain(Encode(InlineChar, s))
  {
    if s != "" {
      InlineCharIsPlain(s[0]);
      EncodedIsNotBare(s[1..]);
      PlainJoin(InlineChar(s[0]), Encode(InlineChar, s[1..]));
    }
  }

  // No markup character of the printed text stands without its escape.
  lemma MarkdownInlineIsPlain(value: string)
    ensures forall i: nat :: i < |MarkdownInline(value)| && MarkdownInline(value)[i] in MARKUP ==>
              Backslashes(MarkdownInline(value), i) % 2 == 1
    ensures '<' !in MarkdownInline(value) && '>' !in MarkdownInline(value)
    ensures OneLineOnly(MarkdownInline(value))
  {
    EntitiesOfEscapes(SingleLine(value));
    EncodedIsNotBare(SingleLine(value));
    SingleLineIsSame(value);
    EncodedIsOneLine(SingleLine(value));
  }

  lemma {:induction false} EncodedIsOneLine(s: string)
    requires OneLineOnly(s)
    ensures OneLineOnly(Encode(InlineChar, s))
  {
    if s != "" {
      EncodedIsOneLine(s[1..]);
      assert OneLineOnly(InlineChar(s[0]));
    }
  }
}
