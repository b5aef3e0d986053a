/** The Python text operations that the style checker relies on: universal
    newlines, readlines and writelines, strip and rstrip, expandtabs. */
module Text {

  const TAB_SIZE: nat := 4

  /** str.isspace. */
  predicate IsSpace(c: char) {
    || '\U{9}' <= c <= '\U{D}'
    || '\U{1C}' <= c <= '\U{20}'
    || c == '\U{85}' || c == '\U{A0}' || c == '\U{1680}'
    || '\U{2000}' <= c <= '\U{200A}'
    || c == '\U{2028}' || c == '\U{2029}' || c == '\U{202F}' || c == '\U{205F}' || c == '\U{3000}'
  }

  ghost predicate AllSpace(s: string) {
    forall k :: 0 <= k < |s| ==> IsSpace(s[k])
  }

  // ---------------------------------------------------------------------
  // Stripping
  // ---------------------------------------------------------------------

  function RStrip(s: string): string {
    if s != [] && IsSpace(s[|s| - 1]) then RStrip(s[..|s| - 1]) else s
  }

  function LStrip(s: string): string {
    if s != [] && IsSpace(s[0]) then LStrip(s[1..]) else s
  }

  function Strip(s: string): string {
    LStrip(RStrip(s))
  }

  lemma {:induction false} RStripResult(s: string)
    ensures RStrip(s) <= s && AllSpace(s[|RStrip(s)|..])
    ensures RStrip(s) != [] ==> !IsSpace(RStrip(s)[|RStrip(s)| - 1])
  {
    if s != [] && IsSpace(s[|s| - 1]) {
      RStripResult(s[..|s| - 1]);
    }
  }

  lemma {:induction false} LStripResult(s: string)
    ensures var r := LStrip(s);
      |r| <= |s| && r == s[|s| - |r|..] && AllSpace(s[..|s| - |r|]) && (r != [] ==> !IsSpace(r[0]))
  {
    if s != [] && IsSpace(s[0]) {
      LStripResult(s[1..]);
      var blank := |s| - |LStrip(s)|;
      assert s[..blank] == [s[0]] + s[1..][..blank - 1];
    }
  }

  lemma {:induction false} RStripOf(body: string, tail: string)
    requires AllSpace(tail) && (body != [] ==> !IsSpace(body[|body| - 1]))
    ensures RStrip(body + tail) == body
  {
    if tail == [] {
      assert body + tail == body;
    } else {
      var s := body + tail;
      assert s[..|s| - 1] == body + tail[..|tail| - 1];
      RStripOf(body, tail[..|tail| - 1]);
    }
  }

  lemma {:induction false} LStripOf(head: string, body: string)
    requires AllSpace(head) && (body != [] ==> !IsSpace(body[0]))
    ensures LStrip(head + body) == body
  {
    if head == [] {
      assert head + body == body;
    } else {
      var s := head + body;
      assert s[1..] == head[1..] + body;
      LStripOf(head[1..], body);
    }
  }

  /** A nonempty core with blank surroundings is what strip returns. */
  lemma StripOf(head: string, core: string, tail: string)
    requires AllSpace(head) && AllSpace(tail)
    requires core != [] && !IsSpace(core[0]) && !IsSpace(core[|core| - 1])
    ensures Strip(head + core + tail) == core
  {
    RStripOf(head + core, tail);
    LStripOf(head, core);
  }

  /** Conversely, a line with a nonempty strip is that core in blank surroundings. */
  lemma StripParts(s: string) returns (head: string, tail: string)
    requires Strip(s) != []
    ensures s == head + Strip(s) + tail && AllSpace(head) && AllSpace(tail)
    ensures !IsSpace(Strip(s)[0]) && !IsSpace(Strip(s)[|Strip(s)| - 1])
  {
    var right, core := RStrip(s), Strip(s);
    RStripResult(s);
    LStripResult(right);
    head, tail := right[..|right| - |core|], s[|right|..];
    assert right == head + core;
    assert s == right + tail;
    assert core[|core| - 1] == right[|right| - 1];
  }

  // ---------------------------------------------------------------------
  // Tabs
  // ---------------------------------------------------------------------

  function Spaces(n: nat): (r: string)
    ensures |r| == n && forall k :: 0 <= k < n ==> r[k] == ' '
  {
    seq(n, _ => ' ')
  }

  function NextColumn(c: char, column: nat): nat {
    if c == '\t' then column + (TAB_SIZE - column % TAB_SIZE)
    else if c == '\n' || c == '\r' then 0
    else column + 1
  }

  function ExpandChar(c: char, column: nat): string {
    if c == '\t' then Spaces(TAB_SIZE - column % TAB_SIZE) else [c]
  }

  /** str.expandtabs, from a given column. */
  function Expand(s: string, column: nat): string {
    if s == [] then [] else ExpandChar(s[0], column) + Expand(s[1..], NextColumn(s[0], column))
  }

  function ColumnAfter(s: string, column: nat): nat {
    if s == [] then column else ColumnAfter(s[1..], NextColumn(s[0], column))
  }

  lemma {:induction false} ExpandConcat(a: string, b: string, column: nat)
    ensures Expand(a + b, column) == Expand(a, column) + Expand(b, ColumnAfter(a, column))
  {
    if a == [] {
      assert a + b == b;
    } else {
      assert (a + b)[1..] == a[1..] + b;
      ExpandConcat(a[1..], b, NextColumn(a[0], column));
    }
  }

  lemma {:induction false} ExpandHasNoTab(s: string, column: nat)
    ensures '\t' !in Expand(s, column)
  {
    if s != [] {
      ExpandHasNoTab(s[1..], NextColumn(s[0], column));
    }
  }

  lemma {:induction false} ExpandWithoutTab(s: string, column: nat)
    requires '\t' !in s
    ensures Expand(s, column) == s
  {
    if s != [] {
      ExpandWithoutTab(s[1..], NextColumn(s[0], column));
    }
  }

  lemma {:induction false} ExpandBlank(s: string, column: nat)
    requires AllSpace(s)
    ensures AllSpace(Expand(s, column))
  {
    if s != [] {
      ExpandBlank(s[1..], NextColumn(s[0], column));
    }
  }

  /** No newline or carriage return appears that was not there. */
  lemma {:induction false} ExpandKeepsBreaks(s: string, column: nat, c: char)
    requires c == '\n' || c == '\r'
    requires c !in s
    ensures c !in Expand(s, column)
  {
    if s != [] {
      ExpandKeepsBreaks(s[1..], NextColumn(s[0], column), c);
    }
  }

  /** The characters that are neither spaces nor tabs. */
  ghost function NonBlank(s: string): string {
    if s == [] then []
    else (if s[0] == ' ' || s[0] == '\t' then [] else [s[0]]) + NonBlank(s[1..])
  }

  lemma {:induction false} NonBlankConcat(a: string, b: string)
    ensures NonBlank(a + b) == NonBlank(a) + NonBlank(b)
  {
    if a == [] {
      assert a + b == b;
    } else {
      assert (a + b)[1..] == a[1..] + b;
      NonBlankConcat(a[1..], b);
    }
  }

  lemma {:induction false} NonBlankSpaces(s: string)
    requires forall k :: 0 <= k < |s| ==> s[k] == ' '
    ensures NonBlank(s) == []
  {
    if s != [] {
      NonBlankSpaces(s[1..]);
    }
  }

  /** Expanding tabs keeps every other character, in order. */
  lemma {:induction false} ExpandKeepsText(s: string, column: nat)
    ensures NonBlank(Expand(s, column)) == NonBlank(s)
  {
    if s != [] {
      var first := ExpandChar(s[0], column);
      ExpandKeepsText(s[1..], NextColumn(s[0], column));
      NonBlankConcat(first, Expand(s[1..], NextColumn(s[0], column)));
      if s[0] == '\t' {
        NonBlankSpaces(first);
      } else {
        assert first[1..] == [];
      }
    }
  }

  /** On a single line the column is the number of characters written. */
  lemma {:induction false} ColumnIsLength(s: string, column: nat)
    requires '\n' !in s && '\r' !in s
    ensures ColumnAfter(s, column) == column + |Expand(s, column)|
  {
    if s != [] {
      ColumnIsLength(s[1..], NextColumn(s[0], column));
    }
  }

  lemma {:induction false} ExpandTabFirst(after: string, column: nat)
    ensures Expand(['\t'] + after, column)
      == Spaces(TAB_SIZE - column % TAB_SIZE) + Expand(after, column + (TAB_SIZE - column % TAB_SIZE))
  {
    assert (['\t'] + after)[1..] == after;
  }

  lemma StopDistance(column: nat) returns (n: nat)
    ensures n == TAB_SIZE - column % TAB_SIZE && 1 <= n <= TAB_SIZE && (column + n) % TAB_SIZE == 0
  {
    n := TAB_SIZE - column % TAB_SIZE;
  }

  /** What follows a tab starts at the next tab stop. */
  lemma TabStops(before: string, after: string) returns (n: nat)
    requires '\n' !in before && '\r' !in before
    ensures 1 <= n <= 4 && (|Expand(before, 0)| + n) % 4 == 0
    ensures Expand(before + (['\t'] + after), 0)
      == Expand(before, 0) + (Spaces(n) + Expand(after, |Expand(before, 0)| + n))
  {
    var left := |Expand(before, 0)|;
    ColumnIsLength(before, 0);
    ExpandConcat(before, ['\t'] + after, 0);
    n := StopDistance(left);
    ExpandTabFirst(after, left);
  }

  // ---------------------------------------------------------------------
  // Reading and writing lines
  // ---------------------------------------------------------------------

  /** Newline translation on reading in text mode. */
  function Universal(text: string): (r: string)
    ensures '\r' !in r
  {
    if text == [] then []
    else if text[0] == '\r' then
      ['\n'] + (if |text| > 1 && text[1] == '\n' then Universal(text[2..]) else Universal(text[1..]))
    else [text[0]] + Universal(text[1..])
  }

  lemma {:induction false} UniversalIdentity(text: string)
    requires '\r' !in text
    ensures Universal(text) == text
  {
    if text != [] {
      UniversalIdentity(text[1..]);
    }
  }

  /** Each of the three ways to end a line becomes one newline. */
  lemma {:induction false} UniversalBreaks(line: string, rest: string)
    requires '\r' !in line
    ensures Universal(line + ("\r\n" + rest)) == line + ("\n" + Universal(rest))
    ensures (rest == [] || rest[0] != '\n') ==> Universal(line + ("\r" + rest)) == line + ("\n" + Universal(rest))
    ensures Universal(line + ("\n" + rest)) == line + ("\n" + Universal(rest))
  {
    if line == [] {
      assert ("\r\n" + rest)[2..] == rest && ("\r" + rest)[1..] == rest && ("\n" + rest)[1..] == rest;
      assert line + ("\r\n" + rest) == "\r\n" + rest && line + ("\r" + rest) == "\r" + rest;
      assert line + ("\n" + rest) == "\n" + rest;
    } else {
      UniversalBreaks(line[1..], rest);
      UniversalStep(line, "\r\n" + rest);
      UniversalStep(line, "\r" + rest);
      UniversalStep(line, "\n" + rest);
    }
  }

  lemma {:induction false} UniversalStep(line: string, rest: string)
    requires line != [] && line[0] != '\r'
    ensures Universal(line + rest) == [line[0]] + Universal(line[1..] + rest)
  {
    assert (line + rest)[1..] == line[1..] + rest;
  }

  /** The length of the first line, its newline included. */
  function FirstLine(text: string): (n: nat)
    requires text != []
    ensures 0 < n <= |text|
    ensures '\n' !in text[..n - 1]
    ensures n < |text| ==> text[n - 1] == '\n'
  {
    if text[0] == '\n' || |text| == 1 then 1
    else
      var n := FirstLine(text[1..]);
      assert text[..n] == [text[0]] + text[1..][..n - 1];
      1 + n
  }

  function SplitLines(text: string): seq<string> {
    if text == [] then []
    else
      var n := FirstLine(text);
      [text[..n]] + SplitLines(text[n..])
  }

  /** Splitting loses nothing. */
  lemma {:induction false} WriteOfSplit(text: string)
    ensures WriteLines(SplitLines(text)) == text
    decreases |text|
  {
    if text != [] {
      var n := FirstLine(text);
      var head, tail := text[..n], text[n..];
      assert SplitLines(text) == [head] + SplitLines(tail) && text == head + tail;
      WriteOfSplit(tail);
      WriteCons(head, SplitLines(tail));
    }
  }

  lemma {:induction false} WriteCons(line: string, rest: seq<string>)
    ensures WriteLines([line] + rest) == line + WriteLines(rest)
  {
    assert ([line] + rest)[1..] == rest;
  }

  function ReadLines(text: string): seq<string> {
    SplitLines(Universal(text))
  }

  function WriteLines(lines: seq<string>): string {
    if lines == [] then [] else lines[0] + WriteLines(lines[1..])
  }

  /** A newline can only be the last character of a line. */
  ghost predicate IsLine(line: string) {
    line != [] && '\r' !in line && '\n' !in line[..|line| - 1]
  }

  ghost predicate Terminated(line: string) {
    line != [] && line[|line| - 1] == '\n'
  }

  /** What readlines can return: only the last line may lack its newline. */
  ghost predicate AreLines(lines: seq<string>) {
    && (forall k :: 0 <= k < |lines| ==> IsLine(lines[k]))
    && (forall k :: 0 <= k < |lines| - 1 ==> Terminated(lines[k]))
  }

  lemma {:induction false} SplitLinesAreLines(text: string)
    requires '\r' !in text
    ensures AreLines(SplitLines(text))
    decreases |text|
  {
    if text != [] {
      var n := FirstLine(text);
      SplitLinesAreLines(text[n..]);
      assert text[..n][..n - 1] == text[..n - 1];
    }
  }

  lemma ReadLinesAreLines(text: string)
    ensures AreLines(ReadLines(text))
  {
    SplitLinesAreLines(Universal(text));
  }

  lemma {:induction false} FirstLineOf(line: string, rest: string)
    requires IsLine(line) && (Terminated(line) || rest == [])
    ensures FirstLine(line + rest) == |line|
  {
    var text := line + rest;
    var n := FirstLine(text);
    assert forall k :: 0 <= k < |line| ==> text[k] == line[k];
    assert forall k :: 0 <= k < |line| - 1 ==> line[..|line| - 1][k] == line[k];
    assert forall k :: 0 <= k < n - 1 ==> text[..n - 1][k] == text[k];
  }

  lemma {:induction false} WriteLinesHasNoReturn(lines: seq<string>)
    requires AreLines(lines)
    ensures '\r' !in WriteLines(lines)
  {
    if lines != [] {
      assert AreLines(lines[1..]);
      WriteLinesHasNoReturn(lines[1..]);
    }
  }

  lemma {:induction false} SplitOfWrite(lines: seq<string>)
    requires AreLines(lines)
    ensures SplitLines(WriteLines(lines)) == lines
  {
    if lines != [] {
      var rest := WriteLines(lines[1..]);
      assert AreLines(lines[1..]);
      SplitOfWrite(lines[1..]);
      if lines[1..] == [] {
        assert rest == [];
      }
      FirstLineOf(lines[0], rest);
      assert (lines[0] + rest)[..|lines[0]|] == lines[0];
      assert (lines[0] + rest)[|lines[0]|..] == rest;
    }
  }

  /** Lines that are written are read back as they were. */
  lemma {:induction false} ReadOfWrite(lines: seq<string>)
    requires AreLines(lines)
    ensures ReadLines(WriteLines(lines)) == lines
  {
    WriteLinesHasNoReturn(lines);
    UniversalIdentity(WriteLines(lines));
    SplitOfWrite(lines);
  }
}
