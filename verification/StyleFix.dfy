/** The two line checks of check-style-clang-format.py that need no outside
    information, and the fix run that applies both. */
module StyleFix {
  import opened Text
  import opened GuardedPass

  const GUARD_ON: string := "// clang-format on"
  const GUARD_OFF: string := "// clang-format off"

  function GuardOf(line: string): Guard {
    if Strip(line) == GUARD_ON then On else if Strip(line) == GUARD_OFF then Off else NoGuard
  }

  /** check_whitespace_line. */
  function FixWhitespace(line: string): string {
    RStrip(line) + "\n"
  }

  predicate WhitespaceOk(line: string) {
    FixWhitespace(line) == line
  }

  /** check_tabs_line. */
  function FixTabs(line: string): string {
    if '\t' in line then Expand(line, 0) else line
  }

  predicate TabsOk(line: string) {
    '\t' !in line
  }

  function WhitespaceChecker(): Checker {
    Checker(false, GuardOf, FixWhitespace, WhitespaceOk)
  }

  function TabsChecker(): Checker {
    Checker(true, GuardOf, FixTabs, TabsOk)
  }

  /** Expanding tabs around a core without tabs leaves the core. */
  lemma {:induction false} ExpandKeepsCore(line: string)
    requires Strip(line) != [] && '\t' !in Strip(line)
    ensures Strip(Expand(line, 0)) == Strip(line)
  {
    var core := Strip(line);
    var head, tail := StripParts(line);
    var left := head + core;
    var column := ColumnAfter(left, 0);
    ExpandConcat(left, tail, 0);
    ExpandConcat(head, core, 0);
    ExpandWithoutTab(core, ColumnAfter(head, 0));
    ExpandBlank(head, 0);
    ExpandBlank(tail, column);
    StripOf(Expand(head, 0), core, Expand(tail, column));
  }

  /** Fixing a guard line leaves it the guard it was. */
  lemma {:induction false} GuardSurvives(line: string)
    requires !GuardOf(line).NoGuard?
    ensures GuardOf(Expand(line, 0)) == GuardOf(line)
  {
    GuardsHaveNoTab();
    ExpandKeepsCore(line);
  }

  lemma GuardsHaveNoTab()
    ensures GUARD_ON != [] && '\t' !in GUARD_ON
    ensures GUARD_OFF != [] && '\t' !in GUARD_OFF
  {
  }

  lemma WhitespaceFixIsLine(line: string)
    requires IsLine(line)
    ensures IsLine(FixWhitespace(line))
  {
    var body := RStrip(line);
    RStripResult(line);
    assert '\n' !in body by {
      if body != [] {
        assert body[|body| - 1] != '\n';
        assert forall k :: 0 <= k < |body| - 1 ==> body[k] == line[..|line| - 1][k];
      }
    }
    assert FixWhitespace(line)[..|body|] == body;
  }

  lemma {:induction false} ExpandIsLine(line: string)
    ensures IsLine(line) ==> IsLine(Expand(line, 0))
    ensures Terminated(line) ==> Terminated(Expand(line, 0))
  {
    if line != [] {
      var n := |line| - 1;
      var front, last := Expand(line[..n], 0), ExpandChar(line[n], ColumnAfter(line[..n], 0));
      assert line == line[..n] + [line[n]];
      ExpandConcat(line[..n], [line[n]], 0);
      LastExpanded(line[n], ColumnAfter(line[..n], 0));
      assert Expand(line, 0) == front + last;
      if IsLine(line) {
        ExpandKeepsBreaks(line[..n], 0, '\n');
        ExpandKeepsBreaks(line, 0, '\r');
        assert (front + last)[..|front + last| - 1] == front + last[..|last| - 1];
      }
    }
  }

  lemma {:induction false} LastExpanded(c: char, column: nat)
    ensures Expand([c], column) == ExpandChar(c, column)
    ensures ExpandChar(c, column) != [] && (c == '\n' ==> ExpandChar(c, column) == "\n")
    ensures '\n' !in ExpandChar(c, column)[..|ExpandChar(c, column)| - 1]
  {
  }

  /** Expanding the tabs of a line without trailing whitespace creates none. */
  lemma ExpansionKeepsWhitespaceOk(line: string)
    requires WhitespaceOk(line)
    ensures WhitespaceOk(FixTabs(line))
  {
    var body := RStrip(line);
    RStripResult(line);
    if body == [] {
      assert line == "\n";
    } else {
      var n := |body| - 1;
      var front := Expand(body[..n], 0);
      assert body == body[..n] + [body[n]];
      ExpandConcat(body[..n], [body[n]], 0);
      LastExpanded(body[n], ColumnAfter(body[..n], 0));
      assert Expand(body, 0) == front + [body[n]];
      ExpandConcat(body, "\n", 0);
      LastExpanded('\n', ColumnAfter(body, 0));
      RStripOf(front + [body[n]], "\n");
    }
  }

  lemma WhitespaceFixOk(line: string)
    ensures WhitespaceOk(FixWhitespace(line))
    ensures Terminated(FixWhitespace(line))
  {
    RStripResult(line);
    RStripOf(RStrip(line), "\n");
  }

  lemma WhitespaceCheckerSound()
    ensures Sound(WhitespaceChecker())
  {
    var c := WhitespaceChecker();
    forall line ensures c.ok(c.fix(line)) && Terminated(c.fix(line)) && (c.ok(line) <==> c.fix(line) == line) {
      WhitespaceFixOk(line);
    }
    forall line | IsLine(line) ensures IsLine(c.fix(line)) {
      WhitespaceFixIsLine(line);
    }
  }

  lemma TabsCheckerSound()
    ensures Sound(TabsChecker())
  {
    forall line ensures TabsOk(FixTabs(line)) {
      ExpandHasNoTab(line, 0);
    }
    forall line | !GuardOf(line).NoGuard? ensures GuardOf(FixTabs(line)) == GuardOf(line) {
      GuardSurvives(line);
    }
    forall line
      ensures IsLine(line) ==> IsLine(FixTabs(line))
      ensures Terminated(line) ==> Terminated(FixTabs(line))
    {
      ExpandIsLine(line);
    }
  }

  // ---------------------------------------------------------------------
  // What the two checks mean
  // ---------------------------------------------------------------------

  /** Line k is no guard, and an off guard above it has no on guard after it. */
  ghost predicate InOffRegion(lines: seq<string>, k: nat) {
    && k < |lines|
    && Strip(lines[k]) != "// clang-format on" && Strip(lines[k]) != "// clang-format off"
    && exists j :: 0 <= j < k && OffUntil(lines, j, k)
  }

  ghost predicate OffUntil(lines: seq<string>, j: nat, k: nat) {
    && j < k <= |lines| && Strip(lines[j]) == "// clang-format off"
    && forall i :: j < i < k ==> Strip(lines[i]) != "// clang-format on"
  }

  lemma GuardsDiffer()
    ensures "// clang-format on" != "// clang-format off"
  {
    assert |"// clang-format on"| != |"// clang-format off"|;
  }

  lemma {:induction false} TabsVisitedIff(lines: seq<string>, k: nat)
    requires k < |lines|
    ensures VisitedAt(TabsChecker(), lines, k) <==> !InOffRegion(lines, k)
  {
    GuardsDiffer();
    VisitedIff(TabsChecker(), lines, k);
    if GuardOf(lines[k]).NoGuard? {
      forall j | 0 <= j <= k ensures OffUpTo(TabsChecker(), lines, j, k) <==> OffUntil(lines, j, k) {
      }
    }
  }

  /** The tabs check passes a file exactly when every tab stands in an off region. */
  lemma {:induction false} TabsCleanIff(lines: seq<string>)
    ensures Clean(TabsChecker(), lines) <==>
      forall k :: 0 <= k < |lines| && '\t' in lines[k] ==> InOffRegion(lines, k)
  {
    forall k | 0 <= k < |lines| ensures VisitedAt(TabsChecker(), lines, k) <==> !InOffRegion(lines, k) {
      TabsVisitedIff(lines, k);
    }
  }

  /** The line ends in a newline with no whitespace in front of it. */
  ghost predicate Trimmed(line: string) {
    && line != [] && line[|line| - 1] == '\n'
    && (|line| > 1 ==> !IsSpace(line[|line| - 2]))
  }

  lemma {:induction false} WhitespaceOkIff(line: string)
    ensures WhitespaceOk(line) <==> Trimmed(line)
  {
    RStripResult(line);
    if Trimmed(line) {
      var body := line[..|line| - 1];
      assert line == body + "\n";
      RStripOf(body, "\n");
    }
  }

  /** The whitespace check passes a file exactly when every line is trimmed; guards do not matter. */
  lemma {:induction false} WhitespaceCleanIff(lines: seq<string>)
    ensures Clean(WhitespaceChecker(), lines) <==> forall k :: 0 <= k < |lines| ==> Trimmed(lines[k])
  {
    forall k | 0 <= k < |lines|
      ensures VisitedAt(WhitespaceChecker(), lines, k) && (WhitespaceOk(lines[k]) <==> Trimmed(lines[k]))
    {
      WhitespaceOkIff(lines[k]);
    }
  }

  // ---------------------------------------------------------------------
  // The fix run
  // ---------------------------------------------------------------------

  /** The passes of check_style_clang_format over a file checked for both, in
      the order of the source: whitespace first, then tabs. */
  method FixBoth(text: string) returns (newText: string, wasCompliant: bool)
    ensures newText == FixedText(TabsChecker(), FixedText(WhitespaceChecker(), text))
    ensures Clean(WhitespaceChecker(), ReadLines(newText)) && Clean(TabsChecker(), ReadLines(newText))
    ensures wasCompliant <==>
      Clean(WhitespaceChecker(), ReadLines(text)) && Clean(TabsChecker(), ReadLines(FixedText(WhitespaceChecker(), text)))
    ensures wasCompliant ==> newText == text
    ensures Tidied(ReadLines(text), ReadLines(newText))
  {
    WhitespaceCheckerSound();
    TabsCheckerSound();
    var afterWhitespace, first := "", false;
    first, afterWhitespace := CheckManually(WhitespaceChecker(), text, true, false);
    var second;
    second, newText := CheckManually(TabsChecker(), afterWhitespace, true, false);
    wasCompliant := first && second;
    BothClean(text);
    FixBothLines(text);
  }

  /** After one fix run both checks pass. */
  lemma BothClean(text: string)
    ensures var fixed := FixedText(TabsChecker(), FixedText(WhitespaceChecker(), text));
      Clean(WhitespaceChecker(), ReadLines(fixed)) && Clean(TabsChecker(), ReadLines(fixed))
  {
    WhitespaceCheckerSound();
    TabsCheckerSound();
    var middle := FixedText(WhitespaceChecker(), text);
    FixIsIdempotent(WhitespaceChecker(), text);
    FixIsIdempotent(TabsChecker(), middle);
    TabsPassKeepsWhitespaceClean(ReadLines(middle));
  }

  lemma TabsPassKeepsWhitespaceClean(lines: seq<string>)
    requires Clean(WhitespaceChecker(), lines)
    ensures Clean(WhitespaceChecker(), FixedLines(TabsChecker(), lines))
  {
    var c, tabs := WhitespaceChecker(), TabsChecker();
    var fixed := FixedLines(tabs, lines);
    forall k | 0 <= k < |fixed| ensures c.ok(fixed[k]) {
      assert VisitedAt(c, lines, k) && c.ok(lines[k]);
      assert fixed[k] == lines[k] || fixed[k] == tabs.fix(lines[k]);
      ExpansionKeepsWhitespaceOk(lines[k]);
    }
  }

  /** Stripping trailing whitespace leaves every line the guard it was, or none. */
  lemma {:induction false} StripOfFixed(line: string)
    ensures RStrip(FixWhitespace(line)) == RStrip(line) && Strip(FixWhitespace(line)) == Strip(line)
  {
    RStripResult(line);
    RStripOf(RStrip(line), "\n");
  }

  lemma {:induction false} WhitespaceFixedLines(lines: seq<string>)
    ensures var fixed := FixedLines(WhitespaceChecker(), lines);
      && (forall k :: 0 <= k < |lines| ==> fixed[k] == RStrip(lines[k]) + "\n" && Strip(fixed[k]) == Strip(lines[k]))
      && (forall k: nat :: InOffRegion(fixed, k) <==> InOffRegion(lines, k))
  {
    var fixed := FixedLines(WhitespaceChecker(), lines);
    forall k | 0 <= k < |lines| ensures fixed[k] == RStrip(lines[k]) + "\n" && Strip(fixed[k]) == Strip(lines[k]) {
      assert VisitedAt(WhitespaceChecker(), lines, k);
      StripOfFixed(lines[k]);
    }
    forall j: nat, k: nat ensures OffUntil(fixed, j, k) <==> OffUntil(lines, j, k) {
    }
  }

  /** Trailing whitespace is gone everywhere, tabs are expanded outside the off
      regions of the original. */
  ghost predicate Tidied(before: seq<string>, after: seq<string>) {
    |after| == |before| && forall k :: 0 <= k < |before| ==>
      after[k] == if InOffRegion(before, k) then RStrip(before[k]) + "\n" else Expand(RStrip(before[k]) + "\n", 0)
  }

  /** What a fix run leaves of each line. */
  lemma {:induction false} FixBothLines(text: string)
    ensures Tidied(ReadLines(text), ReadLines(FixedText(TabsChecker(), FixedText(WhitespaceChecker(), text))))
  {
    var before, middle := ReadLines(text), ReadLines(FixedText(WhitespaceChecker(), text));
    WhitespaceCheckerSound();
    TabsCheckerSound();
    FixIsIdempotent(WhitespaceChecker(), text);
    FixIsIdempotent(TabsChecker(), FixedText(WhitespaceChecker(), text));
    WhitespaceFixedLines(before);
    forall k | 0 <= k < |before|
      ensures FixedLines(TabsChecker(), middle)[k]
        == if InOffRegion(before, k) then RStrip(before[k]) + "\n" else Expand(RStrip(before[k]) + "\n", 0)
    {
      TabsVisitedIff(middle, k);
      ExpandWithoutTabs(middle[k]);
    }
  }

  lemma {:induction false} ExpandWithoutTabs(line: string)
    ensures FixTabs(line) == Expand(line, 0)
  {
    if '\t' !in line {
      ExpandWithoutTab(line, 0);
    }
  }

  /** A second fix run leaves the file as it is. */
  lemma FixBothIsIdempotent(text: string)
    ensures var fixed := FixedText(TabsChecker(), FixedText(WhitespaceChecker(), text));
      FixedText(TabsChecker(), FixedText(WhitespaceChecker(), fixed)) == fixed
  {
    BothClean(text);
  }

  /** The fix can turn an ordinary line into a guard: behind any indentation
      that ends in column 1 modulo the tab size, the comment mark, a tab and the
      rest of a guard are no guard before the fix and a guard after it. */
  lemma {:induction false} FixCanCreateGuard(guard: string, word: string, head: string, tail: string)
    requires guard == "// " + word && word != [] && '\t' !in word && !IsSpace(word[|word| - 1])
    requires AllSpace(head) && AllSpace(tail) && ColumnAfter(head, 0) % TAB_SIZE == 1
    ensures Strip(head + ("//\t" + word) + tail) != guard
    ensures Strip(FixTabs(head + ("//\t" + word) + tail)) == guard
  {
    var core := "//\t" + word;
    var line := head + core + tail;
    StripOf(head, core, tail);
    assert core[2] == '\t' && guard[2] == ' ';
    assert line[|head| + 2] == '\t';
    var column := ColumnAfter(head, 0);
    ExpandConcat(head + core, tail, 0);
    ExpandConcat(head, core, 0);
    ExpandMark(word, column);
    ExpandBlank(head, 0);
    ExpandBlank(tail, ColumnAfter(head + core, 0));
    StripOf(Expand(head, 0), guard, Expand(tail, ColumnAfter(head + core, 0)));
  }

  lemma {:induction false} ExpandCons(c: char, rest: string, column: nat)
    ensures Expand([c] + rest, column) == ExpandChar(c, column) + Expand(rest, NextColumn(c, column))
  {
    assert ([c] + rest)[1..] == rest;
  }

  lemma {:induction false} OneColumnTab(word: string, column: nat)
    requires '\t' !in word && column % TAB_SIZE == 3
    ensures Expand(['\t'] + word, column) == [' '] + word
  {
    ExpandCons('\t', word, column);
    ExpandWithoutTab(word, column + 1);
    assert Spaces(1) == [' '];
  }

  lemma {:induction false} ExpandMark(word: string, column: nat)
    requires '\t' !in word && column % TAB_SIZE == 1
    ensures Expand("//\t" + word, column) == "// " + word
  {
    var tabbed := ['\t'] + word;
    calc {
      Expand("//\t" + word, column);
    == { assert "//\t" + word == ['/'] + (['/'] + tabbed); }
      Expand(['/'] + (['/'] + tabbed), column);
    == { ExpandCons('/', ['/'] + tabbed, column); }
      ['/'] + Expand(['/'] + tabbed, column + 1);
    == { ExpandCons('/', tabbed, column + 1); }
      ['/'] + (['/'] + Expand(tabbed, column + 2));
    == { OneColumnTab(word, column + 2); }
      ['/'] + (['/'] + ([' '] + word));
    == { assert "// " + word == ['/'] + (['/'] + ([' '] + word)); }
      "// " + word;
    }
  }
}
