/** check_manually_file of check-style-clang-format.py: one pass over the lines
    of a file with a given line check, respecting (or not) the clang-format
    guards. */
module GuardedPass {
  import opened Text

  datatype Guard = On | Off | NoGuard

  /** A line check: which lines are guards, the fixed form of a line, and
      whether a line is compliant. */
  datatype Checker = Checker(respect: bool, guardOf: string -> Guard, fix: string -> string, ok: string -> bool)

  /** What every line check of the script satisfies. */
  ghost predicate Sound(c: Checker) {
    && (forall line :: c.ok(c.fix(line)))
    && (forall line :: c.ok(line) <==> c.fix(line) == line)
    && (forall line :: c.respect && !c.guardOf(line).NoGuard? ==> c.guardOf(c.fix(line)) == c.guardOf(line))
    && (forall line :: IsLine(line) ==> IsLine(c.fix(line)))
    && (forall line :: Terminated(line) ==> Terminated(c.fix(line)))
  }

  function NextEnabled(enabled: bool, guard: Guard): bool {
    guard.On? || (enabled && !guard.Off?)
  }

  /** The guard state after all the lines. */
  function EnabledAfter(c: Checker, lines: seq<string>): bool {
    lines == [] || NextEnabled(EnabledAfter(c, lines[..|lines| - 1]), c.guardOf(lines[|lines| - 1]))
  }

  /** The pass looks at line k: guard lines themselves are always looked at. */
  predicate VisitedAt(c: Checker, lines: seq<string>, k: nat)
    requires k < |lines|
  {
    !c.respect || EnabledAfter(c, lines[..k + 1]) || !c.guardOf(lines[k]).NoGuard?
  }

  ghost predicate Clean(c: Checker, lines: seq<string>) {
    forall k :: 0 <= k < |lines| && VisitedAt(c, lines, k) ==> c.ok(lines[k])
  }

  ghost function FixedLines(c: Checker, lines: seq<string>): (r: seq<string>)
    ensures |r| == |lines|
  {
    seq(|lines|, k requires 0 <= k < |lines| => if VisitedAt(c, lines, k) then c.fix(lines[k]) else lines[k])
  }

  /** The content of the file after a fix run: it is rewritten only when the
      check found something. */
  ghost function FixedText(c: Checker, text: string): string {
    var lines := ReadLines(text);
    if Clean(c, lines) then text else WriteLines(FixedLines(c, lines))
  }

  /** The guard at position k is off and no later one turns the checks on again. */
  ghost predicate OffSince(c: Checker, lines: seq<string>, k: nat) {
    k < |lines| && c.guardOf(lines[k]).Off? && forall j :: k < j < |lines| ==> !c.guardOf(lines[j]).On?
  }

  /** The guard state in terms of the guard lines alone. */
  lemma {:induction false} DisabledIffOffSince(c: Checker, lines: seq<string>)
    ensures !EnabledAfter(c, lines) <==> exists k :: OffSince(c, lines, k)
  {
    if lines != [] {
      var n := |lines| - 1;
      var front := lines[..n];
      DisabledIffOffSince(c, front);
      assert forall k :: 0 <= k < n ==> front[k] == lines[k];
      match c.guardOf(lines[n])
      case On =>
      case Off => assert OffSince(c, lines, n);
      case NoGuard =>
        forall k: nat ensures OffSince(c, lines, k) <==> OffSince(c, front, k) {
          assert forall j :: k < j < |lines| ==> j == n || lines[j] == front[j];
        }
    }
  }

  /** The off guard at line j is still in force at line k. */
  ghost predicate OffUpTo(c: Checker, lines: seq<string>, j: nat, k: nat) {
    j <= k < |lines| && c.guardOf(lines[j]).Off? && forall i :: j < i <= k ==> !c.guardOf(lines[i]).On?
  }

  lemma {:induction false} VisitedIff(c: Checker, lines: seq<string>, k: nat)
    requires k < |lines|
    ensures VisitedAt(c, lines, k) <==>
      !c.respect || !c.guardOf(lines[k]).NoGuard? || forall j :: 0 <= j <= k ==> !OffUpTo(c, lines, j, k)
  {
    var upTo := lines[..k + 1];
    DisabledIffOffSince(c, upTo);
    forall j | 0 <= j <= k ensures OffSince(c, upTo, j) <==> OffUpTo(c, lines, j, k) {
      assert forall i :: 0 <= i <= k ==> upTo[i] == lines[i];
    }
  }

  /** A file is not compliant exactly when some line is not, and that line is a
      guard, or no off guard is in force there, or guards do not count. */
  lemma {:induction false} NotCleanIff(c: Checker, lines: seq<string>)
    ensures !Clean(c, lines) <==>
      exists k :: && 0 <= k < |lines| && !c.ok(lines[k])
                  && (|| !c.respect || !c.guardOf(lines[k]).NoGuard?
                      || forall j :: 0 <= j <= k ==> !OffUpTo(c, lines, j, k))
  {
    forall k | 0 <= k < |lines|
      ensures VisitedAt(c, lines, k) <==>
        !c.respect || !c.guardOf(lines[k]).NoGuard? || forall j :: 0 <= j <= k ==> !OffUpTo(c, lines, j, k)
    {
      VisitedIff(c, lines, k);
    }
  }

  /** Exactly such lines are fixed. */
  lemma {:induction false} FixedLineIs(c: Checker, lines: seq<string>, k: nat)
    requires k < |lines|
    ensures FixedLines(c, lines)[k] ==
      if || !c.respect || !c.guardOf(lines[k]).NoGuard?
         || forall j :: 0 <= j <= k ==> !OffUpTo(c, lines, j, k)
      then c.fix(lines[k]) else lines[k]
  {
    VisitedIff(c, lines, k);
  }

  // ---------------------------------------------------------------------
  // The pass
  // ---------------------------------------------------------------------

  /** In check mode without verbosity the loop stops at the first finding; the
      verdict depends on neither flag. */
  method CheckManually(c: Checker, text: string, fix: bool, verbose: bool)
    returns (compliant: bool, newText: string)
    requires Sound(c)
    ensures compliant <==> Clean(c, ReadLines(text))
    ensures !compliant <==>
      exists k :: && 0 <= k < |ReadLines(text)| && !c.ok(ReadLines(text)[k])
                  && (|| !c.respect || !c.guardOf(ReadLines(text)[k]).NoGuard?
                      || forall j :: 0 <= j <= k ==> !OffUpTo(c, ReadLines(text), j, k))
    ensures newText == if fix then FixedText(c, text) else text
  {
    var lines := ReadLines(text);
    var fixedLines;
    compliant, fixedLines := CheckLines(c, lines, fix, verbose);
    NotCleanIff(c, lines);
    newText := text;
    if fix && !compliant {
      newText := WriteLines(fixedLines);
    }
  }

  method CheckLines(c: Checker, original: seq<string>, fix: bool, verbose: bool)
    returns (compliant: bool, lines: seq<string>)
    requires Sound(c)
    ensures compliant <==> Clean(c, original)
    ensures fix ==> lines == FixedLines(c, original)
  {
    compliant, lines := true, original;
    var enabled := true;
    for i := 0 to |original|
      invariant |lines| == |original|
      invariant c.respect ==> enabled == EnabledAfter(c, original[..i])
      invariant forall k :: i <= k < |original| ==> lines[k] == original[k]
      invariant forall k :: 0 <= k < i ==> lines[k] == FixedLines(c, original)[k]
      invariant compliant <==> forall k :: 0 <= k < i && VisitedAt(c, original, k) ==> c.ok(original[k])
    {
      var line := original[i];
      assert original[..i + 1][..i] == original[..i];
      var guard := c.guardOf(line);
      if c.respect {
        if guard.On? {
          enabled := true;
        } else if guard.Off? {
          enabled := false;
        }
        if !enabled && guard.NoGuard? { continue; }
      }
      assert VisitedAt(c, original, i);
      if !c.ok(line) {
        compliant := false;
        lines := lines[i := c.fix(line)];
        if !fix && !verbose { return; }
      }
    }
  }

  // ---------------------------------------------------------------------
  // A second pass finds nothing
  // ---------------------------------------------------------------------

  lemma FixedPrefix(c: Checker, lines: seq<string>, n: nat)
    requires n <= |lines|
    ensures FixedLines(c, lines)[..n] == FixedLines(c, lines[..n])
  {
    forall k | 0 <= k < n ensures VisitedAt(c, lines[..n], k) <==> VisitedAt(c, lines, k) {
      assert lines[..n][..k + 1] == lines[..k + 1];
    }
  }

  /** The simulation: wherever the second pass is enabled, the first was.  The
      fix may turn an ordinary line into a guard, but only where the first
      pass was enabled. */
  lemma {:induction false} EnabledTwiceMeansOnce(c: Checker, lines: seq<string>)
    requires Sound(c) && c.respect
    ensures EnabledAfter(c, FixedLines(c, lines)) ==> EnabledAfter(c, lines)
  {
    if lines != [] {
      var n := |lines| - 1;
      var twice := FixedLines(c, lines);
      EnabledTwiceMeansOnce(c, lines[..n]);
      FixedPrefix(c, lines, n);
      assert twice[..n] == FixedLines(c, lines[..n]);
      assert lines[..n + 1] == lines;
    }
  }

  lemma FixedLinesAreClean(c: Checker, lines: seq<string>)
    requires Sound(c)
    ensures Clean(c, FixedLines(c, lines))
  {
    var twice := FixedLines(c, lines);
    forall k | 0 <= k < |twice| && VisitedAt(c, twice, k) ensures c.ok(twice[k]) {
      if !VisitedAt(c, lines, k) {
        FixedPrefix(c, lines, k + 1);
        EnabledTwiceMeansOnce(c, lines[..k + 1]);
      }
    }
  }

  lemma FixedLinesAreLines(c: Checker, lines: seq<string>)
    requires Sound(c) && AreLines(lines)
    ensures AreLines(FixedLines(c, lines))
  {
  }

  /** After a fix run the file passes the check, a second run changes nothing,
      and the lines read back are the old ones, changed only where visited. */
  lemma FixIsIdempotent(c: Checker, text: string)
    requires Sound(c)
    ensures Clean(c, ReadLines(FixedText(c, text)))
    ensures FixedText(c, FixedText(c, text)) == FixedText(c, text)
    ensures ReadLines(FixedText(c, text)) == FixedLines(c, ReadLines(text))
  {
    var lines := ReadLines(text);
    ReadLinesAreLines(text);
    if Clean(c, lines) {
      assert FixedLines(c, lines) == lines;
    } else {
      FixedLinesAreLines(c, lines);
      ReadOfWrite(FixedLines(c, lines));
      FixedLinesAreClean(c, lines);
    }
  }
}
