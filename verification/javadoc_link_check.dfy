/** `io.spine.tools.codestyle.javadoc.JavadocLinkCheck`: the code-style check that flags
    Javadoc links written with a class name that is not fully qualified.

    The link pattern (`JavadocPattern.LINK`) is a parameter: a function giving the first
    match of the pattern in a line, if any. `AbstractJavaStyleCheck`, which counts the
    violations of all checked files, and the report type, which logs or fails, are not part
    of this model beyond the decision they take. */
module JavadocLinkChecks {
  import opened Wrappers
  import opened Strs

  /** A `CodeStyleViolation`: the offending text and its 1-based line number. */
  datatype Violation = Violation(codeLine: string, lineNumber: int)

  /** `checkSingleComment(line)`: the first match of the pattern in the line, if any. */
  function CheckSingleComment(find: string -> Option<string>, line: string): (r: Option<Violation>)
    ensures r.Some? <==> find(line).Some?
    ensures r.Some? ==> r.value.codeLine == find(line).value
  {
    match find(line)
    case None => None
    case Some(m) => Some(Violation(m, 0))
  }

  /** The violations of the first `n` lines: the reference description of the scan. */
  function ViolationsOf(find: string -> Option<string>, lines: seq<string>, n: nat): (r: seq<Violation>)
    requires n <= |lines|
    ensures |r| <= n
  {
    if n == 0 then []
    else
      ViolationsOf(find, lines, n - 1)
      + (match find(lines[n - 1]) case None => [] case Some(m) => [Violation(m, n)])
  }

  /** The violations of the first `n` lines are numbered within them, in ascending order,
      each carrying the match of its line. */
  lemma {:induction false} ViolationsOfSound(find: string -> Option<string>, lines: seq<string>, n: nat)
    requires n <= |lines|
    ensures forall v :: v in ViolationsOf(find, lines, n) ==>
      1 <= v.lineNumber <= n && find(lines[v.lineNumber - 1]) == Some(v.codeLine)
    ensures Ascending(ViolationsOf(find, lines, n))
  {
    if n > 0 {
      ViolationsOfSound(find, lines, n - 1);
      var prev := ViolationsOf(find, lines, n - 1);
      if find(lines[n - 1]).Some? {
        var v := Violation(find(lines[n - 1]).value, n);
        assert ViolationsOf(find, lines, n) == prev + [v];
        AscendingSnoc(prev, v);
      } else {
        assert ViolationsOf(find, lines, n) == prev + [];
      }
    }
  }

  /** Every line of the first `n` where the pattern matches has a violation. */
  lemma {:induction false} ViolationsOfComplete(find: string -> Option<string>, lines: seq<string>, n: nat)
    requires n <= |lines|
    ensures forall i :: 0 <= i < n && find(lines[i]).Some? ==> Flagged(ViolationsOf(find, lines, n), i + 1)
  {
    if n > 0 {
      ViolationsOfComplete(find, lines, n - 1);
      var prev := ViolationsOf(find, lines, n - 1);
      var r := ViolationsOf(find, lines, n);
      var tail := match find(lines[n - 1]) case None => [] case Some(m) => [Violation(m, n)];
      assert r == prev + tail;
      forall i | 0 <= i < n && find(lines[i]).Some? ensures Flagged(r, i + 1) {
        if i < n - 1 {
          assert Flagged(prev, i + 1);
          var k :| 0 <= k < |prev| && prev[k].lineNumber == i + 1;
          assert r[k] == prev[k];
        } else {
          assert r[|r| - 1] == Violation(find(lines[n - 1]).value, n);
        }
      }
    }
  }

  lemma AscendingSnoc(prev: seq<Violation>, v: Violation)
    requires Ascending(prev)
    requires forall w :: w in prev ==> w.lineNumber < v.lineNumber
    ensures Ascending(prev + [v])
  {
    var r := prev + [v];
    forall j, k | 0 <= j < k < |r| ensures r[j].lineNumber < r[k].lineNumber {
      assert r[j] == prev[j];
      if k < |prev| {
        assert r[k] == prev[k];
      }
    }
  }

  /** Line numbers strictly increase along the violations. */
  predicate Ascending(r: seq<Violation>) {
    forall j, k :: 0 <= j < k < |r| ==> r[j].lineNumber < r[k].lineNumber
  }

  /** Some violation is on line `lineNumber`. */
  predicate Flagged(r: seq<Violation>, lineNumber: int) {
    exists k :: 0 <= k < |r| && r[k].lineNumber == lineNumber
  }

  /** `findViolations(lines)`: at most one violation per line, numbered from 1, in line
      order. */
  method FindViolations(find: string -> Option<string>, lines: seq<string>) returns (r: seq<Violation>)
    ensures r == ViolationsOf(find, lines, |lines|)
    ensures |r| <= |lines|
    ensures forall v :: v in r ==> 1 <= v.lineNumber <= |lines| && find(lines[v.lineNumber - 1]) == Some(v.codeLine)
    ensures Ascending(r)
    ensures forall i :: 0 <= i < |lines| && find(lines[i]).Some? ==> Flagged(r, i + 1)
  {
    var lineNumber := 0;
    r := [];
    for i := 0 to |lines|
      invariant lineNumber == i
      invariant r == ViolationsOf(find, lines, i)
    {
      var result := CheckSingleComment(find, lines[i]);
      lineNumber := lineNumber + 1;
      if result.Some? {
        r := r + [result.value.(lineNumber := lineNumber)];
      }
    }
    ViolationsOfSound(find, lines, |lines|);
    ViolationsOfComplete(find, lines, |lines|);
  }

  /** The report type of the check's configuration. */
  datatype ReportType = Warn | Error

  /** What `processResult` does. */
  datatype Outcome =
    | Silent
    | ReportedAndLogged(violations: seq<Violation>)
    | ReportedAndFailed(violations: seq<Violation>)

  /** `processResult()`: report the violations, then log or fail, only when their number
      exceeds the threshold. A file without a matching link is never reported, and with a
      zero threshold the first match is. */
  function ProcessResult(violations: seq<Violation>, threshold: int, reportType: ReportType): (r: Outcome)
    ensures r.Silent? <==> |violations| <= threshold
    ensures !r.Silent? ==> r.violations == violations
    ensures r.ReportedAndFailed? <==> |violations| > threshold && reportType == Error
  {
    if |violations| > threshold then
      match reportType
      case Warn => ReportedAndLogged(violations)
      case Error => ReportedAndFailed(violations)
    else Silent
  }

  /** The part of the logged message before the line number. */
  function ViolationPrefix(v: Violation): string {
    " Wrong link format found: " + v.codeLine + " on "
  }

  /** The part of the logged message after the line number. */
  function ViolationSuffix(file: string): string {
    " line in " + file
  }

  /** `onViolation(file, v)`: the logged message names the link, then the line number in
      decimal, then the file. */
  function OnViolation(file: string, v: Violation): (r: string)
    ensures |r| >= |ViolationPrefix(v)| + |ViolationSuffix(file)|
    ensures StartsWith(r, ViolationPrefix(v))
    ensures EndsWith(r, ViolationSuffix(file))
    ensures r[|ViolationPrefix(v)|..|r| - |ViolationSuffix(file)|] == IntToString(v.lineNumber)
  {
    var prefix := ViolationPrefix(v);
    var suffix := ViolationSuffix(file);
    var r := prefix + IntToString(v.lineNumber) + suffix;
    assert r[..|prefix|] == prefix;
    assert r[|r| - |suffix|..] == suffix;
    assert r[|prefix|..|r| - |suffix|] == IntToString(v.lineNumber);
    r
  }

  /** Two violations of the same link in the same file give the same message only when
      they are on the same line: the message identifies the line. */
  lemma OnViolationNamesLine(file: string, v: Violation, w: Violation)
    requires v.codeLine == w.codeLine
    ensures OnViolation(file, v) == OnViolation(file, w) <==> v.lineNumber == w.lineNumber
  {
  }
}
