/**
  Contiguity of arrays of tables (`verify_contiguous_object_arrays`): every
  `[[name]]` header that occurs more than once must occur in one unbroken
  run of header lines. The source keeps a list of the header lines seen so
  far; a repeated `[[...]]` line is accepted only when it is the last entry
  of that list, and is then not appended again.

  `Scan` follows the source loop; `Contiguous` says directly, over the
  header lines of the file, what the loop enforces, and the two are proved
  to agree, down to the header the error names.
 */
module Contiguity {
  import opened Outcomes
  import opened Bytes
  import opened LineScan
  import opened Diagnostics

  /** A table header line: starts with `[` and ends with `]`. */
  predicate IsHeader(line: Bytes) {
    StartsWith(line, [LBRACKET]) && EndsWith(line, [RBRACKET])
  }

  /** An array-of-tables header line: starts with `[[` and ends with `]]`. */
  predicate IsArrayHeader(line: Bytes) {
    StartsWith(line, [LBRACKET, LBRACKET]) && EndsWith(line, [RBRACKET, RBRACKET])
  }

  function Last(s: seq<Bytes>): Bytes
    requires |s| > 0
  {
    s[|s| - 1]
  }

  /** `Iterator::position`: the index of the first element equal to `x`. */
  function Position(s: seq<Bytes>, x: Bytes): (r: Option<nat>)
    ensures r.None? <==> x !in s
    ensures r.Some? ==> r.value < |s| && s[r.value] == x && x !in s[..r.value]
    decreases |s|
  {
    if |s| == 0 then None
    else if s[0] == x then Some(0)
    else
      var r := Position(s[1..], x);
      assert s == [s[0]] + s[1..];
      if r.None? then None
      else
        assert s[..r.value + 1] == [s[0]] + s[1..][..r.value];
        Some(r.value + 1)
  }

  /** The invariant of the seen-list: no `[[...]]` text occurs in it twice.
      Single-bracket headers may repeat. */
  ghost predicate NoRepeatedArrayHeaders(seen: seq<Bytes>) {
    forall i, j | 0 <= i < j < |seen| && seen[i] == seen[j] :: !IsArrayHeader(seen[i])
  }

  datatype Step = Continue(seen: seq<Bytes>) | Violation(header: Bytes, other: Bytes)

  /** One iteration of the loop of src/main.rs:226-260 on a stripped line. */
  function StepLine(seen: seq<Bytes>, line: Bytes): (r: Step)
    ensures NoRepeatedArrayHeaders(seen) && r.Continue? ==> NoRepeatedArrayHeaders(r.seen)
    ensures r.Continue? ==> r.seen == seen || r.seen == seen + [line]
    ensures !IsHeader(line) ==> r == Continue(seen)
    ensures IsHeader(line) && !IsArrayHeader(line) ==> r == Continue(seen + [line])
    ensures IsArrayHeader(line) && line !in seen ==> r == Continue(seen + [line])
    ensures NoRepeatedArrayHeaders(seen) && IsArrayHeader(line) && line in seen ==>
      if line == Last(seen) then r == Continue(seen) else r == Violation(line, Last(seen))
    ensures IsHeader(line) && r.Continue? ==> |r.seen| > 0 && Last(r.seen) == line
  {
    if |line| == 0 || !IsHeader(line) then Continue(seen)
    else if IsArrayHeader(line) && Position(seen, line).Some? then
      var i := Position(seen, line).value;
      assert NoRepeatedArrayHeaders(seen) && seen[i] == seen[|seen| - 1] ==> i == |seen| - 1;
      if i + 1 != |seen| then Violation(line, seen[|seen| - 1])
      else Continue(seen)
    else Continue(seen + [line])
  }

  /** The loop of src/main.rs:226-260 over the remaining stripped lines. */
  function Scan(lines: seq<Bytes>, seen: seq<Bytes>): Outcome<CheckError>
    decreases |lines|
  {
    if |lines| == 0 then Pass
    else match StepLine(seen, lines[0])
      case Violation(header, other) => Fail(SeparatedArray(header, other))
      case Continue(seen') => Scan(lines[1..], seen')
  }

  /** The header lines of a file, in order. */
  function HeaderLines(lines: seq<Bytes>): (hs: seq<Bytes>)
    decreases |lines|
  {
    if |lines| == 0 then []
    else (if IsHeader(lines[0]) then [lines[0]] else []) + HeaderLines(lines[1..])
  }

  /** Every repeated array header forms one unbroken run of header lines. */
  ghost predicate Contiguous(hs: seq<Bytes>) {
    forall i, j, k | 0 <= i < j < k < |hs| && hs[i] == hs[k] && IsArrayHeader(hs[i]) :: hs[j] == hs[i]
  }

  /** Header line `k` repeats an earlier array header, but the header line
      right before it is a different one. */
  ghost predicate ViolationAt(hs: seq<Bytes>, k: int) {
    && 0 < k < |hs|
    && IsArrayHeader(hs[k])
    && hs[k] in hs[..k]
    && hs[k] != hs[k - 1]
  }

  ghost predicate FirstViolationAt(hs: seq<Bytes>, k: int) {
    ViolationAt(hs, k) && forall k' | 0 <= k' < k :: !ViolationAt(hs, k')
  }

  /** A violation breaks a run: the earlier occurrence, the different
      header line before `k`, and `k` itself witness non-contiguity. */
  lemma ViolationBreaksRun(hs: seq<Bytes>, k: int)
    requires ViolationAt(hs, k)
    ensures !Contiguous(hs)
  {
    var i :| 0 <= i < k && hs[..k][i] == hs[k];
    assert hs[i] == hs[k];
    assert i < k - 1;
    assert hs[k - 1] != hs[i];
  }

  /** A broken run has a violation: the first line of the run that
      resumes it. */
  lemma BrokenRunHasViolation(hs: seq<Bytes>)
    requires !Contiguous(hs)
    ensures exists k | 0 <= k < |hs| :: ViolationAt(hs, k)
  {
    var i, j, k :| 0 <= i < j < k < |hs| && hs[i] == hs[k] && IsArrayHeader(hs[i]) && hs[j] != hs[i];
    // walk back from k to the start of its run, which lies after j
    var m := k;
    while m - 1 > j && hs[m - 1] == hs[i]
      invariant j < m <= k
      invariant hs[m] == hs[i]
      decreases m
    {
      m := m - 1;
    }
    assert hs[..m][i] == hs[i];
    assert ViolationAt(hs, m);
  }

  /** A file is contiguous exactly when no header line is a violation. */
  lemma NoViolationIffContiguous(hs: seq<Bytes>)
    ensures (forall k | 0 <= k < |hs| :: !ViolationAt(hs, k)) <==> Contiguous(hs)
  {
    if exists k | 0 <= k < |hs| :: ViolationAt(hs, k) {
      var k :| 0 <= k < |hs| && ViolationAt(hs, k);
      ViolationBreaksRun(hs, k);
    }
    if !Contiguous(hs) {
      BrokenRunHasViolation(hs);
    }
  }

  /** The seen-list after some header lines `done`: it holds exactly their
      texts, ends with the latest of them, and keeps the invariant. */
  ghost predicate SeenMatches(seen: seq<Bytes>, done: seq<Bytes>) {
    && NoRepeatedArrayHeaders(seen)
    && (forall x :: x in seen <==> x in done)
    && (|done| > 0 ==> |seen| > 0 && Last(seen) == Last(done))
  }

  ghost predicate NoViolationIn(hs: seq<Bytes>, lo: int, hi: int) {
    forall k | lo <= k < hi :: !ViolationAt(hs, k)
  }

  /** `k` is the first violation at or after header line `lo`, and the loop
      reports it as `e`. */
  ghost predicate ReportsViolationFrom(hs: seq<Bytes>, lo: int, e: CheckError) {
    exists k | lo <= k < |hs| ::
      && ViolationAt(hs, k)
      && NoViolationIn(hs, lo, k)
      && e == SeparatedArray(hs[k], hs[k - 1])
  }

  /** A header line reached by the loop with the seen-list matching the
      header lines before it: the step rejects it exactly when it is a
      violation, names the previous header line, and otherwise keeps the
      seen-list matching. */
  lemma HeaderStep(seen: seq<Bytes>, done: seq<Bytes>, line: Bytes, tail: seq<Bytes>)
    requires SeenMatches(seen, done)
    requires IsHeader(line)
    ensures var hs := done + [line] + tail;
      && (StepLine(seen, line).Violation? <==> ViolationAt(hs, |done|))
      && (StepLine(seen, line).Violation? ==> StepLine(seen, line) == Violation(hs[|done|], hs[|done| - 1]))
      && (StepLine(seen, line).Continue? ==> SeenMatches(StepLine(seen, line).seen, done + [line]))
  {
    var hs := done + [line] + tail;
    assert hs[..|done|] == done;
    assert hs[|done|] == line;
    assert |done| > 0 ==> hs[|done| - 1] == Last(done);
    var r := StepLine(seen, line);
    if r.Continue? {
      var seen' := r.seen;
      assert forall x :: x in seen' <==> x in done + [line];
    }
  }

  lemma ReportsViolationExtend(hs: seq<Bytes>, lo: int, e: CheckError)
    requires 0 <= lo < |hs| && !ViolationAt(hs, lo)
    requires ReportsViolationFrom(hs, lo + 1, e)
    ensures ReportsViolationFrom(hs, lo, e)
  {
    var k :| lo + 1 <= k < |hs| && ViolationAt(hs, k) && NoViolationIn(hs, lo + 1, k)
      && e == SeparatedArray(hs[k], hs[k - 1]);
    assert NoViolationIn(hs, lo, k);
  }

  lemma StopsAtViolation(hs: seq<Bytes>, lo: int)
    requires 0 <= lo < |hs| && ViolationAt(hs, lo)
    ensures !NoViolationIn(hs, lo, |hs|)
    ensures ReportsViolationFrom(hs, lo, SeparatedArray(hs[lo], hs[lo - 1]))
  {
    assert NoViolationIn(hs, lo, lo);
  }

  lemma PassesOverNonViolation(hs: seq<Bytes>, lo: int)
    requires 0 <= lo < |hs| && !ViolationAt(hs, lo)
    ensures NoViolationIn(hs, lo, |hs|) <==> NoViolationIn(hs, lo + 1, |hs|)
  {
  }

  /** What the loop does from a seen-list matching the header lines `done`:
      it passes iff no header line still to come is a violation, and
      otherwise reports the first of them. */
  ghost predicate ScanAgrees(lines: seq<Bytes>, seen: seq<Bytes>, done: seq<Bytes>) {
    var hs := done + HeaderLines(lines);
    && (Scan(lines, seen).Pass? <==> NoViolationIn(hs, |done|, |hs|))
    && (Scan(lines, seen).Fail? ==> ReportsViolationFrom(hs, |done|, Scan(lines, seen).error))
  }

  /** A header line the loop accepts: the verdict is the verdict on the rest. */
  lemma AcceptedHeader(lines: seq<Bytes>, seen: seq<Bytes>, done: seq<Bytes>)
    requires SeenMatches(seen, done)
    requires |lines| > 0 && IsHeader(lines[0]) && StepLine(seen, lines[0]).Continue?
    requires ScanAgrees(lines[1..], StepLine(seen, lines[0]).seen, done + [lines[0]])
    ensures ScanAgrees(lines, seen, done)
  {
    var line := lines[0];
    var tail := HeaderLines(lines[1..]);
    var hs := done + HeaderLines(lines);
    assert hs == done + [line] + tail == (done + [line]) + tail;
    HeaderStep(seen, done, line, tail);
    var r := StepLine(seen, line);
    PassesOverNonViolation(hs, |done|);
    if Scan(lines[1..], r.seen).Fail? {
      ReportsViolationExtend(hs, |done|, Scan(lines[1..], r.seen).error);
    }
  }

  /** A header line the loop rejects is the first violation to come. */
  lemma RejectedHeader(lines: seq<Bytes>, seen: seq<Bytes>, done: seq<Bytes>)
    requires SeenMatches(seen, done)
    requires |lines| > 0 && IsHeader(lines[0]) && StepLine(seen, lines[0]).Violation?
    ensures ScanAgrees(lines, seen, done)
  {
    var line := lines[0];
    var tail := HeaderLines(lines[1..]);
    var hs := done + HeaderLines(lines);
    assert hs == done + [line] + tail;
    HeaderStep(seen, done, line, tail);
    StopsAtViolation(hs, |done|);
  }

  /** The loop stops at the first violation among the header lines still to
      come, and names the header line just before it as the evidence. */
  lemma {:induction false} ScanFindsFirstViolation(lines: seq<Bytes>, seen: seq<Bytes>, done: seq<Bytes>)
    requires SeenMatches(seen, done)
    ensures ScanAgrees(lines, seen, done)
    decreases |lines|
  {
    if |lines| == 0 {
      assert done + HeaderLines(lines) == done;
    } else if !IsHeader(lines[0]) {
      assert HeaderLines(lines) == HeaderLines(lines[1..]);
      ScanFindsFirstViolation(lines[1..], seen, done);
    } else if StepLine(seen, lines[0]).Violation? {
      RejectedHeader(lines, seen, done);
    } else {
      HeaderStep(seen, done, lines[0], HeaderLines(lines[1..]));
      ScanFindsFirstViolation(lines[1..], StepLine(seen, lines[0]).seen, done + [lines[0]]);
      AcceptedHeader(lines, seen, done);
    }
  }

  /** `ScanAgrees` from the start of the file, with nothing seen yet. */
  lemma ScanAgreesFromStart(lines: seq<Bytes>)
    ensures var hs := HeaderLines(lines);
      && (Scan(lines, []).Pass? <==> NoViolationIn(hs, 0, |hs|))
      && (Scan(lines, []).Fail? ==> ReportsViolationFrom(hs, 0, Scan(lines, []).error))
  {
    var hs := HeaderLines(lines);
    ScanFindsFirstViolation(lines, [], []);
    assert [] + hs == hs;
  }

  /** From an empty seen-list the loop passes exactly on contiguous files. */
  lemma ScanPassesIffContiguous(lines: seq<Bytes>)
    ensures Scan(lines, []).Pass? <==> Contiguous(HeaderLines(lines))
  {
    ScanAgreesFromStart(lines);
    NoViolationIffContiguous(HeaderLines(lines));
  }

  /** A violation reported from the first header line on is the first
      violation of the file. */
  lemma ReportedFromStartIsFirst(hs: seq<Bytes>, e: CheckError)
    requires ReportsViolationFrom(hs, 0, e)
    ensures exists k :: FirstViolationAt(hs, k) && e == SeparatedArray(hs[k], hs[k - 1])
  {
    var k :| 0 <= k < |hs| && ViolationAt(hs, k) && NoViolationIn(hs, 0, k)
      && e == SeparatedArray(hs[k], hs[k - 1]);
    assert FirstViolationAt(hs, k);
  }

  /** From an empty seen-list a failure names the first violation. */
  lemma ScanFailsAtFirstViolation(lines: seq<Bytes>)
    requires Scan(lines, []).Fail?
    ensures var hs := HeaderLines(lines);
      exists k :: FirstViolationAt(hs, k) && Scan(lines, []).error == SeparatedArray(hs[k], hs[k - 1])
  {
    ScanAgreesFromStart(lines);
    ReportedFromStartIsFirst(HeaderLines(lines), Scan(lines, []).error);
  }

  /** `verify_contiguous_object_arrays`: passes iff the file's header lines
      are contiguous; otherwise names the first repeated array header that
      breaks a run, with the header line just before it as the evidence. */
  function VerifyContiguousObjectArrays(data: Bytes): (r: Outcome<CheckError>)
    ensures var hs := HeaderLines(Lines(data));
      && (r.Pass? <==> Contiguous(hs))
      && (r.Fail? ==> exists k :: FirstViolationAt(hs, k) && r.error == SeparatedArray(hs[k], hs[k - 1]))
  {
    var r := Scan(Lines(data), []);
    ScanPassesIffContiguous(Lines(data));
    if r.Fail? then
      ScanFailsAtFirstViolation(Lines(data));
      r
    else r
  }
}
