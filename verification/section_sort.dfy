/**
  Section-mode dependency ordering (`verify_section_sorted`): a scan of the
  raw text that finds the first line starting with a section header, reads
  the entry lines up to the next line starting with `[`, and requires their
  keys never to decrease. Blank lines and `#` comments are skipped without
  forgetting the previous key.

  `Scan` follows the source loop line by line; `SectionKeys` is an
  independent description of the keys it compares (find the section, cut
  its body, keep the entry lines), and the two are proved to agree.
 */
module SectionSort {
  import opened Outcomes
  import opened Bytes
  import opened Order
  import opened LineScan
  import opened Diagnostics

  /** A (stripped) line that starts with `[`: any table header. */
  predicate IsBracketLine(line: Bytes) {
    StartsWith(line, [LBRACKET])
  }

  predicate IsCommentLine(line: Bytes) {
    StartsWith(line, [HASH])
  }

  /** The line opens the section. This is a prefix test, so with the header
      `[dependencies]` the line `[dependencies]#note` opens it too. */
  predicate Opens(line: Bytes, header: Bytes) {
    |line| > 0 && StartsWith(line, header)
  }

  /** A line inside the section that carries a key. */
  predicate IsEntry(line: Bytes) {
    |line| > 0 && !IsCommentLine(line)
  }

  /** The loop of src/main.rs:153-189 over the stripped lines, with its two
      pieces of state: whether the section has been entered, and the key of
      the previous entry line. */
  function Scan(lines: seq<Bytes>, header: Bytes, inSection: bool, prev: Option<Bytes>): Outcome<Inversion>
    decreases |lines|
  {
    if |lines| == 0 then Pass
    else
      var line := lines[0];
      if |line| == 0 then Scan(lines[1..], header, inSection, prev)
      else if inSection then
        if IsBracketLine(line) then Pass
        else if IsCommentLine(line) then Scan(lines[1..], header, inSection, prev)
        else
          var key := KeyOf(line);
          if prev.Some? && !LexLe(prev.value, key) then Fail(Inversion(key, prev.value))
          else Scan(lines[1..], header, inSection, Some(key))
      else Scan(lines[1..], header, StartsWith(line, header), prev)
  }

  /** The lines after the first line that opens the section, if one does. */
  function AfterOpening(lines: seq<Bytes>, header: Bytes): Option<seq<Bytes>>
    decreases |lines|
  {
    if |lines| == 0 then None
    else if Opens(lines[0], header) then Some(lines[1..])
    else AfterOpening(lines[1..], header)
  }

  /** `AfterOpening` finds the first opening line: nothing when no line
      opens the section, otherwise exactly the lines after the first one that
      does. */
  lemma {:induction false} AfterOpeningIsFirstOpening(lines: seq<Bytes>, header: Bytes)
    ensures AfterOpening(lines, header).None? <==> forall i | 0 <= i < |lines| :: !Opens(lines[i], header)
    ensures AfterOpening(lines, header).Some? ==> exists i | 0 <= i < |lines| ::
      && Opens(lines[i], header)
      && (forall j | 0 <= j < i :: !Opens(lines[j], header))
      && AfterOpening(lines, header).value == lines[i + 1..]
    decreases |lines|
  {
    if |lines| > 0 && !Opens(lines[0], header) {
      AfterOpeningIsFirstOpening(lines[1..], header);
      assert forall j | 1 <= j < |lines| :: lines[j] == lines[1..][j - 1];
      if AfterOpening(lines[1..], header).Some? {
        var i :| 0 <= i < |lines| - 1
          && Opens(lines[1..][i], header)
          && (forall j | 0 <= j < i :: !Opens(lines[1..][j], header))
          && AfterOpening(lines[1..], header).value == lines[1..][i + 1..];
        assert lines[1..][i + 1..] == lines[i + 2..];
        assert Opens(lines[i + 1], header);
      }
    }
  }

  /** The body of the section: the lines before the next bracket line. */
  function Body(lines: seq<Bytes>): (body: seq<Bytes>)
    ensures |body| <= |lines|
    decreases |lines|
  {
    if |lines| == 0 || IsBracketLine(lines[0]) then []
    else [lines[0]] + Body(lines[1..])
  }

  /** `Body` is the longest prefix without a bracket line: it stops right
      before the first one, or runs to the end. */
  lemma {:induction false} BodyIsUpToFirstBracket(lines: seq<Bytes>)
    ensures Body(lines) <= lines
    ensures forall i | 0 <= i < |Body(lines)| :: !IsBracketLine(lines[i])
    ensures |Body(lines)| < |lines| ==> IsBracketLine(lines[|Body(lines)|])
    decreases |lines|
  {
    if |lines| > 0 && !IsBracketLine(lines[0]) {
      BodyIsUpToFirstBracket(lines[1..]);
      assert lines == [lines[0]] + lines[1..];
    }
  }

  /** The keys of the entry lines, in order. */
  function EntryKeys(lines: seq<Bytes>): (keys: seq<Bytes>)
    ensures |keys| <= |lines|
    decreases |lines|
  {
    if |lines| == 0 then []
    else (if IsEntry(lines[0]) then [KeyOf(lines[0])] else []) + EntryKeys(lines[1..])
  }

  /** The keys the section check compares: those of the entry lines between
      the opening line and the next bracket line; none without a section. */
  function SectionKeys(lines: seq<Bytes>, header: Bytes): seq<Bytes> {
    match AfterOpening(lines, header)
    case None => []
    case Some(rest) => EntryKeys(Body(rest))
  }

  /** Once inside the section, the scan is the sorted-key loop run on the
      body's entry keys. */
  lemma {:induction false} InSectionScan(lines: seq<Bytes>, header: Bytes, prev: Option<Bytes>)
    ensures Scan(lines, header, true, prev) == ScanSorted(EntryKeys(Body(lines)), prev)
    decreases |lines|
  {
    if |lines| > 0 {
      var line := lines[0];
      var rest := EntryKeys(Body(lines[1..]));
      if |line| == 0 || (IsCommentLine(line) && !IsBracketLine(line)) {
        InSectionScan(lines[1..], header, prev);
        assert EntryKeys(Body(lines)) == rest by {
          assert Body(lines)[1..] == Body(lines[1..]);
        }
      } else if !IsBracketLine(line) {
        var key := KeyOf(line);
        assert EntryKeys(Body(lines)) == [key] + rest by {
          assert Body(lines)[1..] == Body(lines[1..]);
        }
        assert ([key] + rest)[1..] == rest;
        InSectionScan(lines[1..], header, Some(key));
      }
    }
  }

  /** Outside the section, the scan only looks for the opening line. */
  lemma {:induction false} OutsideScan(lines: seq<Bytes>, header: Bytes)
    ensures Scan(lines, header, false, None) ==
      match AfterOpening(lines, header)
      case None => Pass
      case Some(rest) => Scan(rest, header, true, None)
    decreases |lines|
  {
    if |lines| > 0 && !Opens(lines[0], header) {
      OutsideScan(lines[1..], header);
    }
  }

  /** The line scan compares exactly the section keys. */
  lemma SectionScanIsSortedScan(lines: seq<Bytes>, header: Bytes)
    ensures Scan(lines, header, false, None) == ScanSorted(SectionKeys(lines, header), None)
  {
    OutsideScan(lines, header);
    var r := AfterOpening(lines, header);
    if r.Some? {
      InSectionScan(r.value, header, None);
    }
  }

  /** `verify_section_sorted`: passes iff the section's keys are sorted, and
      otherwise names the first key smaller than its predecessor. A file
      without the section passes. */
  function VerifySectionSorted(data: Bytes, header: Bytes): (r: Outcome<CheckError>)
    ensures var keys := SectionKeys(Lines(data), header);
      && (r.Pass? <==> Sorted(keys))
      && (r.Fail? ==> r.error.Unsorted? && ReportsFirstInversion(keys, Inversion(r.error.key, r.error.prev)))
    ensures AfterOpening(Lines(data), header).None? ==> r == Pass
  {
    var lines := Lines(data);
    SectionScanIsSortedScan(lines, header);
    AdjacentSortedIffSorted(SectionKeys(lines, header));
    match Scan(lines, header, false, None)
    case Pass => Pass
    case Fail(inv) => Fail(Unsorted(inv.key, inv.prev))
  }

  /** Equal section keys give equal verdicts. */
  lemma SameKeysSameVerdict(d1: Bytes, d2: Bytes, header: Bytes)
    requires SectionKeys(Lines(d1), header) == SectionKeys(Lines(d2), header)
    ensures VerifySectionSorted(d1, header) == VerifySectionSorted(d2, header)
  {
    SectionScanIsSortedScan(Lines(d1), header);
    SectionScanIsSortedScan(Lines(d2), header);
  }

  lemma {:induction false} AfterOpeningAppend(pre: seq<Bytes>, post: seq<Bytes>, header: Bytes)
    ensures AfterOpening(pre + post, header) ==
      match AfterOpening(pre, header)
      case Some(rest) => Some(rest + post)
      case None => AfterOpening(post, header)
    decreases |pre|
  {
    if |pre| == 0 {
      assert pre + post == post;
    } else {
      assert (pre + post)[0] == pre[0];
      assert (pre + post)[1..] == pre[1..] + post;
      if !Opens(pre[0], header) {
        AfterOpeningAppend(pre[1..], post, header);
      }
    }
  }

  lemma {:induction false} BodyAppend(pre: seq<Bytes>, post: seq<Bytes>)
    ensures Body(pre + post) == if |Body(pre)| < |pre| then Body(pre) else pre + Body(post)
    decreases |pre|
  {
    if |pre| == 0 {
      assert pre + post == post;
    } else {
      assert (pre + post)[0] == pre[0];
      assert (pre + post)[1..] == pre[1..] + post;
      if !IsBracketLine(pre[0]) {
        BodyAppend(pre[1..], post);
        assert pre == [pre[0]] + pre[1..];
      }
    }
  }

  lemma {:induction false} EntryKeysAppend(a: seq<Bytes>, b: seq<Bytes>)
    ensures EntryKeys(a + b) == EntryKeys(a) + EntryKeys(b)
    decreases |a|
  {
    if |a| == 0 {
      assert a + b == b;
    } else {
      var head := if IsEntry(a[0]) then [KeyOf(a[0])] else [];
      assert (a + b)[0] == a[0];
      assert (a + b)[1..] == a[1..] + b;
      EntryKeysAppend(a[1..], b);
      calc {
        EntryKeys(a + b);
        head + EntryKeys(a[1..] + b);
        head + (EntryKeys(a[1..]) + EntryKeys(b));
        (head + EntryKeys(a[1..])) + EntryKeys(b);
      }
    }
  }

  /** Scope: once the section has been closed by a bracket line, no later
      line can change the verdict. */
  lemma SectionIgnoresLaterLines(data: Bytes, tail: Bytes, header: Bytes)
    requires AfterOpening(Lines(data), header).Some?
    requires var rest := AfterOpening(Lines(data), header).value; |Body(rest)| < |rest|
    ensures VerifySectionSorted(data + [LF] + tail, header) == VerifySectionSorted(data, header)
  {
    var lines := Lines(data);
    var rest := AfterOpening(lines, header).value;
    LinesAppend(data, tail);
    AfterOpeningAppend(lines, Lines(tail), header);
    BodyAppend(rest, Lines(tail));
    SameKeysSameVerdict(data + [LF] + tail, data, header);
  }

  /** Inside a section body, a skipped line neither ends the body nor
      contributes a key. */
  lemma SkippedLineInBody(rest: seq<Bytes>, line: Bytes, post: seq<Bytes>)
    requires |line| == 0 || IsCommentLine(line)
    ensures EntryKeys(Body(rest + ([line] + post))) == EntryKeys(Body(rest + post))
  {
    BodyAppend(rest, [line] + post);
    BodyAppend(rest, post);
    if |Body(rest)| == |rest| {
      assert Body([line] + post) == [line] + Body(post) by {
        assert ([line] + post)[1..] == post;
      }
      assert rest + ([line] + Body(post)) == (rest + [line]) + Body(post);
      EntryKeysAppend(rest + [line], Body(post));
      EntryKeysAppend(rest, [line]);
      EntryKeysAppend(rest, Body(post));
      assert EntryKeys([line]) == [];
    }
  }

  /** On stripped lines: a skipped line contributes no key. */
  lemma SkippedLineKeys(pre: seq<Bytes>, line: Bytes, post: seq<Bytes>, header: Bytes)
    requires |line| == 0 || IsCommentLine(line)
    requires !Opens(line, header)
    ensures SectionKeys(pre + [line] + post, header) == SectionKeys(pre + post, header)
  {
    var l1 := pre + ([line] + post);
    assert pre + [line] + post == l1;
    AfterOpeningAppend(pre, [line] + post, header);
    AfterOpeningAppend(pre, post, header);
    var found := AfterOpening(pre, header);
    if found.None? {
      assert AfterOpening([line] + post, header) == AfterOpening(post, header) by {
        assert ([line] + post)[1..] == post;
      }
    } else {
      SkippedLineInBody(found.value, line, post);
    }
  }

  /** Blank and comment lines are skipped wherever they stand: inserting one
      (that does not itself open the section) never changes the verdict. */
  lemma SkippedLineIrrelevant(a: Bytes, c: Bytes, b: Bytes, header: Bytes)
    requires LF !in c
    requires |Strip(c)| == 0 || IsCommentLine(Strip(c))
    requires !Opens(Strip(c), header)
    ensures VerifySectionSorted(a + [LF] + c + [LF] + b, header) == VerifySectionSorted(a + [LF] + b, header)
  {
    LinesAroundLine(a, c, b);
    LinesAppend(a, b);
    SkippedLineKeys(Lines(a), Strip(c), Lines(b), header);
    SameKeysSameVerdict(a + [LF] + c + [LF] + b, a + [LF] + b, header);
  }
}
