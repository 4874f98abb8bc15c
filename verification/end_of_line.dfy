/**
  The end-of-file check (`verify_single_end_of_line`): the file must end
  with a line feed, but not with two line feeds in a row nor with two
  CR LF pairs in a row.
 */
module EndOfLine {
  import opened Outcomes
  import opened Bytes
  import opened Diagnostics

  const NL: Bytes := [LF]
  const NL_NL: Bytes := [LF, LF]
  const CRLF_CRLF: Bytes := [CR, LF, CR, LF]

  function VerifySingleEndOfLine(contents: Bytes): (r: Outcome<CheckError>)
    ensures r.Pass? || r == Fail(NoEndOfLine) || r == Fail(MultipleEndOfLines)
    ensures r == Fail(NoEndOfLine) <==> |contents| == 0 || contents[|contents| - 1] != LF
    ensures r.Pass? ==> |contents| == 1 || contents[|contents| - 2] != LF
    ensures EndsWith(contents, CRLF_CRLF) ==> r == Fail(MultipleEndOfLines)
    ensures r == Fail(MultipleEndOfLines) ==> EndsWith(contents, NL_NL) || EndsWith(contents, CRLF_CRLF)
  {
    if !EndsWith(contents, NL) then Fail(NoEndOfLine)
    else if EndsWith(contents, NL_NL) || EndsWith(contents, CRLF_CRLF) then Fail(MultipleEndOfLines)
    else Pass
  }

  /** The verdict depends on the last four bytes only. */
  lemma DependsOnLastFourBytes(prefix: Bytes, contents: Bytes)
    requires |contents| >= 4
    ensures VerifySingleEndOfLine(prefix + contents) == VerifySingleEndOfLine(contents)
  {
    var all := prefix + contents;
    assert all[|all| - 1..] == contents[|contents| - 1..];
    assert all[|all| - 2..] == contents[|contents| - 2..];
    assert all[|all| - 4..] == contents[|contents| - 4..];
  }

  /** The verdict on each terminator after a last line `x`: none fails, one
      LF or one CR LF passes, two of either fail as multiple new lines, and
      the mixed LF then CR LF passes. Each lemma asks of `x` only what its
      terminator needs not to run into the line before it. */
  lemma NoTerminatorFails(x: Bytes)
    requires |x| > 0 && x[|x| - 1] != LF
    ensures VerifySingleEndOfLine(x) == Fail(NoEndOfLine)
  {
  }

  lemma OneLineFeedPasses(x: Bytes)
    requires |x| > 0 && x[|x| - 1] != LF && x[|x| - 1] != CR
    ensures VerifySingleEndOfLine(x + [LF]) == Pass
  {
    var a := x + [LF];
    assert a[|a| - 1..] == NL;
    assert a[|a| - 2] == x[|x| - 1];
  }

  lemma OneCrLfPasses(x: Bytes)
    requires |x| > 0 && x[|x| - 1] != LF
    ensures VerifySingleEndOfLine(x + [CR, LF]) == Pass
  {
    var b := x + [CR, LF];
    assert b[|b| - 1..] == NL;
    assert b[|b| - 2] == CR && b[|b| - 3] == x[|x| - 1];
  }

  lemma TwoLineFeedsFail(x: Bytes)
    ensures VerifySingleEndOfLine(x + [LF, LF]) == Fail(MultipleEndOfLines)
  {
    var c := x + [LF, LF];
    assert c[|c| - 1..] == NL;
    assert c[|c| - 2..] == NL_NL;
  }

  lemma TwoCrLfsFail(x: Bytes)
    ensures VerifySingleEndOfLine(x + [CR, LF, CR, LF]) == Fail(MultipleEndOfLines)
  {
    var d := x + [CR, LF, CR, LF];
    assert d[|d| - 1..] == NL;
    assert d[|d| - 4..] == CRLF_CRLF;
  }

  lemma MixedTerminatorPasses(x: Bytes)
    requires |x| > 0 && x[|x| - 1] != LF && x[|x| - 1] != CR
    ensures VerifySingleEndOfLine(x + [LF, CR, LF]) == Pass
  {
    var e := x + [LF, CR, LF];
    assert e[|e| - 1..] == NL;
    assert e[|e| - 2] == CR;
    assert e[|e| - 4] == x[|x| - 1];
  }

  /** One more line feed after a passing file always fails. */
  lemma ExtraLineFeedFails(contents: Bytes)
    requires VerifySingleEndOfLine(contents) == Pass
    ensures VerifySingleEndOfLine(contents + [LF]) == Fail(MultipleEndOfLines)
  {
    var c := contents + [LF];
    assert c[|c| - 2..] == NL_NL;
  }
}
