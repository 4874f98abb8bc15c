/**
  The line scanner both raw-text checks share: the file split at every line
  feed, each line with all ASCII whitespace removed (src/main.rs:153-158 and
  226-231), and the key of a dependency line.
 */
module LineScan {
  import opened Bytes

  /** Every piece with its whitespace removed. */
  function StripAll(pieces: seq<Bytes>): (lines: seq<Bytes>)
    ensures |lines| == |pieces|
    ensures forall i | 0 <= i < |pieces| :: lines[i] == Strip(pieces[i])
  {
    seq(|pieces|, i requires 0 <= i < |pieces| => Strip(pieces[i]))
  }

  /** The stripped lines of a file; there is always at least one. */
  function Lines(data: Bytes): (lines: seq<Bytes>)
    ensures |lines| >= 1
    ensures forall i | 0 <= i < |lines| :: forall b | b in lines[i] :: !IsAsciiWhitespace(b)
  {
    StripAll(Split(data, LF))
  }

  /** The lines of two texts joined by a line feed are the lines of each. */
  lemma LinesAppend(a: Bytes, b: Bytes)
    ensures Lines(a + [LF] + b) == Lines(a) + Lines(b)
  {
    SplitAppend(a, b, LF);
  }

  /** A line written between two texts is scanned as one line of its own. */
  lemma LinesAroundLine(a: Bytes, c: Bytes, b: Bytes)
    requires LF !in c
    ensures Lines(a + [LF] + c + [LF] + b) == Lines(a) + [Strip(c)] + Lines(b)
  {
    assert Lines(c) == [Strip(c)] by {
      SplitWithoutSeparator(c, LF);
    }
    assert a + [LF] + c + [LF] + b == a + [LF] + (c + [LF] + b);
    LinesAppend(a, c + [LF] + b);
    LinesAppend(c, b);
  }

  /** Writing lines out with line feeds and scanning them gives them back,
      stripped. */
  lemma LinesOfJoin(pieces: seq<Bytes>)
    requires |pieces| >= 1
    requires forall i | 0 <= i < |pieces| :: LF !in pieces[i]
    ensures Lines(Join(pieces, LF)) == StripAll(pieces)
  {
    SplitJoin(pieces, LF);
  }

  /** The key of a dependency line: `line.split('=').next()`, i.e. the text
      before the first `=`, or the whole line when it has none
      (src/main.rs:173-175). */
  function KeyOf(line: Bytes): (key: Bytes)
    ensures StartsWith(line, key)
    ensures EQUALS !in key
    ensures |key| == |line| || line[|key|] == EQUALS
  {
    var pieces := Split(line, EQUALS);
    assert |pieces| > 1 ==> line == pieces[0] + [EQUALS] + Join(pieces[1..], EQUALS);
    pieces[0]
  }

  /** The key of `k = value` is `k` when `k` has no `=`. */
  lemma KeyOfAssignment(k: Bytes, value: Bytes)
    requires EQUALS !in k
    ensures KeyOf(k + [EQUALS] + value) == k
  {
    SplitAppend(k, value, EQUALS);
    SplitWithoutSeparator(k, EQUALS);
  }
}
