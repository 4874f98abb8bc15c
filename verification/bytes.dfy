/**
  Raw file contents as byte sequences, and the slice primitives the linter uses
  on them: ASCII whitespace stripping, prefix and suffix tests, and splitting on
  a separator byte together with its inverse.
 */
module Bytes {

  type byte = bv8
  type Bytes = seq<byte>

  const TAB: byte := 0x09
  const LF: byte := 0x0A
  const VT: byte := 0x0B
  const FF: byte := 0x0C
  const CR: byte := 0x0D
  const SPACE: byte := 0x20
  const HASH: byte := 0x23
  const EQUALS: byte := 0x3D
  const LBRACKET: byte := 0x5B
  const RBRACKET: byte := 0x5D

  /** Rust's `u8::is_ascii_whitespace`: tab, line feed, form feed, carriage
      return and space. The vertical tab is not whitespace here. */
  predicate IsAsciiWhitespace(b: byte) {
    b == TAB || b == LF || b == FF || b == CR || b == SPACE
  }

  /** The bytes of `s` that are not ASCII whitespace, in their original order. */
  function Strip(s: Bytes): (r: Bytes)
    ensures |r| <= |s|
    ensures forall i | 0 <= i < |r| :: !IsAsciiWhitespace(r[i])
    ensures (forall i | 0 <= i < |s| :: !IsAsciiWhitespace(s[i])) ==> r == s
    ensures (forall i | 0 <= i < |s| :: IsAsciiWhitespace(s[i])) ==> r == []
  {
    if |s| == 0 then []
    else (if IsAsciiWhitespace(s[0]) then [] else [s[0]]) + Strip(s[1..])
  }

  /** Stripping works byte by byte, so it distributes over concatenation. */
  lemma {:induction false} StripAppend(a: Bytes, b: Bytes)
    ensures Strip(a + b) == Strip(a) + Strip(b)
    decreases |a|
  {
    if |a| == 0 {
      assert a + b == b;
    } else {
      var head := if IsAsciiWhitespace(a[0]) then [] else [a[0]];
      assert (a + b)[0] == a[0];
      assert (a + b)[1..] == a[1..] + b;
      calc {
        Strip(a + b);
        head + Strip(a[1..] + b);
        { StripAppend(a[1..], b); }
        head + (Strip(a[1..]) + Strip(b));
        (head + Strip(a[1..])) + Strip(b);
        Strip(a) + Strip(b);
      }
    }
  }

  /** Stripping twice is stripping once. */
  lemma StripIdempotent(s: Bytes)
    ensures Strip(Strip(s)) == Strip(s)
  {
  }

  predicate StartsWith(s: Bytes, prefix: Bytes) {
    |prefix| <= |s| && s[..|prefix|] == prefix
  }

  predicate EndsWith(s: Bytes, suffix: Bytes) {
    |suffix| <= |s| && s[|s| - |suffix|..] == suffix
  }

  /** The pieces separated by `sep` glued back together with `sep`. */
  function Join(pieces: seq<Bytes>, sep: byte): Bytes
  {
    if |pieces| == 0 then []
    else if |pieces| == 1 then pieces[0]
    else pieces[0] + [sep] + Join(pieces[1..], sep)
  }

  /** Rust's `slice::split` on a separator byte: the maximal runs between
      separators, including the empty run before a leading separator and after
      a trailing one; `n` separators give `n + 1` pieces. */
  function Split(s: Bytes, sep: byte): (pieces: seq<Bytes>)
    ensures |pieces| >= 1
    ensures forall i | 0 <= i < |pieces| :: sep !in pieces[i]
    ensures Join(pieces, sep) == s
    decreases |s|
  {
    if |s| == 0 then [[]]
    else
      var rest := Split(s[1..], sep);
      if s[0] == sep then
        assert Join([[]] + rest, sep) == [sep] + Join(rest, sep);
        [[]] + rest
      else
        var first := [s[0]] + rest[0];
        assert |rest| > 1 ==> Join(rest, sep) == rest[0] + [sep] + Join(rest[1..], sep);
        assert |rest| > 1 ==> Join([first] + rest[1..], sep) == first + [sep] + Join(rest[1..], sep) by {
          assert ([first] + rest[1..])[1..] == rest[1..];
        }
        assert s == [s[0]] + s[1..];
        [first] + rest[1..]
  }

  /** A separator-free sequence is a single piece. */
  lemma {:induction false} SplitWithoutSeparator(s: Bytes, sep: byte)
    requires sep !in s
    ensures Split(s, sep) == [s]
    decreases |s|
  {
    if |s| > 0 {
      SplitWithoutSeparator(s[1..], sep);
      assert [s[0]] + s[1..] == s;
    }
  }

  /** Splitting at a separator splits the two sides independently. */
  lemma {:induction false} SplitAppend(a: Bytes, b: Bytes, sep: byte)
    ensures Split(a + [sep] + b, sep) == Split(a, sep) + Split(b, sep)
    decreases |a|
  {
    if |a| == 0 {
      assert a + [sep] + b == [sep] + b;
      assert ([sep] + b)[1..] == b;
    } else {
      var s := a + [sep] + b;
      assert s[0] == a[0];
      assert s[1..] == a[1..] + [sep] + b;
      SplitAppend(a[1..], b, sep);
    }
  }

  /** `Split` inverts `Join` on non-empty lists of separator-free pieces, so
      together with the `Join(Split(s)) == s` guarantee the two are mutually
      inverse. */
  lemma {:induction false} SplitJoin(pieces: seq<Bytes>, sep: byte)
    requires |pieces| >= 1
    requires forall i | 0 <= i < |pieces| :: sep !in pieces[i]
    ensures Split(Join(pieces, sep), sep) == pieces
    decreases |pieces|
  {
    if |pieces| == 1 {
      SplitWithoutSeparator(pieces[0], sep);
    } else {
      SplitJoin(pieces[1..], sep);
      SplitAppend(pieces[0], Join(pieces[1..], sep), sep);
      SplitWithoutSeparator(pieces[0], sep);
      assert pieces == [pieces[0]] + pieces[1..];
    }
  }

  /** Adding a piece at the end adds a separator and the piece. */
  lemma {:induction false} JoinSnoc(pieces: seq<Bytes>, p: Bytes, sep: byte)
    requires |pieces| >= 1
    ensures Join(pieces + [p], sep) == Join(pieces, sep) + [sep] + p
    decreases |pieces|
  {
    if |pieces| > 1 {
      assert (pieces + [p])[1..] == pieces[1..] + [p];
      JoinSnoc(pieces[1..], p, sep);
    }
  }
}
