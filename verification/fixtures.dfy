/**
  The scenarios of the repository's binary tests (tests/binary_tests.rs),
  run through `Lint.Run` on small files written out here: the fixture
  files those tests read are not part of this model, so each file below is
  the smallest one that has the shape the test's expected message names,
  together with the document the TOML parser would build from it.

  Lines are written without blanks around `=`, so stripping leaves them as
  they are, and every file ends with exactly one line feed.
 */
module Fixtures {
  import opened Outcomes
  import opened Bytes
  import opened Order
  import opened LineScan
  import opened Toml
  import opened Diagnostics
  import SectionSort
  import StrictSort
  import TestSort
  import Contiguity
  import EndOfLine
  import opened Lint

  /** A line without whitespace: stripping leaves it alone. */
  ghost predicate Plain(line: Bytes) {
    forall i | 0 <= i < |line| :: !IsAsciiWhitespace(line[i])
  }

  /** A file made of `lines`, each ended by a line feed. */
  function File(lines: seq<Bytes>): Bytes {
    Join(lines + [[]], LF)
  }

  /** The lines of such a file are the lines it was made of, then the empty
      text after the final line feed. */
  lemma PlainFileLines(lines: seq<Bytes>)
    requires forall i | 0 <= i < |lines| :: Plain(lines[i])
    ensures Lines(File(lines)) == lines + [[]]
  {
    LinesOfJoin(lines + [[]]);
  }

  /** A file whose last line ends in neither LF nor CR has exactly one
      terminator. */
  lemma FileHasOneEndOfLine(lines: seq<Bytes>)
    requires |lines| > 0
    requires var last := lines[|lines| - 1]; |last| > 0 && last[|last| - 1] != LF && last[|last| - 1] != CR
    ensures EndOfLine.VerifySingleEndOfLine(File(lines)) == Pass
  {
    var n := |lines|;
    var last := lines[n - 1];
    JoinSnoc(lines, [], LF);
    assert File(lines) == Join(lines, LF) + [LF];
    if n > 1 {
      assert lines == lines[..n - 1] + [last];
      JoinSnoc(lines[..n - 1], last, LF);
    }
    var body := Join(lines, LF);
    assert body == Join(lines[..n - 1], LF) + [LF] + last || n == 1;
    assert |body| > 0 && body[|body| - 1] == last[|last| - 1];
    EndOfLine.OneLineFeedPasses(body);
  }

  // ---- Contiguity on header shapes ----

  /** Without array headers nothing can be separated. */
  lemma {:induction false} NoArrayHeadersPass(lines: seq<Bytes>, seen: seq<Bytes>)
    requires forall i | 0 <= i < |lines| :: !Contiguity.IsArrayHeader(lines[i])
    ensures Contiguity.Scan(lines, seen) == Pass
    decreases |lines|
  {
    if |lines| > 0 {
      var step := Contiguity.StepLine(seen, lines[0]);
      assert step.Continue?;
      NoArrayHeadersPass(lines[1..], step.seen);
    }
  }

  /** When the only header is one array header, however often it repeats,
      the blocks are adjacent and the check passes. */
  lemma {:induction false} OneArrayHeaderPasses(lines: seq<Bytes>, t: Bytes, seen: seq<Bytes>)
    requires Contiguity.IsArrayHeader(t)
    requires seen == [] || seen == [t]
    requires forall i | 0 <= i < |lines| :: lines[i] == t || !Contiguity.IsHeader(lines[i])
    ensures Contiguity.Scan(lines, seen) == Pass
    decreases |lines|
  {
    if |lines| > 0 {
      assert Contiguity.NoRepeatedArrayHeaders(seen);
      var step := Contiguity.StepLine(seen, lines[0]);
      assert step.Continue? && (step.seen == [] || step.seen == [t]);
      OneArrayHeaderPasses(lines[1..], t, step.seen);
    }
  }

  /** Two blocks of the array header `t` with the table header `d` between
      them: the check fails, naming `d`. */
  lemma InterruptedArrayFails(t: Bytes, d: Bytes, x: Bytes, y: Bytes, z: Bytes)
    requires Contiguity.IsArrayHeader(t)
    requires Contiguity.IsHeader(d) && !Contiguity.IsArrayHeader(d)
    requires !Contiguity.IsHeader(x) && !Contiguity.IsHeader(y) && !Contiguity.IsHeader(z)
    ensures Contiguity.Scan([t, x, d, y, t, z, []], []) == Fail(SeparatedArray(t, d))
  {
    var ls := [t, x, d, y, t, z, []];
    assert Contiguity.StepLine([], t) == Contiguity.Continue([t]);
    assert Contiguity.Scan(ls, []) == Contiguity.Scan(ls[1..], [t]);
    assert Contiguity.StepLine([t], x) == Contiguity.Continue([t]);
    assert Contiguity.Scan(ls[1..], [t]) == Contiguity.Scan(ls[2..], [t]);
    assert Contiguity.StepLine([t], d) == Contiguity.Continue([t, d]);
    assert Contiguity.Scan(ls[2..], [t]) == Contiguity.Scan(ls[3..], [t, d]);
    assert Contiguity.StepLine([t, d], y) == Contiguity.Continue([t, d]);
    assert Contiguity.Scan(ls[3..], [t, d]) == Contiguity.Scan(ls[4..], [t, d]);
    assert Contiguity.NoRepeatedArrayHeaders([t, d]);
    assert t in [t, d] && Contiguity.Last([t, d]) == d != t;
    assert Contiguity.StepLine([t, d], t) == Contiguity.Violation(t, d);
  }

  /** The evidence is the most recently recorded header, which need not be
      the header that first broke the run: `[[t]] [a] [b] [[t]]` names `[b]`. */
  lemma EvidenceIsLatestHeader(t: Bytes, a: Bytes, b: Bytes)
    requires Contiguity.IsArrayHeader(t)
    requires Contiguity.IsHeader(a) && !Contiguity.IsArrayHeader(a)
    requires Contiguity.IsHeader(b) && !Contiguity.IsArrayHeader(b)
    ensures Contiguity.Scan([t, a, b, t], []) == Fail(SeparatedArray(t, b))
  {
    var ls := [t, a, b, t];
    assert Contiguity.StepLine([], t) == Contiguity.Continue([t]);
    assert Contiguity.Scan(ls, []) == Contiguity.Scan(ls[1..], [t]);
    assert Contiguity.StepLine([t], a) == Contiguity.Continue([t, a]);
    assert Contiguity.Scan(ls[1..], [t]) == Contiguity.Scan(ls[2..], [t, a]);
    assert Contiguity.StepLine([t, a], b) == Contiguity.Continue([t, a, b]);
    assert Contiguity.Scan(ls[2..], [t, a]) == Contiguity.Scan(ls[3..], [t, a, b]);
    assert Contiguity.NoRepeatedArrayHeaders([t, a, b]);
    assert t in [t, a, b] && Contiguity.Last([t, a, b]) == b != t;
    assert Contiguity.StepLine([t, a, b], t) == Contiguity.Violation(t, b);
  }

  // ---- The text of the fixture files ----

  const KeyA: Bytes := [0x61]
  const KeyB: Bytes := [0x62]
  const KeyC: Bytes := [0x63]
  const KeyD: Bytes := [0x64]
  /** `version` */
  const VersionKey: Bytes := [0x76, 0x65, 0x72, 0x73, 0x69, 0x6F, 0x6E]
  /** `"1"` */
  const QuotedOne: Bytes := [0x22, 0x31, 0x22]

  /** `key=value` */
  function Assign(key: Bytes, value: Bytes): Bytes {
    key + [EQUALS] + value
  }

  /** `"s"` */
  function Quoted(s: Bytes): Bytes {
    [0x22] + s + [0x22]
  }

  /** `[[test]]` */
  const TestHeader: Bytes := [LBRACKET, LBRACKET] + TestKey + [RBRACKET, RBRACKET]
  /** `[dependencies.c]` */
  const SubTableHeader: Bytes := [LBRACKET] + DependenciesKey + [0x2E] + KeyC + [RBRACKET]

  /** A `[[test]]` item holding only its name. */
  function TestItem(name: Bytes): Value {
    Table([(NameField, Str(name))])
  }

  /** The options of a test run: the defaults, with `--no-cargo-verify` and
      the given `-D`, `-T` and `-A` flags. */
  function NoCargo(deps: DependencySorting, tests: Toggle, arrays: Toggle): Options {
    DefaultOptions.(noCargoVerify := true, sortDependencies := deps, sortTests := tests, contiguousObjectArrays := arrays)
  }

  /** A one-entry table has no other key, and the lookup finds its own. */
  lemma OneEntryLookup(k: Bytes, v: Value, key: Bytes)
    requires |k| > 0 && |key| > 0 && k[0] != key[0]
    ensures Get(Table([(k, v)]), key).None?
    ensures Get(Table([(k, v)]), k) == Some(v)
  {
  }

  /** Without dependency sorting, the run passes when the selected
      remaining checks do. */
  lemma RunPassesUnsorted(tests: Toggle, arrays: Toggle, contents: Bytes, doc: Value, cargo: Outcome<Bytes>)
    requires tests == Enabled ==> Get(doc, TestKey).None?
    requires arrays == Enabled ==> Contiguity.VerifyContiguousObjectArrays(contents) == Pass
    requires EndOfLine.VerifySingleEndOfLine(contents) == Pass
    ensures Run(NoCargo(NoSorting, tests, arrays), contents, Parsed(doc), cargo) == Pass
  {
  }

  /** In section mode, the run passes when both sections and the selected
      remaining checks do. */
  lemma RunPassesSection(contents: Bytes, doc: Value, cargo: Outcome<Bytes>)
    requires SectionSort.VerifySectionSorted(contents, DependenciesHeader) == Pass
    requires SectionSort.VerifySectionSorted(contents, DevDependenciesHeader) == Pass
    requires Get(doc, TestKey).None?
    requires Contiguity.VerifyContiguousObjectArrays(contents) == Pass
    requires EndOfLine.VerifySingleEndOfLine(contents) == Pass
    ensures Run(NoCargo(Section, Enabled, Enabled), contents, Parsed(doc), cargo) == Pass
  {
  }

  /** In section mode, an unsorted `[dependencies]` section is the first
      error. */
  lemma RunFailsSection(tests: Toggle, arrays: Toggle, contents: Bytes, doc: Value, cargo: Outcome<Bytes>, e: CheckError)
    requires SectionSort.VerifySectionSorted(contents, DependenciesHeader) == Fail(e)
    ensures Run(NoCargo(Section, tests, arrays), contents, Parsed(doc), cargo) == Fail(LintError(Dependencies, e))
  {
  }

  /** In strict mode, an unsorted `[dependencies]` table is the first error. */
  lemma RunFailsStrict(tests: Toggle, arrays: Toggle, contents: Bytes, doc: Value, cargo: Outcome<Bytes>,
                       entries: seq<(Bytes, Value)>, e: CheckError)
    requires Get(doc, DependenciesKey) == Some(Table(entries))
    requires StrictSort.VerifyDepsSortedStrict(entries) == Fail(e)
    ensures Run(NoCargo(Strict, tests, arrays), contents, Parsed(doc), cargo) == Fail(LintError(Dependencies, e))
  {
  }

  /** In strict mode without dependency tables, an unsorted test array is
      the first error. */
  lemma RunFailsTests(arrays: Toggle, contents: Bytes, doc: Value, cargo: Outcome<Bytes>, items: seq<Value>, e: CheckError)
    requires Get(doc, DependenciesKey).None? && Get(doc, DevDependenciesKey).None?
    requires Get(doc, TestKey) == Some(Array(items))
    requires TestSort.VerifyListSortedByStr(items, NameField) == Fail(e)
    ensures Run(NoCargo(Strict, Enabled, arrays), contents, Parsed(doc), cargo) == Fail(LintError(TestArray, e))
  {
  }

  /** With only the contiguity and end-of-line checks, a separated array is
      the first error. */
  lemma RunFailsArrays(contents: Bytes, doc: Value, cargo: Outcome<Bytes>, e: CheckError)
    requires Contiguity.VerifyContiguousObjectArrays(contents) == Fail(e)
    ensures Run(NoCargo(NoSorting, Disabled, Enabled), contents, Parsed(doc), cargo) == Fail(LintError(NoPrefix, e))
  {
  }

  lemma HeaderShapes()
    ensures Contiguity.IsArrayHeader(TestHeader)
    ensures Contiguity.IsHeader(SubTableHeader) && !Contiguity.IsArrayHeader(SubTableHeader)
    ensures Contiguity.IsHeader(DependenciesHeader) && !Contiguity.IsArrayHeader(DependenciesHeader)
    ensures Plain(TestHeader) && Plain(SubTableHeader) && Plain(DependenciesHeader)
  {
    assert SubTableHeader[1] == DependenciesKey[0] != LBRACKET;
    assert DependenciesHeader[1] == DependenciesKey[0];
  }

  /** An assignment to a lower-case key without `=` is an entry line, not
      a header, and its key is that key. */
  lemma AssignShape(k: Bytes, v: Bytes)
    requires |k| > 0 && 0x61 <= k[0] <= 0x7A && EQUALS !in k && Plain(k)
    requires |v| > 0 && Plain(v)
    ensures Plain(Assign(k, v))
    ensures !Contiguity.IsHeader(Assign(k, v))
    ensures !SectionSort.IsBracketLine(Assign(k, v)) && SectionSort.IsEntry(Assign(k, v))
    ensures KeyOf(Assign(k, v)) == k
    ensures Assign(k, v)[|Assign(k, v)| - 1] == v[|v| - 1]
  {
    KeyOfAssignment(k, v);
  }

  /** Two keys out of order: the only inversion there is names them. */
  lemma TwoKeysInversion(x: Bytes, y: Bytes, inv: Inversion)
    requires !LexLe(x, y)
    ensures !Sorted([x, y])
    ensures ReportsFirstInversion([x, y], inv) <==> inv == Inversion(y, x)
  {
    var keys := [x, y];
    assert !LexLe(keys[0], keys[1]);
    if inv == Inversion(y, x) {
      assert keys[..1] == [x];
      assert FirstInversionAt(keys, 1);
    }
  }

  // ---- Unsorted-deps.toml (tests/binary_tests.rs:42-77) ----

  /** `[dependencies]` listing `c` before `b`. */
  const UnsortedDepsLines: seq<Bytes> := [DependenciesHeader, Assign(KeyC, QuotedOne), Assign(KeyB, QuotedOne)]
  const UnsortedDepsTable: seq<(Bytes, Value)> := [(KeyC, Str([0x31])), (KeyB, Str([0x31]))]
  const UnsortedDepsDoc: Value := Table([(DependenciesKey, Table(UnsortedDepsTable))])

  /** The section's body is the whole rest when no line of it is a
      bracket line. */
  lemma BodyWithoutBrackets(lines: seq<Bytes>)
    requires forall i | 0 <= i < |lines| :: !SectionSort.IsBracketLine(lines[i])
    ensures SectionSort.Body(lines) == lines
  {
    SectionSort.BodyIsUpToFirstBracket(lines);
  }

  /** The keys of two entry lines followed by the empty last line. */
  lemma TwoEntryKeys(x: Bytes, y: Bytes)
    requires SectionSort.IsEntry(x) && SectionSort.IsEntry(y)
    ensures SectionSort.EntryKeys([x, y, []]) == [KeyOf(x), KeyOf(y)]
  {
    var ls := [x, y, []];
    assert ls[1..] == [y, []] && ls[1..][1..] == [[]] && ls[1..][1..][1..] == [];
    assert SectionSort.EntryKeys([[]]) == [];
    assert SectionSort.EntryKeys([y, []]) == [KeyOf(y)];
  }

  /** A section opened by its header on the first line, holding two entry
      lines, has their two keys. */
  lemma SectionOfTwoEntries(h: Bytes, x: Bytes, y: Bytes)
    requires |h| > 0
    requires SectionSort.IsEntry(x) && SectionSort.IsEntry(y)
    requires !SectionSort.IsBracketLine(x) && !SectionSort.IsBracketLine(y)
    ensures SectionSort.SectionKeys([h, x, y, []], h) == [KeyOf(x), KeyOf(y)]
  {
    var rest := [x, y, []];
    assert [h, x, y, []][1..] == rest;
    assert h[..|h|] == h;
    BodyWithoutBrackets(rest);
    TwoEntryKeys(x, y);
  }

  lemma UnsortedDepsLinesPlain()
    ensures Lines(File(UnsortedDepsLines)) == UnsortedDepsLines + [[]]
  {
    HeaderShapes();
    AssignShape(KeyC, QuotedOne);
    AssignShape(KeyB, QuotedOne);
    PlainFileLines(UnsortedDepsLines);
  }

  lemma UnsortedDepsShapes()
    ensures Contiguity.VerifyContiguousObjectArrays(File(UnsortedDepsLines)) == Pass
    ensures EndOfLine.VerifySingleEndOfLine(File(UnsortedDepsLines)) == Pass
  {
    HeaderShapes();
    AssignShape(KeyC, QuotedOne);
    AssignShape(KeyB, QuotedOne);
    UnsortedDepsLinesPlain();
    NoArrayHeadersPass(UnsortedDepsLines + [[]], []);
    FileHasOneEndOfLine(UnsortedDepsLines);
  }

  lemma UnsortedDepsKeys()
    ensures SectionSort.SectionKeys(Lines(File(UnsortedDepsLines)), DependenciesHeader) == [KeyC, KeyB]
  {
    var c, b := Assign(KeyC, QuotedOne), Assign(KeyB, QuotedOne);
    HeaderShapes();
    AssignShape(KeyC, QuotedOne);
    AssignShape(KeyB, QuotedOne);
    UnsortedDepsLinesPlain();
    assert UnsortedDepsLines + [[]] == [DependenciesHeader, c, b, []];
    SectionOfTwoEntries(DependenciesHeader, c, b);
  }

  lemma UnsortedDepsSectionFails()
    ensures SectionSort.VerifySectionSorted(File(UnsortedDepsLines), DependenciesHeader) == Fail(Unsorted(KeyB, KeyC))
  {
    UnsortedDepsKeys();
    TwoKeysInversion(KeyC, KeyB, Inversion(KeyB, KeyC));
    var section := SectionSort.VerifySectionSorted(File(UnsortedDepsLines), DependenciesHeader);
    TwoKeysInversion(KeyC, KeyB, Inversion(section.error.key, section.error.prev));
  }

  lemma UnsortedDepsStrictFails()
    ensures StrictSort.VerifyDepsSortedStrict(UnsortedDepsTable) == Fail(UnsortedStrict(KeyB, KeyC))
  {
    assert Keys(UnsortedDepsTable) == [KeyC, KeyB];
    TwoKeysInversion(KeyC, KeyB, Inversion(KeyB, KeyC));
    var strict := StrictSort.VerifyDepsSortedStrict(UnsortedDepsTable);
    TwoKeysInversion(KeyC, KeyB, Inversion(strict.error.key, strict.error.prev));
  }

  /** Without dependency sorting the file passes. */
  lemma UnsortedDepsUnchecked(cargo: Outcome<Bytes>)
    ensures Run(NoCargo(NoSorting, Disabled, Enabled), File(UnsortedDepsLines), Parsed(UnsortedDepsDoc), cargo) == Pass
  {
    UnsortedDepsShapes();
    RunPassesUnsorted(Disabled, Enabled, File(UnsortedDepsLines), UnsortedDepsDoc, cargo);
  }

  /** Section mode reports `b` as specified after `c`. */
  lemma UnsortedDepsSection(cargo: Outcome<Bytes>)
    ensures Run(NoCargo(Section, Disabled, Enabled), File(UnsortedDepsLines), Parsed(UnsortedDepsDoc), cargo)
      == Fail(LintError(Dependencies, Unsorted(KeyB, KeyC)))
  {
    UnsortedDepsSectionFails();
    RunFailsSection(Disabled, Enabled, File(UnsortedDepsLines), UnsortedDepsDoc, cargo, Unsorted(KeyB, KeyC));
  }

  /** Strict mode reports the same pair. */
  lemma UnsortedDepsStrict(cargo: Outcome<Bytes>)
    ensures Run(NoCargo(Strict, Disabled, Enabled), File(UnsortedDepsLines), Parsed(UnsortedDepsDoc), cargo)
      == Fail(LintError(Dependencies, UnsortedStrict(KeyB, KeyC)))
  {
    UnsortedDepsStrictFails();
    assert DependenciesKey[0] != TestKey[0];
    OneEntryLookup(DependenciesKey, Table(UnsortedDepsTable), TestKey);
    RunFailsStrict(Disabled, Enabled, File(UnsortedDepsLines), UnsortedDepsDoc, cargo,
      UnsortedDepsTable, UnsortedStrict(KeyB, KeyC));
  }

  // ---- Unsorted-deps-strict.toml (tests/binary_tests.rs:79-115) ----

  /** `[dependencies]` listing `d`, then the sub-table `[dependencies.c]`:
      the text of the section is in order, the parsed table is not. */
  const StrictOnlyLines: seq<Bytes> :=
    [DependenciesHeader, Assign(KeyD, QuotedOne), SubTableHeader, Assign(VersionKey, QuotedOne)]
  const StrictOnlyTable: seq<(Bytes, Value)> := [(KeyD, Str([0x31])), (KeyC, Table([(VersionKey, Str([0x31]))]))]
  const StrictOnlyDoc: Value := Table([(DependenciesKey, Table(StrictOnlyTable))])

  /** A section opened on the first line whose body is one entry line,
      ended by a bracket line, has that one key. */
  lemma SectionOfOneEntry(h: Bytes, x: Bytes, t: Bytes, rest: seq<Bytes>)
    requires |h| > 0
    requires SectionSort.IsEntry(x) && !SectionSort.IsBracketLine(x)
    requires SectionSort.IsBracketLine(t)
    ensures SectionSort.SectionKeys([h, x, t] + rest, h) == [KeyOf(x)]
  {
    var after := [x, t] + rest;
    assert ([h, x, t] + rest)[1..] == after;
    assert h[..|h|] == h;
    assert after[1..] == [t] + rest;
    assert SectionSort.Body(after) == [x];
    assert SectionSort.EntryKeys([x][1..]) == [];
  }

  /** A line whose fourth byte is `p`, as in `[dep...`, does not open
      `[dev-dependencies]`. */
  lemma NotDevHeader(line: Bytes)
    requires |line| >= 4 && line[3] == 0x70
    ensures !SectionSort.Opens(line, DevDependenciesHeader)
  {
    assert DevDependenciesHeader[3] == 0x76;
  }

  /** Four plain lines written out and read back. */
  lemma FourPlainLines(a: Bytes, b: Bytes, c: Bytes, d: Bytes)
    requires Plain(a) && Plain(b) && Plain(c) && Plain(d)
    ensures Lines(File([a, b, c, d])) == [a, b, c, d, []]
  {
    PlainFileLines([a, b, c, d]);
  }

  lemma StrictOnlyLinesPlain()
    ensures Lines(File(StrictOnlyLines)) == StrictOnlyLines + [[]]
  {
    HeaderShapes();
    AssignShape(KeyD, QuotedOne);
    AssignShape(VersionKey, QuotedOne);
    FourPlainLines(DependenciesHeader, Assign(KeyD, QuotedOne), SubTableHeader, Assign(VersionKey, QuotedOne));
  }

  /** No line of `[h, x, t, y, []]` is an array header. */
  lemma FourLinesNoArrayHeaders(h: Bytes, x: Bytes, t: Bytes, y: Bytes)
    requires !Contiguity.IsArrayHeader(h) && !Contiguity.IsArrayHeader(t)
    requires !Contiguity.IsHeader(x) && !Contiguity.IsHeader(y)
    ensures Contiguity.Scan([h, x, t, y, []], []) == Pass
  {
    NoArrayHeadersPass([h, x, t, y, []], []);
  }

  /** No line of `[h, x, t, y, []]` opens the section. */
  lemma FourLinesNoOpening(h: Bytes, x: Bytes, t: Bytes, y: Bytes, header: Bytes)
    requires !SectionSort.Opens(h, header) && !SectionSort.Opens(x, header)
    requires !SectionSort.Opens(t, header) && !SectionSort.Opens(y, header)
    ensures SectionSort.AfterOpening([h, x, t, y, []], header).None?
  {
    SectionSort.AfterOpeningIsFirstOpening([h, x, t, y, []], header);
  }

  lemma StrictOnlyShapes()
    ensures Contiguity.VerifyContiguousObjectArrays(File(StrictOnlyLines)) == Pass
    ensures EndOfLine.VerifySingleEndOfLine(File(StrictOnlyLines)) == Pass
  {
    var d, v := Assign(KeyD, QuotedOne), Assign(VersionKey, QuotedOne);
    HeaderShapes();
    AssignShape(KeyD, QuotedOne);
    AssignShape(VersionKey, QuotedOne);
    StrictOnlyLinesPlain();
    assert StrictOnlyLines + [[]] == [DependenciesHeader, d, SubTableHeader, v, []];
    FourLinesNoArrayHeaders(DependenciesHeader, d, SubTableHeader, v);
    FileHasOneEndOfLine(StrictOnlyLines);
  }

  lemma StrictOnlySection()
    ensures SectionSort.VerifySectionSorted(File(StrictOnlyLines), DependenciesHeader) == Pass
  {
    var d, v := Assign(KeyD, QuotedOne), Assign(VersionKey, QuotedOne);
    HeaderShapes();
    AssignShape(KeyD, QuotedOne);
    StrictOnlyLinesPlain();
    assert StrictOnlyLines + [[]] == [DependenciesHeader, d, SubTableHeader] + [v, []];
    SectionOfOneEntry(DependenciesHeader, d, SubTableHeader, [v, []]);
    assert Sorted([KeyD]);
  }

  lemma StrictOnlyDevSection()
    ensures SectionSort.VerifySectionSorted(File(StrictOnlyLines), DevDependenciesHeader) == Pass
  {
    var d, v := Assign(KeyD, QuotedOne), Assign(VersionKey, QuotedOne);
    AssignShape(KeyD, QuotedOne);
    AssignShape(VersionKey, QuotedOne);
    StrictOnlyLinesPlain();
    assert StrictOnlyLines + [[]] == [DependenciesHeader, d, SubTableHeader, v, []];
    assert DependenciesHeader[3] == 0x70;
    NotDevHeader(DependenciesHeader);
    assert SubTableHeader[3] == 0x70;
    NotDevHeader(SubTableHeader);
    FourLinesNoOpening(DependenciesHeader, d, SubTableHeader, v, DevDependenciesHeader);
  }

  lemma StrictOnlyStrictFails()
    ensures StrictSort.VerifyDepsSortedStrict(StrictOnlyTable) == Fail(UnsortedStrict(KeyC, KeyD))
  {
    assert Keys(StrictOnlyTable) == [KeyD, KeyC];
    TwoKeysInversion(KeyD, KeyC, Inversion(KeyC, KeyD));
    var strict := StrictSort.VerifyDepsSortedStrict(StrictOnlyTable);
    TwoKeysInversion(KeyD, KeyC, Inversion(strict.error.key, strict.error.prev));
  }

  /** Without dependency sorting the file passes. */
  lemma StrictOnlyUnchecked(cargo: Outcome<Bytes>)
    ensures Run(NoCargo(NoSorting, Enabled, Enabled), File(StrictOnlyLines), Parsed(StrictOnlyDoc), cargo) == Pass
  {
    StrictOnlyShapes();
    assert DependenciesKey[0] != TestKey[0];
    OneEntryLookup(DependenciesKey, Table(StrictOnlyTable), TestKey);
    RunPassesUnsorted(Enabled, Enabled, File(StrictOnlyLines), StrictOnlyDoc, cargo);
  }

  /** Section mode, looking only at the text up to the next header, passes. */
  lemma StrictOnlySectionPasses(cargo: Outcome<Bytes>)
    ensures Run(NoCargo(Section, Enabled, Enabled), File(StrictOnlyLines), Parsed(StrictOnlyDoc), cargo) == Pass
  {
    StrictOnlyShapes();
    StrictOnlySection();
    StrictOnlyDevSection();
    assert DependenciesKey[0] != TestKey[0];
    OneEntryLookup(DependenciesKey, Table(StrictOnlyTable), TestKey);
    RunPassesSection(File(StrictOnlyLines), StrictOnlyDoc, cargo);
  }

  /** Strict mode, looking at the parsed table, reports `c` after `d`. */
  lemma StrictOnlyStrict(cargo: Outcome<Bytes>)
    ensures Run(NoCargo(Strict, Enabled, Enabled), File(StrictOnlyLines), Parsed(StrictOnlyDoc), cargo)
      == Fail(LintError(Dependencies, UnsortedStrict(KeyC, KeyD)))
  {
    StrictOnlyStrictFails();
    assert DependenciesKey[0] != TestKey[0];
    OneEntryLookup(DependenciesKey, Table(StrictOnlyTable), TestKey);
    RunFailsStrict(Enabled, Enabled, File(StrictOnlyLines), StrictOnlyDoc, cargo,
      StrictOnlyTable, UnsortedStrict(KeyC, KeyD));
  }

  /** Six plain lines written out and read back. */
  lemma SixPlainLines(a: Bytes, b: Bytes, c: Bytes, d: Bytes, e: Bytes, f: Bytes)
    requires Plain(a) && Plain(b) && Plain(c) && Plain(d) && Plain(e) && Plain(f)
    ensures Lines(File([a, b, c, d, e, f])) == [a, b, c, d, e, f, []]
  {
    PlainFileLines([a, b, c, d, e, f]);
  }

  /** `name="n"` */
  function NameLine(n: Bytes): Bytes {
    Assign(NameField, Quoted(n))
  }

  lemma NameLineShape(n: Bytes)
    requires |n| == 1 && 0x61 <= n[0] <= 0x7A
    ensures Plain(NameLine(n)) && !Contiguity.IsHeader(NameLine(n))
    ensures NameLine(n)[|NameLine(n)| - 1] != LF && NameLine(n)[|NameLine(n)| - 1] != CR
  {
    AssignShape(NameField, Quoted(n));
  }

  /** An item holding only its name has that name. */
  lemma TestItemName(n: Bytes)
    ensures TestSort.NameOf(TestItem(n), NameField) == Some(n)
  {
  }

  // ---- Unsorted-tests.toml (tests/binary_tests.rs:117-142) ----

  /** Three `[[test]]` items named `a`, `c`, `b`. */
  const UnsortedTestsLines: seq<Bytes> :=
    [TestHeader, NameLine(KeyA), TestHeader, NameLine(KeyC), TestHeader, NameLine(KeyB)]
  const UnsortedTestsDoc: Value :=
    Table([(TestKey, Array([TestItem(KeyA), TestItem(KeyC), TestItem(KeyB)]))])

  /** Items named `a`, `c`, `b` (with `a <= c` and `b < c`): the third is
      reported as specified after the second. */
  lemma ThirdItemUnsorted(a: Bytes, b: Bytes, c: Bytes)
    requires LexLe(a, c) && !LexLe(c, b)
    ensures TestSort.VerifyListSortedByStr([TestItem(a), TestItem(c), TestItem(b)], NameField)
      == Fail(ItemUnsorted(2, NameField, b, c))
  {
    var items := [TestItem(a), TestItem(c), TestItem(b)];
    TestItemName(a);
    TestItemName(b);
    TestItemName(c);
    assert TestSort.SortedPrefix(items, NameField, 1);
    assert TestSort.SortedPrefix(items, NameField, 2);
    assert TestSort.ScanItems(items, NameField, 0, None) == TestSort.ScanItems(items, NameField, 1, Some(a));
    assert TestSort.ScanItems(items, NameField, 1, Some(a)) == TestSort.ScanItems(items, NameField, 2, Some(c));
  }

  /** The repeated `[[test]]` header of the file forms one run. */
  lemma RepeatedHeaderOnly(t: Bytes, x: Bytes, y: Bytes, z: Bytes)
    requires Contiguity.IsArrayHeader(t)
    requires !Contiguity.IsHeader(x) && !Contiguity.IsHeader(y) && !Contiguity.IsHeader(z)
    ensures Contiguity.Scan([t, x, t, y, t, z, []], []) == Pass
  {
    OneArrayHeaderPasses([t, x, t, y, t, z, []], t, []);
  }

  lemma UnsortedTestsText()
    ensures Lines(File(UnsortedTestsLines)) == UnsortedTestsLines + [[]]
    ensures Contiguity.VerifyContiguousObjectArrays(File(UnsortedTestsLines)) == Pass
    ensures EndOfLine.VerifySingleEndOfLine(File(UnsortedTestsLines)) == Pass
  {
    HeaderShapes();
    NameLineShape(KeyA);
    NameLineShape(KeyB);
    NameLineShape(KeyC);
    SixPlainLines(TestHeader, NameLine(KeyA), TestHeader, NameLine(KeyC), TestHeader, NameLine(KeyB));
    RepeatedHeaderOnly(TestHeader, NameLine(KeyA), NameLine(KeyC), NameLine(KeyB));
    FileHasOneEndOfLine(UnsortedTestsLines);
  }

  /** With only the end-of-line check the file passes. */
  lemma UnsortedTestsUnchecked(cargo: Outcome<Bytes>)
    ensures Run(NoCargo(NoSorting, Disabled, Disabled), File(UnsortedTestsLines), Parsed(UnsortedTestsDoc), cargo) == Pass
  {
    UnsortedTestsText();
    RunPassesUnsorted(Disabled, Disabled, File(UnsortedTestsLines), UnsortedTestsDoc, cargo);
  }

  /** With the test check the third item, `b`, is reported after `c`. */
  lemma UnsortedTestsChecked(cargo: Outcome<Bytes>)
    ensures Run(NoCargo(Strict, Enabled, Enabled), File(UnsortedTestsLines), Parsed(UnsortedTestsDoc), cargo)
      == Fail(LintError(TestArray, ItemUnsorted(2, NameField, KeyB, KeyC)))
  {
    assert TestKey[0] != DependenciesKey[0] && DevDependenciesKey[0] == DependenciesKey[0];
    OneEntryLookup(TestKey, Array([TestItem(KeyA), TestItem(KeyC), TestItem(KeyB)]), DependenciesKey);
    OneEntryLookup(TestKey, Array([TestItem(KeyA), TestItem(KeyC), TestItem(KeyB)]), DevDependenciesKey);
    ThirdItemUnsorted(KeyA, KeyB, KeyC);
    RunFailsTests(Enabled, File(UnsortedTestsLines), UnsortedTestsDoc, cargo,
      [TestItem(KeyA), TestItem(KeyC), TestItem(KeyB)], ItemUnsorted(2, NameField, KeyB, KeyC));
  }

  // ---- Split-test-array.toml (tests/binary_tests.rs:144-166) ----

  /** Two `[[test]]` items with `[dependencies.c]` between them. */
  const SplitArrayLines: seq<Bytes> :=
    [TestHeader, NameLine(KeyA), SubTableHeader, Assign(VersionKey, QuotedOne), TestHeader, NameLine(KeyB)]
  const SplitArrayDoc: Value :=
    Table([
      (TestKey, Array([TestItem(KeyA), TestItem(KeyB)])),
      (DependenciesKey, Table([(KeyC, Table([(VersionKey, Str([0x31]))]))]))])

  lemma SplitArrayText()
    ensures Contiguity.VerifyContiguousObjectArrays(File(SplitArrayLines))
      == Fail(SeparatedArray(TestHeader, SubTableHeader))
    ensures EndOfLine.VerifySingleEndOfLine(File(SplitArrayLines)) == Pass
  {
    var v := Assign(VersionKey, QuotedOne);
    HeaderShapes();
    NameLineShape(KeyA);
    NameLineShape(KeyB);
    AssignShape(VersionKey, QuotedOne);
    SixPlainLines(TestHeader, NameLine(KeyA), SubTableHeader, v, TestHeader, NameLine(KeyB));
    InterruptedArrayFails(TestHeader, SubTableHeader, NameLine(KeyA), v, NameLine(KeyB));
    FileHasOneEndOfLine(SplitArrayLines);
  }

  /** With only the end-of-line check the file passes. */
  lemma SplitArrayUnchecked(cargo: Outcome<Bytes>)
    ensures Run(NoCargo(NoSorting, Disabled, Disabled), File(SplitArrayLines), Parsed(SplitArrayDoc), cargo) == Pass
  {
    SplitArrayText();
    RunPassesUnsorted(Disabled, Disabled, File(SplitArrayLines), SplitArrayDoc, cargo);
  }

  /** The contiguity check reports `[[test]]` separated by
      `[dependencies.c]`. */
  lemma SplitArrayChecked(cargo: Outcome<Bytes>)
    ensures Run(NoCargo(NoSorting, Disabled, Enabled), File(SplitArrayLines), Parsed(SplitArrayDoc), cargo)
      == Fail(LintError(NoPrefix, SeparatedArray(TestHeader, SubTableHeader)))
  {
    SplitArrayText();
    RunFailsArrays(File(SplitArrayLines), SplitArrayDoc, cargo, SeparatedArray(TestHeader, SubTableHeader));
  }
}
