/**
  The run of the linter (`main`, src/main.rs:51-109) after the file has been
  read: the parser's verdict, then the enabled checks in a fixed order, the
  first failure ending the run. Command-line parsing is replaced by an
  `Options` value, and `cargo verify-project` by the outcome it would have.
 */
module Lint {
  import opened Outcomes
  import opened Bytes
  import opened Toml
  import opened Diagnostics
  import Order
  import LineScan
  import StrictSort
  import SectionSort
  import TestSort
  import Contiguity
  import EndOfLine

  datatype DependencySorting = NoSorting | Section | Strict

  datatype Toggle = Enabled | Disabled

  /** The command-line options that select the checks. */
  datatype Options = Options(
    noCargoVerify: bool,
    sortDependencies: DependencySorting,
    sortTests: Toggle,
    contiguousObjectArrays: Toggle,
    singleEndOfLine: Toggle)

  /** The defaults of src/main.rs:12-29. */
  const DefaultOptions := Options(false, Strict, Enabled, Enabled, Enabled)

  /** What the TOML parser made of the file. */
  datatype Parsed = Parsed(doc: Value) | Unparseable

  /** `dependencies` */
  const DependenciesKey: Bytes := [0x64, 0x65, 0x70, 0x65, 0x6E, 0x64, 0x65, 0x6E, 0x63, 0x69, 0x65, 0x73]
  /** `dev-dependencies` */
  const DevDependenciesKey: Bytes := [0x64, 0x65, 0x76, 0x2D] + DependenciesKey
  /** `[dependencies]` */
  const DependenciesHeader: Bytes := [LBRACKET] + DependenciesKey + [RBRACKET]
  /** `[dev-dependencies]` */
  const DevDependenciesHeader: Bytes := [LBRACKET] + DevDependenciesKey + [RBRACKET]
  /** `test` */
  const TestKey: Bytes := [0x74, 0x65, 0x73, 0x74]
  /** `name` */
  const NameField: Bytes := [0x6E, 0x61, 0x6D, 0x65]

  /** `map_err(|err| format!("{prefix} {}", err))`. */
  function InContext(context: Context, r: Outcome<CheckError>): Outcome<LintError> {
    match r
    case Pass => Pass
    case Fail(e) => Fail(LintError(context, e))
  }

  /** `cargo_verify_project`, given the outcome of the subprocess: its
      standard output when it exits unsuccessfully. */
  function CargoStage(cargo: Outcome<Bytes>): Outcome<LintError> {
    match cargo
    case Pass => Pass
    case Fail(stdout) => Fail(LintError(NoPrefix, CargoVerifyFailed(stdout)))
  }

  /** One section in strict mode (src/main.rs:73-78 and 80-86): absent is
      fine, present must be a table whose keys are sorted. */
  function StrictStage(doc: Value, key: Bytes, context: Context): Outcome<LintError> {
    match Get(doc, key)
    case None => Pass
    case Some(Table(entries)) => InContext(context, StrictSort.VerifyDepsSortedStrict(entries))
    case Some(_) => Fail(LintError(context, NotATable))
  }

  /** One section in section mode (src/main.rs:67-70). */
  function SectionStage(contents: Bytes, header: Bytes, context: Context): Outcome<LintError> {
    InContext(context, SectionSort.VerifySectionSorted(contents, header))
  }

  /** The test-array stage (src/main.rs:91-97): absent is fine, present must
      be an array sorted by name. */
  function TestStage(doc: Value): Outcome<LintError> {
    match Get(doc, TestKey)
    case None => Pass
    case Some(Array(items)) => InContext(TestArray, TestSort.VerifyListSortedByStr(items, NameField))
    case Some(_) => Fail(LintError(TestArray, NotAnArray))
  }

  /** The strict-mode requirement on one section: absent, or a table whose
      keys are sorted. */
  ghost predicate StrictSectionSorted(doc: Value, key: Bytes) {
    match Get(doc, key)
    case None => true
    case Some(Table(entries)) => Order.Sorted(Keys(entries))
    case Some(_) => false
  }

  /** The test-array requirement: absent, or an array of tables whose
      string names never decrease. */
  ghost predicate TestArraySorted(doc: Value) {
    match Get(doc, TestKey)
    case None => true
    case Some(Array(items)) => TestSort.SortedPrefix(items, NameField, |items|)
    case Some(_) => false
  }

  /** The `[dependencies]` half of the dependency stage for the selected
      sorting mode (src/main.rs:64-87). */
  function DependenciesCheck(opts: Options, contents: Bytes, doc: Value): Outcome<LintError> {
    match opts.sortDependencies
    case NoSorting => Pass
    case Section => SectionStage(contents, DependenciesHeader, Dependencies)
    case Strict => StrictStage(doc, DependenciesKey, Dependencies)
  }

  /** The `[dev-dependencies]` half, which runs only after the first passed. */
  function DevDependenciesCheck(opts: Options, contents: Bytes, doc: Value): Outcome<LintError> {
    match opts.sortDependencies
    case NoSorting => Pass
    case Section => SectionStage(contents, DevDependenciesHeader, DevDependencies)
    case Strict => StrictStage(doc, DevDependenciesKey, DevDependencies)
  }

  /** Each remaining stage when its option selects it; passing otherwise. */
  function CargoCheck(opts: Options, cargo: Outcome<Bytes>): Outcome<LintError> {
    if opts.noCargoVerify then Pass else CargoStage(cargo)
  }

  function TestsCheck(opts: Options, doc: Value): Outcome<LintError> {
    if opts.sortTests == Enabled then TestStage(doc) else Pass
  }

  function ArraysCheck(opts: Options, contents: Bytes): Outcome<LintError> {
    if opts.contiguousObjectArrays == Enabled
    then InContext(NoPrefix, Contiguity.VerifyContiguousObjectArrays(contents))
    else Pass
  }

  function EndOfLineCheck(opts: Options, contents: Bytes): Outcome<LintError> {
    if opts.singleEndOfLine == Enabled
    then InContext(NoPrefix, EndOfLine.VerifySingleEndOfLine(contents))
    else Pass
  }

  /** The run as `main` sequences it (src/main.rs:57-108): each `?` returns
      the first error. */
  function Run(opts: Options, contents: Bytes, parsed: Parsed, cargo: Outcome<Bytes>): Outcome<LintError> {
    match parsed
    case Unparseable => Fail(LintError(NoPrefix, ParseFailed))
    case Parsed(doc) =>
      var cargoResult := CargoCheck(opts, cargo);
      if cargoResult.Fail? then cargoResult else
      var depsResult := DependenciesCheck(opts, contents, doc);
      if depsResult.Fail? then depsResult else
      var devResult := DevDependenciesCheck(opts, contents, doc);
      if devResult.Fail? then devResult else
      var testsResult := TestsCheck(opts, doc);
      if testsResult.Fail? then testsResult else
      var arraysResult := ArraysCheck(opts, contents);
      if arraysResult.Fail? then arraysResult else
      EndOfLineCheck(opts, contents)
  }

  /** Every check the options select, each evaluated on its own, in the
      order of the run; a disabled check counts as passing. */
  function Stages(opts: Options, contents: Bytes, doc: Value, cargo: Outcome<Bytes>): seq<Outcome<LintError>> {
    [ CargoCheck(opts, cargo),
      DependenciesCheck(opts, contents, doc),
      DevDependenciesCheck(opts, contents, doc),
      TestsCheck(opts, doc),
      ArraysCheck(opts, contents),
      EndOfLineCheck(opts, contents) ]
  }

  /** The first failing outcome of a list, or `Pass`. */
  function FirstFailure<E>(stages: seq<Outcome<E>>): (r: Outcome<E>)
    ensures r.Pass? <==> forall i | 0 <= i < |stages| :: stages[i].Pass?
    ensures r.Fail? ==> exists i | 0 <= i < |stages| ::
      stages[i] == r && forall j | 0 <= j < i :: stages[j].Pass?
    decreases |stages|
  {
    if |stages| == 0 then Pass
    else if stages[0].Fail? then stages[0]
    else
      var r := FirstFailure(stages[1..]);
      assert forall j | 1 <= j < |stages| :: stages[j] == stages[1..][j - 1];
      r
  }

  /** The run reports the first failing enabled check, in the order cargo
      verification, `[dependencies]`, `[dev-dependencies]`, `[[test]]`,
      contiguity, end of line, and passes iff every enabled check passes. */
  lemma {:induction false} RunIsFirstFailingStage(opts: Options, contents: Bytes, doc: Value, cargo: Outcome<Bytes>)
    ensures Run(opts, contents, Parsed(doc), cargo) == FirstFailure(Stages(opts, contents, doc, cargo))
  {
    var s := Stages(opts, contents, doc, cargo);
    assert FirstFailure(s[5..]) == s[5] by {
      assert s[5..][1..] == [];
    }
    assert FirstFailure(s[4..]) == if s[4].Fail? then s[4] else FirstFailure(s[5..]) by {
      assert s[4..][1..] == s[5..];
    }
    assert FirstFailure(s[3..]) == if s[3].Fail? then s[3] else FirstFailure(s[4..]) by {
      assert s[3..][1..] == s[4..];
    }
    assert FirstFailure(s[2..]) == if s[2].Fail? then s[2] else FirstFailure(s[3..]) by {
      assert s[2..][1..] == s[3..];
    }
    assert FirstFailure(s[1..]) == if s[1].Fail? then s[1] else FirstFailure(s[2..]) by {
      assert s[1..][1..] == s[2..];
    }
  }

  /** What passing the run means, check by check, in the terms of each
      check's own specification. */
  lemma RunPassesIffSelectedChecksPass(opts: Options, contents: Bytes, doc: Value, cargo: Outcome<Bytes>)
    ensures Run(opts, contents, Parsed(doc), cargo) == Pass <==>
      && (opts.noCargoVerify || cargo.Pass?)
      && (opts.sortDependencies == Section ==>
            && Order.Sorted(SectionSort.SectionKeys(LineScan.Lines(contents), DependenciesHeader))
            && Order.Sorted(SectionSort.SectionKeys(LineScan.Lines(contents), DevDependenciesHeader)))
      && (opts.sortDependencies == Strict ==>
            StrictSectionSorted(doc, DependenciesKey) && StrictSectionSorted(doc, DevDependenciesKey))
      && (opts.sortTests == Enabled ==> TestArraySorted(doc))
      && (opts.contiguousObjectArrays == Enabled ==>
            Contiguity.Contiguous(Contiguity.HeaderLines(LineScan.Lines(contents))))
      && (opts.singleEndOfLine == Enabled ==> EndOfLine.VerifySingleEndOfLine(contents).Pass?)
  {
    RunIsFirstFailingStage(opts, contents, doc, cargo);
  }

  /** A file the parser rejects fails before any check runs. */
  lemma UnparseableFailsFirst(opts: Options, contents: Bytes, cargo: Outcome<Bytes>)
    ensures Run(opts, contents, Unparseable, cargo) == Fail(LintError(NoPrefix, ParseFailed))
  {
  }

  /** Options `weak` select no more checks than `strong`. */
  predicate SelectsFewer(weak: Options, strong: Options) {
    && (strong.noCargoVerify ==> weak.noCargoVerify)
    && (weak.sortDependencies == NoSorting || weak.sortDependencies == strong.sortDependencies)
    && (weak.sortTests == Enabled ==> strong.sortTests == Enabled)
    && (weak.contiguousObjectArrays == Enabled ==> strong.contiguousObjectArrays == Enabled)
    && (weak.singleEndOfLine == Enabled ==> strong.singleEndOfLine == Enabled)
  }

  /** Turning checks off never makes a passing file fail. */
  lemma FewerChecksStillPass(weak: Options, strong: Options, contents: Bytes, doc: Value, cargo: Outcome<Bytes>)
    requires SelectsFewer(weak, strong)
    requires Run(strong, contents, Parsed(doc), cargo) == Pass
    ensures Run(weak, contents, Parsed(doc), cargo) == Pass
  {
    assert CargoCheck(strong, cargo).Pass? && DependenciesCheck(strong, contents, doc).Pass?;
    assert DevDependenciesCheck(strong, contents, doc).Pass? && TestsCheck(strong, doc).Pass?;
    assert ArraysCheck(strong, contents).Pass? && EndOfLineCheck(strong, contents).Pass?;
    assert CargoCheck(weak, cargo).Pass? && DependenciesCheck(weak, contents, doc).Pass?;
    assert DevDependenciesCheck(weak, contents, doc).Pass? && TestsCheck(weak, doc).Pass?;
    assert ArraysCheck(weak, contents).Pass? && EndOfLineCheck(weak, contents).Pass?;
  }

  /** With every check switched off, any parsable file passes. */
  lemma NothingSelectedPasses(contents: Bytes, doc: Value, cargo: Outcome<Bytes>)
    ensures Run(Options(true, NoSorting, Disabled, Disabled, Disabled), contents, Parsed(doc), cargo) == Pass
  {
  }
}
