# cargo-toml-lint, modelled in Dafny

`cargo-toml-lint` checks the style of a `Cargo.toml` file. It runs these checks in a fixed order:

- it asks `cargo verify-project` whether the manifest is valid;
- it requires the dependency lists to be sorted, either in the raw text of the `[dependencies]` and `[dev-dependencies]` sections ("section" mode) or in the parsed tables ("strict" mode);
- it requires the `[[test]]` items to be sorted by their `name`;
- it requires every array of tables (`[[name]]`) to be written as one unbroken run of headers;
- it requires the file to end in exactly one line break.

The first failing check ends the run with one error.

The model works on the file as raw bytes and on the document the TOML parser built from it. The modules follow the program's structure:

- `Bytes`: the slice primitives the checks use. These are ASCII whitespace stripping, prefix and suffix tests, and `split` on a byte with its inverse `Join`.
- `LineScan`: the line scanner shared by the two raw-text checks, and the key of a `key = value` line.
- `Order`: Rust's byte-lexicographic order on strings, and the "stop at the first key smaller than the previous one" loop.
- `Toml`: the parsed document: tables, arrays and strings. A table is a list of entries in the order the document writes them. This assumes the parser's map keeps document order. Strict mode's verdict depends on that order, and the fixtures' expected errors require it.
- `Diagnostics`: the single error a run reports, carrying the values its message names.
- `Outcomes`: the `Option` and `Result<(), E>` datatypes.
- One module per check. Each of the four loop checks follows the source loop step by step and is proved equal to an independent description of what it accepts:
  - `SectionSort` (`verify_section_sorted`)
  - `StrictSort` (`verify_deps_sorted_strict`)
  - `TestSort` (`verify_list_of_objects_is_sorted_by_str`)
  - `Contiguity` (`verify_contiguous_object_arrays`)

  `EndOfLine` (`verify_single_end_of_line`) has no loop: its contract gives the verdict for every ending, and separate lemmas state the verdict for each terminator.
- `Lint`: the sequencing in `main`. The options select the checks, and the run returns the first failure.
- `Fixtures`: the binary tests' scenarios, stated in terms of `Lint.Run` on concrete files.

Where the code differs from how the tool is usually described, the model follows the code:

- Section mode, entering: a line opens the section when it *starts with* the header text. So with header `[dependencies]`, the line `[dependencies]#note` opens it too.
- Section mode, leaving: the first later line that starts with `[` ends the scan for good (`break`). A second occurrence of the section is never examined. Nothing toggles back into the section.
- Contiguity evidence: the error names the *last* entry of the seen-list. Every accepted header line becomes that last entry. So the evidence is always the header line directly before the repeated `[[name]]`, not the first header that interrupted the run (`Fixtures.EvidenceIsLatestHeader`).
- Contiguity seen-list: single-bracket headers are appended every time, so the seen-list is not a list of distinct headers. Only `[[...]]` texts are kept free of repeats (`Contiguity.NoRepeatedArrayHeaders`).
- End of line: the file `x\n\r\n` passes the end-of-line check, because it ends neither in `\n\n` nor in `\r\n\r\n` (`EndOfLine.MixedTerminatorPasses`).

## Model

| member | source | states |
|---|---|---|
| Bytes.Strip | src/main.rs:154-158 | the stripped line holds no ASCII whitespace and is no longer than the line; a line without whitespace is kept whole and a line of only whitespace becomes empty, which with `StripAppend` pins the filter down byte by byte |
| Bytes.StripAppend | src/main.rs:154-158 | whitespace removal works byte by byte: stripping a concatenation is concatenating the stripped parts |
| Bytes.StripIdempotent | src/main.rs:154-158 | stripping a stripped line changes nothing |
| Bytes.Split | src/main.rs:153 | `split` on a byte gives at least one piece, no piece contains the separator, and joining the pieces with the separator gives back the input |
| Bytes.SplitWithoutSeparator | src/main.rs:153 | input without the separator is one piece |
| Bytes.SplitAppend | src/main.rs:153 | splitting `a ++ sep ++ b` is splitting `a` then splitting `b` |
| Bytes.SplitJoin | src/main.rs:153 | splitting undoes joining for any non-empty list of separator-free pieces, so `Split` and `Join` are mutual inverses |
| Order.LexLeReflexive | src/main.rs:135 | the string order used for `p > name` is reflexive |
| Order.LexLeAntisymmetric | src/main.rs:135 | the order is antisymmetric: two strings each at most the other are equal |
| Order.LexLeTransitive | src/main.rs:135 | the order is transitive |
| Order.LexLeTotal | src/main.rs:135 | the order is total, so `!(p > name)` means `p <= name` |
| Order.AdjacentSortedIffSorted | src/main.rs:132-146 | comparing each key only with its predecessor is enough: the keys are pairwise sorted iff every neighbour pair is |
| Order.FirstInversionUnique | src/main.rs:134-140 | a key list has at most one first out-of-order position |
| Order.ScanSorted | src/main.rs:132-146 | the previous-key loop passes iff the keys, after the remembered one, never decrease; on failure it names the first key smaller than its predecessor, and that predecessor |
| Toml.Lookup | src/main.rs:198 | a key lookup finds nothing iff no entry has that key, and otherwise returns the value of the first entry that has it |
| LineScan.Lines | src/main.rs:153-158 | a file always has at least one scanned line, and no scanned line holds whitespace |
| LineScan.LinesAppend | src/main.rs:153-158 | the lines of two texts joined by a line feed are the lines of the first, then the lines of the second |
| LineScan.LinesAroundLine | src/main.rs:153-158 | a line written between two texts is scanned as one line of its own, stripped |
| LineScan.LinesOfJoin | src/main.rs:153-158 | writing lines out with line feeds and scanning them gives them back, stripped |
| LineScan.KeyOf | src/main.rs:173-175 | the key is a prefix of the line without `=`, and is either the whole line or stops right at the first `=` |
| LineScan.KeyOfAssignment | src/main.rs:173-175 | the key of `k=value` is `k` when `k` has no `=` |
| SectionSort.AfterOpeningIsFirstOpening | src/main.rs:186-188 | the section is found iff some line opens it, and its text starts right after the first line that does |
| SectionSort.BodyIsUpToFirstBracket | src/main.rs:164-167 | the section body is the longest run of lines with no line starting with `[`, and stops right before the first such line |
| SectionSort.InSectionScan | src/main.rs:164-185 | inside the section, the loop is the previous-key loop run on the keys of the body's entry lines; blank and `#` lines are skipped without resetting the previous key |
| SectionSort.OutsideScan | src/main.rs:186-188 | outside the section, the loop only looks for the opening line, then continues inside with no previous key |
| SectionSort.SectionScanIsSortedScan | src/main.rs:150-192 | the whole line loop compares exactly the section's entry keys, in order |
| SectionSort.VerifySectionSorted | src/main.rs:150-192 | passes iff the section's entry keys are sorted; otherwise reports the first key smaller than its predecessor, and that predecessor; a file without the section passes |
| SectionSort.SameKeysSameVerdict | src/main.rs:150-192 | two files whose sections have the same keys get the same verdict |
| SectionSort.SectionIgnoresLaterLines | src/main.rs:165-167 | once the section has been closed by a `[` line, appending more text never changes the verdict |
| SectionSort.SkippedLineIrrelevant | src/main.rs:160-171 | inserting a blank or `#` line anywhere, one that does not itself open the section, never changes the verdict |
| StrictSort.VerifyDepsSortedStrict | src/main.rs:129-147 | passes iff the table's keys are sorted in document order; otherwise reports the first key smaller than its predecessor, and that predecessor |
| StrictSort.ShortTablesPass | src/main.rs:129-147 | tables with fewer than two entries always pass |
| StrictSort.StrictIgnoresValues | src/main.rs:133 | only keys matter: tables with the same keys in the same order get the same verdict whatever their values |
| TestSort.ScanItems | src/main.rs:196-218 | from a sorted prefix, the item loop passes iff all items have string names that never decrease; on failure it reports an item at or after the start, with the source's error priority, all items before it being in order |
| TestSort.VerifyListSortedByStr | src/main.rs:194-221 | passes iff every item is a table holding a string under the field and the names never decrease; otherwise the error fits the item at its index (not a table, missing key, non-string value, or smaller than the previous name), and every item before it is in order |
| TestSort.PassMeansSortedNames | src/main.rs:194-221 | passing means every item has a name and the names are sorted pairwise, not just between neighbours |
| TestSort.LaterItemsIrrelevant | src/main.rs:196-218 | once the loop fails, items appended after the array's end do not change the result |
| TestSort.FirstDefectDecides | src/main.rs:194-221 | the first defective item decides the error whatever items follow it |
| Contiguity.Position | src/main.rs:244 | `position` finds nothing iff the header was never seen; otherwise it returns the index of its first occurrence |
| Contiguity.StepLine | src/main.rs:237-259 | the step ignores non-headers, appends single-bracket headers and new `[[...]]` headers, accepts a repeated `[[...]]` header without appending it only when it is the last seen, and otherwise rejects it naming the last seen header; accepted steps keep `[[...]]` texts free of repeats |
| Contiguity.NoViolationIffContiguous | src/main.rs:223-263 | no header line repeats an earlier array header after a different header iff every repeated array header forms one unbroken run of header lines |
| Contiguity.HeaderStep | src/main.rs:240-259 | with a seen-list matching the earlier header lines, a header line is rejected exactly when it is a violation, the evidence named is the header line right before it, and acceptance keeps the seen-list matching |
| Contiguity.ScanFindsFirstViolation | src/main.rs:226-260 | from a matching seen-list, the loop passes iff no header line still to come is a violation, and otherwise reports the first of them |
| Contiguity.ScanPassesIffContiguous | src/main.rs:223-263 | from an empty seen-list, the loop passes exactly on files whose repeated array headers are contiguous |
| Contiguity.ScanFailsAtFirstViolation | src/main.rs:244-250 | from an empty seen-list, a failure names the first violating header line and the header line right before it |
| Contiguity.VerifyContiguousObjectArrays | src/main.rs:223-263 | passes iff every repeated `[[...]]` header of the file forms one unbroken run of header lines; otherwise names the first header that resumes a broken run and the header line just before it |
| EndOfLine.VerifySingleEndOfLine | src/main.rs:265-275 | the result is pass, "no new line" or "multiple new lines"; "no new line" iff the file is empty or its last byte is not LF; any file ending in CR LF CR LF fails as multiple; "multiple" only for a file ending in LF LF or CR LF CR LF; a pass implies the last two bytes are not both LF |
| EndOfLine.DependsOnLastFourBytes | src/main.rs:265-275 | the verdict depends only on the file's last four bytes |
| EndOfLine.NoTerminatorFails | src/main.rs:266-268 | a file whose last byte is not LF fails with "no new line" |
| EndOfLine.OneLineFeedPasses | src/main.rs:265-275 | one LF after a last line ending in neither LF nor CR passes |
| EndOfLine.OneCrLfPasses | src/main.rs:265-275 | one CR LF after a last line not ending in LF passes |
| EndOfLine.TwoLineFeedsFail | src/main.rs:270-272 | any file ending in LF LF fails as multiple new lines |
| EndOfLine.TwoCrLfsFail | src/main.rs:270-272 | any file ending in CR LF CR LF fails as multiple new lines |
| EndOfLine.MixedTerminatorPasses | src/main.rs:265-275 | LF then CR LF after a last line ending in neither LF nor CR passes: the mixed ending is neither doubled form |
| EndOfLine.ExtraLineFeedFails | src/main.rs:270-272 | adding a line feed to a passing file always makes it fail as multiple new lines |
| Lint.FirstFailure | src/main.rs:60-106 | the first failure of a list passes iff every entry passes, and otherwise is a failing entry with only passes before it |
| Lint.RunIsFirstFailingStage | src/main.rs:57-108 | the run reports the first failing enabled check, in the order cargo verification, `[dependencies]`, `[dev-dependencies]`, `[[test]]`, contiguity, end of line |
| Lint.RunPassesIffSelectedChecksPass | src/main.rs:60-106 | the run passes iff cargo verification (unless skipped) passes and every selected check's own condition holds: sorted section keys in section mode, sorted or absent tables in strict mode, a sorted or absent test array, contiguous array headers, a single end of line |
| Lint.UnparseableFailsFirst | src/main.rs:57-58 | a file the parser rejects fails with the parse error before any check runs |
| Lint.FewerChecksStillPass | src/main.rs:60-106 | turning checks off never makes a passing file fail |
| Lint.NothingSelectedPasses | src/main.rs:60-106 | with every check switched off, any parsable file passes |
| Fixtures.NoArrayHeadersPass | src/main.rs:237-259 | a file without `[[...]]` headers always passes the contiguity loop |
| Fixtures.OneArrayHeaderPasses | src/main.rs:243-254 | blocks of one array header separated only by non-header lines pass the contiguity loop |
| Fixtures.InterruptedArrayFails | src/main.rs:243-250 | `[[t]]`, then a table header `d`, then `[[t]]` again fails, naming `[[t]]` and `d` |
| Fixtures.EvidenceIsLatestHeader | src/main.rs:245-250 | for `[[t]] [a] [b] [[t]]` the evidence is `[b]`, the header right before the repeat, not `[a]`, the header that first broke the run |
| Fixtures.FileHasOneEndOfLine | src/main.rs:265-275 | a file of lines each ended by one LF, whose last line ends in neither LF nor CR, passes the end-of-line check |
| Fixtures.TwoKeysInversion | src/main.rs:134-139 | two keys in the wrong order are unsorted, and the only error reported names the second as specified after the first |
| Fixtures.ThirdItemUnsorted | src/main.rs:200-206 | test items named `a`, `c`, `b` with `a <= c` and `c > b` fail at index 2, reporting `b` as specified after `c` |
| Fixtures.UnsortedDepsUnchecked | tests/binary_tests.rs:43-52 | without dependency sorting, a `[dependencies]` section listing `c` before `b` passes |
| Fixtures.UnsortedDepsSection | tests/binary_tests.rs:54-64 | in section mode that file fails in `[dependencies]` with `b` specified after `c` |
| Fixtures.UnsortedDepsStrict | tests/binary_tests.rs:66-76 | in strict mode that file fails in `[dependencies]` with the strict error, `b` specified after `c` |
| Fixtures.StrictOnlyUnchecked | tests/binary_tests.rs:81-90 | without dependency sorting, a file whose section text lists `d` before the sub-table `[dependencies.c]` passes |
| Fixtures.StrictOnlySectionPasses | tests/binary_tests.rs:92-101 | in section mode that file passes, because the sub-table header ends the section after `d` |
| Fixtures.StrictOnlyStrict | tests/binary_tests.rs:103-114 | in strict mode that file fails with `c` specified after `d`, since the parsed table holds `d` then `c` |
| Fixtures.UnsortedTestsUnchecked | tests/binary_tests.rs:119-128 | with dependency sorting, test sorting and the contiguity check off, `[[test]]` items named `a`, `c`, `b` pass |
| Fixtures.UnsortedTestsChecked | tests/binary_tests.rs:130-141 | with test sorting on, that file fails at index 2 with `name=b` specified after `name=c` |
| Fixtures.SplitArrayUnchecked | tests/binary_tests.rs:146-155 | without the contiguity check, a `[[test]]` array split by `[dependencies.c]` passes |
| Fixtures.SplitArrayChecked | tests/binary_tests.rs:157-166 | with the contiguity check, that file fails naming `[[test]]` and `[dependencies.c]` |

## Left out

- Command-line parsing with `clap`: the options are an `Options` value. The defaults are recorded as `Lint.DefaultOptions`, but option aliases are not modelled.
- Reading the file: the contents are an input. A file that cannot be read is not modelled.
- TOML parsing: the parser is outside the model. Its verdict is an input, either a parsed `Value` or `Unparseable`. Nothing relates that document to the raw text, so the fixtures state the document the parser would build alongside each file.
- `cargo_verify_project`: running a subprocess is replaced by its outcome. That outcome is a pass, or a failure carrying the process's standard output. A process that cannot be started (the `expect` panic) is not modelled.
- `String::from_utf8_lossy`: keys and header lines are compared as bytes. This agrees with the source for valid UTF-8. Invalid sequences, which the source replaces with U+FFFD before comparing, are not modelled.
- Message text: errors keep the values their `format!` strings carry, not the rendered text.
- Non-table entries in strict mode, and a non-array `test` entry: modelled as `NotATable` and `NotAnArray`. No fixture exercises them.
- `self_test` and `ok_test` (tests/binary_tests.rs:3-40): the manifests they read are not part of this model, so these scenarios are not restated. The other four tests read fixture files that are also not part of this model. `Fixtures` writes the smallest file with the shape each expected message names.
- Toml.Get: its contract only says that a non-table has no keys. What a lookup in a table finds is stated by `Toml.Lookup`.
