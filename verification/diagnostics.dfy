/**
  The single error a run of the linter reports. The source renders each of
  these as one formatted line; the model keeps the values the line carries.
 */
module Diagnostics {
  import opened Bytes

  datatype CheckError =
      /** "Could not parse ...": the document is not valid TOML. */
    | ParseFailed
      /** "cargo verify-project failed: {stdout}". */
    | CargoVerifyFailed(stdout: Bytes)
      /** "should be a table": a dependency section that is not a table. */
    | NotATable
      /** "should be an array": a `test` entry that is not an array. */
    | NotAnArray
      /** "not sorted correctly: {key} is specified after {prev}" (section mode). */
    | Unsorted(key: Bytes, prev: Bytes)
      /** "not sorted correctly (strict): {key} is specified after {prev}". */
    | UnsortedStrict(key: Bytes, prev: Bytes)
      /** "item at {index} is not a table". */
    | ItemNotTable(index: nat)
      /** "item at {index} is missing key {field}". */
    | ItemMissingKey(index: nat, field: Bytes)
      /** "item at {index}: key {field} has a non-string value". */
    | ItemNonString(index: nat, field: Bytes)
      /** "not sorted correctly: item at index {index} with {field}={value}
          is specified after {field}={prev}". */
    | ItemUnsorted(index: nat, field: Bytes, value: Bytes, prev: Bytes)
      /** "Items of {header} are separated by other headers, for instance {other}". */
    | SeparatedArray(header: Bytes, other: Bytes)
      /** "File does not end with a new line". */
    | NoEndOfLine
      /** "File ends with multiple new lines". */
    | MultipleEndOfLines

  /** The prefix the run puts before a check's message. */
  datatype Context =
    | NoPrefix
    | Dependencies     // "[dependencies] "
    | DevDependencies  // "[dev-dependencies] "
    | TestArray        // "[[test]] "

  datatype LintError = LintError(context: Context, error: CheckError)
}
