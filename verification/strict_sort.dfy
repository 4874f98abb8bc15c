/**
  Strict dependency ordering (`verify_deps_sorted_strict`): the keys of a
  parsed dependency table, in the order the document lists them, must never
  decrease. Comments and blank lines play no part; values are ignored.
 */
module StrictSort {
  import opened Outcomes
  import opened Bytes
  import opened Order
  import opened Toml
  import opened Diagnostics

  function VerifyDepsSortedStrict(table: seq<(Bytes, Value)>): (r: Outcome<CheckError>)
    ensures r.Pass? <==> Sorted(Keys(table))
    ensures r.Fail? ==>
      && r.error.UnsortedStrict?
      && ReportsFirstInversion(Keys(table), Inversion(r.error.key, r.error.prev))
  {
    AdjacentSortedIffSorted(Keys(table));
    match ScanSorted(Keys(table), None)
    case Pass => Pass
    case Fail(inv) => Fail(UnsortedStrict(inv.key, inv.prev))
  }

  /** Tables with fewer than two entries are always in order. */
  lemma ShortTablesPass(table: seq<(Bytes, Value)>)
    requires |table| < 2
    ensures VerifyDepsSortedStrict(table) == Pass
  {
  }

  /** Only the keys matter: two tables with the same keys in the same order
      get the same verdict, whatever their values. */
  lemma StrictIgnoresValues(t1: seq<(Bytes, Value)>, t2: seq<(Bytes, Value)>)
    requires Keys(t1) == Keys(t2)
    ensures VerifyDepsSortedStrict(t1) == VerifyDepsSortedStrict(t2)
  {
  }
}
