/**
  Test-array ordering (`verify_list_of_objects_is_sorted_by_str`): every
  item of the `[[test]]` array must be a table holding a string under the
  given field, and those strings must never decrease. Items are examined in
  index order and the first defective item decides the single error.
 */
module TestSort {
  import opened Outcomes
  import opened Bytes
  import opened Order
  import opened Toml
  import opened Diagnostics

  /** The string an item holds under `field`, when it is a table that has
      one. */
  function NameOf(item: Value, field: Bytes): Option<Bytes> {
    if !item.Table? then None
    else match Lookup(item.entries, field)
      case Some(Str(s)) => Some(s)
      case _ => None
  }

  /** The first `n` items all have a name, and their names never decrease. */
  ghost predicate SortedPrefix(items: seq<Value>, field: Bytes, n: nat) {
    && n <= |items|
    && (forall i | 0 <= i < n :: NameOf(items[i], field).Some?)
    && (forall i | 0 < i < n ::
          LexLe(NameOf(items[i - 1], field).value, NameOf(items[i], field).value))
  }

  /** `e` is the error the item at its index produces, with the priority the
      source gives them: not a table, then no such key, then not a string,
      then smaller than the previous name. */
  ghost predicate ReportsItem(items: seq<Value>, field: Bytes, e: CheckError) {
    match e
    case ItemNotTable(i) =>
      i < |items| && !items[i].Table?
    case ItemMissingKey(i, f) =>
      i < |items| && f == field && items[i].Table? && Lookup(items[i].entries, field).None?
    case ItemNonString(i, f) =>
      && i < |items| && f == field && items[i].Table?
      && Lookup(items[i].entries, field).Some? && !Lookup(items[i].entries, field).value.Str?
    case ItemUnsorted(i, f, v, p) =>
      && 0 < i < |items| && f == field
      && NameOf(items[i], field) == Some(v) && NameOf(items[i - 1], field) == Some(p)
      && !LexLe(p, v)
    case _ => false
  }

  /** The loop of src/main.rs:195-220 from index `i`, `prev` being the name
      of the item before it. */
  function ScanItems(items: seq<Value>, field: Bytes, i: nat, prev: Option<Bytes>): (r: Outcome<CheckError>)
    requires i <= |items|
    requires SortedPrefix(items, field, i)
    requires prev == if i == 0 then None else NameOf(items[i - 1], field)
    ensures r.Pass? <==> SortedPrefix(items, field, |items|)
    ensures r.Fail? ==>
      && ReportsItem(items, field, r.error)
      && i <= r.error.index
      && SortedPrefix(items, field, r.error.index)
    decreases |items| - i
  {
    if i == |items| then Pass
    else
      var item := items[i];
      if !item.Table? then Fail(ItemNotTable(i))
      else match Lookup(item.entries, field)
        case None => Fail(ItemMissingKey(i, field))
        case Some(v) =>
          if !v.Str? then Fail(ItemNonString(i, field))
          else if prev.Some? && !LexLe(prev.value, v.s) then Fail(ItemUnsorted(i, field, v.s, prev.value))
          else
            ExtendSortedPrefix(items, field, i, prev, v.s);
            ScanItems(items, field, i + 1, Some(v.s))
  }

  /** A named item that does not sort before its predecessor extends the
      sorted prefix by one. */
  lemma ExtendSortedPrefix(items: seq<Value>, field: Bytes, i: nat, prev: Option<Bytes>, name: Bytes)
    requires i < |items|
    requires SortedPrefix(items, field, i)
    requires prev == if i == 0 then None else NameOf(items[i - 1], field)
    requires NameOf(items[i], field) == Some(name)
    requires prev.Some? ==> LexLe(prev.value, name)
    ensures SortedPrefix(items, field, i + 1)
  {
    forall k | 0 <= k < i + 1
      ensures NameOf(items[k], field).Some?
    {
    }
    forall k | 0 < k < i + 1
      ensures LexLe(NameOf(items[k - 1], field).value, NameOf(items[k], field).value)
    {
      if k == i {
        assert prev == NameOf(items[k - 1], field);
      }
    }
  }

  /** `verify_list_of_objects_is_sorted_by_str`: passes iff every item has a
      string name and the names never decrease; otherwise reports the first
      defective item, all items before it being in order. */
  function VerifyListSortedByStr(items: seq<Value>, field: Bytes): (r: Outcome<CheckError>)
    ensures r.Pass? <==> SortedPrefix(items, field, |items|)
    ensures r.Fail? ==> ReportsItem(items, field, r.error) && SortedPrefix(items, field, r.error.index)
  {
    ScanItems(items, field, 0, None)
  }

  /** Passing means globally sorted by name, not just pairwise. */
  lemma PassMeansSortedNames(items: seq<Value>, field: Bytes)
    requires VerifyListSortedByStr(items, field) == Pass
    ensures forall i | 0 <= i < |items| :: items[i].Table? && NameOf(items[i], field).Some?
    ensures forall i, j | 0 <= i < j < |items| ::
      LexLe(NameOf(items[i], field).value, NameOf(items[j], field).value)
  {
    var names := seq(|items|, i requires 0 <= i < |items| => NameOf(items[i], field).value);
    assert AdjacentSorted(names);
    AdjacentSortedIffSorted(names);
    forall i, j | 0 <= i < j < |items|
      ensures LexLe(NameOf(items[i], field).value, NameOf(items[j], field).value)
    {
      assert names[i] == NameOf(items[i], field).value && names[j] == NameOf(items[j], field).value;
    }
  }

  /** Nothing after the first defective item matters. */
  lemma {:induction false} LaterItemsIrrelevant(items: seq<Value>, more: seq<Value>, field: Bytes, i: nat, prev: Option<Bytes>)
    requires i <= |items|
    requires SortedPrefix(items, field, i)
    requires prev == if i == 0 then None else NameOf(items[i - 1], field)
    requires ScanItems(items, field, i, prev).Fail?
    ensures SortedPrefix(items + more, field, i)
    ensures ScanItems(items + more, field, i, prev) == ScanItems(items, field, i, prev)
    decreases |items| - i
  {
    var all := items + more;
    PrefixKeepsOrder(items, more, field, i);
    assert all[i] == items[i];
    assert i > 0 ==> all[i - 1] == items[i - 1];
    var item := items[i];
    if item.Table? && Lookup(item.entries, field).Some? && Lookup(item.entries, field).value.Str? {
      var v := Lookup(item.entries, field).value.s;
      if !(prev.Some? && !LexLe(prev.value, v)) {
        ExtendSortedPrefix(items, field, i, prev, v);
        LaterItemsIrrelevant(items, more, field, i + 1, Some(v));
      }
    }
  }

  /** Appending items leaves a sorted prefix sorted. */
  lemma PrefixKeepsOrder(items: seq<Value>, more: seq<Value>, field: Bytes, n: nat)
    requires SortedPrefix(items, field, n)
    ensures SortedPrefix(items + more, field, n)
  {
    var all := items + more;
    forall k | 0 <= k < n
      ensures NameOf(all[k], field) == NameOf(items[k], field)
    {
      assert all[k] == items[k];
    }
  }

  /** The first defective item decides the result, whatever follows it. */
  lemma FirstDefectDecides(items: seq<Value>, more: seq<Value>, field: Bytes)
    requires VerifyListSortedByStr(items, field).Fail?
    ensures VerifyListSortedByStr(items + more, field) == VerifyListSortedByStr(items, field)
  {
    LaterItemsIrrelevant(items, more, field, 0, None);
  }
}
