/**
  The ordering both dependency checks and the test-array check compare keys
  with: Rust's `Ord` on `String`, which is lexicographic on the UTF-8 bytes.
  Also the loop shared by the two dependency checks, which walks a key list
  remembering the previous key and stops at the first key smaller than it.
 */
module Order {
  import opened Outcomes
  import opened Bytes

  /** `a <= b` in byte-lexicographic order; a proper prefix comes first.
      The source's `p > key` is `!LexLe(p, key)`. */
  predicate LexLe(a: Bytes, b: Bytes)
    decreases |a|
  {
    |a| == 0 || (|b| > 0 && (a[0] < b[0] || (a[0] == b[0] && LexLe(a[1..], b[1..]))))
  }

  lemma {:induction false} LexLeReflexive(a: Bytes)
    ensures LexLe(a, a)
    decreases |a|
  {
    if |a| > 0 {
      LexLeReflexive(a[1..]);
    }
  }

  lemma {:induction false} LexLeAntisymmetric(a: Bytes, b: Bytes)
    requires LexLe(a, b) && LexLe(b, a)
    ensures a == b
    decreases |a|
  {
    if |a| > 0 {
      LexLeAntisymmetric(a[1..], b[1..]);
      assert a == [a[0]] + a[1..] && b == [b[0]] + b[1..];
    }
  }

  lemma {:induction false} LexLeTransitive(a: Bytes, b: Bytes, c: Bytes)
    requires LexLe(a, b) && LexLe(b, c)
    ensures LexLe(a, c)
    decreases |a|
  {
    if |a| > 0 && a[0] == b[0] && b[0] == c[0] {
      LexLeTransitive(a[1..], b[1..], c[1..]);
    }
  }

  lemma {:induction false} LexLeTotal(a: Bytes, b: Bytes)
    ensures LexLe(a, b) || LexLe(b, a)
    decreases |a|
  {
    if |a| > 0 && |b| > 0 && a[0] == b[0] {
      LexLeTotal(a[1..], b[1..]);
    }
  }

  /** Every key is at most its successor: what the checks test. */
  ghost predicate AdjacentSorted(keys: seq<Bytes>) {
    forall i | 0 < i < |keys| :: LexLe(keys[i - 1], keys[i])
  }

  /** Every key is at most every later key: what "sorted" means. */
  ghost predicate Sorted(keys: seq<Bytes>) {
    forall i, j | 0 <= i < j < |keys| :: LexLe(keys[i], keys[j])
  }

  /** Checking neighbours is enough, because the byte order is transitive. */
  lemma {:induction false} AdjacentSortedIffSorted(keys: seq<Bytes>)
    ensures AdjacentSorted(keys) <==> Sorted(keys)
  {
    if AdjacentSorted(keys) {
      forall i, j | 0 <= i < j < |keys|
        ensures LexLe(keys[i], keys[j])
      {
        var m := i + 1;
        while m < j
          invariant i < m <= j
          invariant LexLe(keys[i], keys[m])
        {
          LexLeTransitive(keys[i], keys[m], keys[m + 1]);
          m := m + 1;
        }
      }
    }
  }

  /** A key reported as specified after a greater one. */
  datatype Inversion = Inversion(key: Bytes, prev: Bytes)

  /** Position `k` holds the first key that is smaller than its predecessor. */
  ghost predicate FirstInversionAt(keys: seq<Bytes>, k: int) {
    && 0 < k < |keys|
    && !LexLe(keys[k - 1], keys[k])
    && AdjacentSorted(keys[..k])
  }

  /** `inv` names the first out-of-order key and the key before it. */
  ghost predicate ReportsFirstInversion(keys: seq<Bytes>, inv: Inversion) {
    exists k :: FirstInversionAt(keys, k) && inv == Inversion(keys[k], keys[k - 1])
  }

  /** There is at most one first inversion. */
  lemma FirstInversionUnique(keys: seq<Bytes>, k: int, k': int)
    requires FirstInversionAt(keys, k) && FirstInversionAt(keys, k')
    ensures k == k'
  {
  }

  /** The keys seen so far, the remembered previous key first. */
  function WithPrev(prev: Option<Bytes>, keys: seq<Bytes>): seq<Bytes> {
    if prev.Some? then [prev.value] + keys else keys
  }

  lemma AdjacentSortedCons(p: Bytes, keys: seq<Bytes>)
    requires |keys| > 0
    ensures AdjacentSorted([p] + keys) <==> LexLe(p, keys[0]) && AdjacentSorted(keys)
  {
    var l := [p] + keys;
    if LexLe(p, keys[0]) && AdjacentSorted(keys) {
      forall i | 0 < i < |l|
        ensures LexLe(l[i - 1], l[i])
      {
        if i > 1 {
          assert l[i - 1] == keys[i - 2] && l[i] == keys[i - 1];
        }
      }
    }
    if AdjacentSorted(l) {
      assert LexLe(l[0], l[1]);
      forall i | 0 < i < |keys|
        ensures LexLe(keys[i - 1], keys[i])
      {
        assert l[i] == keys[i - 1] && l[i + 1] == keys[i];
      }
    }
  }

  lemma ReportsFirstInversionCons(p: Bytes, keys: seq<Bytes>, inv: Inversion)
    requires |keys| > 0 && LexLe(p, keys[0])
    requires ReportsFirstInversion(keys, inv)
    ensures ReportsFirstInversion([p] + keys, inv)
  {
    var k :| FirstInversionAt(keys, k) && inv == Inversion(keys[k], keys[k - 1]);
    var l := [p] + keys;
    assert l[..k + 1] == [p] + keys[..k];
    AdjacentSortedCons(p, keys[..k]);
    assert FirstInversionAt(l, k + 1);
  }

  /** The loop shared by both dependency checks (the strict loop of
      src/main.rs:132-146 and the in-section part of src/main.rs:173-185):
      fail at the first key that `prev` exceeds, else remember the key. */
  function ScanSorted(keys: seq<Bytes>, prev: Option<Bytes>): (r: Outcome<Inversion>)
    ensures r.Pass? <==> AdjacentSorted(WithPrev(prev, keys))
    ensures r.Fail? ==> ReportsFirstInversion(WithPrev(prev, keys), r.error)
    decreases |keys|
  {
    if |keys| == 0 then Pass
    else if prev.Some? && !LexLe(prev.value, keys[0]) then
      var l := [prev.value] + keys;
      assert FirstInversionAt(l, 1) by {
        assert l[..1] == [prev.value];
      }
      Fail(Inversion(keys[0], prev.value))
    else
      var r := ScanSorted(keys[1..], Some(keys[0]));
      assert WithPrev(Some(keys[0]), keys[1..]) == keys;
      if prev.Some? then
        AdjacentSortedCons(prev.value, keys);
        if r.Fail? then
          ReportsFirstInversionCons(prev.value, keys, r.error);
          r
        else r
      else r
  }
}
