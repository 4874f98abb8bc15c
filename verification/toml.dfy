/**
  The parsed document, as produced by the external TOML parser: a tree of
  tables (insertion-ordered association lists), arrays, strings and other
  scalars. Keys and strings are kept as their UTF-8 bytes.
 */
module Toml {
  import opened Outcomes
  import opened Bytes

  datatype Value =
    | Table(entries: seq<(Bytes, Value)>)
    | Array(items: seq<Value>)
    | Str(s: Bytes)
    | Other

  /** The keys of a table, in insertion order. */
  function Keys(entries: seq<(Bytes, Value)>): (keys: seq<Bytes>)
    ensures |keys| == |entries|
    ensures forall i | 0 <= i < |entries| :: keys[i] == entries[i].0
  {
    seq(|entries|, i requires 0 <= i < |entries| => entries[i].0)
  }

  /** The value of the first entry named `key`, if any. */
  function Lookup(entries: seq<(Bytes, Value)>, key: Bytes): (r: Option<Value>)
    ensures r.None? <==> forall i | 0 <= i < |entries| :: entries[i].0 != key
    ensures r.Some? ==> exists i | 0 <= i < |entries| ::
      && entries[i] == (key, r.value)
      && forall j | 0 <= j < i :: entries[j].0 != key
    decreases |entries|
  {
    if |entries| == 0 then None
    else if entries[0].0 == key then Some(entries[0].1)
    else
      var r := Lookup(entries[1..], key);
      assert forall j | 1 <= j < |entries| :: entries[j] == entries[1..][j - 1];
      r
  }

  /** `toml::Value::get` with a string index: a lookup in a table, nothing
      in any other kind of value. */
  function Get(v: Value, key: Bytes): (r: Option<Value>)
    ensures !v.Table? ==> r.None?
  {
    if v.Table? then Lookup(v.entries, key) else None
  }
}
