/**
 * The traversal loops of the iteration suites: position the iterator at one
 * end, then step while it stays valid, collecting each key and value and
 * counting the steps.
 */
module Traversal {
  import opened ByteOrder
  import opened Results
  import opened SortedTable
  import opened Database

  /** The keys of a table, in table order. */
  function KeysOf(s: seq<Entry>): (r: seq<Bytes>)
    ensures |r| == |s| && forall j :: 0 <= j < |s| ==> r[j] == s[j].key
  {
    seq(|s|, j requires 0 <= j < |s| => s[j].key)
  }

  /** The values of a table, in table order. */
  function ValuesOf(s: seq<Entry>): (r: seq<Bytes>)
    ensures |r| == |s| && forall j :: 0 <= j < |s| ==> r[j] == s[j].value
  {
    seq(|s|, j requires 0 <= j < |s| => s[j].value)
  }

  /** s back to front. */
  function Reversed<T>(s: seq<T>): (r: seq<T>)
    ensures |r| == |s| && forall j :: 0 <= j < |s| ==> r[j] == s[|s| - 1 - j]
  {
    seq(|s|, j requires 0 <= j < |s| => s[|s| - 1 - j])
  }

  /**
   * After seekToFirst: while isValid, read key and value, call next and
   * count up from start. Every entry of the view is visited once, in
   * ascending key order, and the iterator ends off the end.
   */
  method Forward(it: Iterator, start: int) returns (keys: seq<Bytes>, values: seq<Bytes>, i: int)
    requires it.Valid() && !it.closed
    requires it.position == (if |it.view| == 0 then Invalid else At(0))
    modifies it
    ensures it.Valid() && !it.closed && it.position == Invalid
    ensures keys == KeysOf(it.view) && values == ValuesOf(it.view)
    ensures forall a, b :: 0 <= a < b < |keys| ==> KeyLess(keys[a], keys[b])
    ensures i == start + |it.view|
  {
    keys, values, i := [], [], start;
    var valid := it.IsValid();
    while valid == Ok(true)
      invariant it.Valid() && !it.closed
      invariant 0 <= i - start <= |it.view|
      invariant valid == Ok(i - start < |it.view|)
      invariant i - start < |it.view| ==> it.position == At(i - start)
      invariant i - start == |it.view| ==> it.position == Invalid
      invariant keys == KeysOf(it.view)[..i - start] && values == ValuesOf(it.view)[..i - start]
      decreases |it.view| - (i - start)
    {
      var key := it.Key();
      var value := it.Value();
      keys := keys + [key.value];
      values := values + [value.value];
      var _ := it.Next();
      i := i + 1;
      valid := it.IsValid();
    }
  }

  /**
   * After seekToLast: while isValid, read key and value, call previous and
   * count down from start. Every entry of the view is visited once, in
   * descending key order, and the iterator ends off the end.
   */
  method Backward(it: Iterator, start: int) returns (keys: seq<Bytes>, values: seq<Bytes>, i: int)
    requires it.Valid() && !it.closed
    requires it.position == (if |it.view| == 0 then Invalid else At(|it.view| - 1))
    modifies it
    ensures it.Valid() && !it.closed && it.position == Invalid
    ensures keys == Reversed(KeysOf(it.view)) && values == Reversed(ValuesOf(it.view))
    ensures forall a, b :: 0 <= a < b < |keys| ==> KeyLess(keys[b], keys[a])
    ensures i == start - |it.view|
  {
    keys, values, i := [], [], start;
    var valid := it.IsValid();
    while valid == Ok(true)
      invariant it.Valid() && !it.closed
      invariant 0 <= start - i <= |it.view|
      invariant valid == Ok(start - i < |it.view|)
      invariant start - i < |it.view| ==> it.position == At(|it.view| - 1 - (start - i))
      invariant start - i == |it.view| ==> it.position == Invalid
      invariant keys == Reversed(KeysOf(it.view))[..start - i]
      invariant values == Reversed(ValuesOf(it.view))[..start - i]
      decreases |it.view| - (start - i)
    {
      var key := it.Key();
      var value := it.Value();
      keys := keys + [key.value];
      values := values + [value.value];
      var _ := it.Previous();
      i := i - 1;
      valid := it.IsValid();
    }
  }
}
