/**
 * The keys the iteration suites write: three bytes {0, 0, n}, each stored
 * with the one-byte value {n}, and the sorted tables they form.
 */
module TestKeys {
  import opened ByteOrder
  import opened SortedTable

  function Key(n: byte): Bytes
  {
    [0, 0, n]
  }

  function Row(n: byte): Entry
  {
    Entry(Key(n), [n])
  }

  /** One row per byte of ns, in the same order. */
  function Rows(ns: seq<byte>): (r: seq<Entry>)
    ensures |r| == |ns| && forall j :: 0 <= j < |ns| ==> r[j] == Row(ns[j])
  {
    seq(|ns|, j requires 0 <= j < |ns| => Row(ns[j]))
  }

  /** Rows for strictly ascending bytes are sorted in the store's key order. */
  lemma RowsSorted(ns: seq<byte>)
    requires forall i, j :: 0 <= i < j < |ns| ==> ns[i] < ns[j]
    ensures Sorted(Rows(ns))
  {
    forall i, j | 0 <= i < j < |ns|
      ensures KeyLess(Rows(ns)[i].key, Rows(ns)[j].key)
    {
      LastByteDecides([0, 0], ns[i], ns[j]);
      assert Key(ns[i]) == [0, 0] + [ns[i]] && Key(ns[j]) == [0, 0] + [ns[j]];
    }
  }

  /** One more row at the end binds one more key in the map. */
  lemma RowsToMap(ns: seq<byte>, n: byte)
    ensures ToMap(Rows(ns + [n])) == ToMap(Rows(ns))[Key(n) := [n]]
  {
    assert Rows(ns + [n])[..|ns|] == Rows(ns);
  }

  /** A table whose map is that of the rows of ascending bytes is those rows. */
  lemma TableIsRows(s: Table, ns: seq<byte>)
    requires forall i, j :: 0 <= i < j < |ns| ==> ns[i] < ns[j]
    requires ToMap(s) == ToMap(Rows(ns))
    ensures s == Rows(ns)
  {
    RowsSorted(ns);
    TableDeterminedByMap(s, Rows(ns));
  }

  /** The key of a byte not among ns is not bound by the rows of ns. */
  lemma RowsKeyAbsent(n: byte, ns: seq<byte>)
    requires forall j :: 0 <= j < |ns| ==> ns[j] != n
    ensures Key(n) !in ToMap(Rows(ns))
  {
    forall j | 0 <= j < |ns|
      ensures Rows(ns)[j].key != Key(n)
    {
      assert Rows(ns)[j].key[2] == ns[j];
    }
    ToMapHasKey(Rows(ns), Key(n));
  }

  /** One more row at the front, for a byte not among the rest, binds one more key. */
  lemma RowsToMapFront(n: byte, ns: seq<byte>)
    requires forall j :: 0 <= j < |ns| ==> ns[j] != n
    ensures ToMap(Rows([n] + ns)) == ToMap(Rows(ns))[Key(n) := [n]]
  {
    var rest := Rows(ns);
    assert Rows([n] + ns) == [Row(n)] + rest;
    ToMapConcat([Row(n)], rest);
    assert ToMap([Row(n)]) == map[Key(n) := [n]];
    RowsKeyAbsent(n, ns);
  }
}
