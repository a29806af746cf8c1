/**
 * The store's contents: entries sorted strictly by key, as the in-memory store
 * keeps them in a sorted map. `ToMap` is the abstract value, the map from key
 * to value; every operation is specified by what it does to that map.
 */
module SortedTable {
  import opened ByteOrder
  import opened Results

  datatype Entry = Entry(key: Bytes, value: Bytes)

  /** Keys strictly ascending in the store's key order. */
  ghost predicate Sorted(s: seq<Entry>)
  {
    forall i, j :: 0 <= i < j < |s| ==> KeyLess(s[i].key, s[j].key)
  }

  /** A sorted sequence of entries: the store's table, and every frozen copy of it. */
  type Table = s: seq<Entry> | Sorted(s) witness []

  /** Some entry of s has key k. */
  ghost predicate HasKey(s: seq<Entry>, k: Bytes)
  {
    exists j :: 0 <= j < |s| && s[j].key == k
  }

  /** In a table no key occurs twice. */
  lemma KeysDistinct(s: Table, i: nat, j: nat)
    requires i < |s| && j < |s| && i != j
    ensures s[i].key != s[j].key
  {
    if i < j {
      KeyLessIrreflexive(s[i].key);
    } else {
      KeyLessIrreflexive(s[j].key);
    }
  }

  /** The abstract value of a sequence of entries: each key bound to the value of its last entry. */
  function ToMap(s: seq<Entry>): map<Bytes, Bytes>
    decreases |s|
  {
    if s == [] then map[] else ToMap(s[..|s| - 1])[s[|s| - 1].key := s[|s| - 1].value]
  }

  /** The keys of ToMap(s) are the keys of s's entries. */
  lemma {:induction false} ToMapHasKey(s: seq<Entry>, k: Bytes)
    ensures k in ToMap(s) <==> HasKey(s, k)
    decreases |s|
  {
    if s != [] {
      var p := s[..|s| - 1];
      ToMapHasKey(p, k);
      if HasKey(p, k) {
        var j :| 0 <= j < |p| && p[j].key == k;
        assert s[j].key == k;
      }
      if HasKey(s, k) && s[|s| - 1].key != k {
        var j :| 0 <= j < |s| && s[j].key == k;
        assert p[j].key == k;
      }
    }
  }

  /** The entries of a concatenation bind as the two halves do, the right half winning. */
  lemma {:induction false} ToMapConcat(a: seq<Entry>, b: seq<Entry>)
    ensures ToMap(a + b) == ToMap(a) + ToMap(b)
    decreases |b|
  {
    if b == [] {
      assert a + b == a;
    } else {
      var b' := b[..|b| - 1];
      assert (a + b)[..|a + b| - 1] == a + b';
      ToMapConcat(a, b');
    }
  }

  /** Splitting a sequence around position i. */
  lemma ToMapSplit(s: seq<Entry>, i: nat)
    requires i < |s|
    ensures ToMap(s) == ToMap(s[..i]) + map[s[i].key := s[i].value] + ToMap(s[i + 1..])
  {
    assert s == s[..i] + [s[i]] + s[i + 1..];
    ToMapConcat(s[..i] + [s[i]], s[i + 1..]);
    ToMapConcat(s[..i], [s[i]]);
    assert ToMap([s[i]]) == ToMap([])[s[i].key := s[i].value];
  }

  /** In a table, each entry's key is bound to that entry's value. */
  lemma ToMapAt(s: Table, i: nat)
    requires i < |s|
    ensures s[i].key in ToMap(s) && ToMap(s)[s[i].key] == s[i].value
  {
    ToMapSplit(s, i);
    RestAbsent(s, i);
    MapSplitAt(ToMap(s[..i]), s[i].key, s[i].value, ToMap(s[i + 1..]));
  }

  /** Reading a key from a map: its value, or null when absent. */
  function Find(m: map<Bytes, Bytes>, k: Bytes): Option<Bytes>
  {
    if k in m then Some(m[k]) else None
  }

  /** Position i is where k belongs in s: every entry before it sorts below k, none from it on does. */
  ghost predicate IsLowerBound(s: seq<Entry>, k: Bytes, i: nat)
  {
    && i <= |s|
    && (forall j :: 0 <= j < i ==> KeyLess(s[j].key, k))
    && (forall j :: i <= j < |s| ==> !KeyLess(s[j].key, k))
  }

  /** Binary search for the smallest entry whose key is not below k. */
  method LowerBound(s: Table, k: Bytes) returns (i: nat)
    ensures IsLowerBound(s, k, i)
  {
    var lo, hi := 0, |s|;
    while lo < hi
      invariant 0 <= lo <= hi <= |s|
      invariant forall j :: 0 <= j < lo ==> KeyLess(s[j].key, k)
      invariant forall j :: hi <= j < |s| ==> !KeyLess(s[j].key, k)
    {
      var mid := (lo + hi) / 2;
      if KeyLess(s[mid].key, k) {
        forall j | 0 <= j < mid
          ensures KeyLess(s[j].key, k)
        {
          KeyLessTransitive(s[j].key, s[mid].key, k);
        }
        lo := mid + 1;
      } else {
        forall j | mid < j < |s|
          ensures !KeyLess(s[j].key, k)
        {
          if KeyLess(s[j].key, k) {
            KeyLessTransitive(s[mid].key, s[j].key, k);
          }
        }
        hi := mid;
      }
    }
    i := lo;
  }

  /** A key that is not at its lower bound is nowhere in the table. */
  lemma AbsentAtLowerBound(s: Table, k: Bytes, i: nat)
    requires IsLowerBound(s, k, i)
    requires i == |s| || s[i].key != k
    ensures k !in ToMap(s)
  {
    ToMapHasKey(s, k);
    if HasKey(s, k) {
      var j :| 0 <= j < |s| && s[j].key == k;
      if j < i {
        KeyLessIrreflexive(k);
      }
    }
  }

  /** A point read: the value stored under k, or null. */
  method Lookup(s: Table, k: Bytes) returns (r: Option<Bytes>)
    ensures r == Find(ToMap(s), k)
  {
    var i := LowerBound(s, k);
    if i < |s| && s[i].key == k {
      ToMapAt(s, i);
      r := Some(s[i].value);
    } else {
      AbsentAtLowerBound(s, k, i);
      r := None;
    }
  }

  /** Every entry from the lower bound of an absent key on sorts above it. */
  lemma AboveLowerBound(s: Table, k: Bytes, i: nat)
    requires IsLowerBound(s, k, i)
    requires i == |s| || s[i].key != k
    ensures forall j :: i <= j < |s| ==> KeyLess(k, s[j].key)
  {
    forall j | i <= j < |s|
      ensures KeyLess(k, s[j].key)
    {
      if j > i {
        assert KeyLess(s[i].key, s[j].key);
      }
      KeyLessTotal(k, s[j].key);
    }
  }

  /** An entry for an absent key placed at its lower bound keeps the table sorted. */
  lemma InsertKeepsSorted(s: Table, i: nat, e: Entry)
    requires IsLowerBound(s, e.key, i)
    requires i == |s| || s[i].key != e.key
    ensures Sorted(s[..i] + [e] + s[i..])
  {
    AboveLowerBound(s, e.key, i);
    var r := s[..i] + [e] + s[i..];
    forall a, b | 0 <= a < b < |r|
      ensures KeyLess(r[a].key, r[b].key)
    {
      if b < i {
        assert r[a] == s[a] && r[b] == s[b];
      } else if b == i {
        assert r[a] == s[a];
      } else if a < i {
        assert r[a] == s[a] && r[b] == s[b - 1];
        KeyLessTransitive(s[a].key, e.key, s[b - 1].key);
      } else if a == i {
        assert r[b] == s[b - 1];
      } else {
        assert r[a] == s[a - 1] && r[b] == s[b - 1];
      }
    }
  }

  /** Removing the entry at position i keeps the table sorted. */
  lemma DropKeepsSorted(s: Table, i: nat)
    requires i < |s|
    ensures Sorted(s[..i] + s[i + 1..])
  {
    var r := s[..i] + s[i + 1..];
    forall a, b | 0 <= a < b < |r|
      ensures KeyLess(r[a].key, r[b].key)
    {
      var a', b' := if a < i then a else a + 1, if b < i then b else b + 1;
      assert r[a] == s[a'] && r[b] == s[b'];
    }
  }

  /** Overwriting an entry's value keeps the table sorted. */
  lemma ReplaceKeepsSorted(s: Table, i: nat, v: Bytes)
    requires i < |s|
    ensures Sorted(s[i := Entry(s[i].key, v)])
  {
    var r := s[i := Entry(s[i].key, v)];
    forall a, b | 0 <= a < b < |r|
      ensures KeyLess(r[a].key, r[b].key)
    {
      assert r[a].key == s[a].key && r[b].key == s[b].key;
    }
  }

  /** A key bound between two parts, the right one not holding it. */
  lemma MapSplitAt(a: map<Bytes, Bytes>, k: Bytes, v: Bytes, b: map<Bytes, Bytes>)
    requires k !in b
    ensures k in a + map[k := v] + b && (a + map[k := v] + b)[k] == v
  {
  }

  /** Rebinding a key that the right part does not hold. */
  lemma MapSplitRebind(a: map<Bytes, Bytes>, k: Bytes, v: Bytes, w: Bytes, b: map<Bytes, Bytes>)
    requires k !in b
    ensures a + map[k := w] + b == (a + map[k := v] + b)[k := w]
  {
  }

  /** Dropping a key that neither part holds. */
  lemma MapSplitDrop(a: map<Bytes, Bytes>, k: Bytes, v: Bytes, b: map<Bytes, Bytes>)
    requires k !in a && k !in b
    ensures (a + map[k := v] + b) - {k} == a + b
  {
  }

  /** Binding a key between two parts that do not hold it. */
  lemma MapInsertBetween(a: map<Bytes, Bytes>, k: Bytes, v: Bytes, b: map<Bytes, Bytes>)
    requires k !in b
    ensures a + map[k := v] + b == (a + b)[k := v]
  {
  }

  /** Putting a new binding between two halves, neither of which holds its key. */
  lemma InsertBetween(a: seq<Entry>, e: Entry, b: seq<Entry>)
    requires e.key !in ToMap(b)
    ensures ToMap(a + [e] + b) == (ToMap(a) + ToMap(b))[e.key := e.value]
  {
    ToMapConcat(a + [e], b);
    ToMapConcat(a, [e]);
    assert ToMap([e]) == map[e.key := e.value];
    MapInsertBetween(ToMap(a), e.key, e.value, ToMap(b));
  }

  /** Overwriting the entry at position i rebinds only its key. */
  lemma ReplaceToMap(s: Table, i: nat, v: Bytes)
    requires i < |s|
    ensures ToMap(s[i := Entry(s[i].key, v)]) == ToMap(s)[s[i].key := v]
  {
    var r := s[i := Entry(s[i].key, v)];
    ToMapSplit(s, i);
    ToMapSplit(r, i);
    assert r[..i] == s[..i] && r[i + 1..] == s[i + 1..];
    RestAbsent(s, i);
    MapSplitRebind(ToMap(s[..i]), s[i].key, s[i].value, v, ToMap(s[i + 1..]));
  }

  /** Inserting an absent key at its lower bound adds just that binding. */
  lemma InsertToMap(s: Table, i: nat, e: Entry)
    requires IsLowerBound(s, e.key, i)
    requires i == |s| || s[i].key != e.key
    ensures ToMap(s[..i] + [e] + s[i..]) == ToMap(s)[e.key := e.value]
  {
    AbsentAtLowerBound(s, e.key, i);
    InsertAbsent(s, i, e);
  }

  /** Inserting a binding for an absent key anywhere adds just that binding. */
  lemma InsertAbsent(s: seq<Entry>, i: nat, e: Entry)
    requires i <= |s|
    requires e.key !in ToMap(s)
    ensures ToMap(s[..i] + [e] + s[i..]) == ToMap(s)[e.key := e.value]
  {
    assert s == s[..i] + s[i..];
    ToMapConcat(s[..i], s[i..]);
    InsertBetween(s[..i], e, s[i..]);
  }

  /** The table with k bound to v, given i, the lower bound of k. */
  function Upsert(s: Table, i: nat, k: Bytes, v: Bytes): (r: Table)
    requires IsLowerBound(s, k, i)
    ensures ToMap(r) == ToMap(s)[k := v]
  {
    if i < |s| && s[i].key == k then
      ReplaceKeepsSorted(s, i, v);
      ReplaceToMap(s, i, v);
      s[i := Entry(k, v)]
    else
      InsertKeepsSorted(s, i, Entry(k, v));
      InsertToMap(s, i, Entry(k, v));
      s[..i] + [Entry(k, v)] + s[i..]
  }

  /** The key at position i of a table occurs neither before nor after it. */
  lemma RestAbsent(s: Table, i: nat)
    requires i < |s|
    ensures s[i].key !in ToMap(s[..i]) && s[i].key !in ToMap(s[i + 1..])
  {
    ToMapHasKey(s[..i], s[i].key);
    ToMapHasKey(s[i + 1..], s[i].key);
    if HasKey(s[..i], s[i].key) {
      var j :| 0 <= j < i && s[..i][j].key == s[i].key;
      KeysDistinct(s, j, i);
    }
    if HasKey(s[i + 1..], s[i].key) {
      var j :| 0 <= j < |s| - i - 1 && s[i + 1..][j].key == s[i].key;
      KeysDistinct(s, i + 1 + j, i);
    }
  }

  /** Removing the entry at position i unbinds only its key. */
  lemma DropToMap(s: Table, i: nat)
    requires i < |s|
    ensures ToMap(s[..i] + s[i + 1..]) == ToMap(s) - {s[i].key}
  {
    ToMapSplit(s, i);
    ToMapConcat(s[..i], s[i + 1..]);
    RestAbsent(s, i);
    MapSplitDrop(ToMap(s[..i]), s[i].key, s[i].value, ToMap(s[i + 1..]));
  }

  /** The table without k, given i, the lower bound of k. */
  function Remove(s: Table, i: nat, k: Bytes): (r: Table)
    requires IsLowerBound(s, k, i)
    ensures ToMap(r) == ToMap(s) - {k}
  {
    if i < |s| && s[i].key == k then
      DropKeepsSorted(s, i);
      DropToMap(s, i);
      s[..i] + s[i + 1..]
    else
      AbsentAtLowerBound(s, k, i);
      s
  }

  /** Dropping the first entry of a table drops exactly its key from the map. */
  lemma ToMapFront(s: Table)
    requires s != []
    ensures Sorted(s[1..])
    ensures ToMap(s[1..]) == ToMap(s) - {s[0].key}
  {
    DropKeepsSorted(s, 0);
    DropToMap(s, 0);
    assert s[..0] + s[1..] == s[1..];
  }

  /**
   * A table is the one sorted listing of its map: two tables with the same
   * contents are the same sequence, so the entry order is fixed by the key
   * order alone.
   */
  lemma {:induction false} TableDeterminedByMap(s: Table, t: Table)
    requires ToMap(s) == ToMap(t)
    ensures s == t
    decreases |s|
  {
    if s == [] || t == [] {
      if s != [] {
        ToMapAt(s, 0);
      }
      if t != [] {
        ToMapAt(t, 0);
      }
    } else {
      var a, b := s[0].key, t[0].key;
      ToMapAt(s, 0);
      ToMapAt(t, 0);
      ToMapHasKey(t, a);
      ToMapHasKey(s, b);
      var j :| 0 <= j < |t| && t[j].key == a;
      var l :| 0 <= l < |s| && s[l].key == b;
      if a != b {
        assert KeyLess(b, a) && KeyLess(a, b);
        KeyLessTransitive(a, b, a);
        KeyLessIrreflexive(a);
      }
      ToMapFront(s);
      ToMapFront(t);
      TableDeterminedByMap(s[1..], t[1..]);
      assert s == [s[0]] + s[1..] && t == [t[0]] + t[1..];
    }
  }
}
