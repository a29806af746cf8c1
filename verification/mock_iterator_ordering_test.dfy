/**
 * MockInteratorOrderingTest: on the in-memory store, iteration order after
 * puts in ascending order, seek to the smallest key not below a target,
 * previous from there, and closing the store with an iterator still open.
 */
module MockInteratorOrderingTest {
  import opened ByteOrder
  import opened Results
  import opened SortedTable
  import opened Database
  import opened TestKeys
  import opened Traversal

  /** A table holding the three puts is the rows 1, 2, 3. */
  lemma AfterThreePuts(t: Table)
    requires ToMap(t) == map[Key(1) := [1], Key(2) := [2], Key(3) := [3]]
    ensures t == Rows([1, 2, 3])
  {
    RowsToMap([], 1);
    RowsToMap([1], 2);
    RowsToMap([1, 2], 3);
    assert [] + [1] == [1] && [1] + [2] == [1, 2] && [1, 2] + [3] == [1, 2, 3];
    assert Rows([]) == [];
    TableIsRows(t, [1, 2, 3]);
  }

  /** The rows 1, 2, 3 with {0, 0, 10} -> {10} put are the rows 1, 2, 3, 10. */
  lemma AfterTenPut(s: Table, t: Table)
    requires s == Rows([1, 2, 3])
    requires ToMap(t) == ToMap(s)[Key(10) := [10]]
    ensures t == Rows([1, 2, 3, 10])
  {
    RowsToMap([1, 2, 3], 10);
    assert [1, 2, 3] + [10] == [1, 2, 3, 10];
    TableIsRows(t, [1, 2, 3, 10]);
  }

  /** Among the rows 1, 2, 3, 10 the lower bound of {0, 0, 4} is the row of 10. */
  lemma SeekFourLandsOnTen(i: nat)
    requires IsLowerBound(Rows([1, 2, 3, 10]), Key(4), i)
    ensures i == 3
  {
    var view := Rows([1, 2, 3, 10]);
    assert view[2].key == [0, 0] + [3] && view[3].key == [0, 0] + [10];
    LastByteDecides([0, 0], 3, 4);
    LastByteDecides([0, 0], 10, 4);
    assert Key(4) == [0, 0] + [4];
  }

  /**
   * testOrdering, first part: after the puts of rows 1, 2, 3 a forward
   * traversal reads, for each step i from 1, a key whose last byte is i and
   * a value whose first byte is i, and stops with the counter at 4.
   */
  method OrderAfterPuts(mock: LevelDB) returns (keyLastBytes: seq<int>, valueFirstBytes: seq<int>, count: int)
    requires !mock.closed && mock.entries == []
    modifies mock
    ensures !mock.closed && mock.entries == Rows([1, 2, 3])
    ensures keyLastBytes == [1, 2, 3] && valueFirstBytes == [1, 2, 3] && count == 4
  {
    var _ := mock.Put(Some(Key(1)), Some([1]), false);
    var _ := mock.Put(Some(Key(2)), Some([2]), false);
    var _ := mock.Put(Some(Key(3)), Some([3]), false);
    AfterThreePuts(mock.entries);

    var created := mock.NewIteratorLatest(false);
    var it := created.value;
    var _ := it.SeekToFirst();
    var keys, values;
    keys, values, count := Forward(it, 1);
    assert forall j :: 0 <= j < |keys| ==> |keys[j]| == 3 && |values[j]| == 1;
    keyLastBytes := seq(|keys|, j requires 0 <= j < |keys| => keys[j][|keys[j]| - 1] as int);
    valueFirstBytes := seq(|values|, j requires 0 <= j < |values| => values[j][0] as int);
    it.Close();
  }

  /**
   * testOrdering, second part: after a put of {0, 0, 10}, a new iterator
   * seeking {0, 0, 4} is valid at {0, 0, 10}, and previous moves it to
   * {0, 0, 3}, still valid.
   */
  method SeekThenPrevious(mock: LevelDB) returns (validAtSeek: bool, seekKey: Result<Bytes>, validAfterPrevious: bool, previousKey: Result<Bytes>)
    requires !mock.closed && mock.entries == Rows([1, 2, 3])
    modifies mock
    ensures validAtSeek && seekKey == Ok(Key(10)) && Compare(Key(10), seekKey.value) == 0
    ensures validAfterPrevious && previousKey == Ok(Key(3)) && Compare(Key(3), previousKey.value) == 0
  {
    ghost var before := mock.entries;
    var _ := mock.Put(Some(Key(10)), Some([10]), false);
    AfterTenPut(before, mock.entries);

    var created := mock.NewIteratorDefault();
    var it := created.value;
    var _ := it.Seek(Some(Key(4)));
    SeekFourLandsOnTen(if it.position.At? then it.position.index else |it.view|);
    var valid := it.IsValid();
    validAtSeek := valid == Ok(true);
    seekKey := it.Key();
    CompareReflexive(Key(10));

    var _ := it.Previous();
    valid := it.IsValid();
    validAfterPrevious := valid == Ok(true);
    previousKey := it.Key();
    CompareReflexive(Key(3));

    it.Close();
    mock.Close();
  }

  /** testOrdering: both parts on one in-memory store. */
  method TestOrdering()
    returns (keyLastBytes: seq<int>, valueFirstBytes: seq<int>, count: int,
             validAtSeek: bool, seekKey: Result<Bytes>, validAfterPrevious: bool, previousKey: Result<Bytes>)
    ensures keyLastBytes == [1, 2, 3] && valueFirstBytes == [1, 2, 3] && count == 4
    ensures validAtSeek && seekKey == Ok(Key(10))
    ensures validAfterPrevious && previousKey == Ok(Key(3))
  {
    var mock := new LevelDB();
    keyLastBytes, valueFirstBytes, count := OrderAfterPuts(mock);
    validAtSeek, seekKey, validAfterPrevious, previousKey := SeekThenPrevious(mock);
  }

  /**
   * testClosed: closing the store while an iterator is open does not fail,
   * and the iterator is left open: the store does not close its iterators.
   */
  method TestClosed() returns (storeClosed: bool, iteratorOpen: bool)
    ensures storeClosed && iteratorOpen
  {
    var mock := new LevelDB();
    var created := mock.NewIteratorLatest(true);
    var it := created.value;
    mock.Close();
    storeClosed := mock.closed;
    iteratorOpen := !it.closed;
  }
}
