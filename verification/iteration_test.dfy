/**
 * IterationTest: an iterator's frozen view, forward and backward traversal
 * with a byte counter, stepping an invalid iterator, and every accessor of a
 * closed iterator.
 */
module IterationTest {
  import opened ByteOrder
  import opened Results
  import opened SortedTable
  import opened Batches
  import opened Database
  import opened TestKeys
  import opened Traversal

  /** The batch the test writes first: {0, 0, n} -> {n} for n = 1, 2, 3. */
  function FirstBatch(): seq<BatchOp>
  {
    [Put(Key(1), [1]), Put(Key(2), [2]), Put(Key(3), [3])]
  }

  /** Writing the first batch to an empty store gives the rows 1, 2, 3. */
  lemma FirstBatchRows()
    ensures ApplyBatch(map[], FirstBatch()) == ToMap(Rows([1, 2, 3]))
  {
    var wb := FirstBatch();
    ApplyBatchAppend(map[], [], wb[0]);
    ApplyBatchAppend(map[], [wb[0]], wb[1]);
    ApplyBatchAppend(map[], [wb[0], wb[1]], wb[2]);
    assert [wb[0], wb[1], wb[2]] == wb;
    RowsToMap([], 1);
    RowsToMap([1], 2);
    RowsToMap([1, 2], 3);
  }

  /** A table holding the first batch is the rows 1, 2, 3. */
  lemma AfterFirstBatch(t: Table)
    requires ToMap(t) == ApplyBatch(map[], FirstBatch())
    ensures t == Rows([1, 2, 3])
  {
    FirstBatchRows();
    TableIsRows(t, [1, 2, 3]);
  }

  /** The rows 1, 2, 3 with {0, 0, 0} -> {0} put are the rows 0, 1, 2, 3. */
  lemma AfterZeroPut(s: Table, t: Table)
    requires s == Rows([1, 2, 3])
    requires ToMap(t) == ToMap(s)[Key(0) := [0]]
    ensures t == Rows([0, 1, 2, 3])
  {
    RowsToMapFront(0, [1, 2, 3]);
    assert [0] + [1, 2, 3] == [0, 1, 2, 3];
    TableIsRows(t, [0, 1, 2, 3]);
  }

  /** What a forward pass over the rows 1, 2, 3 reads. */
  lemma FirstView()
    ensures KeysOf(Rows([1, 2, 3])) == [Key(1), Key(2), Key(3)]
    ensures ValuesOf(Rows([1, 2, 3])) == [[1], [2], [3]]
  {
  }

  /** What a backward pass over the rows 0, 1, 2, 3 reads. */
  lemma SecondView()
    ensures Reversed(KeysOf(Rows([0, 1, 2, 3]))) == [Key(3), Key(2), Key(1), Key(0)]
    ensures Reversed(ValuesOf(Rows([0, 1, 2, 3]))) == [[3], [2], [1], [0]]
  {
  }

  /**
   * testIteration, first half: the batch of rows 1, 2, 3 is written, an
   * iterator is created, then {0, 0, 0} is put. The iterator visits exactly
   * the rows 1, 2, 3 in ascending order, each with its value, and the byte
   * counter ends at 4; closing it twice is allowed.
   */
  method IterateBeforePut(db: LevelDB)
    returns (forward: seq<Bytes>, forwardValues: seq<Bytes>, forwardCount: int)
    requires !db.closed && db.entries == []
    modifies db
    ensures !db.closed && db.entries == Rows([0, 1, 2, 3])
    ensures forward == [Key(1), Key(2), Key(3)] && forwardValues == [[1], [2], [3]] && forwardCount == 4
  {
    var _ := db.WriteAsync(Some(FirstBatch()));
    AfterFirstBatch(db.entries);

    var created := db.NewIteratorDefault();
    var it := created.value;
    ghost var before := db.entries;
    var _ := db.PutAsync(Some(Key(0)), Some([0]));
    AfterZeroPut(before, db.entries);
    forward, forwardValues, forwardCount := TraverseFirstView(it);
  }

  /**
   * The traversal of the first iterator: from seekToFirst, a byte counter
   * from 1 while isValid, then close twice.
   */
  method TraverseFirstView(it: Iterator) returns (forward: seq<Bytes>, forwardValues: seq<Bytes>, forwardCount: int)
    requires it.Valid() && !it.closed && it.view == Rows([1, 2, 3])
    modifies it
    ensures forward == [Key(1), Key(2), Key(3)] && forwardValues == [[1], [2], [3]] && forwardCount == 4
    ensures it.closed
  {
    var _ := it.SeekToFirst();
    var i: int;
    forward, forwardValues, i := Forward(it, 1);
    FirstView();
    forwardCount := i % 256;
    it.Close();
    it.Close();
  }

  /**
   * testIteration, second half: a new iterator sees the later put. It is
   * valid at the last key, previous visits 3, 2, 1, 0 in descending order,
   * and the byte counter, read as i & 0xFF, ends at 255. Then next and
   * previous on the invalid iterator both fail with IteratorNotValid.
   */
  method IterateAfterPut(db: LevelDB)
    returns (validAtLast: bool, backward: seq<Bytes>, backwardValues: seq<Bytes>, backwardCount: int,
             threwOnNext: bool, threwOnPrevious: bool)
    requires !db.closed && db.entries == Rows([0, 1, 2, 3])
    modifies db
    ensures validAtLast
    ensures backward == [Key(3), Key(2), Key(1), Key(0)] && backwardValues == [[3], [2], [1], [0]]
    ensures backwardCount == 255
    ensures threwOnNext && threwOnPrevious
  {
    var created := db.NewIteratorDefault();
    var it := created.value;
    var _ := it.SeekToLast();
    var valid := it.IsValid();
    validAtLast := valid == Ok(true);
    var i: int;
    backward, backwardValues, i := Backward(it, 3);
    SecondView();
    backwardCount := i % 256;

    var r := it.Next();
    threwOnNext := r == Fail(IteratorNotValid);
    r := it.Previous();
    threwOnPrevious := r == Fail(IteratorNotValid);

    it.Close();
    db.Close();
  }

  /** testIteration: both halves on one store. */
  method TestIteration()
    returns (forward: seq<Bytes>, forwardValues: seq<Bytes>, forwardCount: int,
             validAtLast: bool, backward: seq<Bytes>, backwardValues: seq<Bytes>, backwardCount: int,
             threwOnNext: bool, threwOnPrevious: bool)
    ensures forward == [Key(1), Key(2), Key(3)] && forwardValues == [[1], [2], [3]] && forwardCount == 4
    ensures validAtLast
    ensures backward == [Key(3), Key(2), Key(1), Key(0)] && backwardValues == [[3], [2], [1], [0]]
    ensures backwardCount == 255
    ensures threwOnNext && threwOnPrevious
  {
    var db := new LevelDB();
    forward, forwardValues, forwardCount := IterateBeforePut(db);
    validAtLast, backward, backwardValues, backwardCount, threwOnNext, threwOnPrevious := IterateAfterPut(db);
  }

  /**
   * testClosed: on a closed iterator that was never positioned, isValid,
   * next, previous, key and value each fail with Closed.
   */
  method TestClosed() returns (failures: seq<Failure>)
    ensures failures == [Closed, Closed, Closed, Closed, Closed]
  {
    var db := new LevelDB();
    var created := db.NewIteratorLatest(true);
    var it := created.value;
    it.Close();

    var valid := it.IsValid();
    var next := it.Next();
    var previous := it.Previous();
    var key := it.Key();
    var value := it.Value();
    failures := [valid.failure, next.failure, previous.failure, key.failure, value.failure];
    db.Close();
  }
}
