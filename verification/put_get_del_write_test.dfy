/**
 * PutGetDelWriteTest: put, get, del and write on one store, their
 * null-argument failures and their failures after close. Each scenario
 * returns what the suite asserts, and its postcondition states it.
 */
module PutGetDelWriteTest {
  import opened ByteOrder
  import opened Results
  import opened Batches
  import opened Database

  /**
   * testPut: puts with and without sync succeed, a null value is accepted,
   * a null key is rejected, and a put after close fails with Closed.
   */
  method TestPut() returns (putsSucceeded: bool, threwOnNullKey: bool, threwAfterClose: bool)
    ensures putsSucceeded && threwOnNullKey && threwAfterClose
  {
    var db := new LevelDB();
    var r1 := db.Put(Some([1, 2, 3]), Some([1, 2, 3]), true);
    var r2 := db.Put(Some([1, 2, 3, 4]), Some([1, 2, 3, 4]), false);
    var r3 := db.Put(Some([1, 2, 3, 4, 5]), None, false);
    putsSucceeded := r1.Ok? && r2.Ok? && r3.Ok?;

    var r := db.Put(None, None, false);
    threwOnNullKey := r == Fail(IllegalArgument);

    db.Close();
    r := db.Put(Some([1, 2, 3]), Some([1, 2, 3]), false);
    threwAfterClose := r == Fail(Closed);
  }

  /**
   * testGet: a read returns what was put, an overwrite with a null value
   * makes the key absent, a null key is rejected, and a read after close
   * fails with Closed.
   */
  method TestGet() returns (first: Result<Option<Bytes>>, second: Result<Option<Bytes>>,
                            afterNullPut: Result<Option<Bytes>>,
                            threwOnNullKey: bool, threwAfterClose: bool)
    ensures first == Ok(Some([1, 2, 3])) && Compare([1, 2, 3], first.value.value) == 0
    ensures second == Ok(Some([1, 2, 4])) && Compare([1, 2, 4], second.value.value) == 0
    ensures afterNullPut == Ok(None)
    ensures threwOnNullKey && threwAfterClose
  {
    var db := new LevelDB();
    var _ := db.Put(Some([1, 2, 3]), Some([1, 2, 3]), false);
    first := db.GetLatest(Some([1, 2, 3]));
    CompareReflexive([1, 2, 3]);

    var _ := db.Put(Some([1, 2, 4]), Some([1, 2, 4]), true);
    second := db.GetLatest(Some([1, 2, 4]));
    CompareReflexive([1, 2, 4]);

    var _ := db.Put(Some([1, 2, 4]), None, false);
    afterNullPut := db.GetLatest(Some([1, 2, 4]));

    var r := db.GetLatest(None);
    threwOnNullKey := r == Fail(IllegalArgument);

    db.Close();
    r := db.GetLatest(Some([1, 2, 3]));
    threwAfterClose := r == Fail(Closed);
  }

  /**
   * testDel: a deleted key reads as absent, a new put makes it visible
   * again, a null key is rejected, and a delete after close fails with
   * Closed.
   */
  method TestDel() returns (observed: seq<Result<Option<Bytes>>>, threwOnNullKey: bool, threwAfterClose: bool)
    ensures observed == [Ok(Some([1, 2, 3])), Ok(None), Ok(Some([1, 2, 3])), Ok(None)]
    ensures threwOnNullKey && threwAfterClose
  {
    var db := new LevelDB();
    var k: Bytes := [1, 2, 3];
    var _ := db.Put(Some(k), Some(k), false);
    var g1 := db.GetLatest(Some(k));
    var _ := db.Del(Some(k), false);
    var g2 := db.GetLatest(Some(k));
    var _ := db.Put(Some(k), Some(k), false);
    var g3 := db.GetLatest(Some(k));
    var _ := db.Del(Some(k), true);
    var g4 := db.GetLatest(Some(k));
    observed := [g1, g2, g3, g4];

    var r := db.Del(None, false);
    threwOnNullKey := r == Fail(IllegalArgument);

    db.Close();
    r := db.Del(Some(k), false);
    threwAfterClose := r == Fail(Closed);
  }

  /**
   * testWrite: a batch of two puts makes both keys visible; a second batch
   * that overwrites one key and deletes the other applies both; a null
   * batch is rejected, and a write after close fails with Closed.
   */
  method TestWrite() returns (bothVisible: bool, overwritten: Result<Option<Bytes>>, deleted: Result<Option<Bytes>>,
                              threwOnNullBatch: bool, threwAfterClose: bool)
    ensures bothVisible
    ensures overwritten == Ok(Some([1, 2, 3])) && Compare(overwritten.value.value, [1, 2, 3]) == 0
    ensures deleted == Ok(None)
    ensures threwOnNullBatch && threwAfterClose
  {
    var db := new LevelDB();
    var k3: Bytes, k4: Bytes := [1, 2, 3], [1, 2, 3, 4];

    var swb: seq<BatchOp> := [];
    swb := swb + [Put(k3, k3)];
    swb := swb + [Put(k4, k4)];
    assert swb == [Put(k3, k3), Put(k4, k4)];
    ApplyPair(db.Contents(), swb[0], swb[1]);
    var _ := db.Write(Some(swb), false);
    var g3 := db.GetLatest(Some(k3));
    var g4 := db.GetLatest(Some(k4));
    bothVisible := g3.Ok? && g3.value.Some? && g4.Ok? && g4.value.Some?;

    swb := [];
    swb := swb + [Put(k4, k3)];
    swb := swb + [Delete(k3)];
    assert swb == [Put(k4, k3), Delete(k3)];
    ApplyPair(db.Contents(), swb[0], swb[1]);
    var _ := db.Write(Some(swb), true);
    overwritten := db.GetLatest(Some(k4));
    CompareReflexive(k3);
    deleted := db.GetLatest(Some(k3));

    var r := db.Write(None, true);
    threwOnNullBatch := r == Fail(IllegalArgument);

    db.Close();
    r := db.Write(Some([]), false);
    threwAfterClose := r == Fail(Closed);
  }
}
