/**
 * The String form of put and a null value. Its documentation says a null
 * value deletes the key, as the byte[] form does; the code converts the
 * value to bytes first, which fails on null, so the key stays.
 */
module NullStringValue {
  import opened ByteOrder
  import opened Results
  import opened Database

  /**
   * As written: after put("k", "v"), put("k", null, false) fails with a
   * null pointer failure and "k" still reads as "v".
   */
  method NullValueKeepsKey() returns (r: Result<()>, after: Result<Option<Bytes>>)
    ensures r == Fail(NullPointer)
    ensures after == Ok(Some([0x76]))
  {
    var db := new LevelDB();
    var k: Bytes := [0x6B];
    var _ := db.PutString(Some(k), Some([0x76]), false);
    r := db.PutString(Some(k), None, false);
    after := db.GetByStringLatest(Some(k));
  }

  /**
   * As documented: the same calls succeed and "k" then reads as null, which
   * is what the byte[] form does with a null value.
   */
  method NullValueDeletesKey() returns (r: Result<()>, after: Result<Option<Bytes>>, bytesForm: Result<Option<Bytes>>)
    ensures r == Ok(()) && after == Ok(None)
    ensures bytesForm == after
  {
    var db := new LevelDB();
    var k: Bytes := [0x6B];
    var _ := db.PutStringAsDocumented(Some(k), Some([0x76]), false);
    r := db.PutStringAsDocumented(Some(k), None, false);
    after := db.GetByStringLatest(Some(k));

    var other := new LevelDB();
    var _ := other.Put(Some(k), Some([0x76]), false);
    var _ := other.Put(Some(k), None, false);
    bytesForm := other.GetLatest(Some(k));
  }
}
