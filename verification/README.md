# LevelDB for Android: the ordered byte-string store, modelled in Dafny

`LevelDB` (leveldb/src/main/java/com/github/hf/leveldb/LevelDB.java) is the
abstract handle of an ordered key-value store. Keys and values are byte
strings. It offers:

- point reads, `put`, `del` and atomic write batches;
- snapshots that freeze the store's contents;
- bidirectional iterators over a frozen, sorted view;
- lifecycle checks: a null argument, a closed handle, a snapshot from
  another store, an iterator stepped off the end.

The library ships a native implementation and an in-memory one. This
project models the in-memory store that the abstract contract and its
androidTest suites describe. It also models the `Configuration` builder.
Each test of the suites becomes a verified scenario.

Layout, one module per file:

| module | file | what it holds |
|---|---|---|
| `Results` | results.dfy | `Option`, the failure kinds, `Result` |
| `ByteOrder` | byte_order.dfy | bytes, the comparator `Bytes.lexicographicCompare`, the store's key order |
| `SortedTable` | sorted_table.dfy | the store's entries: a sorted sequence, its map, binary search, insert and remove |
| `Batches` | batch.dfy | write batches and their meaning on the contents |
| `Database` | database.dfy | the classes `LevelDB`, `Snapshot` and `Iterator` |
| `Settings` | configuration.dfy | `Configuration` and Java's `Math.abs` on a 32-bit int |
| `Traversal` | traversal.dfy | the suites' `while (iterator.isValid())` loops |
| `TestKeys` | test_keys.dfy | the iteration suites' keys `{0, 0, n}` and the tables they form |
| `BytesTest`, `PutGetDelWriteTest`, `IterationTest`, `SnapshotTest`, `MockInteratorOrderingTest` | one file each | the test suites as scenarios |
| `NullStringValue` | null_string_value.dfy | the finding below |

Modelling choices:

- **Bytes.** A byte is its unsigned value 0..255, which is a Java byte `b`
  seen as `b & 0xFF`. A Java `String` argument is represented by the bytes
  `getBytes()` gives for it. A Java `null` is `None`.
- **Comparator.** `Compare` compares unsigned, byte by byte. The shorter
  operand is padded with zero bytes, so `{1, 2, 3}` and `{1, 2, 3, 0, 0, 0}`
  compare equal. On raw sequences it is only a total preorder. Java's
  comparator may answer any negative or positive int; `Compare` reduces the
  answer to -1, 0 or 1, which loses nothing because the suites read only its
  sign (they assert equality with 0 or compare against 0).
- **Keys.** The store keeps keys as exact byte sequences. It orders them by
  `KeyLess`: `Compare` first, then shorter first among zero-padded variants.
  `KeyLessIsBytewise` proves this is LevelDB's bytewise order, so it is a
  strict total order.
- **Entries.** The store holds its entries as a `Table`: a sequence sorted
  by `KeyLess`. Its meaning is the map `ToMap`. Every operation is specified
  on that map. Put, delete and get find their position by binary search
  (`LowerBound`).
- **Snapshots and iterators.**
  - A snapshot is a frozen copy of the table, taken when it is obtained.
  - An iterator is a frozen copy of the table, taken from the given
    snapshot or from an implicit snapshot of the current state. It also
    keeps a position (`Unpositioned`, `At(i)` or `Invalid`) and a closed
    flag.
- **Failures.** A failure is a `Result` value: `IllegalArgument`, `Closed`,
  `SnapshotOwnership`, `IteratorNotValid`, or `NullPointer` for a
  dereferenced null.
  - The convenience overloads check for a null argument first, because
    their `checkArgument` call runs before they delegate. The model applies
    the same order to the abstract methods behind them, as a choice by
    analogy: a null argument first, then a closed handle, then snapshot
    ownership.
  - Reading through a released snapshot fails with `IllegalArgument`.
  - A failed operation changes nothing.
  - On a closed iterator every accessor fails with `Closed`, even when it
    was never positioned. Closing the store does not close its iterators
    (LevelDB.java:357-359).

## Model

| member | source | states |
|---|---|---|
| ByteOrder.Compare | leveldb/src/androidTest/java/com/github/hf/leveldb/test/BytesTest.java:54-64 | the comparator's answer is a sign: -1, 0 or 1 |
| ByteOrder.CompareAntisymmetric | leveldb/src/androidTest/java/com/github/hf/leveldb/test/BytesTest.java:57-58 | swapping the operands negates the result |
| ByteOrder.CompareReflexive | leveldb/src/androidTest/java/com/github/hf/leveldb/test/BytesTest.java:63-64 | every byte string compares equal to itself |
| ByteOrder.CompareTransitive | leveldb/src/androidTest/java/com/github/hf/leveldb/test/BytesTest.java:54-64 | a <= b <= c gives a <= c, and equal ends make the whole chain equal |
| ByteOrder.CompareZeroIffPaddedEqual | leveldb/src/androidTest/java/com/github/hf/leveldb/test/BytesTest.java:60-64 | two byte strings compare equal exactly when they agree after zero padding |
| ByteOrder.TrailingZerosInsignificant | leveldb/src/androidTest/java/com/github/hf/leveldb/test/BytesTest.java:60-64 | appending zero bytes leaves a byte string equal to itself, in either operand position |
| ByteOrder.CompareEmptyFirst | leveldb/src/androidTest/java/com/github/hf/leveldb/test/BytesTest.java:54-58 | the empty byte string never compares above another |
| ByteOrder.KeyLessIsBytewise | leveldb/src/androidTest/java/com/github/hf/leveldb/test/mock/MockInteratorOrderingTest.java:54-78 | the store's key order is exactly unsigned lexicographic order with a proper prefix first |
| ByteOrder.KeyLessIrreflexive | leveldb/src/androidTest/java/com/github/hf/leveldb/test/mock/MockInteratorOrderingTest.java:54-78 | no key sorts before itself |
| ByteOrder.KeyLessTransitive | leveldb/src/androidTest/java/com/github/hf/leveldb/test/mock/MockInteratorOrderingTest.java:54-78 | the key order is transitive |
| ByteOrder.KeyLessTotal | leveldb/src/androidTest/java/com/github/hf/leveldb/test/mock/MockInteratorOrderingTest.java:54-78 | any two distinct keys are ordered one way or the other |
| ByteOrder.KeyLessRefinesCompare | leveldb/src/androidTest/java/com/github/hf/leveldb/test/BytesTest.java:54-64 | the key order never contradicts the comparator, follows it where it is strict, and separates only keys of different length |
| ByteOrder.LastByteDecides | leveldb/src/androidTest/java/com/github/hf/leveldb/test/mock/MockInteratorOrderingTest.java:86-100 | keys that differ only in their last byte are ordered by that byte, both directions |
| SortedTable.LowerBound | leveldb/src/androidTest/java/com/github/hf/leveldb/test/mock/MockInteratorOrderingTest.java:86-92 | binary search returns the position where every entry before sorts below the key and none after does |
| SortedTable.Lookup | leveldb/src/main/java/com/github/hf/leveldb/LevelDB.java:212-220 | a point read of a table gives the key's value in the table's map, or null |
| SortedTable.Upsert | leveldb/src/main/java/com/github/hf/leveldb/LevelDB.java:151-158 | binding a key keeps the table sorted and changes its map by exactly that binding |
| SortedTable.Remove | leveldb/src/main/java/com/github/hf/leveldb/LevelDB.java:283-289 | removing a key keeps the table sorted and removes exactly that key from its map, present or not |
| SortedTable.TableDeterminedByMap | leveldb/src/main/java/com/github/hf/leveldb/LevelDB.java:354-365 | two tables with the same contents are the same sequence, so what an iterator walks is fixed by the contents alone |
| Batches.UntouchedKeyUnchanged | leveldb/src/androidTest/java/com/github/hf/leveldb/test/common/PutGetDelWriteTest.java:189-199 | a batch leaves every key it does not name as it was |
| Batches.LastOperationWins | leveldb/src/androidTest/java/com/github/hf/leveldb/test/common/PutGetDelWriteTest.java:189-199 | the last operation on a key decides it: a put leaves its value, a delete leaves it absent |
| Batches.PutsAllVisible | leveldb/src/androidTest/java/com/github/hf/leveldb/test/common/PutGetDelWriteTest.java:179-187 | after a batch of puts every key it names is present |
| Batches.ApplyBatchConcat | leveldb/src/main/java/com/github/hf/leveldb/LevelDB.java:194-200 | writing two batches in turn is writing their concatenation |
| Settings.AbsMagnitude | leveldb/src/main/java/com/github/hf/leveldb/LevelDB.java:459-473 | Math.abs gives the magnitude of every int except the smallest, which stays negative |
| Settings.Configuration.constructor | leveldb/src/main/java/com/github/hf/leveldb/LevelDB.java:441-443 | createIfMissing defaults to true, the sizes to zero |
| Settings.Configuration.SetCreateIfMissing | leveldb/src/main/java/com/github/hf/leveldb/LevelDB.java:449-453 | stores the flag, returns the same builder, leaves the other fields |
| Settings.Configuration.SetCacheSize | leveldb/src/main/java/com/github/hf/leveldb/LevelDB.java:459-463 | stores the 32-bit Math.abs of the size, returns the same builder, leaves the other fields |
| Settings.Configuration.SetBlockSize | leveldb/src/main/java/com/github/hf/leveldb/LevelDB.java:469-473 | stores the 32-bit Math.abs of the size, returns the same builder, leaves the other fields |
| Settings.Configuration.SetWriteBufferSize | leveldb/src/main/java/com/github/hf/leveldb/LevelDB.java:479-483 | stores the size verbatim, returns the same builder, leaves the other fields |
| Settings.Configure | leveldb/src/main/java/com/github/hf/leveldb/LevelDB.java:104-110 | a new configuration with the defaults |
| Database.Snapshot.constructor | leveldb/src/androidTest/java/com/github/hf/leveldb/test/common/SnapshotTest.java:84-92 | a snapshot of the given store, holding that store's current entries, not released |
| Database.Iterator.constructor | leveldb/src/main/java/com/github/hf/leveldb/LevelDB.java:354-365 | a new iterator over a frozen view, not positioned, open |
| Database.Iterator.IsValid | leveldb/src/androidTest/java/com/github/hf/leveldb/test/common/IterationTest.java:140-152 | true exactly when positioned on an entry; Closed once closed |
| Database.Iterator.SeekToFirst | leveldb/src/androidTest/java/com/github/hf/leveldb/test/common/IterationTest.java:63-83 | stands on the smallest key, or off the end for an empty view; Closed once closed |
| Database.Iterator.SeekToLast | leveldb/src/androidTest/java/com/github/hf/leveldb/test/common/IterationTest.java:88-92 | stands on the largest key, or off the end for an empty view; Closed once closed |
| Database.Iterator.Seek | leveldb/src/androidTest/java/com/github/hf/leveldb/test/mock/MockInteratorOrderingTest.java:86-92 | stands on the smallest key not below the target, or off the end; a null target is rejected |
| Database.Iterator.Next | leveldb/src/androidTest/java/com/github/hf/leveldb/test/common/IterationTest.java:111-119 | moves to the next larger key or off the end; IteratorNotValid when not on an entry, Closed first |
| Database.Iterator.Previous | leveldb/src/androidTest/java/com/github/hf/leveldb/test/common/IterationTest.java:121-129 | moves to the next smaller key or off the end; IteratorNotValid when not on an entry, Closed first |
| Database.Iterator.Key | leveldb/src/androidTest/java/com/github/hf/leveldb/test/common/IterationTest.java:174-182 | the current entry's key; Closed first, then IteratorNotValid |
| Database.Iterator.Value | leveldb/src/androidTest/java/com/github/hf/leveldb/test/common/IterationTest.java:184-192 | the current entry's value; Closed first, then IteratorNotValid |
| Database.Iterator.Close | leveldb/src/androidTest/java/com/github/hf/leveldb/test/common/IterationTest.java:85-86 | closes, and closing again is allowed; the position is kept |
| Database.LevelDB.constructor | leveldb/src/main/java/com/github/hf/leveldb/LevelDB.java:112-120 | mock(): an open, empty in-memory store |
| Database.LevelDB.IsClosed | leveldb/src/main/java/com/github/hf/leveldb/LevelDB.java:408-412 | true exactly when the store was closed |
| Database.LevelDB.Close | leveldb/src/main/java/com/github/hf/leveldb/LevelDB.java:145-149 | the store is closed and keeps its entries; closing twice is allowed |
| Database.LevelDB.Put | leveldb/src/main/java/com/github/hf/leveldb/LevelDB.java:151-158 | binds key to value; a null value deletes exactly as del does; null key, then closed store, fail and change nothing |
| Database.LevelDB.PutAsync | leveldb/src/main/java/com/github/hf/leveldb/LevelDB.java:183-192 | rejects a null key, otherwise has exactly the outcome of put(key, value, false) |
| Database.LevelDB.PutString | leveldb/src/main/java/com/github/hf/leveldb/LevelDB.java:160-170 | rejects a null key; a null value fails with NullPointer and changes nothing; otherwise as put on the bytes |
| Database.LevelDB.PutStringAsync | leveldb/src/main/java/com/github/hf/leveldb/LevelDB.java:172-181 | rejects a null key, otherwise the outcome of put(key, value, false) on strings |
| Database.LevelDB.PutStringAsDocumented | leveldb/src/main/java/com/github/hf/leveldb/LevelDB.java:160-166 | the String put as its documentation describes it: a null value deletes the key |
| Database.LevelDB.Del | leveldb/src/main/java/com/github/hf/leveldb/LevelDB.java:283-289 | removes exactly the key, present or not; null key, then closed store, fail and change nothing |
| Database.LevelDB.DelAsync | leveldb/src/main/java/com/github/hf/leveldb/LevelDB.java:312-320 | rejects a null key, otherwise the outcome of del(key, false) |
| Database.LevelDB.DelString | leveldb/src/main/java/com/github/hf/leveldb/LevelDB.java:301-310 | rejects a null key, otherwise del on the key's bytes |
| Database.LevelDB.DelStringAsync | leveldb/src/main/java/com/github/hf/leveldb/LevelDB.java:291-299 | rejects a null key, otherwise del(bytes, false) |
| Database.LevelDB.Write | leveldb/src/main/java/com/github/hf/leveldb/LevelDB.java:194-200 | applies the batch's operations in order, as ApplyBatch on the contents; a null batch, then a closed store, fail and change nothing |
| Database.LevelDB.WriteAsync | leveldb/src/main/java/com/github/hf/leveldb/LevelDB.java:202-210 | rejects a null batch, otherwise the outcome of write(batch, false) |
| Database.LevelDB.Get | leveldb/src/main/java/com/github/hf/leveldb/LevelDB.java:212-220 | the key's value in the snapshot's frozen contents, or in the latest for a null snapshot, or null; checks null key, closed store, ownership, release |
| Database.LevelDB.GetLatest | leveldb/src/main/java/com/github/hf/leveldb/LevelDB.java:264-272 | rejects a null key, otherwise get(key, null): a read of the latest state |
| Database.LevelDB.GetByString | leveldb/src/main/java/com/github/hf/leveldb/LevelDB.java:222-233 | rejects a null key, otherwise get on the key's bytes |
| Database.LevelDB.GetByStringLatest | leveldb/src/main/java/com/github/hf/leveldb/LevelDB.java:274-281 | rejects a null key, otherwise get(key, null) |
| Database.LevelDB.GetString | leveldb/src/main/java/com/github/hf/leveldb/LevelDB.java:235-251 | the same outcome as get(key, snapshot): null data stays null, other data is returned as the string's bytes |
| Database.LevelDB.GetStringLatest | leveldb/src/main/java/com/github/hf/leveldb/LevelDB.java:253-262 | getString(key, null) |
| Database.LevelDB.GetPropertyBytes | leveldb/src/main/java/com/github/hf/leveldb/LevelDB.java:322-330 | the engine's answer for the name; a null name, then a closed store, fail |
| Database.LevelDB.GetProperty | leveldb/src/main/java/com/github/hf/leveldb/LevelDB.java:332-344 | null exactly when getPropertyBytes gives null, otherwise its bytes; the same failures |
| Database.LevelDB.GetPropertyString | leveldb/src/main/java/com/github/hf/leveldb/LevelDB.java:346-352 | a null name is passed on as null and rejected with IllegalArgument; otherwise the same answer as getProperty(byte[]) |
| Database.LevelDB.NewIterator | leveldb/src/main/java/com/github/hf/leveldb/LevelDB.java:354-365 | a new, unpositioned iterator over the snapshot's frozen contents, or over the current contents for a null snapshot; closed store, then ownership, then release fail |
| Database.LevelDB.NewIteratorLatest | leveldb/src/main/java/com/github/hf/leveldb/LevelDB.java:367-376 | iterator(fillCache, null): a view of the current contents |
| Database.LevelDB.NewIteratorOn | leveldb/src/main/java/com/github/hf/leveldb/LevelDB.java:378-387 | has exactly the outcome of iterator(true, snapshot) |
| Database.LevelDB.NewIteratorDefault | leveldb/src/main/java/com/github/hf/leveldb/LevelDB.java:389-397 | has exactly the outcome of iterator(true, null) |
| Database.LevelDB.ObtainSnapshot | leveldb/src/main/java/com/github/hf/leveldb/LevelDB.java:414-420 | a new, unreleased snapshot owned by this store and holding its current entries; Closed on a closed store |
| Database.LevelDB.ReleaseSnapshot | leveldb/src/main/java/com/github/hf/leveldb/LevelDB.java:422-430 | marks an owned snapshot released, again without error; null, closed store, foreign snapshot fail in that order and change nothing |
| Traversal.Forward | leveldb/src/androidTest/java/com/github/hf/leveldb/test/common/IterationTest.java:67-81 | from the first key, the loop reads every entry once in strictly ascending key order, each key with its value, and counts one step per entry |
| Traversal.Backward | leveldb/src/androidTest/java/com/github/hf/leveldb/test/common/IterationTest.java:94-107 | from the last key, the loop reads every entry once in strictly descending key order and counts down one step per entry |
| BytesTest.LexicographicComparison | leveldb/src/androidTest/java/com/github/hf/leveldb/test/BytesTest.java:53-65 | {0xFF} sorts after {1, 2, 3, 0, 0, 0} both ways round, and {1, 2, 3, 0, 0, 0} equals {1, 2, 3} both ways round |
| PutGetDelWriteTest.TestPut | leveldb/src/androidTest/java/com/github/hf/leveldb/test/common/PutGetDelWriteTest.java:53-83 | puts succeed, a null value is accepted, a null key fails with IllegalArgument, a put after close fails with Closed |
| PutGetDelWriteTest.TestGet | leveldb/src/androidTest/java/com/github/hf/leveldb/test/common/PutGetDelWriteTest.java:85-130 | reads return the bytes put, a null-value put makes the key absent, a null key and a closed store fail |
| PutGetDelWriteTest.TestDel | leveldb/src/androidTest/java/com/github/hf/leveldb/test/common/PutGetDelWriteTest.java:132-173 | reads give present, absent, present, absent across del and re-put; a null key and a closed store fail |
| PutGetDelWriteTest.TestWrite | leveldb/src/androidTest/java/com/github/hf/leveldb/test/common/PutGetDelWriteTest.java:175-222 | a batch of puts makes both keys visible; an overwrite and a delete in one batch both apply; a null batch and a closed store fail |
| IterationTest.TestIteration | leveldb/src/androidTest/java/com/github/hf/leveldb/test/common/IterationTest.java:51-134 | the old iterator reads keys 1, 2, 3 with their values and counts to 4; the new one is valid at the last key, reads 3, 2, 1, 0 and its byte counter ends at 255; then next and previous fail with IteratorNotValid |
| IterationTest.IterateBeforePut | leveldb/src/androidTest/java/com/github/hf/leveldb/test/common/IterationTest.java:53-86 | an iterator created before the put of {0, 0, 0} does not see it |
| IterationTest.TraverseFirstView | leveldb/src/androidTest/java/com/github/hf/leveldb/test/common/IterationTest.java:67-86 | the forward loop over keys 1, 2, 3 with its counter ending at 4, then two closes |
| IterationTest.IterateAfterPut | leveldb/src/androidTest/java/com/github/hf/leveldb/test/common/IterationTest.java:88-133 | a new iterator sees the put, walks back 3, 2, 1, 0 and rejects next and previous once off the end |
| IterationTest.TestClosed | leveldb/src/androidTest/java/com/github/hf/leveldb/test/common/IterationTest.java:136-195 | isValid, next, previous, key and value on a closed, never positioned iterator all fail with Closed |
| SnapshotTest.TestObtainReleaseSnapshot | leveldb/src/androidTest/java/com/github/hf/leveldb/test/common/SnapshotTest.java:54-107 | a new snapshot is unreleased, release marks it; null and foreign snapshots are rejected; after close the release fails with Closed and the snapshot stays released |
| SnapshotTest.WriteAndSnapshot | leveldb/src/androidTest/java/com/github/hf/leveldb/test/common/SnapshotTest.java:117-128 | snapshot A holds the first two keys, B all three, and a plain read sees the third |
| SnapshotTest.ReadThroughSnapshots | leveldb/src/androidTest/java/com/github/hf/leveldb/test/common/SnapshotTest.java:130-162 | reads through A give the first two values and null for the third key; through B all three |
| SnapshotTest.TestGet | leveldb/src/androidTest/java/com/github/hf/leveldb/test/common/SnapshotTest.java:115-163 | a key written after snapshot A is absent through A yet present through B and through a plain read |
| MockInteratorOrderingTest.SeekFourLandsOnTen | leveldb/src/androidTest/java/com/github/hf/leveldb/test/mock/MockInteratorOrderingTest.java:86-92 | among keys 1, 2, 3, 10 the lower bound of {0, 0, 4} is the key {0, 0, 10} |
| MockInteratorOrderingTest.OrderAfterPuts | leveldb/src/androidTest/java/com/github/hf/leveldb/test/mock/MockInteratorOrderingTest.java:54-80 | the forward loop reads key last bytes 1, 2, 3 and value bytes 1, 2, 3, and the counter ends at 4 |
| MockInteratorOrderingTest.SeekThenPrevious | leveldb/src/androidTest/java/com/github/hf/leveldb/test/mock/MockInteratorOrderingTest.java:82-104 | seek {0, 0, 4} is valid at {0, 0, 10}; previous is valid at {0, 0, 3} |
| MockInteratorOrderingTest.TestOrdering | leveldb/src/androidTest/java/com/github/hf/leveldb/test/mock/MockInteratorOrderingTest.java:50-105 | both parts of the ordering test on one in-memory store |
| MockInteratorOrderingTest.TestClosed | leveldb/src/androidTest/java/com/github/hf/leveldb/test/mock/MockInteratorOrderingTest.java:107-116 | closing the store with an iterator open succeeds and leaves the iterator open |
| NullStringValue.NullValueKeepsKey | leveldb/src/main/java/com/github/hf/leveldb/LevelDB.java:167-170 | as written: put(String, null) fails with NullPointer and the key keeps its value |
| NullStringValue.NullValueDeletesKey | leveldb/src/main/java/com/github/hf/leveldb/LevelDB.java:160-166 | as documented: put(String, null) deletes the key, like the byte[] form |

## Findings

| source | as written | input that shows it | evidently intended | confidence | as-written member | corrected member |
|---|---|---|---|---|---|---|
| leveldb/src/main/java/com/github/hf/leveldb/LevelDB.java:160-170 | `put(String key, String value, sync)` calls `value.getBytes()`, so a null value throws a null pointer exception and the key is kept | `put("k", "v")`, then `put("k", null, false)` | a null value deletes the key, as the doc comment at line 163 and the byte[] form at line 154 say | not executed | NullStringValue.NullValueKeepsKey | NullStringValue.NullValueDeletesKey |

The model's `PutString` keeps the behaviour as written. `PutStringAsDocumented`
is the corrected form, and `NullValueDeletesKey` proves it agrees with the
byte[] `put`.

## Left out

- Native engine and JNI are not part of this model: `loadNative`, the `open` overloads, `destroy` and `repair` (LevelDB.java:56-143) load a library and touch the filesystem.
- Android `Context` path building and `getPath`/`setPath` are not part of this model; they are plumbing with no behaviour to state.
- Charset conversion by `getBytes()` and `new String(...)` is a library call. A string is represented by its bytes, so `GetString` and `GetProperty` return bytes.
- The `sync` and `fillCache` flags are accepted and have no effect. Durability and caching are not observable in memory.
- The contents of property values come from the engine. `GetPropertyBytes` takes the engine's answer as a function parameter.
- Concurrency is not modelled: every call is a single-threaded step. Batch atomicity and the "atomically check" of `isClosed` hold trivially.
- The `Configuration` getters are the class's fields, read directly.
- The source files of `MockLevelDB`, `MockSnapshot`, `Iterator`, `WriteBatch`, `SimpleWriteBatch` and `Bytes` are not part of this model. Their behaviour is stated from LevelDB.java's doc comments and the androidTest suites: `Database.Iterator` models `Iterator`, `ByteOrder.Compare` models `Bytes.lexicographicCompare`, and `Batches.BatchOp` with `Batches.ApplyBatch` model `WriteBatch`. A write batch is a sequence of `BatchOp`, and `wb.write()` is modelled as `write(wb)`.
- `DatabaseTestCase` (temporary files, `Math.random`) and `System.gc()` in SnapshotTest.java:108-112 are not modelled.
- Database.LevelDB.ReleaseSnapshot: a release rejected because the store is closed leaves the snapshot's flag unchanged. The test only shows that an already released snapshot stays released.
- Database.LevelDB.Get: reading through a released snapshot fails with IllegalArgument. The contract does not say what happens.
- Database.LevelDB.NewIterator: an iterator on a released snapshot fails with IllegalArgument, the same choice as for Get; NewIteratorOn inherits it.
- Database.Iterator.IsValid: closing the store does not invalidate its iterators. An iterator works on its frozen view until it is closed itself (LevelDB.java:357-359).
- Database.LevelDB.Put, and likewise Del, Write, Get, GetPropertyBytes and ReleaseSnapshot: a null argument on a closed store fails with IllegalArgument rather than Closed. These methods are abstract in LevelDB.java, so nothing fixes the order; the model follows the null-first order of the overloads for consistency.
- Database.Iterator.Seek: a null target fails with IllegalArgument before the closed check, by analogy with the store's null checks.
- The test scenarios are written as methods that return what each test asserts. The exception checks become `Result` comparisons.
