/**
 * The LevelDB handle: an ordered byte-string key-value store with point reads,
 * atomic write batches, snapshots and bidirectional iterators, and the
 * lifecycle checks of its API (null arguments, a closed handle, a foreign
 * snapshot, an iterator off the end).
 *
 * This is the in-memory store that the abstract class LevelDB specifies and
 * that its mock implementation provides. Java strings are represented by the
 * bytes `getBytes()` gives for them, and a Java null by `None`.
 */
module Database {
  import opened ByteOrder
  import opened Results
  import opened SortedTable
  import opened Batches

  /**
   * A snapshot: a frozen copy of its owner's table taken when it was
   * obtained, and whether it has been released.
   */
  class Snapshot {
    const owner: LevelDB
    const data: Table
    var released: bool

    constructor (owner: LevelDB)
      ensures this.owner == owner && data == owner.entries && !released
    {
      this.owner := owner;
      data := owner.entries;
      released := false;
    }
  }

  /** Where an iterator stands: not yet positioned, on an entry, or off either end. */
  datatype Position = Unpositioned | At(index: nat) | Invalid

  /**
   * An iterator over a frozen, sorted view of the store taken when it was
   * created. Writes to the store after that are not seen through it.
   */
  class Iterator {
    const view: Table
    var position: Position
    var closed: bool

    ghost predicate Valid()
      reads this
    {
      position.At? ==> position.index < |view|
    }

    constructor (view: Table)
      ensures Valid()
      ensures this.view == view && position == Unpositioned && !closed
    {
      this.view := view;
      position := Unpositioned;
      closed := false;
    }

    /** isValid(): whether the iterator stands on an entry; a closed iterator fails. */
    method IsValid() returns (r: Result<bool>)
      requires Valid()
      ensures closed ==> r == Fail(Closed)
      ensures !closed ==> r.Ok? && (r.value <==> position.At?)
    {
      if closed {
        r := Fail(Closed);
      } else {
        r := Ok(position.At?);
      }
    }

    /** seekToFirst(): stand on the smallest key, or off the end when the view is empty. */
    method SeekToFirst() returns (r: Result<()>)
      requires Valid()
      modifies this
      ensures Valid() && closed == old(closed)
      ensures r == (if closed then Fail(Closed) else Ok(()))
      ensures r.Fail? ==> position == old(position)
      ensures r.Ok? ==> position == (if |view| == 0 then Invalid else At(0))
    {
      if closed {
        return Fail(Closed);
      }
      position := if |view| == 0 then Invalid else At(0);
      r := Ok(());
    }

    /** seekToLast(): stand on the largest key, or off the end when the view is empty. */
    method SeekToLast() returns (r: Result<()>)
      requires Valid()
      modifies this
      ensures Valid() && closed == old(closed)
      ensures r == (if closed then Fail(Closed) else Ok(()))
      ensures r.Fail? ==> position == old(position)
      ensures r.Ok? ==> position == (if |view| == 0 then Invalid else At(|view| - 1))
    {
      if closed {
        return Fail(Closed);
      }
      position := if |view| == 0 then Invalid else At(|view| - 1);
      r := Ok(());
    }

    /**
     * seek(target): stand on the smallest key not below the target, or off
     * the end when every key is below it.
     */
    method Seek(target: Option<Bytes>) returns (r: Result<()>)
      requires Valid()
      modifies this
      ensures Valid() && closed == old(closed)
      ensures r == (if target.None? then Fail(IllegalArgument) else if closed then Fail(Closed) else Ok(()))
      ensures r.Fail? ==> position == old(position)
      ensures r.Ok? ==> position.At? || position == Invalid
      ensures r.Ok? ==> IsLowerBound(view, target.value, if position.At? then position.index else |view|)
    {
      if target.None? {
        return Fail(IllegalArgument);
      }
      if closed {
        return Fail(Closed);
      }
      var i := LowerBound(view, target.value);
      position := if i < |view| then At(i) else Invalid;
      r := Ok(());
    }

    /** next(): step to the next larger key, or off the end after the largest. */
    method Next() returns (r: Result<()>)
      requires Valid()
      modifies this
      ensures Valid() && closed == old(closed)
      ensures r == (if closed then Fail(Closed) else if !old(position).At? then Fail(IteratorNotValid) else Ok(()))
      ensures r.Fail? ==> position == old(position)
      ensures r.Ok? ==> position == (if old(position).index + 1 < |view| then At(old(position).index + 1) else Invalid)
      ensures r.Ok? && position.At? ==> KeyLess(view[old(position).index].key, view[position.index].key)
    {
      if closed {
        return Fail(Closed);
      }
      if !position.At? {
        return Fail(IteratorNotValid);
      }
      position := if position.index + 1 < |view| then At(position.index + 1) else Invalid;
      r := Ok(());
    }

    /** previous(): step to the next smaller key, or off the end before the smallest. */
    method Previous() returns (r: Result<()>)
      requires Valid()
      modifies this
      ensures Valid() && closed == old(closed)
      ensures r == (if closed then Fail(Closed) else if !old(position).At? then Fail(IteratorNotValid) else Ok(()))
      ensures r.Fail? ==> position == old(position)
      ensures r.Ok? ==> position == (if old(position).index > 0 then At(old(position).index - 1) else Invalid)
      ensures r.Ok? && position.At? ==> KeyLess(view[position.index].key, view[old(position).index].key)
    {
      if closed {
        return Fail(Closed);
      }
      if !position.At? {
        return Fail(IteratorNotValid);
      }
      position := if position.index > 0 then At(position.index - 1) else Invalid;
      r := Ok(());
    }

    /** key(): the key of the current entry. */
    method Key() returns (r: Result<Bytes>)
      requires Valid()
      ensures closed ==> r == Fail(Closed)
      ensures !closed && !position.At? ==> r == Fail(IteratorNotValid)
      ensures !closed && position.At? ==> r == Ok(view[position.index].key)
    {
      if closed {
        r := Fail(Closed);
      } else if !position.At? {
        r := Fail(IteratorNotValid);
      } else {
        r := Ok(view[position.index].key);
      }
    }

    /** value(): the value of the current entry. */
    method Value() returns (r: Result<Bytes>)
      requires Valid()
      ensures closed ==> r == Fail(Closed)
      ensures !closed && !position.At? ==> r == Fail(IteratorNotValid)
      ensures !closed && position.At? ==> r == Ok(view[position.index].value)
    {
      if closed {
        r := Fail(Closed);
      } else if !position.At? {
        r := Fail(IteratorNotValid);
      } else {
        r := Ok(view[position.index].value);
      }
    }

    /** close(): closing twice is allowed. */
    method Close()
      requires Valid()
      modifies this
      ensures Valid() && closed && position == old(position)
    {
      closed := true;
    }
  }

  /** A LevelDB handle: the closed flag and the sorted table of live entries. */
  class LevelDB {
    var closed: bool
    var entries: Table

    /** The store's contents as a map from key to value. */
    function Contents(): map<Bytes, Bytes>
      reads this
    {
      ToMap(entries)
    }

    /** A new, open, empty in-memory store. */
    constructor ()
      ensures !closed && entries == []
    {
      closed := false;
      entries := [];
    }

    /** The outcome of a keyed operation's checks: a null key first, then a closed store. */
    function KeyCheck(key: Option<Bytes>): Result<()>
      reads this
    {
      if key.None? then Fail(IllegalArgument)
      else if closed then Fail(Closed)
      else Ok(())
    }

    /**
     * The outcome of the checks on an optional snapshot: a closed store, then
     * a snapshot this store did not issue, then one already released.
     */
    function SnapshotCheck(snapshot: Snapshot?): Result<()>
      reads this, snapshot
    {
      if closed then Fail(Closed)
      else if snapshot == null then Ok(())
      else if snapshot.owner != this then Fail(SnapshotOwnership)
      else if snapshot.released then Fail(IllegalArgument)
      else Ok(())
    }

    /** The table a read sees: the snapshot's frozen copy, or the live table for a null snapshot. */
    function View(snapshot: Snapshot?): Table
      reads this
    {
      if snapshot == null then entries else snapshot.data
    }

    /** What get(key, snapshot) returns: the value under key in the chosen view, or null. */
    function Read(key: Option<Bytes>, snapshot: Snapshot?): Result<Option<Bytes>>
      reads this, snapshot
    {
      if key.None? then Fail(IllegalArgument)
      else if SnapshotCheck(snapshot).Fail? then Fail(SnapshotCheck(snapshot).failure)
      else Ok(Find(ToMap(View(snapshot)), key.value))
    }

    /** isClosed(): whether close() has been called. */
    method IsClosed() returns (r: bool)
      ensures r <==> closed
    {
      r := closed;
    }

    /** close(): the handle becomes unusable; closing again is allowed. */
    method Close()
      modifies this
      ensures closed && entries == old(entries)
    {
      closed := true;
    }

    /** del(key, sync): removes key if present. The sync hint has no effect in memory. */
    method Del(key: Option<Bytes>, sync: bool) returns (r: Result<()>)
      modifies this
      ensures r == old(KeyCheck(key)) && closed == old(closed)
      ensures r.Ok? ==> Contents() == old(Contents()) - {key.value}
      ensures r.Fail? ==> entries == old(entries)
    {
      r := KeyCheck(key);
      if r.Ok? {
        var i := LowerBound(entries, key.value);
        entries := Remove(entries, i, key.value);
      }
    }

    /** put(key, value, sync): binds key to value; a null value deletes the key, as del does. */
    method Put(key: Option<Bytes>, value: Option<Bytes>, sync: bool) returns (r: Result<()>)
      modifies this
      ensures r == old(KeyCheck(key)) && closed == old(closed)
      ensures r.Ok? && value.Some? ==> Contents() == old(Contents())[key.value := value.value]
      ensures r.Ok? && value.None? ==> Contents() == old(Contents()) - {key.value}
      ensures r.Fail? ==> entries == old(entries)
    {
      if value.None? {
        r := Del(key, sync);
        return;
      }
      r := KeyCheck(key);
      if r.Ok? {
        var i := LowerBound(entries, key.value);
        entries := Upsert(entries, i, key.value, value.value);
      }
    }

    /** put(byte[] key, byte[] value): the key check, then put(key, value, false). */
    method PutAsync(key: Option<Bytes>, value: Option<Bytes>) returns (r: Result<()>)
      modifies this
      ensures r == old(KeyCheck(key)) && closed == old(closed)
      ensures r.Ok? && value.Some? ==> Contents() == old(Contents())[key.value := value.value]
      ensures r.Ok? && value.None? ==> Contents() == old(Contents()) - {key.value}
      ensures r.Fail? ==> entries == old(entries)
    {
      if key.None? {
        return Fail(IllegalArgument);
      }
      r := Put(key, value, false);
    }

    /**
     * put(String key, String value, sync): the key check, then both strings
     * are converted to bytes, so a null value fails on the conversion instead
     * of deleting; then put on the bytes.
     */
    method PutString(key: Option<Bytes>, value: Option<Bytes>, sync: bool) returns (r: Result<()>)
      modifies this
      ensures key.None? ==> r == Fail(IllegalArgument)
      ensures key.Some? && value.None? ==> r == Fail(NullPointer)
      ensures key.Some? && value.Some? ==> r == old(KeyCheck(key))
      ensures closed == old(closed)
      ensures r.Ok? ==> Contents() == old(Contents())[key.value := value.value]
      ensures r.Fail? ==> entries == old(entries)
    {
      if key.None? {
        return Fail(IllegalArgument);
      }
      if value.None? {
        return Fail(NullPointer);
      }
      r := Put(key, value, sync);
    }

    /**
     * put(String key, String value, sync) as its documentation describes it:
     * like the byte[] form, a null value deletes the key.
     */
    method PutStringAsDocumented(key: Option<Bytes>, value: Option<Bytes>, sync: bool) returns (r: Result<()>)
      modifies this
      ensures r == old(KeyCheck(key)) && closed == old(closed)
      ensures r.Ok? && value.Some? ==> Contents() == old(Contents())[key.value := value.value]
      ensures r.Ok? && value.None? ==> Contents() == old(Contents()) - {key.value}
      ensures r.Fail? ==> entries == old(entries)
    {
      if key.None? {
        return Fail(IllegalArgument);
      }
      r := Put(key, value, sync);
    }

    /** put(String key, String value): the key check, then put(key, value, false) on strings. */
    method PutStringAsync(key: Option<Bytes>, value: Option<Bytes>) returns (r: Result<()>)
      modifies this
      ensures key.None? ==> r == Fail(IllegalArgument)
      ensures key.Some? && value.None? ==> r == Fail(NullPointer)
      ensures key.Some? && value.Some? ==> r == old(KeyCheck(key))
      ensures closed == old(closed)
      ensures r.Ok? ==> Contents() == old(Contents())[key.value := value.value]
      ensures r.Fail? ==> entries == old(entries)
    {
      if key.None? {
        return Fail(IllegalArgument);
      }
      r := PutString(key, value, false);
    }

    /** del(byte[] key): the key check, then del(key, false). */
    method DelAsync(key: Option<Bytes>) returns (r: Result<()>)
      modifies this
      ensures r == old(KeyCheck(key)) && closed == old(closed)
      ensures r.Ok? ==> Contents() == old(Contents()) - {key.value}
      ensures r.Fail? ==> entries == old(entries)
    {
      if key.None? {
        return Fail(IllegalArgument);
      }
      r := Del(key, false);
    }

    /** del(String key, sync): the key check, then del on the key's bytes. */
    method DelString(key: Option<Bytes>, sync: bool) returns (r: Result<()>)
      modifies this
      ensures r == old(KeyCheck(key)) && closed == old(closed)
      ensures r.Ok? ==> Contents() == old(Contents()) - {key.value}
      ensures r.Fail? ==> entries == old(entries)
    {
      if key.None? {
        return Fail(IllegalArgument);
      }
      r := Del(key, sync);
    }

    /** del(String key): the key check, then del on the key's bytes, not synced. */
    method DelStringAsync(key: Option<Bytes>) returns (r: Result<()>)
      modifies this
      ensures r == old(KeyCheck(key)) && closed == old(closed)
      ensures r.Ok? ==> Contents() == old(Contents()) - {key.value}
      ensures r.Fail? ==> entries == old(entries)
    {
      if key.None? {
        return Fail(IllegalArgument);
      }
      r := Del(key, false);
    }

    /**
     * write(batch, sync): applies every operation of the batch, in order, in
     * one step. The sync hint has no effect in memory.
     */
    method Write(batch: Option<seq<BatchOp>>, sync: bool) returns (r: Result<()>)
      modifies this
      ensures r == (if batch.None? then Fail(IllegalArgument) else if old(closed) then Fail(Closed) else Ok(()))
      ensures closed == old(closed)
      ensures r.Ok? ==> Contents() == ApplyBatch(old(Contents()), batch.value)
      ensures r.Fail? ==> entries == old(entries)
    {
      if batch.None? {
        return Fail(IllegalArgument);
      }
      if closed {
        return Fail(Closed);
      }
      var ops := batch.value;
      var n := 0;
      while n < |ops|
        invariant 0 <= n <= |ops|
        invariant closed == old(closed)
        invariant Contents() == ApplyBatch(old(Contents()), ops[..n])
      {
        var op := ops[n];
        var i := LowerBound(entries, op.key);
        entries := match op
          case Put(k, v) => Upsert(entries, i, k, v)
          case Delete(k) => Remove(entries, i, k);
        assert ops[..n + 1][..n] == ops[..n];
        n := n + 1;
      }
      assert ops[..n] == ops;
      r := Ok(());
    }

    /** write(batch): the null check, then write(batch, false). */
    method WriteAsync(batch: Option<seq<BatchOp>>) returns (r: Result<()>)
      modifies this
      ensures r == (if batch.None? then Fail(IllegalArgument) else if old(closed) then Fail(Closed) else Ok(()))
      ensures closed == old(closed)
      ensures r.Ok? ==> Contents() == ApplyBatch(old(Contents()), batch.value)
      ensures r.Fail? ==> entries == old(entries)
    {
      if batch.None? {
        return Fail(IllegalArgument);
      }
      r := Write(batch, false);
    }

    /** get(key, snapshot): the value under key, in the snapshot's view or the latest one. */
    method Get(key: Option<Bytes>, snapshot: Snapshot?) returns (r: Result<Option<Bytes>>)
      ensures r == Read(key, snapshot)
    {
      if key.None? {
        return Fail(IllegalArgument);
      }
      var check := SnapshotCheck(snapshot);
      if check.Fail? {
        return Fail(check.failure);
      }
      var found := Lookup(View(snapshot), key.value);
      r := Ok(found);
    }

    /** get(byte[] key): the key check, then get(key, null), a read of the latest state. */
    method GetLatest(key: Option<Bytes>) returns (r: Result<Option<Bytes>>)
      ensures r == Read(key, null)
    {
      if key.None? {
        return Fail(IllegalArgument);
      }
      r := Get(key, null);
    }

    /** get(String key, snapshot): the key check, then get on the key's bytes. */
    method GetByString(key: Option<Bytes>, snapshot: Snapshot?) returns (r: Result<Option<Bytes>>)
      ensures r == Read(key, snapshot)
    {
      if key.None? {
        return Fail(IllegalArgument);
      }
      r := Get(key, snapshot);
    }

    /** get(String key): the key check, then get(key, null) on strings. */
    method GetByStringLatest(key: Option<Bytes>) returns (r: Result<Option<Bytes>>)
      ensures r == Read(key, null)
    {
      if key.None? {
        return Fail(IllegalArgument);
      }
      r := GetByString(key, null);
    }

    /**
     * getString(String key, snapshot): the key check, then get; null stays
     * null, other data is returned as the string's bytes.
     */
    method GetString(key: Option<Bytes>, snapshot: Snapshot?) returns (r: Result<Option<Bytes>>)
      ensures r == Read(key, snapshot)
    {
      if key.None? {
        return Fail(IllegalArgument);
      }
      var data := GetByString(key, snapshot);
      if data.Fail? || data.value.None? {
        return data;
      }
      r := Ok(Some(data.value.value));
    }

    /** getString(String key): getString(key, null). */
    method GetStringLatest(key: Option<Bytes>) returns (r: Result<Option<Bytes>>)
      ensures r == Read(key, null)
    {
      r := GetString(key, null);
    }

    /**
     * getPropertyBytes(key): the engine's diagnostic value for a property
     * name, or null. What the engine answers is a parameter of the model.
     */
    method GetPropertyBytes(key: Option<Bytes>, engine: Bytes -> Option<Bytes>) returns (r: Result<Option<Bytes>>)
      ensures key.None? ==> r == Fail(IllegalArgument)
      ensures key.Some? && closed ==> r == Fail(Closed)
      ensures key.Some? && !closed ==> r == Ok(engine(key.value))
    {
      var check := KeyCheck(key);
      if check.Fail? {
        return Fail(check.failure);
      }
      r := Ok(engine(key.value));
    }

    /** getProperty(byte[] key): getPropertyBytes, null passed through, other bytes as a string. */
    method GetProperty(key: Option<Bytes>, engine: Bytes -> Option<Bytes>) returns (r: Result<Option<Bytes>>)
      ensures r.Fail? <==> key.None? || closed
      ensures r.Fail? ==> r.failure == (if key.None? then IllegalArgument else Closed)
      ensures r.Ok? ==> (r.value.None? <==> engine(key.value).None?)
      ensures r.Ok? && r.value.Some? ==> r.value == engine(key.value)
    {
      var value := GetPropertyBytes(key, engine);
      if value.Fail? || value.value.None? {
        return value;
      }
      r := Ok(Some(value.value.value));
    }

    /** getProperty(String key): a null name is passed through to getProperty(byte[]) as null. */
    method GetPropertyString(key: Option<Bytes>, engine: Bytes -> Option<Bytes>) returns (r: Result<Option<Bytes>>)
      ensures r.Fail? <==> key.None? || closed
      ensures r.Fail? ==> r.failure == (if key.None? then IllegalArgument else Closed)
      ensures r.Ok? ==> (r.value.None? <==> engine(key.value).None?)
      ensures r.Ok? && r.value.Some? ==> r.value == engine(key.value)
    {
      r := GetProperty(key, engine);
    }

    /**
     * iterator(fillCache, snapshot): a new, unpositioned iterator over the
     * snapshot's view, or over an implicit snapshot of the latest state for a
     * null snapshot. The fillCache hint has no effect in memory.
     */
    method NewIterator(fillCache: bool, snapshot: Snapshot?) returns (r: Result<Iterator>)
      ensures SnapshotCheck(snapshot).Fail? ==> r == Fail(SnapshotCheck(snapshot).failure)
      ensures SnapshotCheck(snapshot).Ok? ==> r.Ok? && fresh(r.value) && r.value.Valid()
      ensures r.Ok? ==> r.value.view == View(snapshot) && r.value.position == Unpositioned && !r.value.closed
    {
      var check := SnapshotCheck(snapshot);
      if check.Fail? {
        return Fail(check.failure);
      }
      var it := new Iterator(View(snapshot));
      r := Ok(it);
    }

    /** iterator(fillCache): iterator(fillCache, null). */
    method NewIteratorLatest(fillCache: bool) returns (r: Result<Iterator>)
      ensures closed ==> r == Fail(Closed)
      ensures !closed ==> r.Ok? && fresh(r.value) && r.value.Valid()
      ensures r.Ok? ==> r.value.view == entries && r.value.position == Unpositioned && !r.value.closed
    {
      r := NewIterator(fillCache, null);
    }

    /** iterator(snapshot): iterator(true, snapshot). */
    method NewIteratorOn(snapshot: Snapshot?) returns (r: Result<Iterator>)
      ensures SnapshotCheck(snapshot).Fail? ==> r == Fail(SnapshotCheck(snapshot).failure)
      ensures SnapshotCheck(snapshot).Ok? ==> r.Ok? && fresh(r.value) && r.value.Valid()
      ensures r.Ok? ==> r.value.view == View(snapshot) && r.value.position == Unpositioned && !r.value.closed
    {
      r := NewIterator(true, snapshot);
    }

    /** iterator(): iterator(true), so iterator(true, null). */
    method NewIteratorDefault() returns (r: Result<Iterator>)
      ensures closed ==> r == Fail(Closed)
      ensures !closed ==> r.Ok? && fresh(r.value) && r.value.Valid()
      ensures r.Ok? ==> r.value.view == entries && r.value.position == Unpositioned && !r.value.closed
    {
      r := NewIteratorLatest(true);
    }

    /** obtainSnapshot(): a new, unreleased snapshot of the current contents, owned by this store. */
    method ObtainSnapshot() returns (r: Result<Snapshot>)
      ensures closed ==> r == Fail(Closed)
      ensures !closed ==> r.Ok? && fresh(r.value)
      ensures r.Ok? ==> r.value.owner == this && r.value.data == entries && !r.value.released
    {
      if closed {
        return Fail(Closed);
      }
      var s := new Snapshot(this);
      r := Ok(s);
    }

    /**
     * releaseSnapshot(snapshot): marks an owned snapshot released. Releasing
     * it again is not an error; a null snapshot, a closed store and a
     * snapshot of another store are rejected, and a rejected release changes
     * nothing.
     */
    method ReleaseSnapshot(snapshot: Snapshot?) returns (r: Result<()>)
      modifies snapshot
      ensures r == (if snapshot == null then Fail(IllegalArgument)
                    else if closed then Fail(Closed)
                    else if snapshot.owner != this then Fail(SnapshotOwnership)
                    else Ok(()))
      ensures snapshot != null ==> snapshot.released == (old(snapshot.released) || r.Ok?)
    {
      if snapshot == null {
        return Fail(IllegalArgument);
      }
      if closed {
        return Fail(Closed);
      }
      if snapshot.owner != this {
        return Fail(SnapshotOwnership);
      }
      snapshot.released := true;
      r := Ok(());
    }
  }
}
