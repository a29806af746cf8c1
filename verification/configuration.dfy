/**
 * The options a native store is opened with: a builder whose fluent setters
 * update one field each and hand back the same object.
 */
module Settings {

  /** A Java int: a 32-bit two's complement integer. */
  newtype int32 = x: int | -0x8000_0000 <= x < 0x8000_0000

  const MIN_INT32: int32 := -0x8000_0000

  /** An integer reduced to 32 bits the way Java arithmetic wraps around. */
  function Wrap(n: int): (r: int32)
    ensures (r as int - n) % 0x1_0000_0000 == 0
  {
    ((n + 0x8000_0000) % 0x1_0000_0000 - 0x8000_0000) as int32
  }

  /**
   * Math.abs on an int: the negation wraps around, so the smallest int is its
   * own absolute value and stays negative.
   */
  function Abs(x: int32): (r: int32)
  {
    if x < 0 then Wrap(-(x as int)) else x
  }

  /** Abs is the magnitude for every int but the smallest, which it maps to itself. */
  lemma AbsMagnitude(x: int32)
    ensures x != MIN_INT32 ==> Abs(x) >= 0 && (Abs(x) == x || Abs(x) as int == -(x as int))
    ensures x == MIN_INT32 ==> Abs(x) == MIN_INT32
  {
    if x < 0 {
      assert 0 <= -(x as int) + 0x8000_0000 < 0x1_0000_0000 || x == MIN_INT32;
    }
  }

  /** LevelDB.Configuration: the options, with their defaults. */
  class Configuration {
    var createIfMissing: bool
    var cacheSize: int32
    var blockSize: int32
    var writeBufferSize: int32

    /** A new configuration creates a missing database; the sizes start at zero. */
    constructor ()
      ensures createIfMissing && cacheSize == 0 && blockSize == 0 && writeBufferSize == 0
    {
      createIfMissing := true;
      cacheSize := 0;
      blockSize := 0;
      writeBufferSize := 0;
    }

    /** createIfMissing(flag): stores the flag and returns this builder. */
    method SetCreateIfMissing(flag: bool) returns (self: Configuration)
      modifies this
      ensures self == this && createIfMissing == flag
      ensures cacheSize == old(cacheSize) && blockSize == old(blockSize) && writeBufferSize == old(writeBufferSize)
    {
      createIfMissing := flag;
      self := this;
    }

    /** cacheSize(size): stores Math.abs(size) and returns this builder. */
    method SetCacheSize(size: int32) returns (self: Configuration)
      modifies this
      ensures self == this && cacheSize == Abs(size)
      ensures createIfMissing == old(createIfMissing) && blockSize == old(blockSize) && writeBufferSize == old(writeBufferSize)
    {
      cacheSize := Abs(size);
      self := this;
    }

    /** blockSize(size): stores Math.abs(size) and returns this builder. */
    method SetBlockSize(size: int32) returns (self: Configuration)
      modifies this
      ensures self == this && blockSize == Abs(size)
      ensures createIfMissing == old(createIfMissing) && cacheSize == old(cacheSize) && writeBufferSize == old(writeBufferSize)
    {
      blockSize := Abs(size);
      self := this;
    }

    /** writeBufferSize(size): stores size as given, sign included, and returns this builder. */
    method SetWriteBufferSize(size: int32) returns (self: Configuration)
      modifies this
      ensures self == this && writeBufferSize == size
      ensures createIfMissing == old(createIfMissing) && cacheSize == old(cacheSize) && blockSize == old(blockSize)
    {
      writeBufferSize := size;
      self := this;
    }
  }

  /** configure(): a new configuration with the defaults. */
  method Configure() returns (c: Configuration)
    ensures fresh(c)
    ensures c.createIfMissing && c.cacheSize == 0 && c.blockSize == 0 && c.writeBufferSize == 0
  {
    c := new Configuration();
  }
}
