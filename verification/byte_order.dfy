/**
 * Byte strings and the orders on them.
 *
 * `Compare` is the comparator `Bytes.lexicographicCompare` that the store's
 * tests use: unsigned, byte by byte, with the shorter operand padded with zero
 * bytes, so that trailing zero bytes do not count. On raw sequences it is only
 * a total preorder ({1,2,3} and {1,2,3,0,0,0} compare equal).
 *
 * The store keeps keys as exact byte sequences and orders them by `KeyLess`:
 * `Compare` first, ties between zero-padded variants broken by length. This is
 * a strict total order, and it is exactly LevelDB's bytewise order
 * (`BytewiseLess`, where a proper prefix sorts first).
 */
module ByteOrder {

  /** One byte, as its unsigned value: a Java byte b is seen here as b & 0xFF. */
  newtype byte = x: int | 0 <= x < 256

  type Bytes = seq<byte>

  /** The byte at position i, or the zero byte past the end (the padding). */
  function ByteAt(s: Bytes, i: nat): byte
  {
    if i < |s| then s[i] else 0
  }

  /** The sequence without its first byte; the padding makes [] its own rest. */
  function Rest(s: Bytes): Bytes
  {
    if s == [] then [] else s[1..]
  }

  /** `n` zero bytes. */
  function Zeros(n: nat): (z: Bytes)
    ensures |z| == n && forall i :: 0 <= i < n ==> z[i] == 0
  {
    seq(n, _ => 0)
  }

  /**
   * lexicographicCompare: negative, zero or positive as a sorts before, with
   * or after b. Only the sign is meaningful; the model returns -1, 0 or 1.
   */
  function Compare(a: Bytes, b: Bytes): (r: int)
    ensures -1 <= r <= 1
    decreases |a| + |b|
  {
    if a == [] && b == [] then 0
    else if ByteAt(a, 0) < ByteAt(b, 0) then -1
    else if ByteAt(a, 0) > ByteAt(b, 0) then 1
    else Compare(Rest(a), Rest(b))
  }

  /** a and b agree byte for byte once the shorter is padded with zeros. */
  ghost predicate PaddedEqual(a: Bytes, b: Bytes)
  {
    forall i: nat :: i < |a| || i < |b| ==> ByteAt(a, i) == ByteAt(b, i)
  }

  /** Equal first bytes (after padding) pass the comparison on to the rests. */
  lemma CompareStep(a: Bytes, b: Bytes)
    requires ByteAt(a, 0) == ByteAt(b, 0)
    ensures Compare(a, b) == Compare(Rest(a), Rest(b))
  {
  }

  /** Swapping the operands flips the sign of the result. */
  lemma {:induction false} CompareAntisymmetric(a: Bytes, b: Bytes)
    ensures Compare(a, b) == -Compare(b, a)
    decreases |a| + |b|
  {
    if a != [] || b != [] {
      CompareAntisymmetric(Rest(a), Rest(b));
    }
  }

  /** Every byte string compares equal to itself. */
  lemma CompareReflexive(a: Bytes)
    ensures Compare(a, a) == 0
  {
    CompareAntisymmetric(a, a);
  }

  /**
   * The comparator is transitive, and a chain a <= b <= c whose ends compare
   * equal compares equal all along.
   */
  lemma {:induction false} CompareTransitive(a: Bytes, b: Bytes, c: Bytes)
    requires Compare(a, b) <= 0 && Compare(b, c) <= 0
    ensures Compare(a, c) <= 0
    ensures Compare(a, c) == 0 ==> Compare(a, b) == 0 && Compare(b, c) == 0
    decreases |a| + |b| + |c|
  {
    if a == [] && b == [] && c == [] {
    } else if ByteAt(a, 0) == ByteAt(c, 0) {
      assert ByteAt(a, 0) == ByteAt(b, 0) == ByteAt(c, 0);
      CompareStep(a, b);
      CompareStep(b, c);
      CompareStep(a, c);
      CompareTransitive(Rest(a), Rest(b), Rest(c));
    }
  }

  /** The byte at i + 1 of s is the byte at i of its rest. */
  lemma AtRest(s: Bytes, i: nat)
    ensures ByteAt(Rest(s), i) == ByteAt(s, i + 1)
  {
  }

  /** Equality under the comparator is exactly equality after zero padding. */
  lemma {:induction false} CompareZeroIffPaddedEqual(a: Bytes, b: Bytes)
    ensures Compare(a, b) == 0 <==> PaddedEqual(a, b)
    decreases |a| + |b|
  {
    if a == [] && b == [] {
    } else if ByteAt(a, 0) != ByteAt(b, 0) {
      assert !PaddedEqual(a, b) by { assert ByteAt(a, 0) != ByteAt(b, 0); }
    } else {
      CompareZeroIffPaddedEqual(Rest(a), Rest(b));
      forall i: nat
        ensures ByteAt(Rest(a), i) == ByteAt(a, i + 1) && ByteAt(Rest(b), i) == ByteAt(b, i + 1)
      {
        AtRest(a, i);
        AtRest(b, i);
      }
      if PaddedEqual(a, b) {
        forall i: nat | i < |Rest(a)| || i < |Rest(b)|
          ensures ByteAt(Rest(a), i) == ByteAt(Rest(b), i)
        {
          assert i + 1 < |a| || i + 1 < |b|;
        }
      }
      if PaddedEqual(Rest(a), Rest(b)) {
        forall i: nat | i < |a| || i < |b|
          ensures ByteAt(a, i) == ByteAt(b, i)
        {
          if i > 0 {
            assert ByteAt(a, i) == ByteAt(Rest(a), i - 1);
            assert ByteAt(b, i) == ByteAt(Rest(b), i - 1);
          }
        }
      }
    }
  }

  /** Trailing zero bytes are insignificant, in either operand position. */
  lemma TrailingZerosInsignificant(a: Bytes, n: nat)
    ensures Compare(a + Zeros(n), a) == 0 && Compare(a, a + Zeros(n)) == 0
  {
    var p := a + Zeros(n);
    forall i: nat ensures ByteAt(p, i) == ByteAt(a, i) {
      if i < |a| {
        assert p[i] == a[i];
      } else if i < |p| {
        assert p[i] == Zeros(n)[i - |a|];
      }
    }
    CompareZeroIffPaddedEqual(p, a);
    CompareAntisymmetric(p, a);
  }

  /** The empty byte string sorts first: it never compares above another. */
  lemma {:induction false} CompareEmptyFirst(b: Bytes)
    ensures Compare([], b) <= 0
    decreases |b|
  {
    if b != [] && ByteAt(b, 0) == 0 {
      CompareEmptyFirst(Rest(b));
    }
  }

  /**
   * The store's key order: the comparator, with zero-padded variants of one
   * key (which the comparator calls equal) sorted shortest first.
   */
  predicate KeyLess(a: Bytes, b: Bytes)
  {
    var c := Compare(a, b);
    c < 0 || (c == 0 && |a| < |b|)
  }

  /** LevelDB's bytewise order: unsigned lexicographic, a proper prefix first. */
  predicate BytewiseLess(a: Bytes, b: Bytes)
  {
    if a == [] then b != []
    else b != [] && (a[0] < b[0] || (a[0] == b[0] && BytewiseLess(a[1..], b[1..])))
  }

  /** The key order is exactly LevelDB's bytewise order. */
  lemma {:induction false} KeyLessIsBytewise(a: Bytes, b: Bytes)
    ensures KeyLess(a, b) <==> BytewiseLess(a, b)
    decreases |a|
  {
    if a == [] {
      CompareEmptyFirst(b);
    } else if b == [] {
      CompareEmptyFirst(a);
      CompareAntisymmetric(a, b);
    } else if a[0] == b[0] {
      CompareStep(a, b);
      KeyLessIsBytewise(a[1..], b[1..]);
    }
  }

  lemma {:induction false} BytewiseTransitive(a: Bytes, b: Bytes, c: Bytes)
    requires BytewiseLess(a, b) && BytewiseLess(b, c)
    ensures BytewiseLess(a, c)
    decreases |a|
  {
    if a != [] && a[0] == b[0] == c[0] {
      BytewiseTransitive(a[1..], b[1..], c[1..]);
    }
  }

  lemma {:induction false} BytewiseTotal(a: Bytes, b: Bytes)
    ensures a == b || BytewiseLess(a, b) || BytewiseLess(b, a)
    decreases |a|
  {
    if a != [] && b != [] && a[0] == b[0] {
      BytewiseTotal(a[1..], b[1..]);
      if a[1..] == b[1..] {
        assert a == [a[0]] + a[1..] && b == [b[0]] + b[1..];
      }
    }
  }

  /** No key sorts before itself. */
  lemma KeyLessIrreflexive(a: Bytes)
    ensures !KeyLess(a, a)
  {
    CompareReflexive(a);
  }

  /** The key order is transitive. */
  lemma KeyLessTransitive(a: Bytes, b: Bytes, c: Bytes)
    requires KeyLess(a, b) && KeyLess(b, c)
    ensures KeyLess(a, c)
  {
    KeyLessIsBytewise(a, b);
    KeyLessIsBytewise(b, c);
    KeyLessIsBytewise(a, c);
    BytewiseTransitive(a, b, c);
  }

  /** Any two distinct keys are ordered one way or the other. */
  lemma KeyLessTotal(a: Bytes, b: Bytes)
    ensures a == b || KeyLess(a, b) || KeyLess(b, a)
  {
    KeyLessIsBytewise(a, b);
    KeyLessIsBytewise(b, a);
    BytewiseTotal(a, b);
  }

  /** The key order refines the comparator: it never contradicts it. */
  lemma KeyLessRefinesCompare(a: Bytes, b: Bytes)
    ensures KeyLess(a, b) ==> Compare(a, b) <= 0
    ensures Compare(a, b) < 0 ==> KeyLess(a, b)
    ensures Compare(a, b) == 0 && |a| == |b| ==> a == b
  {
    if Compare(a, b) == 0 && |a| == |b| {
      CompareZeroIffPaddedEqual(a, b);
      forall i | 0 <= i < |a| ensures a[i] == b[i] {
        assert ByteAt(a, i) == ByteAt(b, i);
      }
    }
  }

  /** Keys that differ only in their last byte are ordered by that byte. */
  lemma {:induction false} LastByteDecides(p: Bytes, a: byte, b: byte)
    ensures KeyLess(p + [a], p + [b]) <==> a < b
    decreases |p|
  {
    KeyLessIsBytewise(p + [a], p + [b]);
    if p != [] {
      assert (p + [a])[1..] == p[1..] + [a] && (p + [b])[1..] == p[1..] + [b];
      LastByteDecides(p[1..], a, b);
      KeyLessIsBytewise(p[1..] + [a], p[1..] + [b]);
    }
  }
}
