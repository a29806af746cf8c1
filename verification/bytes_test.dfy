/** BytesTest: the comparator on fixed byte arrays. */
module BytesTest {
  import opened ByteOrder

  /**
   * testLexicographicComparison: bytes compare unsigned, so {0xFF} sorts
   * after {1, 2, 3, 0, 0, 0}, and swapping the operands flips the sign;
   * trailing zero bytes do not count, in either operand order.
   */
  lemma LexicographicComparison()
    ensures Compare([1, 2, 3, 0, 0, 0], [0xFF]) < 0
    ensures Compare([0xFF], [1, 2, 3, 0, 0, 0]) > 0
    ensures Compare([1, 2, 3, 0, 0, 0], [1, 2, 3]) == 0
    ensures Compare([1, 2, 3], [1, 2, 3, 0, 0, 0]) == 0
  {
    var a: Bytes, b: Bytes := [1, 2, 3, 0, 0, 0], [1, 2, 3];
    assert Compare(a, [0xFF]) < 0;
    CompareAntisymmetric(a, [0xFF]);
    assert a == b + Zeros(3);
    TrailingZerosInsignificant(b, 3);
  }
}
