/**
 * Write batches: an ordered list of puts and deletes that `write` applies to
 * the store in one step.
 */
module Batches {
  import opened ByteOrder
  import opened Results
  import opened SortedTable

  /** One operation recorded in a write batch. */
  datatype BatchOp = Put(key: Bytes, value: Bytes) | Delete(key: Bytes)

  /** The contents after one operation. */
  function ApplyOp(m: map<Bytes, Bytes>, op: BatchOp): map<Bytes, Bytes>
  {
    match op
    case Put(k, v) => m[k := v]
    case Delete(k) => m - {k}
  }

  /** The contents after every operation of the batch, first to last. */
  function ApplyBatch(m: map<Bytes, Bytes>, ops: seq<BatchOp>): map<Bytes, Bytes>
    decreases |ops|
  {
    if ops == [] then m else ApplyOp(ApplyBatch(m, ops[..|ops| - 1]), ops[|ops| - 1])
  }

  /** A key that no operation of the batch names keeps its binding. */
  lemma {:induction false} UntouchedKeyUnchanged(m: map<Bytes, Bytes>, ops: seq<BatchOp>, k: Bytes)
    requires forall j :: 0 <= j < |ops| ==> ops[j].key != k
    ensures Find(ApplyBatch(m, ops), k) == Find(m, k)
    decreases |ops|
  {
    if ops != [] {
      UntouchedKeyUnchanged(m, ops[..|ops| - 1], k);
    }
  }

  /**
   * The last operation on a key decides its binding: a put leaves its value,
   * a delete leaves the key absent, whatever came before.
   */
  lemma {:induction false} LastOperationWins(m: map<Bytes, Bytes>, ops: seq<BatchOp>, j: nat)
    requires j < |ops|
    requires forall l :: j < l < |ops| ==> ops[l].key != ops[j].key
    ensures Find(ApplyBatch(m, ops), ops[j].key) == (if ops[j].Put? then Some(ops[j].value) else None)
    decreases |ops|
  {
    if j < |ops| - 1 {
      LastOperationWins(m, ops[..|ops| - 1], j);
    }
  }

  /** After a batch of puts every key it names is present. */
  lemma {:induction false} PutsAllVisible(m: map<Bytes, Bytes>, ops: seq<BatchOp>)
    requires forall j :: 0 <= j < |ops| ==> ops[j].Put?
    ensures forall j :: 0 <= j < |ops| ==> ops[j].key in ApplyBatch(m, ops)
    decreases |ops|
  {
    if ops != [] {
      PutsAllVisible(m, ops[..|ops| - 1]);
      forall j | 0 <= j < |ops| - 1
        ensures ops[j].key in ApplyBatch(m, ops)
      {
        assert ops[..|ops| - 1][j] == ops[j];
      }
    }
  }

  /** One more operation at the end of a batch is applied after the rest. */
  lemma ApplyBatchAppend(m: map<Bytes, Bytes>, ops: seq<BatchOp>, op: BatchOp)
    ensures ApplyBatch(m, ops + [op]) == ApplyOp(ApplyBatch(m, ops), op)
  {
    assert (ops + [op])[..|ops|] == ops;
  }

  /** Writing two batches one after the other is writing their concatenation. */
  lemma {:induction false} ApplyBatchConcat(m: map<Bytes, Bytes>, a: seq<BatchOp>, b: seq<BatchOp>)
    ensures ApplyBatch(m, a + b) == ApplyBatch(ApplyBatch(m, a), b)
    decreases |b|
  {
    if b == [] {
      assert a + b == a;
    } else {
      var init, last := b[..|b| - 1], b[|b| - 1];
      assert a + b == (a + init) + [last];
      assert b == init + [last];
      ApplyBatchAppend(m, a + init, last);
      ApplyBatchAppend(ApplyBatch(m, a), init, last);
      ApplyBatchConcat(m, a, init);
    }
  }

  /** A batch of two operations applies the first, then the second. */
  lemma ApplyPair(m: map<Bytes, Bytes>, first: BatchOp, second: BatchOp)
    ensures ApplyBatch(m, [first, second]) == ApplyOp(ApplyOp(m, first), second)
  {
    ApplyBatchAppend(m, [], first);
    ApplyBatchAppend(m, [first], second);
    assert [] + [first] == [first] && [first] + [second] == [first, second];
  }
}
