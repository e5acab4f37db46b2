/**
 * How `main` cuts the word list into requests: `range(0, len(words), BATCH_SIZE)`
 * gives the batch starts and `words[i:i + BATCH_SIZE]` the batch.
 */
module Batching {

  /** The registrar's limit on domains per request. */
  const BATCH_SIZE: nat := 70

  function Min(a: int, b: int): int { if a <= b then a else b }

  /** `len(range(0, n, BATCH_SIZE))`, that is `ceil(n / BATCH_SIZE)`. */
  function NumBatches(n: nat): (count: nat)
    ensures (count - 1) * BATCH_SIZE < n <= count * BATCH_SIZE || n == count == 0
  {
    (n + BATCH_SIZE - 1) / BATCH_SIZE
  }

  /** The `i` of the k-th iteration. */
  function BatchStart(k: nat): nat {
    k * BATCH_SIZE
  }

  /** The k-th iteration exists exactly when its start is inside the list. */
  lemma BatchExists(n: nat, k: nat)
    ensures k < NumBatches(n) <==> BatchStart(k) < n
  {
  }

  /** `min(i + BATCH_SIZE, len(words))`: how many words are done after batch k. */
  function Processed(n: nat, k: nat): (done: nat)
    ensures done <= n
    ensures BatchStart(k) < n ==> BatchStart(k) < done <= BatchStart(k) + BATCH_SIZE
  {
    Min(BatchStart(k) + BATCH_SIZE, n)
  }

  /** `words[i:i + BATCH_SIZE]` for the k-th `i`; Python clamps the end. */
  function Batch<T>(words: seq<T>, k: nat): (batch: seq<T>)
    requires k < NumBatches(|words|)
    ensures 1 <= |batch| <= BATCH_SIZE
  {
    BatchExists(|words|, k);
    words[BatchStart(k)..Processed(|words|, k)]
  }

  /** All batches, in loop order. */
  function Batches<T>(words: seq<T>): (bs: seq<seq<T>>)
    ensures |bs| == NumBatches(|words|)
  {
    seq(NumBatches(|words|), k requires 0 <= k < NumBatches(|words|) => Batch(words, k))
  }

  function Flatten<T>(xss: seq<seq<T>>): seq<T> {
    if xss == [] then [] else Flatten(xss[..|xss| - 1]) + xss[|xss| - 1]
  }

  /** The first k batches hold the first `min(k * BATCH_SIZE, n)` words. */
  lemma {:induction false} FlattenBatchesPrefix<T>(words: seq<T>, k: nat)
    requires k <= NumBatches(|words|)
    ensures Flatten(Batches(words)[..k]) == words[..Min(BatchStart(k), |words|)]
  {
    var bs := Batches(words);
    if k == 0 {
      assert bs[..0] == [];
    } else {
      FlattenBatchesPrefix(words, k - 1);
      assert bs[..k][..k - 1] == bs[..k - 1];
      BatchExists(|words|, k - 1);
      assert Flatten(bs[..k]) == words[..BatchStart(k - 1)] + words[BatchStart(k - 1)..Processed(|words|, k - 1)];
    }
  }

  /** Concatenating the batches gives every word once, in order. */
  lemma BatchesPartition<T>(words: seq<T>)
    ensures Flatten(Batches(words)) == words
  {
    var bs := Batches(words);
    FlattenBatchesPrefix(words, |bs|);
    assert bs[..|bs|] == bs;
    if |bs| > 0 {
      BatchExists(|words|, |bs|);
    }
  }

  /** Every batch is full except the last, which holds the remainder (1 to BATCH_SIZE words),
      and there are `ceil(n / BATCH_SIZE)` of them. */
  lemma BatchSizes<T>(words: seq<T>)
    ensures forall k :: 0 <= k < |Batches(words)| - 1 ==> |Batches(words)[k]| == BATCH_SIZE
    ensures |Batches(words)| > 0 ==> 1 <= |Batches(words)[|Batches(words)| - 1]| <= BATCH_SIZE
    ensures (|Batches(words)| - 1) * BATCH_SIZE < |words| <= |Batches(words)| * BATCH_SIZE || |words| == |Batches(words)| == 0
  {
    var n := |words|;
    var bs := Batches(words);
    forall k | 0 <= k < |bs| - 1 ensures |bs[k]| == BATCH_SIZE {
      BatchExists(n, k + 1);
    }
    if |bs| > 0 {
      BatchExists(n, |bs| - 1);
      BatchExists(n, |bs|);
    }
  }

  /** Progress never passes the word count, grows with every batch and reaches
      the word count on the last batch. */
  lemma ProgressFacts(n: nat, k: nat)
    requires k < NumBatches(n)
    ensures 0 < Processed(n, k) <= n
    ensures k + 1 < NumBatches(n) ==> Processed(n, k) < Processed(n, k + 1)
    ensures Processed(n, k) == n <==> k + 1 == NumBatches(n)
  {
    BatchExists(n, k);
    BatchExists(n, k + 1);
  }

  /** The sleep condition `i + BATCH_SIZE < len(words)` holds exactly when another batch follows. */
  lemma SleepIffMoreBatches(n: nat, k: nat)
    ensures BatchStart(k) + BATCH_SIZE < n <==> k + 1 < NumBatches(n)
  {
    BatchExists(n, k + 1);
  }
}
