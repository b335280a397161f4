/**
 * `create_embeddings`: embed a list of texts in batches of `batch_size`. A batch
 * whose call raises contributes one `None` per text; a successful batch is
 * followed by a one-second pause unless it is the last.
 *
 * The embedding service is the parameter `embed`: for a task type and a batch it
 * gives the vectors or `None` (the call raised). Vectors are opaque.
 */
module Embedding {
  import opened Values

  type Vector = seq<real>

  /** The `task_type` sent to the service. */
  datatype EmbedMode = RetrievalDocument | RetrievalQuery

  type Embedder<-T> = (EmbedMode, seq<T>) -> Option<seq<Vector>>

  /** `batch_size=100` */
  const EmbedBatch: nat := 100

  /** A service that answers a batch with one vector per text. */
  ghost predicate Faithful<T(!new)>(embed: Embedder<T>) {
    forall m, b :: embed(m, b).Some? ==> |embed(m, b).value| == |b|
  }

  function Somes(vs: seq<Vector>): (r: seq<Option<Vector>>)
    ensures |r| == |vs|
  {
    seq(|vs|, i requires 0 <= i < |vs| => Some(vs[i]))
  }

  function Nones(n: nat): (r: seq<Option<Vector>>)
    ensures |r| == n
  {
    seq(n, i => None)
  }

  /** What one batch adds to the list: its vectors, or `[None] * len(batch)`. */
  function BatchResult(answer: Option<seq<Vector>>, size: nat): seq<Option<Vector>> {
    if answer.Some? then Somes(answer.value) else Nones(size)
  }

  /** What the loop adds from batch offset `i` on. */
  function EmbeddingsFrom<T>(texts: seq<T>, bs: nat, embed: Embedder<T>, i: nat): seq<Option<Vector>>
    requires bs > 0
    decreases |texts| - i
  {
    if i >= |texts| then []
    else
      var batch := Slice(texts, i, bs);
      BatchResult(embed(RetrievalDocument, batch), |batch|) + EmbeddingsFrom(texts, bs, embed, i + bs)
  }

  /** The offsets of the batches after which the loop sleeps: successful and not the last. */
  function PausesFrom<T>(texts: seq<T>, bs: nat, embed: Embedder<T>, i: nat): seq<nat>
    requires bs > 0
    decreases |texts| - i
  {
    if i >= |texts| then []
    else
      var pause := embed(RetrievalDocument, Slice(texts, i, bs)).Some? && i + bs < |texts|;
      (if pause then [i] else []) + PausesFrom(texts, bs, embed, i + bs)
  }

  function Embeddings<T>(texts: seq<T>, bs: nat, embed: Embedder<T>): seq<Option<Vector>>
    requires bs > 0
  {
    EmbeddingsFrom(texts, bs, embed, 0)
  }

  function Pauses<T>(texts: seq<T>, bs: nat, embed: Embedder<T>): seq<nat>
    requires bs > 0
  {
    PausesFrom(texts, bs, embed, 0)
  }

  /**
   * `create_embeddings(texts, batch_size)`; `pauses` lists, in order, the batch
   * offsets after which `time.sleep(1)` is called.
   */
  method CreateEmbeddings<T>(texts: seq<T>, batchSize: nat, embed: Embedder<T>)
    returns (embeddings: seq<Option<Vector>>, pauses: seq<nat>)
    requires batchSize > 0
    ensures embeddings == Embeddings(texts, batchSize, embed)
    ensures pauses == Pauses(texts, batchSize, embed)
  {
    embeddings, pauses := [], [];
    var i := 0;
    while i < |texts|
      invariant embeddings + EmbeddingsFrom(texts, batchSize, embed, i) == Embeddings(texts, batchSize, embed)
      invariant pauses + PausesFrom(texts, batchSize, embed, i) == Pauses(texts, batchSize, embed)
      decreases |texts| - i
    {
      var batch := Slice(texts, i, batchSize);
      var result := embed(RetrievalDocument, batch);
      ghost var e0, p0 := embeddings, pauses;
      ghost var added := BatchResult(result, |batch|);
      ghost var pause: seq<nat> := if result.Some? && i + batchSize < |texts| then [i] else [];
      StepFrom(texts, batchSize, embed, i);
      if result.Some? {
        embeddings := embeddings + Somes(result.value);
        if i + batchSize < |texts| {
          pauses := pauses + [i];
        }
      } else {
        embeddings := embeddings + Nones(|batch|);
      }
      assert embeddings == e0 + added && pauses == p0 + pause;
      ConcatAssoc(e0, added, EmbeddingsFrom(texts, batchSize, embed, i + batchSize));
      ConcatAssoc(p0, pause, PausesFrom(texts, batchSize, embed, i + batchSize));
      i := i + batchSize;
    }
  }

  lemma ConcatAssoc<U>(a: seq<U>, b: seq<U>, c: seq<U>)
    ensures a + b + c == a + (b + c)
  {
  }

  /** One pass of the loop: the batch at offset `i`, then the rest. */
  lemma StepFrom<T>(texts: seq<T>, bs: nat, embed: Embedder<T>, i: nat)
    requires bs > 0 && i < |texts|
    ensures var batch := Slice(texts, i, bs);
      var result := embed(RetrievalDocument, batch);
      && EmbeddingsFrom(texts, bs, embed, i) == BatchResult(result, |batch|) + EmbeddingsFrom(texts, bs, embed, i + bs)
      && PausesFrom(texts, bs, embed, i) == (if result.Some? && i + bs < |texts| then [i] else []) + PausesFrom(texts, bs, embed, i + bs)
  {
  }

  // ---------------------------------------------------------------------------
  // Properties

  lemma {:induction false} LengthFrom<T(!new)>(texts: seq<T>, bs: nat, embed: Embedder<T>, i: nat)
    requires bs > 0 && Faithful(embed)
    ensures |EmbeddingsFrom(texts, bs, embed, i)| == if i < |texts| then |texts| - i else 0
    decreases |texts| - i
  {
    if i < |texts| {
      LengthFrom(texts, bs, embed, i + bs);
    }
  }

  /** With a service that answers each batch in full, the result has one entry per text. */
  lemma EmbeddingsLength<T(!new)>(texts: seq<T>, bs: nat, embed: Embedder<T>)
    requires bs > 0 && Faithful(embed)
    ensures |Embeddings(texts, bs, embed)| == |texts|
  {
    LengthFrom(texts, bs, embed, 0);
  }

  /** `off` is a whole number of batches. */
  predicate Aligned(off: nat, bs: nat)
    requires bs > 0
    decreases off
  {
    off == 0 || (off >= bs && Aligned(off - bs, bs))
  }

  lemma {:induction false} MultipleAligned(b: nat, bs: nat)
    requires bs > 0
    ensures Aligned(b * bs, bs)
  {
    if b > 0 {
      MultipleAligned(b - 1, bs);
      assert b * bs - bs == (b - 1) * bs;
    }
  }

  /** The entries of the batches from offset `i` up to, not including, offset `j`. */
  function EmbeddingsBetween<T>(texts: seq<T>, bs: nat, embed: Embedder<T>, i: nat, j: nat): seq<Option<Vector>>
    requires bs > 0
    decreases j - i
  {
    if i >= j || i >= |texts| then []
    else
      var batch := Slice(texts, i, bs);
      BatchResult(embed(RetrievalDocument, batch), |batch|) + EmbeddingsBetween(texts, bs, embed, i + bs, j)
  }

  /** At a batch boundary `j`, the list splits into the batches before `j` and those from `j` on. */
  lemma {:induction false} SplitAt<T>(texts: seq<T>, bs: nat, embed: Embedder<T>, i: nat, j: nat)
    requires bs > 0 && i <= j && Aligned(j - i, bs)
    ensures EmbeddingsFrom(texts, bs, embed, i) == EmbeddingsBetween(texts, bs, embed, i, j) + EmbeddingsFrom(texts, bs, embed, j)
    decreases j - i
  {
    if i < j {
      SplitAt(texts, bs, embed, i + bs, j);
      if i < |texts| {
        var batch := Slice(texts, i, bs);
        ConcatAssoc(BatchResult(embed(RetrievalDocument, batch), |batch|),
                    EmbeddingsBetween(texts, bs, embed, i + bs, j), EmbeddingsFrom(texts, bs, embed, j));
      }
    }
  }

  /** Whole batches before `j` contribute one entry per text. */
  lemma {:induction false} LengthBetween<T(!new)>(texts: seq<T>, bs: nat, embed: Embedder<T>, i: nat, j: nat)
    requires bs > 0 && Faithful(embed)
    requires i <= j <= |texts| && Aligned(j - i, bs)
    ensures |EmbeddingsBetween(texts, bs, embed, i, j)| == j - i
    decreases j - i
  {
    if i < j {
      LengthBetween(texts, bs, embed, i + bs, j);
      var batch := Slice(texts, i, bs);
      assert |BatchResult(embed(RetrievalDocument, batch), |batch|)| == bs;
    }
  }

  /**
   * Batch `b` (the texts `texts[b*bs : b*bs + bs]`) determines exactly the
   * matching stretch of the result: its vectors in order when the call
   * succeeds, one `None` per text when it raises. No other batch touches it.
   */
  lemma BatchLocality<T(!new)>(texts: seq<T>, bs: nat, embed: Embedder<T>, b: nat)
    requires bs > 0 && Faithful(embed)
    requires b * bs < |texts|
    ensures var batch := Slice(texts, b * bs, bs);
      var out := Embeddings(texts, bs, embed);
      b * bs + |batch| <= |out| &&
      out[b * bs .. b * bs + |batch|] == BatchResult(embed(RetrievalDocument, batch), |batch|)
  {
    var j := b * bs;
    MultipleAligned(b, bs);
    SplitAt(texts, bs, embed, 0, j);
    LengthBetween(texts, bs, embed, 0, j);
    var before := EmbeddingsBetween(texts, bs, embed, 0, j);
    var batch := Slice(texts, j, bs);
    var head := BatchResult(embed(RetrievalDocument, batch), |batch|);
    var after := EmbeddingsFrom(texts, bs, embed, j + bs);
    assert |head| == |batch|;
    assert EmbeddingsFrom(texts, bs, embed, j) == head + after;
    assert (before + (head + after))[j .. j + |batch|] == head;
  }

  lemma {:induction false} PausesFromExact<T>(texts: seq<T>, bs: nat, embed: Embedder<T>, i: nat, p: nat)
    requires bs > 0
    ensures p in PausesFrom(texts, bs, embed, i) <==>
      i <= p && Aligned(p - i, bs) && p + bs < |texts| && embed(RetrievalDocument, Slice(texts, p, bs)).Some?
    decreases |texts| - i
  {
    if i < |texts| {
      PausesFromExact(texts, bs, embed, i + bs, p);
    }
  }

  /** Every whole number of batches is a multiple of the batch size. */
  lemma {:induction false} AlignedMultiple(off: nat, bs: nat)
    requires bs > 0 && Aligned(off, bs)
    ensures exists b: nat :: off == b * bs
    decreases off
  {
    if off == 0 {
      assert off == 0 * bs;
    } else {
      AlignedMultiple(off - bs, bs);
      var b: nat :| off - bs == b * bs;
      assert off == (b + 1) * bs;
    }
  }

  /** The loop sleeps after exactly the successful batches that are not the last one. */
  lemma PausesExact<T>(texts: seq<T>, bs: nat, embed: Embedder<T>, p: nat)
    requires bs > 0
    ensures p in Pauses(texts, bs, embed) <==>
      (exists b: nat :: p == b * bs) && p + bs < |texts| && embed(RetrievalDocument, Slice(texts, p, bs)).Some?
  {
    PausesFromExact(texts, bs, embed, 0, p);
    if Aligned(p, bs) {
      AlignedMultiple(p, bs);
    }
    if exists b: nat :: p == b * bs {
      var b: nat :| p == b * bs;
      MultipleAligned(b, bs);
    }
  }

  /** A service that fails on every batch yields only `None`s, one per text. */
  lemma {:induction false} AllFailedFrom<T(!new)>(texts: seq<T>, bs: nat, embed: Embedder<T>, i: nat)
    requires bs > 0
    requires forall b :: embed(RetrievalDocument, b).None?
    ensures EmbeddingsFrom(texts, bs, embed, i) == Nones(if i < |texts| then |texts| - i else 0)
    decreases |texts| - i
  {
    if i < |texts| {
      AllFailedFrom(texts, bs, embed, i + bs);
    }
  }
}
