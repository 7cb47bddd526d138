/**
 * Planning of the vector-store upserts of the ingest tool
 * (src/mastra/tools/pdf-ingest.ts:300-336): the chunk ids are cut into
 * consecutive batches of at most ten; every batch carries the matching
 * chunk texts and embeddings and, for each id, a metadata record naming the
 * batch's first id as parent.
 */
module Upsert {
  import opened Strings

  const BatchSize: nat := 10

  type Embedding = seq<real>

  datatype ChunkMetadata = ChunkMetadata(parentId: string)

  /** One `store.upsert` call. */
  datatype UpsertBatch = UpsertBatch(
    ids: seq<string>,
    embeddings: seq<Embedding>,
    metadatas: seq<ChunkMetadata>,
    documents: seq<string>)

  /** `xs.slice(lo, hi)`: the end is clamped to the length, and a start past the end gives nothing. */
  function Slice<T>(xs: seq<T>, lo: nat, hi: nat): (r: seq<T>)
    requires lo <= hi
    ensures |r| == if lo >= |xs| then 0 else Min(hi, |xs|) - lo
    ensures forall k :: 0 <= k < |r| ==> r[k] == xs[lo + k]
  {
    if lo >= |xs| then [] else xs[lo..Min(hi, |xs|)]
  }

  lemma SliceAppend<T>(xs: seq<T>, a: nat, b: nat, c: nat)
    requires a <= b <= c
    ensures Slice(xs, a, b) + Slice(xs, b, c) == Slice(xs, a, c)
  {
  }

  /** Batch `b` as the loop builds it, stated field by field. */
  predicate IsBatch(chunks: seq<string>, ids: seq<string>, embeddings: seq<Embedding>, b: nat, batch: UpsertBatch)
  {
    var lo := b * BatchSize;
    && batch.ids == Slice(ids, lo, lo + BatchSize)
    && batch.ids != []
    && batch.documents == Slice(chunks, lo, lo + BatchSize)
    && batch.embeddings == Slice(embeddings, lo, lo + BatchSize)
    && |batch.metadatas| == |batch.ids|
    && forall k :: 0 <= k < |batch.metadatas| ==> batch.metadatas[k].parentId == batch.ids[0]
  }

  /** One turn of the upsert loop, at `i = 10b`: batch `b`, its documents copied one by one. */
  method BuildBatch(chunks: seq<string>, ids: seq<string>, embeddings: seq<Embedding>, b: nat)
    returns (batch: UpsertBatch)
    requires |ids| == |chunks| && b * BatchSize < |ids|
    ensures IsBatch(chunks, ids, embeddings, b, batch)
  {
    var i := b * BatchSize;
    var batchIds := Slice(ids, i, i + BatchSize);
    var batchMetadatas := seq(|batchIds|, _ => ChunkMetadata(ids[i]));
    var batchDocuments := [];
    for j := 0 to |batchIds|
      invariant batchDocuments == chunks[i..i + j]
    {
      batchDocuments := batchDocuments + [chunks[i + j]];
    }
    var batchEmbeddings := Slice(embeddings, i, i + BatchSize);
    batch := UpsertBatch(batchIds, batchEmbeddings, batchMetadatas, batchDocuments);
  }

  /**
   * A plan the loop produces: one batch per ten ids, rounded up, batch `b`
   * being the one `IsBatch` describes.
   */
  predicate IsBatchPlan(chunks: seq<string>, ids: seq<string>, embeddings: seq<Embedding>, batches: seq<UpsertBatch>)
  {
    && |ids| <= |batches| * BatchSize < |ids| + BatchSize
    && forall b :: 0 <= b < |batches| ==> IsBatch(chunks, ids, embeddings, b, batches[b])
  }

  /** The upsert loop: `i` steps through the ids ten at a time. */
  method PlanUpsertBatches(chunks: seq<string>, ids: seq<string>, embeddings: seq<Embedding>)
    returns (batches: seq<UpsertBatch>)
    requires |ids| == |chunks|
    ensures IsBatchPlan(chunks, ids, embeddings, batches)
  {
    batches := [];
    var i := 0;
    while i < |ids|
      invariant i == |batches| * BatchSize
      invariant i < |ids| + BatchSize
      invariant forall b :: 0 <= b < |batches| ==> IsBatch(chunks, ids, embeddings, b, batches[b])
      decreases |ids| - i
    {
      var batch := BuildBatch(chunks, ids, embeddings, |batches|);
      batches := batches + [batch];
      i := i + BatchSize;
    }
  }

  /** The concatenation of one field over all batches, in batch order. */
  function Gather<T>(batches: seq<UpsertBatch>, field: UpsertBatch -> seq<T>): seq<T>
  {
    if batches == [] then [] else Gather(batches[..|batches| - 1], field) + field(batches[|batches| - 1])
  }

  lemma {:induction false} GatherSlices<T>(batches: seq<UpsertBatch>, field: UpsertBatch -> seq<T>, xs: seq<T>)
    requires forall b :: 0 <= b < |batches| ==> field(batches[b]) == Slice(xs, b * BatchSize, b * BatchSize + BatchSize)
    ensures Gather(batches, field) == Slice(xs, 0, |batches| * BatchSize)
  {
    if batches != [] {
      var m := |batches| - 1;
      GatherSlices(batches[..m], field, xs);
      SliceAppend(xs, 0, m * BatchSize, m * BatchSize + BatchSize);
    }
  }

  /**
   * The batches upsert every chunk exactly once and in order: their ids
   * concatenate to the generated ids and their documents to the chunks, and,
   * when there is one embedding per chunk, their embeddings to the embeddings.
   */
  lemma BatchesCoverChunks(chunks: seq<string>, ids: seq<string>, embeddings: seq<Embedding>, batches: seq<UpsertBatch>)
    requires |ids| == |chunks|
    requires IsBatchPlan(chunks, ids, embeddings, batches)
    ensures Gather(batches, (bt: UpsertBatch) => bt.ids) == ids
    ensures Gather(batches, (bt: UpsertBatch) => bt.documents) == chunks
    ensures |embeddings| == |ids| ==> Gather(batches, (bt: UpsertBatch) => bt.embeddings) == embeddings
  {
    GatherSlices(batches, (bt: UpsertBatch) => bt.ids, ids);
    GatherSlices(batches, (bt: UpsertBatch) => bt.documents, chunks);
    GatherSlices(batches, (bt: UpsertBatch) => bt.embeddings, embeddings);
  }

  /**
   * Every batch holds one to ten ids and all but the last exactly ten, its
   * documents and metadata records line up with its ids, and so do its
   * embeddings when there is one embedding per chunk.
   */
  lemma BatchShape(chunks: seq<string>, ids: seq<string>, embeddings: seq<Embedding>, batches: seq<UpsertBatch>, b: nat)
    requires |ids| == |chunks|
    requires IsBatchPlan(chunks, ids, embeddings, batches)
    requires b < |batches|
    ensures 1 <= |batches[b].ids| <= BatchSize
    ensures b < |batches| - 1 ==> |batches[b].ids| == BatchSize
    ensures |batches[b].documents| == |batches[b].metadatas| == |batches[b].ids|
    ensures |embeddings| == |ids| ==> |batches[b].embeddings| == |batches[b].ids|
    ensures forall k :: 0 <= k < |batches[b].ids| ==>
      batches[b].ids[k] == ids[b * BatchSize + k] && batches[b].documents[k] == chunks[b * BatchSize + k]
  {
    assert IsBatch(chunks, ids, embeddings, b, batches[b]);
  }

  /** A chunk is upserted together with its own embedding, in whatever batch it lands. */
  lemma EmbeddingsStayWithChunks(chunks: seq<string>, ids: seq<string>, embeddings: seq<Embedding>,
                                 batches: seq<UpsertBatch>, embed: string -> Embedding)
    requires |ids| == |chunks| == |embeddings|
    requires forall k :: 0 <= k < |chunks| ==> embeddings[k] == embed(chunks[k])
    requires IsBatchPlan(chunks, ids, embeddings, batches)
    ensures forall b, k :: 0 <= b < |batches| && 0 <= k < |batches[b].documents| ==>
      k < |batches[b].embeddings| && batches[b].embeddings[k] == embed(batches[b].documents[k])
  {
    forall b, k | 0 <= b < |batches| && 0 <= k < |batches[b].documents|
      ensures k < |batches[b].embeddings| && batches[b].embeddings[k] == embed(batches[b].documents[k])
    {
      assert IsBatch(chunks, ids, embeddings, b, batches[b]);
    }
  }

  /** Every metadata record of a batch names the first id of that batch as its parent. */
  lemma ParentIsFirstOfBatch(chunks: seq<string>, ids: seq<string>, embeddings: seq<Embedding>, batches: seq<UpsertBatch>, b: nat, k: nat)
    requires IsBatchPlan(chunks, ids, embeddings, batches)
    requires b < |batches| && k < |batches[b].metadatas|
    ensures batches[b].metadatas[k].parentId == ids[b * BatchSize]
  {
    assert IsBatch(chunks, ids, embeddings, b, batches[b]);
  }
}
