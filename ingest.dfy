/**
 * The PDF ingest tool end to end (src/mastra/tools/pdf-ingest.ts:242-409):
 * parse the S3 location, extract the document text, chunk it, and plan the
 * upserts of the chunks with one generated id and one embedding each.
 *
 * Fetching the object, generating ids and computing embeddings are outside
 * calls; they are the parameters `load`, `uuid` and `embed`.
 */
module PdfIngest {
  import opened Wrappers
  import opened Strings
  import opened Whitespace
  import opened PageImages
  import opened PdfExtract
  import opened Sentences
  import opened Chunker
  import opened Upsert
  import opened S3Path

  /**
   * The upserted documents, in order, are the greedy chunking `ranges` of the
   * sentences of the extracted text under the default size bound.
   */
  ghost predicate ChunksGreedily(pages: seq<Page>, sim: (nat, nat) -> real, batches: seq<UpsertBatch>,
                                 ranges: seq<ChunkRange>)
  {
    var sentences := SplitIntoSentences(Normalize(RawText(pages)));
    && IsGreedyChunking(sentences, sim, DefaultMaxChunkSize, ranges)
    && InBounds(|sentences|, ranges)
    && Gather(batches, (bt: UpsertBatch) => bt.documents) == ChunkStrings(sentences, ranges)
  }

  /**
   * Joining the upserted documents with single spaces gives back the extracted
   * text; there are `count` of them, none exactly when the document has no
   * text; they get the generated ids in order; each is upserted with its own
   * embedding; and the upserts are the batch plan of the documents, their ids
   * and their embeddings (at most ten ids per upsert, each with a metadata
   * record naming the batch's first id as parent).
   */
  predicate UpsertsText(pages: seq<Page>, uuid: nat -> string, embed: string -> Embedding,
                        count: nat, batches: seq<UpsertBatch>)
  {
    var documents := Gather(batches, (bt: UpsertBatch) => bt.documents);
    && count == |documents|
    && Join(" ", documents) == Normalize(RawText(pages))
    && (count == 0 <==> Strip(DocumentItemsText(pages)) == "")
    && Gather(batches, (bt: UpsertBatch) => bt.ids) == seq(count, k requires 0 <= k < count => uuid(k))
    && IsBatchPlan(documents, seq(count, k requires 0 <= k < count => uuid(k)),
                   seq(|documents|, k requires 0 <= k < |documents| => embed(documents[k])), batches)
    && forall b, k :: 0 <= b < |batches| && 0 <= k < |batches[b].documents| ==>
         k < |batches[b].embeddings| && batches[b].embeddings[k] == embed(batches[b].documents[k])
  }

  /** The tool's work once the pages are loaded (src/mastra/tools/pdf-ingest.ts:258-347). */
  method IngestPages(
    pages: seq<Page>, resolve: (nat, string) -> RawImage,
    sim: (nat, nat) -> real, uuid: nat -> string, embed: string -> Embedding)
    returns (count: nat, batches: seq<UpsertBatch>, ghost ranges: seq<ChunkRange>)
    ensures UpsertsText(pages, uuid, embed, count, batches)
    ensures ChunksGreedily(pages, sim, batches, ranges)
  {
    var extraction := ExtractPdf(pages, resolve);
    var chunks;
    chunks, ranges := ChunkText(extraction.text, sim, DefaultMaxChunkSize);
    var embeddings := seq(|chunks|, k requires 0 <= k < |chunks| => embed(chunks[k]));
    var ids := seq(|chunks|, k requires 0 <= k < |chunks| => uuid(k));
    batches := PlanUpsertBatches(chunks, ids, embeddings);
    BatchesCoverChunks(chunks, ids, embeddings, batches);
    EmbeddingsStayWithChunks(chunks, ids, embeddings, batches, embed);
    count := |chunks|;
  }

  /**
   * A bad location fails before anything is read; otherwise the pages at the
   * location are ingested as `UpsertsText` and `ChunksGreedily` state, and the reported count is
   * the number of chunks upserted.
   */
  method IngestPdf(
    s3Path: string, defaultBucket: Option<string>,
    load: S3Location -> seq<Page>, resolve: (nat, string) -> RawImage,
    sim: (nat, nat) -> real, uuid: nat -> string, embed: string -> Embedding)
    returns (outcome: Result<nat, S3PathError>, batches: seq<UpsertBatch>, ghost ranges: seq<ChunkRange>)
    ensures ParseS3Path(s3Path, defaultBucket).Failure? ==>
      outcome == Failure(ParseS3Path(s3Path, defaultBucket).error) && batches == [] && ranges == []
    ensures ParseS3Path(s3Path, defaultBucket).Success? ==>
      outcome.Success? && UpsertsText(load(ParseS3Path(s3Path, defaultBucket).value), uuid, embed, outcome.value, batches)
    ensures ParseS3Path(s3Path, defaultBucket).Success? ==>
      ChunksGreedily(load(ParseS3Path(s3Path, defaultBucket).value), sim, batches, ranges)
  {
    var parsed := ParseS3Path(s3Path, defaultBucket);
    if parsed.Failure? {
      return Failure(parsed.error), [], [];
    }
    var pages := load(parsed.value);
    var count;
    count, batches, ranges := IngestPages(pages, resolve, sim, uuid, embed);
    outcome := Success(count);
  }

  /**
   * The upserted documents and their count are determined by the pages and the
   * similarity: whatever ids and embeddings the services hand out, any two
   * ingestions of the same pages upsert the same documents in the same order.
   */
  lemma IngestionDetermined(pages: seq<Page>, sim: (nat, nat) -> real,
                            count1: nat, batches1: seq<UpsertBatch>, ranges1: seq<ChunkRange>,
                            count2: nat, batches2: seq<UpsertBatch>, ranges2: seq<ChunkRange>)
    requires ChunksGreedily(pages, sim, batches1, ranges1) && count1 == |Gather(batches1, (bt: UpsertBatch) => bt.documents)|
    requires ChunksGreedily(pages, sim, batches2, ranges2) && count2 == |Gather(batches2, (bt: UpsertBatch) => bt.documents)|
    ensures ranges1 == ranges2 && count1 == count2
    ensures Gather(batches1, (bt: UpsertBatch) => bt.documents) == Gather(batches2, (bt: UpsertBatch) => bt.documents)
  {
    var sentences := SplitIntoSentences(Normalize(RawText(pages)));
    GreedyChunkingUnique(sentences, sim, DefaultMaxChunkSize, ranges1, ranges2);
  }
}
