# Verified model of the indie-parrot ingest tools

This project is a Dafny model of the deterministic core of two ingest tools in
the indie-parrot agent.

The PDF ingest tool (`src/mastra/tools/pdf-ingest.ts`) works in these steps:

- It reads a PDF from S3.
- It rebuilds each page's text from the positioned text items. Items are
  grouped into lines by baseline, with a space wherever the horizontal gap is
  wide.
- It cleans up the whitespace of the whole document.
- It splits the text into sentences at `.`, `!` or `?` followed by whitespace.
- It groups the sentences into chunks with a bounded-lookahead greedy search.
  The search scores each window by the sum of the pairwise similarities of
  its sentences.
- It upserts the chunks into the vector store in batches of ten.

The audio ingest tool (`src/mastra/tools/audio-ingest.ts`) parses the same
kind of S3 location. After starting a transcription, it polls the provider
up to thirty times. A `done` or `error` answer updates the transcription
record in place; any other answer leaves it as it was.

Modules, one per file:

| file | module | models |
|---|---|---|
| `wrappers.dfy` | `Wrappers` | `Option` and `Result` |
| `strings.dfy` | `Strings` | the `\s` class of JavaScript regular expressions, line terminators, `join`, and whitespace-insensitive comparison (`Strip`) |
| `whitespace.dfy` | `Whitespace` | the clean-up chain `replace(/\s+/g, ' ').replace(/\n\s*\n/g, '\n').trim()` |
| `page_layout.dfy` | `PageLayout` | the sort comparator, grouping into lines, spacing within a line, and the page text |
| `page_images.dfy` | `PageImages` | the image id `${p}_${name}` and the image loop of one page |
| `pdf_extract.dfy` | `PdfExtract` | `extractPdf`: the page loop and the final clean-up |
| `sentences.dfy` | `Sentences` | `splitIntoSentences` |
| `chunker.dfy` | `Chunker` | `dynamicProgrammingChunk` and `chunkText` |
| `upsert.dfy` | `Upsert` | the upsert batch loop |
| `s3_path.dfy` | `S3Path` | the bucket and key parse of both tools |
| `transcription_polling.dfy` | `TranscriptionPolling` | the transcription record and the polling loop |
| `ingest.dfy` | `PdfIngest` | the PDF tool end to end |

Outside calls become parameters:

- the loaded pages (`load`, and `Page` values holding the text items and the
  operator list);
- the image object a name resolves to (`resolve`);
- the similarity of two sentences (`sim`), standing in for the cosine of
  their embeddings;
- the generated ids (`uuid`);
- the chunk embeddings (`embed`);
- the default bucket from the environment (`defaultBucket`);
- the provider's answer to each poll (`respond`).

Points where the code's behaviour is easy to misread, as the model states them:

- The line-grouping anchor moves to every item's y (`pdf-ingest.ts:73-80`),
  so the 5-unit tolerance chains from item to item. It is not fixed at a
  line's first item. `PageLayout.Lines` and `IsLineGrouping` state the
  chained rule.
- The first replace of the clean-up turns every whitespace run, newlines
  included, into one space. So the blank-line replace never finds a newline
  (`Whitespace.BlankLineReplaceIsNoOp`), and the extracted text is a single
  line (`Whitespace.NormalizedHasNoNewline`). Pages and lines are not kept
  apart by newlines.
- The chunk size bound applies to the summed sentence lengths, not to the
  joined chunk (`pdf-ingest.ts:199-202`). A chunk of two or more sentences can
  therefore be up to nine characters longer than the bound once the sentences
  are joined with spaces (`Chunker.ChunkStringBounded`). For example, two
  sentences of 100 characters each make a chunk of 201 characters under the
  default bound of 200.
- When either vector is zero, the similarity is `0/0`, not 0. The model takes the
  similarity as an arbitrary real, so the chunk properties hold whatever the
  similarity values are; NaN is not modelled.
- Image ids are `${page}_${name}`. They differ across pages and across names
  (`PageImages.ImageIdInjective`), but a page that paints the same object
  twice yields two images with the same id (`PageImages.RepeatedPaintRepeatsId`).
- The sort comparator is antisymmetric but not transitive
  (`PageLayout.CompareHasCycle`). So the order of the sorted items, and with
  it the page text, can depend on the order the items came in.

## Model

| member | source | states |
|---|---|---|
| PageLayout.CompareAntisymmetric | src/mastra/tools/pdf-ingest.ts:51-63 | swapping two items negates the comparator |
| PageLayout.CompareHasCycle | src/mastra/tools/pdf-ingest.ts:51-63 | three items 4 units apart in y are each ordered before the next, and the last before the first: the comparator is not transitive |
| PageLayout.CompareItems | src/mastra/tools/pdf-ingest.ts:51-63 | defines the sort comparator: by x when the baselines are within 5, otherwise higher on the page first; stated by `CompareAntisymmetric` and `CompareHasCycle` |
| PageLayout.LinesAreGrouping | src/mastra/tools/pdf-ingest.ts:66-85 | the lines, concatenated, give back the items in order; every line is non-empty; within a line consecutive baselines differ by less than 5; each new line's first item differs by at least 5 from the item before; no items give no lines and vice versa |
| PageLayout.LinesSnoc | src/mastra/tools/pdf-ingest.ts:70-81 | adding an item either extends the last line (its y is within 5 of the previous item's y) or opens a new line with it alone |
| PageLayout.Lines | src/mastra/tools/pdf-ingest.ts:66-85 | defines the line grouping with the chained 5-unit tolerance; its properties are stated by `LinesAreGrouping` and `LinesSnoc` |
| PageLayout.GroupLines | src/mastra/tools/pdf-ingest.ts:66-85 | the grouping loop returns a grouping of the items as above, and no lines exactly when there are no items |
| PageLayout.LineTextSnoc | src/mastra/tools/pdf-ingest.ts:92-108 | appending an item to a line appends one space when the gap from the previous item's right edge exceeds 1, nothing otherwise, then the item's string |
| PageLayout.Separator | src/mastra/tools/pdf-ingest.ts:95-107 | defines what goes between neighbouring items: one space when the gap from the previous item's right edge exceeds 1, nothing otherwise; stated by `LineTextSnoc` and `HelloWorld` |
| PageLayout.LineText | src/mastra/tools/pdf-ingest.ts:88-108 | defines a line's text: the item strings left to right, a space where the gap exceeds 1; stated by `LineTextSnoc`, `HelloWorld` and `LineTextKeepsText` |
| PageLayout.BuildLineText | src/mastra/tools/pdf-ingest.ts:88-108 | the line loop builds the line's strings left to right with those separators |
| PageLayout.HelloWorld | src/mastra/tools/pdf-ingest.ts:95-107 | "Hello" at x 0 with width 30 followed by "world." at x 40 gives "Hello world." |
| PageLayout.LineTextKeepsText | src/mastra/tools/pdf-ingest.ts:88-108 | a line's text holds exactly the non-whitespace characters of its item strings, in order |
| PageLayout.PageTextKeepsText | src/mastra/tools/pdf-ingest.ts:87-111 | the page text, lines each followed by a newline, holds exactly the non-whitespace characters of the item strings, in order |
| PageLayout.PageText | src/mastra/tools/pdf-ingest.ts:87-111 | defines a page's text: each line's text followed by a newline; stated by `PageTextKeepsText` |
| PageLayout.RawPageKeepsText | src/mastra/tools/pdf-ingest.ts:66-111 | grouping and joining one page's items add or remove only whitespace |
| PageLayout.RawPageText | src/mastra/tools/pdf-ingest.ts:66-110 | defines one page's text: its items grouped into lines, each line's items joined with the gap separator, each line followed by a newline; stated by `RawPageKeepsText` and `BuildPageText` |
| PageImages.DecimalRoundTrip | src/mastra/tools/pdf-ingest.ts:141 | the decimal numeral of a page number reads back as that number |
| PageImages.DecimalString | src/mastra/tools/pdf-ingest.ts:141 | the decimal numeral of a page number: non-empty and all digits; `DecimalRoundTrip` states it reads back as the number |
| PageImages.ImageIdInjective | src/mastra/tools/pdf-ingest.ts:141 | two images have the same id only when they have the same page and the same object name |
| PageImages.ImageId | src/mastra/tools/pdf-ingest.ts:141 | defines the id `${page}_${name}`; stated by `ImageIdInjective`, `DistinctPagesDistinctIds` and `RepeatedPaintRepeatsId` |
| PageImages.ExtractPageImages | src/mastra/tools/pdf-ingest.ts:114-147 | one image per paint operation (image or form object), in operator order, with its page-and-name id and the size and samples its object resolves to |
| PageImages.PaintedNames | src/mastra/tools/pdf-ingest.ts:116-121 | defines the names of the `paintImageXObject` and `paintXObject` operations, in operator order; `ExtractPageImages` yields one image per name and `RepeatedPaintRepeatsId` shows a repeated name repeats the id |
| PageImages.ImageOf | src/mastra/tools/pdf-ingest.ts:126-145 | defines one extracted image: the page-and-name id with the resolved object's size and samples; stated by `ExtractPageImages`, `ImageIdInjective` and `DistinctPagesDistinctIds` |
| PageImages.DistinctPagesDistinctIds | src/mastra/tools/pdf-ingest.ts:140-141 | images painted on different pages never share an id |
| PageImages.RepeatedPaintRepeatsId | src/mastra/tools/pdf-ingest.ts:116-145 | painting the same object twice on a page yields two images with the same id |
| Strings.IsSpace | src/mastra/tools/pdf-ingest.ts:151 | defines the `\s` class of JavaScript regular expressions, which is also what `trim` removes; the clean-up lemmas (`NormalizeIsNormalized`, `TrimKeepsText`) and the sentence split (`FirstBoundary`) are stated with it |
| Strings.Join | src/mastra/tools/pdf-ingest.ts:226 | defines `join(sep)`: the parts with one separator between neighbours and none at the ends; `JoinAppend` states that joining two lists puts one separator between their joins, `StripJoin` that a whitespace separator adds no other character, and `JoinLength` and `ChunksJoinToSentences` state it for the chunk strings |
| Whitespace.CollapseWhitespace | src/mastra/tools/pdf-ingest.ts:151 | after the first replace no two whitespace characters are adjacent and every whitespace character is a plain space; a leading whitespace run becomes one space; `CollapseSeam` states that a run between two words becomes exactly one space |
| Whitespace.CollapseAppend | src/mastra/tools/pdf-ingest.ts:151 | text that ends in a non-whitespace character is collapsed on its own: no run crosses its end |
| Whitespace.CollapseSeam | src/mastra/tools/pdf-ingest.ts:151 | a whitespace run between two words becomes exactly one space, so words are neither glued together nor kept apart by more than one space |
| Whitespace.CollapseKeepsText | src/mastra/tools/pdf-ingest.ts:151 | the first replace keeps every non-whitespace character in order |
| Whitespace.CollapseFixesSpaced | src/mastra/tools/pdf-ingest.ts:151 | text already single-spaced with plain spaces is unchanged by the first replace |
| Whitespace.BlankLinesNeedNewline | src/mastra/tools/pdf-ingest.ts:151 | the blank-line replace leaves text without a newline unchanged |
| Whitespace.BlankLineReplaceIsNoOp | src/mastra/tools/pdf-ingest.ts:151 | the blank-line replace never changes the output of the first replace |
| Whitespace.TrimEnd | src/mastra/tools/pdf-ingest.ts:151 | the result is a prefix that does not end in whitespace, and only whitespace was cut |
| Whitespace.Trim | src/mastra/tools/pdf-ingest.ts:151 | the result is the input without its leading and trailing whitespace runs, and neither starts nor ends with whitespace |
| Whitespace.TrimKeepsText | src/mastra/tools/pdf-ingest.ts:151 | trimming keeps every non-whitespace character in order |
| Whitespace.TrimFixesUnpadded | src/mastra/tools/pdf-ingest.ts:151 | trimming leaves text that neither starts nor ends with whitespace unchanged |
| Whitespace.NormalizeIsNormalized | src/mastra/tools/pdf-ingest.ts:151 | the cleaned text has no leading or trailing whitespace, no two adjacent whitespace characters, and no whitespace other than plain spaces |
| Whitespace.NormalizedHasNoNewline | src/mastra/tools/pdf-ingest.ts:151 | cleaned text holds no newline |
| Whitespace.NormalizeKeepsText | src/mastra/tools/pdf-ingest.ts:151 | the clean-up keeps every non-whitespace character in order |
| Whitespace.NormalizeFixesNormalized | src/mastra/tools/pdf-ingest.ts:151 | clean text is unchanged by the clean-up |
| Whitespace.NormalizeIdempotent | src/mastra/tools/pdf-ingest.ts:151 | cleaning twice is cleaning once |
| Whitespace.CollapseBlankLines | src/mastra/tools/pdf-ingest.ts:151 | defines the global replace of `\n\s*\n` by one newline; stated by `BlankLinesNeedNewline` and `BlankLineReplaceIsNoOp` |
| Whitespace.Normalize | src/mastra/tools/pdf-ingest.ts:151 | defines the clean-up chain, the three steps in the code's order; stated by `NormalizeIsNormalized`, `NormalizeKeepsText`, `NormalizeFixesNormalized` and `NormalizeIdempotent` |
| PdfExtract.BuildPageText | src/mastra/tools/pdf-ingest.ts:45-111 | one page's turn of the text loop yields the page's lines, each followed by a newline |
| PdfExtract.ExtractPdf | src/mastra/tools/pdf-ingest.ts:30-154 | the text is the clean-up of the pages' texts in page order, is clean, and holds exactly the non-whitespace characters of all item strings in order; the images are every page's images in page order, pages numbered from 1 |
| PdfExtract.PageImagesOf | src/mastra/tools/pdf-ingest.ts:114-147 | defines the images of page `p`: one per painted name of the page's operator list, in operator order, each resolved on that page; stated by `ExtractPageImages` and, through `ExtractPdf`, by the images of the document |
| PdfExtract.DocumentImages | src/mastra/tools/pdf-ingest.ts:38-147 | defines the images of the document: every page's images in page order, pages numbered from 1; `ExtractPdf` ensures its image list is exactly this, and `DistinctPagesDistinctIds` shows images of different pages never share an id |
| PdfExtract.RawTextKeepsText | src/mastra/tools/pdf-ingest.ts:41-111 | the document text before clean-up holds exactly the non-whitespace characters of all item strings, in order |
| PdfExtract.RawText | src/mastra/tools/pdf-ingest.ts:39-110 | defines the document text before clean-up: every page's text in page order, with no separator between pages; stated by `RawTextKeepsText` |
| PdfExtract.ExtractedTextKeepsText | src/mastra/tools/pdf-ingest.ts:41-151 | the same holds after the clean-up |
| PdfExtract.BlankDocumentHasNoText | src/mastra/tools/pdf-ingest.ts:41-151 | a document whose items hold only whitespace, or no items at all, yields the empty text |
| Sentences.FirstBoundary | src/mastra/tools/pdf-ingest.ts:179 | the earliest split point at or after a position: whitespace directly after `.`, `!` or `?`, or the end of the text when there is none |
| Sentences.SplitPieces | src/mastra/tools/pdf-ingest.ts:179 | defines the split at every whitespace run after `.`, `!` or `?`: at least one piece; stated through `SplitIntoSentences` by `SentencesEndWithTerminal` and `SentencesHaveNoInnerBoundary` |
| Sentences.KeepSentences | src/mastra/tools/pdf-ingest.ts:179 | trims every piece and drops the empty ones: no more sentences than pieces, each non-empty and trimmed |
| Sentences.SplitIntoSentences | src/mastra/tools/pdf-ingest.ts:178-180 | every sentence is non-empty and trimmed; empty text gives no sentences |
| Sentences.SentencesEndWithTerminal | src/mastra/tools/pdf-ingest.ts:179 | every sentence but the last ends with `.`, `!` or `?`: a split happens only after one |
| Sentences.SentencesHaveNoInnerBoundary | src/mastra/tools/pdf-ingest.ts:179 | no sentence contains whitespace directly after `.`, `!` or `?`: every such place was split |
| Sentences.SentencesKeepText | src/mastra/tools/pdf-ingest.ts:178-180 | the sentences together hold exactly the non-whitespace characters of the text, in order |
| Sentences.SplitJoinRoundTrip | src/mastra/tools/pdf-ingest.ts:178-180 | for clean text, joining the sentences with single spaces gives back the text |
| Chunker.SizeMonotone | src/mastra/tools/pdf-ingest.ts:199-202 | the summed length of a window grows with its end |
| Chunker.SizeRange | src/mastra/tools/pdf-ingest.ts:199-201 | defines the running `chunkSize`, the summed sentence lengths of a window; stated by `SizeMonotone` and `JoinLength` |
| Chunker.PairCount | src/mastra/tools/pdf-ingest.ts:205-209 | a window of m + 1 sentences has m(m + 1)/2 pairs |
| Chunker.CohesionCountsEachPairOnce | src/mastra/tools/pdf-ingest.ts:204-209 | with every similarity 1, a window of `w` sentences scores `w(w-1)/2`, its number of pairs |
| Chunker.CohesionPicksPairsOfWindow | src/mastra/tools/pdf-ingest.ts:204-209 | with a similarity that is 1 on one pair `(k0, l0)` and 0 elsewhere, the window `[i, j]` scores 1 exactly when `i <= k0 < l0 <= j`: each pair `k < l` of the window is summed once, and no diagonal, reversed or outside pair is summed |
| Chunker.Cohesion | src/mastra/tools/pdf-ingest.ts:204-209 | defines a window's score, the sum of `sim` over its pairs k < l; stated by `CohesionPicksPairsOfWindow` and `CohesionCountsEachPairOnce` and computed by `WindowScore` |
| Chunker.WindowScore | src/mastra/tools/pdf-ingest.ts:204-209 | the nested pair loops sum the similarity of every pair k < l of the window |
| Chunker.ChooseChunkEnd | src/mastra/tools/pdf-ingest.ts:196-214 | the chunk at i ends at the window with the strictly greatest score among the windows tried (at most 10 sentences, summed length within the bound), the earliest on ties, or at i when no window fits |
| Chunker.IsCandidate | src/mastra/tools/pdf-ingest.ts:199-202 | defines a window the search scores: it ends within the next nine sentences and its summed length is within the bound; `SizeMonotone` justifies the `break`, and `GreedyChunkBounds` and `SingleSentenceChunk` state what it implies for each chunk |
| Chunker.DynamicProgrammingChunk | src/mastra/tools/pdf-ingest.ts:192-219 | the chunks partition the sentences in order and each ends at its best end |
| Chunker.BestEndUnique | src/mastra/tools/pdf-ingest.ts:197-213 | the best end of a chunk is determined: the search is deterministic |
| Chunker.IsBestEnd | src/mastra/tools/pdf-ingest.ts:196-213 | defines where the chunk at i ends, independently of the loop: at the strictly best-scoring candidate window, the earliest on ties, or at i when none fits; `ChooseChunkEnd` meets it and `BestEndUnique` makes it unique |
| Chunker.GreedyChunkingUnique | src/mastra/tools/pdf-ingest.ts:192-219 | there is exactly one greedy chunking of a sentence sequence |
| Chunker.IsGreedyChunking | src/mastra/tools/pdf-ingest.ts:192-219 | defines the chunking: an in-order partition of the sentences whose every chunk ends at its best end; `DynamicProgrammingChunk` meets it and `GreedyChunkingUnique` makes it unique |
| Chunker.GreedyChunkBounds | src/mastra/tools/pdf-ingest.ts:199-202 | a chunk spans at most 10 sentences, and a chunk of two or more sentences has a summed length within the bound |
| Chunker.SingleSentenceChunk | src/mastra/tools/pdf-ingest.ts:197-213 | a chunk holds sentence i alone exactly when i is the last sentence or sentences i and i + 1 together exceed the bound |
| Chunker.JoinLength | src/mastra/tools/pdf-ingest.ts:226 | joining sentences with spaces adds one character per boundary to their summed length |
| Chunker.ChunkStringBounded | src/mastra/tools/pdf-ingest.ts:199-227 | a chunk string of two or more sentences is at most 9 characters longer than the bound |
| Chunker.ChunksJoinToSentences | src/mastra/tools/pdf-ingest.ts:225-227 | the chunk strings, joined with spaces, are the sentences joined with spaces: every sentence once, in order |
| Chunker.ChunkStrings | src/mastra/tools/pdf-ingest.ts:225-227 | defines each chunk's text, its sentences joined by single spaces; stated by `ChunkStringBounded` and `ChunksJoinToSentences` |
| Chunker.ChunkExample | src/mastra/tools/pdf-ingest.ts:192-219 | for three short sentences where only the first pair is similar, the chunks are [0, 1] and [2, 2] |
| Chunker.ChunkText | src/mastra/tools/pdf-ingest.ts:221-228 | the chunks are the sentences of the text grouped by the greedy chunking (each chunk ends at its best end), every chunk its sentences joined by single spaces; they hold exactly the non-whitespace characters of the text, in order; there are none exactly when the text is blank; for clean text, joining them with spaces gives back the text |
| Upsert.Slice | src/mastra/tools/pdf-ingest.ts:305 | `slice` with the end clamped to the length, empty when the start is past the end |
| Upsert.BuildBatch | src/mastra/tools/pdf-ingest.ts:305-335 | one turn of the batch loop at i = 10b builds batch b: ids, documents and embeddings 10b to 10b + 9 (fewer at the end), one metadata record per id naming the batch's first id as parent |
| Upsert.PlanUpsertBatches | src/mastra/tools/pdf-ingest.ts:302-336 | the loop produces the batch plan `IsBatchPlan`: one batch per ten ids, rounded up; batch b holds ids, documents and embeddings 10b to 10b + 9 and one metadata record per id naming the batch's first id as parent |
| Upsert.BatchesCoverChunks | src/mastra/tools/pdf-ingest.ts:302-336 | the batches' ids, documents and embeddings concatenate to the generated ids, the chunks and the embeddings: every chunk once, in order |
| Upsert.BatchShape | src/mastra/tools/pdf-ingest.ts:304-315 | every batch holds 1 to 10 ids and all but the last exactly 10; its documents, metadata records and embeddings line up with its ids |
| Upsert.EmbeddingsStayWithChunks | src/mastra/tools/pdf-ingest.ts:335-341 | each chunk is upserted with its own embedding |
| Upsert.ParentIsFirstOfBatch | src/mastra/tools/pdf-ingest.ts:307-309 | every metadata record of a batch names the batch's first id as parent |
| PdfIngest.ChunksGreedily | src/mastra/tools/pdf-ingest.ts:258-300 | defines that the upserted documents, in order, are the greedy chunking of the sentences of the extracted text under the default bound of 200 |
| PdfIngest.UpsertsText | src/mastra/tools/pdf-ingest.ts:258-347 | defines that the upserted documents joined with spaces are the extracted text, their count is reported, 0 exactly when the document has no text, they carry the generated ids in order and each its own embedding, and the upserts are the batch plan of those documents, ids and embeddings: at most ten ids per upsert, each with a metadata record naming the batch's first id as parent |
| PdfIngest.IngestPages | src/mastra/tools/pdf-ingest.ts:258-347 | extraction, chunking and the batch loop on the loaded pages meet `UpsertsText` and `ChunksGreedily` |
| PdfIngest.IngestPdf | src/mastra/tools/pdf-ingest.ts:242-409 | a bad location fails with the parse error before anything is read, with nothing upserted; otherwise the pages at the parsed location are ingested as `UpsertsText` and `ChunksGreedily` state, and their chunk count is reported |
| PdfIngest.IngestionDetermined | src/mastra/tools/pdf-ingest.ts:258-347 | the upserted documents and their count depend only on the pages and the similarity: any two ingestions of the same pages upsert the same documents in the same order, whatever ids and embeddings are handed out |
| S3Path.FirstSlash | src/mastra/tools/audio-ingest.ts:87 | the first `/` at or after a position, or the end |
| S3Path.RequirePresent | src/mastra/tools/audio-ingest.ts:96 | the location is accepted exactly when the bucket is set and non-empty and the key is non-empty; otherwise "Missing S3 bucket or key" |
| S3Path.ParseS3Path | src/mastra/tools/audio-ingest.ts:84-96 | a parsed location has a non-empty bucket and a non-empty key |
| S3Path.MatchSound | src/mastra/tools/audio-ingest.ts:87-90 | what the pattern extracts is a decomposition `s3://` + bucket + `/` + key with a non-empty bucket free of `/` and a non-empty key on one line |
| S3Path.MatchComplete | src/mastra/tools/audio-ingest.ts:87-90 | every such decomposition is the one the pattern extracts |
| S3Path.MatchS3Url | src/mastra/tools/audio-ingest.ts:87-90 | defines the match of `^s3:\/\/([^\/]+)\/(.+)$`; stated by `MatchSound` and `MatchComplete` |
| S3Path.ParseRoundTrip | src/mastra/tools/audio-ingest.ts:86-90 | a non-empty bucket without `/` and a non-empty key without line terminators, written as an `s3://` URL, parse back to themselves |
| S3Path.SchemePathParse | src/mastra/tools/audio-ingest.ts:86-90 | an `s3://` path parses to a location exactly when it decomposes as that location, whatever the default bucket |
| S3Path.HasScheme | src/mastra/tools/audio-ingest.ts:86 | defines `startsWith('s3://')`, the choice between the two branches; stated by `SchemePathParse`, `SchemePathNeverMissing` and `PlainPathUsesDefaultBucket` |
| S3Path.SchemePathNeverMissing | src/mastra/tools/audio-ingest.ts:86-96 | an `s3://` path fails only as "Invalid S3 path", and exactly when the pattern does not match |
| S3Path.InvalidExamples | src/mastra/tools/audio-ingest.ts:87-88 | no `/` after the bucket, an empty bucket, an empty key, or a key spanning two lines fail with "Invalid S3 path" |
| S3Path.NestedKeyExample | src/mastra/tools/audio-ingest.ts:87-90 | only the first `/` ends the bucket: the key keeps further slashes |
| S3Path.PlainPathUsesDefaultBucket | src/mastra/tools/audio-ingest.ts:91-94 | a path without the scheme is kept whole as the key, in the default bucket |
| S3Path.PlainPathMissing | src/mastra/tools/audio-ingest.ts:91-96 | without the scheme, an unset or empty default bucket or an empty path fails with "Missing S3 bucket or key" |
| TranscriptionPolling.FirstDecisive | src/mastra/tools/audio-ingest.ts:137-157 | the first attempt whose status is `done` or `error`, or 30 when none of the first 30 is |
| TranscriptionPolling.Settle | src/mastra/tools/audio-ingest.ts:137-161 | the polling settles on the first decisive answer: `Done` at the first decisive attempt when its status is `done`, `Errored` when it is `error`, and `TimedOut` exactly when none of the first 30 answers is decisive; its consequences are stated by `DoneCompletes`, `ErrorThrows` and `NoDecisiveTimesOut` |
| TranscriptionPolling.PollOutcome | src/mastra/tools/audio-ingest.ts:137-167 | defines how the call ends: the id and the completed status on `done`, "Transcription failed" on `error`, "Transcription timed out" otherwise; stated by `DoneCompletes`, `ErrorThrows`, `NoDecisiveTimesOut` and `LaterAnswersIgnored` |
| TranscriptionPolling.QueriesSent | src/mastra/tools/audio-ingest.ts:134-157 | defines how many times the provider is asked: up to and including the first decisive answer, or 30; stated by `QueriesBounded`, `DoneCompletes`, `ErrorThrows`, `NoDecisiveTimesOut` and `AwaitTranscription` |
| TranscriptionPolling.ErrorMessage | src/mastra/tools/audio-ingest.ts:152-160 | defines the messages thrown: "Transcription failed: " followed by the provider's error, and "Transcription timed out"; stated by `ErrorThrows` and `NoDecisiveTimesOut` |
| TranscriptionPolling.TranscriptionRecord.constructor | src/mastra/tools/audio-ingest.ts:124-129 | a new record holds the path, URL and id and is pending, with no transcript and no metadata |
| TranscriptionPolling.TranscriptionRecord.Complete | src/mastra/tools/audio-ingest.ts:140-146 | a `done` answer sets the status to completed, the transcript to the answer's transcript and the metadata to the answer, and changes nothing else |
| TranscriptionPolling.TranscriptionRecord.Fail | src/mastra/tools/audio-ingest.ts:147-152 | an `error` answer sets the status to failed and the metadata to the answer, leaving the transcript and the other fields as they were |
| TranscriptionPolling.AwaitTranscription | src/mastra/tools/audio-ingest.ts:133-167 | the loop sends the queries up to the first decisive answer; on `done` the record is completed with the answer's transcript and the answer as metadata and its status is returned; on `error` it is failed with the answer as metadata and "Transcription failed" is thrown; after 30 other answers "Transcription timed out" is thrown with the record unchanged; the path, URL and id never change |
| TranscriptionPolling.RunTranscription | src/mastra/tools/audio-ingest.ts:123-167 | a fresh pending record polled to the end is completed, failed, or still pending after a time-out |
| TranscriptionPolling.FirstDecisiveIs | src/mastra/tools/audio-ingest.ts:137-153 | after a run of non-decisive answers, the next decisive one is the first |
| TranscriptionPolling.QueriesBounded | src/mastra/tools/audio-ingest.ts:134-157 | the provider is asked at least once and at most 30 times |
| TranscriptionPolling.DoneCompletes | src/mastra/tools/audio-ingest.ts:140-167 | a `done` answer after non-decisive ones returns the completed status after that many queries |
| TranscriptionPolling.ErrorThrows | src/mastra/tools/audio-ingest.ts:147-152 | an `error` answer after non-decisive ones throws "Transcription failed" with the provider's error |
| TranscriptionPolling.NoDecisiveTimesOut | src/mastra/tools/audio-ingest.ts:155-161 | 30 answers that are neither `done` nor `error` end in "Transcription timed out" |
| TranscriptionPolling.LaterAnswersIgnored | src/mastra/tools/audio-ingest.ts:135-157 | answers after the thirtieth never change the outcome |

## Left out

- Loading the PDF with pdfjs, `getTextContent`, `getOperatorList` and the wait
  for an image object (`pdf-ingest.ts:34-45, 114-125`): foreign library calls.
  Pages arrive as values, and an image name resolves through a function. So
  the model cannot show an image object that never materialises and hangs the
  extraction.
- The filter keeping only items with a `str` string (`pdf-ingest.ts:48`):
  every modelled item is a text item.
- The sort of the text items (`pdf-ingest.ts:51-63`): the comparator is not
  transitive, so the sorted order is not determined by it. The model groups
  items given in their sorted order. Only the comparator is modelled.
- The PNG encoding of the image samples with sharp (`pdf-ingest.ts:130-138`):
  a foreign library. An extracted image keeps the raw samples.
- `cosineSimilarity` (`pdf-ingest.ts:157-165`): floating point. Replaced by
  the arbitrary real similarity `sim`.
- The embedding service, the vector-store client, S3 reads and writes (the
  chunk copies under `chunks/`), `crypto.randomUUID`, the debug file and the
  logging (`pdf-ingest.ts:182-189, 257-347`): network and I/O. Ids and
  embeddings are parameters, and a failed upsert, which aborts the tool, is
  not modelled. The embedding call on an empty chunk list
  (`pdf-ingest.ts:223, 274`), made for a blank document, is assumed to
  succeed, so a blank PDF ingests 0 chunks.
- The Gladia upload and transcription calls, the database saves, the
  `updatedAt` stamps and the ten-second wait (`audio-ingest.ts:25-68, 118-121,
  130, 144-145, 150-151, 155`): network, clock and I/O. The provider's answer
  to each poll is the parameter `respond`.
- Floating point in the layout and the scores: text-item coordinates and
  widths are exact reals and window scores are summed exactly, so the
  rounding of `x + width` before the gap is compared with 1
  (`pdf-ingest.ts:97-107`) and of the `sim +=` accumulation
  (`pdf-ingest.ts:207`) is not modelled.
- TranscriptionPolling.ProviderResult: `transcript` and `error` are assumed
  present in every answer; an answer missing them, which the code stores or
  formats as `undefined` (`audio-ingest.ts:143-160`), is not modelled.
- Chunker.SizeRange: sentence lengths are counted in characters (Unicode code
  points), not in UTF-16 code units as JavaScript's `length` counts them.
- Chunker.ChooseChunkEnd: the running maximum starts at minus infinity, which
  is modelled as "no score yet"; scores that are NaN are not modelled.
