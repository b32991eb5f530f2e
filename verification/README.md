# ai-cv-evaluator core, modelled in Dafny

This project models the core of ai-cv-evaluator. That service scores a
candidate's CV and project report against a job description and rubrics, using
retrieval-augmented prompts to a chat model.

- **Store and chunker** (`rag_service.dfy`, `chunker.dfy`) model the vector
  store of `RAGService`:
  - the chunker cuts a document into trimmed, non-blank paragraphs, and
    cuts long paragraphs into slices of at most 1500 characters;
  - ingestion replaces every record of a source label with one record per
    chunk, each carrying the chunk's embedding;
  - retrieval scores the candidates of the requested labels by cosine
    similarity, sorts them stably by descending score, and keeps the best
    `topK`.
- **Pipeline** (`ai_evaluation.dfy`) models `AiEvaluationService`. It runs
  three stages in order: the CV stage, the project stage and the overall
  summary. It builds each stage's prompt from the retrieved context, cuts the
  JSON object out of the model's reply and reads its fields. Any exception
  becomes a fixed degraded result.
- **Job table** (`jobs.dfy`) models the job table used by `EvaluationService`:
  job creation and lookup by id.
- **Worker** (`worker.dfy`) models one iteration of `EvaluationWorker`:
  1. it picks the oldest queued job and marks it `Processing`;
  2. it reads the job's files and runs the pipeline;
  3. it stores the result and marks the job `Completed`, or marks it `Failed`
     when a file cannot be read.
- **Support modules:** `text.dfy` holds the .NET string operations the service
  relies on. `wrappers.dfy` holds `Option` and `Result`.

**Classes, side effects and parameters:**
- The tables that the services change in place are classes: `Rag.RagService`
  and `Jobs.JobStore`.
- Their methods state the new table and a ghost log of every state saved by
  `SaveChangesAsync`.
- `Guid.NewGuid()` is a counter in each store.
- `DateTime.UtcNow` is a parameter `now`.
- These are parameters:
  - the embedding endpoint (`Rag.EmbeddingApi`); the evaluation embeds the job title once per stage, so
    `AiEvaluation.Providers` holds the endpoint once for each of the two calls;
  - the chat endpoint, `JsonDocument.Parse` and number formatting
    (`AiEvaluation.Providers`);
  - the file system (`Worker.FileSystem`).
- An exception is a `Failure` carrying its message.

## Model

| member | source | states |
|---|---|---|
| Text.IsWhiteSpace | ai-cv-evaluator/Services/RAGService.cs:24 | definition of `char.IsWhiteSpace`: the Unicode space, line and paragraph separators, U+0009 to U+000D and U+0085; every blank and trim property below rests on it |
| Text.IsBlank | ai-cv-evaluator/Services/RAGService.cs:24 | definition of `IsNullOrWhiteSpace` on a non-null string; characterised by `Text.BlankIffAllWhiteSpace` |
| Text.BlankIffAllWhiteSpace | ai-cv-evaluator/Services/RAGService.cs:24 | `IsNullOrWhiteSpace` holds exactly when every character is white space |
| Text.TrimStart | ai-cv-evaluator/Services/RAGService.cs:28 | the result is a suffix of the input that is empty or starts with a non-white-space character |
| Text.TrimEnd | ai-cv-evaluator/Services/RAGService.cs:28 | the result is a prefix of the input that is empty or ends with a non-white-space character |
| Text.Trim | ai-cv-evaluator/Services/RAGService.cs:28 | the result is a contiguous slice of the input, starting after the leading white space, with no white space at either end |
| Text.TrimKeepsNonWhiteSpace | ai-cv-evaluator/Services/RAGService.cs:28-29 | trimming keeps every non-white-space character in order, and gives `""` exactly for a blank string |
| Text.TrimIdempotent | ai-cv-evaluator/Services/AiEvaluationService.cs:158 | trimming a trimmed string changes nothing |
| Text.IndexOf | ai-cv-evaluator/Services/AiEvaluationService.cs:163 | the index of the first occurrence of the character, or -1 when it does not occur |
| Text.LastIndexOf | ai-cv-evaluator/Services/AiEvaluationService.cs:164 | the index of the last occurrence of the character, or -1 when it does not occur |
| Text.Join | ai-cv-evaluator/Services/AiEvaluationService.cs:64 | definition of `string.Join`; its layout is stated by `Text.JoinLength`, `Text.JoinPlacesString` and `Text.JoinPlacesSeparator` |
| Text.JoinLength | ai-cv-evaluator/Services/AiEvaluationService.cs:25 | `Join(separator, xs)` ends right after the last string, at the offset of every earlier string plus one separator per earlier string |
| Text.JoinPlacesString | ai-cv-evaluator/Services/AiEvaluationService.cs:25 | in `Join(separator, xs)` the `i`-th string sits at its offset: after every earlier string and one separator per earlier string |
| Text.JoinPlacesSeparator | ai-cv-evaluator/Services/AiEvaluationService.cs:25 | in `Join(separator, xs)` the gap between two neighbouring strings holds exactly one separator |
| Text.Utf16Length | ai-cv-evaluator/Services/RAGService.cs:34 | definition of .NET's `Length`: one UTF-16 code unit per character below U+10000, two from there up; compared with the character count by `Text.Utf16LengthInBmp` |
| Text.Utf16LengthInBmp | ai-cv-evaluator/Services/RAGService.cs:34 | the UTF-16 length is never below the character count, and equals it exactly when every character lies in the Basic Multilingual Plane |
| Chunker.SplitFrom | ai-cv-evaluator/Services/RAGService.cs:27 | definition of `Split` on `"\r\n\r\n"` then `"\n\n"` from a position, separators tried in that order at each index; `Chunker.SplitRoundTrip` shows it cuts at separators and nowhere else, `Chunker.PiecesSeparatorFree` that no piece holds one |
| Chunker.Pieces | ai-cv-evaluator/Services/RAGService.cs:27 | definition: `Split` of the whole text; properties in `Chunker.SplitRoundTrip` (from position 0), `Chunker.PiecesSeparatorFree`, `Chunker.PiecesKeepText` and `Chunker.OneParagraph` |
| Chunker.NonEmpty | ai-cv-evaluator/Services/RAGService.cs:27 | `RemoveEmptyEntries`: a piece is in the result exactly when it is a non-empty piece of the input |
| Chunker.TrimAll | ai-cv-evaluator/Services/RAGService.cs:28 | `Select(p => p.Trim())`: one result per piece, each the trim of the piece at the same position |
| Chunker.DropBlank | ai-cv-evaluator/Services/RAGService.cs:29 | `Where(p => !IsNullOrWhiteSpace(p))`: a piece is in the result exactly when it is a non-blank piece of the input |
| Chunker.NonEmptyAppend | ai-cv-evaluator/Services/RAGService.cs:27 | `RemoveEmptyEntries` is the order-preserving filter: it keeps a lone piece exactly when it is non-empty, and the result for `a + b` is the result for `a` followed by the result for `b` |
| Chunker.DropBlankAppend | ai-cv-evaluator/Services/RAGService.cs:29 | the `Where` is the order-preserving filter: it keeps a lone piece exactly when it is not blank, and the result for `a + b` is the result for `a` followed by the result for `b` |
| Chunker.Paragraphs | ai-cv-evaluator/Services/RAGService.cs:27-30 | definition of the paragraph list; each paragraph is a trimmed piece of the split (`Chunker.ParagraphsFromPieces`), a text without separators is one paragraph (`Chunker.OneParagraph`), and `Chunker.ParagraphsWellFormed` and `Chunker.ParagraphsKeepText` hold |
| Chunker.PiecesSeparatorFree | ai-cv-evaluator/Services/RAGService.cs:27 | no piece of the split on `"\r\n\r\n"`/`"\n\n"` contains either separator |
| Chunker.PiecesKeepText | ai-cv-evaluator/Services/RAGService.cs:27 | the pieces of the split hold every non-white-space character of the text, in order |
| Chunker.SkippedSeparators | ai-cv-evaluator/Services/RAGService.cs:27 | definition: the separators the split skips, one after each piece but the last; property in `Chunker.SplitRoundTrip` |
| Chunker.Interleave | ai-cv-evaluator/Services/RAGService.cs:27 | definition: pieces written out with a separator between neighbours; the inverse of the split in `Chunker.SplitRoundTrip` |
| Chunker.SplitRoundTrip | ai-cv-evaluator/Services/RAGService.cs:27 | there is one skipped separator fewer than pieces, each is `"\r\n\r\n"` or `"\n\n"`, and the pieces with those separators put back between neighbours are the text: the split cuts only at separators |
| Chunker.OneParagraph | ai-cv-evaluator/Services/RAGService.cs:27-30 | a text without separators is one piece, the text itself, and unless it is blank one paragraph, the text trimmed |
| Chunker.NonEmptyKeepsText | ai-cv-evaluator/Services/RAGService.cs:27 | dropping the empty entries loses no visible character |
| Chunker.TrimAllKeepsText | ai-cv-evaluator/Services/RAGService.cs:28 | trimming every piece loses no visible character |
| Chunker.DropBlankKeepsText | ai-cv-evaluator/Services/RAGService.cs:29 | dropping the blank pieces loses no visible character |
| Chunker.ParagraphsWellFormed | ai-cv-evaluator/Services/RAGService.cs:27-30 | every paragraph is non-empty, not blank, already trimmed and free of separators |
| Chunker.ParagraphsKeepText | ai-cv-evaluator/Services/RAGService.cs:27-30 | the paragraphs together hold every visible character of the text, in order |
| Chunker.ParagraphsFromPieces | ai-cv-evaluator/Services/RAGService.cs:27-29 | every paragraph is the trim of some piece of the split |
| Chunker.Slices | ai-cv-evaluator/Services/RAGService.cs:41-47 | definition of the slices the loop yields for a long paragraph; properties in `Chunker.SlicesReassemble` and `Chunker.SlicesSizes` |
| Chunker.SlicesReassemble | ai-cv-evaluator/Services/RAGService.cs:41-47 | the slices of a long paragraph, concatenated, are the paragraph |
| Chunker.SlicesSizes | ai-cv-evaluator/Services/RAGService.cs:41-47 | every slice is non-empty and at most `maxChars` long, and every slice but the last is exactly `maxChars` long |
| Chunker.ChunkParagraph | ai-cv-evaluator/Services/RAGService.cs:34-47 | definition: a short paragraph is one chunk, a long one its slices; property in `Chunker.ChunkParagraphReassembles` |
| Chunker.ChunksOf | ai-cv-evaluator/Services/RAGService.cs:32-49 | definition: the chunks of each paragraph in turn; property in `Chunker.ChunksOfReassemble` |
| Chunker.Chunks | ai-cv-evaluator/Services/RAGService.cs:22-50 | definition of `ChunkText`'s output: nothing for a blank text, otherwise the chunks of its paragraphs; property in `Chunker.ChunksCoverText` |
| Chunker.ChunkParagraphReassembles | ai-cv-evaluator/Services/RAGService.cs:34-47 | a paragraph's chunks reassemble it, each non-empty and within `maxChars` |
| Chunker.ChunksOfReassemble | ai-cv-evaluator/Services/RAGService.cs:32-49 | the chunks of all paragraphs concatenate to the paragraphs concatenated, each within `maxChars` |
| Chunker.ChunksCoverText | ai-cv-evaluator/Services/RAGService.cs:22-50 | every chunk is non-empty and within `maxChars`, and the chunks hold every visible character of the text, in order |
| Chunker.ParagraphsInBmp | ai-cv-evaluator/Services/RAGService.cs:34-45 | for text in the Basic Multilingual Plane every paragraph stays in the plane and its UTF-16 length is its character count, so the `p.Length <= maxChars` test and the `Substring` positions are the character counts and positions of the model |
| Chunker.ChunksInBmp | ai-cv-evaluator/Services/RAGService.cs:34-45 | for text in the Basic Multilingual Plane every chunk stays in the plane and holds between 1 and `maxChars` UTF-16 code units, so there the character bound is .NET's `Length` bound |
| Chunker.SliceParagraph | ai-cv-evaluator/Services/RAGService.cs:41-47 | the slicing loop yields exactly the consecutive slices of the paragraph |
| Chunker.ChunkText | ai-cv-evaluator/Services/RAGService.cs:22-50 | the chunks yielded are those of the paragraphs in order; a blank text yields none; every chunk has 1 to `maxChars` characters |
| Rag.CreateEmbedding | ai-cv-evaluator/Services/EmbeddingService.cs:27-30 | definition: a blank text gets the empty vector without a call, any other text the endpoint's vector or its exception; properties in `Rag.RetrieveFails` and `Rag.RetrieveBlankQuery` |
| Rag.Labelled | ai-cv-evaluator/Services/RAGService.cs:55 | the records returned are exactly the table's records with that label |
| Rag.Without | ai-cv-evaluator/Services/RAGService.cs:55-56 | the records left after `RemoveRange` are exactly those with another label |
| Rag.Candidates | ai-cv-evaluator/Services/RAGService.cs:89 | the candidates are exactly the table's records whose label is among the sources |
| Rag.SquaredNormNonNegative | ai-cv-evaluator/Services/RAGService.cs:109-112 | a squared norm is never negative, so `Math.Sqrt` is defined on it |
| Rag.ScoreSymmetric | ai-cv-evaluator/Services/RAGService.cs:102-113 | the cosine score does not depend on the order of its two vectors |
| Rag.Dot | ai-cv-evaluator/Services/RAGService.cs:106-108 | definition of the sum the loop accumulates; property in `Rag.DotSymmetric` and used by `Rag.CosineSimilarity` |
| Rag.CosineSimilarity | ai-cv-evaluator/Services/RAGService.cs:102-113 | 0 for an empty vector or a length mismatch; otherwise the final step applied to the dot product and both squared norms that the loop accumulates |
| Rag.Score | ai-cv-evaluator/Services/RAGService.cs:102-113 | definition of the cosine score that `Rag.CosineSimilarity` computes with a loop; symmetry in `Rag.ScoreSymmetric` |
| Rag.ScoreAll | ai-cv-evaluator/Services/RAGService.cs:92-97 | definition: each candidate paired with its score, in candidate order; used by `Rag.RetrieveSpec` |
| Rag.Insert | ai-cv-evaluator/Services/RAGService.cs:99 | inserting a hit adds exactly that hit to the multiset |
| Rag.SortByScore | ai-cv-evaluator/Services/RAGService.cs:99 | the sort is a permutation of the scored candidates |
| Rag.SortByScoreSorted | ai-cv-evaluator/Services/RAGService.cs:99 | the sort yields non-increasing scores |
| Rag.SortByScoreStable | ai-cv-evaluator/Services/RAGService.cs:99 | `OrderByDescending` is stable: hits of equal score keep their table order |
| Rag.SortByScoreTies | ai-cv-evaluator/Services/RAGService.cs:99 | hits that all score the same come back unchanged |
| Rag.Take | ai-cv-evaluator/Services/RAGService.cs:99 | `Take(topK)` is the prefix of length `min(max(topK, 0), count)` |
| Rag.Scored | ai-cv-evaluator/Services/RAGService.cs:92-97 | definition: the candidates with their scores against the query vector, in candidate order; properties in `Rag.RetrieveSelects` |
| Rag.RetrieveSpec | ai-cv-evaluator/Services/RAGService.cs:86-100 | definition of `RetrieveAsync`: embed the query, score the candidates, sort stably by descending score, take `topK`; properties in the `Rag.Retrieve*` lemmas below |
| Rag.RetrieveFails | ai-cv-evaluator/Services/RAGService.cs:88 | retrieval fails exactly when embedding the query fails, with its message; a blank query never fails |
| Rag.RetrieveSelects | ai-cv-evaluator/Services/RAGService.cs:89-97 | every hit is a table record with a requested label, scored against the query's embedding |
| Rag.RetrieveCount | ai-cv-evaluator/Services/RAGService.cs:99 | `min(max(topK, 0), number of candidates)` hits come back |
| Rag.RetrieveSorted | ai-cv-evaluator/Services/RAGService.cs:99 | the hits come best first |
| Rag.RetrieveNeverOmits | ai-cv-evaluator/Services/RAGService.cs:92-99 | no candidate left out outscores any hit returned |
| Rag.RetrieveBlankQuery | ai-cv-evaluator/Services/EmbeddingService.cs:29-30 | a blank query gets the empty vector, so every candidate scores 0 and the first `topK` candidates return in table order |
| Rag.FirstFailure | ai-cv-evaluator/Services/RAGService.cs:61-63 | the index of the first chunk whose embedding fails, with every earlier chunk embedded; none exactly when all are embedded |
| Rag.Records | ai-cv-evaluator/Services/RAGService.cs:60-74 | definition: one record per chunk, with two fresh ids, the label, the text and its embedding; properties in `Rag.RecordsLabelled` and `Rag.IngestKeepsIds` |
| Rag.Replace | ai-cv-evaluator/Services/RAGService.cs:52-83 | definition of the table after ingestion: the old table without the label, then the new records only if every embedding succeeded; properties in `Rag.IngestReplacesSource` and `Rag.IngestFailureEmptiesSource` |
| Rag.AfterIngest | ai-cv-evaluator/Services/RAGService.cs:52-83 | definition: `Rag.Replace` applied to the chunks of the text; property in `Rag.IngestBlankDeletes` |
| Rag.IngestReplacesSource | ai-cv-evaluator/Services/RAGService.cs:52-83 | records with other labels are untouched; on success the label has exactly one record per chunk, in chunk order, with the chunk's text and embedding |
| Rag.IngestFailureEmptiesSource | ai-cv-evaluator/Services/RAGService.cs:55-63 | when an embedding fails, the label is left with no records, because the deletion was saved first |
| Rag.IngestBlankDeletes | ai-cv-evaluator/Services/RAGService.cs:24 | ingesting a blank text only deletes the label's records |
| Rag.RetrieveAfterIngest | ai-cv-evaluator/Services/RAGService.cs:52-99 | after a successful ingestion, the candidates of that label alone are exactly the new records |
| Rag.WithoutTwice | ai-cv-evaluator/Services/RAGService.cs:55-56 | deleting a label twice is deleting it once, and no record with that label is left |
| Rag.RecordsLabelled | ai-cv-evaluator/Services/RAGService.cs:61-73 | when every chunk is embedded, there is one new record per chunk, carrying the label, the chunk's text and its embedding |
| Rag.IngestKeepsIds | ai-cv-evaluator/Services/RAGService.cs:66-68 | the new records get fresh ids, above every id in the table, in increasing order |
| Rag.RagService.IngestDocument | ai-cv-evaluator/Services/RAGService.cs:52-83 | the new table is the old one without the label, plus one record per chunk when every embedding succeeded; the first failing embedding's exception is returned; saves: the deletion, then the additions only if there are any; record ids stay distinct; the id counter advances by two per chunk on success and never goes back |
| Rag.RagService.EmbedChunks | ai-cv-evaluator/Services/RAGService.cs:60-74 | the records built are one per chunk, each with two fresh Guids, or the loop stops at the first failing chunk with its exception; the table is untouched |
| Rag.RagService.Retrieve | ai-cv-evaluator/Services/RAGService.cs:86-100 | the result is the embedding failure, or the `topK` best candidates after scoring every candidate in table order |
| AiEvaluation.ExtractJsonString | ai-cv-evaluator/Services/AiEvaluationService.cs:161-167 | the cut-out is never longer than the reply |
| AiEvaluation.ExtractJsonSpan | ai-cv-evaluator/Services/AiEvaluationService.cs:161-167 | with the first `{` before the last `}`, the cut-out is exactly the text from the first `{` to the last `}` |
| AiEvaluation.ExtractJsonUnchanged | ai-cv-evaluator/Services/AiEvaluationService.cs:165-166 | when no `}` follows a `{`, the text comes back unchanged |
| AiEvaluation.ExtractJsonIdempotent | ai-cv-evaluator/Services/AiEvaluationService.cs:161-167 | cutting out twice is cutting out once |
| AiEvaluation.GetProperty | ai-cv-evaluator/Services/AiEvaluationService.cs:56 | succeeds exactly on an object that has the key, giving its value |
| AiEvaluation.GetDouble | ai-cv-evaluator/Services/AiEvaluationService.cs:56 | succeeds exactly on a number |
| AiEvaluation.GetStringOrEmpty | ai-cv-evaluator/Services/AiEvaluationService.cs:57 | `GetString() ?? ""` succeeds exactly on a string or `null` |
| AiEvaluation.Texts | ai-cv-evaluator/Services/AiEvaluationService.cs:25 | definition of `.Select(x => x.Doc.Text)`: the chunk texts in rank order; used by `AiEvaluation.ContextLayout` |
| AiEvaluation.Context | ai-cv-evaluator/Services/AiEvaluationService.cs:25 | definition of `string.Join("\n\n---\n\n", …)` over the chunk texts; its layout is `AiEvaluation.ContextLayout` |
| AiEvaluation.CvRequest | ai-cv-evaluator/Services/AiEvaluationService.cs:27-49 | definition of the CV prompt: the system text, the user text holding title, context and CV, temperature 0.2 and 800 tokens |
| AiEvaluation.ProjectRequest | ai-cv-evaluator/Services/AiEvaluationService.cs:66-85 | definition of the project prompt: the system text, the user text holding context and report, temperature 0.2 and 800 tokens |
| AiEvaluation.SummaryRequest | ai-cv-evaluator/Services/AiEvaluationService.cs:142-154 | definition of the summary prompt built from both assessments, temperature 0.1 and 300 tokens |
| AiEvaluation.ReadAssessment | ai-cv-evaluator/Services/AiEvaluationService.cs:52-58 | reading a reply succeeds exactly when it is non-null and parses to an object whose score key is a number and whose feedback key is a string or `null` |
| AiEvaluation.ReadAssessmentFields | ai-cv-evaluator/Services/AiEvaluationService.cs:88-94 | a well-formed reply yields its score and feedback, with `null` feedback read as `""`, whatever text surrounds the JSON object |
| AiEvaluation.EvaluateCv | ai-cv-evaluator/Services/AiEvaluationService.cs:21-59 | definition of the CV stage; properties in `AiEvaluation.StageContexts`, `AiEvaluation.ReadAssessment` and `AiEvaluation.ReadAssessmentFields` |
| AiEvaluation.EvaluateProject | ai-cv-evaluator/Services/AiEvaluationService.cs:61-95 | definition of the project stage, whose retrieval makes its own embedding call (`embedProject`), so it can fail after the CV stage's call succeeded; properties in the same lemmas as the CV stage |
| AiEvaluation.SummarizeOverall | ai-cv-evaluator/Services/AiEvaluationService.cs:140-159 | definition of the summary stage; property in `AiEvaluation.SummaryIsTrimmedReply` |
| AiEvaluation.SummaryIsTrimmedReply | ai-cv-evaluator/Services/AiEvaluationService.cs:157-158 | the summary is the reply trimmed: same visible characters, no white space at either end, `""` exactly for a blank reply, `""` for a `null` reply |
| AiEvaluation.Degraded | ai-cv-evaluator/Services/AiEvaluationService.cs:128-135 | definition of the fixed result returned after an exception; property in `AiEvaluation.EvaluateDegrades` |
| AiEvaluation.Chain | ai-cv-evaluator/Services/AiEvaluationService.cs:99-136 | definition of the `try` block over the three stage results; property in `AiEvaluation.ChainStages` |
| AiEvaluation.RunPipeline | ai-cv-evaluator/Services/AiEvaluationService.cs:104-112 | definition: the CV stage, then the project stage, chained; properties in `AiEvaluation.EvaluateStageOrder` |
| AiEvaluation.Evaluate | ai-cv-evaluator/Services/AiEvaluationService.cs:97-137 | definition of `EvaluateAsync`; properties in `AiEvaluation.EvaluateAllSucceed`, `AiEvaluation.EvaluateStageOrder` and `AiEvaluation.EvaluateDegrades` |
| AiEvaluation.ChainStages | ai-cv-evaluator/Services/AiEvaluationService.cs:99-136 | a stage starts only when all earlier stages succeeded, and the first failure becomes the degraded result with its message |
| AiEvaluation.EvaluateAllSucceed | ai-cv-evaluator/Services/AiEvaluationService.cs:116-123 | when every stage succeeds, each result field is its stage's value, unchanged |
| AiEvaluation.EvaluateStageOrder | ai-cv-evaluator/Services/AiEvaluationService.cs:104-112 | stages run in the order CV, project, summary; the project stage runs exactly when the CV stage succeeded, and the summary exactly when both did |
| AiEvaluation.EvaluateDegrades | ai-cv-evaluator/Services/AiEvaluationService.cs:125-135 | a failing stage yields the degraded result (0, "AI evaluation failed: " + message, 1, fixed texts) |
| AiEvaluation.StageContexts | ai-cv-evaluator/Services/AiEvaluationService.cs:24-25 | given the stage's own embedding call succeeding, the context holds at most three chunks of the stage's two labels, best first, each text placed at its offset in the joined context |
| AiEvaluation.ContextLayout | ai-cv-evaluator/Services/AiEvaluationService.cs:24-25 | the context is the chunk texts in rank order: each text starts after every earlier text plus one `"\n\n---\n\n"` per earlier text, the separator alone fills each gap, the context ends with the last text, and no hits give `""` |
| Jobs.FindJob | ai-cv-evaluator/Services/EvaluationService.cs:35-40 | the job found has the id; none is found exactly when no job has the id |
| Jobs.FindJobUnique | ai-cv-evaluator/Services/EvaluationService.cs:37-39 | with distinct ids, looking up a job's id finds that very job |
| Jobs.FindJobAppend | ai-cv-evaluator/Services/EvaluationService.cs:30 | appending a job with a fresh id makes it findable and changes no other lookup |
| Jobs.FindJobUpdate | ai-cv-evaluator/BackgroundJobs/EvaluationWorker.cs:116-121 | an updated job is still found by its id, with its new contents |
| Jobs.JobStore.CreateJob | ai-cv-evaluator/Services/EvaluationService.cs:19-33 | a new `Queued` job with a fresh id, no result and both timestamps `now` is appended and saved; the table invariant holds |
| Jobs.JobStore.GetJob | ai-cv-evaluator/Services/EvaluationService.cs:35-40 | the lookup loop returns the first job with the id, or none exactly when no job has it |
| Jobs.CreateThenGet | ai-cv-evaluator/Services/EvaluationService.cs:19-40 | a job just created is found by its id, other lookups are unchanged, and the table invariant is kept |
| Worker.OldestQueued | ai-cv-evaluator/BackgroundJobs/EvaluationWorker.cs:33-37 | the picked job is queued and has the earliest `CreatedAt` of all queued jobs; none exactly when no job is queued |
| Worker.HasReport | ai-cv-evaluator/BackgroundJobs/EvaluationWorker.cs:76-79 | definition: the job names a non-blank report path whose file exists; used by `Worker.ReadInputsOutcome` and `Worker.MissingReportUsesSentinel` |
| Worker.ProjectText | ai-cv-evaluator/BackgroundJobs/EvaluationWorker.cs:75-98 | definition: the report's text when there is a report, otherwise `"(no project report provided)"`; property in `Worker.MissingReportUsesSentinel` |
| Worker.ReadInputs | ai-cv-evaluator/BackgroundJobs/EvaluationWorker.cs:48-98 | definition of reading the CV and the report; property in `Worker.ReadInputsOutcome` |
| Worker.ReadInputsOutcome | ai-cv-evaluator/BackgroundJobs/EvaluationWorker.cs:48-98 | reading succeeds exactly when the CV exists and reads and an existing report reads; the sentinel stands in for a missing report; a missing CV raises "CV file not found at " + full path |
| Worker.Assess | ai-cv-evaluator/BackgroundJobs/EvaluationWorker.cs:101 | definition: `EvaluateAsync` on the job title and the texts read; property in `Worker.CompletedCopiesPipeline` |
| Worker.ResultFor | ai-cv-evaluator/BackgroundJobs/EvaluationWorker.cs:104-114 | definition of the stored result; property in `Worker.CompletedCopiesPipeline` |
| Worker.Finished | ai-cv-evaluator/BackgroundJobs/EvaluationWorker.cs:45-130 | definition of the job after the `try`/`catch`; properties in `Worker.FinishedIsTerminal`, `Worker.MissingCvFails` and `Worker.CompletedCopiesPipeline` |
| Worker.FinishedIsTerminal | ai-cv-evaluator/BackgroundJobs/EvaluationWorker.cs:101-130 | a picked job ends `Completed` (exactly when its files were read) or `Failed`, with its id, title, paths and creation time unchanged |
| Worker.MissingCvFails | ai-cv-evaluator/BackgroundJobs/EvaluationWorker.cs:51-53 | a missing CV file fails the job, with no result attached |
| Worker.MissingReportUsesSentinel | ai-cv-evaluator/BackgroundJobs/EvaluationWorker.cs:75-79 | a blank or missing report gives `"(no project report provided)"` and alone never fails the job |
| Worker.CompletedCopiesPipeline | ai-cv-evaluator/BackgroundJobs/EvaluationWorker.cs:101-119 | a completed job's result names the job and copies every field of the pipeline's output |
| Worker.QueuedCountUpdate | ai-cv-evaluator/BackgroundJobs/EvaluationWorker.cs:42 | replacing a queued job by a non-queued one lowers the queue count by one |
| Worker.IterationShrinksQueue | ai-cv-evaluator/BackgroundJobs/EvaluationWorker.cs:33-130 | an iteration that picks a job and marks it `Processing` before finishing it takes exactly one job off the queue |
| Worker.MarkProcessing | ai-cv-evaluator/BackgroundJobs/EvaluationWorker.cs:42-43 | only the picked job changes, to `Processing`, and the table is saved |
| Worker.MarkFailed | ai-cv-evaluator/BackgroundJobs/EvaluationWorker.cs:125-130 | only the picked job changes, to `Failed`, and the table is saved |
| Worker.Complete | ai-cv-evaluator/BackgroundJobs/EvaluationWorker.cs:104-121 | a result with a fresh id is added and attached and the id counter moves on by one; the job becomes `Completed` with `UpdatedAt` set; one save |
| Worker.FinishJob | ai-cv-evaluator/BackgroundJobs/EvaluationWorker.cs:45-130 | the picked job ends as `Finished` says, its result (if any) is appended to the results and takes the next id, and one save follows |
| Worker.ProcessNextJob | ai-cv-evaluator/BackgroundJobs/EvaluationWorker.cs:33-131 | nothing changes when no job is queued; otherwise the oldest queued job is processed, with two saves (`Processing`, then the outcome), and the queue shrinks by exactly one; the id counter moves on only when a result is stored; the table invariant is kept |

## Left out

- Null strings are not modelled. Every string is non-null, except the chat reply, which may be `null`.
- Floating point is not modelled. Vectors, scores and ratings are exact reals, so `float` rounding, NaN ordering and the `(float)` cast are not modelled.
- Rag.CosineSimilarity: the final step (square roots, the division and the `1e-12` term) is a parameter `tail`, so the score's range is not stated.
- The `EmbeddingJson` column is not modelled. The model stores the vector itself, not its JSON text, so the serialise/deserialise round trip and the `?? Array.Empty<float>()` fallback are not modelled.
- The `ChunkId` column is a Guid from the counter, not its `"N"` text format.
- Chunker.ChunkText: `maxChars` is taken as positive. Every caller uses 1500. With 0 the slicing loop would yield `""` forever; with a negative value `Substring` would throw `ArgumentOutOfRangeException` on the first paragraph.
- Chunker.ChunkText: lengths and cut points count Unicode characters, while .NET's `Length` and `Substring` count UTF-16 code units. A paragraph with characters from U+10000 up is cut later here than in .NET, and .NET's `Substring` may split a surrogate pair that the model keeps whole. For text in the Basic Multilingual Plane the two agree: `Chunker.ParagraphsInBmp` shows that each paragraph's UTF-16 length is its character count, so the length test and the cut positions coincide, and `Chunker.ChunksInBmp` that each chunk holds 1 to `maxChars` UTF-16 code units.
- Chunker.SliceParagraph: slices by characters, not UTF-16 code units, as under `Chunker.ChunkText`.
- Chunker.Slices: slices by characters, not UTF-16 code units, as under `Chunker.ChunkText`.
- Chunker.SlicesSizes: the `maxChars` bound counts characters, not UTF-16 code units; `Chunker.ChunksInBmp` carries it to UTF-16 for text in the Basic Multilingual Plane.
- Chunker.ChunkParagraphReassembles: the `maxChars` bound counts characters, not UTF-16 code units, as under `Chunker.SlicesSizes`.
- Chunker.ChunksOfReassemble: the `maxChars` bound counts characters, not UTF-16 code units, as under `Chunker.SlicesSizes`.
- Chunker.ChunksCoverText: the `maxChars` bound counts characters, not UTF-16 code units, as under `Chunker.SlicesSizes`.
- Chunker.ChunkText: the lazy `yield` iterator becomes a method that returns every chunk at once, so the interleaving of chunking with the embedding calls is not modelled.
- The HTTP calls are parameters:
  - the embedding request, its body and its JSON parsing;
  - the OpenAI chat client;
  - `JsonDocument.Parse`, including how it treats duplicate keys or numbers out of `double` range.
- Rag.RagService.Retrieve: the database returns the candidates in an order it does not specify, because there is no `OrderBy` before `ToListAsync`. The model reads them in table order and appends new records at the end, so the order of hits with equal scores is the model's choice.
- Rag.RetrieveBlankQuery: "the first `topK` candidates in table order" rests on that choice; the database may return any `topK` of them.
- Rag.Replace: the new records are appended in chunk order; in the database only the set of records is fixed.
- Rag.IngestReplacesSource: "in chunk order" rests on the appending order of `Rag.Replace`; the database fixes only which records carry the label.
- Rag.RetrieveAfterIngest: the equality of sequences rests on the same appending order; the database fixes only the set of candidates.
- Rag.RagService.IngestDocument: a failing `SaveChangesAsync` is not modelled. Neither is concurrent access to the tables.
- Every `DateTime.UtcNow` read in one operation gives the same `now`.
- AiEvaluation.EvaluateProject: the document table is passed once to the whole evaluation, so a write between the CV stage's query and the project stage's query is not modelled.
- The prompts are plain concatenations. `\n` line endings are used inside raw string literals. The temperatures are written as the reals 0.2 and 0.1.
- Worker.OldestQueued: the database does not specify which of several queued jobs with the same `CreatedAt` comes first. The model takes the first in table order.
- Worker.FileSystem: `Path.Combine`, PDF text extraction with PdfPig and `File.ReadAllText` are the parameters `resolve` and `read`.
- Worker.ProcessNextJob: the hosting loop, `Task.Delay(5000)`, cancellation and logging are not modelled. Exceptions from the database are not modelled either.
- The controllers, `FileStorageService`, the admin ingestion endpoint, the DTOs and the migrations are not part of this model.
