# TruthScope claim-comparison pipeline in Dafny

This project models the server-side core of TruthScope (the ezScope
repository). TruthScope takes two texts about one topic: a Wikipedia article
and a "Grokipedia" article written by a language model. It extracts the
factual claims of each text and matches the two claim sets greedily by word
overlap. The result is a list of discrepancies, published as JSON-LD
knowledge assets. The model covers:

- **Chunker** (`chunker.dfy`). `chunkText` splits a text into paragraphs at
  blank lines and splits over-long paragraphs into sentences. It then packs
  these units greedily into chunks joined by `"\n\n"`.
- **Claim extraction** (`claim_extractor.dfy`). `extractClaimsFromText`
  aggregates the model's answer for each chunk and skips failed chunks. It
  gives every claim an id of the form `claim-<suffix>-<i>`, deduplicates on
  the lower-cased, trimmed text, and drops short or boilerplate claims.
- **Greedy matcher** (`semantic_diff.dfy`). `compareClaims` computes the
  Dice coefficient of two word sets as an exact rational. It matches each
  claim of A to its best unconsumed claim of B, then lists the leftovers of
  B.
- **Model client** (`llm_client.dfy`). This covers how `extractClaims` and
  `generateRdfFromClaims` branch on the model's reply, the sentence-splitting
  and RDF heuristics used without a key, and `summarizeDiscrepancy`.
- **Job store** (`job_queue.dfy`). The in-memory `jobs` record is the class
  `JobStore` over a map.
- **Orchestration** (`truth_agent.dfy`). `runComparisonJob` checks the
  credential, creates a `processing` job and returns its id. The detached
  body, `RunJobBody`, runs afterwards as a sequential method. It ends with
  exactly one `completed` patch or one `error` patch.
- **Asset builders** (`asset_generator.dfy`, `knowledge_assets.dfy`). These
  cover `generateKnowledgeAssets`, the rounded trust score and the four
  `create*AssetJsonLd` builders.
- **Wikipedia content helpers** (`content_fetcher.dfy`, `text_cleanup.dfy`).
  These cover:
  - the TTL cache, as a class with an explicit clock;
  - topic keywords and `relevanceScore`;
  - the title pick and refinement of `fetchWikipediaByQuery`;
  - the citation and whitespace cleanup;
  - the ranking and mismatch filter of `fetchWikipediaContent`, and its
    final length checks.

Shared modules:

- `Wrappers`: `Option` and `Result`.
- `Strings`: the JavaScript `trim` white-space set, ASCII `toLowerCase`,
  `replace` of one character, run splitting, and decimal rendering of a
  natural number with its round trip.
- `Seqs`: subsequences, `filter`, first-occurrence dedup, first arg-max,
  first match and flat-map.
- `Claims`: the claim and discrepancy records.

Everything the code cannot compute itself is an input:

- the model's replies;
- the Wikipedia search results, summaries and articles;
- the embedding similarities;
- the publisher's answers;
- random ids and the clock;
- an exception escaping the agent's steps.

Every method that changes state, and every method with a loop, is proved
equal to a specification function. The properties are proved about those
functions.

Some behaviours of the code are easy to misread. The model keeps them as
written:

- The chunk cap lets `maxChunks + 1` chunks out. The loop breaks once
  `maxChunks` chunks are pushed, and the final flush is guarded by `<=`
  (`Chunker.CapLetsOneMoreOut`).
- The size check ignores the `"\n\n"` separator. A joined chunk can reach
  `targetLen + 2` characters (`Chunker.ChunkLength`).
- `updateJob` has no terminal-state guard (`JobQueue.StatusNotGuarded`).
- `truthAgent.ts` calls `createJob` and `updateJob` with an object patch
  and the status `'error'`. Neither matches the signatures in `jobQueue.ts`.
  The agent's store is therefore modelled separately, as the merge-patch
  store `TruthAgent.AgentStore` that the agent expects.
- `compareClaims` compares by the Dice coefficient with the thresholds 0.6
  and 0.9. It reports every unmatched claim of B as `missing` and never
  truncates the list. `chunkText` has no fixed-length slicing fallback: a
  text that is all white space yields no chunks.
- `truthAgent.ts` imports `publishKnowledgeAsset` and `isDkgConfigured`, but
  `dkgClient.ts` exports neither. It exports only the `dkgClient` object,
  whose `publishKnowledgeAsset` throws while DKG is not initialised. The
  inputs `dkgConfigured`, `publishA` and `publishB` of `TruthAgent.Oracles`
  therefore stand for the publisher the agent expects, not for
  `dkgClient.ts`. Were `isDkgConfigured` missing at run time, the call at
  `truthAgent.ts:60` would throw inside the `try`, and every job with a key
  would end in `error`; the model does not capture that.

## Model

| member | source | states |
|---|---|---|
| Strings.Trim | src/lib/server/claimExtractor.ts:82 | `trim()` leaves no white space at either end |
| Strings.TrimIsSlice | src/lib/server/claimExtractor.ts:101 | `trim()` returns a contiguous slice of its input and removes only white space, from both ends |
| Strings.TrimEmptyIffAllSpace | src/lib/server/claimExtractor.ts:16 | A trimmed piece is empty, and so dropped by `filter(Boolean)`, exactly when it is all white space |
| Strings.ReplaceChar | src/lib/server/claimExtractor.ts:68 | `replace(/[:]/g, '-')` turns each `:` into `-` and changes no other character |
| Strings.SplitRuns | src/lib/server/llmClient.ts:91 | `split(/[.!?]+/)` yields at least one piece, and no piece contains a separator character |
| Strings.NatToString | src/lib/server/claimExtractor.ts:71 | An index renders as a non-empty string of decimal digits |
| Strings.NatToStringRoundTrip | src/lib/server/claimExtractor.ts:71 | Reading the decimal rendering of an index back gives the index |
| Strings.NatToStringInjective | src/lib/server/claimExtractor.ts:71 | Different indices render differently |
| Strings.PrefixedIndexInjective | src/lib/server/knowledgeAssets.ts:22 | Ids made of a common prefix and an index are equal only for equal indices |
| Seqs.FirstMax | src/lib/server/semanticDiff.ts:29-36 | A strict `>` scan picks an eligible element above the floor that is a maximum and the first maximum. It picks none exactly when no eligible element beats the floor |
| Seqs.FirstWhere | src/lib/server/contentFetcher.ts:327-330 | The loop with `break` picks the first element satisfying the test, or none when no element does |
| Seqs.Filter | src/lib/server/claimExtractor.ts:100-103 | Every element `filter` returns passes the test, and the result is no longer than the input |
| Seqs.FilterKeeps | src/lib/server/claimExtractor.ts:100-103 | `filter` returns a subsequence of its input, in order, and loses no element that passes |
| SemanticDiff.MatchAllWithoutB | src/lib/server/semanticDiff.ts:52-59 | With B empty, the pass over A records one `missing` entry per claim of A, in order |
| JobQueue.Updated | src/lib/server/jobQueue.ts:22-28 | An unknown id leaves every record unchanged. Otherwise only that record changes: its status is overwritten, its id and creation time are kept, and result and error are replaced only by a truthy argument. The key set never changes |
| JobQueue.StatusNotGuarded | src/lib/server/jobQueue.ts:24 | A completed or failed job can be moved to any status and keeps its result: there is no terminal-state guard |
| JobQueue.UpdateIdempotent | src/lib/server/jobQueue.ts:22-28 | Applying the same update twice gives the same records as applying it once |
| JobQueue.UpdatesCommute | src/lib/server/jobQueue.ts:22-28 | Updates of two different ids commute |
| JobQueue.JobStore.constructor | src/lib/server/jobQueue.ts:10 | The store starts with no jobs |
| JobQueue.JobStore.CreateJob | src/lib/server/jobQueue.ts:12-20 | Returns the fresh id and stores under it a `pending` record with no result or error, stamped with the clock; every other record is unchanged and `getJob` then finds it |
| JobQueue.JobStore.UpdateJob | src/lib/server/jobQueue.ts:22-28 | The field-by-field assignments leave exactly the records `Updated` describes |
| JobQueue.JobStore.GetJob | src/lib/server/jobQueue.ts:30-32 | Finds the stored record exactly when the id is known, and otherwise reports it absent (`undefined`) |
| SemanticDiff.Words | src/lib/server/semanticDiff.ts:80-81 | The token set of a text is never empty, because splitting always yields at least one (possibly empty) token |
| SemanticDiff.DiceRange | src/lib/server/semanticDiff.ts:82-83 | For a non-empty word set, `2|I|/(|A|+|B|)` lies in [0, 1] |
| SemanticDiff.Similarity | src/lib/server/semanticDiff.ts:78-84 | Every similarity lies in [0, 1] |
| SemanticDiff.SimilaritySymmetric | src/lib/server/semanticDiff.ts:78-84 | Similarity does not depend on argument order |
| SemanticDiff.DiceOneIffEqual | src/lib/server/semanticDiff.ts:82-83 | The Dice ratio of a non-empty set is 1 exactly when the two sets are equal |
| SemanticDiff.SimilarityOneIffSameWords | src/lib/server/semanticDiff.ts:78-84 | Two claims score 1 exactly when their lower-cased token sets are equal |
| SemanticDiff.AboveMatchThreshold | src/lib/server/semanticDiff.ts:39 | A score above 0.6 is the integer condition `10·|I| > 3·(|A|+|B|)` |
| SemanticDiff.BelowExactThreshold | src/lib/server/semanticDiff.ts:42 | A score below 0.9 is the integer condition `20·|I| < 9·(|A|+|B|)` |
| SemanticDiff.Best | src/lib/server/semanticDiff.ts:26-37 | The candidate is unconsumed, scores above 0 and at least as high as every unconsumed claim of B, and strictly higher than every earlier one (the first maximum). There is no candidate exactly when every unconsumed claim scores 0 |
| SemanticDiff.Choose | src/lib/server/semanticDiff.ts:26-39 | A match is the best candidate and scores above 0.6. There is no match exactly when no unconsumed claim of B scores above 0.6 |
| SemanticDiff.MatchAll | src/lib/server/semanticDiff.ts:25-61 | The pass over A makes one choice per claim of A, each an index into B |
| SemanticDiff.ConsumedOnce | src/lib/server/semanticDiff.ts:23-40 | The consumed set is exactly the ids of the chosen claims of B, and no two claims of A are matched to claims of B with the same id |
| SemanticDiff.EntryCases | src/lib/server/semanticDiff.ts:39-60 | No match gives one `missing` entry with only `claimA`, at confidence 0.9. A match scoring at least 0.9 gives nothing. A match scoring below 0.9 gives one `contradiction` with both claims, at confidence 0.9 with a key and 0.8 without |
| SemanticDiff.LeftoversInOrder | src/lib/server/semanticDiff.ts:63-73 | The leftover entries are one `missing` entry per unconsumed claim of B, in B's order, and every unconsumed claim of B is among them |
| SemanticDiff.CountBound | src/lib/server/semanticDiff.ts:17-75 | Nothing truncates the list: there are at most `|A| + |B|` discrepancies |
| SemanticDiff.CompareWithoutB | src/lib/server/semanticDiff.ts:52-59 | With B empty, the result is one `missing` entry per claim of A, in order |
| SemanticDiff.OneClaimAgainstNothing | tests/semanticDiff.test.ts:13-21 | One claim against an empty B yields exactly one discrepancy, of type `missing` |
| SemanticDiff.MatchStep | src/lib/server/semanticDiff.ts:25-61 | One iteration of the outer loop. A best match above 0.6 consumes its id and appends the summariser's entry when the score is below 0.9. Otherwise it appends a `missing` entry for the claim of A |
| SemanticDiff.EntriesBound | src/lib/server/semanticDiff.ts:25-61 | The pass over A records at most one entry per claim of A |
| SemanticDiff.LeftoversBound | src/lib/server/semanticDiff.ts:63-73 | The leftover pass records at most one entry per claim of B |
| SemanticDiff.CompareClaims | src/lib/server/semanticDiff.ts:17-76 | The nested loops with the mutable consumed set return exactly the discrepancies of the specification `Compare` |
| SemanticDiff.AppendLeftovers | src/lib/server/semanticDiff.ts:63-73 | The loop over B appends exactly the leftover entries after the existing ones |
| SemanticDiff.ScanCandidates | src/lib/server/semanticDiff.ts:26-37 | The inner loop ends with the best candidate and its score, or with no match and score 0 |
| LlmClient.MockClaims | src/lib/server/llmClient.ts:91-98 | At most one claim per piece. Each claim is `Entity related_to Something` at confidence 0.7, with a text longer than ten characters |
| LlmClient.MockClaimsShape | src/lib/server/llmClient.ts:89-99 | Every heuristic claim has the fixed subject, predicate, object and confidence 0.7, and a text longer than ten characters with no `.`, `!` or `?` |
| LlmClient.MockClaimsNoEnd | src/lib/server/llmClient.ts:91-96 | Pieces without sentence terminators give claim texts without them |
| LlmClient.MockClaimsAppend | src/lib/server/llmClient.ts:91-98 | The heuristic keeps order: the claims of two runs of pieces are the claims of the first run followed by those of the second |
| LlmClient.MockClaimsComplete | src/lib/server/llmClient.ts:91-98 | Every piece whose trimmed length exceeds ten yields its claim, so nothing long enough is lost |
| LlmClient.ExtractClaims | src/lib/server/llmClient.ts:19-42 | Without a key, or when the call throws or the content does not parse, the result is the heuristic claims. Empty content gives `[]`. A parsed array is returned as is. The result is a non-array exactly when the key is set and the model sent other valid JSON |
| LlmClient.ExtractWithoutKeyIgnoresReply | src/lib/server/llmClient.ts:20-23 | Without a key the model is never consulted: the result is the same whatever the reply |
| LlmClient.MockGenerateRdf | src/lib/server/llmClient.ts:101-115 | The heuristic document has the topic as headline and the source as author. It has one mention per claim, with that claim's text at confidence 0.8, and one triple per claim with empty fields replaced by `Entity`, `relates` and `Thing` |
| LlmClient.MockTriplesNonEmpty | src/lib/server/llmClient.ts:113 | No heuristic triple has an empty component |
| LlmClient.GenerateRdfFromClaims | src/lib/server/llmClient.ts:44-69 | The model's JSON is used exactly when a key is set and the content parses. Its triples are then copied from the claims with no defaults. In every other case the result is the heuristic document. There is always one triple per claim |
| LlmClient.SummarizeDiscrepancy | src/lib/server/llmClient.ts:71-86 | Always a `contradiction`, at confidence 0.9 with a key and 0.8 without |
| Chunker.SplitBlankLines | src/lib/server/claimExtractor.ts:16 | Splitting at runs of two or more newlines yields at least one piece |
| Chunker.Paragraphs | src/lib/server/claimExtractor.ts:16 | Trimming and dropping empty pieces leaves no empty paragraph |
| Chunker.ParagraphsEmpty | src/lib/server/claimExtractor.ts:16 | There are no paragraphs exactly when every piece is white space |
| Chunker.SentenceMatches | src/lib/server/claimExtractor.ts:23 | Every sentence match is non-empty |
| Chunker.SplitLong | src/lib/server/claimExtractor.ts:21-24 | An over-long paragraph yields at least one unit, and no unit is empty |
| Chunker.Refine | src/lib/server/claimExtractor.ts:19-29 | Refinement yields no units exactly when there are no paragraphs, and never yields an empty unit |
| Chunker.Units | src/lib/server/claimExtractor.ts:16-29 | No unit is empty |
| Chunker.UnitsEmptyIffNoParagraphs | src/lib/server/claimExtractor.ts:16-29 | There are no units exactly when there are no paragraphs |
| Chunker.UnitsEmptyIffAllSpace | src/lib/server/claimExtractor.ts:16-29 | There are no units exactly when the text is all white space |
| Chunker.ChunkText | src/lib/server/claimExtractor.ts:14-47 | The chunks are the packing of the units. There are at most `maxChunks + 1` of them, and none exactly when the text is all white space |
| Chunker.Pack | src/lib/server/claimExtractor.ts:31-46 | The loop with its mutable buffer, `break` and final flush computes exactly the packing fold |
| Chunker.RunStopped | src/lib/server/claimExtractor.ts:39 | Once the cap has fired, later units change nothing: they are dropped |
| Chunker.RunKeeps | src/lib/server/claimExtractor.ts:34-43 | After any prefix of the units, the packing state satisfies the loop invariant |
| Chunker.StepKeeps | src/lib/server/claimExtractor.ts:35-42 | One loop step preserves the packing invariant |
| Chunker.FlushKeeps | src/lib/server/claimExtractor.ts:36-39 | Pushing the buffer, when non-empty, and restarting it with the unit preserves the invariant |
| Chunker.AppendKeeps | src/lib/server/claimExtractor.ts:40-41 | Appending the unit to the buffer with `"\n\n"` preserves the invariant |
| Chunker.FinishKeeps | src/lib/server/claimExtractor.ts:44 | The final flush leaves well-formed chunks: at most `maxChunks + 1`, formed from a prefix of the units, from all of them when under the cap, and none exactly when there were no units |
| Chunker.PackingIsPacked | src/lib/server/claimExtractor.ts:31-46 | Each chunk is the `"\n\n"`-join of a non-empty group of consecutive units. The groups form a prefix of the units, and all of them when the cap was not exceeded. There are at most `maxChunks + 1` chunks, and none exactly when there are no units |
| Chunker.ChunkLength | src/lib/server/claimExtractor.ts:36-41 | A single-unit chunk is that unit (it may exceed the target). A joined chunk has at most `targetLen + 2` characters, because the check ignores the separator |
| Chunker.JoinChunks | src/lib/server/claimExtractor.ts:34-44 | Joining the chunks with `"\n\n"` equals joining, in order, the units they were made from |
| Chunker.CapLetsOneMoreOut | src/lib/server/claimExtractor.ts:39-44 | With a cap of one, two chunks come out, and the third unit is dropped |
| ClaimExtractor.Outcomes | src/lib/server/claimExtractor.ts:56-59 | One extraction outcome per chunk, in order, each the model's answer for that chunk |
| ClaimExtractor.Aggregate | src/lib/server/claimExtractor.ts:55-66 | The aggregation loop collects exactly the claims of the chunks that returned an array, in chunk order |
| ClaimExtractor.CollectedAppend | src/lib/server/claimExtractor.ts:55-66 | Collection distributes over consecutive runs of chunks |
| ClaimExtractor.FailedChunkSkipped | src/lib/server/claimExtractor.ts:58-65 | A chunk that throws or returns a non-array contributes nothing, and the chunks after it are still collected |
| ClaimExtractor.RunSuffix | src/lib/server/claimExtractor.ts:68 | With a job id, the suffix is the job id with every `:` replaced by `-`, so it has no `:`. Without one, it is the random suffix |
| ClaimExtractor.ToClaim | src/lib/server/claimExtractor.ts:70-77 | The claim keeps subject, predicate and object. Its text falls back to `text` when `rawText` is empty, and its confidence to 0.9 when missing or zero |
| ClaimExtractor.AssignIds | src/lib/server/claimExtractor.ts:70-77 | One claim per aggregated element |
| ClaimExtractor.AssignedIds | src/lib/server/claimExtractor.ts:70-77 | Element `i` becomes the claim with id `claim-<suffix>-<i>`, and these ids are pairwise distinct |
| ClaimExtractor.DedupByText | src/lib/server/claimExtractor.ts:80-86 | The loop with its `seen` set keeps exactly the first claim of each lower-cased, trimmed text, in order |
| Seqs.FirstByKeys | src/lib/server/claimExtractor.ts:80-86 | Dedup keeps the set of keys and leaves no key twice |
| Seqs.FirstBySubsequence | src/lib/server/claimExtractor.ts:80-86 | Dedup returns a subsequence of its input, so order is preserved |
| Seqs.FirstByKeepsFirst | src/lib/server/claimExtractor.ts:80-86 | The first element with a given key is kept |
| Seqs.FirstByOfDistinct | src/lib/server/claimExtractor.ts:80-86 | A sequence whose keys are already distinct is left unchanged |
| Seqs.FirstBySameKey | src/lib/server/claimExtractor.ts:80-86 | A repeated key is kept only once, at its first occurrence |
| Seqs.FirstByIdempotent | src/lib/server/claimExtractor.ts:80-86 | Deduplicating twice gives the same result as once |
| ClaimExtractor.ExtractClaimsFromText | src/lib/server/claimExtractor.ts:49-107 | The method computes the specification `Extracted`. Every claim it returns is valid, and the returned claims have pairwise distinct ids and distinct texts |
| ClaimExtractor.ExtractedWellFormed | src/lib/server/claimExtractor.ts:70-103 | Every extracted claim has a trimmed text longer than ten characters that matches none of the generic patterns. Ids and dedup keys are pairwise distinct |
| ClaimExtractor.ExtractedDistinct | src/lib/server/claimExtractor.ts:80-103 | Deduplicating and then filtering claims with distinct ids leaves distinct ids and distinct texts |
| ClaimExtractor.SameClaimEachChunk | src/lib/server/claimExtractor.ts:51-66 | A model that answers the same single claim for every chunk of a non-blank text yields that claim once per chunk, and there is at least one chunk |
| ClaimExtractor.ChunksOfNonBlank | src/lib/server/claimExtractor.ts:14-47 | A text that is not all white space has at least one chunk |
| ClaimExtractor.RepeatedClaimKeptOnce | src/lib/server/claimExtractor.ts:70-103 | The same valid claim repeated any number of times survives once, under the first id |
| ClaimExtractor.OneClaimPerChunk | src/lib/server/claimExtractor.ts:49-107 | For a non-blank text and a model that always answers one valid claim, the result is that single claim with id `claim-<suffix>-0` |
| ClaimExtractor.EarthTextNotGeneric | src/lib/server/claimExtractor.ts:93-98 | `The Earth orbits the Sun.` matches none of the four generic patterns |
| ClaimExtractor.EarthClaimValid | src/lib/server/claimExtractor.ts:100-103 | The Earth claim survives the final filter |
| ClaimExtractor.EarthClaimPassesThrough | tests/claimExtractor.test.ts:12-18 | Extracting `The Earth orbits the Sun.` with the model answering the Earth claim yields one claim, `Earth orbits Sun` |
| AssetGenerator.TrustScore | src/lib/server/assetGenerator.ts:108-112 | The score is 0 for an empty baseline and at most 100. Otherwise it is `100 - 100·d/n` rounded half up: the unique `r` with `(2r-1)·n <= 200·(n-d) < (2r+1)·n`. It is clamped to 0 when `d > n` |
| AssetGenerator.ScoreBracket | src/lib/server/assetGenerator.ts:110-111 | The rounding formula lies in the half-unit bracket around `100·(n-d)/n`, is at most 100, is non-negative when `d <= n` and non-positive when `d > n` |
| AssetGenerator.TrustScoreFull | src/lib/server/assetGenerator.ts:108-112 | A non-empty baseline with no discrepancies scores 100 |
| AssetGenerator.TrustScoreAntitone | src/lib/server/assetGenerator.ts:108-112 | More discrepancies never raise the score |
| AssetGenerator.FindIndex | src/lib/server/assetGenerator.ts:89 | `findIndex` by id gives the first claim with that id, or none when no claim has it |
| AssetGenerator.GenerateKnowledgeAssets | src/lib/server/assetGenerator.ts:10-106 | The ids are `urn:truthscope:job:<jobId>:wiki` and `…:grok`. The note reviews the Grokipedia asset and rates it with the trust score of `|claimsA|` against the number of discrepancies. There is one mention per claim and one review per discrepancy |
| AssetGenerator.WikipediaMentions | src/lib/server/assetGenerator.ts:23-40 | Mention `i` of the Wikipedia asset has id `…:wiki#claim-<i>`, the claim's text and subject, and the description `<predicate> <object>`. The ids are pairwise distinct |
| AssetGenerator.GrokipediaMentions | src/lib/server/assetGenerator.ts:42-58 | Mention `i` of the Grokipedia asset has id `…:grok#claim-<i>`, the claim's text and subject, and no description. The ids are pairwise distinct |
| AssetGenerator.NoteReviews | src/lib/server/assetGenerator.ts:83-101 | Review `i` copies the type, summary and confidence of discrepancy `i`. It reviews claim B's text, or `Missing Context` when that is empty or absent. It has evidence exactly when claim A's id occurs in `claimsA`, and the evidence points at the first such mention |
| KnowledgeAssets.CreateWikipediaAssetJsonLd | src/lib/server/knowledgeAssets.ts:10-33 | Headline and URL as given, author `Wikipedia`, the constant publisher `TruthScope`, and one mention per claim |
| KnowledgeAssets.CreateGrokipediaAssetJsonLd | src/lib/server/knowledgeAssets.ts:35-58 | Headline and URL as given, author `Grokipedia`, the constant publisher `TruthScope`, and one mention per claim |
| KnowledgeAssets.ArticleMentions | src/lib/server/knowledgeAssets.ts:20-29 | Mention `i` has id `claim:<i>`, the claim's text, and a main entity named by the subject and described by `<predicate> <object>`. The ids are pairwise distinct |
| KnowledgeAssets.ArticleBuildersDifferOnlyInAuthor | src/lib/server/knowledgeAssets.ts:10-58 | The two article builders differ only in the author's name |
| KnowledgeAssets.CreateCommunityNoteAssetJsonLd | src/lib/server/knowledgeAssets.ts:60-83 | Name, description, finding, confidence, staked value and author as given. Each evidence UAL becomes `{@id: ual}`, in order |
| KnowledgeAssets.CreateTrustMetadataAssetJsonLd | src/lib/server/knowledgeAssets.ts:85-105 | Target, agent, action, amount and score are copied unchanged |
| ContentFetcher.Lookup | src/lib/server/contentFetcher.ts:15-23 | A cached value is found exactly when the key is present and not yet expired (`now <= expires`) |
| ContentFetcher.Pruned | src/lib/server/contentFetcher.ts:18-20 | Only the looked-up key is removed, and only when it has expired |
| ContentFetcher.TtlCache.constructor | src/lib/server/contentFetcher.ts:14 | The cache starts empty |
| ContentFetcher.TtlCache.Get | src/lib/server/contentFetcher.ts:15-23 | Returns the lookup result and deletes the entry if it has expired |
| ContentFetcher.TtlCache.Set | src/lib/server/contentFetcher.ts:24-26 | Stores the value under the key, expiring at `now + ttl` and overwriting any earlier entry |
| ContentFetcher.SetThenGet | src/lib/server/contentFetcher.ts:15-26 | A set followed by a get of the same key returns the value while within the TTL, and nothing after it |
| ContentFetcher.PruningUnobservable | src/lib/server/contentFetcher.ts:18-21 | Deleting an expired entry changes no later lookup |
| ContentFetcher.KeywordsAreTheRuns | src/lib/server/contentFetcher.ts:29-31 | The keywords are exactly the lower-case letter runs of four or more letters that are not stopwords |
| ContentFetcher.KeywordsWellFormed | src/lib/server/contentFetcher.ts:28-31 | Every keyword has at least four letters a–z and is not a stopword. Keywords are pairwise distinct and in first-occurrence order. No qualifying run is missing |
| ContentFetcher.KeywordLetters | src/lib/server/contentFetcher.ts:30 | Keywords consist of the letters a–z |
| ContentFetcher.KeywordsDistinct | src/lib/server/contentFetcher.ts:30 | No keyword occurs twice |
| ContentFetcher.KeywordsInOrder | src/lib/server/contentFetcher.ts:30 | Keywords keep the order of the runs they come from |
| ContentFetcher.Score | src/lib/server/contentFetcher.ts:33-38 | The score never exceeds the number of keywords |
| ContentFetcher.ScoreCounts | src/lib/server/contentFetcher.ts:33-38 | The score is the number of non-empty keywords occurring in the lower-cased text. It is 0 exactly when none occurs and maximal exactly when all occur |
| ContentFetcher.RelevanceScore | src/lib/server/contentFetcher.ts:33-38 | The counting loop computes that score |
| ContentFetcher.InitialBest | src/lib/server/contentFetcher.ts:140-145 | The initial pick is one of the titles |
| ContentFetcher.Refined | src/lib/server/contentFetcher.ts:147-157 | Refinement yields the current pick or one of the titles |
| ContentFetcher.SelectedTitle | src/lib/server/contentFetcher.ts:135-159 | No title is selected exactly when the search found none. Otherwise the selected title is one of the search results |
| ContentFetcher.InitialPickFirstHighest | src/lib/server/contentFetcher.ts:140-145 | The initial pick is the first title with the highest score, and `titles[0]` when every title scores 0 |
| ContentFetcher.RefinementReplacesOnlyWhenBetter | src/lib/server/contentFetcher.ts:146-158 | A pick scoring 2 or more is kept. A replacement happens only when the pick scored below 2. The replacement's summary is available and scores strictly higher than the pick's title score, and at least as high as any title with a summary |
| ContentFetcher.SelectTitle | src/lib/server/contentFetcher.ts:135-159 | The two loops compute the selected title |
| ContentFetcher.PickByTitle | src/lib/server/contentFetcher.ts:140-145 | The first loop yields the initial pick and its score |
| ContentFetcher.RefineBySummary | src/lib/server/contentFetcher.ts:147-157 | The refinement loop yields the refined title |
| ContentFetcher.FirstCandidates | src/lib/server/contentFetcher.ts:232 | At most five titles, taken from the front |
| ContentFetcher.Ranked | src/lib/server/contentFetcher.ts:232-255 | Every ranked candidate has a fetched summary. Its stored summary is that summary cleaned, and its similarity is the embedding similarity of its title |
| ContentFetcher.RankedTitles | src/lib/server/contentFetcher.ts:232-255 | The ranked titles are exactly the titles whose summary could be fetched, in search order |
| ContentFetcher.RankCandidates | src/lib/server/contentFetcher.ts:231-255 | The ranking loop, which skips failed summaries, builds the ranked list of the first five titles |
| ContentFetcher.CheckCandidate | src/lib/server/contentFetcher.ts:274-315 | The per-candidate flag is the mismatch predicate: weak similarities with no keyword hit, no keyword overlap with a low similarity, a disambiguation page, or a summary of 1 to 39 characters |
| ContentFetcher.FirstRelevant | src/lib/server/contentFetcher.ts:273-331 | The loop stops at the first candidate that is not a mismatch, or finds none |
| ContentFetcher.ChooseCandidate | src/lib/server/contentFetcher.ts:257-343 | An empty ranking fails with "summaries unavailable". Otherwise the result is the first passing candidate, or the "no relevant page" failure |
| ContentFetcher.ChosenPasses | src/lib/server/contentFetcher.ts:298-330 | A chosen candidate was ranked, is not a disambiguation page, does not have a summary of 1 to 39 characters, and when the topic has no keywords has similarity at least 0.22 |
| ContentFetcher.ChosenFailsOnlyWhenAllMismatch | src/lib/server/contentFetcher.ts:333-343 | Choosing fails exactly when every ranked candidate is a mismatch |
| ContentFetcher.FinalText | src/lib/server/contentFetcher.ts:349-363 | A returned text has at least 500 characters, unless the summary itself has at least 300. Null is returned exactly when the summary is empty and the article is unusable. It fails exactly when the summary has 1 to 299 characters and the article is unusable |
| ContentFetcher.FetchWikipediaContent | src/lib/server/contentFetcher.ts:205-364 | Search with fallback, ranking, choice and final checks give exactly the specification `Content` |
| ContentFetcher.FinalTextIsClean | src/lib/server/contentFetcher.ts:349-363 | Whatever text the final step returns is clean: no edge white space, single spaces, no citation markers |
| ContentFetcher.ContentIsClean | src/lib/server/contentFetcher.ts:205-364 | Every text `fetchWikipediaContent` returns is clean |
| TextCleanup.StripCitations | src/lib/server/contentFetcher.ts:235 | Replacing markers is empty only on empty input, and it starts with a space exactly where a `[digits]` marker started |
| TextCleanup.CollapseSpace | src/lib/server/contentFetcher.ts:235 | Collapsing is empty only on empty input, and it starts with a space exactly where a white-space run started |
| TextCleanup.StripLeavesNoMarker | src/lib/server/contentFetcher.ts:235 | After replacement no `[digits]` marker remains |
| TextCleanup.StripOfNoMarker | src/lib/server/contentFetcher.ts:235 | A text without markers is left unchanged |
| TextCleanup.CollapseSingleSpaced | src/lib/server/contentFetcher.ts:235 | After collapsing, every white-space character is a single space between non-space characters |
| TextCleanup.CollapseKeepsNoMarker | src/lib/server/contentFetcher.ts:235 | Collapsing white space creates no citation marker |
| TextCleanup.CollapseOfSingleSpaced | src/lib/server/contentFetcher.ts:235 | Collapsing a single-spaced text changes nothing |
| TextCleanup.CleanShape | src/lib/server/contentFetcher.ts:235 | Cleanup leaves no leading or trailing white space, single spaces only, and no citation marker |
| TextCleanup.CleanIdempotent | src/lib/server/contentFetcher.ts:351 | Cleaning a cleaned text changes nothing |
| TruthAgent.Patched | src/server/truthAgent.ts:76-92 | A `completed` patch sets the status and result and keeps the error. An `error` patch sets the status and message and keeps the result. The topic and sources are kept, and every other job is untouched |
| TruthAgent.AgentStore.constructor | src/lib/server/jobQueue.ts:10 | The agent's store starts empty, like the module-level `jobs` record it writes through |
| TruthAgent.AgentStore.CreateJob | src/server/truthAgent.ts:27 | Stores a `processing` record with the topic and sources under the fresh id |
| TruthAgent.AgentStore.UpdateJob | src/server/truthAgent.ts:76-92 | Merging a patch leaves exactly the patched records |
| TruthAgent.RunComparisonJob | src/server/truthAgent.ts:17-98 | Without an API key it fails and creates no job. With one, it returns the fresh id and creates a `processing` job without running the body |
| TruthAgent.PublishedAssets | src/server/truthAgent.ts:58-73 | Nothing is published unless DKG is configured. When it is, each asset key holds that publication's answer and is absent when the publication failed |
| TruthAgent.RunSteps | src/server/truthAgent.ts:43-73 | The steps compute the job result: both claim lists, the discrepancies and the assets |
| TruthAgent.PublishAssets | src/server/truthAgent.ts:58-73 | The publishing block, with each `try` isolated, collects exactly those assets |
| TruthAgent.RunJobBody | src/server/truthAgent.ts:31-94 | The detached body writes exactly one patch: `completed` with the result, or `error` with the message |
| TruthAgent.JobEnds | src/server/truthAgent.ts:27-93 | A created job ends `completed` exactly when nothing threw, with no error and the computed result. It ends `error` exactly when something threw, with the message (or `String(e)`) and no result. The topic and sources are kept |
| TruthAgent.CompletedResult | src/server/truthAgent.ts:44-87 | The completed result carries the topic, the sources, both extracted claim lists and the comparison's discrepancies. The claims of A are valid and the ids of B are distinct |
| TruthAgent.NullTextIsEmpty | src/server/truthAgent.ts:44-45 | A null text is treated exactly like the empty string |
| TruthAgent.PublishingIsolated | src/server/truthAgent.ts:58-73 | When nothing else throws the job completes whatever publishing does. The assets are empty without DKG, and otherwise hold the publisher's answer for each converted document |

## Left out

- Network and SDK calls are inputs, not modelled code. This covers the Wikipedia search, summary, extract and parse requests, the OpenAI chat calls and the DKG publisher. `fetchGrokipediaContent` and the request-building parts of `searchWikipedia`, `fetchWikipediaSummary`, `fetchWikipediaArticle` and `fetchWikipediaStructured` are not modelled for the same reason. Only the caching around them is modelled, as `TtlCache`.
- Embeddings and cosine similarity are opaque real inputs, given per title (`simOf`, `titleSim`). A failed embedding enters as the similarity 0 the code substitutes. `embedText` and `cosineSimilarity` are not part of this model.
- The keyword score `kwScore` of each ranked candidate (`contentFetcher.ts:236-242`) and the debug records are not modelled. They only feed a commented-out sort and an error message.
- Error messages are not modelled for the Wikipedia errors: these are the `FetchError` cases. The agent's stored `error` is modelled as the thrown value's message or its `String(e)` form.
- An exception escaping the agent's extraction, conversion or comparison is an input (`Oracles.fault`) decided up front. The model does not say which step threw.
- `convertToRdf` (`rdfConverter.ts`) is not part of this model. The agent's conversion is modelled as `generateRdfFromClaims` with a key set.
- The fire-and-forget task and the `await`s are not modelled: the body runs sequentially after `RunComparisonJob`. There is no concurrency.
- Random ids, `Math.random` suffixes and the clock are parameters. The timestamps and constant `@context`/`@type` members of the JSON-LD documents are omitted.
- `toLowerCase` and `/i` matching fold ASCII letters only. String lengths count characters as the model sees them, not UTF-16 code units.
- `calculateSimilarity` and `calculateTrustScore` use exact rationals rather than doubles. The similarity comparisons agree with doubles as long as every `|WA|+|WB|` stays below 10^8, because each division is correctly rounded. This covers the `score > bestScore` comparison at `semanticDiff.ts:33`, where two distinct ratios differ by at least `2/(n·m)`, and the thresholds 0.6 and 0.9 at `semanticDiff.ts:39,42`. Beyond that bound the model does not promise agreement. For the trust score, a double could round differently only where `100·d/n` lies within rounding error of a half-integer.
- `null` array items, non-string fields and claims without ids are not modelled.
- `NaN` similarities are not modelled: every similarity is a real. In the code, a `NaN` title similarity makes `titleSim < 0.15` false at `contentFetcher.ts:308`, while `cand.sim || 0` at `contentFetcher.ts:295` turns a `NaN` summary similarity into 0.
- `RawClaim`: a subject, predicate or object the model left out is represented as `""`, and in three places the code does not treat a missing field like `""`. The JSON-LD builders render a missing predicate and object as `"undefined undefined"` in the description (`assetGenerator.ts:37-38`, `knowledgeAssets.ts:26-27,51-52`), where the model gives `" "`. `generateRdfFromClaims` copies the fields into its triples with no defaults (`llmClient.ts:63`). `extractClaimsFromText` copies them into each claim (`claimExtractor.ts:71-73`), and JSON drops an `undefined` key but keeps `""`.
- `jobs` keys that collide with `Object.prototype` members are not modelled.
- Console logging is not modelled.
- The front end, API routes, payment and staking stubs and the seed script are outside this model.
