# Lending hub: verified models

These modules model the parts of the lending hub whose correctness is easiest to lose in an edit, and prove what each is for:

- **Assistant corpus** (`Registry`, `Blocks`, `HeadingTrail`, `Packing`, `Chunking`, `ChunkLaws`): dated documents, the line-driven block parser with its heading trail, the sentence and unit packers, and the chunks they give.
- **Assistant retrieval** (`Bm25Model`, `Bm25`, `Fusion`, `FusionLaws`, `Hybrid`, `Serving`): the mutable BM25 index against a brute-force ranking, reciprocal-rank fusion, and the date filter from registration through to the last hit.
- **Assistant answers** (`Answer`): the sentence splitter and the filter that keeps only sourced numbers.
- **Agriculture** (`Geometry`, `ClipArea`, `ConvexClip`, `ClipRegion`, `OverlapLoss`, `Gini`, `CropTree`, `CropForest`, `GoldenSection`, `Calibration`, `Drought`, `Spei`, `YieldModel`, `BoxMean`): polygon clipping, the tree builder and forest vote, temperature fitting, the drought index, NDVI downscaling, and the summed-area table.
- **Decision log** (`DecisionRecord`, `DecisionLog`): the hash-chained record log.
- **Loan panel** (`Panel`): features before the observation month, label after it.

`Wrappers`, `Sums`, `Sorting`, `Sequences`, `Enumeration` and `Strings` hold shared vocabulary. `dafny verify dfyconfig.toml` checks the whole project.

## How the models are made

Code that works in place is imperative here: the BM25 index, the registry, the retriever and the decision log are classes whose methods update maps, and parsers, packers, scans and folds are methods with loops. Each method is proved equal to a function of its inputs (or of the old state), and the theorems are lemmas about those functions. Numbers are exact reals. Functions that cannot be described here (logarithm, exponential, gamma, power, normal quantile, hashes, the tokenizer, the token counter, the line and sentence patterns, an embedding model, a nearest-neighbour search, a reranker) are parameters; a predicate such as `IsLogarithm`, `Sound`, `Exponential`, `Additive` or `Injective` states all that is assumed of each.

## Where the code and its documentation part

The model follows the code; each point below is a theorem that says exactly when the two agree or, for the calibration objective, a condition under which they do and an input for which they do not.

- *Heading trail.* `parse_blocks` cuts the trail by position, so a closed heading survives when a level was skipped: H1, H3, H3 keeps the first H3 in the trail of the second (`SkippedLevelKeepsClosedHeading`). `TrailIsEnclosing` gives the exact condition; never skipping a level is enough (`UnskippedTrail`).
- *Oversize chunks.* The budget report calls an over-budget chunk without a table a packing bug, but a paragraph or list with one sentence over the budget makes such a chunk by design (`OversizeMeansTable`).
- *Resubmitted documents.* The registry's content hash leaves tags, language and kind out, so a resubmission that changes only those is accepted and its new tags are dropped (`ResubmittedTagsAreDropped`). The date filter survives this; the product and language filters, each of them optional, agree with the registry exactly when the registered document has the chunk's language and every tag it was cut with (`AcceptedHitFilters`).
- *Abbreviations.* The splitter tests for a suffix, not a word: "years." ends like "rs.", so a claim ending in it borrows the next sentence's citation (`BorrowedCitation`). The splitter's own description says it still splits after "Rs."; the code joins there (`BreakAfterWord`).
- *Tamper evidence.* `verify` reports removal except at the end of the file (`RemovalDetected`, `TruncationVerifies`), and a handle opened before another handle's append breaks the chain (`AppendKeepsIntact`, `StaleHandleBreaksChain`).
- *Comparable across places.* The drought index is invariant under rescaling and shifting the water balance exactly while an absolute spread guard, which has the data's units, decides both samples alike (`SpeiInvariance`); some unit always defeats it (`SomeUnitsLoseTheIndex`).
- *Lead time.* `lead_months` treats a default in month 0 as none; it agrees with the label otherwise, and always for an observation month of at least 0 (`LeadMatchesLabel`).
- *Clipping.* The near-parallel escape keeps the result inside the clipper up to one tolerance (`ResultInsideClipper`), but not the area: the two parts that an edge and its reverse leave exceed the whole by exactly half the slivers, so the area is conserved exactly when those cancel (`ClippingSplitsArea`); without an escape they vanish (`NoEscapeSplits`), and they never exceed the tolerance times the reach of the escaped hits (`DeficitBound`). Three polygons that the constructor accepts show it: a field whose overlaps with two adjoining squares add up to more than the field (`HalvesExceedWhole`).
- *Exact overlap.* `intersection_area` is said to be exact when at least one polygon is convex. It depends on the second one, the clipper. For a convex subject and a run without escapes a result with area is the subject cut down to what lies inside every edge of the clipper (`ClippedIsIntersection`): that is the intersection when the clipper is convex, and less when it is concave. So a convex polygon none of whose crossings escapes is reported as wholly overlapped exactly when all its vertices are inside all edges of the clipper (`ConvexOverlapIsWhole`), not when it is inside the clipper; it is never over-reported (`ConvexNeverOverReports`), and has IoU 1 with itself (`ConvexSelfIou`). A convex polygon clipped by a concave one under-reports (`ConcaveClipperUnderReports`), and a concave polygon can have an IoU of a third with itself (`ConcaveSelfOverlap`).
- *Unimodal calibration.* `fit_temperature` takes its objective to be unimodal. Without the floor it is convex in 1/T, so it is unimodal about its best temperature whenever no target's share falls below the floor at the two bounds and some row tells anything (`BestIsUnimodal`); the floor can make it rise and fall again (`FloorBreaksUnimodality`).
- *Refused drought fits.* A shape estimate of at most 1 is put down to a short or heavy-tailed series. A fit exists exactly for four or more values with a positive third L-moment that clears the guard and with some spread below the largest (`FitExists`), so every left-skewed month is refused: one dry year below a level record has no fit however long the record (`OneDryYearRefused`).

## Model

| member | source | states |
|---|---|---|
| Bm25.NewIndex | src/lending_hub/assistant/retrieval.py:191-200 | the index is refused exactly for a negative k1 or a b outside [0, 1], and starts empty |
| Bm25.BM25Index.Add | src/lending_hub/assistant/retrieval.py:211-224 | after adding, the postings and lengths are those built from scratch from the new id-to-chunk map, which is the old one with this chunk under its id |
| Bm25.BM25Index.Remove | src/lending_hub/assistant/retrieval.py:230-234 | removing leaves the index built from the map without the id; emptied posting dictionaries may stay |
| Bm25.BM25Index.AddAll | src/lending_hub/assistant/retrieval.py:226-228 | any list of adds and re-adds keeps the index equal to the from-scratch one, over the map with the last chunk per id |
| Bm25Model.ReplayedIsLast | src/lending_hub/assistant/retrieval.py:211-228 | after any list of adds an id stands for the last chunk added under it |
| Bm25Model.ReplayedKeeps | src/lending_hub/assistant/retrieval.py:211-228 | an id that was not added keeps the chunk it had |
| Bm25Model.HistoryForgotten | src/lending_hub/assistant/retrieval.py:211-234 | two indexes over the same chunks have the same lengths and postings whatever histories led to them, ignoring emptied postings |
| Bm25.BM25Index.AverageLength | src/lending_hub/assistant/retrieval.py:205-209 | the mean of the chunks' own term counts, 0 for an empty index |
| Bm25.BM25Index.Idf | src/lending_hub/assistant/retrieval.py:249-273 | the weight of a term is the published formula over the chunks that contain it, above zero for every term some chunk has |
| Bm25Model.RarerWeighsMore | src/lending_hub/assistant/retrieval.py:249-273 | a term found in fewer chunks weighs strictly more, and even a term in every chunk weighs more than nothing |
| Bm25Model.SaturationGrows | src/lending_hub/assistant/retrieval.py:173-184 | more occurrences never score less and stay within k1 + 1 times the weight; both strictly while k1 times the length factor is positive |
| Bm25Model.LongerNeverScoresMore | src/lending_hub/assistant/retrieval.py:184-188 | the same count of a term in a longer chunk never scores more |
| Bm25Model.ConstantsMeaning | src/lending_hub/assistant/retrieval.py:173-188 | b = 0 switches length normalisation off, b = 1 applies it fully, a chunk of average length is never moved, and k1 = 0 counts presence only |
| Bm25Model.PublishedTerm | src/lending_hub/assistant/retrieval.py:275-295 | what a query term adds is read off the chunks alone: how many of them hold it, how often this one does, and this one's length over the mean length |
| Bm25Model.PublishedForms | src/lending_hub/assistant/retrieval.py:173-178 | the closed forms of the three parts: log((N + 1) / (n + 1/2)), f (k1 + 1) over f + k1 times the factor, and a factor that moves from 1 by the part b of the distance from the mean length |
| Bm25.BM25Index.Score | src/lending_hub/assistant/retrieval.py:275-295 | the score read from the postings is the sum over query terms defined by the chunks alone; an unindexed id is an error |
| Bm25Model.ScoreAdds | src/lending_hub/assistant/retrieval.py:275-295 | a score adds up over the parts of a query, so each occurrence of a term in it counts once |
| Bm25Model.ScorePositive | src/lending_hub/assistant/retrieval.py:288-295 | a chunk scores above zero exactly when it shares a term with the query, so the search's positivity test rejects no candidate |
| Bm25.BM25Index.Candidates | src/lending_hub/assistant/retrieval.py:325-327 | the ids posted under the query's terms are exactly the indexed chunks that share a term with it |
| Bm25.BM25Index.Search | src/lending_hub/assistant/retrieval.py:297-346 | the result is the first k, ranked from 1, of the brute-force ranking: all chunks that pass the filters and share a query term, by falling score then id; k <= 0 is an error |
| Bm25Model.OneRanking | src/lending_hub/assistant/retrieval.py:316-317 | that ranking is unique, so search is deterministic |
| Bm25Model.RankingFalls | src/lending_hub/assistant/retrieval.py:316-317 | scores fall along the ranking and equal scores come in the order of their ids |
| Strings.FirstDifferenceDecides | src/lending_hub/assistant/retrieval.py:316-317 | ids are ordered as in a dictionary: the first difference decides, and a prefix comes first |
| Bm25Model.HeadingsAreIndexed | src/lending_hub/assistant/retrieval.py:211-246 | for a tokenizer that splits at newlines and at the trail mark, a chunk is indexed under the terms of every heading over it followed by those of its text |
| Bm25Model.RankedByHeadingOrText | src/lending_hub/assistant/retrieval.py:237-246 | so the ranking behind a search holds exactly the chunks that pass the filters and hold a query term in their text or in a heading over it |
| Fusion.Fuse | src/lending_hub/assistant/retrieval.py:349-400 | the result is the first k of all ids of all legs with their sums of 1/(rrf_k + position), by falling sum then id, each with its first-seen chunk and exactly the legs that found it; the three argument errors in order |
| FusionLaws.OneFusion | src/lending_hub/assistant/retrieval.py:391 | the fused order is unique |
| FusionLaws.FusedHitsDistinct | src/lending_hub/assistant/retrieval.py:391-400 | fused hits have distinct ids, at most k of them, in falling score order with ties by id |
| FusionLaws.AgreementWins | src/lending_hub/assistant/retrieval.py:367-371 | with duplicate-free rankings no longer than rrf_k + 1, a chunk found by both legs scores more than any chunk found by one |
| FusionLaws.AgreementComesFirst | src/lending_hub/assistant/retrieval.py:367-391 | so in the fused list every chunk of both legs precedes every chunk of one |
| FusionLaws.DeepAgreementTies | src/lending_hub/assistant/retrieval.py:367-371 | agreement one rank deeper than that only ties with the top of a single leg |
| FusionLaws.AgreementBound | src/lending_hub/assistant/retrieval.py:367-371 | for every rrf_k, agreement wins in all duplicate-free rankings of at most n hits exactly when n <= rrf_k + 1 |
| FusionLaws.MovingUpScoresMore | src/lending_hub/assistant/retrieval.py:357-363 | moving a chunk up in one duplicate-free ranking, the others unchanged, raises its score strictly |
| FusionLaws.LegOrderIrrelevant | src/lending_hub/assistant/retrieval.py:384-389 | a chunk's sum is the same for every order of the legs |
| FusionLaws.FusionForgetsLegOrder | src/lending_hub/assistant/retrieval.py:384-400 | legs that agree on their chunks give the same fused hits in every order |
| Hybrid.SearchDense | src/lending_hub/assistant/retrieval.py:431-446 | the dense leg keeps, in order and with their store ranks, exactly the answers that name an eligible chunk |
| Hybrid.RerankedHits | src/lending_hub/assistant/retrieval.py:562-577 | reranking is a reordering by falling score, ties by id, ranked from 1: same number, no id repeated, every hit a fused hit with its legs under its new score |
| Hybrid.IndexDense | src/lending_hub/assistant/retrieval.py:421-429 | every pair of chunk and vector up to the shorter list is upserted in order; another number of vectors than chunks is refused after that |
| Hybrid.UpsertsKeepStep | src/lending_hub/assistant/retrieval.py:421-429 | with a model that embeds each text on its own, a store that holds exactly the embeddings of the indexed chunks still does after any batch, repeats and replacements included |
| Hybrid.HybridRetriever.Index | src/lending_hub/assistant/retrieval.py:498-503 | indexing replays the same chunks into the lexical index, the retriever's own map and, when bound, the vector store; a refused batch is already in the first two |
| Hybrid.HybridRetriever.Retrieve | src/lending_hub/assistant/retrieval.py:505-586 | the exact outcome (legs, fusion, reranking, errors), and for any answers of the store and the reranker: distinct hits, at most k, each indexed, in force on the day and inside the filters; every store answer for such a chunk and every lexical result down to the depth is fused, and is a hit when at most k are; each hit names the legs that found it, among those used |
| Hybrid.AgreementLeadsRetrieval | src/lending_hub/assistant/retrieval.py:517-520 | down to depth 61 and with a store that repeats no chunk and answers with at most that many, whatever both legs found precedes whatever one leg found |
| Serving.EveryHitIsInForce | src/lending_hub/assistant/retrieval.py:505-547 | when the index holds chunks of registered documents, every hit's document is in the registry's effective list for that day, product and language |
| Serving.AcceptedHitIsInForce | src/lending_hub/assistant/retrieval.py:541-547 | even for chunks cut from a resubmission with other tags, the hit's document is in force on the day |
| Serving.AcceptedHitFilters | src/lending_hub/assistant/retrieval.py:541-547 | for such chunks every optional product and language filter agrees with the registry exactly when the registered document has the chunk's language and all its tags |
| Serving.RegisteredChunksTrace | src/lending_hub/assistant/chunking.py:352-373 | chunks cut from a registered document carry the fields of the document under their citation key |
| Serving.IndexedTraces | src/lending_hub/assistant/retrieval.py:226-228 | indexing such chunks, in any order and with re-adds, keeps every indexed chunk traceable |
| Serving.LaterIngestionKeepsTraces | src/lending_hub/assistant/registry.py:253-275 | later ingestion, accepted or refused, never cuts an indexed chunk off from its document |
| Serving.CorpusIdsDiffer | src/lending_hub/assistant/chunking.py:380-401 | chunks of two documents share an id only if the documents share a citation key, and then only at the same ordinal |
| Registry.NewDocument | src/lending_hub/assistant/registry.py:130-169 | a document is built exactly when it has an id, a title, an owner, a date, a window that does not end before it begins, a version and a text; it then has every field as given and is in force on its first day; each refusal names what is wrong |
| Registry.CitationKeysDiffer | src/lending_hub/assistant/registry.py:187-195 | two versions of a document have different citation keys, and so have any two documents whose versions hold no '@' |
| Registry.SameContent | src/lending_hub/assistant/registry.py:197-216 | the hash covers the id, the version, both dates and the text and nothing else |
| Registry.HandoverDay | src/lending_hub/assistant/registry.py:171-184 | a circular and its successor leave no day uncovered and none covered twice exactly when the successor starts the day after the first ends |
| Registry.DocumentRegistry.Ingest | src/lending_hub/assistant/registry.py:253-272 | accepted exactly when the key is new or stands for the same hash; the registry grows by that document or does not change; the result is what the key stands for |
| Registry.DocumentRegistry.IngestAll | src/lending_hub/assistant/registry.py:274-275 | a batch stops at the first refusal, keeping what came before it; on success each result is what its key stands for |
| Registry.KeysAreKept | src/lending_hub/assistant/registry.py:253-272 | once registered, a citation key stands for the same document through every later batch |
| Registry.BatchContents | src/lending_hub/assistant/registry.py:253-275 | after an accepted batch every submitted key stands for the submitted content, and every new key came from the batch |
| Registry.BatchAccepted | src/lending_hub/assistant/registry.py:253-275 | with an injective hash a batch is accepted exactly when no key stands for two contents, so acceptance does not depend on order |
| Registry.ResubmittedTagsAreDropped | src/lending_hub/assistant/registry.py:197-216 | a resubmission that changes only tags is accepted and leaves the old tags registered |
| Registry.DocumentRegistry.Effective | src/lending_hub/assistant/registry.py:303-337 | the result lists exactly the registered documents in force on the day that pass the kind, product and language filters, in strictly ascending citation-key order |
| Registry.ListedExactly | src/lending_hub/assistant/registry.py:303-337 | listed are the registered documents that begin on or before the day, do not end before it, and have the kind, tag and language asked for, where one is |
| Registry.OneListing | src/lending_hub/assistant/registry.py:250-251 | that listing is unique |
| Blocks.PathAfter | src/lending_hub/assistant/chunking.py:201-202 | after a heading the trail is no longer than the heading's level |
| Blocks.Flush | src/lending_hub/assistant/chunking.py:185-191 | flushing turns the buffer into the next block and leaves the rest of the parse unchanged |
| Blocks.ParseBlocks | src/lending_hub/assistant/chunking.py:172-236 | the state machine gives the rendered segments of the reference parse: blanks separate, headings stand alone, maximal runs of one kind group |
| Blocks.BlocksKeepLines | src/lending_hub/assistant/chunking.py:193-236 | the blocks hold every non-blank line exactly once, in order |
| Blocks.TranscriptOf | src/lending_hub/assistant/chunking.py:172-236 | the parse is a transcript: each block's text splits at newlines into lines, and those, block after block, are the document's non-blank lines, each but for white space at its ends |
| Blocks.LineInBlock | src/lending_hub/assistant/chunking.py:172-236 | each line that is not blank stands in the text of a block of its kind: rows in tables, items in lists, plain lines in paragraphs |
| Blocks.RunIsOneBlock | src/lending_hub/assistant/chunking.py:206-233 | each maximal run of table rows (or list items, or plain lines) is exactly one block, at its place, under the trail of the headings before it |
| Blocks.BlockIsOneRun | src/lending_hub/assistant/chunking.py:206-233 | conversely each block that is not a heading is such a maximal run |
| HeadingTrail.EnclosingStep | src/lending_hub/assistant/chunking.py:197-202 | a heading closes exactly the enclosing headings that are no shallower, and opens itself |
| HeadingTrail.TrailStep | src/lending_hub/assistant/chunking.py:197-202 | from a trail that is the chain of enclosing headings, one more heading keeps it so exactly when no heading the cut keeps is as deep as it |
| HeadingTrail.TrailIsEnclosing | src/lending_hub/assistant/chunking.py:172-202 | the trail is the chain of enclosing headings all along exactly when every heading closes cleanly |
| HeadingTrail.UnskippedLevels | src/lending_hub/assistant/chunking.py:172-202 | when levels are never skipped the enclosing headings have levels 1, 2, ... up to the last heading's |
| HeadingTrail.UnskippedTrail | src/lending_hub/assistant/chunking.py:172-202 | when levels are never skipped the trail is the chain of enclosing headings |
| HeadingTrail.BlockTrail | src/lending_hub/assistant/chunking.py:172-202 | in such a document every block of body lines carries exactly the headings that enclose its first line |
| HeadingTrail.SkippedLevelKeepsClosedHeading | src/lending_hub/assistant/chunking.py:201-202 | H1, H3, H3 keeps the first H3 in the second one's trail |
| Packing.Pack | src/lending_hub/assistant/chunking.py:317-332 | the greedy loop with its running group and count computes the packing |
| Packing.GroupsArePacking | src/lending_hub/assistant/chunking.py:317-332 | the groups concatenate to the items, none is empty, no item inside a group was cut off, and every boundary is a cut |
| Packing.PackingUnique | src/lending_hub/assistant/chunking.py:317-332 | those properties leave one packing |
| Packing.MultiItemWithinLimit | src/lending_hub/assistant/chunking.py:247-250 | a group of two or more items is within the limit |
| Packing.OverLimitAlone | src/lending_hub/assistant/chunking.py:284-289 | an over-limit item is alone in its group, and an over-limit group is one such item |
| Chunking.KeepSentences | src/lending_hub/assistant/chunking.py:252 | the non-blank parts of the sentence split, or the whole text |
| Chunking.SplitParagraph | src/lending_hub/assistant/chunking.py:239-265 | the pieces are the packed sentences, each stripped and joined by a space |
| Chunking.Expand | src/lending_hub/assistant/chunking.py:307-315 | tables and blocks within the budget stay whole, all others become their pieces, in order |
| Chunking.GroupText | src/lending_hub/assistant/chunking.py:336-345 | a group's text is never empty and never changed by stripping, so only groups of headings are dropped |
| Strings.AsciiSpaces | src/lending_hub/assistant/chunking.py:185-219 | of the characters up to the tilde exactly the ten white-space ones are stripped |
| Chunking.ChunkDocument | src/lending_hub/assistant/chunking.py:268-377 | the chunks of the groups that hold more than headings, numbered by group, with every copied field and flag, and the three errors in order |
| Chunking.ChunkingSucceeds | src/lending_hub/assistant/chunking.py:297-377 | chunking succeeds exactly for a valid budget and a document with a line that is neither blank nor a heading |
| Chunking.ChunkingRefuses | src/lending_hub/assistant/chunking.py:297-377 | the refusals, each exactly: a budget that makes no sense, a document of blank lines only, one with headings but no body line |
| ChunkLaws.ChunksConserve | src/lending_hub/assistant/chunking.py:334-373 | chunk texts are the group texts, ordinals ascend, and together the chunks hold every unit that is not a heading, once and in order |
| ChunkLaws.TablesSurvive | src/lending_hub/assistant/chunking.py:97-106 | the tables inside the chunks, in order, are exactly the document's tables, each whole |
| ChunkLaws.TableInChunk | src/lending_hub/assistant/chunking.py:284-289 | every table stands whole in the text of some chunk flagged as holding a table |
| ChunkLaws.TableRowInChunk | src/lending_hub/assistant/chunking.py:239-377 | every table row of the document stands in the text of a chunk flagged as holding a table |
| ChunkLaws.LineInChunk | src/lending_hub/assistant/chunking.py:268-377 | every list item and plain line stands in the text of its block, and of a chunk when the block is within the budget |
| ChunkLaws.SentenceInChunk | src/lending_hub/assistant/chunking.py:239-377 | of a block that is split every sentence that is not blank stands in the text of some chunk |
| ChunkLaws.PiecesAreFull | src/lending_hub/assistant/chunking.py:239-265 | the pieces hold the sentences in order; one ends only where its next sentence would overflow the budget, and holds two or more only within it |
| ChunkLaws.ChunkDescribesItself | src/lending_hub/assistant/chunking.py:333-375 | a chunk's size, over and under flags, table flag, heading trail and document hash are those of its text, its units and its document |
| ChunkLaws.OversizeChunk | src/lending_hub/assistant/chunking.py:247-250 | a chunk over the budget is a single unit: a table, or one sentence longer than the budget |
| ChunkLaws.LongSentenceChunk | src/lending_hub/assistant/chunking.py:247-250 | a paragraph or list with such a sentence always makes an over-budget chunk without a table |
| ChunkLaws.OversizeMeansTable | src/lending_hub/assistant/chunking.py:424-430 | every over-budget chunk holds a table exactly when no over-long paragraph or list has a sentence over the budget |
| ChunkLaws.ChunkBoundaries | src/lending_hub/assistant/chunking.py:290-332 | inside a chunk a heading comes only below the floor; a chunk ends only at a heading past the floor or where the next unit would overflow |
| ChunkLaws.ChunkIdsDiffer | src/lending_hub/assistant/chunking.py:380-390 | the chunk ids of a document are pairwise distinct, whatever the digest |
| ChunkLaws.ChunkIdNamesDocument | src/lending_hub/assistant/chunking.py:380-390 | for digests without '#', a chunk id determines its citation key and ordinal |
| Strings.Pad3Width | src/lending_hub/assistant/chunking.py:380-390 | ordinals are written with three digits, and with more only from 1000 on |
| ChunkLaws.ChunksInherit | src/lending_hub/assistant/chunking.py:352-373 | every chunk carries its document's id, version, key, kind, owner, language, dates and tags |
| ChunkLaws.InheritedWindow | src/lending_hub/assistant/chunking.py:152-165 | a chunk is in force on a day exactly when its document is |
| Gini.SquaresIdentity | src/lending_hub/agri/crop.py:250-254 | cross-multiplied, the split's squared counts exceed the parent's by exactly the disproportion of its sides |
| Gini.GainFormula | src/lending_hub/agri/crop.py:301-306 | the gain times its common denominator is the sum over classes of (R*l - L*r)^2 |
| Gini.GainNonNegative | src/lending_hub/agri/crop.py:301-312 | no split has negative gain; it is zero exactly when both sides have the same class proportions |
| CropTree.CountsTotal | src/lending_hub/agri/crop.py:269-271 | class counts add up to the sample size |
| CropTree.SplitGainNonNegative | src/lending_hub/agri/crop.py:298-306 | no admissible split loses purity, and it gains none exactly when its sides have the same frequencies |
| CropTree.SomeMidpoint | src/lending_hub/agri/crop.py:286-290 | every threshold with rows on both sides splits exactly as some candidate midpoint does |
| CropTree.MidpointSplits | src/lending_hub/agri/crop.py:286-290 | every candidate midpoint has rows on both sides |
| CropTree.SplitCounts | src/lending_hub/agri/crop.py:291-297 | the count-updating loop gives the class counts of both sides |
| CropTree.ScanFeature | src/lending_hub/agri/crop.py:286-308 | scanning one feature keeps the best split so far and covers every real threshold on it |
| CropTree.BestSplit | src/lending_hub/agri/crop.py:282-308 | no admissible threshold on any drawn feature gains more than the chosen split, and of equally good ones it is the first: first drawn feature, then first midpoint |
| CropTree.OneBestSplit | src/lending_hub/agri/crop.py:307-308 | so the drawn features determine the split |
| CropTree.DrawFeatures | src/lending_hub/agri/crop.py:281 | a draw without replacement of the requested number of features, or of all of them |
| CropTree.Partition | src/lending_hub/agri/crop.py:315-322 | the rows of each side, in order |
| CropTree.BuildTree | src/lending_hub/agri/crop.py:257-339 | the recursive builder returns a tree that some sequence of draws grows |
| CropTree.LeafHasCause | src/lending_hub/agri/crop.py:273-338 | the builder gives up only for cause: in a tree grown from the rows, a leaf above the depth limit that gets rows enough for two leaves and of two classes comes with a draw on which no threshold that leaves enough rows on both sides gains anything |
| CropTree.NodeHasCause | src/lending_hub/agri/crop.py:279-338 | it splits only for cause as well: above the depth limit, leaving enough rows on both sides, halfway between two neighbouring values of the rows, with a positive gain that is the largest some draw offers |
| CropTree.TreePredict | src/lending_hub/agri/crop.py:342-345 | the loop follows the row's turns to its leaf |
| CropTree.PredictionFollowsTurns | src/lending_hub/agri/crop.py:342-346 | prediction is the leaf at the end of the row's turns, left at a node exactly when the value is at most the threshold |
| CropTree.LeafIsTrainingFrequency | src/lending_hub/agri/crop.py:257-345 | the leaf a row reaches holds exactly the class frequencies of the training rows routed there; off the root there are at least min_samples_leaf of them |
| CropTree.HeightBound | src/lending_hub/agri/crop.py:273-338 | depth never exceeds max_depth |
| CropTree.HeightIsLongest | src/lending_hub/agri/crop.py:257-339 | the height bounded by the depth limit is the number of turns on a longest way down |
| CropTree.FrequenciesAreDistribution | src/lending_hub/agri/crop.py:278-279 | a leaf's distribution is non-negative and sums to 1 |
| CropTree.ChosenLowersImpurity | src/lending_hub/agri/crop.py:310-339 | a taken split lowers the row-weighted impurity strictly |
| CropTree.ImpurityDecreases | src/lending_hub/agri/crop.py:257-339 | row-weighted impurity over the leaves is at most the root's, and strictly below it when the tree splits |
| CropForest.GrownVotesDistribution | src/lending_hub/agri/crop.py:342-381 | every tree the builder can return votes a probability distribution on every complete row |
| CropForest.AverageIsDistribution | src/lending_hub/agri/crop.py:363-381 | averaging distributions over the trees gives a distribution |
| CropForest.AveragedIsMean | src/lending_hub/agri/crop.py:363-381 | the vote for a class is the mean of what all the trees say of it |
| CropForest.Probabilities | src/lending_hub/agri/crop.py:363-381 | the averaged vote, calibrated unless the temperature is 1; a missing feature is the only error |
| CropForest.ScaledIsDistribution | src/lending_hub/agri/crop.py:476-485 | calibrated probabilities sum to 1 and are non-negative |
| Calibration.TemperatureDividesLogOdds | src/lending_hub/agri/crop.py:363-391 | between two classes above the floor the forest's temperature divides the difference of the logarithms of the averaged vote |
| CropForest.ScaledKeepsOrder | src/lending_hub/agri/crop.py:476-485 | calibration keeps the order of the classes, strictly above the floor |
| CropForest.CalibrationKeepsCrop | src/lending_hub/agri/crop.py:476-485 | calibration never changes the first-largest class when that class is above the floor |
| CropForest.WinnerAboveFloor | src/lending_hub/agri/crop.py:480-485 | in a distribution over fewer than 10^12 classes the winner is above the floor |
| CropForest.ArgMax | src/lending_hub/agri/crop.py:383-391 | the first of the largest entries |
| CropForest.Predict | src/lending_hub/agri/crop.py:383-391 | the prediction is the calibrated vote with its first largest class and that class's share |
| CropForest.PredictedIsFavourite | src/lending_hub/agri/crop.py:363-391 | the predicted crop is the first favourite of the uncalibrated vote at every temperature, and what is shown with it is a distribution |
| CropForest.TemperatureOnlyAbstains | src/lending_hub/agri/crop.py:395-417 | two temperatures never name different crops: the labels differ exactly when one of them falls below the threshold and the other does not |
| CropForest.HotterIsNoSurer | src/lending_hub/agri/crop.py:476-485 | a higher temperature never raises the share of the favourite |
| CropForest.FitTemperature | src/lending_hub/agri/crop.py:488-547 | succeeds exactly for matching, known labels and complete rows, changes only the temperature, keeps it in the bounds and within tolerance/2 of the minimiser of the mean negative log likelihood of the labels under the forest's own votes for the rows, when that is unimodal |
| GoldenSection.ShrinkRight | src/lending_hub/agri/crop.py:533-536 | dropping the right part, the old left probe is the new right probe and the width shrinks by g |
| GoldenSection.ShrinkLeft | src/lending_hub/agri/crop.py:537-540 | dropping the left part, the old right probe is the new left probe and the width shrinks by g |
| GoldenSection.MinimiserKept | src/lending_hub/agri/crop.py:532-540 | comparing the probes never discards the minimiser of a unimodal function |
| GoldenSection.EnoughSteps | src/lending_hub/agri/crop.py:532 | some number of steps brings any width within any positive tolerance |
| GoldenSection.Minimise | src/lending_hub/agri/crop.py:528-547 | one evaluation per step keeps both cached values current; the loop stops at the first step within tolerance and its midpoint is within tolerance/2 of a unimodal minimiser |
| Calibration.ShareIsInverse | src/lending_hub/agri/crop.py:476-485 | the calibrated share of a class is one over the sum of the odds of all classes against it |
| Calibration.RowLossConvex | src/lending_hub/agri/crop.py:519-525 | a row's negative log likelihood without the floor is convex in 1/T, strictly when its classes are not all equally likely |
| Calibration.FloorBetween | src/lending_hub/agri/crop.py:519-525 | shares that clear the floor at two temperatures clear it at every temperature between them |
| Calibration.BestIsUnimodal | src/lending_hub/agri/crop.py:503-526 | when every target's share clears the floor at both bounds and some row is telling, the objective falls strictly to a best temperature and rises strictly after it, so the search ends within tolerance/2 of it |
| Calibration.FloorBreaksUnimodality | src/lending_hub/agri/crop.py:503-526 | two rows for which the objective is unimodal about no temperature, within any bounds that include 1/2 and 2 |
| Geometry.NewPolygon | src/lending_hub/agri/geometry.py:79-103 | a polygon is built exactly from three or more vertices, stored open, not all of them within 180 of the origin on both axes |
| Geometry.ShoelaceTotal | src/lending_hub/agri/geometry.py:104-112 | the accumulator loop gives the shoelace sum of the closed ring |
| Geometry.ReverseNegatesArea | src/lending_hub/agri/geometry.py:104-117 | walking a ring backwards negates its signed area and keeps its area |
| Geometry.TranslationInvariance | src/lending_hub/agri/geometry.py:104-112 | moving every vertex by one vector leaves the signed area unchanged |
| Geometry.Oriented | src/lending_hub/agri/geometry.py:195-197 | the clipper is turned to non-negative signed area without changing its area |
| Geometry.ClipAgainstEdge | src/lending_hub/agri/geometry.py:204-232 | one pass of the inner loop |
| Geometry.Clip | src/lending_hub/agri/geometry.py:190-234 | all passes, with the early exit on an empty ring |
| Geometry.IntersectOnLine | src/lending_hub/agri/geometry.py:209-220 | away from the escape the formula gives the point of the segment on the clipping line |
| Geometry.ResultInsideHull | src/lending_hub/agri/geometry.py:190-234 | any half-plane, open or closed, that contains the whole subject contains the whole result |
| Geometry.ResultInsideClipper | src/lending_hub/agri/geometry.py:204-234 | every result vertex is inside every edge of the counter-clockwise clipper up to one 1e-12 tolerance; the slack does not accumulate |
| Geometry.InsideVertexSurvives | src/lending_hub/agri/geometry.py:190-234 | a subject vertex inside every clipper edge survives |
| Geometry.ContainedIsUntouched | src/lending_hub/agri/geometry.py:190-234 | a subject wholly inside is returned unchanged |
| Geometry.SeparatedIsEmpty | src/lending_hub/agri/geometry.py:190-234 | a subject wholly beyond one edge leaves nothing |
| ClipArea.ClipEdgeRing | src/lending_hub/agri/geometry.py:204-232 | from any origin the clipped ring's shoelace sum is that of the kept part of every edge plus the chords that close the excursions |
| ClipArea.ClippingSplitsArea | src/lending_hub/agri/geometry.py:204-232 | for every ring, clipping by an edge and by its reverse gives signed areas that exceed the whole by exactly half the slivers, so the area is conserved exactly when the slivers cancel |
| ClipArea.ChordStart | src/lending_hub/agri/geometry.py:221-231 | every chord runs from the hit of the edge that left to the hit of the edge that enters |
| ClipArea.DeficitBound | src/lending_hub/agri/geometry.py:213-214 | the area gained or lost is at most half of 1e-12 times the parameters on the clipping line of the ends of the escaped hits |
| ClipArea.NoEscapeSplits | src/lending_hub/agri/geometry.py:204-232 | without an escape the area is conserved exactly |
| Geometry.IntersectionArea | src/lending_hub/agri/geometry.py:237-258 | the loop gives the area of the clipped ring, 0 below three vertices |
| Geometry.IouShare | src/lending_hub/agri/geometry.py:261-273 | the ratio times the summed areas is the overlap times one plus the ratio; refused exactly when the areas do not exceed the overlap |
| Geometry.ContainedOverlap | src/lending_hub/agri/geometry.py:237-273 | a contained polygon overlaps with its whole area, so the IoU is the area ratio |
| Geometry.ConvexSelfOverlap | src/lending_hub/agri/geometry.py:261-273 | a convex polygon has IoU 1 with itself |
| Geometry.SeparatedOverlap | src/lending_hub/agri/geometry.py:261-273 | separated polygons have overlap and IoU 0 |
| OverlapLoss.ClippingLeaves | src/lending_hub/agri/geometry.py:190-234 | after any number of passes the signed area left is the subject's less what each pass removed beyond its edge, slivers accounted for |
| ConvexClip.ClippingKeepsConvex | src/lending_hub/agri/geometry.py:190-234 | clipping a convex ring, in either direction and escapes included, leaves a convex ring, no larger after more passes |
| ConvexClip.ConvexNeverOverReports | src/lending_hub/agri/geometry.py:237-258 | the overlap of a convex subject never exceeds its own area, whatever the clipper |
| ConvexClip.PassLoses | src/lending_hub/agri/geometry.py:204-232 | a pass that lifts a convex ring with area off its depth over any line costs it area |
| ConvexClip.ConvexOverlapIsWhole | src/lending_hub/agri/geometry.py:237-258 | for a convex subject whose outline crosses no clipper edge with an escape, the overlap is its whole area exactly when every vertex is inside every edge of the clipper, convex or concave |
| ConvexClip.WholeOverlapIsNearlyInside | src/lending_hub/agri/geometry.py:237-258 | with escapes too: a convex subject reported as wholly overlapped is inside every edge up to 1e-12 |
| ConvexClip.ConvexSelfIou | src/lending_hub/agri/geometry.py:261-273 | a convex polygon with area, in either direction, is inside its own edges and has IoU 1 with itself |
| ClipRegion.PassKeepsPoint | src/lending_hub/agri/geometry.py:204-232 | a pass without an escape keeps every point of a convex ring that is on the inner side |
| ClipRegion.RegionInHull | src/lending_hub/agri/geometry.py:204-234 | a ring with area reaches as low over any line as any point inside all its edges |
| ClipRegion.ClippedIsIntersection | src/lending_hub/agri/geometry.py:237-258 | for a convex subject and a run without escapes, a result with area holds exactly the points of the subject inside every edge of the clipper |
| OverlapLoss.EscapeHidesOverhang | src/lending_hub/agri/geometry.py:213-214 | an accepted convex field with a corner outside a square is reported as wholly overlapped: the condition on escapes is needed |
| OverlapLoss.HalvesExceedWhole | src/lending_hub/agri/geometry.py:213-214 | three accepted polygons: a field whose overlaps with two squares that share only an edge exceed the field's area |
| OverlapLoss.ConcaveClipperUnderReports | src/lending_hub/agri/geometry.py:237-258 | accepted polygons, a convex one and a concave one inside it: the overlap is exact in one order and half in the other |
| OverlapLoss.ConcaveSelfOverlap | src/lending_hub/agri/geometry.py:261-273 | an accepted concave polygon has IoU 1/3 with itself |
| Drought.LogLogisticFit | src/lending_hub/agri/drought.py:209-257 | the moment loop and its guards compute the fit |
| Drought.WeightsTotal | src/lending_hub/agri/drought.py:223-233 | the unbiased weights of the three moments add up to n, n/2 and n/3 |
| Drought.FitMatchesMoments | src/lending_hub/agri/drought.py:223-257 | the fit has the sample's mean and second L-moment, and its shape is their ratio to the guarded spread |
| Drought.AffineMoment | src/lending_hub/agri/drought.py:223-233 | rescaling and shifting a sample rescales and shifts its moments by 1, 1/2 and 1/3 of the shift |
| Drought.AffineSpread | src/lending_hub/agri/drought.py:235-236 | the guarded spread scales with the sample, so the absolute guard is not scale-free |
| Drought.AffineFit | src/lending_hub/agri/drought.py:235-257 | beta is unchanged, alpha scales, the location scales and shifts, errors carry over |
| Drought.FitFollowsSample | src/lending_hub/agri/drought.py:209-257 | a month's fit follows its sample through rescaling and shifting exactly when the spread guard decides both alike |
| Drought.FitScalePositive | src/lending_hub/agri/drought.py:262-263 | every fit that passes has beta > 1 and a positive scale, so the CDF's own scale guard never fires |
| Drought.GapCoversSpread | src/lending_hub/agri/drought.py:223-242 | the third sample L-moment never exceeds the second, and equals it exactly when all values but the largest are equal |
| Drought.FitExists | src/lending_hub/agri/drought.py:219-251 | a fit exists exactly for at least four values, a third L-moment of at least the guard, and not all values but the largest equal; which message the others get |
| Drought.OneDryYearRefused | src/lending_hub/agri/drought.py:242-251 | one year below an otherwise level record is refused for its shape, however many years there are |
| Drought.CdfInvariant | src/lending_hub/agri/drought.py:260-267 | the fitted probability does not change when data and fit are rescaled and shifted together |
| Drought.CdfOdds | src/lending_hub/agri/drought.py:260-267 | the log-logistic odds: the chance of more is (alpha / (x - loc))^beta times the chance of at most x, which is zero exactly at or below the location |
| Drought.CdfMonotone | src/lending_hub/agri/drought.py:260-267 | the CDF never falls as the accumulation rises |
| Drought.StandardiseMonotone | src/lending_hub/agri/drought.py:482-485 | the clipped standard deviate never falls as the probability rises |
| Drought.StandardiseExactly | src/lending_hub/agri/drought.py:482-485 | the normal quantile of the probability kept 10^-10 inside its ends, itself kept within 3.09 |
| Spei.Accumulate | src/lending_hub/agri/drought.py:337-353 | rolling sums aligned to the ending month, nothing for an incomplete window; a timescale below 1 is an error |
| Spei.CalendarMonthSlices | src/lending_hub/agri/drought.py:356-366 | each calendar month holds exactly its accumulations, in time order |
| Spei.Spei | src/lending_hub/agri/drought.py:427-479 | the whole computation: accumulation, grouping, short months, fits in key order, one index per full window |
| Spei.IndexReadsOwnYears | src/lending_hub/agri/drought.py:356-366 | every index is fitted on exactly the accumulations whole years away, in time order; the months are 1 to 12, follow one another and begin with the first |
| Spei.ShortExactly | src/lending_hub/agri/drought.py:450-461 | the record is refused as short exactly when some position has fewer accumulations whole years away than required |
| Spei.RollingRelated | src/lending_hub/agri/drought.py:337-353 | rescaling and shifting the balance rescales the accumulations and shifts them by timescale times the shift |
| Spei.SpeiExists | src/lending_hub/agri/drought.py:450-479 | an index exists exactly when every calendar month that occurs has enough values and a sample that can be fitted |
| Spei.SpeiInvariance | src/lending_hub/agri/drought.py:450-479 | an index that exists is unchanged by rescaling and shifting exactly when every month's rescaled sample clears the spread guard |
| Spei.ComparableAcrossPlaces | src/lending_hub/agri/drought.py:427-479 | the same over the precipitation and evapotranspiration series themselves |
| Spei.SomeUnitsLoseTheIndex | src/lending_hub/agri/drought.py:235-240 | for every index that covers a month some rescaling fails the guard |
| Spei.SpeiMonotone | src/lending_hub/agri/drought.py:463-479 | within a calendar month the index never falls as the accumulation rises |
| BoxMean.TableIsBlock | tools/train_crop.py:169-170 | a table entry is the total of everything above and to the left |
| BoxMean.CornersGiveBlock | tools/train_crop.py:172-178 | four corners give the block between them |
| BoxMean.FastEqualsNaive | tools/train_crop.py:161-179 | at every pixel and radius the four-lookup mean is the mean of the edge-clamped window |
| BoxMean.ScatterSign | tools/train_crop.py:155-156 | n times the sum of squares is at least the square of the sum, with equality exactly for constant values |
| BoxMean.VarianceNonNegative | tools/train_crop.py:149-156 | the mean of squares is never below the square of the mean, so the clamp at 0 does nothing; equality exactly on a constant window |
| YieldModel.DownscaleSucceeds | src/lending_hub/agri/yield_model.py:284-339 | downscaling a valid district figure never trips the constructor, and the factor is within 1 plus or minus the cap |
| YieldModel.DownscaleMonotone | src/lending_hub/agri/yield_model.py:284-339 | a greener plot is never allocated less, at any of the three quantiles |
| YieldModel.PercentileMonotone | src/lending_hub/agri/yield_model.py:284-339 | a greener plot never ranks lower |
| YieldModel.CountsArePositions | src/lending_hub/agri/yield_model.py:318-320 | the two counts behind a percentile are the numbers of positions with a smaller and with an equal value |
| YieldModel.RanksTotal | src/lending_hub/agri/yield_model.py:284-339 | over a population ranked against itself, ties included, twice the mid-ranks total n squared |
| YieldModel.DownscalingConserves | src/lending_hub/agri/yield_model.py:284-339 | over the district's own n plots the factors sum to n |
| YieldModel.AllocationTotal | src/lending_hub/agri/yield_model.py:284-339 | at each of the three quantiles the plot figures handed out total n times the district figure |
| YieldModel.MiddleIsUnchanged | src/lending_hub/agri/yield_model.py:284-339 | a plot with as many of the district's plots below it as above takes the district's figure unchanged |
| YieldModel.FactorByPlaces | src/lending_hub/agri/yield_model.py:284-339 | of two plots with as many ties, the one d places higher takes 2 cap d / n more of the figure |
| YieldModel.DownscaleRefuses | src/lending_hub/agri/yield_model.py:284-339 | a valid figure is refused exactly for an empty list, a plot reading or a cap out of range |
| YieldModel.QuantileIsNearestRank | src/lending_hub/agri/yield_model.py:276-281 | the quantile is the value at which the cumulative share first reaches q |
| YieldModel.QuantileMonotone | src/lending_hub/agri/yield_model.py:276-281 | quantiles never fall as q rises |
| YieldModel.PredictionContract | src/lending_hub/agri/yield_model.py:178-206 | a fitted model always predicts P50 >= P25 >= P10 >= 0, and so does every plot figure downscaled from it |
| YieldModel.PredictionQuantiles | src/lending_hub/agri/yield_model.py:170-206 | the three figures are the fitted line plus the residual at which the cumulative share first reaches a half, a quarter and a tenth, floored at zero |
| YieldModel.CentreIsAffine | src/lending_hub/agri/yield_model.py:170-176 | the line passes through the intercept and rises by its two coefficients |
| YieldModel.PredictionRefuses | src/lending_hub/agri/yield_model.py:178-206 | a fitted model refuses exactly the readings out of range |
| DecisionRecord.Checked | src/lending_hub/decisionlog/record.py:103-115 | a record is built exactly with a policy version, with models when a model decided and with an override when a human did |
| DecisionRecord.ToDictInjective | src/lending_hub/decisionlog/record.py:117-139 | different records have different dictionaries |
| DecisionRecord.StoredNames | src/lending_hub/decisionlog/record.py:25-40 | each outcome and each decider is stored under its own name and no other |
| DecisionRecord.StoredModels | src/lending_hub/decisionlog/record.py:44-58 | every stored model reference carries each of its fields under that field's name |
| DecisionRecord.StoredReasons | src/lending_hub/decisionlog/record.py:62-75 | every stored reason carries its code, contribution and source, null exactly without a contribution |
| DecisionRecord.ContentHashCoversEverything | src/lending_hub/decisionlog/record.py:141-150 | the content hash determines every field, prev_hash included |
| DecisionLog.Log.constructor | src/lending_hub/decisionlog/store.py:35-47 | opening takes the file's tail hash |
| DecisionLog.Log.Append | src/lending_hub/decisionlog/store.py:49-61 | appending writes the record chained to the handle's last hash, whatever prev_hash it came with, and the last hash becomes the file's tail; re-chaining refuses no record that could be built |
| DecisionLog.Log.Verify | src/lending_hub/decisionlog/store.py:69-90 | verify accepts exactly the intact logs, and broken_at is the first index at which the prefix stops verifying, with the right diagnosis |
| DecisionLog.RunVerifies | src/lending_hub/decisionlog/store.py:35-90 | every run of appends with reopens anywhere leaves a log that verifies, an in-memory hash equal to the tail, and the records appended |
| DecisionLog.AppendKeepsIntact | src/lending_hub/decisionlog/store.py:49-61 | appending keeps an intact log intact exactly when the handle's last hash is the file's tail |
| DecisionLog.StaleHandleBreaksChain | src/lending_hub/decisionlog/store.py:35-61 | an append through a handle opened before another append breaks the chain |
| DecisionLog.TruncationVerifies | src/lending_hub/decisionlog/store.py:69-90 | every prefix of a log that verifies verifies |
| DecisionLog.SharedHashSharedHistory | src/lending_hub/decisionlog/store.py:69-90 | two verifying logs that share a stored hash anywhere agree record for record up to there |
| DecisionLog.TailDeterminesLog | src/lending_hub/decisionlog/store.py:69-90 | two verifying logs with the same tail hash are identical |
| DecisionLog.RemovalDetected | src/lending_hub/decisionlog/store.py:69-90 | removing a block is reported exactly when a record after it remains |
| DecisionLog.EditDetected | src/lending_hub/decisionlog/store.py:69-90 | replacing a record is reported unless it is the last and the replacement is itself well chained |
| DecisionLog.OnlyPrefixesVerify | src/lending_hub/decisionlog/store.py:69-90 | of all logs put together from an intact log's entries, by removing, repeating, reordering or inserting them, exactly its prefixes verify |
| DecisionLog.ReorderDetected | src/lending_hub/decisionlog/store.py:69-90 | swapping any two records is always reported |
| Answer.SplitSentences | src/lending_hub/assistant/answer.py:311-352 | the loop that rewrites merged[-1] computes one left-to-right rule for sentence breaks |
| Answer.SentencesFlatten | src/lending_hub/assistant/answer.py:328-352 | splitting loses, duplicates and reorders nothing |
| Answer.NoLeadingMarks | src/lending_hub/assistant/answer.py:332-351 | no sentence after the first starts with a citation marker |
| Answer.Validate | src/lending_hub/assistant/answer.py:418-505 | keeps, in order, exactly the sentences with no numeric claim or with a resolving citation or allowed tool; hands off exactly when none is left; the constructor's check never fires |
| Answer.VerdictByTokens | src/lending_hub/assistant/answer.py:455-482 | a sentence is kept exactly when it claims no number or one of its tokens carries a resolving citation or an allowed tool; dropped as uncited exactly when it claims one and no token carries either |
| Answer.ShownIsBacked | src/lending_hub/assistant/answer.py:455-505 | no number is shown unbacked: the shown sentences are exactly the text's sentences that claim none or hold a backing token |
| Answer.ValidationIsIdempotent | src/lending_hub/assistant/answer.py:418-505 | re-validating the shown text splits it into the same sentences and keeps them all |
| Answer.SuffixIsNotAbbreviation | src/lending_hub/assistant/answer.py:139 | "years." passes the abbreviation test without being one |
| Answer.BreakAfterWord | src/lending_hub/assistant/answer.py:335-337 | between two words the splitter breaks after terminal punctuation exactly when the suffix test fails |
| Answer.BreakExactly | src/lending_hub/assistant/answer.py:139-141 | a break falls after a word exactly where it ends in an exclamation mark, a question mark or a danda, or in a full stop without ending in an abbreviation |
| Answer.CapitalsAbbreviate | src/lending_hub/assistant/answer.py:335 | an abbreviation counts in any mix of capitals and after any prefix |
| Answer.BorrowedCitation | src/lending_hub/assistant/answer.py:335-337 | a claim ending in "years." joins the next sentence and is kept on its citation |
| Panel.ReadStream | tools/train_survival.py:193-222 | the streaming pass gives each loan's usable rows in order and the fields of its first one, up to the row limit |
| Panel.HistoryIsOwnRows | tools/train_survival.py:193-208 | a history is the months of the loan's own usable rows, all of them, in stream order |
| Panel.FieldsAreFirst | tools/train_survival.py:209-220 | a loan takes its fields from its first usable row |
| Panel.LoansInOrder | tools/train_survival.py:204-225 | loans come once each, in the order of their first usable rows |
| Panel.BuildPanel | tools/train_survival.py:176-292 | one record per observable loan, in order of first appearance; no record at all is an error |
| Panel.PanelExactly | tools/train_survival.py:225-281 | the panel holds one record for each loan that can be observed, its own, and none besides, in the loans' order |
| Panel.ObservableExactly | tools/train_survival.py:228-246 | a loan has a record exactly with three months at or before the observation month, one in the window, a known delinquency before and none that had reached default |
| Panel.NoLookAhead | tools/train_survival.py:228-278 | histories with the same rows up to the observation month, in any order unless two different rows share an age, give the same features; histories with the same months inside the outcome window give the same label and lead |
| Panel.RowOrderIrrelevant | tools/train_survival.py:228-278 | the order of a loan's rows in the file never matters to its record when no age has two different rows |
| Panel.FeaturesObserved | tools/train_survival.py:229-273 | a record has at least three observed months without a default; its worst delinquency is an observed one, bounds the last and the mean, and is at least 1 exactly when some month was late |
| Panel.DelinquencyFeatures | tools/train_survival.py:237-271 | the worst is the largest known delinquency up to the observation month, the last a latest known one, the trend that minus an earliest known one |
| Panel.MeanOfKnown | tools/train_survival.py:268 | the mean is taken over all known delinquencies up to the observation month, in any order |
| Panel.MeanOfConstant | tools/train_survival.py:268 | the mean of equal values is that value |
| Panel.MeanMoves | tools/train_survival.py:268 | raising one of n values by d raises the mean by d / n |
| Panel.BalanceFeatures | tools/train_survival.py:238-276 | the last balance is a latest known one and the paid fraction the share of an earliest known one that has gone; absent exactly without one, or with a zero first one |
| Panel.LabelAndLead | tools/train_survival.py:248-278 | the label is set exactly when some month after the observation month and within the horizon is at or past default; a lead is the earliest such month's offset, between 1 and the horizon |
| Panel.LeadMatchesLabel | tools/train_survival.py:250-278 | label and lead agree exactly when the earliest default is not in month 0, so always for an observation month of at least 0 |
| Panel.LeadCanMissADefault | tools/train_survival.py:278 | a default in month 0 observed from month -1 has a label and no lead |
| Panel.OtherLoansIrrelevant | tools/train_survival.py:197-228 | other loans' rows never reach a loan's record |

## Left out

- Regular expressions and Unicode text rules: lines arrive classified as the patterns classify them, answer tokens arrive with their markers found, and the tokenizer, the sentence pattern and the token counter are parameters. The answer model therefore joins a marker glued to the front of a word with that word.
- Line splitting and whitespace inside sentences: a document's lines and an answer's tokens are taken as already split; answer text is its token sequence, so runs of spaces are not distinguished.
- SHA-256, JSON encoding and file reading and writing: hashes are parameters, injective where a theorem says so, and a stored log is a list of dictionaries.
- Rounding: all arithmetic is over exact reals, so nothing here bounds floating-point error.
- Logarithm, exponential, gamma, power and normal quantile: only order, positivity and log 1 = 0 are used, and for the fitting objective that exponential and logarithm are inverse, the exponential law and its strict convexity.
- Random feature draws: any draw without replacement is allowed; bootstrap sampling of rows and `spot_audit` are not modelled.
- The embedding model and the nearest-neighbour search: a parameter each; the store may answer a query with anything.
- The rendering of leg names: a fused hit carries the set of its legs, not the sorted string.
- `HybridRetriever` reasons and error texts: a degraded result is a flag, and errors are constructors.
- DecisionRecord.ToDictInjective: the record's dictionary has its own field names as an enumeration, with all other names behind one constructor.
- ChunkLaws.OversizeChunk: assumes that token counts add up over joins and ignore outer whitespace, as the shipped counter's do; a subword tokenizer need not.
- Bm25Model.HeadingsAreIndexed: takes the tokenizer to read no term across a newline or the trail mark, as the shipped one, whose terms hold no white space, does.
- Bm25.BM25Index.Candidates: Python's set order is an unspecified order of elements here; the result does not depend on it.
- CropForest.FitTemperature: the bounds are taken to be positive and ordered, as the defaults are; the callers' other choices are not checked by the source.
- CropForest.PredictedIsFavourite: the class set is taken to have fewer than 10^12 crops, the point at which the calibration floor could tie with the winner.
- ClipRegion.ClippedIsIntersection: for convex subjects; what a concave subject loses is accounted for by signed areas alone (`ClippingLeaves`).
- Calibration.BestIsUnimodal: takes a best temperature as given; that there is one needs the continuity of the exponential, which is not assumed.
- Perimeter, compactness, centroid and point containment: separate one-step formulas.
- The SPI leg with its gamma fit, drought frequency and categories; crop phenology, macro-F1 and the complexity verdict: numeric plumbing around the modelled parts.
- Fitting the yield regression: the model starts from fitted coefficients and sorted residuals.
- Registry reports (expired, not yet effective, superseded, conflicts, governance) and `get`: filters over the same listing.
- `budget_report`, `hit_rate_at_k`, `leak_audit`: summaries of results that are modelled.
- Guardrails, templates, generation, training harnesses, the web front end and all other packages: not part of this model.
