# Audit-readiness core, modelled in Dafny

This project models the decision logic of a small SOC 2 audit-readiness service. For each control, the service:

- scores the evidence artifacts linked to it (coverage, freshness, source credibility and a weighted readiness score);
- keeps a history of score snapshots and a list of compliance gaps, open or resolved;
- retrieves the evidence artifacts that best match the control. It uses TF-IDF similarity, embedding similarity, and a fusion of the two rankings.

It then writes an evidence narrative for the control. A language model writes it when one answers. Otherwise the service uses a deterministic fallback report. That report maps each checklist item to the artifacts sharing its keywords.

Two further pieces are modelled:

- the text chunker that cuts uploaded evidence into overlapping windows;
- the precision, recall and reciprocal-rank metrics used to evaluate retrieval.

## Modules

- `Wrappers` holds the `Option` type.
- `Text` holds the Python string operations the core relies on: `split`, `join`, `strip`, `lower`, substring tests, slicing with Python's meaning of a negative bound, and `str()` of an integer.
- `Sorting` is a stable insertion sort. It stands for `sorted` and `list.sort` under a strict order. It also holds the distinctness predicates the other modules share.
- `Entities` holds the rows the core reads: controls, checklist items, artifacts and chunks, with their lookups.
- `Scoring` models `compute_scores`. Its `Database` class holds the link, score and gap tables. `link_artifact` and `compute_score` update them in place.
- `Retrieval` covers the query text, max aggregation of chunk scores per artifact, the top-k cut, the model cache, and hybrid fusion.
- `AgentReport` covers the prompt, the keyword matcher, the fallback report, evidence gathering and `generate_control_report`.
- `Indexing` models `chunk_text`.
- `Eval` models `precision_at_k`, `recall_at_k` and `mrr`.

## Behaviour worth noting

- A report produced by the language model is tagged `"openai"`.
- Artifacts with equal aggregate scores keep their order from the stable sort. That is the dictionary's insertion order, i.e. the order in which the ranked chunks first reached each artifact.
- When hybrid fusion finds nothing, the empty list is returned as it is.
- Only the `responses.create` call sits inside the `try` and falls back to the deterministic report on failure. Errors raised earlier are not caught: building the client, or querying the database during retrieval.
- The gap reasons are fixed strings, for example "Missing evidence: coverage below 100%".
- The keyword matcher sorts `(score, id)` pairs in descending order. So among equal scores the larger artifact id wins.

## Model

| member | source | states |
|---|---|---|
| Entities.FindControl | api/retrieval.py:23-25 | a found control has the requested id and is in the table; `None` means no control has that id |
| Entities.FindArtifact | api/agent_report.py:150-152 | a found artifact has the requested id; `None` means no artifact row has it |
| Entities.ItemsOf | api/retrieval.py:27 | an item is returned exactly when it is in the checklist table and belongs to the control |
| Text.WordsEmptyIff | api/indexing.py:16-18 | `split()` finds no word exactly when the text is empty or all whitespace |
| Text.NormalizeEmptyIff | api/indexing.py:16-18 | whitespace normalisation gives the empty string exactly for blank text |
| Text.NormalizeIdempotent | api/indexing.py:16 | normalising normalised text changes nothing |
| Text.WordsOfJoin | api/indexing.py:16 | splitting a space-joined list of words gives the words back |
| Text.StripEmptyIff | api/retrieval.py:49-51 | `strip()` leaves nothing exactly when the text is blank, so the retriever returns `[]` exactly for a blank query |
| Text.StripSurrounded | api/agent_report.py:24-49 | whitespace around a body that starts and ends with a visible character is removed, and nothing else |
| Text.Lower | api/agent_report.py:59 | lower-casing keeps the length and maps each character on its own |
| Text.ReplaceChar | api/agent_report.py:60 | replacing a character keeps the length and changes exactly the occurrences of that character |
| Text.ContainsIff | api/agent_report.py:71-74 | `needle in hay` holds exactly when the needle starts at some position of the text |
| Text.JoinContainsPart | api/retrieval.py:29 | every part of a joined string occurs in it |
| Text.PySliceTo | eval/run_eval.py:8 | `s[:k]` is a prefix of `s`, of length `min(k, len)` for `k >= 0` and `max(0, len + k)` for a negative `k` |
| Sorting.Sort | api/retrieval.py:74 | sorting keeps the length and the multiset of entries |
| Sorting.SortSorted | api/agent_report.py:78 | under a strict order the result is sorted: no later entry precedes an earlier one |
| Sorting.SortKeepsDistinct | api/retrieval.py:74 | sorting entries with distinct keys leaves the keys distinct |
| Sorting.InsertSorted | api/agent_report.py:78 | inserting into a sorted list keeps it sorted under a strict order |
| Sorting.InsertKeepsDistinct | api/retrieval.py:74 | inserting an entry whose key is new into a list with distinct keys keeps the keys distinct |
| Scoring.Coverage | api/main.py:45-48 | coverage is in [0, 100]; it is 0 without checklist items, and 100 exactly when at least as many artifacts are linked as there are items |
| Scoring.Newest | api/main.py:54-57 | the newest timestamp is one of the linked artifacts' dates and no dated artifact is newer; `None` exactly when none is dated |
| Scoring.ComputeScores | api/main.py:43-83 | every score is within [0, 100], and freshness is one of 0, 50 or 100 |
| Scoring.WeightSumByCount | api/main.py:75-78 | the weight sum is 1 per github artifact plus 0.7 per other artifact |
| Scoring.CredibilityByCount | api/main.py:79 | credibility is 70 plus 30 times the share of github artifacts |
| Scoring.CredibilityRange | api/main.py:71-79 | credibility is 0 with nothing linked, otherwise between 70 and 100, and 100 exactly when every linked artifact comes from github |
| Scoring.FreshnessZeroIff | api/main.py:50-69 | freshness is 0 exactly when no linked artifact is dated or the newest is over 180 days old |
| Scoring.ScenarioScores | api/main.py:43-83 | a fresh github artifact plus an undated upload against four checklist items score 50, 100, 85 and 72 |
| Scoring.ScenarioFreshness | api/main.py:62-69 | evidence 200 days old earns freshness 0, and evidence 30 days old earns 100 |
| Scoring.UniqueCountsOnce | api/main.py:225-235 | in a duplicate-free link table each link occurs exactly once |
| Scoring.LinkIdempotent | api/main.py:225-235 | linking keeps the table duplicate-free, the link occurs once afterwards, existing links stay, and linking twice equals linking once |
| Scoring.LinkedArtifacts | api/main.py:248-253 | the linked artifacts are existing artifact rows, at most one per link |
| Scoring.DanglingLinkIgnored | api/main.py:253 | a link to a missing artifact adds nothing to the linked artifacts |
| Scoring.ResolveOpen | api/main.py:270-273 | resolving keeps every gap row |
| Scoring.Kinds | api/main.py:276-281 | one (severity, reason) pair per gap row |
| Scoring.OpenGapsOfConcat | api/main.py:269-281 | the open gaps of two tables together are the open gaps of each, in order |
| Scoring.NoneOpenAfterResolve | api/main.py:270-273 | after resolving, the control has no open gap left |
| Scoring.ImpliedAllOpen | api/main.py:276-281 | every newly opened gap is open and belongs to the control |
| Scoring.OpenAfterRecompute | api/main.py:269-281 | after a recompute, the control's open gaps are exactly the gaps its new scores imply |
| Scoring.ImpliedGapsExact | api/main.py:276-281 | a High gap exactly when coverage is below 100; a Medium gap exactly when freshness is below 100; a Low gap exactly when credibility is below 80 and something is linked; at most three, with distinct severities and reasons |
| Scoring.RecomputeStable | api/main.py:269-281 | recomputing twice with unchanged scores leaves the same open (severity, reason) pairs, so no duplicates pile up |
| Scoring.RecomputeKeepsHistory | api/main.py:269-281 | no gap row is deleted or rewritten; only the control's open rows gain a resolution time |
| Scoring.Database.constructor | api/main.py:221-286 | the tables start empty, with no duplicate link |
| Scoring.Database.LinkArtifact | api/main.py:221-239 | the link table gains the link exactly when it was absent, and stays duplicate-free |
| Scoring.Database.ComputeScore | api/main.py:242-286 | one score snapshot of the linked artifacts is appended; then the control's open gaps are resolved and the implied gaps are opened |
| Scoring.Database.CloseOpenGaps | api/main.py:270-273 | every open gap row of the control gets the resolution time, and every other row stays as it was |
| Scoring.Database.OpenImpliedGaps | api/main.py:276-281 | the rows the new scores imply are appended after the existing ones, open and dated now |
| Retrieval.ItemTexts | api/retrieval.py:28 | the checklist texts of the items, in order |
| Retrieval.NonEmpty | api/retrieval.py:29 | exactly the non-empty query parts are kept |
| Retrieval.QueryTextEmptyIff | api/retrieval.py:22-29 | the query is empty for an unknown control, and otherwise exactly when every part is empty |
| Retrieval.QueryTextMentionsParts | api/retrieval.py:28-29 | the query contains the code, the title, the description and every checklist text |
| Retrieval.ArtifactIds | api/retrieval.py:70 | the artifact of each chunk, position by position |
| Retrieval.UpsertLookup | api/retrieval.py:72 | after one update, the artifact's score is the larger of its old score (0 if absent) and the new one, and other artifacts keep theirs |
| Retrieval.UpsertDistinct | api/retrieval.py:72 | updating keeps one entry per artifact and adds no artifact except the updated one |
| Retrieval.LookupFound | api/retrieval.py:72 | in a table with one entry per artifact, every entry is what a lookup of its artifact finds |
| Retrieval.AggregateIsMax | api/retrieval.py:66-72 | the aggregate has one entry per artifact and holds, for each visited artifact, the best score over its chunks among the top positions |
| Retrieval.NoVisitNoScore | api/retrieval.py:69-72 | an artifact none of whose chunks is visited gets no score |
| Retrieval.BestScoreIsMax | api/retrieval.py:72 | the best score is at least every score of the artifact's visited chunks, and is one of them or the 0.0 default |
| Retrieval.AggregateMax | api/retrieval.py:66-72 | the aggregation loop over the first `min(len, 200)` ranked chunks builds the max aggregate |
| Retrieval.Ids | api/retrieval.py:75 | the artifact id of each entry, in order |
| Retrieval.TopEntriesSpec | api/retrieval.py:74 | the top-k cut has `min(k, n)` entries in descending score order, all taken from the aggregate; no entry left out outscores an entry kept |
| Retrieval.TopEntriesShape | api/retrieval.py:74 | for an aggregate with one entry per artifact, the cut keeps one entry per artifact, `min(k, n)` of them for `k >= 0`, in descending score order, all from the aggregate |
| Retrieval.TopEntriesOutrank | api/retrieval.py:74 | no entry left out of the cut scores higher than an entry kept |
| Retrieval.RankArtifacts | api/retrieval.py:49-75 | the shared body of the two retrievers computes the ranked id list |
| Retrieval.LookupIn | api/retrieval.py:74 | a found score belongs to an entry of the table |
| Retrieval.RankedOutputSpec | api/retrieval.py:46-77 | a blank query or an empty chunk table gives `[]`; otherwise at most `k` distinct ids of visited artifacts, by descending best chunk score, no artifact left out scores higher than one returned, and fewer than `k` ids are returned only when every visited artifact is among them |
| Retrieval.RankedTopSpec | api/retrieval.py:66-75 | for any chunk-to-artifact map, the ids of the cut are distinct, at most `k`, all visited, in descending best-score order, none scores below a visited artifact left out, and a cut shorter than `k` keeps every visited artifact |
| Retrieval.TopEntryIsBest | api/retrieval.py:66-75 | each kept entry is a visited artifact carrying its best chunk score |
| Retrieval.LeftOutScoresLower | api/retrieval.py:66-75 | a visited artifact left out scores no higher than any artifact kept |
| Retrieval.LeftOutMeansFull | api/retrieval.py:66-75 | when a visited artifact is left out, the cut holds exactly `k` ids |
| Retrieval.TopEntriesFull | api/retrieval.py:74 | when an aggregate entry is missing from `sorted(...)[:k]`, the cut holds exactly `k` entries |
| Retrieval.RankedDistinct | api/retrieval.py:66-75 | a retriever never returns an artifact twice |
| Retrieval.DedupSpec | api/retrieval.py:173-178 | deduplication keeps each id once, and keeps exactly the ids of the input |
| Retrieval.DedupOfDistinct | api/retrieval.py:173-178 | a list without repeats is unchanged by deduplication |
| Retrieval.DedupPrefix | api/retrieval.py:175-178 | deduplicating a prefix gives a prefix of the deduplicated list |
| Retrieval.DedupSnoc | api/retrieval.py:175-178 | one more id is appended to the deduplicated list exactly when it was not seen before |
| Retrieval.HybridFuse | api/retrieval.py:173-182 | the fusion loop, with its early stop, returns the deduplicated concatenation cut to `k` |
| Retrieval.FusedSpec | api/retrieval.py:163-182 | the fused ids are distinct and come from either list; they are a prefix of the deduplicated keyword-then-embedding order, of length `min(k, distinct ids)` for `k >= 1`; all keyword ids come first when they fit |
| Retrieval.FusedEdgeCases | api/retrieval.py:173-180 | two empty lists fuse to nothing; with `k <= 0`, non-empty input still yields exactly one id, since the length test comes after the append |
| Retrieval.FusedExample | api/retrieval.py:163-182 | `[3, 1, 2]` fused with `[2, 5, 1]` at k = 3 gives `[3, 1, 2]` |
| Retrieval.Results | api/retrieval.py:86-115 | one result per call of the loader |
| Retrieval.FailureIsPermanent | api/retrieval.py:96-97 | after a failed load, every later call returns no model and none tries to load |
| Retrieval.LoadedIsStable | api/retrieval.py:94-95 | once loaded, every later call returns the same model without reloading |
| Retrieval.LoadAtMostOnce | api/retrieval.py:83-115 | from a fresh process, exactly one load is attempted, and every call agrees with its outcome |
| Retrieval.ModelCache.constructor | api/retrieval.py:83-84 | the cache starts with no model and no failure recorded |
| Retrieval.ModelCache.GetModel | api/retrieval.py:86-115 | one call moves the cache as the load-once state machine prescribes and returns its result |
| Retrieval.KeywordRetrieve | api/retrieval.py:46-77 | lexical retrieval returns the ranked ids of the control's query text |
| Retrieval.EmbeddingRetrieve | api/retrieval.py:118-157 | the model is asked for first; semantic retrieval returns `[]` when there is no model, and otherwise the ranked ids of the query |
| Retrieval.HybridWithoutModel | api/retrieval.py:121-125 | without an embedding model, hybrid retrieval is the lexical ranking cut to `k` |
| Retrieval.HybridRetrieve | api/retrieval.py:163-182 | hybrid retrieval fuses the lexical and semantic top 50 and advances the model cache once |
| AgentReport.ChecklistBullets | api/agent_report.py:15 | one bullet `- <text>` per checklist item, in order |
| AgentReport.SnippetLines | api/agent_report.py:19 | each snippet is prefixed with its 1-based number |
| AgentReport.EvidenceBlocks | api/agent_report.py:17-20 | one block per artifact with snippets, in order |
| AgentReport.BuildPromptIsBody | api/agent_report.py:24-49 | stripping removes exactly the template's first and last newline, whatever is filled in |
| AgentReport.PromptHasPiece | api/agent_report.py:24-49 | every piece of the template appears in the prompt |
| AgentReport.PromptShowsControlLine | api/agent_report.py:33-36 | each control line appears in the prompt |
| AgentReport.PromptShowsControl | api/agent_report.py:34-36 | the prompt shows the control's code, title and description |
| AgentReport.PromptShowsItem | api/agent_report.py:15 | each checklist item appears as a bullet |
| AgentReport.PromptHasChecklist | api/agent_report.py:15 | the checklist text, bullets or placeholder, appears in the prompt |
| AgentReport.PromptShowsNoChecklist | api/agent_report.py:15 | without checklist items the prompt shows the placeholder bullet |
| AgentReport.PromptShowsChecklist | api/agent_report.py:15 | every item appears as a bullet, or the prompt says there are no checklist items |
| AgentReport.PromptShowsBlock | api/agent_report.py:22 | each evidence block appears in the prompt |
| AgentReport.PromptShowsEvidence | api/agent_report.py:22 | every evidence block appears, or the prompt says there is no evidence |
| AgentReport.BlockShowsSnippet | api/agent_report.py:19-20 | each snippet appears in its artifact's block under its number |
| AgentReport.PromptShowsSnippets | api/agent_report.py:17-22 | every snippet of every artifact reaches the prompt, numbered from 1 within its artifact |
| AgentReport.LongWords | api/agent_report.py:61 | exactly the words of four or more characters are kept |
| AgentReport.LowerAll | api/agent_report.py:59 | each keyword is the lower-cased word |
| AgentReport.NoSeparators | api/agent_report.py:60 | after the replacements no `/`, `(` or `)` is left |
| AgentReport.LowerShaped | api/agent_report.py:58-62 | a long word without separators, lower-cased, has the keyword shape |
| AgentReport.KeywordsShape | api/agent_report.py:58-62 | every keyword has at least four characters, no whitespace, no `/`, `(` or `)`, and no upper-case ASCII letter |
| AgentReport.Matching | api/agent_report.py:70-74 | a keyword is matched exactly when it occurs in the text |
| AgentReport.MatchingAppend | api/agent_report.py:70-74 | one more keyword adds a match exactly when it occurs |
| AgentReport.KeywordScoreCounts | api/agent_report.py:69-74 | the score is twice the name hits plus the text hits; it is between 0 and 3 per keyword, and positive exactly when some keyword occurs in the name or the text |
| AgentReport.KeywordScoreByMatches | api/agent_report.py:69-74 | the score is twice the number of keywords found in the name plus the number found in the snippets |
| AgentReport.ScoredList | api/agent_report.py:64-76 | one (score, id) pair per artifact, in order |
| AgentReport.ScoreAll | api/agent_report.py:64-76 | the loop over the evidence computes one (score, id) pair per artifact, in order |
| AgentReport.LargerPairIsStrict | api/agent_report.py:78 | the descending tuple order is a strict order |
| AgentReport.Positive | api/agent_report.py:79 | exactly the pairs with a positive score are kept, in order |
| AgentReport.PositiveNone | api/agent_report.py:79 | when no pair scores above zero, nothing is kept |
| AgentReport.PositiveSorted | api/agent_report.py:79 | filtering keeps the order sorted |
| AgentReport.PairIds | api/agent_report.py:79 | the id of each pair, in order |
| AgentReport.TopPositiveSound | api/agent_report.py:78-79 | at most `top_n` pairs are chosen, all scored above zero, largest first |
| AgentReport.PrefixOutranks | api/agent_report.py:78-79 | in the sorted list, nothing past the cut outranks anything before it |
| AgentReport.PositiveOfSort | api/agent_report.py:78-79 | every positively scored pair survives sorting and filtering |
| AgentReport.TopPositiveComplete | api/agent_report.py:78-79 | no positively scored pair left out outranks a chosen one; everything positive is chosen when `top_n` covers the list or when fewer than `top_n` pairs are chosen; nothing is chosen when nothing scores |
| AgentReport.TopPositiveIds | api/agent_report.py:79 | at most `top_n` ids, each belonging to a positively scored pair |
| AgentReport.TopPositiveEmptyIff | api/agent_report.py:79 | with room for one, nothing is chosen exactly when nothing scored above zero |
| AgentReport.BestArtifactsCited | api/agent_report.py:52-80 | every chosen artifact is an evidence artifact sharing a keyword with the item, and at most `top_n` are chosen |
| AgentReport.BestArtifactCited | api/agent_report.py:64-79 | each chosen id is the id of an evidence artifact with a positive keyword score |
| AgentReport.NoKeywordsNoMatch | api/agent_report.py:58-80 | an item without a word of four or more letters matches no artifact |
| AgentReport.ScoreArtifact | api/agent_report.py:66-76 | the keyword loop for one artifact computes its score |
| AgentReport.PickBest | api/agent_report.py:52-80 | the scoring loop, sort and cut compute the chosen ids |
| AgentReport.Citations | api/agent_report.py:108 | one `[Artifact <id>]` per chosen id, in order |
| AgentReport.MappingLines | api/agent_report.py:97-111 | one line per checklist item, or the single placeholder line without items |
| AgentReport.FallbackLength | api/agent_report.py:88-127 | the report has 12 lines, plus one per item (one without items), plus one or two gap lines |
| AgentReport.FallbackHeaders | api/agent_report.py:88-125 | the four numbered headers stand in order at their fixed offsets, with the control line third and the three actions last |
| AgentReport.FallbackMapping | api/agent_report.py:97-111 | the report has 12 fixed lines besides the mapping and gap lines; the mapping section lists each checklist item's line in order, or the placeholder |
| AgentReport.MappingLineAt | api/agent_report.py:97-111 | the mapping lines stand in the report right after the five opening lines |
| AgentReport.FallbackGaps | api/agent_report.py:113-119 | the gaps section asks for uploads exactly when no evidence was retrieved; otherwise it holds the two review lines |
| AgentReport.FallbackWithoutEvidence | api/agent_report.py:98-116 | without evidence, every item is reported as missing evidence and the gaps section asks for uploads |
| AgentReport.ItemLineCases | api/agent_report.py:106-111 | with evidence, an item cites its one or two chosen artifacts when some artifact shares a keyword with it, and otherwise reports that no strong match was found |
| AgentReport.MapItem | api/agent_report.py:101-111 | the loop body writes the item's line |
| AgentReport.MapItems | api/agent_report.py:97-111 | the loop over the checklist writes the mapping section |
| AgentReport.FallbackReport | api/agent_report.py:83-127 | the fallback builder produces the lines above, joined by newlines |
| AgentReport.ChunksOf | api/agent_report.py:154-156 | exactly the chunks of the artifact, in table order |
| AgentReport.SnippetsOf | api/agent_report.py:161 | one snippet per selected chunk: its text cut to 1200 characters |
| AgentReport.LowestIndexFirst | api/agent_report.py:154-160 | the first `n` by chunk index: `min(n, count)` chunks of the artifact, in ascending index order |
| AgentReport.LowestIndexKept | api/agent_report.py:154-160 | no chunk left out has a lower index than a chunk kept |
| AgentReport.SnippetsSpec | api/agent_report.py:154-160 | an artifact contributes its `min(n, count)` lowest-index chunks, in index order |
| AgentReport.SnippetsCut | api/agent_report.py:161 | every snippet is a prefix of its chunk's text, at most 1200 characters long |
| AgentReport.EvidenceForSpec | api/agent_report.py:148-162 | evidence follows the retrieved order, skips ids without an artifact row, and carries each artifact's snippets; with no ids skipped it has one entry per id |
| AgentReport.EvidenceForSound | api/agent_report.py:148-162 | at most one entry per id; each entry is an existing artifact among the ids, with that artifact's snippets |
| AgentReport.EvidenceForComplete | api/agent_report.py:148-162 | when every id has an artifact row, there is one entry per id, in the retrieved order |
| AgentReport.EvidenceForStep | api/agent_report.py:148-162 | one more id adds its artifact and snippets, or nothing when the artifact row is missing |
| AgentReport.GatherEvidence | api/agent_report.py:148-162 | the gathering loop computes that evidence |
| AgentReport.GenerateControlReport | api/agent_report.py:130-173 | an unknown control gives "Control not found." tagged fallback, with the cache untouched; otherwise the model cache advances once, and the report is the model's answer to the prompt over the retrieved evidence (tagged openai) or, when the call fails, the fallback report over the same evidence (tagged fallback) |
| Indexing.ChunkText | api/indexing.py:15-30 | the sliding-window loop, with its clamp and early exit, returns the windows of the normalised text |
| Indexing.ChunksEmptyIff | api/indexing.py:16-18 | chunking yields nothing exactly when the text is blank |
| Indexing.WindowAt | api/indexing.py:20-30 | window `i` is the text at offset `start + i * (size - overlap)`; it is non-empty and at most `size` long, exactly `size` unless last; the last reaches the end of the text when the overlap is not negative |
| Indexing.ChunkAt | api/indexing.py:15-30 | chunk `i` is the normalised text at offset `i * (size - overlap)`, non-empty and at most `size` long, full-size unless last; the last ends where the text ends when the overlap is not negative |
| Indexing.ShortTextOneChunk | api/indexing.py:22-29 | a normalised text of at most `size` characters is a single chunk, the whole text |
| Indexing.ChunksOverlap | api/indexing.py:25 | each later chunk begins with the last `overlap` characters of the chunk before |
| Indexing.WindowsOverlap | api/indexing.py:20-30 | each later window begins with the last `overlap` characters of the window before |
| Indexing.WindowsReassemble | api/indexing.py:20-30 | from any offset inside the text, the windows reassemble the rest of the text |
| Indexing.ReassembleStep | api/indexing.py:20-30 | a window short of the end is followed by the reassembled later windows less the `overlap` characters the next window repeats |
| Indexing.ChunksReassemble | api/indexing.py:15-30 | round trip: the first chunk followed by each later chunk less its first `overlap` characters is the normalised text |
| Eval.HitsAppend | eval/run_eval.py:11 | hits of a concatenation add up |
| Eval.HitsBounds | eval/run_eval.py:11 | hits never exceed the list length, and are 0 exactly when no entry is relevant |
| Eval.HitsDistinct | eval/run_eval.py:19 | in a list without repeats, the hits are the relevant artifacts it contains, so at most the number of relevant artifacts |
| Eval.PrecisionSpec | eval/run_eval.py:7-12 | precision is 0 for an empty cut, otherwise hits over `k`; it lies in [0, 1] for `k >= 0` |
| Eval.RecallSpec | eval/run_eval.py:15-20 | recall is 0 without relevant artifacts, otherwise hits over their number; never negative, at most 1 when the predictions do not repeat |
| Eval.RecallMonotone | eval/run_eval.py:15-20 | looking further down the list never lowers recall |
| Eval.MrrSpec | eval/run_eval.py:23-27 | the reciprocal rank is `1 / (p + 1)` for the first relevant prediction at index `p`, and 0 when none is relevant |
| Eval.RankWithoutHit | eval/run_eval.py:23-27 | when no remaining prediction is relevant, the loop returns 0 |
| Eval.RankAtFirstHit | eval/run_eval.py:24-26 | the loop returns the reciprocal of the rank of the first relevant prediction |
| Eval.FirstRelevantExists | eval/run_eval.py:24-26 | when some prediction is relevant, there is a first relevant one |
| Eval.MrrBounds | eval/run_eval.py:23-27 | the reciprocal rank lies in [0, 1], and is 1 exactly when the first prediction is relevant |
| Eval.MrrIgnoresTail | eval/run_eval.py:24-26 | predictions after the first relevant one do not affect the reciprocal rank |

## Left out

- Similarity computation is not modelled. The TF-IDF vectoriser, the sentence-transformer encoder, cosine similarity and `argsort` are outside the model. Each retriever takes the chunk similarities and their ranking as inputs. The ranking must be a permutation of the chunk positions.
- Loading the embedding model is a parameter. Downloading and building it is given as its outcome: the model, or `None` for an exception. Logging and the cache directory are not modelled.
- The language-model call is a function parameter, from prompt to an answer or `None` for an exception. The model name and environment variables are not modelled. An exception raised while building the client is not modelled either; the source does not catch it.
- Database sessions, HTTP routes, redirects, templates and commits are not modelled. Tables are sequences in the order the database returns their rows, and every query is a filter over them.
- Among chunks with equal `chunk_index`, snippets keep table order. The source's SQL leaves their order unspecified.
- A negative `snippets_per_artifact` (a negative `LIMIT`) is not modelled. The count is a natural number.
- The clock is a parameter. `compute_score` reads the time twice: once for freshness and once to resolve gaps. The model uses one `now`, in whole seconds, and ages round down to whole days like `timedelta.days`. Time zones are not modelled.
- The definitions of the checklist-item, chunk, link, score and gap tables are not part of this model. Their fields are taken from how the core uses them. `collectedAt` is optional because the scorer copes with a missing date, although the artifact table declares the column non-null.
- Scoring.ComputeScores and Scoring.CredibilityRange use exact real arithmetic, not floating point. Near a boundary, float rounding can decide the other way. Credibility is exactly 80 when two uploads come with one github artifact, and then the `< 80.0` gap test may differ.
- AgentReport.Keywords lower-cases ASCII letters only. Python's `str.lower` also folds other alphabets, and that is not modelled.
- Gap ids and autoincrement columns are not modelled. Neither are the score snapshot's database timestamp and the gap's `created_at` default; the model records `now` for both.
- Indexing.ChunkText requires `0 < chunkSize` and `overlap < chunkSize`. Outside these the source loop either never ends (with `0 < chunkSize <= overlap`, on a text longer than one window) or returns empty or from-the-end slices (with `chunkSize <= 0`). The only caller, `api/main.py:152`, uses the defaults 800 and 150.
- Indexing.ChunksReassemble and Indexing.ChunksOverlap are stated for a non-negative overlap only. With a negative overlap, consecutive windows skip characters, so no round trip exists.
- AgentReport.ItemLineCases requires non-empty evidence. Without evidence every item line reports missing evidence, and AgentReport.FallbackWithoutEvidence states that case.
- Retrieval.LoadAtMostOnce, Scoring.LinkIdempotent and Scoring.Database.LinkArtifact treat requests as sequential. The routes are synchronous and the web framework runs them on a thread pool, so two concurrent first requests can both load the embedding model, and two concurrent link requests can both pass the existence check and insert the same link twice. Concurrency is not modelled.
- Retrieval.RankedIds and AgentReport.GenerateControlReport always return. In the source, the TF-IDF vectoriser raises an empty-vocabulary error when the chunk texts hold nothing but stop words and one-letter tokens (or are all empty) (`api/retrieval.py:59-60`, where a NULL chunk text has become `""`). That error escapes `hybrid_retrieve` and `generate_control_report`, whose retrieval call (`api/agent_report.py:144`) is outside the `try`. AgentReport.SnippetsOf likewise does not model the error that `c.text[:1200]` raises on a NULL chunk text (`api/agent_report.py:161`); chunk texts are strings.
- Artifact upload, file reading (`read_text_from_file`), the seed data, the BigQuery export and the evaluation driver (`run`, label loading, averaging) are outside the modelled core.
