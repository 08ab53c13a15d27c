# nomad-simulation-entries in Dafny

A model of the collector that samples public entries of the NOMAD
repository code by code. It pages through all entries of one simulation
code through the `/entries/query` endpoint. It resolves each entry's main
author and counts entries per author. It keeps either one seeded min-hash
representative per author or every entry. Finally it merges the
per-code results into the four overview tables of earlier runs.

The model has seven modules, one per file:

- `Wrappers` (`wrappers.dfy`): `Option` and `Result`.
- `Text` (`text.dfy`): Python's `str.strip`, with whitespace or with one given character, and the code-point order on `str`.
- `Json` (`json.dfy`): the JSON values held in entries and responses, with Python truthiness and `dict.get`.
- `Selection` (`selection.dfy`), from `scripts/selection.py`:
  - `stable_pick`, the seeded minimum-digest choice, as a loop;
  - `deduplicate_entries`, the first-occurrence filter, as a loop;
  - `normalize_code_name`, the file-name sanitiser.

  SHA-256 is a function parameter `h(seed, entry_id)`. Its hex digests are compared with the string order of `Text`.
- `NomadApi` (`nomad_api.dfy`), from `scripts/nomad_api.py`, is a class `NomadClient`.
  - Its counter field is `API_CALL_COUNT`. It keeps ghost logs of the sleeps taken and of the requests sent.
  - `post_entries_query` is the bounded retry loop. The result of each possible attempt is an input sequence that stands for the network.
  - `fetch_entries_page` builds the payload and splits the response into records and the next cursor.
- `CollectEntries` (`collect_entries.dfy`), from `scripts/collect_entries.py`:
  - `normalize_author`;
  - `iter_code_entries`, the cursor loop, over an input sequence of page results;
  - `collect_code`: one loop that counts per author and keeps representatives, then the stable top-N ranking and the tagging of representatives.
- `RunMerge` (`run_merge.dfy`) covers the body of `collect()` in `scripts/collect_entries.py`:
  - the default `include_fields`;
  - the loop over the codes;
  - the entries files it writes;
  - the merge of the tables.

The three table rules of that merge are:

- The code overview is overwritten by key, in the key's first position.
- The code/author and code/author/dataset tables drop the rows of processed codes and append the run's rows.
- The global table is recomputed as sums per `(main_author, dataset_id)`, sorted by that key.

The model follows the code as written, including these quirks:

- In parser mode, a sampling candidate carries its code under the key `entry_pointpoint` (`CollectEntries.CandidateParserKey`). Bulk records use `entry_point`.
- `collect_code` never produces dataset or global rows. Every run therefore leaves the code/author/dataset table holding only prior rows of unprocessed codes (`RunMerge.CollectTotals`).
- The global table read from disk is never used. It is rebuilt from the detail table (`RunMerge.Merged`).

## Model

| member | source | states |
|---|---|---|
| Text.Strip | scripts/selection.py:32 | the result is the slice of the code between its leading and its trailing whitespace, and neither of its ends is whitespace; it is empty exactly when every character is whitespace |
| Text.StripChar | scripts/selection.py:33 | the result is the slice between the leading and the trailing runs of the stripped character, and neither of its ends is that character; a string without the character at either end is unchanged |
| Text.StripIdempotent | scripts/selection.py:32 | stripping twice is stripping once |
| Text.LessTotal | scripts/selection.py:17 | any two digests are equal or ordered one way by `<` |
| Text.LessTransitive | scripts/selection.py:17 | the digest order is transitive |
| Text.LessIrreflexive | scripts/selection.py:17 | no digest is below itself, so a tie never replaces the current best |
| Selection.StablePick | scripts/selection.py:8-20 | the loop returns none exactly when no entry has a truthy id; otherwise an input entry with a truthy id whose digest is minimal, and no earlier entry has that digest |
| Selection.PickIsEarliestMinimum | scripts/selection.py:12-19 | the same properties for the specification function of the loop |
| Selection.PickSpecReplace | scripts/selection.py:17-19 | an entry with a strictly smaller digest, or the first entry with an id, becomes the new best |
| Selection.PickSpecKeep | scripts/selection.py:13-17 | an entry without an id, or one whose digest is not smaller, keeps the best |
| Selection.PickDependsOnlyOnMembers | scripts/selection.py:12-19 | two lists with the same members give a pick with the same digest, and the same pick when digests are distinct |
| Selection.PickReversal | tests/test_selection.py:4-8 | reversing the input keeps the minimum digest, and keeps the pick when digests are distinct |
| Selection.PickReversalSharedId | scripts/selection.py:17-19 | two different entries with the same truthy id: the scan keeps the first, so the list and its reverse give different picks |
| Selection.Reverse | tests/test_selection.py:7 | `entries[::-1]`: element k is element n-1-k |
| Selection.DeduplicateEntries | scripts/selection.py:37-49 | fails at the first truthy list or dictionary id, as `entry_id in seen` raises `TypeError`. Otherwise the output has pairwise distinct truthy ids, with `True` equal to `1` and `False` to `0`. It is a subsequence of the input. Each kept entry is the first with its id, and every truthy input id is kept |
| Selection.FirstUnhashable | scripts/selection.py:44-45 | it is none exactly when every truthy id is hashable; otherwise it is the first truthy unhashable id |
| Selection.DedupTrueIsOne | scripts/selection.py:45-47 | an entry with id `True` followed by one with id `1` keeps only the first |
| Json.SameKey | scripts/selection.py:45-47 | two hashable ids are the same member of `seen` exactly when Python's `==` holds between them |
| Selection.DedupFromIds | scripts/selection.py:41-49 | the same properties, plus that no output id was already seen |
| Selection.DedupFromUnique | scripts/selection.py:44-48 | a list with distinct truthy ids, none already seen, passes unchanged |
| Selection.DedupIdempotent | scripts/selection.py:41-49 | deduplicating the output again changes nothing |
| Selection.SubsequenceMembers | scripts/selection.py:48 | a subsequence is no longer than its source, and its elements are members of it |
| Selection.ReplaceUnsafeRuns | scripts/selection.py:23 | the substituted string contains only `[A-Za-z0-9_.-]` |
| Selection.ReplaceSafe | scripts/selection.py:32 | the substitution leaves an all-safe string unchanged |
| Selection.ReplaceSafePrefix | scripts/selection.py:32 | the substitution passes a safe prefix unchanged |
| Selection.ReplaceUnsafeRun | scripts/selection.py:23 | a maximal run of unsafe characters becomes exactly one `_` |
| Selection.NormalizeCodeName | scripts/selection.py:26-34 | the result is non-empty, uses only `[A-Za-z0-9_.-]`, and neither starts nor ends with `_` |
| Selection.UnknownIsNormal | scripts/selection.py:31 | the fallback `unknown` is itself a normal name |
| Selection.NormalizeEmpty | tests/test_selection.py:17 | the empty code gives `unknown` |
| Selection.NormalizeJoin | tests/test_selection.py:15-16 | two safe parts separated by one unsafe run and padded by whitespace give the parts joined by `_`; this covers `VASP/6.3` and ` Quantum Espresso ` |
| Selection.NormalizeByStages | scripts/selection.py:30-34 | the result is the substituted stripped code whenever that has no `_` at either end |
| Selection.NormalizeFixpoint | scripts/selection.py:30-34 | a normal name is returned unchanged |
| Selection.NormalizeIdempotent | scripts/selection.py:26-34 | normalising twice is normalising once |
| NomadApi.NomadClient.constructor | scripts/nomad_api.py:12 | the call counter starts at 0 and no sleep or request has happened |
| NomadApi.NomadClient.PostEntriesQuery | scripts/nomad_api.py:24-65 | after n attempts, the counter grows by n. The sleeps are 1, 2, 4, … (n-1 of them). The same request to `base_url.rstrip('/') + "/entries/query"` is sent n times, and the result is the last attempt's outcome |
| NomadApi.NomadClient.PostWithRetries | scripts/nomad_api.py:30-65 | the attempt loop: the same counter, sleep and request logs and outcome for a given URL |
| NomadApi.NomadClient.FetchEntriesPage | scripts/nomad_api.py:153-178 | the page request is posted with the payload `EntriesPayload`. An error is passed on unchanged; a reply is split by `SplitResponse` |
| NomadApi.AttemptsMade | scripts/nomad_api.py:31-52 | the number of attempts is between 1 and 5; every earlier attempt was retried and the last was not |
| NomadApi.AttemptsMadeIs | scripts/nomad_api.py:31-62 | when attempts 1..k-1 are retried and attempt k is not, exactly k attempts are made and attempt k decides the result |
| NomadApi.Outcome | scripts/nomad_api.py:54-62 | an attempt succeeds exactly on an ok reply, with its body. A transport failure is re-raised, and a non-ok reply raises an HTTP error with its status |
| NomadApi.TransportFailureRaisedOnlyLast | scripts/nomad_api.py:35-41 | a transport error is raised if and only if all five attempts were made and the fifth failed in transport |
| NomadApi.RetryableOnLastIsHttpError | scripts/nomad_api.py:43-60 | a retryable status on the fifth attempt raises an HTTP error for that status |
| NomadApi.ReplyEndsLoop | scripts/nomad_api.py:54-62 | a reply with a status outside the retryable set ends the loop at once: its body if ok, an HTTP error otherwise |
| NomadApi.NeverExceedsRetries | scripts/nomad_api.py:64-65 | the trailing `Exceeded max retries` error is never raised |
| NomadApi.TwoRetriesThenOk | scripts/nomad_api.py:43-52 | 503, 503, 200 makes three attempts with sleeps [1, 2] and returns the body |
| NomadApi.Backoffs | scripts/nomad_api.py:30-51 | the k-th sleep lasts 2^k units, starting from 1 |
| NomadApi.BackoffValues | scripts/nomad_api.py:30-51 | the four possible sleeps are 1, 2, 4 and 8 |
| NomadApi.QueryUrl | scripts/nomad_api.py:29 | the URL is the base with its trailing slashes removed, followed by `/entries/query` |
| NomadApi.EntriesPayload | scripts/nomad_api.py:163-175 | the payload has `owner = "public"`, the query or `{}`, page size, `order_by = "entry_id"` and `order = "asc"`. `page_after_value` is present iff the cursor is truthy, and `required.include` iff the field list is non-empty |
| NomadApi.SplitResponse | scripts/nomad_api.py:177-178 | a dictionary response gives the `data` list (or `[]` when falsy) and `pagination.next_page_after_value` (or none); any other shape is an error |
| NomadApi.SplitPageResponse | scripts/nomad_api.py:177-178 | splitting the response built from a page gives that page back |
| CollectEntries.NormalizeAuthor | scripts/collect_entries.py:94-105 | the result is none for a value that is neither a string nor a dictionary. A string gives its stripped form, or none if blank. A dictionary gives its stripped usable `name`, else its stripped usable `email`, else its serialisation |
| CollectEntries.NormalizeString | scripts/collect_entries.py:97-98 | a string author is its stripped form, or none when that is empty |
| CollectEntries.NormalizeAuthorIdempotent | scripts/collect_entries.py:94-105 | a resolved name resolves to itself |
| CollectEntries.RawAuthor | scripts/collect_entries.py:160-162 | the author quantity when truthy; otherwise `metadata.main_author`, or none without metadata; metadata that is not a dictionary raises |
| CollectEntries.Classify | scripts/collect_entries.py:156-165 | a record is accepted exactly when its id is truthy and its author resolves to a non-empty name. Otherwise it is skipped, or raises when it is not a dictionary |
| CollectEntries.AcceptAllSound | scripts/collect_entries.py:153-165 | every accepted record has a truthy id and a non-empty author, and there are no more than the records |
| CollectEntries.AuthorsOf | scripts/collect_entries.py:167 | the keys of `author_counts` in insertion order: distinct, and exactly the authors with a positive count |
| CollectEntries.Tally | scripts/collect_entries.py:198 | `author_counts.items()`: each key of `author_counts` with its count, in insertion order |
| CollectEntries.TallySum | scripts/collect_entries.py:167-168 | `total_entries` equals the sum of all author counts |
| CollectEntries.SortByCountDescCorrect | scripts/collect_entries.py:198 | the sort by `-count` is non-increasing, a permutation, and keeps the input order of equal counts |
| CollectEntries.InsertByCountStable | scripts/collect_entries.py:198 | inserting keeps the input order among equal counts |
| CollectEntries.PyPrefix | scripts/collect_entries.py:198 | the slice `[:max_authors]`, negative bounds included |
| CollectEntries.TopAuthorsRanked | scripts/collect_entries.py:198 | for a non-negative limit, `top_authors` has `min(max_authors, authors)` entries; for any limit it is at most the number of authors. It is ordered by non-increasing count, with distinct authors, each with its true count |
| CollectEntries.TopAuthorsCounts | scripts/collect_entries.py:198 | each top author has a positive count, and the count shown is its count |
| CollectEntries.TopAuthorsLeftOut | scripts/collect_entries.py:198 | an author left out of `top_authors` has no more entries than any author kept |
| CollectEntries.TopAuthorsStable | scripts/collect_entries.py:198 | the top authors with a given count are a prefix of the authors with that count in first-seen order |
| CollectEntries.FirstStop | scripts/collect_entries.py:121-133 | the page at which the loop stops: the first error or page with a falsy cursor |
| CollectEntries.Cursor | scripts/collect_entries.py:116-133 | the first request has no cursor, and request j has the truthy cursor of page j-1 |
| CollectEntries.QueryFor | scripts/collect_entries.py:117-120 | the query is `{"parser_name": code}` in parser mode and `{code quantity: code}` otherwise |
| CollectEntries.IterCodeEntries | scripts/collect_entries.py:108-133 | the loop yields the concatenated records of the pages up to the stop, in order. It requests the page after each previous cursor, and passes on the error of a failed page |
| CollectEntries.RequestCursors | scripts/collect_entries.py:122-128 | the first payload has no `page_after_value`, and each later one carries the previous page's cursor |
| CollectEntries.PagesAfterStopUnread | scripts/collect_entries.py:131-132 | pages after the first falsy cursor are never read |
| CollectEntries.SinglePage | scripts/collect_entries.py:129-132 | one page with a falsy cursor yields exactly its records |
| CollectEntries.Candidate | scripts/collect_entries.py:185-193 | a candidate carries the id, the author, a null `dataset_id`, and the code under `code` or, in parser mode, under `entry_pointpoint` |
| CollectEntries.BulkRecord | scripts/collect_entries.py:172-180 | a bulk record carries the id, the author, a null `dataset_id`, and the code under `code` or, in parser mode, under `entry_point` |
| CollectEntries.BulkRecordsAt | scripts/collect_entries.py:170-181 | the k-th bulk record is built from the k-th accepted entry |
| CollectEntries.FoldRepMinimal | scripts/collect_entries.py:184-195 | the running pick over an author's candidates is an input candidate with minimal digest |
| CollectEntries.FoldRepIsPick | scripts/collect_entries.py:184-195 | the running pick has the digest of `stable_pick` over all candidates, and equals it when digests are distinct |
| CollectEntries.FoldRepOrderFree | scripts/collect_entries.py:184-195 | with distinct digests the representative does not depend on the arrival order |
| CollectEntries.Tag | scripts/collect_entries.py:210-211 | the tagged representative has the keys of `rep` plus `picked_by` and `bucket_entry_count`. Those two are set to `"scan"` and the count, and every other key keeps its value |
| CollectEntries.AuthorRows | scripts/collect_entries.py:216-219 | one row per top author with the code, the author, its count and 0 datasets |
| CollectEntries.ScanRecords | scripts/collect_entries.py:148-195 | the record loop raises exactly the first error of the records. Otherwise its counts, author order, total, representatives and bulk list describe the accepted records |
| CollectEntries.ScanStep | scripts/collect_entries.py:156-195 | one turn of the record loop: a record that raises ends the scan with that error, and otherwise the state describes the records accepted so far |
| CollectEntries.Accept | scripts/collect_entries.py:167-195 | one accepted record updates counts, total, author order and the representative or bulk list as specified |
| CollectEntries.RankAuthors | scripts/collect_entries.py:198 | the ranking of the counts dictionary is `top_authors` |
| CollectEntries.TagRepresentatives | scripts/collect_entries.py:206-212 | the loop over top authors tags each present representative with its count, in order |
| CollectEntries.Rank | scripts/collect_entries.py:197-236 | after the loop, the result is the specification's output for the accepted records, or in sampling mode the `TypeError` of `deduplicate_entries` |
| CollectEntries.SampledErrorWhen | scripts/collect_entries.py:214 | sampling mode raises exactly when some top author's representative has an unhashable id, and never when every accepted id is hashable |
| CollectEntries.CollectCode | scripts/collect_entries.py:136-236 | `collect_code` returns the specification's output for the pages' records, or the first error: a record, then the page source, then deduplication |
| CollectEntries.CodeOutcomeUnread | scripts/collect_entries.py:121-133 | pages after the stop do not change the result of `collect_code` |
| CollectEntries.OverviewCounts | scripts/collect_entries.py:220-227 | the overview row has the code, `n_entries = total_entries` (the sum of counts), `n_main_authors` = number of distinct authors, 0 datasets; dataset and global rows are empty |
| CollectEntries.AuthorRowsOfTop | scripts/collect_entries.py:216-219 | the author rows are the top authors with their counts |
| CollectEntries.RepExists | scripts/collect_entries.py:184-195 | every author with an entry has a representative with minimal digest among its candidates, and that representative's id belongs to the author |
| CollectEntries.TaggedRepsPicked | scripts/collect_entries.py:206-212 | one tagged representative per top author, in order, tagged with its count |
| CollectEntries.SampledPicks | scripts/collect_entries.py:204-214 | in sampling mode there are at most `max_authors` picks, with distinct ids, each the tagged representative of a top author, and every top author's representative is picked |
| CollectEntries.SampledPicksComplete | scripts/collect_entries.py:204-214 | with entry ids pairwise unequal as Python compares them, exactly one pick per top author, in rank order |
| CollectEntries.BulkPicks | scripts/collect_entries.py:201-203 | in bulk mode the picks are exactly one record per accepted entry, in stream order |
| RunMerge.IncludeFields | scripts/collect_entries.py:246-250 | the given fields, or `entry_id`, the author quantity and the datasets quantity; never empty |
| RunMerge.IncludeFieldsRequested | scripts/collect_entries.py:246-250 | every page request therefore carries `required.include` with those fields |
| RunMerge.FileName | scripts/collect_entries.py:319-320 | an entries file is named by the normalised code, a safe stem not starting with `_`, followed by `.jsonl` |
| RunMerge.CollectCodes | scripts/collect_entries.py:284-341 | the loop over the codes returns the fold of the codes' outputs, or the first exception |
| RunMerge.Record | scripts/collect_entries.py:312-321 | one code's output is appended to the accumulators and counters, and an entries file is added only when something was picked |
| RunMerge.CollectAt | scripts/collect_entries.py:293-311 | the i-th call returns `collect_code` for the i-th code and its pages |
| RunMerge.RunStep | scripts/collect_entries.py:291-321 | one more successful code extends the run by that code's output |
| RunMerge.FailureStays | scripts/collect_entries.py:291-311 | an exception ends the run with that exception |
| RunMerge.CodeRows | scripts/collect_entries.py:216-227 | each code's overview and author rows carry that code, and its dataset and global rows are empty |
| RunMerge.RunOverview | scripts/collect_entries.py:312-314 | after n codes, `codes_processed = n` and the overview rows are the codes' rows in order |
| RunMerge.RunRows | scripts/collect_entries.py:315 | every accumulated author row belongs to a processed code |
| RunMerge.RunNoDetail | scripts/collect_entries.py:316-317 | the accumulated dataset and global rows stay empty |
| RunMerge.RunPicked | scripts/collect_entries.py:313 | `total_picked` is the number of entries written to the entries files |
| RunMerge.RunFiles | scripts/collect_entries.py:319-321 | every entries file is non-empty and belongs to a processed code |
| RunMerge.UpsertAllSpec | scripts/collect_entries.py:344-345 | the overwrite loop keeps one row per code, replacing in place and appending new codes |
| RunMerge.UpsertAllFresh | scripts/collect_entries.py:344-345 | rows with new, distinct codes are appended in order |
| RunMerge.UpsertAllPresent | scripts/collect_entries.py:344-345 | rows for known codes replace those rows in place, keeping the last row per code |
| RunMerge.UpsertAllOwn | scripts/collect_entries.py:253-259 | reading back a table with distinct codes gives that table |
| RunMerge.OverviewMerge | scripts/collect_entries.py:344-346 | the merged overview has one row per code of either table. A processed code has the run's last row, and any other code its prior row |
| RunMerge.OverviewMergeInPlace | scripts/collect_entries.py:344-346 | prior codes keep their positions and unprocessed rows are unchanged; new codes follow at the end |
| RunMerge.OverviewIdempotent | scripts/collect_entries.py:344-346 | merging the same run again changes nothing |
| RunMerge.MergeOverview | scripts/collect_entries.py:344-346 | the dictionary-overwrite loop computes the merged overview |
| RunMerge.UnprocessedAppend | scripts/collect_entries.py:275-277 | the filter distributes over concatenation |
| RunMerge.UnprocessedMembers | scripts/collect_entries.py:275-277 | a row is kept exactly when it is a prior row whose code is not processed |
| RunMerge.UnprocessedCodes | scripts/collect_entries.py:278-282 | no kept row belongs to a processed code |
| RunMerge.UnprocessedKeepsAll | scripts/collect_entries.py:275-277 | rows of unprocessed codes are all kept, in order |
| RunMerge.UnprocessedDropsAll | scripts/collect_entries.py:275-277 | rows of processed codes are all dropped |
| RunMerge.MergedRowsIdempotent | scripts/collect_entries.py:349 | filtering then appending the same run rows again changes nothing |
| RunMerge.KeyLessTotal | scripts/collect_entries.py:364 | the tuple order on `(main_author, dataset_id)` is total |
| RunMerge.KeyLessTransitive | scripts/collect_entries.py:364 | the tuple order is transitive |
| RunMerge.KeyLessIrreflexive | scripts/collect_entries.py:364 | the tuple order is strict |
| RunMerge.KeysOf | scripts/collect_entries.py:356-360 | the keys of `global_counts` in insertion order: distinct, and exactly the keys of the rows |
| RunMerge.SortKeys | scripts/collect_entries.py:364 | sorting keeps length and members |
| RunMerge.SortKeysSorted | scripts/collect_entries.py:364 | distinct keys sort strictly increasing |
| RunMerge.GlobalTableSpec | scripts/collect_entries.py:356-365 | the global table is strictly increasing by key, has one row for every key of the detail rows and no other, and each row's count is the sum of `n_entries` for its key |
| RunMerge.TalliedStep | scripts/collect_entries.py:357-360 | adding one detail row adds its `n_entries` to its key and appends a new key, keeping counts equal to the sums so far |
| RunMerge.TalliedTable | scripts/collect_entries.py:362-365 | the table of the accumulated counts in sorted key order is the global table |
| RunMerge.RecomputeGlobal | scripts/collect_entries.py:356-365 | the accumulation loop and sort compute the global table |
| RunMerge.Collect | scripts/collect_entries.py:273-365 | `collect()` returns the merged tables, entries files and totals of the specification, or the first exception |
| RunMerge.MergedIdempotent | scripts/collect_entries.py:344-365 | merging the same run into the merged tables changes none of the four tables |
| RunMerge.CollectIdempotent | scripts/collect_entries.py:274-365 | re-running `collect()` on its own output with the same per-code results writes the same tables and files |
| RunMerge.CollectTotals | scripts/collect_entries.py:312-352 | every code is counted. `total_picked` is the number of entries written. The entries files are non-empty and belong to processed codes, and the dataset table is the prior rows of unprocessed codes |

## Left out

- Command line, logging and `main` (`parse_args`, `configure_logging`, every `logger` call): user interface and diagnostics only.
- CSV and JSONL reading and writing, directory creation, and the per-code and run metadata JSON files with their `datetime.utcnow()` timestamps: the model has the tables as in-memory row sequences and the entries files as (code, entries) records.
- CSV values are typed: counts are integers, not the strings `int(...)` parses, and `dataset_id` is a string rather than an optional value.
- The network, `response.json()`, `timeout_s` and `time.sleep`: the attempt results and page results are inputs, and the sleeps are a ghost log.
- NomadApi.Backoffs: durations are the integers 1, 2, 4 and 8, not floating-point seconds.
- JSON numbers with a fraction or an exponent (Python floats) are not represented. An id such as `1.0` equals `1` and `True` in Python. Entries with such ids are outside the model.
- SHA-256 and `f"{seed}:{entry_id}"` are the uninterpreted parameter `h`. The claim that a different seed changes the pick depends on real digest values and is not stated.
- `json.dumps(raw, sort_keys=True)` for a dictionary author is the uninterpreted parameter `dumps`.
- `iter_terms_buckets`, `fetch_terms` and `Bucket`: the collector never calls them, and the loop in `iter_terms_buckets` has no exit.
- `max_datasets` and `polite_sleep`: they have no effect on the results.
- `scripts/schemas.py` is not part of this model: the code quantity and the datasets quantity are parameters.
- A truthy `data` field that is not a list is a malformed response in the model. Python would iterate it.
- A non-dictionary response body is also a malformed response. Python would raise `AttributeError` there.
- Every page source must contain a page that stops the loop. An endless cursor chain, on which the source never returns, is not modelled, and neither is the lazy interleaving of the generator.
- Entries files written before an exception aborts the run: the model returns only the exception.
- Two codes whose normalised names collide write to the same file in the source. The model keeps both records.
- CollectEntries.TagRepresentatives: the in-place update of the representative dictionary is modelled on values.
- Selection.PickReversal: the claim that reversing the input keeps the pick is false for the program, not merely unproved. Two different entries with the same id tie, the scan keeps the first, and Selection.PickReversalSharedId exhibits this. The pick is kept only when digests are distinct. Otherwise only the minimum digest is the same.
- CollectEntries.FoldRepOrderFree: likewise, order independence is stated only under distinct digests. One author's candidates that share an id are equal dictionaries, so this excludes only digest collisions between different ids.
- RunMerge.CollectIdempotent: requires that each code's rows carry that code, which RunMerge.CodeRows proves for every input.
- The concrete strings of the normalisation test are covered as instances of Selection.NormalizeJoin, not evaluated literally.
