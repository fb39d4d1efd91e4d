# Semantic memory daemon: a Dafny model of its storage and retrieval core

The daemon keeps two SQLite tables and serves seven JSON routes. Five of them
are modelled here; `/health` and `/stats`, which only probe services and count
rows, are left out (see "## Left out"):

- `learnings`: curated, distilled knowledge.
  - `/store` embeds a candidate learning. It refuses the candidate when it is a
    near-duplicate of a stored one, and otherwise appends it under a fresh
    AUTOINCREMENT id.
  - `/recall` returns the stored learnings most similar to a query.
- `transcript_chunks`: raw session history, one row per
  `(session_id, chunk_index)`.
  - `/chunks/store` writes a chunk with `INSERT OR REPLACE`.
  - `/chunks/search` returns the best-matching chunks, each cut to its first
    500 characters followed by `...` when longer.
  - `/chunks/sessions` groups matching chunks by session. It scores each
    session as 60% its best chunk plus 40% the mean of its matching chunks,
    and returns the best sessions.

The model keeps what these routes compute and drops HTTP, JSON and SQLite:

- A table is a sequence of rows in scan order (rowid order) together with its
  AUTOINCREMENT counter.
- A route is a pure function from the table, the request and the embedding
  service's answer to a `Response` (200 with a value, 400 or 500). A storing
  route also returns the new table.
- The similarity measure is a parameter `sim: (Embedding, Embedding) -> real`.
  The embedding of the query or content is a parameter `Option<Embedding>`;
  `None` stands for a failed embedding call.

Modules:

- `Wrappers`: `Option` and the three-way `Response`.
- `Rounding`: Python's `round(x, 4)` (`Round4`) and the grid of four-decimal
  values.
- `Ranking`: the pipeline the three search routes share.
  1. Keep the rows whose raw similarity reaches the threshold.
  2. Report each with its rounded similarity.
  3. Sort stably in descending order of the rounded score
     (`list.sort(reverse=True)`).
  4. Cut to the first `k`.
- `Vectors`: the dot product under the cosine similarity.
- `Learnings`: the `learnings` table, `/store` and `/recall`.
- `Chunks`: the `transcript_chunks` table, `/chunks/store` and
  `/chunks/search`.
- `Sessions`: `/chunks/sessions`.

Properties worth reading first:

- `Ranking.SortDescUnique` characterises the sort completely. A descending
  sequence that keeps every score class of the input, in input order, *is* the
  sort.
- `Ranking.Rank` states the meaning of "top k". Every row left out is beaten
  or tied by every row returned.
- `Sessions.TalliesAgree` proves the per-session aggregation loop correct
  against a reference definition. The reference collects each session's
  matching similarities directly from the table.
- `Sessions.FindRelevantSessions` then proves that every reported session is
  that session's reference entry. Each session appears once, and a relevant
  session is missing only when the cap was reached by sessions scoring at
  least as well. Sessions of equal score come in the order of their first
  matching chunk, and the cap cuts the later of them.
- The threshold is applied to the raw similarity, but entries report the
  rounded one. `Rounding.Round4KeepsGridThreshold` shows that a reported
  similarity still clears a four-decimal threshold.
  `Rounding.Round4CanFallBelowThreshold` shows that it can fall below a finer
  one: with `minSimilarity` 0.45001, a similarity of 0.45001 is kept and
  reported as 0.45.

## Model

| member | source | states |
|---|---|---|
| `Learnings.FirstMatch` | daemon/server.py:121-132 | The duplicate scan returns the index of the first row in scan order whose similarity to the candidate reaches the threshold; it returns nothing exactly when no row reaches it. |
| `Learnings.Store` | daemon/server.py:104-150 | A missing `type` or `content` gives 400 and a failed embedding gives 500, both with the table unchanged; a complete request with an embedding always gets 200. A row reaching the duplicate threshold gives `duplicate` with the first such row's id and similarity, and the table unchanged. Otherwise the learning is appended with its fields, `confidence` defaulting to 0.9, under an id above the counter, which on a valid table is larger than every stored id; earlier rows are untouched and validity is preserved. |
| `Learnings.StoreThenDuplicate` | daemon/server.py:121-146 | Under the configured duplicate threshold 0.92, storing a learning unlike every row and then one at least 0.92 similar to it, but to no older row, first appends a row and then answers `duplicate` with that row's id and the similarity, writing nothing. |
| `Learnings.StoreAllFreshIds` | daemon/server.py:134-146 | Over any sequence of `/store` calls, the ids handed out are strictly increasing, all above the initial counter and none above the final one. |
| `Learnings.MemoriesSound` | daemon/server.py:173-185 | Every memory the ranking reports is a stored learning whose raw similarity reached `minSimilarity`, reported with its fields and its similarity rounded to 4 places; with a four-decimal threshold every reported similarity clears it. |
| `Learnings.MemoriesTieOrder` | daemon/server.py:172-190 | Two reported memories of equal similarity come from rows in the same scan order; with increasing ids, the earlier has the smaller id. |
| `Learnings.MemoriesDistinct` | daemon/server.py:172-191 | With ids increasing in scan order, the reported memories have pairwise different ids. |
| `Learnings.MemoriesComplete` | daemon/server.py:189-191 | A learning that reached the threshold but is not reported was cut by `maxResults`, and every reported memory scores at least its rounded similarity. |
| `Learnings.RankMemories` | daemon/server.py:172-191 | The memories are exactly `min(maxResults, n)` where `n` counts the rows reaching the threshold. They come in non-increasing similarity and are sound and complete in the sense above; an empty table gives none. Memories of equal similarity appear in scan order of their rows, and the cut keeps the earliest of a tie: a qualifying row whose memory is missing although a returned memory ties its rounded similarity comes, in scan order, after a qualifying row that memory reports. When ids increase in scan order, no id is reported twice, and ties come in increasing id. |
| `Learnings.Recall` | daemon/server.py:152-193 | A request without `query` gives 400 and exactly then; a failed embedding gives 500 and exactly then. Otherwise it returns the ranked memories under the request's `minSimilarity` and `maxResults`, or the configuration's when absent: exactly `min(maxResults, n)` of them, ties in scan order, a tie cut by `maxResults` losing only to rows earlier in scan order, and on a valid table no id twice and ties by increasing id. |
| `Learnings.RecallDefaults` | daemon/server.py:165-191 | With the configured 0.45 threshold and cap 3 and no limits in the request, `/recall` answers 200 with `min(3, n)` memories, `n` the rows reaching 0.45; none when no row does. |
| `Ranking.KeepAtLeast` | daemon/server.py:177-185 | A row is kept exactly when its score reaches the threshold. |
| `Ranking.TopK` | daemon/server.py:176-191 | The pipeline returns at most `k` rows, exactly `min(k, n)` where `n` is the number of rows clearing the raw threshold, in non-increasing rounded score. |
| `Ranking.KeepAtLeastAppend` | daemon/server.py:176-185 | Filtering a table read in two parts is filtering each part and concatenating, so the kept rows stay in scan order with their multiplicity. |
| `Ranking.KeepAtLeastPicks` | daemon/server.py:176-185 | The kept rows are the input rows at strictly increasing positions, and every row reaching the threshold is among them. |
| `Ranking.KeepAtLeastCount` | daemon/server.py:176-185 | The filter keeps exactly as many rows as reach the threshold. |
| `Ranking.SortDesc` | daemon/server.py:190 | The sorted sequence is a permutation of the input and is non-increasing. |
| `Ranking.SortDescStable` | daemon/server.py:190 | The rows of every score class appear in the sorted sequence in their input order. |
| `Ranking.SortedTiePositions` | daemon/server.py:190 | Two equal-score rows of the sorted sequence sit in the input at positions in the same order. |
| `Ranking.SortDescUnique` | daemon/server.py:190 | Any non-increasing sequence that keeps every score class of the input in input order equals the sort, so the sort is exactly Python's stable descending sort. |
| `Ranking.Rank` | daemon/server.py:189-191 | Sort then cut: the result has `min(k, n)` rows, is non-increasing, is drawn from the input, and every row left out has a score no better than every row kept. |
| `Ranking.RankIsPrefix` | daemon/server.py:190-191 | Sort then cut is the first `k` rows of any non-increasing arrangement that keeps each score class of the input in input order, so which tied rows survive the cut is fixed: the earliest. |
| `Ranking.SortedCutEarliest` | daemon/server.py:190-191 | An input row left beyond the first `n` of the stable sort is preceded in the input by every kept row with its score. |
| `Ranking.RankCutEarliest` | daemon/server.py:190-191 | An input row cut from the top `k` although a returned row ties it comes after that returned row in the input. |
| `Ranking.TopKSound` | daemon/server.py:177-185 | Every row the pipeline returns is an input row that cleared the raw threshold, reported with its rounded score. |
| `Ranking.TopKComplete` | daemon/server.py:189-191 | A row that cleared the threshold but is missing was cut by the cap, and every returned row scores at least its rounded score. |
| `Ranking.TopKTieOrder` | daemon/server.py:176-191 | Of two returned rows with equal score, the earlier is the report of an input row that cleared the threshold at an earlier position. |
| `Ranking.TopKCutEarliest` | daemon/server.py:176-191 | A row that cleared the threshold but whose report was cut, although a returned row ties its rounded score, is preceded in the input by a qualifying row that the returned row reports. |
| `Ranking.TopKKeepsEarliest` | daemon/server.py:176-191 | The same for every cut row and every returned row tying it at once. |
| `Ranking.TopKKeysDistinct` | daemon/server.py:176-191 | Input rows with pairwise different keys give returned rows with pairwise different keys. |
| `Ranking.RowsTieOrder` | daemon/server.py:172-191 | Over a table, returned entries of equal score report qualifying rows in scan order. |
| `Ranking.RowsKeepEarliest` | daemon/server.py:172-191 | Over a table, a qualifying row whose entry was cut although a returned entry ties it comes, in scan order, after a qualifying row that entry reports. |
| `Ranking.RowsKeysDistinct` | daemon/server.py:172-191 | Over a table whose rows have pairwise different keys, the returned entries do too. |
| `Ranking.TopKRows` | daemon/server.py:172-191 | For a table, a row projection and a score, the pipeline's entries are reports of rows that cleared the threshold, and rows missing were cut by the cap; with a four-decimal threshold the rounded scores still clear it. |
| `Rounding.Round4` | daemon/server.py:184 | `round(x, 4)` yields a value on the four-decimal grid. |
| `Rounding.Round4Close` | daemon/server.py:184 | Rounding to 4 places moves a value by at most half a unit in the fourth place. |
| `Rounding.Round4Monotone` | daemon/server.py:184 | Rounding to 4 places preserves order. |
| `Rounding.Round4OnGrid` | daemon/server.py:184 | A value already on the four-decimal grid is unchanged by rounding. |
| `Rounding.Round4KeepsGridThreshold` | daemon/server.py:177-184 | A similarity that reached a four-decimal threshold is still at or above it after rounding. |
| `Rounding.Round4CanFallBelowThreshold` | daemon/server.py:177-184 | With a threshold finer than 4 decimals, a similarity can clear it yet be reported below it after rounding. |
| `Vectors.DotSymmetric` | daemon/server.py:81-85 | The dot product at the heart of the cosine similarity is symmetric. |
| `Chunks.Upsert` | daemon/server.py:241-249 | `INSERT OR REPLACE` under `UNIQUE(session_id, chunk_index)`: the old row of that key, if any, is gone, and the new row sits last with the next AUTOINCREMENT id and the given fields. Before it come exactly the old rows of other keys, in their scan order (`WithoutKey`). The key-to-content map is updated at exactly that key, and the table stays valid. |
| `Chunks.WithoutKeyPicks` | daemon/server.py:241-249 | The rows that `REPLACE` leaves behind are the old rows at strictly increasing positions, and every row of another key is among them. |
| `Chunks.UpsertTwice` | daemon/server.py:241-249 | Storing the same key twice leaves as many rows and the same contents as storing it once. |
| `Chunks.StoreChunk` | daemon/server.py:223-256 | A missing `session_id`, `chunk_index` or `content` gives 400 and a failed embedding gives 500, both with the table unchanged; a complete request with an embedding always gets 200. Otherwise the key is echoed and the counter advances by one. The new row sits last with that id, the request's session, index and content, and the embedding. Before it come exactly the old rows of other keys in scan order, so the table holds exactly one row with that key. The contents are updated at that key, and validity is preserved. |
| `Chunks.Snippet` | daemon/server.py:288 | Content of at most 500 characters is returned as is; longer content becomes its first 500 characters followed by `...`, 503 in all. The snippet equals the content exactly when the content is at most 500 long or already has that shape. |
| `Chunks.SnippetIdempotent` | daemon/server.py:288 | Taking the snippet of a snippet changes nothing. |
| `Chunks.HitsSound` | daemon/server.py:280-290 | Every hit the ranking reports is a stored chunk whose raw similarity reached `minSimilarity`, reported with its session, index, snippet and rounded similarity; with a four-decimal threshold every reported similarity clears it. |
| `Chunks.HitsComplete` | daemon/server.py:294-296 | A chunk that reached the threshold but is not reported was cut by `maxResults`, and every reported hit scores at least its rounded similarity. |
| `Chunks.RankHits` | daemon/server.py:279-296 | The hits are exactly `min(maxResults, n)` where `n` counts the chunks reaching the threshold. They come in non-increasing similarity, are sound and complete in the sense above, and every snippet is at most 503 characters. Hits of equal similarity appear in scan order, and a qualifying chunk whose hit is missing although a returned hit ties it comes, in scan order, after a qualifying chunk that hit reports. Chunks with pairwise different keys give hits with pairwise different `(session_id, chunk_index)`. |
| `Chunks.HitsDistinct` | daemon/server.py:279-296 | Chunks with pairwise different keys give hits with pairwise different `(session_id, chunk_index)`. |
| `Chunks.SearchChunks` | daemon/server.py:259-298 | A request without `query` gives 400 and exactly then; a failed embedding gives 500 and exactly then. Otherwise it returns the ranked hits under `minSimilarity` (default 0.35) and `maxResults` (default 10): exactly `min(maxResults, n)` of them, ties in scan order, a tie cut by `maxResults` losing only to chunks earlier in scan order, and on a valid table no `(session_id, chunk_index)` twice. |
| `Sessions.MaxOf` | daemon/server.py:337-339 | The running `max(best, sim)` is one of the similarities and no smaller than any of them. |
| `Sessions.ScoreRelations` | daemon/server.py:346-350 | For similarities that all reach the threshold, the mean lies between the threshold and the best; the 60/40 composite lies between the mean and the best, and so reaches the threshold. |
| `Sessions.AddMatch` | daemon/server.py:328-342 | A matching chunk of an untallied session opens a new tally at the end (dict insertion order). One of a tallied session bumps that tally's max, total, count and indices in place and leaves every other tally alone. |
| `Sessions.Tallies` | daemon/server.py:322-342 | After the aggregation loop no session has two tallies, and every tally counts at least one chunk. |
| `Sessions.TalliesAgree` | daemon/server.py:322-342 | After the aggregation loop, each session appears in at most one tally, and exactly the sessions with a matching chunk have one. Each tally's count, best, total and chunk indices equal those of its session's matching chunks in scan order. |
| `Sessions.FirstMatching` | daemon/server.py:323-335 | The scan position of a session's first chunk at or above the threshold, where the loop inserts the session into the dict: that chunk is of the session and matches, and no earlier one does; the length of the table when no chunk does. |
| `Sessions.TalliesFirstMatchOrder` | daemon/server.py:322-342 | The tallies come in the dict's insertion order: each session has a first match, and earlier tallies have earlier first matches. |
| `Sessions.ReportIsSessionOf` | daemon/server.py:346-356 | The entry built from a tally that holds exactly its session's matching chunks has a positive count and is that session's reference entry: best, mean and 60/40 composite of those chunks, each rounded to 4 places. |
| `Sessions.Reports` | daemon/server.py:346-358 | The entries are built one per tally, in the dict's insertion order. |
| `Sessions.ReportsAgree` | daemon/server.py:346-358 | Every aggregated entry is the reference entry of a relevant session, no entry repeats, and every session with a matching chunk has its entry. |
| `Sessions.RankedSessions` | daemon/server.py:360-362 | After sorting and cutting, each session appears at most once and each entry is its session's reference entry. A relevant session is missing only when the cap was reached by sessions whose composite score is at least its own. |
| `Sessions.TiedSessionsOrder` | daemon/server.py:360-362 | Sorting entries listed in first-match order stably and cutting keeps equal-score entries in first-match order. |
| `Sessions.CutSessionsOrder` | daemon/server.py:360-362 | A relevant session cut by the cap although a returned entry ties its score first matched after that entry's session. |
| `Sessions.RankedSessionsOrder` | daemon/server.py:322-362 | Over a table, the ranked sessions keep ties in first-match order, and the cap cuts the later of tied sessions. |
| `Sessions.RankSessions` | daemon/server.py:346-362 | The sorted and cut sessions: at most `k`, non-increasing, one per session, each a relevant session's reference entry, complete up to the cap, ties in first-match order and the later of tied sessions cut. |
| `Sessions.FindRelevantSessions` | daemon/server.py:301-364 | A request without `query` gives 400 and exactly then; a failed embedding gives 500 and exactly then. Otherwise at most `maxSessions` (default 5) entries, in non-increasing composite score, one per session, each the reference entry of a session with a chunk at or above `minSimilarity` (default 0.35), complete up to the cap. Sessions of equal composite score come in the scan order of their first matching chunk, and a relevant session cut by the cap although a reported session ties it first matched after that session. |
| `Sessions.SessionScores` | daemon/server.py:346-356 | Every reported session's rounded composite lies between its rounded mean and its rounded best. With a four-decimal threshold, its mean and composite still clear the threshold after rounding. |

## Left out

- HTTP and JSON plumbing: Flask, `request.json`, `jsonify`. A request is a datatype of optional fields. A field present with JSON `null` is not distinguished from an absent one. The error message texts are not modelled.
- `/health`, `/stats`, `init_db` and the `__main__` start-up are not modelled: they only probe services, count rows or create the schema.
- The embedding call to Ollama is a network request. Its outcome is an input, `None` for the exception path.
- `cosine_similarity` is left abstract as the parameter `sim`, because NumPy floating point cannot be reproduced over reals. Only its dot product's symmetry is proved. A zero vector makes NumPy return NaN, which fails every threshold; the model does not represent NaN.
- `cosine_similarity` on embeddings of different lengths: `np.dot` raises `ValueError`. Nothing in `/store`, `/recall`, `/chunks/search` or `/chunks/sessions` catches it, so Flask answers 500. The total parameter `sim` returns a value for every pair and cannot express this, so the model assumes every stored embedding has the query's length.
- Floating point in general: similarities, sums and means are reals. Python's `round` is modelled as round-half-up at the fourth decimal of the exact value, while Python rounds the binary double and breaks exact ties to even. The two differ only on ties. Only `Rounding.Round4Close`'s strict lower bound depends on the rule (see below).
- `config.json` is not part of this model: the configuration is an input (`Learnings.Config`). `Learnings.DefaultConfig` (threshold 0.45, cap 3, duplicate threshold 0.92) is an assumed configuration, not read from a file; only `Learnings.RecallDefaults` and `Learnings.StoreThenDuplicate` use it.
- Database failures are not modelled: the `except` around `INSERT OR REPLACE` that answers 500, and failed connections or commits. Neither is concurrency between requests.
- `created_at` timestamps are not modelled: no route reads them.
- `Learnings.Store`: the new id is the counter plus one. SQLite's AUTOINCREMENT issues one more than the larger of `sqlite_sequence` and the largest rowid. The two agree on every valid table, where no stored id exceeds the counter, and every table the routes produce is valid; on an invalid table the model's id can fall below a stored one.
- `Chunks.Upsert`: SQLite's `REPLACE` deletes the conflicting row and inserts a new one with a fresh rowid. The model places that row last in scan order, which is rowid order for this table.
- `Sessions.FindRelevantSessions`: the tallies keep each session's `chunk_indices`, as the loop does, but the route does not report them, so neither does the model.
- `Learnings.Recall`: a failed embedding answers 500, as the code does, rather than degrading to an empty result.
- `Rounding.Round4Close`: the lower bound `x - 0.00005 < Round4(x)` is strict only under round-half-up. Python's `round` can land exactly on `x - 0.00005` on a tie (for example `round(0.03125, 4)` gives 0.0312), so for the source only `x - 0.00005 <= round(x, 4)` is promised.
- Negative `maxResults` and `maxSessions`, for which Python slicing counts from the end, are not modelled: the limits are `nat`.
