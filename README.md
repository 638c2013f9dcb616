# A verified model of the aiuser RAG pipeline

This project models, in Dafny, the retrieval-augmented-generation core of the
`aiuser` Discord cog. It covers:

- the text layer: whitespace normalisation, the overlapping chunker and the
  emote-only filter;
- the ingest fold: filtering, chunking, payload building, de-duplication by
  content hash, and an upsert into a point collection;
- retrieval: the per-guild fallbacks for top-k and min-score, and the
  assembly of the numbered context block and its citations;
- the Qdrant filters built by the retention, privacy and export operations,
  and the page-drain loop of the exports;
- the command logic of `aiuser/settings/rag.py`: `autoingest`, `scope`,
  `privacy delete-mine`, `rag clear` and the `rag search` reply.

The external services become values or parameters:

- The vector collection is the class `Store.VectorStore`. Its field is a
  `map` from point id to point. `Upsert` overwrites under the batch's ids.
  `Delete` keeps exactly the points the filter does not select.
- A Qdrant filter is the datatype `Filters.Filter`, with `must` and `should`
  lists of match and range conditions. `Matches` says which payloads it
  selects. A delete whose filter is absent is read as selecting every
  point; "## Left out" says why this is an assumption.
- Scrolling is a sequence of `Retention.Page`s. The `i`-th scroll answers
  page `i`, a page without a successor ends the loop, and `ScrollFailed`
  stands for a store exception.
- These are function-typed parameters: SHA-256 (`fingerprint`), the sentence
  embedder (`encode`), the date parser with its conversion to whole seconds
  (`parse`), and the PDF, Word and UTF-8 readers.
- Clock readings are plain values (`builtAt`, `mergedAt`, `nowTs`).
- The Discord context is reduced to plain values: the reply reference, the
  mentions, the author id and the guild id.

Re-ingesting the same text from another origin does not merge `sources`.
The code never reads the stored point, a batch has a single source, and
`client.upsert` replaces what was stored under the same id.
`Ingest.SingleSource` and `Ingest.ReingestReplacesSources` state this:
after any ingest, the points it wrote list exactly its own source.

Python semantics the command parsers depend on are written out in
`PyParse` and `Text`:

- `str.split()` over Python's whitespace, and `s.split(c)`.
- `s.split(p, 1)[1]`.
- `int()`: an optional sign, then ASCII digits with single underscores
  between them.
- `list.extend` over a generator. It keeps what was appended before `int`
  raises.
- Slicing with a negative bound, for a negative context budget.
- Truthiness, as in `guild_topk or global` and `if guild_id:`.
- `str.lower()`, modelled on ASCII letters. This is exact for every decision
  the core takes with it. No non-ASCII character lower-cases to a string
  equal to one of the ASCII words or extensions being compared.

## Model

| member | source | states |
|---|---|---|
| Text.NormalizeIsNormalized | aiuser/rag/client.py:34-35 | the result of `_normalize` has no whitespace at either end, uses only single plain spaces |
| Text.NormalizeIdempotent | aiuser/rag/client.py:34-35 | normalising twice gives the same text as normalising once |
| Text.NormalizeKeepsWords | aiuser/rag/client.py:34-35 | normalising keeps exactly the words of the text, in order |
| Text.WordsOfJoin | aiuser/rag/client.py:35 | splitting a single-space join of words gives those words back |
| Text.BlankIffNoWords | aiuser/rag/client.py:155 | `not content.strip()` holds exactly when the text has no words, exactly when it normalises to the empty string |
| Chunking.Chunk | aiuser/rag/client.py:38-50 | the chunks are those of the normalised text; there is at least one, none is longer than `max_chars`, and the first chunk followed by the others minus their first `overlap` characters is the normalised text |
| Chunking.ChunkNormalized | aiuser/rag/client.py:40-50 | the `while` loop: a text that fits is returned whole; otherwise the windows, each at most `max_chars`, which reassemble the text |
| Chunking.ChunkLayout | aiuser/rag/client.py:42-50 | chunk k starts at k·(max_chars − overlap) and is the slice of the text from there; every chunk but the last is exactly `max_chars` long and the next starts `max_chars − overlap` later; the last one runs to the end of the text |
| Chunking.ChunksReassemble | aiuser/rag/client.py:38-50 | dropping the overlap from every chunk after the first and concatenating gives back the normalised text |
| Chunking.ChunksBounded | aiuser/rag/client.py:38-50 | `_chunk` returns at least one chunk and none longer than `max_chars` |
| Chunking.WindowStartsClosedForm | aiuser/rag/client.py:43-49 | the k-th window starts k·(max_chars − overlap) after the first |
| Chunking.WindowsReassemble | aiuser/rag/client.py:44-50 | the windows from any start reassemble to the rest of the text from that start |
| Emote.EmoteOnlyIff | aiuser/rag/client.py:56-63 | `_is_emote_only` holds exactly when no letter or digit is left once the emoji tags are removed; it holds for the empty text |
| Emote.PiecesAreEmoteOnly | aiuser/rag/client.py:53-63 | a text made only of well-formed `<a?:name:id>` tags, whitespace and non-word characters is emote-only |
| Emote.PlainTextEmoteOnly | aiuser/rag/client.py:56-63 | a text without `<` is emote-only exactly when it holds no letter or digit |
| Emote.TagRecognised | aiuser/rag/client.py:53 | the tag pattern matches a whole well-formed tag at the start of the text, and no more |
| Emote.RemoveNonWordEmpty | aiuser/rag/client.py:62-63 | the `[\W_]+` removal leaves nothing exactly when the text holds no letter or digit |
| Emote.RemoveSpacesKeepsAlnum | aiuser/rag/client.py:60 | removing whitespace neither adds nor removes letters and digits |
| Ingest.SameTextSameHash | aiuser/rag/client.py:159 | chunks with the same normalised text get the same content hash |
| Ingest.HashOfNormalized | aiuser/rag/client.py:159 | the content hash is unchanged by normalising the text first |
| Ingest.EmptyBatch | aiuser/rag/client.py:141-171 | no payload is built exactly when every message is skipped for a bot author, blank content or emote-only content |
| Ingest.MessageWellFormed | aiuser/rag/client.py:144-168 | every payload of a message carries the batch's source as its source and as its only listed source, and its content hash is that of its text |
| Ingest.BatchHashes | aiuser/rag/client.py:141-169 | every payload of a batch is well formed in that sense |
| Ingest.BuildPayloads | aiuser/rag/client.py:141-169 | the filter-and-chunk loop produces exactly the batch's payloads, with the parallel `texts` list holding each payload's text |
| Ingest.PayloadsForChunks | aiuser/rag/client.py:157-169 | the inner loop builds one payload per chunk in order, and `texts` is the chunks |
| Ingest.MergePayloads | aiuser/rag/client.py:174-181 | the `unique` loop computes the de-duplication map |
| Ingest.DedupKeys | aiuser/rag/client.py:174-181 | the de-duplicated map has exactly one entry per distinct content hash, and each entry is keyed by its own hash |
| Ingest.DedupCount | aiuser/rag/client.py:174-185 | the number of unique points is the number of distinct hashes |
| Ingest.DedupEntry | aiuser/rag/client.py:175-181 | a merged entry keeps the metadata of the first payload with its hash; its sources are the union of the sources of all payloads with that hash; its `last_seen` is refreshed exactly when the hash repeats |
| Ingest.SourcesAll | aiuser/rag/client.py:175-181 | within a batch the merged sources of any hash are the single batch source |
| Ingest.VectorsKeys | aiuser/rag/client.py:182 | `vectors_map` has one vector per distinct hash |
| Ingest.VectorOfLast | aiuser/rag/client.py:182 | for a repeated hash, `vectors_map` holds the vector of its last payload |
| Ingest.Embed | aiuser/rag/client.py:172 | the embedder returns one vector per text |
| Ingest.PointIds | aiuser/rag/client.py:182-183 | the points are keyed by the distinct hashes; each point's id is its key and the content hash of its text |
| Ingest.SingleSource | aiuser/rag/client.py:167-178 | every point an ingest writes lists exactly its source |
| Ingest.ReingestReplacesSources | aiuser/rag/client.py:184 | after the upsert a point of the batch lists only the batch's source, whatever was stored under its id before |
| Ingest.IngestMessages | aiuser/rag/client.py:133-185 | with no payload, 0 is returned and the store is untouched; otherwise the store gains the batch's points over the old ones and the count is the number of distinct hashes |
| Store.DeleteOverUpsert | aiuser/rag/client.py:184 | deleting after an upsert keeps the unselected points of the batch, and the unselected stored points the batch does not overwrite |
| Store.DeleteCommutes | aiuser/rag/client.py:323 | two filtered deletes give the same collection in either order |
| Store.DeleteIdempotent | aiuser/rag/client.py:383 | deleting twice with the same filter is deleting once |
| Store.DeleteUnfilteredClears | aiuser/rag/client.py:381-383 | under the reading of `filter=None` recorded in "## Left out", a delete without a filter empties the collection |
| Store.UpsertOverwrites | aiuser/rag/client.py:184 | an upsert replaces the points under the batch's ids and keeps every other id |
| Store.VectorStore.Upsert | aiuser/rag/client.py:184 | the new collection is the old one overwritten by the batch |
| Store.VectorStore.Delete | aiuser/rag/client.py:323 | the new collection is the old one minus the selected points; no selected point remains |
| Filters.GuildFilter | aiuser/rag/client.py:255-257 | the retrieval filter selects exactly the payloads of the guild |
| Filters.UserFilter | aiuser/rag/client.py:298 | the `delete_user` filter selects exactly the payloads of the author |
| Filters.GuildUserFilter | aiuser/rag/client.py:389-392 | the `export_user` filter selects exactly the payloads of the author in the guild |
| Filters.AnyIdHolds | aiuser/rag/client.py:318 | the `should` list over the ids holds exactly for the payloads whose message id is listed |
| Filters.IdsFilter | aiuser/rag/client.py:315-322 | no filter for an empty id list; otherwise it selects exactly the listed message ids, by the given author when one is given |
| Filters.RetentionFilter | aiuser/rag/client.py:328-336 | no filter for zero days; otherwise it selects exactly the payloads created at or before now − days·86400, in the guild when a truthy guild is given |
| Filters.OptMatchHolds | aiuser/rag/client.py:368-373 | an optional field match holds exactly when the field is unset or equal |
| Filters.ScopeConditions | aiuser/rag/client.py:367-380 | the `must` list is empty exactly when nothing is supplied, and holds exactly for payloads in scope whose time lies in [after, before] |
| Filters.ScopedFilter | aiuser/rag/client.py:381 | no filter exactly when nothing is supplied; otherwise one that selects exactly the payloads in scope and window |
| Retrieval.TopK | aiuser/rag/client.py:284-286 | the guild's top-k when it is set and non-zero, the global one otherwise |
| Retrieval.MinScore | aiuser/rag/client.py:288-290 | the guild's min-score whenever it is set, the global one otherwise |
| Retrieval.ZeroOverrides | aiuser/rag/client.py:284-290 | a guild top-k of 0 falls back to the global value, while a guild min-score of 0.0 is honoured |
| Retrieval.Request | aiuser/rag/client.py:252-264 | the search is limited to top-k, thresholded at min-score and restricted to the caller's guild |
| Retrieval.Truncate | aiuser/rag/client.py:280-281 | the cut context is a prefix of the join, of length min(budget, length) for a non-negative budget and length − |budget| (at least 0) for a negative one |
| Retrieval.RetrieveContext | aiuser/rag/client.py:265-282 | no hits gives `(None, None)`; otherwise the numbered blocks joined by blank lines and cut to the budget, with one citation per hit in order |
| Retrieval.BlockInContext | aiuser/rag/client.py:275-281 | block k, `[k+1] text`, sits whole in the context at its place in the join whenever it ends within the budget |
| Retrieval.EmptyContext | aiuser/rag/client.py:279-281 | with at least one hit, the context is empty exactly when the budget is 0 or a negative budget cuts away the whole join |
| Retrieval.ContextFits | aiuser/rag/client.py:279-281 | a join that fits the budget is returned uncut |
| Retention.DeleteUser | aiuser/rag/client.py:292-302 | exactly the author's points are deleted; none of them remains |
| Retention.DeleteMessagesByIds | aiuser/rag/client.py:313-325 | an empty id list deletes nothing; otherwise exactly the listed messages, of the author when given |
| Retention.DeleteOlderThan | aiuser/rag/client.py:327-338 | zero days deletes nothing; otherwise exactly the points at or before the cutoff, in the guild when a truthy guild is given |
| Retention.BuildScope | aiuser/rag/client.py:367-381 | the appends build exactly the scoped filter |
| Retention.DeleteFiltered | aiuser/rag/client.py:365-385 | a point survives exactly when it is outside the scope or outside the time window |
| Retention.DrainPages | aiuser/rag/client.py:396-405 | the scroll loop collects every page's records in order until the last page or the first failure |
| Retention.ExportUser | aiuser/rag/client.py:387-405 | the export filter selects exactly the author's payloads in the guild, and the drained records are returned |
| Retention.ExportAll | aiuser/rag/client.py:407-428 | the filter is the conjunction of exactly the supplied fields, and there is none when no field is supplied; the drained records are returned |
| Retention.DrainIsPrefix | aiuser/rag/client.py:396-405 | the export is a prefix of all the records the store pages out, and all of them when no scroll fails |
| Retention.DrainMatches | aiuser/rag/client.py:398-400 | when every page holds only selected records, so does the export |
| Extraction.KindOf | aiuser/rag/client.py:234-245 | the lower-cased name picks text for `.txt`/`.md`, then PDF for `.pdf`, then Word for `.docx`, and nothing else |
| Extraction.KindIgnoresCase | aiuser/rag/client.py:234 | the file type does not depend on the case of the name |
| Extraction.ExtractText | aiuser/rag/client.py:232-248 | an unsupported name gives `None`; a text file its decoding; a PDF or Word file `None` exactly when its reader fails |
| Extraction.UrlText | aiuser/rag/client.py:212-213 | a failed fetch gives `None`; otherwise a prefix of the extracted text of at most 20000 characters, the whole text when it is that short |
| Extraction.IngestText | aiuser/rag/client.py:188-199 | no text or empty text ingests nothing; otherwise the text is ingested as one message |
| Extraction.IngestUrl | aiuser/rag/client.py:187-199 | a failed or empty fetch ingests nothing; otherwise the text cut to 20000 characters is ingested as one message by the invoker, giving the count and the new store of `ingest_messages`; every new point names the URL as its source |
| Extraction.IngestBytes | aiuser/rag/client.py:218-230 | an unsupported file, a failing reader or an empty text ingests nothing; otherwise the extracted text is ingested as one message, giving the count and the new store of `ingest_messages`; every new point names the file as its source |
| Extraction.NewPointsFromSource | aiuser/rag/client.py:199 | the points of an ingested text list exactly its origin as source |
| PyParse.SplitOn | aiuser/settings/rag.py:175 | `csv.split(",")` yields at least one piece |
| PyParse.JoinSplit | aiuser/settings/rag.py:175 | joining the pieces with the separator gives the string back |
| PyParse.SplitPiecesFree | aiuser/settings/rag.py:175 | no piece holds the separator |
| PyParse.SplitJoin | aiuser/settings/rag.py:175 | splitting a join of separator-free pieces gives the pieces back |
| PyParse.FirstAt | aiuser/settings/rag.py:171 | `split("--ids", 1)` cuts at an occurrence of the flag |
| PyParse.FirstAtIsFirst | aiuser/settings/rag.py:171 | no occurrence of the flag starts before the cut |
| PyParse.PyIntOfNat | aiuser/settings/rag.py:175 | `int` reads back a rendered natural number, signed or not |
| PyParse.UnderscoreGrouping | aiuser/settings/rag.py:175 | a single underscore between digits does not change what `int` reads |
| PyParse.Rejected | aiuser/settings/rag.py:175-177 | empty text, a lone sign, a trailing or doubled underscore and a stray letter make `int` raise |
| RagSettings.AutoIngest | aiuser/settings/rag.py:48 | the stored value is true exactly when the lower-cased argument is one of on/true/yes/1/enable/enabled |
| RagSettings.AutoIngestIgnoresCase | aiuser/settings/rag.py:48 | the decision does not depend on the case of the argument |
| RagSettings.AutoIngestExamples | aiuser/settings/rag.py:48 | `ON` and `Enabled` switch it on; `off` and ` on` do not |
| RagSettings.ScopeCommand | aiuser/settings/rag.py:54-58 | the stored scope is either the old one or the lower-cased argument, and it is a valid scope unless it is the old one; the warning is sent exactly when the argument is no scope |
| RagSettings.ScopeStaysValid | aiuser/settings/rag.py:54-57 | a valid stored scope stays valid |
| RagSettings.ScopeAccepted | aiuser/settings/rag.py:54-58 | a warning leaves the scope unchanged; a valid argument is stored lower-cased; the command ignores case |
| RagSettings.DeleteMineOutcome | aiuser/settings/rag.py:178-185 | `--all` wins over any ids; otherwise the collected ids are deleted when there are any; otherwise only the warning is sent |
| RagSettings.AuthorScoped | aiuser/settings/rag.py:179-183 | whatever `delete-mine` deletes belongs to the invoking author |
| RagSettings.ReplyIdFirst | aiuser/settings/rag.py:167-168 | with `--reply` on a reply and no `--all`, the replied-to id is deleted, first in the list |
| RagSettings.TakeParsedOfNats | aiuser/settings/rag.py:175 | parsing rendered numbers gives the numbers back |
| RagSettings.IdsListRoundTrip | aiuser/settings/rag.py:169-175 | `--ids` followed by a comma-joined list of ids yields exactly those ids |
| RagSettings.ExtendParsed | aiuser/settings/rag.py:175-177 | the `extend` loop skips empty pieces and keeps the values parsed before the first piece `int` rejects |
| RagSettings.CollectIds | aiuser/settings/rag.py:166-177 | the collected ids are the replied-to id (with `--reply` and a reply) followed by those after `--ids` |
| RagSettings.DeleteMine | aiuser/settings/rag.py:157-185 | the reply and the deletion follow the outcome; the warning deletes nothing; every deleted point is the invoking author's |
| RagSettings.StepEffect | aiuser/settings/rag.py:223-226 | a token fails exactly when a bound it names fails to parse; otherwise it sets the bounds it names and keeps the others |
| RagSettings.ScanFails | aiuser/settings/rag.py:222-226 | the token loop raises exactly when some token's date fails to parse |
| RagSettings.LastTokenWins | aiuser/settings/rag.py:222-226 | the bound is set by the last `--before=`/`--after=` token |
| RagSettings.UnnamedBoundUnset | aiuser/settings/rag.py:215-226 | a bound no token names stays unset |
| RagSettings.FailurePersists | aiuser/settings/rag.py:222-230 | once a token fails, the whole loop fails |
| RagSettings.ApplyToken | aiuser/settings/rag.py:223-226 | the two `if`s of the loop body compute one step |
| RagSettings.ScanFlags | aiuser/settings/rag.py:222-226 | the token loop computes the bounds of the whole token list, or fails |
| RagSettings.ClearIsGuildScoped | aiuser/settings/rag.py:227 | the `clear` filter always exists and selects only payloads of the invoking guild |
| RagSettings.Clear | aiuser/settings/rag.py:205-230 | a failed date parse replies "Clear failed" and deletes nothing; otherwise the filtered delete runs and "Cleared." is sent; only points of the guild are ever deleted |
| RagSettings.Preview | aiuser/settings/rag.py:139-141 | the context itself up to 1500 characters; otherwise its first 1500 characters followed by `...` |
| RagSettings.CiteLine | aiuser/settings/rag.py:142 | citation k sits at its place in the reply as `[k+1] citation` |
| RagSettings.SearchOfRetrieval | aiuser/settings/rag.py:136-143 | on what `retrieve_context` returns, the reply is "No hits" exactly when there is no hit or the context is empty; otherwise it starts with a fence and the first 1500 characters of the context, which are followed by `...` exactly when more was cut, else by the closing fence, and it ends with the numbered citations, one per hit |

## Left out

- Embeddings: the SentenceTransformer model, its vectors and the executor are an abstract `encode`, and vectors are never inspected.
- Qdrant ranking and score thresholding: `search` is out of the model. Its hits are a parameter of `Retrieval.RetrieveContext`, and only the request's limit, threshold and filter are modelled.
- Collection set-up, payload indexes, `health`, `stats`, and the snapshot create and list calls: these are I/O with no logic to state.
- The HTTP fetch and the HTML extraction: they are one parameter, what the extraction produced.
- PDF and Word parsing: these are foreign readers, passed as parameters.
- SHA-256: it is an abstract `fingerprint`, so hash collisions are not modelled.
- Date parsing and `timestamp()`: they are an abstract `parse`.
- The clocks are modelled as values. The source reads the clock twice per payload, for `first_seen` and for `last_seen`, and those readings can differ. It reads it again for each repeated hash in the merge. The model takes one `builtAt` for every payload stamp of the batch and one `mergedAt` for every merge.
- Store exceptions: a delete that raises is caught and leaves the collection as it was. The model does not represent a failing delete. For exports, `ScrollFailed` models the failure.
- A failing embed or upsert in `ingest_messages` is not modelled. Neither call is inside a `try`, so their exceptions reach the caller.
- Store.DeleteUnfilteredClears, Retention.DeleteFiltered: with no field supplied, `delete_filtered` passes `filter=None` to the client library's `FilterSelector`. The source does not show what that does. The model assumes it selects every point. If the library rejects it, the exception is caught and nothing is deleted. `rag clear` never reaches this case, because it always passes the guild.
- The page sizes 256 and 512, and the page token: a token is modelled as the index of the next page.
- The Qdrant id format and the JSON shape of payloads: payloads are a datatype, and ids are the content hash.
- `Emote.IsOtherAlnum`: it covers the letters and digits of the main scripts, not all of Unicode's word characters.
- `Text.Lower`: Python lower-cases all of Unicode. The model lower-cases ASCII only. This changes no decision of the core.
- `PyParse.PyInt`: Python's `int` also accepts non-ASCII decimal digits. The model accepts only ASCII digits.
- `RagSettings.DeleteMine`: a reply reference whose `message_id` is `None` is not modelled; a reference is an optional integer.
- `Chunking.Chunk`: requires `0 <= overlap < max_chars`, and its only call site uses 1200 and 120. With `overlap >= max_chars` the window stops advancing and `_chunk` never terminates. A negative overlap terminates but skips characters between windows, which the model does not cover.
- `RAG.create` and the "RAG disabled or misconfigured" reply: configuration plumbing, left out.
- The "Deletion failed", "Search failed" and "Export failed" replies for exceptions outside the modelled logic.
- `privacy export-mine` and `rag export`: the JSON encoding, the file naming and the DMs. Their filters and drain loops are `Retention.ExportUser` and `Retention.ExportAll`.
- The commands `enable`, `qdrant`, `minscore`, `topk`, `addhere`, `addurl`, `addfile`, `health` and `stats`: they only store a configuration value or forward to a modelled operation.
- `aiuser/settings/owner.py`, `aiuser/core/random_message_task.py` and `aiuser/__init__.py`: owner configuration, scheduling and registration, which are not part of this model.
