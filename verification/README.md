# Verified model of the multi-tenant RAG engine

Dafny 4.11 model of the parts of the engine where correctness depends on several
functions, on retries or on interleavings. `dafny verify dfyconfig.toml` checks it.

| module | what it models |
|---|---|
| `RateLimit` | the sliding-window limiter over a Redis sorted set, and its runs |
| `Chunker` | the token-window chunker and its coverage |
| `Embedder` | the batching and retrying embedding clients |
| `Json`, `Decimal` | Python's `json.dumps` and JavaScript's `JSON.parse`, with UTF-16 and escapes |
| `Chat` | the incremental line reader of the chat page |
| `Sse` | the event stream of a query, fresh and cached, end to end |
| `CacheStore`, `QueryCache` | the versioned response cache, and queries and ingestions interleaved on it |
| `Documents`, `Ingestion` | the document and chunk tables, and the interleaved ingestion of documents |
| `Quota` | the document quota under concurrent uploads |
| `Uploads` | object store and document table over uploads and deletions |
| `Wrappers`, `Arithmetic`, `Sets`, `Strings` | an option type, minimum and maximum, cardinalities, taking texts apart |

External services are plain state: tables, key spaces and buckets are maps, the sorted set
is the set of its scores (a member is the printed timestamp, so equal timestamps share an
entry). Tokenizer, text extraction, embedding model, language model, SHA-256,
`strip().lower()` and ECMAScript's number and text conversions are arbitrary deterministic
functions given as parameters. Times are reals read from one clock. Protocols are functions
from a state and a step to a state, and their theorems quantify over all sequences of steps.

Findings that the code's own description does not show:

- The limiter's bound holds for intervals of length window minus lag and, for limits of two or
  more calls, no longer (`BoundIsSharp`); the extra second in the time to live makes the
  expiring set agree with a full log exactly when pipelines execute within one second of
  reading the clock (`TtlAbsorbsOneSecond`).
- The chunker drops tokens of some text exactly when the overlap plus one is below
  max(10, chunk size / 10) (`LosslessIff`); the defaults are safe. Below ten tokens per
  chunk it keeps the first window only. An overlap equal to the chunk size can
  make the loop run for ever, a larger one can make it walk backwards from the end of the text
  (`LoopEndsIff`, `BackwardWindows`). Its docstring speaks of paragraphs; the code and the model
  use token windows only.
- A similarity that is NaN makes the sources event invalid JSON, and the page then prints
  the event into the answer (`FreshRoundTrip` and `CachedRoundTrip` are equivalences for that
  reason).
- The end marker stops only the lines that arrived in the same read
  (`DoneStopsOnlyItsChunk`, `LaterLinesCount`).
- A response can be stored under a version newer than its search, and a later hit is then
  stale (`RaceServesStale`); `HitIsFreshIffUndisturbed` says exactly when.
- A delivery that runs before the upload's transaction commits ends at once and leaves
  the document pending (`FetchedTooEarly`, `StuckPending`); `DeliveryOutcome` says exactly when.
- A key ends in the name of the upload, not in the file name of the row: an upload without a
  name is called "unnamed" in the table only (`StoreMatchesTable`, `NamelessUpload`).
- With k uploads in flight the quota can be exceeded by k - 1 documents (`TightBound`).

## Model

| member | source | states |
|---|---|---|
| RateLimit.SlidingWindow.Check | app/common/rate_limit.py:42-67 | one request prunes, counts, records and re-expires the key as specified, and is admitted, refused or let through on a Redis error |
| RateLimit.Retained | app/common/rate_limit.py:48-56 | a recorded timestamp survives every pruning and expiry while the clock is below it plus the window, in any execution order |
| RateLimit.BoundedAdmissions | app/common/rate_limit.py:45-62 | in every run with lag at most d, no half-open interval of length window - d holds more than max_calls distinct timestamps of admitted calls |
| RateLimit.BoundIsSharp | app/common/rate_limit.py:45-62 | the exact interval length for every limit and every lag below its window: with two or more calls the bound holds up to window - lag and no further, with one call up to the window, or the time to live less a lag above one second, and no further |
| RateLimit.RefinesFullLog | app/common/rate_limit.py:48-62 | with timestamps in execution order and lag at most one second, the pruned expiring set decides as an unbounded log of all arrivals in (now - window, now] |
| RateLimit.TtlAbsorbsOneSecond | app/common/rate_limit.py:55-56 | for every limit that admits calls and has a window, the set agrees with the log in every in-order run if and only if the lag is at most the one second added to the window |
| RateLimit.SilenceRestores | app/common/rate_limit.py:46-62 | once every earlier arrival is a window old, the next max_calls calls are all admitted |
| Chunker.ChunkText | app/ingestion/chunker.py:49-102 | whenever the loop ends, for every chunk size and overlap, it returns as many chunks as are counted, each as `ChunkIs` and `BackwardChunkIs` describe it |
| Chunker.ChunkIs | app/ingestion/chunker.py:73-87 | chunk i holds the stripped text of the tokens from i strides on, at most a chunk size of them, its number, how many they are, and the metadata passed |
| Chunker.BackwardChunkIs | app/ingestion/chunker.py:73-93 | with an overlap of a chunk size or more, the first chunk is as ever and a later one holds the tokens that many strides back, counted from the end of the text |
| Chunker.NoChunksIff | app/ingestion/chunker.py:56-67 | a text has no chunk if and only if it is blank or has no tokens |
| Chunker.LoopEndsIff | app/ingestion/chunker.py:72-93 | the loop ends if and only if not both the overlap is a chunk size of at least ten and the text is longer than a chunk |
| Chunker.CountClosedForm | app/ingestion/chunker.py:72-93 | the number of chunks in closed form, for overlaps below and above the chunk size |
| Chunker.WindowIsSlice | app/ingestion/chunker.py:73-75 | window i is the slice from i strides of at most chunk_size tokens; a later one is never shorter than the drop threshold nor than overlap + 1 |
| Chunker.BackwardWindows | app/ingestion/chunker.py:73-93 | with an overlap above the chunk size the later windows start before the text, and are the slices that Python counts from its end |
| Chunker.ChunksRebuildText | app/ingestion/chunker.py:72-93 | the first chunk and every later one without its overlap rebuild the covered prefix; token counts exceed it by one overlap per later chunk |
| Chunker.UncoveredMeans | app/ingestion/chunker.py:72-93 | the uncovered tokens are exactly those that no window holds, and they end the text |
| Chunker.LossBound | app/ingestion/chunker.py:77-80 | at most the drop threshold less overlap less one tokens are lost, all at the end |
| Chunker.LossIsReached | app/ingestion/chunker.py:77-80 | some text loses exactly that many |
| Chunker.LosslessIff | app/ingestion/chunker.py:77-93 | no text of any length loses a token if and only if overlap + 1 reaches the drop threshold, as 512 and 64 do |
| Chunker.SmallChunksKeepOnlyTheFirst | app/ingestion/chunker.py:77-80 | below ten tokens per chunk every text yields exactly its first window |
| Embedder.OrderRestored | app/ingestion/embedder.py:67-69 | sorting a response by index yields the vectors of the texts in order, for every order of the response |
| Embedder.SortIsStable | app/ingestion/embedder.py:67-69 | for any response the sort keeps its items, orders their indices, and leaves items with one index in their order |
| Embedder.RetryOutcome | app/ingestion/embedder.py:60-83 | rate limits and API errors are retried, the first data wins, any other failure and the last of the attempts are raised, after exactly that many calls |
| Embedder.EmbeddingSucceeds | app/ingestion/embedder.py:39-51 | if every call is answered every text is embedded, with one call for each hundred texts begun |
| Embedder.EmbeddingInOrder | app/ingestion/embedder.py:39-69 | batching, retrying and sorting together give the vectors of all texts in input order, for every list length, batch boundary and response order |
| Embedder.OpenAIEmbedder.EmbedBatchWithRetry | app/ingestion/embedder.py:57-85 | at most N calls; all but the last failed retryably; the delays slept add up to 2^(k-1) - 1; the final raise is reached only for N = 0 |
| Embedder.PowerOfTwo | app/ingestion/embedder.py:60-83 | the delays it sleeps double |
| Embedder.OpenAIEmbedder.EmbedMany | app/ingestion/embedder.py:39-51 | for any responses what the batches in turn come to; if responses answer their requests, one vector per text in input order for every number of texts, with one to N calls per hundred texts; otherwise the error of the last call, on one of those batches |
| Embedder.OllamaEmbedder.EmbedOneWithRetry | app/ingestion/embedder.py:110-127 | every failure is retried, the first usable reply is returned, only N failures in a row raise |
| Embedder.OllamaEmbedder.EmbedMany | app/ingestion/embedder.py:97-105 | for any replies what the texts in turn come to; one vector per text in input order with one to N calls per text, or the error of the last call |
| Embedder.RetryLocalOutcome | app/ingestion/embedder.py:112-126 | any failure and an empty list are retried, the first vector of the first usable reply wins, the last failure is raised |
| Embedder.FiveAttempts | app/ingestion/embedder.py:22-127 | either provider is asked up to five times: four failures do no harm, the fifth is raised |
| Json.StringRoundTrip | app/query/service.py:218-219 | parsing an escaped Python string gives its UTF-16 encoding, surrogates included, whatever follows it |
| Json.Utf16RoundTrip | app/query/service.py:218-219 | decoding surrogate pairs inverts the UTF-16 encoding of every text without surrogates |
| Json.SurrogatePair | app/query/service.py:218-219 | a supplementary character becomes a high and a low surrogate that stand for it |
| Json.EscapeText | app/query/service.py:218-219 | quote, backslash and five control characters are written with a letter, other printable ASCII as it stands, and every other UTF-16 unit as \u and four lower-case digits |
| Json.StringAccepted | ui/src/app/chat/page.tsx:54-59 | the parser reads every JSON string, however its characters are written, as the units it stands for |
| Json.OnlyStringsAccepted | ui/src/app/chat/page.tsx:54-59 | and accepts no other text as a string |
| Json.NumberAccepted | ui/src/app/chat/page.tsx:54-59 | the parser takes every JSON number |
| Json.OnlyNumbersAccepted | ui/src/app/chat/page.tsx:54-59 | and no other text as a number |
| Json.ValueRoundTrip | app/query/service.py:218-219 | the parser inverts the printer on every value without NaN and rejects every value with one, in any context |
| Json.DumpsParse | ui/src/app/chat/page.tsx:54-59 | JSON.parse of json.dumps gives the value in UTF-16 if and only if it holds no NaN; otherwise it throws |
| Json.DumpsPrintable | app/query/service.py:258-262 | printed events are printable ASCII, so hold no line break |
| Decimal.DigitsInjective | app/cache/redis.py:63-66 | version numbers have different texts |
| Chat.ChatReader.Read | ui/src/app/chat/page.tsx:44-83 | one read processes the complete lines of buffer and chunk up to the end marker, whatever JSON they hold, and keeps the unfinished line |
| Chat.ChatReader.ReadAll | ui/src/app/chat/page.tsx:43-84 | the outer loop over all reads of a response |
| Chat.LineEffect | ui/src/app/chat/page.tsx:50-82 | a line without the prefix is ignored, trimmed data that is no JSON or a null is appended as it stands, other data takes effect as an event |
| Chat.TokenEffect | ui/src/app/chat/page.tsx:59-61 | a token is appended as text, or as it stands if it has none; without data or with falsy data it is ignored |
| Chat.SourcesEffect | ui/src/app/chat/page.tsx:68-69 | sources replace those shown, an empty list too; falsy ones are ignored |
| Chat.TrimIs | ui/src/app/chat/page.tsx:52 | trimming takes all white space of ECMA-262 from both ends and nothing else |
| Chat.SplitAppend | ui/src/app/chat/page.tsx:46-48 | splitting with a carried-over line is splitting the whole text |
| Chat.AnySegmentation | ui/src/app/chat/page.tsx:43-84 | however the text is cut into reads, the page ends as after processing all its complete lines in order, if no data follows the end marker |
| Chat.DoneStopsOnlyItsChunk | ui/src/app/chat/page.tsx:46-53 | in any state and for any later reads, the end marker hides the lines after it in its own read and nothing that comes later |
| Chat.LaterLinesCount | ui/src/app/chat/page.tsx:43-84 | wherever the text after the end marker is cut, even inside a line, a line after the marker counts if and only if its end arrives in the later read |
| Sse.StreamFresh | app/query/service.py:246-267 | the generator emits sources, tokens, done and the end marker, and joins the tokens for log and cache |
| Sse.StreamCached | app/query/service.py:223-229 | the replay emits the stored sources if any, then the answer word by word |
| Sse.FreshText | app/query/service.py:246-265 | what a fresh query sends, byte by byte |
| Sse.CachedText | app/query/service.py:223-229 | what a replay sends, byte by byte |
| Sse.EventLine | ui/src/app/chat/page.tsx:50-82 | an event's line is one data line, never the end marker, and has the event's effect |
| Sse.StreamIsShown | ui/src/app/chat/page.tsx:43-84 | any cut of a stream of events shows exactly the events in order |
| Sse.SpacedJoins | app/query/service.py:226-227 | splitting at spaces and adding one to each word yields the answer and one space |
| Sse.FreshRoundTrip | app/query/service.py:246-288 | for every source list, token list and segmentation the page ends with the text that is logged and cached and with the sources sent, if and only if every similarity is a number |
| Sse.CachedRoundTrip | app/query/service.py:221-235 | for every cached answer and segmentation the page ends with the answer plus one space and the same sources, if and only if every similarity is a number |
| Sse.ReplayMatchesFresh | app/query/service.py:221-291 | however the two streams are cut and whatever the similarities, the replay of what a fresh query cached shows what that query showed and one space more |
| CacheStore.KeysInjective | app/cache/redis.py:62-66 | two cache keys are equal if and only if version, tenant and normalised query are, for a collision-free digest and colon-free tenants |
| CacheStore.BumpIsLocal | app/cache/redis.py:35-55 | invalidating one tenant changes no lookup of another |
| CacheStore.SetThenGet | app/cache/redis.py:62-89 | a stored response is found by its tenant and normalised query for an hour |
| CacheStore.SetInvalidateGet | app/cache/redis.py:39-89 | after an invalidation a response stored before it is not found; a lookup finds what was under the next version |
| CacheStore.KeySpaces | app/cache/redis.py:35-98 | counters, responses, embeddings and limiter windows never share a key in Redis |
| CacheStore.FaultyWrite | app/cache/redis.py:39-89 | a write after a failed version read changes exactly the lookups of its tenant and normalised query that read version 0 |
| CacheStore.PresentForAnHour | app/cache/redis.py:20-87 | a response written is found for an hour and not from then on, and no other key is affected |
| CacheStore.Cache.InvalidateTenantQueryCache | app/cache/redis.py:49-55 | increments the tenant's version and changes nothing else; on a Redis error it changes nothing |
| CacheStore.Cache.GetCachedResponse | app/cache/redis.py:39-79 | returns what is present at the time under the key of the current version, or of version 0 if that read fails; a miss on any other Redis error |
| CacheStore.Cache.SetCachedResponse | app/cache/redis.py:39-89 | stores for an hour under the key of the version at the time of the write, or of version 0 if that read fails; any other Redis error loses the write |
| QueryCache.Reachable | app/cache/redis.py:39-89 | every interleaving of queries and ingestions keeps versions, records and stored responses consistent |
| QueryCache.OneInvalidationEach | app/ingestion/tasks.py:152-168 | in every run a document is invalidated for at most as often as it was committed |
| QueryCache.HitIsFreshIffUndisturbed | app/query/service.py:147-200 | every hit is the answer to a query of the same tenant and normal form on the documents committed at the search of the run that stored it; it covers all ingestions invalidated before its version read if and only if every invalidation step between that search step and the version-read step of that run's write is for a document committed at the search |
| QueryCache.QuietHitsAreFresh | app/query/service.py:166-200 | without an invalidation between search and write-time version read every hit is fresh |
| QueryCache.InvalidatedForGood | app/cache/redis.py:39-55 | after an invalidation no later run serves a response of an earlier version |
| QueryCache.RaceServesStale | app/query/service.py:167-199 | a concrete run in which a query overtaken by an ingestion makes a later hit stale |
| QueryCache.RepeatIsServed | app/query/service.py:147-200 | a query repeated after a run stored its answer, with no invalidation or expiry between, is served that answer |
| Documents.BuiltRows | app/ingestion/tasks.py:104-145 | one row per chunk, numbered from 0, with the document's tenant and the vector of its own text |
| Documents.RowIs | app/ingestion/tasks.py:104-145 | row i holds the text of token window i of the extracted text, its vector, number, token count and tenant, and the extracted metadata with the file name as source unless that names another |
| Documents.CountMatchesRows | app/ingestion/tasks.py:125-149 | chunk_count equals the rows inserted if and only if the embedder returned no fewer vectors than texts |
| Documents.PreparedInOrder | app/ingestion/tasks.py:98-114 | chunks and vectors that reach the final transaction are all chunks of the file and, if the provider's responses answer their requests, one vector for each in order, for either provider and any retries |
| Documents.TransactionsKeep | app/ingestion/tasks.py:89-92 | creating, marking, failing and deleting keep every document consistent with its rows and metadata |
| Documents.PersistedKeeps | app/ingestion/tasks.py:116-152 | so does the transaction that deletes, inserts, merges the metadata and marks ready, with what the embedder returned |
| Documents.PersistedCounted | app/ingestion/tasks.py:116-152 | for any vectors, that transaction keeps chunk_count equal to the rows, numbered from 0, if and only if no chunk is without a vector |
| Documents.SoundIsEnough | app/ingestion/embedder.py:39-127 | a provider whose responses answer their requests never returns too few vectors |
| Documents.SearchSeesOwnReadyRows | app/query/service.py:64-69 | filtering on the row's tenant and ready status returns exactly the rows of the tenant's ready documents |
| Documents.ListingIsOwnedAndOrdered | app/documents/service.py:94-104 | a listing exists exactly for the owner and holds that document's rows in index order |
| Documents.Database.Persist | app/ingestion/tasks.py:116-152 | the insertion loop replaces the rows by the zipped chunks and vectors, merges the metadata and marks the document ready |
| Documents.Database.Process | app/ingestion/tasks.py:80-195 | one attempt with what its embedder returns and the fault it meets |
| Documents.HealthyAttempt | app/ingestion/tasks.py:104-176 | an attempt on a document with text and chunks whose embedder returns vectors succeeds: all pairs inserted, metadata merged, ready with its count, error message and other documents untouched |
| Documents.AttemptFails | app/ingestion/tasks.py:80-114 | which errors an attempt raises, and in which order of cases |
| Documents.AttemptLeaves | app/ingestion/tasks.py:178-195 | before the final transaction a failed attempt leaves rows and count as they were, and the document failed with the first thousand characters of the error if that could be written |
| Documents.DeletedIsGone | app/documents/service.py:86-91 | a deleted document is in no search and no listing, and other documents are found as before |
| Documents.AttemptKeeps | app/ingestion/tasks.py:80-195 | whatever it meets, an attempt keeps consistency, owners and files, and rows once written; done means ready with rows, raised and written means failed with the error stored |
| Documents.Database.ProcessDocument | app/ingestion/tasks.py:45-59 | the attempts of a delivery in turn, as `DeliveryEnds` describes them: at most max_retries + 1; an existing document ends ready, or failed after the last |
| Documents.DeliveryEnds | app/ingestion/tasks.py:45-59 | a delivery whose first k attempts raise and whose next does not makes k + 1 attempts and ends as that one does; if all raise it makes all |
| Ingestion.Reachable | app/ingestion/tasks.py:62-198 | the invariant holds in every state of every interleaving of uploads, deliveries, faults, retries and deletions |
| Ingestion.RowsMatchDocument | app/ingestion/tasks.py:116-152 | in every committed state of every run in which providers answer their requests, chunk_count is the number of rows, their indices are 0 to chunk_count - 1, their tenant is the document's, and a ready document has all rows and the metadata of one complete attempt on its file |
| Ingestion.CountsMatchIff | app/ingestion/tasks.py:104-152 | in every committed state of every run chunk_count is the number of rows, numbered from 0 and of the document's tenant, if and only if no embedder ever returns fewer vectors than texts to an attempt |
| Ingestion.SearchIsIsolated | app/query/service.py:64-69 | in every run a search returns exactly the rows of the tenant's ready documents |
| Ingestion.UploadersDocument | app/documents/router.py:65-73 | in every run a document belongs to the tenant that uploaded it and holds the file uploaded |
| Ingestion.SearchFindsOwnUploads | app/query/service.py:64-69 | in every run a tenant finds only rows of documents that one of its own upload steps created, and each is the row of a complete attempt on that file |
| Ingestion.ListingIsUploaders | app/documents/service.py:94-104 | and only the uploader can list a document's rows |
| Ingestion.DeletedForGood | app/documents/service.py:86-91 | after a deletion no run brings the document back into a search or listing |
| Ingestion.DeletedUnderAttempt | app/ingestion/tasks.py:89-152 | an attempt whose row was deleted raises at its next commit and writes nothing |
| Ingestion.DeliveryStarts | app/ingestion/tasks.py:45-59 | a delivery starts with all its retries, and not while another is live |
| Ingestion.RowsAreStable | app/ingestion/tasks.py:116-152 | rows once written never change while the document exists, through failed and successful repetitions |
| Ingestion.DeliveryOutcome | app/ingestion/tasks.py:45-59 | at most max_retries + 1 attempts; after a delivery that has ended with its failure, if any, written, a document that exists is ready or failed if and only if its upload committed before the delivery ended, and pending if and only if not |
| Ingestion.CommittedSettles | app/ingestion/tasks.py:45-59 | once the upload is committed and no delivery has ended without it, every delivery that ends leaves the document gone, ready or failed, through any redeliveries |
| Ingestion.FetchedTooEarly | app/ingestion/tasks.py:81-87 | an attempt that fetches before the upload commits ends its delivery at once, without retry, and the document stays pending until another delivery |
| Ingestion.StuckPending | app/documents/router.py:87-89 | a concrete run that leaves a document pending |
| Ingestion.DeliveryIsBounded | app/ingestion/tasks.py:45-59 | a delivery takes a bounded number of steps whatever else happens |
| Ingestion.DeliveryCanGoOn | app/ingestion/tasks.py:80-195 | an unfinished delivery always has a next step |
| Ingestion.UndisturbedAttempt | app/ingestion/tasks.py:80-195 | whatever fault, embedder outcome or missing row it meets, an attempt's operations without interference leave the tables as the uninterrupted attempt does and the delivery retried or ended as its result says |
| Quota.Bounded | app/documents/service.py:25-48 | with k uploads in flight, committed and passed documents never exceed max_documents + k - 1 |
| Quota.TightBound | app/documents/service.py:25-48 | a number limits every run if and only if it is at least that; the quota itself is kept if and only if uploads do not overlap |
| Quota.PlacesAreFreed | app/documents/service.py:25-48 | a deletion frees a place in a full tenant, and so does an upload rolled back |
| Uploads.DocumentService.UploadDocument | app/documents/router.py:46-91 | validation, first key, quota, row with its file name, and the move to the key with the row's identifier establish the stated result, whatever the store held |
| Uploads.DocumentService.DeleteDocument | app/documents/router.py:130-141 | removes the row of the owner and, if that succeeds, its object |
| Uploads.KeysDiffer | app/documents/router.py:57-79 | a key determines its tenant and identifier |
| Uploads.Replies | app/documents/router.py:41-85 | which uploads are invalid, over the quota or accepted, counted over the tenant's own documents, and which deletions find their document |
| Uploads.TableAfter | app/documents/router.py:65-141 | an accepted upload adds its row, a deletion removes exactly the owner's row, every other reply leaves the table as it was |
| Uploads.QuotaHolds | app/documents/service.py:25-36 | over any run of single requests a tenant never has more documents than its quota |
| Uploads.StoreMatchesTable | app/documents/router.py:57-85 | after any requests every row was created by an upload, its key is tenant/docs/its id/the name of that upload and holds the bytes uploaded; the key's name is the row's file name if and only if the upload had a non-empty name; keys differ, and an object has no row if and only if a refused upload or failed clean-up left it |
| Uploads.NamelessUpload | app/documents/router.py:69-79 | with an empty or missing name the row is called unnamed and the key ends in nothing or None |

## Left out

- Chunker.ChunkText: chunk sizes and overlaps are not negative; where the loop does not end (`LoopEndsIff`) there is no result.
- QueryCache.QuietHitsAreFresh: does not model Redis faults (`FaultyWrite` states what a failed version read does), deleted documents or documents ingested again, for all of which the snapshot of a search can lack an invalidated document.
- Ingestion.Reachable: at most one live attempt per document, since nothing makes (document, index) unique and overlapping attempts can double rows; redelivery after worker loss is a new delivery after the old one ended.
- Documents.Database.Persist: row identifiers and timestamps, which are random or read from the clock, are not modelled; the chunk rows of the table are kept by document.
- Sse.FreshRoundTrip: covers the text after decoding; every byte sent is ASCII, on which the streaming decoder is the identity.
- Sse.ReplayMatchesFresh: the response read back from the cache is taken to be the one stored there; its JSON text in Redis is not modelled.
- Chat.ChatReader.Read: which numbers ECMAScript takes for zero and how it converts a value that is no string to text are parameters.
- Uploads.DocumentService.UploadDocument: requests are taken one at a time, UUIDs never repeat and hold no slash, and ingestion reads the stored object only.
- RateLimit.BoundedAdmissions: counts distinct timestamps of calls admitted through Redis; calls let through on a Redis error are a separate outcome outside the bound. Client and server share one clock.
- Embedding cache: a pure memo of a deterministic function.
- Query log, history, latency, context joining and pagination: easy records and arithmetic.
- Vector ranking: the index is approximate, so only its filter is modelled.
- Authentication, schemas, HTTP routing, metrics, storage clients, deployment and the rest of the user interface: single branches or plumbing.
- rag-service: an earlier copy of the application with stubbed document routes.
