# A verified model of the pricing platform

The pricing platform stores retail prices in a PostgreSQL table, copies them to a search index,
answers searches through a cache, and shows them in a Flutter client. This project models the
parts whose correctness spans several steps and proves what they promise, for all inputs and all
runs.

- **Table, index and audits** (`Records`, `IndexClient`, `IngestProtocol`, `AuditTrail`,
  `TableContent`, `PricingService`). Every write commits to the table first and copies to the index
  second, and either part can fail. The state of the protocol, `World`, holds the table, the audit
  trail and the index, and four history variables: the ids whose last index step failed (`dirty`), the ids
  ever committed (`seen`), the ids whose last write was an ingest (`ingested`), and for each audit
  whether an ingest came between it and its predecessor (`gaps`). A failing import may have written
  any part of its documents. The classes `Database` and `SearchIndex` hold the state that the
  service methods change. A database has the state its open transaction sees and the state last
  committed: statements change the first row by row, constraints are checked on what they wrote,
  and a commit or a rollback ends them. Each service method is proved to change the committed state
  and the index as a step function on `World` says, and the lemmas are about that function and its
  runs.
- **Uploads** (`Upload`, `UploadResults`). The chunk loop, the source lines, the feed's life and
  every point at which an upload can stop. The chunk size is a parameter; the endpoint's 2000 is
  one value of it. The uuids drawn, the clock and the environment of each chunk are functions of
  the request, so every theorem holds for all of them.
- **Search** (`SearchFilter`, `FilterAgreement`, `Calendar`, `TtlCache`, `SearchCache`, `PricingApi`,
  `AnswerChanges`, `UploadChanges`, `CacheFreshness`, `StalePages`, `IndexPaging`, `FallbackPaging`). The index's
  filter text is printed as the code prints it, read back by a small grammar and compared with the
  SQL conditions, for all texts that a request can put into it. The index's ranking is an arbitrary function of the admitted documents, the query
  text and the page. `up` says that the index path meets no exception. The caches are in memory or
  on a Redis server, whose calls may fail one by one.
- **Concurrency** (`IndexGate`, `CacheFreshness`, `PricingState`). Index calls interleave arbitrarily
  around one semaphore; queries store their answers after any writes that came between; search and
  meta responses arrive in any order. Each asynchronous call of the client is split at its await
  into a start and a finish.
- **Startup and the rest** (`StartupDedupe`, `Partitioning`, `SearchPageUi`, `DistinctLists`).

Times are integers, prices are integer cents, uuids are natural numbers ordered as PostgreSQL
orders them. `str.strip`, `String.trim`, `String.toLowerCase` and `ILIKE` are arbitrary functions,
so what is proved holds for whatever they do.

Where the code differs from what one might expect, the code is followed and the difference is
stated as a theorem:

- the index and SQL admit the same rows exactly for requests without double quotes and without
  empty listed values, and for those whose date bounds leave no date
  (`FilterAgreement.FiltersAgreeExactlyWhen`);
- a file with a repeated key goes through or fails depending on where the chunks are cut; a parsed
  and priced file goes through under every chunk size exactly if it has no repeated key
  (`UploadResults.RepeatedKeyDependsOnChunks`, `UploadResults.AnyChunkSizeExactlyWhen`);
- an edit cannot bring a row back to the index that was never indexed
  (`IngestProtocol.EditCleansExactlyWhen`);
- a cached answer may be stale from the write that changes it on, until the caches are cleared while
  no query for it is under way (`CacheFreshness.CacheHitsAreFresh`), and for less than the ttl after
  it was stored (`CacheFreshness.HitsAreRecentAnswers`). Which writes change an answer is known from
  the state before them (the `KeepsAnswersExactlyWhen` theorems of `AnswerChanges` and
  `UploadChanges`); a stale page need not list the row written. No clear follows a retention pass,
  though nothing fails (`StalePages.RetentionLeavesStalePage`), nor an edit or an upload that
  committed something and does not return, whether its index step failed
  (`StalePages.LostEditLeavesStalePage`, `StalePages.LostUploadLeavesStalePage`) or something later,
  such as a chunk that does not parse (`StalePages.StoppedUploadLeavesStalePage`). A clear may miss the Redis server
  (`StalePages.UnclearedEditLeavesStalePage`) or come before a query under way stores its answer
  (`StalePages.OvertakenQueryLeavesStalePage`);
- requests share a cache key regardless of the order of the values they list, which is harmless
  unless the values hold double quotes (`SearchCache.EqualKeysSamePredicate`,
  `SearchCache.QuotedListsShareKey`), and regardless of white space around q, which reaches the index
  (`CacheFreshness.EqualKeysSameAnswerExactlyWhen`);
- retention and the startup migration delete nothing when one of the rows to delete has an audit
  (`IngestProtocol.RetentionIsAllOrNothing`, `StartupDedupe.DedupeSucceedsExactlyWhen`).

## Model

| member | source | states |
|---|---|---|
| Calendar.StampCountsDays | backend/app/services/typesense_service.py:26-28 | the stored stamp is 0 on 1970-01-01, a whole number of days, and one day more on each next calendar date |
| Calendar.StampOrder | backend/app/services/typesense_service.py:26-28 | comparing stamps is comparing dates, so the stamp is injective and strictly increasing |
| Calendar.StampIsPosix | backend/app/services/typesense_service.py:26-28 | the stamp is the seconds-since-the-epoch formula of POSIX.1-2017 XBD, section 4.16 |
| SearchFilter.BuildFilterBy | backend/app/services/typesense_service.py:35-68 | the part-by-part construction prints exactly the clauses the request means, and nothing when there are none |
| SearchFilter.FilterTextReadsBack | backend/app/services/typesense_service.py:44-68 | the printed filter, read by a grammar for the filter language, is the clause list it was printed from, iff no value of the request holds a double quote |
| SearchFilter.ClausesAreQuoteFree | backend/app/services/typesense_service.py:44-68 | whatever text is read, no value read from it holds a double quote |
| FilterAgreement.IndexAdmitsExactlyWhen | backend/app/services/typesense_service.py:44-68 | for all requests: the printed filter asks of every row's document what the request wants of the row, iff no value holds a double quote or the bounds leave no date |
| FilterAgreement.QuotedLookAlike | backend/app/services/typesense_service.py:44-56 | no request makes the index tell two rows apart that differ in one component only and hold double quotes there |
| FilterAgreement.RangeSurvives | backend/app/services/typesense_service.py:58-66 | a date range printed last stays the last clause of the text, whatever quotes the values before it hold |
| FilterAgreement.NoDateAdmitsNothing | backend/app/services/typesense_service.py:58-66 | when the date bounds leave no date the index admits nothing, whatever else the request holds |
| FilterAgreement.FiltersAgreeExactlyWhen | backend/app/repositories/pricing_repository.py:104-127 | for all requests: index and SQL admit the same rows iff no value holds a double quote and no listed value is empty, or the bounds leave no date |
| FilterAgreement.IdentifiedRowsAgreeExactlyWhen | backend/app/services/typesense_service.py:48-56 | on rows with store and sku, empty values among others do not matter: the filters agree iff there are no quoted values or no date, and lists of empty values only differ iff the index admits some such row |
| TtlCache.TTLCache.constructor | backend/app/core/ttl_cache.py:22-33 | a new cache is empty and negative sizes and ttls count as 0 |
| TtlCache.TTLCache.Get | backend/app/core/ttl_cache.py:35-49 | reading expires an entry or makes it the most recent, as the cache specification says |
| TtlCache.TTLCache.Set | backend/app/core/ttl_cache.py:51-60 | storing and then evicting in a loop ends in the state of the cache specification |
| TtlCache.TTLCache.Clear | backend/app/core/ttl_cache.py:62-64 | nothing is left |
| TtlCache.RunStaysBounded | backend/app/core/ttl_cache.py:59-60 | after any operations the order and the entries name the same keys once each, at most max_size of them |
| TtlCache.SetEvictsOldest | backend/app/core/ttl_cache.py:55-60 | one insertion evicts at most one entry, the least recently used |
| TtlCache.HitIsLatestSet | backend/app/core/ttl_cache.py:35-57 | a hit is the value of the latest set of the key since the last clear, less than ttl ago |
| TtlCache.RecentKeyHits | backend/app/core/ttl_cache.py:48-60 | an unexpired key hits if fewer than max_size distinct other keys were set or hit since it was |
| TtlCache.Inclusion | backend/app/core/ttl_cache.py:35-64 | of two caches driven alike, the smaller one's order is a subsequence of the larger one's, with equal entries |
| TtlCache.SmallerHitsAreLargerHits | backend/app/core/ttl_cache.py:35-49 | every hit in the smaller cache is the same hit in the larger one |
| SearchCache.KeysEqualExactlyWhen | backend/app/services/pricing_search_cache.py:28-50 | two requests share a cache key iff they agree up to the order of listed values, empty values and absent parameters |
| SearchCache.EqualKeysSamePredicate | backend/app/services/pricing_search_cache.py:40-50 | requests with equal keys are both rejected or admit the same documents, when no value holds a double quote or neither list has two different values |
| SearchCache.QuotedListsShareKey | backend/app/services/pricing_search_cache.py:45-46 | otherwise it can fail: two orders of the same two stores, one with quotes, share a key and differ on a document |
| SearchCache.PricingCaches.GetCachedPricingResponse | backend/app/services/pricing_search_cache.py:78-87 | the lookup goes to the Redis server if there is one, where a failed call is a miss, and else is a read of the memory cache of the key's scope |
| SearchCache.PricingCaches.SetCachedPricingResponse | backend/app/services/pricing_search_cache.py:90-102 | with a positive ttl the store goes to the Redis server, unless the call fails, and else is a set in the memory cache of the key's scope |
| SearchCache.PricingCaches.ClearPricingSearchCaches | backend/app/services/pricing_search_cache.py:105-118 | both memory caches are emptied, and the Redis entries too unless the call fails |
| SearchCache.LookMeans | backend/app/services/pricing_search_cache.py:78-87 | a lookup yields exactly the entry held for the key, if it has not expired and the Redis server answers or the memory cache is on; all it takes away is an expired memory entry |
| SearchCache.KeepMeans | backend/app/services/pricing_search_cache.py:90-102 | a store adds exactly its entry, under the same conditions, and takes away only the oldest entry of a full memory cache of the key's scope when the key is new to it |
| IndexClient.SearchIndex.UpsertDocumentsWithRetry | backend/app/services/typesense_service.py:70-90 | at most max_attempts imports, up to the first accepted one; returns iff one of the attempts succeeds; one pause between attempts, as listed; no attempt at all for no documents or no attempts |
| IndexClient.PauseIsCappedPower | backend/app/services/typesense_service.py:80-90 | the k-th pause is the smaller of 0.3 * 2^k and 3 seconds |
| IndexClient.IndexAfterMeans | backend/app/services/typesense_service.py:74-90 | after the retry loop every document is in the index if it returned, each is new or as before if it raised, and nothing else changed |
| IndexClient.SearchIndex.UpsertPricingRecords | backend/app/services/typesense_service.py:92-109 | one document per record goes to the retry loop, and the records' ids become clean or dirty with its outcome |
| IndexClient.SearchIndex.UpdatePricingRecord | backend/app/services/typesense_service.py:118-130 | it succeeds iff the document exists and the call is accepted; an applied update makes the document describe the values, even if the call raises; a missing document is not made, other documents stay |
| IndexClient.IndexAfterExactly | backend/app/services/typesense_service.py:74-90 | document by document: the index after the retry loop holds it iff one of the first five attempts, none before it accepted, wrote it, and else what was there |
| IngestProtocol.UpsertMeans | backend/app/repositories/pricing_repository.py:25-56 | a successful upsert stores every proposed row under the id returned for it, keeps ids with their keys and creation times, and touches no other row |
| IngestProtocol.UpsertKeepsIds | backend/app/repositories/pricing_repository.py:29-46 | an upsert never changes the id of a key that is present |
| IngestProtocol.UpsertTargets | backend/app/repositories/pricing_repository.py:29-57 | the ids returned are known beforehand: that of the row with the key, or the uuid drawn |
| IngestProtocol.UpsertByColumns | backend/app/repositories/pricing_repository.py:29-44 | told in columns: after a statement the table holds the rows it held, but those that agree with a proposed row in country, store, sku and date, which now hold its values under their old id, and one new row, under its own uuid, for each proposed row that agrees with none |
| IngestProtocol.OneRowPerPrice | backend/app/models/pricing_record.py:49-53 | in every state reached from the empty table, two rows with equal country, store, sku and date are one row |
| IngestProtocol.Run | backend/app/models/pricing_record.py:49-53 | every sequence of chunks, edits and retention passes, with failures anywhere, has an end, and keys are unique there |
| IngestProtocol.RunKeepsInv | backend/app/services/pricing_service.py:80-120 | in every run with failures anywhere: keys unique, clean rows equal to their documents, documents only of committed ids, manual rows described by their newest audit, audits chained when no ingest came between |
| IngestProtocol.ReachableInv | backend/app/services/pricing_service.py:80-162 | so it is in every state reachable from the empty table and index |
| IngestProtocol.RunKeepsDocsAndAudits | backend/app/jobs/retention.py:17-27 | whatever a run does, the index never loses a document and the audit trail only grows |
| IngestProtocol.ReuploadRecovers | backend/app/services/pricing_service.py:152-162 | a chunk that returns makes every row it covers clean, under its old id, whatever failed before |
| IngestProtocol.EditCleansExactlyWhen | backend/app/services/pricing_service.py:106-120 | a committed edit leaves its row clean iff the index has its document and accepts the update |
| IngestProtocol.EditOutcome | backend/app/services/pricing_service.py:57-120 | told from the request, the table and the environment: an edit is committed, with its audit and the editor's mark, iff the id has a row, the new price is not negative, no other row has the new country, store, sku and date, and the commit succeeds; each refusal has its own condition and changes nothing; it returns iff the index also has the document and accepts the update |
| IngestProtocol.EditChangesOnlyRequested | backend/app/services/pricing_service.py:72-93 | other columns, other rows and the row's origin stay |
| IngestProtocol.AuditsChain | backend/app/services/pricing_service.py:61-106 | across any run that does not ingest into the row, the next audit starts from what the previous one left |
| AuditTrail.RunReplays | backend/app/services/pricing_service.py:61-106 | over any run that does not ingest into a row, the audits it added, replayed in order, lead from the values the row had to those it has |
| IngestProtocol.EditedRowStays | backend/app/models/pricing_record_audit.py:18 | an edited row is never retired, and stays manual until an ingest writes it |
| IngestProtocol.RetentionIsAllOrNothing | backend/app/jobs/retention.py:17-27 | retention deletes exactly the expired rows, or none if one of them has an audit or the commit fails, and leaves index and audits alone |
| PricingService.BulkUpsertByStoreSkuDate | backend/app/repositories/pricing_repository.py:25-72 | executed row by row, the statement ends as its specification says: the table and the returned rows in order, or the first failure |
| PricingService.PersistAndIndexChunk | backend/app/services/pricing_service.py:152-162 | statement, commit, then index: committed state and index take the step of the protocol, with the number of rows on success |
| PricingService.UpdateFields | backend/app/repositories/pricing_repository.py:84-94 | the update sets the requested columns and the editor's mark, and is refused for a negative price or a key that another row has |
| PricingService.UpdateRecord | backend/app/services/pricing_service.py:48-122 | find, update, audit, commit, then index: committed state and index take the edit step; what is refused after the update ran is not committed |
| PricingService.RunRetention | backend/app/jobs/retention.py:12-27 | delete, check the audits' references, commit or roll back: the retention step of the protocol |
| TableContent.ContentBulkUpsert | backend/app/repositories/pricing_repository.py:28-44 | ids and timestamps aside, a successful statement equals upserting its rows one by one |
| TableContent.StatementSucceedsExactlyWhen | backend/app/repositories/pricing_repository.py:28-44 | with fresh ids the statement is accepted iff no price is negative and no two of its rows agree in country, store, sku and date |
| TableContent.ChunkOutcome | backend/app/services/pricing_service.py:152-162 | for any chunk with fresh ids: it is refused iff a price is negative or two rows agree in the four columns, else stored iff the commit succeeds, and returns its number of rows iff it is empty or one of five imports is accepted; each failure has its own condition |
| Upload.ReadAndPrepareChunk | backend/app/api/upload.py:26-37 | the next chunk's rows, an error when columns or values are wrong, or the end |
| Upload.BuildRows | backend/app/api/upload.py:91-111 | each row carries its own uuid and file line |
| Upload.PersistChunks | backend/app/api/upload.py:84-114 | the loop ends in the world, with the verdict and at the row that the chunk specification gives |
| Upload.UploadCsv | backend/app/api/upload.py:63-148 | the feed is processed, with the row count, iff the request returns; otherwise it is failed, or as last committed; caches are cleared only on return |
| Upload.UploadStoresLeadingChunks | backend/app/api/upload.py:84-148 | wherever an upload stops, the table is the start table upserted with a whole number of leading chunks, the failing one only if its index step failed; inserted is the number of rows |
| Upload.RowsCarryTheirLine | backend/app/api/upload.py:92-106 | each row that carries this feed holds the data of its own source line |
| UploadResults.ChunkSizeIrrelevant | backend/app/api/upload.py:79-114 | uploads of one file that return leave the same content for all chunk sizes: the row-by-row upsert of the file |
| UploadResults.UploadSucceedsExactlyWhen | backend/app/api/upload.py:84-114 | with fresh uuids and working services, an upload returns iff the columns store_id, sku, product_name, price and date are there and every chunk parses, has no negative price and no two rows that agree in country, store, sku and date |
| UploadResults.UploadStopsAtFirstFailure | backend/app/api/upload.py:84-148 | with fresh uuids, whatever fails when: an upload returns iff every chunk parses, fits the table, is committed and is imported within five attempts; otherwise it stops at the first chunk that does not, with that chunk's failure |
| UploadResults.AnyChunkSizeExactlyWhen | backend/app/api/upload.py:79-114 | with fresh uuids and working services, uploads of a file return under every chunk size iff the columns are there and it parses with no negative price and no repeated key; each that returns counts all rows |
| UploadResults.RepeatedKeyDependsOnChunks | backend/app/api/upload.py:79-83 | every parsed and priced file with a repeated key goes through row by row and fails in one chunk |
| UploadResults.UploadAgainChangesNothing | backend/app/repositories/pricing_repository.py:29-46 | uploading a file again, in any chunks, keeps every id and business column and adds no row |
| UploadResults.LoopIsRun | backend/app/api/upload.py:84-114 | an upload, complete or not, is the protocol's run of its chunks |
| UploadResults.LoopKeepsInv | backend/app/api/upload.py:84-114 | so it keeps the invariant of the protocol |
| UploadResults.UploadRepairs | backend/app/services/pricing_service.py:159-162 | after a successful upload every row it covers agrees with its document |
| PricingApi.SearchPricing | backend/app/api/pricing.py:82-148 | the response is the cached one on a hit, else the index path's answer if the index is up and accepts the filter, else the fallback's; only index answers are cached |
| PricingApi.RepeatIsHit | backend/app/api/pricing.py:93-131 | a page that the index answered is served to the same key exactly until the ttl is over, whatever the index would find by then |
| PricingApi.AnswerMeans | backend/app/services/typesense_service.py:132-175 | the index path sends the query text, or * when there is none, over the documents that pass the filter, for the page and page size asked for, 1 and 25 by default, and returns the number found with the rows of the hits |
| PricingApi.UpdatePricingRecord | backend/app/api/pricing.py:164-181 | the edit step; not found is reported iff the id has no row, a conflict iff another row has the edited country, store, sku and date; the caches are cleared only when the request returns, and one that fails leaves nothing pending |
| PricingApi.GetByIdsExactly | backend/app/repositories/pricing_repository.py:96-102 | the rows are the current ones of exactly the ids in the table, in the ids' order when none is missing |
| PricingApi.GetByIdsDropsMissing | backend/app/repositories/pricing_repository.py:100-102 | an id without a row is dropped and disturbs nothing around it |
| PricingApi.SearchIsSound | backend/app/api/pricing.py:110-131 | every row on the index path is current, and if not dirty its columns pass the filter, so that without quoted values it has the country, store, sku and date that the request wants, whatever orphans the index holds |
| PricingApi.ResponseIsSound | backend/app/api/pricing.py:97-148 | so every row that the endpoint returns on a miss is current, and passes the index's filter unless dirty, or the SQL conditions, depending on which path answered |
| FilterAgreement.QuotedStoreAdmitsOthers | backend/app/services/typesense_service.py:48-51 | with quoted values it can fail: a store name for which the index admits rows of another store |
| PricingApi.CleanRowsAdmitted | backend/app/api/pricing.py:98-108 | conversely, a clean row is among the admitted documents iff its columns pass the filter, without quoted values iff the request wants it |
| IndexPaging.IndexWalkFetchesEverything | backend/app/api/pricing.py:98-131 | pressing Next through the pages of a ranking fetches the current rows of the whole ranking in order, whatever gaps orphans leave in the pages |
| IndexPaging.IndexWalkFindsExactly | backend/app/api/pricing.py:98-131 | so if the ranking lists every admitted document, the walk finds a clean row iff its columns pass the filter |
| PricingApi.SearchIsSoundForSql | backend/app/api/pricing.py:110-148 | without quoted values, a clean row on the index path passes the fallback's conditions too, unless a list holds nothing but empty values |
| PricingApi.FallbackFindsAll | backend/app/repositories/pricing_repository.py:104-127 | the fallback finds exactly the rows of the table that pass its conditions, each once, latest dates first, and its total is their number |
| FallbackPaging.FallbackResponse | backend/app/services/pricing_service.py:137-145 | the fallback's response echoes page and page size and counts all rows that pass; a meta request gets nothing |
| FallbackPaging.FallbackRowsOfPage | backend/app/services/pricing_service.py:143-144 | its rows are those of the whole result from the page's offset on, as many as the page takes |
| FallbackPaging.FallbackWalkFindsAll | backend/app/services/pricing_service.py:137-145 | pressing Next from page 1, as long as the totals in the responses offer it, fetches every row that passes once, latest dates first, and nothing else |
| CacheFreshness.EqualKeysSameAnswerExactlyWhen | backend/app/api/pricing.py:82-131 | two requests with one key are answered alike over every table, index and ranking iff the index rejects both or they have one query text and admit the same documents; unless reordering quoted values matters, iff one query text or rejected |
| CacheFreshness.UninterruptedIsAsk | backend/app/api/pricing.py:93-131 | a query whose two halves nothing interrupts changes the caches as the search endpoint does |
| CacheFreshness.RequestsAreSteps | backend/app/api/upload.py:84-119 | the steps of an edit and of an upload, uninterrupted, end in the world and the caches of their endpoints |
| CacheFreshness.CacheHitsAreFresh | backend/app/api/pricing.py:93-131 | from any state: once the caches are cleared while no query for a request is under way, then in every interleaving of half queries, chunks, edits, retention passes and clears in which queries with its key send its query text and no write changes its answers, a hit is what the index path would answer now |
| CacheFreshness.HitsAreRecentAnswers | backend/app/core/ttl_cache.py:35-57 | in every interleaving at all, a hit is what the index path answered to a request with its key at some earlier moment, stored less than the ttl ago |
| CacheFreshness.ResponsesAreFresh | backend/app/api/pricing.py:93-148 | the same of the endpoint's response: under the conditions of CacheHitsAreFresh it is what the index path would answer now, or, only on a miss with the index down or the filter rejected, the fallback's |
| CacheFreshness.ResponsesAreRecentAnswers | backend/app/api/pricing.py:93-148 | and in every run from empty caches it is, on a hit, what the index path answered to that key, stored less than the ttl ago; on a miss the index path's answer of the moment, or the fallback's if the index is down or rejects the filter |
| AnswerChanges.AnswersStayExactlyWhen | backend/app/api/pricing.py:98-131 | two states answer a request alike under every ranking iff each document passes the filter in neither, or is the same in both and leads to the same row |
| AnswerChanges.PageStaysRightExactlyWhen | backend/app/api/pricing.py:110-131 | with the admitted documents unchanged, a page is still right iff the row of each hit is the same, or still missing |
| AnswerChanges.EditKeepsAnswersExactlyWhen | backend/app/api/pricing.py:175-176 | told from the state before and the index's reply: an edit leaves the answers to a request alone under every ranking iff it is not committed, or the request admits neither the document before nor the one that the update leaves, or these and the row are the same |
| AnswerChanges.ChunkKeepsAnswersExactlyWhen | backend/app/services/pricing_service.py:152-162 | the same for a chunk, over its rows, the ids they go to and the imports that the index makes |
| AnswerChanges.RetentionKeepsAnswersExactlyWhen | backend/app/jobs/retention.py:12-27 | retention leaves the answers to a search alone iff it deletes nothing or no row whose document the search admits, and never changes meta answers |
| UploadChanges.UploadKeepsAnswersExactlyWhen | backend/app/api/upload.py:84-148 | an upload, wherever it stops, leaves the answers to a request alone iff, for each row it covered, the request admits neither the document that stood under the row's id nor the one left there; for meta requests also if these are the same |
| StalePages.RetentionLeavesStalePage | backend/app/jobs/retention.py:12-27 | a run in which nothing fails and a cached page lists a row that retention deleted |
| StalePages.LostEditLeavesStalePage | backend/app/api/pricing.py:175-176 | a run after which a cached page lacks the row that a lost edit moved into its filter |
| StalePages.LostUploadLeavesStalePage | backend/app/api/upload.py:113-148 | a run after which a cached page shows the price that a lost upload replaced |
| StalePages.StoppedUploadLeavesStalePage | backend/app/api/upload.py:113-148 | the same for an upload whose imports all succeed and whose second chunk does not parse |
| StalePages.UnclearedEditLeavesStalePage | backend/app/services/pricing_search_cache.py:105-118 | a run after which a cached page is stale although the edit returned, because the delete did not reach the Redis server |
| StalePages.OvertakenQueryLeavesStalePage | backend/app/api/pricing.py:98-131 | a run after which a cached page is stale although the edit returned and cleared the caches, because a query under way stored its answer afterwards |
| IndexGate.GateHolds | backend/app/services/typesense_service.py:81-90 | under every interleaving at most the configured number of calls is in flight, permits are conserved on success and on failure, no sleeping or ended task holds one, none raises before its last attempt, all permits are back at the end |
| IndexGate.OutcomesDecide | backend/app/services/typesense_service.py:81-90 | under every interleaving a call is made again exactly as long as it fails and attempts are left: a task that returned had one good outcome, its last; one that raised had only bad ones, as many as its attempts |
| IndexGate.GateTerminates | backend/app/services/typesense_service.py:81-90 | every interleaving ends within a bound given by the attempts |
| IndexGate.GateProgresses | backend/app/services/typesense_service.py:83-84 | while a call has not ended some move is possible |
| StartupDedupe.MigrateKeys | backend/app/main.py:106-132 | the delete runs whole and is committed, or is rolled back, and the unique index can be built after it |
| StartupDedupe.DedupeLeavesBest | backend/app/main.py:106-124 | for each country, store, sku and date that were present one unchanged row is left: the first by updated_at, created_at, id |
| StartupDedupe.DedupeIsIdempotent | backend/app/main.py:106-124 | a second startup deletes nothing |
| StartupDedupe.DedupeSucceedsExactlyWhen | backend/app/main.py:119-121 | the startup goes through iff no audited row is outranked in its group |
| StartupDedupe.UniqueEverAfter | backend/app/main.py:125-132 | after it, every run of later steps keeps one row per key, and every later startup deletes nothing |
| Partitioning.Catalog.EnsureMonthlyPartitions | backend/app/core/partitioning.py:37-50 | on what earlier runs made, no statement fails, existing partitions stay, and the partitions are those of the months of all runs |
| Partitioning.MonthsCoverTheirSpan | backend/app/core/partitioning.py:37-46 | the ranges cover exactly the span of the months, each date in exactly one |
| Partitioning.RangesTile | backend/app/core/partitioning.py:38-46 | consecutive ranges meet, and different months never overlap |
| Partitioning.NamesDistinct | backend/app/core/partitioning.py:41 | different months have different partition names |
| Partitioning.NameSpells | backend/app/core/partitioning.py:38-41 | the partition of a date is named after the table and the six digits of the date's year and month |
| Partitioning.OverlapMeans | backend/app/core/partitioning.py:43-46 | two ranges overlap iff they have a date in common |
| Partitioning.FamilyIsDisjoint | backend/app/core/partitioning.py:43-46 | no date is in two partitions |
| Partitioning.DateHasPartition | backend/app/core/partitioning.py:37-46 | a date has a partition iff its month was ensured |
| Partitioning.RestartLeavesNoGapExactlyWhen | backend/app/core/partitioning.py:37-40 | two startups leave no month out between them iff they are at most backfill + ahead + 1 months apart |
| PricingState.PricingState.StartSearch | frontend/packages/app/lib/src/state/pricing_state.dart:44-47 | a search takes the next number and starts loading |
| PricingState.PricingState.FinishSearch | frontend/packages/app/lib/src/state/pricing_state.dart:49-74 | a response is applied only by the newest search |
| PricingState.PricingState.RememberRecentSearch | frontend/packages/app/lib/src/state/pricing_state.dart:118-125 | the query moves to the front, in its new spelling, and at most eight stay |
| PricingState.PricingState.FinishMeta | frontend/packages/app/lib/src/state/pricing_state.dart:86-103 | meta results are applied only by the newest meta request |
| PricingState.PricingState.FinishUpdate | frontend/packages/app/lib/src/state/pricing_state.dart:137-153 | an updated record replaces its item, a failure sets the error |
| PricingState.LoadingExactlyWhile | frontend/packages/app/lib/src/state/pricing_state.dart:44-74 | in every possible history, loading is on iff the newest search is unanswered |
| PricingState.AppliedAscend | frontend/packages/app/lib/src/state/pricing_state.dart:44-70 | the numbers of applied search responses strictly increase |
| PricingState.MetasAppliedAscend | frontend/packages/app/lib/src/state/pricing_state.dart:85-94 | the numbers of applied meta responses strictly increase |
| PricingState.SupersededChangesNothing | frontend/packages/app/lib/src/state/pricing_state.dart:58-74 | a response to a superseded request changes nothing on the screen |
| PricingState.NewestWins | frontend/packages/app/lib/src/state/pricing_state.dart:44-75 | once the newest search is answered, the screen shows its page, or its error over what was shown, whatever arrives later but record updates |
| PricingState.ShownIsLastApplied | frontend/packages/app/lib/src/state/pricing_state.dart:44-75 | in every history the page shown is that of the last search applied, or the initial empty page, changed only by the record updates since, whatever was sent or failed meanwhile |
| PricingState.ErrorIsLastSet | frontend/packages/app/lib/src/state/pricing_state.dart:46-153 | in every history the error is what the last event that concerns it made of it |
| PricingState.ErrorClearedOnSend | frontend/packages/app/lib/src/state/pricing_state.dart:46 | while the newest search is unanswered, only later record updates can have set an error |
| PricingState.NewestMetaWins | frontend/packages/app/lib/src/state/pricing_state.dart:85-111 | the newest meta result stays until facets are cleared |
| PricingState.SuggestionsAreLastSet | frontend/packages/app/lib/src/state/pricing_state.dart:85-111 | in every history the suggestions are those of the last meta request applied since facets were cleared; a failed one, newest or not, leaves them |
| PricingState.FacetsAreLastSet | frontend/packages/app/lib/src/state/pricing_state.dart:85-111 | so are the facets, of the last one applied that was to update them |
| PricingState.RecentsAreLatestDistinct | frontend/packages/app/lib/src/state/pricing_state.dart:113-125 | the recents are the first eight case-insensitively distinct entries of the whole reversed history, in their latest spelling |
| PricingState.RecentsAreChosen | frontend/packages/app/lib/src/state/pricing_state.dart:113-125 | in positions: no two recents alike but for case, at most eight, each the newest query of its kind, and none left out before the last of eight |
| SearchPageUi.OptionsBuilder | frontend/packages/app/lib/src/ui/search_page.dart:830-860 | with nothing typed the first eight recents; otherwise the two early-exit loops list, in order, at most eight of the trimmed suggestions and of the trimmed recents that contain the query, no two alike but for case, leaving none out before the last of eight |
| SearchPageUi.HasSubstringMeans | frontend/packages/app/lib/src/ui/search_page.dart:854 | a text contains the query iff it is the query between two texts |
| DistinctLists.FirstEightUnique | frontend/packages/app/lib/src/ui/search_page.dart:837-859 | there is only one list that this allows |
| SearchPageUi.CanGoNextExactlyWhen | frontend/packages/app/lib/src/ui/search_page.dart:384-388 | Next is offered iff the page ends before the list does |
| SearchPageUi.WalkFetchesEverything | backend/app/services/pricing_service.py:137-145 | pressing Next as long as it is offered ends and fetches the whole list in order, each row once |

## Left out

- The filter grammar is the part of the filter language that the builder prints; how the server takes a text outside it, other than rejecting it, is not modelled.
- EqualKeysSamePredicate: a sufficient condition on requests with double quotes; whether two orders of such a list read alike depends on the reading of each (QuotedListsShareKey shows that they may not).
- SearchIsSound: what the request wants is claimed without double quotes only; with them the row passes the filter as it reads, which may be something else (QuotedStoreAdmitsOthers).
- IdentifiedRowsAgreeExactlyWhen: for a request with both double quotes and a list of empty values only, the condition is that the index admits no such row, which depends on how the text reads.
- CacheHitsAreFresh: the commit and the index step of one chunk or edit are one step, and so are the index search and the row lookup of a query; requests whose lists hold quoted values, if reordering them could matter.
- UploadKeepsAnswersExactlyWhen: the feed's id is new to the table, as the endpoint draws it.
- RecentKeyHits: one direction only, because an expired entry that is read frees a slot, so a key can also outlive max_size other uses.
- EnsureMonthlyPartitions: the months lie in the years 1 to 9999, and partition names stay within PostgreSQL's identifier length.
- NewestWins: each call is answered at most once; notifications to listeners are not modelled.
- GateHolds: cancellation of a waiting call and the order in which waiting calls are woken.
- UploadCsv: the file-name and size checks before the feed exists, and the error texts.
- Per-document errors inside an import call that itself returns: the client does not raise for them, and the model treats the call as having written everything.
- The order of rows with equal dates between two fallback queries: paging is over one fixed order.
- Typesense ranking and typo tolerance: an arbitrary function of the admitted documents; `:=` is exact equality.
- JSON and hashing of Redis keys, a Redis delete that fails after removing some entries, and one memory cache per worker process.
- pandas parsing, float conversion and Numeric rounding: rows arrive parsed, or marked as not parsing; a reader that fails before its first chunk counts as a first chunk that does not parse.
- Column length limits and foreign keys other than the audits' one.
- When a row's constraints are checked inside one statement, and locks; concurrent edits of one row: writes are serial steps, at the granularity of chunks and edits.
- update_price, which no endpoint calls.
- The copy of the table made when it is first partitioned, and the per-partition indexes.
- Authentication, rate limiting, logging, health checks, seeding, widgets and deployment.
