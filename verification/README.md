# A Dafny model of the rerag RBAC retrieval core

The system is a retrieval-augmented question-answering service. It stores
documents with embeddings, and each user's queries only ever see the
documents that user may read. This project models the following parts of it
as pure Dafny functions and small methods, and proves properties about them:

- **Permission-filtered nearest-neighbour search** (module `AdaptiveSearch`),
  from the SQLite store.
  - A k-nearest-neighbour (KNN) query returns `topK × multiplier` candidates.
  - `applyFilter` keeps the first `topK` candidates that pass the caller's
    predicate.
  - The search stops early once enough candidates pass, or once the KNN query
    returned fewer rows than asked for.
  - Otherwise it doubles the multiplier and retries, up to ten times, and then
    makes one final, larger query.
  - The KNN query is a function parameter `knn`. The ranking lemmas take it to
    be `knn(k) = Take(ranked, k)` for an opaque ranked corpus.
- **The SQLite document store** (module `SqliteStore`).
  - Its two tables are maps: `documents` (id, title, content) and
    `vec_documents` (id, serialised embedding).
  - Every step that can fail can be made to fail through a `Fault` parameter.
  - It covers id assignment, `ensureVecTableExists` with its embedding-length
    guard, the insert and upsert transactions, the little-endian float
    serialiser, and the listing ordered by descending id.
- **The in-memory store** (module `MemoryStore`).
  - It is a `map<Uuid, Document>`.
  - Add rejects an existing id, upsert overwrites, and lookup by id is
    provided.
  - Search is exact: the candidates are filtered first, then ranked by an
    abstract `score`.
  - Go's random map iteration order becomes a nondeterministic choice (`:|`),
    so every listing contract holds for every order.
- **Authorisation.**
  - The in-process permission table, with its `"*"` wildcard and case-insensitive
    matching (module `Permissions`).
  - The Ory Keto client (module `Keto`): the mapping from a document to its
    Keto object id, and the fail-closed access decision. The HTTP round trip is
    a parameter.
  - The `Bearer <user>` header middleware and the user stored in the request
    context (module `Auth`).
- **Configuration** (module `Config`): the defaults, validation, the minimum
  TLS version, the SQLCipher DSN, and the environment tests.
- **Error responses** (module `ErrorHandler`): what each handler reveals in
  secure, production and development settings, `getClientIP`, and
  `StandardError`.
- **The composition** (module `Integration`).
  - `main.go` wires the SQLite store to the Keto client.
  - The SQLite store keeps only id, title and content, so every document it
    returns has empty metadata. Keto then denies every document without asking
    Keto at all.
  - As a result, a search over the SQLite store with the Keto filter finds
    no documents whenever it succeeds; it fails only when a KNN query fails.
    Every filtered listing is empty.

The supporting modules are:

- `Wrappers`: `Option` and `Result`.
- `Seqs`: `Take`, an order-preserving `Filter`, subsequences, and a loop that
  computes `Filter`.
- `Text`: ASCII case mapping, Go's `strings.Split` on one character, and
  decimal integers.
- `Models`: `Uuid`, `Document`, and the metadata values.

Two behaviours of the code are easy to misread; the model follows the code:

- `applyFilter` appends a candidate before it checks the count, so with
  `topK ≤ 0` it still returns one passing candidate. This is `Quota`.
- The length guard in `ensureVecTableExists` lets a change through when the
  recorded length is still the 768 default, or when the count query fails.

## Model

| member | source | states |
|---|---|---|
| AdaptiveSearch.ApplyFilter | internal/storage/sqlite_vector_store.go:266-277 | The result is the first `Quota(topK)` passing candidates in candidate order. `Quota(topK)` is `topK` for `topK ≥ 1`, but 1 for `topK ≤ 0` because the append precedes the check. The result is a prefix of the passing candidates, and every element passes. |
| AdaptiveSearch.ApplyFilterFromIsTake | internal/storage/sqlite_vector_store.go:268-275 | Resumed with a partial result shorter than the quota, the loop appends exactly the next passing candidates until the quota is reached. |
| AdaptiveSearch.SearchRec | internal/storage/sqlite_vector_store.go:231-263 | Starting at attempt `a`, the recursion issues between 1 and `11 − a` KNN queries, so it always terminates. The first query asks for `topK·multiplier`. For any KNN, every query but the last was answered. The search fails exactly when the last query fails, with that error. Otherwise the result is `applyFilter` of the last query's candidates, so every returned document passes the filter and there are at most `Quota(topK)` of them. |
| AdaptiveSearch.SearchRecSchedule | internal/storage/sqlite_vector_store.go:231-263 | Query `i` of the recursion asks for `topK·multiplier` doubled `i` times, because each retry doubles the multiplier. |
| AdaptiveSearch.SearchSimilarWithFilter | internal/storage/sqlite_vector_store.go:217-228 | The entry point issues at most 11 KNN queries. Query `i` asks for `2·topK` doubled `i` times. For any KNN, errors propagate, and a result is `applyFilter` of the last query's candidates: every returned document passes the filter, and the quota bounds their number. |
| AdaptiveSearch.QuerySchedule | internal/storage/sqlite_vector_store.go:217-221 | Query `i` asks for `topK·2^(i+1)`. An eleventh query, if issued, asks for `2048·topK`. |
| AdaptiveSearch.StopsWhenDoneStep | internal/storage/sqlite_vector_store.go:253-262 | A retry after an attempt that did not meet the stopping test keeps the stop-when-done property one attempt earlier. |
| AdaptiveSearch.SearchStopsExactlyWhenDone | internal/storage/sqlite_vector_store.go:244-256 | With an ideal KNN and `topK ≥ 1`, the search succeeds. No query but the last met the stopping test (`topK` passing, or the corpus exhausted). The last query met it unless it was the final, unconditional one, so exhaustion is a success. |
| AdaptiveSearch.SearchResultIsPrefix | internal/storage/sqlite_vector_store.go:231-277 | With an ideal KNN, the result is always a prefix of the filtered ranking, nearest first. |
| AdaptiveSearch.SearchCompleteWhenCovered | internal/storage/sqlite_vector_store.go:231-263 | When the corpus fits in the last query the recursion can make, the result is exactly the first `topK` passing documents of the ranking. |
| AdaptiveSearch.SearchSimilarWithFilterRanked | internal/storage/sqlite_vector_store.go:226-263 | With an ideal KNN the entry point never fails and returns a prefix of the filtered ranking. With `topK ≥ 1` and at most `2048·topK` documents, it returns exactly `Take(Filter(ranked), topK)`. |
| AdaptiveSearch.AlternatingCorpusScenario | internal/storage/recursive_search_test.go:23-68 | 10 documents of which 5 pass, with `topK` 4, give exactly 4 results, all of which pass. |
| AdaptiveSearch.NoMatchScenario | internal/storage/recursive_search_test.go:82-115 | 3 documents of which none pass, with `topK` 5, give one query for 10 candidates and an empty success. |
| AdaptiveSearch.EmptyCorpusScenario | internal/storage/sqlite_vector_store.go:244-256 | An empty corpus gives one query and an empty success. |
| SqliteStore.NewStore | internal/storage/sqlite_vector_store.go:40-72 | Opening a file keeps its existing tables (empty ones for a new file) and always records the default length 768, even beside an existing vector table of another dimension. The store is consistent exactly when the file's two tables agree. |
| SqliteStore.SerializeFloat32Vector | internal/storage/sqlite_vector_store.go:80-86 | The output has `4·len(vec)` bytes. Bytes `[4i, 4i+4)` are the little-endian encoding of the bits of element `i`. |
| SqliteStore.SerializeRoundTrip | internal/storage/sqlite_vector_store.go:80-86 | Decoding the serialised blob gives back the same bit patterns. |
| SqliteStore.DeserializeRoundTrip | internal/storage/sqlite_vector_store.go:80-86 | Every blob of whole floats is the serialisation of the vector it decodes to, so serialisation is a bijection onto such blobs. |
| SqliteStore.DecodeEncodeBits | internal/storage/sqlite_vector_store.go:84 | Reading the four little-endian bytes of a float's bits gives back those bits. |
| SqliteStore.EncodeDecodeBits | internal/storage/sqlite_vector_store.go:84 | Every four-byte group is the little-endian encoding of the bits it reads as. |
| SqliteStore.EnsureVecTableExists | internal/storage/sqlite_vector_store.go:131-163 | It never touches documents or vectors. The length-change error occurs exactly when the recorded length differs from both the new length and 768 and a successful count is positive. An existing table is left unchanged. A newly created table has the new length, and that length is recorded. On success a table exists. |
| SqliteStore.AssignId | internal/storage/sqlite_vector_store.go:90-96 | A Nil id is replaced by the generated non-Nil id, or fails when generation fails. A non-Nil id is kept unchanged, and the other fields never change. |
| SqliteStore.AddDocument | internal/storage/sqlite_vector_store.go:89-128 | A Nil id is replaced and a non-Nil id is kept. On any error both tables are unchanged. On success the id was not present, and exactly that row and its serialised vector were added. An existing id always fails. |
| SqliteStore.UpsertDocument | internal/storage/sqlite_vector_store.go:166-215 | The id behaves as in `AddDocument`. On any error both tables are unchanged. On success the row and the vector under the id are replaced by the new ones, and every other entry is unchanged. |
| SqliteStore.EnsurePreservesConsistency | internal/storage/sqlite_vector_store.go:131-163 | Creating the table keeps the store consistent. |
| SqliteStore.AddPreservesConsistency | internal/storage/sqlite_vector_store.go:89-128 | Every outcome of `AddDocument`, failed or not, is consistent. Consistent means three things. Vectors and documents have the same ids, every vector has the table's dimension, and no id is Nil. The recorded length is the table's dimension, or the default 768 of a reopened file. |
| SqliteStore.UpsertPreservesConsistency | internal/storage/sqlite_vector_store.go:166-215 | Every outcome of `UpsertDocument` is consistent. |
| SqliteStore.EmbeddingLengthFixedOnceCreated | internal/storage/sqlite_vector_store.go:148-160 | Once the vector table exists, neither writer changes its dimension or the recorded length. |
| SqliteStore.MismatchedEmbeddingRejected | internal/storage/sqlite_vector_store.go:131-139 | Once the vector table exists, a document whose embedding length differs from the table's dimension is rejected by both writers, and the store is unchanged. This holds for a reopened file too. |
| SqliteStore.UpsertTwiceKeepsLast | internal/storage/sqlite_vector_store.go:187-208 | After two upserts under one id, one record remains there with the second title, content and vector. Every other record is unchanged. |
| SqliteStore.UpsertSucceeds | internal/storage/sqlite_vector_store.go:166-215 | An upsert under a non-Nil id, with an embedding of the table's dimension (any length before the table exists), succeeds when no step fails. The table then has that dimension. |
| SqliteStore.AddFreshSucceeds | internal/storage/sqlite_vector_store.go:103-127 | A fresh id with an embedding of the table's dimension is accepted when no step fails. |
| SqliteStore.ReopenedStoreFollowsTable | internal/storage/sqlite_vector_store.go:40-72 | On a reopened file, a new document is accepted exactly when its embedding has the existing table's dimension, although the recorded length is 768. |
| SqliteStore.DocumentsNeedTable | internal/storage/sqlite_vector_store.go:175-178 | A consistent store that holds documents has its vector table. |
| SqliteStore.SortedIdsDescending | internal/storage/sqlite_vector_store.go:337 | It lists every id exactly once, in strictly descending order. |
| SqliteStore.ExtractStep | internal/storage/sqlite_vector_store.go:337 | Moving the largest remaining id to the end of the listing keeps the listing descending and above every remaining id, and loses no id. |
| SqliteStore.ListingCovers | internal/storage/sqlite_vector_store.go:336-368 | Reading the rows under a descending id enumeration lists every row exactly once, in that order. |
| SqliteStore.GetAllDocuments | internal/storage/sqlite_vector_store.go:336-368 | It lists one document per stored row, by strictly descending id, with only id, title and content. A failed query lists nothing, just like an empty store. |
| SqliteStore.GetFilteredDocuments | internal/storage/sqlite_vector_store.go:371-386 | With no filter it returns the full listing. Otherwise it returns exactly the listed documents that pass, still in descending id order. A failed query gives nothing. |
| SqliteStore.FilteredStaysDescending | internal/storage/sqlite_vector_store.go:378-383 | Filtering a strictly descending listing keeps it strictly descending. |
| MemoryStore.NewStore | internal/storage/vector_store.go:31-35 | A new store is empty, and every document is stored under its own id. |
| MemoryStore.AssignId | internal/storage/vector_store.go:43-49 | A Nil id is replaced by the generated non-Nil id, and a non-Nil id is kept. The only error is a generation failure for a Nil id. |
| MemoryStore.AddDocument | internal/storage/vector_store.go:38-58 | It succeeds exactly when the assigned id is absent. It then inserts that one entry, and the size grows by one. On error the map is unchanged, and an existing id is an "already exists" error. |
| MemoryStore.UpsertDocument | internal/storage/vector_store.go:61-76 | It fails only when id generation fails. Otherwise it sets `documents[id] = doc` and leaves all else unchanged, and the size grows only for a new id. |
| MemoryStore.GetDocumentByID | internal/storage/vector_store.go:79-89 | It returns the stored document exactly when the id is present, and a not-found error for that id otherwise. |
| MemoryStore.WritersPreserveWellKeyed | internal/storage/vector_store.go:38-76 | Both writers keep every document filed under its own non-Nil id. |
| MemoryStore.ReadYourWrites | internal/storage/vector_store.go:38-89 | After a successful write, a lookup of the id returns the written document. Lookups of other ids are unchanged. |
| MemoryStore.AddTwiceRejected | internal/storage/vector_store.go:51-54 | A second add of the same identified document fails and changes nothing. |
| MemoryStore.UpsertIdempotent | internal/storage/vector_store.go:74 | Repeating an upsert changes nothing, and of two upserts with the same id the later wins. |
| MemoryStore.Collect | internal/storage/vector_store.go:192-199 | In any iteration order, it lists exactly the documents that pass, each once. |
| MemoryStore.GetAllDocuments | internal/storage/vector_store.go:168-177 | It lists one element per stored entry: every id exactly once. |
| MemoryStore.GetFilteredDocuments | internal/storage/vector_store.go:180-200 | A nil filter lists everything. Otherwise it lists exactly the documents the filter accepts, each once. |
| MemoryStore.DistinctCover | internal/storage/vector_store.go:172-176 | A duplicate-free listing of a set has the set's size. |
| MemoryStore.SelectStep | internal/storage/vector_store.go:111-122 | Taking a best-scoring remaining document keeps the result sorted, and keeps it scored at least as high as everything not yet taken. |
| MemoryStore.TopScoring | internal/storage/vector_store.go:111-122 | The result has `min(topK, n)` distinct candidates, ordered by non-increasing score. No candidate left out scores above any returned one. |
| MemoryStore.SearchSimilar | internal/storage/vector_store.go:92-125 | An empty store gives an empty result. Otherwise the result is the `min(topK, n)` best-scoring documents in non-increasing score order. A negative `topK` with a non-empty store is excluded because `make` panics. |
| MemoryStore.Matching | internal/storage/vector_store.go:142-146 | The candidates are exactly the stored ids whose document passes the filter. A nil filter passes all. |
| MemoryStore.SearchSimilarWithFilter | internal/storage/vector_store.go:128-165 | The store filters before it ranks. The result is the `min(topK, #matching)` highest-scoring matching documents, and all of them pass. |
| MemoryStore.FilteredSearchFull | internal/storage/vector_store.go:141-164 | When at least `topK` documents match, exactly `topK` stored, passing documents are returned. |
| Permissions.GrantsAccessIff | internal/permissions/service.go:20-32 | The permission loop grants access exactly when the list holds `"*"` or a permission equal, ignoring case, to the string taxpayer. Order does not matter. |
| Permissions.CanAccessDocument | internal/permissions/service.go:14-18 | A user whose lower-cased name has no entry is denied. |
| Permissions.AccessIff | internal/permissions/service.go:14-33 | Access holds exactly when the lower-cased user is known and holds the wildcard, or holds a case-insensitive match of the document's string taxpayer. |
| Permissions.WildcardGrantsAll | internal/permissions/service.go:20-23 | Holding `"*"` grants every document. |
| Permissions.NoTaxpayerDenied | internal/permissions/service.go:25-32 | Without the wildcard, a document with no string taxpayer is denied. |
| Permissions.FilterDocuments | internal/permissions/service.go:36-44 | It returns the order-preserving subsequence of exactly the accessible documents. |
| Permissions.GetUserPermissions | internal/permissions/service.go:47-52 | It returns the lower-cased user's list, or an empty list. |
| Permissions.LookupIgnoresCase | internal/permissions/service.go:14-52 | Names equal up to case get the same access and the same permission list. |
| Permissions.AddUserPermission | internal/permissions/service.go:55-61 | It appends the taxpayer to the lower-cased user's list, creating the list when absent. Every other user is unchanged. |
| Permissions.AddThenGet | internal/permissions/service.go:55-61 | Afterwards the user's list is the old list plus the new taxpayer, and other users' lists are unchanged. Documents of that taxpayer become readable. |
| Permissions.AddIsMonotone | internal/permissions/service.go:55-61 | A grant never revokes any user's access to any document. |
| Keto.YearText | internal/permissions/keto_service.go:156-161 | An integer year is rendered in decimal, so that it parses back to the same integer. A year that is not a number, or is missing, is "unknown". |
| Keto.TaxpayerKey | internal/permissions/keto_service.go:164 | The key is the taxpayer with spaces written as hyphens, equal up to case and with no upper-case letter, so it is exactly that text lower-cased. It has the taxpayer's length, and a hyphen appears exactly where the taxpayer had a space or a hyphen. |
| Keto.DocumentToKetoObject | internal/permissions/keto_service.go:154-170 | The result is empty exactly when there is no string taxpayer. Otherwise it is `key:year`. |
| Keto.KeyNormalises | internal/permissions/keto_service.go:164 | Two taxpayers share a key exactly when they agree up to case once spaces are written as hyphens. Position by position, that means the characters are equal up to case or both are a space or a hyphen; any other difference gives a different key. |
| Keto.NoColonInDecimal | internal/permissions/keto_service.go:160 | A decimal year contains no colon. |
| Keto.ObjectIdDecomposes | internal/permissions/keto_service.go:164-166 | For a taxpayer and year without a colon, splitting the object id on ':' gives back the key and the year. |
| Keto.IntYearRecoverable | internal/permissions/keto_service.go:159-166 | For an integer year, the year part of the object id parses back to the stored year. |
| Keto.CanAccessDocument | internal/permissions/keto_service.go:29-80 | No request is sent exactly when the object id is empty. The request asks `documents:<object>#viewer@<user>`. Access is granted only on a 200 response whose body decodes to `allowed: true`. |
| Keto.FailsClosed | internal/permissions/keto_service.go:49-79 | An invalid URL, a transport error, a non-200 status, or an unreadable or unparsable body denies access. |
| Keto.FilterDocuments | internal/permissions/keto_service.go:83-91 | It returns the order-preserving subsequence of exactly the documents Keto allows, all of which have a taxpayer. |
| Auth.Middleware | internal/auth/middleware.go:15-38 | Every rejection is a 401, and an empty header gets exactly the missing-header rejection. On acceptance the context gains the user key, and every other key is unchanged. |
| Auth.GetUserFromContext | internal/auth/middleware.go:41-48 | It returns the string stored under the user key. A missing or non-string value is excluded because the code panics. |
| Auth.BearerAccepted | internal/auth/middleware.go:23-36 | `"Bearer " + u` with non-empty, space-free `u` is passed on, and the handler reads back exactly `u`. |
| Auth.AcceptedIff | internal/auth/middleware.go:17-36 | A header is accepted exactly when it is "Bearer", one space, and a non-empty user without spaces. The user is the rest after the space. |
| Auth.TwoWordVerdict | internal/auth/middleware.go:23-36 | A header of two space-free words joined by one space is judged on those words alone. A scheme other than "Bearer" is a format rejection; "Bearer" with an empty user is a username rejection; otherwise the user is stored in the context. |
| Auth.InvalidFormatRejected | internal/api/e2e_test.go:166-173 | "Invalid format" is rejected as malformed. |
| Auth.EmptyUserRejected | internal/auth/middleware.go:29-33 | "Bearer " is rejected as naming the empty user. |
| Config.Defaults | internal/config/config.go:133-169 | By default TLS and encryption are off, auth is "mock", errors are "detailed", and the environment is "development". |
| Config.Validate | internal/config/config.go:189-219 | Validation passes exactly when every rule holds. With TLS on, both files must be named and present. Encryption needs a key. JWT needs a secret. A missing cert is reported first, and a missing key file comes next. |
| Config.DefaultsValid | internal/config/config.go:133-169 | The defaults pass validation whatever the file system holds. |
| Config.ValidateRules | internal/config/config.go:191-216 | Encryption without a key, or JWT without a secret, always fails. With TLS off, no file is consulted. |
| Config.GetTlsConfig | internal/config/config.go:222-248 | It returns nothing exactly when TLS is off. The minimum version is TLS 1.2 exactly for "1.2", and TLS 1.3 otherwise. |
| Config.GetDatabaseDsn | internal/config/config.go:251-258 | Without encryption the DSN is the path itself. With encryption the path is a prefix of the DSN. |
| Config.DsnDecomposes | internal/config/config.go:254-255 | When the path has no '?' and the key has neither '?' nor '&', the encrypted DSN splits back into the path, the key pragma holding the key, and the page-size pragma. |
| Config.IsProduction | internal/config/config.go:261-263 | A true answer means the environment is exactly the text "production". Case matters, so "Production" is not production, and neither is "development". |
| Config.IsDevelopment | internal/config/config.go:266-268 | A true answer means the environment is exactly the text "development". Case matters, so "Development" is not development, and neither is "production". |
| Config.EnvironmentsExclusive | internal/config/config.go:261-268 | Production and development never hold together, and "staging" is neither. |
| ErrorHandler.GetRequestId | internal/errors/handler.go:242-247 | The id is suppressed exactly in production with secure mode, and otherwise returned unchanged. |
| ErrorHandler.ClientError | internal/errors/handler.go:39-56 | In secure mode or production the response has the generic message, no details, and the filtered id. Otherwise it has the specific message, the details, and the raw id. |
| ErrorHandler.ServerError | internal/errors/handler.go:113-128 | The status is 500, and details appear only in development with a non-secure mode. |
| ErrorHandler.HandleAuthError | internal/errors/handler.go:36-60 | The status is 401 "Unauthorized". In secure mode or production the message is "Authentication required", without details and with the filtered id. Otherwise it is "Authentication failed", with the error as details and the raw id. |
| ErrorHandler.HandleAuthorizationError | internal/errors/handler.go:63-85 | The status is 403 "Forbidden". When guarded the message is "Access denied", without details. Otherwise it is "Permission denied", with the error as details. |
| ErrorHandler.HandleValidationError | internal/errors/handler.go:88-110 | The status is 400 "Bad Request". When guarded the message is "Invalid request", without details. Otherwise it is "Invalid request parameters", with the error as details. |
| ErrorHandler.HandleInternalError | internal/errors/handler.go:113-128 | The status is 500, the message is "An internal error occurred", and the id is filtered. The error appears as details exactly in development with a non-secure mode. |
| ErrorHandler.HandleNotFoundError | internal/errors/handler.go:131-152 | The status is 404 "Not Found", and there are never details. In secure mode or production the message is "Resource not found" with the filtered request id. Otherwise the message names the resource and the request id is passed through unchanged. |
| ErrorHandler.HandleRateLimitError | internal/errors/handler.go:155-165 | The status is 429, and there are never details. |
| ErrorHandler.HandleDatabaseError | internal/errors/handler.go:168-183 | The status is 500, the message is "Database operation failed", and the id is filtered. The error appears as details exactly in development with a non-secure mode. |
| ErrorHandler.HandleServiceError | internal/errors/handler.go:186-201 | The status is 502. The service name and the details appear only in development with a non-secure mode. |
| ErrorHandler.StatusCodeFixed | internal/errors/handler.go:36-201 | Every handler's status code depends only on the kind of failure, never on the configuration. |
| ErrorHandler.GuardedRevealsNothing | internal/errors/handler.go:36-201 | In secure mode or production, every response equals the response for the failure with its texts blanked, and has no details. |
| ErrorHandler.QuietServerErrors | internal/errors/handler.go:155-201 | Outside verbose development, the internal, database, service and rate-limit responses have no details. In production with secure mode they have no request id. |
| ErrorHandler.GetClientIp | internal/errors/handler.go:250-261 | It returns a non-empty X-Forwarded-For first, then a non-empty X-Real-IP, then the remote address. |
| ErrorHandler.ErrorText | internal/errors/handler.go:297-302 | The text starts with the message, and equals it exactly when there is no cause. |
| ErrorHandler.WithCause | internal/errors/handler.go:310-316 | It returns a new error with the same type and message, and `Unwrap` yields the new cause. |
| ErrorHandler.Unwrap | internal/errors/handler.go:305-307 | It returns the cause. |
| ErrorHandler.WithCauseRoundTrip | internal/errors/handler.go:297-316 | The cause put in is the cause taken out. The text is the message, ": ", and the cause's text. Restoring the old cause gives back the receiver. |
| ErrorHandler.ChainTextHasInnerText | internal/errors/handler.go:297-302 | A wrapped standard error's message appears in the outer text right after the outer message and ": ". |
| ErrorHandler.PredefinedTexts | internal/errors/handler.go:265-287 | The predefined errors have no cause, and their text is their message. |
| Integration.ListedIsBare | internal/storage/sqlite_vector_store.go:360-364 | Documents rebuilt from the SQLite store have no metadata and therefore no taxpayer. |
| Integration.KetoDeniesBare | internal/permissions/keto_service.go:31-35 | Keto denies a document without metadata for every user, without sending a request. |
| Integration.TableAdmitsBareOnlyByWildcard | internal/permissions/service.go:20-32 | The permission table admits a document without metadata exactly for holders of the wildcard. |
| Integration.FilterNonePass | internal/storage/sqlite_vector_store.go:266-277 | Selecting from candidates none of which pass gives nothing. |
| Integration.KetoSearchOverSqliteFindsNothing | internal/storage/sqlite_vector_store.go:231-277 | For any KNN query that returns documents without metadata, as the SQLite store does, a filtered search through the Keto client that succeeds finds no documents, whatever Keto would answer. A failed search is one whose last KNN query failed. |
| Integration.KetoSearchOverSqliteIsEmpty | main.go:48-64 | With an ideal KNN over documents without metadata, the filtered search through the Keto client always succeeds, with no documents. |
| Integration.KetoListingOverSqlite | main.go:48-64 | With the SQLite store and the Keto client, every filtered listing is empty, whether or not the query fails. |
| Seqs.FilterConcat | internal/storage/sqlite_vector_store.go:268-275 | Filtering distributes over concatenation, which is what order-preserving selection means. |
| Seqs.FilterMembership | internal/permissions/service.go:38-42 | An element is selected exactly when it occurs in the input and passes. |
| Seqs.FilterIsSubsequence | internal/permissions/service.go:36-44 | The selection is a subsequence of the input. |
| Seqs.SelectInOrder | internal/permissions/service.go:37-43 | The append-if-passing loop computes the selection. |
| Text.DecimalRoundTrip | internal/permissions/keto_service.go:160 | `%d` rendering is injective: the decimal text of an integer parses back to it. |
| Text.NegativeRoundTrip | internal/permissions/keto_service.go:160 | A minus sign followed by the digits of `n` parses back as `-n`. |
| Text.JoinSplit | internal/auth/middleware.go:23 | Splitting on a character loses nothing: joining the parts gives back the input. |

## Left out

- SQL and sqlite-vec execution (`initDB`, `searchWithSqliteVec`, row scanning) is replaced by maps and an abstract KNN. The distance metric and tie-breaking live in the C extension. The model assumes that vec0 rejects a blob whose length is not four times its dimension, and a second row under an existing id.
- SqliteStore.GetAllDocuments: a failed query is modelled, but a row that fails to scan or whose id fails to parse is not. The Go code skips such a row. Every row this store writes has three text columns and a canonical UUID, so the skip can only affect rows written by other programs.
- SqliteStore.NewStore: the file's existing tables are a parameter. The consistency lemmas cover files whose two tables agree, as this store writes them. A file whose tables were edited by other programs is not covered.
- UUID generation is a parameter (the generated id, or a generation failure). The model does not make it random.
- `cosineSimilarity` is left out because it is floating-point arithmetic. The in-memory searches take an abstract integer `score`, and NaN scores are not modelled.
- The `%.0f` rendering of a float year is a parameter `renderFloat`.
- `int(float64(multiplier) * growthFactor)` is modelled as `multiplier * 2`, which is exact for the powers of two that occur.
- AdaptiveSearch.SearchRec: it does not model 64-bit overflow of `topK * multiplier`. Integers are unbounded, so a `topK` near 2^53 does not wrap.
- Case mapping (`strings.ToLower`, `strings.EqualFold`) covers ASCII only. Other characters are left as they are.
- Concurrency is left out. The `sync.RWMutex` of the memory store makes each operation atomic, and each operation is modelled as one step.
- Logging (`log.Printf`, `logError`) and `writeJSONError` are left out, because they have no effect on results.
- The HTTP and JSON part of the Keto client is left out, because the check request and its reply are a parameter. The Keto `GetUserPermissions` (a network list call) and `AddUserPermission` (a logging no-op) are also left out.
- Configuration loading (`Load`, `loadConfigFiles`, environment variables) and the TLS cipher negotiation are left out. File existence in `validate` is a parameter. The cipher list is a constant.
- The API server, routing and `main.go` are left out, apart from their wiring, which the composition lemmas use.
- `SearchSimilar` of the SQLite store is not defined in sqlite_vector_store.go and is not part of this model.
- The `Close` methods are left out, because they only release resources.
