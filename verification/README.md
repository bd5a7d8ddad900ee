# poma core, modelled in Dafny

poma is a workspace search product. A workspace (tenant) connects its Google
Drive. A background task lists the Drive's Docs and Slides, exports each one
to an office format, uploads it to a hosted semantic-search corpus, and
mirrors each indexed file locally as a `Document` with its `Section`s. The
search page queries the corpus, folds the hits into a de-duplicated result
dictionary ordered by score, and can send the text of the hit sections to an
answer service. A chat bot forwards channel messages and its own channel
joins to ingestion callbacks.

This project models that core as pure functions over immutable data:

| file | module | models |
|---|---|---|
| `common.dfy` | `Common` | `Option`, bytes, string join, `Min` |
| `drive.dfy` | `Drive` | listing query and pagination, export-format choice, chunked download, file iteration |
| `token_cache.dfy` | `TokenCache` | the process-wide bearer-token cache |
| `customer_id.dfy` | `CustomerId` | `struct.pack(">q", id)`: 8-byte big-endian two's complement |
| `semantic.dfy` | `Semantic` | `store`, `index`, the query payload, `query`, `search`, `upload`, `create_corpus`, and the status-200 rule |
| `models.dfy` | `Models` | the ASCII validator, `is_valid`, stored credentials, `create_corpus`, `search`, `is_admin`, and the `Document`/`Section` records |
| `words.dfy` | `Words` | Python's `str.split()` and the word count the mirror stores |
| `split_tiling.dfy` | `SplitTiling` | what `str.split()` means: the text is whitespace gaps interleaved with the words, and that cut is unique |
| `tasks.dfy` | `Tasks` | `index_workspace`: corpus guard, extension lookup, upload, and the per-file mirror write |
| `slack.dfy` | `Slack` | the join and message filters of the socket app |
| `views.dfy` | `Views` | the search form redirect, hit aggregation, ordering by score, the answer context, and the failure page |

Remote services are not called. What they would answer is an input:
- the sequence of page responses to successive list requests;
- the chunks the downloader reports;
- the token the OAuth endpoint would issue, and the clock reading;
- the HTTP reply (status, text, decoded body) of each REST call;
- the RPC outcome;
- the answer service's reply.

Database writes are values: the mirror is a `Mirror` of documents and
sections in creation order, and an operation returns the updated mirror or
workspace.

## Model

| member | source | states |
|---|---|---|
| `Drive.DefaultQuery` | poma/sources/gdrive.py:17-19 | With no query given, the listing asks for exactly the Google Docs and Google Slides MIME types, joined by `or`. |
| `Drive.ExportMimeType` | poma/sources/gdrive.py:11-14 | Docs export as the Word OOXML type, Slides as the PowerPoint OOXML type, and every other type as `text/plain`. |
| `Drive.ExportedIffIndexable` | poma/sources/gdrive.py:11-19 | A file gets an office export format exactly when its type is one the default query lists; the export type is always one of the three. |
| `Drive.DefaultQueryTypesAreExported` | poma/sources/gdrive.py:11-19 | The default query's types are exactly the export table's keys, so no listed file is fetched as plain text. |
| `Drive.StopIndex` | poma/sources/gdrive.py:46-48 | The listing stops at the first response that is an error or has no next-page token, and at no earlier one. |
| `Drive.ConcatCons` | poma/sources/gdrive.py:45 | Files accumulated page by page are the first page's files followed by the rest's. |
| `Drive.ListFiles` | poma/sources/gdrive.py:17-54 | The listing is `None` exactly when the stopping response is an HTTP error; otherwise it is every page's files up to the last page, in page order, with a missing `files` key counted as empty. |
| `Drive.ListFilesLoop` | poma/sources/gdrive.py:22-54 | The loop sends one request per response up to the stopping one, each with the caller's query. The first request has no page token; each later one carries the previous response's token. The result equals the fold `ListFiles`. |
| `Drive.ListingOfCompletePages` | poma/sources/gdrive.py:25-48 | If pages 0..N-1 carry a next token and page N has none, the listing is exactly the files of pages 0..N. |
| `Drive.ErrorDiscardsListing` | poma/sources/gdrive.py:50-54 | An HTTP error on any page discards all files gathered before it. |
| `Drive.DownloadFile` | poma/sources/gdrive.py:57-68 | The export type comes from the table. Chunks are pulled up to and including the first one reported done, and their bytes are concatenated in order. The stream is returned rewound to position 0. |
| `Drive.IterFiles` | poma/sources/gdrive.py:71-81 | Iteration yields every listed file once, in listing order; a failed listing (`None`) cannot be iterated. |
| `TokenCache.GetJwtTokenWith` | poma/search/semantic.py:34-42 | A fetch happens exactly when nothing is cached or the cached expiry is before now; a fetched token replaces the cache; otherwise the cached token is returned and the cache is unchanged. |
| `TokenCache.AtMostOneFetch` | poma/search/semantic.py:37-42 | Reading the absolute expiry, a run of calls whose clock stays within every token's validity fetches at most once, and never when the cache already holds a token valid that long. |
| `TokenCache.AsWrittenFetchesOnEveryCall` | poma/search/semantic.py:37 | Reading `expires_in` (a lifetime) as a timestamp, every call with a real clock fetches a new token. |
| `TokenCache.LiveTokenRefetchedAsWritten` | poma/search/semantic.py:37 | A one-hour token one second after issue is refetched as written and reused when read by its absolute expiry. |
| `CustomerId.Pack` | poma/search/semantic.py:75 | Packing succeeds exactly for ids in the signed 64-bit range and yields eight bytes; any other id raises `struct.error`. |
| `CustomerId.PackUnpack` | poma/search/semantic.py:73-75 | Unpacking the packed id gives the id back, for every id in range. |
| `CustomerId.UnpackPack` | poma/search/semantic.py:73-75 | Every eight-byte string is the packing of the id it unpacks to. |
| `CustomerId.SignInFirstByte` | poma/search/semantic.py:75 | The first byte's top bit is set exactly for negative ids (big-endian two's complement). |
| `CustomerId.DecodeEncodeBE` | poma/search/semantic.py:75 | Big-endian encoding to n bytes is inverted by decoding. |
| `CustomerId.EncodeDecodeBE` | poma/search/semantic.py:75 | Decoding then re-encoding a byte string gives it back. |
| `Semantic.Store` | poma/search/semantic.py:139-148 | The document id is the identifier under the `mvp-` prefix and reads back to it. The title is copied. The metadata reads back as the title flag. There is one section per input text, same text, same order. |
| `Semantic.StoreIdsAreInjective` | poma/search/semantic.py:142 | Two stored documents share an id exactly when they were stored under the same identifier. |
| `Semantic.Index` | poma/search/semantic.py:45-84 | A customer or corpus id outside 64 bits escapes as an exception raised while the request is built (poma/search/semantic.py:64-65), before the RPC's error handling. Otherwise the request carries the customer, corpus and document, and 8 metadata bytes that unpack to the customer id. Success is exactly a completed RPC, with no error; a failed RPC returns its error. |
| `Semantic.QueryPayloadFor` | poma/search/semantic.py:101-116 | The payload holds one query: the text, start 0, 20 results, one corpus key with the customer, the corpus and `DEFAULT` semantics. |
| `Semantic.QueryPayloadRoundTrip` | poma/search/semantic.py:101-116 | Reading the payload back gives the customer, corpus and text it was built from, and no other payload of that shape does. |
| `Semantic.Query` | poma/search/semantic.py:87-128 | Success is exactly status 200. The response and its text are returned in either case, and the payload targets the given customer, corpus and text. |
| `Semantic.Search` | poma/search/semantic.py:131-136 | The cache lookup reads the expiry field given as a parameter: `expires_in` as written, `expires_at` as intended. A lookup that fetches sends the issued token and caches it. Otherwise the cached token is sent and the cache is unchanged. The query succeeds exactly on status 200. |
| `Semantic.Upload` | poma/search/semantic.py:151-171 | The part's file name is the title followed by the extension. The part carries the given MIME type, corpus and content. Success is exactly status 200. |
| `Semantic.CreateCorpus` | poma/search/semantic.py:174-206 | The request carries the name and description, and success is exactly status 200. |
| `Models.IsAscii` | app/models.py:20-24 | The validator rejects a value, with its fixed message, exactly when some character has code point 128 or above. |
| `Models.FindFrom` | app/models.py:68 | The finder returns the first position at or after k holding the quote. It returns none exactly when no position from k on holds it. |
| `Models.ParseReprItems` | app/models.py:59-68 | `literal_eval` reads the comma-separated `repr` of non-empty scope-token lists back to the list. |
| `Models.ParseReprList` | app/models.py:59-68 | The stored scope text, `str(scopes)`, reads back with `literal_eval` as the same list. |
| `Models.AddGoogleCredentials` | app/models.py:54-59 | Storing credentials sets the token, refresh token, client id and client secret to the given ones, and the scopes to their `str(scopes)` text, which is what the saved row holds. Nothing else changes. |
| `Models.GoogleCredentials` | app/models.py:61-69 | Credentials can be read exactly when the stored scope text parses as a list literal. The four text fields then come back as stored, and the scopes are the parsed list. |
| `Models.CredentialsRoundTrip` | app/models.py:54-69 | Credentials stored on a workspace that is then saved and reloaded are read back unchanged, whatever it held before. The text field stores `str(scopes)`, which `literal_eval` reads back. |
| `Models.CreateCorpus` | app/models.py:75-86 | The request is the name and "<name>'s Corpus". The workspace is saved with the new id exactly on status 200 with a truthy id. A 200 with a null or zero id clears the id without saving. Any other status changes nothing. |
| `Models.CreateCorpusTouchesOnlyCorpusId` | app/models.py:75-86 | Corpus creation changes only the corpus id, so validity (`is_valid`) survives, and a truthy id afterwards was saved or already there. |
| `Models.ValidityDependsOnName` | app/models.py:50-52 | A workspace is valid exactly when its name is non-empty. Storing credentials or creating a corpus never changes validity. |
| `Models.Search` | app/models.py:88-91 | Without a truthy corpus id the search fails with "workplace has not been indexed yet", sends nothing and leaves the token cache alone. Otherwise it queries that corpus and succeeds exactly on status 200. The token cache then moves on as the lookup with the given expiry field says. |
| `Models.AtMostOneAdminPerWorkspace` | app/models.py:94-104 | With one profile per user (the one-to-one `user` field), a workspace has at most one admin profile, and that profile belongs to the workspace's owner. |
| `SplitTiling.SplitTiles` | app/tasks.py:42 | Every text is whitespace gaps interleaved with the words `str.split()` returns. The gaps between words are non-empty, and the text is rebuilt by gluing them back in order. |
| `SplitTiling.SplitUnique` | app/tasks.py:42 | Any cut of a text into whitespace gaps and words, with non-empty gaps between the words, has exactly the words `str.split()` returns. |
| `SplitTiling.SplitIsTheTiling` | app/tasks.py:42 | A word sequence is `str.split()` of a text exactly when some whitespace gaps interleave with it to form that text. |
| `Words.WordCountIsSplitLength` | app/tasks.py:42 | Counting word starts equals the length of `str.split()`. |
| `Words.WordCountAcrossSpace` | app/tasks.py:42 | The word count of two texts joined by a space is the sum of their counts. |
| `Tasks.ExtensionFor` | app/tasks.py:7-10 | Word OOXML maps to ".docx", PowerPoint OOXML to ".pptx", and every other type to "". |
| `Tasks.ExtensionOfExport` | app/tasks.py:7-19 | The export type of a file has a non-empty extension exactly when the file is a Doc or a Slides deck. |
| `Tasks.AsWrittenListedFilesGetNoExtension` | app/tasks.py:19-26 | As written, every file the default listing yields is uploaded with no extension and its Google-native type. |
| `Tasks.UploadCarriesExportType` | app/tasks.py:19-26 | Keyed on the export type, each listed file is uploaded as "<name>.docx" or "<name>.pptx", with the matching OOXML type. |
| `Tasks.UploadFor` | app/tasks.py:19-26 | The corrected per-file upload (see Findings). The part's type is the file's export type, and its name is the file name followed by that type's extension. The corpus id and the content are passed through. The upload succeeds exactly when the file's reply does. |
| `Tasks.EnsureCorpus` | app/tasks.py:15-17 | A workspace that has a corpus id is left alone. One without an id requests a corpus; it gets the id exactly on a 200 reply with a truthy id, and otherwise stays without one. Nothing but the corpus id changes. |
| `Tasks.SectionFor` | app/tasks.py:40-45 | A mirrored section points at its document and keeps the backend id and text ("" when absent). |
| `Tasks.SectionWordCount` | app/tasks.py:42 | A mirrored section's word count is the length of `text.split()` on its text. |
| `Tasks.SectionsFor` | app/tasks.py:39-45 | One mirrored section per backend section, in order. |
| `Tasks.MirrorWrite` | app/tasks.py:28-45 | A successful upload adds exactly one document, with the workspace, link, title, identifier and size of both character counts. Its sections, with their word counts, are appended after the old ones. Nothing earlier changes, and no section is orphaned. |
| `Tasks.MirrorWriteGivesOwnSections` | app/tasks.py:39-45 | Read per document, a write gives the new document exactly the sections its upload reported, in order. Every older document keeps the sections it had. |
| `Tasks.Successful` | app/tasks.py:27 | The files kept for mirroring are exactly the given files whose upload succeeded, no more of them than were given. |
| `Tasks.DocumentsFor` | app/tasks.py:32-38 | One document record per successful file, in order. |
| `Tasks.IndexItemsAppend` | app/tasks.py:18-45 | Indexing two runs of files in turn is indexing their concatenation. |
| `Tasks.FailedItemLeavesNoTrace` | app/tasks.py:27 | A failed upload leaves the mirror exactly as if that file had not been listed. |
| `Tasks.DocumentsPerSuccess` | app/tasks.py:18-38 | The mirror's documents are the old ones followed by one per successful upload, in listing order. |
| `Tasks.SectionsOfDocAppend` | app/tasks.py:39-45 | The sections of a document in two runs of sections are its sections in each, concatenated. |
| `Tasks.SectionsAfterWrite` | app/tasks.py:39-45 | Appending a new document's sections leaves every older document's sections unchanged. |
| `Tasks.AppendKeepsComplete` | app/tasks.py:32-45 | Adding one document and its sections keeps every mirrored document holding exactly its backend sections, in order. |
| `Tasks.MirrorWriteKeepsComplete` | app/tasks.py:32-45 | After a mirror write each document still holds exactly the sections its upload reported, in order. |
| `Tasks.IndexItemsComplete` | app/tasks.py:18-45 | After the whole loop there is still no orphan section, and each mirrored document holds exactly its upload's sections. |
| `Tasks.UploadsFor` | app/tasks.py:18-26 | One upload request per listed file, in order. |
| `Tasks.IndexWorkspace` | app/tasks.py:13-45 | With the corrected per-file upload (`Tasks.UploadFor`): a corpus is requested exactly when the id is `None`, and only the corpus id of the workspace may change. Each file is uploaded with the workspace's corpus id, possibly still `None`, and its own content. The mirror gains one document per successful upload. |
| `Tasks.CorpusIdIsStable` | app/tasks.py:16-17 | Once a run leaves a corpus id, a second run requests no corpus and keeps that id. |
| `Tasks.WordsCount` | app/tasks.py:42 | n words separated by single spaces count as n words. |
| `Tasks.WorkedRun` | app/tasks.py:13-45 | A concrete run with the corrected per-file upload: corpus 7 is created, a Doc is uploaded as ".docx", and its document (size 150) and two sections (10 and 5 words) are mirrored. |
| `Slack.IndexHistory` | poma/sources/slack.py:61-68 | The bot's own join runs the join callback on the channel, acknowledges, then returns True. Anyone else's join does nothing and returns `None`. |
| `Slack.IndexMessage` | poma/sources/slack.py:71-80 | A message is forwarded exactly when its type is "message" and its channel type is "channel", as (channel, user, text, ts, team). |
| `Slack.CollectAppend` | poma/sources/slack.py:55-80 | Collecting callbacks and acknowledgements over two effect runs is the sum of the two. |
| `Slack.RouteForwardsExactly` | poma/sources/slack.py:55-80 | Over any event stream, join callbacks run exactly for the bot's own joins, each acknowledged once. Message callbacks run exactly for the channel messages, in order. |
| `Views.Lookup` | app/views.py:129-130 | A query parameter is found exactly when some pair has that key. Its value is that of the last pair with the key, as a query dict's `get` answers. |
| `Views.FailureReason` | app/views.py:195-198 | The failure page shows "Unknown" when no `reason` parameter is given, and otherwise the value of the last `reason` parameter. |
| `Views.SearchPost` | app/views.py:109-119 | An empty or missing search renders the form. Otherwise it redirects to the search page with `q` set to the query, plus `gpt=true` exactly when the box was "on". |
| `Views.PyIndex` | app/views.py:149 | Python indexing: valid exactly for -len <= i < len, and plain indexing for non-negative i. |
| `Views.PyIndexWrapsOnce` | app/views.py:149 | A negative index wraps once from the end; further out it raises IndexError. |
| `Views.FindDocument` | app/views.py:150 | The lookup finds the first mirrored document with that identifier, and none when none matches. |
| `Views.ResolveHit` | app/views.py:147-157 | An out-of-range index gives empty link and title and no document. Otherwise link and title come from the mirrored document, when there is one, and its position is recorded. |
| `Views.ResolveHitAsWritten` | app/views.py:147-157 | As written, the page fails (AttributeError on `None.id`) exactly when the hit's index is in range and no mirrored document has that backend id; otherwise it resolves like the corrected lookup. |
| `Views.UnmirroredHitFailsAsWritten` | app/views.py:150-151 | A concrete hit on a backend document missing from the mirror makes the written lookup fail. |
| `Views.Upsert` | app/views.py:159-164 | Dict assignment: the key maps to the new value and other keys are unchanged. A new key goes last; an existing key keeps its place. |
| `Views.UpsertsAppend` | app/views.py:144-164 | Assigning two runs in turn is assigning their concatenation. |
| `Views.FirstOccurrences` | app/views.py:159 | The reference key order contains the same keys with no repeats. |
| `Views.UpsertsSemantics` | app/views.py:159-164 | After all assignments, each key maps to its last assigned value, and keys are in first-assignment order without repeats. |
| `Views.HitPair` | app/views.py:145-164 | A hit's entry is keyed by "<text>-<link>", keeps the hit's text ("" when absent) and score, and takes its link and title from the resolved document (empty when none is resolved). |
| `Common.Positions` | app/views.py:165-167 | The positions a filter keeps are increasing, each holds an element that passes, and every element that passes is at one of them. |
| `Views.SectionIdsAtPositions` | app/views.py:165-167 | The section ids are the values of the metadata entries named "section", one per entry, in metadata order. |
| `Views.SectionIdsAppend` | app/views.py:165-167 | Section ids over two metadata runs are the concatenation of each run's ids. |
| `Views.AddHitsFold` | app/views.py:146-167 | Folding a response set's hits assigns their pairs in order and appends their section ids. |
| `Views.AggregateFold` | app/views.py:144-167 | Folding all response sets assigns all pairs in order and collects all section ids. Collected documents are mirrored ones. |
| `Views.AggregateSemantics` | app/views.py:140-167 | The result dictionary maps each key to the last hit with that key, in first-seen order without repeats. Section ids are every "section" value in encounter order. Document ids index the mirror. |
| `Views.AssignmentsAreKeyed` | app/views.py:158-164 | Every entry is filed under its own text and link. |
| `Views.InsertPos` | app/views.py:184 | An entry is inserted after every score at least its own and before every smaller one. |
| `Views.InsertProperties` | app/views.py:184 | Insertion keeps scores non-increasing, adds exactly the entry, and keeps equal-score entries in arrival order. |
| `Views.SortByScoreCorrect` | app/views.py:184 | `sorted(..., key=-score)` yields a non-increasing permutation that is stable: each equal-score group keeps its original order. |
| `Views.AnswerContext` | app/views.py:168-176 | With no collected document the lookup raises IndexError (`None`). Otherwise it is the first 1000 characters of the first document's hit section texts, followed by "...". |
| `Views.ContextTextsAtPositions` | app/views.py:169-174 | The texts joined into the context are those of the mirrored sections of the document whose section id was hit, one per section, in mirror order. |
| `Views.AnswerContextCut` | app/views.py:168-176 | A context of at most 1000 characters is sent whole; a longer one is cut to exactly 1000. |
| `Views.SearchGet` | app/views.py:128-188 | With the corrected hit lookup (`Views.ResolveHit`): a failed search redirects to the failure page with the error as reason. A successful one shows the query and the aggregated dictionary's entries sorted by score, in non-increasing order. With `gpt=true` the page fails exactly when no mirrored document was hit. Otherwise it carries the context built from the first hit document and the answer service's reply. Without `gpt=true` the answer is "". |
| `Views.FailureShowsError` | app/views.py:131-137 | A failed search's error is the reason the failure page shows. |
| `Views.UnindexedWorkspaceShowsMessage` | app/views.py:131-137 | Searching a workspace without a corpus sends nothing and shows "workplace has not been indexed yet". |
| `Views.ResultsAreTheDictionary` | app/views.py:139-187 | The page lists exactly the dictionary's entries, highest score first, with ties in dictionary order. |

## Left out

- Network, OAuth, gRPC, Celery and the socket connection are not modelled. Each call's answer is an input to the model.
- Reading the clock is not modelled. The time is an integer parameter.
- Database persistence is not modelled; it is replaced by the `Mirror` value. Concurrent task runs and transactions are out of scope.
- Logging and `print` are not modelled.
- The `Drive.Page` value keeps only the listed fields. The remaining request options (`spaces`, `corpora`, `fields`, …) are constants and are not modelled.
- `Drive.DownloadFile`: the export request and progress reporting are the provider's, and are left out.
- `Drive.IterFiles`: the workspace is used only in log lines, so it is not a parameter. The caller in `app/tasks.py` calls it with one argument and unpacks `(body, data)` pairs, while the function takes a service and yields file records. The model's `Tasks.Item` pairs each listed file with its downloaded content, as the caller evidently intends.
- `Models.CreateCorpus` does not model the `KeyError` from reading `corpusId` out of a non-200 reply body before the success check (app/models.py:77). The reply body is an input that always carries the field.
- `Models.CreateCorpus` does not model the log message built with `response.get(...)` on the 200-without-id branch (app/models.py:83-86). That call would raise on a requests response object.
- `Models.GoogleCredentials` does not model arbitrary `literal_eval` input. Only list-of-strings literals are read; anything else is "cannot be read" (`None`).
- `Models.ParseReprItems`: the round trip is proved for scope tokens (section 3.3 of RFC 6749: printable ASCII without space, `"` or `\`). Those are the only strings a scope can be. Escapes are not modelled.
- Field encryption (`EncryptedTextField`, `EncryptedIntegerField`), the logo, timestamps and `activate_google` are left out. They hold no logic beyond storage.
- `Semantic.Search`: the customer id comes from the environment in the source and is a parameter here.
- `Semantic.Upload` and `Semantic.CreateCorpus` do not model the bearer-token lookup that `upload` and `create_corpus` make (poma/search/semantic.py:151, 184), so the token cache does not move on there. The cache transition is modelled once, by `TokenCache.GetJwtTokenWith`, and is threaded through `Semantic.Search`.
- `Semantic.Upload` does not model the query-string copy of the customer and corpus ids, or the `d=true` flag. These are constants of the request.
- The URL encoding of redirect parameters is left out. Parameters are modelled as key/value pairs.
- `Views.SearchGet`, `Views.AggregateFold`, `Views.AggregateSemantics` and `Views.ResultsAreTheDictionary` use the corrected hit lookup `Views.ResolveHit`. As written, app/views.py:151 reads `document.id` before the `if document:` check, so an in-range hit on an unmirrored document raises `AttributeError`, with or without `gpt=true`, and `except IndexError` does not catch it. `Views.ResolveHitAsWritten` models that, and the Findings table records it.
- `Semantic.Index` does not model which exception escapes for an id outside 64 bits: the protobuf field assignments at poma/search/semantic.py:64-65 raise first, and the model only records that the call fails before the RPC is attempted. The generated request type is not part of this model, so both id fields are taken to be signed 64-bit, the width `struct.pack(">q", ...)` also demands of the customer id.
- `Views.SearchGet` does not model `int()` parsing of section metadata values. Scores are integers here where the backend sends floats; only their order matters.
- `Views.SearchGet`: the backend body's optional keys are modelled as present. This covers `response_set.get("response")` without a default and a missing `documentIndex`, both of which raise `TypeError`.
- `Views.SearchGet`: the answer service's reply is an input.
- `Views.ContextTexts`: the section query has no `order_by`, so the database order is unspecified. It is modelled as mirror (creation) order.
- `Views.FindDocument`: the document lookup is not filtered by workspace, as in the source.
- `Tasks.IndexWorkspace` and `Tasks.WorkedRun` use the corrected per-file upload `Tasks.UploadFor`, keyed on the export type. The code as written looks the extension up by the listed type (app/tasks.py:19); `Tasks.AsWrittenListedFilesGetNoExtension` models that, and the Findings table records it.
- `Models.CredentialsRoundTrip` holds for the saved and reloaded row only. On the unsaved instance `google_scopes` still holds the list itself, and `literal_eval` of a list raises `ValueError` (app/models.py:59, 68); that path is not modelled.
- `Tasks.MirrorWrite` does not model `int()` parsing of the backend's character counts. They are integers in the modelled reply.
- `Slack.IndexMessage` does not model the `KeyError` for a message missing one of the read fields. Every message carries them all.
- The chat bot's ingestion callbacks and the bot entry points outside the socket app are left out.

## Findings

| source | as written | input that shows it | evidently intended | confidence | as-written member | corrected member |
|---|---|---|---|---|---|---|
| poma/search/semantic.py:37 | The cache compares `datetime.fromtimestamp(TOKEN["expires_in"])` with now, but `expires_in` is a lifetime in seconds (section 5.1 of RFC 6749). | A token with `expires_in` = 3600, issued at 1700000000 and checked one second later: 3600 read as a timestamp is 1970, so it is refetched. | Compare the absolute expiry (`expires_at`) with now, so a live token is reused. | not executed | `TokenCache.AsWrittenFetchesOnEveryCall` | `TokenCache.AtMostOneFetch` |
| app/tasks.py:19 | The extension is looked up with the listed file's own MIME type. The table is keyed on export types, which a listed Doc or Slides deck never has. | A listed file with type `application/vnd.google-apps.document` is uploaded with extension "" and the Google-native type. | Look up, and upload with, the export type, so the part is "<name>.docx" with the Word OOXML type. | not executed | `Tasks.AsWrittenListedFilesGetNoExtension` | `Tasks.UploadCarriesExportType` |
| app/views.py:151 | `document.id` is read before the `if document:` check. A hit on a backend document missing from the mirror raises AttributeError, which the `except IndexError` does not catch. | A response set with document `doc-9` and one hit on index 0, against an empty mirror. | Record the document only when it is mirrored, and show the hit with empty link and title. | not executed | `Views.UnmirroredHitFailsAsWritten` | `Views.ResolveHit` |
