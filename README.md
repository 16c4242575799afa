# Query engine ingestion and query history, modelled in Dafny

This project models the core of the LLM service's query engines in three parts.

- **Ingestion** (`DataSource`):
  - deriving the downloads bucket name of an engine;
  - turning a Cloud Storage listing into `DataSourceFile` records;
  - picking a reader by file extension;
  - chunking a document into overlapping sentence windows, while recording the documents that give no chunks.
- **Query records**:
  - the append-only conversation history of a `UserQuery`;
  - `deployed_index_name`;
  - `load_references`;
  - the lookups that skip soft-deleted records.
- **Query routes**: what `query_engine_create`, `query`, `query_continue`, `get_query_list` and `update_query` return for a request, and what they do to a query's history or fields.

Files:

- `outcomes.dfy` (`Outcomes`) — `Option`, `Result`, and `Try`, which stands for a call into code outside the model that returns or raises.
- `py_strings.dfy` (`PyStrings`) — the Python string and path operations the core relies on:
  - `split`, `replace`, `join`, `lower` and `strip`;
  - `pathlib.Path.name` and POSIX `os.path.join`.
- `data_source.dfy` (`DataSources`) — `data_source.py`. `DataSource` is a class whose `docsNotProcessed` list `ChunkDocument` appends to. `ReadDoc` and `CopyListing` (the loop of `download_documents`, which `DownloadDocuments` calls) are methods with the loops of the source, proved against the functions `ReadOf` and `FilesOf`.
- `llm_query.dfy` (`LlmQuery`) — `llm_query.py`:
  - `UserQuery` is a class whose `UpdateHistory` appends to `history` in place;
  - `LoadReferences` is a loop proved against `ResolvedRefs`;
  - the `find_*` lookups are filters over records in store order.
- `query_routes.dfy` (`QueryRoutes`) — `routes/query.py`:
  - each handler's decision is a pure function returning a tagged outcome;
  - `Query`, `QueryContinue` and `UpdateQuery` are methods that create or change a `UserQuery`, proved against those functions.

Things outside the model are parameters:

- the storage listing and the file readers (text, CSV, PDF pages, office documents), each of which returns a value or raises;
- `clean_text` and the sentence splitter;
- the window join of the sentence-window parser;
- `query_generate` and `initiate_batch_job`;
- the stores that `find_by_id` and `find_by_email` read;
- `PROJECT_ID`.

`PAYLOAD_FILE_SIZE` is the constant 1024, from `components/llm_service/src/config/config.py:66`.

Choices the code makes that the model follows:

- A PDF page whose text extraction fails raises. The document then counts as unreadable. It does not contribute an empty page.
- `chunk_document` returns `None` for a document it cannot read, and `[]` for a readable document without text.
- The extension is whatever follows the last `.`. So a name with no dot is its own extension: a file named `txt` is read as text, while `README` is not read.
- The handlers *return* `BadRequest` and `PayloadTooLargeError` rather than raising them. The model treats each as an outcome of the handler.

Properties that read as surprising but are what the code does:

- A document whose window texts are all whitespace, but not all `""`, gives `[]` and is *not* recorded as not processed (`WhitespaceDocumentNotRecorded`).
- Two blobs with the same file name in different folders get the same local path (`FlatteningMergesSameFileNames`).
- `doc_url.endswith(".pdf")` is case-sensitive, so a `.PDF` url passes the build checks (`PdfSuffixIsCaseSensitive`), while `read_doc` compares extensions case-insensitively (`UpperCaseExtensionRead`).
- An engine without an index name has the deployed name `deployed_None`, the same as an index literally named `None` (`DeployedIndexNameOfMissingIndex`).

## Model

| member | source | states |
|---|---|---|
| `DataSources.DownloadsBucketName` | components/llm_service/src/services/query/data_source.py:82-87 | an accepted name is project id + `-downloads-` + the normalised engine name, 3–63 characters from `[a-z0-9._-]` with alphanumeric ends; an error exactly when that name breaks the bucket naming rule |
| `DataSources.NormalizedEngineName` | components/llm_service/src/services/query/data_source.py:82-83 | the engine name with spaces and underscores replaced by `-`, then lower-cased; its properties are `NormalizedEngineNameChars` and `NormalizedEngineNameIdempotent` |
| `DataSources.NormalizedEngineNameChars` | components/llm_service/src/services/query/data_source.py:82-83 | the normalised engine name has the original's length, each space or underscore becomes `-`, every other character is lower-cased, and no space, underscore or ASCII capital remains |
| `DataSources.NormalizedEngineNameIdempotent` | components/llm_service/src/services/query/data_source.py:82-83 | normalising an already normalised name changes nothing |
| `DataSources.EmptyEngineNameRejected` | components/llm_service/src/services/query/data_source.py:84-86 | an empty engine name is always refused (the name would end in `-`) |
| `DataSources.EmptyProjectIdRejected` | components/llm_service/src/services/query/data_source.py:84-86 | an empty project id is always refused (the name would start with `-`); the service never builds this input, since its configuration asserts that `PROJECT_ID` is set (components/llm_service/src/config/config.py:42), so the lemma only shows that the naming rule would catch it |
| `DataSources.LongBucketNameRejected` | components/llm_service/src/services/query/data_source.py:84-86 | a project id and engine name longer than 52 characters together are always refused |
| `DataSources.BucketOf` | components/llm_service/src/services/query/data_source.py:102 | None exactly when the url has no `gs://` (where the source raises IndexError); otherwise a bucket name holding no `/`, shorter than the url by at least the five characters of `gs://` |
| `DataSources.MismatchAt` | components/llm_service/src/services/query/data_source.py:102 | a character that differs from the separator rules out an occurrence of it there |
| `DataSources.SplitHeadIsFirst` | components/llm_service/src/services/query/data_source.py:102 | `split(sep)[0]` is the text before the first occurrence of `sep` |
| `DataSources.SplitHeadAbsent` | components/llm_service/src/services/query/data_source.py:102 | `split(sep)[0]` of a text without `sep` is the whole text |
| `DataSources.BucketOfGsUrl` | components/llm_service/src/services/query/data_source.py:102 | the bucket taken from `gs://<bucket>` or `gs://<bucket>/<path>` is `<bucket>` |
| `DataSources.GsTail` | components/llm_service/src/services/query/data_source.py:102 | `split("gs://")[1]` of `gs://<bucket><rest>` starts with the bucket, followed by `/` or nothing |
| `DataSources.HeadBeforeSlash` | components/llm_service/src/services/query/data_source.py:102 | `split("/")[0]` of a text that is the bucket followed by `/` or nothing is the bucket |
| `DataSources.DataSource.DownloadDocuments` | components/llm_service/src/services/query/data_source.py:101-121 | a url without `gs://` fails; a listing that raises fails; otherwise NoDocumentsIndexed exactly when the bucket's listing is empty, and else exactly the records `FilesOf` gives for the listing |
| `DataSources.CopyListing` | components/llm_service/src/services/query/data_source.py:105-114 | the loop over the listing returns exactly `FilesOf` of the blobs |
| `DataSources.FilesOf` | components/llm_service/src/services/query/data_source.py:105-114 | one record per blob |
| `DataSources.FilesOfAt` | components/llm_service/src/services/query/data_source.py:105-114 | record `k` is the record of blob `k`, so the records follow the listing order |
| `DataSources.FileOfBlob` | components/llm_service/src/services/query/data_source.py:106-114 | a record keeps the blob's name and public url and has no document id; where its local and `gs://` paths come from is stated by `FileOfBlobFlattens`, `FlatteningMergesSameFileNames` and `FileOfBlobGcsPath` |
| `DataSources.FileOfBlobFlattens` | components/llm_service/src/services/query/data_source.py:106-108 | a blob named `f` or `dir/f` is copied to the scratch directory joined with `f`, a path whose last component is `f` |
| `DataSources.FlatteningMergesSameFileNames` | components/llm_service/src/services/query/data_source.py:106-108 | blobs `a/f` and `b/f` get the same local path |
| `DataSources.FileOfBlobGcsPath` | components/llm_service/src/services/query/data_source.py:110-111 | the storage path `/b/<rest>` becomes `gs://<rest>` |
| `DataSources.Extension` | components/llm_service/src/services/query/data_source.py:205-206 | the extension holds no `.` |
| `DataSources.FormatOf` | components/llm_service/src/services/query/data_source.py:205-241 | the loader table of `read_doc`: txt, html and htm as text, csv, pdf, and docx, pptx, ppt and pptm as office documents, anything else unsupported; its properties are the lemmas below |
| `DataSources.ExtensionAfterLastDot` | components/llm_service/src/services/query/data_source.py:205-206 | the extension of `stem.ext` is `ext` lower-cased, whatever dots the stem holds |
| `DataSources.ExtensionOfDotlessName` | components/llm_service/src/services/query/data_source.py:205-206 | a name without a dot is, lower-cased, its own extension |
| `DataSources.FormatFollowsLastSuffix` | components/llm_service/src/services/query/data_source.py:205-241 | the reader chosen for `stem.ext` is the one chosen for `ext` alone |
| `DataSources.UpperCaseExtensionRead` | components/llm_service/src/services/query/data_source.py:205-218 | a `.PDF` name is read as a PDF |
| `DataSources.BareExtensionNameRead` | components/llm_service/src/services/query/data_source.py:205-215 | a file named just `txt` is read as text |
| `DataSources.CompoundSuffixUnsupported` | components/llm_service/src/services/query/data_source.py:205-241 | a `.tar.gz` name is not read |
| `DataSources.ExtractAll` | components/llm_service/src/services/query/data_source.py:220-226 | the page texts are returned exactly when every page's extraction returns, one per page, in page order |
| `DataSources.ReadOf` | components/llm_service/src/services/query/data_source.py:205-247 | no content exactly for an unsupported extension; for each supported format, texts exactly when its loader returns (for PDF, when opening and every page's extraction return) and an exception otherwise; text gives the one file text, PDF the page texts in page order, CSV and office the loader's sections |
| `DataSources.ReadDoc` | components/llm_service/src/services/query/data_source.py:205-247 | the extension dispatch with the page-by-page PDF loop gives exactly `ReadOf` |
| `DataSources.WindowSpan` | components/llm_service/src/services/query/data_source.py:36-38 | the window of sentence `i` holds `i` and exactly the sentences at most the padding away from it, clipped to the text, at most 2·padding+1 of them |
| `DataSources.AdjacentWindowsOverlap` | components/llm_service/src/services/query/data_source.py:36-38 | with padding 1, the windows of neighbouring sentences share exactly those two sentences |
| `DataSources.WindowTexts` | components/llm_service/src/services/query/data_source.py:161-165 | there is one window text per sentence |
| `DataSources.WindowTextAt` | components/llm_service/src/services/query/data_source.py:162-165 | window text `i` is the window join of a run of consecutive sentences that holds sentence `i` and exactly the sentences at most the padding away from it, clipped to the text |
| `DataSources.DocumentText` | components/llm_service/src/services/query/data_source.py:154-157 | the cleaned pages joined with newlines; `DocumentTextKeepsPages` states that the pages can be recovered from it |
| `DataSources.DocumentTextKeepsPages` | components/llm_service/src/services/query/data_source.py:154-157 | when no cleaned page holds a newline, splitting the joined text at the newlines gives back the cleaned pages in order |
| `DataSources.ChunkCandidates` | components/llm_service/src/services/query/data_source.py:154-165 | the window texts of the cleaned, newline-joined pages; `ChunkOf` and `ChunksOfReadDocument` state that the chunks are exactly its non-blank texts |
| `DataSources.DropBlank` | components/llm_service/src/services/query/data_source.py:172 | every text kept is non-blank after `strip()` and comes from the input |
| `DataSources.DropBlankAppend` | components/llm_service/src/services/query/data_source.py:172 | the filter keeps order: it distributes over concatenation |
| `DataSources.DropBlankKeeps` | components/llm_service/src/services/query/data_source.py:172 | every non-blank text is kept |
| `DataSources.DropBlankIndices` | components/llm_service/src/services/query/data_source.py:172 | the kept texts are the input texts at a strictly increasing list of positions that holds every non-blank position: order and repeats are kept |
| `DataSources.DropBlankEmpty` | components/llm_service/src/services/query/data_source.py:172 | nothing is kept exactly when every text is blank |
| `DataSources.ChunkOf` | components/llm_service/src/services/query/data_source.py:142-174 | no chunks exactly when the document could not be read; recorded exactly when it could not be read or its window texts are all `""`; the chunks are non-blank window texts of the document, at most one per window |
| `DataSources.SingleSentenceChunk` | components/llm_service/src/services/query/data_source.py:152-174 | a one-page document that is a single non-blank sentence gives that sentence as its only chunk and is not recorded |
| `DataSources.UnreadableDocumentRecorded` | components/llm_service/src/services/query/data_source.py:142-152 | a document that raises or has no content gives None and is recorded |
| `DataSources.ChunksOfReadDocument` | components/llm_service/src/services/query/data_source.py:152-174 | a read document gives chunks that are its window texts at strictly increasing positions, covering every non-blank one and no blank one: the non-blank window texts in sentence order, repeats kept |
| `DataSources.VacuousDocumentRecorded` | components/llm_service/src/services/query/data_source.py:167-172 | window texts that are all `""`, or none at all, give `[]` and the document is recorded |
| `DataSources.WhitespaceDocumentNotRecorded` | components/llm_service/src/services/query/data_source.py:167-172 | window texts that are all whitespace but not all `""` give `[]` and the document is not recorded |
| `DataSources.UsableDocumentKept` | components/llm_service/src/services/query/data_source.py:167-172 | a document with a non-blank window gives at least one chunk and is not recorded |
| `DataSources.DataSource.constructor` | components/llm_service/src/services/query/data_source.py:59-68 | a new data source has an empty not-processed list and a parser with window size `CHUNK_SENTENCE_PADDING` |
| `DataSources.DataSource.ChunkDocument` | components/llm_service/src/services/query/data_source.py:136-174 | returns the chunks `ChunkOf` gives for what `read_doc` yields; appends the url once when the document is unreadable or vacuous, and otherwise leaves the list unchanged; earlier entries are kept |
| `DataSources.CorruptDocumentScenario` | components/llm_service/src/services/query/data_source.py:136-174 | chunking a readable one-page PDF and then a corrupt one gives the page's chunk for the first and None for the second, and only the corrupt document's url is recorded |
| `PyStrings.FindFrom` | components/llm_service/src/services/query/data_source.py:102 | `find` gives the first occurrence at or after the start, and None when there is none |
| `PyStrings.StartsWith` | components/llm_service/src/routes/query.py:423-427 | `startswith`; `AffixSplit` states it holds exactly when the text is the prefix followed by the rest |
| `PyStrings.EndsWith` | components/llm_service/src/routes/query.py:431 | `endswith`; `AffixSplit` states it holds exactly when the text is the rest followed by the suffix |
| `PyStrings.AffixSplit` | components/llm_service/src/routes/query.py:423-431 | a text starts with `p` exactly when it is `p` plus the rest, and ends with `p` exactly when it is the rest plus `p` |
| `PyStrings.SplitHead` | components/llm_service/src/services/query/data_source.py:102 | `split(sep)[0]` is a prefix with no occurrence of `sep` before its end, ending at the first occurrence or at the end of the text |
| `PyStrings.SplitSecond` | components/llm_service/src/services/query/data_source.py:102 | None, where Python raises IndexError, exactly when the separator does not occur; otherwise a text shorter than the input by at least the separator |
| `PyStrings.SplitHeadExcludes` | components/llm_service/src/services/query/data_source.py:102 | `split(c)[0]` holds no `c` |
| `PyStrings.RemoveAll` | components/llm_service/src/services/query/data_source.py:110 | `replace(p, "")` never lengthens the text; `RemoveAllAbsent` states when it leaves the text unchanged |
| `PyStrings.RemoveAllAbsent` | components/llm_service/src/services/query/data_source.py:110 | removing a pattern that does not occur leaves the text unchanged |
| `PyStrings.KeptParts` | components/llm_service/src/services/query/data_source.py:107 | the path parts kept are non-empty, not `.`, and come from the path |
| `PyStrings.KeptPartsAppend` | components/llm_service/src/services/query/data_source.py:107 | the parts of a joined path are the parts of each half |
| `PyStrings.BaseName` | components/llm_service/src/services/query/data_source.py:107 | the last path component holds no `/` and is not `.` |
| `PyStrings.BaseNameOfFileName` | components/llm_service/src/services/query/data_source.py:107 | a plain file name is its own last component |
| `PyStrings.BaseNameOfNested` | components/llm_service/src/services/query/data_source.py:107 | `dir/f` has last component `f` whatever `dir` is |
| `PyStrings.PathJoin` | components/llm_service/src/services/query/data_source.py:108 | `os.path.join(a, b)` ends with `b`, and starts with `a` unless `b` is absolute |
| `PyStrings.BaseNameOfPathJoin` | components/llm_service/src/services/query/data_source.py:107-108 | joining a file name onto any directory keeps it as the last component |
| `PyStrings.Split` | components/llm_service/src/services/query/data_source.py:205 | `split(c)` gives at least one part, none holding `c` |
| `PyStrings.SplitNoSeparator` | components/llm_service/src/services/query/data_source.py:205 | a text without `c` splits into itself alone |
| `PyStrings.SplitAround` | components/llm_service/src/services/query/data_source.py:205 | splitting `a + c + b` gives the parts of `a` followed by the parts of `b` |
| `PyStrings.Join` | components/llm_service/src/services/query/data_source.py:157 | a join of at least one part starts with the first part and ends with the last |
| `PyStrings.JoinExtendFirst` | components/llm_service/src/services/query/data_source.py:157 | extending the first part extends the joined text at the front |
| `PyStrings.JoinSplit` | components/llm_service/src/services/query/data_source.py:157 | joining the parts of a split with the separator gives the text back |
| `PyStrings.SplitJoin` | components/llm_service/src/services/query/data_source.py:157 | splitting a join of separator-free parts gives the parts back |
| `PyStrings.Lower` | components/llm_service/src/services/query/data_source.py:83 | `lower()` keeps the length, leaves no ASCII capital, and changes only ASCII capitals and the Kelvin sign |
| `PyStrings.ReplaceChar` | components/llm_service/src/services/query/data_source.py:82-83 | `replace(a, b)` keeps the length, changes only the `a` characters, turns each into `b`, and leaves no `a` when `a != b` |
| `PyStrings.Strip` | components/llm_service/src/services/query/data_source.py:172 | `strip()`: whitespace removed from both ends; `BlankIffAllSpace` states when nothing is left |
| `PyStrings.StripLeftEmpty` | components/llm_service/src/services/query/data_source.py:172 | stripping the left leaves nothing exactly when the text is all whitespace, and otherwise starts at a non-space |
| `PyStrings.StripRightEmpty` | components/llm_service/src/services/query/data_source.py:172 | stripping the right leaves nothing exactly when the text is all whitespace |
| `PyStrings.BlankIffAllSpace` | components/llm_service/src/services/query/data_source.py:172 | `strip() == ""` exactly when every character is whitespace |
| `PyStrings.IsBlank` | components/llm_service/src/services/query/data_source.py:172 | `x.strip() == ""`; `BlankIffAllSpace` states it holds exactly when every character is whitespace |
| `LlmQuery.IsHuman` | components/common/src/common/models/llm_query.py:89-91 | an entry is human when it has a `HumanQuestion` key; `HumanEntryClassified` and `AiEntryClassified` show how the two entry kinds are told apart |
| `LlmQuery.IsAi` | components/common/src/common/models/llm_query.py:93-95 | an entry is AI when it has an `AIResponse` key |
| `LlmQuery.HumanEntry` | components/common/src/common/models/llm_query.py:78-79 | the question entry `{HumanQuestion: prompt}` |
| `LlmQuery.AiEntry` | components/common/src/common/models/llm_query.py:80-85 | the answer entry `{AIResponse: response, AIReferences: references}`, in that order |
| `LlmQuery.EntryContent` | components/common/src/common/models/llm_query.py:98-99 | raises exactly for an empty entry; otherwise returns one of the entry's values |
| `LlmQuery.HumanEntryClassified` | components/common/src/common/models/llm_query.py:78-99 | a question entry is human, not AI, and its content is the prompt |
| `LlmQuery.AiEntryClassified` | components/common/src/common/models/llm_query.py:81-99 | an answer entry is AI, not human, and its content is the response text rather than the references |
| `LlmQuery.AlternatingAppend` | components/common/src/common/models/llm_query.py:73-86 | appending a question and its answer to an alternating log keeps it alternating |
| `LlmQuery.Replay` | components/common/src/common/models/llm_query.py:73-86 | a log built from n turns has 2n entries |
| `LlmQuery.ReplayAlternates` | components/common/src/common/models/llm_query.py:73-95 | a log built by `update_history` alone has even length, human entries at even positions and AI entries at odd ones |
| `LlmQuery.ReplayEntries` | components/common/src/common/models/llm_query.py:78-86 | entries 2k and 2k+1 are turn k's question and answer |
| `LlmQuery.ReplayContents` | components/common/src/common/models/llm_query.py:82-99 | reading such a log back gives turn k's prompt at 2k and its response at 2k+1 |
| `LlmQuery.UserQuery.constructor` | components/common/src/common/models/llm_query.py:36-42 | a new query has no title or response, an empty history, and is not deleted |
| `LlmQuery.UserQuery.Log` | components/common/src/common/models/llm_query.py:75-76 | the history, with a missing one read as empty; `UpdateHistory` states that the new history is this log plus the question and the answer |
| `LlmQuery.UserQuery.UpdateHistory` | components/common/src/common/models/llm_query.py:73-87 | a missing history reads as empty; exactly the question and then the answer are appended; earlier entries are unchanged; alternation is preserved; a log built from turns stays the log of those turns plus one |
| `LlmQuery.Page` | components/common/src/common/models/llm_query.py:67-70 | the page holds the records after the first `skip`, in order, as many as the limit allows |
| `LlmQuery.LiveQueriesOf` | components/common/src/common/models/llm_query.py:67-70 | exactly the user's queries that are not soft-deleted, never more than the stored rows |
| `LlmQuery.FindByUser` | components/common/src/common/models/llm_query.py:48-71 | at most `limit` queries, each the user's and not soft-deleted |
| `LlmQuery.FindByUserComplete` | components/common/src/common/models/llm_query.py:48-71 | with nothing skipped and room for all, every live query of the user is listed |
| `LlmQuery.QueryEngine.DeployedIndexName` | components/common/src/common/models/llm_query.py:180-182 | `deployed_` followed by the index name, rendered as `None` when it is missing; its properties are the two lemmas below |
| `LlmQuery.DeployedIndexNameInjective` | components/common/src/common/models/llm_query.py:180-182 | two engines with index names have the same deployed name exactly when the index names are equal |
| `LlmQuery.DeployedIndexNameOfMissingIndex` | components/common/src/common/models/llm_query.py:180-182 | a missing index name renders as `deployed_None` |
| `LlmQuery.Filter` | components/common/src/common/models/llm_query.py:159-162 | keeps exactly the records the predicate accepts |
| `LlmQuery.FilterAppend` | components/common/src/common/models/llm_query.py:159-162 | the filter keeps order: it distributes over concatenation |
| `LlmQuery.FilterNone` | components/common/src/common/models/llm_query.py:159-162 | nothing is kept from records the predicate rejects |
| `LlmQuery.FindByName` | components/common/src/common/models/llm_query.py:147-163 | a result is a live engine of that name; None exactly when every engine of that name is soft-deleted or there is none |
| `LlmQuery.FindByNameFirst` | components/common/src/common/models/llm_query.py:159-163 | the earliest live engine of that name in store order is the one found |
| `LlmQuery.ResolvedRefs` | components/common/src/common/models/llm_query.py:235-241 | at most one reference per id, each the reference some id resolves to |
| `LlmQuery.ResolvedRefsAppend` | components/common/src/common/models/llm_query.py:235-241 | resolution keeps the order of the ids |
| `LlmQuery.ResolvedRefsAllPresent` | components/common/src/common/models/llm_query.py:235-241 | when every id resolves, reference k is the one id k resolves to |
| `LlmQuery.ResolvedRefsKeeps` | components/common/src/common/models/llm_query.py:235-241 | every id that resolves contributes its reference |
| `LlmQuery.LoadReferences` | components/common/src/common/models/llm_query.py:235-241 | the loop returns exactly `ResolvedRefs` of the result's ids |
| `LlmQuery.FindByQueryEngineId` | components/common/src/common/models/llm_query.py:260-283 | at most `limit` documents, each the engine's and not soft-deleted |
| `LlmQuery.FindByQueryEngineIdComplete` | components/common/src/common/models/llm_query.py:279-283 | with nothing skipped and room for all, every live document of the engine is listed |
| `QueryRoutes.CheckPrompt` | components/llm_service/src/routes/query.py:504-510 | a missing or empty prompt is a bad request; one over 1024 characters is too large; anything else is accepted |
| `QueryRoutes.PromptLengthBoundary` | components/llm_service/src/routes/query.py:508-510 | a prompt of exactly 1024 characters is accepted and one of 1025 is not |
| `QueryRoutes.QueryDecision` | components/llm_service/src/routes/query.py:498-549 | engine not found exactly when the engine is missing; a rejection exactly when the engine exists and the prompt is refused, and then it is that prompt's rejection; an internal error exactly when the engine exists, the prompt is accepted and either the user is missing or generation raises; generated exactly when engine, prompt and user are present and generation returns, with the generated response and references; never query-not-found |
| `QueryRoutes.QueryChecksEngineFirst` | components/llm_service/src/routes/query.py:498-506 | a missing engine is reported whatever the prompt |
| `QueryRoutes.QueryRejectsBeforeGenerating` | components/llm_service/src/routes/query.py:504-518 | a refused prompt gives the same outcome whatever the backend would do |
| `QueryRoutes.Query` | components/llm_service/src/routes/query.py:498-549 | returns `QueryDecision`; on success a fresh query of that user, engine and prompt whose history is exactly the question and its answer; otherwise no query |
| `QueryRoutes.ContinueDecision` | components/llm_service/src/routes/query.py:570-620 | query not found exactly when the query is missing; a rejection exactly when the query exists and the prompt is refused, and then it is that prompt's rejection; an internal error exactly when the prompt is accepted and generation with the prior history raises; generated exactly when it returns; never engine-not-found |
| `QueryRoutes.ContinueRejectsBeforeGenerating` | components/llm_service/src/routes/query.py:576-593 | a refused continuation prompt gives the same outcome whatever the backend would do |
| `QueryRoutes.QueryContinue` | components/llm_service/src/routes/query.py:570-620 | returns `ContinueDecision` for the stored query; on success its history grows by exactly the new question and answer; otherwise it is unchanged; its id, user, engine, prompt, response, title and deletion mark are never changed |
| `QueryRoutes.ContinuationGrowsByOneTurn` | components/llm_service/src/routes/query.py:597-600 | a continued alternating log of N entries has N+2, still alternates, and ends with the prompt and the response |
| `QueryRoutes.Summary` | components/llm_service/src/routes/query.py:182-185 | the dict of one query without its history; `Summaries` states that the listing holds one per query, in order |
| `QueryRoutes.Summaries` | components/llm_service/src/routes/query.py:180-186 | one summary, without history, per query, in order |
| `QueryRoutes.GetQueryList` | components/llm_service/src/routes/query.py:165-199 | a negative `skip` is refused first, then a `limit` below 1, then a missing user; otherwise the result lists exactly `Summaries(FindByUser(rows, user, skip, limit))`, which holds at most `limit` summaries, each of a live query of that user |
| `QueryRoutes.Merged` | components/llm_service/src/routes/query.py:262-264 | the value a text field has after the `setattr` loop; its properties are `MergedUnset`, `MergedSet` and `MergeStep` |
| `QueryRoutes.MergedOption` | components/llm_service/src/routes/query.py:262-264 | the same for an optional field: it takes a value only when the input sets one |
| `QueryRoutes.MergedUnset` | components/llm_service/src/routes/query.py:262-264 | a field the input leaves out or sets to None keeps its value |
| `QueryRoutes.MergedSet` | components/llm_service/src/routes/query.py:262-264 | a field the input sets to a value takes that value |
| `QueryRoutes.MergeStep` | components/llm_service/src/routes/query.py:262-264 | each input field processed changes only that field, and only when its value is not None |
| `QueryRoutes.UpdateQuery` | components/llm_service/src/routes/query.py:254-275 | not-found exactly when the query is missing; each text field becomes its merged value; id, history and deletion mark are unchanged |
| `QueryRoutes.CheckDocUrl` | components/llm_service/src/routes/query.py:418-433 | integrated-search skips the checks; otherwise a missing or empty url is refused as missing, a present url without a supported scheme as an unsupported scheme, a supported url ending in `.pdf` as a document url, and a url passes exactly when it has a supported scheme and does not end in `.pdf` |
| `QueryRoutes.HasSupportedScheme` | components/llm_service/src/routes/query.py:423-427 | the five url prefixes a build may start from; `CheckDocUrl` states that a url without one is refused as an unsupported scheme |
| `QueryRoutes.BuildJobOf` | components/llm_service/src/routes/query.py:448-458 | the job data: the request's url, engine type, model and store settings, description and parameters, with the engine name and the user id |
| `QueryRoutes.CreateDecision` | components/llm_service/src/routes/query.py:411-475 | url rejections come first; a missing name is refused exactly when the url checks pass; a duplicate name is refused exactly when the url checks pass, the name is present and a live engine has it, naming that name; for a present, new name, the job starts exactly when the job starter returns, with the request's data and its response, and the create fails exactly when it raises |
| `QueryRoutes.IntegratedSearchIgnoresDocUrl` | components/llm_service/src/routes/query.py:418 | an integrated-search build is only ever refused for its name |
| `QueryRoutes.DuplicateNameRefused` | components/llm_service/src/routes/query.py:439-441 | a name a live engine already has is refused, and no job is started |
| `QueryRoutes.DeletedNameReusable` | components/llm_service/src/routes/query.py:439-441 | the name of a soft-deleted engine may be used for a new build |
| `QueryRoutes.PdfSuffixIsCaseSensitive` | components/llm_service/src/routes/query.py:431-433 | `.../manual.pdf` is refused as a document url, while `.../manual.PDF` passes |

## Left out

- Real I/O: opening and reading files, `PdfReader`, `CSVLoader`, `SimpleDirectoryReader`, `list_blobs` and `download_to_filename`. The readers and the listing are parameters that return a value or raise. A listing that raises ends `download_documents` with an error. The download of each blob is not modelled, so a failing download is not modelled either.
- `clean_text`, the sentence splitter and the window join of `SentenceWindowNodeParser` are uninterpreted functions. Only the window shape that the source's comments promise is modelled. `clean_text` and `get_nodes_from_documents` are taken never to raise. In the source, an exception from either escapes `chunk_document` without the url being recorded; the model has no such path.
- Persistence: `save`, `update` and the ordering by `created_time`. Records are sequences in store order. `find_by_id` is a map lookup, and the `BaseModel` behind it is not part of this model.
- `get_all_public`, `find_children`, `find_by_url`, `find_by_index_file` and `QueryDocumentChunk` are not in the modelled core.
- `query_generate`, `initiate_batch_job`, `validate_token` and the environment variables passed to the build job. The backends are parameters, and the job's response is kept as text.
- `UserQueryUpdateModel` is not part of this model. The update input can carry any of the query's text fields (title, prompt, response, user id, engine id), each at most once.
- Logging, `async`/`await`, the response envelopes and their messages.
- The possible lost update between concurrent continuations of one query. The model is sequential.
- `DataSources.NormalizedEngineName`: Python's `lower()` is modelled for ASCII letters and the Kelvin sign only. Other non-ASCII capitals stay as they are. Every such character fails the bucket naming rule either way, so only the text of the error differs.
- `py_strings.dfy` models `split`, `replace` and `join` only in the forms the core uses: a one-character separator, or the single patterns `"gs://"`, `"/"` and `"/b/"`.
