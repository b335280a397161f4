# Course content indexing pipeline — a verified model

This project models the indexing side of a course-content retrieval system. Video resources come from a course database. Each has a JSON `summary` and a nested `chapters` outline. Course books arrive as PDF files. The pipeline cuts both into chunks of at most 250 words and embeds the chunks in batches of 100. It stores them as points in a vector collection, one payload per chunk. The points carry `course_id`, `module_id` and `resource_id`, a composite `chunk_id`, and integer ids numbered on from what `get_next_point_id` proposes. As the code is written, that proposal looks at a single scroll page of at most 10000 points (see Findings). The upload paths here follow the code, so their append and replace properties are proved for stores of at most 10000 points, and a lemma shows the overwrite beyond that.

Around that core sit three tools:

- scoped maintenance: refresh a course, a module or a single resource, or delete one resource after a typed `YES`;
- a finder that lists, sorts and counts the chunks of a scope;
- an interactive retrieval loop that searches inside an optional scope.

The model is written as imperative Dafny wherever the code changes state step by step. The loops that append to `chunks`, `embeddings`, `all_points` and `pages_data` are `while` loops. Each is proved against a specification function, and that function's properties are proved as lemmas.

The vector store is a class `Store.Collection`:

- Its contents `points` are a sequence in storage order, kept free of duplicate ids.
- Its payload indexes and its configuration are further fields.
- `upsert`, `delete`, `count`, `scroll`, `query_points` and the collection calls are methods with `modifies` clauses.

External services are parameters:

- **Embeddings.** The embedding service is a function from a task type and a batch to either one vector per item or a failure.
- **JSON parsing.** `json.loads` is a partial parser.
- **Database.** The course database is the joined resource table, or None when it cannot be reached.
- **PDF.** A PDF is either a missing file, a file that cannot be opened, or its list of page texts.
- **Store faults.** Which store calls raise is fixed per call kind by the collection's `faulty` set.

Modules, in dependency order:

- `Values`: the Python values the pipeline handles (JSON values and their truthiness, `dict.get`, iteration, `str.strip`, `str.lower` on ASCII, decimal formatting).
- `Chunker`: `chunk_text_by_words`.
- `Chapters`: `process_chapters`.
- `Rows`: `transform_data`, `transform_course_data`, `transform_rows` and `export_to_json`.
- `Embedding`: `create_embeddings`.
- `Store`: points, payloads, filters, upsert and the collection.
- `Scope`: the filters and `ensure_indexes_exist`.
- `Deletion`: `delete_vectors`, `delete_course_vectors`, `delete_course_material_vectors` and `delete_resource_vectors`.
- `PointIds`: `get_next_point_id`.
- `Assembly`: the chunk metadata and point construction of `upload_data`, `upload_course_data` and `process_and_upload_data`.
- `Upload`: the slice-wise upserts and `upload_data`.
- `Material`: `extract_text_from_pdf`, `process_pdf_to_chunks`, `upload_chunks_to_qdrant` and the material updater's `main`.
- `Finder`: `find_chunks` and `display_chunks`.
- `Retrieval`: `search_similar_chunks` and the input loop of `main`.
- `VideoSync`: `update_resource`, the course updater's `main`, `setup_qdrant_collection` and `process_and_upload_data`.

## Model

| member | source | states |
|---|---|---|
| Values.Lookup | Video/resource_updater.py:326-330 | A key is found exactly when some entry carries it, and the value found is that of the last entry with the key, as in the dict `json.loads` builds |
| Values.Iterate | Video/resource_updater.py:233-239 | Iterating a list gives its items; a list, dict or string can be iterated, and any other value raises |
| Values.Slice | Video/resource_updater.py:262-263 | `s[i:i+m]` has length m, or what is left when fewer remain, and holds the elements from position i on |
| Values.TrimStart | Material/pdf_converter.py:22-25 | The result is a suffix of the input that starts with a non-space, and only whitespace was cut |
| Values.TrimEnd | Material/pdf_converter.py:22-25 | The result is a prefix of the input that ends with a non-space, and only whitespace was cut |
| Values.StripBlank | Material/pdf_converter.py:22 | `text.strip()` is empty exactly when every character of the text is whitespace |
| Values.LowerAsciiSpells | Video/test_chunks.py:156 | `s.lower()` equals a word without upper-case letters exactly when `s` spells that word up to ASCII case, letter by letter |
| Values.NatToString | Video/resource_updater.py:344 | Decimal formatting gives one or more digits, and a single digit exactly below 10 |
| Values.NatToStringInjective | Video/resource_updater.py:344 | Different numbers format to different decimal strings |
| Values.IntToStringInjective | Video/resource_updater.py:361 | Different integers (sign included) format to different strings, so the ids inside a `chunk_id` can be read back |
| Values.IndexOfCharAfter | Video/resource_updater.py:361 | In `a + "_" + b` with no `_` in `a`, the first `_` sits right after `a` |
| Values.SplitAtUnderscore | Video/resource_updater.py:361 | Two strings `a_b` and `c_d` with no `_` in a or c are equal only when a = c and b = d |
| Chunker.WordAt | Video/resource_updater.py:214 | The first word of a string is its longest non-space prefix, non-empty when the string starts with a non-space |
| Chunker.ChunkTextByWords | Video/resource_updater.py:207-221 | The loop over `range(0, len(words), max_words)` returns the joined word runs that the specification `ChunkTexts` describes |
| Chunker.ChunkTextsRoundTrip | Video/resource_updater.py:207-221 | Each chunk holds 1 to max_words words; the chunks' words, in order, are `text.split()`; there are ceil(n / max_words) chunks; the result is empty exactly for a non-string or blank text |
| Chunker.WordsAreWords | Video/resource_updater.py:214 | Every word `split()` returns is non-empty and free of whitespace |
| Chunker.WordsOfJoin | Video/resource_updater.py:218 | Splitting the space-joined run of words gives back exactly those words |
| Chunker.FlattenGroup | Video/resource_updater.py:217-219 | The runs of words, put back together, are the original words |
| Chunker.GroupShape | Video/resource_updater.py:217-219 | Every run has 1 to max_words words, there is no run exactly when there are no words, and the run count is the ceiling of n / max_words |
| Chunker.GroupMembers | Video/resource_updater.py:217-219 | Every member of every run is a word |
| Chunker.FlattenWordsOfJoinAll | Video/resource_updater.py:218 | Splitting each joined run gives back the runs |
| Chunker.ChunkStep | Video/resource_updater.py:217-219 | One pass of the chunking loop appends the next joined run to the chunks made so far |
| Chapters.AppendTagged | Video/resource_updater.py:246-251 | The innermost loop appends exactly the tagged records of the chunk texts |
| Chapters.ProcessTopic | Video/resource_updater.py:235-251 | One pass of the topic loop appends the records of that topic, or ends with the exception a malformed topic raises |
| Chapters.ProcessChapters | Video/resource_updater.py:224-253 | The nested loops return the records `ChapterChunks` describes: [] for a falsy or non-dict input, and otherwise the records in topic order, then sub-topic order |
| Chapters.PrependThen | Video/resource_updater.py:235-251 | Appending a topic's records and then the rest equals appending both at once |
| Chapters.TaggedRecordWords | Video/resource_updater.py:246-251 | The records `Tag` builds from a sub-topic's chunk texts read back as those texts' words in order, each with the topic and sub-topic titles |
| Chapters.SubtopicFacts | Video/resource_updater.py:239-251 | A sub-topic's records hold exactly the words of its string content (none for other content), each word tagged with the topic title and the sub-topic's `title` (default ""), each record 1 to 250 words, and every record carrying both titles |
| Chapters.SubtopicListFacts | Video/resource_updater.py:239-251 | The records of a sub-topic list hold the words of the sub-topics in order, each word tagged with its sub-topic's titles, each chunk bounded |
| Chapters.TopicListFacts | Video/resource_updater.py:235-251 | The records of all topics hold the words of all contents in topic-then-sub-topic order, each word tagged with the titles of its topic and sub-topic, each chunk bounded |
| Chapters.ChapterChunksPreserveWords | Video/resource_updater.py:224-253 | For a chapters dict that does not raise, the records hold exactly the words of the truthy contents in order, at most 250 per record, and every word sits in a record tagged with the title of the topic and of the sub-topic it comes from (default "") |
| Chapters.NoTopicsNoChunks | Video/resource_updater.py:230-233 | A dict without `Topics` gives no records |
| Chapters.TopicNotDictRaises | Video/resource_updater.py:236 | A topic that is not a dict makes `topic.get` raise, and the exception ends the whole call |
| Chapters.RecordWordsConcat | Video/resource_updater.py:247 | The tagged words of two record lists put together are the tagged words of each, in order |
| Rows.TransformRows | Video/extracter.py:47-92 | The loop returns what `Transform` describes: the normalised copies of the kept rows, in input order |
| Rows.TransformSelectsKeptRows | Video/resource_updater.py:76-122 | The transform is an order-preserving selection: its k-th row is the normalised copy of the k-th kept input row, and a row is kept exactly when its normalised summary or chapters is truthy |
| Rows.TransformKeepsOnlyContent | Video/course_updater.py:64-107 | No returned row has both a falsy summary and falsy chapters |
| Rows.SummaryComesFromContent | Video/extracter.py:64-75 | A non-null summary is the `content` entry of a dict, given directly or as text that parses to it |
| Rows.UnparseableIsNone | Video/extracter.py:64-84 | Text that fails to parse becomes None in either column |
| Rows.ExportToJson | Video/extracter.py:105-128 | The cleaned rows are returned exactly when fetching and saving both succeed, and None otherwise |
| Embedding.CreateEmbeddings | Video/resource_updater.py:256-280 | The batch loop returns `Embeddings`, one entry per text, and pauses exactly at `Pauses` |
| Embedding.LengthFrom | Material/embedder.py:15-44 | From any batch boundary on, the output has one entry per remaining text |
| Embedding.EmbeddingsLength | Video/embedder.py:67-94 | The output has exactly the length of the input |
| Embedding.BatchLocality | Video/course_updater.py:184-208 | The entries of batch b are the service's vectors for that batch when it answers, and None for each of its items when it fails, whatever the other batches do |
| Embedding.SplitAt | Video/resource_updater.py:262-278 | The output from boundary i is the batches from i up to boundary j followed by the output from j |
| Embedding.LengthBetween | Video/resource_updater.py:262-278 | The batches between two boundaries contribute one entry per text |
| Embedding.StepFrom | Video/resource_updater.py:262-278 | One pass of the batch loop extends the output by that batch's result |
| Embedding.PausesExact | Video/resource_updater.py:273-274 | A pause follows batch offset p exactly when p is a batch boundary, the batch is not the last, and the batch succeeded |
| Embedding.PausesFromExact | Video/resource_updater.py:273-274 | The pause rule, counted from any boundary i on |
| Embedding.AllFailedFrom | Material/embedder.py:39-41 | When every batch fails, the output is all None, one per text |
| Embedding.MultipleAligned | Video/resource_updater.py:262 | Every multiple of the batch size is a batch boundary |
| Embedding.AlignedMultiple | Video/resource_updater.py:262 | Every batch boundary is a multiple of the batch size |
| Store.FindId | Video/resource_updater.py:381-384 | The point with a given id is found exactly when that id is stored |
| Store.PositionOf | Video/resource_updater.py:395-398 | The position of an id is where it is stored, or the end when it is absent |
| Store.UpsertOne | Video/resource_updater.py:395-398 | An upsert adds the point's id to the stored ids |
| Store.Window | TEST/find_chunks.py:95-102 | A page never holds more than `limit` points |
| Store.Select | TEST/find_chunks.py:80-83 | Selecting by a filter keeps at most all points |
| Store.Remove | Video/resource_updater.py:196-199 | Deleting by a filter keeps at most all points |
| Store.Collection.FailingOps | Video/resource_updater.py:202 | The failing call kinds are exactly those `Fails` reports |
| Store.Collection.constructor | Video/embedder.py:147-150 | A client starts with the given contents and configuration, and no indexes |
| Store.Collection.Count | Video/resource_updater.py:183-188 | `count` gives the number of points matching the filter, or raises |
| Store.Collection.Delete | Video/resource_updater.py:196-199 | `delete` removes exactly the matching points and changes nothing else, or raises and changes nothing |
| Store.Collection.Upsert | Video/resource_updater.py:395-398 | `upsert` overwrites by id and appends new ids in batch order, or raises and changes nothing |
| Store.Collection.Scroll | TEST/find_chunks.py:95-104 | `scroll` returns the page of matching points at the cursor, with a next cursor exactly when points remain |
| Store.Collection.Query | Video/test_chunks.py:72-77 | `query_points` returns the first `top_k` candidates in store order, or raises |
| Store.Collection.CreatePayloadIndex | Video/resource_updater.py:137-147 | Creating an index adds the field to the indexes, or raises and changes nothing |
| Store.Collection.DeleteCollection | Video/embedder.py:101-106 | Deleting the collection empties it and drops its configuration |
| Store.Collection.CreateCollection | Video/embedder.py:108-112 | Creating a collection succeeds only when none exists, and then it starts empty with the given configuration |
| Store.Collection.PointsCount | Video/resource_updater.py:502 | `points_count` is the number of stored points, or the call raises |
| Store.SelectRemoveSplit | Video/resource_updater.py:183-199 | The points a filter counts and the points its delete leaves partition the store: the former are exactly the matching points, the latter exactly the rest |
| Store.RemoveSubsequence | Video/resource_updater.py:196-199 | A delete only removes ids and keeps the ids distinct |
| Store.RemoveDistinct | Video/resource_updater.py:196-199 | A delete keeps ids distinct |
| Store.NothingMatchesAfterRemove | TEST/chunk_deleter.py:96-110 | After a delete by a filter, the recount by the same filter is zero |
| Store.RemoveNoMatch | Video/resource_updater.py:191-193 | When the count is zero, skipping the delete leaves the same store a delete would |
| Store.IdsAppend | Video/resource_updater.py:379-386 | Appending a point adds exactly its id |
| Store.NoUnderscore | Video/resource_updater.py:361 | A formatted integer contains no `_` |
| Store.VideoChunkIdInjective | Video/resource_updater.py:361 | A video `chunk_id` determines its course, module and resource ids and its index |
| Store.MaterialChunkIdsDiffer | Material/pdf_converter.py:81 | Material chunk ids with different counters differ |
| Store.LastUnderscore | Material/pdf_converter.py:81 | Strings ending in `_x` and `_y` with no `_` in x or y are equal only when x = y |
| Store.MatchesConcat | Video/resource_updater.py:166-180 | A point matches the conjunction of two condition lists exactly when it matches both |
| Store.NarrowerFilter | TEST/find_chunks.py:62-77 | Adding conditions can only narrow what a filter selects |
| Store.UpsertOneFacts | Video/resource_updater.py:395-398 | After an upsert, the id finds the new point, every other id finds what it found before, and ids stay distinct |
| Store.FindAt | Video/resource_updater.py:395-398 | With distinct ids, looking up a stored point's id finds that point |
| Store.FindAfterUpdate | Video/resource_updater.py:395-398 | Overwriting a stored id replaces that point and nothing else |
| Store.UpsertAllDistinct | Video/resource_updater.py:393-398 | A batch upsert keeps ids distinct |
| Store.UpsertAllLookup | Video/resource_updater.py:393-398 | After a batch upsert, an id finds the batch's last point with that id, and otherwise what it found before |
| Store.LastWithCons | Video/resource_updater.py:393-398 | The last point with an id in a batch is the one in the tail, when the tail has one, or else the head |
| Store.UpsertFreshIds | Video/resource_updater.py:393-398 | Upserting distinct ids that are not stored appends the batch in order |
| Store.UpsertFreshOne | Video/resource_updater.py:395-398 | Upserting a point whose id is not stored appends it |
| Store.FreshAfterFirst | Video/resource_updater.py:393-398 | Once the first point of a fresh batch is stored, the rest of the batch is still fresh |
| Store.AppendFreshDistinct | Video/resource_updater.py:379-386 | Appending a point with a new id keeps ids distinct |
| Store.UpsertAllConcat | Video/resource_updater.py:393-398 | Upserting two slices one after the other equals upserting them at once |
| Store.SelectConcat | TEST/find_chunks.py:91-110 | Selecting and deleting by a filter distribute over concatenation |
| Store.AllMatch | Video/resource_updater.py:196-199 | When every point matches, the filter selects all of them and the delete leaves nothing |
| Store.ReplaceMatching | Video/resource_updater.py:495-499 | Deleting a scope and then adding points that all lie in it leaves exactly those points in the scope and the rest untouched |
| Scope.Conditions | Video/test_chunks.py:50-66 | One equality condition per supplied id, in course, module, resource order; a point matches exactly when it carries every supplied id |
| Scope.ScopeFilter | Video/resource_updater.py:166-180 | The filter always constrains the course, adds the module and the resource when supplied, and matches exactly the points in scope |
| Scope.SearchFilter | Video/test_chunks.py:50-69 | No filter when no id is supplied (an unfiltered search); otherwise a filter matching exactly the points with every supplied id, a module without a course included |
| Scope.CourseFilter | Video/course_updater.py:118-128 | The course filter matches exactly the points of the course |
| Scope.BuildScopeFilter | Video/resource_updater.py:166-180 | The conditional appends build the scope filter |
| Scope.BuildSearchFilter | Video/test_chunks.py:50-69 | The conditional appends build the search filter, None when empty |
| Scope.SearchWithCourseIsScope | TEST/find_chunks.py:62-77 | With a course id, the search filter and the scope filter coincide |
| Scope.ScopesNest | TEST/find_chunks.py:44-47 | The points of a resource lie in its module, and the points of a module lie in its course |
| Scope.EnsureIndexesExist | Video/resource_updater.py:125-147 | The indexes on course, module and resource exist afterwards unless index creation raises, which is swallowed; the points are untouched |
| Deletion.DeleteVectors | Video/resource_updater.py:150-204 | The scope is counted; with a zero count nothing is deleted; otherwise exactly the scope is deleted; an exception from either call is swallowed and leaves the store unchanged |
| Deletion.DeleteVectorsEffect | Video/resource_updater.py:183-199 | When the count and any delete worked, skipping at a zero count leaves the same store a delete would: the store minus the scope, with every remaining point old and out of scope |
| Deletion.DeleteCourseVectors | Video/course_updater.py:110-132 | Exactly the course's points are removed, or a raised exception is swallowed and nothing changes |
| Deletion.RemoveDropsMatches | Material/material_updater.py:20-41 | When some point matches, the delete really shrinks the store |
| Deletion.DeleteResourceVectors | TEST/chunk_deleter.py:40-118 | A zero count returns before the prompt; only a stripped answer equal to `YES` deletes; the delete removes exactly the resource's points and the recount then reports zero; any exception is caught |
| PointIds.MaxId | Video/resource_updater.py:297 | `max(point.id ...)` bounds every id and is one of them |
| PointIds.NextFreeIsFresh | Video/resource_updater.py:296-300 | The proposal is above every scanned id and is the least such number |
| PointIds.NextFreeConcat | Video/resource_updater.py:289-298 | The proposal for two parts is the larger of their proposals |
| PointIds.NextPointIdSinglePage | Video/resource_updater.py:283-305 | As written: one scroll of at most 10000 points, the largest id plus one, 0 for none or on an exception |
| PointIds.SinglePageFreshWhenSmall | Material/embedder.py:47-68 | Up to 10000 points, the single page sees all of them and the proposal is a free id |
| PointIds.SinglePageReusesIdWhenLarge | Video/course_updater.py:211-233 | With ids 0..10000 stored in id order, the single page proposes 10000, which is already taken |
| PointIds.Consecutive | Video/embedder.py:161-225 | The points 0..n-1 in id order |
| PointIds.MaxIdOfConsecutive | Video/embedder.py:161-225 | Consecutive ids from 0 have largest id n-1 |
| PointIds.NextPointId | Video/resource_updater.py:283-305 | The scan through every page proposes one more than the largest stored id (0 for none or on an exception), and that id is free |
| PointIds.ScanStep | Video/resource_updater.py:289-298 | One more page raises the proposal to cover that page |
| Assembly.BuildResourceChunks | Video/resource_updater.py:334-369 | `chunks_to_embed` and `chunk_metadata` of one resource, as `ResourceChunks` describes them, or the exception `process_chapters` raises |
| Assembly.AppendChapterEntries | Video/resource_updater.py:355-367 | The `enumerate(..., start=1)` loop appends the chapter chunks numbered from 1 |
| Assembly.ResourceChunksEntries | Video/resource_updater.py:338-367 | A truthy summary opens the list as chunk 0, and the chapter records follow in order with indices counting on |
| Assembly.EntriesAfter | Video/resource_updater.py:355-367 | After the head, the k-th chapter chunk is record k numbered k+1 |
| Assembly.ResourceChunksShape | Video/resource_updater.py:338-369 | Summary chunk at index 0, chapter chunks (`ChapterEntries`) at 1..N even without a summary, each carrying its chapter record's text and titles, each `chunk_id` ending in its index, and the ids of a resource distinct |
| Assembly.Zip | Video/resource_updater.py:377 | `zip` pairs up to the shorter length |
| Assembly.PickedFacts | Video/resource_updater.py:377-378 | The picked positions are in range, increasing, and exactly those with an embedding |
| Assembly.AssembleAlongPicked | Video/resource_updater.py:377-386 | The k-th point is made from the k-th picked pair and has id start + k |
| Assembly.AssembleSelects | Video/resource_updater.py:377-386 | Points are made exactly for the pairs with an embedding, in order, with consecutive ids from the start |
| Assembly.AssemblePoints | Video/resource_updater.py:377-386 | The loop makes the assembled points and bumps `point_id` once per point |
| Assembly.ResourcePointsOf | Video/resource_updater.py:325-386 | One pass of the resource loop: the resource's chunks, embedded and numbered from the current id |
| Assembly.BuildPoints | Video/resource_updater.py:319-386 | The resource loop returns `PointsFor`, the points of all resources numbered on across resources, or the first exception |
| Assembly.NumberOnSnoc | Video/resource_updater.py:325-386 | One more resource extends the points by its own, or ends with its exception |
| Assembly.ErrorStops | Video/resource_updater.py:353 | An exception in one resource is the outcome of the whole loop |
| Assembly.NumberOnIds | Video/embedder.py:161-225 | Ids run consecutively from the start across all resources |
| Assembly.NumberOnFromRows | Video/course_updater.py:257-318 | Every point is a chunk of one of the rows and carries that row's own course id |
| Assembly.ResourcePointsFacts | Video/resource_updater.py:325-386 | One resource's points, built from the chunk texts (`Texts`) and metadata (`Payloads`) zipped with their embeddings, are numbered consecutively and are all chunks of that resource |
| Assembly.ResourceStepFacts | Video/resource_updater.py:325-386 | The resource step numbers consecutively and stays within its row |
| Assembly.PointsForFacts | Video/resource_updater.py:319-386 | All points of an upload have consecutive ids from the first free id, and each is a chunk of one of the rows |
| Upload.UpsertInSlices | Video/resource_updater.py:389-398 | Upserting in slices of 100 stores what one upsert of all points would, and an exception leaves the store unchanged |
| Upload.SliceStep | Video/resource_updater.py:393-398 | One more slice extends the upserted prefix |
| Upload.UploadData | Video/resource_updater.py:308-403 | `upload_data` returns early for no data, numbers from `get_next_point_id`'s single-page proposal (0 when that scroll raises), and upserts the points in slices; its result and new store are `AfterUpload` |
| Upload.UploadAppends | Video/resource_updater.py:308-403 | On a store of at most 10000 points with distinct ids, a working upload appends exactly the assembled points, all with fresh ids, each a chunk of an uploaded row |
| Upload.UploadOverwritesWhenLarge | Video/resource_updater.py:289-319 | On a store holding ids 0..10000 in id order, a working upload puts its first point under id 10000, replacing the point stored there |
| Upload.LastWithNumbered | Video/resource_updater.py:381-386 | With consecutive ids, the last point with id start + k is the k-th |
| Upload.UploadAfterScrollFailureOverwrites | Video/resource_updater.py:302-305 | When the id scan raises, numbering restarts at 0 and the new first point overwrites the stored point 0 |
| Upload.UpsertNumberedFrom | Video/resource_updater.py:381-398 | Upserting points numbered from `start` makes id `start` find the first of them, whatever was stored under it |
| Material.ExtractTextFromPdf | Material/pdf_converter.py:5-31 | A missing file raises, an unreadable one raises, and otherwise the result is the numbered, stripped, non-blank pages |
| Material.PagesSnoc | Material/pdf_converter.py:18-26 | One more page is kept, numbered from 1, exactly when its stripped text is not empty |
| Material.PagesShape | Material/pdf_converter.py:18-26 | Every extracted page has a number in 1..page count and a non-empty stripped text, and the page numbers strictly increase |
| Material.PagesComplete | Material/pdf_converter.py:18-26 | Every page whose stripped text is not empty is extracted under its 1-based number |
| Material.AppendPageChunks | Material/pdf_converter.py:80-91 | The inner loop appends the page's chunks with the running counter |
| Material.AppendPage | Material/pdf_converter.py:73-91 | One pass of the page loop appends that page's chunks |
| Material.ProcessPdfToChunks | Material/pdf_converter.py:51-93 | The chunks of all pages in page order, or the exception extraction raises |
| Material.PdfChunksStep | Material/pdf_converter.py:73-91 | The chunks of a page follow those of the pages before it |
| Material.PdfChunksSnoc | Material/pdf_converter.py:73-91 | One more page appends its chunks to those so far |
| Material.PdfChunksNumbered | Material/pdf_converter.py:71-91 | The counter of the k-th chunk of a book is k across pages (`NumberChunks` runs it on), and every chunk carries the course and the book |
| Material.PdfChunksOnPages | Material/pdf_converter.py:74-86 | Every chunk names one of the extracted pages |
| Material.PdfChunksInPageOrder | Material/pdf_converter.py:73-89 | With increasing page numbers, the chunks follow the pages in order |
| Material.PdfChunkIdsDistinct | Material/pdf_converter.py:81 | The `chunk_id`s of a book are distinct |
| Material.PageSplitKeepsWords | Material/pdf_converter.py:78 | Cutting a page into runs of 250 words keeps its words in order |
| Material.PdfChunksKeepWords | Material/pdf_converter.py:73-91 | With a word-preserving split, the chunks of a book hold exactly its words in reading order |
| Material.TextsOfAppended | Material/pdf_converter.py:80-91 | The texts after appending a page's chunks are the texts before, then the page's runs |
| Material.WordsOfEachConcat | Material/pdf_converter.py:80-91 | Splitting each text distributes over concatenation |
| Material.BookChunksKeepWords | Material/pdf_converter.py:51-93 | The chunk texts of a book (`ChunkTextsOf`, the texts sent for embedding) hold exactly its words, in reading order |
| Material.UploadChunksToQdrant | Material/embedder.py:71-132 | Texts embedded in order, points for the embedded chunks numbered from `get_next_point_id`'s single-page proposal (0 when that scroll raises), upserted in slices of 100, nothing written for no points |
| Material.MaterialPointsSelect | Material/embedder.py:101-116 | The points have consecutive ids from the start, each carries exactly the payload (`PayloadsOf`) of one chunk, and with every embedding present there is one point per chunk in order |
| Material.AllEmbedded | Material/embedder.py:101-116 | When every pair has an embedding, every pair becomes a point, in order |
| Material.MaterialUploadAppends | Material/embedder.py:89-128 | On a store of at most 10000 points with distinct ids, a working upload appends the points with fresh ids and keeps ids distinct |
| Material.MaterialUploadOverwritesWhenLarge | Material/embedder.py:52-89 | On a store holding ids 0..10000 in id order, a working material upload puts its first point under id 10000, replacing the point stored there |
| Material.MaterialMain | Material/material_updater.py:44-119 | A missing PDF returns before any store call; otherwise the course is deleted first (a failure only reported), the PDF converted, and the chunks uploaded from the single-page id proposal, each failure ending `main` |
| Material.ReplaceCourseMaterial | Material/material_updater.py:73-101 | With at most 10000 points left after the delete, uploading a course's chunks replaces the course's points and leaves the other courses untouched |
| Material.ConversionReplacesCourse | Material/material_updater.py:84-101 | With at most 10000 points of other courses, the stage after a successful conversion leaves the other courses untouched, and every point of the course is a chunk of the book |
| Material.PointsOfBook | Material/embedder.py:107-113 | The points of an upload all carry chunks of the book |
| Material.MaterialUpdateReplacesCourse | Material/material_updater.py:44-119 | With no call raising and at most 10000 points of other courses, a readable PDF's update leaves the other courses untouched and the course holds only chunks of the book |
| Material.UnreadablePdfStillDeletes | Material/material_updater.py:73-93 | A PDF that cannot be converted still leaves the course's points deleted |
| Finder.FindChunks | TEST/find_chunks.py:40-112 | The indexes are ensured, a zero count returns [] without scrolling, and the scroll loop returns the pages in order until there is no next offset: exactly `Found` |
| Finder.FoundExactlyScope | TEST/find_chunks.py:62-112 | A point is found exactly when it is stored and carries the course and every supplied module and resource id |
| Finder.FoundNarrows | TEST/find_chunks.py:44-47 | A resource's chunks are among its module's, which are among its course's |
| Finder.InsertKeeps | TEST/find_chunks.py:138-146 | Insertion adds the point and keeps every other point |
| Finder.InsertSorted | TEST/find_chunks.py:138-146 | Insertion into a sorted list keeps it sorted by the key |
| Finder.InsertFacts | TEST/find_chunks.py:138-146 | Insertion keeps the list sorted and adds exactly the point |
| Finder.SortedChunksFacts | TEST/find_chunks.py:138-146 | The displayed order is sorted by (course, module, resource, chunk index), with 0 for a missing key, and is a permutation of the chunks |
| Finder.TypeCountsAddUp | TEST/find_chunks.py:184-185 | The summary and chapter counts sum to at most the number of chunks, with equality exactly when every chunk is a video chunk |
| Finder.ResourceCounts | TEST/find_chunks.py:198-201 | The loop builds `resource_map`: its keys are the resource ids present and each count is the number of chunks with that id |
| Finder.KeysInOrderFacts | TEST/find_chunks.py:198-201 | Every chunk's key is a key of the map, keys do not repeat, and each counts at least one chunk |
| Finder.TotalAfterPoint | TEST/find_chunks.py:198-201 | One more chunk raises the total of its own key by one |
| Finder.ResourceCountsAddUp | TEST/find_chunks.py:198-204 | The per-resource counts add up to the number of chunks |
| Finder.NoCountWithout | TEST/find_chunks.py:198-201 | A key not in the map counts no chunk |
| Finder.Preview | TEST/find_chunks.py:172-174 | Content is cut to 500 characters with "..." appended exactly when it is longer; shorter content is shown whole |
| Retrieval.SearchSimilarChunks | Video/test_chunks.py:22-79 | The query is embedded as a retrieval query and the first `top_k` candidates of the scope (or of all points without a filter) are returned in store order; exceptions escape |
| Retrieval.SearchInScope | Video/test_chunks.py:50-79 | At most `top_k` results, each a stored point carrying every supplied id; they are the first candidates in store order, and fewer than `top_k` only when no other candidate exists |
| Retrieval.QueryLoop | Video/test_chunks.py:149-182 | The input loop answers `Session`: blank lines skipped, the session ended at an exit word, and one turn per query line |
| Retrieval.SessionStep | Video/test_chunks.py:149-182 | One line of the loop: skipped, ending the session, or adding the turn of its search |
| Retrieval.SessionAt | Video/test_chunks.py:149-182 | The session from a line on, by what that line is |
| Retrieval.SessionBounded | Video/test_chunks.py:149-182 | A session has at most one turn per line |
| Retrieval.SessionEndsAtExit | Video/test_chunks.py:156-158 | Nothing after an exit word is searched |
| Retrieval.BlankLineSkipped | Video/test_chunks.py:153-154 | Dropping a blank line leaves the same session |
| Retrieval.QueryLineAnswered | Video/test_chunks.py:160-182 | A query line gets exactly the turn of its search, then the session goes on |
| Retrieval.BlankIffWhitespace | Video/test_chunks.py:151-154 | A line is skipped exactly when it is all whitespace |
| Retrieval.ExitAnyCase | Video/test_chunks.py:156 | A query ends the session exactly when it spells `exit`, `quit` or `bye` in any mixture of ASCII letter cases, and nothing else does |
| VideoSync.FetchScope | Video/resource_updater.py:18-73 | The query returns at most the table's rows |
| VideoSync.FetchScopeExact | Video/resource_updater.py:18-73 | The query returns exactly the table rows of the scope |
| VideoSync.TransformInScope | Video/resource_updater.py:76-122 | The transform keeps a row's ids, so rows in scope stay in scope |
| VideoSync.FetchedRowsInScope | Video/resource_updater.py:18-73 | Every fetched row lies in the scope |
| VideoSync.ChunksInScope | Video/resource_updater.py:325-367 | Chunks of rows in a scope match the scope filter |
| VideoSync.ReplaceScope | Video/resource_updater.py:495-499 | With at most 10000 points left after the delete, uploading a scope's rows replaces the scope: outside nothing changes, inside are exactly the new points numbered on from the largest id left |
| VideoSync.UploadedRowsInScope | Video/resource_updater.py:454-469 | The rows an update goes on to upload all lie in its scope |
| VideoSync.ClearAndUpload | Video/resource_updater.py:493-523 | The three indexes added (kept as they were when index creation raises), the scope deleted, the rows uploaded from the single-page id proposal, and the collection size read; the configuration is unchanged |
| VideoSync.UpdateResource | Video/resource_updater.py:406-537 | A missing course id raises ValueError; no rows or no valid rows return a failure before any store call; otherwise the indexes are ensured, the scope is cleared and reloaded, and a later exception becomes a failure result; the indexes change only on that store path |
| VideoSync.UpdateReplacesScope | Video/resource_updater.py:452-524 | With at most 10000 points outside the scope, a successful update replaces exactly the scope's points with the freshly assembled ones |
| VideoSync.FailedUploadLosesScope | Video/resource_updater.py:495-499 | When the upsert raises after the delete, the scope is left empty |
| VideoSync.UpdateCourse | Video/course_updater.py:338-385 | The course is deleted first, then rows are fetched, transformed and uploaded from the single-page id proposal, exceptions after the delete propagate; configuration and indexes are unchanged |
| VideoSync.CourseFilterIsScope | Video/course_updater.py:118-128 | The course filter is the scope filter with only a course |
| VideoSync.CourseDeletedWithoutRows | Video/course_updater.py:354-363 | With no rows for the course, the course's points are deleted all the same |
| VideoSync.EmptyFetchOrdering | Video/course_updater.py:354-363 | For the same empty fetch, `update_resource` leaves the store as it was while the course updater has removed the course |
| VideoSync.CourseUpdateReplacesCourse | Video/course_updater.py:354-374 | With at most 10000 points of other courses, a successful course update replaces the course's points and leaves other courses untouched |
| VideoSync.SetupCollection | Video/embedder.py:97-132 | Delete errors are ignored; the collection is recreated empty as 768-dimension cosine, with integer indexes on course, module and resource |
| VideoSync.FreshLoad | Video/embedder.py:160-239 | A full reload stores exactly the assembled points with ids 0..k-1, so the largest id afterwards is k-1 |
| VideoSync.ProcessAndUploadData | Video/embedder.py:135-248 | The collection is set up, the points numbered from 0 and upserted in slices of 100; on success the store holds exactly those points; when the collection cannot be created nothing changes, and any later failure leaves the recreated collection empty |

## Left out

- I/O is not modelled: printing, `traceback.print_exc`, `time.sleep` (only the points where it pauses are computed), the `input()` prompt (its answer is a parameter), `load_dotenv`, and reading or writing JSON files.
- The database queries (`fetch_data`, `fetch_course_data`, `fetch_rows`) become a parameter: the joined resource table, or None when the connection or query raises. The SQL text is not modelled, and the query's answer is taken to be the rows whose ids equal the given ones.
- `json.loads` is a parameter of type `string -> Option<Json>`; its RFC 8259 grammar is not modelled.
- PyMuPDF's `fitz.open` and `page.get_text()` are not modelled: a PDF is a missing path, a file that raises on opening, or its page texts.
- The embedding service is a parameter: for a task type and a batch, either one opaque vector per item or a failure. Vectors are never inspected and no floating-point values occur.
- Similarity scores are not modelled. The store's ranking and its id order are its storage order, and a scroll cursor is a position in that order.
- Store faults are static: a call kind either always raises or never does for a given collection, and with no collection configured every call raises. A call that fails only once is not modelled.
- Values.LowerAscii: Python's `str.lower()` is modelled for the letters A-Z only; Unicode case mapping is not. `str.strip()` and `str.split()` use the characters Python treats as whitespace.
- The row ids `course_id`, `module_id` and `resource_id` are integers, as the joined table gives them; rows with missing ids (`resource.get` returning None) are not modelled.
- Global constants (`COURSE_ID`, `MODULE_ID`, `RESOURCE_ID`, `BOOK_NAME`, `PDF_PATH`) and the collection names from the environment are parameters.
- Material/embedder.py `create_embeddings` is the same loop as the video one and shares `Embedding.CreateEmbeddings`; it is modelled once.
- The copies of `chunk_text_by_words`, `process_chapters` and `create_embeddings` in Video/course_updater.py, Video/embedder.py and Material/pdf_converter.py are the same code as in Video/resource_updater.py and are modelled once.
- Finder.ResourceCounts: `display_chunks` prints the resource ids in sorted order; the model returns them in insertion order, and the printed order is not modelled.
- Finder.SortedChunksFacts: states sortedness and permutation, but not the stability of Python's `sorted`.
- Retrieval.QueryLoop: end of input is the end of `lines`; the `EOFError` that `input()` would raise is not modelled.
- The uploads (`upload_data`, `upload_course_data`, `upload_chunks_to_qdrant`) follow the code's single-page `get_next_point_id`, so their append and replace lemmas carry a bound of 10000 points on the store they scan. The corrected scan `PointIds.NextPointId` is modelled and proved fresh, but no upload path is rebuilt on it.
- Scope.SearchFilter follows the code: a module or resource id without a course id is accepted as it stands.
- Material/test_chunks.py, the top-level test_chunks.py and video_main.py are not part of this model. Their logic is a special case of Video/test_chunks.py, or it is I/O only.
- `main` of TEST/find_chunks.py and TEST/chunk_deleter.py only read console input and call the modelled functions; they are not modelled.

## Findings

| source | as written | input that shows it | evidently intended | confidence | as-written member | corrected member |
|---|---|---|---|---|---|---|
| Video/resource_updater.py:283-305 (also Video/course_updater.py:211-233 and Material/embedder.py:47-68) | `get_next_point_id` looks at one scroll page of at most 10000 points and returns the largest id on it plus one | a collection holding ids 0..10000 in id order: the page holds ids 0..9999, so the proposal is 10000, which is already stored, and the next upload overwrites point 10000 | scan every page until there is no next page, so the proposal is above every stored id | high, not executed | Upload.UploadOverwritesWhenLarge | PointIds.NextPointId |
