# high-performance-json-viewer, modelled in Dafny

This project models the core of a desktop JSON viewer. The viewer opens a
`.json`, `.ndjson` or gzip-compressed file on a background thread. It reports
loading progress through a shared loading state. It shows the documents of a
corpus through a document store that cuts each document out of one raw buffer
on demand, and it keeps the 100 most recently used documents in a
least-recently-used cache. The viewer panel pretty-prints documents with a
hand-written character loop, and it searches the corpus incrementally, 1000
documents per frame.

Modules:

- `DataStore` (`data_store.dfy`) is the document store. It has one class,
  `JsonDataStore`, with fields for the raw buffer, the index of byte ranges,
  the ready flag, the generation counter and the cache. The cache's recency
  list is a `seq` of `(index, text)` pairs, most recent first. The cache's
  lookup map is a `map` from index to text. Two things are proved about the
  cache:
  - A hit and a miss both keep the list and the map in agreement. The list
    stays free of duplicates and holds at most 100 entries.
  - Every cached text equals the slice of the buffer that the index names,
    as long as the buffer is not replaced while documents are cached. So a
    cache hit then returns exactly what a fresh extraction would return.
- `Loading` (`loading_state.dfy`) is the loading-progress record and its
  reset.
- `JsonParser` (`json_parser.dfy`) is the ingestion routine:
  - suffix detection for `.gz`, `.ndjson` and `.ndjson.gz`;
  - gzip decompression;
  - the NDJSON document-counting loop with its progress messages;
  - the single-document path, with each error message it can leave behind.

  What the compression and JSON libraries report is a parameter of type
  `Foreign`.
- `PrettyPrint` (`pretty_print.dfy`) is the `format_json` character loop.
  `FormatJson` is the loop itself. It is proved equal to `Format`, a left fold
  over the characters. These properties are proved about `Format`:
  - it only inserts spaces and newlines;
  - it copies string literals unchanged;
  - it applies the layout rule for each bracket, comma and colon.

  It also holds the finding below and its corrected scanner.
- `IncrementalSearch` (`incremental_search.dfy`) is the viewer panel's search
  state. Its class, `SearchState`, holds the panel's function-local statics.
  It covers the per-frame generation check, the batched scan step, the
  Search button (disabled while a search runs), the Clear button, and one
  whole frame. The invariant `Consistent` says two things:
  - the filtered list is exactly the matches among the documents scanned so
    far;
  - once a scan finishes, that list is every matching document, in order.
- `Wrappers` (`wrappers.dfy`) holds `Option`.

Three behaviours of the code that a reader might not expect, all modelled as
written:

- Ingestion never touches the document store. `json_parser` does not call
  `reset`, `set_raw_data`, `add_document_index` or `set_complete`, so no
  ingestion step in the model fills the store.
- A gzip file that inflates to zero bytes ends the load with no error
  message.
- A failing NDJSON document stops the count, yet the load is still marked
  complete.

## Model

| member | source | states |
|---|---|---|
| DataStore.Without | src/utils/json_data_store.cpp:59 | the list with a key's entry lifted out holds no entry for that key and only entries of the original list |
| DataStore.Promoted | src/utils/json_data_store.cpp:59 | after a hit, the hit entry is in front and no later entry has its key; every later entry was already cached |
| DataStore.Inserted | src/utils/json_data_store.cpp:79-87 | after a miss, the new entry is in front, followed by the old list in order; the list grows by one unless it was full, in which case the back entry is gone |
| DataStore.EvictedMap | src/utils/json_data_store.cpp:79-81 | eviction keeps only mappings of the old map, removes the back entry's key when the list is full, and changes nothing otherwise |
| DataStore.PositionOf | src/utils/json_data_store.cpp:56-57 | a cached key is found at a position of the recency list that holds that key |
| DataStore.DropLast | src/utils/json_data_store.cpp:79-82 | dropping the back entry of a duplicate-free list removes exactly the back key and keeps the list duplicate-free |
| DataStore.WithoutProperties | src/utils/json_data_store.cpp:59 | unlinking a key removes exactly that key, keeps the list duplicate-free, invents no entry and shortens the list by one when the key was present |
| DataStore.WithoutMultiset | src/utils/json_data_store.cpp:59 | unlinking an entry and putting it back gives the same multiset of entries |
| DataStore.PromotedKeepsEntries | src/utils/json_data_store.cpp:56-61 | moving a hit to the front keeps the multiset of entries, the size, the key set and distinctness |
| DataStore.InsertedKeys | src/utils/json_data_store.cpp:77-88 | a miss leaves at most CACHE_SIZE entries, duplicate-free, with the new entry in front; the keys are the old keys plus the new one, minus the back key exactly when the cache was full |
| DataStore.MissesBelowCapacity | src/utils/json_data_store.cpp:77-88 | up to CACHE_SIZE misses on an empty cache keep every entry, most recent first |
| DataStore.LeastRecentlyUsedIsEvicted | src/utils/json_data_store.cpp:77-88 | after CACHE_SIZE + 1 misses on distinct documents, the first document is the only one evicted |
| DataStore.Extract | src/utils/json_data_store.cpp:64-69 | with a buffer and an in-range index, a document's text has the range's length and is the buffer slice character by character; otherwise it is "" |
| DataStore.HitPreserves | src/utils/json_data_store.cpp:56-61 | a hit keeps the cache valid and keeps the same entries; with a coherent cache, the returned text is the extracted text |
| DataStore.MissPreserves | src/utils/json_data_store.cpp:64-88 | a miss keeps the list and map in agreement after eviction and insertion; it keeps coherence when the inserted text is the extracted one |
| DataStore.JsonDataStore.constructor | include/utils/json_data_store.hpp:36-47 | a new store is not ready, has generation 0, no buffer, no index and an empty cache |
| DataStore.JsonDataStore.Reset | src/utils/json_data_store.cpp:12-20 | the buffer, index and cache are cleared, the store is not ready, and the generation goes up by one |
| DataStore.JsonDataStore.SetRawData | src/utils/json_data_store.cpp:22-25 | the buffer is replaced and nothing else changes; the cache stays coherent if it was empty |
| DataStore.JsonDataStore.AddDocumentIndex | src/utils/json_data_store.cpp:27-30 | one range is appended, the count grows by one, and a coherent cache stays coherent |
| DataStore.JsonDataStore.SetComplete | src/utils/json_data_store.cpp:32-34 | only the ready flag changes, and it becomes true |
| DataStore.JsonDataStore.GetDocumentCount | src/utils/json_data_store.cpp:36-39 | returns the number of index entries |
| DataStore.JsonDataStore.GetIsReady | src/utils/json_data_store.cpp:41-43 | returns the ready flag |
| DataStore.JsonDataStore.GetGeneration | src/utils/json_data_store.cpp:45-47 | returns the generation counter |
| DataStore.JsonDataStore.GetDocument | src/utils/json_data_store.cpp:49-75 | hit: returns the cached text and moves it to the front; out-of-range index or no buffer: returns "" and leaves the cache alone; miss: returns the slice and caches it. A coherent cache stays coherent and the result is the document's text |
| DataStore.JsonDataStore.AddToCache | src/utils/json_data_store.cpp:77-88 | evicts the back entry when full and puts the new entry in front of the list and into the map |
| Loading.LoadingState.constructor | include/utils/loading_state.hpp:9-14 | a new loading state is cleared |
| Loading.LoadingState.Reset | include/utils/loading_state.hpp:16-23 | all six fields return to their cleared values; resetting a cleared state changes nothing |
| JsonParser.SameFrom | src/utils/json_parser.cpp:23 | compares equal exactly when the slice starting at `start` equals the part |
| JsonParser.EndsWith | src/utils/json_parser.cpp:19-24 | true exactly when the suffix is no longer than the string and equals its tail |
| JsonParser.EndsWithMeansAppended | src/utils/json_parser.cpp:19-24 | a string ends with a suffix exactly when it is some stem followed by that suffix |
| JsonParser.EndsWithTransitive | src/utils/json_parser.cpp:19-24 | ending with a string that ends with a suffix means ending with that suffix |
| JsonParser.DetectFormat | src/utils/json_parser.cpp:72-93 | a path is decompressed when it ends in `.gz` and streamed when it ends in `.ndjson` or `.ndjson.gz` (no contract; the suffix lemmas below state its cases) |
| JsonParser.LoadedSize | src/utils/json_parser.cpp:72-87 | the size of the buffer an attempt obtains: a decompressed buffer is never empty, and a non-gzip path gets whatever the plain load reports |
| JsonParser.NdjsonGzFormat | src/utils/json_parser.cpp:72-93 | a `.ndjson.gz` path is decompressed and streamed as NDJSON |
| JsonParser.NdjsonFormat | src/utils/json_parser.cpp:72-93 | a `.ndjson` path is read directly and streamed as NDJSON |
| JsonParser.JsonFormat | src/utils/json_parser.cpp:72-93 | a `.json` path is read directly and parsed as one document |
| JsonParser.JsonGzFormat | src/utils/json_parser.cpp:72-93 | a `.json.gz` path is decompressed and parsed as one document |
| JsonParser.NdjsonGzTakesBothPaths | src/utils/json_parser.cpp:72-93 | every path ending in `.ndjson.gz` is both gzip and NDJSON |
| JsonParser.DecimalString | src/utils/json_parser.cpp:107 | the decimal text of a count is non-empty and all digits |
| JsonParser.DecimalRoundTrip | src/utils/json_parser.cpp:107 | reading the decimal text back gives the count |
| JsonParser.LeadingSuccesses | src/utils/json_parser.cpp:104-116 | the count is at most the number of documents, every counted document succeeded, and the next one (if any) failed |
| JsonParser.FirstFailureBounds | src/utils/json_parser.cpp:104-116 | documents after the first failure never count |
| JsonParser.LastProgress | src/utils/json_parser.cpp:110-115 | the progress message after a number of documents: a multiple of PROGRESS_INTERVAL sets it, any other count leaves it as it was (no contract; defined by the loop's step) |
| JsonParser.LastProgressIsLastMultiple | src/utils/json_parser.cpp:110-115 | the message left after `count` documents names the largest multiple of PROGRESS_INTERVAL not above `count`, or is the earlier message when `count` is below the interval |
| JsonParser.CountDocuments | src/utils/json_parser.cpp:104-116 | counts the leading successful documents, records the count, names the first failing document in the error, and leaves the last progress message |
| JsonParser.DecompressGzip | src/utils/json_parser.cpp:26-46 | sets the decompressing status; an open failure gives size 0 and the gzip error; otherwise it returns the inflated size and leaves the error alone |
| JsonParser.LoadBuffer | src/utils/json_parser.cpp:69-87 | the buffer loads exactly when the gzip read inflates to at least one byte or the plain load succeeds; an open or load failure sets its own error, an empty inflate sets none; every failure clears the loading flag |
| JsonParser.StreamNdjson | src/utils/json_parser.cpp:93-122 | a stream failure gives "Error creating stream"; otherwise the leading successes are counted, the load completes, and the status reports the total |
| JsonParser.ParseSingle | src/utils/json_parser.cpp:124-144 | allocation and parse failures give their messages; success loads one document and completes |
| JsonParser.Ingest | src/utils/json_parser.cpp:61-145 | the load ends not loading; it completes exactly when the buffer loads and the chosen path succeeds; error, size and count follow the path taken, and the final status is given on each successful path |
| PrettyPrint.LayoutStep | src/panels/json_viewer_panel.cpp:60-85 | the indentation after a layout character stays non-negative and even |
| PrettyPrint.LayoutStepShape | src/panels/json_viewer_panel.cpp:60-85 | a layout step emits its character once, with only spaces and newlines around it |
| PrettyPrint.Emit | src/panels/json_viewer_panel.cpp:46-85 | one iteration keeps the indentation non-negative and even |
| PrettyPrint.Run | src/panels/json_viewer_panel.cpp:42-88 | the indentation is non-negative and even after any prefix |
| PrettyPrint.TogglesAt | src/panels/json_viewer_panel.cpp:49 | a quote toggles the string state unless the character before it is a backslash (no contract; the condition the finding below is about) |
| PrettyPrint.Format | src/panels/json_viewer_panel.cpp:42-88 | the output of the loop on the whole text (no contract; its properties are the lemmas below) |
| PrettyPrint.FormatJson | src/panels/json_viewer_panel.cpp:42-88 | the loop's output is `Format` of the minified text |
| PrettyPrint.ExtendInsertion | src/panels/json_viewer_panel.cpp:46-85 | appending a character with layout around it keeps the output an insertion of layout into the input |
| PrettyPrint.EmitShape | src/panels/json_viewer_panel.cpp:46-85 | every iteration appends its character once, with only spaces and newlines around it |
| PrettyPrint.RunInsertsOnlyLayout | src/panels/json_viewer_panel.cpp:42-88 | the output after any prefix is that prefix with only spaces and newlines inserted |
| PrettyPrint.FormatInsertsOnlyLayout | src/panels/json_viewer_panel.cpp:42-88 | the formatted text is the input with only spaces and newlines inserted |
| PrettyPrint.StringContentsCopied | src/panels/json_viewer_panel.cpp:49-58 | inside a string literal, characters up to the next toggling quote are copied verbatim, and indentation is untouched |
| PrettyPrint.LayoutRules | src/panels/json_viewer_panel.cpp:61-81 | outside strings, an opening bracket adds a newline and 2 more spaces, a closing bracket goes on a new line 2 spaces shallower (not below 0), a comma breaks the line, and a colon gets one space |
| PrettyPrint.EscapedBackslashMisread | src/panels/json_viewer_panel.cpp:49 | on `["\\",1]` the loop thinks it is still inside the string after the closing quote, so the comma and `1` are not laid out |
| PrettyPrint.FixedEmit | src/panels/json_viewer_panel.cpp:46-85 | the corrected step keeps the indentation non-negative and even |
| PrettyPrint.FixedFeed | src/panels/json_viewer_panel.cpp:46-86 | the corrected scanner keeps the indentation non-negative and even over any text |
| PrettyPrint.FixedFeedAppend | src/panels/json_viewer_panel.cpp:46-86 | feeding one more character is one more corrected step |
| PrettyPrint.FeedConcat | src/panels/json_viewer_panel.cpp:46-86 | feeding two texts in turn equals feeding their concatenation |
| PrettyPrint.FixedBodyCopied | src/panels/json_viewer_panel.cpp:49-58 | the corrected scanner copies a well-formed string body verbatim |
| PrettyPrint.FixedStringLiteralCopied | src/panels/json_viewer_panel.cpp:49-58 | the corrected scanner copies a whole string literal verbatim and ends outside it, escaped backslashes included |
| PrettyPrint.EscapedBackslashFixed | src/panels/json_viewer_panel.cpp:49 | the corrected scanner lays out `["\\",1]` with the comma and `1` on their own line |
| PrettyPrint.FixedAgreesWithoutBackslash | src/panels/json_viewer_panel.cpp:46-86 | on input without backslashes, the corrected scanner gives the same output as the loop as written |
| IncrementalSearch.Contains | src/panels/json_viewer_panel.cpp:148 | substring search as `find` does it: the empty query is found in every text, and a longer query than the text is never found |
| IncrementalSearch.Matches | src/panels/json_viewer_panel.cpp:146-151 | the scan of a range yields at most one index per document, each inside the range |
| IncrementalSearch.AllIndices | src/panels/json_viewer_panel.cpp:137-139 | the list of all indices is 0 .. total-1 in order |
| IncrementalSearch.MatchesExactly | src/panels/json_viewer_panel.cpp:146-151 | a scan of a range holds exactly the matching indices of that range, in increasing order |
| IncrementalSearch.MatchesSplit | src/panels/json_viewer_panel.cpp:143-158 | scanning a range in two parts gives the same list as scanning it at once |
| IncrementalSearch.BatchedScanIsFullScan | src/panels/json_viewer_panel.cpp:143-158 | scanning in batches gives the same list as one scan of the rest of the corpus |
| IncrementalSearch.FinishedScanIsComplete | src/panels/json_viewer_panel.cpp:143-158 | a finished search lists exactly the documents containing the query, in order, as the 1000-document batches produce them |
| IncrementalSearch.SearchState.constructor | src/panels/json_viewer_panel.cpp:113-122 | the statics start empty, idle, at cursor 0 and generation 0 |
| IncrementalSearch.SearchState.ShowAll | src/panels/json_viewer_panel.cpp:137-139 | the filtered list becomes every index |
| IncrementalSearch.SearchState.ClearSearch | src/panels/json_viewer_panel.cpp:217-227 | stops any search, clears the query and shows every index, which is consistent for any corpus |
| IncrementalSearch.SearchState.SyncGeneration | src/panels/json_viewer_panel.cpp:127-140 | the same generation changes nothing; a new generation clears the search and shows every index |
| IncrementalSearch.SearchState.Step | src/panels/json_viewer_panel.cpp:143-158 | an idle search changes nothing; otherwise one batch is scanned, its matches are appended, the cursor advances, the search stops at the end, and consistency is kept |
| IncrementalSearch.SearchState.SubmitSearch | src/panels/json_viewer_panel.cpp:191-211 | ignored while a search runs; empty text shows everything; other text starts a scan from 0 |
| IncrementalSearch.SearchState.Frame | src/panels/json_viewer_panel.cpp:106-227 | nothing happens before the store is ready; otherwise the generation is synced. An idle frame (same generation, no search running, no button pressed) changes nothing, so a finished result stays on screen. A new generation with no button pressed resets the view to every index. A frame with no button pressed on a running search advances the cursor by one batch (capped at the total), appends that batch's matches and stops at the end. A Search press during a scan that keeps running is ignored, and the batch still advances. A Search press when no search remains running after the batch starts a scan from 0 with an empty list when there is text, and shows every index when there is none. Clear shows every index. Consistency is kept across frames |

## Left out

- Threads, the mutex and the atomics are not modelled. Every operation runs to completion, one after another. A panel frame that interleaves with an ingestion thread is not modelled.
- The singleton accessors (`instance`, `get_json_data`, `get_loading_state`) are not modelled; callers hold the object itself.
- simdjson is abstracted, because it is a foreign library. This covers padded-string loading, `iterate_many`, the per-document errors, `allocate`, `iterate`, and the parse-and-minify step of `format_json` (including its fall-back of returning the raw text). Its outcomes are the `Foreign` fields, and `FormatJson` starts from the minified text.
- zlib's `gzopen`/`gzread` loop is abstracted as a `GzipOutcome`: either the open fails or it yields some number of bytes. The bytes themselves are not modelled.
- `format_size` is not modelled, because it formats floating-point megabyte and gigabyte figures. `Foreign.sizeText` stands for its text.
- ImGui and SDL rendering, the file dialog, the result list and the progress fraction are not modelled. The text of the search box is a parameter of `SubmitSearch` and `Frame`, and the button presses are boolean parameters.
- The `search_buffer` and `file_path_buffer` arrays are not modelled; clearing `search_buffer` is therefore not represented.
- IncrementalSearch.SearchState.Step: the scan reads documents through a function `doc`, not through `GetDocument`. Its cache side effects are not threaded through. `GetDocument` is proved to return the document's text whenever every cached text is its document's slice (`Coherent`). Every operation except `SetRawData` on a non-empty cache preserves that, and then the scanned text is the same.
- DataStore.JsonDataStore.SetRawData: the source does not clear the cache, so the contract states coherence only when the cache was empty. A buffer replaced under a non-empty cache can leave stale cached texts.
- DataStore.JsonDataStore.GetDocument: a miss on an in-range index requires the range to fit inside the buffer (`InBounds`). The source reads out of bounds otherwise, and the model does not give that behaviour a meaning.
- `size_t` wrap-around is not modelled. This covers the generation counter, the cursor plus `SEARCH_BATCH_SIZE`, and the count. All are unbounded naturals.
- The remaining source files (`main.cpp`, `panel_manager.hpp`, `file_chooser_panel.cpp`, `loading_panel.cpp`) are UI and start-up code and are not part of this model.

## Findings

| source | as written | input that shows it | evidently intended | confidence | as-written member | corrected member |
|---|---|---|---|---|---|---|
| src/panels/json_viewer_panel.cpp:49 | a quote does not toggle the string state whenever the previous character is a backslash, even when that backslash is itself escaped | the minified text `["\\",1]` | a quote ends a string unless an unescaped backslash precedes it, so the comma and `1` are laid out as `[\n  "\\",\n  1\n]` | high; not executed | PrettyPrint.EscapedBackslashMisread | PrettyPrint.FixedStringLiteralCopied |
