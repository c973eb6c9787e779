# Google Drive folder search: a Dafny model

This project models the core of a small Google Drive explorer. It has a Django backend and a React frontend.

Backend:
- **folder snapshot cache** (`FolderCacheService`): walks the remote folder tree breadth first and writes one row per folder into a `folder_cache` table. It tests whether the snapshot is fresh, returns the cached ids, and decides between rebuilding and reusing. Invalidation is soft: it only flips `is_active`.
- **batch search** (`BatchSearchService`): splits the folder ids into chunks of at most 100. It sends one PDF query per folder in each batch and concatenates the hits. A failing sub-request or a failing chunk contributes nothing.
- **search view helpers**: a recursive pre-order collection of folder ids with no visited set. Also the keyword condition: split on whitespace, escape quotes, join the `name contains` clauses with ` and `. Also the per-folder query and its search loop.
- **synonym dictionary** (`SynonymDict`): `normalize` (lowercase, then strip), the constant dictionary, and `get_synonyms`.

Frontend:
- **query normaliser** (`normalizeQuery`): deletes punctuation, the long-vowel mark and whitespace, turns hiragana into katakana and lowercases.
- **explorer hook** (`useDriveExplorer`): the breadcrumb trail and its handlers, and the query parameters of each request.

Tooling: the pixel loop of the icon script `remove_black_bg.py`.

## Modules

One module per source file of the core, plus four shared modules:
- `Wrappers` (`Option`)
- `Seqs` (`Concat`, `NoDups`)
- `Text` (whitespace classes, ASCII lowercasing, `strip()`, `split()`)
- `Drive` (paged listings, search hits, graph predicates)

The remote store is a map from folder id to its listing: the pages that are served and whether the request after the last page raises. Every search response is an oracle `string -> Option<seq<DriveFile>>` from the query to its files, or to a failure.

Database and API failures are parameters, and so are times:
- which writes fail, whether a read fails, and at which dequeue the walk aborts;
- "now" is given in integer microseconds.

Code that updates state in place is modelled as a class or as imperative methods, each proved against a specification function or predicate:
- the cache service, the batch loops and the view's loops;
- the explorer hook;
- the pixel loop.

Pure code is modelled as functions with lemmas: the synonym dictionary, the normaliser and the query builders.

## Model

| member | source | states |
|---|---|---|
| FolderCache.FolderCacheService.constructor | backend/folders/cache_service.py:21-27 | the store is the given table; the max age is the configured setting, or 24 hours when the setting is absent |
| FolderCache.FolderCacheService.BuildFolderCache | backend/folders/cache_service.py:98-172 | the result is non-empty, starts with the root and has no duplicates; the walk aborts exactly when the unexpected error strikes at a dequeue that happens, and the result is then `[root]`, the folders visited being exactly those named by the queue elements dequeued before the error, in queue order; unless it aborts, every visited folder's listed children are visited and the folders come in breadth-first order, each at the first queue element naming it; every visited folder after the root was listed by an earlier one; one row is written per visited folder whose write succeeds, and no other row changes |
| FolderCache.BuildOrderDetermined | backend/folders/cache_service.py:113-162 | two completed walks from the same root over the same remote tree give the same list: the order is fixed by the tree alone |
| FolderCache.NextVisit | backend/folders/cache_service.py:116-123 | in a completed walk, the folder visited after the first `n` is the one named by the first queue element, among those the first `n` visits enqueued, whose folder was not yet visited |
| FolderCache.DequeueVisit | backend/folders/cache_service.py:116-123 | dequeuing an element naming an unvisited folder visits it at that element; the dequeued prefix and the visiting order stay in step with the queue history |
| FolderCache.DequeueSkip | backend/folders/cache_service.py:119-120 | dequeuing an element naming a visited folder only moves the dequeued boundary |
| FolderCache.WalkDone | backend/folders/cache_service.py:116-167 | a walk whose queue is empty has dequeued every element it enqueued and yields the complete outcome: closed, breadth-first, rows written |
| FolderCache.WalkAborted | backend/folders/cache_service.py:169-172 | a walk stopped while elements remain yields `[root]` with the rows written so far kept; the folders visited are exactly those its dequeued elements name |
| FolderCache.AbortedOrderDetermined | backend/folders/cache_service.py:116-172 | two walks stopped after the same number of dequeues from the same root over the same tree visited the same folders in the same order, so the rows an aborted build leaves are fixed too |
| FolderCache.EnqueueSubfolders | backend/folders/cache_service.py:140-162 | the queue gains `(child, folder, name)` for every child on every page served, in order; a page request that raises ends the listing but keeps what earlier pages appended |
| FolderCache.AppendKids | backend/folders/cache_service.py:152-154 | the queue gains one element per subfolder of the page, in order, with the folder as parent |
| FolderCache.WalkVisit | backend/folders/cache_service.py:116-135 | dequeuing an unvisited folder keeps the walk invariant: visited set and result agree, no duplicates, root first, parents precede children, and rows are written from each folder's first-dequeued element |
| FolderCache.WalkSkip | backend/folders/cache_service.py:119-120 | dequeuing an already visited folder changes nothing but the queue and keeps the walk invariant |
| FolderCache.StoredRecord | backend/folders/cache_service.py:122-135 | each visited folder whose write succeeds has an active row stamped `now`, with `path == "/" + name`; the root's row has no parent and is named `Root`; any other row's parent is a folder visited earlier than it that lists it under that very name |
| FolderCache.FirstEntryParent | backend/folders/cache_service.py:116-154 | the first queue element naming a visited folder other than the root was appended by a folder visited before it, which lists it under that element's name |
| FolderCache.AllVisitedIsClosed | backend/folders/cache_service.py:116-162 | when the queue is empty, every listed child of a visited folder has been visited |
| FolderCache.FolderCacheService.IsCacheFresh | backend/folders/cache_service.py:53-72 | fresh exactly when the read succeeds, a root row exists and its `last_updated` is strictly later than `now` minus the max age; a failed lookup counts as stale |
| FolderCache.FreshnessBoundary | backend/folders/cache_service.py:68-69 | the comparison is strict: a row exactly max-age old is stale; one a microsecond younger is fresh |
| FolderCache.FolderCacheService.GetCachedFolderIds | backend/folders/cache_service.py:74-96 | on success: every active id (not only the root's descendants) once each, and the root at index 0 when it is not active; the result is never empty; `[]` when the read fails |
| FolderCache.FolderCacheService.GetAllFolderIds | backend/folders/cache_service.py:29-51 | rebuilds exactly when a refresh is forced, the cache is stale or unreadable, or the cached read fails; otherwise returns the cached ids with the store untouched; a rebuild has the outcome of `BuildFolderCache`, aborting exactly when the error strikes at a dequeue that happens, after visiting the folders of the dequeues before it; the root is always in the result |
| FolderCache.FolderCacheService.InvalidateCache | backend/folders/cache_service.py:174-189 | with a non-empty root id only that row is marked inactive, otherwise every row is; no row is added or removed and no other field changes; a failing update leaves the table as it was |
| FolderCache.Invalidated | backend/folders/cache_service.py:182-186 | the same keys; a row is active afterwards iff it was active and is not targeted; every other field is unchanged |
| FolderCache.InvalidateKeepsFreshness | backend/folders/cache_service.py:64-69 | invalidation never changes freshness; invalidating everything leaves no active id; active ids afterwards are exactly the untargeted active ones |
| FolderCache.CachedIdsWithNoActiveRow | backend/folders/cache_service.py:86-90 | with no active row the cached read yields exactly `[root]` |
| FolderCache.InvalidateAllThenReuse | backend/folders/cache_service.py:41-47 | after invalidating everything, a call for a fresh root without forced refresh does not rebuild and returns exactly `[root]` |
| Drive.Fetch | backend/folders/cache_service.py:144-158 | a page request fails exactly past the served pages of a failing listing; a continuation token comes only with a served page |
| Drive.CollectedFrom | backend/folders/cache_service.py:144-158 | following continuation tokens from request `k` gathers the served pages from `k` on, each once and in order, whether or not a failure follows |
| Drive.SameFolders | backend/folders/views.py:9-35 | two traversals that are both closed under listed children and both parents-first, from the same root, contain the same folders |
| BatchSearch.Chunks | backend/folders/cache_service.py:221 | ceil(N/100) chunks, each non-empty and of at most 100 ids, all but the last of exactly 100, whose concatenation is the input in order |
| BatchSearch.BatchQueryShape | backend/folders/cache_service.py:263-265 | (the row of `BatchSearch.BatchQuery`) the query is `'<id>' in parents and mimeType='application/pdf' and trashed=false`, with ` and <cond>` appended only for a non-empty condition; distinct ids give distinct queries |
| BatchSearch.ExecuteBatch | backend/folders/cache_service.py:239-280 | exactly one sub-request per id, in order; the hits are the successful sub-requests' files in request order; a batch that raises yields nothing |
| BatchSearch.Search | backend/folders/cache_service.py:203-237 | `[]` for empty input; otherwise the concatenation, in chunk order, of the successful chunks' hits |
| BatchSearch.NoFailedChunk | backend/folders/cache_service.py:214-237 | with no failing chunk, chunking does not matter: the hits are those of one sub-request per input id, in input order |
| BatchSearch.FailedChunkIsolated | backend/folders/cache_service.py:225-232 | a failing chunk removes exactly its own hits from between the hits of the chunks before it and the chunks after it, each of those being what that run of chunks yields on its own |
| Drive.FailedResponseIsolated | backend/folders/cache_service.py:253-259 | a failing sub-request adds no hits and leaves the others' hits unchanged |
| Drive.ResponseContributes | backend/folders/cache_service.py:253-259 | a successful sub-request contributes exactly its files, between the hits before and after it |
| FolderViews.PreOrder | backend/folders/views.py:9-35 | the list of a folder starts with that folder |
| FolderViews.ListAllFolderIds | backend/folders/views.py:9-35 | the result is the pre-order list: the folder, then for each listed child in listing order its own full list; a page request that fails keeps the ids collected so far |
| FolderViews.AppendSubtrees | backend/folders/views.py:24-26 | each subfolder of a page appends its own full list, in listing order |
| FolderViews.PreOrderClosed | backend/folders/views.py:9-35 | every listed child of a folder in the list is in the list |
| FolderViews.PreOrderParentsPrecede | backend/folders/views.py:9-35 | every id after the first was listed as a child of an id before it |
| FolderViews.TraversalsAgree | backend/folders/views.py:9-35 | the recursive collection and a completed breadth-first build from the same root contain the same folders |
| FolderViews.DiamondListedTwice | backend/folders/views.py:9-35 | with no visited set, a folder under two parents appears once per path (`r, a, c, b, c`), even though `a`'s listing fails after its first page |
| FolderViews.KeywordsProperties | backend/folders/views.py:82 | (the row of `FolderViews.Keywords`) the keywords are non-empty and free of whitespace, spell the query with its whitespace removed, and are the same as without the U+3000 replacement |
| FolderViews.EscapeQuotes | backend/folders/views.py:85 | every quote of the escaped keyword is preceded by a backslash; the escaped keyword is empty exactly when the keyword is |
| FolderViews.UnescapeEscape | backend/folders/views.py:85 | deleting the backslash inserted before each quote gives back the keyword |
| FolderViews.EscapeKeepsQuoteFree | backend/folders/views.py:85 | a keyword without quotes is used as it is, so backslashes are not escaped |
| FolderViews.TrailingBackslashClause | backend/folders/views.py:85-86 | a keyword ending in a backslash yields a clause ending in `\'`, in which the closing quote is escaped |
| FolderViews.NameConditions | backend/folders/views.py:82-87 | (the row of `FolderViews.NameClause` and `FolderViews.Condition`) the condition is one `name contains '<escaped keyword>'` clause per keyword, joined by ` and ` |
| FolderViews.ConditionBlank | backend/folders/views.py:82-87 | (with `NameConditions`, the row of `FolderViews.Condition`) the condition is `""` exactly when the query is blank; otherwise it starts with the first keyword's clause |
| FolderViews.FolderQueryShape | backend/folders/views.py:94-96 | (the row of `FolderViews.FolderQuery`) the query is `'<fid>' in parents and mimeType = 'application/pdf' and trashed = false`, with ` and <cond>` appended only for a non-empty condition; distinct folders give distinct queries |
| FolderViews.SearchFolders | backend/folders/views.py:89-107 | the items are the successful per-folder queries' files in folder order; a failing folder contributes nothing and the loop goes on |
| FolderViews.RecursiveSearch | backend/folders/views.py:76-109 | the search results are the hits of the per-folder queries over the pre-order folder list, with the keyword condition |
| Synonyms.NormalizeProperties | backend/search/synonyms.py:18-25 | (the row of `Synonyms.Normalize`) the empty input gives `""`; the normal form has no whitespace at either end and no upper-case letter; normalising is idempotent |
| Synonyms.GetSynonyms | backend/search/synonyms.py:27-40 | the result is never empty; on a hit it contains the normal form; on a miss it is exactly the original word |
| Synonyms.KeysInOwnLists | backend/search/synonyms.py:6-16 | every dictionary list contains its own key |
| Synonyms.ListsAgreeOnKeys | backend/search/synonyms.py:6-16 | a list member that is itself a key has the same list |
| Synonyms.PairedKeys | backend/search/synonyms.py:6-16 | `happy`/`ハッピー`, `birthday`/`バースデー`, `music`/`楽譜` and `hymn`/`賛美歌` return identical lists |
| Synonyms.NormalizeKey | backend/search/synonyms.py:31-35 | every key is its own normal form, so looking it up returns its own list |
| Synonyms.HitDependsOnNormalForm | backend/search/synonyms.py:31-35 | on a hit the result depends on the word only through its normal form |
| Synonyms.MixedCaseHit | backend/search/synonyms.py:31-35 | `get_synonyms("Happy ") == get_synonyms("happy")` |
| Synonyms.NonKeyMembers | backend/search/synonyms.py:40 | the members `聖歌` and `バースデイ` are not keys and return themselves alone |
| StringUtils.NormalizeQuery | frontend/src/utils/stringUtils.ts:1-12 | empty input gives `''`; the output is no longer than the input; it is the character-wise fold; it contains no punctuation `。、．・!！?？`, no `ー`, no whitespace, no hiragana in U+3041..U+3093 and no upper-case letter |
| StringUtils.FoldEqualsChain | frontend/src/utils/stringUtils.ts:4-11 | the chain of `replace` calls and `toLowerCase` equals deleting or rewriting each character on its own, in input order |
| StringUtils.ToKatakana | frontend/src/utils/stringUtils.ts:8-10 | a hiragana character moves 0x60 higher, to a character that is not hiragana; others are unchanged |
| StringUtils.NothingDeleted | frontend/src/utils/stringUtils.ts:4-11 | when no character is deleted, each one keeps its position and becomes its katakana form, lowercased |
| StringUtils.NormalizeQueryAppend | frontend/src/utils/stringUtils.ts:4-11 | normalising a concatenation is concatenating the normalised parts, so relative order is kept |
| StringUtils.NormalizeQueryIdempotent | frontend/src/utils/stringUtils.ts:4-11 | normalising twice equals normalising once |
| DriveExplorer.RequestParams | frontend/src/hooks/useDriveExplorer.ts:16-26 | `folder_id` is sent exactly when the folder id is truthy; `query` is sent exactly when the normalised query is non-empty, with the normalised text; `folder_id` comes first |
| DriveExplorer.BlankQueryNotSent | frontend/src/hooks/useDriveExplorer.ts:16-26 | a query that normalises to nothing sends the same parameters as no query |
| DriveExplorer.Explorer.constructor | frontend/src/hooks/useDriveExplorer.ts:10 | the trail is exactly `[{id: null, name: 'Home'}]`, and the top level is requested once, as the mount effect at lines 47-49 does |
| DriveExplorer.Explorer.HandleFolderClick | frontend/src/hooks/useDriveExplorer.ts:51-58 | an item of the folder MIME type appends exactly one crumb and requests that folder; any other item changes nothing |
| DriveExplorer.Explorer.HandleFileClick | frontend/src/hooks/useDriveExplorer.ts:60-68 | a truthy link is opened; otherwise the no-preview alert is shown |
| DriveExplorer.Explorer.HandleItemClick | frontend/src/hooks/useDriveExplorer.ts:70-76 | folders are opened as above; any other item is handled as a file and leaves the trail and requests unchanged |
| DriveExplorer.Explorer.HandleBreadcrumbClick | frontend/src/hooks/useDriveExplorer.ts:78-82 | clicking crumb `i` leaves the prefix of length `i+1`, which stays rooted at Home, and requests crumb `i`'s folder, now the last crumb |
| DriveExplorer.Explorer.Refresh | frontend/src/hooks/useDriveExplorer.ts:84-87 | the last crumb's folder is requested again; the trail is unchanged |
| DriveExplorer.Explorer.Search | frontend/src/hooks/useDriveExplorer.ts:89-92 | the last crumb's folder is requested with the query text; the trail is unchanged |
| DriveExplorer.Pushed | frontend/src/hooks/useDriveExplorer.ts:55 | the trail grows by one at its end and the opened folder becomes the current one |
| DriveExplorer.Truncated | frontend/src/hooks/useDriveExplorer.ts:79 | the trail keeps exactly its first `i+1` crumbs |
| DriveExplorer.BackAfterPush | frontend/src/hooks/useDriveExplorer.ts:79 | clicking the crumb before a newly opened folder restores the previous trail |
| DriveExplorer.OpenThenBack | frontend/src/hooks/useDriveExplorer.ts:51-82 | opening a folder and then clicking the crumb before it restores the trail and requests the folder shown before |
| RemoveBlackBg.Recolour | remove_black_bg.py:12-19 | every output pixel is `(0,0,0,0)` or the original pixel; it is `(0,0,0,0)` exactly for a pixel with R, G and B below 50, whatever its alpha, or for one already `(0,0,0,0)` |
| RemoveBlackBg.MakeTransparent | remove_black_bg.py:8-19 | the new pixel data has the same length as the input and is the input recoloured position by position |
| RemoveBlackBg.RecolouredPositions | remove_black_bg.py:12-19 | a near-black pixel becomes `(0,0,0,0)`; every other pixel is copied unchanged |
| RemoveBlackBg.Pointwise | remove_black_bg.py:9-19 | output position `i` depends only on input pixel `i` |
| RemoveBlackBg.RecolourIdempotent | remove_black_bg.py:12-19 | applying the filter twice equals applying it once |

## Behaviour worth noting

- **Invalidation then reuse.** Invalidating everything and then asking for a root's ids without a forced refresh does not rebuild. `_is_cache_fresh` looks only at the root row's `last_updated`, not at `is_active` (backend/folders/cache_service.py:64-69). `_get_cached_folder_ids` then inserts the root into the empty list of active ids (backend/folders/cache_service.py:86-90), so the non-empty `[root]` is returned from the cache. `FolderCache.InvalidateAllThenReuse` states this.
- **Order of batch hits.** The client library runs a batch's callbacks in the order the requests were added, so `ExecuteBatch` concatenates the hits of a chunk in request order, and `Search` concatenates the chunks in chunk order.

## Left out

- I/O and foreign libraries are replaced by parameters or oracles:
  - the Google Drive API client, `BatchHttpRequest`, the Django ORM and `settings`;
  - a database or API exception becomes a boolean or set parameter;
  - timestamps are integer microseconds given by the caller.
- Logging, `time.time()` elapsed reports, `print` and the HTTP layer of `FolderListView.get` are not modelled. That includes credentials, query-parameter defaults, the normal navigation listing and the response status codes (backend/folders/views.py:37-75, 109-132).
- `pageSize` limits are not modelled. A folder listing page has whatever length the listing gives it. A search asks for `pageSize=100` and never follows `nextPageToken` (backend/folders/cache_service.py:271, backend/folders/views.py:102, 119), so it gets only the first page of at most 100 files; the model leaves that page, and its bound, to the `respond` oracle.
- `BatchHttpRequest` rejects duplicate request ids. A chunk with a repeated folder id would raise when it is added; every chunk is treated as running normally unless listed among the failing chunks.
- An unexpected error inside the walk, outside its two inner handlers, is the `abortAt` parameter: the dequeue number at which it strikes. The walk then returns `[root]`; rows written before it stay, and nothing else is written.
- FolderCache.FolderCacheService.BuildFolderCache: the breadth-first order is not given as a separate reference function. The contract pins it instead: each folder is visited at the first queue element naming it, in the order of those elements, and `BuildOrderDetermined` proves that this leaves exactly one possible list. The same timestamp `now` is written into every row of one build, whereas `update_or_create` (backend/folders/cache_service.py:126-135) saves through the `auto_now` field `last_updated` (backend/folders/models.py:10), so each row really gets the clock time of its own save.
- Concurrency: concurrent rebuilds and last-writer-wins races.
- Python's `str.lower()` and JavaScript's `toLowerCase()` are modelled on ASCII letters only. Full Unicode case mapping and characters outside the Basic Multilingual Plane as UTF-16 pairs are not modelled.
- `None` inputs are not modelled. A falsy `normalize` argument is the empty string, and a `null` folder id is `None` in the explorer.
- FolderViews.ListAllFolderIds: requires an acyclic child relation, witnessed by a rank function. On a cyclic tree the recursive call (backend/folders/views.py:26) sits inside the `try` of its caller (backend/folders/views.py:16-33), so a `RecursionError` is caught one level up, printed, and that level returns the ids it has so far. The result is then branches cut off at the recursion limit, with ids repeated along each cycle, or, where folders have several subfolders, a run too long to finish in practice. None of that is modelled.
- The `fetch` itself, the JSON decoding and the loading and error flags of the explorer hook are not modelled. Each call of `fetchItems` is recorded as a request, and `RequestParams` says what it sends.
- The UI components, settings, URLs and `SearchResultCache` are not part of this model; `SearchResultCache` is never read or written.
- PIL's open, convert and save, and the hard-coded path in `remove_black_bg.py`, are not modelled. The pixels are the sequence `getdata()` yields.
