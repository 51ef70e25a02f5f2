# A verified model of Gitna's algorithms and protocols

Gitna is a local Git workbench: a Go backend that serves folders to a TypeScript interface. This project models
the parts of it that carry algorithmic or concurrency guarantees, and proves those guarantees with Dafny.
`dafny verify dfyconfig.toml` checks everything.

Concurrency is modelled as a state machine: each section under a lock, each channel operation and each move of a
goroutine is one step, and a law is proved for every run of such steps. What the program updates in place is a
class, or a method over arrays and variables; each such method is proved to compute a specification function, and
the laws are proved about that function.

| files | what they model |
|---|---|
| `GraphLanes`, `GraphContinuation`, `GraphEdges` | lane allocation of the commit graph, and continuing it from its last row |
| `FolderTree`, `RepositoryFiles` | the lazy, ordered walk over the files of a folder |
| `KeysetPaging` | what following a cursor promises, for the three listings that page by key |
| `DirectoryEntries`, `DirectoryIndex` | pages of one directory, by bounded heap and through an external sort with a sparse index |
| `DirectoryIndexCache`, `DirectoryIndexFiles` | the cache of index files: readers, invalidation, eviction |
| `FolderSearchIndex`, `SearchIndexFiles` | the temporary files of the filename index |
| `CandidateHeap`, `FileSearch`, `CatalogSearch`, `CatalogBuilder`, `Catalog`, `FilenameScore`, `FilenameRanking`, `FilenameAnswers` | the filename search: bounded heap, memory-limited catalog, two engines, scorer, and what the ranking makes of an answer |
| `MutationQueue`, `FolderRoute`, `RouteLifecycle`, `QueueRefinement`, `FolderRegistry`, `RouteTimers` | the life of a folder route, its backends, its mutation queue, its dormancy timers and shutdown |
| `FolderSession`, `ObservedDirectories` | watchers of a session, and the directories they observe |
| `ContentBatches`, `ContentPipeline` | the parallel content search |
| `Utf8`, `ContentExcerpt`, `ContentLines` | excerpts of matches, reading lines, matching globs |
| `ReviewPages` | paging a review under a byte budget |
| `Invalidations`, `EventsHub` | compacted invalidation queues, and fanning them out to subscribers |
| `Ordering`, `ByteStrings`, `Wrappers` | orders, byte strings and options that the others share |

UTF-8 is that of section 3 of RFC 3629, UTF-16 that of section 2.1 of RFC 2781.

Where the code does not do what one would expect of it, the model follows the code:

- `appendGraph` tests the first parent for null where `computeGraphFrom` tests it for truth, so a page that ends in a
  commit with an empty first parent is not continued as a whole computation would. `GraphContinuation` proves the
  exact condition and gives the smallest input.
- The filename index guarantees captured files only while the session context lives. `SearchIndexFiles` proves it for
  live sessions, gives a run in which a search loses its file after the session has ended, and proves when it does:
  exactly when the file was already given up by its builder, and kept by no reader, as the search captured it.
- Catalog records hold 32-bit numbers while the memory limit has 64 bits. `CatalogBuilder` proves that a path comes back
  exactly when all its numbers fit, that they do for limits up to 2^32 and for paths shorter than 2^20 bytes under any
  limit, and shows a path that is accepted and lost. The default limit is 2^28.
- The kinds of match the scorer tells apart lie only twenty apart, so a long path that begins with a term can rank behind
  one with the term inside its name. `FilenameRanking` proves exactly when an earlier kind wins and gives an input where
  it does not.
- The page reader of the disk index, unlike the bounded-heap reader, accepts any cursor, and must not be called with a
  limit below 1.

## Model

| member | source | states |
|---|---|---|
| GraphLanes.ClaimColumn | web/src/lib/graph-lanes.ts:45-55 | Claiming from the `freed` list, which still names columns popped off `lanes`, takes the lowest free column. |
| GraphLanes.SettleNode | web/src/lib/graph-lanes.ts:59-88 | The node sits on the first lane waiting for it, and without one in the lowest column that no lane takes; other lanes waiting for it end here. |
| GraphLanes.DrawRow | web/src/lib/graph-lanes.ts:58-105 | One turn of the loop draws the row and leaves the lanes that a from-scratch allocation would, with a `freed` list that again names the free columns. |
| GraphLanes.ComputeGraphFrom | web/src/lib/graph-lanes.ts:35-107 | The rows are those of an allocator that knows only the occupied lanes and always claims the lowest free column. |
| GraphLanes.ComputeGraph | web/src/lib/graph-lanes.ts:109-111 | ... starting from no lanes. |
| GraphLanes.RowsCompose | web/src/lib/graph-lanes.ts:57-106 | Rows of two lists one after the other: the second starts from the lanes the first leaves. |
| GraphContinuation.RestoreLanes | web/src/lib/graph-lanes.ts:118-144 | The lanes rebuilt from the last drawn row alone. |
| GraphContinuation.AppendGraph | web/src/lib/graph-lanes.ts:114-147 | The drawn rows followed by the rows computed from the rebuilt lanes. |
| GraphContinuation.RestoredIffDrawn | web/src/lib/graph-lanes.ts:118-144 | The rebuilt lanes equal the lanes behind the drawn row when the commit has no parents or a non-empty first one, and otherwise differ in the node column. |
| GraphContinuation.AppendContinues | web/src/lib/graph-lanes.ts:113-147 | Appending equals computing from scratch, row for row, exactly when one of the lists is empty or the last drawn commit has no parents or a non-empty first parent. |
| GraphContinuation.EmptyFirstParentBreaksAppend | web/src/lib/graph-lanes.ts:131-132 | The smallest input on which it does not: the one form tests the first parent for truth, the other for null. |
| GraphEdges.RowHandsOver | web/src/lib/graph-lanes.ts:57-105 | The outgoing columns of a row are pairwise distinct and each carries its parent into the next row. |
| GraphEdges.EveryRowIsRight | web/src/lib/graph-lanes.ts:57-95 | In every row of a graph the commit sits on the first lane waiting for it, or else in the lowest column no lane takes; its first parent continues that column, and every other parent gets the lowest column that no passing lane and no earlier parent has. |
| GraphEdges.FirstParentGoesOn | web/src/lib/graph-lanes.ts:59-85 | A commit followed by its first parent keeps its column for it, unless a lane further left waits for that parent too. |
| GraphEdges.RowIsWideEnough | web/src/lib/graph-lanes.ts:96-104 | `totalColumns` is one more than the greatest column the row names for its node, its lanes and its parents. |
| GraphEdges.LanesAreOpenEdges | web/src/lib/graph-lanes.ts:57-105 | With no parent listed before its child, the lanes after any row hold exactly the multiset of parent edges from drawn to undrawn commits. |
| RepositoryFiles.SelectFolderDirectoryCandidates | internal/gitx/repository_files.go:274-330 | One directory read, in whatever order its entries arrive, selects the first `limit` eligible candidates by path, with a cursor exactly when there are more. |
| RepositoryFiles.NothingDropped | internal/gitx/repository_files.go:360-366 | A candidate that is passed over has no file beyond the cursor below it, and one that has is kept. |
| RepositoryFiles.RegionFollowsKey | internal/gitx/repository_files.go:386-396 | Every file behind a heap item sorts at or after the item's key, also for a directory popped before its siblings and for a NUL-suffixed continuation. |
| RepositoryFiles.ExpandToken | internal/gitx/repository_files.go:381-397 | Expanding a continuation keeps the partition of the files still to come among the heap items, and consumes something whenever it reveals a candidate. |
| RepositoryFiles.TakeFile | internal/gitx/repository_files.go:412-424 | The least item, when it is a file, is the next file in byte order. |
| RepositoryFiles.EnqueuePage | internal/gitx/repository_files.go:381-398 | A directory page pushed on the heap keeps the invariant of the walk; a failed read is passed on. |
| RepositoryFiles.FolderFiles | internal/gitx/repository_files.go:372-427 | The page holds exactly the first `limit` file paths beyond the cursor in byte order; it is truncated if there are more, and otherwise only where a directory has still to be read that has none; the walk terminates; an error is the reader's. |
| RepositoryFiles.PagingListsEveryFile | internal/gitx/repository_files.go:403-426 | Following the cursor lists every file outside `.git` exactly once, in order, within a bounded number of pages. |
| KeysetPaging.PagingListsEverything | internal/gitx/repository_files.go:407-410 | The law all three listings share: chained keyset pages list every key once, in order. |
| DirectoryEntries.SelectDirectoryEntries | internal/gitx/directory_entries.go:49-91 | The bounded heap keeps the first `limit + 1` visible names beyond the cursor. |
| DirectoryEntries.ReadPage | internal/gitx/directory_entries.go:256-310 | The page of the first `limit` names beyond the cursor, truncated exactly when there are more; an empty listing for a limit below 1; an error for a cursor that names no child. |
| DirectoryEntries.PageIsUnique | internal/gitx/directory_entries.go:256-310 | One request has one page, whichever reader gives it. |
| DirectoryEntries.ShownPathLeadsBack | internal/gitx/directory_entries.go:290-300 | A listed path lies in its directory, ends in a slash for directories only, and leads to no other entry. |
| DirectoryEntries.PagingListsEveryName | internal/gitx/directory_entries.go:280-305 | Following the cursor lists every visible name exactly once, in byte order. |
| DirectoryIndex.WriteChunks | internal/app/folder_directory_index.go:204-237 | The scan without `.git`, cut into sorted chunks of at most 8192 records that together are a permutation of it. |
| DirectoryIndex.Merge | internal/app/folder_directory_index.go:254-291 | The k-way merge writes a sorted permutation of the chunks, and every 256th record is in the sparse table under the offset of its line. |
| DirectoryIndex.LeastComesNext | internal/app/folder_directory_index.go:268-291 | Popping a least head keeps the output sorted and ahead of everything still in the chunks. |
| DirectoryIndex.BuildDirectoryIndex | internal/app/folder_directory_index.go:191-307 | The index is a sorted permutation of the scan, whatever names it holds, with a correct sparse table. |
| DirectoryIndex.BuiltIndexes | internal/app/folder_directory_index.go:191-307 | Built from a directory with distinct names it is strictly ascending and holds exactly the visible entries. |
| DirectoryIndex.StartingEntry | internal/app/folder_directory_index.go:370-376 | The search in the sparse table steps back to the last entry not beyond the cursor. |
| DirectoryIndex.StartingLine | internal/app/folder_directory_index.go:370-380 | The offset it seeks to is the start of a line, and not beyond the first record to show. |
| DirectoryIndex.ReadDirectoryIndexPage | internal/app/folder_directory_index.go:356-414 | A page read through the sparse table is the first `limit` visible names beyond the cursor. |
| DirectoryIndex.PageEitherWay | internal/app/folder_directory_index.go:191-414 | Read from the index or scanned anew with the bounded heap, the page is the same. |
| DirectoryIndexCache.FolderDirectoryIndexCache.Invalidate | internal/app/folder_directory_index.go:55-71 | Nothing is cached any more; the files of entries nobody reads are gone, those being read are marked for their last reader, and no other file is touched. |
| DirectoryIndexCache.FolderDirectoryIndexCache.Look | internal/app/folder_directory_index.go:81-99 | The entry the cache offers for the key, now used later than every other; only an unknown key gets a new entry, with a builder, and no other entry or file is touched. |
| DirectoryIndexCache.FolderDirectoryIndexCache.Enter | internal/app/folder_directory_index.go:106-120 | A request is admitted exactly to an entry that the cache still offers and that has not failed; then its file exists and cannot be evicted. A failed entry is forgotten with its file. |
| DirectoryIndexCache.FolderDirectoryIndexCache.Leave | internal/app/folder_directory_index.go:126-132 | The last reader of an invalidated file removes it; then the cache evicts. |
| DirectoryIndexCache.FolderDirectoryIndexCache.Publish | internal/app/folder_directory_index.go:143-158 | A build becomes ready exactly when its entry is still cached: failed if it failed, and otherwise open to requests with its file there, whatever is evicted for it. |
| DirectoryIndexCache.FolderDirectoryIndexCache.Oldest | internal/app/folder_directory_index.go:163-172 | The least recently used entry that has a file and no reader, if there is one. |
| DirectoryIndexCache.FolderDirectoryIndexCache.EvictLocked | internal/app/folder_directory_index.go:161-179 | Evicts the least recently used of the evictable entries, only as many as it takes to reach the limit, and stops short only when none is left. |
| DirectoryIndexFiles.StepKeepsInv | internal/app/folder_directory_index.go:36-179 | Every locked section and every builder step keeps the invariant of the cache, its files and its readers. |
| DirectoryIndexFiles.FilesAreExactlyOwned | internal/app/folder_directory_index.go:36-179 | In every run a file exists exactly while its builder still holds it, the cache offers it, or a request reads it. |
| DirectoryIndexFiles.ReadFilesStay | internal/app/folder_directory_index.go:120-132 | A file that a request reads is never removed. |
| DirectoryIndexFiles.LastOneRemoves | internal/app/folder_directory_index.go:127-149 | An invalidated file goes with its last reader; a build that ends stale leaves no file. |
| DirectoryIndexFiles.InvalidatedIsNeverServed | internal/app/folder_directory_index.go:55-149 | In every run no entry from before an invalidation is found, published or read by a request after it. |
| DirectoryIndexFiles.SomeoneWillWake | internal/app/folder_directory_index.go:101-105 | Whoever waits for an entry is woken: until it is ready its builder has a step to take, whatever the cache must evict, and less to do afterwards. |
| DirectoryIndexFiles.BuildsOnlyGoOn | internal/app/folder_directory_index.go:134-159 | No request, invalidation or eviction gives a builder more to do, and each of its own steps leaves less. |
| DirectoryIndexFiles.AtRestOnlyCachedFiles | internal/app/folder_directory_index.go:55-179 | With no build and no read under way the files are those of the cached entries, and none after an invalidation. |
| FolderSearchIndex.SearchIndex.RetirePathLocked | internal/app/folder_search.go:49-63 | A path is kept once for the last reader, or returned for removal when nobody reads. |
| FolderSearchIndex.SearchIndex.InvalidateFileSearch | internal/app/folder_search.go:192-216 | Afterwards no key is up to date and every builder is stale; the old file is not lost: removed only when nobody reads, else kept for the last reader or left to the builder writing it. |
| FolderSearchIndex.SearchIndex.ReleaseFileSearchReader | internal/app/folder_search.go:218-232 | Files are handed over for removal only when no reader is left, and then all that were kept; the known and the removed files together are those known before. |
| FolderSearchIndex.SearchIndex.StartFileSearchIndex | internal/app/folder_search.go:234-280 | Afterwards the index is built or being built for the key, or the failure is recorded; the new builder is the only one not stale, and no file is lost or removed under a reader. |
| FolderSearchIndex.SearchIndex.FinishBuild | internal/app/folder_search.go:342-361 | The file of a finished builder stays known or is removed, never under a reader; a stale builder changes nothing else; the index is up to date afterwards if the current one met no error and no cancellation, and complete only then. |
| SearchIndexFiles.StepKeepsInv | internal/app/folder_search.go:49-363 | Every locked section, deferred removal and builder step keeps the invariant. |
| SearchIndexFiles.CapturedFilesStay | internal/app/folder_search.go:414-426 | While the session context lives, the file a search captured exists until the search releases it. |
| SearchIndexFiles.IntactWhileHeld | internal/app/folder_search.go:218-232 | Whether the session lives or not, a file that is there and not about to be removed stays so while a search holds it. |
| SearchIndexFiles.CurrentIsIntactUnlessAbandoned | internal/app/folder_search.go:343-361 | The current file may be captured and then lost exactly when its builder gave it up and no reader keeps it, which happens only after the session context has ended. |
| SearchIndexFiles.NoFileIsForgotten | internal/app/folder_search.go:192-363 | In every run each existing temporary file is current, retired, pending removal or a running builder's. |
| SearchIndexFiles.AtRestOnlyTheCurrentFile | internal/app/folder_search.go:192-363 | With nothing under way at most the current file is left. |
| SearchIndexFiles.DeadSessionRemovesACapturedFile | internal/app/folder_search.go:343-361 | Once the session context has ended the guarantee is gone: a run in which a search finds no failure recorded, captures the current file and loses it. |
| CandidateHeap.HeapDown | internal/filesearch/catalog.go:721-736 | Sifting down restores the heap order below the root it is given, by a permutation. |
| CandidateHeap.HeapInit | internal/filesearch/catalog.go:715-719 | Any slice becomes a heap, by a permutation. |
| CandidateHeap.RootIsWorst | internal/filesearch/catalog.go:298-305 | The root of the heap is not better than anything in it. |
| CandidateHeap.Selection.AddCandidate | internal/filesearch/catalog.go:385-395 | The bounded heap keeps exactly the best `limit` of all candidates offered. |
| CandidateHeap.SortedBestIsFirst | internal/filesearch/catalog.go:364-364 | Sorting what it kept gives the first `limit` of all candidates. |
| FileSearch.AnswerIsUnique | internal/filesearch/catalog.go:317-395 | "Score all, sort by tier, quality and path, take `limit`, mark names" has one answer for distinct paths. |
| FileSearch.NameFollowsLastSlash | internal/filesearch/catalog.go:350-356 | A path is its parent, a slash and its name, which has no slash. |
| FileSearch.DependencyIffInsideModules | internal/filesearch/catalog.go:210-212 | A dependency lies under a directory called node_modules at some depth, or is called so itself at the root. |
| FileSearch.RankPaths | internal/filesearch/catalog.go:466-531 | The stream engine gives that answer. |
| FileSearch.CountNames | internal/filesearch/catalog.go:684-712 | The second scan counts how many files fold to the name of each result. |
| CatalogSearch.ScoreRecordIsScored | internal/filesearch/catalog.go:345-361 | A record read from the arenas scores as its path does, for depths that fit 16 bits. |
| CatalogSearch.SegmentShare | internal/filesearch/catalog.go:337-363 | The k-th segment holds its share of the accepted files. |
| CatalogSearch.Search | internal/filesearch/catalog.go:317-383 | Over a complete catalog that did not overflow the memory engine gives the same answer. |
| CatalogSearch.MarkFromResults | internal/filesearch/catalog.go:368-375 | While the catalog is incomplete a name is marked exactly when another result folds equal to it. |
| CatalogSearch.SearchEitherWay | internal/filesearch/catalog.go:317-531 | Both engines return the same results. |
| CatalogBuilder.AppendKeeps | internal/filesearch/catalog.go:143-167 | An accepted path keeps the accounting within the limit, the name counts right and, if it is addressable, the records decoding to the accepted files. |
| CatalogBuilder.FreezeKeeps | internal/filesearch/catalog.go:214-232 | Freezing preserves the accounted total and what the records decode to. |
| CatalogBuilder.RecordIsExact | internal/filesearch/catalog.go:154-161 | The 32-bit numbers of a record are those of its path exactly when the path is addressable: its lengths, and the offsets of its name and folded name, are below 2^32. |
| CatalogBuilder.AppendDecodes | internal/filesearch/catalog.go:149-161 | The records decode to the accepted files with the new path exactly when it is addressable, in arenas below 2^32 bytes; in any arenas if it is. |
| CatalogBuilder.WhatFitsIsAddressable | internal/filesearch/catalog.go:143-161 | Under a limit of at most 2^32, or with paths shorter than 2^20 bytes under any limit, every path that is accepted is addressable. |
| CatalogBuilder.FitsIffAccounted | internal/filesearch/catalog.go:143-148 | A path is accepted exactly when everything accounted for with it stays within the record limit. |
| CatalogBuilder.DefaultsRank | internal/filesearch/catalog.go:178-190 | Default results rank project files before dependencies, then by depth, then by path. |
| CatalogBuilder.LongPathIsLost | internal/filesearch/catalog.go:143-161 | A path of 2^32 bytes that the builder accepts under a limit of 2^34, and whose record no longer decodes to it. |
| CatalogBuilder.RoomForShort | internal/filesearch/catalog.go:191-205 | With the full reserve and paths of at most 4096 bytes, memory never decides about the default results. |
| CatalogBuilder.DefaultReplaced | internal/filesearch/catalog.go:198-207 | Replacing the worst default keeps the best 100 and their memory account. |
| Catalog.Builder.constructor | internal/filesearch/catalog.go:97-124 | The limit is split into a reserve for the default results and the rest for records. |
| Catalog.Builder.Add | internal/filesearch/catalog.go:129-172 | A path is accepted exactly when it fits, the builder is not sealed and has not overflowed; the invariant holds and what was frozen stays. |
| Catalog.Builder.AddDefault | internal/filesearch/catalog.go:178-208 | The default results stay a heap within their reserve, and the best 100 of all accepted files when the reserve is ample. |
| Catalog.Builder.Freeze | internal/filesearch/catalog.go:214-232 | The accounted total stays, the invariant holds, and the segments alone now hold the accepted files. |
| Catalog.Builder.TakeSnapshot | internal/filesearch/catalog.go:235-265 | A snapshot accounts for at most the limit, decodes to the accepted files in order when all were addressable, and changes nothing in the total; a complete one seals the builder. |
| Catalog.LaterSnapshotsExtend | internal/filesearch/catalog.go:240-241 | What an earlier snapshot holds is a prefix of what a later one holds. |
| FilenameScore.GreedyIsLeftmost | internal/filesearch/catalog.go:813-846 | Taking the first occurrence of each rune finds an embedding if there is one, and none lies further left anywhere. |
| FilenameScore.FuzzyMatch | internal/filesearch/catalog.go:813-846 | Succeeds exactly for subsequences, with the leftmost positions; the score is bytes skipped plus the last position less twice the longest run. |
| FilenameScore.BestRunIsLongest | internal/filesearch/catalog.go:813-846 | The run that betters a fuzzy score is the longest stretch of adjacent positions. |
| FilenameScore.TermAccepted | internal/filesearch/catalog.go:783-806 | A term has a quality exactly when it is a subsequence of the path. |
| FilenameScore.SingleTermMatchRuneIndices | internal/filesearch/catalog.go:640-667 | The highlighted positions spell the term in the path, and exist exactly when the term is accepted. |
| FilenameScore.PathAccepted | internal/filesearch/catalog.go:738-781 | A path is a result exactly when every term of the query is a subsequence of it. |
| FilenameRanking.TermQuality | internal/filesearch/catalog.go:783-806 | A term is worth twenty for each kind of match passed over, from a prefix of the name to a scattered match in the path, and the bytes it leaves over. |
| FilenameRanking.EarlierKindWins | internal/filesearch/catalog.go:783-806 | Of two paths the one with the earlier kind of match is better exactly unless it leaves over twenty bytes more for each kind it is ahead. |
| FilenameRanking.NamePrefixBeatsPathPrefix | internal/filesearch/catalog.go:784-789 | Among paths of equal length a prefix of the name beats a prefix of the path. |
| FilenameRanking.PathPrefixMayLose | internal/filesearch/catalog.go:787-792 | A prefix of the path need not beat a later occurrence in a name, even at equal lengths. |
| FilenameRanking.TermsAddUp | internal/filesearch/catalog.go:767-781 | With several terms a path that has none worse and one better than another path is better. |
| FilenameRanking.ExactPathIsFirst | internal/filesearch/catalog.go:738-765 | The path that was asked for has a better tier than everything else that is accepted. |
| FilenameRanking.ExactNameIsNext | internal/filesearch/catalog.go:738-765 | A file whose name was asked for has a better tier than every inexact match, unless only the match is a project file. |
| FilenameRanking.RootComesFirst | internal/filesearch/catalog.go:749-757 | Of the files with that name the one at the root has the best tier. |
| FilenameRanking.DependenciesComeLast | internal/filesearch/catalog.go:748-765 | Without a path in the query a dependency has a worse tier than every project file that is accepted. |
| FilenameRanking.PathIntentLiftsDependencies | internal/filesearch/catalog.go:748-748 | With a path in the query dependencies score as other files do. |
| FilenameRanking.InexactByQualityAndDepth | internal/filesearch/catalog.go:758-765 | Among inexact matches of one standing quality and depth decide together. |
| FilenameAnswers.LowerTierIsShownFirst | internal/filesearch/catalog.go:345-364 | In an answer of either engine a file of a better tier is shown before one of a worse tier, however recently that was used. |
| FilenameAnswers.ExactPathHeadsTheAnswer | internal/filesearch/catalog.go:317-383 | The path that was asked for is shown before every other result. |
| FilenameAnswers.ProjectFilesBeforeDependencies | internal/filesearch/catalog.go:317-383 | Without a path in the query every accepted project file is shown before any dependency but the path that was asked for. |
| FilenameAnswers.RecentlyUsedIsShownFirst | internal/filesearch/catalog.go:352-361 | Of two files with the same score the one used more recently is shown first. |
| FilenameAnswers.FoundExactlyTheMatching | internal/filesearch/catalog.go:337-363 | An answer that is not full shows exactly the files the request admits, ignored ones only if asked for, whose path contains every term as a subsequence. |
| FilenameAnswers.MarkedIffShared | internal/filesearch/catalog.go:684-712 | A name is marked as a duplicate exactly when two files of the catalog fold to it. |
| MutationQueue.StepKeepsInv | internal/gitx/operations.go:44-118 | Every channel operation and lock acquisition keeps the queue in order, also for a submission that gets its lock after Stop was announced. |
| MutationQueue.JobsRunInAcceptanceOrder | internal/gitx/operations.go:58-118 | In every run nothing is sent on a closed channel; jobs start in acceptance order, one at a time, at most once; each is answered at most once; a refused one never starts. |
| MutationQueue.CancelledNeverStarts | internal/gitx/operations.go:58-91 | In every run a job whose context ended before it started never starts. |
| MutationQueue.StopThenWaitAnswersAll | internal/gitx/operations.go:44-77 | After Stop nothing is accepted; after Wait every accepted job has exactly one answer. |
| MutationQueue.StopNeverBlocks | internal/gitx/operations.go:41-51 | Stop does not deadlock with a full queue and a busy worker. |
| QueueRefinement.EveryStepIsAMove | internal/gitx/operations.go:44-118 | Each step of the queue is one move, or none, of the queue that the route model gives a backend. |
| FolderRoute.Route.constructor | internal/app/folder_registry.go:38-55 | A new route: no backend, generation 1, no timer. |
| FolderRoute.Route.DoEnsureActive | internal/app/folder_registry.go:294-322 | One caller at a time gets the latch; a caller is told that the backend is current exactly when there is one, free of a transition and of a pending refresh, and then would acquire it; no timer armed so far can retire it. |
| FolderRoute.Route.DoAcquire | internal/app/folder_registry.go:401-415 | The backend a request holds is the current one, and while it is held no timer whatever retires it. |
| FolderRoute.Route.DoRelease | internal/app/folder_registry.go:445-453 | After a release a timer is armed exactly when the route is idle. |
| FolderRoute.Route.DoSubscribersChanged | internal/app/folder_registry.go:455-468 | Every change is counted, never below zero; while there is a subscriber no timer retires the route, and when one has left a timer is armed exactly when it is idle. |
| FolderRoute.Route.DoCancelDormancy | internal/app/folder_registry.go:470-476 | No timer armed so far can retire the route, although stopping one may come too late. |
| FolderRoute.Route.DoScheduleDormancy | internal/app/folder_registry.go:478-486 | Afterwards a timer is armed exactly when the route is idle, and firing it would retire the backend. |
| FolderRoute.Route.DoRetire | internal/app/folder_registry.go:488-503 | A timer takes the backend out exactly when it is the armed one; then nobody holds it, nobody gets it any more, and whoever wants a backend waits. |
| FolderRoute.Route.DoMarkShutting | internal/app/folder_registry.go:618-623 | Whatever happens afterwards, the route gives out no backend and no latch, publishes none, and arms or obeys no timer. |
| RouteLifecycle.StepKeepsInv | internal/app/folder_registry.go:288-513 | Every lock-held section, request, timer, worker move, event and shutdown stage of a route keeps its invariant. |
| RouteLifecycle.NewestMoves | internal/app/folder_registry.go:288-513 | Whatever the live backend does by itself keeps the invariant. |
| FolderRegistry.EveryRunIsGood | internal/app/folder_registry.go:604-683 | So does every run over any number of routes. |
| FolderRegistry.OneLiveBackend | internal/app/folder_registry.go:288-391 | A route never has two unfinished backends, mutations of one route never overlap, and before a successor is created every earlier backend has drained its queue and ended its consumer. |
| FolderRegistry.HeldBackendStaysOpen | internal/app/folder_registry.go:393-513 | Retirement never closes a backend that a request holds; only shutdown does. |
| FolderRegistry.GenerationsNeverShared | internal/app/folder_registry.go:488-513 | Responses of different backends of one route never share a generation, and later ones have higher ones. |
| FolderRegistry.ShutdownClosesEverything | internal/app/folder_registry.go:604-683 | When shutdown returns every backend ever created is closed, no request is in flight and none can be acquired. |
| FolderRegistry.NothingAfterReturn | internal/app/folder_registry.go:604-683 | ... and whatever is attempted afterwards, it stays that way. |
| RouteTimers.StepKeepsTimers | internal/app/folder_registry.go:288-513 | Every step of a route keeps its timers in order: no id twice, the armed one newest and its route idle, and none current while somebody holds the latch. |
| RouteTimers.OnlyTheArmedTimerRetires | internal/app/folder_registry.go:470-503 | In every run a timer that fires retires the backend exactly when it is the armed one, and then no request holds it and nobody subscribes. |
| RouteTimers.OutdatedTimerNeverRetires | internal/app/folder_registry.go:470-503 | In every run, once a route was activated, acquired or subscribed to, no timer armed before retires it, however late it fires. |
| RouteTimers.RefreshIsNotForgotten | internal/app/folder_registry.go:200-330 | In every run, after a folder was opened again or a refresh failed, nobody is told that the backend is current until somebody has taken the latch for it. |
| RouteTimers.SubscribersAreCounted | internal/app/folder_registry.go:455-468 | In every run the subscribers counted are those that joined less those that left, lifted by what had to be cut off below zero. |
| RouteTimers.SubscribersKeepTheRoute | internal/app/folder_registry.go:455-503 | In every run no timer retires a route that more subscribers have joined than left. |
| FolderSession.Session.DoStartWatcher | internal/app/folder_session.go:146-163 | Of all setups only the new one can still install a watcher, and every other that has not done so is canceled; a closed session starts none. |
| FolderSession.Session.DoInstall | internal/app/folder_session.go:198-221 | A watcher becomes current exactly when the newest setup of an open session made it; that setup then closes the one it replaced, any other its own. |
| FolderSession.Session.DoStop | internal/app/folder_session.go:382-392 | Nothing is started or installed any more, and the watcher that was current is the one stop closes. |
| FolderSession.StepKeepsInv | internal/app/folder_session.go:146-408 | Every step of setups, forwarders and stop keeps each watcher open exactly while one and only one party is there to close it. |
| FolderSession.StopLeavesNothing | internal/app/folder_session.go:379-408 | Nothing is sent on the closed event channel; once stop is through every watcher ever created is closed and every goroutine has ended. |
| FolderSession.EveryOpenWatcherHasACloser | internal/app/folder_session.go:198-231 | In every run a watcher is open exactly while the session, its setup, its successor or stop is there to close it, and never two of them, so none is closed twice. |
| FolderSession.OnlyTheNewestInstalls | internal/app/folder_session.go:198-221 | In every run the current watcher is replaced only by the newest setup, of a session that is not closed. |
| FolderSession.InstalledWatchersReconcile | internal/app/folder_session.go:229-239 | In every run, once a watcher was installed and its setup has ended, files and graph have been invalidated, unless the session ended first. |
| FolderSession.StopCanGoOn | internal/app/folder_session.go:396-405 | Until stop is through some step needs neither an event nor room in the channel, and leaves less to do. |
| FolderSession.StopIsBounded | internal/app/folder_session.go:379-408 | After stop has begun the session takes a bounded number of steps of its own, whatever watchers, receivers and callers do. |
| ObservedDirectories.RememberedIsNewest | internal/app/folder_session.go:268-289 | Moving or adding a directory, and evicting the oldest, keeps the newest directories by last use. |
| ObservedDirectories.Observed.Remember | internal/app/folder_session.go:268-289 | The list is the root and the directories observed last, at most 2048 in all. |
| ContentBatches.EffectiveLimit | internal/app/content_search.go:37-39 | A limit out of range means the greatest one. |
| ContentBatches.SequentialShowsTheFirst | internal/app/content_search.go:172-228 | Scanning file by file shows the first `limit` matches of all in the order of the files, and says that it was cut exactly when there are as many; a search that fails shows matches from the front. |
| ContentBatches.FailsAtFirstError | internal/app/content_search.go:176-206 | A search that does not stream fails exactly when a file cannot be scanned before the limit is reached, with the first such failure. |
| ContentBatches.ScanBatch | internal/app/content_search.go:172-187 | A worker scans its paths up to a failure or the limit. |
| ContentBatches.CollectBatch | internal/app/content_search.go:199-228 | The collector adds a reply to the answer, trimmed to the limit, and stops at a failure, a failed emission or the limit. |
| ContentBatches.BatchJoins | internal/app/content_search.go:172-228 | A reply adds what its paths, scanned one after another, would have added. |
| ContentPipeline.StepKeepsInv | internal/app/content_search.go:166-270 | Every step of the submitter and the workers keeps each batch in one place and the answer equal to the sequential one so far. |
| ContentPipeline.ScheduleDoesNotMatter | internal/app/content_search.go:150-274 | Under any schedule a finished search returns what scanning file by file returns: files, matches, order, failure and truncation. |
| ContentPipeline.SendNeverBlocks | internal/app/content_search.go:231-248 | At most eight batches are in flight, so a submission always finds room. |
| ContentPipeline.SomeoneCanGoOn | internal/app/content_search.go:166-269 | Until the search is finished some goroutine can go on. |
| ContentPipeline.EveryStepProgresses | internal/app/content_search.go:166-269 | Every step leaves less to do, so every schedule ends. |
| ContentExcerpt.Utf16Length | internal/app/content_search.go:313-322 | The length of a string in UTF-16 code units. |
| ContentExcerpt.ContentSearchExcerpt | internal/app/content_search.go:288-311 | The excerpt of a match in a whole line, in runes and UTF-16 units. |
| ContentExcerpt.MatchIsShown | internal/app/content_search.go:289-297 | The excerpt is at most 512 bytes of the line, starts at most 27 bytes before the match, and shows the first rune of it. |
| ContentExcerpt.ExcerptIsAStretch | internal/app/content_search.go:288-311 | The excerpt is one stretch of the line with an ellipsis wherever something is left out, and as long as 512 bytes allow; column and length are those of the match in UTF-16. |
| ContentExcerpt.RangeIsMatch | internal/app/content_search.go:305-310 | The UTF-16 range reported is the matched text, cut where the excerpt ends. |
| ContentExcerpt.LongContentSearchExcerpt | internal/app/content_search_lines.go:202-231 | From a window of at most 520 bytes of the file it is the same excerpt, on every valid UTF-8 line. |
| Utf8.DecodeEncode | internal/app/content_search.go:313-322 | Decoding a valid line visits exactly the runes it encodes. |
| ContentLines.ReadContentSearchLine | internal/app/content_search_lines.go:17-60 | However the buffer cuts a line, its size, its length without line end and its text are the same; the text is kept up to 64 KiB. |
| ContentLines.SearchGlobMatch | internal/app/content_search.go:360-381 | The dynamic program decides whether the path splits into stretches that the pattern segments take. |
| ReviewPages.InsertKeepsFirst | internal/gitx/review.go:108-118 | Inserting in place and dropping what is too much keeps the first keys of all. |
| ReviewPages.NextReviewChanges | internal/gitx/review.go:96-121 | The smallest `limit` changes beyond the cursor, and whether there are more. |
| ReviewPages.FillPage | internal/gitx/review.go:47-84 | Only the first change of a page may become a placeholder, exactly when it is too large; a page exceeds the byte budget only as a lone placeholder that is itself over it; it stops only before a change that would go over. |
| ReviewPages.Review | internal/gitx/review.go:26-91 | A page carries the next changes in key order and is empty only when none is left; only its first may be a placeholder, exactly when it is too large as a whole; a page with a cursor is full by files or by bytes. |
| ReviewPages.PagingShowsEveryChange | internal/gitx/review.go:37-90 | Following NextAfter shows every change exactly once, in key order, in at most one page more than there are changes. |
| Invalidations.Watcher.Emit | internal/watch/repository.go:295-324 | A full queue is replaced by the distinct kinds it held, files standing in for snapshot; a closed one takes nothing. |
| Invalidations.CompactCovers | internal/watch/repository.go:307-320 | Every kind is subsumed by one that is queued again. |
| Invalidations.StepKeepsInv | internal/watch/repository.go:295-324 | Every step of producer and receiver keeps what is owed to the receiver on its way. |
| Invalidations.NothingIsLost | internal/watch/repository.go:292-324 | Since an invalidation was emitted the receiver has heard one that subsumes it, or such a one is still on its way. |
| Invalidations.EachKindGetsThrough | internal/watch/repository.go:292-324 | Kind by kind: graph and files get through themselves, a snapshot invalidation also as files. |
| Invalidations.ProducerNeverBlocks | internal/watch/repository.go:292-324 | A producer that finds the buffer full never waits for the receiver. |
| EventsHub.Events.DoSubscribe | internal/server/sse.go:119-132 | A subscriber gets an empty channel of its own; every later event is owed to it, unless the source has closed, when the channel is closed too. |
| EventsHub.Events.DoUnsubscribe | internal/server/sse.go:133-142 | No later event is owed or handed to the subscriber, and closing the source leaves its channel alone. |
| EventsHub.Events.DoClose | internal/server/sse.go:59-68 | Every registered channel is closed when the source closes. |
| EventsHub.StepKeepsInv | internal/server/sse.go:58-143 | Every step of dispatch, subscribers and receivers keeps the invariant. |
| EventsHub.SubscribersMissNothing | internal/server/sse.go:69-109 | Whatever a subscriber has not heard yet is in its channel in a form that subsumes it. |
| EventsHub.OnlyOpenChannelsAreUsed | internal/server/sse.go:58-79 | No send on a closed channel, and no channel is closed twice. |
| EventsHub.DetachedStaysDetached | internal/server/sse.go:133-142 | In every run a channel whose subscriber has detached is never sent to or closed again. |
| EventsHub.DispatchNeverBlocks | internal/server/sse.go:81-109 | Slow receivers never hold up the source. |

## Left out

- Git subprocesses, HTTP handlers, security headers, tokens and PDF previews: foreign behaviour or plumbing.
- File, directory and network I/O: files are lists of records, a directory read is a list of entries in any order. Read errors are modelled in the folder walk and in file scans; a read error of the search index itself, which the content search reports without collecting the batches still pending, is not.
- Cancellation by the caller's context, except for queued mutations, cache requests, sessions, builders and watcher setups.
- `sort.Slice`, `sort.Ints` and `container/heap`: used by contract, with methods in their place that meet it.
- JSON: an encoded record is a line of some positive length. Size of a review supplement: a function of the change.
- The regular expression engine, whole-word checks and the loop that finds matches in a long line: a scan is a function of the path.
- `strings.ToLower`, `strings.EqualFold`, query splitting and recent-path normalization: functions the search engines share; the recency table is given.
- Windows path separators.
- `emptyResults` and `rankDefaultPaths`: the answers to an empty query differ by design between the engines.
- `pathMatchRuneIndices` for several terms: the sorted union of the single-term positions.
- Counters that would wrap after 2^32 files of one name or 2^64 generations, cache ids and clock ticks.
- CatalogBuilder.AppendDecodes: in arenas beyond 2^32 bytes a truncated offset may by chance point at an equal stretch, so there a path that is not addressable is not claimed to be lost.
- CatalogSearch.Search: depths are capped at 65535 in a record, so the agreement is stated for paths of at most that depth.
- Arena capacity: what arenas reserve beyond their length is not accounted, as in the source.
- FolderSession.StopIsBounded: bounds the session's own steps; that a step which can be taken is taken at last is left to the scheduler.
- Liveness of dormancy: the source does not re-arm the timer on every path, so an idle route need not retire.
- A bound on the size of the directory-index cache: entries without a file are never evicted, so there is none.
- Channels and goroutines of the mutation queue, the routes and the content search: channels, wait groups and goroutines are parts of a state, not objects; the sections of `folderRoute` that run under its lock are a class.
- Wall-clock time: a timer may fire at any step with the id it was armed with.
- Directories replaced by symbolic links while a walk pages through them: the tree is fixed.
- Paging of Git-tracked files, hunk splitting, drafts, the recent-folder list, watch budgets and the user interface.
