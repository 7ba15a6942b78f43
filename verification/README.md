# The caching stack of a remote file system, and two server state machines

This project models the client of a remote file system between its FUSE front end and the
server, and proves what that stack keeps. The client has four layers with state: cached files
made of pages with one valid interval each, a bounded entry cache with eviction, expiry and
merging, one read-ahead window and one write-coalescing buffer for all paths, and the calls that
decide which layer answers, when bytes are uploaded and what is invalidated. The specification
they are measured against is the server's own storage: a tree from paths to directories, links
and flat byte files, with positioned writes that fill with zeros as `lseek()` and `write()` of
POSIX.1-2017 do. Two server machines are modelled beside it: token revocation, and the exchanges
of two subtrees and of two paths' extended attributes in three steps.

## How it is built

- What the code updates in place is a class with those fields: `CachedFile.FilePage` and
  `CachedFile.File` (arrays of bytes), `Directories.Directory`, `RwBuffer.ReadBuffer` and
  `RwBuffer.WriteBuffer` (fixed arrays), `Cache.Cache`, `Storage.Storage`, `Database.DB`, and
  `FileSystem.FileSystem`, which owns the buffers, the cache and the connection to the server.
- Every method is proved against a function of the old state. For the file system these are the
  functions of `FsModel` on a value `FsState` (server tree, cache entries, read window, pending
  writes). `Runs` makes one run machine of them, with other clients changing the server in
  between; the lemmas about whole runs are about this machine, and every method promises that its
  call is a step of it (`Runs.Legal`, `Runs.LegalRunOk`).
- What no code decides - the clock, the victim among entries of equal rank, the order in which a
  hash map hands out its keys, the order of a directory listing - is an explicit `Choice` value.
  A method returns the choice it made as a ghost result and proves that its times rise with the
  clock and its orders visit every page, which is what the lemmas about runs ask; these quantify
  over all choices.
- `FileSystem.FileSystem` records every call it makes on the cache in a ghost field. Its
  invariant says that the entries are what the recorded calls leave and that every cached file
  keeps the page-map invariant, so that the bounds checks inside reads and merges never fail.

`PagedFile`, `PageMerge`, `CachedFile`, `StaleBytes` are about cached files; `Cache`, `LruCache`,
`Eviction`, `CacheRecord`, `Staleness`, `Directories` about the entry cache; `RwBuffer`,
`ShortWrites`, `Coalescing` about the buffers; `FsModel`, `CallLoops`, `FileSystem`, `Fuse`,
`DirectoryPaging` are the calls; `Answers` says what each call answers and does to the server,
`Remembered` what it need not ask the server for again; `Runs`, `ReadTransparency`,
`SequentialReads`, `WriteBack`, `AppendOnly`, `Listing`, `ExactListings`, `Interleaving`,
`Arrival`, `Freshness`, `FreshRuns`, `FreshAnswers`, `Counterexamples` are about runs; `Storage`,
`TreeExchange`, `Database`, `Revocation`, `XAttrExchange` are the server.

## What the code does not promise

Where a natural statement fails, its exact condition is proved.

- A page has one interval, so a write beside it makes the gap count as valid:
  `PagedFile.PageWriteTrueIff` for a page, `StaleBytes.MergedChunkSafeIff` for an uploaded chunk,
  `Counterexamples.GapReadsZero` for a run of two calls after which a read answers a zero, and
  `Counterexamples.ReadsMakeAGap` for one without any write. Reads that go on where the last one
  stopped leave no gap, at any offset: `Fuse.UnalignedReadsExact`. A read
  that brings part of a page has this effect on a file that is only appended to; with reads of
  whole pages it cannot happen there: `AppendOnly.AppendOnlySound`.
- A full page map refuses writes even to pages it holds, so overwritten bytes stay stale:
  `StaleBytes.FullMapIff`, and `Counterexamples.FullMapReadsOld` for a run of two calls. When a
  write or a merge gets through the limit: `PagedFile.WriteFitsIff`,
  `PageMerge.MergeCompleteIff`.
- An upload that creates a file leaves the cached listing of its directory as it was:
  `Listing.UploadCoherentIff`, and `Counterexamples.ListingLosesFile` for a run of four calls.
- Uploads run outside the lock, so deliveries of two tasks can swap: `Interleaving.OrderIsNotKept`
  is a run in which they do, `Arrival.DeliveredOrderIff` says when order matters.
- A listing stores its directory's cached attributes again as if they were new, so that they can
  outlive their time to live: `Counterexamples.OldAttributesAnswered` is a run of three calls that
  answers attributes long gone. `FreshAnswers.ListingKeepsTruthIff` says which listings do this:
  those whose directory entry expires between the lookup and the put, whose directory has other
  attributes by then, and after which the old ones are still cached. In every run without such a
  listing answered attributes are recent: `FreshAnswers.AttributesAreRecent`.
- The clock may give one time twice; then the victim among the oldest entries is anyone's, and the
  least recently used order is kept only up to ties: `LruCache.LruUpToTies`. In the run of
  `LruCache.TiesBreakExactness` the older of two keys stays, in the runs of
  `LruCache.TiesBreakInclusion` a smaller cache keeps a key that a larger one loses.
- The exchange of subtrees overwrites what has its temporary name: `TreeExchange.ExchangeIff`. It
  is not one step: `TreeExchange.ExchangeWithMissing`. The exchange of attributes breaks on rows at
  its marker path: `XAttrExchange.ExchangeIff`; then it has changed nothing:
  `XAttrExchange.FailureKeepsAll`.
- The cleanup of revoked tokens compares for equality, not for order, so it removes a row only in
  the one second the token expires: `Revocation.RowRemovedIff`. The code is followed here, not
  the name of the operation.

## Model

| member | source | states |
|---|---|---|
| CachedFile.FilePage.Write | client/src/fs_model/file.rs:32-42 | A page write in place lays the bytes over the old content and widens the valid interval to the hull of both; one behind the page is dropped. |
| CachedFile.FilePage.Read | client/src/fs_model/file.rs:44-54 | A page read gives what the interval has of the range, or nothing if the range starts before it or behind its end. |
| CachedFile.File.WriteContent | client/src/fs_model/file.rs:79-108 | The page loop in place equals the recursive content write, and the page-map invariant and the separation of the pages' arrays survive. |
| CachedFile.File.Read | client/src/fs_model/file.rs:110-145 | The loop returns exactly the longest run of valid bytes from the offset, cut to the size. |
| CachedFile.File.Merge | client/src/fs_model/file.rs:147-167 | Merging in the order of the hash map equals the value-level merge for that order; newer attributes win; the other file is untouched. |
| CachedFile.PageReadMeaning | client/src/fs_model/file.rs:44-54 | One page read says exactly which positions of the sparse byte map follow the offset inside the page. |
| PagedFile.ReadRunUnique | client/src/fs_model/file.rs:110-145 | The longest valid run is the only sequence of valid bytes that ends at the size or at a hole. |
| PagedFile.WriteContentMeaning | client/src/fs_model/file.rs:79-108 | Byte by byte: the accepted prefix is valid and new, gaps inside touched pages are zero and valid, every other byte and its validity are unchanged. |
| PagedFile.WriteContentKeepsOk | client/src/fs_model/file.rs:23-108 | Every stored page keeps a non-empty interval inside the page with zeros around it, and the page count stays within the limit. |
| PagedFile.WriteFitsIff | client/src/fs_model/file.rs:86-93 | The page limit lets a whole write through exactly if before its last page the old and new pages together are below the limit. |
| PagedFile.PageWriteTrueIff | client/src/fs_model/file.rs:32-42 | A true page stays true under true bytes, for every content, exactly if the write overlaps or touches the old interval. |
| PageMerge.MergeIsOverlay | client/src/fs_model/file.rs:147-167 | A merge in any order is the order-free overlay of the pages it reached, and it reached all of them unless the page map is full. |
| PageMerge.MergeAnyOrder | client/src/fs_model/file.rs:147-167 | With the union of both page sets strictly below the limit every order gives the same overlay, and merging the same file again in any order changes nothing. |
| PageMerge.MergeCompleteIff | client/src/fs_model/file.rs:151-165 | Every order writes every page exactly if the union has room below the limit, or reaches it without a common page, or there is nothing to merge. |
| PageMerge.MergeKeepsOk | client/src/fs_model/file.rs:147-167 | The page-map invariant survives every merge in every order. |
| StaleBytes.MergedChunkIff | client/src/cache.rs:253-271 | After an upload is merged with room to spare, the cached file is true exactly if the server holds zeros wherever the chunk and the cached bytes of a page lie apart. |
| StaleBytes.MergedChunkSafeIff | client/src/cache.rs:253-271 | Whatever the server holds that agrees with the cached file, the merged file is true, exactly if the chunk and the cached bytes lie apart in no page, which the client can see before the upload. |
| Counterexamples.GapReadsZero | client/src/fs_model.rs:259-360 | A read of the first byte of an existing file and a write behind the second in the same page, with a window of one byte, after which the next read of the second byte answers a zero that the server never held. |
| Counterexamples.ReadsMakeAGap | client/src/fs_model.rs:259-314 | Without any write: the first byte of a file and the third are read, each alone, and the next read of the second answers a zero that the server never held. |
| StaleBytes.FullMapIff | client/src/fs_model/file.rs:151-165 | With a full page map the cached file stays true after an overwrite exactly if the new bytes equal the cached ones. |
| Counterexamples.FullMapReadsOld | client/src/fs_model.rs:259-360 | A read and an overwrite of the first byte of a file, with room for one page, after which the next read answers the old byte and the server holds the new one. |
| Directories.Directory.Merge | client/src/fs_model/directory.rs:30-37 | Known attributes and children of the other directory replace the old ones, in place, as the cache's merge of directory items says. |
| Directories.Directory.Rename | client/src/fs_model/directory.rs:41-43 | Only the name changes. |
| Directories.Directory.InvalidateAttributes | client/src/fs_model/directory.rs:49-51 | Only the attributes are forgotten. |
| Cache.ParentPaths | client/src/cache.rs:116-126 | Walking up lists exactly the strict ancestors of a path, nearest first. |
| Cache.Cache.InvalidateParents | client/src/cache.rs:145-152 | Exactly the strict ancestors leave the cache. |
| Cache.Cache.Lookup | client/src/cache.rs:155-170 | An expired entry is removed and missed; a hit is touched and returned. |
| Cache.Cache.SelectVictim | client/src/cache.rs:238-249 | The victim has the least rank under the policy; there is none only if the cache is empty. |
| Cache.Cache.Store | client/src/cache.rs:173-204 | A put merges into a valid entry, else inserts after evicting a least-ranked entry at capacity. |
| Cache.Cache.StoreNew | client/src/cache.rs:207-220 | The ancestors go, and the new entry replaces whatever was under the key, after an eviction at capacity. |
| Cache.Cache.Delete | client/src/cache.rs:223-230 | The entry and its ancestors go, all others stay, and the removed item is returned. |
| Cache.Cache.Invalidate | client/src/cache.rs:233-236 | Only the entry of the key goes. |
| Cache.CapacityBound | client/src/cache.rs:145-230 | Under both policies and every interleaving of the locked sections the entry count stays at most max(1, capacity). |
| Cache.NoAncestorCached | client/src/cache.rs:207-230 | After a put of a new path or a removal no strict ancestor of the path is cached. |
| Remembered.StoredIsFound | client/src/cache.rs:89-204 | A stored item is found exactly until the time to live of its entry is over; a merge lets what it says win, keeps what it does not say, forgets attributes if asked to, and makes the entry no younger. |
| Remembered.OnlySuchEntriesGo | client/src/cache.rs:145-236 | Under every call each entry of another key stays as it was, except the victim of an insertion into a full cache, the ancestors of a new path, and what is dropped by name. |
| LruCache.LruExact | client/src/cache.rs:155-249 | Without expiry, after any run of gets and puts, no two at the same time, the cached keys are exactly the `capacity` most recently touched ones. |
| LruCache.LruUpToTies | client/src/cache.rs:155-249 | Under a clock that may repeat a time: a key with fewer than `capacity` other keys touched later or at the same time is cached, and a cached key has fewer than `capacity` keys touched strictly later. |
| LruCache.TiesBreakExactness | client/src/cache.rs:238-249 | Three puts at one time after which an older key is cached and a newer one is not. |
| LruCache.Inclusion | client/src/cache.rs:155-249 | For requests served by a get and a put on a miss, at strictly rising times in each cache, a smaller cache's keys are always among a larger one's, whatever the times and victims are. |
| LruCache.TiesBreakInclusion | client/src/cache.rs:238-249 | Four requests at one time, with victims of least rank, after which a cache for two holds a key that a cache for three has lost. |
| Eviction.RunCounted | client/src/cache.rs:155-220 | After any run of calls, with expiry and under both policies, every entry carries the number of hits and merges since its key was inserted and the time of the last of them, as counted from the calls. |
| Eviction.PutEvictsLeastUsed | client/src/cache.rs:173-249 | After any such run an insertion into a full cache gives up exactly one key, with the fewest uses since its insertion under LFU, with the longest time since its last use under LRU; a merge, or an insertion with room, gives up none. |
| Staleness.BoundedStaleness | client/src/cache.rs:89-204 | Everything a returned item says was stored under its path at most the time to live ago: attributes, children, target, and every byte, up to zeros filling gaps between stored bytes of a page. |
| Staleness.MergedByte | client/src/fs_model/file.rs:147-167 | Every byte of a merged file comes from one of the two files or is a zero between their bytes in one page. |
| Staleness.WindowStaleness | client/src/rw_buffer.rs:46-58 | Bytes from the read window are what was filled in at most its own time to live ago, at the same file positions. |
| Freshness.ReadFileKnown | client/src/fs_model.rs:259-314 | One read of a client whose knowledge is recent: every byte it returns was on the server at most the two times to live and the duration of a call ago, or is a zero between two such positions of one page; its knowledge stays recent. |
| Freshness.SourcedIsRecent | client/src/cache.rs:89-104 | Bytes that come from stored items which were true when they were stored are as old as the item plus the age of the read window, at most. |
| FreshRuns.UploadAllKnown | client/src/fs_model.rs:349-357 | Uploads put into the cache only bytes that the server just took. |
| FreshRuns.RunKnown | client/src/fs_model.rs:109-618 | Every call of the client, and every change of the server by others, keeps what cache and window hold recent. |
| FreshRuns.ReadsAreRecent | client/src/fs_model.rs:259-314 | From a client that knows nothing, for every run of its calls with any evictions and expiries and any changes of the server by others, the bytes that a read returns are at most the two times to live and the duration of a call old, up to zeros in page gaps. |
| Runs.LegalRunOk | client/src/fs_model.rs:109-618 | A sequence of calls that each keep what the methods promise about times and iteration orders is a run in the sense of the results about runs. |
| Runs.QuietKeeps | client/src/fs_model.rs:109-314 | Reads, lookups and listings leave the server and the pending writes alone. |
| FreshAnswers.GetAttributesTrue | client/src/fs_model.rs:426-445 | Attributes answered from a cache that knows only what was so are at most a time to live old. |
| FreshAnswers.ReadFileTrue | client/src/fs_model.rs:259-314 | A read that gives nothing is right about the file's end as of at most a time to live ago. |
| FreshAnswers.ReaddirTrue | client/src/fs_model.rs:109-202 | A listing, hit or miss, gives the names that the directory had at most a time to live ago, and attributes as old, if its directory's entry does not expire in between; what the cache knows stays so. |
| FreshAnswers.ListingKeepsTruthIff | client/src/fs_model.rs:109-202 | One listing keeps the cache true of every history that fits what the client knew, exactly if it does not store attributes again, after their entry expired, that the directory no longer has and that are still cached when it ends. |
| FreshAnswers.RunTrue | client/src/fs_model.rs:109-618 | Every call, and every change of the server by others, keeps the cached listings, and if no listing lets attributes grow too old the cached attributes, true of some moment since their entry was made. |
| FreshAnswers.AttributesAreRecent | client/src/fs_model.rs:426-445 | For every run of calls with changes by others in which no listing lets attributes grow too old in the sense of `FreshAnswers.ListingKeepsTruthIff`: answered attributes are at most a time to live old. |
| FreshAnswers.ListingsAreRecent | client/src/fs_model.rs:109-202 | For every run without that condition: the names of a listing are exactly those the directory had at most a time to live ago; with it, and if a miss meets no entry of its directory that expires on the way, the attributes in the listing are as recent. |
| FreshAnswers.EmptyReadsAreRecent | client/src/fs_model.rs:267-272 | If no listing lets attributes grow too old, a read that is cut to nothing is right too: the file ended there at most a time to live ago. |
| Counterexamples.OldAttributesAnswered | client/src/fs_model.rs:174-180 | A run of three calls, one of them a listing that straddles the expiry of its directory's entry, after which attributes are answered that the server has not had for more than the time to live and the duration of a call. |
| RwBuffer.ReadBuffer.Fill | client/src/rw_buffer.rs:36-43 | The window becomes the first `capacity` bytes at the given path and offset, with the time of the fill. |
| RwBuffer.ReadBuffer.Read | client/src/rw_buffer.rs:46-58 | It answers only for its path, inside its range and before it expires, with its own bytes. |
| RwBuffer.WriteBuffer.Write | client/src/rw_buffer.rs:99-118 | An append keeps the old bytes and adds what fits; any other write starts anew; the count of taken bytes is returned. |
| RwBuffer.WriteBuffer.Appending | client/src/rw_buffer.rs:94-96 | Exactly if path and end of the buffered bytes match. |
| RwBuffer.WriteBuffer.IsFull | client/src/rw_buffer.rs:121-123 | Exactly if the buffered bytes reach the capacity. |
| RwBuffer.WriteBuffer.Clean | client/src/rw_buffer.rs:126-130 | The buffer holds nothing and knows no path. |
| RwBuffer.WriteBuffer.GetContent | client/src/rw_buffer.rs:133-135 | Path, offset and exactly the buffered bytes. |
| FileSystem.FileSystem.constructor | client/src/fs_model.rs:81-96 | A new client knows nothing and has an empty buffer; its invariant holds. |
| FileSystem.FileSystem.CacheGet | client/src/cache.rs:155-170 | What the running client takes from its cache keeps the page-map invariant and was stored at most the time to live ago, by the calls it recorded. |
| FileSystem.FileSystem.CachePut | client/src/cache.rs:173-204 | A put by the running client, with an iteration order over all pages of the item. |
| FileSystem.FileSystem.CacheWriteFile | client/src/cache.rs:253-271 | Bytes go into the cache as a file of their own that is merged; the root takes none. |
| FileSystem.FileSystem.GetAttributes | client/src/fs_model.rs:426-445 | Cached attributes answer, else the server's, which are put into the cache. |
| FileSystem.FileSystem.ReadFile | client/src/fs_model.rs:259-314 | Beyond the size nothing; else cached pages, then the window, then the server, with the cache and window that each leaves. |
| FileSystem.FileSystem.WriteSection | client/src/fs_model.rs:329-347 | The locked part: what leaves the buffer for upload, what stays, and how much was taken. |
| FileSystem.FileSystem.WriteFile | client/src/fs_model.rs:317-360 | The locked part, then its uploads in order until one fails. |
| FileSystem.FileSystem.FlushWriteBuffer | client/src/fs_model.rs:591-618 | The buffer is emptied first, then its bytes are uploaded. |
| FileSystem.FileSystem.CreateFile | client/src/fs_model.rs:213-233 | A server write, then a new cached file without its ancestors. |
| FileSystem.FileSystem.Mkdir | client/src/fs_model.rs:363-377 | A new directory on the server and in the cache, known to be empty. |
| FileSystem.FileSystem.CreateSymlink | client/src/fs_model.rs:543-562 | A new link on the server and in the cache, with its target. |
| FileSystem.FileSystem.Remove | client/src/fs_model.rs:415-423 | Removed on the server, then from the cache with its ancestors. |
| FileSystem.FileSystem.SetSize | client/src/fs_model.rs:448-466 | A new size on the server; the returned attributes are cached, the cached pages stay. |
| FileSystem.FileSystem.Readdir | client/src/fs_model.rs:109-202 | A cached directory with all children cached answers; else the server's listing, which is cached entry by entry. |
| Answers.LookupAnswers | client/src/fs_model.rs:426-445 | A lookup of what is there succeeds; one the cache cannot answer describes the server's node, or says that nothing is there. |
| Answers.ReadAnswers | client/src/fs_model.rs:259-314 | A read of a file that is there succeeds whatever is cached, from any offset; if nothing is known of the file it gives the server's bytes, as many as were asked for and the window holds. |
| Answers.ReadFillsWindow | client/src/fs_model.rs:295-313 | The window changes only when the server is asked, and then holds what it answered. |
| Answers.WriteAnswers | client/src/fs_model.rs:317-360 | A write succeeds exactly if what it has to upload can be written: pending bytes that it does not continue, and its own if they fill the buffer; it takes what there is room for. |
| Answers.WriteLeaves | client/src/fs_model.rs:329-360 | What a write leaves, also when it fails: the taken bytes in the buffer, behind those they continue, or none if they filled it; what was pending of another place has gone to the server or is lost; the window is as it was. |
| Answers.FlushAnswers | client/src/fs_model.rs:591-618 | A flush succeeds exactly if nothing is pending or its path can be written; then the server gives the bytes back, else it is as it was; nothing is pending afterwards. |
| Answers.CreateAnswers | client/src/fs_model.rs:213-233 | A file is created exactly at a path that can be written, that is a file's or a free one in a directory; the server gives the bytes back and nothing else has changed. |
| Answers.MkdirAnswers | client/src/fs_model.rs:363-377 | A directory is made exactly at a free path in a directory, and the error says which of the two it was not. |
| Answers.SymlinkAnswers | client/src/fs_model.rs:543-562 | The same for a link, with its target. |
| Answers.SetSizeAnswers | client/src/fs_model.rs:448-466 | A size is set exactly for a file, and the answer says it. |
| Answers.RemoveAnswers | client/src/fs_model.rs:415-423 | Files, links and empty directories are removed, and a lookup finds nothing then; a directory with entries is refused and nothing changes. |
| Answers.ReaddirAnswers | client/src/fs_model.rs:109-202 | A listing of a directory that is there succeeds whatever is cached and starts with the two dot entries, both directories; one the cache cannot answer goes on with the server's entries or says that nothing, or no directory, is there. |
| Remembered.LookupRemembered | client/src/fs_model.rs:426-445 | Attributes that were asked for are answered again in time, whatever the server has become. |
| Remembered.CreatedIsKnown | client/src/fs_model.rs:213-233 | What was created is known afterwards: its attributes, a link's target, a directory's emptiness. |
| Remembered.SetSizeRemembered | client/src/fs_model.rs:448-466 | A size that was set is answered in time, over what was cached and whatever the server has become. |
| Remembered.ReadRemembered | client/src/fs_model.rs:259-314 | Bytes read of a file of which nothing was cached, from the window or the server, are answered again in time, the first of them at least, whatever the server has become. |
| Remembered.FetchedAhead | client/src/rw_buffer.rs:36-58 | Without a cache, too, the bytes fetched beyond those asked for answer the next reads in time. |
| Remembered.ListingRemembered | client/src/fs_model.rs:109-202 | A directory of which nothing was cached and that was listed into a cache with room is listed again in time with the same names, kinds and attributes, whatever the server has become. |
| CallLoops.UploadAllSplit | client/src/fs_model.rs:349-357 | Uploading a list is uploading its first part and, unless that failed, the rest. |
| CallLoops.LookupSplit | client/src/fs_model.rs:121-137 | Looking up children is looking up the first ones and, if all were known, the rest. |
| Fuse.GatherStep | client/src/fuse/unix.rs:454-467 | One turn of the read loop keeps the gathered bytes a prefix of the wanted ones, and gets nothing only if all are there. |
| Fuse.Read | client/src/fuse/unix.rs:451-470 | The method equals the loop over single reads and never changes the server or the pending writes. It returns exactly what the server's own read of the range returns, if the client's knowledge is exact and offset and size are multiples of the page size, or, for any offset and size, if it knows nothing of the file but what such reads in front of it brought; for a file that is there it always succeeds. |
| Fuse.LoopExact | client/src/fuse/unix.rs:454-467 | The loop, with any choices, gives exactly the server's bytes and makes only reads from page to page or at the end. |
| Fuse.LoopIsRun | client/src/fuse/unix.rs:454-467 | The loop leaves what the run of its single reads leaves. |
| Fuse.FuseReadsExact | client/src/fuse/unix.rs:451-470 | From a client that knows nothing, after any reads, lookups and listings with any evictions and expiries, those of earlier loops among them, every aligned read gives exactly what the server's own read gives. |
| Fuse.LoopSucceeds | client/src/fuse/unix.rs:454-467 | A read of a file that is there succeeds, whatever is cached and from any offset. |
| SequentialReads.NextReadExact | client/src/fs_model.rs:259-314 | One read from any offset, of a file of which the client knows nothing or what the reads right in front of it brought: it answers the server's next bytes and leaves no gap behind. |
| Fuse.UnalignedReadsExact | client/src/fuse/unix.rs:451-470 | A read of any range, aligned or not, of a file of which the client knows nothing gives exactly what the server's own read gives, under any page limit, expiry and window. |
| Fuse.CopyFileRange | client/src/fuse/unix.rs:617-695 | On such knowledge the copy succeeds exactly if its target can be emptied, when it goes to its front, and what the write has to upload can be written; then the server overlaid with the pending writes is the target with as much of the source bytes as there was room for. From any file that is there it succeeds if the target can be written for every length. |
| DirectoryPaging.Page | client/src/fuse/unix.rs:804-820 | The entries from an offset on, each numbered one behind its place in the listing. |
| DirectoryPaging.ResumeAnywhere | client/src/fuse/unix.rs:804-820 | Resuming at the offset of any returned entry continues right behind it. |
| DirectoryPaging.TakenInOrder | client/src/fuse/unix.rs:804-820 | For any cuts of the batches the reader has the entries once each and in order. |
| DirectoryPaging.WholeListing | client/src/fuse/unix.rs:804-820 | A reader that takes enough in all has exactly the listing. |
| ReadTransparency.WriteContentExact | client/src/fs_model/file.rs:79-108 | Page-aligned server bytes written into exact pages leave exact server pages under any page limit. |
| ReadTransparency.MergeExact | client/src/fs_model/file.rs:147-167 | Merging exact pages in any order under any limit leaves exact pages. |
| ReadTransparency.ReadExact | client/src/fs_model/file.rs:110-145 | An aligned read of exact pages gives server bytes that end at a page boundary or at the end of the file. |
| ReadTransparency.GetAttributesExact | client/src/fs_model.rs:426-445 | Attributes answered from an exact cache are the server's. |
| ReadTransparency.ReadFileExact | client/src/fs_model.rs:259-314 | One aligned read answers server bytes up to a page boundary or the end, some unless the offset is at the end, and cache and window stay exact. |
| ReadTransparency.ReaddirKeepsExact | client/src/fs_model.rs:109-202 | A listing leaves everything the client knows exact. |
| ReadTransparency.ReadAtEnd | client/src/fs_model.rs:267-272 | A read at or behind the end gives nothing, aligned or not. |
| ReadTransparency.RunExact | client/src/fs_model.rs:109-314 | In every run of reads that are aligned or at the end, lookups and listings with any evictions and expiries every cached page stays an exact server page. |
| WriteBack.SectionConserves | client/src/fs_model.rs:329-347 | The uploads of one locked section and the buffer it leaves are together the old buffer and the accepted prefix, in this order. |
| WriteBack.WriteConserves | client/src/fs_model.rs:317-360 | One write whose uploads succeed adds exactly its accepted prefix to the server overlaid with the buffer. |
| WriteBack.FlushConserves | client/src/fs_model.rs:591-618 | After a flush that succeeds the server alone is what the server overlaid with the buffer was. |
| WriteBack.WriteBackRefines | client/src/fs_model.rs:317-618 | For every run of writes and flushes over any paths whose uploads succeed, with any reads, lookups and listings between, the server overlaid with the buffer is the initial one with every accepted prefix applied in call order. |
| WriteBack.FlushedServer | client/src/fs_model.rs:591-618 | After a final flush the server alone is the initial server with every accepted prefix. |
| ShortWrites.CallsFromFresh | client/src/fs_model.rs:329-347 | A caller that starts with bytes that do not append needs exactly ceil(n / capacity) calls. |
| ShortWrites.ShortWriteProgress | client/src/fs_model.rs:329-347 | Retrying the unaccepted rest of n bytes ends within ceil(n / capacity) + 1 calls. |
| WriteBack.SectionShape | client/src/fs_model.rs:329-347 | Between calls the buffer is below capacity; uploads are non-empty, at most `capacity` long and at most two; a non-empty write takes at least a byte. |
| Coalescing.WriteOn | client/src/fs_model.rs:317-360 | One write right behind what was accepted takes what there is room for, and uploads exactly when that fills the buffer. |
| Coalescing.FullBuffersOnly | client/src/fs_model.rs:317-360 | From an empty buffer, for any chunks written one behind the other to a path that can be written: every call succeeds, the server has exactly the full buffers among the accepted bytes, and the buffer the rest. |
| Interleaving.SectionSplits | client/src/fs_model.rs:329-347 | A locked section splits old and accepted bytes, as a multiset of positions, between its uploads and the buffer. |
| Interleaving.StepConserves | client/src/fs_model.rs:329-357 | Every locked section, flush and delivery of any task keeps each accepted byte in exactly one place. |
| Interleaving.BytesConserved | client/src/fs_model.rs:329-357 | For every interleaving of any number of tasks each accepted byte is in the buffer, in flight or delivered, once. |
| Interleaving.QuietMeansDelivered | client/src/fs_model.rs:591-611 | Once all tasks are idle and the buffer is empty the delivered bytes are exactly the accepted ones. |
| Interleaving.OrderIsNotKept | client/src/fs_model.rs:349-357 | A run in which two overlapping writes reach the server in the wrong order and the older byte stays. |
| Arrival.EitherOrderIff | client/src/fs_model.rs:349-357 | Two uploads may be delivered in either order exactly if they do not put different bytes at one position. |
| Arrival.EveryOrderIff | client/src/fs_model.rs:349-357 | Any number of uploads have the same result in every order exactly if no two of them put different bytes at one position. |
| Arrival.DeliveredOrderIff | client/src/fs_model.rs:349-357 | For every interleaving of any tasks, what was delivered could have come in every order with the same result exactly if no two deliveries put different bytes at one position. |
| Arrival.ByteArrives | client/src/fs_model.rs:349-357 | In any order of uploads a byte that none of them contradicts is on the server after them. |
| Arrival.WritesArrive | client/src/fs_model.rs:329-611 | For every interleaving, once all is quiet, every accepted byte that no other accepted byte contradicts is on the server at its position. |
| AppendOnly.ChunkSpan | client/src/cache.rs:260-262 | The pages of one uploaded chunk hold a prefix of the chunk at its place and nothing else. |
| AppendOnly.NextChunk | client/src/fs_model/file.rs:147-167 | Merging the next chunk behind a cached tail, in any order and under any limit, leaves only bytes of the longer file. |
| AppendOnly.ReadChunk | client/src/fs_model/file.rs:147-167 | Merging whole pages of the file that a read brought, in any order and under any limit, leaves only true bytes and the place for the next chunk. |
| AppendOnly.UploadKeepsTail | client/src/fs_model.rs:349-357 | One upload behind the end of the file, or of another file, keeps its cached bytes true. |
| AppendOnly.WriteKeepsInv | client/src/fs_model.rs:317-360 | One write at the logical end of the file, or to any other file, keeps its cached bytes true, even if an upload fails. |
| AppendOnly.ReadKeepsInv | client/src/fs_model.rs:259-314 | One read of another file, or one that brings whole pages of this file or pages up to its end, keeps its cached bytes true and its next bytes right behind them. |
| AppendOnly.AppendOnlySound | client/src/fs_model.rs:109-618 | A fresh file written only at its end, in any chunking, mixed with reads of whole pages of it, any calls on other paths, listings, lookups, flushes, changes of other paths by others, evictions and expiries: every valid cached byte is the server's. |
| Listing.AddCoherent | client/src/fs_model.rs:213-233 | A new path whose ancestors leave the cache keeps every cached listing exact. |
| Listing.RemoveCoherent | client/src/fs_model.rs:415-423 | A removal keeps every cached listing exact. |
| Listing.ReaddirExact | client/src/fs_model.rs:109-202 | From a coherent cache a listing, hit or miss, gives the two dot entries with the server's kinds, then the server's names once each with their kinds, and stays coherent. |
| Listing.ListingCoherence | client/src/fs_model.rs:109-423 | In every run of creations, removals, listings and lookups with any evictions and expiries every cached directory with known children lists exactly the server's names. |
| Listing.ListingsExactFromStart | client/src/fs_model.rs:109-423 | From a client that knows nothing, after every such run a listing, hit or miss, gives exactly the server's names, and the run can go on. |
| ExactListings.ReaddirRight | client/src/fs_model.rs:109-202 | From an exact cache a listing, hit or miss, has the server's names, kinds and attributes, the two dot entries included. |
| ExactListings.ListingsRightFromStart | client/src/fs_model.rs:109-314 | The same from a client that knows nothing, after any aligned or final reads, lookups and listings with any evictions and expiries. |
| Listing.UploadCoherentIff | client/src/fs_model.rs:349-357 | A whole upload, server write and cache write, keeps the cache coherent exactly if the file was there or no listing of its directory is cached afterwards. |
| Counterexamples.ListingLosesFile | client/src/fs_model.rs:591-618 | A buffered write, the removal of its file, a listing and a flush: the cached listing is exact before the flush and misses the file after it. |
| Storage.Storage.Write | server/src/storage.rs:254-282 | Opening, creating, seeking and writing: the file is the old one with the bytes at the offset, zeros up to there. |
| Storage.ReadFile | server/src/storage.rs:285-298 | A read succeeds exactly for a file, with as many bytes as there are of the range, each the file's byte at its position. |
| Answers.WriteReachesIff | server/src/storage.rs:254-282 | A write reaches the server exactly at a file or at a free path in a directory; the bytes can be read back and nothing else has changed; the error says what was there. |
| Storage.SetSize | server/src/storage.rs:368-376 | A size is set exactly for a file: old bytes up to the size, zeros behind them, nothing else in the tree changed. |
| Storage.Storage.Read | server/src/storage.rs:285-298 | What there is of the range, or the error for a missing path or a directory. |
| Storage.Storage.Resize | server/src/storage.rs:368-376 | The file is cut or filled with zeros to the size. |
| Storage.Storage.Mkdir | server/src/storage.rs:177-193 | A directory at a free path below a directory. |
| Storage.Storage.CreateSymlink | server/src/storage.rs:472-485 | A link at a free path below a directory. |
| Storage.Storage.Remove | server/src/storage.rs:232-251 | Files, links and empty directories go; a directory with entries is refused. |
| Storage.Storage.List | server/src/storage.rs:103-174 | Every name of the directory once, in an order nothing promises. |
| Storage.Storage.Exchange | server/src/storage.rs:221-229 | Three renames through the temporary name; the first that fails ends it, and the tree is the one the others left. |
| TreeExchange.ExchangeWithMissing | server/src/storage.rs:221-229 | Without the second path it fails and leaves the first subtree under the temporary name; without the first it fails and changes nothing. |
| TreeExchange.ThreeMoves | server/src/storage.rs:221-229 | Three moves of unrelated subtrees through an unused place are the swap of two of them. |
| TreeExchange.ExchangeIff | server/src/storage.rs:221-229 | The exchange swaps two unrelated whole subtrees and keeps every other path exactly if the temporary name is not in use. |
| TreeExchange.BlockedIff | server/src/storage.rs:221-229 | The first rename is refused exactly if the temporary name has a node of the other kind or a directory with entries; then the exchange fails and nothing has changed. |
| TreeExchange.ExchangeTwice | server/src/storage.rs:221-229 | Exchanging twice is the identity. |
| TreeExchange.SwapWellFormed | server/src/storage.rs:221-229 | After a swap every path still has a directory above it. |
| TreeExchange.TempNameIs | server/src/storage.rs:221-222 | The temporary name drops the extension behind a stem and appends the marker; a name with a leading dot only keeps it. |
| Database.DB.InsertRevokedToken | server/src/db.rs:122-136 | A new row, or a refusal if the token has one. |
| Database.DB.CleanRevokedToken | server/src/db.rs:139-153 | Exactly the rows that expire at this second go. |
| Database.DB.VerifyToken | server/src/db.rs:175-219 | Refused from its expiration second on, as section 4.1.4 of RFC 7519 asks, and once revoked. |
| Database.DB.Login | server/src/db.rs:223-252 | A token for one day, then the cleanup. |
| Database.DB.ExchangeXAttributes | server/src/db.rs:556-578 | Three updates, each refused if it breaks the key; the rows are those the updates before left. |
| XAttrExchange.FailureKeepsAll | server/src/db.rs:556-578 | The exchange fails only at its first update, and then every row is as it was. |
| XAttrExchange.ExchangeRefusedIff | server/src/db.rs:556-578 | The exchange is refused exactly if the first path and the path "__tmp_exchange__" have an attribute of one name. |
| Revocation.RevocationIsPermanent | server/src/db.rs:122-252 | After a logout no run of logins, logouts, cleanups and checks under a clock that does not run backwards lets the token verify again. |
| Revocation.RevokedOnce | server/src/db.rs:122-136 | A token has at most one row: the first insertion adds it, every further one is refused. |
| Revocation.TokenWorksForADay | server/src/db.rs:175-252 | The token of a login is accepted for 86400 seconds in every run without a logout of it, and refused from then on. |
| Revocation.LogoutWorksIff | server/src/db.rs:122-136 | A logout is accepted exactly while its token works, and then its row alone is new. |
| Revocation.TokenLife | server/src/db.rs:122-252 | From login to refusal: the token works until it is logged out, its first logout within the day is accepted, and no later run makes it work again. |
| Revocation.RowRemovedIff | server/src/db.rs:139-153 | A revoked row is ever removed exactly if some login happens in the second the row expires. |
| XAttrExchange.ExchangeIff | server/src/db.rs:556-578 | The updates succeed and swap the two paths' rows, keeping all others, also for equal paths, exactly if no row stands at the marker path. |
| XAttrExchange.ExchangeTwice | server/src/db.rs:556-578 | Exchanging twice restores the table. |
| Bytes.WriteAtJoin | server/src/storage.rs:254-282 | Two adjacent positioned writes are one write of the joined bytes. |

## Left out

- Cache.Cache.Store: entries hold files as values, where the original merges into the stored file in place; `CachedFile.File` is that file, and each of its methods is proved equal to the value the cache holds. Aliasing between cache and callers does not arise because a hit is a clone.
- Cache.Cache.Lookup: one clock reading for each locked section, where the original reads the clock up to three times in a section.
- RwBuffer.ReadBuffer.Read: the time to live of the window is a parameter, not 100 milliseconds.
- Staleness.BoundedStaleness: a byte may also be a zero that fills a gap of a page between two bytes that were stored recently; runs with a rename are not covered, because a renamed item gets a new creation time.
- FreshRuns.ReadsAreRecent: about the bytes a read returns; a read that returns none is the matter of `FreshAnswers.EmptyReadsAreRecent`.
- FreshRuns.RunKnown: about bytes; cached attributes and child lists are the matter of `FreshAnswers.RunTrue`.
- Freshness.ReadFileKnown: about the bytes returned; an answer that a stale size cuts to nothing is the matter of `FreshAnswers.ReadFileTrue`.
- FreshAnswers.AttributesAreRecent: for a whole run the condition is sufficient, and exact for each listing by itself in `FreshAnswers.ListingKeepsTruthIff`; renames are not among the calls of a run; changes of the server by others fall between two calls, not into one.
- LruCache.LruExact: asks for strictly rising times, although the clock may repeat one; `LruCache.LruUpToTies` is what holds then.
- LruCache.Inclusion: asks for strictly rising times; `LruCache.TiesBreakInclusion` is a run with ties in which it fails.
- AppendOnly.AppendOnlySound: reads of the file itself bring whole pages, because after part of a page the next append can leave a gap of zeros that counts as valid, as in `Counterexamples.GapReadsZero`; renames are not among the calls.
- Storage.Storage.Resize: a size change through a symbolic link is refused, and the server's permission test is not modelled.
- FileSystem.FileSystem.SetSize: of the settable attributes only the size, without the server's permission test.
- Database.DB.Login: the user lookup and the password test before it are not modelled.
- StaleBytes.MergedChunkIff: its condition names the server's bytes; what a client can see itself is the condition of `StaleBytes.MergedChunkSafeIff`.
- Arrival.EitherOrderIff: two uploads; any number is the matter of `Arrival.EveryOrderIff`.
- FileSystem.FileSystem.WriteFile: one call at a time; concurrent calls are modelled in `Interleaving`, where the cache is not part of the state.
- Arrival.WritesArrive: deliveries are applied as direct writes; uploads that the server refuses are not part of the run.
- FileSystem.FileSystem.UploadAll: bytes whose upload fails are gone from the buffer, as in the code, and nothing is proved about getting them back.
- Fuse.Read: file handles are resolved before the loop; reads of a file with unflushed writes are not promised to agree with the server, nor unaligned reads of a file of which other parts are cached, which `Counterexamples.ReadsMakeAGap` shows wrong.
- Fuse.CopyFileRange: copying from something that is no file, but of which bytes are cached, is not described; source bytes that are still pending are not seen.
- Storage.Storage.Write: a write through a symbolic link is refused here, where the operating system would follow the link.
- Storage.Storage.Read: the server is assumed to return the full range, although a single read call of the operating system may return less.
- Storage.Storage.Exchange: only the exchange is modelled of rename; plain and no-replace renames appear as its steps.
- Storage.Storage.Attributes: size and kind only; times, owners, modes and link counts are not modelled, and the size of a directory is zero.
- DirectoryPaging.Page: offsets are not negative.
- Database.DB.VerifyToken: a token is a record of user, unique name and expiration; signing, decoding and password checks are not modelled.
- The rename of the client, which leaves descendants of the old path cached, and setting attributes other than the size.
- Reading links through the cache, permissions, file system statistics, and the extended attribute calls other than the exchange.
- Overwriting an existing extended attribute and editing users: the statements bind or test the wrong way round, so nothing useful holds of them.
- HTTP, routes, authentication plumbing, configuration, mounting, the Windows front end, logging.
