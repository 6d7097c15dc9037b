# madbfs: verification of its cores

madbfs mounts the files of an Android device through FUSE. This project models its cores in Dafny and
proves what they are for:

- **The page cache** (`Tiling`, `PageModel`, `Recency`, `CacheModel`, `Transfer`, `CacheSteps`,
  `CacheOps`, `PageCache`). A write-back LRU cache of fixed-size pages in front of the device. Each id
  stands for a flat file, which is what the device holds once every page has been pushed: pages and
  device together stand for it at every moment (`PageModel.Stands`), and the page list must be the most
  recently used pages in order. A cached page may end before the file does, and then a reader does not
  see the rest (`PageModel.FileOk` says that he sees all). Reads, writes, flushes, evictions, shutdown
  and resizing are proved against the flat file and against what is seen of it.
- **Its concurrency** (`SingleFlight`, `Reaper`). Readers that share one fetch, and the descriptors
  that are opened on demand and closed by a reaper, as state machines over all interleavings.
- **The RPC codec** (`Wire`, `Rpc`, `Framing`, `RpcBuffers`). Sixteen requests and responses as fields
  in network order, messages with a patched length, streams of messages.
- **The RPC protocol** (`Protocol`). Client and server as one state machine over whole messages.
- **Paths** (`Paths`, `PathBuffers`). Two tokenizers, slices that must survive parent, extend and
  rename, and the resolver of `.` and `..`.
- **The tree** (`Tree`, `TreeRename`, `TreeWalk`, `NodePath`, `Handles`, `FileOps`, `TreeRun`, `FileTree`). Nodes
  with parent pointers and named children, rename and exchange, reconciliation of a directory with the
  device's listing, and the table of open files that points into the tree.
- **The server's copy loop** (`CopyLoop`).

`dafny verify dfyconfig.toml` checks everything. `Bytes` holds byte strings and file contents (`Splice`
is `pwrite`, `Window` is `pread`).

## What the code does not meet

Each of these is stated as the exact condition under which the code meets its promise, with an input
for which it does not:

- A read that starts past the end of a file, off a page boundary, reports bytes that do not exist: the
  remaining size of the page wraps around (`PageCache.Cache.Read`, `Transfer.ReadPastEnd`).
- A write that only partly overwrites an uncached page zeroes what the page held in front of it and hides
  what it held behind, because a missing page starts empty and is not fetched (`PageCache.Cache.Write`).
  The zeros reach the device. The hidden bytes are still part of the file: a push takes just the page's
  own bytes, so the device keeps them and they are seen again after the page is evicted
  (`Transfer.UnsafeWritePage`).
- A reader of a page can fail although the device refuses nothing and nobody clears the queue of fetches:
  it fails exactly when its fetch is refused or its key has left the queue by the time the fetch is back,
  or when the reader it waited for failed (`SingleFlight.RunDecides`). A page that is evicted while its
  waiters wake up is fetched by more than one of them, and all but the first fail
  (`SingleFlight.CancelledByAnother`).
- A descriptor is leaked exactly when an open returns to a direction that names one by then, or when the
  reaper removes an entry that still names one (`Reaper.LeakedExact`, `Reaper.LeakedInRun`). The first
  happens to the first read of a file if it spans two pages (`Reaper.LeakByOverwriting`); the second to
  a descriptor that is opened for an operation after its file's last close, which has no stale mark
  (`Reaper.OrphanExact`, `Reaper.LeakAfterClose`).
- A status is narrowed to eight bits when it is received: a failure with status 256 arrives as a success
  (`Framing.FailureExact`, `Framing.FailureLost`).
- An updated node is not always of the kind the device says (`FileOps.UpdateKind`). A directory that
  vanished and came back stays an Error node, because the old stat, which is kept with the error, still
  says directory (`FileTree.DirectoryComesBack`); a file replaced by something older stays what it was,
  because only a newer modification time counts (`FileOps.OlderDirectory`); and `mknod` makes every
  node a regular file (`FileOps.SpecialFile`).
- A plain rename over a directory frees the handles of the directory but not those of files below it
  (`TreeRun.ChangeLive`, `TreeRun.StrandedByRename`). As a device overwrites only empty directories, such
  a file has gone from the device before, while its node stayed.
- `readdir` destroys children that the listing no longer has without freeing the handles to what was in
  them (`FileTree.Filesystem.ReadDir`, `FileTree.OpenFileNotListed`).
- `Path::extend_copy` is documented to give nothing for names that cannot extend a path; for the empty
  name and for dots it gives the path unchanged (`PathBuffers.ExtendCopyExact`).
- `FileHandleStore::find` with a descriptor alone, and `release`, are documented to give nothing if there
  is no handle; within the capacity they give an entry without a node (`Handles.FileHandleStore.Find`,
  `Handles.FindReleased`). `Filesystem::flush` and `Filesystem::release` follow its null pointer
  (`FileTree.Filesystem.FlushFile`, `FileTree.Filesystem.ReleaseFile`), as happens when a file is
  unlinked while it is open (`FileTree.UnlinkWhileOpen`): `TreeRun.ChangeFrees` says which changes free
  an entry in use.

## How to read the model

- Cache operations take the state and return the new one; `PageCache.Cache` is the object around them.
  Parameters and results marked ghost, and the `View`, carry the flat files (`logical`), the files of
  which the operation has lost bytes because the device refused to take a page on eviction (`damaged`;
  empty when an operation of `PageCache.Cache` begins), the history of page accesses and invalidations,
  and the number of device calls that were refused (`faults`): opens, reads and writes. A device may be
  declared `reliable`, and then refuses none. A file that has lost bytes is another file from then on;
  what later operations do to it is stated like for any other.
- The page size is at least 1 and fits 32 bits, the number of pages is at least 1, and requests are not
  empty. The device returns everything up to the end of a file, zero-extends, and makes progress on every
  successful write.
- The page list holds keys, and the pages are in the table. Room for a page is made just before it is
  linked rather than just after: the new page is at the front, so the same pages go.
- Page contents are byte strings; the part of a page's buffer behind them is zero.
- `SingleFlight` and `Reaper` cut the coroutines at every point where they may suspend. In `Reaper`
  callers close what they have opened, the device hands out descriptors that are not open, and the entry
  a flush works on outlives the opening of its descriptor.
- `Protocol` moves whole messages. A failed transmission may or may not have delivered its message.
- Integers on the wire have the C++ types' ranges (`Rpc.RequestOk`, `Rpc.ResponseOk`); a reader's buffer
  is what its index has not passed yet.
- The copy loop takes the answers to its calls of `read` and `write` from a script, negative for a failure.
- A tree is a map from ids to nodes. The route of a node is the list of names from the root; that a
  route exists for every node is the absence of cycles. Class `FileTree.Filesystem` keeps it as a ghost
  field. What the device answers to a stat, which nodes have expired and which stats differ is a
  parameter (`FileOps.Device`), as is whether the device or the cache accepts an operation. What an
  operation does is also given as a run of the changes of `TreeRun`.
- `rename` is modelled from the point where both paths have been looked up; the device accepts no rename
  of something into itself or onto one of its ancestors.

## Model

| member | source | states |
|---|---|---|
| `PageCache.Cache.Read` | madbfs/src/cache.cpp:157-183 | whatever is hit, missed or evicted on the way, a successful read yields every byte that was seen before it; if that was the whole file, it yields exactly the file's bytes and their number when the offset is at most the file's size or on a page boundary, and reports more than there are otherwise; a read of an entry succeeds whenever the device refuses no call; its pages are accessed in order, and some of them if it fails |
| `PageCache.Cache.Write` | madbfs/src/cache.cpp:185-212 | wherever it is, a write puts its bytes into the file, after zeroing what the cache does not have of the first page in front of them, and all of them are seen afterwards; it is the flat file's plain write, and seen as a whole, if and only if it is safe; no other file changes or is hidden, unless a page of it was refused, and the pages are accessed in order |
| `PageCache.Cache.Flush` | madbfs/src/cache.cpp:214-252 | no file changes and nothing is hidden; it succeeds exactly when the device refuses none of its calls, and then every page of the file is clean and the device holds the file, also what a reader does not see of it |
| `PageCache.Cache.Shutdown` | madbfs/src/cache.cpp:355-369 | nothing stays cached, and every file is on the device as it was, seen or not, except for those whose flush failed: as many as calls were refused, and so none if none was |
| `PageCache.Cache.Resize` | madbfs/src/cache.cpp:467-479 | files keep their contents when the page size or the number of pages changes, except for those whose flush failed: as many as calls were refused |
| `PageCache.Cache.InvalidateOne` | madbfs/src/cache.cpp:329-347 | afterwards the file is what the device has, which is what it was if it was flushed; it succeeds exactly when the device refuses no call; no other file changes |
| `PageCache.LruOrder` | madbfs/src/cache.cpp:596-612 | in every reachable state of the cache, after any reads, writes, flushes, evictions and invalidations, the page list is in strictly descending order of last use |
| `PageCache.EvictedAreOldest` | madbfs/src/cache.cpp:507-543 | in every reachable state, a page that was accessed, not forgotten and yet not kept was last used before every page that is kept |
| `Tiling.Pieces` | madbfs/src/cache.cpp:157-167 | the pieces of a request, page by page, cover it without gap or overlap and stay inside their pages |
| `Tiling.PieceTiles` | madbfs/src/cache.cpp:614-631 | the offset, size and buffer position computed for one page follow on from those of the page before, and the last one ends the request |
| `PageModel.FetchStep` | madbfs/src/cache.cpp:572-600 | a fetched page, put in after other pages were evicted for it, changes no file and hides nothing |
| `PageModel.PushStep` | madbfs/src/cache.cpp:720-733 | pushing any prefix of a page to the device changes no file and hides nothing: the device may grow over other pages, with the zeros the file has there |
| `PageModel.EvictStep` | madbfs/src/cache.cpp:507-543 | dropping a page that was pushed as a whole changes no file and hides nothing |
| `PageModel.WriteStep` | madbfs/src/cache.cpp:36-55 | one page's write gives the file its bytes, wherever they go and however much of the page is cached, after zeroing what the page does not have in front of them |
| `PageModel.AllSaved` | madbfs/src/cache.cpp:214-252 | when every page is clean the device holds exactly the file, also behind pages that end early |
| `PageModel.WriteSeen` | madbfs/src/cache.cpp:639-703 | if a reader saw all of a file that reaches to the page, he does so after a write to it if and only if the page was cached or had nothing behind the bytes |
| `PageModel.SeenIsFile` | madbfs/src/cache.cpp:545-637 | the relation means what it should: what a reader finds at every place is the file's byte, and nothing past its end |
| `PageModel.SomeFile` | madbfs/src/cache.cpp:507-543 | pages and device always stand for some file, so also after a page that was to be pushed is gone |
| `PageModel.FileUnique` | madbfs/src/cache.cpp:545-637 | pages and device determine the flat file: there is only one they can stand for |
| `PageModel.GapMatters` | madbfs/src/cache.cpp:639-703 | zeroing what is in front of a write to an uncached page goes unnoticed exactly when it was zero |
| `Transfer.WriteBytes` | madbfs/src/cache.cpp:639-703 | zeroing what the cache does not have of the first page is noticed exactly when the page was neither cached nor zero there |
| `Transfer.WriteVerdict` | madbfs/src/cache.cpp:185-212 | after all page steps the plain spliced file is there to be seen if and only if the write was safe, judged before it began, as long as it does not start behind the page of the file's end |
| `Transfer.ReadPastEnd` | madbfs/src/cache.cpp:29-34 | a page read from past its end copies bytes that are not in the file |
| `Transfer.UnsafeWrite` | madbfs/src/cache.cpp:639-703 | a one-byte write into an uncached page with other contents is not safe |
| `Transfer.UnsafeWritePage` | madbfs/src/cache.cpp:639-703 | after such a write the page holds a zero in front of the byte and ends behind it, so a reader does not see the two bytes the file still has there; pushing the page leaves them on the device |
| `Recency.TouchAllIsPromoteAll` | madbfs/src/cache.cpp:596-612 | keeping the list cut to its limit at every access gives the same list as cutting the full recency order once |
| `Recency.RecentDescends` | madbfs/src/cache.cpp:610-612 | over every history of accesses and invalidations the list is in strictly descending order of last use |
| `Recency.EvictedOldest` | madbfs/src/cache.cpp:507-543 | over every history, what is not among the most recently used pages was last used before all of them |
| `Recency.ListedUse` | madbfs/src/cache.cpp:596-612 | making room for a page and moving it to the front gives the list of the history with that access |
| `Recency.ListedForget` | madbfs/src/cache.cpp:329-347 | leaving out a file's pages gives the list of the history in which the file was invalidated; evicted pages do not come back |
| `Recency.StillCached` | madbfs/src/cache.cpp:185-212 | which of a request's pages is still cached when its own step runs, from the list before the request |
| `CacheModel.EvictKeeps` | madbfs/src/cache.cpp:507-543 | one eviction keeps the invariant; every file stays the same and shows all it did, except for the one whose page was not pushed as a whole |
| `CacheModel.PutKeeps` | madbfs/src/cache.cpp:596-612 | storing a page at the front keeps the invariant, with the file its pages then stand for; no other file changes |
| `CacheModel.SavedFile` | madbfs/src/cache.cpp:214-252 | a file all of whose pages are clean is on the device |
| `CacheSteps.FlushAt` | madbfs/src/cache.cpp:705-733 | for every pattern of partial device writes, what was pushed amounts to one write of a prefix of the page, and to the whole page on success, which a reliable device grants |
| `CacheSteps.Evict` | madbfs/src/cache.cpp:507-543 | keeps the invariant, drops exactly the given number of pages from the back; files change only when a push is refused, and nothing else is hidden |
| `CacheSteps.Find` | madbfs/src/cache.cpp:545-607 | the page found or fetched can be put in without changing any file or hiding anything, whatever was evicted for it; a cached page is always found, and any other unless a call was refused |
| `Recency.AccessOrder` | madbfs/src/cache.cpp:596-612 | making room and moving to the front is moving to the front of the recency order and cutting it |
| `CacheOps.ReadPieces` | madbfs/src/cache.cpp:157-183 | the page steps of a read put whatever was seen into the buffer, one after the other, and the file's bytes if all of it was seen; the history gets the accesses that were made, which are all of them on success, and it succeeds unless a call was refused |
| `CacheOps.WriteAt` | madbfs/src/cache.cpp:639-703 | one page's write step: the page has the bytes and is dirty; the file is the one with them, other pages show what they did, and whether all is seen depends on the page having been cached |
| `CacheOps.Write` | madbfs/src/cache.cpp:185-212 | the whole write, for every offset: the file it leaves, that all of the input is seen, the history, and both directions of the safety condition |
| `CacheOps.Flush` | madbfs/src/cache.cpp:214-252 | a flush keeps the page list as it is, succeeds exactly when no call is refused, and clears the entry's dirty flag exactly then |
| `CacheOps.Shutdown` | madbfs/src/cache.cpp:355-369 | every entry is flushed in any order, one that fails does not stop the others, and there are as many of those as calls were refused |
| `SingleFlight.RunKeeps` | madbfs/src/cache.cpp:555-606 | over every interleaving of readers and queue clearings: no key is listed twice, a queued key is not cached, every waiter waits for a fetch that runs or is resolved |
| `SingleFlight.InitInv` | madbfs/src/cache.cpp:555-606 | the invariant holds of an empty cache and any number of readers that have not begun |
| `SingleFlight.RunBounded` | madbfs/src/cache.cpp:555-606 | readers take at most as many steps as there was work |
| `SingleFlight.NoLostWakeup` | madbfs/src/cache.cpp:555-606 | as long as a reader is not done, some reader can take a step |
| `SingleFlight.RunDecides` | madbfs/src/cache.cpp:557-607 | over every run, a reader has failed if and only if its own fetch did or came back after its key had left the queue, or the reader it waited for had failed; and it has the page if and only if it found it cached or fetched it |
| `SingleFlight.JoinsFetch` | madbfs/src/cache.cpp:561-567 | a reader that begins while its page is being fetched waits for that fetch and starts none |
| `SingleFlight.CancelledByAnother` | madbfs/src/cache.cpp:579-602 | a run in which no fetch fails and the queue is never cleared, and yet a reader fails: a page evicted while its waiters wake up is fetched by both |
| `Reaper.ScanMarksLoop` | madbfs/src/cache.cpp:382-417 | the reaper's two loops, over the marks and backwards over the positions found, do what the scan says: take idle descriptors and keep the marks not dealt with |
| `Reaper.ScanExact` | madbfs/src/cache.cpp:371-419 | a scan takes the descriptor of every marked direction that has nothing in flight, and of no other; these are named by nothing afterwards, and marks stay exactly where there was nothing to take or a second one |
| `Reaper.OpenExact` | madbfs/src/cache.cpp:88-117 | what a hint of an open changes: the users, and the marks of directions it is the first user of |
| `Reaper.TaskExact` | madbfs/src/cache.cpp:571-579 | an operation uses the descriptor its direction has when it begins, else the one its own open returns, which the direction then has |
| `Reaper.RemoveExact` | madbfs/src/cache.cpp:430-439 | the removal drops exactly the entries nobody has open, nothing works on and nothing is cached for |
| `Reaper.StepKeeps` | madbfs/src/cache.cpp:88-155 | every hint, every part of an operation and every part of the reaper keeps the invariant of counts, marks, in-flight numbers and descriptors |
| `Reaper.ReaperSafe` | madbfs/src/cache.cpp:371-441 | over every run: counts are the outstanding opens, a stale mark means no user, nothing about to be closed is named or used, the scan takes only idle descriptors without users, and an open file's entry is not dropped |
| `Reaper.CloseKeeps` | madbfs/src/cache.cpp:119-153 | a close keeps the invariant of counts, marks, in-flight numbers and descriptors |
| `Reaper.CloseExact` | madbfs/src/cache.cpp:119-153 | a close drops one user of each direction it is for, changes no descriptor and no in-flight number, and adds exactly the marks of the file's named directions that are left without a user |
| `Reaper.OrphanExact` | madbfs/src/cache.cpp:135-152 | exactly when a step leaves a named descriptor without users and without a mark: when an open returns after the last close, or when there was one before and the step is neither a hint on the file nor the removal of its entry |
| `Reaper.LeakAfterClose` | madbfs/src/cache.cpp:371-441 | a run after which nothing is open, nothing runs and no entry is left, and yet a descriptor is open on the device |
| `Reaper.LeakedExact` | madbfs/src/cache.cpp:371-441 | exactly when a step leaves a descriptor open, named by no entry and not about to be closed: when it was so before, when an open returns to a direction that names it, or when the removal takes an entry that names it |
| `Reaper.LeakedInRun` | madbfs/src/cache.cpp:371-441 | in every run a descriptor is leaked if and only if some earlier step was one of those two |
| `Reaper.LeakByOverwriting` | madbfs/src/cache.cpp:571-579 | a run from the empty cache, the first read of a file over two pages, that leaves the first descriptor opened for it leaked |
| `Wire.NetRoundTrip` | madbfs-common/src/rpc.cpp:65-92 | reading an integer in network order undoes writing it, up to its width |
| `Wire.NetDigit` | madbfs-common/src/rpc.cpp:65-73 | network order puts the byte of weight 256^(w-1-i) at position i |
| `Wire.FieldRoundTrip` | madbfs-common/src/rpc.cpp:107-251 | reading an integer, byte string or path gives back what was written, and leaves what follows untouched |
| `Wire.RoundTrip` | madbfs-common/src/rpc.cpp:107-251 | reading a list of fields undoes writing it |
| `Rpc.RequestRoundTrip` | madbfs-common/src/rpc.cpp:334-441 | for each of the sixteen requests, parsing the payload for its procedure gives the request back |
| `Rpc.ResponseRoundTrip` | madbfs-common/src/rpc.cpp:454-518 | for each of the sixteen responses, listings of any length included, parsing the payload for its request gives the response, cut to the buffer of a read |
| `Rpc.ResponseExact` | madbfs-common/src/rpc.cpp:666-803 | the response arrives as it was sent if and only if it is not a read longer than the buffer asked for |
| `Rpc.EntriesRoundTrip` | madbfs-common/src/rpc.cpp:696-749 | the entries of a listing are read back in order, however many |
| `Framing.StatusExact` | madbfs-common/src/rpc.cpp:214-217 | a status survives the header if and only if it is one of 0 to 255 |
| `Framing.RequestHeadRoundTrip` | madbfs-common/src/rpc.cpp:879-898 | a request header is read back, for every id, procedure and size |
| `Framing.ReceiveRequestRoundTrip` | madbfs-common/src/rpc.cpp:922-931 | a request is read back with its id, and nothing of what follows it is touched |
| `Framing.RequestStream` | madbfs-common/src/rpc.cpp:879-931 | requests sent back to back are received as the same list with nothing left over |
| `Framing.ReceiveReplyMeaning` | madbfs-common/src/rpc.cpp:933-948 | a reply to a registered request of its procedure reaches its caller, and nothing of what follows it is touched |
| `Framing.FailureExact` | madbfs-common/src/rpc.cpp:933-948 | a failed response reaches its caller as sent if and only if its status is one of 1 to 255 |
| `Framing.FailureLost` | madbfs-common/src/rpc.cpp:214-217 | a failed mkdir with status 256 is taken for a success |
| `Framing.ReplyStream` | madbfs-common/src/rpc.cpp:900-948 | responses sent back to back, failed ones included, reach their callers one by one with nothing left over |
| `RpcBuffers.Builder.Build` | madbfs-common/src/rpc.cpp:279-287 | patching the size replaces the last eight bytes of the header and nothing else |
| `RpcBuffers.Builder.WritePath` | madbfs-common/src/rpc.cpp:147-155 | a path is written with its length, its terminator included |
| `RpcBuffers.PatchedRequest` | madbfs-common/src/rpc.cpp:272-287 | a request header written with size 0 and patched later is the header with the payload's length |
| `RpcBuffers.PatchedResponse` | madbfs-common/src/rpc.cpp:304-320 | the same for a response header |
| `RpcBuffers.BuildRequest` | madbfs-common/src/rpc.cpp:334-441 | appending to the buffer and patching gives the specified message |
| `RpcBuffers.BuildReply` | madbfs-common/src/rpc.cpp:454-518 | the same for responses, failed ones and listings included |
| `RpcBuffers.Reader.ReadInt` | madbfs-common/src/rpc.cpp:174-186 | an integer read advances the index over its bytes, or fails and leaves it |
| `RpcBuffers.Reader.ReadPath` | madbfs-common/src/rpc.cpp:241-251 | a path read follows the specification on every buffer, size 0 included |
| `RpcBuffers.ParseListdir` | madbfs-common/src/rpc.cpp:696-749 | names gathered in one buffer and cut out of it again by slices give the specified listing, and a truncated payload gives none |
| `Protocol.TokensKeep` | madbfs/src/transport/proxy_transport.cpp:168-345 | every step keeps each issued id in exactly one of the map, the receiver's hand and the set promises |
| `Protocol.LineKeeps` | madbfs-server/src/server.cpp:24-82 | every step keeps the requests between the client's channel and the worker's log in the order of their ids |
| `Protocol.RpcSafe` | madbfs/src/transport/proxy_transport.cpp:168-345 | over every interleaving: each id is in exactly one place, no promise is set twice, a success is the handler's answer to the request sent under its id, requests other than pings are executed in id order, and none twice |
| `Protocol.RunOutcomes` | madbfs/src/transport/proxy_transport.cpp:283-345 | in every run a promise has a response if and only if the receiver had it in hand and its payload came; it has failed if and only if it timed out, was not sent, its payload was bad, or the connection ended while it waited |
| `Protocol.NothingLost` | madbfs/src/transport/proxy_transport.cpp:295-345 | in every run, every request that is waited for is on its way, as a request or as a reply |
| `Protocol.CanSucceed` | madbfs/src/transport/proxy_transport.cpp:295-345 | in every run, as long as the connection is up, every request that is waited for can still get its response |
| `Protocol.ReplyArrives` | madbfs/src/transport/proxy_transport.cpp:320-345 | whatever lies before it on the wire, the first reply to a waiting request is delivered when its turn comes |
| `Protocol.RequestSucceeds` | madbfs/src/transport/proxy_transport.cpp:242-263 | a complete run from a request to its response |
| `Protocol.StopLeavesNothing` | madbfs/src/transport/proxy_transport.cpp:168-232 | after a stop, or the end of the receiver, nothing is pending ever again |
| `Protocol.ReceivesNew` | madbfs-server/src/server.cpp:33-46 | the server never receives an id it already knows |
| `Paths.RunsAreTokens` | madbfs-common/include/madbfs-common/util/split.hpp:91-117 | cutting a string into slices and splitting it give the same names |
| `Paths.RunsCover` | madbfs/src/path.cpp:21-62 | slices leave out nothing but slashes |
| `Paths.ValidShape` | madbfs/src/path.cpp:21-62 | a path's slices are in bounds, in order and slash-free, and their names are those of its string |
| `Paths.TrimmedClean` | madbfs/src/path.cpp:29-42 | stripping slashes leaves one in front and none at the end, and keeps the names |
| `Paths.SplitComponents` | madbfs/src/path.cpp:21-62 | the component loop gives the slices of the cleaned string, and says where it lies in the original |
| `Paths.CreateValid` | madbfs/src/path.cpp:191-206 | parsing succeeds exactly on absolute strings, and gives a valid path with the string's names |
| `Paths.Reparse` | madbfs/src/path.cpp:175-206 | parsing a path's string gives the same path |
| `Paths.ParentValid` | madbfs/src/path.cpp:108-123 | the parent of a valid path is a valid path |
| `Paths.ParentNames` | madbfs/src/path.cpp:68-83 | the parent has all names but the last |
| `Paths.ExtendValid` | madbfs/src/path.cpp:140-155 | extending keeps the path valid, and the parent of the result is the path, string and slices |
| `Paths.ExtendNames` | madbfs/src/path.cpp:140-155 | extending adds the name at the end |
| `Paths.RenameParent` | madbfs/src/path.cpp:125-138 | renaming leaves the parent as it was |
| `Paths.RenameNames` | madbfs/src/path.cpp:125-138 | renaming replaces the last name only |
| `PathBuffers.PathBuf.Create` | madbfs/src/path.cpp:191-206 | the buffer becomes the parsed path, or stays as it was |
| `PathBuffers.PathBuf.Extend` | madbfs/src/path.cpp:140-155 | succeeds exactly for names that are not empty, a dot, two dots or with a slash; then the parent is the old path |
| `PathBuffers.PathBuf.Rename` | madbfs/src/path.cpp:125-138 | succeeds exactly for such names on a path that is not the root; then only the last name differs |
| `PathBuffers.ExtendCopyExact` | madbfs/src/path.cpp:85-95 | gives the extended path for the names extend accepts and nothing otherwise if and only if the name is not empty, a dot or two dots; for those it gives the path itself |
| `PathBuffers.StringSplitter.Next` | madbfs-common/include/madbfs-common/util/split.hpp:91-117 | hands out the next name of the string, or none at its end |
| `PathBuffers.Split` | madbfs-common/include/madbfs-common/util/split.hpp:180-185 | splitting gives the names of the parsed path |
| `PathBuffers.ResolveBuf` | madbfs/src/path.cpp:222-254 | the loops of resolve compute the stack fold over the names, written out and parsed |
| `PathBuffers.ResolveNames` | madbfs/src/path.cpp:222-254 | the result is a valid path whose names are the stack fold over parent and path |
| `PathBuffers.ResolveSegment` | madbfs/src/path.cpp:222-254 | a further name leads nowhere, to the parent or one down from what the path before it resolves to, as it is a dot, two dots or another name |
| `PathBuffers.ResolveStart` | madbfs/src/path.cpp:222-254 | resolution starts from the root or from the names of the path it is relative to |
| `PathBuffers.ResolveAbsolute` | madbfs/src/path.cpp:222-254 | an absolute path comes out without dots, and resolving the result changes nothing |
| `PathBuffers.ResolveFixed` | madbfs/src/path.cpp:222-254 | a path is left fixed by resolve if and only if it has no dots and no doubled slashes |
| `PathBuffers.ResolveTwice` | madbfs/src/path.cpp:222-254 | resolving one string and then a relative one is resolving their concatenation |
| `Tree.LookupIsRoute` | madbfs/src/filesystem.cpp:101-118 | a lookup finds a node if and only if the path is the node's route: traversing and reading off the path are inverses |
| `Tree.RouteUnique` | madbfs/src/node.cpp:44-58 | no two nodes have the same route |
| `Tree.NewRouted` | madbfs/src/node.cpp:157-166 | building a node keeps unique names, links in both directions and the parent chains |
| `Tree.DropRouted` | madbfs/src/node.cpp:36-42 | destroying whole subtrees keeps them |
| `Tree.MoveRouted` | madbfs/src/filesystem.cpp:541-613 | moving a subtree to a free name keeps them, also within one directory |
| `Tree.SwapRouted` | madbfs/src/filesystem.cpp:541-613 | exchanging two subtrees keeps them, also within one directory |
| `TreeRename.RenameConserves` | madbfs/src/filesystem.cpp:541-613 | a plain rename gives the old tree with one subtree moved: every path is looked up as before, below the new name as below the old one, and only the overwritten subtree's ids are lost |
| `TreeRename.RenameKeepsNode` | madbfs/src/filesystem.cpp:593-597 | no node is changed by a rename but for the moved one's name and parent and for the children of directories |
| `TreeRename.ExchangeConserves` | madbfs/src/filesystem.cpp:593-605 | an exchange gives the old tree with exactly the two subtrees swapped, and no id is lost |
| `TreeWalk.Walk` | madbfs/src/filesystem.cpp:243-259 | the walk comes to exactly the nodes at or below where it starts |
| `TreeWalk.MutateRouted` | madbfs/src/filesystem.cpp:220-241 | replacing a node's file destroys its descendants and keeps the tree well-formed |
| `NodePath.BuildPath` | madbfs/src/node.cpp:102-119 | the path written backwards up to the root has the names of the node's route, so traversing it finds the node |
| `FileTree.Filesystem.Traverse` | madbfs/src/filesystem.cpp:101-118 | finds what the path names, or nothing |
| `FileTree.Filesystem.TraverseOrBuild` | madbfs/src/filesystem.cpp:120-161 | succeeds exactly when each part of the path leads, in the tree as it was, to a node that is kept as it is, or else, inside of a directory, to something the device has; the node found or built has the path's names; tree and open files stay sound |
| `FileTree.Filesystem.Update` | madbfs/src/filesystem.cpp:163-218 | what a node becomes, for every answer of the device: an Error leaf of the old type, the same node, a directory with the same children that is to be read again, or a new leaf of the new type; only what a replaced node held goes; and what it does to routes and handles |
| `TreeRun.UpdateKnown` | madbfs/src/filesystem.cpp:163-257 | the same of the change that runs are made of |
| `FileTree.Filesystem.Reread` | madbfs/src/filesystem.cpp:194-199 | a directory that has changed on the device is reported exactly as it is listed, the next time it is read |
| `FileOps.UpdateKind` | madbfs/src/filesystem.cpp:163-218 | after any number of updates answered alike, a node is of the kind the device says if and only if it was already or one of the updates replaced its file; an update replaces it unless the modification time has not moved and it is no Error node, or both its stat and the device say directory |
| `FileOps.VanishedDirectory` | madbfs/src/filesystem.cpp:170-197 | a directory that vanished and came back is an Error node, however often it is updated |
| `FileOps.OlderDirectory` | madbfs/src/filesystem.cpp:180-184 | a regular file in whose place there is an older directory stays a regular file |
| `FileOps.SpecialFile` | madbfs/src/filesystem.cpp:430-433 | a node made by mknod is of the kind its stat says if and only if that is a regular file |
| `FileTree.DirectoryComesBack` | madbfs/src/filesystem.cpp:163-218 | a directory is made, updated when it is gone and updated when it is back: it is an Error node |
| `FileTree.Filesystem.Mutate` | madbfs/src/filesystem.cpp:220-241 | the node becomes a leaf, its descendants are destroyed and the handles to them freed |
| `FileTree.Filesystem.Create` | madbfs/src/filesystem.cpp:405-469 | succeeds exactly when the device does and nothing but an Error node has the name; a failure leaves the tree as it was |
| `FileTree.Filesystem.Unlink` | madbfs/src/filesystem.cpp:471-509 | success destroys exactly the node and frees its handles; a refusal by the device puts the node back, so that the tree is as it was |
| `FileTree.Filesystem.Rmdir` | madbfs/src/filesystem.cpp:511-539 | succeeds exactly on a directory with nothing but Error nodes in it, which then goes as a whole |
| `FileTree.Filesystem.Rename` | madbfs/src/filesystem.cpp:541-613 | the steps of rename give the renamed or exchanged tree; open files stay live, for a plain rename exactly when no handle is left below what it overwrites |
| `FileTree.Filesystem.OpenFile` | madbfs/src/filesystem.cpp:658-680 | exactly regular files that the cache's hint accepts can be opened, and the entry handed out was free |
| `FileTree.Filesystem.ReleaseFile` | madbfs/src/filesystem.cpp:765-793 | frees the entry and touches no other; follows a pointer to nothing exactly when the entry is within the capacity and has no node that is still there, with live handles exactly when it is free |
| `FileTree.Filesystem.FlushFile` | madbfs/src/filesystem.cpp:736-763 | with live handles a flush follows a pointer to nothing exactly for a free entry within the capacity |
| `FileTree.Filesystem.ReadDir` | madbfs/src/filesystem.cpp:261-372 | an unsynced directory ends with exactly the listed names, the same node for every name present before and after, and reports those names; a new name, an Error child and an expired child with another stat get the listed kind, any other child is unchanged; open files stay live exactly when none was at or below a child that is not listed |
| `FileTree.Filesystem.Reconcile` | madbfs/src/filesystem.cpp:293-369 | the reconciliation alone: names, nodes, kinds and open files as above, as a run of changes |
| `FileTree.Filesystem.Prune` | madbfs/src/filesystem.cpp:348-359 | destroys exactly the children the listing does not have and what is below them; open files stay live exactly when none of them was open before |
| `FileTree.Filesystem.Refresh` | madbfs/src/filesystem.cpp:314-346 | the first loop: listed names as expected, other children, what is below them and the handles to it left alone |
| `FileTree.OpenFileNotListed` | madbfs/src/filesystem.cpp:348-359 | a file is made, opened and not listed any more: its handle is left behind |
| `FileTree.UnlinkWhileOpen` | madbfs/src/filesystem.cpp:503-506 | a file is made, opened and unlinked with every handle live, and the flush of the descriptor follows a missing node |
| `FileOps.MutateLive` | madbfs/src/filesystem.cpp:220-241 | after a node's file is replaced and its handles freed, every open file is still a regular file in the tree |
| `Handles.StoreExact` | madbfs/src/file_handle_store.cpp:28-51 | storing opens the first free entry and disturbs no other; without one the table grows to 1024 entries or to twice its size |
| `Handles.FileHandleStore.Find` | madbfs/src/file_handle_store.cpp:11-14 | gives the handle if there is one and nothing otherwise if and only if the number is beyond the capacity or its entry in use |
| `Handles.FindReleased` | madbfs/src/file_handle_store.cpp:11-14 | a handle that was stored and released is found again, without a node |
| `Handles.FileHandleStore.FindFor` | madbfs/src/file_handle_store.cpp:16-26 | reading and writing get an entry exactly when it is in use and opened for it |
| `Handles.FileHandleStore.Store` | madbfs/src/file_handle_store.cpp:28-51 | the table after a store: first free entry, else a table of 1024 or twice the size |
| `Handles.FileHandleStore.Release` | madbfs/src/file_handle_store.cpp:53-56 | gives the entry back and frees it; what it gives back is as promised if and only if the number is beyond the capacity or the entry was in use |
| `Handles.FileHandleStore.Erase` | madbfs/src/file_handle_store.cpp:58-68 | frees every entry of a node and counts them |
| `Handles.FileHandleStore.CountEntries` | madbfs/src/file_handle_store.cpp:70-79 | open and empty entries add up to the capacity |
| `TreeRun.ChangeGood` | madbfs/src/filesystem.cpp:163-613 | every change, those of readdir included, keeps the tree well-formed |
| `TreeRun.ChangeLive` | madbfs/src/filesystem.cpp:163-613 | every change keeps each open file a regular file in the tree if and only if it is neither a plain rename over a directory with an open file below it nor the loss of a listed child that is open or has an open file below it |
| `TreeRun.ChangeFrees` | madbfs/src/filesystem.cpp:163-613 | a change frees an entry somebody has open if and only if it unlinks the file or renames over it, replaces it or a directory it is in, or releases the entry; all other open entries stay as they are |
| `TreeRun.RunHolds` | madbfs/src/filesystem.cpp:163-613 | over every run that leaves no handle behind, an open entry is the same file in the tree in the end unless one of those changes freed it |
| `TreeRun.RunGood` | madbfs/src/filesystem.cpp:163-613 | over every run of changes the tree is well-formed, and as long as none of them was of that kind every open file is a regular file in the tree |
| `TreeRun.RunRoundTrip` | madbfs/src/node.cpp:102-155 | after every run, looking up a path and reading off a node's route are inverses |
| `TreeRun.StrandedByRename` | madbfs/src/filesystem.cpp:605-610 | a run to a state with only live handles in which an accepted rename leaves one behind |
| `TreeRun.StrandedByPruning` | madbfs/src/filesystem.cpp:348-359 | a run to a state with only live handles in which the loss of a child leaves one behind |
| `TreeRun.ReachesMore` | madbfs/src/filesystem.cpp:163-613 | runs of changes put together are a run: what the methods of the filesystem do is one |
| `CopyLoop.CopyFileRange` | madbfs-server/src/request_handler.cpp:325-358 | for every pattern of short reads, short writes and errors the loops end; the copy succeeds exactly when no call failed and has then copied the range as far as the input reaches; the first failure ends it and leaves a prefix copied |
| `CopyLoop.CopiedBytes` | madbfs-server/src/request_handler.cpp:325-358 | every byte of the output: inside the copied range the input's, outside it the old one |

## Left out

- `Cache::truncate`: it keeps the old last page and drops the one at the new boundary when the page count changes, so it does not refine a flat-file truncate.
- The check of `hint_open` that an id keeps its path, and `invalidate_one` and `shutdown` within runs of the reaper.
- `Cache::rename` and `invalidate_fds`: they change an entry's path and its descriptors, not contents.
- Cache operations that overlap, other than readers on files whose descriptor is open and the life of descriptors: eviction suspends with a page already unlinked, and opening a descriptor suspends before the key is queued.
- CacheSteps.ForcePush: the write descriptor can always be opened when a dirty page is evicted; when it cannot, the code leaves an iterator to a page that is gone.
- PageCache.Cache.Write: whether a reader sees all of the file after a write that starts behind the page of its end, because that depends on which of its pages are pushed on the way; what the file is then, and that the input is seen, is stated.
- CacheOps.Read: page reads of one request run in page order; the code starts them together.
- Page lists as linked nodes: that an entry's iterators point at the list's own nodes is not part of the model, which keeps the pages in the table and their keys in the list.
- Wire.DecodeField: a length near 2^64, which no builder writes, makes the code's bounds check wrap around; here it fails.
- Wrap-around of the 32-bit request id after four billion requests.
- The discard of a response nobody waits for, which the code creates but does not await: the protocol model keeps message boundaries.
- Breakdown of the server side (a send that fails there, a bad header): the model's server just takes no further steps.
- FileTree.Filesystem.Rename: between the two lookups of one rename an expired common ancestor could be replaced, which leaves the code with a dangling node; the model starts after both.
- Paths with `.` or `..` as names in filesystem operations; FUSE resolves them before.
- Cached paths of descendants after a directory rename: only the renamed node's entry is updated.
- FileTree.Filesystem.ReleaseFile: a file's dirty flag and its flush on release; the node's data is not part of the tree.
- Clocks, TTL values, timestamps and permission bits, other than as arbitrary answers.
- Link targets, symlink creation, `utimens` and `getattr`: they read or set single fields of a node.
- The adb shell transport, command execution, IPC, logcat, argument parsing, FUSE glue and the Asio wrappers.
