# PFSsim in Dafny

PFSsim simulates a parallel file system: clients stripe requests over data servers, proxies in between schedule
them, and each data server has a request queue, a page cache and a local file system. This project models the
state machines behind its messages and proves what they are for. Tags, weights, tokens and times are `real`,
sizes, offsets and page numbers `int`. The clock, service estimates and configuration are inputs of the steps.

| part | files | main results |
|---|---|---|
| start-time fair queueing | `FairQueue`, `SfqScheduler`, `FairShare`, `FairProgress` | proportional share of dispatched and of completed work; no starvation; equal tags take turns |
| distributed fair queueing | `LazyTags`, `DsfqProxy`, `DsfqCluster`, `DsfqService`, `DsfqFront`, `DsfqTelling`, `DsfqIdle` | lazy tag repair is exact; no counted byte is lost; tags grow by total service; everyone learns everything in a known number of moves |
| page cache | `PageRanges`, `PageNodes`, `LruOrder`, `CacheWalk`, `CacheLists`, `PageAccess`, `PageReclaim`, `PageCache`, `DirtyPages`, `PageLife` | linked records refine a map from pages to flags; the life of a page from start to completion; list health; accounting with reclaim; order of recency; trim; the dirty counter |
| dual queues | `JobQueues`, `DtaModel`, `DtaInvariant`, `DtaLag`, `DtaScheduler` | every packet is sent exactly once; counters agree; nothing idle while something waits; when a packet may be sent before the earliest |
| striping | `Striping`, `StripingSizes`, `WindowTrace` | exactly when all windows of a request are placed right |
| extents | `Extents`, `Ext3Model`, `Ext3` | each block once, in order, after its metadata; whole runs serve requests as planned |
| split chain | `Fragments`, `ReadChain`, `DataServer`, `RequestIds` | pieces and fragments tile a request, one last reply |
| two-level control | `I2lModel`, `I2lSpare`, `I2lScheduler` | order, nothing lost, token bound; a busy server holds requests back |

Where the source updates an object in place there is a class, whose methods are proved to take its state as a
function of the old state says (`Model()`, `Abs()`, or the lists themselves); the properties of whole runs are then
proved about these functions. The records of the page cache are heap objects, linked into two lists at once, and
relinked in place.

The code does not always do what it means to. The model follows the code, and these are proved about it:

- Later windows of a request are laid out as if they began where the first one did. `Striping.ExactForAll` says
  for which layouts that is always right, `StripingSizes.ExactForSize` for which sizes of a request, and
  `Striping.OthersAreNotExact` gives a request that goes wrong for each other layout.
- The sub-request count of a window always equals the number of servers: `WindowBasedTrace.OpenNewWindow` says when
  that is the number of servers with a share, `Striping.NotAllBusy` gives a window for which it is not.
- A cache read beforehand looks at one record only: `PageRanges.CacheReadExact`.
- An appended extent may overlap the one before it on disk: `Extents.AppendedIsApart`.
- Packet numbers run into the next request's when a write has too many packets: `Fragments.NumbersFit`.
- `dirty_pages` grows for missing pages only. `DirtyPages.CounterExact` says for each operation when it keeps step
  with the pages that are dirty and not under write-back; `DirtyPages.CounterBelowZero` takes it below zero, and
  `DirtyPages.BoundSaysNothing` makes any number of pages dirty without moving it.
- Reclaim inside a walk can take the record under the walk, or a remembered position: `DirtyPages.CursorTaken` is a
  cache in which it does, `LruOrder.Survives` and `DiskCache.LruFreePages` say exactly which records go.
- A page is released by the first completion of any operation on it: `PageLife.HeldUntilCompleted` says how long it is
  safe, `PageLife.SecondReaderLosesPage` gives two reads of a page of which the second may lose it.
- A request remembers one waiting packet per server. `DtaLag.ArrivalKeeps` says exactly when an arrival makes it forget
  one, `DtaLag.SlotTaken` gives one that does, and `DtaLag.LaggingIsQueued` what holds when none does.

## Model

| member | source | states |
|---|---|---|
| FairShare.Fairness | omnetpp/scheduler/SFQ/SFQ.cc:28-118 | Over any stretch of any run from the start, in which two applications both stay backlogged, the bytes dispatched for them differ, each divided by its weight, by at most one largest job of each. |
| FairShare.CompletedFairness | omnetpp/scheduler/SFQ/SFQ.cc:51-149 | The same for bytes completed: the difference is at most (depth + 1) times that bound, whatever order jobs complete in. |
| FairShare.TagAdvances | omnetpp/scheduler/SFQ/SFQ.cc:28-118 | While an application stays backlogged, its front start tag grows by exactly the bytes dispatched for it over its weight. |
| FairShare.RunInv | omnetpp/scheduler/SFQ/SFQ.cc:28-118 | Every run keeps front tags within one largest job of virtual time, every queued job starting where the one before it finishes, and the outstanding jobs within the depth; virtual time never falls. |
| FairShare.RunConserves | omnetpp/scheduler/SFQ/SFQ.cc:108-149 | Outstanding bytes plus completed bytes equal the bytes outstanding before plus the bytes dispatched, for every application and run. |
| FairShare.ServerShare | omnetpp/scheduler/SFQ/SFQ.cc:51-118 | What is outstanding of one application is at most depth times its largest job. |
| FairShare.CompletedShare | omnetpp/scheduler/SFQ/SFQ.cc:51-149 | Completed work of one application trails or leads its dispatched work by at most depth times its largest job. |
| FairProgress.NoStarvation | omnetpp/scheduler/SFQ/SFQ.cc:28-106 | With jobs of at least m bytes, a front job with start tag S waits for at most the sum over the other applications of floor((S - virtual time) * weight / m) + 1 dispatches, whatever arrives meanwhile. |
| FairProgress.RunCounts | omnetpp/scheduler/SFQ/SFQ.cc:28-106 | The same bound counted from the next tag of each other application instead of virtual time. |
| FairProgress.TiesTakeTurns | omnetpp/scheduler/SFQ/SFQ.cc:51-92 | Between two dispatches, whatever else happens, applications with equal lowest tags are served in the order in which they come after the one served last; so none is served twice in a row while another has the same tag. |
| FairQueue.ChoiceIsLowestTag | omnetpp/scheduler/SFQ/SFQ.cc:51-92 | The rotating scan picks nothing exactly when all queues are empty; otherwise the lowest front start tag, and among equal tags the first from the rotating start. |
| SfqScheduler.Sfq.constructor | omnetpp/scheduler/SFQ/SFQ.cc:8-26 | A new scheduler has empty queues, zero tags and zero virtual time. |
| SfqScheduler.Sfq.PushWaitQ | omnetpp/scheduler/SFQ/SFQ.cc:28-49 | The whole new state after an arrival, as the specification step on which fairness is proved. |
| SfqScheduler.Sfq.LowestTag | omnetpp/scheduler/SFQ/SFQ.cc:51-92 | The scan loop over the applications finds the choice of the specification, or -1. |
| SfqScheduler.Sfq.DispatchNext | omnetpp/scheduler/SFQ/SFQ.cc:51-118 | Refuses at the depth limit or with nothing waiting; else sends the chosen job, advances virtual time, the scan start and the next tag of that queue, and nothing else. |
| SfqScheduler.Sfq.PopOsQ | omnetpp/scheduler/SFQ/SFQ.cc:124-149 | Takes the first outstanding job with the ID and returns its packet; no job with the ID leaves everything as it was. |
| SfqScheduler.Sfq.ReceiveInsertBack | omnetpp/scheduler/DSFQ/DSFQ.cc:26-47 | A charge from another proxy moves the last job of each backlogged queue, or the largest finish tag of an empty one. |
| SfqScheduler.Sfq.ReceiveInsertFront | omnetpp/scheduler/DSFQ/DSFQ.cc:49-71 | The same charge on the front job only. |
| LazyTags.LazyRepairIsExact | omnetpp/scheduler/DSFQ/DSFQ.cc:26-71 | For every interleaving of arrivals, dispatches, completions and charges to front or back, moving only the front job and repairing the next at dispatch gives the same packets, virtual time and front tags, step by step, as moving every queued job at once. |
| LazyTags.StepSimulates | omnetpp/scheduler/SFQ/SFQ.cc:94-106 | One step of the lazy scheduler keeps it in step with the eager one and sends the same packet. |
| LazyTags.ScanAgrees | omnetpp/scheduler/SFQ/SFQ.cc:57-80 | The scan sees front jobs only, so queues with equal fronts and lengths give the same choice. |
| DsfqCluster.Conservation | omnetpp/scheduler/DSFQ/DSFQ.cc:26-86 | In every reachable state of any number of proxies, for each proxy and application: bytes charged there + bytes in flight to it + bytes the others have still to tell = bytes the others have counted. |
| DsfqCluster.MoveConserves | omnetpp/proxy/Proxy.cc:302-332 | Each step (local event, telling the router, copying, delivery) keeps that balance, so nothing is lost, charged twice, or charged to the proxy that counted it. |
| DsfqCluster.HandleSPacketPropagation | omnetpp/router/Routing.cc:88-103 | The broadcast loop sends one copy to every proxy but the sender, in order, and passes on an addressed message as it is. |
| DsfqService.GlobalService | omnetpp/scheduler/DSFQ/DSFQ.cc:26-71 | While an application stays backlogged at a proxy, the finish tag at the back of its queue grows by exactly (own arrivals + everything heard from the other proxies) over its weight, in every run of a variant that charges the back. |
| DsfqService.KnownTelescopes | omnetpp/scheduler/DSFQ/DSFQ.cc:26-71 | The same over any stretch of states in which the balance and the tag chain hold. |
| DsfqService.MoveBackTag | omnetpp/scheduler/DSFQ/DSFQ.cc:26-47 | One step moves the back tag by what it pushes there or charges there, over the weight. |
| DsfqService.RunChained | omnetpp/scheduler/DSFQ/DSFQ.cc:26-47 | Every run of a variant that charges the back keeps each queue chained from the front job to the largest finish tag. |
| DsfqFront.FrontService | omnetpp/scheduler/DSFQ/DSFQ.cc:49-71 | In every run of DSFQ-F, while an application stays backlogged at a proxy, its front start tag there grows by exactly (bytes dispatched there + bytes charged there by the other proxies) over its weight. |
| DsfqFront.StepAhead | omnetpp/scheduler/SFQ/SFQ.cc:28-118 | No event moves virtual time back or puts a front tag before it, as long as charges are not negative. |
| DsfqFront.VirtualTimeGrows | omnetpp/scheduler/DSFQ/DSFQ.cc:26-86 | In every run of every variant virtual time never falls at any proxy, charges never being negative there. |
| DsfqProxy.Dsfq.constructor | omnetpp/scheduler/DSFQ/DSFQ.cc:19-24 | A new proxy has nothing to tell and is inactive. |
| DsfqProxy.Dsfq.PushWaitQ | omnetpp/scheduler/DSFQ/DSFQALB.cc:11-16 | An arrival is counted by the arrival-counting variants and makes the proxy active under its own ID, under the load-batched variant exactly if the unsent bytes of the application reach the threshold; the other variants leave it as it was. |
| DsfqProxy.Dsfq.DispatchNext | omnetpp/scheduler/DSFQ/DSFQD.cc:12-20 | A dispatch is counted and makes the proxy active under DSFQ-D, exactly if a packet was sent. |
| DsfqProxy.Dsfq.PopOsQ | omnetpp/scheduler/DSFQ/DSFQF.cc:12-19 | A completion is counted and makes the proxy active under DSFQ-F, exactly if a packet was found. |
| DsfqProxy.Dsfq.ReceiveSPacket | omnetpp/scheduler/DSFQ/DSFQA.cc:22-24 | A charge goes to the back of the queues, or to the front under DSFQ-F. |
| DsfqProxy.Dsfq.PropagateSPacket | omnetpp/scheduler/DSFQ/DSFQ.cc:73-86 | An active proxy tells all it has counted and starts again from zero; an inactive one tells nothing. |
| DsfqProxy.StepHomed | omnetpp/scheduler/DSFQ/DSFQ.cc:26-71 | Every event keeps each job with its own application, so that what a proxy counts is an application it has. |
| DsfqTelling.RunCounts | omnetpp/scheduler/DSFQ/DSFQD.cc:12-20 | In every run, the bytes a proxy has counted of an application are those that arrived there, those dispatched there under DSFQ-D, and those dispatched and no longer outstanding under DSFQ-F. |
| DsfqTelling.ActiveExactly | omnetpp/scheduler/DSFQ/DSFQALB.cc:11-16 | In every reachable state a proxy is active if and only if, since it last told, it has counted a packet; under DSFQ-ALB, one that brought the unsent bytes of its application to the threshold. |
| DsfqTelling.UntoldIsActive | omnetpp/scheduler/DSFQ/DSFQA.cc:26-30 | In every reachable state an inactive proxy has no unsent bytes, under DSFQ-ALB fewer than the threshold of each application; an active one carries its own ID. |
| DsfqTelling.SettledKnowsAll | omnetpp/scheduler/DSFQ/DSFQ.cc:26-86 | In a reachable state with no active proxy and no message on its way, each proxy has been charged exactly what the others have counted; under DSFQ-ALB, less than the threshold short of it for each other proxy. |
| DsfqTelling.MoveSettles | omnetpp/router/Routing.cc:88-103 | Telling, copying a message for the others, and delivering a copy each reduce by one a measure of what is to be done, and count nothing new. |
| DsfqTelling.Settling | omnetpp/proxy/Proxy.cc:302-332 | From every reachable state exactly that many such moves, in any order, lead to a state with nothing left to tell or deliver, and no fewer do. |
| DsfqIdle.MoveTag | omnetpp/scheduler/DSFQ/DSFQ.cc:26-71 | One move changes the tag of an application (that of its front or last job, or the largest finish tag while it is idle) by its own bytes there and those charged there, over the weight, and by the step of an arrival for an idle application up to virtual time. |
| DsfqIdle.NothingForgotten | omnetpp/scheduler/DSFQ/DSFQ.cc:26-71 | The same added up over any stretch of any run of any variant, backlogged or not: charges to an idle application are not forgotten, and nothing but virtual time moves it ahead for nothing. |
| PageRanges.WalkIsPointwise | omnetpp/dserver/diskcache/DiskCache.cc:978-1232 | For every sorted disjoint list and every kind of operation but a cache read beforehand: the walk is refused exactly if some requested page is one the operation must not meet; otherwise every page in [start, end) changes as the page-to-flags map says, every other page keeps its flags, and the list stays sorted and disjoint. |
| PageRanges.WalkFromLast | omnetpp/dserver/diskcache/DiskCache.cc:987-994 | Starting at any record that begins before the request gives the same list, refusal and counts as starting at the head. |
| PageRanges.UpdateFromIsPointwise | omnetpp/dserver/diskcache/DiskCache.cc:978-1232 | Both together, with the number of pages inserted and found, for the walk from the remembered position. |
| PageRanges.CacheReadExact | omnetpp/dserver/diskcache/DiskCache.cc:1226-1229 | A cache read beforehand leaves the walk after one record; it has the pointwise effect if and only if that record reaches back to the start of the request and the rest of the request is cached with flags it would not change. |
| PageRanges.WalkCounts | omnetpp/dserver/diskcache/DiskCache.cc:1048-1056 | The walk inserts exactly the requested pages that were not cached, and the total of cached pages grows by as many. |
| PageRanges.UpdateFromTotal | omnetpp/dserver/diskcache/DiskCache.cc:1048-1056 | The total grows by the pages inserted even when the walk is refused half way. |
| PageLife.WalkLeaves | omnetpp/dserver/diskcache/DiskCache.cc:1000-1121 | Flag by flag, for every list and operation but the start of a cache read: the walk goes wrong exactly if it meets an absent page without being the start of a disk read or cache write, or a cached page at the start of a disk read. Else each cached page asked for ends with count 1 before and 0 after the operation; locked exactly before a write; under write-back exactly before a disk write; modified if written or so before; dirty if written or so before, and clean after a disk write. Absent pages enter locked, with count 1, dirty exactly for a write. No other page changes. |
| PageLife.CacheReadHolds | omnetpp/dserver/diskcache/DiskCache.cc:1226-1229 | Before a cache read, exactly the requested pages of the record the walk starts at get count 1, are unlocked and not under write-back, and stay dirty or modified if they were; all other pages keep their flags. |
| PageLife.CacheWriteLife | omnetpp/dserver/diskcache/DiskCache.cc:928-956 | Writing to the cache and its completion are never refused; in between the pages are locked, dirty and held, afterwards they are dirty, unlocked, not held and not under write-back, and a read from any of them reads from the cache. |
| PageLife.WriteBackLife | omnetpp/dserver/diskcache/DiskCache.cc:963-976 | Writing back cached pages: in between they are marked, locked and held, afterwards clean, unlocked and not held, so that they may be reclaimed and read. |
| PageLife.DiskReadLife | omnetpp/dserver/diskcache/DiskCache.cc:963-976 | Reading absent pages from disk: in between they are locked and held and every read of them waits, afterwards they are clean, unlocked, not held, and read from the cache. |
| PageLife.CacheReadLife | omnetpp/dserver/diskcache/DiskCache.cc:963-976 | Reading from a record of the cache: in between its pages are held, afterwards not, and as dirty as before. |
| PageLife.HeldUntilCompleted | omnetpp/dserver/diskcache/DiskCache.cc:963-976 | Over any run of walks and reclaims of a file, a page that is held stays cached and held until some operation on it completes. |
| PageLife.SecondReaderLosesPage | omnetpp/dserver/diskcache/DiskCache.cc:1112-1114 | After two starts and one completion of reading the same clean page from the cache, it may be reclaimed. |
| PageNodes.LruList.Push | omnetpp/dserver/diskcache/DiskCache.cc:1518-1531 | The record becomes the head; the rest of the doubly linked list keeps its order. |
| PageNodes.LruList.InsertBefore | omnetpp/dserver/diskcache/DiskCache.cc:1534-1542 | The record goes just before the given one. |
| PageNodes.LruList.Substitute | omnetpp/dserver/diskcache/DiskCache.cc:1545-1558 | The record takes the other one's place. |
| PageNodes.LruList.Delete | omnetpp/dserver/diskcache/DiskCache.cc:1482-1515 | The search finds the record and takes out exactly it, the list staying linked both ways from head to end. |
| PageNodes.LruList.Absorb | omnetpp/dserver/diskcache/DiskCache.cc:1294-1303 | The record before the given one is dropped. |
| PageNodes.CachedFile.Delete | omnetpp/dserver/diskcache/DiskCache.cc:1444-1478 | The search in the file's list finds the record and takes out exactly it. |
| PageNodes.CachedFile.LinkBefore | omnetpp/dserver/diskcache/DiskCache.cc:1025-1035 | A new record is linked in before the cursor, or at the end. |
| PageNodes.CachedFile.Replace | omnetpp/dserver/diskcache/DiskCache.cc:1124-1149 | A new record takes the place of the cursor. |
| PageNodes.CachedFile.LinkAfter | omnetpp/dserver/diskcache/DiskCache.cc:1192-1199 | A new record is linked in behind the cursor. |
| PageNodes.CachedFile.Absorb | omnetpp/dserver/diskcache/DiskCache.cc:1286-1293 | The record behind the cursor is dropped. |
| CacheWalk.FlagsOnHit | omnetpp/dserver/diskcache/DiskCache.cc:1087-1121 | The chain of assignments gives each of the eight operations the flags of its page-level effect, also written out flag by flag: count, lock, write-back, modified and dirty. |
| CacheWalk.HitPrefix | omnetpp/dserver/diskcache/DiskCache.cc:1133-1142 | A request that covers the front of a record: both lists relinked, the ranges spliced, and the whole LRU list as values: the requested pages in front after a cache write, else in the place of the record. |
| CacheWalk.HitWhole | omnetpp/dserver/diskcache/DiskCache.cc:1143-1160 | The same for a request that covers a whole record, which is replaced. |
| CacheWalk.HitMiddle | omnetpp/dserver/diskcache/DiskCache.cc:1163-1190 | The same for a request inside a record, which becomes three; the pages behind the request are more recent than those before it. |
| CacheWalk.HitSuffix | omnetpp/dserver/diskcache/DiskCache.cc:1191-1210 | The same for a request that covers the end of a record. |
| PageCache.DiskCache.AddMissing | omnetpp/dserver/diskcache/DiskCache.cc:1020-1065 | Missing pages become a record in place and most recent. If there are not enough free pages, at least a batch is reclaimed while the record is in its file but not on the LRU list; the cache is healthy afterwards, no page of another file is lost that is not clean, unlocked and unused, and free pages change by what was freed less what was inserted, also when that is too little. |
| PageCache.DiskCache.MakeRoom | omnetpp/dserver/diskcache/DiskCache.cc:1048-1052 | If the free pages do not suffice for the record in hand, as many pages as it has are reclaimed, and at least 32; else none. That touches neither the record nor any file without reclaimable pages, and keeps the accounts. |
| PageCache.DiskCache.MeetRecord | omnetpp/dserver/diskcache/DiskCache.cc:1070-1221 | The part of the loop for a record the request reaches into keeps the cache healthy, splices the record as the specification says, and keeps the order of the LRU list but for what is written. |
| PageCache.DiskCache.Round | omnetpp/dserver/diskcache/DiskCache.cc:1008-1231 | One turn of the loop on the linked records does what one visit of the specification says, with counters, lists, reclaim and recency. |
| PageCache.DiskCache.Walk | omnetpp/dserver/diskcache/DiskCache.cc:978-1232 | The loop over the linked records computes the walk of the specification from the remembered position, reclaiming where pages are short. |
| PageCache.DiskCache.WalkCacheUpdate | omnetpp/dserver/diskcache/DiskCache.cc:978-1232 | Every operation leaves the flags of the specification (`PageLife.WalkLeaves`) and keeps the whole cache healthy (so free pages and cached pages always add up), gives the file the list of the specification, reports refusal, and moves the counters by exactly what was inserted, reclaimed and written back. Other files lose only reclaimable pages, and nothing at all if the free pages suffice. Pages written or inserted become more recent than all others, and no other page falls behind one it was ahead of. |
| LruOrder.DerivedOrder | omnetpp/dserver/diskcache/DiskCache.cc:1518-1558 | A list made from another by keeping parts of its records in order, with requested pages in front, orders pages by recency as the old one did, and the requested ones first. |
| LruOrder.HitDerived | omnetpp/dserver/diskcache/DiskCache.cc:1133-1210 | What each of the four branches does to the LRU list is of that kind. |
| LruOrder.AddedDerived | omnetpp/dserver/diskcache/DiskCache.cc:1049-1058 | So is reclaiming followed by a new record in front, if the file itself loses nothing. |
| PageCache.DiskCache.constructor | omnetpp/dserver/diskcache/DiskCache.cc:277-329 | A new cache is healthy, empty, and has all its pages free. |
| PageCache.DiskCache.OpenFile | omnetpp/dserver/diskcache/DiskCache.cc:378-388 | An unknown file enters with an empty list; a known one changes nothing. |
| PageCache.DiskCache.CountMissing | omnetpp/dserver/diskcache/DiskCache.cc:1342-1387 | The counting loop returns exactly the number of requested pages that are not cached. |
| PageCache.DiskCache.WriteCache | omnetpp/dserver/diskcache/DiskCache.cc:674-729 | A write is cached if and only if the dirty counter plus the missing pages stays below the threshold; then exactly the requested pages are written and become most recent, pages are reclaimed if need be, and the counter stays below the threshold; else nothing changes. |
| PageCache.DiskCache.FindAccess | omnetpp/dserver/diskcache/DiskCache.cc:731-840 | The scan over the records picks the access of the specification. |
| PageCache.DiskCache.ReadCache | omnetpp/dserver/diskcache/DiskCache.cc:731-869 | A read step is never refused by the walk: it waits and changes nothing, reads uncached pages from disk, reclaiming others if need be, or reads from cache without inserting. |
| PageAccess.DiskReadIsSafe | omnetpp/dserver/diskcache/DiskCache.cc:872-892 | The disk read picked for any list starts at the request, meets no cached page, and ends at the request, at the batch limit or at a cached page. |
| PageAccess.CacheReadIsSafe | omnetpp/dserver/diskcache/DiskCache.cc:779-812 | The cache read picked lies inside one cached, unlocked record. |
| PageAccess.WaitsForLockedPage | omnetpp/dserver/diskcache/DiskCache.cc:779-832 | A read waits if and only if the first cached page it asks for is locked. |
| PageAccess.ReadIsNotRefused | omnetpp/dserver/diskcache/DiskCache.cc:1013-1085 | Whatever a read picks, the walk from the remembered position does not reach either of its aborts. |
| PageAccess.CacheWriteIsNotRefused | omnetpp/dserver/diskcache/DiskCache.cc:1013-1085 | Nor does any cache write; it inserts exactly the missing pages. |
| PageReclaim.ReclaimsAllCold | omnetpp/dserver/diskcache/DiskCache.cc:1564-1594 | Asked for at least as many pages as are clean, unlocked and unused, reclaiming frees all of those and no others. |
| PageReclaim.ReclaimFrees | omnetpp/dserver/diskcache/DiskCache.cc:1564-1594 | Reclaiming frees the smaller of the pages wanted and the pages that are not dirty, not locked and have count 0, and the list loses exactly that many pages. |
| PageReclaim.ReclaimsLeastRecent | omnetpp/dserver/diskcache/DiskCache.cc:1564-1594 | Asked for fewer, it frees exactly that many, from the least recent end, shortening at most one record; everything more recent is untouched and the order is kept. |
| PageReclaim.ReclaimsOnlyColdPages | omnetpp/dserver/diskcache/DiskCache.cc:1564-1594 | A page that is dirty, locked or has a count other than 0 keeps its flags; a page that goes had none of these. |
| PageCache.DiskCache.LruFreePages | omnetpp/dserver/diskcache/DiskCache.cc:1564-1594 | The loop from the end of the list frees the smaller of the pages wanted and the pages of all files that are clean, unlocked and have count 0, and says whether it freed all that were wanted; every page of every file that is dirty, locked or has a count other than 0 keeps its flags; files without reclaimable pages are untouched; and a remembered position stays good if and only if its record is not evicted, which can be read off the list before. |
| LruOrder.Survives | omnetpp/dserver/diskcache/DiskCache.cc:1564-1594 | A record keeps its last page if and only if it is not reclaimable, or there are more reclaimable pages in it and in less recent records than are asked for. |
| DirtyPages.CursorTaken | omnetpp/dserver/diskcache/DiskCache.cc:1049-1052 | A cache whose one reclaimable page is under the walk: the pages to insert in front of it make the walk reclaim the record it goes on from. |
| PageCache.DiskCache.LruHoldsPages | omnetpp/dserver/diskcache/DiskCache.cc:1623-1678 | In a healthy cache a page has the same flags in its file's list as on the LRU list, for every file and page. |
| PageCache.DiskCache.Evict | omnetpp/dserver/diskcache/DiskCache.cc:1444-1515 | Taking a record off both lists keeps the cache consistent, with its pages counted free. |
| PageReclaim.MergedIsTidier | omnetpp/dserver/diskcache/DiskCache.cc:58-67 | Merging two records that are adjacent in the file and on the LRU list with equal flags keeps every page's flags and the relative recency of all pages, with one record less. |
| PageCache.DiskCache.TrimCache | omnetpp/dserver/diskcache/DiskCache.cc:1274-1314 | Trimming ends, keeps all pages, their flags and their order of recency, adds no record, and leaves no two records of the file that could still be merged. |
| PageCache.DiskCache.TrimAllCache | omnetpp/dserver/diskcache/DiskCache.cc:1259-1270 | The same for all files: no two records of any file are left that could still be merged, and all remembered positions are dropped. |
| PageCache.DiskCache.CheckListHealth | omnetpp/dserver/diskcache/DiskCache.cc:1623-1678 | On lists that end, the check succeeds if and only if every record is linked both ways with its neighbours, on every file's list and on the LRU list, and the files have as many records as the LRU list. |
| PageCache.DiskCache.HealthyIsSane | omnetpp/dserver/diskcache/DiskCache.cc:1623-1678 | Every healthy cache passes it. |
| PageCache.DiskCache.AsManyRecords | omnetpp/dserver/diskcache/DiskCache.cc:1623-1678 | The lists of all files hold together as many records as the LRU list. |
| PageReclaim.WriteoutIsRight | omnetpp/dserver/diskcache/DiskCache.cc:1392-1440 | A write-out picks exactly min(n, eligible pages) pages, from the front of eligible records only. |
| PageReclaim.WriteoutChooses | omnetpp/dserver/diskcache/DiskCache.cc:1392-1440 | Among the pages that are dirty, not under write-back, not locked and have count 0, the smaller of their number and n is chosen, and no other page. |
| DirtyPages.CounterExact | omnetpp/dserver/diskcache/DiskCache.cc:1055-1216 | Over a walk, the counter of dirty pages keeps its distance to the number of pages dirty and not under write-back if and only if every cached page asked for meets a condition on its flags: dirty and not under write-back for a cache write or the start of a write-back, not so for the end of a write-back, and not dirty under write-back for a read. |
| DirtyPages.WalkDrift | omnetpp/dserver/diskcache/DiskCache.cc:1055-1216 | Otherwise they drift apart to one side, which depends on the operation only. |
| DirtyPages.CounterExactForRead | omnetpp/dserver/diskcache/DiskCache.cc:1226-1229 | The same before a cache read, which looks at one record. |
| DirtyPages.CounterBelowZero | omnetpp/dserver/diskcache/DiskCache.cc:1214-1216 | A clean cached page that is written and then written back takes the counter from 0 to -1. |
| DirtyPages.BoundSaysNothing | omnetpp/dserver/diskcache/DiskCache.cc:705-722 | However many clean cached pages are written, the counter does not move, so that its bound bounds no dirty pages. |
| PageCache.DiskCache.WriteoutOf | omnetpp/dserver/diskcache/DiskCache.cc:1403-1430 | The loop over one file picks what the specification says and returns what is still wanted. |
| PageCache.DiskCache.SetWriteout | omnetpp/dserver/diskcache/DiskCache.cc:1392-1440 | The loop over the files, from the given one round, picks the write-out of all their records in that order. |
| JobQueues.JobQueue.PushBack | omnetpp/scheduler/FIFO/FIFO.cc:25-27 | Appends. |
| JobQueues.JobQueue.DispatchNext | omnetpp/scheduler/FIFO/FIFO.cc:35-48 | Moves the first waiting job to the outstanding ones, unless none waits or a nonnegative degree is reached. |
| JobQueues.JobQueue.PopOsQ | omnetpp/scheduler/FIFO/FIFO.cc:51-62 | Takes out the first outstanding job with the ID, keeping the others in order. |
| JobQueues.JobQueue.QueryJob | omnetpp/scheduler/FIFO/FIFO.cc:88-98 | Finds the first outstanding job with the ID. |
| JobQueues.JobQueue.PushByDeadline | omnetpp/scheduler/EDF/EDF.cc:19-38 | The insertion loop puts a packet before the first one due later. |
| JobQueues.InsertKeepsOrder | omnetpp/scheduler/EDF/EDF.cc:19-38 | A queue ordered by deadline stays so. |
| JobQueues.InsertKeepsPackets | omnetpp/scheduler/EDF/EDF.cc:19-38 | It then holds the same packets and the new one. |
| JobQueues.PlaceIsFirstLater | omnetpp/scheduler/EDF/EDF.cc:19-38 | Packets before the new one are due no later, the next one is due later: equal deadlines are served in arrival order. |
| JobQueues.PlaceByTime | omnetpp/scheduler/EDF/EDF.cc:19-38 | In numbers: rise time plus the delay of its application is at most that of the new packet for each packet in front, and more for the one behind. |
| JobQueues.JobQueue.CountDueBefore | omnetpp/scheduler/EDF/EDF.cc:41-54 | On an ordered queue the loop that stops early counts all packets due before the deadline, as many as rose so early that their delay ends before it. |
| JobQueues.CountsOverdue | omnetpp/scheduler/EDF/EDF.cc:41-54 | The number of packets due before a deadline is the number of positions whose rise time plus delay lies before it; it is 0 exactly if there is none. |
| JobQueues.JobQueue.Refine | omnetpp/scheduler/DTA/DTAEDF.cc:24-41 | Erasing and starting over until nothing changes leaves exactly the packets still listed, in order; it ends. |
| JobQueues.LiveKeeps | omnetpp/scheduler/DTA/DTAFIFO.cc:21-38 | A packet is left if and only if it was there and is listed. |
| JobQueues.LiveKeepsOrder | omnetpp/scheduler/DTA/DTAEDF.cc:24-41 | Purging keeps the order by deadline. |
| DtaInvariant.SentExactlyOnce | omnetpp/scheduler/DTA/DTA.cc:65-336 | In every run, for every packet ID: arrivals equal dispatches plus whether it still waits, and dispatches equal completions plus whether it is being served, although it may sit in several queues at once. |
| DtaInvariant.DispatchNextIsRight | omnetpp/scheduler/DTA/DTA.cc:148-280 | Nothing is sent if and only if every server is full or has nothing waiting; else the first other server gets the right one of its packets, which moves from waiting to served and nothing else does. |
| DtaInvariant.DispatchIsRight | omnetpp/scheduler/DTA/DTA.cc:172-280 | At one server: sends nothing exactly when it is full or nothing waits there. A packet other than the one due first is sent only if the request of that one has its deadline after now + service time, and on the last free slot after now + service time + interval; and if so and the lag queue holds a waiting packet, its first one is sent, whose request lags behind; else the one due first. |
| DtaInvariant.LaggingMeans | omnetpp/scheduler/DTA/DTA.cc:101-102 | A request lags behind exactly if its packets still to be dispatched are at most its total times the lag share. |
| DtaInvariant.DeadlineStays | omnetpp/scheduler/DTA/DTA.cc:75-91 | A request is made by the first packet of its own, with the deadline of that arrival plus the delay of its application, and no step changes its deadline or total for as long as it is known. |
| DtaLag.SentReleases | omnetpp/scheduler/DTA/DTA.cc:113-146 | When a packet is sent and its request lags behind then, the packets in its slots for the other servers join the lag queues of these servers, and nothing else does. |
| DtaLag.ArrivalKeeps | omnetpp/scheduler/DTA/DTA.cc:97-107 | Let each waiting packet be in its lag queue, or named by its slot while its request does not lag behind. An arrival keeps it so if and only if its request lags behind already or its slot is free. |
| DtaLag.SlotTaken | omnetpp/scheduler/DTA/DTA.cc:98 | Two packets of one request for one server, of which the second takes the slot of the first. |
| DtaLag.LaggingIsQueued | omnetpp/scheduler/DTA/DTA.cc:65-336 | In every run from the start, or from another state that has this, whose arrivals find their slots free: every waiting packet of a request that lags behind is in the lag queue of its server. |
| DtaInvariant.PushKeeps | omnetpp/scheduler/DTA/DTA.cc:65-111 | An arrival keeps the invariant: counters of a request equal the contents of the maps, slots name waiting packets, degrees[s] equals the packets outstanding at s and stays within the degree, queues hold no finished packet, every waiting packet is in its EDF queue. |
| DtaInvariant.SentKeeps | omnetpp/scheduler/DTA/DTA.cc:113-146 | A dispatch keeps it, including the release of a request's other packets to the lag queues. |
| DtaInvariant.FinishKeeps | omnetpp/scheduler/DTA/DTA.cc:282-336 | A completion keeps it and removes exactly that packet; an unknown ID changes nothing. |
| DtaInvariant.PurgedIsEarliest | omnetpp/scheduler/DTA/DTA.cc:172-230 | After dropping stale heads the EDF queue is empty exactly when nothing waits at the server; else its head is a waiting packet due first. |
| DtaScheduler.Dta.constructor | omnetpp/scheduler/DTA/DTA.cc:35-63 | Empty maps and queues, zero degrees, the initial service estimates. |
| DtaScheduler.Dta.PushWaitQ | omnetpp/scheduler/DTA/DTA.cc:65-111 | The whole new state: request record made or updated, packet waiting, in its EDF queue and, if the request lags, its lag queue or slot. |
| DtaScheduler.Dta.DispatchUpdate | omnetpp/scheduler/DTA/DTA.cc:113-146 | The whole new state of a dispatch: packet moved, counters moved, slots released once the request lags. |
| DtaScheduler.Dta.ReleaseSlots | omnetpp/scheduler/DTA/DTA.cc:124-144 | The loop over the slots appends each named packet to its server's lag queue. |
| DtaScheduler.Dta.TryToDispatch | omnetpp/scheduler/DTA/DTA.cc:172-280 | The loops that drop stale heads and the choice between the two queues give the step of the specification; nothing is sent exactly when the server is full or nothing waits there; the packet sent is the right choice in the same numbers. |
| DtaScheduler.Dta.DispatchNext | omnetpp/scheduler/DTA/DTA.cc:148-170 | Servers are tried in turn until one sends. |
| DtaScheduler.Dta.PopOsQ | omnetpp/scheduler/DTA/DTA.cc:282-336 | The new state, and the moving averages of service time and interval of that server. |
| Striping.ExactForAll | omnetpp/trace/WindowBasedTrace.cc:130-144 | Every offset and size is striped exactly over all windows if and only if the stripe window divides the transfer window or one server holds all of it. |
| Striping.DividingIsExact | omnetpp/trace/WindowBasedTrace.cc:96-170 | If the stripe window divides the transfer window, window n gives each server exactly its part of that window's bytes. |
| Striping.OneServerIsExact | omnetpp/trace/WindowBasedTrace.cc:96-170 | So it does if all stripes but one are empty. |
| Striping.OthersAreNotExact | omnetpp/trace/WindowBasedTrace.cc:130-144 | For every other layout it names an offset for which a request of one byte more than a window is misplaced. |
| StripingSizes.ExactForSize | omnetpp/trace/WindowBasedTrace.cc:130-144 | A request of a given size is striped exactly wherever it starts if and only if one window suffices, or the stripe window divides the transfer window, or one server holds everything, or there are two windows and the stripe window divides the second. |
| StripingSizes.OnlyThen | omnetpp/trace/WindowBasedTrace.cc:130-144 | The necessary part: the first stripe cannot look the same after a turn that is no multiple of the stripe window. |
| Striping.FirstWindowOk | omnetpp/trace/WindowBasedTrace.cc:96-170 | The first window is always right, and so every request that fits one window. |
| Striping.WindowsTile | omnetpp/trace/WindowBasedTrace.cc:213-238 | A server's windows follow each other without gap or overlap from its part of the offset on, and end at its part of the end when striping is exact. |
| Striping.SharesAddUp | omnetpp/trace/WindowBasedTrace.cc:121-170 | The shares of a window add up to its size, for every layout and start. |
| Striping.PartsAddUp | omnetpp/trace/WindowBasedTrace.cc:240-273 | The servers' parts of the first x bytes of a file add up to x. |
| Striping.SomeShare | omnetpp/trace/WindowBasedTrace.cc:121-170 | A window with bytes in it has a server with a share. |
| WindowTrace.FindServerIndex | omnetpp/layout/Layout.cc:109-114 | The first server with the ID, or -1 if there is none. |
| WindowTrace.WindowBasedTrace.constructor | omnetpp/trace/WindowBasedTrace.cc:26-40 | A new trace has all its bytes to process and no layout. |
| WindowTrace.WindowBasedTrace.SetStart | omnetpp/trace/WindowBasedTrace.cc:240-273 | The loop finds the server and position where the request begins, and each server's offset: its part of the bytes before. |
| WindowTrace.WindowBasedTrace.SetLayout | omnetpp/trace/WindowBasedTrace.cc:240-273 | The first window is open, each server with its share. |
| WindowTrace.WindowBasedTrace.Distribute | omnetpp/trace/WindowBasedTrace.cc:121-157 | The dealing loop ends for every layout with a positive stripe and gives each server the number of the window's bytes that lie on it. |
| WindowTrace.WindowBasedTrace.OpenNewWindow | omnetpp/trace/WindowBasedTrace.cc:96-170 | Takes the next min(rest, window size) bytes, deals them, and sets the sub-request count to the number of servers, which is the number of servers with a share if and only if every server has one; without a rest nothing changes. |
| Striping.NotAllBusy | omnetpp/trace/WindowBasedTrace.cc:156-164 | A window over two servers for which it is not. |
| WindowTrace.WindowBasedTrace.NextPacketFromWindow | omnetpp/trace/WindowBasedTrace.cc:59-90 | Sends the share of the first server not served yet at its offset, split into high and low part, or nothing when all are sent. |
| WindowTrace.WindowBasedTrace.AdvanceWindow | omnetpp/trace/WindowBasedTrace.cc:179-207 | Once all packets are answered the next window opens with each server's share, and some share is not empty. |
| WindowTrace.WindowBasedTrace.NextPacket | omnetpp/trace/WindowBasedTrace.cc:179-207 | Nothing is sent exactly when no packet of the window is left and one is unanswered or no byte is left; a new window opens only when the old one is answered. |
| WindowTrace.WindowBasedTrace.FinishedPacket | omnetpp/trace/WindowBasedTrace.cc:213-238 | A reply moves that server's offset to the end of its share; the status says whether to wait, send more or stop, or that no such server exists. |
| Ext3Model.ServedAsPlanned | omnetpp/dserver/lfs/EXT3.cc:40-234 | In every run with degree 1 and any interleaving of arrivals, dispatches and responses, the block requests answered so far followed by those left are the plan for all page requests in order of arrival: each is served through, access by access as below, before the next; nothing follows one that starts beyond the end of its file. |
| Ext3Model.CompletedInOrder | omnetpp/dserver/lfs/EXT3.cc:40-234 | In every such run the page requests completed, followed by those queued, are those that were queued followed by those that arrived. |
| Ext3Model.PlanMeta | omnetpp/dserver/lfs/EXT3.cc:197-215 | The metadata read in flight is the first of what is left; marking its extent leaves the rest. |
| Ext3Model.PlanData | omnetpp/dserver/lfs/EXT3.cc:216-234 | The data access in flight is the first of what is left; what follows is the same request from behind it on, or the next request. |
| Ext3Model.OnlyJob | omnetpp/dserver/lfs/EXT3.cc:166-190 | A response finds its own page request by the ID numbers it carries. |
| Extents.EachBlockOnce | omnetpp/dserver/lfs/EXT3.cc:66-234 | The data accesses of a request visit each of its logical blocks once and in order, at phystart + (logical - logistart) of its extent; the accesses end and extents are only appended or marked. |
| Extents.MetadataOnce | omnetpp/dserver/lfs/EXT3.cc:66-234 | Each extent's metadata block is read exactly once, before its first data access, and only if it was not read before. |
| Extents.FindExtEntry | omnetpp/dserver/lfs/ILFS.cc:116-154 | The binary search returns the extent holding the block, the number of extents exactly for the block after the last, and -1 exactly outside. |
| Extents.OnlyOne | omnetpp/dserver/lfs/ILFS.cc:116-154 | At most one extent holds a block. |
| Extents.AppendedIsContiguous | omnetpp/dserver/lfs/EXT3.cc:101-116 | An extent appended at the end of the file keeps the extents contiguous. |
| Extents.AppendedIsApart | omnetpp/dserver/lfs/EXT3.cc:105-116 | An appended extent shares no block on disk with the last one if and only if the gap is larger than that one's length. |
| Ext3.Ext3.constructor | omnetpp/dserver/lfs/EXT3.cc:18-28 | No request is queued or outstanding. |
| Ext3.Ext3.NewReq | omnetpp/dserver/lfs/EXT3.cc:40-62 | A page request is queued last, as the blocks of its pages, not pending. |
| Ext3.Ext3.DispatchNext | omnetpp/dserver/lfs/EXT3.cc:66-164 | The first request not pending gets its next access, a metadata or a data read, and only its file can change; at the degree, or with none ready, nothing does. |
| Ext3.Ext3.FinishedReq | omnetpp/dserver/lfs/EXT3.cc:166-234 | A metadata reply marks the extent, a data reply moves the request on, and the page request is returned exactly when its last block is in. |
| ReadChain.ReadIsTiled | omnetpp/dserver/dsd/PVFS2DSD.cc:14-211 | In every run, the replies to a read follow each other without gap from its first byte, each at most the sub-request size; if the read is no longer known they reach its end, and only the last one is marked last. |
| ReadChain.FinishIsRight | omnetpp/dserver/dsd/PVFS2DSD.cc:105-211 | A served piece is answered as last exactly when it ends the read; else its successor starts where it ends. A write is answered by a finish exactly after its last packet. |
| ReadChain.ServedInOrder | omnetpp/dserver/dsd/PVFS2DSD.cc:14-211 | File requests are served in the order they entered the queue, in every run. |
| ReadChain.FinishAfterAll | omnetpp/dserver/dsd/PVFS2DSD.cc:105-211 | A write finish is sent exactly when the last packet of a write has been served, and by then every file request that entered the queue before that packet, and so every earlier packet of the write, has been served. |
| ReadChain.NoMoreReplies | omnetpp/dserver/dsd/PVFS2DSD.cc:105-211 | A request that is done gets no further reply. |
| ReadChain.StepKeeps | omnetpp/dserver/dsd/PVFS2DSD.cc:14-211 | Every step keeps: each known request has exactly one file request, inside its bounds, and is among the requests taken up once. |
| DataServer.Pvfs2Dsd.NewReq | omnetpp/dserver/dsd/PVFS2DSD.cc:14-92 | The whole new state after a read, of which the first piece is made, or a write packet. |
| DataServer.Pvfs2Dsd.DispatchNext | omnetpp/dserver/dsd/PVFS2DSD.cc:94-103 | One file request at a time, first come first served. |
| DataServer.Pvfs2Dsd.FinishedReq | omnetpp/dserver/dsd/PVFS2DSD.cc:105-211 | The whole new state and the reply after a file request is served. |
| Fragments.SplitReadReply | omnetpp/dserver/dsd/DSD_M.cc:178-238 | A reply becomes fragments of at most the packet size that tile it, the last marked last exactly if the reply was; a reply of no bytes becomes none. |
| Fragments.FragmentsTile | omnetpp/dserver/dsd/DSD_M.cc:178-238 | Replies that tile a read become fragments that tile it, exactly one marked last, at the end. |
| Fragments.SplitWrite | omnetpp/client/pfsclient/strategy/PVFS2ClientStrategy.cc:177-206 | A granted write becomes packets of at most the limit that tile it, numbered on from its ID, only the last marked last, ceil(size / limit) in all. |
| Fragments.NumbersFit | omnetpp/client/pfsclient/strategy/PVFS2ClientStrategy.cc:177-206 | All packet numbers lead back to the request if and only if there are fewer packets than numbers in its block. |
| RequestIds.Numbering.Take | omnetpp/client/pfsclient/strategy/PVFS2ClientStrategy.cc:154-167 | The n-th request gets the n-th number of the client's cycle. |
| RequestIds.BlocksDiffer | omnetpp/client/pfsclient/strategy/PVFS2ClientStrategy.cc:154-167 | Two requests have the same number if and only if they are of the same client and a multiple of 998 requests apart. |
| I2lModel.PassedInOrder | omnetpp/scheduler/I2L/I2L.cc:24-97 | In every run, what passed of an application to the deadline queue followed by what is still in its bucket is what was there and arrived, in order; and a positive token count means an empty bucket after every call. |
| I2lModel.NothingLost | omnetpp/scheduler/I2L/AVATAR.cc:32-122 | In every run, what passed is in the deadline queue, outstanding, or completed, each exactly once. |
| I2lModel.TokensBound | omnetpp/scheduler/I2L/SARC.cc:23-48 | Between two replenishments fewer than max_token + 1 requests of an application pass, its tokens being the maximum less those. |
| I2lModel.StepIsOk | omnetpp/scheduler/I2L/I2L.cc:24-97 | One call keeps the invariant, the order, the requests and the token balance, whichever of the two replenishment rules fires. |
| I2lModel.DrainKeeps | omnetpp/scheduler/I2L/SARC.cc:23-38 | Draining ends with no application that has both tokens and waiting requests, each request that passes taking one token. |
| I2lScheduler.Sarc.NewArrival | omnetpp/scheduler/I2L/SARC.cc:51-70 | A request passes at once exactly if its application has tokens, and takes one; else it waits in the bucket. |
| I2lScheduler.Sarc.TryToDispatch | omnetpp/scheduler/I2L/SARC.cc:23-38 | The first bucket with a request and tokens gives its oldest request for a token; none means no bucket has both. |
| I2lScheduler.Sarc.ReplenishTokens | omnetpp/scheduler/I2L/SARC.cc:40-48 | All tokens are at their maximum and the next time is set. |
| I2lScheduler.Avatar.PushWaitQ | omnetpp/scheduler/I2L/AVATAR.cc:32-43 | Inserted by deadline. |
| I2lScheduler.Avatar.DispatchNext | omnetpp/scheduler/I2L/AVATAR.cc:55-108 | Sends the earliest request if some is overdue or the limit leaves room; otherwise sets or clears the idle flag as the load says. |
| I2lScheduler.Avatar.PopOsQ | omnetpp/scheduler/I2L/AVATAR.cc:112-122 | Takes out the first outstanding request with the ID. |
| I2lScheduler.I2l.PushWaitQ | omnetpp/scheduler/I2L/I2L.cc:24-39 | Arrival, spare replenishment and drain as the specification says, in this order. |
| I2lScheduler.I2l.DispatchNext | omnetpp/scheduler/I2L/I2L.cc:42-59 | Written out: the first of the deadline queue is sent if some deadline has passed or fewer than the limit are outstanding. Else a full server is seen as not spare by both levels; with nothing waiting, a server that was not spare becomes so below nine tenths of the limit, and then tokens are replenished, the buckets drained and the dispatch tried once more. |
| I2lSpare.AskIsAnswered | omnetpp/scheduler/I2L/I2L.cc:42-59 | The same for every state of the model that the invariant allows. |
| I2lSpare.NothingSent | omnetpp/scheduler/I2L/I2L.cc:47-57 | After every call that sends nothing the upper level sees the spareness of the lower one, and none if the limit is reached and nothing is overdue. |
| I2lSpare.StepHeldBack | omnetpp/scheduler/I2L/I2L.cc:24-40 | While neither level sees spareness, and unless the timer fires or a call finds fewer than nine tenths of the limit outstanding, an arrival without a token only joins its bucket, nothing else passes and no tokens are added. |
| I2lSpare.BusyHoldsBack | omnetpp/scheduler/I2L/I2L.cc:24-59 | Over every run without such relief it stays so, and of each application fewer requests pass than its tokens plus one. |
| I2lSpare.MissedWindowHolds | omnetpp/scheduler/I2L/AVATAR.cc:128-165 | After a window with a missed deadline, under whatever new limit, each call that sends nothing leaves both levels seeing no spareness, until a call finds fewer than nine tenths of the limit outstanding. |
| I2lScheduler.I2l.PopOsQ | omnetpp/scheduler/I2L/I2L.cc:61-66 | Completion. |
| I2lScheduler.I2l.Notify | omnetpp/scheduler/I2L/I2L.cc:74-97 | Replenishes at the due time, else ends a window at its end, and returns the earlier of the two next times. |
| I2lScheduler.GetValueByRank | omnetpp/scheduler/I2L/AVATAR.cc:292-322 | The partial selection sort permutes the filled part only and returns the value of the rank: everything before it is no smaller, everything behind no larger; an empty array or a rank outside (0, 1] gives 0. |
| I2lScheduler.RankIsShare | omnetpp/scheduler/I2L/AVATAR.cc:292-322 | The rank counts the share 1 - rank of the values, rounded down to whole values. |

## Left out

- Jobs, requests and packets are values; that several queues share one object is modelled by its ID, not by aliasing.
- PageCache.DiskCache.WalkCacheUpdate: a walk that inserts more pages than are free requires that no page of the walked file may be reclaimed, because the code would go on from a record it has just deleted (`DiskCache.cc:1049-1052`); the same holds for AddMissing, Round, Walk, ReadCache and WriteCache. The remembered position of the walked file must be on its list.
- PageCache.DiskCache.LruFreePages: a file whose remembered record is evicted is left with a dangling position, as in the code; trimming drops it.
- PageCache.DiskCache.CheckListHealth: on lists whose forward links end; on some faults the code sleeps for ever, where the model returns that there was one.
- A disk read that meets a cached page, where the code waits forever, is a refusal in the model.
- Page cache triggers and timers: periodic trimming and health checks, read-ahead windows (`disable_ra` as shipped), the background write-out timer, direct and synchronous requests, and the handling of disk and cache replies around the walk. The end of the LRU list is taken to be NULL at the start.
- DtaInvariant.PushKeeps: request IDs must fit a 32-bit integer, since the code keeps them in one while looking them up as longs, and a request brings no more packets than its announced total, else the code would count past it.
- DtaScheduler.Dta.PushWaitQ: the same holds for what it accepts.
- DTA: branches that report a missing request cannot be reached under the invariant and are not modelled.
- WindowTrace.WindowBasedTrace.FinishedPacket: a reply must be to a packet that was sent and not answered yet; the code does not look.
- Striping: layouts in which all stripes are empty, for which the code divides by zero or loops.
- Ext3.Ext3.NewReq: a file must have extents, because the code never sets the extent count of a new file; the queue's IDs are distinct and sub-IDs start a block of sub-IDs.
- Ext3.Ext3.DispatchNext: files stay below the 10000 entries of the extent array. A request that starts beyond the end of its file stays pending for ever, as in the code.
- Ext3Model.ServedAsPlanned: about degree 1; with a larger one two requests may read the same metadata.
- Ext3.Ext3.FinishedReq: a response must be to the access its request made last, as the extents stand; with a degree above 1 a second response for the same metadata is not covered.
- DataServer.Pvfs2Dsd.NewReq: at most `degree` requests are outstanding, because the code forgets a refused one and never tries again; a read of no bytes is excluded, it would get a last reply of no bytes from which no fragment is made.
- The data server's small-write path, whose kinds are changed before they are compared, its processing delay, and its map of packet IDs.
- The client's loop over traces: it returns at the first trace with nothing to send, so no progress is claimed for traces that share a file. Metadata requests and trace bookkeeping are not modelled.
- I2lModel.StepIsOk: the controller at a window's end, a heuristic over service estimates, is an input: its new limit and whether deadlines were missed. Of its statistics only the selection by rank is modelled.
- I2lScheduler.I2l.PopOsQ: an unknown ID, for which the code dereferences NULL while keeping statistics, returns nothing.
- I2lScheduler.I2l.Notify: the new limit at a window's end is an input.
- I2lScheduler.Avatar.PushWaitQ: the counters of new arrivals in a window are not modelled.
- I2lScheduler.Avatar.DispatchNext: neither are the waiting times and the largest number outstanding.
- I2lScheduler.Avatar.PopOsQ: nor the response times and the throughput.
- FairShare.Fairness: weights are positive; floating-point rounding of tags is not modelled.
- The timer of the timed variant of DSFQ is the telling step itself, which may happen at any time.
- SFQRC and SSFQ schedulers, VFS rounding, disk timing tables and DiskSim, gates and channels, parameter parsing, streams, printing and logging.
