# Verified model of GreenBoost

GreenBoost extends the memory of a graphics card: a Linux kernel module and a Windows driver lend it
system memory, a CUDA shim redirects allocations, and a storage library pages a large read-only file
through a bounded pool of video memory. This project models the parts whose correctness depends on
state, order and failure, and proves what they promise.

* **Demand paging of a file** (`Pages`, `Machine`, `Requests`, `Residency`, `Staging`, `HostCache`,
  `FileTensor`, `Sessions`). `FileTensor` is the class of the storage library, with its slots, lanes, clock, counters
  and poison flag. CUDA and Win32 are an adversary, written as a value: the stream is a queue whose
  operations run at arbitrary later times, a copy reads its host buffer when it runs, a started file
  read leaves its buffer arbitrary until it completes and may end short, jobs on other streams end at
  will, every driver call may fail; the machine counts such faults, so that failing without one does
  not verify. `Machines.Later` relates a machine to everything it may have become.
  `Machines.Clean` says that no unfinished work can fault or race; each operation that could break
  that (unmapping, starting a read, queueing a copy, withdrawing access) requires it to be safe, so a
  skipped wait or a reused buffer does not verify.
  `HostCache` relates the pinned buffers to the order in which pages were loaded.
* **What a larger budget buys** (`Budget`, `Batches`, `Replays`, `Anomaly`). For requests of one chunk
  each the pool holds the most recent distinct pages, so a larger one never misses more. For requests
  of several pages the smaller pool stays the youngest part of the larger exactly as long as both stamp
  the pages of each request in the same order; a run of eleven requests shows a larger pool that misses
  more.
* **The shim's allocation table** (`ProbeTable`, `Reclaiming`, `ShimTable`, `ProbeSteps`,
  `ReclaimRaces`, `UvmAccounting`). Open addressing with tombstones, for any table size and any hash,
  as an array class that refines a finite map; exactly when reclaiming loses a key; as interleaved
  slot visits of any number of threads, with reclaims; and the managed-memory byte counter on top.
* **The launcher's command line** (`Launcher`). Quoting against the documented parsing of Windows
  command lines ("Parsing C++ command-line arguments" in Microsoft's C++ reference).
* **Tier accounting of the Linux module** (`TierAccounting`) and **crash cleanup of the Windows
  driver** (`HandleCleanup`).

`dfyconfig.toml` names the whole project for Dafny.

## Where the code differs from what one might expect

* `windows-port/EXPERIMENTAL.md:81` calls slot reuse FIFO. The code stamps a slot on every hit and
  takes the smallest stamp (`windows-port/storage/file_tensor.cpp:197,228`): it is LRU, and so is the
  model.
* The reclaim sweep of the shim's table can lose a key whose probe path wraps around the end of the
  table (`Reclaiming.WrappedReclaimLosesKey`); `Reclaiming.ReclaimKeeps` says exactly when.
* A reclaim between two slot visits of a lookup can make it miss a key that is there throughout, and
  between two visits of an insertion it can leave the new key where nothing finds it
  (`ReclaimRaces.ReclaimBetweenVisitsMisses`, `ReclaimRaces.ReclaimBetweenVisitsLoses`).
* Freeing pointer 1, the table's own mark for a removed slot, can be answered with success
  (`UvmAccounting.Shim.Free`).
* A larger video memory budget can cost loads when requests span several chunks
  (`Anomaly.LargerPoolLoses`).
* The Linux module checks the tier 2 cap before rounding to huge pages, so tier 2 may exceed it by
  2 MiB less 4 KiB (`TierAccounting.Overshoot`).
* The Windows driver lets a handle free any id, after which its own buffer can outlive it
  (`HandleCleanup.Driver.ForeignFreeLeaks`).
* The launcher quotes the program's name like any argument; a name with a quote or a trailing
  backslash is not read back (`Launcher.RoundTrip`).

## Reading the model

The class methods that the source has as one body are split into small ones, in the source's order;
their `ghost` parameters (`loaded`: pages open for writing, `except`: pages whose bytes are not yet
queued, `batch`: pages in flight) name the state of the request that the proof speaks about.
`Residency.Pool` and its functions are the specification of the slots; `Residency.Serve` is the same
policy on a plain list without clock or slots. Driver answers that the source reads from the system
are parameters or nondeterministic choices.

## Model

| member | source | states |
|---|---|---|
| `FileTensors.FileTensor.AcquireMany` | windows-port/storage/file_tensor.cpp:179-268 | The whole request. An accepted one is served if and only if no driver call fails and no read ends short; the failure of one poisons for good, and a refusal says why and changes nothing. On success, at every later moment and whatever reads, uploads and consumers are still running, each byte of each span is mapped read-only at base + offset and equals the file byte, and the padding of a final chunk is zero; slots, clock, the list of loads and the page count are exactly those of `Residency.Request` on the pages in order of first mention. A fully resident request touches no driver state and no lane |
| `FileTensors.FileTensor.Acquire` | windows-port/storage/file_tensor.cpp:168-171 | One span: served if and only if it lies in the file, its pages fit the slots, and the driver's calls and reads succeed; then every byte at base + offset reads as the file byte, now and at every later moment |
| `FileTensors.FileTensor.RecordUse` | windows-port/storage/file_tensor.cpp:172-178 | Owner and poison guards first; then, if and only if no driver call fails, every job submitted on that stream is waited for by the tensor's stream and, where its pages are resident, they stay mapped until it ends; else the tensor is poisoned; never a mapping change |
| `FileTensors.FileTensor.ConsumersKeepTheirPages` | windows-port/storage/file_tensor.h:11-14 | Between any two calls of every run the pages of each queued consumer, and of each fenced job still running, are mapped; inside a call every step keeps `Machines.Clean`, of which this is a part |
| `FileTensors.FileTensor.Open` | windows-port/storage/file_tensor.cpp:102-161 | Which check refuses, in the order of the source, and exactly when construction succeeds: a non-empty file, an aligned chunk that fits 32 bits and the budget, and a driver that grants everything; then no page is resident, there is at least one slot, slots and lanes are as many as the budgets pay for and the file needs, and the four sizes among the counters are what they should be |
| `FileTensors.FileTensor.Close` | windows-port/storage/file_tensor.cpp:54-81 | The destructor, also after a failure: every pending read has ended before buffers go, and every page is unmapped whether or not the stream could be drained; unfinished work is safe exactly if it needs no page, which draining guarantees |
| `FileTensors.FileTensor.Find` | windows-port/storage/file_tensor.cpp:89-92 | Finds the slot that maps the page exactly when the page is resident |
| `FileTensors.FileTensor.ChooseSlot` | windows-port/storage/file_tensor.cpp:226-230 | The scan returns the first free slot or the least recently used one outside the request, and finds one exactly when one exists |
| `FileTensors.FileTensor.PickSlot` | windows-port/storage/file_tensor.cpp:226-231 | "No evictable residency slot" cannot be raised: in every reachable state a missing page of an accepted request has a slot; taking it is what `Residency.Load` does |
| `FileTensors.FileTensor.PickLane` | windows-port/storage/file_tensor.cpp:239-246 | "No file read lane available" cannot be raised; the lane is the one that caches the page, exactly when one does, else the first of the least recently used lanes outside the batch |
| `FileTensors.FileTensor.ChooseLane` | windows-port/storage/file_tensor.cpp:242-245 | The first of the least recently used lanes outside the batch; found exactly when some lane is outside it |
| `FileTensors.FileTensor.MakeRoom` | windows-port/storage/file_tensor.cpp:232-235 | Evicting unmaps the victim only when no unfinished work uses its page, and counts one eviction |
| `FileTensors.FileTensor.BeginRead` | windows-port/storage/file_tensor.cpp:250-258 | A read starts only into a lane outside the batch whose last upload is over; the lane forgets its page, and takes the new stamp and size, even if the read cannot start |
| `FileTensors.FileTensor.ServeFromHost` | windows-port/storage/file_tensor.cpp:240-249 | A host cache hit joins the batch with no read; its lane, and no other, takes the new stamp and nothing else about it changes |
| `FileTensors.FileTensor.TakeLane` | windows-port/storage/file_tensor.cpp:239-261 | A page is served from the host cache if and only if fewer other pages have been loaded since it was last loaded than there are buffers, else read from the file; either way the lane taken is the one the order of the loads implies, the page joins the batch and the counters follow |
| `FileTensors.FileTensor.CompleteRead` | windows-port/storage/file_tensor.cpp:209-216 | Succeeds if and only if the wait does and the read returned as many bytes as the page has in the file, also for a final partial chunk; only then its page is in the lane and its bytes on the counter; else the tensor is left sound and unusable |
| `FileTensors.FileTensor.ReadEnded` | windows-port/storage/file_tensor.cpp:212-215 | A read that has ended is accepted if and only if it returned exactly the bytes of its page; then its lane names the page and nothing else about the lanes changes |
| `FileTensors.FileTensor.FillLane` | windows-port/storage/file_tensor.cpp:247-258 | Taking a lane stamps it and, without a hit, makes it forget its page and take the size of the read; no other lane changes |
| `FileTensors.FileTensor.LoadNext` | windows-port/storage/file_tensor.cpp:225-263 | One more page of the request: the batch is finished exactly when it holds two pages, or as many as there are lanes |
| `FileTensors.FileTensor.CacheHoldsRecent` | windows-port/storage/file_tensor.cpp:239-249 | In every state without a failure the host cache holds exactly the pages loaded last, as many as it has buffers; the loads it served are those that found their page among these, and the file has been read for all others |
| `FileTensors.FileTensor.Upload` | windows-port/storage/file_tensor.cpp:217-221 | The head of the batch leaves it with its whole chunk, content and padding, queued for upload and the lane's event behind it |
| `FileTensors.FileTensor.Finish` | windows-port/storage/file_tensor.cpp:206-224 | Finishing a batch leaves nothing pending: each of its pages will hold its part of the file once the stream drains, the byte counters and the cache have caught up; it fails only with the driver or a short read |
| `FileTensors.FileTensor.LoadMissing` | windows-port/storage/file_tensor.cpp:202-266 | After the barrier, the loads, the drain and the withdrawal of write access the tensor is at rest again, with the slots of `Residency.LoadAll` |
| `Sessions.Session` | windows-port/storage/file_tensor.cpp:82-267 | Any sequence of calls, with consumers on the tensor's stream or others and time passing in between, and any failures: a refused call, a consumer and time change no slot, lane, clock, counter or mapping; after the first driver failure every operation is refused and none of these changes again; without failure misses minus evictions is the number of mapped slots, hits plus misses the number of distinct pages asked for, uploaded minus file bytes the bytes of the host hits, these are what the order of the loads implies, and every resident page reads as the file |
| `Sessions.OneMoreCall` | windows-port/storage/file_tensor.cpp:82-88 | How the absorbing failure extends by one call |
| `Sessions.Meanwhile` | windows-port/storage/file_tensor.cpp:172-178 | Consumers, fences and time, in any number and order, leave slots, lanes, clock, counters and mappings as they are |
| `Sessions.SideBySide` | windows-port/storage/file_tensor.cpp:147-148 | Host cache transparency: two tensors of the same file with the same slots, one with any host cache and one with any other or none, each with its own consumers in between, serve the same requests with the same misses and end with the same mappings and the same bytes in the same chunks |
| `Sessions.LargerHostCache` | windows-port/storage/file_tensor.cpp:147-148 | More pinned memory never costs a read: of two tensors with the same device budget and the same past, serving the same requests with their own consumers in between, the one with more buffers has no fewer host hits, reads no more bytes of the file, uploads as many, and ends with the same device memory |
| `Sessions.ReadsCompare` | windows-port/storage/file_tensor.cpp:239-249 | The same of any two tensors that have loaded the same pages in the same order |
| `Sessions.SameSlotsSameDevice` | windows-port/storage/file_tensor.cpp:207-217 | Equal slots alone determine the mappings and every resident byte, whatever the lanes hold |
| `Staging.LoadingLater` | windows-port/storage/file_tensor.cpp:202-264 | Progress of the disk, the stream and other streams keeps everything the loading code relies on |
| `Staging.EvictStep` | windows-port/storage/file_tensor.cpp:232-235 | A page outside the pages being loaded is used by no unfinished work, so it may be unmapped |
| `Staging.MapStep` | windows-port/storage/file_tensor.cpp:236-237 | Mapping a victim slot at a new offset disturbs no other page and no pending item |
| `Staging.HostHitStep` | windows-port/storage/file_tensor.cpp:240-249 | A cached page may join the batch once its lane's event has passed; lanes in the batch stay pairwise distinct |
| `Staging.StartReadStep` | windows-port/storage/file_tensor.cpp:247-261 | A lane outside the batch has no read in flight and no queued upload, so a read may overwrite its buffer |
| `Staging.EndReadStep` | windows-port/storage/file_tensor.cpp:209-214 | A read that ended in full makes its lane name the page it holds |
| `Staging.CopyStep` | windows-port/storage/file_tensor.cpp:217 | An upload is queued only from a buffer that is complete, and the batch goes on without it |
| `Staging.CopyContent` | windows-port/storage/file_tensor.cpp:217 | The bytes the chunk will hold are those of the file, although the copy reads its buffer when it runs |
| `Staging.ClearStep` | windows-port/storage/file_tensor.cpp:218-219 | The rest of a final chunk will be zero |
| `Staging.SignalStep` | windows-port/storage/file_tensor.cpp:220 | The lane's event is recorded behind its upload |
| `Staging.RestLater` | windows-port/storage/file_tensor.cpp:200-201 | Between requests device memory does not change, however long consumers take |
| `Staging.HitAtRest` | windows-port/storage/file_tensor.cpp:195-201 | The hit-only path, which skips the barrier, keeps everything that holds between requests |
| `Staging.ResidentByteReads` | windows-port/storage/file_tensor.h:11-15 | A resident byte reads as the file byte at its fixed address |
| `Staging.ResidentReads` | windows-port/storage/file_tensor.cpp:217-219 | A resident page holds its part of the file followed by zeros, and is read-only |
| `Machines.ScribbleIsLater` | windows-port/storage/file_tensor.cpp:256-258 | A started read leaves its buffer arbitrary until it completes; no queued upload can see it |
| `Machines.RunIsLater` | windows-port/storage/file_tensor.cpp:217 | A copy reads its host buffer when it runs; running the head of the queue does not change what the device will finally hold |
| `Machines.AwaitRead` | windows-port/storage/file_tensor.cpp:209-213 | What the code may assume about a completed read: at most the wanted bytes, those of the file |
| `Machines.StreamSynchronize` | windows-port/storage/file_tensor.cpp:203 | On success everything queued has run |
| `Machines.EventSynchronize` | windows-port/storage/file_tensor.cpp:247 | On success the last recording of the lane's event has run |
| `Machines.StartRead` | windows-port/storage/file_tensor.cpp:256 | Callable only when the buffer is neither being read into nor waiting to be uploaded |
| `Machines.Unmap` | windows-port/storage/file_tensor.cpp:233 | Callable only for a page that no unfinished work uses; keeps the machine free of faults |
| `Machines.Fence` | windows-port/storage/file_tensor.cpp:175-176 | Event record and stream wait: all jobs of that stream are waited for by everything queued later, those with mapped pages are protected, and nothing else changes |
| `Pages.Geometry.Affordable` | windows-port/storage/file_tensor.cpp:133 | The largest number of chunks that the budget pays for and the file needs; at least one exactly when the budget holds a chunk |
| `Pages.Geometry.Bytes` | windows-port/storage/file_tensor.cpp:255 | A page holds a whole chunk, or what is left of the file |
| `Pages.Geometry.ByteInImage` | windows-port/storage/file_tensor.cpp:184-186 | Byte a of the file is byte a mod chunk of page a div chunk |
| `Pages.Geometry.RealPageIsNotMarker` | windows-port/storage/file_tensor.cpp:33 | No page of a file is the "no page" marker |
| `Requests.CollectPages` | windows-port/storage/file_tensor.cpp:181-194 | Accepts exactly the lists of spans that lie in the file and whose union of pages fits the slots, returns exactly the pages they touch in order of first mention, and otherwise names the first span at fault and why |
| `Requests.TooLargeStays` | windows-port/storage/file_tensor.cpp:187-192 | A request found too large at one span is too large whatever follows |
| `Requests.UnionElements` | windows-port/storage/file_tensor.cpp:189-190 | The union holds each page touched by some span, once |
| `Requests.UnionInOrder` | windows-port/storage/file_tensor.cpp:183-190 | It lists them by the first span that touches them, and within one span in ascending order |
| `Requests.MentionOrderIsUnique` | windows-port/storage/file_tensor.cpp:183-190 | No other list of these pages is in that order |
| `Requests.ByteIsCovered` | windows-port/storage/file_tensor.cpp:186-190 | Every byte of every span lies on a page of the union |
| `Residency.RequestRefines` | windows-port/storage/file_tensor.cpp:195-237 | The timestamp scans refine a recency list with a pinned set: hits move to the back in request order, then each missing page takes free room or replaces the oldest page outside the request |
| `Residency.HitRefines` | windows-port/storage/file_tensor.cpp:197 | A hit moves its page to the back of the list and no other |
| `Residency.LoadRefines` | windows-port/storage/file_tensor.cpp:226-237 | One load is one replacement in the list |
| `Residency.VictimIsOldest` | windows-port/storage/file_tensor.cpp:227-230 | The scan evicts exactly when the list is full, and then the oldest page outside the request |
| `Residency.VictimUnique` | windows-port/storage/file_tensor.cpp:227-230 | The slot to take is determined by the slots |
| `Residency.VictimExists` | windows-port/storage/file_tensor.cpp:231 | Pigeonhole: a missing page of a request no larger than the pool always has a slot |
| `Residency.RequestKeeps` | windows-port/storage/file_tensor.cpp:195-237 | After a request every page of it is resident, no page is mapped twice, and nothing appears that was not asked for |
| `Residency.LoadAllKeeps` | windows-port/storage/file_tensor.cpp:225-237 | In the middle of a request no page of it already resident is lost |
| `Residency.MappedAfter` | windows-port/storage/file_tensor.cpp:227-237 | A load maps one page more, less the one it evicts |
| `Residency.MappedAfterHit` | windows-port/storage/file_tensor.cpp:197 | A hit maps none |
| `Residency.TakenSlots` | windows-port/storage/file_tensor.cpp:232-237 | What taking the victim's slot does to all slots |
| `Residency.MappedCountsPages` | windows-port/storage/file_tensor.cpp:90 | The number of mapped slots is the number of resident pages |
| `Residency.MissingInOrder` | windows-port/storage/file_tensor.cpp:195-199 | The missing pages are collected in request order |
| `Residency.RequestStamps` | windows-port/storage/file_tensor.cpp:195-237 | The order of use after a request, in stamps and without any list: its pages are stamped later than all others, those that were resident before those that were not, either kind in request order |
| `Residency.UnaskedKeepStamps` | windows-port/storage/file_tensor.cpp:195-237 | and a page that was not asked for keeps its stamp |
| `HostCache.CachedAreRecent` | windows-port/storage/file_tensor.cpp:239-249 | Between requests a page is in a buffer if and only if fewer other pages were loaded since its last load than there are buffers |
| `HostCache.HitFollows` | windows-port/storage/file_tensor.cpp:240-249 | A host hit, by its new stamp, keeps the stamps of the buffers in the order of the loads |
| `HostCache.MissFollows` | windows-port/storage/file_tensor.cpp:242-258 | and so does a read into the least recently used lane outside the batch, whose page is then the one loaded the longest time ago |
| `HostCache.LeastFreeIsVictim` | windows-port/storage/file_tensor.cpp:242-245 | The scan for a lane, with lanes in flight skipped and empty ones stamped zero, is the scan for a slot with the batch pinned |
| `HostCache.HeadFollows` | windows-port/storage/file_tensor.cpp:207-217 | Completing the head of the batch changes nothing about what the buffers hold or will hold |
| `HostCache.RecentIsListed` | windows-port/storage/file_tensor.cpp:239-249 | The recency list of the loads holds exactly the recent pages |
| `HostCache.HitsAndMisses` | windows-port/storage/file_tensor.cpp:249 | Host hits and file reads are the hits and misses of a recency list of as many pages as there are buffers |
| `FileTensors.MoreBuffersServeMore` | windows-port/storage/file_tensor.cpp:148 | Over any loads more buffers serve no fewer pages and no fewer bytes |
| `Budget.ResidentIffRecent` | windows-port/storage/file_tensor.cpp:195-237 | On runs of one-chunk requests n slots hold exactly the n most recent distinct pages: those since whose last use fewer than n other pages were used |
| `Budget.Inclusion` | windows-port/storage/file_tensor.cpp:133 | On the same runs a larger pool holds every page a smaller one holds |
| `Budget.MissesFall` | windows-port/storage/file_tensor.cpp:133 | No anomaly: on no such run does a larger pool miss more often |
| `Budget.RunIsSuffix` | windows-port/storage/file_tensor.cpp:195-237 | The recency list of n slots is the last n entries of the list of all pages ever used |
| `Budget.RankInHistory` | windows-port/storage/file_tensor.cpp:197 | What follows a page in that list is what was used since its last use |
| `Batches.ServeForm` | windows-port/storage/file_tensor.cpp:195-237 | One request of any size, in one piece: the youngest pages outside it that there is room for, then its own pages, hits before misses, each in request order |
| `Batches.StaysBehind` | windows-port/storage/file_tensor.cpp:195-200 | While the smaller pool holds the youngest pages of the larger, a request keeps it so if and only if both stamp its pages in the same order |
| `Batches.BehindAllAlong` | windows-port/storage/file_tensor.cpp:195-237 | The same for whole runs: all along if and only if in step all along |
| `Batches.WideInclusion` | windows-port/storage/file_tensor.cpp:133 | On every run in step, of requests of any size, the larger pool holds every page of the smaller |
| `Batches.WideMisses` | windows-port/storage/file_tensor.cpp:133 | and misses no more |
| `Batches.SinglesInStep` | windows-port/storage/file_tensor.cpp:133 | Requests of one page are always in step |
| `Batches.RunsRefine` | windows-port/storage/file_tensor.cpp:195-237 | The slots after any run of requests are in the order of the recency list after it, and miss as often |
| `Replays.Replay` | windows-port/storage/file_tensor.cpp:179-268 | The tensor itself, after any requests with consumers in between and no failure, has the slots and the miss counter of the run |
| `Replays.LargerBudget` | windows-port/storage/file_tensor.cpp:133 | Two tensors of one file serving the same requests in step, without failures: the larger one misses no more and holds every page of the smaller |
| `Replays.LargerBudgetOneChunk` | windows-port/storage/file_tensor.cpp:133 | For requests of one chunk each that holds unconditionally, and the smaller tensor holds exactly the most recent pages |
| `Anomaly.LargerPoolLoses` | windows-port/storage/file_tensor.cpp:195-200 | For requests of several pages neither inclusion nor the order of misses holds in general: eleven requests for ranges of eight pages after which six slots have loaded 19 pages and five 18, and five slots hold a page that six do not |
| `Anomaly.NotInStep` | windows-port/storage/file_tensor.cpp:195-200 | Those requests are not in step |
| `Anomaly.ComputeFrom` | windows-port/storage/file_tensor.cpp:195-237 | The executable form of a run computes what the pools do |
| `ShimTables.Table.Insert` | windows-port/shim/greenboost_cuda_shim_win.c:230-256 | For any pointer: succeeds exactly when some slot is not live, and then writes the first such slot of its probe and nothing else. A pointer that is no mark and not in the table is thereby added to the map, every key stays findable and the tombstone counter stays exact |
| `ShimTables.Table.Lookup` | windows-port/shim/greenboost_cuda_shim_win.c:313-338 | For any pointer: found exactly when its probe meets it before an empty slot; with unbroken chains that is exactly the keys of the map, with their information |
| `ShimTables.Table.Remove` | windows-port/shim/greenboost_cuda_shim_win.c:264-310 | For any pointer: found likewise; removes exactly the key, returns what was recorded, and reclaims beyond the threshold. Keys stay findable if and only if this call does not reclaim or finds the table reclaimable; the counter stays exact if and only if the pointer was not the tombstone mark itself, or the call reclaims |
| `ShimTables.Table.Reclaim` | windows-port/shim/greenboost_cuda_shim_win.c:346-391 | The in-place sweep computes `Reclaimed`: same map, no tombstone, counter zero, every key findable if and only if the table was reclaimable |
| `ShimTables.Table.ReseatSlot` | windows-port/shim/greenboost_cuda_shim_win.c:370-382 | Takes one entry out and puts it into the first empty slot of its probe sequence |
| `Reclaiming.ReclaimKeeps` | windows-port/shim/greenboost_cuda_shim_win.c:346-391 | Reclaiming always keeps exactly the live entries and leaves no tombstone. It keeps every key findable if and only if the table before it is `Reclaimable`: move each wrapped entry, in slot order, to the first free slot on its own side of the table's end; each that finds none must hash into an upper part of the table that is solid, every slot from some `a` up holding an entry hashed between `a` and that slot, unless the table is full |
| `Reclaiming.SweepMatches` | windows-port/shim/greenboost_cuda_shim_win.c:370-382 | While it passes, the sweep agrees with those moves on all slots to come and on which entries wrap |
| `Reclaiming.SolidStays` | windows-port/shim/greenboost_cuda_shim_win.c:370-382 | The sweep never touches a solid upper part |
| `Reclaiming.FullSideIsSolid` | windows-port/shim/greenboost_cuda_shim_win.c:370-382 | An upper part that the sweep leaves without a gap, above an empty slot, is solid |
| `Reclaiming.NoWrapIsReclaimable` | windows-port/shim/greenboost_cuda_shim_win.c:370-382 | In particular a table without wrapped entries is reclaimable |
| `Reclaiming.SettledReclaimKeeps` | windows-port/shim/greenboost_cuda_shim_win.c:346-391 | and so is one whose run of slots across the end of the table has neither gap nor tombstone |
| `Reclaiming.SweepIdles` | windows-port/shim/greenboost_cuda_shim_win.c:370-382 | Without tombstones no entry moves, wrapped or not |
| `Reclaiming.WrappedReclaimLosesKey` | windows-port/shim/greenboost_cuda_shim_win.c:370-382 | The source's sweep is wrong for wrapped entries: an eight-slot table with unbroken chains that is not reclaimable |
| `ProbeTables.SlotTaken` | windows-port/shim/greenboost_cuda_shim_win.c:241-250 | Taking the first free slot of a probe adds the key and keeps all chains |
| `ProbeTables.SlotDropped` | windows-port/shim/greenboost_cuda_shim_win.c:289-295 | Marking a slot removes the key and keeps all chains |
| `ProbeTables.MeetsPresent` | windows-port/shim/greenboost_cuda_shim_win.c:277-281 | With unbroken chains a probe meets exactly the keys that are in the table |
| `ProbeTables.HtHashFits` | windows-port/shim/greenboost_cuda_shim_win.h:157-160 | The multiplicative hash of any pointer is a slot of the 131072-slot table |
| `ProbeTables.VisitIsRemainder` | windows-port/shim/greenboost_cuda_shim_win.c:237 | Masking the sum visits the remainder |
| `ProbeSteps.Always` | windows-port/shim/greenboost_cuda_shim_win.c:230-391 | At every moment of every run, interleaved slot visit by slot visit and starting wherever the invariant holds, with reclaims that find the table reclaimable and hurt no operation in progress: chains unbroken, no key twice, tombstone counter exact, contents explained by the completed insertions and removals |
| `ProbeSteps.StartHolds` | windows-port/shim/greenboost_cuda_shim_win.h:104-121 | The empty table is such a start |
| `ProbeSteps.NextKeeps` | windows-port/shim/greenboost_cuda_shim_win.c:230-391 | Every step of every thread, and every such reclaim, keeps that |
| `ProbeSteps.SweepKeepsInv` | windows-port/shim/greenboost_cuda_shim_win.c:346-391 | A reclaim restores the invariant if and only if the table is reclaimable and no operation in progress is hurt: the slots an insertion has passed stay taken, a key present throughout stays ahead of its search |
| `ProbeSteps.QuietSweep` | windows-port/shim/greenboost_cuda_shim_win.c:346-391 | When no operation has visited a slot yet: if and only if the table is reclaimable |
| `ProbeSteps.InsertVisitKeeps` | windows-port/shim/greenboost_cuda_shim_win.c:236-253 | One slot visit of an insertion, under that slot's lock, keeps the invariant |
| `ProbeSteps.InsertionEnds` | windows-port/shim/greenboost_cuda_shim_win.c:236-256 | In any steps, whatever the other threads and reclaims do meanwhile: an insertion that reports failure met a live entry in each of the table's slots at the moment it visited it, and one that reports success took a slot that was not live |
| `ProbeSteps.SearchVisitKeeps` | windows-port/shim/greenboost_cuda_shim_win.c:270-307 | One slot visit of a lookup or removal |
| `ProbeSteps.NeverMissed` | windows-port/shim/greenboost_cuda_shim_win.c:313-338 | A key in the table throughout a lookup or removal is never missed by it |
| `ProbeSteps.ExactlyOneRemoval` | windows-port/shim/greenboost_cuda_shim_win.c:264-310 | Of any number of concurrent removals of a key inserted once exactly one succeeds by the time one of them has ended |
| `ProbeSteps.SuccessesAreRemovals` | windows-port/shim/greenboost_cuda_shim_win.c:283-303 | The count of removals of a key is the number of removal operations that reported success |
| `ProbeSteps.FoundInfo` | windows-port/shim/greenboost_cuda_shim_win.c:327-331 | A search returns what was inserted with the key |
| `ReclaimRaces.SearchAcrossReclaim` | windows-port/shim/greenboost_cuda_shim_win.c:346-391 | A search at step i when a reclaim comes, run to its end, misses if and only if no key lies at step i or later without a gap between; if the table was reclaimable, if and only if its key is no longer ahead |
| `ReclaimRaces.InsertAcrossReclaim` | windows-port/shim/greenboost_cuda_shim_win.c:346-391 | An insertion at step i when a reclaim comes seats its key where it can be found if and only if the slots it has passed are still taken |
| `ReclaimRaces.SearchOutcome` | windows-port/shim/greenboost_cuda_shim_win.c:270-307 | What a search run to its end finds |
| `ReclaimRaces.InsertOutcome` | windows-port/shim/greenboost_cuda_shim_win.c:236-253 | Where an insertion run to its end puts its key: in the first slot from its step on that is not live; it fails if and only if there is none |
| `ReclaimRaces.ReclaimBetweenVisitsMisses` | windows-port/shim/greenboost_cuda_shim_win.c:346-391 | A run, without any wrapped entry, in which a lookup across a reclaim misses a key that is in the table all the time |
| `ReclaimRaces.ReclaimBetweenVisitsLoses` | windows-port/shim/greenboost_cuda_shim_win.c:346-391 | A run, without any wrapped entry, in which an insertion across a reclaim reports success and leaves its key where no search finds it |
| `UvmAccounting.Shim.AllocManaged` | windows-port/shim/greenboost_cuda_shim_win.c:600-644 | The counter grows by the size exactly when the allocation is recorded; a full table gives the memory back and reports out of memory |
| `UvmAccounting.Shim.Free` | windows-port/shim/greenboost_cuda_shim_win.c:550-593 | For any pointer: handled exactly when its probe meets it, which for keys is when recorded. The caller gets the answer to the call that the record asks for, of freeing managed memory or of unregistering a mapped buffer, and success if it asks for neither; exactly on success the record goes, with it the bytes of managed memory, and the driver's buffer is handed back; the counter always equals the live managed bytes; keys stay findable unless the call reclaims a table that is not reclaimable. Pointer 1 is taken for a recorded one where a tombstone lies on its probe |
| `UvmAccounting.Shim.Restore` | windows-port/shim/greenboost_cuda_shim_win.c:569 | The re-insertion after a rejected free cannot fail |
| `UvmAccounting.Shim.GetInfo` | windows-port/shim/greenboost_cuda_shim_win.c:722-743 | Exactly what is reported: the smallest of the new total, free plus the rest of the allowance, and free plus the memory beyond the reserve; so the extra plus the outstanding bytes never exceeds the larger of allowance and outstanding bytes |
| `UvmAccounting.AfterRemove` | windows-port/shim/greenboost_cuda_shim_win.c:264-310 | A removal, reclaimed or not, takes exactly the entry's bytes out and leaves a free slot |
| `UvmAccounting.SweepWeighs` | windows-port/shim/greenboost_cuda_shim_win.c:346-391 | A reclaim moves entries but no bytes |
| `Launcher.RoundTrip` | windows-port/tools/launch.cpp:47-51 | With the rule for program names on the first token, parsing the command line returns the list of strings if and only if the program's name has no quote and no trailing backslash |
| `Launcher.ArgumentsOfJoined` | windows-port/tools/launch.cpp:47-51 | With the rule for arguments throughout, parsing undoes quoting for every list of strings |
| `Launcher.ScanEscaped` | windows-port/tools/launch.cpp:14-20 | Inside the quotes, parsing undoes the doubling of backslashes before a quote and at the end |
| `Launcher.ScanQuoted` | windows-port/tools/launch.cpp:10-22 | One quoted argument is read back whole |
| `Launcher.ProgramQuoted` | windows-port/tools/launch.cpp:10-22 | The program rule reads a quoted name back if and only if it is plain |
| `Launcher.Quote` | windows-port/tools/launch.cpp:10-22 | The loop with its running count of backslashes computes the quoted form |
| `Launcher.Command` | windows-port/tools/launch.cpp:47-51 | The loop joins the quoted arguments with single spaces |
| `TierAccounting.Session` | greenboost.c:592-853 | Any sequence of ioctls and releases, with any failure in between: tier counters and buffer count are the sums over live buffers, tier 2 exceeds its cap by less than a huge page, tier 3 never exceeds its own on runs without eviction, and the frames held are exactly the bytes accounted for |
| `TierAccounting.GbDevice.AllocBuf` | greenboost.c:458-587 | Which tier, which page size, which flags and which error, and exactly when it succeeds, from free memory, the two caps and what the system provides; failure frees every frame; on success in tier 2 the cap is passed if and only if huge pages were used and the rounded size does not fit |
| `TierAccounting.GbDevice.PinUserBuf` | greenboost.c:389-452 | The cap is checked on the rounded size; a short pin is undone frame by frame, and the kernel's own error passed on; success exactly when all pages were pinned, with the flags asked for |
| `TierAccounting.GbDevice.Release` | greenboost.c:266-307 | Frames, list, id and counters lose exactly this buffer |
| `TierAccounting.GbDevice.Export` | greenboost.c:636-666 | Which of the three steps decides the result; failure before the descriptor exists undoes the allocation entirely; after it the buffer is the caller's |
| `TierAccounting.GbDevice.IoctlAlloc` | greenboost.c:597-667 | Exactly when it succeeds and when the descriptor or the copy of the result fails; success, or a failed copy, leaves exactly one buffer more, of the tier, page size, size and flag asked for, under its id; any other error leaves buffers and frames as they were |
| `TierAccounting.GbDevice.IoctlPin` | greenboost.c:669-737 | The same for pinned user memory |
| `TierAccounting.GbDevice.Madvise` | greenboost.c:792-824 | Hot moves to the head, cold to the tail, even after an eviction; freeze marks; the rest is an error without effect |
| `TierAccounting.GbDevice.Evict` | greenboost.c:826-853 | Moves the bytes of a tier 2 buffer to tier 3 whatever tier 3 holds and whether or not the buffer is frozen; the sum of both tiers is kept |
| `TierAccounting.GbDevice.NothingLeft` | greenboost.c:266-307 | With the last buffer released both counters, the count, the list and the ids are empty and no frame is held |
| `TierAccounting.RoundedFits` | greenboost.c:484-516 | A request under the cap exceeds it by less than one unit once rounded |
| `TierAccounting.Overshoot` | greenboost.c:484-548 | The bound on tier 2 is met on the device: a request of small pages up to one page below the cap, then one byte on the 2 MB path |
| `TierAccounting.BytesArePages` | greenboost.c:458-587 | Both counters are whole numbers of pages |
| `TierAccounting.RoundUpIsLeast` | greenboost.c:511-512 | The rounded size is the least multiple of the page size that is not below the size |
| `TierAccounting.WithoutSplit` | greenboost.c:809-812 | Taking a buffer off the list leaves the others in their order |
| `HandleCleanup.Driver.Cleanup` | windows-port/driver/greenboost_win.c:1340-1366 | Frees exactly the live ids whose bit is set and below which the handle owns fewer ids than it counts; on orderly runs these are exactly the closing handle's live buffers, and the remaining handles stay accurate |
| `HandleCleanup.Driver.ReleaseOwned` | windows-port/driver/greenboost_win.c:1340-1366 | The scan itself, for any count and any bits: that exact effect, and every live buffer whose bit is set is freed if and only if each of them is reached |
| `HandleCleanup.Driver.HandleAlloc` | windows-port/driver/greenboost_win.c:817-895 | Succeeds if and only if the size is admissible, memory, mapping and output buffer are there and the table has an id; success registers one buffer under that id and sets its bit; otherwise which of these was missing, and failure after registration undoes it; an id in use is given out only after the counter has wrapped |
| `HandleCleanup.Driver.HandleFree` | windows-port/driver/greenboost_win.c:905-941 | Frees a live id without asking whose it is; orderly exactly as long as it was the handle's own |
| `HandleCleanup.Driver.RegisterBuf` | windows-port/driver/greenboost_win.c:150-179 | The next id up to the end of the table, free or not; then the first free slot, or none exactly when the table is full |
| `HandleCleanup.Driver.ForeignFreeLeaks` | windows-port/driver/greenboost_win.c:905-941 | An instance: a handle with one buffer that frees somebody else's id leaves its own buffer allocated when it closes |
| `HandleCleanup.Driver.NothingLeaks` | windows-port/driver/greenboost_win.c:1340-1366 | On orderly runs, once every handle is closed no buffer is left |
| `HandleCleanup.ReachedAll` | windows-port/driver/greenboost_win.c:1352-1362 | The early exit reaches every owned id if and only if the handle counts no fewer than it owns |
| `HandleCleanup.ScanEnds` | windows-port/driver/greenboost_win.c:1352-1362 | Where the scan stops, nothing more would be reached |
| `HandleCleanup.FileContext.SetBuf` | windows-port/driver/greenboost_win.h:271-276 | Adds the id and one to the count, set or not before |
| `HandleCleanup.FileContext.ClearBuf` | windows-port/driver/greenboost_win.h:278-283 | Removes the id and one from the count, set or not before |
| `HandleCleanup.FileContext.OwnsBuf` | windows-port/driver/greenboost_win.h:285-289 | Tells exactly whether the id is in the set |
| `HandleCleanup.MembersUpdate` | windows-port/driver/greenboost_win.h:271-283 | Word and bit of an id are its own |
| `HandleCleanup.SetBit` | windows-port/driver/greenboost_win.h:273 | Setting a bit of a 32-bit word by mask adds that bit to the set of its bits and changes no other |
| `HandleCleanup.ClearBit` | windows-port/driver/greenboost_win.h:280 | Clearing it, likewise |
| `HandleCleanup.MaskIsShift` | windows-port/driver/greenboost_win.h:273 | The mask is a one shifted left by the bit number |

## Left out

- ShimTables.Table.Insert: what a duplicate, or one of the two marks inserted as a pointer, does to the map is left to the slot effect that the contract gives; the driver hands out no such pointer.
- ProbeTables.VisitIsRemainder: stated for the shim's own table size; the other results hold for any size, with the visit defined by wrapping.
- ProbeSteps.Always: reclaims that hurt an operation in progress are outside; `SweepKeepsInv` and `ReclaimRaces` say exactly which these are and what happens then. The 64 lock stripes become atomic slot visits, which is what holding the lock of a slot provides; searches for the two marks are left to `ShimTables`.
- ProbeSteps.ExactlyOneRemoval: says that one removal succeeds by the end of one that began with the key present, not which.
- Budget.MissesFall: one-page runs; `Batches.WideMisses` has the general condition, sufficient for the misses and exact for the order of pages.
- Replays.LargerBudget: runs without failures, on tensors just opened.
- Sessions.SideBySide: runs without driver failure, as for `LargerHostCache`; which call fails may differ between the two tensors.
- Sessions.Session: a consumer of pages that are not resident is a client error that the interface forbids, and is not submitted.
- FileTensors.FileTensor.RecordUse: a job on pages already evicted is waited for but not otherwise protected; it was a client error before.
- FileTensors.FileTensor.AcquireMany: the clock and the counters are unbounded, where the source has 64 bits; the thread and context comparison is one flag, and its own driver query does not fail.
- FileTensors.FileTensor.Open: the driver calls between two checks of the arguments are one answer each; hardware compression is one of the capabilities.
- FileTensors.FileTensor.Close: cleanup of a read whose cancellation is refused is a wait for its end; failures of the release calls, which the source reports to stderr, are not modelled.
- UvmAccounting.Shim.AllocManaged: prefetching and device queries are hints without effect on the accounting, and are not modelled; the 64-bit counter does not wrap.
- UvmAccounting.Shim.GetInfo: sums of 64-bit sizes do not wrap; the allowance of a device and the system's answer are parameters.
- UvmAccounting.Shim.Free: sequential; the driver ioctl that frees the pages of an unmanaged buffer is one of the results, and its own outcome, which the source ignores, is not modelled.
- Launcher.RoundTrip: the running count of backslashes is unbounded, where the source has 32 bits; the 32767-character limit of a command line is not modelled.
- TierAccounting.Session: ioctls one at a time and `dma_buf_export` succeeding. GET_INFO, RESET and POLL_FD change none of this state.
- TierAccounting.GbDevice.IoctlAlloc: the failure path of `dma_buf_export` (`greenboost.c:624-634`) does not undo the list membership and is not modelled.
- TierAccounting.GbDevice.IoctlPin: nor is its failure path there (`greenboost.c:696-704`).
- TierAccounting.GbDevice.AllocBuf: buffers are values in a map by address and list and ids hold addresses, so aliasing through pointers is not modelled; page counts are unbounded, where the source has 32 bits; the jiffies stamps are left out.
- HandleCleanup.Driver.Cleanup: that bits and count are those of the ids given to the handle is an invariant of orderly runs, where each handle frees only its own ids and no id in use is given out again. A request without a file object is not modelled.
- HandleCleanup.Driver.HandleAlloc: the two tier allocators are one nondeterministic answer; pinned user memory registers, maps and records ownership in the same way and is not modelled separately. The driver's byte counters, its eviction and its reset are left out: eviction relabels the tier without moving the bytes, so no conservation law holds of them.
- HandleCleanup.FileContext.SetBuf: the count is unbounded, where the source has 32 bits.
- The Linux shim's own table, prefetch ring, watchdog, configuration, symbol redirection, Detours injection, installers, scripts, and the Python layers: input and output, or easy members.
