# A verified model of the gohbase client

gohbase is an HBase client. This project models the parts of it where a simple promise is kept by an
indirect route, and proves the promise for every input, every run or every interleaving:

- **Region names and the region cache.** `region_name.dfy`, `region_info.dfy`, `region_cache.dfy`: the
  comparator of region names is lexicographic order on (table, start key, suffix); the cache, a tree in
  that order, keeps the regions of a table disjoint; one predecessor probe finds what a linear search
  would find, and a probe with one contiguous run finds exactly the overlapping regions.
- **Availability of regions.** `availability.dfy`, `availability_runs.dfy`: goroutines that send, look up, lose and re-establish
  regions, as an interleaving of single shared accesses; a lookup is itself an rpc to the meta region and can
  wait for it. A region has at most one establisher, no nil channel is closed, and no waiter is left without
  somebody who can wake it, first waking the meta region where that is needed. A client that fails takes all
  its regions down.
- **Delivery of results.** `delivery.dfy`, `delivery_runs.dfy`: the region client's senders, batcher, receiver and `fail`, as
  an interleaving. A call is in exactly one place, gets at most one result, and is dropped for a reason only.
- **Multi requests.** `multi.dfy`, `multi_cells.dfy`: calls are grouped by region, their cellblocks are
  aligned with their actions, and each call of an answered request gets its own result, once.
- **SendBatch.** `send_batch.dfy`: results come back in the calls' own slots, whichever client they went
  to and in whatever order the clients are waited for.
- **Scans.** `scanner.dfy`, `scan_rows.dfy`, `scan_complete.dfy`: the scanner, its leases, whole rows out
  of fragments, termination and completeness of scans, and exactly which rows a reverse scan misses.
- **Wire formats.** `cellblock.dfy`, `cell_stream.dfy`, `mutation.dfy`, `compressor.dfy`: the KeyValue
  codec in both directions, the two encodings of a mutation, and the compressed block stream.

`bytes.dfy` and `sequences.dfy` hold byte strings with their order, and facts about filtered and sorted
sequences.

Conventions. A panic or a fatal log is an outcome of its own (`Panic`, `Fatal`, `Mismatch`, ...), never
a precondition. Byte strings are sequences of numbers below 256, and nil and empty byte slices are the
same. Unsigned arithmetic that can wrap is written with `Wrap`. Where the program iterates over a Go
map, the model chooses an element that is left, so every statement holds for every iteration order, and
for two loops over one map with two different orders. The region servers, the lookups, contexts and
timers are parameters or nondeterministic steps.

What is assumed of a region is what HBase guarantees of the rows of its meta table (`WellFormed`): the
name is `table,start_key,suffix` with a fully qualified table name, no comma in table or suffix, a suffix
that starts below `:`, at most 32767 bytes, and a non-empty key range.

Findings. Four promises hold under a condition only, and the model states the exact condition: `Next`
loses cells to an index out of range exactly when a partial fragment without cells begins a row and a later
fragment has cells; `valuesToCellblocks` panics exactly for a mutation that is not a delete and has a nil map of qualifiers;
a reverse scan misses exactly the rows that lie behind the padded start row of a region it leaves; and a
batch without any error is still reported as not OK exactly when a wait noticed the end of the context.
Where comments and code differ the model follows the code: the comment of `findClients` (rpc.go:273-281)
speaks of a BatchError, the code returns a flag; the comment of `SendBatch` (rpc.go:179-182) reads as if
allOK were true whenever every call completed.

## Model

| member | source | states |
|---|---|---|
| RegionName.FindCommaFromEnd | region/info.go:350-357 | finds the last comma after the offset; none is found exactly when there is none, which is the panic |
| RegionName.Compare | region/info.go:280-347 | panics exactly when the tables agree and a name lacks two commas; otherwise its sign is lexicographic order on (table, start key, suffix), for every reading of the names |
| RegionName.CompareKeys | region/info.go:314-346 | after equal tables, the sign is the order of start keys and then of suffixes |
| RegionName.PartsUnique | region/info.go:266-279 | a name can be read as table, start key and suffix in one way only |
| RegionName.OrderAntisymmetric | region/info.go:280-347 | the order is antisymmetric in sign, and zero on equal names only |
| RegionName.OrderTransitive | region/info.go:280-347 | the order is transitive |
| RegionInfo.WellFormedParts | rpc.go:552-570 | a region's name leaves room for a search key of its table |
| RegionInfo.SameFullyQualifiedTable | rpc.go:611-623 | the fully qualified name determines namespace and table |
| RegionInfo.OverlapMeansSharedKey | caches.go:184-190 | isRegionOverlap holds if and only if the two regions serve a common key of one table |
| RegionCache.Enumerator.Next | caches.go:210-222 | returns the current item and moves right; the end is sticky |
| RegionCache.Enumerator.Prev | caches.go:210-222 | returns the current item, or the one before the position after a missed seek, and moves left; the beginning is sticky |
| RegionCache.CreateRegionSearchKey | rpc.go:552-570 | is the name `table,key,:` with the key cut to fit a meta row; it panics exactly when the table leaves no room |
| RegionCache.SearchOrder | rpc.go:552-570 | a search key is equal to no region name and sorts after exactly the regions of the table that start at or before the key, truncated or not |
| RegionCache.KeyRegionCache.Seek | caches.go:134-140 | finds the first entry that does not sort before the key, and says whether a region has that name |
| RegionCache.KeyRegionCache.Get | caches.go:134-153 | returns the entry right before a search key, nothing if there is none, and is fatal exactly on an exact match |
| RegionCache.NoExactMatch | caches.go:134-153 | no well-formed region is called like a search key, so the fatal branches are unreachable |
| RegionCache.KeyRegionCache.OverlapProbe | caches.go:192-235 | stands at the predecessor of the new region's start, or at the first entry, and is never fatal |
| RegionCache.NothingBefore | caches.go:192-255 | no entry left of the probe overlaps the new region |
| RegionCache.NothingAfter | caches.go:192-255 | right of the probe, the first entry that does not overlap ends the overlapping run for good |
| RegionCache.KeyRegionCache.GetOverlaps | caches.go:192-255 | returns exactly the cached regions that overlap, in order, as a linear filter would, and is never fatal |
| RegionCache.KeyRegionCache.Delete | caches.go:315-326 | removes exactly the entry with the name |
| RegionCache.KeyRegionCache.Evict | caches.go:300-304 | one overlapped region leaves the tree and is marked dead |
| RegionCache.KeyRegionCache.EvictAll | caches.go:297-304 | after all evictions the cache is the old one without the overlaps and with the new region, and all overlaps are dead |
| RegionCache.KeyRegionCache.Put | caches.go:262-313 | the cache becomes exactly (old minus overlaps) plus the new region, with all evicted regions at most as young and marked dead, or it is unchanged and a cached region has the name or overlaps and is younger; the invariant is kept |
| RegionCache.KeyRegionCache.Del | caches.go:315-326 | removes exactly the region with the name, marks it dead, keeps the invariant |
| RegionCache.AfterPutInv | caches.go:262-313 | put keeps the cache strictly ordered and its regions disjoint |
| RegionCache.PutElements | caches.go:262-313 | a replacing put leaves exactly the entries that do not overlap, and the new region |
| RegionCache.PutRefusedIff | caches.go:262-285 | a region is refused if a cached one has its name or overlaps it and has a greater id, and is cached otherwise |
| RegionCache.PutNeverGoesBack | caches.go:262-313 | a key that is still hosted after a put is hosted by a region with at least as great an id |
| RegionCache.AfterDelInv | caches.go:315-326 | del keeps the invariant and every other entry |
| RegionCache.RunInv | caches.go:262-326 | after any sequence of put and del from empty, entries are strictly sorted and regions of a table disjoint |
| RegionCache.HostUnique | rpc.go:523-549 | at most one cached region hosts a key |
| RegionCache.PredecessorHosts | rpc.go:523-549 | if any cached region hosts the key, it is the predecessor of the search key |
| RegionCache.Client.GetRegionFromCache | rpc.go:523-549 | returns a region if and only if it is the cached one of that table that hosts the key, for every table without a comma and every key; fatal only for a table name with no room for a key |
| Availability.NextKeepsInv | rpc.go:111-159 | every step of every goroutine keeps: owners and goroutines agree, owned regions are unavailable, shared unavailable regions are owned until the client closes, waiters wait on the right channel, the meta and the admin region do not die and are released with a client |
| Availability.RunInv | rpc.go:671-804 | the invariant holds after every run from a fresh client |
| Availability.OneEstablisher | rpc.go:671-804 | in every interleaving a region has at most one establisher and is unavailable while it has one |
| Availability.NeverPanics | region/info.go:189-195 | MarkAvailable never closes a nil channel |
| Availability.NoLostWakeup | rpc.go:111-159 | until the client is closed, a goroutine that waits on an open channel waits on a region that has an establisher |
| Availability.PlanWorks | rpc.go:671-804 | unless it is a lookup that waits for the meta region, an owner has an enabled step that releases its region, hands it on, or comes closer to releasing it; the lookup rpc never goes round in circles |
| Availability.BlockedOnMeta | rpc.go:573-609 | a lookup that waits for the meta region waits on its current channel, and another goroutine owns the meta region and is not waiting itself |
| Availability.ReleasedWithClient | rpc.go:767-779 | until the client is closed, the meta and the admin region become available only with a client set |
| Availability.OwnerCanWake | rpc.go:625-634 | until the client is closed, from every state that keeps the invariant, finitely many steps close the channel that waiters of an owned region wait on, each a step of the goroutine that then owns the region or, where it is looked up, the meta region |
| Availability.WaitersCanBeWoken | rpc.go:111-159 | so it is for every shared unavailable region in every run of a client that is not closed |
| AvailabilityRuns.ClientDownMarksAll | rpc.go:403-418 | in every run, once a goroutine has taken a client down, the client is forgotten and every region registered for it has been made unavailable |
| AvailabilityRuns.FailureTakesClientDown | rpc.go:351-363 | a ServerError of an rpc or a probe, or a dial that fails, takes the client down: by the time it is dealt with, its region and all regions of the client have been made unavailable |
| AvailabilityRuns.NotServedIsMarked | rpc.go:339-362 | after a NotServingRegionError, or a ServerError of the master, the region has been made unavailable before the rpc goes on |
| AvailabilityRuns.AnswersDecide | rpc.go:89-108 | an rpc that is told to retry goes back and is not over; one that has its answer, or whose context ended, is over, or its lookup goes on |
| AvailabilityRuns.DownedHasNoClient | rpc.go:403-418 | in every run, a region that clientDown hands to an establisher has lost its client |
| AvailabilityRuns.ConnectedMeans | rpc.go:760-779 | a region is connected only after the client was dialed and, but for the admin region, a probe was answered without one of the three errors |
| AvailabilityRuns.EvictedLoseClients | rpc.go:502-511 | once a goroutine is done with a put, every evicted region was taken from its client |
| AvailabilityRuns.EvictedStayDead | rpc.go:688-692 | a region that was evicted, or that meta no longer knows, is dead ever after |
| AvailabilityRuns.DeadIsLookedUpAgain | rpc.go:145-149 | an rpc that waited for a region which turns out to be dead goes back to look its region up again |
| AvailabilityRuns.ClientsKnowTheirRegions | rpc.go:746-758 | a region has a client, and rpcs go to a client, only after the region was entered in the client's set, where it still is unless it was taken out since; the admin region has its own connection |
| Delivery.NextKeepsInv | region/client.go:279-453 | every step of senders, batcher, receiver and fail keeps: one holder per unanswered call, one result per answered call, distinct ids, nothing registered after the sweep but by senders whose write must fail |
| Delivery.RunInv | region/client.go:198-233 | the invariant holds after every run |
| Delivery.TakeKeeps | region/client.go:441-453 | a sender whose send failed has to answer exactly the calls that were still registered under its id, which is free afterwards |
| Delivery.SwapKeeps | region/client.go:306-322 | fail takes over exactly the calls that are registered, and leaves every goroutine the calls it has |
| Delivery.ExactlyOnePlace | region/client.go:198-233 | in every run, every submitted call is with exactly one holder, or answered, or dropped |
| Delivery.AtMostOneResult | region/client.go:433-439 | no call gets two results |
| Delivery.NothingStranded | region/client.go:279-322 | when the client has failed and its goroutines are done, every call was answered or dropped |
| DeliveryRuns.DroppedForAReason | region/client.go:475-528 | in every run, a dropped call was dropped by a step with one of five reasons: its context or its batch's ended while it was queued, it had expired when its multi was sent or when its own response came, or inFlightDown failed on its response |
| DeliveryRuns.ExpiredByItself | region/client.go:205-212 | a context is expired in the model only after a step in which it expired |
| DeliveryRuns.GoodResponseKept | region/client.go:514-528 | after an inFlightDown that went well, every call of a multi and every call that is still wanted is with the receiver |
| DeliveryRuns.ResponsesAreDelivered | region/client.go:475-528 | in every run, once the receiver is done with such a response, these calls have exactly one result |
| DeliveryRuns.BrokenConnectionFailsTheClient | region/client.go:441-473 | after a ServerError of a send or any error of the connection on the receiving side, the client has failed before the goroutine goes on |
| DeliveryRuns.NotSentAfterClose | region/client.go:198-218 | once the done channel is closed, a call that QueueRPC has not sent is answered or given up and never sent |
| DeliveryRuns.SinglesAreAlone | region/client.go:340-431 | in every run, what is sent and is not a multi is one call |
| DeliveryRuns.ExpiredCallsAreNotSent | region/multi.go:79-84 | what is registered of a multi are exactly its calls whose contexts have not expired |
| Multi.ActionsOfExact | region/multi.go:79-115 | the actions of a region are exactly its calls that were not expired, with their messages and indices from 1, in the order they were added |
| Multi.BlocksOfActions | region/multi.go:86-99 | the cellblocks collected for a region are those of its actions, in order |
| Multi.SizesAddUp | region/multi.go:92-99 | the sizes of the regions add up to the size of the calls, in any order of regions |
| Multi.Batch.constructor | region/multi.go:45-49 | a new batch is empty and has its queue size |
| Multi.Batch.Add | region/multi.go:282-285 | appends the calls and reports whether the batch is full |
| Multi.Batch.Collect | region/multi.go:72-115 | drops the expired calls, collects actions and cellblocks by region, sums the sizes; panics exactly for a call that cannot be batched |
| Multi.Assemble | region/multi.go:117-143 | for any order of the map: one RegionAction for each region with calls, remembered in order, and cellblocks in the order of the actions |
| Multi.Batch.ToProto | region/multi.go:72-144 | the request has every live call once under its region in order; the cellblocks are those of the actions in request order; the size is their total length |
| Multi.Batch.Free | region/multi.go:25-36 | the batch goes back empty |
| Multi.FailAll | region/multi.go:218-226 | an error goes to every call that was not dropped, once |
| Multi.FailRegion | region/multi.go:233-248 | a region exception goes to the calls of that region and no other |
| Multi.DispatchResults | region/multi.go:250-277 | each result or exception goes to the call with its index, with its own value; it is fatal exactly for an index with no call |
| Multi.Dispatch | region/multi.go:232-278 | what each call receives from a whole response, and exactly when a response is fatal |
| Multi.Batch.ReturnResults | region/multi.go:215-279 | an error reaches every call; a response is dispatched part by part; the batch is freed in every case |
| Multi.ShareIs | region/multi.go:232-278 | a part of a well-formed response has something for a call if and only if it is about the call's region, and then exactly one outcome |
| Multi.EveryCallAnswered | region/multi.go:215-299 | for every request and every well-formed response to it, nothing is fatal, every call that was sent gets exactly one outcome, the exception of its region or else the result or the exception of its own action, and no other call gets any |
| Multi.Exchange | region/multi.go:72-279 | the batch object end to end: every call that had not expired gets exactly one result, its own, and the expired ones none |
| MultiCells.ReadResult | region/multi.go:189-209 | the next cells of the buffer are the next result's |
| MultiCells.ReadRegion | region/multi.go:174-210 | the results of a region are checked and read in order |
| MultiCells.DeserializeMulti | region/multi.go:161-213 | accepts well-formed responses only; each result gets exactly the cells printed for it, in response order, and the bytes read are theirs |
| SendBatch.CheckOne | rpc.go:210-232 | a slot is refused as a duplicate of the first equal call, for another table, or as not batchable, in this order of precedence, or is not executed so far |
| SendBatch.CheckBatch | rpc.go:207-235 | the batch goes on if and only if its calls are distinct, of one table and batchable; every slot has its reason |
| SendBatch.FindClients | rpc.go:282-297 | calls are partitioned by client in batch order; a call without client gets the error in its slot and the others are still looked up |
| SendBatch.PositionsExact | rpc.go:282-297 | the group of a client is exactly its calls, in batch order |
| SendBatch.QueueAll | rpc.go:249-255 | every client is given its calls, once |
| SendBatch.WaitForCompletion | rpc.go:299-337 | each call's message and error as received, or the context's error, go to its slot and no other slot changes; errors are handled with the client; ok if and only if every wait brought a result without error |
| SendBatch.SeenByPosition | rpc.go:299-337 | waiting client by client gives each call what waiting in batch order gives it |
| SendBatch.WaitForAll | rpc.go:257-268 | the slots of all calls are final, in any order of clients |
| SendBatch.SendBatch | rpc.go:183-271 | the complete results with the received messages and errors, what was queued where, and which errors were handled |
| SendBatch.NilErrorIff | rpc.go:177-182 | slot i has a nil error if and only if the batch was sent and call i's own result was received without error; no slot stays not executed after that |
| SendBatch.ErrorsExact | rpc.go:307-331 | the error in a slot of a batch that was sent is the remote one if and only if that one was received, and the context's if and only if nothing was; the message is the received one |
| SendBatch.ReadyResultsAreTaken | rpc.go:319-334 | a result that is there is taken, also after the end of the context and also for the call at which the end was noticed |
| SendBatch.ReasonsExact | rpc.go:209-235 | each slot of a refused batch says exactly which of the four cases it is: a repeated call, naming the first occurrence, another table, not batchable, or not executed |
| SendBatch.AllOkIff | rpc.go:179-182 | allOK holds if and only if no slot has an error and no wait noticed the end of the context |
| SendBatch.CancellationHidesSuccess | rpc.go:302-334 | the converse alone fails: one call, no error, and not allOK |
| Scanner.Scanner.constructor | scanner.go:113-120 | a scanner starts at the start row with no region scanner |
| Scanner.Scanner.CloseRegionScanner | scanner.go:305-329 | closes the region scanner that is open, keyed by the start row, unless the scan closes itself |
| Scanner.Scanner.Close | scanner.go:252-260 | closes once, and closes the region scanner |
| Scanner.Scanner.Request | scanner.go:176-212 | opens a region scanner at the start row or continues the open one |
| Scanner.Scanner.Update | scanner.go:215-250 | takes the lease, and at the end of a region returns it and moves to the next start row |
| Scanner.Scanner.IsDone | scanner.go:263-292 | the scan is over when the server says so, or after the last region that meets the range |
| Scanner.Scanner.Fetch | scanner.go:38-59 | brings the next fragments to come, skipping empty responses; it ends with the end or an error and then the scanner is closed |
| Scanner.Scanner.Peek | scanner.go:61-77 | shows the next fragment to come and takes none |
| Scanner.Scanner.Shift | scanner.go:79-86 | drops the fragment that was shown |
| Scanner.Scanner.Coalesce | scanner.go:90-111 | joins a fragment of the same row, ends the row at a fragment of another |
| Scanner.Scanner.Turn | scanner.go:152-173 | one turn of the loop takes exactly one fragment and goes on, or ends with the group that was begun |
| Scanner.Scanner.NextWhole | scanner.go:152-174 | returns the next group of fragments as one result, across fetches and regions, and consumes exactly that group |
| Scanner.Scanner.Next | scanner.go:129-174 | with partial results one fragment, otherwise one group; closes when the context is done |
| ScanRows.ReadAll | scanner.go:129-174 | calling Next to the end returns every fragment one by one with partial results allowed, and otherwise the groups of everything fetched; it reports the end or an error as fetching did, and ends in an index out of range if and only if rows are put together and an empty partial fragment begins one and a later fragment has cells |
| ScanRows.GroupConserves | scanner.go:90-111 | for all fragments: one call returns exactly the cells of the fragments it takes, or there is an index out of range |
| ScanRows.NextConservesCells | scanner.go:61-111 | for all fragments: the cells of successive results begin the cells of the fetched fragments, in order, and are all of them if and only if there is no index out of range |
| ScanRows.PanicsIff | scanner.go:90-111 | a fold over rows and partial flags decides whether an empty partial fragment begins a row and a later fragment has cells |
| ScanRows.GroupFollows | scanner.go:129-174 | a call to Next follows that fold: it panics, ends, or leaves the rest to the next call, as the fold says |
| ScanRows.EmptyPartialLosesCells | scanner.go:99-103 | it happens: two fragments on which Next panics and a cell is lost |
| ScanRows.NonemptyPartialsAreSafe | scanner.go:99-103 | fragments whose partial ones all have cells are safe |
| ScanRows.WholeIs | scanner.go:90-111 | a row put together has all its cells, is not partial, and is stale if any fragment was |
| ScanRows.RowsComeBackWhole | scanner.go:129-174 | rows whose fragments are contiguous, non-empty and flagged partial but the last come back exactly once and whole |
| Scanner.RoundKeepsLease | scanner.go:215-260 | whatever the reply, what the scanner believes to hold is what it holds |
| Scanner.LeasesAreReturned | scanner.go:294-329 | one lease at a time, continued and closed with its id and the start row it was opened with; none is left after the end, an error or Close |
| Scanner.RequestsMatch | scanner.go:176-212 | in such a log, every continuation and close goes to the scanner that is open with its row, and every open comes while none is open and asks up to the stop row |
| Scanner.ClosingScanSendsNoClose | scanner.go:305-329 | a scan that asked the servers to close for it sends no close request |
| ScanRows.ReadAndClose | scanner.go:252-260 | any number of calls to Next, with the context done at any of them, and then Close: whatever the cluster answered, no region scanner is left open |
| ScanComplete.StopOfIs | scanner.go:215-228 | the stop key of a key's region is the least boundary above it |
| ScanComplete.StartOfIs | scanner.go:229-249 | the start key of a key's region is the greatest boundary not above it |
| ScanComplete.ForwardAdvances | scanner.go:215-228 | the rows of a range are those of the first region and then those from its stop key on |
| ScanComplete.PreviousRowExact | scanner.go:229-249 | the new start row is below the region's start key, and the only keys in between properly extend it, and only if the start key does not end in zero |
| ScanComplete.BackwardAdvances | scanner.go:229-249 | the rows a reverse scan sees are those of the first region and then those from the padded start row on |
| ScanComplete.RoundWorks | scanner.go:38-59 | every honest reply but a heartbeat takes a fragment or crosses a region boundary for good, in both directions |
| ScanComplete.OpenScanIsShort | scanner.go:38-59 | a scan that is still open has had fewer replies, heartbeats not counted, than it has fragments and region boundaries ahead |
| ScanComplete.ScanEnds | scanner.go:38-77 | with as many replies as fragments, boundaries and heartbeats, the scanner has closed itself |
| ScanComplete.ScanTerminates | scanner.go:38-77 | a cluster that answers honestly for ever with finitely many heartbeats brings every scan to its end |
| ScanComplete.CanFinish | scanner.go:38-77 | from every open state of a scan of a valid cluster, honest replies that bring it to its end exist |
| ScanComplete.EnoughExist | scanner.go:38-77 | enough honest replies exist for every query of every valid cluster |
| ScanComplete.FetchIsComplete | scanner.go:38-59 | enough honest replies bring the fragments of all expected rows, without an error |
| ScanComplete.ScanIsComplete | scanner.go:129-250 | for every partition into regions, every chunking and enough honest replies, driving Next to the end yields every row of the range exactly once, whole and in order |
| ScanComplete.ScanTable | scanner.go:129-250 | the scanner object itself returns exactly those rows and then reports the end |
| ScanComplete.RegionsInOrder | scanner.go:263-292 | a scan opens the regions that meet its range in order, each at most once, whenever it ends; all of them if it comes to its end and no server ends it early; a reverse scan comes to exactly the regions that the padding does not jump over |
| ScanComplete.NextVisited | scanner.go:229-249 | the regions a reverse scan comes to are the one of the start key it left and those it comes to from the padded row before it |
| ScanComplete.ReverseCompleteIff | scanner.go:229-249 | what Next returns of a reverse scan is every row asked for, last first, if and only if none of them lies between a region's start key and the padded start row before it |
| ScanComplete.SkippedExtendsPadding | scanner.go:229-249 | a skipped row properly extends the padding of a region boundary |
| ScanComplete.ReverseCanLoseARow | scanner.go:244-248 | it happens: a table, honest replies and a scan that asks for its only row and fetches nothing |
| ScanComplete.LoseARow | scanner.go:244-248 | the scanner object on that table returns nothing and reports the end |
| Cellblock.UintOfBigEndian | hrpc/mutate.go:401-416 | a number that fits its field is read back |
| Cellblock.BigEndianOfUint | hrpc/call.go:209-217 | the bytes of a field are determined by the number read |
| Cellblock.PutAt | hrpc/mutate.go:411-422 | a copy at the moving index extends what is written by exactly the source |
| Cellblock.PutHeader | hrpc/mutate.go:392-410 | writes the lengths of key and value, key, value, and row |
| Cellblock.AppendCellblock | hrpc/mutate.go:372-425 | the buffer is the old one followed by exactly the encoding of the cell |
| Cellblock.QualifierLength | hrpc/call.go:229-235 | the length check compares the three header lengths modulo 2^32, whatever the row and family lengths are |
| Cellblock.CellFromCellBlock | hrpc/call.go:203-255 | reads by rebinding the slice exactly what a reading by absolute offsets gives, with the same errors and panics |
| Cellblock.BodyFromCellBlock | hrpc/call.go:236-254 | the part after the length check |
| Cellblock.ParseComplete | hrpc/call.go:203-255 | a buffer that starts with the encoding of a cell is parsed to that cell and its length |
| Cellblock.ParseSound | hrpc/call.go:203-255 | a cell accepted from a buffer below 2^32 bytes encodes to exactly the bytes that were read |
| Cellblock.EncodePrefixFree | hrpc/mutate.go:372-425 | no encoding is the beginning of another |
| Cellblock.TruncatedCellIsTooShort | hrpc/call.go:203-213 | a cell that is cut short anywhere is an error and never a panic |
| Cellblock.BigEndianExample | hrpc/mutate.go:401-416 | the most significant byte comes first |
| Cellblock.CellExample | hrpc/hrpc_test.go:833-838 | the bytes of one cell, as the repository's tests have them |
| CellStream.DeserializeCellBlocks | hrpc/call.go:257-269 | n concatenated cells are read back exactly and consume exactly their bytes; what is accepted is the encoding of what is returned; on failure the bytes read are those of the cells before |
| CellStream.DeserializeScan | hrpc/scan.go:241-258 | groups of cells are read back with their partial flags; flags without a group are nil entries; more groups than flags is a panic |
| Mutation.ValuesToCellblocks | hrpc/mutate.go:427-485 | for any two iteration orders the block is the encoding of exactly the mutation's cells, each once, with exact count and size; the length mismatch panics if and only if a mutation that is not a delete has a nil map |
| Mutation.CountCells | hrpc/mutate.go:431-441 | the length and number of the cells the first loop reads, in any order |
| Mutation.FamilyLen | hrpc/mutate.go:438-440 | the length of one family's cells |
| Mutation.AppendFamily | hrpc/mutate.go:477-479 | one family's cells are appended, each once |
| Mutation.CountedIsMore | hrpc/mutate.go:431-483 | the two loops read the same cells unless a mutation that is not a delete has a nil map, and then the first reads more bytes |
| Mutation.NilColumnsExist | hrpc/mutate.go:434-436 | such mutations exist |
| Mutation.QualifierValues | hrpc/mutate.go:346-356 | one family's qualifier values denote its cells, each once |
| Mutation.ToColumnValue | hrpc/mutate.go:318-361 | a column denotes its family's cells with the right kind of delete |
| Mutation.ValuesToProto | hrpc/mutate.go:315-364 | the columns denote exactly the mutation's cells, each once, one column for each family |
| Mutation.SameCells | hrpc/mutate.go:315-485 | two lists of the same cells differ in order only |
| Mutation.MeaningExact | hrpc/mutate.go:444-479 | which cells a mutation is about, field by field, with the numbers of the cell types and of the missing timestamp |
| Mutation.DeleteTypesAre | hrpc/mutate.go:308-313 | the delete types of the protobuf encoding stand for the same cell types |
| Mutation.EncodeBoth | hrpc/mutate.go:495-521 | whenever the compact form exists, both encodings denote the same cells, timestamps and kinds of delete, and the count is theirs |
| Compressor.Consume | region/compressor.go:57-58 | net.Buffers drops what was read and empty buffers behind it |
| Compressor.ReadBuffers | region/compressor.go:57-58 | a read fills the chunk buffer across pieces, and reports the end exactly when nothing is left |
| Compressor.CompressCellblocks | region/compressor.go:46-79 | the output is the length and the data in chunks of the buffer size, each with its compressed length, however the data was split |
| Compressor.ReadN | region/compressor.go:81-87 | splits off n bytes, or reports a short read |
| Compressor.DecompressBlock | region/compressor.go:127-152 | the inner loop reads a block as specified and terminates on every input |
| Compressor.DecompressCellblocks | region/compressor.go:109-155 | the nested loops read a stream as specified and terminate on every input |
| Compressor.ReadsBlock | region/compressor.go:127-152 | a well-formed block is read to its end and no further |
| Compressor.AcceptsExactly | region/compressor.go:97-155 | a stream decompresses to given bytes if and only if it is made of blocks of the documented format that decode to them, the uint32 counter of each block ending on its length |
| Compressor.EndsMeans | region/compressor.go:127-152 | in a block of less than 2^32 bytes this means that the length is that of the data and the last chunk is not void |
| Compressor.ConcatenatedStreams | region/compressor.go:97-155 | what follows a valid stream is decompressed as if it stood alone and its output is appended |
| Compressor.CompressionRoundTrip | region/compressor.go:46-155 | with a codec whose Decode inverts Encode, decompression returns the data for every split and every positive chunk length |
| Compressor.StreamExample | region/compressor_test.go:60-69 | the bytes of one stream, as the repository's tests have them |

## Left out

- Protobuf messages and their marshalling: a message is a datatype with the fields that matter.
- Filters, admin, table, snapshot and namespace calls and the option setters: thin constructors that would only add easy members.
- ZooKeeper, dialing, TCP reads and writes, deadlines and timers: steps that succeed or fail.
- The snappy library and the B-tree library: a codec with an inverse law, and a sorted sequence with an enumerator.
- The implementation of net.Buffers is not part of this repository; `Compressor.ReadBuffers` follows the behaviour its documentation gives.
- Metrics, tracing, logging, DebugState and MarshalJSON.
- sleepAndIncreaseBackoff: a wait or an expired context.
- Uniqueness of a region in the client cache (caches.go:30-94): the code says that this cache may be inaccurate, so the protocol does not rely on it.
- Reverse scans with an empty start row, and scans with the CloseScanner option that go on after one response: outside the intended use.
- The lock of an info (region/info.go:176-262): MarkUnavailable, MarkAvailable, SetClient and MarkDead are single steps of the protocol.
- Availability.NextKeepsInv: a put replaces any set of cached regions or is rejected, and a delete by name takes any cached regions out, which covers what the cache does and more; the lookup of findRegion, which is responsible for no region meanwhile, is a step with any outcome.
- Availability.OwnerCanWake: says that owners can always wake the waiters, not that a scheduler and the network let them.
- Availability.NoLostWakeup: says nothing after the client was closed, when establishers give up and waiters leave through the done channel.
- Delivery.NextKeepsInv: the dispatch of a multi response hands each call one result, which `Multi.EveryCallAnswered` proves of well-formed responses; writes fail once the connection is closed, and call ids do not wrap.
- Delivery.AtMostOneResult: results are counted; which error a failing client or send puts in them is not modelled.
- Delivery.NothingStranded: the value of the inFlight counter is not modelled; its updates succeed or fail.
- Multi.Batch.ToProto: a call is known by its position, so one call object added twice counts as two; there are fewer than 2^32 calls.
- Multi.EveryCallAnswered: a response is well formed if it has one part for each RegionAction, with an exception, or with one result or exception for each action in any order.
- SendBatch.WaitForCompletion: the result slice is passed and returned as a value; who else holds the slice is not modelled.
- Cellblock.CellFromCellBlock: slices are checked against the length of the buffer where Go checks against its capacity; below 2^32 bytes both give the same result.
- Cellblock.ParseSound: buffers of 2^32 bytes or more, where lengths can wrap and still add up.
- ScanComplete.ScanIsComplete: rows do not change and regions do not split while a scan runs.
- Scanner.Scanner.Next: a caller's concurrent Close is not modelled; Close between calls is.
