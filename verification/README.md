# y4p: proofs about the clipboard history

y4p is a Wayland clipboard daemon. It drains the compositor's pipes, bounds what it
takes in, converts images behind guards, and keeps a deduplicated history in SQLite
plus a directory of cache files. This project models the four parts whose correctness
hangs on more than one function at a time, and proves what they promise for every
input, every run and every interleaving.

**The history store** (`Tables`, `Store`, `History`, `Refinement`, `Runs`, `Rotation`,
`Classes`, `ClipboardDb`). A payload is kept inline, detached into a content-addressed file, or
split into reference-counted chunks. `Runs.WholeRun` says that after any sequence of
insertions (from memory or spooled), touches, pins, deletions, rotations and wipes,
reading by id gives exactly what a plain map from id to payload gives; that each
chunk's count is its number of manifest entries; and that no row lacks its file and no
file its row. `ClipboardDb` is the same store as a mutable object, each method proved
to compute the function the refinement is about and to keep the store showing that map.
`SpoolSteps` takes both insertions apart into the states a kill could leave, with
refused renames, copies and commits and with files cut off at any byte; `CrashStates`
and `CrashAtomicity` say what each of those states stands for, and
`CrashRuns.CrashesLoseNothing` carries the refinement over runs in which any call is
killed at any step or loses its write, any number of times: a row reads wrong exactly
while it is detached and its own file is missing or cut off, and then it reads as nothing
or as a prefix. `Repair` says what makes
such a row well again. `FastCdc`,
`Splitting`, `GearHash` and `EditCost` are the chunker: where it cuts, how little of the
input decides a cut, and what an edited copy costs to store. `SearchIndex` relates the
index a search shows to the list position it is resolved by. `Classes` says which payloads are stored and
in which form. `Divergences` has one
concrete run for each place where the code does not keep its documentation.

**The copy machinery** (`Splice`, `IngestRoads`, `Egress`). The kernel is an adversary
that may move any part of what was asked, interrupt, refuse or fail at every call. Its
answers are a finite script; when it runs out the kernel serves in full, so every run
that ends is covered.

**Admission** (`Admission`). Reader threads, two compare-and-swap counters, a bounded
queue and a worker that may die, one atomic access per step, with stale loads and
spurious failures.

**The converter guards** (`Breaker`, `Guard`, `Watchdog`). One circuit breaker and one
semaphore shared by many threads, with a clock; and the handshake that keeps a deadline
kill from hitting a recycled pid, lock steps, sleep and notification included, with a
child that may hang and helpers that may outlive it.

`Core` and `Ordering` hold bytes, sums over maps, and `ORDER BY`.

## Assumptions

- SHA3-256 is any function. Where a result needs it not to collide, the hypothesis is
  injectivity on the finite set of strings the run itself hashes (`Runs.Hashed`), never
  on all strings. Chunk accounting, rotation and the order of steps in a crash need nothing.
- The gear table is any function from bytes to 64-bit words; text classification, UTF-8
  validity and previews are any functions of their inputs.
- A SQL transaction is one step, and there is one writer. `ORDER BY timestamp DESC`
  breaks ties by some fixed injective rule (`Tables.BreaksTies`); the two evaluations of
  the expiring set use the same one.
- `usize` has 64 bits. `max_history as i64` is modelled with its wrap-around, and a
  negative OFFSET or LIMIT means none, as SQLite documents it.
- A kernel count is zero only when nothing was asked for or nothing is left.

## Where the code and its documentation part

Each of these is stated as an equivalence: the promise holds exactly under a condition
a caller can check. The lemma in `Divergences` shows a failing input.

- `max_history` of 2^63 or more (the configuration file admits it) turns negative in
  the cast, and rotation then evicts every unpinned row (`Rotation.QuotaIsExactUnlessItWraps`,
  `Divergences.HugeQuotaEvictsAll`).
- `copy_to_file` at the limit 2^64 - 1 loses its probe byte to saturation and would cut
  a longer stream short instead of rejecting it (`Splice.PromiseKeptIff`,
  `Divergences.LargestLimitTruncates`).
- `drain_pipe` returns a stream that ends inside the inline threshold even if the limit
  is smaller; the roads agree exactly for limits of at least 4095 (`IngestRoads.RoadsAgreeIff`,
  `Divergences.SmallLimitIsOverlooked`).
- `transfer` addresses the source from offset 0 but falls back from the reader's own
  position; a descriptor's remaining bytes are delivered for every sequence of kernel
  answers exactly when the position is 0 or there is nothing to send
  (`Egress.RemainingIffFromStart`, `Divergences.PositionIsOverlooked`).
- `insert_with_hash` commits before it writes the file, and `insert_spooled` takes that
  road for a text-labelled GIF; a kill in between leaves a row without its file exactly
  under `SpoolSteps.Dangles` (`SpoolSteps.InMemoryCommitDangles`, `Divergences.FirstImageDangles`).
- `insert_spooled` refuses an inline payload above the payload limit that
  `insert_with_hash` would store; otherwise the roads end in the same store
  (`SpoolSteps.RoadsAgree`, `Divergences.LargeTextDividesTheRoads`).
- A file being written into the cache, or copied there when a rename is refused, is not
  written atomically: a kill leaves a truncated file under the full hash, which later
  insertions take for the payload. A rename cannot (`CrashStates.InsertCutIsExact`,
  `CrashAtomicity.DetachedCutIsExact`, `Divergences.TruncatedFileIsServed`,
  `Divergences.TruncatedWriteIsServed`). Storing the bytes again repairs a missing file
  but not a truncated one (`Repair.ReinsertionRepairsIff`).
- `insert_with_hash` ignores a write that fails, and answers with an id whose row has no
  file or a truncated one (`CrashStates.InsertCutIsExact`, `Divergences.LostWriteIsSilent`).
- The deadline of `run_filter_timeout` is promised for the child and anything it spawned.
  It covers a helper only while the child itself has not exited: one that keeps a pipe a
  worker thread reads is waited for without end (`Watchdog.EndsByForceIff`,
  `Divergences.HelperOutlivesTheDeadline`).
- A search index resolves to its row exactly when it is below the fetch limit and no row
  of the same timestamp is listed first (`SearchIndex.IndexResolves`,
  `Divergences.TiedRowsShareAnIndex`); pinned rows let the history outgrow that limit.

## Model

| member | source | states |
|---|---|---|
| GearHash.FingerprintIsWindowSum | crates/core/src/cdc.rs:20-24 | the rolling hash equals the sum of table words over the last 64 bytes, each shifted by its age, mod 2^64 |
| GearHash.LowBitsForgetThePast | crates/core/src/cdc.rs:20-24 | the low k bits are the same whatever precedes the last k bytes |
| GearHash.WindowDecides | crates/core/src/cdc.rs:91-99 | 64 bytes of context fix the whole fingerprint |
| FastCdc.MasksTestTheTopBits | crates/core/src/cdc.rs:47-55 | masking a word with the strict or loose mask leaves nothing exactly when the model's boundary test passes |
| FastCdc.FindCut | crates/core/src/cdc.rs:84-103 | the two-phase loop returns the least boundary above the minimum, else the limit |
| FastCdc.CutPointIsUnique | crates/core/src/cdc.rs:82-103 | that description fixes the cut |
| FastCdc.Iterator.Next | crates/core/src/cdc.rs:123-132 | each call splits off one chunk and leaves the chunks of the rest |
| FastCdc.Iterator.SizeHint | crates/core/src/cdc.rs:134-139 | the number of chunks to come lies between the two bounds, which are the length over 65536 rounded up and the length |
| FastCdc.BoundaryInNumbers | crates/core/src/cdc.rs:84-99 | the hash starts after 4096 bytes and must have 16 clear top bits up to 16384 bytes, 12 beyond |
| FastCdc.ChunksTile | crates/core/src/cdc.rs:14-16 | concatenated, the chunks are the input |
| FastCdc.ChunkSizes | crates/core/src/cdc.rs:105-108 | no chunk is empty or above the maximum, all but the last exceed the minimum |
| FastCdc.ChunkCount | crates/core/src/cdc.rs:134-139 | both bounds of the size hint, and the sharper one from the minimum |
| FastCdc.BoundaryNeeds64Bytes | crates/core/src/cdc.rs:8-12 | beyond 64 hashed bytes a boundary depends on the last 64 bytes only |
| FastCdc.CutterIsLocal | crates/core/src/cdc.rs:84-103 | a cut not forced by the end of the input is a cut of every input that agrees up to it |
| Splitting.PrefixLocality | crates/core/src/cdc.rs:8-12 | inputs that agree up to e have the same chunks up to any cut at or before e |
| Splitting.EditLocality | crates/core/src/cdc.rs:8-12 | with a common cut before and cuts at a shared suffix, two chunkings differ only in between |
| EditCost.LiveRowIsPresent | crates/storage/src/db.rs:273-287 | while a chunked row lives all its chunks are in the table |
| EditCost.EditedCopyIsCheap | crates/storage/src/db.rs:267-287 | in every reachable store with a live chunked row, inserting an edited copy adds at most the bytes between the two cuts |
| Tables.LinkAllKeepsAccounts | crates/storage/src/db.rs:273-287 | storing chunks keeps every count equal to its manifest entries, repeated chunks included |
| Tables.ReleaseKeepsAccounts | crates/storage/src/db.rs:293-307 | releasing a row keeps the accounts exact and leaves none of its entries |
| Tables.ReleaseLeavesOthers | crates/storage/src/db.rs:289-307 | every other row reassembles to the same bytes after a release |
| Tables.ReleaseAllKeepsAccounts | crates/storage/src/db.rs:201-205 | so do several releases in sequence |
| Tables.ReleaseAllLeavesOthers | crates/storage/src/db.rs:201-205 | a sequence of releases leaves all other rows' bytes alone |
| Store.PlaceIsSound | crates/storage/src/db.rs:141-177 | insert-or-touch keeps hashes unique, ids fresh and accounts exact |
| Store.RotateIsSound | crates/storage/src/db.rs:190-219 | rotation keeps hashes unique, ids fresh and accounts exact |
| Store.DeleteIsSound | crates/storage/src/db.rs:502-515 | so does deletion, found or not |
| Rotation.RotationKeepsTheNewest | crates/storage/src/db.rs:179-219 | a pinned row always stays; an unpinned one stays exactly when fewer than the quota are newer; survivors are unchanged |
| Rotation.PlacedSurvivesIff | crates/storage/src/db.rs:190-219 | whether a row that is added or touched survives the rotation that follows is told from the rows before it: pinned, or fewer than the quota ahead |
| SpoolSteps.HashExpiresAt | crates/storage/src/db.rs:206-223 | where among the reported hashes the inserted one stands, if it is evicted at once |
| Rotation.RotationFillsTheQuota | crates/storage/src/db.rs:184-219 | exactly the quota of unpinned rows remains when there were that many |
| Rotation.QuotaIsExactUnlessItWraps | crates/storage/src/db.rs:197-218 | the newest max_history stay if and only if it survives the signed cast or nothing is unpinned |
| Rotation.ExpiredAreEvicted | crates/storage/src/db.rs:206-223 | the hashes reported as expired are those of the evicted rows and no others |
| History.ContentIsEntry | crates/storage/src/lib.rs:260-267 | reading gives mime and bytes of the map entry, or nothing, for text, blob, cached and chunked rows alike |
| History.SpoiledContentIsPrefix | crates/storage/src/lib.rs:260-267 | a row whose file was cut off shows nothing or the beginning of its payload |
| History.LocatedFileIsPayload | crates/storage/src/lib.rs:275-282 | a detached row is located in the file of its own hash, which exists and holds the payload, every other row in the database |
| History.SearchSeesThePayload | crates/storage/src/db.rs:23-30 | outside the cache class the body a search matches against is the whole payload, inline or chunked |
| History.JoinedIsPieces | crates/storage/src/db.rs:313-346 | a chunked row reassembles to its chunks in order |
| Refinement.RemovalIsExact | crates/storage/src/lib.rs:167-171 | removing the evicted rows' files takes no surviving row's file and leaves no orphan |
| Refinement.UpsertRefines | crates/storage/src/db.rs:130-224 | an upsert with its file steps remembers the payload once, newest, within the quota |
| Classes.SensitiveIsNotStored | crates/storage/src/db.rs:93-96 | a payload whose MIME type has one of the eight marks anywhere in it, or that is empty, is answered -1 and changes nothing, on both roads |
| Classes.NoRunStoresSensitive | crates/core/src/constants.rs:205-215 | so no store of any run holds a row under such a MIME type |
| Classes.NoCrashStoresSensitive | crates/core/src/constants.rs:205-215 | nor does one that has lived through kills, refusals and lost writes |
| Classes.OrdinaryIsPlaced | crates/storage/src/lib.rs:155-172 | every other payload is placed: the answer is the id of the row with its hash, which stays unless evicted at once |
| Classes.OrdinaryIsSpooled | crates/storage/src/lib.rs:196-206 | a spool file is stored alike under the same id, and refused only above 256 MiB when it is no image or text-like |
| Classes.FormOfARow | crates/storage/src/db.rs:73-91 | a new row is chunked if and only if it is no image and above 4096 bytes, and is otherwise text, a file or a blob, with preview and location to match |
| Runs.InsertRefines | crates/storage/src/lib.rs:163-173 | insertion from memory refines remembering, id included |
| Runs.InsertSpooledRefines | crates/storage/src/lib.rs:196-227 | insertion from a spool file refines remembering, or refuses an inline payload above the limit and changes nothing |
| Runs.TouchRefines | crates/storage/src/lib.rs:285-287 | a touch changes one timestamp |
| Runs.PinRefines | crates/storage/src/lib.rs:320-322 | pinning changes one flag |
| Runs.DeleteRefines | crates/storage/src/lib.rs:290-296 | deletion forgets one id with its chunks and file |
| Runs.WholeRun | crates/storage/src/lib.rs:163-310 | after any run: reads equal the plain map, accounts exact, no dangling row, no orphaned file |
| Runs.RunIsAccounted | crates/storage/src/db.rs:557-581 | the accounting holds after any run even if hashes collide |
| Runs.PayloadsNeverChange | crates/storage/src/schema.rs:69-75 | a live id keeps its mime and bytes for ever, and ids are never reused |
| Runs.PayloadsWereInserted | crates/storage/src/lib.rs:137-139 | every payload shown was offered by an insertion that drew that id |
| SpoolSteps.DetachedRoadIsCrashSafe | crates/storage/src/lib.rs:184-187 | at every step, under every refusal, each committed detached row has its file |
| SpoolSteps.InMemoryCommitDangles | crates/storage/src/lib.rs:163-170 | all states of an insertion from memory are free of dangling rows if and only if it does not add a detached row without a file that fewer than the quota are ahead of |
| SpoolSteps.SpoolFileIsConsumed | crates/storage/src/lib.rs:192-195 | every path consumes the spool file and no other |
| SpoolSteps.RefusedLeavesNoTrace | crates/storage/src/lib.rs:213-221 | a refused insertion, whatever refuses it, ends in the store it began with |
| SpoolSteps.DetachedRowNeedsNoBytes | crates/storage/src/db.rs:119-128 | the row built from a length equals the row built from the bytes |
| SpoolSteps.RoadsAgree | crates/storage/src/lib.rs:196-227 | with nothing refused both roads end in the same store and id if and only if the payload is skipped, detachable or within the limit |
| SpoolSteps.StepsEndInInsertSpooled | crates/storage/src/lib.rs:196-227 | the steps add up to the one-piece operation used in runs |
| SpoolSteps.AdoptionIsSafe | crates/storage/src/cache.rs:68-86 | adoption never disturbs a committed row, and leaves the file in place unless it fails |
| CrashStates.InsertCutRefines | crates/storage/src/lib.rs:163-173 | killed after any step, or carried through with its write lost, an insertion from memory has happened, and only the file it was to write may be wrong |
| CrashStates.InsertCutIsExact | crates/storage/src/cache.rs:42-48 | from any store a payload that was well is harmed by that if and only if a condition on the state before the call says so: its file not begun though a row needs it, or not finished and not yet removed as expired |
| CrashStates.AfterCommitRefines | crates/storage/src/lib.rs:164-171 | every state after a commit, whatever was written and removed by then, stands for the new history but for the inserted payload's own file |
| CrashStates.FileWritten | crates/storage/src/cache.rs:42-48 | a file written in full makes good what was missing under its name |
| CrashAtomicity.DetachedRoadIsAtomic | crates/storage/src/lib.rs:206-226 | under every refusal and inside every copy, a reader of a state before the commit sees the old history and of one after it the new, with no row harmed that was not before |
| CrashAtomicity.DetachedCutRefines | crates/storage/src/lib.rs:184-227 | what a kill leaves on the detached road refines that history in full, a cut-off copy excepted, and can be carried on from |
| CrashAtomicity.DetachedCutIsExact | crates/storage/src/cache.rs:60-86 | from any store, on the detached road a payload that was well is harmed if and only if its copy was cut off there: a rename never harms a file |
| CrashAtomicity.SpoolCutRefines | crates/storage/src/lib.rs:196-227 | the same on every road of insert_spooled, skipped, refused and inline payloads included |
| CrashAtomicity.DeleteCrashLeavesAStore | crates/storage/src/lib.rs:290-296 | a deletion cut off before its file goes has forgotten the row and harmed no other |
| CrashAtomicity.WipeCrashLeavesAStore | crates/storage/src/lib.rs:305-310 | a wipe cut off with any part of the files gone has wiped the history |
| CrashRuns.EventRefines | crates/storage/src/lib.rs:163-310 | every call, completed, refused, killed at any step or with its write lost, refines its meaning or nothing, up to the one file it spoils |
| CrashRuns.SpoilingIsExact | crates/storage/src/lib.rs:163-227 | from any store of such a run a call harms a payload that was well if and only if the state before it says so |
| CrashRuns.LivedRefines | crates/storage/src/lib.rs:163-310 | at every point of such a run the store refines the plain map with exactly the payloads excused that are harmed just then |
| CrashRuns.CrashesLoseNothing | crates/storage/src/lib.rs:184-227 | after any run with kills, refusals and lost writes: accounts exact; a read differs from the plain map if and only if the row is detached and its file missing or cut off, and then shows nothing or a proper prefix |
| CrashRuns.OneMishapHarmsOne | crates/storage/src/lib.rs:163-227 | no more payloads are harmed than insertions went wrong |
| Repair.ReinsertionRepairsIff | crates/storage/src/cache.rs:40-48 | storing the same bytes again makes a detached row readable exactly when its file is missing and the MIME is cache class, or was right already |
| Repair.ReinsertionRestoresTheFile | crates/storage/src/lib.rs:167-169 | and a missing file is then whole again for good |
| Repair.SpoolingRepairsIff | crates/storage/src/lib.rs:196-227 | the same for storing them from a spool file, unless that is refused |
| Repair.SpoolingRestoresTheFile | crates/storage/src/lib.rs:196-227 | a missing file is whole again then too |
| Repair.DeletionRepairs | crates/storage/src/lib.rs:290-296 | deleting a row takes a truncated file along |
| Repair.WipeRepairs | crates/storage/src/lib.rs:305-310 | a wipe leaves no damage |
| Divergences.HugeQuotaEvictsAll | crates/storage/src/db.rs:197-218 | a quota of 2^63 evicts the only row |
| Divergences.FirstImageDangles | crates/storage/src/lib.rs:163-170 | the first image stored from memory dangles before its file is written |
| Divergences.LargeTextDividesTheRoads | crates/storage/src/lib.rs:196-206 | a text one byte above the limit is stored from memory and refused from a file |
| Divergences.TruncatedFileIsServed | crates/storage/src/cache.rs:68-86 | after a kill inside a copy the next insertion of the bytes serves the truncated file |
| Divergences.TruncatedWriteIsServed | crates/storage/src/cache.rs:42-48 | after a kill inside a write the row serves the truncated file |
| Divergences.LostWriteIsSilent | crates/storage/src/lib.rs:167-172 | when the file cannot be created the insertion answers its id all the same and the row reads as nothing |
| Divergences.TiedRowsShareAnIndex | crates/storage/src/db.rs:383-388 | of two rows with different hashes and one timestamp, one is not what its own index leads to |
| Divergences.LargestLimitTruncates | crates/core/src/splice.rs:205-208 | a stream one byte too long for the largest limit is reported as copied |
| Divergences.SmallLimitIsOverlooked | crates/wayland/src/handlers/data_control/device.rs:250-256 | a limit inside the threshold is overlooked on one road only |
| Divergences.PositionIsOverlooked | crates/wayland/src/handlers/data_control/source.rs:141-201 | from position 1 the kernel path sends both bytes and the fallback one |
| Divergences.HelperOutlivesTheDeadline | crates/image/src/pipeline.rs:571-587 | a run in which the converter exits, a helper keeps its standard error, and the deadline does nothing |
| ClipboardDb.ClipboardDb.StoreChunks | crates/storage/src/db.rs:273-287 | the loop over the chunk iterator links all chunks in order |
| ClipboardDb.ClipboardDb.ReleaseChunks | crates/storage/src/db.rs:293-307 | the three statements release the row |
| ClipboardDb.ClipboardDb.Reassemble | crates/storage/src/db.rs:313-346 | the buffer loop gives the joined bytes, or nothing when they disagree with the size |
| ClipboardDb.ClipboardDb.Upsert | crates/storage/src/db.rs:130-224 | the transaction is the upsert function and keeps the tables sound |
| ClipboardDb.ClipboardDb.RotateOut | crates/storage/src/db.rs:190-219 | releasing and deleting by two evaluations of the same query is one rotation |
| ClipboardDb.ClipboardDb.InsertWithHash | crates/storage/src/lib.rs:163-173 | store, cache and id after the call; the plain map remembers the payload |
| ClipboardDb.ClipboardDb.InsertSpooled | crates/storage/src/lib.rs:196-227 | store, cache and id or refusal after the call, and the plain map it then stands for |
| ClipboardDb.ClipboardDb.GetContentById | crates/storage/src/lib.rs:260-267 | answers what the plain map answers |
| ClipboardDb.ClipboardDb.LocateContentOf | crates/storage/src/lib.rs:275-282 | finds the entries of the plain map, and a file it names holds the payload |
| ClipboardDb.ClipboardDb.RemoveMany | crates/storage/src/cache.rs:96-100 | the loop removes exactly these files |
| ClipboardDb.ClipboardDb.DeleteById | crates/storage/src/lib.rs:290-296 | the plain map forgets the id; whether it was there |
| ClipboardDb.ClipboardDb.Wipe | crates/storage/src/lib.rs:305-310 | everything goes, the id counter stays |
| ClipboardDb.ClipboardDb.SetPinById | crates/storage/src/db.rs:541-547 | the plain map's flag changes; whether the id was there |
| ClipboardDb.ClipboardDb.UpdateTimestamp | crates/storage/src/db.rs:493-497 | one timestamp of the plain map changes |
| SearchIndex.PlaceCountsNewer | crates/storage/src/db.rs:383-388 | the count of newer rows is the list position exactly when no row of the same time is listed first |
| SearchIndex.IndexResolves | crates/cli/src/utils.rs:139-154 | an index leads back to its row if and only if it is below the limit and first of its time |
| SearchIndex.IndicesAgreeIffDistinct | crates/storage/src/db.rs:365-375 | search and list agree on all rows if and only if timestamps are distinct |
| SearchIndex.SearchIsComplete | crates/storage/src/db.rs:376-411 | a matching row is reported if and only if the limit reaches beyond the matching rows listed before it, right behind them and with its count of later rows; the number of hits is exact |
| SearchIndex.ListIsComplete | crates/storage/src/db.rs:442-456 | the same of the listing over all rows |
| SearchIndex.SearchThenResolve | crates/storage/src/lib.rs:241-248 | with distinct timestamps any reported index below the fetch limit resolves to the row shown |
| Splice.PromiseKeptIff | crates/core/src/splice.rs:205-208 | the documented verdict is given if and only if the limit leaves room for the probe byte or the stream fits |
| Splice.Machine.SpliceOnce | crates/core/src/splice.rs:337-354 | a prefix moves once, or nothing; interrupts are retried |
| Splice.Machine.TeeOnce | crates/core/src/splice.rs:356-372 | a prefix is duplicated and nothing consumed |
| Splice.Machine.SpliceExact | crates/core/src/splice.rs:324-335 | all n bytes, or a refusal before the first, or a fault |
| Splice.Machine.KernelLoop | crates/core/src/splice.rs:210-283 | file and tap hold the same prefix at every end; a refusal hands over at that point |
| Splice.Machine.BufferedLoop | crates/core/src/splice.rs:285-312 | continues from any prefix to the end or one byte too many |
| Splice.Machine.CopyToFile | crates/core/src/splice.rs:152-163 | without a fault the verdict depends on stream and limit only, and file and tap hold the stream once, in order; there is no fault unless the kernel refuses or fails, and a willing kernel moves every byte itself |
| IngestRoads.RoadsAgreeIff | crates/wayland/src/handlers/data_control/device.rs:250-256 | the streaming and in-memory roads accept the same streams if and only if the limit is at least 4095 |
| IngestRoads.ReadBounded | crates/core/src/payload.rs:393-409 | the whole stream when it fits and is not empty, else nothing |
| IngestRoads.Fill | crates/daemon/src/spool.rs:124-140 | head and remainder contiguous in file and digest, within one limit |
| IngestRoads.FileSpooler.Spool | crates/daemon/src/spool.rs:120-144 | the created file is returned complete with its digest, or gone again; unavailable leaves the pipe untouched |
| IngestRoads.DrainPipe | crates/wayland/src/handlers/data_control/device.rs:240-267 | whatever the road, the whole stream or nothing, and no stray spool file; a stream of 4096 bytes or more that is not text goes to disk when a file can be made, with its first 4096 bytes kept; nothing fails unless the kernel refuses or fails |
| Egress.RemainingIffFromStart | crates/wayland/src/handlers/data_control/source.rs:126-180 | a descriptor's remaining bytes go out for every script of kernel answers if and only if the reader stands at the start or there is nothing |
| Egress.OtherwiseRemaining | crates/wayland/src/handlers/data_control/source.rs:138-145 | without a descriptor or without offsets it is always the remaining bytes |
| Egress.Transfer.SendKernel | crates/wayland/src/handlers/data_control/source.rs:151-177 | where the loop stops, why, and the prefix sent by then |
| Egress.Transfer.Run | crates/wayland/src/handlers/data_control/source.rs:141-180 | a hard error or exactly what the script decides; from the start everything once, in order, for any counts, interrupts and refusals |
| Egress.Transfer.CopyRemaining | crates/wayland/src/handlers/data_control/source.rs:187-201 | skips what was sent and copies the rest |
| Admission.StepKeepsInv | crates/wayland/src/ingest.rs:51-142 | every atomic step keeps counters equal to live permits and within limits, the queue bounded and in order, and sends unique |
| Admission.RunKeepsInv | crates/wayland/src/ingest.rs:229-253 | the same over every run |
| Admission.RunBounds | crates/wayland/src/ingest.rs:6-24 | counters never negative or above their limits; bytes reserved plus pending within the budget; payloads alive bounded |
| Admission.QuietMeansFree | crates/wayland/src/ingest.rs:217-226 | when all is done every byte and slot has come back, whatever the outcomes |
| Admission.HistoryOnlyGrows | crates/wayland/src/ingest.rs:183-191 | nothing sent is displaced, and an outcome is final |
| Admission.ConsumedInSendOrder | crates/daemon/src/worker.rs:55-77 | jobs are consumed in the order they were sent |
| Admission.FailedSwapMeansProgress | crates/wayland/src/ingest.rs:51-142 | lock freedom: between a load and a swap that fails, not spuriously, another thread or the worker reserved or gave back |
| Admission.ShedForCause | crates/wayland/src/ingest.rs:193-253 | a selection that ends in Shed loaded a full gate, drained more than the whole budget, or gave up after a budget loaded as too short or a queue found full; one that ends in Closed found the worker dead |
| Admission.SelectedIsQueued | crates/wayland/src/ingest.rs:229-253 | from every reachable state with room and a live worker a new selection's own steps lead to Queued, its job last in the queue |
| Admission.OfferedIsQueued | crates/wayland/src/ingest.rs:193-215 | so do those of an offer being made or waited for |
| Admission.HeldIsQueued | crates/wayland/src/ingest.rs:229-253 | and those of a job that holds its reservation |
| Admission.PendingIsConsumed | crates/daemon/src/worker.rs:55-77 | a live worker's own steps consume everything pending, in order, and give its bytes back |
| Admission.PendingIsDropped | crates/wayland/src/ingest.rs:102-142 | once it is dead, dropping what is pending gives its bytes back |
| Breaker.CircuitBreaker.AcquireAt | crates/image/src/breaker.rs:91-107 | admission, canary and next state |
| Breaker.CircuitBreaker.ResolveAt | crates/image/src/breaker.rs:110-143 | next state for regular and canary reports, tripped and recovered as what they say of it; the count stays below the threshold |
| Breaker.Permit.Finish | crates/image/src/breaker.rs:215-218 | resolves once; the drop that follows does nothing |
| Breaker.Permit.Drop | crates/image/src/breaker.rs:221-227 | an unresolved permit reports a failure, a resolved one nothing |
| Breaker.ProcessThrottle.Acquire | crates/image/src/throttle.rs:69-85 | a slot exactly when one is free |
| Breaker.ProcessThrottle.Release | crates/image/src/throttle.rs:87-95 | one slot back, never below zero |
| Guard.StepKeepsInv | crates/image/src/route.rs:239-279 | slots equal conversions in flight, permits admitted equal resolved plus held, one canary, results safe |
| Guard.RunKeepsInv | crates/image/src/route.rs:239-279 | the same over every concurrent run, panics included |
| Guard.FailuresAreTheStreak | crates/image/src/breaker.rs:113-124 | in every concurrent run a closed circuit's count is the number of regular failures reported since the last success or closing |
| Guard.TripsAtThreshold | crates/image/src/breaker.rs:8-12 | a step opens a closed circuit if and only if it brings that number to the threshold |
| Guard.JudgedAs | crates/image/src/route.rs:126-131 | exits, timeouts, broken pipes, panics and unusable output are failures, starting, confining, reading and writing errors neutral, a usable output a success |
| Guard.RegularIsCounted | crates/image/src/route.rs:239-279 | over every run a regular attempt's fault adds one to a closed count or opens the circuit for one cooldown, a success sets it back, an excuse does neither |
| Guard.CanaryDecides | crates/image/src/breaker.rs:126-139 | over every run a canary's success closes the circuit with count 0, its fault opens it for one cooldown, its excuse frees the probe |
| Guard.OpensForOneCooldown | crates/image/src/breaker.rs:113-139 | a circuit opens only by a report and exactly until one cooldown after it |
| Guard.OpenedRefusesEverybody | crates/image/src/breaker.rs:91-107 | until then nobody is admitted and nothing moves it |
| Guard.AskedAndAnswered | crates/image/src/breaker.rs:91-107 | over every run a closed circuit admits all as regular, an open one none before its time, then one canary; who is refused keeps the original |
| Guard.FreeSlotConverts | crates/image/src/route.rs:239-279 | with a closed circuit and a free slot a thread's own steps store the converted payload and give the slot back |
| Guard.OnlyCanariesMoveIt | crates/image/src/breaker.rs:113-141 | over every run an open or half-open circuit is moved only by the admission of a canary and by that canary's own report |
| Guard.CooldownHolds | crates/image/src/breaker.rs:95-99 | until a cooldown ends nobody is admitted and nothing moves the circuit |
| Guard.NeverWedged | crates/image/src/breaker.rs:157-163 | with all permits resolved or dropped, every request from one cooldown on is granted, and some request before |
| Guard.NeutralReportsDoNotCount | crates/image/src/route.rs:230-238 | an attempt that met a full throttle or a starting, confining, reading or writing error, whatever others did meanwhile, reports without moving the count or opening a circuit |
| Guard.AttemptGuarded | crates/image/src/route.rs:239-279 | who is called, what is kept, the breaker's next state for each kind of answer, and the slot returned on every path |
| Guard.RouteWith | crates/image/src/route.rs:151-177 | a usable conversion or the original pair; a bypass touches nothing |
| Watchdog.StepKeepsInv | crates/image/src/pipeline.rs:244-249 | each lock, kill, finish and reap step keeps the handshake |
| Watchdog.KillsHitTheChild | crates/image/src/pipeline.rs:189-206 | every group kill in every interleaving is sent before the child is reaped |
| Watchdog.FailedDrainKills | crates/image/src/pipeline.rs:569-572 | a drain that failed is followed by a kill of the group before the main thread waits |
| Watchdog.TimeoutIffFired | crates/image/src/pipeline.rs:573-591 | in a run that ends the watchdog has sent exactly one kill if a timeout is reported and none otherwise, and only after the deadline |
| Watchdog.EveryRunIsShort | crates/image/src/pipeline.rs:250-290 | whatever is scheduled, a run has a fixed number of steps, three more for each spurious wake-up |
| Watchdog.StopsAtTheEndOrHangs | crates/image/src/pipeline.rs:569-587 | where no step is certain to come any more the run has ended, or waits for an unkilled child or helper |
| Watchdog.EndsByForceIff | crates/image/src/pipeline.rs:334-341 | with a watchdog the end can be forced, the child dying and pipes closing only by a kill, if and only if the watchdog was not stood down while child or helper was left |
| Watchdog.DoomedOnlyByHelper | crates/image/src/pipeline.rs:208-226 | which takes a failing waitid or a helper that outlives the child holding a pipe |
| Watchdog.StandsDownPromptly | crates/image/src/pipeline.rs:279-289 | once notified the watchdog is not asleep, no wake-up being lost, and each of its steps takes it closer to its end |

## Left out

- SQL text, indexes, PRAGMAs, VACUUM and schema migrations: tables are maps.
- SHA3-256, UTF-8 decoding, previews, LIKE matching and MIME text classification: functions of their inputs.
- Disk, memory and permission errors of the store other than a refused rename, copy or commit and a failed write of a cache file.
- Several processes writing the store: one writer, as the daemon has it.
- CrashRuns.CrashesLoseNothing: a kill of the process, not a power failure: what was written is on disk.
- Orphan sweeping of spool files at start-up, and the spool directory that a wipe removes.
- Image decoding, converter arguments and what goes through the child's pipes: only outcomes, and who holds a pipe, appear.
- `route_file_with` and `transcode_spooled`: the same guarded attempt with a file as its artefact, trusted when it succeeds; only the in-memory route is modelled.
- Wayland dispatch, IPC, metrics, configuration and command-line formatting.
- Payload normalisation (URI lists, magic-byte relabelling, HTML stripping): single scans.
- `try_splice` and `splice_all`: the same primitive without limit or tap.
- Memory orderings of the atomics: steps are sequentially consistent.
- The waiting time of the throttle and of an enqueue: giving up may happen at any time.
