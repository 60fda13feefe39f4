# SwordFS in Dafny

SwordFS is a FUSE file system whose metadata lives in Redis and whose file data lives in immutable
objects. This project models the parts of it whose correctness rests on an argument rather than on one
function: the distributed advisory locks, the slice chunk (write buffering, coalescing, publication and
reading), the change of a file's size, the copy-on-write chunk heads, the fiber runtime's shutdown, and the
POSIX ACLs.

Loops and objects keep their form. `SliceChunks.SliceChunk`, `AdvisoryLocks.FuseAdvisoryLocks`,
`SizeTransitions.FileReadWriter` and `PosixAcl.Inode` are classes with the source's fields; the range,
resolution, planning and codec loops are methods proved against functions or direct properties. What several
mounts or fibers do at once is a state machine whose events are the critical sections and remote commands, with
lost replies and delayed effects as events of their own; its theorems hold after every sequence of events.

How the main results hang together:

- A record lock request sets its mode on exactly its bytes (`LockRanges`), survives storage (`LockCodec`), and
  over all interleavings of watched transactions, lease losses and garbage collection never leaves two live
  owners in conflict (`LockAuthority`). A waiter is woken exactly when its request would no longer conflict
  (`LockRetryScheduler`), and a mount never forgets an owner that may hold locks (`AdvisoryLocks`).
- What a reader of a slice chunk sees is the accepted writes over the committed records. `SliceSession` proves
  that every step of every flush keeps exactly that, with coalescing, writes and truncations at any moment, as
  long as what lands does no harm; `SliceGuards` gives the guard on a truncation under which nothing ever does;
  `SliceDurability` shows that a flush that returned OK has committed, at every position, the byte readers saw
  when it began or a newer one. `SliceChunks` shows that the code's methods are those steps, in every world
  around the chunk; `SliceRuns` shows that the sanitized record list mirrors the session along every run, so
  that what is proved holds of the bytes `Read` (`SliceReads`) returns. `Windows`, `DirtyRanges`, `Layers`,
  `SliceRecords` and `BoundaryClamps` supply the parts.
- A record is published at most once however often its append is retried (`SlicePublication`).
- A size change keeps the bytes it should keep and exposes only zeros, or bytes another mount installed
  meanwhile, or the file is failed closed (`ChunkSizePlan`, `SizeTransitions`).
- An attached copy-on-write chunk always has a readable object (`CowHeads`), and its head shows the whole generation
  that was flushed or the shortest prefix it was truncated to (`CowContents`).

Four promises turned out to be conditional. Each has the exact condition or, where the condition is a
hypothesis about another party, a witness that it is needed:

- A slice record that left before a truncation clipped or released its candidate keeps its length. A run shows
  readers exactly the effect of writes and shrinks if and only if every landing is harmless (`RunExactly`,
  `LandExactly`, `OrphanExactly`); otherwise truncated bytes reappear (`ClippedRecordReappears`,
  `ReleasedRecordReappears`). Before the truncation the condition is that the records under way have only zeros
  past the size (`ShrinkExactly`); if it also releases none of their candidates, every later landing of the run
  is harmless (`GuardedSafe`), and a release is not allowed for (`ReleasedZeroReturns`). A run without
  truncations needs no condition.
- A grow exposes only zeros exactly when the chunk under the old end shows zeros up to the new one
  (`GrowExposesZeros`); a record another mount has appended but not finalized breaks it
  (`GrowExposesRacingRecord`), and nothing else can (`FileReadWriter.Grow`).
- Every lock group is probed within a quarter of the groups' number of ticks exactly when the 64-bit cursor does
  not wrap on the way or the rounding up absorbs the wrap (`EveryGroupVisited`, `WrapMissesGroup`).
- Publishing a record exactly once needs that no detached chunk identity is attached again, which the metadata
  transactions do not check. Runs of the candidate show both failures without it (`ReattachedListRepeats`,
  `ReattachedListMissing`). `AppendExactly` says exactly when an append is sound, and `PublishedExactly`, of every
  run, that a call which returns OK leaves the record attached exactly when its list was not dropped since.

Nothing was executed.

## Model

| member | source | states |
|---|---|---|
| LockRanges.CutRanges | src/metadata/redis/RedisLockAuthority.cpp:159-170 | the cutting loop leaves what `Cut` describes: by `CutAt`, every old byte outside the request in its mode and nothing inside it |
| LockRanges.CutAt | src/metadata/redis/RedisLockAuthority.cpp:159-170 | after cutting, a byte is unlocked if requested and keeps its mode otherwise |
| LockRanges.MergeRanges | src/metadata/redis/RedisLockAuthority.cpp:174-183 | the merging loop computes the joined set, which by `MergedAt` locks the same bytes in the same modes |
| LockRanges.MergedAt | src/metadata/redis/RedisLockAuthority.cpp:174-183 | joining neighbours changes the mode of no byte |
| LockRanges.UpdateRanges | src/metadata/redis/RedisLockAuthority.cpp:154-188 | the stored set stays canonical (sorted, disjoint, nothing left to join), the requested mode holds exactly on the requested interval, every other byte keeps its mode |
| LockRanges.UpdatedMeaning | src/metadata/redis/RedisLockAuthority.cpp:154-188 | the same of the specification, for every canonical set, request and byte |
| LockRanges.CanonicalUnique | src/metadata/redis/RedisLockAuthority.cpp:154-188 | canonical sets that lock every byte alike are equal |
| LockRanges.UpdatedIdempotent | src/metadata/redis/RedisLockAuthority.cpp:154-188 | applying a request a second time changes nothing, so replaying one whose reply was lost is harmless |
| LockRanges.UnlockAllEmpties | src/metadata/redis/RedisLockAuthority.cpp:154-188 | unlocking from zero past every locked byte leaves the empty set |
| LockCodec.ValidateRange | src/metadata/redis/RedisLockAuthority.cpp:74-89 | fails exactly on overflow, a negative process or an empty interval; a zero length reaches to the end of the range |
| LockCodec.Encode | src/metadata/redis/RedisLockAuthority.cpp:146-152 | a canonical set's text decodes to that set exactly when it is within the interval and byte budgets |
| LockCodec.Decode | src/metadata/redis/RedisLockAuthority.cpp:95-144 | accepts only nonempty canonical sets within the interval budget and the field widths; everything else is Malformed |
| LockCodec.DecodeEncode | src/metadata/redis/RedisLockAuthority.cpp:95-152 | decoding undoes encoding on a canonical set if and only if it is within the budgets |
| LockCodec.DecodedCanonical | src/metadata/redis/RedisLockAuthority.cpp:95-144 | every stored text that is accepted denotes a canonical bounded set |
| LockCodec.DecodedExactly | src/metadata/redis/RedisLockAuthority.cpp:95-144 | a text is accepted as a set if and only if it is the header and the fields of that set, each number spelled in decimal within its width, and the set is nonempty, canonical and within the budgets |
| LockCodec.StoredForm | src/metadata/redis/RedisLockAuthority.cpp:146-152 | two stored values, letter by letter |
| LockAuthority.SetStateEffect | src/metadata/redis/RedisLockAuthority.cpp:258-277 | storing or erasing one owner's state, no-op unlock fence included, changes only that owner's field, leaves no fence behind and moves the watched version on |
| LockAuthority.DecisionSafe | src/metadata/redis/RedisLockAuthority.cpp:192-256 | a decided grant is compatible with every other owner whose lease was seen alive; which one is decided when is `FlockDecided` and `PosixDecided` |
| LockAuthority.FlockDecided | src/metadata/redis/RedisLockAuthority.cpp:524-575 | the answer to a flock request in every case, from what is stored and who is live: too many holders, no lease, an unreadable holder, opposed with and without a mode to yield, no room for one more, granted |
| LockAuthority.PosixDecided | src/metadata/redis/RedisLockAuthority.cpp:373-430 | the same for a record lock request, byte by byte: blocked exactly if a live owner has a requested byte in a mode that excludes the wanted one, and otherwise the one canonical set with the wanted mode on the requested bytes, unless it breaks a budget |
| LockAuthority.AfterKeepsInv | src/metadata/redis/RedisLockAuthority.cpp:373-430 | every interleaving of watch, read, lease probe, delayed EXEC, lease loss and garbage collection keeps the stored sets canonical and the queued commands tied to what was watched |
| LockAuthority.LockSafety | src/metadata/redis/RedisLockAuthority.cpp:373-430 | in every reachable state no two live owners hold conflicting record locks or flocks |
| LockAuthority.StoredDecodes | src/metadata/redis/RedisLockAuthority.cpp:192-256 | every set stored in any reachable state is within the budgets, and its text decodes to that set |
| LockAuthority.CommitAdvances | src/metadata/redis/RedisLockAuthority.cpp:258-277 | every committed request, also an unlock of nothing, moves the watched version, so older transactions abort |
| LockAuthority.NoGhostLock | src/metadata/redis/RedisKvTxn.cpp:304-327 | after a commit, a transaction that watched before it changes nothing, however late its EXEC arrives |
| LockAuthority.GrantTakesEffect | src/metadata/redis/RedisLockAuthority.cpp:373-430 | a committed record lock, of an owner whose lease is live at that moment, gives the owner the requested mode on exactly the requested bytes and touches no other field |
| LockAuthority.FlockTakesEffect | src/metadata/redis/RedisLockAuthority.cpp:524-575 | a committed flock request, of an owner whose lease is live at that moment, leaves the owner exactly the wanted mode if no live owner opposes it, and otherwise gives up the different mode the owner had; no other field changes |
| LockAuthority.UndisturbedRequest | src/metadata/redis/RedisLockAuthority.cpp:373-430 | a request whose commands run one after the other does what was decided on the present leases and fields, and moves the version, or changes nothing on a failure |
| LockAuthority.UnlockSticks | src/metadata/redis/RedisLockAuthority.cpp:524-589 | after a committed whole-range unlock or flock release the owner holds nothing until it begins a new grant, whatever it still has in flight |
| LockAuthority.SweepSparesLive | src/metadata/redis/RedisLockAuthority.cpp:303-371 | garbage collection, which watches only the generations of the page it scanned, never removes or alters the field of an owner whose lease is live |
| LockAuthority.UndisturbedSweep | src/metadata/redis/RedisLockAuthority.cpp:303-371 | a sweep that nothing disturbs removes exactly the fields of its page whose owners have no live lease |
| LockRetryScheduler.BlockedExactly | src/fuse/LockRetryScheduler.cpp:63-82 | one inspected holder blocks a waiter exactly when its stored value would block the waiter's request |
| LockRetryScheduler.EligibleExactly | src/metadata/redis/RedisLockAuthority.cpp:484-522 | on one snapshot a waiter is eligible if and only if the authority would find no conflict for the same request |
| LockRetryScheduler.CompatibleExactly | src/fuse/LockRetryScheduler.cpp:84-89 | two waiters fit together exactly when the value stored for the one, once granted, would not block the request of the other |
| LockRetryScheduler.FitsWith | src/fuse/LockRetryScheduler.cpp:84-89 | true exactly when the waiter is compatible with everyone selected so far |
| LockRetryScheduler.WakeGroup | src/fuse/LockRetryScheduler.cpp:138-159 | at most eight waiters are woken, in their order, each eligible; an eligible waiter is left out exactly if one woken before it conflicts with it or eight are woken before it |
| LockRetryScheduler.VisitGroups | src/fuse/LockRetryScheduler.cpp:116-127 | a tick visits the groups at the cursor and after it, around the circle, at most four, and moves the 64-bit cursor by their number |
| LockRetryScheduler.EveryGroupVisited | src/fuse/LockRetryScheduler.cpp:116-127 | every group is visited within the rounded-up quarter of their number of ticks if and only if the cursor does not wrap on the way or the rounding absorbs it |
| LockRetryScheduler.WrapMissesGroup | src/fuse/LockRetryScheduler.cpp:116-119 | a start before the wrap from which two ticks over six groups miss a group |
| AdvisoryLocks.FuseAdvisoryLocks.SetPosix | src/fuse/FuseAdvisoryLocks.cpp:54-133 | a grant is sent exactly if one is asked for and nothing of a failed last close is left, and then under a fresh attempt of that owner through that handle, which is its latest, in place before the grant and not closed; an unlock of a range is sent exactly if that is asked for; the status is the reply; a refused cleanup sends nothing and is not OK; the cleanup unlock is sent exactly if one was pending, once, for that attempt; no other owner is touched |
| AdvisoryLocks.FuseAdvisoryLocks.RecordAttempt | src/fuse/FuseAdvisoryLocks.cpp:103-113 | the owner gets a number never used before as its hint and latest attempt, and that attempt is on record as made through the given handle; every other record is kept |
| AdvisoryLocks.FuseAdvisoryLocks.FinishCleanup | src/fuse/FuseAdvisoryLocks.cpp:73-102 | OK means nothing of the owner's failed close is left; nothing is granted |
| AdvisoryLocks.FuseAdvisoryLocks.UnlockIfCurrent | src/fuse/FuseAdvisoryLocks.cpp:225-264 | the log of unlocks sent grows exactly if the hint is the expected attempt (and pending, when asked), by an entry with the handle of the latest attempt; OK forgets the owner everywhere, failure leaves the hint pending |
| AdvisoryLocks.FuseAdvisoryLocks.UnlockLater | src/fuse/FuseAdvisoryLocks.cpp:285-292 | after any other operations of the mount, every unlock it adds to the log is for the given attempt, which is the latest one and came through its handle; afterwards that attempt is gone or, if refused, pending |
| AdvisoryLocks.FuseAdvisoryLocks.ReleaseHandle | src/fuse/FuseAdvisoryLocks.cpp:266-293 | every owner whose latest attempt was made through the handle, whatever was noted for it, ends with that attempt gone or, if its unlock was refused, pending; every unlock it adds to the log is for such an attempt, the latest at that moment; OK means none was refused |
| AdvisoryLocks.FuseAdvisoryLocks.LockThenClose | src/fuse/FuseAdvisoryLocks.cpp:103-293 | a lock granted through a handle is released or left pending when that handle is closed, whatever the mount does in between, unless a concurrent close of the handle settled the attempt already |
| AdvisoryLocks.FuseAdvisoryLocks.RetryPendingCleanup | src/fuse/FuseAdvisoryLocks.cpp:314-344 | every unlock it adds to the log is for an attempt that was pending, and of the attempts found pending nothing is left but those whose unlock it sent and saw refused |
| AdvisoryLocks.StaysSettled | src/fuse/FuseAdvisoryLocks.cpp:103-113 | since numbers are never reused, an attempt that is gone stays gone and one that is pending stays pending until it is gone |
| SliceRecords.Overlay | src/chunk/slice/SliceRecord.cpp:64-92 | laying one older record over the gaps keeps gaps and spans a disjoint cover in which every span shows the newest record so far |
| SliceRecords.Coalesce | src/chunk/slice/SliceRecord.cpp:32-42 | joining keeps the tiling and what every position shows, and leaves no two neighbours that could be joined |
| SliceRecords.ResolveRange | src/chunk/slice/SliceRecord.cpp:46-108 | the spans tile the requested range in order, each position shows the newest record over it or zeros, nothing is left to coalesce; bad arguments and malformed records are rejected |
| SliceRecords.ResolvedUnique | src/chunk/slice/SliceRecord.cpp:46-108 | those properties determine the result |
| SliceRecords.ValidExactly | src/chunk/slice/SliceRecord.cpp:13-28 | the guards, written without overflow, accept exactly the nonempty records that end within the chunk and are zero covers without object fields or end within an object of a signed 64-bit identity |
| DirtyRanges.Gather | src/chunk/slice/SliceChunk.cpp:66-105 | the absorbed pieces are exactly a run with everything before it apart and everything after it apart, inside the hull |
| DirtyRanges.AcceptWrite | src/chunk/slice/SliceChunk.cpp:63-114 | the ranges stay disjoint and unjoinable, the write shows on its positions and nothing else changes, and the returned count is exactly the positions newly covered |
| DirtyRanges.ClipRanges | src/chunk/slice/SliceChunk.cpp:116-125 | every byte before the size stays, none at or past it does |
| DirtyRanges.CountTotal | src/chunk/slice/SliceChunk.cpp:63-114 | the total length of canonical ranges is the number of positions they cover |
| Layers.Rebuild | src/chunk/slice/SliceChunk.cpp:900-910 | re-accepting every layer oldest first shows each position's newest byte |
| Layers.LatestOfCanonical | src/chunk/slice/SliceChunk.cpp:900-910 | disjoint ranges show the same bytes in any order |
| Windows.GroupWindows | src/chunk/slice/SliceChunk.cpp:509-547 | each window's group has exactly the small eligible candidates starting in it, its hull, and the place of the last of them |
| Windows.CrowdedExactly | src/chunk/slice/SliceChunk.cpp:509-569 | a window has at least two members exactly if two different candidates of at most a quarter of it lie in it |
| Windows.BuildCandidate | src/chunk/slice/SliceChunk.cpp:570-609 | the assembled payload shows, at each position, the newest pending byte up to the insertion point or the committed byte it was hydrated from |
| Windows.PrepareWindows | src/chunk/slice/SliceChunk.cpp:509-609 | a candidate is replaced exactly when it is small, lies in one window and another small one lies in the same window, and the built candidates are a sound plan |
| Windows.Install | src/chunk/slice/SliceChunk.cpp:611-645 | sources disappear, built candidates take the place after their last source, everything else keeps its order |
| Windows.InstalledAt | src/chunk/slice/SliceChunk.cpp:611-645 | the small candidates of built windows are gone, every other entry is still there in its order, and directly after each one come exactly the groups that belong there |
| Windows.WindowsDisjoint | src/chunk/slice/SliceChunk.cpp:570-609 | candidates of different windows never cover the same position |
| Windows.CoalescingPreserves | src/chunk/slice/SliceChunk.cpp:478-650 | over the committed image, the reordered candidates followed by later arrivals show every position as before |
| Windows.CoalescingKeepsEof | src/chunk/slice/SliceChunk.cpp:478-650 | the furthest end of file any candidate advances to is unchanged |
| SliceSession.OpenedInv | src/chunk/slice/SliceChunk.cpp:129-140 | a fresh session on a file that is zero past its end satisfies the invariant |
| SliceSession.WriteStep | src/chunk/slice/SliceChunk.cpp:142-188 | a write shows its bytes, nothing else, and keeps the invariant, freezing included |
| SliceSession.BeginStep | src/chunk/slice/SliceChunk.cpp:652-666 | starting a flush changes nothing a reader sees |
| SliceSession.CoalesceStep | src/chunk/slice/SliceChunk.cpp:478-650 | installing window candidates assembled from any snapshot of the frozen generations, those frozen since the flush began included, changes nothing a reader sees |
| SliceSession.EarlierHarmless | src/chunk/slice/SliceChunk.cpp:357-459 | over a run without a truncation whose landings are harmless, committed bytes read at its start are still current at its end wherever nothing is pending |
| SliceSession.LandStep | src/chunk/slice/SliceChunk.cpp:758-898 | attaching a harmless record of the oldest unpublished candidate changes nothing a reader sees |
| SliceSession.OrphanStep | src/chunk/slice/SliceChunk.cpp:912-931 | nor does the late arrival of a harmless record whose candidate a truncation released |
| SliceSession.GrowStep | src/chunk/slice/SliceChunk.cpp:871-898 | finalizing the end of the file changes nothing a reader sees |
| SliceSession.FinishStep | src/chunk/slice/SliceChunk.cpp:680-756 | retiring the published generations and rebuilding the dirty map changes nothing a reader sees |
| SliceSession.ShrinkStep | src/chunk/slice/SliceChunk.cpp:912-931 | a truncation at any time, in the middle of a flush and with records under way included, keeps the invariant and hides the bytes past the size and nothing else |
| SliceSession.ClippedAt | src/chunk/slice/SliceChunk.cpp:912-931 | a generation with a byte before the size stays in its order, cut there, its record only if it has landed; any other one is gone |
| SliceSession.StepPreserves | src/chunk/slice/SliceChunk.cpp:142-931 | every step but a harmful landing keeps the invariant, and only writes and shrinks change the view, by exactly their effect |
| SliceSession.RunPreserves | src/chunk/slice/SliceChunk.cpp:142-931 | in every state of every run whose landings are harmless the view is the initial one overlaid by the writes and cut by the shrinks so far |
| SliceSession.RunExactly | src/chunk/slice/SliceChunk.cpp:142-931 | in a run readers see in every state exactly the effect of writes and shrinks, with nothing hidden that growth or retirement would bring back, if and only if every landing is harmless |
| SliceSession.FlushHarmless | src/chunk/slice/SliceChunk.cpp:652-756 | when the landings of a flush are harmless: on every exit readers see the bytes of the start overlaid by the writes and cut by the shrinks meanwhile; on OK the committed history alone shows every position not written meanwhile and the file covers every candidate's end |
| SliceSession.FinishedCommits | src/chunk/slice/SliceChunk.cpp:680-756 | after everything was published, a position not written since the flush began is clean and committed |
| SliceSession.LandExactly | src/chunk/slice/SliceChunk.cpp:758-898 | a record longer than its clipped candidate lands invisibly, now and after growth, if and only if each byte past the clipped end has a newer one waiting or is what the history shows already |
| SliceSession.OrphanExactly | src/chunk/slice/SliceChunk.cpp:912-931 | so does a record whose candidate was released, now, after growth and after retirement, if and only if the same holds of all its bytes |
| SliceSession.ClippedRecordReappears | src/chunk/slice/SliceChunk.cpp:912-931 | a run in which a truncated byte is visible again after the record lands and the file grows |
| SliceSession.ReleasedRecordReappears | src/chunk/slice/SliceChunk.cpp:912-931 | another in which the truncation had released the candidate altogether |
| SliceGuards.OpenedTame | src/chunk/slice/SliceChunk.cpp:129-140 | a fresh session satisfies the invariant and is tame: no record outlived its candidate, and what one under way holds beyond its candidate is shown already |
| SliceGuards.TameStep | src/chunk/slice/SliceChunk.cpp:142-931 | every step keeps a session tame, a truncation if it finds only zeros past the size in the records under way and releases none of their candidates |
| SliceGuards.GuardedSafe | src/chunk/slice/SliceChunk.cpp:142-931 | in every run from a tame state whose truncations find that, every landing is harmless |
| SliceGuards.GuardedRun | src/chunk/slice/SliceChunk.cpp:142-931 | so in every state of such a run the view is the initial one overlaid by the writes and cut by the shrinks so far |
| SliceGuards.EarlierImage | src/chunk/slice/SliceChunk.cpp:357-459 | over every run without a truncation from a tame state, committed bytes read at its start are still current at its end wherever nothing is pending |
| SliceGuards.FlushPreserves | src/chunk/slice/SliceChunk.cpp:652-756 | when the truncations during a flush are guarded: on every exit readers see the bytes of the start overlaid by the writes and cut by the shrinks meanwhile; on OK the committed history alone shows every position not written meanwhile and the file covers every candidate's end |
| SliceGuards.ShrinkExactly | src/chunk/slice/SliceChunk.cpp:912-931 | whatever record arrives right after a truncation is invisible, then, after growth and after retirement, if and only if the records under way had only zeros past the size |
| SliceGuards.ReleasedZeroReturns | src/chunk/slice/SliceChunk.cpp:912-931 | a run in which the zeros of a released record arrive over a byte that was written and committed since |
| SliceDurability.OpenedFirm | src/chunk/slice/SliceChunk.cpp:129-140 | a fresh session on a file that is zero past its end meets the hypotheses of the durability theorems |
| SliceDurability.FirmRun | src/chunk/slice/SliceChunk.cpp:142-931 | in every state of a guarded run the history shows what has landed, also under newer pending bytes, and nothing else past the end |
| SliceDurability.EarlierUnheld | src/chunk/slice/SliceChunk.cpp:357-459 | the image a flush read is still current wherever the generations it took hold nothing, also where bytes were accepted since |
| SliceDurability.FlushDurable | src/chunk/slice/SliceChunk.cpp:652-756 | after a guarded flush that returned OK the committed byte of every position, written meanwhile or not, is the one readers saw when it began, one written there since, or zero where a truncation cut the file |
| SliceDurability.UndisturbedFlush | src/chunk/slice/SliceChunk.cpp:652-756 | from every idle tame state there is a flush that returns OK, retires everything, commits at every position the byte readers saw, and ends the file where it ended or where the furthest accepted byte does |
| SliceChunks.CoveredBytes | src/chunk/slice/SliceChunk.cpp:163-178 | the number of positions of the part already active |
| SliceChunks.SliceChunk.FreezeActive | src/chunk/slice/SliceChunk.cpp:461-476 | each active range becomes one frozen generation, in order, behind the older ones |
| SliceChunks.SliceChunk.AcceptPart | src/chunk/slice/SliceChunk.cpp:158-186 | the active ranges are frozen exactly if the part would reach the budget; the budget is accounted exactly and never reached after the part is in, and the part is the newest layer |
| SliceChunks.SliceChunk.Write | src/chunk/slice/SliceChunk.cpp:142-188 | out-of-range writes are refused unchanged; any other write is the session's write step in every world around the chunk, and freezes nothing as long as it fits the budget |
| SliceChunks.ClipGenerations | src/chunk/slice/SliceChunk.cpp:916-927 | every generation is clipped, the empty ones go, and the flush's candidates that are left are counted |
| SliceChunks.SliceChunk.ClipLocal | src/chunk/slice/SliceChunk.cpp:912-931 | the local truncation is the session's shrink step in every world around the chunk and is counted, so assemblies notice it |
| SliceChunks.SliceChunk.BeginFlush | src/chunk/slice/SliceChunk.cpp:652-666 | one flush at a time, starting with everything accepted |
| SliceChunks.SliceChunk.Retire | src/chunk/slice/SliceChunk.cpp:667-698 | retiring the confirmed prefix and letting the next flush begin is the session's finish step |
| SliceChunks.SliceChunk.Race | src/chunk/slice/SliceChunk.cpp:496-648 | the writes and truncations of other fibers are the session's steps in that order, and the epoch moves exactly if one of them truncates |
| SliceChunks.SliceChunk.InstallBuilt | src/chunk/slice/SliceChunk.cpp:617-647 | putting the built candidates in place is the session's coalescing step |
| SliceChunks.SliceChunk.PrepareWindowCandidates | src/chunk/slice/SliceChunk.cpp:478-650 | its whole effect is the given races followed by at most one coalescing step over everything frozen at the last snapshot, taken by the first attempt whose race truncates nothing; exactly the windows with two small ranges are coalesced; four truncating races give Busy; a read error is passed on and installs nothing |
| SliceChunks.SliceChunk.CaptureBoundary | src/chunk/slice/SliceChunk.cpp:937-971 | a read failure or a shortened list fails the session closed; otherwise the clamp of the present mapping is recorded, and all clamps kept are of that mapping |
| BoundaryClamps.Sanitize | src/chunk/slice/SliceChunk.cpp:259-284 | the single reverse pass cuts each record to the strictest clamp captured after it; a list shorter than a clamp or an invalid record is Malformed |
| BoundaryClamps.CapturedStrictest | src/chunk/slice/SliceChunk.cpp:937-971 | one more clamp lowers the bound of every existing record to it and of no later one |
| BoundaryClamps.CapturedCuts | src/chunk/slice/SliceChunk.cpp:937-971 | sanitizing with one more clamp equals cutting the previous result |
| BoundaryClamps.CapturedOneMapping | src/chunk/slice/SliceChunk.cpp:937-971 | the clamps kept are all of one mapping, the one the newest was captured for |
| BoundaryClamps.PassEqualsReplay | src/chunk/slice/SliceChunk.cpp:259-284 | for every sequence of appends and truncations the reverse pass equals replaying them in order |
| BoundaryClamps.CutAllVisible | src/chunk/slice/SliceChunk.cpp:411-435 | cutting the records cuts the bytes at the size and changes none before it |
| BoundaryClamps.VisibleIsLatest | src/chunk/slice/SliceChunk.cpp:411-435 | resolving the newest record over a position gives the newest byte layer |
| SliceReads.Overlays | src/chunk/slice/SliceChunk.cpp:203-224 | exactly the dirty bytes of the requested range |
| SliceReads.FetchSpan | src/chunk/slice/SliceChunk.cpp:290-346 | every position of the span that no overlay hides is copied from the object, and nothing else |
| SliceReads.FetchSpans | src/chunk/slice/SliceChunk.cpp:290-346 | with one cursor over both sorted lists, every published position not hidden is filled from the newest record |
| SliceReads.ReadPublished | src/chunk/slice/SliceChunk.cpp:227-346 | Malformed exactly on an unreadable list; on success every position not hidden shows the sanitized history below the end of file, read from an object that is stored; it succeeds when the objects are stored |
| SliceReads.Read | src/chunk/slice/SliceChunk.cpp:190-355 | each returned byte is the accepted one or else the published one, from an object that is stored; range, boundary, metadata and list errors are passed on; it succeeds whenever those are fine and the objects are stored |
| SliceRuns.StepMirrors | src/chunk/slice/SliceChunk.cpp:190-355 | every step of the session keeps the sanitized record list showing what the session's history shows: landings by their appended record, truncations by the clamp captured |
| SliceRuns.ReadIsView | src/chunk/slice/SliceChunk.cpp:190-355 | the byte `Read` returns is then the session's view |
| SliceRuns.HarmlessReads | src/chunk/slice/SliceChunk.cpp:190-355 | in every state of every run whose landings are harmless `Read` returns the bytes it returned at the start, overlaid by the writes and cut by the shrinks |
| SliceRuns.RunReads | src/chunk/slice/SliceChunk.cpp:190-355 | so it does in every state of every run whose truncations are guarded |
| SliceRuns.DurableReads | src/chunk/slice/SliceChunk.cpp:652-756 | after a guarded flush that returned OK the published state alone reads at every position as `Read` did when it began, as a byte written since, or as zero where the file was cut |
| SliceRuns.ReadAroundFlush | src/chunk/slice/SliceChunk.cpp:652-756 | reading a range before a flush and after it, when nothing was written to or cut from it meanwhile and the truncations elsewhere are guarded, succeeds with the same bytes |
| SlicePublication.StepKeeps | src/chunk/slice/SliceChunk.cpp:758-898 | every step of the candidate, of delayed commands and of other mounts that attaches no detached identity keeps the record bookkeeping sound |
| SlicePublication.AfterKeeps | src/metadata/redis/RedisMetaClient.cpp:289-318 | so does every sequence of them, with replies lost and commands landing late |
| SlicePublication.AtMostOnce | src/chunk/slice/SliceChunk.cpp:758-898 | as long as no detached identity is attached again, no list ever holds the record twice |
| SlicePublication.PublishedMeans | src/metadata/redis/RedisMetaTxn.cpp:969-1072 | under the same hypothesis the step that returns OK leaves the record once in the attached list, and the end of the file is the later of the one before and the record's |
| SlicePublication.StepEnd | src/metadata/redis/RedisMetaTxn.cpp:969-1072 | in any state at all, no step of the candidate or of its commands shortens the file or moves its end anywhere but to the record's, only an attach or a commit moves it, and the step that returns OK leaves the later of the two ends |
| SlicePublication.CommitsOverSnapshot | src/metadata/redis/RedisMetaTxn.cpp:969-1072 | the candidate moves the end or the mapping only over the end and mapping of its snapshot, and a late attach only over the version it was sent at |
| SlicePublication.VersionMoves | src/metadata/redis/RedisKvTxn.cpp:304-327 | every change of the end or the mapping moves the watched version on, and an attach is sent at the current one |
| SlicePublication.StaleAttachVoid | src/metadata/redis/RedisKvTxn.cpp:304-327 | so an attach sent before such a change does nothing, however many events later it arrives |
| SlicePublication.StepLists | src/chunk/slice/SliceChunk.cpp:758-898 | steps of the candidate change one list at most and only by adding the record; nothing is lost or reordered |
| SlicePublication.UndisturbedPublish | src/chunk/slice/SliceChunk.cpp:758-898 | a call that nothing disturbs, with its replies heard or confirmed by reading back, adds the record to the attached list or attaches a new list with it alone, moves the end to cover it and changes nothing else; it is OK unless only the end was to be confirmed |
| SlicePublication.RetryPublishes | src/chunk/slice/SliceChunk.cpp:825-872 | calling again where the record is in place publishes it without sending it a second time |
| SlicePublication.UnheardResumes | src/chunk/slice/SliceChunk.cpp:825-872 | an append that was applied without a reply leaves the candidate there |
| SlicePublication.RefusalsCounted | src/chunk/slice/SliceChunk.cpp:813-898 | in every run a call at work has met as many refusals as its attempt number, fewer than eight, and the eighth makes it return |
| SlicePublication.AppendExactly | src/chunk/slice/SliceChunk.cpp:825-868 | an accepted append keeps every list at one copy if and only if the chosen list was untouched |
| SlicePublication.PublishedExactly | src/chunk/slice/SliceChunk.cpp:758-898 | in every run at all, the step that returns OK leaves the record in the attached list if and only if that list was not dropped with the record in it since the append |
| SlicePublication.ReattachedListRepeats | src/chunk/slice/SliceChunk.cpp:758-898 | a run from a fresh candidate in which another mount attaches its detached list again and the list gets a second copy |
| SlicePublication.ReattachedListMissing | src/chunk/slice/SliceChunk.cpp:825-872 | a run in which the candidate's own attach is applied unheard, undone and its list dropped, and the next call attaches the identity again and returns OK without the record |
| ChunkSizePlan.DetachedExactly | src/metadata/ChunkSizePlan.cpp:114-128 | a mapping is detached exactly when no byte of it lies before the target |
| ChunkSizePlan.BoundaryExactly | src/metadata/ChunkSizePlan.cpp:114-128 | the boundary is the chunk whose interior the target falls into, if any |
| ChunkSizePlan.StartOffsetExactly | src/metadata/types/Chunk.cpp:39-48 | the overflow guard rejects exactly the products past the largest file size |
| ChunkSizePlan.NormalizeMappings | src/metadata/ChunkSizePlan.cpp:20-42 | succeeds exactly when every identity is valid, every offset is representable and no index repeats; the result is the sorted input |
| ChunkSizePlan.FindChunk | src/metadata/ChunkSizePlan.cpp:44-52 | the binary search finds the identity mapped at the index, if any |
| ChunkSizePlan.PlanSizeChange | src/metadata/ChunkSizePlan.cpp:130-175 | succeeds exactly on valid sizes and mappings, with the plan they determine |
| ChunkSizePlan.ValidateCommit | src/metadata/ChunkSizePlan.cpp:177-203 | a plan is accepted exactly when its direction is the one asked for and its end of file and boundary are what the transaction reads, and what is committed is recomputed from that; an ill-posed plan is InvalidArgument, an overtaken one AlreadyExists |
| ChunkSizePlan.AcceptedShrink | src/metadata/ChunkSizePlan.cpp:130-203 | an accepted shrink splits the mappings: those detached, whose identities the plan lists in order, are exactly the ones without a byte before the target, every other one intersects the shrunk file, and the retained boundary holds the interior end |
| ChunkSizePlan.AcceptedGrow | src/metadata/ChunkSizePlan.cpp:130-203 | an accepted grow detaches nothing, and its boundary is the mapping under the interior old end, if there is one |
| ChunkSizePlan.PlanAccepted | src/metadata/ChunkSizePlan.cpp:130-203 | a plan made from what the transaction reads is always accepted |
| SizeTransitions.SanitizedRaw | src/chunk/ChunkFactory.cpp:66-117 | sanitation reads as zeros from the prefix on and as before in front of it, for both chunk kinds |
| SizeTransitions.FileReadWriter.SanitizeCow | src/chunk/cow/COWChunkBoundary.cpp:11-51 | while other mounts keep exchanging heads, OK means every byte past the prefix is zero or was installed by another mount during the call; no other byte is touched; it fails only after a failed exchange with the server |
| SizeTransitions.ClampBytes | src/chunk/ChunkFactory.cpp:66-117 | clamping an attached boundary hides its suffix and changes no other byte of the file |
| SizeTransitions.ResizedBelow | src/metadata/redis/RedisMetaTxn.cpp:1084-1165 | bytes before both the old and the new end are untouched |
| SizeTransitions.ResizedAbove | src/metadata/redis/RedisMetaTxn.cpp:1084-1165 | past the old end only the chunk under it can show anything but zeros |
| SizeTransitions.GrowExposesZeros | src/metadata/redis/RedisMetaTxn.cpp:1084-1165 | a grow exposes only zeros if and only if the chunk under the old end shows zeros up to the new one |
| SizeTransitions.GrowExposesRacingRecord | src/vfs/FileReadWriter.cpp:669-688 | another mount's unfinalized record between the zero cover and the commit is exposed, although the plan is still accepted |
| SizeTransitions.StoppedShrink | src/metadata/redis/RedisMetaTxn.cpp:1151-1158 | a shrink whose commands stop midway never shows the old end over a missing mapping |
| SizeTransitions.StoppedGrow | src/metadata/redis/RedisMetaTxn.cpp:1159-1164 | a grow whose commands stop midway never shows the new end over a mapping from before |
| SizeTransitions.FileReadWriter.Race | src/chunk/ChunkFactory.cpp:66-117 | other mounts go on with a given script of appends and head exchanges by some steps; the file is the result of exactly those, and a byte is the one from before or one they installed |
| SizeTransitions.FileReadWriter.SanitizeBoundary | src/chunk/ChunkFactory.cpp:66-117 | OK on an attached boundary means zeros from the prefix on, except what other mounts installed during the call; every other byte descends from the one before; it fails only after a failed exchange or over a mapping without content |
| SizeTransitions.FileReadWriter.SanitizeShrunk | src/vfs/FileReadWriter.cpp:770-799 | after a committed shrink the kept prefix stays, OK means a clean end, and it fails only after a failed exchange or over a mapping without content |
| SizeTransitions.FileReadWriter.CommitResize | src/metadata/redis/RedisMetaTxn.cpp:1084-1165 | OK means the precondition still held and the file is resized; a lost reply leaves a prefix of the commands in their order, a command error any subset of the detaches and the move of the end or not, every other failure nothing; it fails only after a failed exchange or when the plan no longer matches the file |
| SizeTransitions.FileReadWriter.Recover | src/vfs/FileReadWriter.cpp:690-766 | after a failed commit the session goes on only if the file is untouched or completely resized, and then knows its size; it fails closed only after an uncertain commit, and then only if the file is neither or a further exchange failed |
| SizeTransitions.FileReadWriter.Grow | src/vfs/FileReadWriter.cpp:665-799 | with other mounts appending and exchanging heads between all its steps: OK means every byte up to the new end is the old one, zero past the old end, or installed by another mount during the call, so hidden bytes never return; on any exit the old bytes are kept in that sense and the cached size is right or the session failed closed; it fails only after a failed exchange or over a mapping without content, and fails closed only after an uncertain one |
| SizeTransitions.FileReadWriter.Shrink | src/vfs/FileReadWriter.cpp:665-799 | under the same interference: OK means the prefix kept and a clean end; on any exit the prefix is kept and the cached size is right or the session failed closed; it fails for the same reasons only |
| SizeTransitions.FileReadWriter.CommitSizeChange | src/vfs/FileReadWriter.cpp:600-799 | the same for every target, the truncation to the present size included; a session that failed closed changes nothing, and a change that is allowed fails for the same reasons only |
| CowHeads.StepKeeps | src/chunk/cow/COWChunk.cpp:240-474 | every step of a flush, a truncation, a cleanup or a late command keeps the head, object and retirement bookkeeping sound |
| CowHeads.AfterKeeps | src/chunk/cow/COWChunk.cpp:240-474 | so does every sequence of them from the empty volume |
| CowHeads.AttachedReadable | src/chunk/cow/COWChunk.cpp:240-474 | in every reachable state every attached identity has a head whose object exists and is long enough; how long exactly is `CowContents.AttachedWhole` and `HeadSized` |
| CowHeads.HeadsForward | src/metadata/redis/RedisCOWChunkMetadata.cpp:87-126 | a head's revision never falls, and under one revision its visible size only shrinks |
| CowHeads.NeverReattached | src/metadata/redis/RedisMetaTxn.cpp:969-1019 | a detached identity is attached nowhere ever again, although lost attaches may still arrive |
| CowHeads.LandHeads | src/metadata/redis/RedisCOWChunkMetadata.cpp:87-126 | an exchange whose expectation holds keeps heads stored, attached identities live and revisions moving forward |
| CowHeads.FinishRetires | src/chunk/cow/COWChunk.cpp:440-474 | the revision handed to cleanup is behind the published one |
| CowHeads.DropKeeps | src/chunk/cow/COWCleanup.cpp:253-356 | deleting a retired revision or a detached identity's object leaves every attached one readable |
| CowContents.PublishedWhole | src/chunk/cow/COWChunk.cpp:240-474 | every revision that was ever published was, at that moment, the head with exactly the size of the generation one flush proposed under that number, over an object of exactly that length |
| CowContents.FlushPublishes | src/chunk/cow/COWChunk.cpp:240-474 | in every run, a flush that has published did so with the size of its own generation: from its proposal on it offers that head and no other, and at some moment the head was that one over an object of that length |
| CowContents.HeadSized | src/chunk/cow/COWChunkBoundary.cpp:11-51 | in every run a head shows the whole generation its revision was proposed with, or the shortest prefix some truncation cut it to: such a truncation was asked for and landed, and none that landed is shorter |
| CowContents.AttachedWhole | src/chunk/cow/COWChunk.cpp:240-474 | in every reachable state the object of an attached identity has exactly the length of the generation proposed under its head's revision |
| CowContents.HeadShrinks | src/metadata/redis/RedisCOWChunkMetadata.cpp:87-126 | between any two states of a run with the same revision the head's size does not grow |
| CowContents.FirstFlush | src/chunk/cow/COWChunk.cpp:301-457 | an undisturbed first flush attaches a fresh identity with a head and an object of the generation's size and changes nothing else |
| CowContents.NextFlush | src/chunk/cow/COWChunk.cpp:301-474 | an undisturbed later flush replaces the head by a higher revision of the generation's size and hands the one before to cleanup |
| CowContents.LateAttach | src/chunk/cow/COWChunk.cpp:353-409 | an attach whose reply was lost does, when it arrives, what an answered one does |
| CowContents.ClampShortens | src/chunk/cow/COWChunkBoundary.cpp:11-51 | an undisturbed truncation below the head's size makes it the prefix and touches no object |
| CowContents.CleanupDeletes | src/chunk/cow/COWCleanup.cpp:253-356 | cleanup deletes the object of a retired revision that is not the head's |
| CowContents.DetachDeletes | src/chunk/cow/COWCleanup.cpp:253-356 | after a detach, cleanup deletes the identity's object and head |
| CowContents.CheckSpares | src/chunk/cow/COWCleanup.cpp:253-356 | cleanup does not even start on a revision that was not retired or is the head's, nor on an identity that was not handed over as detached or is still attached there |
| FiberRuntime.DrainedExactly | src/utils/FiberRuntime.cpp:45-96 | over every interleaving the drain is signalled at most once, and exactly in the states that accept nothing and hold nothing |
| FiberRuntime.DrainedForever | src/utils/FiberRuntime.cpp:67-96 | after the signal nothing is admitted or held again, although an admission may still be at its exchange |
| FiberRuntime.ReturnsDrained | src/utils/FiberRuntime.cpp:98-145 | a Shutdown call off the driver thread returns only after the drain and the join; on any thread it returns with admission closed |
| FiberRuntime.ReturnsEarly | src/utils/FiberRuntime.cpp:98-106 | on the driver thread it returns while a task is still held |
| FiberRuntime.HeldNotJoined | src/utils/FiberRuntime.hpp:59-96 | while a task reference is out the driver has not been joined |
| FiberRuntime.ReferencesCounted | src/utils/FiberRuntime.cpp:67-86 | over every interleaving the references held are those admitted and handed on less those released |
| FiberRuntime.PostAdmits | src/utils/FiberRuntime.cpp:67-77 | an admission that nothing disturbs succeeds while the runtime accepts |
| FiberRuntime.RefusedWhenClosed | src/utils/FiberRuntime.cpp:67-77 | an admission that ends was counted, or the runtime has stopped accepting |
| FiberRuntime.CallersServed | src/utils/FiberRuntime.cpp:98-145 | over every interleaving a caller of Shutdown owns it or waits for it from its call on, and once it is complete has returned |
| FiberRuntime.ShutdownReturns | src/utils/FiberRuntime.cpp:98-145 | once everything held is released, a shutdown drains with one signal, joins and returns, to its caller and to everyone waiting |
| PosixAcl.Validate | src/metadata/PosixAcl.cpp:141-229 | accepts exactly the entry lists of the grammar: one of each base entry, ordered and distinct named entries, at most one mask, and a mask whenever there are named entries |
| PosixAcl.Parse | src/metadata/PosixAcl.cpp:65-90 | succeeds exactly on a whole number of versioned entries in the grammar, with the entries the bytes spell |
| PosixAcl.Serialize | src/metadata/PosixAcl.cpp:92-102 | the bytes whose reading, by `ParseOfSerialize`, is the given list |
| PosixAcl.ParseOfSerialize | src/metadata/PosixAcl.cpp:65-102 | reading what was written gives back every entry list |
| PosixAcl.SerializeOfParse | src/metadata/PosixAcl.cpp:65-102 | writing what was read gives back every well-formed byte string |
| PosixAcl.SerializedLayout | src/metadata/PosixAcl.cpp:92-102 | the bytes of every entry list: version two, then tag, permissions and identity of each entry, least significant byte first |
| PosixAcl.ModeAgrees | src/metadata/PosixAcl.cpp:109-118 | the permission bits of a list are a mode's exactly if the owner's, the group class's and the others' entries have its three digits, the mask standing for the group class where there is one |
| PosixAcl.MinimalExactly | src/metadata/PosixAcl.cpp:104-107 | a list in the grammar is minimal exactly if it has no entry beside the owner's, the group's and the others' |
| Bits.AndBit | src/metadata/PosixAcl.cpp:130-138 | the intersection has exactly the bits both have |
| Bits.MaskedBit | src/metadata/PosixAcl.cpp:385 | masking with the umask clears exactly its nine bits |
| PosixAcl.ApplyModeMeans | src/metadata/PosixAcl.cpp:120-128 | after applying a mode the list stays in the grammar, the three classes have the mode's digits, and every other entry is unchanged |
| PosixAcl.RestrictMeans | src/metadata/PosixAcl.cpp:130-138 | after restricting, each class has a permission bit exactly if it had it and the mode has it, the list stays in the grammar, and every other entry is unchanged |
| PosixAcl.Inode.SetAcl | src/metadata/PosixAcl.cpp:287-333 | succeeds exactly on a value in the grammar of an inode that may carry it, with the presence the mode of the call asks for and room for one more attribute where one is added; mode and access ACL stay in agreement, a minimal ACL is folded into the mode, failures change nothing |
| PosixAcl.Inode.RemoveAcl | src/metadata/PosixAcl.cpp:335-355 | succeeds exactly if there is something of that kind to remove; the mode stays |
| PosixAcl.Inode.Chmod | src/metadata/Utils.cpp:20-81 | the permission bits change as asked and the access ACL, if any, has them in its three classes and keeps every other entry |
| PosixAcl.Inode.Inherit | src/metadata/PosixAcl.cpp:375-403 | a child of a directory with a default ACL gets a permission bit exactly if both its mode and the class of the default have it, and the entries of the default as its ACL unless that is minimal; without one it keeps exactly the bits the umask lacks; only directories inherit the default |

## Left out

- Writing, reading and flushing across chunks (`FileReadWriter` outside size changes), namespace operations, the FUSE and VFS entry points: they dispatch and would add easy members.
- The wire protocol of Redis, object storage and I/O buffers: commands, their replies and objects are values, and replies may be lost.
- `COWChunk` read, write and hydration buffers: only its publication, truncation and cleanup are modelled, and an object is its length.
- The loops of `SliceChunk::Flush` over its candidates: uploading and publishing one are steps of `SliceSession` and, command by command, of `SlicePublication`.
- Payloads of cleanup work and their encoding; cleanup is a step that may happen at any time.
- Retry and backoff of `RedisMetaClient::Transact`: a retried transaction is further events.
- `GetPosix`, the conversion of FUSE ranges, blocking waits, cancellation and timers of the lock front end; `StopBackgroundCleanup` and the repetition of cleanup passes.
- Lease times: a lease may be lost between any two steps.
- The sizes of extended attribute lists and the policy checks before a size change: their verdicts are parameters.
- Time stamps.
- Attempt numbers, versions and revisions are unbounded; the scheduler's cursor has 64 bits.
- Liveness: an uncertain append whose candidate is clipped afterwards, or a created list whose chunk was recorded elsewhere and then detached, is retried without an end; the safety theorems cover these runs.
- LockRanges.UpdateRanges: the budget check after the loops is part of `LockAuthority.Decision`.
- SliceGuards.GuardedSafe: the guard asks that no candidate under way is released, which is sufficient; a released record does no harm as long as nothing is committed over it.
- SliceSession.RunPreserves: other mounts' records do not appear within a run, and the bytes past the end of file are zero at its start.
- SlicePublication.AtMostOnce: records are compared by slice identity, as the payload of one identity never changes.
- SliceChunks.SliceChunk.PrepareWindowCandidates: the frozen candidates that the source shares by reference are values at positions of the sequence, with a count of those the flush holds; the committed images and the racing operations are parameters.
- SizeTransitions.FileReadWriter.Grow: other mounts append and exchange heads between its steps; their size changes and attachments show only as a refused commit.
- BoundaryClamps.PassEqualsReplay: clamps of one attached mapping; a remapped chunk starts with none.
- SizeTransitions.FileReadWriter.SanitizeCow: the replies and the exchanges of other mounts are given as finite scripts, after which every exchange is answered and undisturbed; the source's loop has no bound of its own.
