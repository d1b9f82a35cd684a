# Verified models of a race detector, its replayer, its cache simulator and its hashes

The repository records a multi-threaded program with vector clocks and access signatures, reports
data races from bounded histories, replays recorded programs from the logged clocks, simulates
coherent caches, and carries a small library of universal hash functions. This project models the
logic of these four parts in Dafny and proves what each of them is for.

**Recording and race detection.** `Programs` describes what threads may do, without any clock, and
defines happens-before on the positions of a run. `Clocks`, `Synchronization` and `Recorder` are the
detector's clocks, release and barrier records, filters, logs and histories as a function of its
state, and `PthreadHooks` and `Detection` the same as methods that update tables in place.
`Causality`, `Knowledge` and `HappensBefore` carry the invariant of every run up to exactness: the
two-entry comparison is happens-before. `RaceReports` derives what is reported and `ProgramRaces` says
it in terms of the run alone: no clock, filter or history occurs in its definition of a race.
`BarrierRounds` shows that reused barriers do not mix rounds, `EpochLog` that the logged text is lossless.

**Replay.** `Recording` and `RecordedRuns` show what the logs of a completed run of creates and joins
look like. `Replay` is the replayer as guarded steps over an unspecified schedule, `ReplayGuarantees`
its safety and progress for every schedule, `ReplayOfRuns` the two tools together, `ReplayHooks` the
hooks as methods.

**Caches.** `CacheWays` is one set as a recency list, `CacheStorage` the arrays of lines and pointers
that implement it, `CacheGeometry` and `BitSmearing` where sets lie. `Recency`, `LruRuns` and
`LruInclusion` treat whole runs of one set. `Coherence` and `Traffic` are the protocol and its
counters over any number of caches, `CoherenceRuns` every run of the simulator, `SimulatorCounts` what it counts; `SetsInRuns` says
which uses reach each set in such a run and carries the results on single sets over to it,
`InclusionInRuns` and `MoreWays` compare simulators with different numbers of ways on the same events, and
`MultiCacheSimulator` is the objects and loops.

**Hashing and filters.** `Counting`, `Residues` and `AffineKeys` count keys exactly; `Multilinear`,
`Xama`, `XamaLengths`, `Pyramid`, `PyramidPasses` and `AlmostUniversal` use them, `Barrett` works over GF(2).
`BloomFilters` is the filter object with the set of addresses added to it as ghost state, and
`FilterDetection` the race detection module on such objects, beside the same module on exact sets;
`FilteredRuns` shows that on filters no race of a run goes unreported.

Where the code and what is said of it disagree, the code is followed:

- Mutexes above `MUTEX_POINTER_LIMIT` are ignored, so accesses ordered only by one are called
  concurrent (`HappensBefore.HandOverSeenUpToLimit`). The comparison is the program's own order in every
  run of a program exactly when none of its mutexes lies above the limit (`HappensBefore.LimitIsExact`).
- The recency list of a set is not always a prefix of the list of a wider one, because snoops look lines
  up (`LruInclusion.SnoopBreaksPrefix`). It is one after each use of a run exactly when no such lookup
  finds in the wide set alone what it looks for, the narrow one not being empty
  (`LruInclusion.NarrowIsPrefix`).
- More ways can turn a hit into a miss, and make a cache miss more often. For one set driven by the same uses
  they never do (`LruInclusion.WiderNeverMisses`), but the snoops that a set sees come from misses of other
  caches, which depend on the ways: with more ways there are fewer of them, and fewer lines are brought to
  the front. `MoreWays.MoreWaysLoseIt` gives the run for any 1 < a < b ways. In all runs with at most c caches
  the simulator with b ways holds what the one with a < b ways holds exactly if a = 1 or c <= 1
  (`MoreWays.InclusionIsExact`), and the same condition decides the misses (`MoreWays.FewerMissesIsExact`).
- StrongMultilinear is said to be strongly universal. Strings that differ only by zeros at the end of the
  longer one always hash alike; for all others it is (`Multilinear.StronglyUniversalExactly`). XAMA, said to
  be actually strongly universal, is so on strings of even lengths of which neither is the beginning of the
  other, and on no others (`XamaLengths.StronglyUniversalExactly`).
- The pyramidal hash is said to be 4 / 2^32 almost universal on strings of 32-bit lengths. The passes take
  the length as a signed number, so a string of 2^31 words or more is hashed as zeros; and zeros at the end
  of a string's last block change nothing. `AlmostUniversal.AlmostUniversalExactly` states the exact
  condition for any two strings, `AlmostUniversal.BoundHoldsUpTo31Bits` for all strings of one length.
- For numbers of ways that are not powers of two the slots of a set can lie outside the cache
  (`BitSmearing.ThreeWaysOverrun`), exactly as `BitSmearing.GapsFitExactly` says.
- Rounding up gives the least power of two that is not smaller than its argument; the comment beside it
  says greater (`BitSmearing.RoundUpPower2`).
- The counters for misses on invalid lines can never move (`CoherenceRuns.CountersAgree`), because
  invalid lines have tag 0.

The assumptions on the recorded program are the guards of `Programs.Enabled`: mutexes exclude each
other and are released by their holder, only the creator joins, thread ids are consecutive and at
most 31 threads exist, a barrier is used by its own participants and not re-initialised while a
thread is inside. Happens-before, the signatures and the reports are stated for the shared accesses
that reach the filters; an address stands for one location.

## Model

| member | source | states |
|---|---|---|
| `Clocks.VectorClock.constructor` | pin/VectorClock.cpp:22-33 | a thread's first clock is 1 in its own entry and 0 elsewhere; the non-thread clock is all 0 |
| `Clocks.VectorClock.FromParent` | pin/VectorClock.cpp:38-46 | a child's clock is its creator's with the entries of both raised by one |
| `Clocks.VectorClock.AdvanceOwn` | pin/VectorClock.cpp:120-123 | only the own entry grows, by one |
| `Clocks.VectorClock.ReceiveAction` | pin/VectorClock.cpp:125-132 | the loop leaves the pointwise maximum of the two clocks, also when a clock receives itself |
| `Clocks.VectorClock.ReceiveWithIncrement` | pin/VectorClock.cpp:134-143 | the maximum, with the entries of both owners raised |
| `Clocks.VectorClock.Clear` | pin/VectorClock.cpp:115-118 | every entry is 0 |
| `Clocks.VectorClock.LessThanGRT` | pin/VectorClock.cpp:206-214 | true exactly when every entry but the owner's is covered by the global clock |
| `Clocks.VectorClock.UpdateGRT` | pin/VectorClock.cpp:216-221 | the global clock takes over the owner's entry and nothing else |
| `Clocks.VectorClock.Equals` | pin/VectorClock.cpp:283-291 | true exactly when all entries agree |
| `Clocks.VectorClock.HappensBefore` | pin/VectorClock.cpp:262-276 | the two-entry comparison, by owner entry within a thread |
| `Clocks.LessIsStrict` | pin/VectorClock.cpp:262-276 | on any clocks: smaller in the entry of every one of the two owners; no two clocks are each before the other |
| `Detection.RaceDetectionModule.AddProcessor` | pin/SigraceModules.h:249-254 | one empty history more |
| `Detection.RaceDetectionModule.Add` | pin/SigraceModules.h:151-247 | the nested loops with their early exits push at most 16 signatures per thread and report what the scan function reports |
| `Detection.ScanFinds` | pin/SigraceModules.h:174-247 | where unordered entries form a prefix of each foreign history, the early-exit scan reports exactly when some retained foreign entry is unordered and conflicts |
| `Detection.ScanNames` | pin/SigraceModules.h:174-238 | on any histories: a report is about the first entry, by thread number and then by age, that no ordered entry hides and that clashes; its kind is r-w if the epoch reads what the entry writes, else w-r if it writes what the entry reads, else w-w; nothing is reported only if there is no such entry |
| `Detection.EarlyExitNeedsPrefix` | pin/SigraceModules.h:188-192 | without the prefix shape an entry behind the exit can be the only race: a concrete pair of histories |
| `Programs.RunKeepsMachineOk` | pin/PthreadInstumentation.cpp:525-622 | in every run each thread in a barrier is of its current or its previous round, and no round holds more than its participants |
| `Synchronization.RunMatches` | pin/PthreadInstumentation.cpp:226-277 | in every run the detector's table lookups succeed: a joined child's final clock is there, barrier records exist and count the waiting threads |
| `Causality.GathersInputs` | pin/PthreadInstumentation.cpp:285-342 | one operation makes a thread, mutex or barrier record stand for exactly the accesses behind its inputs |
| `Knowledge.BoundedStep` | pin/VectorClock.cpp:125-143 | nobody ever knows a later entry of a thread than the thread itself, until it is joined |
| `HappensBefore.EveryRunOk` | pin/PthreadInstumentation.cpp:205-219 | the invariant of every run: each record's entry for a thread exceeds an access's epoch exactly when the access is in the record's past |
| `HappensBefore.ClocksDecideHappensBefore` | pin/VectorClock.cpp:201-204 | for any two accesses of different threads in any run, the comparison holds exactly when one happens before the other, and concurrent means unordered |
| `HappensBefore.ClocksDecideProgramOrder` | pin/PthreadInstumentation.cpp:285-342 | in one run, against the program's own order with the hand-overs of all mutexes: the clocks never order what is unordered, and where every mutex locked is within the pointer limit they decide the order exactly |
| `HappensBefore.TwoEntriesSuffice` | pin/VectorClock.cpp:269-275 | the two entries stand for the whole pointwise comparison with a strictly smaller own entry |
| `HappensBefore.SameThreadLess` | pin/VectorClock.cpp:264-267 | within a thread the comparison is that of the epochs and follows the run |
| `HappensBefore.LessIsTransitive` | pin/VectorClock.cpp:257-276 | on the clocks of a run the comparison is transitive |
| `HappensBefore.EpochsRise` | pin/VectorClock.cpp:120-123 | the epochs of a thread never decrease along the run |
| `HappensBefore.LimitIsExact` | pin/PthreadInstumentation.cpp:285-342 | the comparison is the program's own order in every run whose mutexes are in a set exactly when no mutex of the set lies above the pointer limit |
| `HappensBefore.HandOverSeenUpToLimit` | pin/PthreadInstumentation.cpp:290-293 | a run whose two accesses the program orders by a mutex only; they are called concurrent exactly when the mutex lies above the pointer limit |
| `RaceReports.EveryDetectorOk` | pin/SigraceModules.h:98-124 | in every run each queued signature is one closed epoch with exactly its addresses and clock, and each history is strictly decreasing |
| `RaceReports.EarlyExitLosesNothing` | pin/SigraceModules.h:176-192 | in every run the scan that stops at the first ordered entry reports exactly when the full scan of the retained entries would |
| `RaceReports.ReportsExactlyTheRaces` | pin/SigraceModules.h:151-247 | a report is made exactly when an access of the closing epoch and one of a retained epoch of another thread conflict and are unordered |
| `RaceReports.ReportsAreTruthful` | pin/SigraceModules.h:194-238 | every report names the threads and the kinds of two accesses that race |
| `RaceReports.HistoriesKeepTheNewest` | pin/SigraceModules.h:163-172 | a history is the sixteen newest dirty epochs of its thread, newest first |
| `ProgramRaces.ReportsExactlyTheRacesOfTheRun` | pin/SigraceModules.h:151-247 | an operation is reported on exactly when it ends a stretch of its thread with an access that conflicts, unordered, with one of another thread's stretch that is still kept: fewer than sixteen busy stretches of that thread have been ended since |
| `ProgramRaces.ReportNamesARaceOfTheRun` | pin/SigraceModules.h:194-238 | a report names the first stretch still kept, by thread and then newest first, that the ended stretch races with; it says r-w exactly if the ended stretch reads an address that the named one writes, w-r if not and it writes one that the named one reads, w-w otherwise |
| `ProgramRaces.RetainedIffKept` | pin/SigraceModules.h:163-172 | the epoch of an access is in its thread's history exactly when its stretch has been ended and fewer than sixteen busy ones since |
| `ProgramRaces.BusyIsDirty` | pin/SigraceModules.h:112-115 | a closing operation hands over a dirty signature exactly when its thread has made an access since its previous closing operation |
| `ProgramRaces.EpochUntil` | pin/VectorClock.cpp:120-123 | a thread's own entry is the epoch of a past access exactly until the thread moves on |
| `ProgramRaces.OwnIsExact` | pin/PthreadInstumentation.cpp:205-395 | in every run, with locks and barriers, a thread's own entry is one more than the number of its creates, joins, barrier arrivals and tracked acquires and releases |
| `ProgramRaces.ReleaseUsedOnce` | pin/PthreadInstumentation.cpp:322-334 | a release is received by one acquire only |
| `BarrierRounds.LeavingReceivesOwnRound` | pin/PthreadInstumentation.cpp:597-611 | a leaving thread joins the maximum of exactly the clocks published in the round it entered, however many faster threads are in the next one |
| `BarrierRounds.MaximumCovers` | pin/PthreadInstumentation.cpp:569-578 | every clock published in a round is covered by the round's maximum |
| `BarrierRounds.MaximumIsAttained` | pin/PthreadInstumentation.cpp:569-578 | each entry of the maximum was published in the round |
| `PthreadHooks.Hooks.constructor` | pin/PthreadInstumentation.cpp:57-114 | the state after the initial thread has started |
| `PthreadHooks.Hooks.PrintAndAdd` | pin/PthreadInstumentation.cpp:129-133 | the clock is logged, then the signature is added |
| `PthreadHooks.Hooks.ClearFilters` | pin/PthreadInstumentation.cpp:217-218 | both filters are empty, nothing else changes |
| `PthreadHooks.Hooks.ThreadStart` | pin/PthreadInstumentation.cpp:57-114 | tables grow by one thread whose clock comes from the parent |
| `PthreadHooks.Hooks.PthreadCreate` | pin/PthreadInstumentation.cpp:165-224 | the whole new state of a creation |
| `PthreadHooks.Hooks.PthreadJoin` | pin/PthreadInstumentation.cpp:226-277 | the whole new state of a join |
| `PthreadHooks.Hooks.AfterLock` | pin/PthreadInstumentation.cpp:285-342 | the whole new state of an acquire; a consumed release is not received again |
| `PthreadHooks.Hooks.BeforeUnlock` | pin/PthreadInstumentation.cpp:353-395 | the whole new state of a release of any mutex, above the pointer limit or not |
| `PthreadHooks.Hooks.BeforeBarrierInit` | pin/PthreadInstumentation.cpp:498-523 | a fresh barrier record replaces an old one |
| `PthreadHooks.Hooks.BeforeBarrierWait` | pin/PthreadInstumentation.cpp:525-585 | the whole new state of an arrival; the last one turns the record over |
| `PthreadHooks.Hooks.AfterBarrierWait` | pin/PthreadInstumentation.cpp:587-622 | the whole new state of a departure; a failed wait changes nothing |
| `PthreadHooks.Hooks.ThreadFini` | pin/PthreadInstumentation.cpp:117-160 | the last signature is added and the final clock left with the parent |
| `PthreadHooks.Hooks.AddToReadFilter` | pin/MultiCacheSim_PinDriver.cpp:48-65 | the address joins the read filter |
| `PthreadHooks.Hooks.AddToWriteFilter` | pin/MultiCacheSim_PinDriver.cpp:107-124 | the address joins the write filter |
| `Recording.OwnCounts` | pin/VectorClock.cpp:120-123 | the own entry of a running thread is one more than the operations it has closed |
| `Recording.EveryLogsOk` | pin/PthreadInstumentation.cpp:31-47 | the logs hold, in order, the clocks the threads had at their operations |
| `RecordedRuns.CreateRecorded` | pin/PthreadInstumentation.cpp:205-219 | the clock after a creation and the child's first clock, in terms of the logged one |
| `RecordedRuns.JoinRecorded` | pin/PthreadInstumentation.cpp:240-274 | the clock after a join is the logged one joined with the child's last logged one, and knows no more epochs than the child has |
| `RecordedRuns.OrderLists` | pin/PthreadInstumentation.cpp:91-92 | the creation order lists the threads by number with their creators |
| `RecordedRuns.RunsAreWellRecorded` | pin/PthreadInstumentation.cpp:31-47 | every completed run of creates and joins leaves logs and a creation order in the shape the replay relies on |
| `Replay.StepKeepsOk` | pin-replay/MyPinTool.cpp:154-174 | every replay step of every schedule keeps each thread at its logged clock and never lowers the global clock |
| `Replay.CreatesNext` | pin-replay/MyPinTool.cpp:366-379 | the thread whose turn it is creates the next thread of the record under the id it had there |
| `Replay.FinishWorker` | pin-replay/MyPinTool.cpp:826-840 | at its end a thread has used up its epoch list |
| `ReplayGuarantees.RunKeepsOk` | pin/VectorClock.cpp:216-221 | the global clock never decreases over any schedule |
| `ReplayGuarantees.NeverStuck` | pin-replay/MyPinTool.cpp:154-174 | every reachable replay state that is not finished has a step to take |
| `ReplayGuarantees.EarliestReady` | pin-replay/MyPinTool.cpp:361-425 | the pending operation recorded first is never blocked |
| `ReplayGuarantees.StepWorksOff` | pin-replay/MyPinTool.cpp:361-425 | every step lowers the number of hooks left to run |
| `ReplayGuarantees.EverySchedule` | pin-replay/MyPinTool.cpp:154-174 | no schedule is longer than that number, and a schedule has no next step exactly when everything is replayed |
| `ReplayGuarantees.Persistent` | pin-replay/MyPinTool.cpp:157-173 | an enabled step stays enabled whatever other step is taken |
| `ReplayGuarantees.StartCheckHolds` | pin-replay/MyPinTool.cpp:806-814 | the clock computed from the parent always equals the logged one |
| `ReplayGuarantees.StartCheckIsExact` | pin-replay/MyPinTool.cpp:796-814 | the check passes exactly if each entry of the first logged clock is the creator's, with those of child and creator raised by one |
| `ReplayGuarantees.StartUsesClock` | pin-replay/MyPinTool.cpp:816-817 | a start removes the clock its creator left for it, and no other |
| `ReplayGuarantees.OrderNotExhausted` | pin-replay/MyPinTool.cpp:366 | a thread about to create always finds an entry in the creation order |
| `ReplayGuarantees.JoinFindsEnded` | pin-replay/MyPinTool.cpp:418-425 | a join that the replay lets through never waits: the joined thread has ended |
| `ReplayGuarantees.RecordedOrderIsKept` | pin-replay/MyPinTool.cpp:161-172 | an epoch whose clock comes before another's is over when that one is entered |
| `ReplayOfRuns.ReplayKeepsHappensBefore` | pin-replay/MyPinTool.cpp:117-138 | record and replay together: under every schedule, when the epoch of an access is entered, the epochs of all accesses of other threads that happen before it are over |
| `ReplayOfRuns.ReplayFinishes` | pin-replay/MyPinTool.cpp:361-425 | replaying the logs of any completed run never deadlocks and always finishes |
| `ReplayHooks.ReplayTool.constructor` | pin-replay/MyPinTool.cpp:717-735 | the state before the first thread starts |
| `ReplayHooks.ReplayTool.TryAdvanceTRT` | pin-replay/MyPinTool.cpp:117-138 | the next logged clock moves up, or nothing changes at the end of the list |
| `ReplayHooks.ReplayTool.TryUpdateGRT` | pin-replay/MyPinTool.cpp:154-174 | one turn of the wait: published exactly when covered |
| `ReplayHooks.ReplayTool.BeforeCreate` | pin-replay/MyPinTool.cpp:361-409 | a guarded creation step, exactly when enabled |
| `ReplayHooks.ReplayTool.AfterCreate` | pin-replay/MyPinTool.cpp:411-416 | the creation order and the id move on, the lock is released |
| `ReplayHooks.ReplayTool.BeforeJoin` | pin-replay/MyPinTool.cpp:418-425 | a guarded join step, exactly when enabled |
| `ReplayHooks.ReplayTool.ThreadStart` | pin-replay/MyPinTool.cpp:746-824 | one turn of the wait: the thread has started exactly when the global clock covers its first logged clock, and otherwise nothing has changed; whether the start-time assertion holds |
| `ReplayHooks.ReplayTool.ThreadFini` | pin-replay/MyPinTool.cpp:826-840 | the last own entry is published |
| `EpochLog.PrintVector` | pin/VectorClock.cpp:293-300 | the loop prints the line of the clock |
| `EpochLog.ParseVector` | pin/VectorClock.cpp:56-80 | the loop reads a clock exactly when the line has one field per thread |
| `EpochLog.LineShowsEntries` | pin/VectorClock.cpp:293-300 | the line has 32 fields, and each shows its entry in decimal without leading zeros: from 2^31 on, as the negative number of the same word |
| `EpochLog.EntryRoundTrip` | pin/VectorClock.cpp:76 | the printed number of a 32-bit entry is read back as the entry |
| `EpochLog.AtoiReads` | pin/VectorClock.cpp:76 | blanks, one sign and the digits up to the first other character are read as that number |
| `EpochLog.LogRoundTrip` | pin/VectorClock.cpp:293-300 | parsing the printed line of any clock gives the clock back and consumes exactly its fields |
| `EpochLog.LogsTellClocksApart` | pin/VectorClock.cpp:293-300 | different clocks have different lines |
| `CacheWays.LookupKeepsLines` | pin/MultiCacheSim-dist/CacheCore.cpp:187-198 | a lookup permutes the lines of a set, and a found one comes first |
| `CacheWays.LookupStates` | pin/MultiCacheSim-dist/CacheCore.cpp:146-201 | a lookup changes the state of no tag |
| `CacheWays.FillOk` | pin/MultiCacheSim-dist/MSI_SMPCache.cpp:25-42 | a fill keeps a set well formed: tag 0 just in invalid lines, no other tag twice |
| `CacheWays.FillStates` | pin/MultiCacheSim-dist/CacheCore.cpp:294-378 | a fill brings its tag in, and pushes one out only when all ways are valid: the last |
| `CacheWays.InvalidateStates` | pin/MultiCacheSim-dist/MSI_SMPCacheState.h:57-60 | invalidating removes one tag and no other |
| `CacheWays.DirectMapped` | pin/MultiCacheSim-dist/CacheCore.cpp:400-440 | with one way lookups move nothing and a fill replaces the line |
| `CacheGeometry.TagOfLine` | pin/MultiCacheSim-dist/CacheCore.h:226-235 | an address has a tag exactly when it lies in the line that starts at the tag's first address |
| `CacheGeometry.SetsApart` | pin/MultiCacheSim-dist/CacheCore.h:231-233 | the slots of different sets are disjoint |
| `CacheStorage.CacheAssoc.constructor` | pin/MultiCacheSim-dist/CacheCore.cpp:118-142 | every set is empty, pointers and lines match one to one |
| `CacheStorage.CacheAssoc.MoveToFront` | pin/MultiCacheSim-dist/CacheCore.cpp:187-198 | the shifting loop rotates the pointers up to the hit and leaves the others; they stay a permutation |
| `CacheStorage.CacheAssoc.Locate` | pin/MultiCacheSim-dist/CacheCore.cpp:156-183 | the scan with its first-position shortcut finds the tag's slot exactly when the set holds it |
| `CacheStorage.CacheAssoc.FindLine` | pin/MultiCacheSim-dist/CacheCore.cpp:146-201 | the tag's set becomes its recency list after a lookup, every other set is unchanged |
| `CacheStorage.CacheAssoc.ChooseSlot` | pin/MultiCacheSim-dist/CacheCore.cpp:294-336 | the scan from the last way finds the tag, else the first invalid way, else the last |
| `CacheStorage.CacheAssoc.FindLine2Replace` | pin/MultiCacheSim-dist/CacheCore.cpp:294-378 | the way to be filled moves to the front of its set, a line that has the tag stays |
| `CacheStorage.CacheAssoc.FillLine` | pin/MultiCacheSim-dist/MSI_SMPCache.cpp:25-42 | the set becomes its recency list after a fill, the others are unchanged |
| `CacheStorage.CacheAssoc.InvalidateLine` | pin/MultiCacheSim-dist/MSI_SMPCacheState.h:57-60 | the found line is emptied in its set |
| `CacheStorage.CacheAssoc.ChangeStateTo` | pin/MultiCacheSim-dist/MSI_SMPCacheState.h:71-75 | the found line changes state in its set |
| `Recency.LookupIsTouch` | pin/MultiCacheSim-dist/CacheCore.cpp:187-198 | as a list of tags a set answers a lookup by moving the tag to the front |
| `Recency.FillIsEnter` | pin/MultiCacheSim-dist/CacheCore.cpp:294-378 | a fill of an absent tag puts it in front and drops the last exactly when every way is valid, wherever the holes are |
| `Recency.FillOfHeldKeepsOrder` | pin/MultiCacheSim-dist/CacheCore.cpp:294-336 | a fill of a tag that is there moves nothing |
| `Recency.InvalidateIsRemove` | pin/MultiCacheSim-dist/MSI_SMPCacheState.h:57-60 | an invalidation takes the tag out of the list |
| `LruRuns.AfterIsList` | pin/MultiCacheSim-dist/CacheCore.cpp:146-201 | over any run of lookups, accesses, invalidations and state changes the pointer storage is the tag list |
| `LruRuns.EvictsLeastRecentlyUsed` | pin/MultiCacheSim-dist/CacheCore.cpp:338-362 | a tag is evicted exactly when an access misses in a set of valid ways and the tag's last lookup or access lies furthest back |
| `LruInclusion.WiderNeverMisses` | pin/MultiCacheSim-dist/CacheCore.cpp:146-201 | for one set driven by the same uses, with a <= b ways: what the narrow set holds the wide one holds |
| `LruInclusion.WiderMissesLess` | pin/MultiCacheSim-dist/CacheCore.cpp:146-201 | for one set driven by the same uses, the wide set never misses more often |
| `LruInclusion.NarrowIsPrefix` | pin/MultiCacheSim-dist/CacheCore.cpp:146-201 | over any run with snoops, the narrow list is a prefix of the wide one after each use exactly when no bare lookup finds its tag in the wide set alone while the narrow one is not empty |
| `LruInclusion.WithoutLooksIsPrefix` | pin/MultiCacheSim-dist/CacheCore.cpp:294-378 | in particular without bare lookups the narrow list is a prefix of the wide one after every use |
| `LruInclusion.UseKeepsPrefix` | pin/MultiCacheSim-dist/CacheCore.cpp:146-201 | each single use of any kind keeps the prefix exactly when it is not such a lookup |
| `LruInclusion.LookKeepsPrefix` | pin/MultiCacheSim-dist/CacheCore.cpp:146-201 | a bare lookup keeps the prefix exactly when the narrow list has the tag, or the wide one lacks it, or the narrow one is empty |
| `LruInclusion.SnoopBreaksPrefix` | pin/MultiCacheSim-dist/MSI_SMPCache.cpp:66-68 | two accesses and one snoop after which the one-way list is no prefix of the two-way list |
| `BitSmearing.RoundUpPower2` | pin/MultiCacheSim-dist/Snippets.cpp:50-62 | for 1 to 2^31 the smearing yields the least power of two that reaches the word, for every other word 0 |
| `BitSmearing.Log2i` | pin/MultiCacheSim-dist/Snippets.cpp:28-46 | the ceiling logarithm, 0 outside that range |
| `BitSmearing.SmearStep` | pin/MultiCacheSim-dist/Snippets.cpp:57-61 | one shift-and-or doubles the run of ones below the highest bit |
| `BitSmearing.PowerOfTwoWaysFit` | pin/MultiCacheSim-dist/CacheCore.h:90-103 | with a power of two of ways and at least one set every slot lies inside the cache |
| `BitSmearing.InsideIffLastSetIs` | pin/MultiCacheSim-dist/CacheCore.h:226-235 | with any number of ways the slots of every tag lie inside exactly when those of the last set do |
| `BitSmearing.GapsFitExactly` | pin/MultiCacheSim-dist/CacheCore.h:90-103 | in the constructor's inputs: with lines and ways the slots of every tag lie inside exactly if (lines / ways - 1) times the gap between ways and their power of two is at most lines mod ways |
| `BitSmearing.ThreeWaysOverrun` | pin/MultiCacheSim-dist/CacheCore.h:90-103 | three ways and six lines: the slots of tag 1 reach past the end |
| `BitSmearing.EverySetUsed` | pin/MultiCacheSim-dist/CacheCore.h:228 | masking reaches every set exactly when their number is a power of two |
| `BitSmearing.TagsAreLines` | pin/MultiCacheSim-dist/CacheCore.h:97-98 | for powers of two, two addresses have the same tag exactly if they lie in the same line, counted in address units |
| `Coherence.ReadRemoteIsExact` | pin/MultiCacheSim-dist/MSI_SMPCache.cpp:45-110 | the snoop that returns at the first valid holder leaves every cache as a full round would, and its reply is about all of them |
| `Coherence.WriteRemoteIsExact` | pin/MultiCacheSim-dist/MSI_SMPCache.cpp:173-221 | the snoop of a write invalidates the line in every other cache and nothing else |
| `Coherence.ReadIsExact` | pin/MultiCacheSim-dist/MSI_SMPCache.cpp:113-170 | the state of every line in every cache after a read, the victim of the fill included |
| `Coherence.WriteIsExact` | pin/MultiCacheSim-dist/MSI_SMPCache.cpp:224-286 | the state of every line in every cache after a write |
| `Coherence.ReadKeepsCoherent` | pin/MultiCacheSim-dist/MSI_SMPCache.cpp:113-170 | a read keeps single writer or many readers, and every set well formed with only tags of its own |
| `Coherence.WriteKeepsCoherent` | pin/MultiCacheSim-dist/MSI_SMPCache.cpp:224-286 | a write keeps the same |
| `Traffic.ReadConserves` | pin/MultiCacheSim-dist/MSI_SMPCache.cpp:140-157 | no read makes a modified line, or a miss served from one, out of nothing |
| `Traffic.WriteConserves` | pin/MultiCacheSim-dist/MSI_SMPCache.cpp:236-276 | a write makes at most one modified line, and then counts a write miss |
| `CoherenceRuns.EveryRunIsCoherent` | pin/MultiCacheSim-dist/MultiCacheSim.cpp:45-109 | over every run of cache creations, reads and writes a modified line is valid in no other cache |
| `CoherenceRuns.CopiesAreFresh` | pin/MultiCacheSim-dist/MSI_SMPCache.cpp:45-110 | over every run a valid copy is younger than every write elsewhere, a modified one younger than every access elsewhere |
| `CoherenceRuns.CountersAgree` | pin/MultiCacheSim-dist/MSI_SMPCache.cpp:113-170 | per cache, over every run: hits and misses add up to the accesses of the threads whose number modulo the number of caches is the cache's, and misses on invalid lines never occur |
| `SimulatorCounts.CountersAreExact` | pin/MultiCacheSim-dist/MSI_SMPCache.cpp:113-286 | over every run each counter is a number of events: read hits those that find the line valid, read misses and requests the others; served by shared, by modified or by others those misses at which another cache has the line so; write hits those that find it modified, writes on shared those that find it shared, write misses and invalidates all that are no hit |
| `SimulatorCounts.ThreadsShareCaches` | pin/MultiCacheSim-dist/MultiCacheSim.cpp:121-124 | an access of thread t below the number c of caches is counted once, in cache t, and nothing elsewhere; those of t and t + c have the same result |
| `SimulatorCounts.ReadIsCounted` | pin/MultiCacheSim-dist/MSI_SMPCache.cpp:129-166 | all counters of all caches after one read |
| `SimulatorCounts.WriteIsCounted` | pin/MultiCacheSim-dist/MSI_SMPCache.cpp:236-282 | all counters of all caches after one write |
| `SimulatorCounts.MissOnInvalidIsCounted` | pin/MultiCacheSim-dist/MSI_SMPCache.cpp:129-134 | on any caches of the right shape a miss on a line that is there but invalid is counted as such; in no run is there one |
| `CoherenceRuns.ExclusiveLinesAreConserved` | pin/MultiCacheSim-dist/MSI_SMPCache.cpp:224-286 | over all caches, misses served from modified lines plus modified lines never exceed write misses |
| `SetsInRuns.SetIsAfterItsUses` | pin/MultiCacheSim-dist/MSI_SMPCache.cpp:45-286 | in every run of the simulator each set of each cache is an empty set after the accesses, lookups, invalidations and state changes that the events make of it |
| `SetsInRuns.TagsInRuns` | pin/MultiCacheSim-dist/CacheCore.cpp:146-201 | in every run of the simulator the tags of a set, most recent first, are the list that its uses make |
| `SetsInRuns.ReadRemoteAt` | pin/MultiCacheSim-dist/MSI_SMPCache.cpp:58-110 | a read snoop gets to exactly the caches before which no other one has the line |
| `SetsInRuns.EvictsInRuns` | pin/MultiCacheSim-dist/CacheCore.cpp:338-362 | in every run an access evicts a line exactly when it misses in a set of valid ways and the line's last lookup, its own cache's or a snoop's, lies furthest back |
| `MoreWays.InclusionIsExact` | pin/MultiCacheSim-dist/MSI_SMPCache.cpp:113-170 | for two simulators fed the same events, with a < b ways: in all runs with at most c caches the second holds what the first holds exactly if a = 1 or c <= 1 |
| `MoreWays.FewerMissesIsExact` | pin/MultiCacheSim-dist/MSI_SMPCache.cpp:140-157 | in all such runs no cache of the second counts more read misses than in the first, under exactly the same condition |
| `MoreWays.MoreWaysLoseIt` | pin/MultiCacheSim-dist/MSI_SMPCache.cpp:66-100 | a run of two caches, for any 1 < a < b ways, after which the first cache holds a line with a ways that it has lost with b |
| `MoreWays.MoreWaysMissMore` | pin/MultiCacheSim-dist/MSI_SMPCache.cpp:140-157 | a run in which the first cache counts b + 1 read misses with a ways and b + 2 with b ways |
| `InclusionInRuns.HeldIsKept` | pin/MultiCacheSim-dist/CacheCore.cpp:294-378 | what a cache with one way holds was its last access in the set, with no write of another cache since |
| `InclusionInRuns.KeptIsHeld` | pin/MultiCacheSim-dist/CacheCore.cpp:146-201 | with any number of ways a cache holds the line it accessed last in a set until another cache writes it |
| `InclusionInRuns.OneCachePrefix` | pin/MultiCacheSim-dist/CacheCore.cpp:294-378 | with one cache the tags of a set are at all times a prefix of those with more ways |
| `MultiCacheSimulator.SMPCache.constructor` | pin/MultiCacheSim-dist/SMPCache.cpp:3-22 | an empty cache with its id and all counters 0 |
| `MultiCacheSimulator.SMPCache.FindLine` | pin/MultiCacheSim-dist/CacheCore.h:159-161 | the lookup, in terms of the whole cache |
| `MultiCacheSimulator.SMPCache.FillLine` | pin/MultiCacheSim-dist/MSI_SMPCache.cpp:25-42 | the fill, in terms of the whole cache |
| `MultiCacheSimulator.SMPCache.SnoopRead` | pin/MultiCacheSim-dist/MSI_SMPCache.cpp:66-100 | one turn of the read snoop |
| `MultiCacheSimulator.SMPCache.SnoopWrite` | pin/MultiCacheSim-dist/MSI_SMPCache.cpp:193-206 | one turn of the write snoop |
| `MultiCacheSimulator.MultiCacheSim.constructor` | pin/MultiCacheSim-dist/MultiCacheSim.cpp:3-16 | no caches |
| `MultiCacheSimulator.MultiCacheSim.CreateNewCache` | pin/MultiCacheSim-dist/MultiCacheSim.cpp:45-63 | one empty cache more, whose id is its position, with storage of its own |
| `MultiCacheSimulator.MultiCacheSim.FindCacheByCPUId` | pin/MultiCacheSim-dist/MultiCacheSim.cpp:18-27 | the lookup loop finds the cache at the position of its id |
| `MultiCacheSimulator.MultiCacheSim.ReadRemoteAction` | pin/MultiCacheSim-dist/MSI_SMPCache.cpp:45-110 | the loop with its early return computes the read snoop over all caches |
| `MultiCacheSimulator.MultiCacheSim.WriteRemoteAction` | pin/MultiCacheSim-dist/MSI_SMPCache.cpp:173-221 | the loop computes the write snoop and leaves the requester's storage alone |
| `MultiCacheSimulator.MultiCacheSim.ReadMiss` | pin/MultiCacheSim-dist/MSI_SMPCache.cpp:125-160 | snoop, fill and counters of a read miss |
| `MultiCacheSimulator.MultiCacheSim.CacheReadLine` | pin/MultiCacheSim-dist/MSI_SMPCache.cpp:113-170 | the whole new state after a read by one cache |
| `MultiCacheSimulator.MultiCacheSim.WriteMiss` | pin/MultiCacheSim-dist/MSI_SMPCache.cpp:236-259 | snoop, fill and counters of a write miss |
| `MultiCacheSimulator.MultiCacheSim.WriteUpgrade` | pin/MultiCacheSim-dist/MSI_SMPCache.cpp:261-276 | snoop, counters and upgrade of a write to a shared line |
| `MultiCacheSimulator.MultiCacheSim.CacheWriteLine` | pin/MultiCacheSim-dist/MSI_SMPCache.cpp:224-286 | the whole new state after a write by one cache |
| `MultiCacheSimulator.MultiCacheSim.ReadLine` | pin/MultiCacheSim-dist/MultiCacheSim.cpp:65-86 | the locked read of a thread is one step of the run and keeps coherence |
| `MultiCacheSimulator.MultiCacheSim.WriteLine` | pin/MultiCacheSim-dist/MultiCacheSim.cpp:88-109 | the locked write of a thread is one step of the run and keeps coherence |
| `Residues.CountPermuted` | pin/fasthashing/hashfunctions.h:68 | counting is not affected by an injection of a range into itself |
| `Residues.LineMeetsBlocksEvenly` | pin/fasthashing/hashfunctions.h:68-70 | a line modulo 2^64 whose slope is not divisible by 2^32 meets every block of high words exactly 2^32 times |
| `AffineKeys.AffineCount` | pin/fasthashing/hashfunctions.h:65-70 | two affine functions of a key whose coefficients differ as words take every pair of high words exactly 2^64 times over two keys |
| `Multilinear.Hash` | pin/fasthashing/hashfunctions.h:62-71 | the loop, wrapping at 64 bits, computes the high word of the multilinear sum |
| `Multilinear.HashIs` | pin/fasthashing/hashfunctions.h:62-71 | the hash is (k0 + k1 s0 + k2 s1 + ...) mod 2^64 / 2^32 |
| `Multilinear.HashTwoByTwo` | pin/fasthashing/hashfunctions.h:259-269 | the loop unrolled by two computes the same hash on even lengths |
| `Multilinear.StronglyUniversal` | pin/fasthashing/hashfunctions.h:43-71 | for distinct strings of n words and any two outputs exactly 2^(64 n) of the 2^(64 (n + 1)) key buffers give both |
| `Multilinear.StronglyUniversalExactly` | pin/fasthashing/hashfunctions.h:43-71 | for strings of any lengths and any longer key buffer, every pair of outputs is equally frequent exactly if the strings differ by more than zeros at the end of the longer one |
| `Xama.Hash` | pin/fasthashing/hashfunctions.h:317-326 | the loop, wrapping at 64 bits, computes the high word of the sum of keyed products |
| `Xama.XamaHashIs` | pin/fasthashing/hashfunctions.h:317-326 | the hash is (k0 + (k1 + s0)(k2 + s1) + (k3 + s2)(k4 + s3) + ...) mod 2^64 / 2^32 |
| `Xama.StronglyUniversal` | pin/fasthashing/hashfunctions.h:303-326 | the same exact count for even n, although the hash is not linear in its keys |
| `XamaLengths.StronglyUniversalExactly` | pin/fasthashing/hashfunctions.h:303-326 | for strings of any even lengths and any longer key buffer, every pair of outputs is equally frequent exactly if neither string is the beginning of the other |
| `Pyramid.HashMulti` | pin/fasthashing/hashfunctions.h:162-178 | one pass writes exactly one hash per block, the short one last, and reads no block past its 257 keys; with a negative length it writes nothing |
| `Pyramid.PyramidalHash` | pin/fasthashing/hashfunctions.h:140-158 | for every 32-bit length the level loop ends, stays within the four hashers and computes the hash, or reads an empty buffer: for the empty string and the last 255 lengths |
| `Pyramid.DepthIs` | pin/fasthashing/hashfunctions.h:148-156 | k passes suffice exactly for at most 256^k characters |
| `Pyramid.FourHashersSuffice` | pin/fasthashing/hashfunctions.h:126-137 | four hashers suffice exactly for lengths up to 2^32 |
| `Pyramid.HasFront` | pin/fasthashing/hashfunctions.h:143-144 | there is a hash exactly if the 32-bit sum that sizes the first buffer leaves a block |
| `PyramidPasses.ConfusedIsRare` | pin/fasthashing/hashfunctions.h:162-178 | a pass loses the difference of two strings of any lengths for at most a fraction 2^-32 of its keys |
| `AlmostUniversal.HittingIsRare` | pin/fasthashing/hashfunctions.h:148-156 | a string of any length gets any one hash for at most a fraction 2^-32 of the keys |
| `AlmostUniversal.CollisionsAreRare` | pin/fasthashing/hashfunctions.h:140-158 | two strings of any lengths, unless they are indistinct, collide for at most a fraction d / 2^32 of the keys, with d the larger number of passes |
| `AlmostUniversal.AlmostUniversalExactly` | pin/fasthashing/hashfunctions.h:113-117 | for any two strings that get a hash, whatever their lengths, at most 4 / 2^32 of the keys make them collide exactly when they differ by more than zeros in the last block, or than the lengths of two strings beyond 31 bits; the others collide for all keys |
| `AlmostUniversal.BoundHoldsUpTo31Bits` | pin/fasthashing/hashfunctions.h:113-117 | of the 32-bit lengths the bound is documented for, it holds for all different strings of one length exactly if the length has 31 bits |
| `Barrett.EstimateIsExact` | pin/fasthashing/hashfunctions.h:191-194 | with a quotient below degree 32 the shifted products give back the quotient exactly |
| `Barrett.ReductionIsRemainder` | pin/fasthashing/hashfunctions.h:186-196 | for every 64-bit word the reduction is the one remainder modulo x^32 + x^7 + x^6 + x^2 + 1 |
| `Barrett.ProductsFit` | pin/fasthashing/hashfunctions.h:192-194 | the products stay within 64 bits, so shifting one lane loses nothing |
| `Barrett.OwnReciprocal` | pin/fasthashing/hashfunctions.h:188-192 | x^64 divided by the polynomial is the polynomial itself |
| `BloomFilters.Bloom.constructor` | pin/Bloom.cpp:38-56 | an empty filter, to which nothing has been added |
| `BloomFilters.Bloom.Copy` | pin/Bloom.cpp:93-117 | a deep copy with the same bits, count and added addresses |
| `BloomFilters.Bloom.SetBit` | pin/Bloom.cpp:14 | one bit more, no other changed |
| `BloomFilters.Bloom.Add` | pin/Bloom.cpp:64-76 | the address is added: the bits of all its hash functions are set, so the bits stay the image of the added set, and the count is 0 only while the set is empty |
| `BloomFilters.Bloom.Check` | pin/Bloom.cpp:175-190 | true exactly when all bits of the address are set, so true for every address added |
| `BloomFilters.Bloom.HasInCommon` | pin/Bloom.cpp:119-139 | the byte loop answers exactly whether a bit is set in both; after any history of adds, copies and clears of the two filters, an address added to both is never missed |
| `BloomFilters.Bloom.Clear` | pin/Bloom.cpp:192-201 | no bit is set and nothing is added |
| `BloomFilters.Bloom.IsEmpty` | pin/Bloom.cpp:203-206 | true exactly when nothing has been added since the last clearing |
| `BloomFilters.SnapshotThenClear` | pin/PthreadInstumentation.cpp:212-218 | a queued signature is not touched by the clearing for the next epoch |
| `BloomFilters.NeverMisses` | pin/Bloom.cpp:119-139 | sets with a common address have images with a common bit, whatever the hash functions, as long as there is one |
| `BloomFilters.Lockstep` | pin/SigraceModules.h:151-247 | one add on images and on sets keeps the histories in step, and reports on images if it reports on sets |
| `BloomFilters.FiltersReportEverything` | pin/SigraceModules.h:151-247 | over any run of the module's calls, everything reported on exact sets is reported on their images |
| `FilterDetection.BitsAreFiltered` | pin/SigraceModules.h:98-124 | what a signature's two filter objects show is the image of the addresses added to them |
| `FilterDetection.FilterDetectionModule.constructor` | pin/SigraceModules.h:126-150 | no histories |
| `FilterDetection.FilterDetectionModule.AddProcessor` | pin/SigraceModules.h:249-254 | one empty history more, the others as they were |
| `FilterDetection.FilterDetectionModule.ConflictOf` | pin/SigraceModules.h:194-238 | a report exactly if what the filters show clashes, r-w before w-r before w-w |
| `FilterDetection.FilterDetectionModule.ScanHistory` | pin/SigraceModules.h:181-241 | the loop over one history of filter objects, up to its first ordered entry |
| `FilterDetection.FilterDetectionModule.ScanAll` | pin/SigraceModules.h:174-247 | the loop over all foreign histories, up to the first report |
| `FilterDetection.FilterDetectionModule.Insert` | pin/SigraceModules.h:161-172 | the signature is pushed and the oldest one dropped behind the sixteenth |
| `FilterDetection.FilterDetectionModule.Add` | pin/SigraceModules.h:151-247 | an add of a signature of filter objects grows the histories as the same add on exact sets does, reports what the scan of the filters reports, and reports whenever the exact sets do |
| `FilterDetection.FilterDetectionModule.DirtyShows` | pin/SigraceModules.h:112-115 | a signature of filter objects is dirty exactly when an address was added to one of them |
| `FilteredRuns.FiltersMissNoRace` | pin/SigraceModules.h:151-247 | in every run of a program, with any hash functions and filter size, an operation whose stretch races with one still kept makes the module on filters report |
| `FilteredRuns.LastCallReports` | pin/PthreadInstumentation.cpp:205-219 | the signature that a closing operation hands over is reported on by the module exactly when the detector reports at it |

## Left out

- PthreadHooks.Hooks.PthreadCreate: creation is one step, from the parent's call to its advance; the
  window in which the child already runs, the retry loop around the id map and failing calls are not modelled.
- Programs with recursive mutexes, or that re-acquire a mutex inside a condition wait; the hooks themselves
  do not know the difference.
- Sleeping between the turns of the replayer's wait loops, and fairness of the scheduler; every schedule is
  allowed instead.
- MultiCacheSimulator.MultiCacheSim.ReadLine: requires a cache and a tag other than 0, as the modulo and
  the assertion on tags do; addresses are the 32-bit words the caches receive.
- MultiCacheSimulator.MultiCacheSim.WriteLine: the same.
- BloomFilters.Bloom.HasInCommon: filters of different sizes, which the code asserts away.
- Condition variables: a wait joins a clock without advancing it, so the comparison is not exact across
  one, and the broadcast hook passes its arguments in swapped order.
- Wrap-around of clock entries and counters; they are natural numbers, except in the log format.
- The classification of stack addresses, and thread-local storage that several hooks alias.
- Tracking of allocated memory, which never inserts anything.
- Removal from filters and clearing of address ranges, which the detector does not call.
- Random replacement, locked lines, the skewed cache, energy figures and the MESI state file, which the
  simulated protocol does not use; the RANDOM branch of the replacement is not reached with the LRU policy.
- The lock that an access to a missing cache would leave held; with at least one cache none is missing.
- The almost universal but not strongly universal hashes other than the pyramidal one, MurmurHash2, the
  random number generator and the test programs.
- The carry-less multilinear hash around the reduction, which reads its keys and data in 128-bit lanes.
- The stand-alone queue, scripts and backup files.
- Instrumentation, options, files, printed reports and locks of the tools themselves: a report is a
  returned value, a log a sequence of clocks, a hook one atomic step.
- Memory management, such as clocks that are copied and never freed.
