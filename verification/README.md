# Model of the test world and of the interface's read cache

These modules model the parts of the repository whose correctness rests on an ordering: the outage lock shared by the workers of
a run, the world that injects outages under it, the write fault and the per-connection outage of Postgres, the read cache of the
interface and its paged lists, and four smaller pieces with exact meanings (the comment scanner and the `extends` chain of tsconfig
files, the hash routes, the Redis probe). What is proved holds of every input, every run and every interleaving of the model.

How the files fit together:

- `LockProtocol.dfy` is the lock as a step protocol: any number of worlds, one step per file operation, a process may die at any
  step. `LockGuarantees.dfy` proves exclusion, writer preference, absence of circular waits and progress; `LockCalls.dfy` what each
  call brings about while the others go on. `WorldLock.dfy` has the lock objects and the folder as classes changed in place, each
  step of which is a protocol step.
- `World.dfy` is one spec file's world: outages in force, connections taken down, faults in custody, `start` and `stop`, every call
  to the stack failing before or after it took effect; first as values with the laws of every operation of a spec, then as the class
  that does them in place. Its history is a ghost log of actions; `OutageSystem.dfy` proves what any number of worlds with such
  histories keep when they share the lock protocol.
- `WriteFault.dfy` is the fault handle over a catalog; `DatabaseOutage.dfy` goes from the validation of the declared connections,
  through what provisioning records, to which connections a sequence of cuts and restores blocks.
- `QueryRecord.dfy` and `QueryGuarantees.dfy` are one record of the read cache beside a server with a version history;
  `QueryReads.dfy` says when its reads start, with what, and how they end. `PagedQuery.dfy` is one list over it, `PageLoads.dfy` when
  it asks for which page, `PagedRows.dfy` its rows. `QueryCache.dfy` is the whole cache as a class: all records, shared pages, owners
  and the header's health. `CacheRun.dfy` runs that class and proves that each of its records lives a life of the single record, so
  what is proved of one record holds of all of them.
- `Jsonc.dfy`, `TsPaths.dfy`, `Codings.dfy` with `Router.dfy`, and `RedisProbe.dfy` are the smaller pieces.

Where the code does not do what its own comments say, the model follows the code:

- The lock's header says a crashed worker never wedges the run (world-lock.ts:14). `share` never breaks a writer directory without
  an owner file, so a process that dies between `mkdir` and the write, or inside its own removal of the directory, keeps readers out
  until somebody calls `acquire`. `LockGuarantees.ProgressExactly` has the exact condition, `LockGuarantees.DeadWriterCanWedge` a run.
- The comment on `outages` says the exclusive lock is held while any is in force (world.ts:109). A `stop` that fails on a write
  fault, followed by a second one, closes the lock without clearing `outages` (world.ts:200-205), so a restarted world carries keys
  it holds no lock for, and ending another outage never releases. `Worlds.World.Stop` says exactly when keys are left and which
  (`stale`), `Worlds.StaleKeysAfterTwoStops` is a history; in every state, keys without the hold are such left-over ones.
- Custody of a write fault is promised until its cleanup is confirmed (world.ts:115). A handle that is restored before it captured
  its table leaves custody and can still be installed (world.ts:376-386, database-write-fault.ts:130), and no stop restores it then.
  `Worlds.World.InstallWriteFault` has the exact condition, `Worlds.FaultOutlivesCustody` a history, and `Worlds.World.Stop` says
  which faults are left behind.
- `restoreInfra` swallows its failures (world.ts:654-658) and `appDuring` drops its key even when the app did not come back
  (world.ts:296-301). The model keeps what the code stops tracking as `residue`: it is outside what the lock protects. Within a spec
  only apps that did not come back are abandoned so (`Worlds.World.Perform`), and a stop says exactly what it abandons.
- Polling is promised for visible records. It goes on in every run exactly when all intervals are positive and finite
  (`QueryGuarantees.PollingExactly`). A listener whose interval is zero, negative or no number stops the timer of all, and its
  departure does not arm it again (query.ts:149-152, 320-323): `QueryGuarantees.PassingListener`.
- `routeHref` is called the inverse of parsing. It is, except for the unknown page and for path parameters that are empty, `.` or
  `..`: `Router.RouteRoundTrip`.
- The Redis probe says it answers the first line of each reply. It answers the first lines of the stream. A caller can rely on these
  being the first lines of the replies exactly when every reply but the last is one line (`RedisProbe.AnswersAreFirstLines`); after a
  longer reply the next answer is its second line, right only by coincidence (`RedisProbe.LongReplyShiftsTheNext`).

What the model takes as given:

- The lock: file operations fail only because a file exists or is missing; a holder file is written whole; calls on one world's lock
  come one at a time, and only `close` may come during a pause; a live process writes its owner file before its directory counts as
  old, and removes the directory before it counts as old after its release has removed the owner file; the read and the rename of `breakStaleWriter` are one step (otherwise a breaker holding an old read could rename the directory
  of a later writer).
- The read cache: the server answers with its current version, answers 304 only to the tag of its current version, and never gives
  one tag to two payloads. Between two actions of a user the list has rendered.
- The write fault: other sessions may change the table and take the generated objects away, but never make objects of the generated
  name; nobody changes the table inside a transaction that has locked it.
- Texts are sequences of Unicode scalar values.

The resource that health, pages and lists talk about is abstract: rows and sources are texts.

## Model

| member | source | states |
|---|---|---|
| `LockProtocol.CallKeepsLocal` | packages/test-world/src/nest/world-lock.ts:87-160 | starting any call (or `close` during a pause) keeps which fields go with which pending operation, and hands out nothing: nobody becomes writer or shared holder by a call alone |
| `LockProtocol.StepKeepsLocal` | packages/test-world/src/nest/world-lock.ts:87-160 | every single file operation leaves the lock object's fields consistent with the operation it performs next |
| `LockProtocol.SlotStep` | packages/test-world/src/nest/world-lock.ts:227-259 | one step keeps `exclusive.lock` in the hands of the live world that made it: only that world names it or gives it back, and nobody breaks it |
| `LockProtocol.FileStep` | packages/test-world/src/nest/world-lock.ts:175-181 | a world's own shared file exists exactly at the points of its code where it should |
| `LockProtocol.OthersFiles` | packages/test-world/src/nest/world-lock.ts:184-205 | no step touches the shared file of another live world: only files of dead processes are removed |
| `LockProtocol.WriterPasses` | packages/test-world/src/nest/world-lock.ts:184-205 | the writer's side: it gets past a live reader only where its listing does not show that reader's file |
| `LockProtocol.ReaderEnters` | packages/test-world/src/nest/world-lock.ts:90-101 | the reader's side: it enters only over a slot that no other live world has, unless it is the writer itself |
| `LockProtocol.StepKeepsPairs` | packages/test-world/src/nest/world-lock.ts:90-101 | the check-write-check of `share` against the mkdir-then-list of `acquire`: no reader gets past a writer that has counted it out |
| `LockProtocol.StepKeepsInv` | packages/test-world/src/nest/world-lock.ts:87-259 | any step of any world keeps the whole lock invariant |
| `LockProtocol.DeathKeepsInv` | packages/test-world/src/nest/world-lock.ts:198-201 | a process dying at any step keeps the invariant of the worlds still alive |
| `LockProtocol.InvHolds` | packages/test-world/src/nest/world-lock.ts:87-259 | the invariant holds after every run of calls, steps and deaths of any number of worlds |
| `LockGuarantees.Exclusion` | packages/test-world/src/nest/world-lock.ts:5-14 | in every run with crashes, from the return of `acquire` to `release` or `close` no other live world is writer or holds the lock shared; one that was sharing is inside its own `acquire` with its file gone |
| `LockGuarantees.CloseLeavesNothing` | packages/test-world/src/nest/world-lock.ts:154-160 | a finished `close`, wherever it came, leaves no shared file and no writer directory of that world |
| `LockGuarantees.StepAdmitsNobody` | packages/test-world/src/nest/world-lock.ts:90-101 | while a live world's writer directory stands, no step makes another world an entrant |
| `LockGuarantees.WritersWin` | packages/test-world/src/nest/world-lock.ts:10-12 | over whole runs: while a live writer's directory stands, the set of other worlds with a shared file, or past the check of `share`, never grows |
| `LockGuarantees.WaitsGoDown` | packages/test-world/src/nest/world-lock.ts:128-144 | whoever a paused world waits for is strictly closer to its end: readers and queuing writers wait for the writer, the writer for readers |
| `LockGuarantees.NoCircularWait` | packages/test-world/src/nest/world-lock.ts:111-114 | in every run a chain of live worlds waiting for each other has at most three members, all different |
| `LockGuarantees.SlotWaiterReturns` | packages/test-world/src/nest/world-lock.ts:132-137 | a world queuing for the slot gets the exclusive hold by its own steps once no live world has it |
| `LockGuarantees.DrainWaiterReturns` | packages/test-world/src/nest/world-lock.ts:184-205 | a writer waiting for shared holders returns once only files of dead processes are left, removing them |
| `LockGuarantees.ShareWaiterReturns` | packages/test-world/src/nest/world-lock.ts:208-225 | a waiting reader enters once the slot is free or its named owner is dead |
| `LockGuarantees.SomeWaiterReturns` | packages/test-world/src/nest/world-lock.ts:12-14 | where all live worlds only wait, some waiting call can return by its own steps, except over an orphan nobody queues for |
| `LockGuarantees.OrphanWedgesReaders` | packages/test-world/src/nest/world-lock.ts:216-218 | over a dead writer's directory without an owner file, no run without a new `acquire` lets another world share |
| `LockGuarantees.ProgressExactly` | packages/test-world/src/nest/world-lock.ts:12-14 | where every live world waits, a wait can end if and only if the slot is no such orphan or somebody queues for it: the header's claim that a crash never wedges the run, with its exact condition |
| `LockGuarantees.DeadWriterCanWedge` | packages/test-world/src/nest/world-lock.ts:208-225 | a concrete run into that wedge: a process dies right after its `mkdir`, another waits to share for ever |
| `LockCalls.ReleaseLetsGo` | packages/test-world/src/nest/world-lock.ts:146-152 | `release`, whatever the others do meanwhile: no exclusive hold from the call on; after at most three file operations of its own the world is idle, its writer directory is gone, and it has a shared file exactly if it still shares |
| `LockCalls.UnshareLetsGo` | packages/test-world/src/nest/world-lock.ts:104-109 | `unshare`: no shared hold from the call on, no shared file after one operation, an exclusive hold untouched |
| `LockCalls.CloseLetsGo` | packages/test-world/src/nest/world-lock.ts:154-160 | `close`, in a pause of another call too: no hold from the call on; after at most four operations of its own the lock is closed, with neither a writer directory nor a shared file of that world |
| `LockCalls.CloseComesInPauses` | packages/test-world/src/nest/world-lock.ts:166-169 | only `close` can come while a call pauses, and in each of the three pauses |
| `LockCalls.AcquireReturnsHolding` | packages/test-world/src/nest/world-lock.ts:115-144 | whenever a world is idle again after `acquire`, it is the writer, its directory stands named, and what it shared before it shares again with its file |
| `LockCalls.ShareReturnsHolding` | packages/test-world/src/nest/world-lock.ts:87-102 | whenever a world is idle again after `share`, it shares the lock and its file is there |
| `LockCalls.FreeAcquireReturns` | packages/test-world/src/nest/world-lock.ts:115-144 | an `acquire` that no live world stands in the way of returns by its own steps, over a dead writer and the files of dead readers too |
| `LockCalls.FreeShareCallReturns` | packages/test-world/src/nest/world-lock.ts:87-102 | a `share` returns by its own steps over a free slot, a named dead writer, or the world's own hold |
| `LockCalls.NothingToDo` | packages/test-world/src/nest/world-lock.ts:87-160 | a call without anything to do changes nothing: a closed lock refuses, a held one is not taken twice, nothing is given back that is not held |
| `LockCalls.OnlyStaleIsBroken` | packages/test-world/src/nest/world-lock.ts:239-259 | a writer directory goes or changes only by its own world, or because that world is dead and the directory is named or old |
| `LockCalls.WaitHasReason` | packages/test-world/src/nest/world-lock.ts:128-144 | whoever pauses waits for a live world: if none is waited for, the pause ends by its own steps, but for a reader before an orphaned directory |
| `LockCalls.NoNewHolder` | packages/test-world/src/nest/world-lock.ts:10-12 | while a live writer's directory stands, nobody comes to hold the lock shared who had no shared file and was not already past the check |
| `WorldLocks.WorldLock.constructor` | packages/test-world/src/nest/world-lock.ts:69-79 | a new lock object holds nothing |
| `WorldLocks.WorldLock.BeginShare` | packages/test-world/src/nest/world-lock.ts:87-90 | `share` up to its first file operation: refused when closed, nothing to do when already sharing |
| `WorldLocks.WorldLock.BeginUnshare` | packages/test-world/src/nest/world-lock.ts:105-109 | `unshare` gives the hold up before it removes the file |
| `WorldLocks.WorldLock.BeginAcquire` | packages/test-world/src/nest/world-lock.ts:115-130 | `acquire` up to its first file operation; a sharing world gives its file up first |
| `WorldLocks.WorldLock.BeginRelease` | packages/test-world/src/nest/world-lock.ts:147-149 | `release` stops being writer before it removes the directory |
| `WorldLocks.WorldLock.BeginClose` | packages/test-world/src/nest/world-lock.ts:155-157 | `close` refuses further use at once and releases the writer slot first |
| `WorldLocks.WorldLock.AskForWriter` | packages/test-world/src/nest/world-lock.ts:208-225 | the two reads of `otherWriter`, and what `share` does with each answer |
| `WorldLocks.WorldLock.BreakStaleWriter` | packages/test-world/src/nest/world-lock.ts:240-259 | a writer directory is broken only when its owner is dead, or it has no owner and is old enough |
| `WorldLocks.WorldLock.ScanNext` | packages/test-world/src/nest/world-lock.ts:193-204 | one turn of the scan over the shared holders |
| `WorldLocks.WorldLock.ResumeShare` | packages/test-world/src/nest/world-lock.ts:87-109 | each file operation of `share` and `unshare`, in place, is the protocol step |
| `WorldLocks.WorldLock.ResumeAcquire` | packages/test-world/src/nest/world-lock.ts:128-144 | each file operation of `acquire`, in place, is the protocol step |
| `WorldLocks.WorldLock.ResumeRelease` | packages/test-world/src/nest/world-lock.ts:147-160 | each file operation of `release` and `close`, in place, is the protocol step |
| `WorldLocks.WorldLock.Resume` | packages/test-world/src/nest/world-lock.ts:87-181 | the in-place code of each file operation refines the protocol step |
| `WorldLocks.LockRun.Issue` | packages/test-world/src/nest/world-lock.ts:87-160 | a call on one of many lock objects over one folder is the protocol's call and keeps the invariant |
| `WorldLocks.LockRun.Turn` | packages/test-world/src/nest/world-lock.ts:87-259 | a step of one of many lock objects is the protocol's step and keeps the invariant |
| `WorldLocks.LockRun.Kill` | packages/test-world/src/nest/world-lock.ts:12-14 | a process that is gone leaves its files as they are, for others to break, and the invariant of the living is kept |
| `OutageSystem.DisciplineContains` | packages/test-world/src/nest/world.ts:156-166 | outage code that injures only under the hold and a key, and lets go only of what is whole, has every injury under a key and the exclusive hold |
| `OutageSystem.ActsExactly` | packages/test-world/src/nest/world.ts:156-166 | what each action leaves of keys, injuries, residue and hold, key by key |
| `OutageSystem.MoveKeepsInv` | packages/test-world/src/nest/world.ts:139-166 | any move of any world keeps agreement of its outage bookkeeping with the lock |
| `OutageSystem.LogsAreMoves` | packages/test-world/src/nest/world.ts:157-166 | any interleaving the locks allow of worlds whose own logs are disciplined is a run of the whole system |
| `OutageSystem.NobodyTestsDuringAnOutage` | packages/test-world/src/nest/world-lock.ts:5-8 | in every interleaving of such worlds with crashes: while one has injured anything, its key is in `outages`, it holds the lock exclusively, and no other live world runs a test or has injured anything |
| `OutageSystem.SystemRunsTheLock` | packages/test-world/src/nest/world.ts:139-166 | the lock of the system goes through exactly the events of its turns, releases and closes, all of them possible |
| `OutageSystem.LettingGo` | packages/test-world/src/nest/world.ts:163-166 | ending the last outage, or closing, is a `release` or `close` that holds nothing from that moment |
| `Worlds.World.BeginOutage` | packages/test-world/src/nest/world.ts:157-160 | the exclusive hold comes before the key |
| `Worlds.World.EndOutage` | packages/test-world/src/nest/world.ts:163-166 | the hold ends exactly with the last key |
| `Worlds.World.CutProxy` | packages/test-world/src/nest/world.ts:335-342 | a cut or delayed proxy has its key, even when the call failed after it took effect |
| `Worlds.World.Mend` | packages/test-world/src/nest/world.ts:343-346 | a failing restore keeps the key and the hold; a done one ends the outage |
| `Worlds.World.CutOne` | packages/test-world/src/nest/world.ts:396-400 | a cut connection is remembered for the stop even when the cut fails |
| `Worlds.World.RestoreOne` | packages/test-world/src/nest/world.ts:401-405 | a restored connection is forgotten, a failed restore keeps everything |
| `Worlds.World.PrepareWriteFault` | packages/test-world/src/nest/world.ts:365-391 | custody of a fault starts when it is prepared; a second fault on the table is refused |
| `Worlds.World.InstallWriteFault` | packages/test-world/src/nest/world.ts:376-380 | an attempted installation is under a key and the hold, whatever its outcome; only a handle that captured its table before is refused; and the attempt is covered by custody if and only if the handle is in custody or is refused |
| `Worlds.World.RestoreWriteFault` | packages/test-world/src/nest/world.ts:381-387 | custody, key and hold end only with a confirmed restore |
| `Worlds.World.StopApp` | packages/test-world/src/nest/world.ts:284-293 | an app is down only under its key; a close that fails after stopping the app drops the key at once |
| `Worlds.World.BootApp` | packages/test-world/src/nest/world.ts:296-301 | the outage ends whether or not the app came back; one that did not is left as residue |
| `Worlds.CutsTakeTheHold` | packages/test-world/src/nest/world.ts:335-342 | a cut, delay or rotation has the hold and its key before its effect, and throws exactly when the call failed; a world not booted or a service without a proxy does nothing |
| `Worlds.RestoresEndTheirOutage` | packages/test-world/src/nest/world.ts:343-346 | a done restore ends its own outage and no other, and the hold with the last; a failing one keeps key and hold |
| `Worlds.FaultsHaveCustody` | packages/test-world/src/nest/world.ts:365-391 | what preparing, installing and restoring a fault leaves of custody, key, hold and injury, in each outcome |
| `Worlds.DuringIsABracket` | packages/test-world/src/nest/world.ts:351-358 | `during` is the cut, the body, and the restore whatever the body did; it throws when any of them does, and a cut that fails skips the rest |
| `Worlds.DuringLeavesNoTrace` | packages/test-world/src/nest/world.ts:351-358 | a `during` that does not throw leaves neither its outage nor its injury |
| `Worlds.AppIsDownMeanwhile` | packages/test-world/src/nest/world.ts:284-302 | the body of `appDuring` runs while the app is down, under its key and the hold; the key goes in any case, and an app that did not boot stays down untracked |
| `Worlds.AppNotStopped` | packages/test-world/src/nest/world.ts:292-301 | a failing close of an app drops its key; if it took effect the app stays down untracked |
| `Worlds.SpecsGoOn` | packages/test-world/src/nest/world.ts:280-448 | operations follow each other, and the first that throws ends the spec |
| `Worlds.World.Perform` | packages/test-world/src/nest/world.ts:280-448 | any operation of a spec, nested `during` included and any call failing, takes the world in place from one view to the one the laws above describe, keeps discipline and custody, and abandons nothing but apps that did not come back |
| `Worlds.World.PerformAll` | packages/test-world/src/nest/world.ts:280-448 | the same of a whole spec, operation by operation |
| `Worlds.World.Start` | packages/test-world/src/nest/world.ts:125-136 | refuses while any write fault is in custody; otherwise takes no outage with it |
| `Worlds.World.TakeFaultKeys` | packages/test-world/src/nest/world.ts:198-198 | all faults in custody have the hold and their key before any restore has finished |
| `Worlds.World.RestoreFaults` | packages/test-world/src/nest/world.ts:198-199 | exactly the faults whose restore succeeds leave custody, in any order of completion |
| `Worlds.World.RestoreInfra` | packages/test-world/src/nest/world.ts:651-660 | under the hold every proxied service and every connection noted as down is mended, but for those whose restore fails unnoticed; nothing else is |
| `Worlds.World.CloseLock` | packages/test-world/src/nest/world.ts:200-216 | closing clears `outages` only on the path of a booted world; what is still injured stays as residue |
| `Worlds.World.Stop` | packages/test-world/src/nest/world.ts:194-236 | the lock is closed exactly when no fault is left in custody; each stop tries each remaining fault once; failed ones keep entry, key and hold; of a booted world every proxied service and every connection noted as down is mended unless its restore failed unnoticed, and with none failing only rotations, apps, faults out of custody, services without a proxy and connections not noted are newly left behind; a write fault is left behind exactly when its custody was over, and keys exactly when the world was not booted any more |
| `Worlds.FaultOutlivesCustody` | packages/test-world/src/nest/world.ts:376-388 | a concrete history in which a fault outlives its custody: prepare, restore, install, stop |
| `Worlds.WorldsNeverInjureTogether` | packages/test-world/src/nest/world.ts:106-166 | the worlds of a run, each with its own history, in any interleaving with crashes: while one has injured anything it has the keys and the hold, and no other live world runs a test or has injured anything |
| `Worlds.StaleKeysAfterTwoStops` | packages/test-world/src/nest/world.ts:200-205 | a concrete history in which keys outlive their lock: a stop failing on a fault, then a second stop, then a restart |
| `QueryRecord.SameTagSameData` | ui/src/api/query.ts:203-210 | two versions with one tag have one payload, wherever they stand in the history |
| `QueryRecord.NotModifiedConfirms` | ui/src/api/query.ts:180-187 | a 304 confirms the very value the record holds |
| `QueryRecord.SettleKeepsRead` | ui/src/api/query.ts:230-235 | ending a read changes no data, provenance, tag or read version |
| `QueryRecord.EventKeepsRead` | ui/src/api/query.ts:214-223 | no subscribe, unsubscribe, hide, show, invalidation, timer or server event disturbs the cached value or the tag in flight |
| `QueryRecord.EndKeepsData` | ui/src/api/query.ts:180-212 | however a read ends, the record holds the server's value at its last good read |
| `QueryRecord.EndKeepsFlight` | ui/src/api/query.ts:230-235 | a read that starts at another's end sends the record's own tag |
| `QueryRecord.InvHolds` | ui/src/api/query.ts:141-236 | the invariant of one record, after every sequence of events |
| `QueryGuarantees.CacheIsPlainGet` | ui/src/api/query.ts:180-212 | over every sequence of events the data and tag are the server's at the last successful unaborted read, and nothing before any |
| `QueryGuarantees.AnsweredAsOfCurrent` | ui/src/api/query.ts:203-210 | that version is the one current when the server answered; under a 304 the cached data is the current payload |
| `QueryGuarantees.AbortedReadIsInert` | ui/src/api/query.ts:209-209 | an aborted read changes no data, provenance, tag, error or read version, whatever arrives |
| `QueryGuarantees.OnlyGoodReadsCount` | ui/src/api/query.ts:185-199 | the read version rises by one, and only with an unaborted read that succeeded |
| `QueryGuarantees.Quiescence` | ui/src/api/query.ts:292-294 | hidden or without listeners: no timer armed, and any read in flight is aborted |
| `QueryGuarantees.NoLostInvalidation` | ui/src/api/query.ts:214-235 | a refresh asked for while somebody keeps listening is followed by a fetch started no earlier, across aborts, hide and show |
| `QueryGuarantees.PollingGoesOn` | ui/src/api/query.ts:146-153 | with positive finite intervals, a visible idle record with a listener always has its timer armed (`QueryReads.PollingReads`: and the timer reads) |
| `QueryGuarantees.PollingExactly` | ui/src/api/query.ts:146-153 | polling goes on in every run over a set of intervals if and only if each of them is positive and finite |
| `QueryGuarantees.PassingListener` | ui/src/api/query.ts:312-325 | beside others, a listener that comes and goes leaves an idle record without a timer if and only if its interval is zero, negative or no number; an infinite one does no harm |
| `QueryGuarantees.PassingListenerCanStopPolling` | ui/src/api/query.ts:312-325 | for every such interval, a run from the start after which a record with one proper listener polls no more |
| `QueryGuarantees.EventKeepsGate` | ui/src/api/query.ts:422-422 | no event lets a read that started before a refresh raise the read version after it |
| `QueryReads.EveryStart` | ui/src/api/query.ts:214-225 | whenever a read starts it is the only one, begins at that moment, sends the record's own tag and leaves no timer and no pending refresh; only a visible, heard record starts one, and only for a subscription, a shown tab, an invalidation, a fired timer or a pending refresh |
| `QueryReads.TimerReads` | ui/src/api/query.ts:146-153 | in every run a firing timer starts a read at that moment if and only if none is in flight, and one in flight goes on untouched |
| `QueryReads.PollingReads` | ui/src/api/query.ts:146-153 | with positive finite intervals a visible, heard and idle record has its timer armed, and the firing reads |
| `QueryReads.EveryFiringReads` | ui/src/api/query.ts:146-153 | over whole runs: after every firing for an idle record a read has started at that moment or later |
| `QueryReads.SubscribingReads` | ui/src/api/query.ts:312-318 | a subscription to what was never read reads at once, or as soon as an aborted read has ended; to what was read it reads nothing |
| `QueryReads.Unsubscribing` | ui/src/api/query.ts:320-325 | one of several listeners that goes changes nothing else; the last stops the timer and aborts the read |
| `QueryReads.ShowingReads` | ui/src/api/query.ts:292-301 | showing the tab and invalidating read at once, or once more after the read in flight; hiding aborts it |
| `QueryReads.EveryEnd` | ui/src/api/query.ts:180-235 | an unaborted read fails, shows exactly its message and keeps the value, or succeeds, clears the error, notes the moment and keeps the value (304) or takes the body with the header's tag, or else the body's; a 304 without a value is a failure |
| `QueryReads.BodyIsAwaited` | ui/src/api/query.ts:190-196 | an OK response changes nothing before its body is parsed |
| `QueryReads.LoadingExactly` | ui/src/api/query.ts:225-232 | in every run a record shows that it loads exactly while its first read is in flight |
| `PagedQuery.EventKeepsReader` | ui/src/api/query.ts:389-468 | every event keeps the pages consecutive, in the current refresh's epochs, and the held fetch current |
| `PagedQuery.EarlierEpochIsUnheard` | ui/src/api/query.ts:442-460 | a page read begun in an earlier epoch changes nothing the list shows, whether it succeeds or fails |
| `PagedQuery.FailureKeepsPages` | ui/src/api/query.ts:459-463 | a failing page read restores captured state without losing a page or the cursor |
| `PagedQuery.PagesAreConsecutive` | ui/src/api/query.ts:455-458 | the pages follow each other by their cursors, and none is older than the last refresh |
| `PagedQuery.RefreshGates` | ui/src/api/query.ts:425-433 | `refresh` records the read version that gates the list, and its aborted read can no longer count |
| `PagedQuery.NoPageBeforeAFreshBase` | ui/src/api/query.ts:422-435 | after `refresh`, no page can be asked for until a base read that started at the refresh or later has succeeded |
| `PageLoads.AsksForTheNextPage` | ui/src/api/query.ts:422-447 | a list can ask if and only if the tab is visible, no page read is in flight, no refresh is unanswered and there is a cursor that is not empty: the last page's, or before any page the base read's; and it asks with exactly that cursor |
| `PageLoads.PageIsShown` | ui/src/api/query.ts:449-458 | a current page is shown after the others with exactly its rows and provenance, and its cursor is the next |
| `PageLoads.PageFailureIsShown` | ui/src/api/query.ts:459-466 | a current failure is shown, leaves the pages and the cursor, and the list may ask again |
| `PageLoads.DroppedIsUnheard` | ui/src/api/query.ts:442-466 | a fetch the list let go of changes nothing it shows |
| `PageLoads.RefreshStartsOver` | ui/src/api/query.ts:425-433 | `refresh` forgets pages and fetch, aborts the base read, and has another start at once or after the aborted one |
| `PageLoads.BaseEventsKeepPages` | ui/src/api/query.ts:404-413 | hiding the tab lets go of the fetch and keeps the pages; no other event of the base read touches the list |
| `PageLoads.PagesFollowTheBase` | ui/src/api/query.ts:422-458 | of every list, over all runs: the first page was asked for with a cursor the base read named at that moment, each further one with the cursor of the page before it, all since the last refresh |
| `PagedRows.UniqueRows` | ui/src/api/query.ts:381-386 | the loop over a map keeps exactly the first row of each key, in order |
| `PagedRows.EveryKeyIsShown` | ui/src/api/query.ts:381-386 | every key that occurs is shown, and no other |
| `PagedRows.NoKeyTwice` | ui/src/api/query.ts:381-386 | no key is shown twice |
| `PagedRows.ShownRowsStay` | ui/src/api/query.ts:469-470 | adding a page leaves the rows already shown where they are |
| `QueryCaches.HealthIsUnique` | ui/src/api/query.ts:53-69 | what health means determines it |
| `QueryCaches.AddKeepsHealth` | ui/src/api/query.ts:57-67 | one more active read: latest moments, stale and source sets, and error count go on to summarise exactly the active reads |
| `QueryCaches.HealthOfIsHealth` | ui/src/api/query.ts:53-69 | the fold over active reads is their health, in any order |
| `QueryCaches.ActiveExactly` | ui/src/api/query.ts:54-56 | what is active, address by address: heard records, and the pages none of these shadows |
| `QueryCaches.HealthInPlainWords` | ui/src/api/query.ts:57-66 | each entry of the health on the snapshots' own fields: the two greatest moments, the stale and source marks, the number of errors |
| `QueryCaches.ReleasedExactly` | ui/src/api/query.ts:357-365 | releasing forgets exactly the pages held alone, and takes one owner from the others |
| `QueryCaches.StilledExactly` | ui/src/api/query.ts:408-411 | hiding only ends the loading of held pages |
| `QueryCaches.PageUrlsDiffer` | ui/src/api/query.ts:436-438 | different cursors of a list are different pages |
| `QueryCaches.QueryCache.UpdateHealth` | ui/src/api/query.ts:53-69 | the loop leaves the health of exactly the active records and the pages none of them shadows |
| `QueryCaches.QueryCache.Publish` | ui/src/api/query.ts:71-75 | a published change is in the header's health at once |
| `QueryCaches.QueryCache.MayPoll` | ui/src/api/query.ts:149-150 | the minimum of the intervals is finite and positive |
| `QueryCaches.QueryCache.ScheduleRead` | ui/src/api/query.ts:146-153 | the timer is armed again exactly for a visible record with listeners whose smallest interval is finite and positive |
| `QueryCaches.QueryCache.RequestRead` | ui/src/api/query.ts:214-225 | `request`: single flight, and a refresh asked for meanwhile is remembered |
| `QueryCaches.QueryCache.SettleRead` | ui/src/api/query.ts:230-235 | the `finally` of `request` |
| `QueryCaches.QueryCache.FailRead` | ui/src/api/query.ts:228-235 | a failure is published unless the read was aborted |
| `QueryCaches.QueryCache.SubscribeTo` | ui/src/api/query.ts:312-318 | a subscription is the machine's event, health kept |
| `QueryCaches.QueryCache.UnsubscribeFrom` | ui/src/api/query.ts:320-325 | the last unsubscription stops the timer and aborts |
| `QueryCaches.QueryCache.RefreshQuery` | ui/src/api/query.ts:332-335 | asks for a read now, or right after the one in flight, if anybody listens |
| `QueryCaches.QueryCache.TimerFired` | ui/src/api/query.ts:151-151 | a fired timer asks for a read |
| `QueryCaches.QueryCache.ResponseArrives` | ui/src/api/query.ts:203-212 | 304, failure or an OK response, each as the machine's event |
| `QueryCaches.QueryCache.BodyParsed` | ui/src/api/query.ts:194-200 | a valid body is published with its tag, an invalid one fails the read |
| `QueryCaches.QueryCache.ShowTab` | ui/src/api/query.ts:296-300 | every record somebody listens to asks for a refresh, the others stay as they are |
| `QueryCaches.QueryCache.HideTab` | ui/src/api/query.ts:292-295 | timers stop, reads abort, every list ends its epoch and its pages stop loading |
| `QueryCaches.QueryCache.ReleaseHeldPages` | ui/src/api/query.ts:357-365 | a page is forgotten exactly when nobody else holds it, and held sets and owners still mirror each other |
| `QueryCaches.QueryCache.RefreshList` | ui/src/api/query.ts:425-433 | `refresh` of a list: new epoch, no pages, a base read from now on, ownership and health kept |
| `QueryCaches.QueryCache.LoadMore` | ui/src/api/query.ts:434-447 | `loadMore` asks exactly when the list is enabled, visible, has a next cursor and no page read in flight, and the new page is owned from then on |
| `QueryCaches.QueryCache.Enable` | ui/src/api/query.ts:400-421 | switching a list on or off ends its epoch and releases its pages, and keeps what it shows |
| `QueryCaches.QueryCache.PageArrives` | ui/src/api/query.ts:449-458 | a page is stored only for the list's current fetch |
| `QueryCaches.QueryCache.PageFails` | ui/src/api/query.ts:459-466 | a failing page is shown only for the list's current fetch |
| `QueryCaches.QueryCache.Unmount` | ui/src/api/query.ts:415-420 | a list that goes away holds no page any more |
| `CacheRuns.CacheRun.Happens` | ui/src/api/query.ts:203-236 | an event of one record of the whole cache is that record's own event and passes the others by |
| `CacheRuns.CacheRun.Visibility` | ui/src/api/query.ts:292-301 | hiding or showing the tab is that event for every record |
| `CacheRuns.CacheRun.Refresh` | ui/src/api/query.ts:425-433 | a list's `refresh` is an abort and an invalidation of its base record |
| `CacheRuns.CacheRun.EveryRecordIsPlainGet` | ui/src/api/query.ts:180-236 | in every run of the whole cache every record holds the server's value at its own last good read, and is silent unseen or unheard |
| `CacheRuns.CacheRun.NoRefreshIsLost` | ui/src/api/query.ts:214-235 | in every run of the whole cache no refresh of a record that keeps a listener is lost |
| `WriteFaults.Server.End` | packages/test-world/src/nest/database-write-fault.ts:38-52 | a COMMIT with unknown outcome may have taken effect and reads as a failure |
| `WriteFaults.WriteFault.Count` | packages/test-world/src/nest/database-write-fault.ts:118-123 | a count is given only of objects this handle owns on the captured table |
| `WriteFaults.WriteFault.Install` | packages/test-world/src/nest/database-write-fault.ts:129-146 | whatever query fails: all of the fault or nothing, never without both captures, and success when nothing fails |
| `WriteFaults.WriteFault.Restore` | packages/test-world/src/nest/database-write-fault.ts:147-160 | whatever query fails: only this handle's objects go, all or none; success means none is left and the table is as captured |
| `WriteFaults.StepKeepsCustody` | packages/test-world/src/nest/database-write-fault.ts:82-116 | any call or foreign change keeps: whatever bears the generated name was made by this handle, after both captures, and matches them |
| `WriteFaults.CommittedImpliesCaptured` | packages/test-world/src/nest/database-write-fault.ts:82-160 | after any life that began with nothing under the generated name, with any failures and unknown commits: committed objects imply that table and identities are captured, and are exactly this handle's function and at most its trigger with the captured identities |
| `WriteFaults.UncapturedMadeNothing` | packages/test-world/src/nest/database-write-fault.ts:115-136 | a handle that captured nothing has committed nothing |
| `WriteFaults.RestoredHandleStillInstalls` | packages/test-world/src/nest/database-write-fault.ts:129-160 | restoring a handle that captured nothing succeeds and does not use it up: it still installs |
| `WriteFaults.CallsAreAllOrNothing` | packages/test-world/src/nest/database-write-fault.ts:131-158 | neither call leaves a function without its trigger or touches the table's own constraints and triggers |
| `WriteFaults.RestoreAlwaysPossible` | packages/test-world/src/nest/database-write-fault.ts:147-160 | from any such life, with the table as captured, a restore whose queries succeed succeeds |
| `WriteFaults.RestoreIsIdempotent` | packages/test-world/src/nest/database-write-fault.ts:147-160 | a second restore changes nothing |
| `WriteFaults.ForeignObjectsStay` | packages/test-world/src/nest/database-write-fault.ts:108-116 | an object that is not this handle's is never removed, and the call fails |
| `WriteFaults.InstalledRejects` | packages/test-world/src/nest/database-write-fault.ts:129-146 | after a confirmed installation every write of the chosen operation, row by row and before it happens, meets the fault's own body, and no other operation does |
| `WriteFaults.RestoredRejectsNothing` | packages/test-world/src/nest/database-write-fault.ts:147-160 | after a confirmed restore nothing of the fault is left and the table is as captured |
| `WriteFaults.ChangedTableIsLeftAlone` | packages/test-world/src/nest/database-write-fault.ts:85-97 | a table that is not as captured, or not the provisioned one, is left alone and the call fails |
| `WriteFaults.NotOwnStays` | packages/test-world/src/nest/database-write-fault.ts:108-116 | what counts as not this handle's, field by field, and that it stays |
| `WriteFaults.InstallsOnce` | packages/test-world/src/nest/database-write-fault.ts:129-130 | after its capture a handle installs no more |
| `DatabaseOutage.CheckFields` | packages/test-world/src/config/validate.ts:67-84 | the loop lists exactly the malformed fields and the names declared before, each at its index |
| `DatabaseOutage.GroupByDatabase` | packages/test-world/src/config/validate.ts:90-95 | the grouping loop collects the schemas of every logical database, in order |
| `DatabaseOutage.CheckGroup` | packages/test-world/src/config/validate.ts:96-103 | a group's problems are exactly a member without a schema and a schema declared twice, and it passes exactly when it has one member or distinct schemas throughout |
| `DatabaseOutage.SeparateMembers` | packages/test-world/src/config/validate.ts:96-103 | the members of a group are separate exactly when any two connections of that database are |
| `DatabaseOutage.ValidateConnections` | packages/test-world/src/config/validate.ts:61-105 | all problems of the connections are listed and no other; and none is found exactly in declarations with well-formed fields, distinct names, and distinct schemas wherever two name one database, or one names the other that names none |
| `DatabaseOutage.UnschemedInPlainWords` | packages/test-world/src/config/validate.ts:96-99 | the problem of a shared database without schemas, on the connections' own fields |
| `DatabaseOutage.RepeatsInPlainWords` | packages/test-world/src/config/validate.ts:100-102 | the problem of a schema declared twice in one database, on the connections' own fields |
| `DatabaseOutage.SharedWithoutSchemasIsReported` | packages/test-world/src/config/validate.ts:89-103 | two connections whose `database` fields, or one's name, are the same text are always reported unless their schemas are given and differ |
| `DatabaseOutage.FieldExamples` | packages/test-world/src/config/validate.ts:67-84 | names, databases and schemas that pass and that do not, one of each kind |
| `DatabaseOutage.PlacesDiffer` | packages/test-world/src/config/validate.ts:89-103 | acceptance makes (the database named or else the name, the schema or public) differ between any two connections |
| `DatabaseOutage.TwoAreApart` | packages/test-world/src/stack/services/postgresql.ts:77-87 | two accepted connections never share a database without having different schemas, and never a login |
| `DatabaseOutage.AcceptedIsIsolated` | packages/test-world/src/stack/services/postgresql.ts:77-87 | provisioning an accepted declaration makes (database, schema or public) and logins injective |
| `DatabaseOutage.Postgres.CutConnection` | packages/test-world/src/nest/database-outage.ts:34-45 | a cut sets the one flag of the connection and ends exactly its sessions, statement by statement |
| `DatabaseOutage.Postgres.RestoreConnections` | packages/test-world/src/nest/database-outage.ts:48-55 | a restore clears flags in order, databases first, up to the statement that failed; an undeclared name fails before the first |
| `DatabaseOutage.RestoreOrderIsComplete` | packages/test-world/src/nest/database-outage.ts:48-55 | a whole restore has one statement for each connection, those of databases first |
| `DatabaseOutage.RestoreBringsAllBack` | packages/test-world/src/nest/database-outage.ts:48-55 | after a restore that was not stopped none of its connections is down, and all others are as before |
| `DatabaseOutage.CutTakesDown` | packages/test-world/src/nest/database-outage.ts:34-45 | a cut that took effect takes down its connection and no other |
| `DatabaseOutage.OwnFlagOnly` | packages/test-world/src/nest/database-outage.ts:34-55 | setting or clearing one connection's flag decides that connection and no other |
| `DatabaseOutage.BlockedIsDown` | packages/test-world/src/nest/database-outage.ts:1-9 | after any cuts and restores exactly the connections that are down are blocked |
| `DatabaseOutage.CutEndsOwnSessionsOnly` | packages/test-world/src/nest/database-outage.ts:43-43 | a cut ends no session of another connection, in the same database or not |
| `DatabaseOutage.CallsAreStatements` | packages/test-world/src/nest/database-outage.ts:34-68 | whole calls, stopped by a failure anywhere, leave the flags of their statements that took effect |
| `DatabaseOutage.CallsBlockExactly` | packages/test-world/src/nest/database-outage.ts:1-9 | in every accepted declaration, after any cuts and restores, completed or not, a connection is blocked exactly when it is left down itself |
| `DatabaseOutage.PerformCalls` | packages/test-world/src/nest/database-outage.ts:34-68 | the server's flags after any sequence of calls are what the calls say |
| `DatabaseOutage.AcceptedNeighboursStayUp` | packages/test-world/src/nest/database-outage.ts:1-9 | from validation to outage: in every accepted declaration, cuts and restores block exactly what is down and never a neighbour |
| `Jsonc.StripComments` | packages/test-world/src/jest/paths.ts:27-47 | the scanning loop advances on every turn and outputs the text without its comments |
| `Jsonc.Turn` | packages/test-world/src/jest/paths.ts:30-46 | what one turn of the loop appends, and where it goes on |
| `Jsonc.TokensSpell` | packages/test-world/src/jest/paths.ts:27-47 | literals, comments and other characters together are the whole text, in order |
| `Jsonc.KeptTokenStays` | packages/test-world/src/jest/paths.ts:33-46 | removing a comment never makes a new token: what was kept is read again as itself |
| `Jsonc.ScanOfStripped` | packages/test-world/src/jest/paths.ts:27-47 | scanning the output finds exactly the kept tokens |
| `Jsonc.StripKeepsLiterals` | packages/test-world/src/jest/paths.ts:26-47 | every string literal survives verbatim and in order, no comment is left, and a second scan changes nothing |
| `Jsonc.LiteralEndsAtItsQuote` | packages/test-world/src/jest/paths.ts:33-37 | a literal ends at its first quote that no odd number of backslashes precedes |
| `Jsonc.TokensByFirstCharacters` | packages/test-world/src/jest/paths.ts:33-46 | what each start of a text is taken for, comments, literals and other characters |
| `Jsonc.CommentsEnd` | packages/test-world/src/jest/paths.ts:38-42 | a line comment ends before its line feed, a block comment after its first star and slash |
| `Jsonc.KeptPieces` | packages/test-world/src/jest/paths.ts:38-46 | comments go and nothing else does, piece by piece in order |
| `Jsonc.NothingToStrip` | packages/test-world/src/jest/paths.ts:27-47 | a text without comments stays as it is |
| `TsPaths.FewerLeft` | packages/test-world/src/jest/paths.ts:77-81 | why reading ends on cyclic graphs: each file on the path is read once |
| `TsPaths.EdgesBySpecifiers` | packages/test-world/src/jest/paths.ts:76-80 | one config extends another exactly when one of its specifiers, alone or a text in a list, resolves to it from its own folder |
| `TsPaths.ManySpecifiers` | packages/test-world/src/jest/paths.ts:76-79 | a list extends what its entries extend, in order; entries that are no text extend nothing |
| `TsPaths.UnseenPieces` | packages/test-world/src/jest/paths.ts:78-80 | exactly the configs on the path to here are left out, the others stay in order |
| `TsPaths.BasesAreRead` | packages/test-world/src/jest/paths.ts:78-82 | there is one base for each file that is left, in order, each read from that file |
| `TsPaths.ReadsAllReachable` | packages/test-world/src/jest/paths.ts:73-83 | reading succeeds if and only if every file reachable along `extends` holds a config, in cyclic graphs too |
| `TsPaths.NearestIsMerged` | packages/test-world/src/jest/paths.ts:86-94 | the search finds exactly the value and folder that merging bases left to right, then the config's own options, would leave |
| `TsPaths.NearestIsComplete` | packages/test-world/src/jest/paths.ts:73-94 | the search finds something exactly when some reachable file declares an acceptable value, and what it finds is declared by one, although files seen on the path are skipped |
| `TsPaths.AliasesAreMerged` | packages/test-world/src/jest/paths.ts:99-112 | `resolveTsPaths` fails, answers null, or answers the merged `paths` with the merged `baseUrl` or the folder of `paths`, each exactly when it should |
| `Codings.DecodesUtf8` | ui/src/router.ts:36-39 | every text comes back from its UTF-8 bytes, by the strict and the lenient decoder |
| `Codings.StrictlyUtf8` | ui/src/router.ts:36-39 | the strict decoder accepts exactly the bytes of texts |
| `Codings.ComponentRoundTrip` | ui/src/router.ts:36-39 | `decode` undoes `encodeURIComponent` |
| `Codings.FormRoundTrip` | ui/src/router.ts:80-95 | reading a form text undoes writing it |
| `Codings.ComponentInForm` | ui/src/router.ts:96-99 | a form reads a percent-encoded component as the same text |
| `Codings.ComponentKeeps` | ui/src/router.ts:77-79 | the characters `encodeURIComponent` leaves, one by one; all others become capital escapes |
| `Codings.FormKeeps` | ui/src/router.ts:80-95 | the characters `URLSearchParams` leaves, one by one; a space becomes a plus, all others escapes |
| `Codings.LonePercent` | ui/src/router.ts:36-39 | a percent sign that starts no escape spoils a component and is itself in a query |
| `Codings.BadBytes` | ui/src/router.ts:36-39 | bytes that are no UTF-8 spoil a component, and a query shows a replacement character for each stretch |
| `Router.SafeIsNamed` | ui/src/router.ts:77-79 | an encoded path parameter is a path segment of its own exactly when it is not empty, `.` or `..` |
| `Router.QueryRoundTrip` | ui/src/router.ts:92-95 | a written query reads back as its names and values, in order |
| `Router.HrefIsLink` | ui/src/router.ts:74-103 | every link is `#`, its path segments and its query |
| `Router.LinkIsRead` | ui/src/router.ts:45-51 | the URL parser finds the segments and the query of a printed link |
| `Router.HrefIsRead` | ui/src/router.ts:45-51 | a printed link is parsed as its segments after dot removal and its parameters |
| `Router.UnsafeIsLost` | ui/src/router.ts:56-61 | with an empty or dot parameter fewer than three segments are left |
| `Router.SegmentsAreRead` | ui/src/router.ts:53-71 | the segments and parameters of each page parse to that page |
| `Router.PagesByTheirPath` | ui/src/router.ts:53-71 | which paths show which page, and that all others show none |
| `Router.PagesReadTheirLink` | ui/src/router.ts:56-69 | what each page takes from its link: parameters decoded or empty, a tab that exists or the first choice |
| `Router.FirstOfItsName` | ui/src/router.ts:56-69 | a parameter is the first of its name |
| `Router.DotsClimb` | ui/src/router.ts:45-51 | before the last segment, a dot segment vanishes and two dots take the segment before them along |
| `Router.HashesAreRead` | ui/src/router.ts:45-51 | an empty hash shows the overview, a link reads alike with and without its hash, and a hash that is no link shows no page |
| `Router.FragmentIsNotRead` | ui/src/router.ts:45-51 | a second hash and what follows it are not read |
| `Router.RouteRoundTrip` | ui/src/router.ts:45-103 | `parseRoute(routeHref(r))` is `r` if and only if `r` is not the unknown page and its path parameters are not empty, `.` or `..`; and a link holds only characters a browser keeps |
| `Router.ParsedIsStable` | ui/src/router.ts:45-71 | any absolute-path hash, hand-written or not, whose path parameters decode: the link of the page it shows leads to that page again |
| `RedisProbe.PartsGrow` | packages/test-world/src/nest/redis-probe.ts:20-22 | cutting the rest again with the next chunk gives the parts of the whole stream, even when CR and LF come apart |
| `RedisProbe.PartsAreOneLine` | packages/test-world/src/nest/redis-probe.ts:21-21 | no part has a CR LF in it |
| `RedisProbe.LinesSpell` | packages/test-world/src/nest/redis-probe.ts:21-23 | the lines and the unended rest are the stream |
| `RedisProbe.ReplyReader.Data` | packages/test-world/src/nest/redis-probe.ts:19-29 | the data handler keeps buffer and replies equal to the stream's rest and lines, and resolves once |
| `RedisProbe.RedisReplies` | packages/test-world/src/nest/redis-probe.ts:7-33 | for every way of cutting the stream into chunks there is an answer if and only if something arrived and the whole stream has enough lines, and it is the first lines of the whole stream |
| `RedisProbe.OneLineInPlainWords` | packages/test-world/src/nest/redis-probe.ts:20-23 | a reply is one line exactly when nowhere in it a CR stands before an LF |
| `RedisProbe.DbsizeOnTheWire` | packages/test-world/src/nest/redis-probe.ts:4-6 | the command that counts the keys, character by character |
| `RedisProbe.SelectOnTheWire` | packages/test-world/src/nest/redis-probe.ts:4-6 | the command that selects a database, character by character |
| `RedisProbe.AnswersAreFirstLines` | packages/test-world/src/nest/redis-probe.ts:6-6 | the answers are the first lines of the replies, whatever the replies say, if and only if every reply but the last is one line |
| `RedisProbe.LongReplyShiftsTheNext` | packages/test-world/src/nest/redis-probe.ts:6-6 | with a long reply before the last, the answers are right up to it and the next one is its second line, for all replies |
| `RedisProbe.BulkIsRead` | packages/test-world/src/nest/redis-probe.ts:4-4 | a bulk string is read by its byte length, whatever its bytes are |
| `RedisProbe.CommandsAreRead` | packages/test-world/src/nest/redis-probe.ts:4-18 | what is written for any commands, CR LF in arguments included, is read back as exactly those commands |

## Left out

- LockProtocol.InvHolds: takes the read and the rename of `breakStaleWriter` as one step, knows a process only as alive or dead for ever, and gives each world a process of its own (no reuse of pids, no clash of graveyard names).
- Worlds.World.PrepareWriteFault: does not check that the connection is declared; the checks of `createWriteFault` on names, slot and endpoint (database-write-fault.ts:65-75) are refusals before anything happens.
- QueryCaches.QueryCache.LoadMore: the address of a further page is a function of the list's address and the cursor, not the URL it is in the source; the test that the list still shows the address it was rendered with (query.ts:435) is left out, as a list has always rendered between two actions, and what a list keeps of an earlier address is not modelled.
- Jsonc.StripComments: stops before the trailing-comma replacement (paths.ts:48), which also rewrites matching text inside strings.
- Router.ParsedIsStable: is about hashes that are absolute paths with no white space or control character; how a URL parser resolves any other reference is a parameter of the whole parser.
- RedisProbe.RedisReplies: leaves out the socket, its errors and its timeout, and takes chunks as decoded text.
- Worlds.WorldsNeverInjureTogether: follows each world up to the lock it closes; a world that opens a new lock after a stop is a new world of the protocol, and waiting inside `acquire` is not repeated in `World.dfy`.
- The error code of a failed read, the union of sources and stale marks over pages, response validators, topics and the live event stream of the read cache.
- Booting apps and modules, subscriptions, request scopes, fakes, buckets and the other handles of a world.
- The other checks of `validateDeclaration` (stack directory, workers, faked services, seeds, realm, images, apps), white space beyond the common characters when a database name is trimmed, and schemas that are not equal to themselves (`NaN`).
- Postgres itself: statements take effect or fail as a whole, and names beyond its length limit, which it would cut, are taken as they are.
- How a specifier of `extends` is looked up on disk, JSON parsing, and joining of paths: a table and a function given to the resolver.
- Lone surrogates, which `encodeURIComponent` refuses and `URLSearchParams` replaces.
- The stack lifecycle, leases, ports, containers, proxies and the realm administration: one bit each, with every call allowed to fail.
- Rendering, translation, themes, navigation and the grammar catalogues of the interface.
