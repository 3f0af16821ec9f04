# A verified model of the agent crates

This project models the state machines and data structures of eight crates and proves what they are for:
that an undo is exact, that an anchored batch binds every record of a day, that a rejection stays a
rejection, that a deny list cannot be walked around, that one decision releases one action.

`dafny verify dfyconfig.toml` checks everything.

## Modules

**Undo checkpoints** (`agent-checkpoints`). `FileTree` is an abstract Unix file tree (path to file, link,
directory or nothing) with the operations the store performs on it. `Steps` decides which paths a change
may name (`paths.rs`) and holds manifests and fingerprints. `Undo`, `UndoTheorems`, `UndoInverse` and
`UndoSession` are about undo as a sequence of actions: the check against the virtual view is exact, the
view is the real tree, and undo, of one step or of many, gives the tree back. `StepBegin` and `UndoRun`
are the loops of `begin_step` and `undo_many`; `StepIntent` says from the announced changes which states
an undo accepts. `StoreState`, `StoreInvariants` and `CheckpointStore` are
the store itself: a class with the mutable maps of `Inner`, and a ghost trail of every disk it has ever
written, with the numbers issued by then; the next `Open` must be able to recover from each (a crash is
reopening any of them). `StoreTrail` says what a trail shows, `StoreTheorems` and `StoreUses` draw the
consequences over any number of crashes, `StoreMeaning` says what each answer means for paths and steps,
and `StoreWitness` holds the inputs on which the promises stop.

**Nightly anchor** (`agent-anchor`, `agent-records/src/merkle.rs`). `Merkle` proves that building levels
by pairing and promoting gives the tree hash and audit paths of RFC 6962 (sections 2.1 and 2.1.1) and
that the verification algorithm of RFC 9162 (section 2.1.3.2) accepts exactly those. `Batch`, `Ledger`
and `Nightly` are the day batch, the append-once file and the planner; `NightlySteps` and `NightlyRuns`
put them beside a log that is appended to and pruned, with a clock that does not go back.

**Verified learning** (`agent-learn`). `LearnModel` and `LearnCalls` say what each call writes, in order;
a crash is a prefix of those writes followed by reopening with any proposals file ever saved. `LearnRuns`,
`LearnSteps` and `LearnFinality` prove what survives that, and `LearnWitness` builds the runs that mark
its limits. `LearnMeaning` says when each call goes through and what it leaves, and that a restart redoes it
from the log. `Learner` is the class, each method proved to be one such call; `LearnMemories` follows what
core knows from a proposal to the record.

**Paths and grants** (`agent-guard`, `agent-grants`). `Guard` proves the symlink walk equal to POSIX
pathname resolution, checked at every location met; `Grants` is the two-phase check and the grant state.

**Approvals, snapshots, encoding, price.** `Approvals` (`agent-browser/src/approvals.rs`) is the
single-slot protocol under every interleaving of lock holdings. `Snapshot` (`snapshot.rs`) walks an
arbitrary node graph. `Abi` (`agent-learn/src/registry.rs`) encodes and decodes `registerSkill`. `Price`
(`agent-escalation`) bounds what an escalation costs.

## How to read the contracts

- Methods with loops or fields are proved equal to a function of their inputs or of the old state; the
  lemmas named in the table say what that function means. Those named `…Exactly` say it by positions, days,
  bytes or changes, without the function's own auxiliaries.
- `CheckpointStore.Valid()` contains `Story(trail)`: every disk ever written can be recovered from, and
  the trail is one of single steps recorded, rewritten and evicted. So every public method also states
  crash safety.
- Hashes (`Merkle.Digest`, blob names) are injective constructors, that is, collisions are excluded.
- Undo theorems that involve directories assume that no listed path is a proper ancestor of another
  (`PrefixFree`); `NestedPathsRefuseSessionUndo` shows why.
- Invariants are sometimes closed behind `forall x {:trigger Inside(x)} :: x == v ==> Parts(x)`, which is
  `Parts(v)` unfolded only on request.

## Where the code does not do what its documentation says

Each is a lemma with a concrete witness, beside the condition under which the code does keep its word.

1. **The size cap can be exceeded.** The bytes a step needs are summed before pruning, but pruning may
   delete a blob counted as already there (`StoreWitness.CapCanBeExceeded`; exactly when:
   `StoreTheorems.CapHoldsExactlyWhen`).
2. **A refused step can have evicted others.** `begin_step` says it records nothing when the step does not
   fit; older steps may be gone (`StoreWitness.RefusedStepStillEvicts`; exactly when:
   `StoreTheorems.RefusedStepChangesExactly`).
3. **A session undo can be refused although undoing its steps one by one works**, when one step's path
   was a directory above another's (`UndoTheorems.NestedPathsRefuseSessionUndo`; with prefix-free paths
   both agree, `UndoTheorems.SessionIsStepByStep`).
4. **An undo whose check passed can stop halfway.** A directory counts as a step's recorded state when it
   was there at commit, but a directory is not replaced (`UndoInverse.PassedCheckStopsHalfway`; exactly
   when: `UndoRun.CheckedUndoRuns`; exactly where: `UndoRun.StopsAtFirstDirectory`).
5. **A failed commit frees its paths before the step is interrupted**; a step begun in between loses its
   protection when the drop frees them again (`StoreWitness.FailedCommitUnguards`; exactly when:
   `CheckpointStore.DropAfterFailedCommit`).
6. **A step number can be reused after two crashes** (`StoreWitness.TwoCrashesReuseANumber`; exactly when
   a reopened store has forgotten a number: `StoreTrail.ReopeningForgetsExactly`).
7. **The undo of a pruned step can answer that there never was one.** "Pruned through seq N" is called
   exact, but after a crash between removing a manifest and writing the session's record a step is missing
   above N (`StoreWitness.CrashLeavesAGap`, `StoreWitness.PrunedStepIsNotFound`; exactly when:
   `StoreTrail.ReopenedIsExactWhen`, and over any number of crashes `StoreTheorems.WholeExactlyWhen`; the
   session's next eviction mends it).
8. **`Pruned` is also reported for a day that never had records** (`NightlyRuns.PrunedAlsoForEmptyDay`;
   exactly when: `NightlyRuns.PlanSaysWhatIsRetained`).
9. **A lost accept is not repaired when the skill has been published since**
   (`LearnWitness.PublishedSkillShownAsProposed`; exactly when:
   `LearnFinality.LostAcceptIsRepairedExactly`).
10. **A recorded reject need not be final.** From earlier files a rejected skill can be published and
    offered again (`LearnWitness.RejectedSkillComesBack`), and anything rejected can be offered again once
    the record is beyond the 200000 that reconciling reads (`LearnWitness.UnreadRejectComesBack`). What is
    settled stays so while the record is read and no publish follows, from any file
    (`LearnFinality.SettledStays`; for memories, `LearnFinality.MemoryFinality`), and while it is read,
    from the file saved last (`LearnFinality.RejectIsFinal`; from a first start on,
    `LearnFinality.DecisionsStand`).
11. **A waiter from before a stop clears the answer to a later action when it leaves**
    (`Approvals.StaleExitLosesAnAnswer`; exactly when an answer is lost: `Approvals.AnswerIsKeptExactly`).
12. **The 128-bit sum of a price can overflow** (`Price.SumCanOverflow`); the result is still none exactly
    when the cost exceeds 64 bits (`Price.UpperBoundIsExact`).

## Model

| member | source | states |
|---|---|---|
| `Undo.RestoreResult` | agent-checkpoints/src/store.rs:827-857 | Restoring a path that can be replaced succeeds, leaves exactly the recorded prior content and mode there, and changes nothing else but missing parent directories on the way to it |
| `StoreMeaning.RestoreExactly` | agent-checkpoints/src/store.rs:827-857 | Restoring any path, whatever is there: each refusal in the code's order (a directory is never removed or replaced, nothing is reached through a link, a snapshot that is not what its name says is not put back), and otherwise exactly the recorded content there and nothing else but directories above it |
| `Undo.SequenceRuns` | agent-checkpoints/src/store.rs:806-823 | Any sequence of restores and directory removals over prefix-free paths runs to the end; each path holds what its last restore put there, the virtual view stays equal to the real tree, and everything off the list is framed |
| `UndoTheorems.ViewIsReal` | agent-checkpoints/src/store.rs:775-798 | At every point of an undo, what the preflight's virtual view says about a listed path is what looking at the disk says at that moment |
| `UndoTheorems.CheckIsExact` | agent-checkpoints/src/store.rs:775-798 | The up-front check reports no conflict if and only if every restore, at the moment it runs, finds its path in the step's recorded state or already as it was before the step |
| `UndoTheorems.SessionIsStepByStep` | agent-checkpoints/src/store.rs:716-749 | Undoing a session in one call succeeds exactly when undoing its steps one at a time, newest first, does, and gives the same tree |
| `UndoTheorems.NestedPathsRefuseSessionUndo` | agent-checkpoints/src/store.rs:775-798 | Without prefix-freeness this fails: two steps, one writing below a directory and a later one about the directory itself, are refused together although undoing them one by one restores the tree |
| `UndoInverse.OldestWins` | agent-checkpoints/src/store.rs:806-823 | Over any number of steps, the last thing an undo puts at a path is the prior state recorded by the oldest not-yet-undone step that lists it |
| `UndoSession.SessionGivesTheTreeBack` | agent-checkpoints/src/store.rs:716-824 | If nothing but its steps happened, interrupted ones included, undoing any number of steps gives back exactly the tree from before the oldest |
| `UndoSession.SessionUndoIsExact` | agent-checkpoints/src/store.rs:716-824 | Whatever else happened: a session undo whose check passes succeeds, and exactly which paths are there afterwards is said step by step, newest first, without running anything (`StillThere`): a path the step made as a directory is there exactly if something below it is that this step did not make, a listed path if the step found something there, any other if it was there or is needed by a restored path. Each listed path holds what the oldest step that lists it found, any other what it held |
| `UndoSession.FoundDirectoryStays` | agent-checkpoints/src/store.rs:812-815 | The closed form of that has a condition that cannot be dropped: a directory an older step found and a newer one had to make again stays, with nothing below it, as the older step found it |
| `UndoInverse.StepUndoIsExact` | agent-checkpoints/src/store.rs:683-824 | Undo of one step succeeds if and only if each path is, independently of the others, in its recorded state before or after the step (also when a crash left a mixture), and then every path is back and a created directory is gone exactly when nothing foreign is in it |
| `UndoInverse.UndoGivesTheTreeBack` | agent-checkpoints/src/store.rs:683-824 | If nothing but the step happened, its undo gives back exactly the file tree from before the step |
| `UndoInverse.StepPassesCheck` | agent-checkpoints/src/store.rs:775-798 | For one step the check passes exactly when each listed path is in its state before or after the step |
| `UndoInverse.RunsExactlyWithoutDirectories` | agent-checkpoints/src/store.rs:827-857 | Whatever the check says, the restores run to the end if and only if no listed path is a directory |
| `UndoInverse.PassedCheckStopsHalfway` | agent-checkpoints/src/store.rs:775-824 | A step that finds a directory at one of its paths when it is committed records that as its state; its undo passes the check, restores one path and then stops at the directory |
| `FileTree.RemovedExactlyWhenNothingForeign` | agent-checkpoints/src/store.rs:812-815 | Removing created directories deepest first removes each of them exactly when nothing that is not itself such a directory is below it |
| `FileTree.RemoveEmptyDirsFrame` | agent-checkpoints/src/store.rs:812-815 | That removal touches nothing but listed directories |
| `UndoRun.CheckAll` | agent-checkpoints/src/store.rs:751-805 | The checks before an undo (busy paths, roots still in place, conflicts, blobs) answer what the definitions say, each error in the code's order |
| `UndoRun.CheckClashes` | agent-checkpoints/src/store.rs:775-798 | The loop over steps and entries with the mutable view reports exactly the clashes of the specification, in order |
| `UndoRun.UndoOne` | agent-checkpoints/src/store.rs:806-815 | Restoring the entries of one step in order and then removing its created directories, deepest first, is that step's sequence of actions; the tree it leaves, also when it stops |
| `UndoRun.CheckedUndoRuns` | agent-checkpoints/src/store.rs:751-824 | An undo that passes every check touches no path in flight and succeeds if and only if no listed path is a directory now |
| `UndoRun.StopsAtFirstDirectory` | agent-checkpoints/src/store.rs:806-824 | After a passed check the undo gets through exactly the steps before the first one that lists a path which is a directory now |
| `Steps.Resolve` | agent-checkpoints/src/paths.rs:36-90 | Which paths a change may name and which parents are missing: the loop over components agrees with the definition, in every branch |
| `Steps.AcceptedHasRealParents` | agent-checkpoints/src/paths.rs:61-90 | Every existing directory above an accepted path is a real directory, none a link |
| `Steps.ResolvedExactly` | agent-checkpoints/src/paths.rs:36-90 | A path is accepted exactly when it is a place below the granted folder, by the folder's real path or the one it was granted under, spelled with names and `.` only, not the folder itself, and whatever exists above it below the folder is a directory and no link |
| `Steps.ResolvedSays` | agent-checkpoints/src/paths.rs:70-90 | It is then that place, with exactly the directories missing on the way there, topmost first |
| `Steps.MissingDirsAre` | agent-checkpoints/src/paths.rs:61-90 | The missing parents reported are exactly the proper prefixes with nothing there, shallowest first |
| `Steps.StoredPathResolves` | agent-checkpoints/src/store.rs:761-774 | A stored relative path resolves again exactly when the directories above it are still real |
| `StepBegin.MakePlans` | agent-checkpoints/src/store.rs:425-448 | The plans of a step, in order, or the first refusal |
| `StepBegin.CheckEachOnce` | agent-checkpoints/src/store.rs:449-457 | Whether some path is listed twice |
| `StepBegin.Snapshot` | agent-checkpoints/src/store.rs:468-489 | The loop records each path: what is there, and what its change should leave there (a write the hash announced, a delete and a rename's source nothing, a rename's target what its source held); it refuses exactly when one of them cannot be recorded |
| `StepIntent.StepExpectsItsChanges` | agent-checkpoints/src/store.rs:418-489 | The two states an undo accepts at each path, said from the changes the step was begun with and not from its manifest: the path is as it was, or as one of those changes leaves it, or, once recorded at commit, as it was found then; both directions, paths independent |
| `StoreTheorems.BegunStepExpectsItsChanges` | agent-checkpoints/src/store.rs:418-545 | The same of every step that a begin recorded, in whatever status it is later |
| `StepBegin.ManifestIsSound` | agent-checkpoints/src/store.rs:511-538 | The manifest written is sound: listed paths are distinct and non-empty, created directories are distinct, ordered by depth, and each is above a listed path |
| `StepBegin.ManifestCaptures` | agent-checkpoints/src/store.rs:552-605 | The manifest records the state of every path from before the step, and as created only directories that were not there |
| `StepBegin.ManifestListsEveryNewDir` | agent-checkpoints/src/store.rs:511-521 | The directories listed as created are exactly the missing ones above a path that the step writes or renames to |
| `StepBegin.RenameExpectsSource` | agent-checkpoints/src/store.rs:470-489 | The target of a rename is expected to become what its source was, and the source to be gone |
| `StoreState.VictimIsUnique` | agent-checkpoints/src/store.rs:375-400 | A step is the victim exactly when it may be evicted and its session was used before every other session with a step that may be, or at the same time and has the smaller name; so there is one at most |
| `StoreUses.LeastRecentlyUsedLoses` | agent-checkpoints/src/store.rs:334-409 | Over any lives of the store, crashes included: when room is made by evicting a step of one session while another session has a step that could go, every use of the first is followed by a use of the other (a use is a begin, finish or undo that went through); between sessions never used the smaller name loses |
| `StoreUses.RoomIsMadeAsNeeded` | agent-checkpoints/src/store.rs:371-409 | Each eviction of a call comes while the bytes do not fit, and takes the oldest kept step of a session, one that is not in flight |
| `StoreUses.LastUsedIsSpared` | agent-checkpoints/src/store.rs:334-409 | So the session used last loses a step only if no other session has one that could go |
| `StoreUses.LaterUseIsAhead` | agent-checkpoints/src/store.rs:334-341 | The clock on disk tells the order of uses: a session used since a moment is ahead of every session as of that moment, over crashes and reopenings; one that was not keeps its time |
| `StoreState.PruningIsDetermined` | agent-checkpoints/src/store.rs:375-409 | Which steps a call evicts, and how many, follows from the state and the bytes needed |
| `StoreState.EvictionsSpareInFlight` | agent-checkpoints/src/store.rs:371-409 | Pruning never evicts a prepared step and changes none that stays |
| `StoreInvariants.EvictionKeeps` | agent-checkpoints/src/store.rs:394-407 | Removing a manifest file, and then writing the session record, each leave a disk that can be recovered from; after both, the session keeps exactly the numbers given out above those it calls pruned, whatever was missing before |
| `StoreState.NoneMissingIs` | agent-checkpoints/src/store.rs:371-374 | That no step is missing (`NoneMissing`) means that every session keeps exactly the numbers given out above those it calls pruned |
| `StoreInvariants.RecordKeeps` | agent-checkpoints/src/store.rs:523-545 | A new manifest gets a number no kept step has; the store stays consistent and recoverable |
| `StoreInvariants.TouchKeeps` | agent-checkpoints/src/store.rs:334-341 | Writing the time of use keeps the store consistent and recoverable |
| `StoreInvariants.RestatusKeeps` | agent-checkpoints/src/store.rs:607-638 | Rewriting a manifest with a new status or after-states keeps the store consistent and recoverable |
| `StoreInvariants.InFlightWith` | agent-checkpoints/src/store.rs:539-542 | The busy set stays the disjoint union of the paths of prepared steps when a step begins |
| `StoreInvariants.InFlightFinished` | agent-checkpoints/src/store.rs:607-638 | It stays that when a step finishes: no path of another step is freed |
| `StoreInvariants.RecordsAreDetermined` | agent-checkpoints/src/store.rs:240-298 | The session records a reopened store reads from a disk are those any store that could have left that disk had in memory |
| `CheckpointStore.CheckpointStore.Open` | agent-checkpoints/src/store.rs:194-298 | Opening after a crash at any durable write yields a valid store: prepared steps are interrupted, exactly the referenced blobs are kept, nothing is busy, and the session records are those of any memory that could have left that disk |
| `CheckpointStore.CheckpointStore.LoadSteps` | agent-checkpoints/src/store.rs:256-291 | Reading a session: its last number is the largest of its record and its manifests; steps in flight are rewritten as interrupted |
| `CheckpointStore.CheckpointStore.Gc` | agent-checkpoints/src/store.rs:344-370 | Garbage collection removes exactly the unreferenced blobs, and every intermediate disk can be recovered from |
| `CheckpointStore.CheckpointStore.PickVictim` | agent-checkpoints/src/store.rs:382-393 | Finds the step whose session goes before every other session that has a step to evict, by last use and then by name; there is none exactly when nothing may be evicted |
| `CheckpointStore.CheckpointStore.EvictStep` | agent-checkpoints/src/store.rs:397-407 | One eviction: manifest, session record, blobs; the session then keeps exactly the numbers above those it calls pruned |
| `CheckpointStore.CheckpointStore.PruneToFit` | agent-checkpoints/src/store.rs:375-409 | Terminates; evicts step by step only while the bytes do not fit; fails exactly when nothing evictable is left, and then keeps what it evicted |
| `CheckpointStore.CheckpointStore.Install` | agent-checkpoints/src/blobs.rs:71-88 | Staged snapshots join the blob map; blobs already there are not written twice |
| `CheckpointStore.CheckpointStore.Record` | agent-checkpoints/src/store.rs:523-545 | Number, manifest, busy paths, all at once |
| `CheckpointStore.CheckpointStore.BeginStep` | agent-checkpoints/src/store.rs:418-545 | The whole of a begun step: every refusal with the state it leaves, the evictions, the new number, manifest, blobs, session record and busy set; `Begun` spells it out |
| `StoreMeaning.ScreenedExactly` | agent-checkpoints/src/store.rs:418-489 | A step gets as far as the store exactly when the folder is a directory, each change names only paths the tool may name, none twice, none in flight, and what is at each can be recorded; which refusal, in the code's order |
| `StoreMeaning.BegunExactly` | agent-checkpoints/src/store.rs:491-545 | What becomes of a step that is not refused before: too large exactly when the bytes it needs exceed the cap; store full exactly when they do not fit and no step is left that could go; otherwise recorded, with its snapshots, entries and busy paths, and only the evicted steps gone |
| `StoreMeaning.FinishedExactly` | agent-checkpoints/src/store.rs:607-638 | Committing succeeds exactly when every path can be looked at, and records what was seen at each and nothing else; otherwise only the status changes, to interrupted |
| `StoreMeaning.NewestFirstExactly` | agent-checkpoints/src/store.rs:722-730 | A session undo works through exactly the kept steps that are not undone, newest first |
| `StoreMeaning.PassesExactly` | agent-checkpoints/src/store.rs:751-805 | An undo passes its checks exactly when no path is in flight, folders and what leads to each path are directories, nothing is in another state than recorded, and every snapshot needed is there and is what its name says |
| `StoreMeaning.BusyNamesTheFirst` | agent-checkpoints/src/store.rs:751-762 | A busy undo names the first listed path that another step has in flight |
| `StoreMeaning.MarkedExactly` | agent-checkpoints/src/store.rs:806-824 | The steps undone are marked so, and no other step changes |
| `StoreMeaning.StepsReported` | agent-checkpoints/src/store.rs:806-824 | The report names the steps in the order they were undone |
| `StoreMeaning.ReportExactly` | agent-checkpoints/src/store.rs:806-824 | And each step's paths in its order, after those of the steps undone before it |
| `StoreMeaning.EvictExactly` | agent-checkpoints/src/store.rs:397-407 | Evicting a step drops exactly the snapshots that no other step needs, prunes its session through it, and touches nothing else |
| `CheckpointStore.CheckpointStore.Finish` | agent-checkpoints/src/store.rs:607-638 | Commit records what each path holds, abort interrupts; paths are freed even when looking fails; a finished step is left alone |
| `CheckpointStore.CheckpointStore.Commit` | agent-checkpoints/src/store.rs:152-177 | A failed commit is followed by the drop, which interrupts the step |
| `CheckpointStore.CheckpointStore.UndoMany` | agent-checkpoints/src/store.rs:751-824 | The checked undo of many steps: a failed check changes nothing; one that stops at a directory leaves the tree as far as it came, with exactly the finished steps marked undone |
| `CheckpointStore.CheckpointStore.UndoStep` | agent-checkpoints/src/store.rs:683-714 | Every answer of undoing one step (pruned, unknown, already undone, busy, refused, done) and the state after it |
| `CheckpointStore.CheckpointStore.UndoSession` | agent-checkpoints/src/store.rs:716-749 | Undo of every standing step of a session, newest first: all or nothing on conflicts, and the state left when it stops at a directory |
| `CheckpointStore.SessionListIsComplete` | agent-checkpoints/src/store.rs:722-730 | The list a session undo works through contains every kept step of the session that is not undone |
| `CheckpointStore.NewestFirstAre` | agent-checkpoints/src/store.rs:722-730 | That list is in decreasing number and holds only kept, not undone steps |
| `CheckpointStore.AfterIsRecorded` | agent-checkpoints/src/store.rs:619-631 | Committing records for each path what it holds at that moment and changes nothing else in the entry |
| `CheckpointStore.DropAfterFailedCommit` | agent-checkpoints/src/store.rs:171-177 | After a failed commit the paths are already free; the drop that follows keeps the busy set right if and only if nobody has taken them meanwhile |
| `StoreWitness.FailedCommitUnguards` | agent-checkpoints/src/store.rs:152-177 | A state in which that goes wrong: a failed commit, a step begun on the freed path, and then the drop leave a prepared step whose path is not busy |
| `StoreTheorems.EveryStepKeepsItsSnapshot` | agent-checkpoints/src/store.rs:344-409 | On every disk a valid store ever writes, the blobs of every kept step are present and hold what the manifest says |
| `StoreTheorems.UndoSparesInFlight` | agent-checkpoints/src/store.rs:751-762 | An undo that passes its checks lists no path of any prepared step |
| `StoreTheorems.SizeAfterBegin` | agent-checkpoints/src/store.rs:491-509 | The total after a begun step: what pruning kept, the bytes needed, and the staged files whose blob pruning deleted |
| `StoreTheorems.CapHoldsExactlyWhen` | agent-checkpoints/src/store.rs:491-509 | After a begun step the store is within its cap if and only if the blobs it needs that pruning deleted fit in the room left; it exceeds the cap by at most those, and never without an eviction |
| `StoreWitness.CapCanBeExceeded` | agent-checkpoints/src/store.rs:491-509 | A begun step after which a store with a cap of 10 bytes holds 12 |
| `StoreTheorems.RefusedStepChangesExactly` | agent-checkpoints/src/store.rs:410-545 | A refused step leaves the store as it was, unless it was refused because the store is full and some step could be evicted: then, and only then, it has evicted some |
| `StoreWitness.RefusedStepStillEvicts` | agent-checkpoints/src/store.rs:410-417 | A begin refused because the store is full that has evicted a step |
| `StoreTrail.LastNumberAfterCrash` | agent-checkpoints/src/store.rs:402-407 | After a crash between removing a manifest and writing the session record, the last number is lost if and only if the evicted step was the newest and its number had not reached the record |
| `StoreTrail.ReopeningForgetsExactly` | agent-checkpoints/src/store.rs:194-298 | Over a whole trail of writes: reopening on any disk ever written gives a session's last number as it was issued then, unless that disk is the one amid an eviction and the condition before holds |
| `StoreTrail.NumbersAreNotReused` | agent-checkpoints/src/store.rs:418-638 | Along a trail a step number that was used and is gone is never used again |
| `StoreTrail.KeptIsSame` | agent-checkpoints/src/store.rs:418-638 | Along a trail a kept step stays the same step: only its status and the states found at commit change |
| `StoreWitness.TwoCrashesReuseANumber` | agent-checkpoints/src/store.rs:402-407 | So after two crashes, the second amid the eviction that a begin calls for, a step number is given out again |
| `StoreTrail.WholeAfterCrash` | agent-checkpoints/src/store.rs:397-406 | After a crash between removing a manifest and writing the session record, a step is missing above the pruned ones unless it was the last and nothing on disk shows that there was one |
| `StoreTrail.ReopenedIsExactWhen` | agent-checkpoints/src/store.rs:194-298 | A store reopened on any disk ever written keeps of a session exactly the numbers above those it calls pruned, unless the disk is one amid an eviction of the session that does not forget its number, or that was already so when the store was opened and no step of the session has been evicted since |
| `StoreTrail.NoCallLosesAStep` | agent-checkpoints/src/store.rs:371-638 | No call, however many steps it evicts, makes a step go missing above the pruned ones |
| `StoreTheorems.WholeExactlyWhen` | agent-checkpoints/src/store.rs:194-417 | Over any number of lives and crashes: a session keeps exactly the numbers above those it calls pruned, unless a life ended amid one of its evictions with something left to show the gap, and no eviction of it has been carried through since |
| `StoreTheorems.PrunedIsSaidExactly` | agent-checkpoints/src/store.rs:689-699 | That is when an undo of a missing step answers right: every number given out is kept or answered as pruned |
| `StoreWitness.CrashLeavesAGap` | agent-checkpoints/src/store.rs:397-406 | A store, from its first opening on, that crashes amid an eviction and is left with a step missing above the pruned ones |
| `StoreWitness.PrunedStepIsNotFound` | agent-checkpoints/src/store.rs:689-699 | Opened on that disk, it answers an undo of the pruned step with not found |
| `StoreTheorems.StepIsTheSame` | agent-checkpoints/src/store.rs:194-638 | Over any number of crashes and reopenings that forget no number of its session, a step still there is the one that was begun |
| `StoreTheorems.CommitRecordsWhatIsThere` | agent-checkpoints/src/store.rs:619-631 | After a commit every listed path is in its recorded state |
| `StoreTheorems.CommittedStepIsUndone` | agent-checkpoints/src/store.rs:607-824 | The undo of a step after its commit, if nothing else happened, gives back the tree from before it |
| `StoreTheorems.BegunStepIsUndone` | agent-checkpoints/src/store.rs:418-824 | From begin to undo, with any store operations, crashes and reopenings in between: a step that is still kept passes the check, its blobs included, and its undo gives back the tree it began on, if each of its paths is as it was or as the announced change leaves it (or as found at commit) and nothing else happened to the folder |
| `StoreTheorems.SessionIsUndone` | agent-checkpoints/src/store.rs:418-824 | The same for a whole session, its steps begun in whatever lives of the store: each path as it was or as its step's change leaves it: its undo passes every check and gives back the tree the oldest step began on |
| `Merkle.SplitIsLargestPowerBelow` | agent-records/src/merkle.rs:70-75 | The split point is the largest power of two below n |
| `Merkle.LevelAboveKeepsTreeHash` | agent-anchor/src/tree.rs:28-48 | Pairing neighbours and promoting an unpaired last node keeps the recursive tree hash of section 2.1 of RFC 6962 |
| `Merkle.AuditPathByLevels` | agent-anchor/src/tree.rs:66-80 | The audit path of section 2.1.1 of RFC 6962 is this level's sibling, if any, followed by the path one level up |
| `Merkle.AuditPathIsLogarithmic` | agent-anchor/src/tree.rs:66-80 | An audit path over n leaves has at most ceil(log2 n) hashes |
| `Merkle.Build` | agent-anchor/src/tree.rs:28-48 | The loop builds the levels over the leaves; no tree exactly for no leaves |
| `Merkle.CollectPath` | agent-anchor/src/tree.rs:66-80 | The loop collects the sibling at every level |
| `Merkle.TreeRootIsTreeHash` | agent-anchor/src/tree.rs:51-60 | The top of the levels is the tree hash of section 2.1 of RFC 6962 |
| `Merkle.TreePathIsAuditPath` | agent-anchor/src/tree.rs:66-80 | For every index the path is exactly the audit path, with its bound; none past the end |
| `Merkle.TreeHashInjective` | agent-records/src/merkle.rs:53-88 | Leaf lists of one length with the same tree hash are the same |
| `Merkle.VerifyPath` | agent-records/src/merkle.rs:115-145 | The verification loop of section 2.1.3.2 of RFC 9162 |
| `Merkle.RecomputeIsInjective` | agent-records/src/merkle.rs:115-145 | A path and leaf are determined by the root they recompute at one position |
| `Merkle.PathVerifiesExactly` | agent-records/src/merkle.rs:115-145 | Against the tree hash of the leaves, a proof verifies if and only if it is the leaf at that index with its audit path |
| `Batch.BuildDayBatch` | agent-anchor/src/batch.rs:102-140 | The loop finds the day's records, refuses the first gap in their numbers, and otherwise batches all of them |
| `Batch.AcceptedProofsAreTheBatchs` | agent-anchor/src/batch.rs:153-184 | Against a batch's commitment a proof verifies if and only if it is the one the batch hands out |
| `Batch.EveryProofVerifies` | agent-anchor/src/batch.rs:153-175 | Every proof of a batch verifies, one for each record in order |
| `Batch.ProofsBindSeqToRecord` | agent-anchor/src/batch.rs:177-184 | Two proofs accepted for one number against one anchored value are the same proof, so carry the same record |
| `Ledger.AnchorLedger.Load` | agent-anchor/src/ledger.rs:163-196 | Loading answers the entries exactly when each is well formed, days increase and ranges are disjoint |
| `Ledger.LoadableExactly` | agent-anchor/src/ledger.rs:85-196 | Which files load: days strictly increasing, no record in two entries, and each entry what it says it is: a batched day counts its range and carries the value that binds its header, an incomplete one carries neither root nor value nor confirmation |
| `Ledger.RecordBatchedAnswers` | agent-anchor/src/ledger.rs:240-300 | Recording a batch: no change exactly when the day's entry is of that very header, a conflict when it is not, an overlap when a record is shared; otherwise exactly one entry is added, with these values |
| `Ledger.RecordIncompleteAnswers` | agent-anchor/src/ledger.rs:240-326 | The same for a day reported incomplete |
| `Ledger.ConfirmAnswers` | agent-anchor/src/ledger.rs:330-363 | Only a batched day is confirmed, and once: the same transaction and block again are no change, others a conflict; nothing else in the file changes |
| `Ledger.AnchorLedger.Insert` | agent-anchor/src/ledger.rs:240-271 | Insert, repeat, conflict or overlap |
| `Ledger.AnchorLedger.RecordBatched` | agent-anchor/src/ledger.rs:276-300 | Recording a batch: the answer and the file after it |
| `Ledger.AnchorLedger.RecordIncomplete` | agent-anchor/src/ledger.rs:302-326 | Recording an incomplete day: the answer and the file after it |
| `Ledger.AnchorLedger.MarkConfirmed` | agent-anchor/src/ledger.rs:330-363 | Confirming: the answer and the file after it |
| `Ledger.ApplyKeeps` | agent-anchor/src/ledger.rs:240-363 | Every operation keeps the file loadable, keeps every entry's commitment and any confirmation, and changes nothing unless it answers that it recorded something |
| `Ledger.EveryRunReloads` | agent-anchor/src/ledger.rs:163-363 | After any sequence of operations the ledger reloads, with days increasing, ranges disjoint, and no commitment or confirmation changed |
| `Nightly.PlanDay` | agent-anchor/src/nightly.rs:54-110 | The plan of a day and the ledger after it, branch by branch |
| `Nightly.Prove` | agent-anchor/src/nightly.rs:134-153 | Rebuilding a proof: each refusal, or a proof of that record that verifies against its day's recorded commitment |
| `NightlySteps.StepKeepsInv` | agent-anchor/src/nightly.rs:54-110 | Every append, prune, clock tick, plan and confirmation keeps every ledger entry true of all records ever written on its day |
| `NightlyRuns.RunKeepsInv` | agent-anchor/src/nightly.rs:54-110 | Over any run of appends, prunes, clock ticks, plans and confirmations, every ledger entry stays true of all records ever written |
| `NightlyRuns.PlanningNeverFails` | agent-anchor/src/nightly.rs:54-110 | In every run, planning fails only for a day that is not over or a malformed registry address: gaps, overlaps and conflicts never occur |
| `NightlyRuns.ReadyCoversTheDay` | agent-anchor/src/nightly.rs:98-110 | A ready plan covers exactly all records ever written on that day |
| `NightlyRuns.ReadyIsRepeated` | agent-anchor/src/nightly.rs:84-92 | Whatever happens later, planning that day again repeats the same commitment or says it is anchored |
| `NightlyRuns.IncompleteNeverBecomesReady` | agent-anchor/src/nightly.rs:70-110 | A day reported incomplete is reported the same ever after |
| `Nightly.PendingDaysAre` | agent-anchor/src/nightly.rs:115-131 | A day is pending exactly when its last millisecond is over, a record of it is retained, and no entry has it; each once, oldest first |
| `NightlyRuns.PlanSettlesPendingDay` | agent-anchor/src/nightly.rs:115-131 | At any point of any run, planning a pending day leaves an entry for it, takes it off the list and puts no other on |
| `NightlyRuns.PlanningTheListSettlesAll` | agent-anchor/src/nightly.rs:54-131 | At any point of any run, a retained record of a day that is over is of a day with an entry or of a pending one; planning the pending days in turn never fails, and then the list is empty and every such day has its entry |
| `NightlyRuns.BatchedRecordsAreProvable` | agent-anchor/src/nightly.rs:134-153 | In every run, a record of a batched day that is wholly retained gets a proof that verifies |
| `NightlyRuns.PlanSaysWhatIsRetained` | agent-anchor/src/nightly.rs:94-110 | For a day without an entry, by what was ever written on it and what of that is kept: ready exactly when all is kept, incomplete exactly when some is (with the number kept), pruned or empty exactly when none is, by whether it or a later day lost records |
| `NightlyRuns.PrunedAlsoForEmptyDay` | agent-anchor/src/nightly.rs:94-96 | A day that never had a record is reported as pruned when later records have been pruned |
| `NightlyRuns.HeaderDeterminesRecords` | agent-anchor/src/batch.rs:54-64 | Two batches of a day have one commitment exactly when they hold the same records |
| `NightlyRuns.ReplanDetectsExactly` | agent-anchor/src/nightly.rs:84-110 | Planning a batched day again, whatever is retained now: a gap if and only if the numbers have one; a conflict if and only if the day is wholly retained and its records differ; otherwise the same header |
| `Learner.Learner.Open` | agent-learn/src/learner.rs:542-582 | Reopening from any earlier saved file: the proposals of that file, moved to what the log says, old ones dropped, saved again |
| `Learner.Learner.ReconcileWithLog` | agent-learn/src/learner.rs:590-725 | The loops over the log and the proposals give the reconciled proposals; the count is zero exactly when nothing moved |
| `Learner.Learner.Prune` | agent-learn/src/learner.rs:742-757 | Drops the oldest decided proposals down to the limit and never one awaiting a decision |
| `Learner.Learner.Propose` | agent-learn/src/learner.rs:944-1014 | Proposing: taken in exactly when fewer than 256 wait, it is valid and nothing says the same; what is written, and the proposal as it is kept, with exactly its conflicts |
| `Learner.Learner.Reject` | agent-learn/src/learner.rs:1081-1108 | Rejecting: log entry first, then the state, then the file; succeeds exactly for a proposal awaiting a decision |
| `Learner.Learner.Accept` | agent-learn/src/learner.rs:1112-1254 | Accepting: all writes in order; it succeeds exactly when nothing says the same by now, every conflict is acknowledged and none is blocking, and it could be recorded and written; the record handed over has the proposed key and value and every contradiction, and is `both` exactly when there is one |
| `Learner.Learner.ResolveTwo` | agent-learn/src/learner.rs:1319-1420 | Resolving two contradicting memories: one is retracted, recorded first |
| `Learner.Learner.KeepLearned` | agent-learn/src/learner.rs:1423-1560 | Keeping a learned memory over a known one |
| `Learner.Learner.KeepKnown` | agent-learn/src/learner.rs:1423-1560 | Keeping a known memory over a learned one |
| `Learner.Learner.PreparePublish` | agent-learn/src/learner.rs:1566-1700 | Preparing a publish: recorded, then the state |
| `Learner.Learner.MemoryConflictsOf` | agent-learn/src/learner.rs:866-940 | Refused exactly when core or another proposal says the same; otherwise exactly a contradiction with each memory core holds on the key and each accepted one, and a pending one with each undecided |
| `Learner.Learner.SkillConflictsOf` | agent-learn/src/learner.rs:801-862 | Refused exactly when the very skill is in the folder or on offer; otherwise exactly one conflict with the member's own of that name, one with another source's, and one with each undecided proposal of that name |
| `Learner.BothExactlyWhenContradicting` | agent-learn/src/learner.rs:1160-1215 | The conflicts recorded on acceptance contain a contradiction exactly when an accepted memory disagrees about the key or one found earlier still stands |
| `LearnMemories.KnownMemoryIsNeverLost` | agent-learn/src/learner.rs:866-1215 | Over any run: if a memory was proposed while core held another on its key, then whatever was called, crashed or reopened since, no accept goes through unless that memory is among the acknowledged ones, and what is handed to core then names it and is `both` |
| `LearnMemories.KnownIsRefused` | agent-learn/src/learner.rs:866-900 | What core holds already is refused without a trace |
| `LearnMeaning.ProposeExactly` | agent-learn/src/learner.rs:795-1014 | When a proposal is taken in, and what is kept of it, said of proposals, known memories and folders |
| `LearnMeaning.AcceptExactly` | agent-learn/src/learner.rs:1112-1254 | When an accept goes through, which conflicts the proposal has then, and what is recorded, written and kept |
| `LearnMeaning.RejectExactly` | agent-learn/src/learner.rs:1081-1108 | Only an undecided proposal can be rejected; it records member and reason |
| `LearnMeaning.ResolveTwoExactly` | agent-learn/src/learner.rs:1319-1420 | Only of two persisted memories on one key that say different things can one be kept and the other retracted in its favour |
| `LearnMeaning.KeepLearnedExactly` | agent-learn/src/learner.rs:1423-1560 | Only against a known memory that the persisted one was acknowledged to contradict, once |
| `LearnMeaning.KeepKnownExactly` | agent-learn/src/learner.rs:1423-1560 | The same the other way: the learned memory is retracted |
| `LearnMeaning.PublishExactly` | agent-learn/src/learner.rs:1566-1700 | A skill is prepared for publishing only while its file holds exactly what was accepted |
| `LearnMeaning.RestartRedoesReject` | agent-learn/src/learner.rs:583-725 | A crash at any point after a rejection was recorded: reconciling the file from before the call gives the state the call would have left |
| `LearnMeaning.RestartRedoesResolve` | agent-learn/src/learner.rs:583-725 | The same for a retraction in favour of another memory |
| `LearnMeaning.RestartRedoesKeepKnown` | agent-learn/src/learner.rs:583-725 | For a retraction in favour of a known memory |
| `LearnMeaning.RestartRedoesKeepLearned` | agent-learn/src/learner.rs:583-725 | For the choice of a learned memory over a known one |
| `LearnMeaning.RestartRedoesPublish` | agent-learn/src/learner.rs:583-725 | And for a publish |
| `LearnMeaning.RestartAfterAccept` | agent-learn/src/learner.rs:583-725 | An accept is not redone blindly: a memory is offered for accepting again; a skill proposed on file is persisted exactly when the last outcome recorded says completed and its file holds what was proposed, and is offered again otherwise |
| `LearnMeaning.SavingKeepsTheNewest` | agent-learn/src/learner.rs:742-757 | Saving keeps every undecided proposal and of the others the 512 made last, of two made at one moment the larger id |
| `Learner.EveryCallKeeps` | agent-learn/src/learner.rs:944-1700 | What any method leaves, by its contract: contradicting memories acknowledge each other, in memory and in every file; what the log settles is not offered; the last file is not ahead; the log only grows |
| `Learner.OpeningKeeps` | agent-learn/src/learner.rs:542-725 | So does reopening on any file ever saved; and if it is the last one, nothing rejected is awaiting again |
| `LearnRuns.ReconcileIsIdempotent` | agent-learn/src/learner.rs:590-725 | Reconciling a second time moves nothing |
| `LearnRuns.AwaitingAfterReconcile` | agent-learn/src/learner.rs:658-709 | Exactly when a proposal is offered for a decision after reconciling, by its latest record |
| `LearnFinality.LostAcceptIsRepairedExactly` | agent-learn/src/learner.rs:583-725 | A skill whose accept is recorded as completed and whose file is in place, reopened from a file that shows it as proposed, becomes persisted if and only if no later decision about it is in the log; after a publish it stays proposed |
| `LearnWitness.PublishedSkillShownAsProposed` | agent-learn/src/learner.rs:668-709 | A run from the start after which a skill that was accepted and published is proposed |
| `LearnRuns.AcceptMeetsEveryRival` | agent-learn/src/learner.rs:866-940 | Every memory persisted on the same key has another value and is among the contradictions an accept records |
| `LearnRuns.StepKeepsAgreement` | agent-learn/src/learner.rs:1112-1250 | Every call and every crash keeps: of two persisted memories on one key the values differ and one records the other |
| `LearnFinality.EveryRunAgrees` | agent-learn/src/learner.rs:1112-1250 | In every run from the start, with crashes and reloads of any earlier file, that holds |
| `LearnSteps.StepKeepsDecided` | agent-learn/src/learner.rs:590-725 | Over every call and every crash with a reload of any earlier file, a proposal that the records read settle is not offered for a decision |
| `LearnSteps.StepKeepsSettled` | agent-learn/src/learner.rs:590-725 | A proposal settled by a record still read stays settled over any step, unless it is a skill published since |
| `LearnFinality.SettledStays` | agent-learn/src/learner.rs:590-725 | Over any run, whichever earlier files are loaded: what a record still read settled is not offered again, if no publish of it was recorded since |
| `LearnFinality.MemoryFinality` | agent-learn/src/learner.rs:590-725 | So a rejected or retracted memory is never offered again while the record is read |
| `LearnFinality.RejectIsFinal` | agent-learn/src/learner.rs:583-725 | A rejection of anything stands over every run in which reopening loads the last saved file, while the record is read |
| `LearnFinality.StartIsFine` | agent-learn/src/learner.rs:542-582 | A first start has all the properties that the theorems about runs ask of a state |
| `LearnFinality.DecisionsStand` | agent-learn/src/learner.rs:590-725 | So from a first start on, with nothing else supposed: what was settled at any time stands at any later one, under the conditions just named |
| `LearnWitness.RejectedSkillComesBack` | agent-learn/src/learner.rs:668-709 | A run from the start in which a rejected skill is published from an earlier file and then offered again from another: the condition on publishes cannot be dropped |
| `LearnWitness.UnreadRejectComesBack` | agent-learn/src/learner.rs:583-600 | A run from the start in which a rejection is no longer among the last 200000 records, and the proposal is offered again from an earlier file: nor can the condition on reading |
| `Guard.Walk` | agent-guard/src/lib.rs:498-552 | The walk, restarting at the root at every link, ends where pathname resolution (section 4.13 of the POSIX.1-2017 Base Definitions) ends, with the same budget left and the same refusals |
| `Guard.ResolveSettles` | agent-guard/src/lib.rs:498-552 | What it returns has no link or unreadable place in it, and every place above it passed the check |
| `Guard.ResolveConcat` | agent-guard/src/lib.rs:520-548 | Resolving one path after another is resolving their concatenation |
| `Guard.WalkIsIdempotent` | agent-guard/src/lib.rs:498-552 | Walking a result again gives it back and spends no budget |
| `Guard.BudgetIsMonotone` | agent-guard/src/lib.rs:498-552 | A larger link budget changes only what is left of it |
| `Guard.EveryVisitIsChecked` | agent-guard/src/lib.rs:498-552 | The walk succeeds if and only if the path resolves and every location met, links included, passes |
| `Guard.Lexical` | agent-guard/src/lib.rs:599-611 | The lexical normal form |
| `Guard.LexicalWithoutLinks` | agent-guard/src/lib.rs:599-611 | It is where the path leads when no link is met |
| `Guard.DeniedBelow` | agent-guard/src/lib.rs:393-432 | For any rule table and folding, everything below a denied location is denied |
| `Guard.DeniedExactly` | agent-guard/src/lib.rs:393-432 | By component positions: the tables deny a location exactly when some rule's run stands in its folded components from some existing component on, or from the first one or right below `system/volumes/data` for a rooted rule, or a component begins with a listed prefix; the reason is that of the first such rule, prefixes last |
| `Guard.PassesExactly` | agent-guard/src/lib.rs:393-466 | A location passes exactly when no rule names it and it is not an environment file outside every project root |
| `Guard.NothingProtectedIsPassed` | agent-guard/src/lib.rs:563-596 | The check answers with a place exactly when the path leads to one and nothing it looks at on the way (the path as written, the root, every location met) is named by a rule or is such a file |
| `Guard.RootsAre` | agent-guard/src/lib.rs:563-575 | The project roots are exactly the places the given paths lead to |
| `Guard.CheckPath` | agent-guard/src/lib.rs:563-596 | The whole check, with the location each denial names; it allows exactly what that says |
| `Guard.CheckIsExact` | agent-guard/src/lib.rs:563-596 | The check allows a path exactly when it resolves and its spelling, the root and every location met pass, and then answers where it leads |
| `Guard.AllowedPathIsSafe` | agent-guard/src/lib.rs:563-596 | An allowed answer has no link in it, passes with everything above it, and is a fixed point of the check |
| `Grants.OnDiskSpelling` | agent-grants/src/lib.rs:646-675 | The loop over ancestors finds the spelling of the deepest existing one |
| `Grants.SpellingIs` | agent-grants/src/lib.rs:646-675 | What exists is spelled as the disk spells it, what does not as it was given |
| `Grants.ResolvePath` | agent-grants/src/lib.rs:620-632 | Check, spell, check again |
| `Grants.ResolvedPasses` | agent-grants/src/lib.rs:620-632 | What it gives passes the deny list at every level and resolves to itself |
| `Grants.NoDotenvWithoutRoots` | agent-grants/src/lib.rs:494-540 | Without project roots no environment file passes |
| `Grants.MostSpecific` | agent-grants/src/lib.rs:634-643 | The grant chosen covers the path and no live grant covering it has a longer root |
| `Grants.LastOfDeepest` | agent-grants/src/lib.rs:634-643 | Of the covering grants with the deepest root it is the one made last |
| `Grants.FolderGrants.MakeGrant` | agent-grants/src/lib.rs:390-445 | The grant recorded, with its expiry; the state still validates on reload; refusals change nothing |
| `Grants.FolderGrants.Revoke` | agent-grants/src/lib.rs:448-460 | Revoking changes that grant only, once; the state still validates |
| `Grants.FolderGrants.Check` | agent-grants/src/lib.rs:484-540 | Allowed exactly when some live grant allows it, and then by a grant live for that operation that covers the path returned; the answer, `AnswerOf`, tries the folder grants first |
| `Grants.CoversExactly` | agent-grants/src/lib.rs:150-166 | A subtree grant covers its folder and everything below it, component by component; a shallow one the folder and what is directly in it |
| `Grants.AllowedExactly` | agent-grants/src/lib.rs:484-540 | Allowed exactly when the path resolves and some grant given, not ended and not revoked reaches the place: a folder grant, or full access if it resolves without project roots too; a shallow grant reaches one component below its root |
| `Grants.AllowedMeans` | agent-grants/src/lib.rs:484-540 | What an allowed answer says of the grant it names and the place: in force, reaching it, nothing on the way named by a rule; a write, and anything done to an environment file, rests on a folder grant |
| `Grants.ExpiryExactly` | agent-grants/src/lib.rs:390-420 | Which time limits are refused, and when a grant ends |
| `Grants.LoadedGrantSays` | agent-grants/src/lib.rs:556-614 | What a state that loads says of each grant |
| `Grants.Validate` | agent-grants/src/lib.rs:556-614 | What a reloaded state must satisfy |
| `Grants.FullAccessIsShort` | agent-grants/src/lib.rs:580-614 | Full access in a valid state only reads and never lasts longer than 24 hours |
| `Grants.WritesNeverComeFromFullAccess` | agent-grants/src/lib.rs:494-540 | A write that is allowed is allowed by a live folder grant covering the path, never by full access |
| `Grants.DotenvNeedsAFolderGrant` | agent-grants/src/lib.rs:494-540 | An environment file is allowed only by a live folder grant that covers it, for that very operation |
| `Approvals.ActionApprovals.Begin` | agent-browser/src/approvals.rs:61-86 | Taking the slot, or being refused |
| `Approvals.ActionApprovals.Poll` | agent-browser/src/approvals.rs:89-126 | One round of the waiting loop: the verdict, and the exit that clears the slot and the answer |
| `Approvals.ActionApprovals.Decide` | agent-browser/src/approvals.rs:129-140 | The member's decision is taken only for the pending action |
| `Approvals.ActionApprovals.DenyAll` | agent-browser/src/approvals.rs:143-149 | Stopping ends every wait that began before |
| `Approvals.AllowedOnlyByTheMember` | agent-browser/src/approvals.rs:61-149 | In every interleaving, an action is allowed only after the member accepted that very action, with no stop since its request began |
| `Approvals.ReleasedOnce` | agent-browser/src/approvals.rs:61-149 | No action is answered twice |
| `Approvals.OneCurrentWaiter` | agent-browser/src/approvals.rs:61-88 | At most one thread waits in the current epoch |
| `Approvals.WaitEndsExactly` | agent-browser/src/approvals.rs:89-126 | In every interleaving, how a look at the slot ends a wait: stopped exactly if everything was denied since the request began; else as the member answered this action; else because the session stopped; else because it is late; else the wait goes on |
| `Approvals.RequestTurnedAwayExactly` | agent-browser/src/approvals.rs:61-86 | A request is turned away exactly while some waiter was not stopped; otherwise it gets a number never used before |
| `Approvals.DecisionTakenExactly` | agent-browser/src/approvals.rs:129-140 | A decision is taken exactly when it is about the action of a waiter that was not stopped, who will then hear it |
| `Approvals.AnswerIsKeptExactly` | agent-browser/src/approvals.rs:117-126 | An accepted answer is lost in a step if and only if it is a stop, the exit of a stale waiter, or a contrary decision |
| `Approvals.HeardAnswerIsReturned` | agent-browser/src/approvals.rs:89-126 | An answer that is still there is what the waiter returns |
| `Approvals.StaleExitLosesAnAnswer` | agent-browser/src/approvals.rs:122 | A run in which the member allows an action and it times out |
| `Snapshot.Clean` | agent-browser/src/snapshot.rs:103-131 | Cleaned text has no control characters and no run of spaces, and is within its limit (a limit of zero still leaves one character) |
| `Snapshot.CleanIsIdempotent` | agent-browser/src/snapshot.rs:103-131 | Cleaning twice is cleaning once |
| `Snapshot.CleanedIsWords` | agent-browser/src/snapshot.rs:103-131 | Cleaned text is the words of the string, split at white space and line breaks with other controls left out, joined by single spaces, and cut to end in an ellipsis exactly when too long |
| `Snapshot.Builder.PushLine` | agent-browser/src/snapshot.rs:160-170 | A line is added with its cost exactly when it fits; otherwise the snapshot is truncated |
| `Snapshot.Builder.Walk` | agent-browser/src/snapshot.rs:172-281 | The walk of an arbitrary graph terminates, visits only reachable nodes, and untruncated handles every node it visits |
| `Snapshot.BuildSnapshot` | agent-browser/src/snapshot.rs:283-322 | References are numbered from one without gaps, one line and one distinct node each, with that node's role, name, value and state; every line is of a distinct reachable node, set in by its depth, and says what the node is; the text stays within the limit; untruncated, every reachable node that can be acted on has its reference and every node with something to say its line |
| `Snapshot.PageTextCosts` | agent-browser/src/snapshot.rs:160-170 | What the lines are counted at is the length of the text they make, and one |
| `Snapshot.TagReads` | agent-browser/src/snapshot.rs:216-221 | A line with a reference begins with it in brackets, and the number reads back |
| `Snapshot.LastCounts` | agent-browser/src/snapshot.rs:284-287 | Of several nodes with one id the last is the one walked |
| `Snapshot.RootIsFirst` | agent-browser/src/snapshot.rs:288-291 | The walk begins at the id of the first node that has one and reports no parent |
| `Abi.EncodeString` | agent-learn/src/registry.rs:49-58 | A string tail: length word, bytes, padding |
| `Abi.StringTailIs` | agent-learn/src/registry.rs:49-58 | A string is its length in one word, its bytes, and zeros up to the end of the last word it needs |
| `Abi.EncodeStringArray` | agent-learn/src/registry.rs:61-74 | An array tail: length word, offsets, tails |
| `Abi.EncodeRegisterSkill` | agent-learn/src/registry.rs:77-103 | The five arguments, heads then tails, behind the selector |
| `Abi.OffsetsPointAtTails` | agent-learn/src/registry.rs:61-103 | The offset word at each head is the position of its tail |
| `Abi.DecodeEncode` | agent-learn/src/registry.rs:77-103 | Decoding the encoding by the Solidity Contract ABI Specification gives back all five arguments, for all strings and tag lists |
| `Abi.EncodingIsInjective` | agent-learn/src/registry.rs:77-103 | So different arguments have different encodings |
| `Abi.SkillHashInput` | agent-learn/src/registry.rs:109-122 | The bytes that are hashed for a skill |
| `Abi.PreimageReads` | agent-learn/src/registry.rs:109-122 | The hashed bytes are the ABI encoding of (address, string, string): read back by their offsets they give the address in the low bytes of a word and both strings, and nothing else follows |
| `Abi.PreimageIsInjective` | agent-learn/src/registry.rs:105-122 | They determine owner, name and version |
| `Abi.PackedCollidesExactly` | agent-learn/src/registry.rs:105-122 | The packed layout does not: it collides if and only if name and version concatenate to the same bytes |
| `Abi.PackedIsNotInjective` | agent-learn/src/registry.rs:105-122 | And it does: for every owner two different skills have one packed layout |
| `Price.UpperBoundIsExact` | agent-escalation/src/price.rs:36-44 | The cost rounded up to the next micro; none if and only if it does not fit in 64 bits, although the 128-bit sum itself can overflow |
| `Price.UpperBoundIsMonotone` | agent-escalation/src/price.rs:36-44 | More tokens never cost less |
| `Price.SumCanOverflow` | agent-escalation/src/price.rs:36-44 | Two products that each fit in 128 bits and whose sum does not |
| `Price.InputTokenBoundIs` | agent-escalation/src/price.rs:57-62 | The bound is the exact sum, saturated at 64 bits |
| `Price.ChargesAreRight` | agent-escalation/src/endpoint.rs:257-376 | No run is charged above its reservation; a reported usage within it is charged its exact cost rounded up |
| `Price.ChargedExactly` | agent-escalation/src/endpoint.rs:158-376 | A request is charged exactly when it is answered and was within the limits: texts of at most 64 KiB, 1 to 8192 tokens to answer, and a reservation that pays for every byte sent, 16 tokens a message (an empty system prompt is not sent) and the longest answer |
| `Price.UsageWithinBoundsIsCovered` | agent-escalation/src/endpoint.rs:158-201 | A valid request whose usage stays within its bounds is charged exactly its cost, which the reservation covers |

## Left out

- Partial failure of file operations, fsync, file locks, temporary names and permissions of the store
  directory: a durable write is one atomic change of the disk, a crash falls between two of them.
- `Steps.Resolve`: every refusal is one error, as in the code, whose reason texts are not modelled; nor is a
  path that cannot be inspected.
- `CheckpointStore.CheckpointStore.UndoMany`: restores do not fail for want of space or permission; the
  failures modelled are those the tree and the blobs explain.
- `StoreMeaning.RestoreExactly`: a restore that fails leaves the tree as it was; the directories it may have
  made before its snapshot proved corrupt are not modelled, as an undo reads every snapshot before it starts.
- `CheckpointStore.CheckpointStore.BeginStep`: the canonical root is an input, as the result of
  `canonicalize`, and a snapshot is what the tree holds at the call; a file changing while it is copied is
  not modelled, nor is a write that fails without the process ending.
- `CheckpointStore.CheckpointStore.Open`: files that do not parse, or carry another version or session
  name, are refused by the code and are not part of the disks modelled; blob corruption appears when an
  undo reads a blob (`seen`).
- `CheckpointStore.CheckpointStore.Finish`: the write of the manifest does not fail; only looking at a
  path can.
- `CheckpointStore.CheckpointStore.Commit`: commit and the drop after it run without another call between
  them; that interleaving is what `CheckpointStore.DropAfterFailedCommit` is about.
- Session ids are numbers, in the order their strings have; a file always has a mode, where the code has
  none on systems without modes; 64-bit counters of steps and ticks do not wrap.
- Git checkpoints, step diffs, usage and list views of `agent-checkpoints`: they read only.
- `NightlySteps.StepKeepsInv`: that numbers are contiguous, timestamps do not decrease and the oldest records
  go first is how the log of `agent-records` behaves and is built into the steps; a broken record chain is
  not modelled.
- `Ledger.AnchorLedger.Load`: JSON, and the lengths and case of hex strings, are not modelled; a digest is
  a value.
- The unsigned anchor call and its address check are one input, `registryOk`; the daily root and
  inclusion proofs of `agent-records` use the functions proved here and add nothing.
- `LearnFinality.MemoryFinality`: reconciling reads the last 200000 records, so the theorem is about
  decisions still among them, as are `LearnFinality.SettledStays`, `LearnFinality.RejectIsFinal` and
  `LearnSteps.StepKeepsSettled`; `LearnWitness.UnreadRejectComesBack` shows that this cannot be dropped.
- `LearnFinality.RejectIsFinal`: is about reopening on the file saved last; `LearnFinality.SettledStays` is
  about any file, and `LearnWitness.RejectedSkillComesBack` shows that the two differ.
- `Learner.Learner.Open`: a proposals file that cannot be read, stored proposals with a problem, and a log
  that cannot be read are not modelled; nor is the log's own recovery of unknown outcomes.
- `Learner.Learner.Propose`: ids are fresh, as the counter and clock make them; evidence, provenance and
  content hashes do not influence any state and are left out.
- `Learner.Learner.PreparePublish`: the checks of owner, version, tags and price are one input,
  `paramsOk`.
- A proposal's conflicts are a set; their order and the texts of reasons are not modelled. Skill text is
  a name and a content, and normalising text is a parameter.
- `Guard.CheckPath`: the path arrives as components; reading `~`, backslashes and NUL from a string is not
  modelled. The rule table and the folding of names are parameters, so the theorems hold for any table.
- `Grants.FolderGrants.MakeGrant`: ids are numbers; the JSON form and its version are not modelled.
- `Approvals.ActionApprovals.Poll`: the waiting loop is a sequence of rounds; how long it waits between
  them and the wake-ups are not modelled, the deadline is an input of each round.
- `Grants.Validate`: the version of the file, the text form of ids and whether a root is written in normal
  form are not modelled.
- `Snapshot.BuildSnapshot`: the reading of ids, roles, names and values from JSON is an input.
- `Abi.EncodeRegisterSkill`: the selector, a Keccak hash, is an input; so is the hash of the preimage.
- `Abi.DecodeEncode`: holds for encodings below 2^64 bytes, because the code writes lengths as 64-bit
  numbers.
- `Price.ChargesAreRight`: the URL, id and shape checks of a request are one predicate, and the transport
  and the parsing of its reply are an input.
- `agent-cron`, `agent-code`, `agent-chain`, `agent-legacy`, the network relay, the scripts, and the other
  files of `agent-browser`: reading a branch or a table settles them.
