# The stack protocol, verified

A model in Dafny of the compare-and-swap protocol by which any number of stateless servers share one bucket:
`internal/store/s3store.go`, the handlers of `internal/api/updates.go` and `internal/api/stacks.go` that drive it,
and two small pieces beside it, the paging code of `internal/api/updates.go` and the scope string of
`internal/secrets/secrets.go`. `dafny verify dfyconfig.toml` checks everything.

## How it is put together

* **Types, Decimal.** The records of `internal/store/store.go`, the objects one stack owns, decimal rendering.
* **Protocol.** The bucket as a labelled transition system. One operation is one atomic effect (acquire, renew,
  release, barrier, bump, publish, remove, a record or object written or removed, ...). Its guard speaks of the
  current state only. A run is a sequence of operations with the states they leave; besides the bucket, a state
  carries bookkeeping of the past (which generation went to whom, who moved Version where, the commit log).
* **Invariant, Stability, Rely.** What every reachable state satisfies, what a server can still rely on after the
  others have moved, and that the others' steps meet what it relies on.
* **Contracts, Outcomes.** The vocabulary in which the operations say what they did, and why they refused.
* **Store, Api.** The real code, in its own form: class `S3Store` with the retry loops (`for range 5`, three
  attempts while the bucket answers 409), class `Server` with the handlers. Before every bucket access `Interfere` lets the
  other servers do any number of protocol steps. Every access that changes the bucket has to be shown to be one
  protocol step from the *exact current* state, whatever has happened since the document was read. That is
  `Stability.DecisionStillHolds`, and it is what makes the lemmas about runs into theorems about the code: since each
  server's steps obey the guards, a run of all of them is a run of the protocol.
* **Fencing, Versions, Deletion, Silence, Reads, Migration, Isolation, Previews, OneLock.** The guarantees, for every
  execution, every interleaving and every pattern of lost responses; clock readings are arbitrary except in
  `Fencing.LeaseExclusion`.
* **Upgrade.** The checkpoints of stacks found in the bucket, until their first commit.
* **Anomalies, Start.** Where the code does not give what it aims at, and exactly when; the buckets a run may start from.
* **Keys, Paging, Scope.** Object names and listings; the update history; the secret scope.

Four devices recur in the contracts. `h` is the history: `h[at]` is "the moment `at` during this call". `setbacks`
counts the requests that failed and the conditional writes that were not reported done: an operation that refuses
without a setback has a cause that was seen in the bucket, and what its source does on the quiet (release a lock, roll a
record back, write copies, remove `lock.json`) it has then done. `time` is the clock, any function from the number of a
reading to its value: leases and time stamps are tied to readings made during the call. `may` is the
set of operations this server is permitted: a method that requires `MayDo(e)` is verified for every `may` that
contains what `Allows(e, _)` lists, the smallest included, so it does nothing else to the bucket. For instance a
save fenced with a token of generation g can renew and publish at generation g only, and the requests of a preview can
take preview steps only.

## Assumptions

* An ETag matches when the content equals the content read, which is weaker than a per-write version. If-Match and
  If-None-Match are those of sections 13.1.1 and 13.1.2 of RFC 9110. A write may be applied and yet be reported as 412
  or as an error; one reported as 409 was not applied. Reads and listings are strongly consistent, a listing one snapshot.
* Update IDs and incarnations come from a generator that never repeats. An ID is minted for one update, of one kind
  (`kinds`), and is passed to one `AcquireLock` call, as the handlers do; `retired` marks that this call is over.
* SHA-256 is injective; `Digest` is an injective stand-in.
* `Fence` stays below the maximum of uint64; the model's naturals do not wrap.
* A run starts from a bucket that satisfies `Invariant.Inv`. `Start.StartAnywhere` shows that this holds of any bucket,
  whatever its past, in which the lock's generation is at most the fence, the checkpoint index is in order, records
  are stored under their own ID, one kind per ID and the holder's at most one ahead of Version, and objects hold what
  their name says.
* `SaveCheckpoint` with an empty update ID comes with a non-empty incarnation, and `CreateUpdate`, `SaveCheckpoint` with an update ID
  that does not start with `delete-`, as all handlers do.
* The model follows one stack path; `Keys` shows that names of different stacks and incarnations never meet.
* `lock.json` is never written by this code: it is an object that may be there at the start and can only be deleted.

## Where the code falls short of its aim

1. *The lock is read in two requests while a stack still defers to `lock.json`* (`internal/store/s3store.go:870-901,
   923-949, 958-971`). A renewal that lands between them moves the lock into `stack.json` and removes `lock.json`; the
   reader then sees no lock although one was held throughout. So `cancelUpdate` and `completeUpdate` can answer 204
   while the update still holds the stack. `Anomalies.CancelLeavesHolderExactly` and
   `Anomalies.CompleteLeavesHolderExactly` prove, for every update with a record, that a run of the request with this
   outcome exists if and only if, when it comes in, the stack is in legacy mode and `lock.json` names the update.
   Outside that condition silence is proved of the handlers themselves (`Api.Server.CancelUpdate`,
   `Api.Server.CompleteUpdate`, `Silence.SilentForever`).
2. *A replayed completion without an update token takes the generation from the lock and releases nothing if it is 0*
   (`internal/api/updates.go:368-393`). `Anomalies.ReplayLeavesHolderExactly` gives the exact condition, which is the
   negation of the one under which `Api.Server.CompleteUpdate` promises silence.
3. *A preview whose record write landed but was reported as 412 is acknowledged on finding that record, without passing
   the barrier* (`internal/store/s3store.go:553-576`). `Anomalies.UnadmittedPreviewOutlives`: if it had read the stack
   unfenced, then whenever the deletion has reached its empty listing the preview can still be acknowledged and outlive
   the stack. One that passed its barrier was acknowledged before the fence.
4. *A deletion leaves behind what requests still under way write after its empty listing.* Every acknowledged record and
   every checkpoint object is gone at that listing; when `DeleteStack` returns, an object of the incarnation is there if
   and only if it was written after the listing and not removed again (`Deletion.DeletionIsComplete`). It can be: a
   replayed creation that read its update's live lock before the fence puts the record again, and if that is reported as
   412 finds no stack and rolls nothing back (`Anomalies.AcknowledgedRecordOutlives`); a save stores its object before it
   looks at the lock (`Anomalies.ObjectOutlives`). Records come only from creations that read the stack before the fence
   stood, so none is left once no such creation is under way (`Deletion.NoRecordIsLeft`).
5. *An unforced deletion takes a checkpoint it cannot find for an empty one* (`internal/api/stacks.go:204-222`). If an
   earlier deletion has removed the objects and stopped, the same owner's unforced deletion resumes its fence, reads
   not-found and removes a stack whose last commit may list resources (`Anomalies.UsedStackIsDeleted`). That is the only
   way: an unforced 204 means that the last commit lists no resources, or that its object was missing when it was looked
   for (`Api.Server.DeleteStack`), which takes a deletion begun before.

`Start` gives concrete buckets, with the records the handlers ask for, in which 1 to 5 happen.

The repository's README says that a stale lock can be broken. In the code a lapsed deletion fence is broken only by
another deletion; the model follows the code (`Fencing.DeletionFenceIsSticky`).

## Model

| member | source | states |
|---|---|---|
| OneLock.EveryStepIsAMove | internal/store/s3store.go:129-163 | refinement: along every execution each change of the bucket is one legal move (create, grant, extend, free, advance, publish, remove) or a stutter of a machine with one lock, one ceiling, one version and one index, from its exact current state |
| Stability.DecisionStillHolds | internal/store/s3store.go:173-200 | compare-and-swap on content alone is safe: if the document reads as it did when the decision was taken, the operation's guard holds now, lock.json included, and yields the document computed then |
| Rely.OthersRespect | internal/api/updates.go:39-52 | what Interfere promises a request is what the other requests guarantee: any number of steps permitted to requests with other update IDs and incarnations leaves its ID and incarnation alone |
| Invariant.Reachable | internal/store/s3store.go:441-956 | lock, token, index, record, kind, commit-log, pointer and object invariants hold in every state of every execution |
| Invariant.InvStep | internal/store/s3store.go:441-956 | every operation whose guard holds keeps all eight invariants |
| Store.S3Store.TryWriteStack | internal/store/s3store.go:129-163 | one If-Match PUT or DELETE: Done only if this operation was the last step of the run; otherwise it landed or not, whatever is reported, and counts as a setback |
| Store.S3Store.WriteStackIfMatch | internal/store/s3store.go:121-200 | the same through three attempts while the answer is 409; 409 in the end means three setbacks |
| Store.S3Store.DeleteLegacyLock | internal/store/s3store.go:995-1007 | the only thing it may do is remove the very lock.json that was read, and only once lock.json no longer rules; without a setback that lock.json is gone |
| Store.S3Store.ReadLockState | internal/store/s3store.go:790-796 | what two separate reads of stack.json and lock.json establish about the moments they were made |
| Store.S3Store.DecideAcquire | internal/store/s3store.go:798-841 | grants exactly when the guard allows some generation, with one that is kept or above the ceiling; a refusal names the lock in force and no generation would have been allowed |
| Store.S3Store.AcquireLock | internal/store/s3store.go:777-857 | success means the grant landed at h[at] with this lock in stack.json, its lease running ttl from a reading made after the one that tested the old lock; a refusal names what was found: a lock that blocks this update at a reading of the clock, no stack, another incarnation, or five lost races; nothing but this acquire and lock.json's removal is done |
| Store.S3Store.DecideRenew | internal/store/s3store.go:876-897 | renews exactly the live lock of this update and generation, keeping owner and non-zero generation; each error says why |
| Store.S3Store.RenewLock | internal/store/s3store.go:859-908 | success means the renewal landed at h[at] for ttl from a reading of the call; a refusal names what was found: another lock or generation, none, one that has run out, no stack, or five lost races |
| Store.S3Store.ReleaseLock | internal/store/s3store.go:910-956 | it first notes that the release was asked for; success means that at some moment of the call no lock was in force, or the stack was still in legacy mode; LockHeld that another was; anything else takes a setback |
| Store.S3Store.GetLock | internal/store/s3store.go:958-971 | the lock returned was in force at a moment of the call; NoLock means none was, unless in legacy mode; other errors mean no stack or a setback |
| Store.S3Store.CreateStack | internal/store/s3store.go:202-219 | success means the new document, stamped with a reading of the call, was written over no document; StackExists that there was one; any other error a setback |
| Store.S3Store.SaveCheckpoint | internal/store/s3store.go:441-510 | success means the pointer write of exactly this commit landed, after its object was stored, and without a setback that both copies were written after it; a refusal says what was found: no stack, another incarnation, a lock not live at a reading, another version, or a stack no longer new |
| Store.S3Store.PutObjectIfAbsent | internal/store/s3store.go:455-459 | reported written or already there, the object is there |
| Store.S3Store.GetCheckpoint | internal/store/s3store.go:395-423 | a document with a pointer is answered by that object, one without by what checkpoints/latest.json holds; for a stack made by CreateStack a deployment returned was the last commit at some moment of the call, and not-found means that there was none then or that a deletion has removed its object |
| Store.S3Store.GetCheckpointVersion | internal/store/s3store.go:425-439 | a version in the index is answered by its object, any other by its history file; for a stack made by CreateStack the same for the last commit at the version |
| Store.S3Store.GetUpdate | internal/store/s3store.go:672-692 | the record returned is stored under the incarnation that was current during the call; not-found means that there was no stack or no record under its incarnation |
| Store.S3Store.CommitUpdateVersion | internal/store/s3store.go:629-666 | success means that the update holds the stack, Version is the number, and this update moved it there; a refusal says what was found: no stack, another incarnation, a lock not live at the generation, or Version moved past by this update |
| Store.S3Store.AdmitPreview | internal/store/s3store.go:586-613 | success means that the last step was this preview's barrier, on an unfenced stack of this incarnation; a refusal means no stack, another incarnation, a fence, or five lost races |
| Store.S3Store.CreateUpdate | internal/store/s3store.go:519-627 | a locking update created owns its record's version; a preview is created with its record, carrying the version the stack then had, put and then its barrier, or was found already recorded; without a setback it refuses only if something stood in the way: no stack, a fence, a lock not live, a stack or lock replaced, Version past it, its record vanished |
| Store.S3Store.RollbackRecord | internal/store/s3store.go:579-585 | removes nothing but the record the call has put; without a setback that record is gone |
| Store.S3Store.StartUpdate | internal/store/s3store.go:694-717 | success means that the record found, not started or in progress, is now that record in progress, stamped with a reading of the call if it was moved; a refusal means no record or an ended one |
| Store.S3Store.CompleteUpdate | internal/store/s3store.go:719-747 | success means that the record found is now that record with the status asked for, with message and a reading of the call if it was moved; a refusal means no record or a status that does not allow it |
| Store.S3Store.ListObjects | internal/store/s3store.go:354-393 | lists exactly the objects of the incarnation |
| Store.S3Store.ValidateDeletionFence | internal/store/s3store.go:333-352 | true only if the document is the one the deletion started from and its fence is live |
| Store.S3Store.DeleteStack | internal/store/s3store.go:266-331 | success means a fence seen, a moment when the incarnation owned nothing, and stack.json removed under the same fence as last step; without a setback it refuses only if there was no live fence of this update, the document changed, or an object came back after it was gone |
| Api.Server.RequireLiveLock | internal/api/updates.go:199-222 | success means that this update's lock, at this generation, was in force during the call and had not run out by the clock reading returned; a refusal that it was missed, or a setback |
| Api.Server.ReleaseUpdateLock | internal/api/updates.go:224-234 | the release is asked for; success means that at some moment after that the update had let go of the named generation, legacy mode apart; failure takes a setback |
| Api.Server.CreateUpdate | internal/api/updates.go:24-112 | whether created afresh or resumed, a locking update owns its version when acknowledged, held the stack for the requesting owner and got a full lease; a preview is the request's own, behind its barrier or found recorded; an unknown kind is answered so; a lock granted in vain is asked to be released; without a setback a refusal has a cause |
| Api.Server.ReplayCreation | internal/api/updates.go:52-89 | a resumed creation had a record waiting to start, returns a record of the kind asked for that was in the bucket during the call, and leaves the update owning that record's number; without a setback it is refused only for a missing or unfit record, a missed lock or a hindrance |
| Api.Server.StartUpdate | internal/api/updates.go:116-177 | the version answered is that of the record found; the token issued carries a non-zero generation that stays the only one the update can hold, of a lock renewed for a full lease; a preview's carries 0; the record was in progress; without a setback a refusal means no record, an ended one, or a missed lock |
| Api.Server.RenewLease | internal/api/updates.go:424-480 | a fenced request renews and reissues its own generation only, for the duration asked for or 300 seconds if that is out of range |
| Api.Server.SaveCheckpointForUpdate | internal/api/updates.go:295-346 | success means that this deployment was committed for the update, in the incarnation and at the version of its record, which was found in progress and not a preview; with a non-zero token nothing is renewed or committed at another generation; without a setback a refusal has a cause |
| Api.Server.CancelUpdate | internal/api/updates.go:484-543 | on 204 the record was cancelled and a locking update is gone for good, unless lock.json claimed the stack for it at the start; without a setback it refuses only an update with no record or one that has succeeded or failed |
| Api.Server.CompleteUpdate | internal/api/updates.go:348-422 | on 204 the record was found in progress or as asked for, and had the status; a locking update is gone for good unless lock.json claimed the stack for it at the start or, for a replay without a token, it held the stack under a lock without generation; without a setback a refusal has a cause |
| Api.Server.DeleteStack | internal/api/stacks.go:155-241 | on 204 the store's deletion went through under one fence, the request's own or one of the same owner's it resumed; without force, the checkpoint that the removed document points to, or latest.json if it has no pointer, listed no resources or was not there when it was looked for, and for a stack made by CreateStack that checkpoint is the last commit; a deletion its check turns down asks for its fence to be released after the check and, without a setback, has let go of it; a refusal has a cause |
| Api.Server.DeleteFenced | internal/api/stacks.go:198-231 | the same once the fence stands |
| Api.Server.CheckUnused | internal/api/stacks.go:204-222 | the check passes exactly for a missing checkpoint or one that lists no resources, and otherwise says which of the three ways it failed |
| Api.Server.CreateStack | internal/api/stacks.go:23-77 | success means that the new incarnation was written, and with an initial state that this state was committed as its version 0; if it could not be, taking the stack back was tried; a refusal has a cause |
| Api.Server.RollbackCreation | internal/api/stacks.go:79-123 | cleaning up after a failed creation may only acquire, release or delete under a fence of its own within the new incarnation, asks for that fence, and success means that incarnation was deleted under it; without a setback it fails only for a cause found in the bucket |
| Api.Server.ImportStack | internal/api/stacks.go:287-355 | success means that the deployment was committed by this update and the update then recorded as succeeded; a lock it was granted is asked to be released in any case; without a setback a refusal has a cause |
| Fencing.FenceNeverDecreases | internal/store/s3store.go:841-846 | per incarnation Fence never decreases and Lock.Generation <= Fence |
| Fencing.GenerationNamesHolder | internal/store/s3store.go:809-846 | a non-zero generation belongs to one update ID and owner for good |
| Fencing.TakeoverIsAbove | internal/store/s3store.go:826-840 | every grant that is not the holder's own gets a generation above all held before, those of lock.json included |
| Fencing.GenerationSpan | internal/store/s3store.go:809-846 | a generation in force at two moments was in force, with the same holder, at all moments between: a document cannot change and change back under it |
| Fencing.CommitsAreFenced | internal/store/s3store.go:460-485 | for arbitrary clocks, an update's commit happens under its own lock at its own generation, and never below a generation already held |
| Fencing.CommitsNeverGoBack | internal/store/s3store.go:460-485 | commits of an incarnation never go back in version, update-owned ones never in generation |
| Fencing.LeaseExclusion | internal/store/s3store.go:782-856 | with one nondecreasing clock, over any stretch in which the stored lease runs, the holder is the same at the end, or some step in between was a release naming it or the removal of the stack under its own deletion fence |
| Fencing.LeaseLasts | internal/store/s3store.go:826-847 | a lock taken or renewed for ttl stands to the letter for that long from the reading it was decided on, unless its holder gives it up or takes it again |
| Outcomes.LeaseIsFull | internal/store/s3store.go:836-847 | by a clock that never goes back, a lease granted lasts at least ttl from the reading at which the old lock was tested |
| Fencing.DeletionFenceIsSticky | internal/store/s3store.go:799-808 | over any stretch, a deletion fence, even expired, is still there, or was released, removed with the stack or taken over, once expired, by another deletion; if no fence is left, the last one was released or removed with the stack |
| Fencing.FencedIsFrozen | internal/store/s3store.go:595-598 | while fences stand, Version and all checkpoint pointers are frozen and no preview is admitted |
| Versions.VersionMovesByOne | internal/store/s3store.go:648-657 | Version moves only by one, only by the holder |
| Versions.OneOwnerPerVersion | internal/store/s3store.go:629-666 | no two update IDs ever own the same version of an incarnation |
| Versions.VersionReachedOnce | internal/store/s3store.go:553-576 | however many replays, Version moves to a number at most once |
| Versions.RecordedVersionIsClaimed | internal/api/updates.go:171-172 | the number of a record, which startUpdate answers, is at most one ahead of Version while its update holds the stack; if the update owns a version, it is that one, the next one not yet taken, or an earlier one of its own |
| Versions.IndexHolds | internal/store/s3store.go:468-485 | in every reachable state no indexed version exceeds Version and the latest pointer is the entry of the greatest |
| Versions.PastEntriesNeverChange | internal/store/s3store.go:468-485 | once Version has passed v, the entry for v never changes |
| Versions.RecordStep | internal/store/s3store.go:579-585 | one step leaves a record, moves its status legally and nothing else of its identity, or removes it by rollback before it started or by deletion |
| Versions.RecordsOnlyAdvance | internal/store/s3store.go:694-747 | a record that has started survives until deletion, never goes back, and a terminal one never changes again |
| Deletion.FenceStoodThroughout | internal/store/s3store.go:333-352 | between the fence seen and the stack removed, the fence stood at every moment |
| Deletion.DeletionIsUndisturbed | internal/store/s3store.go:266-331 | meanwhile no version bump, commit or preview barrier happens and the payload is unchanged |
| Deletion.AcknowledgedBeforeFence | internal/store/s3store.go:586-613 | every acknowledgement in the incarnation, past or future, precedes the fence |
| Deletion.DeletionIsComplete | internal/store/s3store.go:266-352 | success of DeleteStack means all of this, that every acknowledged record and every checkpoint object of the incarnation was gone at one moment under the fence, and that what is there when it returns is exactly what was written after that moment and not removed |
| Deletion.FenceIsOfThisStack | internal/api/stacks.go:155-241 | the fence a deletion works under, resumed or new, is of the incarnation it removes in the end and stood all the time |
| Deletion.SeenUnderFenceIsFinal | internal/api/stacks.go:204-222 | what the deletion saw of the commit log while it held the fence is still so when the stack is removed |
| Api.RemovedUnused | internal/api/stacks.go:204-222 | the check for resources, made in two reads under the fence, speaks of the document as it is at removal: its last commit lists no resources, or the object of that commit was missing at the read |
| Deletion.GoneUntilPutAgain | internal/store/s3store.go:536-550 | a record or checkpoint object that is gone is there again if and only if it was written again and not removed since |
| Deletion.PutUnderFenceBeganBefore | internal/store/s3store.go:519-536 | a record put under the fence is put by a creation that had read the stack before the fence stood |
| Deletion.NoRecordIsLeft | internal/store/s3store.go:519-627 | once no creation begun before the fence puts a record any more, no record of the incarnation is left when the deletion is over |
| Silence.SilentForever | internal/api/updates.go:484-543 | an update that has let go never again holds the stack, renews, bumps or commits, whatever is still in flight |
| Silence.PinnedRun | internal/api/updates.go:134-154 | a retired update seen at a non-zero generation never holds another one |
| Reads.LatestReadAgrees | internal/store/s3store.go:395-405 | document and object read at two moments: what is read is the last commit at some moment between, despite fallback keys and late copies; if nothing is read there was no commit, or the object of the last one is missing because a deletion has begun |
| Reads.VersionReadAgrees | internal/store/s3store.go:425-439 | the same at a version |
| Upgrade.UpgradedReads | internal/store/s3store.go:395-439 | while nothing is committed and no deletion begins, a document without a pointer is answered by what latest.json held at the start, and a version outside the index by what its history file held |
| Upgrade.ObjectsAreImmutable | internal/store/s3store.go:455-459 | a checkpoint object never changes, and goes only once a deletion begins |
| Upgrade.PointedReads | internal/store/s3store.go:400-405 | a document that points to an object that is there is answered by it |
| Migration.OneMigration | internal/store/s3store.go:816-850 | of all contenders' migrations at most one takes effect |
| Migration.MigrationIsALockStep | internal/store/s3store.go:841-850 | it is an acquire, renewal or release decided against the lock.json then in force, and leaves the marker |
| Migration.CanonicalForever | internal/store/s3store.go:973-980 | the canonical marker stays for the stack's life and the lock in force is then the one in stack.json |
| Migration.LeftoverIsInert | internal/store/s3store.go:958-980 | out of legacy mode any content of lock.json permits the same operations with the same effect |
| Isolation.StepIsolated | internal/store/s3store.go:452-467 | an operation meant for one incarnation changes nothing of another |
| Isolation.HomeForever | internal/store/s3store.go:787-789 | the incarnation an update acquired the lock in stays the one its operations are meant for |
| Isolation.IncarnationsAreIsolated | internal/store/s3store.go:641-647 | over any stretch of operations meant for others, an incarnation's stack.json, records and checkpoints are unchanged |
| Keys.RenderInjective | internal/store/s3store.go:39-77 | no two objects of any stacks share a name, given slash-free segments |
| Keys.CheckpointNamesAreValid | internal/store/s3store.go:67-73 | the names of checkpoint objects are made of slash-free segments, so that the results on names apply to them |
| Keys.ListedExactly | internal/store/s3store.go:354-370 | a deletion's listing matches exactly its incarnation's objects: never stack.json, another stack's or another incarnation's key |
| Previews.PreviewsAreTransparent | internal/store/s3store.go:586-613 | striking every preview step and record from a run leaves a run with the same contents of stack.json up to stuttering |
| Previews.PreviewRequestsTakePreviewSteps | internal/api/updates.go:134-154 | creating, starting, completing or cancelling a preview is permitted preview steps only, besides bookkeeping that leaves the bucket alone |
| Previews.PreviewStep | internal/store/s3store.go:524-529 | a preview's step changes preview records only |
| Previews.OtherStep | internal/store/s3store.go:524-529 | every other step is possible, with the same effect, without the preview records |
| Anomalies.CancelLeavesHolderExactly | internal/api/updates.go:484-543 | for a recorded update, a run of cancelUpdate that ends in 204 with the update still holding the stack exists if and only if lock.json rules and names it when the request comes in |
| Anomalies.CompleteLeavesHolderExactly | internal/api/updates.go:394-421 | the same for completeUpdate of an update in progress |
| Anomalies.ReplayLeavesHolderExactly | internal/api/updates.go:368-393 | a replayed completion can end in 204 with the update still holding the stack if and only if CanLetGo fails |
| Anomalies.StillHeldBecause | internal/store/s3store.go:923-949 | an update that still holds the stack after its lock was looked for in vain was claimed by lock.json at the start, or was seen at another generation |
| Anomalies.UnadmittedPreviewOutlives | internal/store/s3store.go:553-576 | from every deletion that reached its empty listing, a preview that had read the stack unfenced can be acknowledged without barrier and outlive the stack |
| Anomalies.AcknowledgedRecordOutlives | internal/store/s3store.go:553-577 | from every deletion that reached its empty listing, a replayed creation under way since before the fence can put the record of an acknowledged update again, and the record outlives the stack |
| Anomalies.ObjectOutlives | internal/store/s3store.go:452-459 | likewise a save that was under way while its update held the stack can store any checkpoint object, one that stack.json points to included |
| Anomalies.UsedStackIsDeleted | internal/api/stacks.go:175-231 | from every deletion that reached its empty listing and stopped, an unforced deletion that resumes the fence reads no checkpoint and removes the stack, whatever its last commit lists |
| Anomalies.MigrateBetween | internal/store/s3store.go:859-908 | the run in which a lock slips between the two reads |
| Start.StartAnywhere | internal/store/store.go:29-66 | every well-kept bucket is a start state, whatever update tokens have been handed out that name the generation their update holds |
| Start.LegacyHolderIsOverlooked | internal/store/s3store.go:958-971 | concrete buckets with lock.json and the record of its holder, for every lock of an update: cancelUpdate and completeUpdate can answer 204 and leave the holder in place |
| Start.UnnumberedLockIsKept | internal/api/updates.go:368-393 | concrete buckets with a lock without generation and its succeeded record: the replay answers 204 and gives nothing up |
| Start.PreviewOutlivesStack | internal/store/s3store.go:553-576 | a concrete run from an idle bucket: the fence goes up, the preview is acknowledged, the stack is removed, the record stays |
| Start.AcknowledgedOutlivesStack | internal/store/s3store.go:553-577 | a concrete run from a bucket with a holder: its creation is replayed, the lease runs out, the stack is deleted, the record of the acknowledged update stays |
| Start.CheckpointOutlivesStack | internal/store/s3store.go:452-459 | a concrete run from a bucket with a holder in progress: the lease runs out, the stack is deleted, a checkpoint object stays |
| Start.UsedStackIsTakenForUnused | internal/api/stacks.go:175-231 | a concrete run from the empty bucket: the stack is founded with any initial state, its objects are removed under a fence, and an unforced deletion that resumes it removes the stack |
| Start.RecordAheadOfNumberOwned | internal/store/s3store.go:579-585 | a concrete run after which the record of an update that owns version 1 carries 2 |
| Paging.PageWindow | internal/api/updates.go:572-605 | errors exactly on invalid parameters; otherwise the window of the page in unbounded arithmetic, without overflow for any page number |
| Paging.Clamp | internal/api/updates.go:593-604 | the guard keeps (page-1)*pageSize within int and the window is exact |
| Paging.HistoricalUpdates | internal/api/updates.go:642-650 | filtering over the backing array leaves the functional filter in front and the rest untouched |
| Paging.GetStackUpdates | internal/api/updates.go:551-570 | the answer is the requested page of the non-preview history |
| Paging.PagesArePrefix | internal/api/updates.go:593-604 | pages 1 to n are the first n*size items in order |
| Paging.PagesPartition | internal/api/updates.go:593-604 | enough pages concatenate to the whole history; every later page is empty |
| Paging.HistoricalIsSelection | internal/api/updates.go:642-650 | the history is exactly the non-preview records in their order |
| Scope.ScopeRoundTrip | internal/secrets/secrets.go:98-100 | the scope string can be read back, whatever bytes the names hold |
| Scope.ScopeInjective | internal/secrets/secrets.go:98-100 | equal scopes mean equal org, project and stack |
| Decimal.ItoaInjective | internal/store/s3store.go:63-65 | the decimal names of versions are distinct |

## Left out

- The AWS SDK, HTTP transport, JSON and gzip: encoding is the identity on the data types.
- JWT, OIDC, HKDF and AES-GCM: an update token is the generation it carries.
- `internal/authz`, `internal/config`, routing, middleware, status codes, logging, events, `whoami`, health: no state of interest.
- `ListStacks`, `ListUpdates` and the sort of the history: a listing is one snapshot. `getLatestUpdate`, `getUpdateByVersion` and `exportStack` only pick from what a listing or `GetCheckpoint` returned and change nothing.
- Whether a checkpoint lists resources (`checkpointHasResources`) is a parameter of `Api.Server.DeleteStack`, any function that answers yes, no or unparsable.
- Old builds that write `lock.json` while this code runs.
- Liveness: that retries succeed, that leases are renewed in time.
- The resource changes of an update record carry no protocol meaning and are not a field of the model; the checkpoint index is keyed by the version itself, not by its decimal text (`Decimal.ItoaInjective` says that this is the same).
- Not claimed, because the code does not give it: versions without gaps, distinct versions in listings, a fence that a resumed non-forced deletion cannot reopen, no object landing after a deletion.
- `Server` methods run to the end of the request: a server that stops halfway is covered because every prefix of its steps is a run of the protocol too.
- LastUpdate of a stack and the texts passed as message carry no protocol meaning: that they are set is modelled, their values are not pinned further.
