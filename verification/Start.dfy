/** The buckets a run may start from. */
module Start {
  import opened Types
  import opened Decimal
  import opened Protocol
  import opened Invariant
  import opened Contracts
  import opened Reads
  import opened Deletion
  import opened Anomalies

  /** What is asked of a bucket found in use, whatever its history: the lock's generation is covered by the fence,
      the checkpoint index is in order, records are stored under their own ID, whose kind is that of `kinds`, the
      holder's is at most one ahead of Version, checkpoint objects hold what their name says, and a token handed out names
      the generation its update holds, if it holds one. */
  ghost predicate WellKept(d: Disk, kinds: map<string, Kind>, tokens: set<(string, nat)>) {
    && (d.stack.Some? ==>
          IndexOK(d.stack.value)
          && (d.stack.value.lock.Some? ==> d.stack.value.lock.value.generation <= d.stack.value.fence))
    && (forall k :: k in d.updates ==>
          && k.UpdateKey? && d.updates[k].id == k.id && k.id in kinds && kinds[k.id] == d.updates[k].kind
          && (!d.updates[k].kind.Preview? ==>
                && !DeletionID(k.id)
                && (Current(d, k.incarnation) && HeldBy(d, k.id) ==> d.updates[k].version <= d.stack.value.version + 1)))
    && (forall k :: k in d.blobs ==>
          (k.ObjectKey? && Digest(d.blobs[k]) == k.digest) || k.LatestKey? || k.HistoryKey?)
    && (forall t :: t in tokens ==> t.1 > 0 && (HeldBy(d, t.0) ==> Holder(d).value.generation == t.1))
  }

  /** The history to assume of such a bucket: nobody but the present holder has done anything, except that tokens have
      been handed out and updates minted whose creation may be under way. */
  ghost function AssumedPast(d: Disk, kinds: map<string, Kind>, tokens: set<(string, nat)>): Aux
    requires WellKept(d, kinds, tokens)
  {
    var current := if d.stack.Some? then {d.stack.value.incarnation} else {};
    var used := {""} + current + set k | k in d.blobs && !k.ObjectKey? :: k.incarnation;
    var retired := (set k | k in d.updates :: k.id) + set t | t in tokens :: t.0;
    var begun := set inc, id | inc in used && id in kinds :: (inc, id);
    if Holder(d).None? then Aux(used, {}, {}, retired, kinds, begun, map[], map[], map[], tokens, [])
    else
      var l, inc := Holder(d).value, d.stack.value.incarnation;
      var key := UpdateKey(inc, l.updateID);
      Aux(used, {}, {}, retired, kinds, begun,
          map[l.updateID := inc],
          if l.generation > 0 then map[(inc, l.generation) := (l.updateID, l.owner)] else map[],
          if key in d.updates && d.updates[key].version <= d.stack.value.version
          then map[(inc, d.updates[key].version) := l.updateID] else map[],
          tokens, [])
  }

  lemma StartAnywhere(d: Disk, kinds: map<string, Kind>, tokens: set<(string, nat)>)
    requires WellKept(d, kinds, tokens)
    ensures Inv(State(d, AssumedPast(d, kinds, tokens)))
  {
    StartLocks(d, kinds, tokens);
    StartRecords(d, kinds, tokens);
  }

  lemma StartLocks(d: Disk, kinds: map<string, Kind>, tokens: set<(string, nat)>)
    requires WellKept(d, kinds, tokens)
    ensures LockInv(State(d, AssumedPast(d, kinds, tokens)))
  {
  }

  lemma StartRecords(d: Disk, kinds: map<string, Kind>, tokens: set<(string, nat)>)
    requires WellKept(d, kinds, tokens)
    ensures RecordInv(State(d, AssumedPast(d, kinds, tokens))) && KindInv(State(d, AssumedPast(d, kinds, tokens)))
  {
    var s := State(d, AssumedPast(d, kinds, tokens));
    forall k | k in d.updates && !d.updates[k].kind.Preview? ensures Claims(s, k.incarnation, k.id, d.updates[k].version) {
      assert Current(d, k.incarnation) && HeldBy(d, k.id) ==> k == UpdateKey(d.stack.value.incarnation, Holder(d).value.updateID);
    }
  }

  ghost function StartOf(d: Disk, kinds: map<string, Kind>, tokens: set<(string, nat)>): (h: seq<Entry>)
    requires WellKept(d, kinds, tokens)
    ensures Execution(h) && |h| == 1 && h[0].s == State(d, AssumedPast(d, kinds, tokens))
  {
    StartAnywhere(d, kinds, tokens);
    var h := [Entry(Retire(""), State(d, AssumedPast(d, kinds, tokens)))];
    assert InvAt(h, 0);
    h
  }

  // ---------------------------------------------------------------- a deletion up to its empty listing

  lemma Then(h: seq<Entry>, op: Op) returns (h': seq<Entry>)
    requires Execution(h) && Guard(Last(h), op)
    ensures Execution(h') && h' == h + [Entry(op, Apply(Last(h), op))]
  {
    Extend(h, Entry(op, Apply(Last(h), op)));
    h' := h + [Entry(op, Apply(Last(h), op))];
  }

  /** A fence goes up over a stack that nobody holds, or whose lease has run out by `now`. */
  lemma FenceGoesUp(h: seq<Entry>, inc: string, u: string, now: int) returns (h': seq<Entry>)
    requires Execution(h) && Current(Last(h).disk, inc) && UsesCanonicalLock(Last(h).disk.stack.value)
    requires DeletionID(u) && u !in Last(h).aux.retired && u !in Last(h).aux.home
    requires Holder(Last(h).disk).Some? ==> Holder(Last(h).disk).value.Expired(now)
    ensures Execution(h') && |h'| == |h| + 1 && h <= h'
    ensures Stands(Last(h'), inc, u, Last(h).disk.stack.value.fence + 1)
    ensures Last(h').disk.updates == Last(h).disk.updates && Last(h').disk.blobs == Last(h).disk.blobs
    ensures Last(h').aux.kinds == Last(h).aux.kinds
    ensures Last(h').aux.born == Last(h).aux.born && Last(h').aux.log == Last(h).aux.log
  {
    Reachable(h, |h| - 1);
    h' := Then(h, Acquire(inc, u, "alice", now, now + 10, Last(h).disk.stack.value.fence + 1));
  }

  /** Under the fence, the only object of the incarnation goes. */
  lemma LastObjectGoes(h: seq<Entry>, inc: string, u: string, g: nat, key: Key) returns (h': seq<Entry>)
    requires Execution(h) && Stands(Last(h), inc, u, g) && InIncarnation(key, inc) && inc != ""
    requires forall k :: Belongs(Last(h).disk, inc, k) ==> k == key
    ensures Execution(h') && |h'| == |h| + 2 && h <= h' && Stands(Last(h'), inc, u, g) && Emptied(Last(h').disk, inc)
    ensures Last(h').aux.born == Last(h).aux.born && Last(h').aux.log == Last(h).aux.log
  {
    var h1 := Then(h, Purge(inc));
    h' := Then(h1, Erase(key));
    forall k ensures !Belongs(Last(h').disk, inc, k) {
      assert Belongs(Last(h').disk, inc, k) ==> Belongs(Last(h).disk, inc, k);
    }
  }

  // ---------------------------------------------------------------- concrete buckets

  function Deployed(id: string, status: Status, version: int): Update {
    Update(id, Deploy, status, version, 0, 0, "")
  }

  /** A bucket left by a build that kept its lock in lock.json, with the record of the update that holds it. */
  function LegacyBucket(lock: Lock, status: Status): Disk {
    Disk(Some(Stack(3, 0, 0, "", 0, 0, None, None, map[])), Some(lock),
         map[UpdateKey("", lock.updateID) := Deployed(lock.updateID, status, 3)], map[])
  }

  /** In it the holder can be cancelled, or its completion recorded, with 204, and hold the stack all the same. */
  lemma LegacyHolderIsOverlooked(lock: Lock)
    requires !DeletionID(lock.updateID)
    ensures
      var d, kinds, u := LegacyBucket(lock, InProgress), map[lock.updateID := Deploy], lock.updateID;
      && WellKept(d, kinds, {})
      && CanCancelHolding(StartOf(d, kinds, {}), "", u)
      && CanCompleteHolding(StartOf(d, kinds, {}), "", u, Succeeded, 0)
  {
    var h := StartOf(LegacyBucket(lock, InProgress), map[lock.updateID := Deploy], {});
    assert Recorded(h, "", lock.updateID, InProgress);
    CancelLeavesHolderExactly(h, "", lock.updateID, InProgress);
    CompleteLeavesHolderExactly(h, "", lock.updateID, Succeeded, 0);
  }

  /** stack.json carries a lock without a generation, and the update that holds it is recorded as succeeded. */
  function UnnumberedBucket(lock: Lock): Disk {
    Disk(Some(Stack(1, 0, 0, "a", 1, 0, Some(lock.(generation := 0)), None, map[])), None,
         map[UpdateKey("a", lock.updateID) := Deployed(lock.updateID, Succeeded, 1)], map[])
  }

  /** In it the completion replayed without a token answers 204 and gives nothing up. */
  lemma UnnumberedLockIsKept(lock: Lock)
    requires !DeletionID(lock.updateID)
    ensures
      var d, kinds := UnnumberedBucket(lock), map[lock.updateID := Deploy];
      WellKept(d, kinds, {}) && CanReplayHolding(StartOf(d, kinds, {}), "a", lock.updateID, Succeeded, 0)
  {
    var h := StartOf(UnnumberedBucket(lock), map[lock.updateID := Deploy], {});
    assert Recorded(h, "a", lock.updateID, Succeeded);
    ReplayLeavesHolderExactly(h, "a", lock.updateID, Succeeded, 0);
  }

  function IdleBucket(): Disk {
    Disk(Some(Stack(1, 0, 0, "a", 1, 0, None, None, map[])), None, map[], map[])
  }

  /** A preview that began on an idle, unfenced stack outlives the stack's deletion. */
  lemma PreviewOutlivesStack() returns (h: seq<Entry>, record: Update)
    ensures Execution(h) && h[0].s.disk == IdleBucket() && record.kind.Preview?
    ensures DeletedUnder(h, 2, 2, "a", "delete-1", 1) && RecordIs(Last(h).disk, "a", record.id, record)
  {
    var h0 := StartOf(IdleBucket(), map["p" := Preview], {});
    var h1 := Then(h0, Begin("a", "p"));
    assert DeletionID("delete-1");
    var h2 := FenceGoesUp(h1, "a", "delete-1", 0);
    assert h2[0] == h0[0] && h2[1] == h1[1];
    h, record := UnadmittedPreviewOutlives(h2, 1, "a", "delete-1", 1, "p", 0);
    assert h[0] == h2[0];
  }

  /** An update that holds the stack. */
  function BusyBucket(status: Status): Disk {
    Disk(Some(Stack(1, 0, 0, "a", 1, 1, Some(Lock("w", "alice", 10, 1)), None, map[])), None,
         map[UpdateKey("a", "w") := Deployed("w", status, 1)], map[])
  }

  /** A replay of its creation reads the stack; at that moment the update owns version 1. */
  lemma HolderIsSeen(status: Status) returns (h: seq<Entry>)
    ensures Execution(h) && |h| == 2 && h[0].s.disk == BusyBucket(status)
    ensures h[1].op == Begin("a", "w") && OwnsVersion(h[1].s, "a", "w", 1)
    ensures h[1].s.disk == BusyBucket(status) && h[1].s.aux.home == map["w" := "a"] && h[1].s.aux.retired == {"w"}
    ensures IsKind(h[1].s, "w", Deploy) && ("a", "w") in h[1].s.aux.begun
  {
    var h0 := StartOf(BusyBucket(status), map["w" := Deploy], {});
    h := Then(h0, Begin("a", "w"));
  }

  /** The lease runs out, and a deletion gets as far as its empty listing. */
  lemma BusyStackIsEmptied(status: Status) returns (h: seq<Entry>)
    ensures Execution(h) && |h| == 5 && h[0].s.disk == BusyBucket(status) && h[1].s.disk == BusyBucket(status)
    ensures h[1].op == Begin("a", "w") && OwnsVersion(h[1].s, "a", "w", 1)
    ensures Stands(Last(h), "a", "delete-1", 2) && Emptied(Last(h).disk, "a")
  {
    var h1 := HolderIsSeen(status);
    assert DeletionID("delete-1") && "delete-1" != "w";
    var h2 := FenceGoesUp(h1, "a", "delete-1", 20);
    h := LastObjectGoes(h2, "a", "delete-1", 2, UpdateKey("a", "w"));
    assert h[0] == h1[0] && h[1] == h1[1];
  }

  /** The record of an acknowledged update outlives the stack's deletion. */
  lemma AcknowledgedOutlivesStack() returns (h: seq<Entry>, record: Update)
    ensures Execution(h) && h[0].s.disk == BusyBucket(NotStarted)
    ensures Acknowledged(h, 1, "a", "w") && DeletedUnder(h, 4, 4, "a", "delete-1", 2)
    ensures RecordIs(Last(h).disk, "a", "w", record)
  {
    var h1 := BusyStackIsEmptied(NotStarted);
    assert ReplayRead(h1, 1, "a", "w", Deploy, 1, 0) && Acknowledged(h1, 1, "a", "w");
    h, record := AcknowledgedRecordOutlives(h1, 1, 1, "a", "delete-1", 2, "w", Deploy, 1, 0, 0);
    assert h[0] == h1[0];
  }

  /** A checkpoint object outlives the stack's deletion. */
  lemma CheckpointOutlivesStack(deployment: Deployment) returns (h: seq<Entry>)
    ensures Execution(h) && h[0].s.disk == BusyBucket(InProgress)
    ensures DeletedUnder(h, 4, 4, "a", "delete-1", 2) && CheckpointObject("a", deployment) in Last(h).disk.blobs
  {
    var h1 := BusyStackIsEmptied(InProgress);
    assert SaveUnderWay(h1, 0, "a", "w", 1, 0);
    h := ObjectOutlives(h1, 0, "a", "delete-1", 2, "w", 1, 0, deployment);
    assert h[0] == h1[0];
  }

  function EmptyBucket(): Disk {
    Disk(None, None, map[], map[])
  }

  /** createStack with an initial state. */
  lemma StackIsFounded(deployment: Deployment) returns (h: seq<Entry>)
    ensures Execution(h) && |h| == 4 && h[0].s.disk == EmptyBucket()
    ensures Current(Last(h).disk, "a") && Last(h).disk.stack.value.lock == None && Last(h).disk.stack.value.fence == 0
    ensures Last(h).disk.updates == map[] && Last(h).disk.blobs == map[CheckpointObject("a", deployment) := deployment]
    ensures Last(h).aux.retired == {} && Last(h).aux.home == map[]
    ensures "a" in Last(h).aux.born && LastCommit(Last(h).aux.log, "a") == Some(deployment)
  {
    var h0 := StartOf(EmptyBucket(), map[], {});
    var h1 := Then(h0, Create("a", 0));
    var h2 := Then(h1, PutObject("a", deployment));
    h := Then(h2, Publish(Commit("a", "", 0, 0, deployment), 0));
    LogAppend([], Commit("a", "", 0, 0, deployment), "a", 0);
  }

  /** A stack whose only commit may list anything is deleted, without force, by a request that resumes the fence of an
      earlier one and finds no checkpoint. */
  lemma UsedStackIsTakenForUnused(deployment: Deployment) returns (h: seq<Entry>)
    ensures Execution(h) && h[0].s.disk == EmptyBucket() && DeletedUnder(h, 7, 7, "a", "delete-1", 1)
    ensures LastCommit(h[7].s.aux.log, "a") == Some(deployment)
    ensures ReadBlob(h[7].s.disk, LatestLocation(h[7].s.disk.stack.value)) == None
  {
    var h1 := StackIsFounded(deployment);
    assert DeletionID("delete-1");
    var h2 := FenceGoesUp(h1, "a", "delete-1", 0);
    var h3 := LastObjectGoes(h2, "a", "delete-1", 1, CheckpointObject("a", deployment));
    assert h3[0] == h1[0];
    h := UsedStackIsDeleted(h3, "a", "delete-1", 1, deployment);
    assert h[0] == h3[0];
  }

  /** The record of an update that owns version 1 can carry 2: rolled back after its number was moved, and put again by
      a replay. startUpdate then answers 2. */
  lemma RecordAheadOfNumberOwned() returns (h: seq<Entry>)
    ensures Execution(h) && h[0].s.disk == BusyBucket(NotStarted)
    ensures OwnsVersion(Last(h), "a", "w", 1) && RecordIs(Last(h).disk, "a", "w", Deployed("w", NotStarted, 2))
  {
    var h1 := HolderIsSeen(NotStarted);
    h := PutAhead(h1);
  }

  lemma PutAhead(h: seq<Entry>) returns (h': seq<Entry>)
    requires Execution(h) && Last(h).disk == BusyBucket(NotStarted) && OwnsVersion(Last(h), "a", "w", 1)
    requires "w" in Last(h).aux.retired && IsKind(Last(h), "w", Deploy) && ("a", "w") in Last(h).aux.begun
    ensures Execution(h') && h <= h'
    ensures OwnsVersion(Last(h'), "a", "w", 1) && RecordIs(Last(h').disk, "a", "w", Deployed("w", NotStarted, 2))
  {
    assert !DeletionID("w");
    var h1 := Then(h, DropRecord("a", Deployed("w", NotStarted, 1)));
    h' := Then(h1, PutRecord("a", Deployed("w", NotStarted, 2)));
  }
}
