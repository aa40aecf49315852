/** Where the code falls short of what it sets out to do, and exactly when. Each result here is the other half of
    a guarantee proved elsewhere: that one holds outside the condition, this one shows a run of the request inside
    it in which the guarantee fails. */
module Anomalies {
  import opened Types
  import opened Protocol
  import opened Invariant
  import opened Stability
  import opened Contracts
  import opened Silence
  import opened Reads
  import opened Deletion

  // ---------------------------------------------------------------- what a request reads

  /** What GetLock and ReleaseLock take for the lock when they read stack.json at h[i] and, if it does not carry
      the lock yet, lock.json at h[j]. */
  ghost function ReadLock(h: seq<Entry>, i: int, j: int): Option<Lock>
    requires 0 <= i <= j < |h| && h[i].s.disk.stack.Some?
  {
    Governing(h[i].s.disk.stack.value, h[j].s.disk.legacyLock)
  }

  /** Reading the lock at h[i] and h[j] finds nothing that releasing this update at this generation would give up;
      generation 0 stands for any. */
  ghost predicate NothingOwn(h: seq<Entry>, i: int, j: int, u: string, g: nat) {
    && 0 <= i <= j < |h| && h[i].s.disk.stack.Some?
    && match ReadLock(h, i, j)
       case None => true
       case Some(l) => l.updateID != u || (g != 0 && l.generation != g)
  }

  /** GetUpdate reads stack.json at h[i] and, at h[j], finds under its incarnation a record of this status of an
      update that locks. */
  ghost predicate FindsRecord(h: seq<Entry>, i: int, j: int, inc: string, u: string, status: Status) {
    && 0 <= i <= j < |h| && Current(h[i].s.disk, inc) && RecordAt(h, j, inc, u)
    && !h[j].s.disk.updates[UpdateKey(inc, u)].kind.Preview? && h[j].s.disk.updates[UpdateKey(inc, u)].status == status
  }

  lemma ReadLockIsHolder(h: seq<Entry>, i: int, j: int)
    requires IsRun(h) && 0 <= i <= j < |h| && h[i].s.disk.stack.Some?
    ensures ReadLock(h, i, j).Some? ==> ReadLock(h, i, j) == Holder(h[i].s.disk)
    ensures ReadLock(h, i, j).None? && Holder(h[i].s.disk).Some? ==> LegacyMode(h[i].s.disk)
  {
    KeptRun(h, i, j);
  }

  /** An update that locks, has a record at h[o] and still holds the stack at h[n], although reading its lock in
      between, at h[i] and h[j], found nothing to give up, was claimed by lock.json at h[o], or was seen at another
      generation. */
  lemma StillHeldBecause(h: seq<Entry>, o: int, i: int, j: int, n: int, inc: string, u: string, g: nat)
    requires Execution(h) && 0 <= o <= i && i <= n < |h| && RecordAt(h, o, inc, u)
    requires !h[o].s.disk.updates[UpdateKey(inc, u)].kind.Preview?
    requires NothingOwn(h, i, j, u, g) && HeldBy(h[n].s.disk, u)
    ensures HeldBy(h[i].s.disk, u) && u in h[i].s.aux.retired
    ensures LegacyClaim(h[o].s.disk, u) || (g != 0 && Holder(h[i].s.disk).value.generation != g)
  {
    Reachable(h, o);
    KeptRun(h, o, i);
    if !HeldBy(h[i].s.disk, u) {
      GoneRun(h, i, n, u);
    }
    ReadLockIsHolder(h, i, j);
  }

  /** How a lock slips between the two reads: its holder renews, which moves it into stack.json, and the clean-up
      of that renewal removes lock.json. */
  lemma MigrateBetween(h: seq<Entry>, u: string) returns (h': seq<Entry>)
    requires Execution(h) && LegacyClaim(Last(h).disk, u)
    ensures |h'| == |h| + 2 && h <= h' && Execution(h')
    ensures HeldBy(Last(h').disk, u) && Last(h').disk.updates == Last(h).disk.updates
    ensures Last(h').disk.stack.value.incarnation == Last(h).disk.stack.value.incarnation
    ensures NothingOwn(h', |h| - 1, |h'| - 1, u, 0)
  {
    var s := Last(h);
    var l := Holder(s.disk).value;
    var g := if l.generation > 0 then l.generation else Ceiling(s.disk.stack.value, s.disk.legacyLock) + 1;
    var op := Renew(u, l.expiresAt - 1, l.expiresAt, g);
    assert Guard(s, op);
    var s1 := Apply(s, op);
    var h1 := h + [Entry(op, s1)];
    Extend(h, Entry(op, s1));
    var drop := DropLegacy(l);
    assert Guard(s1, drop);
    var e := Entry(drop, Apply(s1, drop));
    Extend(h1, e);
    h' := h1 + [e];
    assert h'[|h| - 1] == h[|h| - 1];
  }

  /** The record of an update that has not ended is moved on, and nothing else changes. */
  lemma MoveRecord(h: seq<Entry>, inc: string, u: string, status: Status) returns (h': seq<Entry>)
    requires Execution(h) && UpdateKey(inc, u) in Last(h).disk.updates
    requires StatusStep(Last(h).disk.updates[UpdateKey(inc, u)].status, status)
    ensures |h'| == |h| + 1 && h <= h' && Execution(h') && MovesRecord(h', |h|, inc, u, status)
    ensures Last(h').disk.stack == Last(h).disk.stack && Last(h').disk.legacyLock == Last(h).disk.legacyLock
  {
    var was := Last(h).disk.updates[UpdateKey(inc, u)];
    Reachable(h, |h| - 1);
    var op := SetRecord(inc, was, was.(status := status));
    assert Guard(Last(h), op);
    var e := Entry(op, Apply(Last(h), op));
    Extend(h, e);
    h' := h + [e];
  }

  ghost predicate MovesRecord(h: seq<Entry>, m: int, inc: string, u: string, status: Status) {
    && 0 < m < |h| && h[m].op.SetRecord? && h[m].op.incarnation == inc && h[m].op.was.id == u && h[m].op.record.status == status
  }

  // ---------------------------------------------------------------- cancelUpdate

  /** When one request of cancelUpdate takes its steps. */
  datatype Cancelling = Cancelling(found: Status, stackRead: int, recordRead: int, lockRead: int, legacyRead: int, end: int)

  predicate Cancellable(status: Status) {
    status.NotStarted? || status.InProgress? || status.Cancelled?
  }

  /** The request finds the update in a status it accepts, finds no lock of its own to release, and marks the record
      cancelled unless it is already: it then answers 204. */
  ghost predicate Cancels(h: seq<Entry>, from: int, inc: string, u: string, t: Cancelling) {
    && from <= t.stackRead && t.recordRead <= t.lockRead && t.legacyRead <= t.end < |h|
    && Cancellable(t.found) && FindsRecord(h, t.stackRead, t.recordRead, inc, u, t.found)
    && NothingOwn(h, t.lockRead, t.legacyRead, u, 0)
    && (!t.found.Cancelled? ==> t.legacyRead < t.end && MovesRecord(h, t.end, inc, u, Cancelled))
  }

  ghost predicate CanCancelHolding(h: seq<Entry>, inc: string, u: string) {
    exists h': seq<Entry>, t: Cancelling ::
      h <= h' && Execution(h') && Cancels(h', |h| - 1, inc, u, t) && HeldBy(h'[t.end].s.disk, u)
  }

  /** The record of an update that locks, as a request that comes in finds it. */
  ghost predicate Recorded(h: seq<Entry>, inc: string, u: string, status: Status) {
    |h| > 0 && FindsRecord(h, |h| - 1, |h| - 1, inc, u, status)
  }

  lemma CancelHolding(h: seq<Entry>, inc: string, u: string, status: Status)
    requires Execution(h) && Recorded(h, inc, u, status) && Cancellable(status)
    requires LegacyClaim(Last(h).disk, u)
    ensures CanCancelHolding(h, inc, u)
  {
    var h1 := MigrateBetween(h, u);
    var n := |h| - 1;
    assert h1[n] == h[n];
    if status.Cancelled? {
      assert Cancels(h1, n, inc, u, Cancelling(status, n, n, n, n + 2, n + 2));
    } else {
      var h' := MoveRecord(h1, inc, u, Cancelled);
      assert h'[n] == h[n] && h'[n + 2] == h1[n + 2];
      assert Cancels(h', n, inc, u, Cancelling(status, n, n, n, n + 2, n + 3));
    }
  }

  /** cancelUpdate can answer 204 for an update that still holds the stack exactly if, when the request comes in,
      lock.json rules and names the update. */
  lemma CancelLeavesHolderExactly(h: seq<Entry>, inc: string, u: string, status: Status)
    requires Execution(h) && Recorded(h, inc, u, status) && Cancellable(status)
    ensures CanCancelHolding(h, inc, u) <==> LegacyClaim(Last(h).disk, u)
  {
    if LegacyClaim(Last(h).disk, u) {
      CancelHolding(h, inc, u, status);
    }
    if CanCancelHolding(h, inc, u) {
      var h': seq<Entry>, t: Cancelling :|
        h <= h' && Execution(h') && Cancels(h', |h| - 1, inc, u, t) && HeldBy(h'[t.end].s.disk, u);
      assert h'[|h| - 1] == h[|h| - 1];
      StillHeldBecause(h', |h| - 1, t.lockRead, t.legacyRead, t.end, inc, u, 0);
    }
  }

  // ---------------------------------------------------------------- completeUpdate

  /** When one request of completeUpdate for an update in progress takes its steps. */
  datatype Completing = Completing(
    stackRead: int, recordRead: int, lockRead: int, legacyRead: int, write: int, lockReread: int, legacyReread: int)

  /** The request finds the update in progress, sees its lock, records the outcome, and finds nothing to release: it
      then answers 204. */
  ghost predicate Completes(h: seq<Entry>, from: int, inc: string, u: string, status: Status, token: nat, t: Completing) {
    && from <= t.stackRead && FindsRecord(h, t.stackRead, t.recordRead, inc, u, InProgress)
    && t.recordRead <= t.lockRead <= t.legacyRead < t.write <= t.lockReread && t.legacyRead < |h|
    && h[t.lockRead].s.disk.stack.Some? && ReadLock(h, t.lockRead, t.legacyRead).Some?
    && var l := ReadLock(h, t.lockRead, t.legacyRead).value;
    && l.updateID == u && (token != 0 ==> l.generation == token)
    && MovesRecord(h, t.write, inc, u, status)
    && NothingOwn(h, t.lockReread, t.legacyReread, u, l.generation)
  }

  ghost predicate CanCompleteHolding(h: seq<Entry>, inc: string, u: string, status: Status, token: nat) {
    exists h': seq<Entry>, t: Completing ::
      h <= h' && Execution(h') && Completes(h', |h| - 1, inc, u, status, token, t) && HeldBy(h'[t.legacyReread].s.disk, u)
  }

  lemma CompleteHolding(h: seq<Entry>, inc: string, u: string, status: Status, token: nat)
    requires Execution(h) && Recorded(h, inc, u, InProgress) && status.Terminal()
    requires token > 0 ==> (u, token) in Last(h).aux.tokens
    requires LegacyClaim(Last(h).disk, u)
    ensures CanCompleteHolding(h, inc, u, status, token)
  {
    var h1 := MoveRecord(h, inc, u, status);
    assert LegacyClaim(Last(h1).disk, u);
    var h' := MigrateBetween(h1, u);
    var n := |h| - 1;
    assert h'[n] == h[n] && h'[n + 1] == h1[n + 1];
    Reachable(h, n);
    assert NothingOwn(h', n + 1, n + 3, u, Holder(Last(h).disk).value.generation);
    assert Completes(h', n, inc, u, status, token, Completing(n, n, n, n, n + 1, n + 1, n + 3));
  }

  /** completeUpdate can answer 204 for an update in progress that still holds the stack exactly if, when the request
      comes in, lock.json rules and names the update. */
  lemma CompleteLeavesHolderExactly(h: seq<Entry>, inc: string, u: string, status: Status, token: nat)
    requires Execution(h) && Recorded(h, inc, u, InProgress) && status.Terminal()
    requires token > 0 ==> (u, token) in Last(h).aux.tokens
    ensures CanCompleteHolding(h, inc, u, status, token) <==> LegacyClaim(Last(h).disk, u)
  {
    if LegacyClaim(Last(h).disk, u) {
      CompleteHolding(h, inc, u, status, token);
    }
    if CanCompleteHolding(h, inc, u, status, token) {
      HoldingMeansClaimed(h, inc, u, status, token);
    }
  }

  lemma HoldingMeansClaimed(h: seq<Entry>, inc: string, u: string, status: Status, token: nat)
    requires Execution(h) && Recorded(h, inc, u, InProgress) && CanCompleteHolding(h, inc, u, status, token)
    ensures LegacyClaim(Last(h).disk, u)
  {
    var h': seq<Entry>, t: Completing :|
      h <= h' && Execution(h') && Completes(h', |h| - 1, inc, u, status, token, t) && HeldBy(h'[t.legacyReread].s.disk, u);
    assert h'[|h| - 1] == h[|h| - 1];
    NotReleased(h', |h| - 1, inc, u, status, token, t);
  }

  lemma NotReleased(h: seq<Entry>, o: int, inc: string, u: string, status: Status, token: nat, t: Completing)
    requires Execution(h) && 0 <= o && FindsRecord(h, o, o, inc, u, InProgress)
    requires Completes(h, o, inc, u, status, token, t) && HeldBy(h[t.legacyReread].s.disk, u)
    ensures LegacyClaim(h[o].s.disk, u)
  {
    var l := ReadLock(h, t.lockRead, t.legacyRead).value;
    StillHeldBecause(h, o, t.lockReread, t.legacyReread, t.legacyReread, inc, u, l.generation);
    ReadLockIsHolder(h, t.lockRead, t.legacyRead);
    if l.generation > 0 {
      Reachable(h, o);
      KeptRun(h, o, t.lockRead);
      PinnedRun(h, t.lockRead, t.lockReread, u, l.generation);
    }
  }

  /** When one replay of completeUpdate takes its steps. */
  datatype Replaying = Replaying(stackRead: int, recordRead: int, lockRead: int, legacyRead: int)

  /** The request finds the update already as it asks, and nothing to release: with a token, no lock of that
      generation; without one, no lock of the update that carries a generation. It then answers 204. */
  ghost predicate Replays(h: seq<Entry>, from: int, inc: string, u: string, status: Status, token: nat, t: Replaying) {
    && from <= t.stackRead && t.recordRead <= t.lockRead
    && FindsRecord(h, t.stackRead, t.recordRead, inc, u, status)
    && 0 <= t.lockRead <= t.legacyRead < |h| && h[t.lockRead].s.disk.stack.Some?
    && match ReadLock(h, t.lockRead, t.legacyRead)
       case None => true
       case Some(l) => l.updateID != u || (if token == 0 then l.generation == 0 else l.generation != token)
  }

  ghost predicate CanReplayHolding(h: seq<Entry>, inc: string, u: string, status: Status, token: nat) {
    exists h': seq<Entry>, t: Replaying ::
      h <= h' && Execution(h') && Replays(h', |h| - 1, inc, u, status, token, t) && HeldBy(h'[t.legacyRead].s.disk, u)
  }

  lemma ReplayHolding(h: seq<Entry>, inc: string, u: string, status: Status, token: nat)
    requires Execution(h) && Recorded(h, inc, u, status) && !CanLetGo(Last(h).disk, u, token, true)
    ensures CanReplayHolding(h, inc, u, status, token)
  {
    var n := |h| - 1;
    if LegacyClaim(Last(h).disk, u) {
      var h' := MigrateBetween(h, u);
      assert h'[n] == h[n];
      assert Replays(h', n, inc, u, status, token, Replaying(n, n, n, n + 2));
    } else {
      assert Replays(h, n, inc, u, status, token, Replaying(n, n, n, n));
    }
  }

  /** A replayed completion can answer 204 for an update that still holds the stack exactly where CompleteUpdate
      does not promise otherwise. */
  lemma ReplayLeavesHolderExactly(h: seq<Entry>, inc: string, u: string, status: Status, token: nat)
    requires Execution(h) && Recorded(h, inc, u, status) && (token > 0 ==> (u, token) in Last(h).aux.tokens)
    ensures CanReplayHolding(h, inc, u, status, token) <==> !CanLetGo(Last(h).disk, u, token, true)
  {
    if !CanLetGo(Last(h).disk, u, token, true) {
      ReplayHolding(h, inc, u, status, token);
    }
    if CanReplayHolding(h, inc, u, status, token) {
      var h': seq<Entry>, t: Replaying :|
        h <= h' && Execution(h') && Replays(h', |h| - 1, inc, u, status, token, t) && HeldBy(h'[t.legacyRead].s.disk, u);
      assert h'[|h| - 1] == h[|h| - 1];
      NotReplayed(h', |h| - 1, inc, u, status, token, t);
    }
  }

  lemma NotReplayed(h: seq<Entry>, o: int, inc: string, u: string, status: Status, token: nat, t: Replaying)
    requires Execution(h) && 0 <= o && FindsRecord(h, o, o, inc, u, status)
    requires (token > 0 ==> (u, token) in h[o].s.aux.tokens)
    requires Replays(h, o, inc, u, status, token, t) && HeldBy(h[t.legacyRead].s.disk, u)
    ensures !CanLetGo(h[o].s.disk, u, token, true)
  {
    Reachable(h, o);
    KeptRun(h, o, t.lockRead);
    if !HeldBy(h[t.lockRead].s.disk, u) {
      GoneRun(h, t.lockRead, t.legacyRead, u);
    }
    ReadLockIsHolder(h, t.lockRead, t.legacyRead);
    Reachable(h, t.lockRead);
    if Numbered(h[o].s.disk, u) {
      NumberedRun(h, o, t.lockRead, u);
    }
  }

  // ---------------------------------------------------------------- what outlives a deletion

  /** The deletion goes on from an empty listing to the end, with one more write landing in between. */
  lemma RemoveAfter(h: seq<Entry>, op: Op, inc: string, u: string, g: nat) returns (h': seq<Entry>)
    requires Execution(h) && Stands(Last(h), inc, u, g) && Emptied(Last(h).disk, inc)
    requires (op.PutRecord? || op.PutObject?) && Guard(Last(h), op)
    ensures |h'| == |h| + 2 && h <= h' && Execution(h') && DeletedUnder(h', |h| - 1, |h| - 1, inc, u, g)
    ensures h'[|h|] == Entry(op, Apply(Last(h), op))
    ensures Last(h').disk.updates == h'[|h|].s.disk.updates && Last(h').disk.blobs == h'[|h|].s.disk.blobs
  {
    var s1 := Apply(Last(h), op);
    var h1 := h + [Entry(op, s1)];
    Extend(h, Entry(op, s1));
    var remove := Remove(inc, u, g, Last(h).disk.stack.value.lock.value.expiresAt - 1);
    assert Guard(s1, remove);
    var e := Entry(remove, Apply(s1, remove));
    Extend(h1, e);
    h' := h1 + [e];
    assert h'[|h| - 1] == h[|h| - 1];
  }

  /** A preview whose own record write is reported as 412 is acknowledged on finding that record, without a
      barrier. If it had read the stack unfenced, at h[i], then however the deletion has got as far as an empty listing
      under a live fence, the preview can still be acknowledged, by GetUpdate finding stack
      and record at h'[|h|], and outlive the stack; one that passed its barrier cannot (DeletionIsComplete). */
  lemma UnadmittedPreviewOutlives(h: seq<Entry>, i: int, inc: string, u: string, g: nat, id: string, start: int)
    returns (h': seq<Entry>, record: Update)
    requires Execution(h) && Stands(Last(h), inc, u, g) && Emptied(Last(h).disk, inc)
    requires 0 < i < |h| && h[i].op == Begin(inc, id) && IsKind(Last(h), id, Preview)
    ensures Current(h[i].s.disk, inc) && !DeletionFence(h[i].s.disk.stack.value.lock)
    ensures h <= h' && Execution(h') && DeletedUnder(h', |h| - 1, |h| - 1, inc, u, g)
    ensures record == Update(id, Preview, NotStarted, h[i].s.disk.stack.value.version, start, 0, "")
    ensures |h| < |h'| && Current(h'[|h|].s.disk, inc) && RecordIs(h'[|h|].s.disk, inc, id, record)
    ensures RecordIs(Last(h').disk, inc, id, record)
  {
    assert StepAt(h, i);
    KeptRun(h, i, |h| - 1);
    record := Update(id, Preview, NotStarted, h[i].s.disk.stack.value.version, start, 0, "");
    assert !Belongs(Last(h).disk, inc, UpdateKey(inc, id));
    h' := RemoveAfter(h, PutRecord(inc, record), inc, u, g);
  }

  /** The replayed creation of an update w, having read at h[i] that w holds the stack, puts its record again. */
  ghost predicate ReplayRead(h: seq<Entry>, i: int, inc: string, w: string, kind: Kind, g: nat, now: int) {
    && 0 < i < |h| && h[i].op == Begin(inc, w) && Current(h[i].s.disk, inc) && LiveLock(h[i].s.disk.stack.value, w, g, now)
    && RecordAt(h, i, inc, w) && h[i].s.disk.updates[UpdateKey(inc, w)].kind == kind && !kind.Preview?
  }

  /** The same for an acknowledged update that locks: a replay of its creation that was under way before the deletion
      can put its record again after the empty listing; if that write is reported as 412, the replay finds no stack
      and leaves the record. */
  lemma AcknowledgedRecordOutlives(h: seq<Entry>, i: int, j: int, inc: string, u: string, g: nat,
                                   w: string, kind: Kind, held: nat, now: int, start: int)
    returns (h': seq<Entry>, record: Update)
    requires Execution(h) && Stands(Last(h), inc, u, g) && Emptied(Last(h).disk, inc)
    requires ReplayRead(h, i, inc, w, kind, held, now) && Acknowledged(h, j, inc, w)
    ensures h <= h' && Execution(h') && DeletedUnder(h', |h| - 1, |h| - 1, inc, u, g) && Acknowledged(h', j, inc, w)
    ensures record == Update(w, kind, NotStarted, h[i].s.disk.stack.value.version + 1, start, 0, "")
    ensures RecordIs(Last(h').disk, inc, w, record)
  {
    record := Update(w, kind, NotStarted, h[i].s.disk.stack.value.version + 1, start, 0, "");
    Reachable(h, i);
    assert StepAt(h, i);
    KeptRun(h, i, |h| - 1);
    assert !Belongs(Last(h).disk, inc, UpdateKey(inc, w));
    assert Guard(Last(h), PutRecord(inc, record));
    h' := RemoveAfter(h, PutRecord(inc, record), inc, u, g);
    assert h'[j] == h[j];
  }

  /** At h[i] a save for the update w was under way: its record was in progress and its lock live. */
  ghost predicate SaveUnderWay(h: seq<Entry>, i: int, inc: string, w: string, g: nat, now: int) {
    FindsRecord(h, i, i, inc, w, InProgress) && LiveLock(h[i].s.disk.stack.value, w, g, now)
  }

  /** And for checkpoints: SaveCheckpoint puts its object before it looks at the lock, so a save that was under way
      while its update held the stack can store any deployment after the empty listing, one that stack.json points to
      included. */
  lemma ObjectOutlives(h: seq<Entry>, i: int, inc: string, u: string, g: nat,
                       w: string, held: nat, now: int, deployment: Deployment)
    returns (h': seq<Entry>)
    requires Execution(h) && Stands(Last(h), inc, u, g) && Emptied(Last(h).disk, inc)
    requires SaveUnderWay(h, i, inc, w, held, now)
    ensures h <= h' && Execution(h') && DeletedUnder(h', |h| - 1, |h| - 1, inc, u, g)
    ensures CheckpointObject(inc, deployment) in Last(h').disk.blobs
  {
    assert !Belongs(Last(h).disk, inc, CheckpointObject(inc, deployment));
    h' := RemoveAfter(h, PutObject(inc, deployment), inc, u, g);
  }

  // ---------------------------------------------------------------- deletion without force

  /** An earlier deletion has removed the objects and stopped. The same owner then deletes without force: the request
      renews the fence it finds, looks for the last checkpoint in vain, takes the stack to be unused, and removes it,
      whatever the last commit lists. */
  lemma UsedStackIsDeleted(h: seq<Entry>, inc: string, u: string, g: nat, deployment: Deployment)
    returns (h': seq<Entry>)
    requires Execution(h) && g > 0 && Stands(Last(h), inc, u, g) && Emptied(Last(h).disk, inc)
    requires inc in Last(h).aux.born && LastCommit(Last(h).aux.log, inc) == Some(deployment)
    ensures |h'| == |h| + 2 && h <= h' && Execution(h') && h'[|h|].op.Renew? && h'[|h|].op.updateID == u
    ensures Current(h'[|h|].s.disk, inc) && ReadBlob(h'[|h|].s.disk, LatestLocation(h'[|h|].s.disk.stack.value)) == None
    ensures DeletedUnder(h', |h|, |h|, inc, u, g) && LastCommit(h'[|h|].s.aux.log, inc) == Some(deployment)
  {
    var s := Last(h);
    var l := s.disk.stack.value.lock.value;
    Reachable(h, |h| - 1);
    assert !Belongs(s.disk, inc, CheckpointObject(inc, deployment));
    var renew := Renew(u, l.expiresAt - 1, l.expiresAt, g);
    assert Guard(s, renew);
    var h1 := h + [Entry(renew, Apply(s, renew))];
    Extend(h, h1[|h|]);
    assert Emptied(Last(h1).disk, inc) by {
      assert forall key :: Belongs(Last(h1).disk, inc, key) ==> Belongs(s.disk, inc, key);
    }
    var remove := Remove(inc, u, g, l.expiresAt - 1);
    assert Guard(Last(h1), remove);
    var e := Entry(remove, Apply(Last(h1), remove));
    Extend(h1, e);
    h' := h1 + [e];
    assert h'[|h|] == h1[|h|];
  }
}
