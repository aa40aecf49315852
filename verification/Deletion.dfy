/** A deletion that succeeds was complete and undisturbed. */
module Deletion {
  import opened Types
  import opened Protocol
  import opened Invariant
  import opened Stability
  import opened Contracts
  import opened Fencing
  import opened Isolation

  /** stack.json carries the deletion fence of this update and generation. */
  ghost predicate Stands(s: State, inc: string, u: string, g: nat) {
    && Fenced(s, inc)
    && s.disk.stack.value.lock.value.updateID == u && s.disk.stack.value.lock.value.generation == g
  }

  /** At h[n] the stack is removed under this fence. */
  ghost predicate RemovedAt(h: seq<Entry>, n: int, inc: string, u: string, g: nat) {
    0 < n < |h| && h[n].op.Remove? && h[n].op.incarnation == inc && h[n].op.updateID == u && h[n].op.generation == g
  }

  /** The fence was seen at h[k] and the stack removed under it at h[n]: at every moment in between it stood. The
      removal compares a document that may have changed and changed back, but a generation that lapsed never
      returns. */
  lemma FenceStoodThroughout(h: seq<Entry>, k: int, j: int, n: int, inc: string, u: string, g: nat)
    requires Execution(h) && 0 <= k <= j < n < |h| && g > 0
    requires Stands(h[k].s, inc, u, g) && RemovedAt(h, n, inc, u, g)
    ensures Stands(h[j].s, inc, u, g)
  {
    assert StepAt(h, n);
    GenerationSpan(h, k, j, n - 1, inc, g);
    KeptRun(h, k, j);
  }

  /** From the moment the fence is installed until the stack is gone, Version and the checkpoint pointers do not
      move, no checkpoint is committed and no preview passes its barrier. */
  lemma DeletionIsUndisturbed(h: seq<Entry>, k: int, n: int, inc: string, u: string, g: nat)
    requires Execution(h) && 0 <= k < n < |h| && g > 0
    requires Stands(h[k].s, inc, u, g) && RemovedAt(h, n, inc, u, g)
    ensures Current(h[n - 1].s.disk, inc) && Payload(h[n - 1].s.disk.stack.value) == Payload(h[k].s.disk.stack.value)
    ensures forall j | k < j <= n :: !h[j].op.Barrier? && !h[j].op.Bump? && !h[j].op.Publish?
  {
    forall j | k <= j <= n - 1 ensures Fenced(h[j].s, inc) {
      FenceStoodThroughout(h, k, j, n, inc, u, g);
    }
    FencedIsFrozen(h, k, n - 1, inc);
  }

  /** The update was acknowledged at h[j]: a preview by its barrier, a locking update by owning its version. */
  ghost predicate Acknowledged(h: seq<Entry>, j: int, inc: string, u: string) {
    && 0 < j < |h| && !DeletionID(u)
    && (h[j].op == Barrier(inc, u) || exists v :: OwnsVersion(h[j].s, inc, u, v))
  }

  /** Every acknowledgement in the incarnation, past or future, came before the fence. */
  lemma AcknowledgedBeforeFence(h: seq<Entry>, j: int, k: int, n: int, inc: string, u: string, g: nat, w: string)
    requires Execution(h) && 0 <= k < n < |h| && g > 0
    requires Stands(h[k].s, inc, u, g) && RemovedAt(h, n, inc, u, g) && Acknowledged(h, j, inc, w)
    ensures j < k
  {
    assert StepAt(h, j);
    if k <= j < n {
      FenceStoodThroughout(h, k, j, n, inc, u, g);
      DeletionIsUndisturbed(h, k, n, inc, u, g);
    } else if n <= j {
      Reachable(h, n - 1);
      assert StepAt(h, n);
      GoneForGood(h, n, j - 1, inc);
      GoneForGood(h, n, j, inc);
    }
  }

  ghost predicate Present(d: Disk, key: Key) {
    key in d.updates || key in d.blobs
  }

  /** The operation puts an object under this key. */
  predicate Writes(op: Op, key: Key) {
    match op
    case PutRecord(inc, r) => key == UpdateKey(inc, r.id)
    case PutObject(inc, dep) => key == CheckpointObject(inc, dep)
    case CopyHistory(inc, v, _) => key == HistoryKey(inc, v)
    case CopyLatest(inc, _) => key == LatestKey(inc)
    case _ => false
  }

  predicate Removes(op: Op, key: Key) {
    (op.DropRecord? && key == UpdateKey(op.incarnation, op.was.id)) || (op.Erase? && key == op.key)
  }

  /** At h[k] an object was put under this key, and nothing up to h[j] has removed it. */
  ghost predicate WrittenAt(h: seq<Entry>, k: int, j: int, key: Key) {
    0 <= k <= j < |h| && Writes(h[k].op, key) && forall m | k < m <= j :: !Removes(h[m].op, key)
  }

  ghost predicate WrittenSince(h: seq<Entry>, i: int, j: int, key: Key) {
    exists k :: i < k && WrittenAt(h, k, j, key)
  }

  /** A record or checkpoint object that is gone is there again exactly if somebody wrote it again, and nobody has
      removed it since. */
  lemma {:induction false} GoneUntilPutAgain(h: seq<Entry>, i: int, j: int, key: Key)
    requires Execution(h) && 0 <= i <= j < |h| && !key.StackKey? && !key.LockKey? && !Present(h[i].s.disk, key)
    ensures Present(h[j].s.disk, key) <==> WrittenSince(h, i, j, key)
  {
    if i < j {
      GoneUntilPutAgain(h, i, j - 1, key);
      assert StepAt(h, j);
      Reachable(h, j - 1);
      PresentStep(h[j - 1].s, h[j].op, key);
      if Writes(h[j].op, key) {
        assert WrittenAt(h, j, j, key);
      } else {
        WrittenStep(h, i, j, key);
      }
    }
  }

  lemma WrittenStep(h: seq<Entry>, i: int, j: int, key: Key)
    requires 0 <= i < j < |h| && !Writes(h[j].op, key)
    ensures WrittenSince(h, i, j, key) <==> WrittenSince(h, i, j - 1, key) && !Removes(h[j].op, key)
  {
    if WrittenSince(h, i, j, key) {
      var k :| i < k && WrittenAt(h, k, j, key);
      assert WrittenAt(h, k, j - 1, key);
    }
    if WrittenSince(h, i, j - 1, key) && !Removes(h[j].op, key) {
      var k :| i < k && WrittenAt(h, k, j - 1, key);
      assert WrittenAt(h, k, j, key);
    }
  }

  lemma PresentStep(s: State, op: Op, key: Key)
    requires Guard(s, op) && RecordInv(s) && BlobInv(s) && !key.StackKey? && !key.LockKey?
    ensures Present(Apply(s, op).disk, key) <==> Writes(op, key) || (Present(s.disk, key) && !Removes(op, key))
  {
  }

  /** What DeleteStack's success amounts to. The fence stood from the moment it was seen until stack.json was
      removed; nothing was committed meanwhile; every acknowledged update of the incarnation was acknowledged
      before; and at one moment in between, its record and every checkpoint of the incarnation were gone. What is
      there in the end is exactly what requests still under way have written since that moment. */
  lemma DeletionIsComplete(h: seq<Entry>, seen: int, empty: int, inc: string, u: string, g: nat, j: int, w: string)
    requires Execution(h) && g > 0 && DeletedUnder(h, seen, empty, inc, u, g)
    ensures forall k | seen <= k < |h| - 1 :: Stands(h[k].s, inc, u, g)
    ensures Current(h[|h| - 2].s.disk, inc)
    ensures Payload(h[|h| - 2].s.disk.stack.value) == Payload(h[seen].s.disk.stack.value)
    ensures Acknowledged(h, j, inc, w) ==> j < seen && UpdateKey(inc, w) !in h[empty].s.disk.updates
    ensures forall key :: key in h[empty].s.disk.blobs ==> key.StackKey? || key.LockKey? || key.incarnation != inc
    ensures h[|h| - 1].s.disk.stack.None?
    ensures forall key :: InIncarnation(key, inc) ==>
              (Present(Last(h).disk, key) <==> WrittenSince(h, empty, |h| - 1, key))
  {
    var n := |h| - 1;
    assert Stands(h[seen].s, inc, u, g) && RemovedAt(h, n, inc, u, g);
    forall k | seen <= k < n ensures Stands(h[k].s, inc, u, g) {
      FenceStoodThroughout(h, seen, k, n, inc, u, g);
    }
    assert StepAt(h, n);
    DeletionIsUndisturbed(h, seen, n, inc, u, g);
    if Acknowledged(h, j, inc, w) {
      AcknowledgedBeforeFence(h, j, seen, n, inc, u, g, w);
      assert !Belongs(h[empty].s.disk, inc, UpdateKey(inc, w));
    }
    forall key | key in h[empty].s.disk.blobs ensures key.StackKey? || key.LockKey? || key.incarnation != inc {
      assert !Belongs(h[empty].s.disk, inc, key);
    }
    forall key | InIncarnation(key, inc) ensures Present(Last(h).disk, key) <==> WrittenSince(h, empty, n, key) {
      assert !Belongs(h[empty].s.disk, inc, key);
      GoneUntilPutAgain(h, empty, n, key);
    }
  }

  // ---------------------------------------------------------------- what is left

  /** While fences stand, no creation passes its reading of the stack. */
  lemma {:induction false} NothingBegins(h: seq<Entry>, i: int, j: int, inc: string, w: string)
    requires IsRun(h) && 0 <= i <= j < |h| && (forall k | i <= k <= j :: Fenced(h[k].s, inc))
    requires (inc, w) in h[j].s.aux.begun
    ensures (inc, w) in h[i].s.aux.begun
  {
    if i < j {
      assert StepAt(h, j) && Fenced(h[j - 1].s, inc);
      NothingBegins(h, i, j - 1, inc, w);
    }
  }

  /** The step at h[k] puts the record of this update. */
  ghost predicate PutsRecord(h: seq<Entry>, k: int, inc: string, w: string) {
    0 < k < |h| && h[k].op.PutRecord? && h[k].op.incarnation == inc && h[k].op.record.id == w
  }

  /** A record put under the fence is put by a creation that had read the stack before the fence stood. */
  lemma PutUnderFenceBeganBefore(h: seq<Entry>, seen: int, empty: int, k: int, inc: string, u: string, g: nat, w: string)
    requires Execution(h) && g > 0 && DeletedUnder(h, seen, empty, inc, u, g) && seen < k && PutsRecord(h, k, inc, w)
    ensures (inc, w) in h[seen].s.aux.begun
  {
    forall m | seen <= m <= k - 1 ensures Fenced(h[m].s, inc) {
      FenceStoodThroughout(h, seen, m, |h| - 1, inc, u, g);
    }
    assert StepAt(h, k);
    NothingBegins(h, seen, k - 1, inc, w);
  }

  /** Once no creation that began before the fence puts a record any more, no record is left when the deletion is over. */
  lemma NoRecordIsLeft(h: seq<Entry>, seen: int, empty: int, inc: string, u: string, g: nat)
    requires Execution(h) && g > 0 && DeletedUnder(h, seen, empty, inc, u, g)
    requires forall k, w :: empty < k && PutsRecord(h, k, inc, w) ==> (inc, w) !in h[seen].s.aux.begun
    ensures forall w :: UpdateKey(inc, w) !in Last(h).disk.updates
  {
    forall w ensures UpdateKey(inc, w) !in Last(h).disk.updates {
      var key := UpdateKey(inc, w);
      assert !Belongs(h[empty].s.disk, inc, key);
      GoneUntilPutAgain(h, empty, |h| - 1, key);
      if WrittenSince(h, empty, |h| - 1, key) {
        var k :| empty < k && WrittenAt(h, k, |h| - 1, key);
        assert PutsRecord(h, k, inc, w);
        PutUnderFenceBeganBefore(h, seen, empty, k, inc, u, g, w);
      }
    }
  }

  // ---------------------------------------------------------------- deletion without force

  /** The lock of this update and generation is in stack.json. */
  ghost predicate Carries(d: Disk, u: string, g: nat) {
    && d.stack.Some? && d.stack.value.lock.Some?
    && d.stack.value.lock.value.updateID == u && d.stack.value.lock.value.generation == g
  }

  lemma {:induction false} SameLog(h: seq<Entry>, i: int, j: int)
    requires IsRun(h) && 0 <= i <= j < |h| && forall k | i < k <= j :: !h[k].op.Publish?
    ensures h[i].s.aux.log == h[j].s.aux.log
  {
    if i < j {
      SameLog(h, i, j - 1);
      assert StepAt(h, j);
    }
  }

  /** The fence a deletion works under is of the incarnation it removes in the end, and stood all the time. */
  lemma FenceIsOfThisStack(h: seq<Entry>, held: int, k: int, seen: int, empty: int, inc: string, u: string, g: nat)
    requires Execution(h) && g > 0 && DeletedUnder(h, seen, empty, inc, u, g)
    requires 0 <= held <= k < |h| - 1 && Carries(h[held].s.disk, u, g)
    ensures Stands(h[held].s, inc, u, g) && Stands(h[k].s, inc, u, g)
  {
    var n := |h| - 1;
    assert RemovedAt(h, n, inc, u, g);
    assert StepAt(h, n);
    Reachable(h, held);
    Reachable(h, n - 1);
    HomeForever(h, held, n - 1, u);
    assert Stands(h[held].s, inc, u, g);
    FenceStoodThroughout(h, held, k, n, inc, u, g);
  }

  /** What a deletion saw of the commit log while it held the fence is still so when the stack is removed. */
  lemma SeenUnderFenceIsFinal(h: seq<Entry>, held: int, at: int, seen: int, empty: int, inc: string, u: string, g: nat)
    requires Execution(h) && g > 0 && DeletedUnder(h, seen, empty, inc, u, g)
    requires 0 <= held <= at < |h| - 1 && Carries(h[held].s.disk, u, g)
    ensures h[at].s.aux.log == h[|h| - 2].s.aux.log
    ensures Current(h[at].s.disk, inc) && Current(h[|h| - 2].s.disk, inc)
    ensures Payload(h[at].s.disk.stack.value) == Payload(h[|h| - 2].s.disk.stack.value)
  {
    FenceIsOfThisStack(h, held, at, seen, empty, inc, u, g);
    DeletionIsUndisturbed(h, at, |h| - 1, inc, u, g);
    SameLog(h, at, |h| - 2);
  }
}
