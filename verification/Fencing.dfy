/** Generations, fenced commits, leases and deletion fences, over whole runs and for arbitrary clock readings. */
module Fencing {
  import opened Types
  import opened Protocol
  import opened Invariant

  // ---------------------------------------------------------------- facts that, once true, stay true

  /** While the incarnation lasts, the fence and the ceiling are at least this, and so is any holder's generation. */
  ghost predicate Floor(s: State, inc: string, fence: nat, ceiling: nat, holder: nat) {
    && inc in s.aux.used && holder <= ceiling
    && (Current(s.disk, inc) ==>
          && s.disk.stack.value.fence >= fence
          && Ceiling(s.disk.stack.value, s.disk.legacyLock) >= ceiling
          && (Holder(s.disk).Some? ==> Holder(s.disk).value.generation >= holder))
  }

  lemma FloorStep(s: State, op: Op, inc: string, fence: nat, ceiling: nat, holder: nat)
    requires LockInv(s) && Guard(s, op) && Floor(s, inc, fence, ceiling, holder)
    ensures Floor(Apply(s, op), inc, fence, ceiling, holder)
  {
    if StackOp(op) {
      FloorStackStep(s, op, inc, fence, ceiling, holder);
    }
  }

  lemma FloorStackStep(s: State, op: Op, inc: string, fence: nat, ceiling: nat, holder: nat)
    requires LockInv(s) && Guard(s, op) && StackOp(op) && Floor(s, inc, fence, ceiling, holder)
    ensures Floor(Apply(s, op), inc, fence, ceiling, holder)
  {
  }

  lemma {:induction false} FloorRun(h: seq<Entry>, i: int, j: int, inc: string, fence: nat, ceiling: nat, holder: nat)
    requires Execution(h) && 0 <= i <= j < |h| && Floor(h[i].s, inc, fence, ceiling, holder)
    ensures Floor(h[j].s, inc, fence, ceiling, holder)
  {
    if i < j {
      FloorRun(h, i, j - 1, inc, fence, ceiling, holder);
      Reachable(h, j - 1);
      assert StepAt(h, j);
      FloorStep(h[j - 1].s, h[j].op, inc, fence, ceiling, holder);
    }
  }

  /** The generation was handed out and is no longer held, or the incarnation is gone. */
  ghost predicate Over(s: State, inc: string, g: nat) {
    && g > 0 && inc in s.aux.used
    && (Current(s.disk, inc) ==>
          g <= Ceiling(s.disk.stack.value, s.disk.legacyLock) && GenerationOf(Holder(s.disk)) != g)
  }

  lemma OverStep(s: State, op: Op, inc: string, g: nat)
    requires LockInv(s) && Guard(s, op) && Over(s, inc, g)
    ensures Over(Apply(s, op), inc, g)
  {
    if StackOp(op) {
      OverStackStep(s, op, inc, g);
    }
  }

  lemma OverStackStep(s: State, op: Op, inc: string, g: nat)
    requires LockInv(s) && Guard(s, op) && StackOp(op) && Over(s, inc, g)
    ensures Over(Apply(s, op), inc, g)
  {
  }

  lemma {:induction false} OverRun(h: seq<Entry>, i: int, j: int, inc: string, g: nat)
    requires Execution(h) && 0 <= i <= j < |h| && Over(h[i].s, inc, g)
    ensures Over(h[j].s, inc, g)
  {
    if i < j {
      OverRun(h, i, j - 1, inc, g);
      Reachable(h, j - 1);
      assert StepAt(h, j);
      OverStep(h[j - 1].s, h[j].op, inc, g);
    }
  }

  ghost predicate Issued(s: State, inc: string, g: nat, who: (string, string)) {
    (inc, g) in s.aux.issued && s.aux.issued[(inc, g)] == who
  }

  lemma IssuedStep(s: State, op: Op, inc: string, g: nat, who: (string, string))
    requires LockInv(s) && Guard(s, op) && Issued(s, inc, g, who)
    ensures Issued(Apply(s, op), inc, g, who)
  {
  }

  lemma {:induction false} IssuedRun(h: seq<Entry>, i: int, j: int, inc: string, g: nat, who: (string, string))
    requires Execution(h) && 0 <= i <= j < |h| && Issued(h[i].s, inc, g, who)
    ensures Issued(h[j].s, inc, g, who)
  {
    if i < j {
      IssuedRun(h, i, j - 1, inc, g, who);
      Reachable(h, j - 1);
      assert StepAt(h, j);
      IssuedStep(h[j - 1].s, h[j].op, inc, g, who);
    }
  }

  // ---------------------------------------------------------------- generations identify holders

  /** The lock of generation g is in force in the incarnation. */
  ghost predicate Holds(s: State, inc: string, g: nat) {
    Current(s.disk, inc) && Holder(s.disk).Some? && Holder(s.disk).value.generation == g
  }

  /** Per incarnation the fence never goes back. */
  lemma FenceNeverDecreases(h: seq<Entry>, i: int, j: int, inc: string)
    requires Execution(h) && 0 <= i <= j < |h|
    requires Current(h[i].s.disk, inc) && Current(h[j].s.disk, inc)
    ensures h[i].s.disk.stack.value.fence <= h[j].s.disk.stack.value.fence
    ensures h[j].s.disk.stack.value.lock.Some? ==>
              h[j].s.disk.stack.value.lock.value.generation <= h[j].s.disk.stack.value.fence
  {
    Reachable(h, i);
    Reachable(h, j);
    FloorRun(h, i, j, inc, h[i].s.disk.stack.value.fence, 0, 0);
  }

  /** A non-zero generation belongs to one update ID and one owner for as long as its incarnation lives. */
  lemma GenerationNamesHolder(h: seq<Entry>, i: int, j: int, inc: string, g: nat)
    requires Execution(h) && 0 <= i <= j < |h| && g > 0
    requires Holds(h[i].s, inc, g) && Holds(h[j].s, inc, g)
    ensures Holder(h[i].s.disk).value.updateID == Holder(h[j].s.disk).value.updateID
    ensures Holder(h[i].s.disk).value.owner == Holder(h[j].s.disk).value.owner
  {
    Reachable(h, i);
    Reachable(h, j);
    var l := Holder(h[i].s.disk).value;
    IssuedRun(h, i, j, inc, g, (l.updateID, l.owner));
  }

  /** A lock that changes hands, or is granted afresh, gets a generation above every one held before in the
      incarnation, those of lock.json included. */
  lemma TakeoverIsAbove(h: seq<Entry>, i: int, j: int, inc: string, g: nat)
    requires Execution(h) && 0 <= i < j < |h|
    requires Holds(h[i].s, inc, g)
    requires h[j].op.Acquire? && h[j].op.incarnation == inc
    ensures h[j].op.generation > g ||
            (Holds(h[j - 1].s, inc, h[j].op.generation)
             && Holder(h[j - 1].s.disk).value.updateID == h[j].op.updateID
             && Holder(h[j - 1].s.disk).value.owner == h[j].op.owner)
  {
    Reachable(h, i);
    FloorRun(h, i, j - 1, inc, 0, g, 0);
    assert StepAt(h, j);
  }

  /** The spans during which a generation is held have no holes: whoever sees (inc, g) in force twice knows it
      was in force, with the same holder, at every moment in between. This is what makes comparing ETags that
      only reflect content safe against a document that changed and changed back. */
  lemma GenerationSpan(h: seq<Entry>, i: int, j: int, k: int, inc: string, g: nat)
    requires Execution(h) && 0 <= i <= j <= k < |h| && g > 0
    requires Holds(h[i].s, inc, g) && Holds(h[k].s, inc, g)
    ensures Holds(h[j].s, inc, g)
    ensures Holder(h[j].s.disk).value.updateID == Holder(h[k].s.disk).value.updateID
    ensures Holder(h[j].s.disk).value.owner == Holder(h[k].s.disk).value.owner
  {
    Reachable(h, i);
    FloorRun(h, i, j, inc, 0, g, 0);
    if !Holds(h[j].s, inc, g) {
      OverRun(h, j, k, inc, g);
    }
    GenerationNamesHolder(h, j, k, inc, g);
  }

  // ---------------------------------------------------------------- fenced commits

  /** A checkpoint an update commits is committed under that update's own lock, at the generation its save was
      fenced with; and once a generation has been held in the incarnation, nothing below it ever commits. */
  lemma CommitsAreFenced(h: seq<Entry>, i: int, j: int, g: nat)
    requires Execution(h) && 0 <= i < j < |h|
    requires h[j].op.Publish? && h[j].op.commit.updateID != ""
    requires Holds(h[i].s, h[j].op.commit.incarnation, g)
    ensures Holds(h[j - 1].s, h[j].op.commit.incarnation, h[j].op.commit.generation)
    ensures HeldBy(h[j - 1].s.disk, h[j].op.commit.updateID)
    ensures h[j].op.commit.generation >= g
  {
    Reachable(h, i);
    FloorRun(h, i, j - 1, h[j].op.commit.incarnation, 0, g, g);
    assert StepAt(h, j);
  }

  /** In one incarnation committed checkpoints never go back in version, and update-owned ones never go back
      in generation. */
  lemma CommitsNeverGoBack(h: seq<Entry>, n: int, i: int, j: int)
    requires Execution(h) && 0 <= n < |h|
    requires 0 <= i < j < |h[n].s.aux.log|
    requires h[n].s.aux.log[i].incarnation == h[n].s.aux.log[j].incarnation
    ensures h[n].s.aux.log[i].version <= h[n].s.aux.log[j].version
    ensures h[n].s.aux.log[j].updateID != "" ==> h[n].s.aux.log[i].generation <= h[n].s.aux.log[j].generation
  {
    Reachable(h, n);
  }

  // ---------------------------------------------------------------- leases

  /** A shared clock that never runs backwards: the reading an operation decided on was taken before its
      write landed. */
  ghost predicate Timed(h: seq<Entry>, clock: seq<int>) {
    && |clock| == |h|
    && (forall i, j :: 0 <= i <= j < |clock| ==> clock[i] <= clock[j])
    && (forall i :: 0 < i < |h| && h[i].op.Acquire? ==> h[i].op.now <= clock[i])
  }

  ghost predicate SameHolder(a: Lock, b: Option<Lock>) {
    && b.Some? && a.updateID == b.value.updateID && a.owner == b.value.owner
    && (a.generation > 0 ==> a.generation == b.value.generation)
  }

  /** The step at h[k] gives up this lock: a release that names it, or the removal of the stack under it. */
  ghost predicate GivesUp(h: seq<Entry>, k: int, l: Lock) {
    && 0 < k < |h| && (h[k].op.Release? || h[k].op.Remove?) && h[k].op.updateID == l.updateID
    && (l.generation == 0 || h[k].op.generation == l.generation || (h[k].op.Release? && h[k].op.generation == 0))
    && (h[k].op.Remove? ==> DeletionID(l.updateID))
  }

  lemma LeaseStep(h: seq<Entry>, clock: seq<int>, i: int)
    requires Execution(h) && Timed(h, clock) && 0 < i < |h|
    requires Holder(h[i - 1].s.disk).Some? && clock[i] < Holder(h[i - 1].s.disk).value.expiresAt
    ensures SameHolder(Holder(h[i - 1].s.disk).value, Holder(h[i].s.disk)) || GivesUp(h, i, Holder(h[i - 1].s.disk).value)
  {
    assert StepAt(h, i);
  }

  /** At every moment from h[i] to h[j] the lease then stored has not run out. */
  ghost predicate LeaseRuns(h: seq<Entry>, clock: seq<int>, i: int, j: int)
    requires 0 <= i <= j < |h| && |clock| == |h|
  {
    forall k | i < k <= j :: Holder(h[k - 1].s.disk).Some? ==> clock[k] < Holder(h[k - 1].s.disk).value.expiresAt
  }

  /** As long as the stored lease runs, the holder stays, unless it is given up by a release that names it or by
      the removal of the stack under its own deletion fence, although expiry is tested when the document is read
      and the write lands later. */
  lemma {:induction false} LeaseExclusion(h: seq<Entry>, clock: seq<int>, i: int, j: int)
    requires Execution(h) && Timed(h, clock) && 0 <= i <= j < |h|
    requires Holder(h[i].s.disk).Some? && LeaseRuns(h, clock, i, j)
    ensures SameHolder(Holder(h[i].s.disk).value, Holder(h[j].s.disk))
            || exists k :: i < k <= j && GivesUp(h, k, Holder(h[i].s.disk).value)
  {
    if i < j {
      LeaseExclusion(h, clock, i, j - 1);
      if SameHolder(Holder(h[i].s.disk).value, Holder(h[j - 1].s.disk)) {
        LeaseStep(h, clock, j);
        assert GivesUp(h, j, Holder(h[j - 1].s.disk).value) ==> GivesUp(h, j, Holder(h[i].s.disk).value);
      }
    }
  }

  /** The step at h[k] takes the lock again for the update that holds it. */
  ghost predicate Retaken(h: seq<Entry>, k: int, u: string) {
    0 <= k < |h| && (h[k].op.Acquire? || h[k].op.Renew?) && h[k].op.updateID == u
  }

  /** A lock taken or renewed at h[k] for `ttl` from the reading it was decided on stands, to the letter, for that long,
      unless its holder gives it up or takes it again. */
  lemma {:induction false} LeaseLasts(h: seq<Entry>, clock: seq<int>, k: int, j: int, ttl: int)
    requires Execution(h) && Timed(h, clock) && 0 < k <= j < |h| && (h[k].op.Acquire? || h[k].op.Renew?)
    requires h[k].op.now + ttl <= h[k].op.expiresAt && clock[j] < h[k].op.now + ttl
    ensures Holder(h[k].s.disk).Some? && Holder(h[k].s.disk).value.updateID == h[k].op.updateID
    ensures || Holder(h[j].s.disk) == Holder(h[k].s.disk)
            || (exists m :: k < m <= j && GivesUp(h, m, Holder(h[k].s.disk).value))
            || (exists m :: k < m <= j && Retaken(h, m, h[k].op.updateID))
  {
    assert StepAt(h, k);
    if k < j {
      LeaseLasts(h, clock, k, j - 1, ttl);
      if Holder(h[j - 1].s.disk) == Holder(h[k].s.disk) {
        LeaseStep(h, clock, j);
        assert StepAt(h, j);
        if SameHolder(Holder(h[j - 1].s.disk).value, Holder(h[j].s.disk)) {
          LockStands(h, j);
        }
        assert || Retaken(h, j, h[k].op.updateID) || GivesUp(h, j, Holder(h[k].s.disk).value)
               || Holder(h[j].s.disk) == Holder(h[k].s.disk);
      }
    }
  }

  /** A lock that is neither given up nor taken is as it was. */
  lemma LockStands(h: seq<Entry>, j: int)
    requires 0 < j < |h| && StepAt(h, j) && Holder(h[j - 1].s.disk).Some?
    requires SameHolder(Holder(h[j - 1].s.disk).value, Holder(h[j].s.disk))
    ensures Retaken(h, j, Holder(h[j - 1].s.disk).value.updateID) || Holder(h[j].s.disk) == Holder(h[j - 1].s.disk)
  {
  }

  // ---------------------------------------------------------------- deletion fences

  lemma FenceStep(h: seq<Entry>, i: int)
    requires Execution(h) && 0 < i < |h| && DeletionFence(Holder(h[i - 1].s.disk))
    ensures DeletionFence(Holder(h[i].s.disk)) || GivesUp(h, i, Holder(h[i - 1].s.disk).value)
    ensures DeletionFence(Holder(h[i].s.disk)) && !SameHolder(Holder(h[i - 1].s.disk).value, Holder(h[i].s.disk)) ==>
              h[i].op.Acquire? && DeletionID(h[i].op.updateID) && Holder(h[i - 1].s.disk).value.Expired(h[i].op.now)
  {
    assert StepAt(h, i);
  }

  /** The step at h[k] ends the fence then standing. */
  ghost predicate FenceEnds(h: seq<Entry>, k: int) {
    0 < k < |h| && DeletionFence(Holder(h[k - 1].s.disk)) && GivesUp(h, k, Holder(h[k - 1].s.disk).value)
  }

  /** The step at h[k] replaces a deletion fence that has expired by another deletion's. */
  ghost predicate TakesOver(h: seq<Entry>, k: int) {
    && 0 < k < |h| && h[k].op.Acquire? && DeletionID(h[k].op.updateID)
    && DeletionFence(Holder(h[k - 1].s.disk)) && Holder(h[k - 1].s.disk).value.Expired(h[k].op.now)
  }

  /** A deletion fence, expired or not and in either document, gives way only to its own release, to the removal of
      the stack, or, once expired, to another deletion: over any stretch it is still the same fence, or one of these
      happened; and if no fence stands at the end, the last one was released or the stack removed under it. */
  lemma {:induction false} DeletionFenceIsSticky(h: seq<Entry>, i: int, j: int)
    requires Execution(h) && 0 <= i <= j < |h| && DeletionFence(Holder(h[i].s.disk))
    ensures DeletionFence(Holder(h[j].s.disk)) || exists k :: i < k <= j && FenceEnds(h, k)
    ensures SameHolder(Holder(h[i].s.disk).value, Holder(h[j].s.disk))
            || exists k :: i < k <= j && (GivesUp(h, k, Holder(h[i].s.disk).value) || TakesOver(h, k))
  {
    if i < j {
      DeletionFenceIsSticky(h, i, j - 1);
      if DeletionFence(Holder(h[j - 1].s.disk)) {
        FenceStep(h, j);
        assert FenceEnds(h, j) || DeletionFence(Holder(h[j].s.disk));
      }
      if SameHolder(Holder(h[i].s.disk).value, Holder(h[j - 1].s.disk)) {
        assert GivesUp(h, j, Holder(h[j - 1].s.disk).value) ==> GivesUp(h, j, Holder(h[i].s.disk).value);
        assert SameHolder(Holder(h[i].s.disk).value, Holder(h[j].s.disk)) || GivesUp(h, j, Holder(h[i].s.disk).value) || TakesOver(h, j);
      }
    }
  }

  ghost predicate Fenced(s: State, inc: string) {
    Current(s.disk, inc) && DeletionFence(s.disk.stack.value.lock)
  }

  /** The document apart from its lock. */
  function Payload(st: Stack): (int, int, Option<Key>, map<int, Key>) {
    (st.version, st.lastUpdate, st.latestCheckpointKey, st.checkpointVersions)
  }

  /** While deletion fences stand, Version and every checkpoint pointer are frozen and no preview is admitted. */
  lemma {:induction false} FencedIsFrozen(h: seq<Entry>, i: int, j: int, inc: string)
    requires Execution(h) && 0 <= i <= j < |h|
    requires forall k | i <= k <= j :: Fenced(h[k].s, inc)
    ensures Fenced(h[i].s, inc) && Fenced(h[j].s, inc)
    ensures Payload(h[i].s.disk.stack.value) == Payload(h[j].s.disk.stack.value)
    ensures forall k | i < k <= j :: !h[k].op.Barrier? && !h[k].op.Bump? && !h[k].op.Publish?
  {
    assert Fenced(h[i].s, inc) && Fenced(h[j].s, inc);
    if i < j {
      FencedIsFrozen(h, i, j - 1, inc);
      assert StepAt(h, j);
      assert !h[j].op.Create?;
    }
  }
}
