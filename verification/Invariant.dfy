/** What every reachable state of the bucket satisfies. */
module Invariant {
  import opened Types
  import opened Decimal
  import opened Protocol

  /** Lock, fence and generations. */
  ghost predicate LockInv(s: State) {
    var d, a := s.disk, s.aux;
    && "" in a.used
    && (forall k :: k in a.issued ==> k.0 in a.used && k.1 > 0)
    && (d.stack.Some? ==>
          var st := d.stack.value;
          var inc, ceiling := st.incarnation, Ceiling(st, d.legacyLock);
          && inc in a.used
          && (st.lock.Some? ==> st.lock.value.generation <= st.fence)
          && (forall g: nat :: (inc, g) in a.issued ==> g <= ceiling)
          && (Holder(d).Some? ==>
                var l := Holder(d).value;
                && l.updateID in a.home && a.home[l.updateID] == inc
                && (l.generation > 0 ==>
                      (inc, l.generation) in a.issued && a.issued[(inc, l.generation)] == (l.updateID, l.owner))))
  }

  /** Tokens name the generation their update still holds, if it holds one. */
  ghost predicate TokenInv(s: State) {
    forall t :: t in s.aux.tokens ==>
      t.1 > 0 && t.0 in s.aux.retired && (HeldBy(s.disk, t.0) ==> Holder(s.disk).value.generation == t.1)
  }

  ghost predicate IsTop(st: Stack, v: int) {
    v in st.checkpointVersions && forall w :: w in st.checkpointVersions ==> w <= v
  }

  /** The checkpoint index of one document. */
  ghost predicate IndexOK(st: Stack) {
    && (forall v :: v in st.checkpointVersions ==> v <= st.version)
    && (st.latestCheckpointKey.Some? ==>
          && st.checkpointVersions != map[]
          && forall v :: IsTop(st, v) ==> st.checkpointVersions[v] == st.latestCheckpointKey.value)
  }

  ghost predicate IndexInv(s: State) {
    s.disk.stack.Some? ==> IndexOK(s.disk.stack.value)
  }

  /** No move of Version is ahead of Version. */
  ghost predicate BumpedInv(s: State) {
    forall k :: k in s.aux.bumped ==>
      k.0 in s.aux.used && (Current(s.disk, k.0) ==> k.1 <= s.disk.stack.value.version)
  }

  /** Update records and the versions they claim. */
  ghost predicate RecordInv(s: State) {
    && (forall k :: k in s.disk.updates ==>
          && k.UpdateKey? && s.disk.updates[k].id == k.id
          && (!s.disk.updates[k].kind.Preview? ==>
                k.id in s.aux.retired && !DeletionID(k.id) && Claims(s, k.incarnation, k.id, s.disk.updates[k].version)))
    && BumpedInv(s)
  }

  /** Every record is of the kind its ID was minted for. */
  ghost predicate KindInv(s: State) {
    forall k :: k in s.disk.updates ==> k.UpdateKey? && k.id in s.aux.kinds && s.aux.kinds[k.id] == s.disk.updates[k].kind
  }

  /** Commits are ordered by version and, for update-owned ones, by generation. */
  ghost predicate LogOrdered(log: seq<Commit>) {
    forall i, j :: 0 <= i < j < |log| && log[i].incarnation == log[j].incarnation ==>
      log[i].version <= log[j].version && (log[j].updateID != "" ==> log[i].generation <= log[j].generation)
  }

  /** The present version, ceiling and holder are not behind the commit. */
  ghost predicate CommitCovered(s: State, c: Commit) {
    && c.incarnation in s.aux.used
    && (Current(s.disk, c.incarnation) ==>
          && c.version <= s.disk.stack.value.version
          && c.generation <= Ceiling(s.disk.stack.value, s.disk.legacyLock)
          && (Holder(s.disk).Some? ==> c.generation <= Holder(s.disk).value.generation))
  }

  ghost predicate LogInv(s: State) {
    LogOrdered(s.aux.log) && forall c :: c in s.aux.log ==> CommitCovered(s, c)
  }

  /** The pointers of a followed stack say what was last committed. */
  ghost predicate PointerInv(s: State) {
    s.disk.stack.Some? && s.disk.stack.value.incarnation in s.aux.born ==>
      var st := s.disk.stack.value;
      && st.latestCheckpointKey == PointerTo(st.incarnation, LastCommit(s.aux.log, st.incarnation))
      && forall v :: PointerAt(st, v) == PointerTo(st.incarnation, LastCommitAt(s.aux.log, st.incarnation, v))
  }

  function PointerTo(incarnation: string, deployment: Option<Deployment>): Option<Key> {
    if deployment.None? then None else Some(CheckpointObject(incarnation, deployment.value))
  }

  function PointerAt(st: Stack, version: int): Option<Key> {
    if version in st.checkpointVersions then Some(st.checkpointVersions[version]) else None
  }

  /** Checkpoint objects hold what their name says, copies hold something committed, and nothing committed
      is missing before a deletion begins. */
  ghost predicate BlobInv(s: State) {
    && s.aux.born <= s.aux.used
    && (forall k :: k in s.disk.blobs ==>
          match k
          case ObjectKey(_, digest) => Digest(s.disk.blobs[k]) == digest
          case LatestKey(inc) => inc in s.aux.born ==> Committed(s.aux.log, inc, s.disk.blobs[k])
          case HistoryKey(inc, v) => inc in s.aux.born ==> CommittedAt(s.aux.log, inc, v, s.disk.blobs[k])
          case _ => false)
    && (forall k :: k in s.disk.blobs && !k.ObjectKey? ==> k.incarnation in s.aux.used)
    && (forall c :: c in s.aux.log ==>
          c.incarnation in s.aux.purged || CheckpointObject(c.incarnation, c.deployment) in s.disk.blobs)
  }

  ghost predicate Inv(s: State) {
    LockInv(s) && TokenInv(s) && IndexInv(s) && RecordInv(s) && KindInv(s) && LogInv(s) && PointerInv(s) && BlobInv(s)
  }

  // ---------------------------------------------------------------- preservation

  lemma LockInvStep(s: State, op: Op)
    requires LockInv(s) && Guard(s, op)
    ensures LockInv(Apply(s, op))
  {
    if StackOp(op) {
      LockInvStackStep(s, op);
    }
  }

  lemma LockInvStackStep(s: State, op: Op)
    requires LockInv(s) && Guard(s, op) && StackOp(op)
    ensures LockInv(Apply(s, op))
  {
  }

  lemma TokenInvStep(s: State, op: Op)
    requires LockInv(s) && TokenInv(s) && Guard(s, op)
    ensures TokenInv(Apply(s, op))
  {
  }

  lemma IndexInvStep(s: State, op: Op)
    requires IndexInv(s) && Guard(s, op)
    ensures IndexInv(Apply(s, op))
  {
    if op.Publish? {
      var st, st' := s.disk.stack.value, Apply(s, op).disk.stack.value;
      assert st'.checkpointVersions[op.commit.version] == st'.latestCheckpointKey.value;
      forall v | IsTop(st', v) ensures v == op.commit.version {
        assert op.commit.version in st'.checkpointVersions;
      }
    } else if op.Bump? {
      var st, st' := s.disk.stack.value, Apply(s, op).disk.stack.value;
      forall v | IsTop(st', v) ensures IsTop(st, v) {}
    } else if StackOp(op) && !op.Remove? {
      var st, st' := s.disk.stack.value, Apply(s, op).disk.stack.value;
      forall v | IsTop(st', v) ensures IsTop(st, v) {}
    }
  }

  /** A truthful claim stays truthful: nobody but its own update can move Version while that update holds
      the stack, and a retired update never gets the stack back. */
  lemma ClaimsStep(s: State, op: Op, incarnation: string, updateID: string, version: int)
    requires LockInv(s) && Guard(s, op)
    requires updateID in s.aux.retired && Claims(s, incarnation, updateID, version)
    ensures Claims(Apply(s, op), incarnation, updateID, version)
  {
    if StackOp(op) {
      ClaimsStackStep(s, op, incarnation, updateID, version);
    }
  }

  lemma ClaimsStackStep(s: State, op: Op, incarnation: string, updateID: string, version: int)
    requires LockInv(s) && Guard(s, op) && StackOp(op)
    requires updateID in s.aux.retired && Claims(s, incarnation, updateID, version)
    ensures Claims(Apply(s, op), incarnation, updateID, version)
  {
  }

  lemma RecordInvStep(s: State, op: Op)
    requires LockInv(s) && RecordInv(s) && Guard(s, op)
    ensures RecordInv(Apply(s, op))
  {
    var s' := Apply(s, op);
    forall k | k in s'.disk.updates && !s'.disk.updates[k].kind.Preview?
      ensures k.UpdateKey? && Claims(s', k.incarnation, k.id, s'.disk.updates[k].version)
    {
      if op.PutRecord? && k == UpdateKey(op.incarnation, op.record.id) {
        ClaimsStep(s, op, k.incarnation, k.id, op.record.version);
      } else {
        ClaimsStep(s, op, k.incarnation, k.id, s.disk.updates[k].version);
      }
    }
    BumpedStep(s, op);
  }

  lemma BumpedStep(s: State, op: Op)
    requires LockInv(s) && BumpedInv(s) && Guard(s, op)
    ensures BumpedInv(Apply(s, op))
  {
    forall k | k in Apply(s, op).aux.bumped
      ensures k in s.aux.bumped || (op.Bump? && k == (op.incarnation, op.version))
    {}
  }

  lemma KindInvStep(s: State, op: Op)
    requires RecordInv(s) && KindInv(s) && Guard(s, op)
    ensures KindInv(Apply(s, op))
  {
    if StackOp(op) {
      assert Apply(s, op).disk.updates == s.disk.updates && Apply(s, op).aux.kinds == s.aux.kinds;
    } else {
      KindInvOtherStep(s, op);
    }
  }

  lemma KindInvOtherStep(s: State, op: Op)
    requires RecordInv(s) && KindInv(s) && Guard(s, op) && !StackOp(op)
    ensures KindInv(Apply(s, op))
  {
  }

  lemma CommitStaysCovered(s: State, op: Op, c: Commit)
    requires LockInv(s) && Guard(s, op) && CommitCovered(s, c)
    ensures CommitCovered(Apply(s, op), c)
  {
    if StackOp(op) {
      CommitStackStep(s, op, c);
    }
  }

  lemma CommitStackStep(s: State, op: Op, c: Commit)
    requires LockInv(s) && Guard(s, op) && StackOp(op) && CommitCovered(s, c)
    ensures CommitCovered(Apply(s, op), c)
  {
  }

  lemma CommitInOrder(s: State, op: Op)
    requires LockInv(s) && LogInv(s) && Guard(s, op) && op.Publish?
    ensures LogInv(Apply(s, op))
  {
    var log := s.aux.log;
    assert forall i | 0 <= i < |log| :: log[i] in log && CommitCovered(s, log[i]);
  }

  lemma LogInvStep(s: State, op: Op)
    requires LockInv(s) && LogInv(s) && Guard(s, op)
    ensures LogInv(Apply(s, op))
  {
    if op.Publish? {
      CommitInOrder(s, op);
    } else {
      forall c | c in s.aux.log ensures CommitCovered(Apply(s, op), c) {
        CommitStaysCovered(s, op, c);
      }
    }
  }

  lemma {:induction false} NeverCommitted(log: seq<Commit>, incarnation: string, version: int)
    requires forall c :: c in log ==> c.incarnation != incarnation
    ensures LastCommit(log, incarnation) == None && LastCommitAt(log, incarnation, version) == None
  {
    if log != [] {
      NeverCommitted(log[..|log| - 1], incarnation, version);
    }
  }

  lemma LogAppend(log: seq<Commit>, c: Commit, incarnation: string, version: int)
    ensures LastCommit(log + [c], incarnation)
         == if c.incarnation == incarnation then Some(c.deployment) else LastCommit(log, incarnation)
    ensures LastCommitAt(log + [c], incarnation, version)
         == if c.incarnation == incarnation && c.version == version then Some(c.deployment)
            else LastCommitAt(log, incarnation, version)
  {
    assert (log + [c])[..|log|] == log;
  }

  lemma PointerStep(s: State, op: Op, version: int)
    requires LockInv(s) && LogInv(s) && PointerInv(s) && Guard(s, op)
    ensures
      var s' := Apply(s, op);
      s'.disk.stack.Some? && s'.disk.stack.value.incarnation in s'.aux.born ==>
        var st', inc := s'.disk.stack.value, s'.disk.stack.value.incarnation;
        && st'.latestCheckpointKey == PointerTo(inc, LastCommit(s'.aux.log, inc))
        && PointerAt(st', version) == PointerTo(inc, LastCommitAt(s'.aux.log, inc, version))
  {
    if op.Create? {
      NeverCommitted(s.aux.log, op.incarnation, version);
    } else if s.disk.stack.Some? {
      var st, inc := s.disk.stack.value, s.disk.stack.value.incarnation;
      assert inc in s.aux.born ==> PointerAt(st, version) == PointerTo(inc, LastCommitAt(s.aux.log, inc, version));
      if op.Publish? {
        LogAppend(s.aux.log, op.commit, inc, version);
      }
    }
  }

  lemma PointerInvStep(s: State, op: Op)
    requires LockInv(s) && LogInv(s) && PointerInv(s) && Guard(s, op)
    ensures PointerInv(Apply(s, op))
  {
    PointerStep(s, op, 0);
    forall v { PointerStep(s, op, v); }
  }

  lemma BlobInvStep(s: State, op: Op)
    requires LockInv(s) && LogInv(s) && BlobInv(s) && Guard(s, op)
    ensures BlobInv(Apply(s, op))
  {
    var s' := Apply(s, op);
    forall k | k in s'.disk.blobs ensures
      && (!k.ObjectKey? ==> k.incarnation in s'.aux.used)
      && match k
         case ObjectKey(_, digest) => Digest(s'.disk.blobs[k]) == digest
         case LatestKey(inc) => inc in s'.aux.born ==> Committed(s'.aux.log, inc, s'.disk.blobs[k])
         case HistoryKey(inc, v) => inc in s'.aux.born ==> CommittedAt(s'.aux.log, inc, v, s'.disk.blobs[k])
         case _ => false
    {
      LogGrows(s, op);
    }
  }

  /** What was committed stays committed. */
  lemma LogGrows(s: State, op: Op)
    requires Guard(s, op)
    ensures s.aux.log <= Apply(s, op).aux.log
    ensures forall inc, dep :: Committed(s.aux.log, inc, dep) ==> Committed(Apply(s, op).aux.log, inc, dep)
    ensures forall inc, v, dep ::
              CommittedAt(s.aux.log, inc, v, dep) ==> CommittedAt(Apply(s, op).aux.log, inc, v, dep)
  {
    assert forall c :: c in s.aux.log ==> c in Apply(s, op).aux.log;
  }

  lemma InvStep(s: State, op: Op)
    requires Inv(s) && Guard(s, op)
    ensures Inv(Apply(s, op))
  {
    LockInvStep(s, op);
    TokenInvStep(s, op);
    IndexInvStep(s, op);
    RecordInvStep(s, op);
    KindInvStep(s, op);
    LogInvStep(s, op);
    PointerInvStep(s, op);
    BlobInvStep(s, op);
  }

  ghost predicate InvAt(h: seq<Entry>, i: int) {
    0 <= i < |h| && Inv(h[i].s)
  }

  /** A run whose start state satisfies the invariant. */
  ghost predicate Execution(h: seq<Entry>) {
    IsRun(h) && forall i | i == 0 :: InvAt(h, i)
  }

  /** Every state of every execution satisfies the invariant. */
  lemma {:induction false} Reachable(h: seq<Entry>, i: int)
    requires Execution(h) && 0 <= i < |h|
    ensures Inv(h[i].s)
  {
    if i == 0 {
      assert InvAt(h, 0);
    } else {
      Reachable(h, i - 1);
      assert StepAt(h, i);
      InvStep(h[i - 1].s, h[i].op);
    }
  }

  lemma Extend(h: seq<Entry>, e: Entry)
    requires Execution(h) && Guard(Last(h), e.op) && e.s == Apply(Last(h), e.op)
    ensures Execution(h + [e])
  {
    RunExtend(h, e);
    assert InvAt(h, 0);
    assert InvAt(h + [e], 0);
  }
}
