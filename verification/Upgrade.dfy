/** Stacks found in the bucket: what their checkpoints are, and that they stay so until the first commit. */
module Upgrade {
  import opened Types
  import opened Protocol
  import opened Invariant
  import opened Stability
  import opened Contracts
  import opened Outcomes

  /** Nothing has been committed in the incarnation, as far as the run knows. */
  ghost predicate Uncommitted(s: State, inc: string) {
    forall c :: c in s.aux.log ==> c.incarnation != inc
  }

  /** The files that answer for a document without pointers, and the pointers of the document. */
  ghost predicate SameCheckpoints(s: State, s': State, inc: string) {
    && (forall key: Key :: (key.LatestKey? || key.HistoryKey?) && key.incarnation == inc ==>
          && (key in s.disk.blobs <==> key in s'.disk.blobs)
          && (key in s.disk.blobs ==> s.disk.blobs[key] == s'.disk.blobs[key]))
    && (Current(s.disk, inc) && Current(s'.disk, inc) ==>
          && s.disk.stack.value.latestCheckpointKey == s'.disk.stack.value.latestCheckpointKey
          && s.disk.stack.value.checkpointVersions == s'.disk.stack.value.checkpointVersions)
  }

  lemma SameCheckpointsStep(s: State, op: Op, inc: string)
    requires Guard(s, op) && inc in s.aux.used && Uncommitted(Apply(s, op), inc) && inc !in s.aux.purged
    ensures SameCheckpoints(s, Apply(s, op), inc)
  {
    var s' := Apply(s, op);
    assert op.Publish? ==> op.commit in s'.aux.log;
    assert forall c :: c in s.aux.log ==> c in s'.aux.log;
  }

  /** As long as nothing is committed and no deletion begins, latest.json, the history files and the pointers of the
      document stay as they are. */
  lemma {:induction false} CheckpointsStand(h: seq<Entry>, i: int, j: int, inc: string)
    requires Execution(h) && 0 <= i <= j < |h| && Current(h[i].s.disk, inc) && Current(h[j].s.disk, inc)
    requires Uncommitted(h[j].s, inc) && inc !in h[j].s.aux.purged
    ensures SameCheckpoints(h[i].s, h[j].s, inc)
  {
    if i < j {
      Reachable(h, i);
      KeptRun(h, j - 1, j);
      KeptRun(h, i, j - 1);
      if !Current(h[j - 1].s.disk, inc) {
        GoneForGood(h, j - 1, j, inc);
      }
      CheckpointsStand(h, i, j - 1, inc);
      assert StepAt(h, j);
      SameCheckpointsStep(h[j - 1].s, h[j].op, inc);
    }
  }

  function Content(d: Disk, key: Key): Option<Deployment> {
    if key in d.blobs then Some(d.blobs[key]) else None
  }

  /** The law for upgraded stacks. A document without a pointer is at h[o]; while nothing is committed and no deletion
      begins, GetCheckpoint, reading the document at h[i] and the object at h[j], returns what latest.json held at h[o],
      and GetCheckpointVersion what the version's history file held. */
  lemma UpgradedReads(h: seq<Entry>, o: int, i: int, j: int, inc: string, version: int, read: Option<Deployment>)
    requires Execution(h) && 0 <= o <= i <= j < |h|
    requires Current(h[o].s.disk, inc) && Current(h[i].s.disk, inc) && Current(h[j].s.disk, inc)
    requires Uncommitted(h[j].s, inc) && inc !in h[j].s.aux.purged
    ensures h[o].s.disk.stack.value.latestCheckpointKey.None? ==>
              (AnswersLatest(h[j].s.disk, h[i].s.disk.stack.value, read) <==> read == Content(h[o].s.disk, LatestKey(inc)))
    ensures version !in h[o].s.disk.stack.value.checkpointVersions ==>
              (AnswersVersion(h[j].s.disk, h[i].s.disk.stack.value, version, read)
               <==> read == Content(h[o].s.disk, HistoryKey(inc, version)))
  {
    KeptRun(h, i, j);
    assert Uncommitted(h[i].s, inc) by {
      assert forall c :: c in h[i].s.aux.log ==> c in h[j].s.aux.log;
    }
    CheckpointsStand(h, o, i, inc);
    CheckpointsStand(h, o, j, inc);
  }

  /** A checkpoint object never changes, and goes only when a deletion begins: a document that points to one that is
      there is answered by it for good. */
  lemma {:induction false} ObjectsAreImmutable(h: seq<Entry>, i: int, j: int, key: Key)
    requires IsRun(h) && 0 <= i <= j < |h| && key.ObjectKey? && key in h[i].s.disk.blobs && key.incarnation !in h[j].s.aux.purged
    ensures Content(h[j].s.disk, key) == Content(h[i].s.disk, key)
  {
    if i < j {
      KeptRun(h, j - 1, j);
      ObjectsAreImmutable(h, i, j - 1, key);
      assert StepAt(h, j);
    }
  }

  lemma PointedReads(h: seq<Entry>, i: int, j: int, key: Key, read: Option<Deployment>)
    requires IsRun(h) && 0 <= i <= j < |h| && key.ObjectKey? && key in h[i].s.disk.blobs && key.incarnation !in h[j].s.aux.purged
    requires h[i].s.disk.stack.Some? && h[i].s.disk.stack.value.latestCheckpointKey == Some(key)
    ensures AnswersLatest(h[j].s.disk, h[i].s.disk.stack.value, read) <==> read == Content(h[i].s.disk, key)
  {
    ObjectsAreImmutable(h, i, j, key);
  }
}
