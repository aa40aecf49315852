/** Two-step checkpoint reads against the commit log. */
module Reads {
  import opened Types
  import opened Decimal
  import opened Protocol
  import opened Invariant
  import opened Stability

  function ReadBlob(d: Disk, key: Key): Option<Deployment> {
    if key in d.blobs then Some(d.blobs[key]) else None
  }

  /** Where GetCheckpoint looks, given the document. */
  function LatestLocation(st: Stack): Key {
    if st.latestCheckpointKey.Some? then st.latestCheckpointKey.value else LatestKey(st.incarnation)
  }

  /** Where GetCheckpointVersion looks. */
  function HistoryLocation(st: Stack, version: int): Key {
    if version in st.checkpointVersions then st.checkpointVersions[version] else HistoryKey(st.incarnation, version)
  }

  lemma {:induction false} LastIsCommitted(log: seq<Commit>, inc: string, version: int)
    ensures LastCommit(log, inc).Some? ==> Committed(log, inc, LastCommit(log, inc).value)
    ensures LastCommitAt(log, inc, version).Some? ==>
              CommittedAt(log, inc, version, LastCommitAt(log, inc, version).value)
  {
    if log != [] {
      LastIsCommitted(log[..|log| - 1], inc, version);
      assert forall c :: c in log[..|log| - 1] ==> c in log;
      assert log[|log| - 1] in log;
    }
  }

  lemma {:induction false} CommittedHasLast(log: seq<Commit>, inc: string, version: int, dep: Deployment)
    ensures Committed(log, inc, dep) ==> LastCommit(log, inc).Some?
    ensures CommittedAt(log, inc, version, dep) ==> LastCommitAt(log, inc, version).Some?
  {
    if log != [] {
      CommittedHasLast(log[..|log| - 1], inc, version, dep);
      assert forall c :: c in log ==> c in log[..|log| - 1] || c == log[|log| - 1];
    }
  }

  /** The object of the last commit is not in the bucket; a deletion has begun to remove the incarnation's objects. */
  ghost predicate Missing(s: State, inc: string, last: Option<Deployment>) {
    last.Some? && CheckpointObject(inc, last.value) !in s.disk.blobs && inc in s.aux.purged
  }

  /** What was read is the last commit; or nothing was read, because the object of the last commit is missing. */
  ghost predicate ReadsCommit(s: State, inc: string, read: Option<Deployment>, last: Option<Deployment>) {
    read == last || (read.None? && Missing(s, inc, last))
  }

  /** A committed checkpoint's object, if it is there, reads back as what was committed. */
  lemma ObjectReadsBack(s: State, inc: string, dep: Deployment)
    requires BlobInv(s) && Committed(s.aux.log, inc, dep)
    ensures ReadsCommit(s, inc, ReadBlob(s.disk, CheckpointObject(inc, dep)), Some(dep))
  {
    var key := CheckpointObject(inc, dep);
    if key in s.disk.blobs {
      DigestInjective(s.disk.blobs[key], dep);
    }
  }

  /** Nothing committed at h[i], this committed at h[j]: at some moment in between it was the last commit. */
  lemma {:induction false} WhenLast(h: seq<Entry>, i: int, j: int, inc: string, dep: Deployment) returns (k: int)
    requires IsRun(h) && 0 <= i <= j < |h|
    requires LastCommit(h[i].s.aux.log, inc).None? && Committed(h[j].s.aux.log, inc, dep)
    ensures i <= k <= j && LastCommit(h[k].s.aux.log, inc) == Some(dep)
  {
    CommittedHasLast(h[i].s.aux.log, inc, 0, dep);
    if Committed(h[j - 1].s.aux.log, inc, dep) {
      k := WhenLast(h, i, j - 1, inc, dep);
    } else {
      assert StepAt(h, j);
      var c :| c in h[j].s.aux.log && c.incarnation == inc && c.deployment == dep;
      assert h[j].op.Publish? && c == h[j].op.commit;
      LogAppend(h[j - 1].s.aux.log, c, inc, 0);
      k := j;
    }
  }

  lemma {:induction false} WhenLastAt(h: seq<Entry>, i: int, j: int, inc: string, version: int, dep: Deployment)
    returns (k: int)
    requires IsRun(h) && 0 <= i <= j < |h|
    requires LastCommitAt(h[i].s.aux.log, inc, version).None? && CommittedAt(h[j].s.aux.log, inc, version, dep)
    ensures i <= k <= j && LastCommitAt(h[k].s.aux.log, inc, version) == Some(dep)
  {
    CommittedHasLast(h[i].s.aux.log, inc, version, dep);
    if CommittedAt(h[j - 1].s.aux.log, inc, version, dep) {
      k := WhenLastAt(h, i, j - 1, inc, version, dep);
    } else {
      assert StepAt(h, j);
      var c :| c in h[j].s.aux.log && c.incarnation == inc && c.version == version && c.deployment == dep;
      assert h[j].op.Publish? && c == h[j].op.commit;
      LogAppend(h[j - 1].s.aux.log, c, inc, version);
      k := j;
    }
  }

  /** GetCheckpoint reads the document at h[i] and the place it names at h[j]. What it reads, if anything, is the
      last commit as of some moment in between; copies that land late and fall-back keys change nothing. If it
      reads nothing, there was no commit, or a deletion has removed the object of the last one. */
  lemma LatestReadAgrees(h: seq<Entry>, i: int, j: int, inc: string) returns (k: int)
    requires Execution(h) && 0 <= i <= j < |h|
    requires Current(h[i].s.disk, inc) && inc in h[i].s.aux.born
    ensures i <= k <= j
    ensures ReadsCommit(h[j].s, inc, ReadBlob(h[j].s.disk, LatestLocation(h[i].s.disk.stack.value)), LastCommit(h[k].s.aux.log, inc))
  {
    Reachable(h, i);
    Reachable(h, j);
    KeptRun(h, i, j);
    var last := LastCommit(h[i].s.aux.log, inc);
    LastIsCommitted(h[i].s.aux.log, inc, 0);
    if last.Some? {
      assert forall c :: c in h[i].s.aux.log ==> c in h[j].s.aux.log;
      ObjectReadsBack(h[j].s, inc, last.value);
      k := i;
    } else if LatestKey(inc) in h[j].s.disk.blobs {
      k := WhenLast(h, i, j, inc, h[j].s.disk.blobs[LatestKey(inc)]);
    } else {
      k := i;
    }
  }

  /** The same for GetCheckpointVersion and the last commit at that version. */
  lemma VersionReadAgrees(h: seq<Entry>, i: int, j: int, inc: string, version: int) returns (k: int)
    requires Execution(h) && 0 <= i <= j < |h|
    requires Current(h[i].s.disk, inc) && inc in h[i].s.aux.born
    ensures i <= k <= j
    ensures
      var read := ReadBlob(h[j].s.disk, HistoryLocation(h[i].s.disk.stack.value, version));
      ReadsCommit(h[j].s, inc, read, LastCommitAt(h[k].s.aux.log, inc, version))
  {
    Reachable(h, i);
    Reachable(h, j);
    KeptRun(h, i, j);
    var last := LastCommitAt(h[i].s.aux.log, inc, version);
    LastIsCommitted(h[i].s.aux.log, inc, version);
    assert PointerAt(h[i].s.disk.stack.value, version) == PointerTo(inc, last);
    if last.Some? {
      assert forall c :: c in h[i].s.aux.log ==> c in h[j].s.aux.log;
      assert Committed(h[j].s.aux.log, inc, last.value);
      ObjectReadsBack(h[j].s, inc, last.value);
      k := i;
    } else if HistoryKey(inc, version) in h[j].s.disk.blobs {
      k := WhenLastAt(h, i, j, inc, version, h[j].s.disk.blobs[HistoryKey(inc, version)]);
    } else {
      k := i;
    }
  }
}
