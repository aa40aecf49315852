/** Version numbers, the checkpoint index and update records over whole runs. */
module Versions {
  import opened Types
  import opened Protocol
  import opened Invariant
  import opened Stability
  import opened Contracts

  // ---------------------------------------------------------------- version ownership

  ghost predicate BumpedBy(s: State, inc: string, v: int, u: string) {
    (inc, v) in s.aux.bumped && s.aux.bumped[(inc, v)] == u
  }

  /** Within an incarnation Version moves only by one, and only at the hands of the update that holds the stack. */
  lemma VersionMovesByOne(h: seq<Entry>, i: int, inc: string)
    requires Execution(h) && 0 < i < |h| && Current(h[i - 1].s.disk, inc) && Current(h[i].s.disk, inc)
    ensures
      var was, next := h[i - 1].s.disk.stack.value.version, h[i].s.disk.stack.value.version;
      || next == was
      || (next == was + 1 && h[i].op.Bump? && HeldBy(h[i - 1].s.disk, h[i].op.updateID)
          && BumpedBy(h[i].s, inc, next, h[i].op.updateID))
  {
    assert StepAt(h, i);
  }

  lemma {:induction false} BumpedForever(h: seq<Entry>, i: int, j: int, inc: string, v: int, u: string)
    requires Execution(h) && 0 <= i <= j < |h| && BumpedBy(h[i].s, inc, v, u)
    ensures BumpedBy(h[j].s, inc, v, u)
  {
    if i < j {
      BumpedForever(h, i, j - 1, inc, v, u);
      Reachable(h, j - 1);
      assert StepAt(h, j);
    }
  }

  /** No two updates are ever both told that they own a version. */
  lemma OneOwnerPerVersion(h: seq<Entry>, i: int, j: int, inc: string, v: int, u: string, w: string)
    requires Execution(h) && 0 <= i <= j < |h|
    requires OwnsVersion(h[i].s, inc, u, v) && OwnsVersion(h[j].s, inc, w, v)
    ensures u == w
  {
    BumpedForever(h, i, j, inc, v, u);
  }

  /** What the number of a record says: it is at most one ahead of Version while its update holds the stack, and once
      Version has reached it, it was this update that moved it there. So if the update owns a version, its record carries
      that number, the next one, which is not yet taken, or an earlier one of its own. */
  lemma RecordedVersionIsClaimed(h: seq<Entry>, k: int, inc: string, u: string, v: int)
    requires Execution(h) && RecordAt(h, k, inc, u) && !h[k].s.disk.updates[UpdateKey(inc, u)].kind.Preview?
    ensures
      var w := h[k].s.disk.updates[UpdateKey(inc, u)].version;
      && Claims(h[k].s, inc, u, w)
      && (OwnsVersion(h[k].s, inc, u, v) ==>
            w == v || (w == v + 1 && (inc, w) !in h[k].s.aux.bumped) || (w < v && BumpedBy(h[k].s, inc, w, u)))
  {
    Reachable(h, k);
  }

  /** While the incarnation lasts, Version stays at least this. */
  ghost predicate AtLeast(s: State, inc: string, v: int) {
    inc in s.aux.used && (Current(s.disk, inc) ==> s.disk.stack.value.version >= v)
  }

  lemma {:induction false} AtLeastRun(h: seq<Entry>, i: int, j: int, inc: string, v: int)
    requires Execution(h) && 0 <= i <= j < |h| && AtLeast(h[i].s, inc, v)
    ensures AtLeast(h[j].s, inc, v)
  {
    if i < j {
      AtLeastRun(h, i, j - 1, inc, v);
      assert StepAt(h, j);
    }
  }

  /** However often a record is replayed, Version moves to its number at most once: successive moves in an
      incarnation reach strictly increasing numbers. */
  lemma VersionReachedOnce(h: seq<Entry>, i: int, j: int)
    requires Execution(h) && 0 < i < j < |h| && h[i].op.Bump?
    requires h[j].op.Bump? && h[i].op.incarnation == h[j].op.incarnation
    ensures h[i].op.version < h[j].op.version
  {
    assert StepAt(h, i) && StepAt(h, j);
    Reachable(h, i);
    AtLeastRun(h, i, j - 1, h[i].op.incarnation, h[i].op.version);
  }

  // ---------------------------------------------------------------- the checkpoint index

  /** In every reachable state no indexed version is above Version, and the latest pointer is the entry of the
      greatest one. */
  lemma IndexHolds(h: seq<Entry>, i: int, v: int)
    requires Execution(h) && 0 <= i < |h| && h[i].s.disk.stack.Some?
    ensures
      var st := h[i].s.disk.stack.value;
      && (v in st.checkpointVersions ==> v <= st.version)
      && (IsTop(st, v) && st.latestCheckpointKey.Some? ==> st.checkpointVersions[v] == st.latestCheckpointKey.value)
  {
    Reachable(h, i);
  }

  ghost predicate Sealed(s: State, inc: string, v: int, pointer: Option<Key>) {
    && inc in s.aux.used
    && (Current(s.disk, inc) ==> v < s.disk.stack.value.version && PointerAt(s.disk.stack.value, v) == pointer)
  }

  lemma {:induction false} SealedRun(h: seq<Entry>, i: int, j: int, inc: string, v: int, pointer: Option<Key>)
    requires Execution(h) && 0 <= i <= j < |h| && Sealed(h[i].s, inc, v, pointer)
    ensures Sealed(h[j].s, inc, v, pointer)
  {
    if i < j {
      SealedRun(h, i, j - 1, inc, v, pointer);
      assert StepAt(h, j);
    }
  }

  /** Once Version has passed v, the entry for v never changes. */
  lemma PastEntriesNeverChange(h: seq<Entry>, i: int, j: int, inc: string, v: int)
    requires Execution(h) && 0 <= i <= j < |h| && Current(h[i].s.disk, inc) && Current(h[j].s.disk, inc)
    requires v < h[i].s.disk.stack.value.version
    ensures PointerAt(h[j].s.disk.stack.value, v) == PointerAt(h[i].s.disk.stack.value, v)
  {
    Reachable(h, i);
    SealedRun(h, i, j, inc, v, PointerAt(h[i].s.disk.stack.value, v));
  }

  // ---------------------------------------------------------------- the status machine

  function Rank(s: Status): nat {
    if s.NotStarted? then 0 else if s.InProgress? then 1 else 2
  }

  /** What may happen to a record in one step, under any concurrent starts, completions, cancellations and
      rollbacks: nothing, one move of the status machine that leaves the rest of its identity alone, or removal:
      by the rollback of a record that never started, or by a deletion. */
  lemma RecordStep(h: seq<Entry>, i: int, key: Key)
    requires Execution(h) && 0 < i < |h| && key in h[i - 1].s.disk.updates
    ensures
      var was := h[i - 1].s.disk.updates[key];
      if key in h[i].s.disk.updates then
        var next := h[i].s.disk.updates[key];
        next == was || (StatusStep(was.status, next.status) && next.id == was.id && next.kind == was.kind && next.version == was.version)
      else
        was.status.NotStarted? || (key.UpdateKey? && key.incarnation in h[i].s.aux.purged)
  {
    Reachable(h, i - 1);
    assert StepAt(h, i);
  }

  /** A record that has left not-started survives until a deletion begins, never goes back, and once it has a
      terminal status is never changed again, so at most one is ever recorded. */
  lemma {:induction false} RecordsOnlyAdvance(h: seq<Entry>, i: int, j: int, key: Key)
    requires Execution(h) && 0 <= i <= j < |h| && key.UpdateKey? && key in h[i].s.disk.updates
    requires !h[i].s.disk.updates[key].status.NotStarted? && key.incarnation !in h[j].s.aux.purged
    ensures key in h[j].s.disk.updates
    ensures Rank(h[i].s.disk.updates[key].status) <= Rank(h[j].s.disk.updates[key].status)
    ensures h[i].s.disk.updates[key].status.Terminal() ==> h[j].s.disk.updates[key] == h[i].s.disk.updates[key]
    ensures h[j].s.disk.updates[key].version == h[i].s.disk.updates[key].version
    ensures h[j].s.disk.updates[key].kind == h[i].s.disk.updates[key].kind
  {
    if i < j {
      KeptRun(h, j - 1, j);
      RecordsOnlyAdvance(h, i, j - 1, key);
      RecordStep(h, j, key);
    }
  }
}
