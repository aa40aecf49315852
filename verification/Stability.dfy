/** What a server may still rely on after the others have moved. */
module Stability {
  import opened Types
  import opened Protocol
  import opened Invariant

  /** What any number of operations keeps. */
  ghost predicate Kept(s: State, s': State) {
    var d, a, d', a' := s.disk, s.aux, s'.disk, s'.aux;
    && a.used <= a'.used && a.born <= a'.born && a.purged <= a'.purged && a.retired <= a'.retired && a.begun <= a'.begun
    && (forall u :: u in a.kinds ==> u in a'.kinds && a'.kinds[u] == a.kinds[u])
    && a.tokens <= a'.tokens && a.log <= a'.log
    && (!LegacyMode(d) ==> !LegacyMode(d'))
    && (LegacyMode(d') ==> d.stack == d'.stack && d.legacyLock == d'.legacyLock)
    && (d'.legacyLock.Some? ==> d.legacyLock == d'.legacyLock)
    && (forall k :: k in d.blobs && k.ObjectKey? && k.incarnation !in a'.purged ==> k in d'.blobs)
  }

  lemma KeptStep(s: State, op: Op)
    requires Guard(s, op)
    ensures Kept(s, Apply(s, op))
  {
    if StackOp(op) {
      KeptStackStep(s, op);
    }
  }

  lemma KeptStackStep(s: State, op: Op)
    requires Guard(s, op) && StackOp(op)
    ensures Kept(s, Apply(s, op))
  {
  }

  lemma KeptTransitive(s: State, s': State, s'': State)
    requires Kept(s, s') && Kept(s', s'')
    ensures Kept(s, s'')
  {
  }

  lemma {:induction false} KeptRun(h: seq<Entry>, i: int, j: int)
    requires IsRun(h) && 0 <= i <= j < |h|
    ensures Kept(h[i].s, h[j].s)
  {
    if i < j {
      KeptRun(h, i, j - 1);
      assert StepAt(h, j);
      KeptStep(h[j - 1].s, h[j].op);
      KeptTransitive(h[i].s, h[j - 1].s, h[j].s);
    }
  }

  lemma {:induction false} ClaimsRun(h: seq<Entry>, i: int, j: int, inc: string, u: string, v: int)
    requires Execution(h) && 0 <= i <= j < |h|
    requires u in h[i].s.aux.retired && Claims(h[i].s, inc, u, v)
    ensures Claims(h[j].s, inc, u, v)
  {
    if i < j {
      ClaimsRun(h, i, j - 1, inc, u, v);
      KeptRun(h, i, j - 1);
      Reachable(h, j - 1);
      assert StepAt(h, j);
      ClaimsStep(h[j - 1].s, h[j].op, inc, u, v);
    }
  }

  // ---------------------------------------------------------------- update IDs a request has minted

  /** The update ID is not retired, and has acquired nothing outside this incarnation. */
  ghost predicate Unspent(s: State, u: string, inc: string) {
    u !in s.aux.retired && (u in s.aux.home ==> s.aux.home[u] == inc)
  }

  // ---------------------------------------------------------------- decisions and their writes

  /** A decision about the document `st`, taken from what was seen no later than h[k]. For a document that
      defers to lock.json, h[k] is where lock.json was read; if the document had changed by then, it has left
      that mode for good and the write cannot land. */
  ghost predicate DecidedAt(h: seq<Entry>, k: int, st: Stack, op: Op, doc: Option<Stack>) {
    && 0 <= k < |h| && StackOp(op)
    && (h[k].s.disk.stack == Some(st) ==> Guard(h[k].s, op) && StackAfter(h[k].s.disk, op) == doc)
    && (h[k].s.disk.stack != Some(st) ==> !UsesCanonicalLock(st))
  }

  ghost predicate Justified(h: seq<Entry>, k: int, st: Stack, op: Op, doc: Option<Stack>) {
    0 <= k < |h| && StackOp(op) && forall i | i == k :: DecidedAt(h, i, st, op, doc)
  }

  lemma JustifiedLater(h: seq<Entry>, h': seq<Entry>, k: int, st: Stack, op: Op, doc: Option<Stack>)
    requires Justified(h, k, st, op, doc) && h <= h'
    ensures Justified(h', k, st, op, doc)
  {
    assert DecidedAt(h, k, st, op, doc);
    assert h'[k] == h[k];
  }

  /** The heart of compare-and-swap: if the document still reads the same when the write arrives, the decision
      is one the current state allows, and its result is the one computed from the earlier read. */
  lemma DecisionStillHolds(h: seq<Entry>, k: int, st: Stack, op: Op, doc: Option<Stack>)
    requires IsRun(h) && Justified(h, k, st, op, doc)
    requires Last(h).disk.stack == Some(st)
    requires op.Acquire? ==> Unspent(Last(h), op.updateID, op.incarnation)
    ensures Guard(Last(h), op) && StackAfter(Last(h).disk, op) == doc
  {
    assert DecidedAt(h, k, st, op, doc);
    KeptRun(h, k, |h| - 1);
    assert Governing(st, h[k].s.disk.legacyLock) == Governing(st, Last(h).disk.legacyLock);
  }
}
