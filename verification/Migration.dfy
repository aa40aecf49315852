/** The one-way move of the lock from lock.json into stack.json. */
module Migration {
  import opened Types
  import opened Protocol
  import opened Stability

  /** The step at h[i] takes the stack out of legacy mode. */
  ghost predicate Migrates(h: seq<Entry>, i: int) {
    0 < i < |h| && LegacyMode(h[i - 1].s.disk) && !LegacyMode(h[i].s.disk)
  }

  /** Of all contenders' migrations exactly one takes effect. */
  lemma OneMigration(h: seq<Entry>, i: int, j: int)
    requires IsRun(h) && Migrates(h, i) && Migrates(h, j)
    ensures i == j
  {
    if i < j {
      KeptRun(h, i, j - 1);
    } else if j < i {
      KeptRun(h, j, i - 1);
    }
  }

  /** It is an acquire, a renewal or a release, decided against the lock.json in force at that moment, and leaves
      the marker behind. */
  lemma MigrationIsALockStep(h: seq<Entry>, i: int)
    requires IsRun(h) && Migrates(h, i)
    ensures h[i].op.Acquire? || h[i].op.Renew? || h[i].op.Release?
    ensures h[i].s.disk.stack.Some? && h[i].s.disk.stack.value.lockProtocol == CANONICAL_LOCK_PROTOCOL
    ensures Holder(h[i - 1].s.disk) == h[i - 1].s.disk.legacyLock
    ensures h[i].op.Renew? || h[i].op.Release? ==>
              h[i].s.disk.stack.value.fence >= GenerationOf(h[i - 1].s.disk.legacyLock)
  {
    assert StepAt(h, i);
  }

  /** Once out of legacy mode the stack, and any successor, stays out of it: the lock in force is the one in
      stack.json whatever lock.json says. */
  lemma CanonicalForever(h: seq<Entry>, i: int, j: int)
    requires IsRun(h) && 0 <= i <= j < |h| && !LegacyMode(h[i].s.disk)
    ensures !LegacyMode(h[j].s.disk)
    ensures h[j].s.disk.stack.Some? ==> Holder(h[j].s.disk) == h[j].s.disk.stack.value.lock
  {
    KeptRun(h, i, j);
  }

  function WithLegacy(s: State, legacy: Option<Lock>): State {
    s.(disk := s.disk.(legacyLock := legacy))
  }

  /** A leftover lock.json can neither grant nor block nor revive anything: out of legacy mode, whatever stands in
      lock.json, exactly the same operations are possible and they have the same effect on everything else. */
  lemma LeftoverIsInert(s: State, op: Op, legacy: Option<Lock>)
    requires !LegacyMode(s.disk) && !op.DropLegacy?
    ensures Guard(s, op) <==> Guard(WithLegacy(s, legacy), op)
    ensures Guard(s, op) ==>
              WithLegacy(Apply(WithLegacy(s, legacy), op), None) == WithLegacy(Apply(s, op), None)
  {
    LeftoverPermitsNothing(s, op, legacy);
    assert Holder(s.disk) == Holder(WithLegacy(s, legacy).disk);
  }

  lemma LeftoverPermitsNothing(s: State, op: Op, legacy: Option<Lock>)
    requires !LegacyMode(s.disk) && !op.DropLegacy?
    ensures Guard(s, op) <==> Guard(WithLegacy(s, legacy), op)
  {
    var s' := WithLegacy(s, legacy);
    assert Holder(s.disk) == Holder(s'.disk);
    if s.disk.stack.Some? {
      assert Ceiling(s.disk.stack.value, s.disk.legacyLock) == Ceiling(s'.disk.stack.value, s'.disk.legacyLock);
    }
  }
}
