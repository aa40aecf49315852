/** The simple machine the protocol refines: one lock, one ceiling on generations, one version counter, one
    index of checkpoints. It knows nothing of documents, markers, migrations, attempts or lost responses. */
module OneLock {
  import opened Types
  import opened Protocol
  import opened Invariant

  datatype Machine =
    | NoStack
    | TheStack(incarnation: string, holder: Option<Lock>, ceiling: nat, version: int, latest: Option<Key>, index: map<int, Key>)

  /** stack.json and lock.json, one lock: how the bucket implements the machine. */
  function Abstract(d: Disk): Machine {
    if d.stack.None? then NoStack
    else
      var st := d.stack.value;
      TheStack(st.incarnation, Holder(d), Ceiling(st, d.legacyLock), st.version, st.latestCheckpointKey, st.checkpointVersions)
  }

  predicate Granted(m: Machine, n: Machine, now: int) {
    && m.TheStack? && n.TheStack? && n.holder.Some?
    && (m.holder.Some? ==> m.holder.value.Expired(now) && (DeletionID(m.holder.value.updateID) ==> DeletionID(n.holder.value.updateID)))
    && n.holder.value.generation > m.ceiling
    && n == m.(holder := n.holder, ceiling := n.holder.value.generation)
  }

  predicate Extended(m: Machine, n: Machine, now: int) {
    && m.TheStack? && n.TheStack? && m.holder.Some? && n.holder.Some? && !m.holder.value.Expired(now)
    && n.holder.value.updateID == m.holder.value.updateID && n.holder.value.owner == m.holder.value.owner
    && (if m.holder.value.generation > 0 then n.holder.value.generation == m.holder.value.generation
        else n.holder.value.generation > m.ceiling)
    && n == m.(holder := n.holder, ceiling := Max(m.ceiling, n.holder.value.generation))
  }

  predicate Freed(m: Machine, n: Machine, updateID: string, generation: nat) {
    && m.TheStack? && m.holder.Some? && m.holder.value.updateID == updateID
    && (generation != 0 ==> m.holder.value.generation == generation)
    && n == m.(holder := None)
  }

  predicate Advanced(m: Machine, n: Machine, updateID: string) {
    && m.TheStack? && m.holder.Some? && m.holder.value.updateID == updateID && !DeletionID(updateID)
    && n == m.(version := m.version + 1)
  }

  predicate Published(m: Machine, n: Machine, c: Commit) {
    && m.TheStack? && m.incarnation == c.incarnation && m.version == c.version
    && (if m.holder.None? then c.updateID == "" && c.version == 0
        else m.holder.value.updateID == c.updateID && m.holder.value.generation == c.generation && !DeletionID(c.updateID))
    && n == m.(latest := Some(CheckpointObject(c.incarnation, c.deployment)),
               index := m.index[c.version := CheckpointObject(c.incarnation, c.deployment)])
  }

  predicate Removed(m: Machine, n: Machine, updateID: string, generation: nat) {
    && m.TheStack? && m.holder.Some? && m.holder.value.updateID == updateID && m.holder.value.generation == generation
    && DeletionID(updateID) && n == NoStack
  }

  /** One move of the machine, named after the operation that causes it; every operation not listed leaves the
      machine as it is. */
  ghost predicate Moves(m: Machine, op: Op, n: Machine) {
    match op
    case Create(inc, _) => m == NoStack && n == TheStack(inc, None, 0, 0, None, map[])
    case Acquire(inc, u, owner, now, exp, gen) =>
      && (Granted(m, n, now) || Extended(m, n, now))
      && n.incarnation == inc && n.holder == Some(Lock(u, owner, exp, gen))
    case Renew(u, now, exp, gen) => Extended(m, n, now) && n.holder.value == Lock(u, n.holder.value.owner, exp, gen)
    case Release(u, gen) => Freed(m, n, u, gen)
    case Bump(_, u, _, v, _, _) => Advanced(m, n, u) && n.version == v
    case Publish(c, _) => Published(m, n, c)
    case Remove(_, u, gen, _) => Removed(m, n, u, gen)
    case _ => m == n
  }

  /** Refinement: along every execution, with any interleaving and any writes that landed but were reported
      lost, each step of the bucket is one move of the machine, or none, from its exact current state. */
  lemma EveryStepIsAMove(h: seq<Entry>, i: int)
    requires Execution(h) && 0 < i < |h|
    ensures Moves(Abstract(h[i - 1].s.disk), h[i].op, Abstract(h[i].s.disk))
  {
    Reachable(h, i - 1);
    assert StepAt(h, i);
    StepIsAMove(h[i - 1].s, h[i].op);
  }

  lemma StepIsAMove(s: State, op: Op)
    requires LockInv(s) && Guard(s, op)
    ensures Moves(Abstract(s.disk), op, Abstract(Apply(s, op).disk))
  {
    if StackOp(op) {
      StackOpIsAMove(s, op);
    }
  }

  lemma StackOpIsAMove(s: State, op: Op)
    requires LockInv(s) && Guard(s, op) && StackOp(op)
    ensures Moves(Abstract(s.disk), op, Abstract(Apply(s, op).disk))
  {
  }
}
