/** The shared bucket as a transition system. One Op is one atomic effect on the bucket, or one piece of
    bookkeeping; Guard says when it may happen and Apply what it does. The guards speak of the current
    state alone: that every server's writes obey them, whatever the others do between its reads and its
    writes, is proved in module Store. */
module Protocol {
  import opened Types

  /** One committed checkpoint. */
  datatype Commit = Commit(incarnation: string, updateID: string, generation: nat, version: int, deployment: Deployment)

  /** What has happened so far, as far as the protocol's guarantees mention it. */
  datatype Aux = Aux(
    used: set<string>,                        // incarnations that exist or existed
    born: set<string>,                        // those made by CreateStack and followed since
    purged: set<string>,                      // those whose objects a deletion has begun to remove
    retired: set<string>,                     // update IDs whose one AcquireLock call is over
    kinds: map<string, Kind>,                 // update IDs minted, and for which kind of update
    begun: set<(string, string)>,             // (incarnation, update ID) of creations that have read the stack unfenced
    home: map<string, string>,                // the incarnation an update ID acquired the lock in
    issued: map<(string, nat), (string, string)>, // (incarnation, generation) to (update ID, owner)
    bumped: map<(string, int), string>,       // (incarnation, version) to the update ID that moved Version there
    tokens: set<(string, nat)>,               // (update ID, generation) of the update tokens handed out
    log: seq<Commit>)                         // every committed checkpoint, oldest first

  datatype State = State(disk: Disk, aux: Aux)

  datatype Op =
    // stack.json
    | Create(incarnation: string, created: int)
    | Acquire(incarnation: string, updateID: string, owner: string, now: int, expiresAt: int, generation: nat)
    | Renew(updateID: string, now: int, expiresAt: int, generation: nat)
    | Release(updateID: string, generation: nat)
    | Barrier(incarnation: string, updateID: string)
    | Bump(incarnation: string, updateID: string, generation: nat, version: int, now: int, stamp: int)
    | Publish(commit: Commit, now: int)
    | Remove(incarnation: string, updateID: string, generation: nat, now: int)
    // update records
    | PutRecord(incarnation: string, record: Update)
    | SetRecord(incarnation: string, was: Update, record: Update)
    | DropRecord(incarnation: string, was: Update)
    // checkpoint objects and their copies
    | PutObject(incarnation: string, deployment: Deployment)
    | CopyHistory(incarnation: string, version: int, deployment: Deployment)
    | CopyLatest(incarnation: string, deployment: Deployment)
    // deletion and migration
    | Purge(incarnation: string)
    | Erase(key: Key)
    | DropLegacy(lock: Lock)
    // bookkeeping
    | Mint(updateID: string, kind: Kind)
    | Begin(incarnation: string, updateID: string)
    | Retire(updateID: string)
    | IssueToken(updateID: string, generation: nat)
    | GiveUp(updateID: string, generation: nat)

  // ---------------------------------------------------------------- the lock in force

  /** The lock that governs a stack document next to a given lock.json. */
  function Governing(st: Stack, legacy: Option<Lock>): Option<Lock> {
    if st.lock.Some? then st.lock else if UsesCanonicalLock(st) then None else legacy
  }

  function Holder(d: Disk): Option<Lock> {
    if d.stack.None? then None else Governing(d.stack.value, d.legacyLock)
  }

  function GenerationOf(lock: Option<Lock>): nat {
    if lock.Some? then lock.value.generation else 0
  }

  /** No generation above this one has been handed out in the incarnation. */
  function Ceiling(st: Stack, legacy: Option<Lock>): nat {
    Max(st.fence, GenerationOf(Governing(st, legacy)))
  }

  predicate HeldBy(d: Disk, updateID: string) {
    Holder(d).Some? && Holder(d).value.updateID == updateID
  }

  predicate Current(d: Disk, incarnation: string) {
    d.stack.Some? && d.stack.value.incarnation == incarnation
  }

  /** lock.json is still consulted. */
  predicate LegacyMode(d: Disk) {
    d.stack.Some? && !UsesCanonicalLock(d.stack.value)
  }

  /** A generation is kept, and only a missing one is replaced, by one never used before. */
  predicate KeepsGeneration(was: nat, ceiling: nat, generation: nat) {
    if was > 0 then generation == was else generation > ceiling
  }

  // ---------------------------------------------------------------- the commit log

  ghost function LastCommit(log: seq<Commit>, incarnation: string): Option<Deployment> {
    if log == [] then None
    else
      var c := log[|log| - 1];
      if c.incarnation == incarnation then Some(c.deployment) else LastCommit(log[..|log| - 1], incarnation)
  }

  ghost function LastCommitAt(log: seq<Commit>, incarnation: string, version: int): Option<Deployment> {
    if log == [] then None
    else
      var c := log[|log| - 1];
      if c.incarnation == incarnation && c.version == version then Some(c.deployment)
      else LastCommitAt(log[..|log| - 1], incarnation, version)
  }

  ghost predicate CommittedAt(log: seq<Commit>, incarnation: string, version: int, deployment: Deployment) {
    exists c :: c in log && c.incarnation == incarnation && c.version == version && c.deployment == deployment
  }

  ghost predicate Committed(log: seq<Commit>, incarnation: string, deployment: Deployment) {
    exists c :: c in log && c.incarnation == incarnation && c.deployment == deployment
  }

  // ---------------------------------------------------------------- version claims

  /** A record of the update numbered `version` is truthful: if the update holds the stack, the number is at
      most one ahead of Version, and once Version has reached it, it was this update that moved it there. */
  ghost predicate Claims(s: State, incarnation: string, updateID: string, version: int) {
    Current(s.disk, incarnation) && HeldBy(s.disk, updateID) ==>
      var at := s.disk.stack.value.version;
      && version <= at + 1
      && (version <= at ==> (incarnation, version) in s.aux.bumped && s.aux.bumped[(incarnation, version)] == updateID)
  }

  predicate StatusStep(was: Status, next: Status) {
    || (was.NotStarted? && (next.InProgress? || next.Cancelled?))
    || (was.InProgress? && next.Terminal())
  }

  // ---------------------------------------------------------------- when an operation may happen

  /** Nobody holds the stack, or the lease has run out, or the asker holds it already; a deletion fence
      yields to deletions alone. */
  predicate AcquireGuard(d: Disk, updateID: string, owner: string, now: int, generation: nat)
    requires d.stack.Some?
  {
    var ceiling := Ceiling(d.stack.value, d.legacyLock);
    && generation > 0
    && match Holder(d)
       case None => generation > ceiling
       case Some(l) =>
         && (DeletionID(l.updateID) ==> DeletionID(updateID))
         && if l.Expired(now) then generation > ceiling
            else l.updateID == updateID && l.owner == owner && KeepsGeneration(l.generation, ceiling, generation)
  }

  /** The document names this live, non-deletion lock. */
  predicate LiveLock(st: Stack, updateID: string, generation: nat, now: int) {
    && st.lock.Some?
    && st.lock.value.updateID == updateID
    && st.lock.value.generation == generation
    && !st.lock.value.Expired(now)
  }

  ghost predicate PublishGuard(st: Stack, c: Commit, now: int) {
    if c.updateID == "" then
      c.incarnation != "" && c.generation == 0 && c.version == 0 && st.version == 0 && st.lock.None?
    else
      !DeletionID(c.updateID) && LiveLock(st, c.updateID, c.generation, now) && st.version == c.version
  }

  predicate Erasable(d: Disk, purged: set<string>, key: Key) {
    match key
    case StackKey => false
    case LockKey => "" in purged && !LegacyMode(d)
    case _ => key.incarnation in purged
  }

  ghost predicate Guard(s: State, op: Op) {
    var d, a := s.disk, s.aux;
    match op
    case Create(inc, _) => d.stack.None? && inc != "" && inc !in a.used
    case Acquire(inc, u, owner, now, _, gen) =>
      && Current(d, inc) && u !in a.retired && (u in a.home ==> a.home[u] == inc)
      && AcquireGuard(d, u, owner, now, gen)
    case Renew(u, now, _, gen) =>
      && HeldBy(d, u) && !Holder(d).value.Expired(now)
      && KeepsGeneration(Holder(d).value.generation, Ceiling(d.stack.value, d.legacyLock), gen)
    case Release(u, gen) => HeldBy(d, u) && (gen != 0 ==> Holder(d).value.generation == gen)
    case Barrier(inc, _) => Current(d, inc) && !DeletionFence(d.stack.value.lock)
    case Bump(inc, u, gen, v, now, _) =>
      && Current(d, inc) && !DeletionID(u) && LiveLock(d.stack.value, u, gen, now) && v == d.stack.value.version + 1
    case Publish(c, now) =>
      && Current(d, c.incarnation) && PublishGuard(d.stack.value, c, now)
      && (CheckpointObject(c.incarnation, c.deployment) in d.blobs || c.incarnation in a.purged)
    case Remove(inc, u, gen, now) => Current(d, inc) && DeletionID(u) && LiveLock(d.stack.value, u, gen, now)
    case PutRecord(inc, r) =>
      && UpdateKey(inc, r.id) !in d.updates && r.status.NotStarted?
      && r.id in a.kinds && a.kinds[r.id] == r.kind && (inc, r.id) in a.begun
      && (!r.kind.Preview? ==> r.id in a.retired && !DeletionID(r.id) && Claims(s, inc, r.id, r.version))
    case SetRecord(inc, was, r) =>
      && UpdateKey(inc, was.id) in d.updates && d.updates[UpdateKey(inc, was.id)] == was
      && StatusStep(was.status, r.status) && r.id == was.id && r.kind == was.kind && r.version == was.version
    case DropRecord(inc, was) =>
      UpdateKey(inc, was.id) in d.updates && d.updates[UpdateKey(inc, was.id)] == was && was.status.NotStarted?
    case PutObject(inc, dep) => CheckpointObject(inc, dep) !in d.blobs
    case CopyHistory(inc, v, dep) => CommittedAt(a.log, inc, v, dep)
    case CopyLatest(inc, dep) => Committed(a.log, inc, dep)
    case Purge(inc) => Current(d, inc) && DeletionFence(d.stack.value.lock)
    case Erase(key) => Erasable(d, a.purged, key)
    case DropLegacy(l) => d.legacyLock == Some(l) && !LegacyMode(d)
    case Mint(u, _) => u !in a.kinds
    case Begin(inc, _) => Current(d, inc) && !DeletionFence(d.stack.value.lock)
    case Retire(_) => true
    case GiveUp(_, _) => true
    case IssueToken(u, gen) =>
      gen > 0 ==> u in a.retired && (HeldBy(d, u) ==> Holder(d).value.generation == gen)
  }

  // ---------------------------------------------------------------- what an operation does

  function NewStack(incarnation: string, created: int): Stack {
    Stack(0, created, 0, incarnation, CANONICAL_LOCK_PROTOCOL, 0, None, None, map[])
  }

  /** The document with this lock in force. */
  function WithLock(st: Stack, lock: Lock): Stack {
    st.(lock := Some(lock), fence := Max(st.fence, lock.generation), lockProtocol := CANONICAL_LOCK_PROTOCOL)
  }

  /** The document after the governing lock of the given generation was given up. */
  function WithoutLock(st: Stack, generation: nat): Stack {
    st.(lock := None, fence := Max(st.fence, generation), lockProtocol := CANONICAL_LOCK_PROTOCOL)
  }

  function WithCheckpoint(st: Stack, c: Commit): Stack {
    var key := CheckpointObject(c.incarnation, c.deployment);
    st.(latestCheckpointKey := Some(key), checkpointVersions := st.checkpointVersions[c.version := key])
  }

  predicate StackOp(op: Op) {
    op.Acquire? || op.Renew? || op.Release? || op.Barrier? || op.Bump? || op.Publish? || op.Remove?
  }

  /** stack.json after an operation on it. */
  ghost function StackAfter(d: Disk, op: Op): Option<Stack>
    requires StackOp(op) && d.stack.Some?
    requires op.Renew? || op.Release? ==> Holder(d).Some?
  {
    var st := d.stack.value;
    match op
    case Acquire(_, u, owner, _, exp, gen) => Some(WithLock(st, Lock(u, owner, exp, gen)))
    case Renew(u, _, exp, gen) => Some(WithLock(st, Lock(u, Holder(d).value.owner, exp, gen)))
    case Release(_, _) => Some(WithoutLock(st, Holder(d).value.generation))
    case Barrier(_, _) => Some(st)
    case Bump(_, _, _, v, _, stamp) => Some(st.(version := v, lastUpdate := stamp))
    case Publish(c, _) => Some(WithCheckpoint(st, c))
    case Remove(_, _, _, _) => None
  }

  ghost function DiskAfter(d: Disk, op: Op): Disk
    requires StackOp(op) ==> d.stack.Some?
    requires op.Renew? || op.Release? ==> Holder(d).Some?
  {
    if StackOp(op) then d.(stack := StackAfter(d, op))
    else match op
      case Create(inc, created) => d.(stack := Some(NewStack(inc, created)))
      case PutRecord(inc, r) => d.(updates := d.updates[UpdateKey(inc, r.id) := r])
      case SetRecord(inc, _, r) => d.(updates := d.updates[UpdateKey(inc, r.id) := r])
      case DropRecord(inc, was) => d.(updates := d.updates - {UpdateKey(inc, was.id)})
      case PutObject(inc, dep) => d.(blobs := d.blobs[CheckpointObject(inc, dep) := dep])
      case CopyHistory(inc, v, dep) => d.(blobs := d.blobs[HistoryKey(inc, v) := dep])
      case CopyLatest(inc, dep) => d.(blobs := d.blobs[LatestKey(inc) := dep])
      case Erase(key) =>
        if key.LockKey? then d.(legacyLock := None) else d.(updates := d.updates - {key}, blobs := d.blobs - {key})
      case DropLegacy(_) => d.(legacyLock := None)
      case _ => d
  }

  ghost function AuxAfter(s: State, op: Op): Aux
    requires op.Acquire? || op.Renew? ==> s.disk.stack.Some?
    requires op.Renew? ==> Holder(s.disk).Some?
  {
    var a := s.aux;
    match op
    case Create(inc, _) => a.(used := a.used + {inc}, born := a.born + {inc})
    case Acquire(inc, u, owner, _, _, gen) =>
      a.(home := a.home[u := inc], issued := a.issued[(inc, gen) := (u, owner)])
    case Renew(u, _, _, gen) =>
      a.(issued := a.issued[(s.disk.stack.value.incarnation, gen) := (u, Holder(s.disk).value.owner)])
    case Bump(inc, u, _, v, _, _) => a.(bumped := a.bumped[(inc, v) := u])
    case Publish(c, _) => a.(log := a.log + [c])
    case Purge(inc) => a.(purged := a.purged + {inc})
    case Mint(u, kind) => a.(kinds := a.kinds[u := kind])
    case Begin(inc, u) => a.(begun := a.begun + {(inc, u)})
    case Retire(u) => a.(retired := a.retired + {u})
    case IssueToken(u, gen) => if gen > 0 then a.(tokens := a.tokens + {(u, gen)}) else a
    case _ => a
  }

  ghost function Apply(s: State, op: Op): State
    requires Guard(s, op)
  {
    State(DiskAfter(s.disk, op), AuxAfter(s, op))
  }

  // ---------------------------------------------------------------- runs

  /** One step of a run: the operation and the state it left. */
  datatype Entry = Entry(op: Op, s: State)

  ghost predicate StepAt(h: seq<Entry>, i: int) {
    0 < i < |h| && Guard(h[i - 1].s, h[i].op) && h[i].s == Apply(h[i - 1].s, h[i].op)
  }

  /** h[0] carries the start state; every later entry follows from the one before it. */
  ghost predicate IsRun(h: seq<Entry>) {
    |h| > 0 && forall i | 0 < i < |h| :: StepAt(h, i)
  }

  ghost function Last(h: seq<Entry>): State
    requires |h| > 0
  {
    h[|h| - 1].s
  }

  lemma RunExtend(h: seq<Entry>, e: Entry)
    requires IsRun(h) && Guard(Last(h), e.op) && e.s == Apply(Last(h), e.op)
    ensures IsRun(h + [e])
  {
    var h' := h + [e];
    forall i | 0 < i < |h'| ensures StepAt(h', i) {
      if i < |h| { assert StepAt(h, i); }
    }
  }
}
