/** The vocabulary in which the operations of the store state what they did. */
module Contracts {
  import opened Types
  import opened Protocol
  import opened Invariant
  import opened Stability

  /** What a conditional bucket request reports. A write can have landed whatever is reported. */
  datatype Reply = Done | PreconditionFailed | Conflict | RequestFailed

  datatype Found = Found(update: Update, incarnation: string)

  datatype LockState = LockState(stack: Stack, legacy: Option<Lock>)

  /** Nobody else retires, or acquires with, the update ID this request has minted, nor uses its incarnation. */
  ghost predicate Respects(id: string, incarnation: string, a: Aux, b: Aux) {
    && (id in b.retired <==> id in a.retired)
    && (id in b.home <==> id in a.home) && (id in a.home ==> b.home[id] == a.home[id])
    && (incarnation in b.used <==> incarnation in a.used)
  }

  /** The kinds of steps one operation of a server may take. */
  datatype Effect =
    | Migrating(lock: Lock)
    | Acquiring(incarnation: string, updateID: string, owner: string)
    | Renewing(updateID: string, generation: nat)
    | Releasing(updateID: string, generation: nat)
    | Founding(incarnation: string)
    | Recording(updateID: string, kind: Kind)
    | Moving(updateID: string, kind: Kind, status: Status)
    | Saving(commit: Commit)
    | Deleting(incarnation: string, updateID: string, generation: nat)
    // requests
    | CreatingUpdate(kind: Kind, updateID: string, owner: string)
    | StartingUpdate(updateID: string)
    | StartingPreview(updateID: string)
    | SavingFor(updateID: string, token: nat, deployment: Deployment)
    | RenewingLease(updateID: string, token: nat)
    | Ending(updateID: string, status: Status)
    | EndingPreview(updateID: string, status: Status)
    | DeletingStack(updateID: string, owner: string)
    | Importing(updateID: string, owner: string, deployment: Deployment)
    | CreatingStack(incarnation: string, state: Deployment, updateID: string, owner: string)
    | RollingBack(incarnation: string, updateID: string, owner: string)

  ghost predicate Allows(e: Effect, op: Op) {
    match e
    case Migrating(l) => op == DropLegacy(l)
    case Acquiring(inc, u, owner) =>
      op.DropLegacy? || (op.Acquire? && op.incarnation == inc && op.updateID == u && op.owner == owner)
    case Renewing(u, gen) => op.DropLegacy? || (op.Renew? && op.updateID == u && (gen != 0 ==> op.generation == gen))
    case Releasing(u, gen) =>
      op.DropLegacy? || ((op.Release? || op.GiveUp?) && op.updateID == u && op.generation == gen)
    case Founding(inc) => op.Create? && op.incarnation == inc
    case Recording(u, kind) =>
      || (op.Begin? && op.updateID == u)
      || (op.PutRecord? && op.record.id == u && op.record.kind == kind)
      || (op.DropRecord? && op.was.id == u && op.was.kind == kind)
      || (if kind.Preview? then op.Barrier? && op.updateID == u else op.Bump? && op.updateID == u)
    case Moving(u, kind, status) => op.SetRecord? && op.was.id == u && op.was.kind == kind && op.record.status == status
    case Saving(c) =>
      || op == PutObject(c.incarnation, c.deployment)
      || (op.Publish? && op.commit == c)
      || op == CopyHistory(c.incarnation, c.version, c.deployment)
      || op == CopyLatest(c.incarnation, c.deployment)
    case Deleting(inc, u, gen) =>
      || op == Purge(inc)
      || (op.Erase? && (InIncarnation(op.key, inc) || (inc == "" && op.key == LockKey)))
      || (op.Remove? && op.incarnation == inc && op.updateID == u && op.generation == gen)
    case CreatingUpdate(kind, u, owner) =>
      || op == Mint(u, kind) || (op.Begin? && (kind.Preview? ==> op.updateID == u))
      || (!kind.Preview? && (op.DropLegacy? || (op.Renew? && !DeletionID(op.updateID))))
      || (!kind.Preview? && op.Acquire? && op.updateID == u && op.owner == owner)
      || (!kind.Preview? && (op.Retire? || op.Release? || op.GiveUp?) && op.updateID == u)
      || (op.PutRecord? && op.record.kind == kind) || (op.DropRecord? && op.was.kind == kind)
      || (if kind.Preview? then op.Barrier? && op.updateID == u else op.Bump?)
    case StartingUpdate(u) =>
      || op.DropLegacy? || ((op.Renew? || op.IssueToken?) && op.updateID == u)
      || (op.SetRecord? && op.was.id == u && !op.was.kind.Preview? && op.record.status.InProgress?)
    case StartingPreview(u) =>
      || op == IssueToken(u, 0)
      || (op.SetRecord? && op.was.id == u && op.was.kind.Preview? && op.record.status.InProgress?)
    case SavingFor(u, token, dep) =>
      || op.DropLegacy?
      || (op.Renew? && op.updateID == u && (token != 0 ==> op.generation == token))
      || (op.Publish? && op.commit.updateID == u && op.commit.deployment == dep && (token != 0 ==> op.commit.generation == token))
      || ((op.PutObject? || op.CopyHistory? || op.CopyLatest?) && op.deployment == dep)
    case RenewingLease(u, token) =>
      || op.DropLegacy?
      || ((op.Renew? || op.IssueToken?) && op.updateID == u && (token != 0 ==> op.generation == token))
    case Ending(u, status) =>
      || op.DropLegacy? || ((op.Release? || op.GiveUp?) && op.updateID == u)
      || (op.SetRecord? && op.was.id == u && !op.was.kind.Preview? && op.record.status == status)
    case EndingPreview(u, status) =>
      op.SetRecord? && op.was.id == u && op.was.kind.Preview? && op.record.status == status
    case DeletingStack(u, owner) =>
      || op.DropLegacy? || op.Purge? || op.Erase? || (op.Remove? && DeletionID(op.updateID))
      || (op.Acquire? && op.updateID == u && op.owner == owner) || (op.Retire? && op.updateID == u)
      || ((op.Renew? || op.Release? || op.GiveUp?) && DeletionID(op.updateID))
    case Importing(u, owner, dep) =>
      || op.DropLegacy? || op == Mint(u, Import) || (op.Begin? && op.updateID == u)
      || (op.Acquire? && op.updateID == u && op.owner == owner)
      || ((op.Retire? || op.Release? || op.GiveUp? || op.Bump?) && op.updateID == u)
      || (op.PutRecord? && op.record.id == u && op.record.kind.Import?) || (op.DropRecord? && op.was.id == u && op.was.kind.Import?)
      || (op.SetRecord? && op.was.id == u && op.was.kind.Import?)
      || (op.Publish? && op.commit.updateID == u && op.commit.deployment == dep)
      || ((op.PutObject? || op.CopyHistory? || op.CopyLatest?) && op.deployment == dep)
    case CreatingStack(inc, state, u, owner) =>
      || (op.Create? && op.incarnation == inc)
      || (op.Publish? && op.commit == Commit(inc, "", 0, 0, state))
      || ((op.PutObject? || op.CopyHistory? || op.CopyLatest?) && op.incarnation == inc && op.deployment == state)
      || AllowsRollback(inc, u, owner, op)
    case RollingBack(inc, u, owner) => AllowsRollback(inc, u, owner, op)
  }

  /** Acquiring a fence in one incarnation, and either deleting that incarnation under it or giving it up. */
  ghost predicate AllowsRollback(inc: string, u: string, owner: string, op: Op) {
    || op.DropLegacy?
    || (op.Acquire? && op.incarnation == inc && op.updateID == u && op.owner == owner)
    || ((op.Retire? || op.Release? || op.GiveUp?) && op.updateID == u)
    || op == Purge(inc) || (op.Erase? && InIncarnation(op.key, inc)) || (op.Remove? && op.incarnation == inc && op.updateID == u)
  }

  /** How far a document, and the lock.json read beside it, agree with the history: the document was current at
      h[seen]; if it defers to lock.json and is still current, then lock.json is as read. */
  ghost predicate AsRead(h: seq<Entry>, seen: int, st: Stack, legacy: Option<Lock>) {
    && 0 <= seen < |h| && h[seen].s.disk.stack == Some(st)
    && (legacy.Some? ==> h[seen].s.disk.legacyLock == legacy && !UsesCanonicalLock(st))
    && (UsesCanonicalLock(st) ==> Last(h).disk.stack == Some(st))
    && (!UsesCanonicalLock(st) && Last(h).disk.stack == Some(st) ==> Last(h).disk.legacyLock == legacy)
  }

  lemma AcquireJustified(h: seq<Entry>, st: Stack, op: Op, lock: Lock)
    requires |h| > 0 && op.Acquire? && st.incarnation == op.incarnation && Unspent(Last(h), op.updateID, op.incarnation)
    requires UsesCanonicalLock(st) ==> Last(h).disk.stack == Some(st)
    requires Last(h).disk.stack == Some(st) ==> AcquireGuard(Last(h).disk, op.updateID, op.owner, op.now, op.generation)
    requires lock == Lock(op.updateID, op.owner, op.expiresAt, op.generation)
    ensures Justified(h, |h| - 1, st, op, Some(WithLock(st, lock)))
  {
  }

  lemma RenewJustified(h: seq<Entry>, st: Stack, legacy: Option<Lock>, op: Op, doc: Stack)
    requires |h| > 0 && op.Renew?
    requires UsesCanonicalLock(st) ==> Last(h).disk.stack == Some(st)
    requires !UsesCanonicalLock(st) && Last(h).disk.stack == Some(st) ==> Last(h).disk.legacyLock == legacy
    requires
      && var lock := Governing(st, legacy);
      && lock.Some? && lock.value.updateID == op.updateID && !lock.value.Expired(op.now)
      && KeepsGeneration(lock.value.generation, Ceiling(st, legacy), op.generation)
      && doc == WithLock(st, Lock(op.updateID, lock.value.owner, op.expiresAt, op.generation))
    ensures Justified(h, |h| - 1, st, op, Some(doc)) && UsesCanonicalLock(doc)
  {
  }

  lemma ReleaseJustified(h: seq<Entry>, st: Stack, legacy: Option<Lock>, op: Op, doc: Stack)
    requires |h| > 0 && op.Release?
    requires UsesCanonicalLock(st) ==> Last(h).disk.stack == Some(st) && legacy.None?
    requires !UsesCanonicalLock(st) && Last(h).disk.stack == Some(st) ==> Last(h).disk.legacyLock == legacy
    requires
      var lock := if st.lock.Some? then st.lock else legacy;
      && lock.Some? && lock.value.updateID == op.updateID && (op.generation != 0 ==> lock.value.generation == op.generation)
      && doc == WithoutLock(st, lock.value.generation)
    ensures Justified(h, |h| - 1, st, op, Some(doc)) && UsesCanonicalLock(doc)
  {
  }

  /** The step at h[at] put this lock in force. */
  ghost predicate Granted(h: seq<Entry>, at: int, inc: string, u: string, owner: string, l: Lock) {
    && 0 <= at < |h| && h[at].op.Acquire? && l.generation > 0 && l.updateID == u && l.owner == owner
    && h[at].op.updateID == u && h[at].op.expiresAt == l.expiresAt && h[at].op.generation == l.generation
    && Current(h[at].s.disk, inc) && h[at].s.disk.stack.value.lock == Some(l)
  }

  /** The step at h[at] renewed this lock. */
  ghost predicate Renewed(h: seq<Entry>, at: int, u: string, generation: nat, l: Lock) {
    && 0 <= at < |h| && h[at].op.Renew? && l.generation > 0 && l.updateID == u && (generation != 0 ==> l.generation == generation)
    && h[at].op.updateID == u && h[at].op.expiresAt == l.expiresAt && h[at].op.generation == l.generation
    && h[at].s.disk.stack.Some? && h[at].s.disk.stack.value.lock == Some(l)
  }

  /** At h[at] the lock in force was not the one named. */
  ghost predicate HeldOtherwise(h: seq<Entry>, at: int, u: string, generation: nat, l: Lock) {
    && 0 <= at < |h| && Holder(h[at].s.disk) == Some(l)
    && (l.updateID != u || (generation != 0 && l.generation != generation))
  }

  /** The checkpoint's object is in the bucket, unless a deletion may have taken it. */
  ghost predicate Stored(s: State, c: Commit) {
    CheckpointObject(c.incarnation, c.deployment) in s.disk.blobs || c.incarnation in s.aux.purged
  }

  lemma StoredLater(a: seq<Entry>, b: seq<Entry>, c: Commit)
    requires |a| > 0 && a <= b && IsRun(b) && Stored(Last(a), c)
    ensures Stored(Last(b), c)
  {
    assert b[|a| - 1] == a[|a| - 1];
    KeptRun(b, |a| - 1, |b| - 1);
  }

  lemma LoggedForever(h: seq<Entry>, k: int, c: Commit)
    requires IsRun(h) && 0 <= k < |h| && c in h[k].s.aux.log
    ensures c in Last(h).aux.log
  {
    KeptRun(h, k, |h| - 1);
  }

  lemma PublishedIsLogged(h: seq<Entry>, c: Commit)
    requires IsRun(h) && |h| > 1 && h[|h| - 1].op.Publish? && h[|h| - 1].op.commit == c
    ensures c in Last(h).aux.log
  {
    assert StepAt(h, |h| - 1);
  }

  // ---------------------------------------------------------------- checkpoint reads

  /** The request reached the bucket: there was a checkpoint, or there was none. */
  predicate Answered(r: Result<Deployment>) {
    r.Ok? || r.error.CheckpointNotFound?
  }

  function Read(r: Result<Deployment>): Option<Deployment> {
    if r.Ok? then Some(r.value) else None
  }

  // ---------------------------------------------------------------- update records

  ghost predicate RecordIs(d: Disk, inc: string, u: string, record: Update) {
    UpdateKey(inc, u) in d.updates && d.updates[UpdateKey(inc, u)] == record
  }

  ghost predicate CurrentAt(h: seq<Entry>, k: int, inc: string) {
    0 <= k < |h| && Current(h[k].s.disk, inc)
  }

  /** Since h[from], the stack was once of this incarnation. */
  ghost predicate WasCurrent(h: seq<Entry>, from: int, inc: string) {
    exists k: int :: from <= k && CurrentAt(h, k, inc)
  }

  ghost predicate HolderAt(h: seq<Entry>, k: int, u: string, owner: string) {
    && 0 <= k < |h| && Holder(h[k].s.disk).Some?
    && Holder(h[k].s.disk).value.updateID == u && Holder(h[k].s.disk).value.owner == owner
  }

  /** Since h[from], the stack was once held by this update, for this owner. */
  ghost predicate HolderSeen(h: seq<Entry>, from: int, u: string, owner: string) {
    exists k: int :: from <= k && HolderAt(h, k, u, owner)
  }

  lemma HolderSeenLater(a: seq<Entry>, b: seq<Entry>, from: int, at: int, u: string, owner: string)
    requires a <= b && from <= at && HolderAt(a, at, u, owner)
    ensures HolderSeen(b, from, u, owner)
  {
    assert HolderAt(b, at, u, owner);
  }

  lemma HolderSeenOn(a: seq<Entry>, b: seq<Entry>, from: int, since: int, u: string, owner: string)
    requires a <= b && from <= since && HolderSeen(a, since, u, owner)
    ensures HolderSeen(b, from, u, owner)
  {
    var k :| since <= k && HolderAt(a, k, u, owner);
    HolderSeenLater(a, b, from, k, u, owner);
  }

  ghost predicate RecordAt(h: seq<Entry>, k: int, inc: string, u: string) {
    0 <= k < |h| && UpdateKey(inc, u) in h[k].s.disk.updates
  }

  /** Since h[from], a record of the update was in the bucket with this status. */
  ghost predicate StatusSeen(h: seq<Entry>, from: int, u: string, status: Status) {
    exists k: int, inc: string :: from <= k && RecordAt(h, k, inc, u) && h[k].s.disk.updates[UpdateKey(inc, u)].status == status
  }

  /** Since h[from], this record of the update was in the bucket. */
  ghost predicate RecordSeen(h: seq<Entry>, from: int, inc: string, u: string, record: Update) {
    exists k: int :: from <= k && RecordAt(h, k, inc, u) && h[k].s.disk.updates[UpdateKey(inc, u)] == record
  }

  lemma RecordSeenLater(a: seq<Entry>, b: seq<Entry>, from: int, since: int, inc: string, u: string, record: Update)
    requires a <= b && from <= since && RecordSeen(a, since, inc, u, record)
    ensures RecordSeen(b, from, inc, u, record)
  {
    var k :| since <= k && RecordAt(a, k, inc, u) && a[k].s.disk.updates[UpdateKey(inc, u)] == record;
    assert RecordAt(b, k, inc, u) && b[k] == a[k];
  }

  lemma SeenNow(h: seq<Entry>, from: int, inc: string, u: string)
    requires from < |h| && |h| > 0 && UpdateKey(inc, u) in Last(h).disk.updates
    ensures StatusSeen(h, from, u, Last(h).disk.updates[UpdateKey(inc, u)].status)
    ensures RecordSeen(h, from, inc, u, Last(h).disk.updates[UpdateKey(inc, u)])
  {
    assert RecordAt(h, |h| - 1, inc, u);
  }

  lemma SeenLater(a: seq<Entry>, b: seq<Entry>, from: int, u: string, status: Status)
    requires a <= b
    ensures StatusSeen(a, from, u, status) ==> StatusSeen(b, from, u, status)
  {
    forall k: int, inc: string | RecordAt(a, k, inc, u) ensures RecordAt(b, k, inc, u) && b[k] == a[k] {}
  }

  lemma SeenSince(h: seq<Entry>, from: int, later: int, u: string, status: Status)
    requires from <= later && StatusSeen(h, later, u, status)
    ensures StatusSeen(h, from, u, status)
  {
  }

  lemma ExecutionLater(a: seq<Entry>, b: seq<Entry>)
    requires Execution(a) && IsRun(b) && a <= b
    ensures Execution(b)
  {
    assert InvAt(a, 0);
    assert InvAt(b, 0);
  }

  /** The ID was minted for an update of this kind. */
  ghost predicate IsKind(s: State, u: string, kind: Kind) {
    u in s.aux.kinds && s.aux.kinds[u] == kind
  }

  /** What a record has to satisfy before it may be written. */
  ghost predicate Truthful(s: State, inc: string, record: Update) {
    && IsKind(s, record.id, record.kind) && (inc, record.id) in s.aux.begun
    && (!record.kind.Preview? ==>
          record.id in s.aux.retired && !DeletionID(record.id) && Claims(s, inc, record.id, record.version))
  }

  lemma ClaimsLater(a: seq<Entry>, b: seq<Entry>, inc: string, u: string, v: int)
    requires |a| > 0 && a <= b && Execution(b) && u in Last(a).aux.retired && Claims(Last(a), inc, u, v)
    ensures u in Last(b).aux.retired && Claims(Last(b), inc, u, v)
  {
    assert b[|a| - 1] == a[|a| - 1];
    KeptRun(b, |a| - 1, |b| - 1);
    ClaimsRun(b, |a| - 1, |b| - 1, inc, u, v);
  }

  lemma TruthfulLater(a: seq<Entry>, b: seq<Entry>, inc: string, record: Update)
    requires |a| > 0 && a <= b && Execution(b) && Truthful(Last(a), inc, record)
    ensures Truthful(Last(b), inc, record)
  {
    KeptLater(a, b);
    if !record.kind.Preview? {
      ClaimsLater(a, b, inc, record.id, record.version);
    }
  }

  /** The update holds the stack, Version is this number, and it was this update that moved it there. */
  ghost predicate OwnsVersion(s: State, inc: string, u: string, v: int) {
    && Current(s.disk, inc) && HeldBy(s.disk, u) && s.disk.stack.value.version == v
    && (inc, v) in s.aux.bumped && s.aux.bumped[(inc, v)] == u
  }

  lemma BumpOwns(h: seq<Entry>, op: Op)
    requires IsRun(h) && |h| > 1 && h[|h| - 1].op == op && op.Bump?
    ensures OwnsVersion(Last(h), op.incarnation, op.updateID, op.version)
  {
    assert StepAt(h, |h| - 1);
  }

  lemma KeptLater(a: seq<Entry>, b: seq<Entry>)
    requires |a| > 0 && a <= b && IsRun(b)
    ensures Kept(Last(a), Last(b))
  {
    assert b[|a| - 1] == a[|a| - 1];
    KeptRun(b, |a| - 1, |b| - 1);
  }

  lemma KindLater(a: seq<Entry>, b: seq<Entry>, u: string, kind: Kind)
    requires |a| > 0 && a <= b && IsRun(b) && IsKind(Last(a), u, kind)
    ensures IsKind(Last(b), u, kind)
  {
    KeptLater(a, b);
  }

  lemma CurrentIsUsed(h: seq<Entry>)
    requires Execution(h)
    ensures Last(h).disk.stack.Some? ==> Last(h).disk.stack.value.incarnation in Last(h).aux.used
  {
    Reachable(h, |h| - 1);
  }

  lemma RecordNamesItself(a: seq<Entry>, b: seq<Entry>, inc: string, u: string)
    requires Execution(a) && a <= b && IsRun(b) && UpdateKey(inc, u) in Last(b).disk.updates
    ensures Last(b).disk.updates[UpdateKey(inc, u)].id == u
    ensures IsKind(Last(b), u, Last(b).disk.updates[UpdateKey(inc, u)].kind)
    ensures u in Last(a).aux.kinds ==> Last(a).aux.kinds[u] == Last(b).disk.updates[UpdateKey(inc, u)].kind
  {
    ExecutionLater(a, b);
    KeptLater(a, b);
    Reachable(b, |b| - 1);
  }

  /** An incarnation that has gone does not come back, so one seen before and after was there in between. */
  lemma {:induction false} GoneForGood(h: seq<Entry>, i: int, j: int, inc: string)
    requires Execution(h) && 0 <= i <= j < |h| && inc in h[i].s.aux.used && !Current(h[i].s.disk, inc)
    ensures !Current(h[j].s.disk, inc)
  {
    if i < j {
      GoneForGood(h, i, j - 1, inc);
      KeptRun(h, i, j - 1);
      assert StepAt(h, j);
    }
  }

  /** `inc` is in use at h[i], `other` is current at h[k], and `inc` is current at the end: they are the same. */
  lemma SameIncarnation(h: seq<Entry>, i: int, k: int, inc: string, other: string)
    requires Execution(h) && 0 <= i <= k < |h| && inc in h[i].s.aux.used
    requires Current(h[k].s.disk, other) && Current(Last(h).disk, inc)
    ensures other == inc
  {
    KeptRun(h, i, k);
    if other != inc {
      GoneForGood(h, k, |h| - 1, inc);
    }
  }

  /** The version of a record found backs a claim under the incarnation the caller has in mind: either the record
      is of that incarnation, or that incarnation is gone. */
  lemma FoundClaims(a: seq<Entry>, b: seq<Entry>, seen: int, f: Found, u: string, inc: string)
    requires |a| > 0 && a <= b && Execution(b) && |a| - 1 <= seen < |b| && inc in Last(a).aux.used
    requires u in Last(a).aux.retired && !f.update.kind.Preview?
    requires Current(b[seen].s.disk, f.incarnation) && RecordIs(Last(b).disk, f.incarnation, u, f.update)
    ensures u in Last(b).aux.retired && Claims(Last(b), inc, u, f.update.version)
  {
    assert b[|a| - 1] == a[|a| - 1];
    KeptRun(b, |a| - 1, seen);
    KeptRun(b, |a| - 1, |b| - 1);
    Reachable(b, |b| - 1);
    if f.incarnation != inc {
      GoneForGood(b, seen, |b| - 1, inc);
    }
  }

  lemma BornThen(h: seq<Entry>, k: int, inc: string)
    requires Execution(h) && 0 <= k < |h| && Current(h[k].s.disk, inc) && inc in Last(h).aux.born
    ensures inc in h[k].s.aux.born
  {
    Reachable(h, k);
    BornEarly(h, k, |h| - 1, inc);
  }

  lemma {:induction false} BornEarly(h: seq<Entry>, i: int, j: int, inc: string)
    requires IsRun(h) && 0 <= i <= j < |h| && inc in h[i].s.aux.used && inc in h[j].s.aux.born
    ensures inc in h[i].s.aux.born
  {
    if i < j {
      KeptRun(h, i, j - 1);
      assert StepAt(h, j);
      BornEarly(h, i, j - 1, inc);
    }
  }

  // ---------------------------------------------------------------- deletion

  predicate InIncarnation(key: Key, inc: string) {
    !key.StackKey? && !key.LockKey? && key.incarnation == inc
  }

  /** The object is in the bucket and belongs to the incarnation; lock.json belongs to the layout without
      incarnations. */
  predicate Belongs(d: Disk, inc: string, key: Key) {
    || (InIncarnation(key, inc) && (key in d.updates || key in d.blobs))
    || (inc == "" && key == LockKey && d.legacyLock.Some?)
  }

  ghost predicate Emptied(d: Disk, inc: string) {
    forall key :: !Belongs(d, inc, key)
  }

  /** The fence stood at h[seen], the incarnation owned nothing at h[empty], and the last step removed the stack. */
  ghost predicate DeletedUnder(h: seq<Entry>, seen: int, empty: int, inc: string, u: string, generation: nat) {
    && 0 <= seen <= empty < |h| - 1
    && Current(h[seen].s.disk, inc) && DeletionID(u)
    && h[seen].s.disk.stack.value.lock.Some?
    && h[seen].s.disk.stack.value.lock.value.updateID == u
    && h[seen].s.disk.stack.value.lock.value.generation == generation
    && Emptied(h[empty].s.disk, inc)
    && h[|h| - 1].op.Remove? && h[|h| - 1].op.incarnation == inc
    && h[|h| - 1].op.updateID == u && h[|h| - 1].op.generation == generation
  }
}
