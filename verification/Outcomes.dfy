/** Why the operations of the store refuse, and what the clock has to do with what they do. */
module Outcomes {
  import opened Types
  import opened Protocol
  import opened Contracts

  // ---------------------------------------------------------------- the clock

  /** The value is among the readings of the clock numbered from `from` up to, and not including, `to`. */
  ghost predicate ReadIn(time: nat -> int, from: nat, to: nat, value: int) {
    exists i: nat :: from <= i < to && time(i) == value
  }

  /** A lease of this length: the lock it replaces was tested at the reading `now`, and it runs from a later reading. */
  ghost predicate Leased(time: nat -> int, from: nat, to: nat, now: int, expiresAt: int, ttl: int) {
    exists i: nat, j: nat :: from <= i < j < to && time(i) == now && time(j) + ttl == expiresAt
  }

  ghost predicate Nondecreasing(time: nat -> int) {
    forall i: nat, j: nat :: i <= j ==> time(i) <= time(j)
  }

  /** By a clock that never goes back, the lease lasts at least its length from the moment of the test. */
  lemma LeaseIsFull(time: nat -> int, from: nat, to: nat, now: int, expiresAt: int, ttl: int)
    requires Nondecreasing(time) && Leased(time, from, to, now, expiresAt, ttl)
    ensures now + ttl <= expiresAt
  {
    var i: nat, j: nat :| from <= i < j < to && time(i) == now && time(j) + ttl == expiresAt;
    assert time(i) <= time(j);
  }

  // ---------------------------------------------------------------- locks

  /** The lock is in the way of this update at this moment. */
  predicate Blocks(l: Lock, updateID: string, owner: string, now: int) {
    || (DeletionID(l.updateID) && !DeletionID(updateID))
    || (!l.Expired(now) && (l.updateID != updateID || l.owner != owner))
  }

  ghost predicate BlockedIn(time: nat -> int, from: nat, to: nat, l: Lock, u: string, owner: string) {
    exists i: nat :: from <= i < to && Blocks(l, u, owner, time(i))
  }

  /** What AcquireLock found at h[at] when it refused, bucket failures apart. */
  ghost predicate AcquireRefused(h: seq<Entry>, at: int, inc: string, u: string, owner: string, e: Error,
                                 time: nat -> int, from: nat, to: nat) {
    && 0 <= at < |h|
    && match e
       case LockHeld(l) => Holder(h[at].s.disk) == Some(l) && BlockedIn(time, from, to, l, u, owner)
       case StackNotFound => h[at].s.disk.stack.None?
       case ConcurrentMutation => h[at].s.disk.stack.Some? && h[at].s.disk.stack.value.incarnation != inc
       case _ => false
  }

  /** The lock named is in force and has run out by one of these readings. */
  ghost predicate RunOut(d: Disk, u: string, generation: nat, time: nat -> int, from: nat, to: nat) {
    && HeldBy(d, u) && (generation != 0 ==> Holder(d).value.generation == generation)
    && exists i: nat :: from <= i < to && Holder(d).value.Expired(time(i))
  }

  /** What RenewLock found at h[at] when it refused, bucket failures apart. */
  ghost predicate RenewRefused(h: seq<Entry>, at: int, u: string, generation: nat, e: Error,
                               time: nat -> int, from: nat, to: nat) {
    && 0 <= at < |h|
    && match e
       case LockHeld(l) => HeldOtherwise(h, at, u, generation, l)
       case NoLock =>
         Holder(h[at].s.disk).None? || LegacyMode(h[at].s.disk) || RunOut(h[at].s.disk, u, generation, time, from, to)
       case StackNotFound => h[at].s.disk.stack.None?
       case _ => false
  }

  /** The step at h[k] takes or renews the update's lock for this long. */
  ghost predicate TakenAt(h: seq<Entry>, k: int, u: string, ttl: int, time: nat -> int, t: nat, t': nat) {
    && 0 <= k < |h| && (h[k].op.Acquire? || h[k].op.Renew?) && h[k].op.updateID == u
    && Leased(time, t, t', h[k].op.now, h[k].op.expiresAt, ttl)
  }

  /** Since h[from], the update's lock was taken or renewed for this long. */
  ghost predicate LeaseTaken(h: seq<Entry>, from: int, u: string, ttl: int, time: nat -> int, t: nat, t': nat) {
    exists k: int :: from <= k && TakenAt(h, k, u, ttl, time, t, t')
  }

  lemma TakenLater(a: seq<Entry>, b: seq<Entry>, from: int, since: int, u: string, ttl: int, time: nat -> int,
                   s: nat, s': nat, t: nat, t': nat)
    requires a <= b && from <= since && t <= s && s' <= t' && LeaseTaken(a, since, u, ttl, time, s, s')
    ensures LeaseTaken(b, from, u, ttl, time, t, t')
  {
    var k: int :| since <= k && TakenAt(a, k, u, ttl, time, s, s');
    assert TakenAt(b, k, u, ttl, time, t, t');
  }

  /** The update is not seen to hold the stack at this generation, 0 standing for any; while lock.json rules it may be
      overlooked. */
  predicate NotOwn(d: Disk, u: string, generation: nat) {
    d.stack.None? || LegacyMode(d) || !HeldBy(d, u) || (generation != 0 && Holder(d).value.generation != generation)
  }

  /** At h[k] the update is not seen to hold the stack, or its lease has run out by one of these readings. */
  ghost predicate MissedAt(h: seq<Entry>, k: int, u: string, generation: nat, time: nat -> int, t: nat, t': nat) {
    && 0 <= k < |h|
    && (|| NotOwn(h[k].s.disk, u, generation)
        || exists i: nat :: t <= i < t' && Holder(h[k].s.disk).value.Expired(time(i)))
  }

  /** Since h[from], there was a moment when the update did not hold the stack live. */
  ghost predicate LockMissed(h: seq<Entry>, from: int, u: string, generation: nat, time: nat -> int, t: nat, t': nat) {
    exists k: int :: from <= k && MissedAt(h, k, u, generation, time, t, t')
  }

  lemma MissedLater(a: seq<Entry>, b: seq<Entry>, from: int, since: int, u: string, generation: nat, time: nat -> int,
                    s: nat, s': nat, t: nat, t': nat)
    requires a <= b && from <= since && t <= s && s' <= t' && LockMissed(a, since, u, generation, time, s, s')
    ensures LockMissed(b, from, u, generation, time, t, t')
  {
    var k: int :| since <= k && MissedAt(a, k, u, generation, time, s, s');
    assert MissedAt(b, k, u, generation, time, t, t');
  }

  /** A renewal refused is a lock missed. */
  lemma RenewRefusedIsMissed(h: seq<Entry>, from: int, at: int, u: string, generation: nat, e: Error,
                             time: nat -> int, t: nat, t': nat)
    requires from <= at && RenewRefused(h, at, u, generation, e, time, t, t')
    ensures LockMissed(h, from, u, generation, time, t, t')
  {
    assert MissedAt(h, at, u, generation, time, t, t');
  }

  /** Since h[from], this server has asked for the lock of this update and generation to be released. */
  ghost predicate ReleaseAsked(h: seq<Entry>, from: int, u: string, generation: nat) {
    exists k: int :: from <= k < |h| && AsksRelease(h, k, u, generation)
  }

  ghost predicate AsksRelease(h: seq<Entry>, k: int, u: string, generation: nat) {
    0 <= k < |h| && h[k].op == GiveUp(u, generation)
  }

  lemma AskedLater(a: seq<Entry>, b: seq<Entry>, from: int, since: int, u: string, generation: nat)
    requires a <= b && from <= since && ReleaseAsked(a, since, u, generation)
    ensures ReleaseAsked(b, from, u, generation)
  {
    var k: int :| since <= k < |a| && AsksRelease(a, k, u, generation);
    assert AsksRelease(b, k, u, generation);
  }

  // ---------------------------------------------------------------- checkpoints

  /** An update's save is out of order: it does not hold the stack live, at this generation, at this version. */
  predicate SaveBarred(st: Stack, c: Commit, now: int) {
    !LiveLock(st, c.updateID, c.generation, now) || st.version != c.version
  }

  ghost predicate BarredIn(time: nat -> int, from: nat, to: nat, st: Stack, c: Commit) {
    exists i: nat :: from <= i < to && SaveBarred(st, c, time(i))
  }

  /** What SaveCheckpoint found at h[at] when it refused, bucket failures apart. */
  ghost predicate SaveRefused(h: seq<Entry>, at: int, c: Commit, e: Error, time: nat -> int, from: nat, to: nat) {
    && 0 <= at < |h|
    && match e
       case StackNotFound => h[at].s.disk.stack.None?
       case ConcurrentMutation =>
         && h[at].s.disk.stack.Some?
         && (h[at].s.disk.stack.value.incarnation != c.incarnation
             || (c.updateID != "" && BarredIn(time, from, to, h[at].s.disk.stack.value, c)))
       case InvalidUpdateState =>
         && Current(h[at].s.disk, c.incarnation) && c.updateID == ""
         && (c.generation != 0 || c.version != 0 || h[at].s.disk.stack.value.version != 0 || h[at].s.disk.stack.value.lock.Some?)
       case _ => false
  }

  ghost predicate BlobAt(h: seq<Entry>, k: int, key: Key, deployment: Deployment) {
    0 <= k < |h| && key in h[k].s.disk.blobs && h[k].s.disk.blobs[key] == deployment
  }

  /** Since h[from], this deployment was stored under the key. */
  ghost predicate BlobSeen(h: seq<Entry>, from: int, key: Key, deployment: Deployment) {
    exists k: int :: from <= k < |h| && BlobAt(h, k, key, deployment)
  }

  lemma BlobSeenLater(a: seq<Entry>, b: seq<Entry>, from: int, since: int, key: Key, deployment: Deployment)
    requires a <= b && from <= since && BlobSeen(a, since, key, deployment)
    ensures BlobSeen(b, from, key, deployment)
  {
    var k: int :| since <= k < |a| && BlobAt(a, k, key, deployment);
    assert BlobAt(b, k, key, deployment);
  }

  // ---------------------------------------------------------------- records

  /** Since h[from], there was no stack, or the stack had no record of this update. */
  ghost predicate NoRecordSeen(h: seq<Entry>, from: int, u: string) {
    exists k: int :: from <= k < |h| && NoRecordAt(h, k, u)
  }

  /** At h[k] there is no stack; or it has an incarnation under which, now or later, no record of the update is found. */
  ghost predicate NoRecordAt(h: seq<Entry>, k: int, u: string) {
    && 0 <= k < |h|
    && (h[k].s.disk.stack.None?
        || exists m: int :: k <= m < |h| && LacksRecord(h, m, h[k].s.disk.stack.value.incarnation, u))
  }

  ghost predicate LacksRecord(h: seq<Entry>, m: int, inc: string, u: string) {
    0 <= m < |h| && UpdateKey(inc, u) !in h[m].s.disk.updates
  }

  lemma NoRecordLater(a: seq<Entry>, b: seq<Entry>, from: int, since: int, u: string)
    requires a <= b && from <= since && NoRecordSeen(a, since, u)
    ensures NoRecordSeen(b, from, u)
  {
    var k: int :| since <= k < |a| && NoRecordAt(a, k, u);
    if a[k].s.disk.stack.Some? {
      var m: int :| k <= m < |a| && LacksRecord(a, m, a[k].s.disk.stack.value.incarnation, u);
      assert LacksRecord(b, m, a[k].s.disk.stack.value.incarnation, u);
    }
    assert NoRecordAt(b, k, u);
  }

  /** Since h[from], a record of the update was there, and then there was no stack, or none with a record of it. */
  ghost predicate RecordVanished(h: seq<Entry>, from: int, u: string) {
    exists k: int, inc: string :: from <= k && RecordAt(h, k, inc, u) && NoRecordSeen(h, k, u)
  }

  lemma VanishedLater(a: seq<Entry>, b: seq<Entry>, from: int, since: int, u: string)
    requires a <= b && from <= since && RecordVanished(a, since, u)
    ensures RecordVanished(b, from, u)
  {
    var k: int, inc: string :| since <= k && RecordAt(a, k, inc, u) && NoRecordSeen(a, k, u);
    NoRecordLater(a, b, k, k, u);
    assert RecordAt(b, k, inc, u);
  }

  ghost predicate NoStackAt(h: seq<Entry>, k: int) {
    0 <= k < |h| && h[k].s.disk.stack.None?
  }

  /** Since h[from], there was once no stack. */
  ghost predicate NoStackSeen(h: seq<Entry>, from: int) {
    exists k: int :: from <= k && NoStackAt(h, k)
  }

  /** A record of the update, of which it can be said that it is not one to go on from. */
  ghost predicate UnfitAt(h: seq<Entry>, k: int, inc: string, u: string, kinds: set<Kind>, statuses: set<Status>) {
    && RecordAt(h, k, inc, u)
    && var r := h[k].s.disk.updates[UpdateKey(inc, u)];
    && (r.kind !in kinds || r.status !in statuses)
  }

  /** Since h[from], a record of the update was in the bucket whose kind or status is none of these. */
  ghost predicate UnfitSeen(h: seq<Entry>, from: int, u: string, kinds: set<Kind>, statuses: set<Status>) {
    exists k: int, inc: string :: from <= k && UnfitAt(h, k, inc, u, kinds, statuses)
  }

  lemma UnfitLater(a: seq<Entry>, b: seq<Entry>, from: int, since: int, u: string, kinds: set<Kind>, statuses: set<Status>)
    requires a <= b && from <= since && UnfitSeen(a, since, u, kinds, statuses)
    ensures UnfitSeen(b, from, u, kinds, statuses)
  {
    var k: int, inc: string :| since <= k && UnfitAt(a, k, inc, u, kinds, statuses);
    assert UnfitAt(b, k, inc, u, kinds, statuses);
  }

  lemma RecordIsUnfit(h: seq<Entry>, from: int, f: Found, u: string, kinds: set<Kind>, statuses: set<Status>)
    requires RecordSeen(h, from, f.incarnation, u, f.update) && (f.update.kind !in kinds || f.update.status !in statuses)
    ensures UnfitSeen(h, from, u, kinds, statuses)
  {
    var k: int :| from <= k && RecordAt(h, k, f.incarnation, u) && h[k].s.disk.updates[UpdateKey(f.incarnation, u)] == f.update;
    assert UnfitAt(h, k, f.incarnation, u, kinds, statuses);
  }

  const ANY_KIND := {Preview, Deploy, Refresh, Destroy, Import}

  // ---------------------------------------------------------------- creating updates

  /** What CreateUpdate is about to write, and under which lock. */
  datatype Prepared = Prepared(incarnation: string, generation: nat, record: Update)

  /** The update does not hold the stack, or its lease has run out. */
  predicate NotLive(st: Stack, u: string, now: int) {
    st.lock.None? || st.lock.value.updateID != u || st.lock.value.Expired(now)
  }

  /** Version has moved past a number to which this update once moved it. */
  ghost predicate BumpedPast(s: State, u: string, v: int) {
    && s.disk.stack.Some?
    && (s.disk.stack.value.incarnation, v) in s.aux.bumped && s.aux.bumped[(s.disk.stack.value.incarnation, v)] == u
    && v < s.disk.stack.value.version
  }

  /** At h[since] the stack was of this incarnation and, for a locking update, held by it at this generation. */
  ghost predicate AsOf(h: seq<Entry>, since: int, inc: string, u: string, generation: nat, kind: Kind) {
    && 0 <= since < |h| && Current(h[since].s.disk, inc)
    && (!kind.Preview? ==> Carried(h[since].s.disk.stack.value, u, generation))
  }

  predicate Carried(st: Stack, u: string, generation: nat) {
    st.lock.Some? && st.lock.value.updateID == u && st.lock.value.generation == generation
  }

  /** A record as CreateUpdate makes it. */
  ghost predicate Fresh(r: Update, kind: Kind, u: string, version: int, time: nat -> int, from: nat, to: nat) {
    && r.id == u && r.kind == kind && r.status.NotStarted? && r.endTime == 0 && r.message == ""
    && r.version == (if kind.Preview? then version else version + 1) && ReadIn(time, from, to, r.startTime)
  }

  ghost predicate VersionAt(h: seq<Entry>, k: int, inc: string, version: int) {
    0 <= k < |h| && Current(h[k].s.disk, inc) && h[k].s.disk.stack.value.version == version
  }

  /** The record of a preview carries the version the stack had at a moment since h[from]. */
  ghost predicate PreviewRecord(h: seq<Entry>, from: int, f: Found, u: string, time: nat -> int, t: nat, t': nat) {
    && Fresh(f.update, Preview, u, f.update.version, time, t, t')
    && exists k: int :: from <= k < |h| && VersionAt(h, k, f.incarnation, f.update.version)
  }

  /** What CreateUpdate's first reading found when it refused. */
  ghost predicate PrepareRefused(h: seq<Entry>, at: int, kind: Kind, u: string, e: Error, time: nat -> int, from: nat, to: nat) {
    && 0 <= at < |h|
    && match e
       case StackNotFound => h[at].s.disk.stack.None?
       case LockHeld(l) => kind.Preview? && h[at].s.disk.stack.Some? && h[at].s.disk.stack.value.lock == Some(l) && DeletionID(l.updateID)
       case NoLock =>
         !kind.Preview? && h[at].s.disk.stack.Some? && NotLiveIn(time, from, to, h[at].s.disk.stack.value, u)
       case _ => false
  }

  ghost predicate NotLiveIn(time: nat -> int, from: nat, to: nat, st: Stack, u: string) {
    exists i: nat :: from <= i < to && NotLive(st, u, time(i))
  }

  /** What commitUpdateVersion found at h[at] when it refused, bucket failures apart. */
  ghost predicate CommitRefused(h: seq<Entry>, at: int, inc: string, u: string, generation: nat, e: Error,
                                time: nat -> int, from: nat, to: nat) {
    && 0 <= at < |h|
    && match e
       case StackNotFound => h[at].s.disk.stack.None?
       case ConcurrentMutation =>
         && h[at].s.disk.stack.Some?
         && (|| h[at].s.disk.stack.value.incarnation != inc
             || (exists i: nat :: from <= i < to && !LiveLock(h[at].s.disk.stack.value, u, generation, time(i)))
             || (exists v :: BumpedPast(h[at].s, u, v)))
       case _ => false
  }

  /** What the barrier of a preview found at h[at] when it refused, bucket failures apart. */
  ghost predicate AdmitRefused(h: seq<Entry>, at: int, inc: string, e: Error) {
    && 0 <= at < |h|
    && match e
       case StackNotFound => h[at].s.disk.stack.None?
       case ConcurrentMutation => h[at].s.disk.stack.Some? && h[at].s.disk.stack.value.incarnation != inc
       case LockHeld(l) => Current(h[at].s.disk, inc) && h[at].s.disk.stack.value.lock == Some(l) && DeletionID(l.updateID)
       case _ => false
  }

  /** Between h[j] and h[k] the stack was replaced or, which matters to an update that locks, the generation of its lock
      has changed. */
  ghost predicate Replaced(h: seq<Entry>, j: int, k: int, kind: Kind) {
    && 0 <= j <= k < |h| && h[j].s.disk.stack.Some? && h[k].s.disk.stack.Some?
    && (|| h[j].s.disk.stack.value.incarnation != h[k].s.disk.stack.value.incarnation
        || (!kind.Preview? && h[j].s.disk.stack.value.lock.Some? && h[k].s.disk.stack.value.lock.Some?
            && h[j].s.disk.stack.value.lock.value.generation != h[k].s.disk.stack.value.lock.value.generation))
  }

  /** At h[k] something stands in the way of the update's creation. */
  ghost predicate Hinders(h: seq<Entry>, from: int, k: int, kind: Kind, u: string, time: nat -> int, t: nat, t': nat) {
    && 0 <= from <= k < |h|
    && (|| h[k].s.disk.stack.None?
        || (kind.Preview? && DeletionFence(h[k].s.disk.stack.value.lock))
        || (!kind.Preview? && NotLiveIn(time, t, t', h[k].s.disk.stack.value, u))
        || (!kind.Preview? && exists v :: BumpedPast(h[k].s, u, v))
        || (exists j: int :: from <= j && Replaced(h, j, k, kind)))
  }

  /** Since h[from], something stood in the way of the update's creation: no stack, a fence, a lock that is not live, a
      stack or lock replaced, Version past it, or its record removed. */
  ghost predicate CreationHindered(h: seq<Entry>, from: int, kind: Kind, u: string, time: nat -> int, t: nat, t': nat) {
    RecordVanished(h, from, u) || exists k: int :: Hinders(h, from, k, kind, u, time, t, t')
  }

  lemma PrepareHinders(h: seq<Entry>, from: int, at: int, kind: Kind, u: string, e: Error, time: nat -> int, t: nat, t': nat)
    requires 0 <= from <= at && PrepareRefused(h, at, kind, u, e, time, t, t')
    ensures CreationHindered(h, from, kind, u, time, t, t')
  {
    assert Hinders(h, from, at, kind, u, time, t, t');
  }

  lemma CommitHinders(a: seq<Entry>, h: seq<Entry>, since: int, at: int, inc: string, u: string, generation: nat, kind: Kind,
                      e: Error, time: nat -> int, t: nat, t': nat)
    requires a <= h && AsOf(a, since, inc, u, generation, kind) && !kind.Preview? && since <= at
    requires CommitRefused(h, at, inc, u, generation, e, time, t, t')
    ensures CreationHindered(h, since, kind, u, time, t, t')
  {
    assert h[since] == a[since];
    if e.ConcurrentMutation? && h[at].s.disk.stack.value.incarnation == inc && !exists v :: BumpedPast(h[at].s, u, v) {
      var st := h[at].s.disk.stack.value;
      var i: nat :| t <= i < t' && !LiveLock(st, u, generation, time(i));
      assert NotLive(st, u, time(i)) || Replaced(h, since, at, kind);
    } else if e.ConcurrentMutation? && h[at].s.disk.stack.value.incarnation != inc {
      assert Replaced(h, since, at, kind);
    }
    assert Hinders(h, since, at, kind, u, time, t, t');
  }

  lemma AdmitHinders(a: seq<Entry>, h: seq<Entry>, since: int, at: int, inc: string, u: string, generation: nat,
                     e: Error, time: nat -> int, t: nat, t': nat)
    requires a <= h && AsOf(a, since, inc, u, generation, Preview) && since <= at && AdmitRefused(h, at, inc, e)
    ensures CreationHindered(h, since, Preview, u, time, t, t')
  {
    assert h[since] == a[since];
    assert e.ConcurrentMutation? ==> Replaced(h, since, at, Preview);
    assert Hinders(h, since, at, Preview, u, time, t, t');
  }

  /** Seen from an earlier moment, over more readings of the clock. */
  lemma HinderedLater(h: seq<Entry>, from: int, since: int, kind: Kind, u: string, time: nat -> int,
                      s: nat, s': nat, t: nat, t': nat)
    requires 0 <= from <= since && t <= s && s' <= t' && CreationHindered(h, since, kind, u, time, s, s')
    ensures CreationHindered(h, from, kind, u, time, t, t')
  {
    if RecordVanished(h, since, u) {
      VanishedLater(h, h, from, since, u);
    } else {
      var k: int :| Hinders(h, since, k, kind, u, time, s, s');
      assert Hinders(h, from, k, kind, u, time, t, t');
    }
  }

  /** Seen from a longer history. */
  lemma HinderedOn(a: seq<Entry>, b: seq<Entry>, from: int, kind: Kind, u: string, time: nat -> int, t: nat, t': nat)
    requires 0 <= from && a <= b && CreationHindered(a, from, kind, u, time, t, t')
    ensures CreationHindered(b, from, kind, u, time, t, t')
  {
    if RecordVanished(a, from, u) {
      VanishedLater(a, b, from, from, u);
    } else {
      var k: int :| Hinders(a, from, k, kind, u, time, t, t');
      assert b[k] == a[k];
      if j: int :| from <= j && Replaced(a, j, k, kind) {
        assert Replaced(b, j, k, kind);
      }
      assert Hinders(b, from, k, kind, u, time, t, t');
    }
  }

  // ---------------------------------------------------------------- moving records

  /** Why a record was not moved to the status: it was not there, or it was in another status that does not allow it. */
  ghost predicate MoveRefused(h: seq<Entry>, from: int, was: Found, u: string, status: Status, e: Error) {
    match e
    case StackNotFound => NoRecordSeen(h, from, u)
    case UpdateNotFound => NoRecordSeen(h, from, u)
    case InvalidUpdateState =>
      && RecordSeen(h, from, was.incarnation, u, was.update)
      && was.update.status != status && !StatusStep(was.update.status, status)
    case _ => false
  }

  // ---------------------------------------------------------------- checkpoint reads

  /** A document with a pointer is answered by the object it points to, one without by checkpoints/latest.json. */
  ghost predicate AnswersLatest(d: Disk, st: Stack, read: Option<Deployment>) {
    match st.latestCheckpointKey
    case Some(key) => if key in d.blobs then read == Some(d.blobs[key]) else read == None
    case None => if LatestKey(st.incarnation) in d.blobs then read == Some(d.blobs[LatestKey(st.incarnation)]) else read == None
  }

  /** A version in the index is answered by the object it points to, any other by its checkpoints/history file. */
  ghost predicate AnswersVersion(d: Disk, st: Stack, version: int, read: Option<Deployment>) {
    var key := if version in st.checkpointVersions then st.checkpointVersions[version] else HistoryKey(st.incarnation, version);
    if key in d.blobs then read == Some(d.blobs[key]) else read == None
  }

  /** How a read that takes two requests ends: answered without a setback, without a stack, or with one request failed. */
  ghost predicate GetAnswered(r: Result<Deployment>, failed: int, d: Disk) {
    || (Answered(r) && failed == 0)
    || (r == Err(StackNotFound) && failed == 0 && d.stack.None?)
    || (r == Err(Transport) && failed == 1)
  }

  // ---------------------------------------------------------------- deletion

  ghost predicate NotOwnIn(time: nat -> int, from: nat, to: nat, st: Stack, u: string, generation: nat) {
    exists i: nat :: from <= i < to && !LiveLock(st, u, generation, time(i))
  }

  /** At h[k] there is no live deletion fence of this update and generation over this incarnation. */
  ghost predicate NoFenceAt(h: seq<Entry>, k: int, inc: string, u: string, generation: nat, time: nat -> int, t: nat, t': nat) {
    && 0 <= k < |h|
    && (!Current(h[k].s.disk, inc) || !DeletionID(u) || NotOwnIn(time, t, t', h[k].s.disk.stack.value, u, generation))
  }

  /** At h[k] the document is not the one the deletion started from, or its fence has run out. */
  ghost predicate LostAt(h: seq<Entry>, k: int, st: Stack, u: string, generation: nat, time: nat -> int, t: nat, t': nat) {
    0 <= k < |h| && (h[k].s.disk.stack != Some(st) || NotOwnIn(time, t, t', st, u, generation))
  }

  ghost predicate FenceLost(h: seq<Entry>, from: int, st: Stack, u: string, generation: nat, time: nat -> int, t: nat, t': nat) {
    exists k: int :: from <= k && LostAt(h, k, st, u, generation, time, t, t')
  }

  lemma LostSince(h: seq<Entry>, from: int, since: int, st: Stack, u: string, generation: nat, time: nat -> int,
                  s: nat, s': nat, t: nat, t': nat)
    requires from <= since && t <= s && s' <= t' && FenceLost(h, since, st, u, generation, time, s, s')
    ensures FenceLost(h, from, st, u, generation, time, t, t')
  {
    var k: int :| since <= k && LostAt(h, k, st, u, generation, time, s, s');
    assert LostAt(h, k, st, u, generation, time, t, t');
  }

  ghost predicate AbsentAt(h: seq<Entry>, k: int, inc: string, key: Key) {
    0 <= k < |h| && !Belongs(h[k].s.disk, inc, key)
  }

  /** Since h[from], the object was once not in the bucket. */
  ghost predicate AbsentSeen(h: seq<Entry>, from: int, inc: string, key: Key) {
    exists k: int :: from <= k && AbsentAt(h, k, inc, key)
  }

  lemma AbsentLater(a: seq<Entry>, b: seq<Entry>, from: int, inc: string, keys: seq<Key>)
    requires a <= b
    ensures forall key | key in keys && AbsentSeen(a, from, inc, key) :: AbsentSeen(b, from, inc, key)
  {
    forall key | key in keys && AbsentSeen(a, from, inc, key) ensures AbsentSeen(b, from, inc, key) {
      var k: int :| from <= k && AbsentAt(a, k, inc, key);
      assert AbsentAt(b, k, inc, key);
    }
  }

  lemma AbsentSince(h: seq<Entry>, from: int, since: int, inc: string, key: Key)
    requires from <= since && AbsentSeen(h, since, inc, key)
    ensures AbsentSeen(h, from, inc, key)
  {
    var k: int :| since <= k && AbsentAt(h, k, inc, key);
    assert AbsentAt(h, k, inc, key);
  }

  lemma AbsentAllSince(h: seq<Entry>, from: int, since: int, inc: string, keys: seq<Key>)
    requires from <= since && forall key | key in keys :: AbsentSeen(h, since, inc, key)
    ensures forall key | key in keys :: AbsentSeen(h, from, inc, key)
  {
    forall key | key in keys ensures AbsentSeen(h, from, inc, key) {
      AbsentSince(h, from, since, inc, key);
    }
  }

  /** At h[k] the incarnation owns an object that, since h[from], was once not in the bucket. */
  ghost predicate CameBack(h: seq<Entry>, from: int, k: int, inc: string) {
    0 <= k < |h| && exists key :: Belongs(h[k].s.disk, inc, key) && AbsentSeen(h[..k + 1], from, inc, key)
  }

  ghost predicate CameBackSince(h: seq<Entry>, from: int, inc: string) {
    exists k: int :: from <= k && CameBack(h, from, k, inc)
  }

  /** The objects listed at the end of h1 have all been absent once by the end of h2; this one is there at the end. */
  lemma BackAgain(h1: seq<Entry>, h2: seq<Entry>, h: seq<Entry>, from: int, inc: string, listed: seq<Key>, key: Key)
    requires |h1| > 0 && h1 <= h2 <= h && from <= |h1| - 1 && Belongs(Last(h).disk, inc, key)
    requires forall k :: k in listed <==> Belongs(Last(h1).disk, inc, k)
    requires forall k | k in listed :: AbsentSeen(h2, |h1| - 1, inc, k)
    ensures CameBack(h, from, |h| - 1, inc)
  {
    if key in listed {
      AbsentLater(h2, h, |h1| - 1, inc, [key]);
      assert AbsentSeen(h, |h1| - 1, inc, key);
      AbsentSince(h, from, |h1| - 1, inc, key);
    } else {
      assert h[|h1| - 1] == h1[|h1| - 1];
      assert AbsentAt(h, |h1| - 1, inc, key);
    }
    assert h[..|h| - 1 + 1] == h;
  }

  /** Why a deletion refused, bucket failures apart: since h[from] there was no live fence of this update and generation
      over the incarnation, or a document seen under it was replaced, or an object came back. */
  ghost predicate DeletionRefused(h: seq<Entry>, from: int, inc: string, u: string, generation: nat, time: nat -> int, t: nat, t': nat) {
    || (exists k: int :: from <= k && NoFenceAt(h, k, inc, u, generation, time, t, t'))
    || (exists j: int, k: int :: from <= j <= k && ChangedBetween(h, j, k))
    || CameBackSince(h, from, inc)
  }

  /** What the errors of DeleteStack that name a lock say of the document it read at h[seen]. */
  ghost predicate TurnedAway(h: seq<Entry>, seen: int, e: Error, time: nat -> int, t: nat, t': nat) {
    && (e.LockHeld? ==>
          && 0 <= seen < |h| && h[seen].s.disk.stack.Some? && h[seen].s.disk.stack.value.lock == Some(e.lock)
          && !DeletionID(e.lock.updateID))
    && (e.NoLock? ==>
          && 0 <= seen < |h| && h[seen].s.disk.stack.Some?
          && (h[seen].s.disk.stack.value.lock.None?
              || exists i: nat :: t <= i < t' && h[seen].s.disk.stack.value.lock.value.Expired(time(i))))
  }

  ghost predicate ChangedBetween(h: seq<Entry>, j: int, k: int) {
    0 <= j <= k < |h| && h[j].s.disk.stack != h[k].s.disk.stack
  }

  lemma RefusedSince(h: seq<Entry>, from: int, seen: int, st: Stack, u: string, generation: nat, time: nat -> int, t: nat, t': nat)
    requires 0 <= from <= seen < |h| && h[seen].s.disk.stack == Some(st)
    requires FenceLost(h, seen, st, u, generation, time, t, t') || CameBackSince(h, seen, st.incarnation)
    ensures DeletionRefused(h, from, st.incarnation, u, generation, time, t, t')
  {
    if FenceLost(h, seen, st, u, generation, time, t, t') {
      var k: int :| seen <= k && LostAt(h, k, st, u, generation, time, t, t');
      if h[k].s.disk.stack != Some(st) {
        assert ChangedBetween(h, seen, k);
      } else {
        assert NoFenceAt(h, k, st.incarnation, u, generation, time, t, t');
      }
    } else {
      var k: int :| seen <= k && CameBack(h, seen, k, st.incarnation);
      var key :| Belongs(h[k].s.disk, st.incarnation, key) && AbsentSeen(h[..k + 1], seen, st.incarnation, key);
      AbsentSince(h[..k + 1], from, seen, st.incarnation, key);
      assert CameBack(h, from, k, st.incarnation);
    }
  }

  // ---------------------------------------------------------------- ending updates

  /** Since h[from], the update had no record, or one that had succeeded or failed. */
  ghost predicate Uncancellable(h: seq<Entry>, from: int, u: string) {
    NoRecordSeen(h, from, u) || UnfitSeen(h, from, u, ANY_KIND, {NotStarted, InProgress, Cancelled})
  }

  /** Since h[from], the update had no record, or one that was neither in progress nor as asked for. */
  ghost predicate Incompletable(h: seq<Entry>, from: int, u: string, status: Status) {
    NoRecordSeen(h, from, u) || UnfitSeen(h, from, u, ANY_KIND, {InProgress, status})
  }

  lemma MoveRefusedIs(h: seq<Entry>, from: int, since: int, was: Found, u: string, status: Status, e: Error, statuses: set<Status>)
    requires from <= since && MoveRefused(h, since, was, u, status, e)
    requires was.update.status != status && !StatusStep(was.update.status, status) ==> was.update.status !in statuses
    ensures NoRecordSeen(h, from, u) || UnfitSeen(h, from, u, ANY_KIND, statuses)
  {
    if e.InvalidUpdateState? {
      RecordIsUnfit(h, since, was, u, ANY_KIND, statuses);
      UnfitLater(h, h, from, since, u, ANY_KIND, statuses);
    } else {
      NoRecordLater(h, h, from, since, u);
    }
  }

  lemma NoStackNoRecord(h: seq<Entry>, from: int, since: int, u: string)
    requires from <= since && NoStackSeen(h, since)
    ensures NoRecordSeen(h, from, u)
  {
    var k: int :| since <= k && NoStackAt(h, k);
    assert NoRecordAt(h, k, u);
  }

  /** What was seen of an update's end is still so when seen from an earlier moment over a longer history. */
  lemma EndedLater(a: seq<Entry>, b: seq<Entry>, from: int, since: int, u: string, status: Status)
    requires a <= b && from <= since
    ensures StatusSeen(a, from, u, status) || StatusSeen(b, since, u, status) ==> StatusSeen(b, from, u, status)
    ensures Incompletable(b, since, u, status) ==> Incompletable(b, from, u, status)
  {
    SeenLater(a, b, from, u, status);
    if StatusSeen(b, since, u, status) {
      SeenSince(b, from, since, u, status);
    }
    if NoRecordSeen(b, since, u) {
      NoRecordLater(b, b, from, since, u);
    }
    if UnfitSeen(b, since, u, ANY_KIND, {InProgress, status}) {
      UnfitLater(b, b, from, since, u, ANY_KIND, {InProgress, status});
    }
  }

  // ---------------------------------------------------------------- starting and saving

  /** Since h[from], the update had no record, or one that had ended. */
  ghost predicate Unstartable(h: seq<Entry>, from: int, u: string) {
    NoRecordSeen(h, from, u) || UnfitSeen(h, from, u, ANY_KIND, {NotStarted, InProgress})
  }

  const LOCKING := {Deploy, Refresh, Destroy, Import}

  /** Since h[from], the update had no record, or one of a preview or not in progress. */
  ghost predicate Unsavable(h: seq<Entry>, from: int, u: string) {
    NoRecordSeen(h, from, u) || UnfitSeen(h, from, u, LOCKING, {InProgress})
  }

  /** The commit is one of the update whose record this is: its incarnation and its version. */
  predicate CommitOf(c: Commit, f: Found, u: string, deployment: Deployment) {
    && c.updateID == u && c.deployment == deployment && c.incarnation == f.incarnation && c.version == f.update.version
    && !f.update.kind.Preview? && f.update.status.InProgress?
  }

  // ---------------------------------------------------------------- creating

  /** The lock was asked for and refused, bucket failures apart. */
  ghost predicate LockRefused(h: seq<Entry>, from: int, inc: string, u: string, owner: string, e: Error,
                              time: nat -> int, t: nat, t': nat) {
    exists at: int :: from <= at && AcquireRefused(h, at, inc, u, owner, e, time, t, t')
  }

  /** The creation of the update that holds the lock cannot be resumed: since h[from], it had no record, or one of another
      kind or not waiting to start, or its lock was missed, or something stood in the way. */
  ghost predicate ReplayBarred(h: seq<Entry>, from: int, kind: Kind, held: Lock, time: nat -> int, t: nat, t': nat) {
    || NoRecordSeen(h, from, held.updateID)
    || UnfitSeen(h, from, held.updateID, {kind}, {NotStarted})
    || LockMissed(h, from, held.updateID, held.generation, time, t, t')
    || CreationHindered(h, from, kind, held.updateID, time, t, t')
  }

  lemma ReplayBarredLater(h: seq<Entry>, from: int, since: int, kind: Kind, held: Lock, time: nat -> int,
                          s: nat, s': nat, t: nat, t': nat)
    requires 0 <= from <= since && t <= s && s' <= t' && ReplayBarred(h, since, kind, held, time, s, s')
    ensures ReplayBarred(h, from, kind, held, time, t, t')
  {
    if NoRecordSeen(h, since, held.updateID) {
      NoRecordLater(h, h, from, since, held.updateID);
    } else if UnfitSeen(h, since, held.updateID, {kind}, {NotStarted}) {
      UnfitLater(h, h, from, since, held.updateID, {kind}, {NotStarted});
    } else if LockMissed(h, since, held.updateID, held.generation, time, s, s') {
      MissedLater(h, h, from, since, held.updateID, held.generation, time, s, s', t, t');
    } else {
      HinderedLater(h, from, since, kind, held.updateID, time, s, s', t, t');
    }
  }

  /** The lock was refused and, if it is one of the same owner's, the update that holds it could not be resumed. */
  ghost predicate CreationBarred(h: seq<Entry>, from: int, kind: Kind, inc: string, u: string, owner: string,
                                 time: nat -> int, t: nat, t': nat) {
    exists e: Error ::
      && LockRefused(h, from, inc, u, owner, e, time, t, t')
      && (e.LockHeld? && e.lock.owner == owner ==> ReplayBarred(h, from, kind, e.lock, time, t, t'))
  }

  // ---------------------------------------------------------------- saves refused

  /** A save for the record `f` was turned down, at the generation the update's lock was renewed at since h[from]. */
  ghost predicate SaveTurnedDown(h: seq<Entry>, from: int, f: Found, u: string, ttl: int, time: nat -> int, t: nat, t': nat) {
    exists k: int, at: int, c: Commit, e: Error ::
      && from <= k && TakenAt(h, k, u, ttl, time, t, t') && SaveRefused(h, at, c, e, time, t, t') && k <= at
      && c.updateID == u && c.incarnation == f.incarnation && c.version == f.update.version
      && c.generation == h[k].op.generation
  }

  lemma SaveRefusedIs(a: seq<Entry>, h: seq<Entry>, from: int, k: int, at: int, f: Found, c: Commit, ttl: int, e: Error,
                      time: nat -> int, t: nat, s: nat, t': nat)
    requires a <= h && from <= k <= at && t <= s <= t' && TakenAt(a, k, c.updateID, ttl, time, t, s)
    requires c.incarnation == f.incarnation && c.version == f.update.version && c.generation == a[k].op.generation
    requires SaveRefused(h, at, c, e, time, s, t')
    ensures SaveTurnedDown(h, from, f, c.updateID, ttl, time, t, t')
  {
    assert h[k] == a[k];
    assert TakenAt(h, k, c.updateID, ttl, time, t, t');
    assert SaveRefused(h, at, c, e, time, t, t');
  }

  /** The lock of the stack as it was at h[k] was asked for and refused. */
  ghost predicate CreationBarredSince(h: seq<Entry>, from: int, kind: Kind, u: string, owner: string,
                                      time: nat -> int, t: nat, t': nat) {
    exists k: int, inc: string :: from <= k && CurrentAt(h, k, inc) && CreationBarred(h, k, kind, inc, u, owner, time, t, t')
  }

  /** A refusal of the lock, seen from a longer history over more readings of the clock. */
  lemma RefusedOn(a: seq<Entry>, b: seq<Entry>, from: int, at: int, inc: string, u: string, owner: string, e: Error,
                  time: nat -> int, t: nat, s: nat, t': nat)
    requires a <= b && from <= at && t <= s <= t' && AcquireRefused(a, at, inc, u, owner, e, time, t, s)
    ensures LockRefused(b, from, inc, u, owner, e, time, t, t')
  {
    assert AcquireRefused(b, at, inc, u, owner, e, time, t, t');
  }

  // ---------------------------------------------------------------- stacks

  /** No fence was to be had: the lock was refused and, if it is the live fence of an earlier request of the same owner, it
      could not be renewed. */
  ghost predicate FenceDenied(h: seq<Entry>, from: int, inc: string, u: string, owner: string, time: nat -> int, t: nat, t': nat) {
    exists e: Error ::
      && LockRefused(h, from, inc, u, owner, e, time, t, t')
      && (e.LockHeld? && e.lock.owner == owner && DeletionID(e.lock.updateID) ==>
            || (exists i: nat :: t <= i < t' && e.lock.Expired(time(i)))
            || LockMissed(h, from, e.lock.updateID, e.lock.generation, time, t, t'))
  }

  /** The lock of the stack as it was at some moment since h[from] was asked for and refused. */
  ghost predicate LockDeniedSince(h: seq<Entry>, from: int, u: string, owner: string, time: nat -> int, t: nat, t': nat) {
    exists k: int, inc: string, e: Error :: from <= k && CurrentAt(h, k, inc) && LockRefused(h, k, inc, u, owner, e, time, t, t')
  }

  /** Since h[from], the fence was held for this owner, taken for this long. */
  ghost predicate FenceHad(h: seq<Entry>, from: int, fence: Lock, owner: string, ttl: int, time: nat -> int, t: nat, t': nat) {
    && DeletionID(fence.updateID) && fence.generation > 0 && HolderSeen(h, from, fence.updateID, owner)
    && LeaseTaken(h, from, fence.updateID, ttl, time, t, t')
  }

  lemma FenceHadSince(h: seq<Entry>, from: int, since: int, fence: Lock, owner: string, ttl: int, time: nat -> int, t: nat, t': nat)
    requires from <= since && FenceHad(h, since, fence, owner, ttl, time, t, t')
    ensures FenceHad(h, from, fence, owner, ttl, time, t, t')
  {
    HolderSeenOn(h, h, from, since, fence.updateID, owner);
    TakenLater(h, h, from, since, fence.updateID, ttl, time, t, t', t, t');
  }

  ghost predicate FenceDeniedTo(h: seq<Entry>, from: int, u: string, owner: string, time: nat -> int, t: nat, t': nat) {
    exists k: int, inc: string :: from <= k && CurrentAt(h, k, inc) && FenceDenied(h, k, inc, u, owner, time, t, t')
  }

  lemma DeletionRefusedWider(h: seq<Entry>, from: int, since: int, inc: string, u: string, generation: nat,
                             time: nat -> int, s: nat, t: nat, t': nat)
    requires 0 <= from <= since && t <= s <= t' && DeletionRefused(h, since, inc, u, generation, time, s, t')
    ensures DeletionRefused(h, from, inc, u, generation, time, t, t')
  {
    if k: int :| since <= k && NoFenceAt(h, k, inc, u, generation, time, s, t') {
      assert NoFenceAt(h, k, inc, u, generation, time, t, t');
    } else if j: int, k: int :| since <= j <= k && ChangedBetween(h, j, k) {
      assert ChangedBetween(h, j, k);
    } else {
      CameBackWider(h, from, since, inc);
    }
  }

  lemma CameBackWider(h: seq<Entry>, from: int, since: int, inc: string)
    requires from <= since && CameBackSince(h, since, inc)
    ensures CameBackSince(h, from, inc)
  {
    var k: int :| since <= k && CameBack(h, since, k, inc);
    var key :| Belongs(h[k].s.disk, inc, key) && AbsentSeen(h[..k + 1], since, inc, key);
    AbsentSince(h[..k + 1], from, since, inc, key);
    assert CameBack(h, from, k, inc);
  }

  lemma DeletionRefusedSince(h: seq<Entry>, from: int, since: int, inc: string, u: string, generation: nat,
                             time: nat -> int, t: nat, t': nat)
    requires 0 <= from <= since && t <= t' && DeletionRefused(h, since, inc, u, generation, time, t, t')
    ensures DeletionRefused(h, from, inc, u, generation, time, t, t')
  {
    DeletionRefusedWider(h, from, since, inc, u, generation, time, t, t, t');
  }

  ghost predicate NotCurrentAt(h: seq<Entry>, k: int, inc: string) {
    0 <= k < |h| && !Current(h[k].s.disk, inc)
  }

  /** Since h[from], the stack was once not of this incarnation, or not there. */
  ghost predicate NotCurrentSeen(h: seq<Entry>, from: int, inc: string) {
    exists k: int :: from <= k && NotCurrentAt(h, k, inc)
  }

  /** A stack just made could not be taken back: no fence was to be had for it, or it was replaced, or its deletion was
      refused. */
  ghost predicate RollbackDenied(h: seq<Entry>, from: int, inc: string, u: string, owner: string, generation: nat,
                                 time: nat -> int, t: nat, t': nat) {
    if generation == 0 then exists e: Error :: LockRefused(h, from, inc, u, owner, e, time, t, t')
    else
      || DeletionRefused(h, from, inc, u, generation, time, t, t')
      || (NotCurrentSeen(h, from, inc) && ReleaseAsked(h, from, u, generation))
  }

  lemma RollbackRefused(h: seq<Entry>, from: int, since: int, inc: string, u: string, owner: string, generation: nat,
                        time: nat -> int, s: nat, t': nat, t: nat)
    requires 0 <= from <= since && t <= s <= t' && generation > 0
    requires DeletionRefused(h, since, inc, u, generation, time, s, t')
             || (NotCurrentSeen(h, since, inc) && ReleaseAsked(h, since, u, generation))
    ensures RollbackDenied(h, from, inc, u, owner, generation, time, t, t')
  {
    if DeletionRefused(h, since, inc, u, generation, time, s, t') {
      DeletionRefusedWider(h, from, since, inc, u, generation, time, s, t, t');
    } else {
      AskedLater(h, h, from, since, u, generation);
      var k: int :| since <= k && NotCurrentAt(h, k, inc);
      assert NotCurrentAt(h, k, inc);
    }
  }

  /** The commit was refused, bucket failures apart. */
  ghost predicate SaveDenied(h: seq<Entry>, from: int, c: Commit, time: nat -> int, t: nat, t': nat) {
    exists at: int, e: Error :: from <= at && SaveRefused(h, at, c, e, time, t, t')
  }

  lemma SaveRefusedOn(a: seq<Entry>, b: seq<Entry>, from: int, at: int, c: Commit, e: Error, time: nat -> int,
                      s: nat, s': nat, t: nat, t': nat)
    requires a <= b && from <= at && t <= s && s' <= t' && SaveRefused(a, at, c, e, time, s, s')
    ensures SaveDenied(b, from, c, time, t, t')
  {
    assert SaveRefused(b, at, c, e, time, t, t');
  }

  lemma LockRefusedOn(a: seq<Entry>, b: seq<Entry>, from: int, inc: string, u: string, owner: string, e: Error,
                      time: nat -> int, t: nat, s: nat, t': nat)
    requires a <= b && t <= s <= t' && LockRefused(a, from, inc, u, owner, e, time, t, s)
    ensures LockRefused(b, from, inc, u, owner, e, time, t, t')
  {
    var at: int :| from <= at && AcquireRefused(a, at, inc, u, owner, e, time, t, s);
    RefusedOn(a, b, from, at, inc, u, owner, e, time, t, s, t');
  }

  // ---------------------------------------------------------------- imports

  /** The commit an import makes for the record it has created. */
  ghost predicate ImportCommit(h: seq<Entry>, from: int, c: Commit, f: Found) {
    RecordSeen(h, from, f.incarnation, c.updateID, f.update) && c.incarnation == f.incarnation && c.version == f.update.version
  }

  /** Why an import that has its lock was refused, bucket failures apart: its update could not be created, started,
      committed or completed. */
  ghost predicate ImportDenied(h: seq<Entry>, from: int, u: string, generation: nat, deployment: Deployment,
                               time: nat -> int, t: nat, t': nat) {
    || CreationHindered(h, from, Import, u, time, t, t')
    || Unstartable(h, from, u) || Incompletable(h, from, u, Succeeded)
    || (exists c: Commit, f: Found ::
          && ImportCommit(h, from, c, f) && SaveDenied(h, from, c, time, t, t')
          && c.updateID == u && c.generation == generation && c.deployment == deployment)
  }

  /** The same as of some moment of a longer history. */
  ghost predicate ImportDeniedBy(h: seq<Entry>, from: int, u: string, generation: nat, deployment: Deployment,
                                 time: nat -> int, t: nat, t': nat) {
    exists k: int :: 0 <= k <= |h| && ImportDenied(h[..k], from, u, generation, deployment, time, t, t')
  }

  ghost predicate ImportDeniedSince(h: seq<Entry>, from: int, u: string, generation: nat, deployment: Deployment,
                                    time: nat -> int, t: nat, t': nat) {
    exists k: int, s: nat :: from <= k && t <= s && ImportDeniedBy(h, k, u, generation, deployment, time, s, t')
  }
}
