/** The request handlers of internal/api/updates.go and internal/api/stacks.go as clients of the store. A
    handler's answer is a value; identity, routing and status codes are left out. `token` is the generation
    the request's update token carries, 0 when there is none. A refusal is never free: without a setback in the
    bucket it has a cause that was seen there. */
module Api {
  import opened Types
  import opened Protocol
  import opened Invariant
  import opened Stability
  import opened Contracts
  import opened Silence
  import opened Store
  import opened Reads
  import opened Outcomes
  import Deletion

  datatype Answer =
    | Refused(error: Error)
    | UpdateCreated(updateID: string)
    | UpdateStarted(version: int, generation: nat)
    | LeaseRenewed(generation: nat)
    | StackCreated
    | StillInUse                     // the stack's checkpoint lists resources
    | Unreadable                     // the stack's checkpoint cannot be parsed
    | CheckFailed(error: Error)      // the stack's checkpoint could not be read
    | UnknownKind
    | NoContent

  /** How a deletion under its fence went: it began at h[start], after so many setbacks and readings of the clock, saw the
      fence at h[seen] and the incarnation empty at h[empty], and made its check at h[checked]. */
  datatype Course = Course(start: int, before: nat, ticked: nat, seen: int, empty: int, checked: int)

  /** No record at all. */
  const NOTHING := Found(Update("", Preview, NotStarted, 0, 0, 0, ""), "")

  class Server {
    const store: S3Store
    const leaseDuration: int

    constructor (store: S3Store, leaseDuration: int)
      ensures this.store == store && this.leaseDuration == leaseDuration
    {
      this.store, this.leaseDuration := store, leaseDuration;
    }

    /** Permission to end the update: an update minted as a preview may have its record moved and nothing else. */
    ghost predicate MayEnd(updateID: string, status: Status)
      requires |store.h| > 0
      reads store
    {
      && store.MayDo(EndingPreview(updateID, status))
      && (IsKind(store.Now(), updateID, Preview) || store.MayDo(Ending(updateID, status)))
    }

    lemma MayEndAs(updateID: string, kind: Kind, status: Status, preview: bool)
      requires store.MayDo(EndingPreview(updateID, status)) && (preview || store.MayDo(Ending(updateID, status)))
      requires preview ==> kind.Preview?
      ensures store.MayDo(Moving(updateID, kind, status)) && (!kind.Preview? ==> store.MayDo(Ending(updateID, status)))
    {
      if kind.Preview? {
        assert forall op :: Allows(Moving(updateID, kind, status), op) ==> Allows(EndingPreview(updateID, status), op);
      } else {
        assert forall op :: Allows(Moving(updateID, kind, status), op) ==> Allows(Ending(updateID, status), op);
      }
    }

    /** Permission to start the update, likewise. */
    ghost predicate MayStart(updateID: string)
      requires |store.h| > 0
      reads store
    {
      && store.MayDo(StartingPreview(updateID))
      && (IsKind(store.Now(), updateID, Preview) || store.MayDo(StartingUpdate(updateID)))
    }

    /** requireLiveLock: the lock seen in force is this update's, at the given generation unless that is 0, and has
        not run out by the clock reading `now`. */
    method RequireLiveLock(updateID: string, generation: nat) returns (r: Result<Lock>, ghost at: int, now: int)
      requires store.Valid()
      modifies store`disk, store`h, store`setbacks, store`ticks
      ensures store.Valid() && store.Onward() && |old(store.h)| - 1 <= at < |store.h|
      ensures now == store.time(old(store.ticks)) && store.ticks == old(store.ticks) + 1
      ensures r.Ok? ==> Holder(store.h[at].s.disk) == Some(r.value) && r.value.updateID == updateID
                        && (generation != 0 ==> r.value.generation == generation) && !r.value.Expired(now)
      ensures r.Err? ==>
                || store.setbacks > old(store.setbacks)
                || MissedAt(store.h, at, updateID, generation, store.time, old(store.ticks), store.ticks)
    {
      var lock, seen := store.GetLock();
      at := seen;
      now := store.Clock();
      if lock.Err? || lock.value.updateID != updateID || (generation != 0 && lock.value.generation != generation)
         || lock.value.Expired(now) {
        r := Err(ConcurrentMutation);
      } else {
        r := lock;
      }
    }

    /** releaseUpdateLock: finding the lock in other hands counts as released. Asking is the first thing it does. */
    method ReleaseUpdateLock(updateID: string, generation: nat) returns (ok: bool, ghost at: int)
      requires store.Valid() && store.MayDo(Releasing(updateID, generation))
      modifies store`disk, store`h, store`setbacks
      ensures store.Valid() && store.Onward() && |old(store.h)| <= at < |store.h|
      ensures AsksRelease(store.h, |old(store.h)|, updateID, generation)
      ensures if ok then LetGo(store.h[at].s.disk, updateID, generation) else store.setbacks > old(store.setbacks)
    {
      var r, seen := store.ReleaseLock(updateID, generation);
      at := seen;
      ok := r.Ok? || r.error.LockHeld?;
    }

    /** The record of an update to be cancelled, marked so unless it is already. */
    method MarkCancelled(u: Update, updateID: string, ghost since: int) returns (r: Result<()>)
      requires store.Valid() && Execution(store.h) && IsKind(store.Now(), updateID, u.kind)
      requires store.MayDo(Moving(updateID, u.kind, Cancelled))
      requires since < |store.h| && StatusSeen(store.h, since, updateID, u.status)
      modifies store
      ensures store.Valid() && store.Onward()
      ensures r.Ok? ==> StatusSeen(store.h, since, updateID, Cancelled)
      ensures r.Err? ==> store.setbacks > old(store.setbacks) || Uncancellable(store.h, since, updateID)
    {
      r := Ok(());
      if !u.status.Cancelled? {
        ghost var start := |store.h| - 1;
        var completed, was, _ := store.CompleteUpdate(updateID, Cancelled, "cancelled by user");
        r := completed;
        if r.Ok? {
          SeenNow(store.h, since, was.incarnation, updateID);
        } else if store.setbacks == old(store.setbacks) {
          MoveRefusedIs(store.h, since, start, was, updateID, Cancelled, r.error, {NotStarted, InProgress, Cancelled});
        }
      }
    }

    /** cancelUpdate for an update that locks, once its record has been read. */
    method CancelLocking(u: Update, updateID: string, ghost since: int) returns (a: Answer)
      requires store.Valid() && Execution(store.h) && IsKind(store.Now(), updateID, u.kind)
      requires store.MayDo(Moving(updateID, u.kind, Cancelled)) && store.MayDo(Ending(updateID, Cancelled))
      requires updateID in store.Now().aux.retired
      requires since < |store.h| && StatusSeen(store.h, since, updateID, u.status)
      modifies store
      ensures store.Valid() && store.Onward()
      ensures a.NoContent? ==> StatusSeen(store.h, since, updateID, Cancelled)
      ensures a.NoContent? && !LegacyClaim(old(store.disk), updateID) ==> Gone(store.Now(), updateID)
      ensures !a.NoContent? ==>
                a.Refused? && (store.setbacks > old(store.setbacks) || Uncancellable(store.h, since, updateID))
    {
      ghost var h0 := store.h;
      var lock, seen := store.GetLock();
      ghost var h2 := store.h;
      if lock.Err? && lock.error != NoLock {
        assert store.setbacks == old(store.setbacks) ==> NoRecordAt(h2, seen, updateID);
        return Refused(lock.error);
      }
      ExecutionLater(h0, h2);
      KindLater(h0, h2, updateID, u.kind);
      SeenLater(h0, h2, since, updateID, u.status);
      var marked := MarkCancelled(u, updateID, since);
      if marked.Err? {
        return Refused(marked.error);
      }
      a := ReleaseSeen(lock, updateID, since, h0, h2, seen);
    }

    /** cancelUpdate's last step: the lock, if it was seen to be the update's, is given up. */
    method ReleaseSeen(lock: Result<Lock>, updateID: string, ghost since: int, ghost h0: seq<Entry>, ghost h2: seq<Entry>, ghost seen: int)
      returns (a: Answer)
      requires store.Valid() && store.MayDo(Ending(updateID, Cancelled)) && StatusSeen(store.h, since, updateID, Cancelled)
      requires |h0| > 0 && h0 <= h2 <= store.h && |h0| - 1 <= seen < |h2| && updateID in Last(h0).aux.retired
      requires if lock.Ok? then Holder(h2[seen].s.disk) == Some(lock.value)
               else Holder(h2[seen].s.disk).None? || LegacyMode(h2[seen].s.disk)
      modifies store`disk, store`h, store`setbacks
      ensures store.Valid() && store.Onward() && StatusSeen(store.h, since, updateID, Cancelled)
      ensures a.NoContent? && !LegacyClaim(Last(h0).disk, updateID) ==> Gone(store.Now(), updateID)
      ensures !a.NoContent? ==> a.Refused? && store.setbacks > old(store.setbacks)
    {
      ghost var h3 := store.h;
      if lock.Ok? && lock.value.updateID == updateID {
        var ok, at := ReleaseUpdateLock(updateID, lock.value.generation);
        if ok {
          AfterRelease(h0, h0, h2, store.h, seen, at, updateID, lock.value.generation);
        }
        a := if ok then NoContent else Refused(Transport);
      } else {
        NothingToRelease(h0, h0, h2, store.h, seen, updateID);
        a := NoContent;
      }
      SeenLater(h3, store.h, since, updateID, Cancelled);
    }

    /** Marks an update cancelled and gives up its lock. When it answers NoContent for an update that locks, the
        update has let go of the stack for good, unless lock.json claimed the stack for it at the start. `f` is the
        record it found. */
    method CancelUpdate(updateID: string) returns (a: Answer, ghost f: Found)
      requires store.Valid() && Execution(store.h) && MayEnd(updateID, Cancelled)
      modifies store
      ensures store.Valid() && store.Onward()
      ensures a.NoContent? ==>
                && RecordSeen(store.h, |old(store.h)| - 1, f.incarnation, updateID, f.update)
                && StatusSeen(store.h, |old(store.h)| - 1, updateID, Cancelled)
      ensures a.NoContent? && !f.update.kind.Preview? && !LegacyClaim(old(store.disk), updateID) ==>
                Gone(store.Now(), updateID)
      ensures !a.NoContent? ==>
                && a.Refused?
                && (store.setbacks > old(store.setbacks) || Uncancellable(store.h, |old(store.h)| - 1, updateID))
    {
      ghost var h0 := store.h;
      f := NOTHING;
      var got, _ := store.GetUpdate(updateID);
      ghost var h1 := store.h;
      if got.Err? {
        a := Refused(got.error);
      } else {
        var u := got.value.update;
        f := got.value;
        ExecutionLater(h0, h1);
        SeenNow(h1, |h0| - 1, f.incarnation, updateID);
        if u.status.Succeeded? || u.status.Failed? {
          RecordIsUnfit(h1, |h0| - 1, f, updateID, ANY_KIND, {NotStarted, InProgress, Cancelled});
          a := Refused(InvalidUpdateState);
        } else {
          a := CancelFound(got.value, updateID, h0);
          RecordSeenLater(h1, store.h, |h0| - 1, |h0| - 1, f.incarnation, updateID, u);
        }
      }
    }

    /** cancelUpdate once a record it can cancel has been read. */
    method CancelFound(f: Found, updateID: string, ghost h0: seq<Entry>) returns (a: Answer)
      requires store.Valid() && Execution(h0) && h0 <= store.h && RecordIs(store.disk, f.incarnation, updateID, f.update)
      requires store.MayDo(EndingPreview(updateID, Cancelled))
      requires IsKind(Last(h0), updateID, Preview) || store.MayDo(Ending(updateID, Cancelled))
      modifies store
      ensures store.Valid() && store.Onward()
      ensures a.NoContent? ==> StatusSeen(store.h, |h0| - 1, updateID, Cancelled)
      ensures a.NoContent? && !f.update.kind.Preview? && !LegacyClaim(Last(h0).disk, updateID) ==> Gone(store.Now(), updateID)
      ensures !a.NoContent? ==>
                a.Refused? && (store.setbacks > old(store.setbacks) || Uncancellable(store.h, |h0| - 1, updateID))
    {
      var u := f.update;
      ghost var h1 := store.h;
      ExecutionLater(h0, h1);
      CarryOver(h0, h1, updateID);
      SeenNow(h1, |h0| - 1, f.incarnation, updateID);
      RecordNamesItself(h0, h1, f.incarnation, updateID);
      MayEndAs(updateID, u.kind, Cancelled, IsKind(Last(h0), updateID, Preview));
      if u.kind.Preview? {
        var marked := MarkCancelled(u, updateID, |h0| - 1);
        a := if marked.Ok? then NoContent else Refused(marked.error);
      } else {
        RecordIsRetired(h1, f.incarnation, updateID);
        a := CancelLocking(u, updateID, |h0| - 1);
      }
    }

    /** completeUpdate for an update that already has the status asked for: only the lock is left to give up. A
        request without a token takes the generation from the lock itself, and gives nothing up if that is 0. */
    method ReplayCompletion(updateID: string, token: nat, ghost status: Status) returns (a: Answer)
      requires store.Valid() && Execution(store.h) && store.MayDo(Ending(updateID, status))
      requires updateID in store.Now().aux.retired && (token > 0 ==> (updateID, token) in store.Now().aux.tokens)
      modifies store`disk, store`h, store`setbacks
      ensures store.Valid() && store.Onward()
      ensures a.NoContent? && CanLetGo(old(store.disk), updateID, token, true) ==> Gone(store.Now(), updateID)
      ensures !a.NoContent? ==>
                a.Refused? && (store.setbacks > old(store.setbacks) || NoStackSeen(store.h, |old(store.h)| - 1))
    {
      ghost var h0 := store.h;
      var generation := token;
      ghost var seen := |h0| - 1;
      if generation == 0 {
        var lock, at := store.GetLock();
        seen := at;
        if lock.Ok? && lock.value.updateID == updateID {
          generation := lock.value.generation;
        } else if lock.Err? && lock.error != NoLock {
          assert store.setbacks == old(store.setbacks) ==> NoStackAt(store.h, at);
          return Refused(lock.error);
        }
      }
      ghost var h2 := store.h;
      if generation != 0 {
        var ok, at := ReleaseUpdateLock(updateID, generation);
        if !ok {
          return Refused(Transport);
        }
        if token == 0 {
          AfterRelease(h0, h0, h2, store.h, seen, at, updateID, generation);
        } else {
          AfterTokenRelease(h0, store.h, at, updateID, token);
        }
      } else {
        NothingNumbered(h0, h2, store.h, seen, updateID);
      }
      a := NoContent;
    }

    /** completeUpdate for a preview in progress. */
    method FinishPreview(updateID: string, status: Status) returns (a: Answer)
      requires store.Valid() && Execution(store.h) && IsKind(store.Now(), updateID, Preview) && status.Terminal()
      requires store.MayDo(Moving(updateID, Preview, status))
      modifies store
      ensures store.Valid() && store.Onward()
      ensures a.NoContent? ==> StatusSeen(store.h, |old(store.h)| - 1, updateID, status)
      ensures !a.NoContent? ==>
                && a.Refused?
                && (store.setbacks > old(store.setbacks) || Incompletable(store.h, |old(store.h)| - 1, updateID, status))
    {
      ghost var start := |store.h| - 1;
      var completed, was, _ := store.CompleteUpdate(updateID, status, "");
      if completed.Ok? {
        SeenNow(store.h, start, was.incarnation, updateID);
        a := NoContent;
      } else {
        if store.setbacks == old(store.setbacks) {
          MoveRefusedIs(store.h, start, start, was, updateID, status, completed.error, {InProgress, status});
        }
        a := Refused(completed.error);
      }
    }

    /** completeUpdate for an update in progress that locks: it has to hold the stack. */
    method FinishLocking(kind: Kind, updateID: string, status: Status, token: nat) returns (a: Answer)
      requires store.Valid() && Execution(store.h) && IsKind(store.Now(), updateID, kind) && status.Terminal()
      requires store.MayDo(Moving(updateID, kind, status)) && store.MayDo(Ending(updateID, status))
      requires !kind.Preview? && updateID in store.Now().aux.retired
      modifies store
      ensures store.Valid() && store.Onward()
      ensures a.NoContent? ==> StatusSeen(store.h, |old(store.h)| - 1, updateID, status)
      ensures a.NoContent? && !LegacyClaim(old(store.disk), updateID) ==> Gone(store.Now(), updateID)
      ensures !a.NoContent? ==>
                && a.Refused?
                && (|| store.setbacks > old(store.setbacks)
                    || Incompletable(store.h, |old(store.h)| - 1, updateID, status)
                    || LockMissed(store.h, |old(store.h)| - 1, updateID, token, store.time, old(store.ticks), store.ticks))
    {
      ghost var h0, t0 := store.h, store.ticks;
      var live, seen, now := RequireLiveLock(updateID, token);
      ghost var h2, t2 := store.h, store.ticks;
      if live.Err? {
        return Refused(live.error);
      }
      ExecutionLater(h0, h2);
      KindLater(h0, h2, updateID, kind);
      a := RecordAndRelease(kind, updateID, status, live.value, h0, seen);
      EndedLater(h2, store.h, |h0| - 1, |h2| - 1, updateID, status);
    }

    /** The same once its lock has been seen, at h[seen]. */
    method RecordAndRelease(ghost kind: Kind, updateID: string, status: Status, live: Lock, ghost h0: seq<Entry>, ghost seen: int)
      returns (a: Answer)
      requires store.Valid() && Execution(store.h) && IsKind(store.Now(), updateID, kind) && status.Terminal()
      requires store.MayDo(Moving(updateID, kind, status)) && store.MayDo(Ending(updateID, status))
      requires |h0| > 0 && h0 <= store.h && |h0| - 1 <= seen < |store.h| && updateID in Last(h0).aux.retired
      requires Holder(store.h[seen].s.disk) == Some(live) && live.updateID == updateID
      modifies store
      ensures store.Valid() && store.Onward()
      ensures a.NoContent? ==> StatusSeen(store.h, |old(store.h)| - 1, updateID, status)
      ensures a.NoContent? && !LegacyClaim(Last(h0).disk, updateID) ==> Gone(store.Now(), updateID)
      ensures !a.NoContent? ==>
                && a.Refused?
                && (store.setbacks > old(store.setbacks) || Incompletable(store.h, |old(store.h)| - 1, updateID, status))
    {
      ghost var h2 := store.h;
      var completed, was, _ := store.CompleteUpdate(updateID, status, "");
      if completed.Err? {
        if store.setbacks == old(store.setbacks) {
          MoveRefusedIs(store.h, |h2| - 1, |h2| - 1, was, updateID, status, completed.error, {InProgress, status});
        }
        a := Refused(completed.error);
      } else {
        ghost var h3 := store.h;
        SeenNow(h3, |h2| - 1, was.incarnation, updateID);
        var ok, at := ReleaseUpdateLock(updateID, live.generation);
        if ok {
          AfterRelease(h0, h0, h2, store.h, seen, at, updateID, live.generation);
        }
        SeenLater(h3, store.h, |h2| - 1, updateID, status);
        a := if ok then NoContent else Refused(Transport);
      }
    }

    /** Records the outcome of an update and gives up its lock. When it answers NoContent for an update that locks,
        the update has let go of the stack for good, unless at the start lock.json claimed the stack for it, or this
        was a replay without a token and the update held the stack under a lock without a generation. `f` is the
        record it found; a replay found the status asked for. */
    method CompleteUpdate(updateID: string, status: Status, token: nat) returns (a: Answer, ghost f: Found)
      requires store.Valid() && Execution(store.h) && MayEnd(updateID, status)
      requires token > 0 ==> (updateID, token) in store.Now().aux.tokens
      modifies store
      ensures store.Valid() && store.Onward()
      ensures a.NoContent? ==>
                && RecordSeen(store.h, |old(store.h)| - 1, f.incarnation, updateID, f.update)
                && (f.update.status == status || f.update.status.InProgress?) && status in {Succeeded, Failed}
                && StatusSeen(store.h, |old(store.h)| - 1, updateID, status)
      ensures a.NoContent? && !f.update.kind.Preview? ==>
                CanLetGo(old(store.disk), updateID, token, f.update.status == status) ==> Gone(store.Now(), updateID)
      ensures !a.NoContent? ==>
                && a.Refused?
                && (|| store.setbacks > old(store.setbacks) || status !in {Succeeded, Failed}
                    || Incompletable(store.h, |old(store.h)| - 1, updateID, status)
                    || LockMissed(store.h, |old(store.h)| - 1, updateID, token, store.time, old(store.ticks), store.ticks))
    {
      ghost var h0 := store.h;
      f := NOTHING;
      if !status.Succeeded? && !status.Failed? {
        a := Refused(InvalidUpdateState);
      } else {
        var got, _ := store.GetUpdate(updateID);
        ghost var h1 := store.h;
        if got.Err? {
          a := Refused(got.error);
        } else {
          f := got.value;
          ExecutionLater(h0, h1);
          SeenNow(h1, |h0| - 1, f.incarnation, updateID);
          if got.value.update.status != status && !got.value.update.status.InProgress? {
            RecordIsUnfit(h1, |h0| - 1, f, updateID, ANY_KIND, {InProgress, status});
            a := Refused(InvalidUpdateState);
          } else {
            a := CompleteFound(got.value, updateID, status, token, h0);
            RecordSeenLater(h1, store.h, |h0| - 1, |h0| - 1, f.incarnation, updateID, f.update);
          }
        }
      }
    }

    /** completeUpdate once a record it can go on from has been read. */
    method CompleteFound(f: Found, updateID: string, status: Status, token: nat, ghost h0: seq<Entry>) returns (a: Answer)
      requires store.Valid() && Execution(h0) && h0 <= store.h && RecordIs(store.disk, f.incarnation, updateID, f.update)
      requires f.update.status == status || f.update.status.InProgress?
      requires store.MayDo(EndingPreview(updateID, status)) && status.Terminal()
      requires IsKind(Last(h0), updateID, Preview) || store.MayDo(Ending(updateID, status))
      requires token > 0 ==> (updateID, token) in Last(h0).aux.tokens
      modifies store
      ensures store.Valid() && store.Onward()
      ensures a.NoContent? ==> StatusSeen(store.h, |h0| - 1, updateID, status)
      ensures a.NoContent? && !f.update.kind.Preview? ==>
                CanLetGo(Last(h0).disk, updateID, token, f.update.status == status) ==> Gone(store.Now(), updateID)
      ensures !a.NoContent? ==>
                && a.Refused?
                && (|| store.setbacks > old(store.setbacks) || Incompletable(store.h, |h0| - 1, updateID, status)
                    || LockMissed(store.h, |h0| - 1, updateID, token, store.time, old(store.ticks), store.ticks))
    {
      ghost var h1, t1 := store.h, store.ticks;
      ExecutionLater(h0, h1);
      CarryOver(h0, h1, updateID);
      SeenNow(h1, |h0| - 1, f.incarnation, updateID);
      RecordNamesItself(h0, h1, f.incarnation, updateID);
      MayEndAs(updateID, f.update.kind, status, IsKind(Last(h0), updateID, Preview));
      if f.update.kind.Preview? {
        if f.update.status == status {
          a := NoContent;
        } else {
          a := FinishPreview(updateID, status);
        }
      } else {
        RecordIsRetired(h1, f.incarnation, updateID);
        if f.update.status == status {
          a := ReplayCompletion(updateID, token, status);
          if NoStackSeen(store.h, |h1| - 1) {
            NoStackNoRecord(store.h, |h0| - 1, |h1| - 1, updateID);
          }
        } else {
          a := FinishLocking(f.update.kind, updateID, status, token);
          if LockMissed(store.h, |h1| - 1, updateID, token, store.time, t1, store.ticks) {
            MissedLater(store.h, store.h, |h0| - 1, |h1| - 1, updateID, token, store.time, t1, store.ticks, t1, store.ticks);
          }
        }
      }
      EndedLater(h1, store.h, |h0| - 1, |h1| - 1, updateID, status);
    }

    // -------------------------------------------------------------- starting, renewing, saving

    /** Renews the lock of an update seen to hold the stack; the renewed generation then names the update's lock
        for good, so a token may carry it. */
    method RenewLive(updateID: string, token: nat, ttl: int) returns (r: Result<Lock>, ghost at: int)
      requires store.Valid() && store.MayDo(Renewing(updateID, token)) && updateID in store.Now().aux.retired
      modifies store
      ensures store.Valid() && store.Onward() && updateID in store.Now().aux.retired
      ensures r.Ok? ==>
                && r.value.generation > 0 && (token != 0 ==> r.value.generation == token)
                && Pinned(store.Now(), updateID, r.value.generation)
                && |old(store.h)| <= at && TakenAt(store.h, at, updateID, ttl, store.time, old(store.ticks), store.ticks)
                && store.h[at].op.generation == r.value.generation
      ensures r.Err? ==>
                || store.setbacks > old(store.setbacks)
                || LockMissed(store.h, |old(store.h)| - 1, updateID, token, store.time, old(store.ticks), store.ticks)
    {
      ghost var h0, t0 := store.h, store.ticks;
      var live, seen, now := RequireLiveLock(updateID, token);
      ghost var h1, t1 := store.h, store.ticks;
      if live.Err? {
        at := |h0| - 1;
        r := live;
      } else {
        r, at := store.RenewLock(updateID, live.value.generation, ttl);
        if r.Ok? {
          RenewedIsPinned(h0, store.h, at, updateID, r.value);
          assert Leased(store.time, t0, store.ticks, store.h[at].op.now, r.value.expiresAt, ttl);
        } else if store.setbacks == old(store.setbacks) {
          RenewalMissed(h0, h1, store.h, seen, at, updateID, token, live.value, r.error, store.time, t0, t1, store.ticks);
        }
      }
      KeptLater(h0, store.h);
    }

    /** The record of an update about to start, marked as in progress unless it is already. */
    method MarkStarted(u: Update, updateID: string, ghost since: int) returns (r: Result<()>)
      requires store.Valid() && Execution(store.h) && IsKind(store.Now(), updateID, u.kind)
      requires store.MayDo(Moving(updateID, u.kind, InProgress))
      requires u.status.NotStarted? || u.status.InProgress?
      requires since < |store.h| && StatusSeen(store.h, since, updateID, u.status)
      modifies store
      ensures store.Valid() && store.Onward()
      ensures r.Ok? ==> StatusSeen(store.h, since, updateID, InProgress)
      ensures r.Err? ==> store.setbacks > old(store.setbacks) || Unstartable(store.h, since, updateID)
    {
      r := Ok(());
      if u.status.NotStarted? {
        ghost var start := |store.h| - 1;
        var started, was, _ := store.StartUpdate(updateID);
        r := started;
        if r.Ok? {
          SeenNow(store.h, since, was.incarnation, updateID);
        } else if store.setbacks == old(store.setbacks) {
          MoveRefusedIs(store.h, since, start, was, updateID, InProgress, r.error, {NotStarted, InProgress});
        }
      }
    }

    /** startUpdate for a preview: its token carries no generation. */
    method StartPreview(u: Update, updateID: string, ghost since: int) returns (a: Answer)
      requires store.Valid() && Execution(store.h) && IsKind(store.Now(), updateID, Preview) && u.kind.Preview?
      requires store.MayDo(StartingPreview(updateID)) && (u.status.NotStarted? || u.status.InProgress?)
      requires since < |store.h| && StatusSeen(store.h, since, updateID, u.status)
      modifies store
      ensures store.Valid() && store.Onward()
      ensures a.UpdateStarted? ==> a == UpdateStarted(u.version, 0) && StatusSeen(store.h, since, updateID, InProgress)
      ensures !a.UpdateStarted? ==>
                a.Refused? && (store.setbacks > old(store.setbacks) || Unstartable(store.h, since, updateID))
    {
      assert store.MayDo(Moving(updateID, Preview, InProgress));
      var marked := MarkStarted(u, updateID, since);
      if marked.Err? {
        a := Refused(marked.error);
      } else {
        ghost var h2 := store.h;
        store.Did(IssueToken(updateID, 0));
        SeenLater(h2, store.h, since, updateID, InProgress);
        a := UpdateStarted(u.version, 0);
      }
    }

    /** startUpdate for an update that locks: the token handed out carries the generation of the lock it renewed. */
    method StartLocking(u: Update, updateID: string, ghost since: int) returns (a: Answer)
      requires store.Valid() && Execution(store.h) && IsKind(store.Now(), updateID, u.kind) && !u.kind.Preview?
      requires store.MayDo(StartingUpdate(updateID)) && updateID in store.Now().aux.retired
      requires u.status.NotStarted? || u.status.InProgress?
      requires 0 <= since < |store.h| && StatusSeen(store.h, since, updateID, u.status)
      modifies store
      ensures store.Valid() && store.Onward()
      ensures a.UpdateStarted? ==>
                && a.version == u.version && StatusSeen(store.h, since, updateID, InProgress)
                && a.generation > 0 && (updateID, a.generation) in store.Now().aux.tokens
                && LeaseTaken(store.h, since, updateID, leaseDuration, store.time, old(store.ticks), store.ticks)
      ensures !a.UpdateStarted? ==>
                && a.Refused?
                && (|| store.setbacks > old(store.setbacks) || Unstartable(store.h, since, updateID)
                    || LockMissed(store.h, since, updateID, 0, store.time, old(store.ticks), store.ticks))
    {
      ghost var h0, t0 := store.h, store.ticks;
      var renewed, at1 := RenewLive(updateID, 0, leaseDuration);
      ghost var h1, t1 := store.h, store.ticks;
      if renewed.Err? {
        if store.setbacks == old(store.setbacks) {
          MissedLater(h1, h1, since, |h0| - 1, updateID, 0, store.time, t0, t1, t0, t1);
        }
        return Refused(renewed.error);
      }
      ExecutionLater(h0, h1);
      KindLater(h0, h1, updateID, u.kind);
      SeenLater(h0, h1, since, updateID, u.status);
      assert store.MayDo(Moving(updateID, u.kind, InProgress));
      var marked := MarkStarted(u, updateID, since);
      if marked.Err? {
        return Refused(marked.error);
      }
      ghost var h2 := store.h;
      IssueUpdateToken(updateID, renewed.value.generation, h1);
      SeenLater(h2, store.h, since, updateID, InProgress);
      TakenLater(h1, store.h, since, at1, updateID, leaseDuration, store.time, t0, t1, t0, store.ticks);
      a := UpdateStarted(u.version, renewed.value.generation);
    }

    /** startUpdate. The version it answers is that of the record `f` it found. */
    method StartUpdate(updateID: string) returns (a: Answer, ghost f: Found)
      requires store.Valid() && Execution(store.h) && MayStart(updateID)
      modifies store
      ensures store.Valid() && store.Onward()
      ensures a.UpdateStarted? ==>
                && RecordSeen(store.h, |old(store.h)| - 1, f.incarnation, updateID, f.update) && a.version == f.update.version
                && StatusSeen(store.h, |old(store.h)| - 1, updateID, InProgress)
      ensures a.UpdateStarted? && f.update.kind.Preview? ==> a.generation == 0
      ensures a.UpdateStarted? && !f.update.kind.Preview? ==>
                && a.generation > 0 && (updateID, a.generation) in store.Now().aux.tokens
                && LeaseTaken(store.h, |old(store.h)| - 1, updateID, leaseDuration, store.time, old(store.ticks), store.ticks)
      ensures !a.UpdateStarted? ==>
                && a.Refused?
                && (|| store.setbacks > old(store.setbacks) || Unstartable(store.h, |old(store.h)| - 1, updateID)
                    || LockMissed(store.h, |old(store.h)| - 1, updateID, 0, store.time, old(store.ticks), store.ticks))
    {
      ghost var h0 := store.h;
      f := NOTHING;
      var got, _ := store.GetUpdate(updateID);
      ghost var h1 := store.h;
      if got.Err? {
        a := Refused(got.error);
      } else {
        var u := got.value.update;
        f := got.value;
        ExecutionLater(h0, h1);
        SeenNow(h1, |h0| - 1, f.incarnation, updateID);
        RecordNamesItself(h0, h1, f.incarnation, updateID);
        if !u.status.NotStarted? && !u.status.InProgress? {
          RecordIsUnfit(h1, |h0| - 1, f, updateID, ANY_KIND, {NotStarted, InProgress});
          a := Refused(InvalidUpdateState);
        } else {
          if u.kind.Preview? {
            a := StartPreview(u, updateID, |h0| - 1);
          } else {
            RecordIsRetired(h1, f.incarnation, updateID);
            a := StartLocking(u, updateID, |h0| - 1);
          }
          RecordSeenLater(h1, store.h, |h0| - 1, |h0| - 1, f.incarnation, updateID, u);
        }
      }
    }

    /** The update token of IssueUpdate: only the generation it carries matters here. */
    ghost method IssueUpdateToken(updateID: string, generation: nat, since: seq<Entry>)
      requires store.Valid() && IssueToken(updateID, generation) in store.may
      requires |since| > 0 && since <= store.h && (generation > 0 ==> Pinned(Last(since), updateID, generation))
      modifies store`h
      ensures store.Valid() && store.Onward()
      ensures generation > 0 ==> (updateID, generation) in store.Now().aux.tokens
    {
      if generation > 0 {
        assert store.h[|since| - 1] == since[|since| - 1];
        PinnedRun(store.h, |since| - 1, |store.h| - 1, updateID, generation);
      }
      store.Did(IssueToken(updateID, generation));
    }

    /** The lease a client may ask for, in seconds. */
    static function Capped(duration: int): (d: int)
      ensures 0 < d <= 300 && (0 < duration <= 300 ==> d == duration)
    {
      if duration <= 0 || duration > 300 then 300 else duration
    }

    method RenewLease(updateID: string, token: nat, duration: int) returns (a: Answer, ghost f: Found)
      requires store.Valid() && Execution(store.h)
      requires IsKind(store.Now(), updateID, Preview) || store.MayDo(RenewingLease(updateID, token))
      modifies store
      ensures store.Valid() && store.Onward()
      ensures a.LeaseRenewed? ==> RecordSeen(store.h, |old(store.h)| - 1, f.incarnation, updateID, f.update)
      ensures a.LeaseRenewed? && f.update.kind.Preview? ==> a.generation == token
      ensures a.LeaseRenewed? && !f.update.kind.Preview? ==>
                && a.generation > 0 && (token != 0 ==> a.generation == token)
                && (updateID, a.generation) in store.Now().aux.tokens
                && LeaseTaken(store.h, |old(store.h)| - 1, updateID, Capped(duration), store.time, old(store.ticks), store.ticks)
      ensures !a.LeaseRenewed? ==>
                && a.Refused?
                && (|| store.setbacks > old(store.setbacks) || NoRecordSeen(store.h, |old(store.h)| - 1, updateID)
                    || LockMissed(store.h, |old(store.h)| - 1, updateID, token, store.time, old(store.ticks), store.ticks))
    {
      ghost var h0 := store.h;
      f := NOTHING;
      var d := Capped(duration);
      var got, _ := store.GetUpdate(updateID);
      ghost var h1, t1 := store.h, store.ticks;
      if got.Err? {
        a := Refused(got.error);
      } else {
        f := got.value;
        SeenNow(h1, |h0| - 1, f.incarnation, updateID);
        if got.value.update.kind.Preview? {
          a := LeaseRenewed(token);
        } else {
          ExecutionLater(h0, h1);
          RecordNamesItself(h0, h1, f.incarnation, updateID);
          RecordIsRetired(h1, f.incarnation, updateID);
          a := RenewFound(updateID, token, d, |h0| - 1);
          RecordSeenLater(h1, store.h, |h0| - 1, |h0| - 1, f.incarnation, updateID, f.update);
        }
      }
    }

    /** renewLease for an update that locks. */
    method RenewFound(updateID: string, token: nat, duration: int, ghost since: int) returns (a: Answer)
      requires store.Valid() && store.MayDo(RenewingLease(updateID, token)) && updateID in store.Now().aux.retired
      requires 0 <= since < |store.h|
      modifies store
      ensures store.Valid() && store.Onward()
      ensures a.LeaseRenewed? ==>
                && a.generation > 0 && (token != 0 ==> a.generation == token)
                && (updateID, a.generation) in store.Now().aux.tokens
                && LeaseTaken(store.h, since, updateID, duration, store.time, old(store.ticks), store.ticks)
      ensures !a.LeaseRenewed? ==>
                && a.Refused?
                && (|| store.setbacks > old(store.setbacks)
                    || LockMissed(store.h, since, updateID, token, store.time, old(store.ticks), store.ticks))
    {
      ghost var h0, t0 := store.h, store.ticks;
      var renewed, at1 := RenewLive(updateID, token, duration);
      ghost var h1 := store.h;
      if renewed.Err? {
        if store.setbacks == old(store.setbacks) {
          MissedLater(h1, h1, since, |h0| - 1, updateID, token, store.time, t0, store.ticks, t0, store.ticks);
        }
        a := Refused(renewed.error);
      } else {
        IssueUpdateToken(updateID, renewed.value.generation, store.h);
        TakenLater(h1, store.h, since, at1, updateID, duration, store.time, t0, store.ticks, t0, store.ticks);
        a := LeaseRenewed(renewed.value.generation);
      }
    }

    /** saveCheckpointForUpdate: what it needs permission for is the theorem that a save fenced with a non-zero
        token renews and commits at that generation only. Success means the commit landed, at h[at], for an update whose
        record `f` was in progress, under the version of that record. */
    method SaveCheckpointForUpdate(updateID: string, token: nat, deployment: Deployment)
      returns (a: Answer, ghost at: int, ghost f: Found)
      requires store.Valid() && Execution(store.h)
      requires store.MayDo(SavingFor(updateID, token, deployment)) && updateID != ""
      modifies store
      ensures store.Valid() && store.Onward()
      ensures a.NoContent? ==>
                && RecordSeen(store.h, |old(store.h)| - 1, f.incarnation, updateID, f.update)
                && |old(store.h)| <= at < |store.h| && store.h[at].op.Publish?
                && CommitOf(store.h[at].op.commit, f, updateID, deployment)
                && LeaseTaken(store.h, |old(store.h)| - 1, updateID, leaseDuration, store.time, old(store.ticks), store.ticks)
      ensures !a.NoContent? ==>
                && a.Refused?
                && (|| store.setbacks > old(store.setbacks) || Unsavable(store.h, |old(store.h)| - 1, updateID)
                    || LockMissed(store.h, |old(store.h)| - 1, updateID, token, store.time, old(store.ticks), store.ticks)
                    || SaveTurnedDown(store.h, |old(store.h)| - 1, f, updateID, leaseDuration, store.time, old(store.ticks), store.ticks))
    {
      ghost var h0 := store.h;
      at, f := |h0| - 1, NOTHING;
      var got, _ := store.GetUpdate(updateID);
      ghost var h1 := store.h;
      if got.Err? {
        a := Refused(got.error);
      } else {
        f := got.value;
        SeenNow(h1, |h0| - 1, f.incarnation, updateID);
        if got.value.update.kind.Preview? || !got.value.update.status.InProgress? {
          RecordIsUnfit(h1, |h0| - 1, f, updateID, LOCKING, {InProgress});
          a := Refused(InvalidUpdateState);
        } else {
          ExecutionLater(h0, h1);
          RecordIsRetired(h1, f.incarnation, updateID);
          a, at := SaveFound(got.value, updateID, token, deployment, |h0| - 1);
          RecordSeenLater(h1, store.h, |h0| - 1, |h0| - 1, f.incarnation, updateID, f.update);
        }
      }
    }

    /** saveCheckpointForUpdate once the record has been read. */
    method SaveFound(f: Found, updateID: string, token: nat, deployment: Deployment, ghost since: int)
      returns (a: Answer, ghost at: int)
      requires store.Valid() && Execution(store.h) && store.MayDo(SavingFor(updateID, token, deployment)) && updateID != ""
      requires !f.update.kind.Preview? && f.update.status.InProgress? && updateID in store.Now().aux.retired
      requires !DeletionID(updateID) && 0 <= since < |store.h|
      modifies store
      ensures store.Valid() && store.Onward()
      ensures a.NoContent? ==>
                && |old(store.h)| <= at < |store.h| && store.h[at].op.Publish?
                && CommitOf(store.h[at].op.commit, f, updateID, deployment)
                && LeaseTaken(store.h, since, updateID, leaseDuration, store.time, old(store.ticks), store.ticks)
      ensures !a.NoContent? ==>
                && a.Refused?
                && (|| store.setbacks > old(store.setbacks)
                    || LockMissed(store.h, since, updateID, token, store.time, old(store.ticks), store.ticks)
                    || SaveTurnedDown(store.h, since, f, updateID, leaseDuration, store.time, old(store.ticks), store.ticks))
    {
      ghost var h0, t0 := store.h, store.ticks;
      at := |h0| - 1;
      var renewed, at1 := RenewLive(updateID, token, leaseDuration);
      ghost var h1, t1 := store.h, store.ticks;
      if renewed.Err? {
        if store.setbacks == old(store.setbacks) {
          MissedLater(h1, h1, since, |h0| - 1, updateID, token, store.time, t0, t1, t0, t1);
        }
        return Refused(renewed.error), at;
      }
      var c := Commit(f.incarnation, updateID, renewed.value.generation, f.update.version, deployment);
      var saved, landed := store.SaveCheckpoint(c);
      at := landed;
      if saved.Ok? {
        TakenLater(h1, store.h, since, at1, updateID, leaseDuration, store.time, t0, t1, t0, store.ticks);
        a := NoContent;
      } else {
        if store.setbacks == old(store.setbacks) {
          SaveRefusedIs(h1, store.h, since, at1, at, f, c, leaseDuration, saved.error, store.time, t0, t1, store.ticks);
        }
        a := Refused(saved.error);
      }
    }

    // -------------------------------------------------------------- creating updates

    /** Asks for the lock with the update ID the request has minted, once: the ID is then retired. */
    method AcquireOwn(incarnation: string, newID: string, owner: string) returns (r: Result<Lock>, ghost at: int)
      requires store.Valid() && store.MayDo(Acquiring(incarnation, newID, owner)) && Retire(newID) in store.may
      requires newID == store.minted && Unspent(store.Now(), newID, incarnation)
      modifies store
      ensures store.Valid() && store.Onward() && newID in store.Now().aux.retired
      ensures |old(store.h)| - 1 <= at < |store.h|
      ensures r.Ok? ==>
                && |old(store.h)| <= at && Granted(store.h, at, incarnation, newID, owner, r.value)
                && TakenAt(store.h, at, newID, leaseDuration, store.time, old(store.ticks), store.ticks)
      ensures r.Err? ==>
                || store.setbacks > old(store.setbacks)
                || LockRefused(store.h, |old(store.h)| - 1, incarnation, newID, owner, r.error, store.time, old(store.ticks), store.ticks)
      ensures r.Err? && r.error.LockHeld? ==> HolderAt(store.h, at, r.error.lock.updateID, r.error.lock.owner)
    {
      ghost var h0, t0 := store.h, store.ticks;
      r, at := store.AcquireLock(incarnation, newID, owner, leaseDuration);
      ghost var h1, t1 := store.h, store.ticks;
      store.Did(Retire(newID));
      assert store.h[at] == h1[at];
      if r.Err? && store.setbacks == old(store.setbacks) {
        RefusedOn(h1, store.h, |h0| - 1, at, incarnation, newID, owner, r.error, store.time, t0, t1, t1);
      }
    }

    /** createUpdate finding the stack held by the same owner: if the holder's record is still waiting to start,
        the request resumes it. */
    method ReplayCreation(kind: Kind, held: Lock, ghost newID: string, ghost owner: string) returns (r: Result<Found>)
      requires store.Valid() && Execution(store.h) && !kind.Preview?
      requires store.MayDo(CreatingUpdate(kind, newID, owner))
      modifies store
      ensures store.Valid() && store.Onward()
      ensures r.Ok? ==>
                && r.value.update.kind == kind && StatusSeen(store.h, |old(store.h)| - 1, held.updateID, NotStarted)
                && RecordSeen(store.h, |old(store.h)| - 1, r.value.incarnation, held.updateID, r.value.update)
                && LeaseTaken(store.h, |old(store.h)| - 1, held.updateID, leaseDuration, store.time, old(store.ticks), store.ticks)
      ensures r.Ok? ==> OwnsVersion(store.Now(), r.value.incarnation, held.updateID, r.value.update.version)
      ensures r.Err? ==>
                || store.setbacks > old(store.setbacks)
                || ReplayBarred(store.h, |old(store.h)| - 1, kind, held, store.time, old(store.ticks), store.ticks)
    {
      ghost var h0 := store.h;
      var existing, _ := store.GetUpdate(held.updateID);
      ghost var h1 := store.h;
      if existing.Err? {
        r := Err(LockHeld(held));
      } else {
        SeenNow(h1, |h0| - 1, existing.value.incarnation, held.updateID);
        if existing.value.update.kind != kind || !existing.value.update.status.NotStarted? {
          RecordIsUnfit(h1, |h0| - 1, existing.value, held.updateID, {kind}, {NotStarted});
          r := Err(LockHeld(held));
        } else {
          ExecutionLater(h0, h1);
          RecordNamesItself(h0, h1, existing.value.incarnation, held.updateID);
          RecordIsRetired(h1, existing.value.incarnation, held.updateID);
          MayReplay(kind, held, newID, owner);
          r := ResumeCreation(kind, held, |h0| - 1);
          SeenLater(h1, store.h, |h0| - 1, held.updateID, NotStarted);
        }
      }
    }

    lemma MayReplay(kind: Kind, held: Lock, newID: string, owner: string)
      requires store.MayDo(CreatingUpdate(kind, newID, owner)) && !kind.Preview? && !DeletionID(held.updateID)
      ensures store.MayDo(Renewing(held.updateID, held.generation)) && store.MayDo(Recording(held.updateID, kind))
    {
    }

    /** The same once the holder's record has been found waiting to start. */
    method ResumeCreation(kind: Kind, held: Lock, ghost since: int) returns (r: Result<Found>)
      requires store.Valid() && Execution(store.h) && !kind.Preview? && 0 <= since < |store.h|
      requires IsKind(store.Now(), held.updateID, kind) && held.updateID in store.Now().aux.retired && !DeletionID(held.updateID)
      requires store.MayDo(Renewing(held.updateID, held.generation)) && store.MayDo(Recording(held.updateID, kind))
      modifies store
      ensures store.Valid() && store.Onward()
      ensures r.Ok? ==>
                && r.value.update.kind == kind
                && RecordSeen(store.h, since, r.value.incarnation, held.updateID, r.value.update)
                && LeaseTaken(store.h, since, held.updateID, leaseDuration, store.time, old(store.ticks), store.ticks)
                && OwnsVersion(store.Now(), r.value.incarnation, held.updateID, r.value.update.version)
      ensures r.Err? ==>
                || store.setbacks > old(store.setbacks)
                || ReplayBarred(store.h, since, kind, held, store.time, old(store.ticks), store.ticks)
    {
      ghost var h0, t0 := store.h, store.ticks;
      var renewed, at := store.RenewLock(held.updateID, held.generation, leaseDuration);
      ghost var h1, t1 := store.h, store.ticks;
      if renewed.Err? {
        if store.setbacks == old(store.setbacks) {
          RenewRefusedIsMissed(h1, since, at, held.updateID, held.generation, renewed.error, store.time, t0, t1);
        }
        r := Err(renewed.error);
      } else {
        ExecutionLater(h0, h1);
        KeptLater(h0, h1);
        assert TakenAt(h1, at, held.updateID, leaseDuration, store.time, t0, t1);
        var committed, _, _ := store.CreateUpdate(kind, held.updateID);
        r := committed;
        if r.Ok? {
          RecordSeenLater(store.h, store.h, since, |h1| - 1, r.value.incarnation, held.updateID, r.value.update);
          TakenLater(h1, store.h, since, at, held.updateID, leaseDuration, store.time, t0, t1, t0, store.ticks);
        } else if store.setbacks == old(store.setbacks) {
          HinderedLater(store.h, since, |h1| - 1, kind, held.updateID, store.time, t1, store.ticks, t0, store.ticks);
        }
      }
    }

    /** createUpdate for a kind that locks. A lock it was granted, of generation `granted`, is given up again if the update
        cannot be created. */
    method CreateLocking(kind: Kind, incarnation: string, newID: string, owner: string)
      returns (a: Answer, ghost f: Found, ghost granted: nat)
      requires store.Valid() && Execution(store.h) && store.MayDo(CreatingUpdate(kind, newID, owner)) && !kind.Preview?
      requires newID == store.minted && !DeletionID(newID)
      requires newID !in store.Now().aux.retired && newID !in store.Now().aux.home
      requires IsKind(store.Now(), newID, kind)
      modifies store
      ensures store.Valid() && store.Onward()
      ensures a.UpdateCreated? ==>
                && OwnsVersion(store.Now(), f.incarnation, a.updateID, f.update.version)
                && HolderSeen(store.h, |old(store.h)| - 1, a.updateID, owner)
                && LeaseTaken(store.h, |old(store.h)| - 1, a.updateID, leaseDuration, store.time, old(store.ticks), store.ticks)
      ensures !a.UpdateCreated? ==>
                && a.Refused?
                && (if granted > 0 then ReleaseAsked(store.h, |old(store.h)| - 1, newID, granted)
                    else || store.setbacks > old(store.setbacks)
                         || CreationBarred(store.h, |old(store.h)| - 1, kind, incarnation, newID, owner,
                                           store.time, old(store.ticks), store.ticks))
    {
      ghost var h0, t0 := store.h, store.ticks;
      f, granted := NOTHING, 0;
      var lock, at := AcquireOwn(incarnation, newID, owner);
      ghost var h1, t1 := store.h, store.ticks;
      ExecutionLater(h0, h1);
      KindLater(h0, h1, newID, kind);
      if lock.Ok? {
        granted := lock.value.generation;
        a, f := CreateOwn(kind, newID, lock.value.generation, owner);
        if a.UpdateCreated? {
          HolderSeenLater(h1, store.h, |h0| - 1, at, newID, owner);
          TakenLater(h1, store.h, |h0| - 1, at, newID, leaseDuration, store.time, t0, t1, t0, store.ticks);
        } else {
          AskedLater(store.h, store.h, |h0| - 1, |h1| - 1, newID, granted);
        }
      } else if lock.error.LockHeld? && lock.error.lock.owner == owner {
        a, f := ResumeHeld(kind, lock.error.lock, newID, owner, h0, at, t0);
        if !a.UpdateCreated? && store.setbacks == old(store.setbacks) {
          LockRefusedOn(h1, store.h, |h0| - 1, incarnation, newID, owner, lock.error, store.time, t0, t1, store.ticks);
        }
      } else {
        a := Refused(lock.error);
      }
    }

    /** createUpdate holding its own lock. */
    method CreateOwn(kind: Kind, newID: string, generation: nat, ghost owner: string) returns (a: Answer, ghost f: Found)
      requires store.Valid() && Execution(store.h) && store.MayDo(CreatingUpdate(kind, newID, owner)) && !kind.Preview?
      requires !DeletionID(newID) && IsKind(store.Now(), newID, kind) && newID in store.Now().aux.retired
      modifies store
      ensures store.Valid() && store.Onward()
      ensures a.UpdateCreated? ==> a.updateID == newID && OwnsVersion(store.Now(), f.incarnation, newID, f.update.version)
      ensures !a.UpdateCreated? ==> a.Refused? && ReleaseAsked(store.h, |old(store.h)| - 1, newID, generation)
    {
      f := NOTHING;
      var created, _, _ := store.CreateUpdate(kind, newID);
      if created.Ok? {
        f := created.value;
        a := UpdateCreated(newID);
      } else {
        var _, _ := ReleaseUpdateLock(newID, generation);
        a := Refused(created.error);
      }
    }

    /** createUpdate finding the stack held by its own owner, at h[at]. */
    method ResumeHeld(kind: Kind, held: Lock, ghost newID: string, ghost owner: string, ghost h0: seq<Entry>, ghost at: int, ghost t0: nat)
      returns (a: Answer, ghost f: Found)
      requires store.Valid() && Execution(store.h) && !kind.Preview? && store.MayDo(CreatingUpdate(kind, newID, owner))
      requires 0 < |h0| && h0 <= store.h && |h0| - 1 <= at && HolderAt(store.h, at, held.updateID, owner) && t0 <= store.ticks
      modifies store
      ensures store.Valid() && store.Onward()
      ensures a.UpdateCreated? ==>
                && a.updateID == held.updateID && OwnsVersion(store.Now(), f.incarnation, a.updateID, f.update.version)
                && HolderSeen(store.h, |h0| - 1, a.updateID, owner)
                && LeaseTaken(store.h, |h0| - 1, a.updateID, leaseDuration, store.time, t0, store.ticks)
      ensures !a.UpdateCreated? ==>
                && a.Refused?
                && (|| store.setbacks > old(store.setbacks)
                    || ReplayBarred(store.h, |h0| - 1, kind, held, store.time, t0, store.ticks))
    {
      ghost var h1, t1 := store.h, store.ticks;
      f := NOTHING;
      var resumed := ReplayCreation(kind, held, newID, owner);
      if resumed.Ok? {
        f := resumed.value;
        HolderSeenLater(h1, store.h, |h0| - 1, at, held.updateID, owner);
        TakenLater(store.h, store.h, |h0| - 1, |h1| - 1, held.updateID, leaseDuration, store.time, t1, store.ticks, t0, store.ticks);
        a := UpdateCreated(held.updateID);
      } else {
        if store.setbacks == old(store.setbacks) {
          ReplayBarredLater(store.h, |h0| - 1, |h1| - 1, kind, held, store.time, t1, store.ticks, t0, store.ticks);
        }
        a := Refused(resumed.error);
      }
    }

    /** createUpdate for a preview. */
    method CreatePreview(newID: string, ghost since: int) returns (a: Answer, ghost f: Found, ghost admitted: bool)
      requires store.Valid() && Execution(store.h) && store.MayDo(Recording(newID, Preview))
      requires IsKind(store.Now(), newID, Preview) && 0 <= since < |store.h|
      modifies store
      ensures store.Valid() && store.Onward()
      ensures a.UpdateCreated? ==>
                && a.updateID == newID
                && if admitted then store.h[|store.h| - 1].op == Barrier(f.incarnation, newID)
                   else RecordIs(store.disk, f.incarnation, newID, f.update)
      ensures !a.UpdateCreated? ==>
                && a.Refused?
                && (|| store.setbacks > old(store.setbacks)
                    || CreationHindered(store.h, since, Preview, newID, store.time, old(store.ticks), store.ticks))
    {
      ghost var h0, t0 := store.h, store.ticks;
      var created, _, barrier := store.CreateUpdate(Preview, newID);
      admitted := barrier;
      if created.Ok? {
        f := created.value;
        a := UpdateCreated(newID);
      } else {
        f := NOTHING;
        if store.setbacks == old(store.setbacks) {
          HinderedLater(store.h, since, |h0| - 1, Preview, newID, store.time, t0, store.ticks, t0, store.ticks);
        }
        a := Refused(created.error);
      }
    }

    /** createUpdate. An update that locks is created owning a version nobody else ever owned, and is the request's own or
        one of the same owner's; a preview is created behind its barrier unless its record was found to be there
        already. */
    method CreateUpdate(kind: Kind, newID: string, owner: string)
      returns (a: Answer, ghost f: Found, ghost admitted: bool, ghost granted: nat)
      requires store.Valid() && Execution(store.h) && store.MayDo(CreatingUpdate(kind, newID, owner))
      requires newID == store.minted && !DeletionID(newID)
      requires newID !in store.Now().aux.retired && newID !in store.Now().aux.home
      requires newID !in store.Now().aux.kinds
      modifies store
      ensures store.Valid() && store.Onward()
      ensures a.UnknownKind? <==> kind.Import?
      ensures a.UpdateCreated? && !kind.Preview? ==>
                && OwnsVersion(store.Now(), f.incarnation, a.updateID, f.update.version)
                && HolderSeen(store.h, |old(store.h)| - 1, a.updateID, owner)
                && LeaseTaken(store.h, |old(store.h)| - 1, a.updateID, leaseDuration, store.time, old(store.ticks), store.ticks)
      ensures a.UpdateCreated? && kind.Preview? ==>
                && a.updateID == newID
                && if admitted then store.h[|store.h| - 1].op == Barrier(f.incarnation, newID)
                   else RecordIs(store.disk, f.incarnation, newID, f.update)
      ensures !a.UpdateCreated? && !kind.Import? ==> a.Refused?
      ensures a.Refused? && granted > 0 ==> ReleaseAsked(store.h, |old(store.h)| - 1, newID, granted)
      ensures a.Refused? && granted == 0 ==>
                || store.setbacks > old(store.setbacks) || NoStackSeen(store.h, |old(store.h)| - 1)
                || (kind.Preview? && CreationHindered(store.h, |old(store.h)| - 1, kind, newID,
                                                      store.time, old(store.ticks), store.ticks))
                || (!kind.Preview? && CreationBarredSince(store.h, |old(store.h)| - 1, kind, newID, owner,
                                                          store.time, old(store.ticks), store.ticks))
    {
      ghost var h0 := store.h;
      admitted, f, granted := false, NOTHING, 0;
      if kind.Import? {
        a := UnknownKind;
      } else {
        MayCreate(kind, newID, owner);
        store.Did(Mint(newID, kind));
        ghost var h1, t1 := store.h, store.ticks;
        var st := store.GetStack();
        ghost var h2 := store.h;
        ExecutionLater(h0, h2);
        KindLater(h1, h2, newID, kind);
        if st.Err? {
          assert store.setbacks == old(store.setbacks) ==> NoStackAt(h2, |h2| - 1);
          a := Refused(st.error);
        } else if kind.Preview? {
          a, f, admitted := CreatePreview(newID, |h0| - 1);
        } else {
          a, f, granted := CreateLockingSince(kind, st.value.incarnation, newID, owner, |h0| - 1);
        }
      }
    }

    lemma MayCreate(kind: Kind, newID: string, owner: string)
      requires store.MayDo(CreatingUpdate(kind, newID, owner))
      ensures Mint(newID, kind) in store.may && (kind.Preview? ==> store.MayDo(Recording(newID, Preview)))
    {
      assert Allows(CreatingUpdate(kind, newID, owner), Mint(newID, kind));
    }

    /** The same, reported from the start of the request. */
    method CreateLockingSince(kind: Kind, incarnation: string, newID: string, owner: string, ghost since: int)
      returns (a: Answer, ghost f: Found, ghost granted: nat)
      requires store.Valid() && Execution(store.h) && store.MayDo(CreatingUpdate(kind, newID, owner)) && !kind.Preview?
      requires newID == store.minted && !DeletionID(newID) && IsKind(store.Now(), newID, kind)
      requires newID !in store.Now().aux.retired && newID !in store.Now().aux.home
      requires 0 <= since < |store.h| && Current(store.disk, incarnation)
      modifies store
      ensures store.Valid() && store.Onward()
      ensures a.UpdateCreated? ==>
                && OwnsVersion(store.Now(), f.incarnation, a.updateID, f.update.version)
                && HolderSeen(store.h, since, a.updateID, owner)
                && LeaseTaken(store.h, since, a.updateID, leaseDuration, store.time, old(store.ticks), store.ticks)
      ensures !a.UpdateCreated? ==>
                && a.Refused?
                && (if granted > 0 then ReleaseAsked(store.h, since, newID, granted)
                    else || store.setbacks > old(store.setbacks)
                         || CreationBarredSince(store.h, since, kind, newID, owner, store.time, old(store.ticks), store.ticks))
    {
      ghost var h0, t0 := store.h, store.ticks;
      a, f, granted := CreateLocking(kind, incarnation, newID, owner);
      if a.UpdateCreated? {
        HolderSeenOn(store.h, store.h, since, |h0| - 1, a.updateID, owner);
        TakenLater(store.h, store.h, since, |h0| - 1, a.updateID, leaseDuration, store.time, t0, store.ticks, t0, store.ticks);
      } else if granted > 0 {
        AskedLater(store.h, store.h, since, |h0| - 1, newID, granted);
      } else if store.setbacks == old(store.setbacks) {
        assert store.h[|h0| - 1] == h0[|h0| - 1];
        assert CurrentAt(store.h, |h0| - 1, incarnation);
      }
    }

    // -------------------------------------------------------------- stacks

    /** The fence a deletion works under: its own, or the live one an earlier request of the same owner left. */
    method FenceForDeletion(incarnation: string, newID: string, owner: string)
      returns (r: Result<Lock>, ghost held: int)
      requires store.Valid() && store.MayDo(DeletingStack(newID, owner)) && DeletionID(newID)
      requires newID == store.minted && newID !in store.Now().aux.retired && newID !in store.Now().aux.home
      modifies store
      ensures store.Valid() && store.Onward()
      ensures |old(store.h)| - 1 <= held < |store.h|
      ensures r.Ok? ==>
                && DeletionID(r.value.updateID) && HolderSeen(store.h, |old(store.h)| - 1, r.value.updateID, owner)
                && r.value.generation > 0 && Deletion.Carries(store.h[held].s.disk, r.value.updateID, r.value.generation)
                && TakenAt(store.h, held, r.value.updateID, leaseDuration, store.time, old(store.ticks), store.ticks)
      ensures r.Err? ==>
                || store.setbacks > old(store.setbacks)
                || FenceDenied(store.h, |old(store.h)| - 1, incarnation, newID, owner, store.time, old(store.ticks), store.ticks)
    {
      ghost var h0, t0 := store.h, store.ticks;
      MayFence(incarnation, newID, owner);
      var lock, at := AcquireOwn(incarnation, newID, owner);
      ghost var t1 := store.ticks;
      var now := store.Clock();
      ghost var h1, t2 := store.h, store.ticks;
      held := at;
      if lock.Ok? {
        r := lock;
        HolderSeenLater(h1, h1, |h0| - 1, at, newID, owner);
        assert TakenAt(h1, at, newID, leaseDuration, store.time, t0, t2);
      } else if !lock.error.LockHeld? || lock.error.lock.owner != owner || !DeletionID(lock.error.lock.updateID)
                || lock.error.lock.Expired(now) {
        if store.setbacks == old(store.setbacks) {
          LockRefusedOn(h1, h1, |h0| - 1, incarnation, newID, owner, lock.error, store.time, t0, t1, t2);
          assert now == store.time(t1);
        }
        r := lock;
      } else {
        MayResumeFence(lock.error.lock, newID, owner);
        r, held := ResumeFence(lock.error.lock, |h0| - 1, t0);
        HolderSeenLater(h1, store.h, |h0| - 1, at, lock.error.lock.updateID, owner);
        if r.Err? && store.setbacks == old(store.setbacks) {
          LockRefusedOn(h1, store.h, |h0| - 1, incarnation, newID, owner, lock.error, store.time, t0, t1, store.ticks);
        }
      }
    }

    lemma MayFence(incarnation: string, newID: string, owner: string)
      requires store.MayDo(DeletingStack(newID, owner))
      ensures store.MayDo(Acquiring(incarnation, newID, owner)) && Retire(newID) in store.may
    {
      assert Allows(DeletingStack(newID, owner), Retire(newID));
    }

    lemma MayResumeFence(fence: Lock, newID: string, owner: string)
      requires store.MayDo(DeletingStack(newID, owner)) && DeletionID(fence.updateID)
      ensures store.MayDo(Renewing(fence.updateID, fence.generation))
    {
    }

    /** deleteStack finding a fence of its own owner's: it renews that one. */
    method ResumeFence(fence: Lock, ghost since: int, ghost t0: nat) returns (r: Result<Lock>, ghost held: int)
      requires store.Valid() && store.MayDo(Renewing(fence.updateID, fence.generation))
      requires 0 <= since < |store.h| && t0 <= store.ticks
      modifies store
      ensures store.Valid() && store.Onward() && since <= held < |store.h|
      ensures r.Ok? ==>
                && r.value.updateID == fence.updateID && r.value.generation > 0
                && Deletion.Carries(store.h[held].s.disk, r.value.updateID, r.value.generation)
                && TakenAt(store.h, held, r.value.updateID, leaseDuration, store.time, t0, store.ticks)
      ensures r.Err? ==>
                || store.setbacks > old(store.setbacks)
                || LockMissed(store.h, since, fence.updateID, fence.generation, store.time, t0, store.ticks)
    {
      ghost var t2 := store.ticks;
      r, held := store.RenewLock(fence.updateID, fence.generation, leaseDuration);
      if r.Ok? {
        assert Leased(store.time, t0, store.ticks, store.h[held].op.now, r.value.expiresAt, leaseDuration);
      } else if store.setbacks == old(store.setbacks) {
        RenewRefusedIsMissed(store.h, since, held, fence.updateID, fence.generation, r.error, store.time, t2, store.ticks);
        MissedLater(store.h, store.h, since, since, fence.updateID, fence.generation, store.time, t2, store.ticks, t0, store.ticks);
      }
    }

    /** The check of an unforced deletion: there is no checkpoint where the document of h[seen] points, or one that
        lists no resources; otherwise the answer says why. */
    method CheckUnused(hasResources: Deployment -> Option<bool>) returns (refusal: Option<Answer>, ghost seen: int)
      requires store.Valid() && Execution(store.h)
      modifies store`disk, store`h, store`setbacks
      ensures store.Valid() && store.Onward() && |old(store.h)| - 1 <= seen < |store.h|
      ensures match refusal
              case None =>
                && store.setbacks == old(store.setbacks) && store.h[seen].s.disk.stack.Some?
                && exists read :: AnswersLatest(store.disk, store.h[seen].s.disk.stack.value, read) && Unused(hasResources, read)
              case Some(StillInUse) =>
                && store.setbacks == old(store.setbacks) && store.h[seen].s.disk.stack.Some?
                && exists dep :: AnswersLatest(store.disk, store.h[seen].s.disk.stack.value, Some(dep)) && hasResources(dep) == Some(true)
              case Some(Unreadable) =>
                && store.setbacks == old(store.setbacks) && store.h[seen].s.disk.stack.Some?
                && exists dep :: AnswersLatest(store.disk, store.h[seen].s.disk.stack.value, Some(dep)) && hasResources(dep) == None
              case Some(CheckFailed(e)) =>
                || (e == Transport && store.setbacks == old(store.setbacks) + 1)
                || (e == StackNotFound && store.setbacks == old(store.setbacks) && store.disk.stack.None?)
              case _ => false
    {
      var checkpoint, _, at := store.GetCheckpoint();
      seen := at;
      match checkpoint
      case Ok(dep) =>
        assert AnswersLatest(store.disk, store.h[seen].s.disk.stack.value, Some(dep));
        var listed := hasResources(dep);
        refusal := if listed.None? then Some(Unreadable) else if listed.value then Some(StillInUse) else None;
      case Err(e) =>
        assert e.CheckpointNotFound? ==> AnswersLatest(store.disk, store.h[seen].s.disk.stack.value, None);
        refusal := if e.CheckpointNotFound? then None else Some(CheckFailed(e));
    }

    /** What deleteStack under a fence may answer; see Answers below. */
    ghost predicate FencedAnswer(a: Answer, w: Course, incarnation: string, fence: Lock, force: bool,
                                 hasResources: Deployment -> Option<bool>)
      reads store
    {
      forall start | start == w.start :: Answers(a, start, w, incarnation, fence, force, hasResources)
    }

    /** NoContent: the stack was removed under the fence and, unless forced, was unused as far as the check at h[checked]
        can tell. Refused: something in the bucket kept it from being removed. The others: the check turned the deletion
        down, and the fence was given up. */
    ghost predicate Answers(a: Answer, start: int, w: Course, incarnation: string, fence: Lock, force: bool,
                            hasResources: Deployment -> Option<bool>)
      reads store
    {
      match a
      case NoContent =>
        && start <= w.seen && DeletedUnder(store.h, w.seen, w.empty, incarnation, fence.updateID, fence.generation)
        && (!force ==> start <= w.checked <= w.seen && DeletedUnused(store.h, w.checked, incarnation, hasResources))
      case Refused(e) =>
        || store.setbacks > w.before
        || DeletionRefused(store.h, start, incarnation, fence.updateID, fence.generation, store.time, w.ticked, store.ticks)
      case StillInUse => !force && GivenUp(0, w.before, start, w.checked, fence) && InUse(store.h, start, w.checked, hasResources)
      case Unreadable => !force && GivenUp(0, w.before, start, w.checked, fence)
      case CheckFailed(e) => !force && GivenUp(if e == Transport then 1 else 0, w.before, start, w.checked, fence)
      case _ => false
    }

    /** The fence was asked to be released after the check at h[checked], and was, unless more than the setbacks of the
        check itself has gone wrong. */
    ghost predicate GivenUp(failed: nat, before: nat, start: int, checked: int, fence: Lock)
      reads store
    {
      && checked >= start && ReleaseAsked(store.h, checked, fence.updateID, fence.generation)
      && (store.setbacks > before + failed || LetGoSince(store.h, checked, fence.updateID, fence.generation))
    }

    /** deleteStack once its fence stands, as seen at h[held]. A deletion that its check turns down gives up its fence. */
    method DeleteFenced(incarnation: string, lock: Lock, force: bool, hasResources: Deployment -> Option<bool>, ghost held: int)
      returns (a: Answer, ghost w: Course)
      requires store.Valid() && Execution(store.h)
      requires store.MayDo(Deleting(incarnation, lock.updateID, lock.generation))
      requires store.MayDo(Releasing(lock.updateID, lock.generation))
      requires 0 <= held < |store.h| && lock.generation > 0
      requires Deletion.Carries(store.h[held].s.disk, lock.updateID, lock.generation)
      modifies store
      ensures store.Valid() && store.Onward() && FencedAnswer(a, w, incarnation, lock, force, hasResources)
      ensures w.start == |old(store.h)| - 1 && w.before == old(store.setbacks) && w.ticked == old(store.ticks)
    {
      ghost var h0 := store.h;
      w := Course(|h0| - 1, store.setbacks, store.ticks, 0, 0, |h0| - 1);
      if force {
        ghost var seen, empty;
        a, seen, empty := DeleteNow(incarnation, lock);
        w := w.(seen := seen, empty := empty);
      } else {
        var refusal, at := CheckUnused(hasResources);
        w := w.(checked := |store.h| - 1);
        if refusal.Some? {
          a := TurnDown(refusal.value, lock, h0, at, hasResources);
        } else {
          ghost var seen, empty;
          a, seen, empty := DeleteChecked(incarnation, lock, h0, held, at, hasResources);
          w := w.(seen := seen, empty := empty);
        }
      }
    }

    /** deleteStack once its check has passed. */
    method DeleteChecked(incarnation: string, lock: Lock, ghost h0: seq<Entry>, ghost held: int, ghost at: int,
                         ghost hasResources: Deployment -> Option<bool>)
      returns (a: Answer, ghost seen: int, ghost empty: int)
      requires store.Valid() && Execution(h0) && h0 <= store.h
      requires store.MayDo(Deleting(incarnation, lock.updateID, lock.generation))
      requires 0 <= held < |h0| && lock.generation > 0 && Deletion.Carries(h0[held].s.disk, lock.updateID, lock.generation)
      requires |h0| - 1 <= at < |store.h| && store.h[at].s.disk.stack.Some?
      requires exists read :: AnswersLatest(store.disk, store.h[at].s.disk.stack.value, read) && Unused(hasResources, read)
      modifies store
      ensures store.Valid() && store.Onward() && |old(store.h)| - 1 <= seen && (a.NoContent? || a.Refused?)
      ensures a.NoContent? ==>
                && DeletedUnder(store.h, seen, empty, incarnation, lock.updateID, lock.generation)
                && DeletedUnused(store.h, |old(store.h)| - 1, incarnation, hasResources)
      ensures a.Refused? ==>
                || store.setbacks > old(store.setbacks)
                || DeletionRefused(store.h, |h0| - 1, incarnation, lock.updateID, lock.generation,
                                   store.time, old(store.ticks), store.ticks)
    {
      ghost var h1 := store.h;
      a, seen, empty := DeleteNow(incarnation, lock);
      if a.NoContent? {
        ExecutionLater(h0, h1);
        RemovedUnused(h0, h1, store.h, held, at, seen, empty, incarnation, lock, hasResources);
      } else if store.setbacks == old(store.setbacks) {
        DeletionRefusedSince(store.h, |h0| - 1, |h1| - 1, incarnation, lock.updateID, lock.generation,
                             store.time, old(store.ticks), store.ticks);
      }
    }

    /** deleteStack's last step. */
    method DeleteNow(incarnation: string, lock: Lock) returns (a: Answer, ghost seen: int, ghost empty: int)
      requires store.Valid() && store.MayDo(Deleting(incarnation, lock.updateID, lock.generation))
      modifies store
      ensures store.Valid() && store.Onward() && |old(store.h)| - 1 <= seen && (a.NoContent? || a.Refused?)
      ensures a.NoContent? ==> DeletedUnder(store.h, seen, empty, incarnation, lock.updateID, lock.generation)
      ensures a.Refused? ==>
                || store.setbacks > old(store.setbacks)
                || DeletionRefused(store.h, |old(store.h)| - 1, incarnation, lock.updateID, lock.generation,
                                   store.time, old(store.ticks), store.ticks)
    {
      var deleted;
      deleted, seen, empty := store.DeleteStack(incarnation, lock.updateID, lock.generation);
      a := if deleted.Ok? then NoContent else Refused(deleted.error);
    }

    /** A deletion that is not to be: the fence is given up, whatever the reason. */
    method TurnDown(refusal: Answer, lock: Lock, ghost h0: seq<Entry>, ghost at: int, ghost hasResources: Deployment -> Option<bool>)
      returns (a: Answer)
      requires store.Valid() && store.MayDo(Releasing(lock.updateID, lock.generation))
      requires |h0| > 0 && h0 <= store.h && |h0| - 1 <= at < |store.h|
      requires refusal.StillInUse? ==>
                 && store.h[at].s.disk.stack.Some?
                 && exists dep :: AnswersLatest(store.disk, store.h[at].s.disk.stack.value, Some(dep)) && hasResources(dep) == Some(true)
      modifies store`disk, store`h, store`setbacks
      ensures store.Valid() && store.Onward() && a == refusal
      ensures ReleaseAsked(store.h, |old(store.h)| - 1, lock.updateID, lock.generation)
      ensures store.setbacks > old(store.setbacks) || LetGoSince(store.h, |old(store.h)| - 1, lock.updateID, lock.generation)
      ensures a.StillInUse? ==> InUse(store.h, |h0| - 1, |old(store.h)| - 1, hasResources)
    {
      ghost var h1 := store.h;
      var ok, k := ReleaseUpdateLock(lock.updateID, lock.generation);
      assert h1[|h1| - 1] == store.h[|h1| - 1] && h1[at] == store.h[at];
      assert ok ==> LetGoAt(store.h, k, lock.updateID, lock.generation);
      if refusal.StillInUse? {
        ghost var dep :| AnswersLatest(Last(h1).disk, h1[at].s.disk.stack.value, Some(dep)) && hasResources(dep) == Some(true);
        assert ListsAt(store.h, at, |h1| - 1, dep);
      }
      a := refusal;
    }

    /** deleteStack of an incarnation, under a fence it gets, or resumes. */
    method DeleteCurrent(incarnation: string, newID: string, owner: string, force: bool, hasResources: Deployment -> Option<bool>)
      returns (a: Answer, ghost fence: Option<Lock>, ghost w: Course)
      requires store.Valid() && Execution(store.h) && store.MayDo(DeletingStack(newID, owner)) && DeletionID(newID)
      requires newID == store.minted && newID !in store.Now().aux.retired && newID !in store.Now().aux.home
      modifies store
      ensures store.Valid() && store.Onward()
      ensures fence.None? ==>
                && a.Refused?
                && (|| store.setbacks > old(store.setbacks)
                    || FenceDenied(store.h, |old(store.h)| - 1, incarnation, newID, owner, store.time, old(store.ticks), store.ticks))
      ensures fence.Some? ==>
                && |old(store.h)| - 1 <= w.start && old(store.setbacks) <= w.before
                && FenceHad(store.h, |old(store.h)| - 1, fence.value, owner, leaseDuration, store.time, old(store.ticks), store.ticks)
                && FencedAnswer(a, w, incarnation, fence.value, force, hasResources)
    {
      ghost var h0, t0 := store.h, store.ticks;
      fence, w := None, Course(0, 0, 0, 0, 0, 0);
      var lock, held := FenceForDeletion(incarnation, newID, owner);
      ghost var h1, t1 := store.h, store.ticks;
      if lock.Err? {
        a := Refused(lock.error);
      } else {
        fence := Some(lock.value);
        ExecutionLater(h0, h1);
        MayDelete(incarnation, lock.value, newID, owner);
        a, w := DeleteFenced(incarnation, lock.value, force, hasResources, held);
        HolderSeenOn(h1, store.h, |h0| - 1, |h0| - 1, lock.value.updateID, owner);
        TakenLater(h1, store.h, |h0| - 1, held, lock.value.updateID, leaseDuration, store.time, t0, t1, t0, store.ticks);
      }
    }

    lemma MayDelete(incarnation: string, fence: Lock, newID: string, owner: string)
      requires store.MayDo(DeletingStack(newID, owner)) && DeletionID(fence.updateID)
      ensures store.MayDo(Deleting(incarnation, fence.updateID, fence.generation))
      ensures store.MayDo(Releasing(fence.updateID, fence.generation))
    {
    }

    /** deleteStack. `fence` is the deletion fence it got or resumed, if any, for this owner; `w` is the course it then
        took. */
    method DeleteStack(newID: string, owner: string, force: bool, hasResources: Deployment -> Option<bool>)
      returns (a: Answer, ghost incarnation: string, ghost fence: Option<Lock>, ghost w: Course)
      requires store.Valid() && Execution(store.h) && store.MayDo(DeletingStack(newID, owner)) && DeletionID(newID)
      requires newID == store.minted && newID !in store.Now().aux.retired && newID !in store.Now().aux.home
      modifies store
      ensures store.Valid() && store.Onward()
      ensures fence.None? ==>
                && a.Refused?
                && (|| store.setbacks > old(store.setbacks) || NoStackSeen(store.h, |old(store.h)| - 1)
                    || FenceDeniedTo(store.h, |old(store.h)| - 1, newID, owner, store.time, old(store.ticks), store.ticks))
      ensures fence.Some? ==>
                && |old(store.h)| - 1 <= w.start && old(store.setbacks) <= w.before
                && WasCurrent(store.h, |old(store.h)| - 1, incarnation)
                && FenceHad(store.h, |old(store.h)| - 1, fence.value, owner, leaseDuration, store.time, old(store.ticks), store.ticks)
                && FencedAnswer(a, w, incarnation, fence.value, force, hasResources)
    {
      ghost var h0 := store.h;
      incarnation, fence, w := "", None, Course(0, 0, 0, 0, 0, 0);
      var got := store.GetStack();
      ghost var h1, t1 := store.h, store.ticks;
      if got.Err? {
        assert store.setbacks == old(store.setbacks) ==> NoStackAt(h1, |h1| - 1);
        a := Refused(got.error);
      } else {
        incarnation := got.value.incarnation;
        ExecutionLater(h0, h1);
        a, fence, w := DeleteCurrent(got.value.incarnation, newID, owner, force, hasResources);
        assert store.h[|h1| - 1] == h1[|h1| - 1];
        assert CurrentAt(store.h, |h1| - 1, incarnation);
        if fence.Some? {
          FenceHadSince(store.h, |h0| - 1, |h1| - 1, fence.value, owner, leaseDuration, store.time, t1, store.ticks);
        }
      }
    }

    /** rollbackFailedStackCreation: deletes the stack just made, under a fence of its own. That it has asked for that
        fence shows in its update ID being retired. */
    method RollbackCreation(incarnation: string, deleteID: string, owner: string)
      returns (r: Result<()>, ghost seen: int, ghost empty: int, ghost generation: nat)
      requires store.Valid() && store.MayDo(RollingBack(incarnation, deleteID, owner)) && incarnation != ""
      requires deleteID == store.minted && DeletionID(deleteID) && Unspent(store.Now(), deleteID, incarnation)
      modifies store
      ensures store.Valid() && store.Onward() && deleteID in store.Now().aux.retired
      ensures r.Ok? ==>
                generation > 0 && |old(store.h)| - 1 <= seen && DeletedUnder(store.h, seen, empty, incarnation, deleteID, generation)
      ensures r.Err? ==>
                || store.setbacks > old(store.setbacks)
                || RollbackDenied(store.h, |old(store.h)| - 1, incarnation, deleteID, owner, generation,
                                  store.time, old(store.ticks), store.ticks)
    {
      ghost var h0, t0 := store.h, store.ticks;
      seen, empty, generation := 0, 0, 0;
      MayRollBack(incarnation, deleteID, owner);
      var lock, at := AcquireOwn(incarnation, deleteID, owner);
      ghost var h1, t1 := store.h, store.ticks;
      if lock.Err? {
        r := Err(lock.error);
      } else {
        generation := lock.value.generation;
        MayRollBackUnder(incarnation, deleteID, owner, generation);
        r, seen, empty := DeleteOrRelease(incarnation, deleteID, lock.value.generation);
        if r.Err? && store.setbacks == old(store.setbacks) {
          RollbackRefused(store.h, |h0| - 1, |h1| - 1, incarnation, deleteID, owner, generation, store.time, t1, store.ticks, t0);
        }
        KeptLater(h1, store.h);
      }
    }

    lemma MayRollBack(incarnation: string, deleteID: string, owner: string)
      requires store.MayDo(RollingBack(incarnation, deleteID, owner))
      ensures store.MayDo(Acquiring(incarnation, deleteID, owner)) && Retire(deleteID) in store.may
    {
      assert Allows(RollingBack(incarnation, deleteID, owner), Retire(deleteID));
    }

    lemma MayRollBackUnder(incarnation: string, deleteID: string, owner: string, generation: nat)
      requires store.MayDo(RollingBack(incarnation, deleteID, owner)) && incarnation != ""
      ensures store.MayDo(Deleting(incarnation, deleteID, generation)) && store.MayDo(Releasing(deleteID, generation))
    {
    }

    /** rollbackFailedStackCreation under its fence. */
    method DeleteOrRelease(incarnation: string, deleteID: string, generation: nat)
      returns (r: Result<()>, ghost seen: int, ghost empty: int)
      requires store.Valid() && store.MayDo(Deleting(incarnation, deleteID, generation))
      requires store.MayDo(Releasing(deleteID, generation))
      modifies store
      ensures store.Valid() && store.Onward()
      ensures r.Ok? ==>
                |old(store.h)| - 1 <= seen && DeletedUnder(store.h, seen, empty, incarnation, deleteID, generation)
      ensures r.Err? ==>
                || store.setbacks > old(store.setbacks)
                || DeletionRefused(store.h, |old(store.h)| - 1, incarnation, deleteID, generation,
                                   store.time, old(store.ticks), store.ticks)
                || (NotCurrentSeen(store.h, |old(store.h)| - 1, incarnation)
                    && ReleaseAsked(store.h, |old(store.h)| - 1, deleteID, generation))
    {
      ghost var h0 := store.h;
      seen, empty := 0, 0;
      var st := store.GetStack();
      ghost var h1 := store.h;
      if st.Ok? && st.value.incarnation == incarnation {
        r, seen, empty := store.DeleteStack(incarnation, deleteID, generation);
        if r.Err? && store.setbacks == old(store.setbacks) {
          DeletionRefusedSince(store.h, |h0| - 1, |h1| - 1, incarnation, deleteID, generation, store.time, old(store.ticks), store.ticks);
        }
      } else {
        var _, _ := ReleaseUpdateLock(deleteID, generation);
        assert store.h[|h1| - 1] == h1[|h1| - 1];
        assert store.setbacks == old(store.setbacks) ==> NotCurrentAt(store.h, |h1| - 1, incarnation);
        r := Err(if st.Err? then st.error else ConcurrentMutation);
      }
    }

    /** createStack, with an initial state to commit or none. If the state cannot be committed, the stack just made is
        taken back; `founded` says that it was made. */
    method CreateStack(incarnation: string, state: Option<Deployment>, deleteID: string, owner: string)
      returns (a: Answer, ghost at: int, ghost founded: bool)
      requires store.Valid()
      requires store.MayDo(CreatingStack(incarnation, if state.Some? then state.value else "", deleteID, owner))
      requires incarnation == store.newborn && incarnation != "" && incarnation !in store.Now().aux.used
      requires deleteID == store.minted && DeletionID(deleteID)
      requires deleteID !in store.Now().aux.retired && deleteID !in store.Now().aux.home
      modifies store
      ensures store.Valid() && store.Onward()
      ensures a.StackCreated? ==> founded && WasCurrent(store.h, |old(store.h)| - 1, incarnation)
      ensures a.StackCreated? && state.Some? ==>
                && |old(store.h)| <= at < |store.h| && store.h[at].op.Publish?
                && store.h[at].op.commit == Commit(incarnation, "", 0, 0, state.value)
      ensures !a.StackCreated? ==>
                && a.Refused?
                && (if founded then deleteID in store.Now().aux.retired && state.Some?
                    else || store.setbacks > old(store.setbacks)
                         || (a == Refused(StackExists) && store.disk.stack.Some?))
      ensures a.Refused? && founded ==>
                || store.setbacks > old(store.setbacks)
                || SaveDenied(store.h, |old(store.h)| - 1, Commit(incarnation, "", 0, 0, state.value),
                              store.time, old(store.ticks), store.ticks)
    {
      at, founded := 0, false;
      var created := store.CreateStack(incarnation);
      ghost var k, t1 := |store.h| - 1, store.ticks;
      assert created.Ok? ==> CurrentAt(store.h, k, incarnation);
      if created.Err? {
        a := Refused(created.error);
      } else if state.None? {
        founded := true;
        a := StackCreated;
      } else {
        founded := true;
        a, at := CommitInitial(incarnation, state.value, deleteID, owner, k, old(store.ticks));
      }
    }

    lemma MayFound(incarnation: string, state: Deployment, deleteID: string, owner: string)
      requires store.MayDo(CreatingStack(incarnation, state, deleteID, owner))
      ensures store.MayDo(Saving(Commit(incarnation, "", 0, 0, state))) && store.MayDo(RollingBack(incarnation, deleteID, owner))
    {
    }

    /** createStack's initial state: committed, or the stack taken back. */
    method CommitInitial(incarnation: string, state: Deployment, deleteID: string, owner: string, ghost k: int, ghost t0: nat)
      returns (a: Answer, ghost at: int)
      requires store.Valid() && store.MayDo(CreatingStack(incarnation, state, deleteID, owner)) && incarnation != ""
      requires deleteID == store.minted && DeletionID(deleteID) && Unspent(store.Now(), deleteID, incarnation)
      requires CurrentAt(store.h, k, incarnation) && t0 <= store.ticks
      modifies store
      ensures store.Valid() && store.Onward() && CurrentAt(store.h, k, incarnation)
      ensures a.StackCreated? ==>
                && |old(store.h)| <= at < |store.h| && store.h[at].op.Publish?
                && store.h[at].op.commit == Commit(incarnation, "", 0, 0, state)
      ensures !a.StackCreated? ==>
                && a.Refused? && deleteID in store.Now().aux.retired
                && (|| store.setbacks > old(store.setbacks)
                    || SaveDenied(store.h, |old(store.h)| - 1, Commit(incarnation, "", 0, 0, state), store.time, t0, store.ticks))
    {
      ghost var h0, t1 := store.h, store.ticks;
      var c := Commit(incarnation, "", 0, 0, state);
      MayFound(incarnation, state, deleteID, owner);
      var saved, landed := store.SaveCheckpoint(c);
      ghost var h1, t2 := store.h, store.ticks;
      at := landed;
      if saved.Ok? {
        a := StackCreated;
      } else {
        var _, _, _, _ := RollbackCreation(incarnation, deleteID, owner);
        if store.setbacks == old(store.setbacks) {
          SaveRefusedOn(h1, store.h, |h0| - 1, at, c, saved.error, store.time, t1, t2, t0, store.ticks);
        }
        a := Refused(saved.error);
      }
    }

    /** importStack: a whole update in one request. Success means that the deployment was committed, at h[at], by
        this update, and the update recorded as succeeded. A lock it was granted, of generation `granted`, is given up in
        any case. */
    method ImportStack(newID: string, owner: string, deployment: Deployment)
      returns (a: Answer, ghost at: int, ghost granted: nat)
      requires store.Valid() && Execution(store.h) && store.MayDo(Importing(newID, owner, deployment))
      requires newID == store.minted && !DeletionID(newID) && newID != ""
      requires newID !in store.Now().aux.retired && newID !in store.Now().aux.home
      requires newID !in store.Now().aux.kinds
      modifies store
      ensures store.Valid() && store.Onward()
      ensures a.UpdateCreated? ==> a.updateID == newID && granted > 0 && |old(store.h)| <= at && Imported(store.h, at, newID, deployment)
      ensures !a.UpdateCreated? ==> a.Refused?
      ensures granted > 0 ==> ReleaseAsked(store.h, |old(store.h)| - 1, newID, granted)
      ensures granted > 0 && a.Refused? ==>
                || store.setbacks > old(store.setbacks)
                || ImportDeniedSince(store.h, |old(store.h)| - 1, newID, granted, deployment, store.time, old(store.ticks), store.ticks)
      ensures granted == 0 ==>
                || store.setbacks > old(store.setbacks) || NoStackSeen(store.h, |old(store.h)| - 1)
                || LockDeniedSince(store.h, |old(store.h)| - 1, newID, owner, store.time, old(store.ticks), store.ticks)
    {
      ghost var h0 := store.h;
      at, granted := 0, 0;
      MayImportLocked("", newID, owner, deployment);
      store.Did(Mint(newID, Import));
      ghost var h1 := store.h;
      var st := store.GetStack();
      ghost var h2 := store.h;
      if st.Err? {
        assert store.setbacks == old(store.setbacks) ==> NoStackAt(h2, |h2| - 1);
        a := Refused(st.error);
      } else {
        ExecutionLater(h0, h2);
        KindLater(h1, h2, newID, Import);
        a, at, granted := ImportCurrent(st.value.incarnation, newID, owner, deployment, |h0| - 1);
      }
    }

    /** importStack of an incarnation, the one just read. */
    method ImportCurrent(incarnation: string, newID: string, owner: string, deployment: Deployment, ghost since: int)
      returns (a: Answer, ghost at: int, ghost granted: nat)
      requires store.Valid() && Execution(store.h) && store.MayDo(Importing(newID, owner, deployment))
      requires newID == store.minted && !DeletionID(newID) && newID != "" && IsKind(store.Now(), newID, Import)
      requires newID !in store.Now().aux.retired && newID !in store.Now().aux.home
      requires 0 <= since < |store.h| && Current(store.disk, incarnation)
      modifies store
      ensures store.Valid() && store.Onward()
      ensures a.UpdateCreated? ==> a.updateID == newID && granted > 0 && |old(store.h)| <= at && Imported(store.h, at, newID, deployment)
      ensures !a.UpdateCreated? ==> a.Refused?
      ensures granted > 0 ==> ReleaseAsked(store.h, since, newID, granted)
      ensures granted > 0 && a.Refused? ==>
                || store.setbacks > old(store.setbacks)
                || ImportDeniedSince(store.h, since, newID, granted, deployment, store.time, old(store.ticks), store.ticks)
      ensures granted == 0 ==>
                || store.setbacks > old(store.setbacks)
                || LockDeniedSince(store.h, since, newID, owner, store.time, old(store.ticks), store.ticks)
    {
      ghost var h2, t2 := store.h, store.ticks;
      at, granted := 0, 0;
      MayImportLocked(incarnation, newID, owner, deployment);
      var lock, _ := AcquireOwn(incarnation, newID, owner);
      ghost var h3, t3 := store.h, store.ticks;
      if lock.Err? {
        assert h3[|h2| - 1] == h2[|h2| - 1];
        assert CurrentAt(h3, |h2| - 1, incarnation);
        a := Refused(lock.error);
      } else {
        granted := lock.value.generation;
        ExecutionLater(h2, h3);
        KindLater(h2, h3, newID, Import);
        a, at := ImportAndRelease(newID, lock.value.generation, deployment, owner);
        AskedLater(store.h, store.h, since, |h3| - 1, newID, granted);
        assert ImportDeniedBy(store.h, |h3| - 1, newID, granted, deployment, store.time, t3, store.ticks) ==>
            ImportDeniedSince(store.h, since, newID, granted, deployment, store.time, t2, store.ticks);
      }
    }

    lemma MayImportLocked(incarnation: string, newID: string, owner: string, deployment: Deployment)
      requires store.MayDo(Importing(newID, owner, deployment))
      ensures store.MayDo(Acquiring(incarnation, newID, owner)) && Retire(newID) in store.may && Mint(newID, Import) in store.may
    {
      assert Allows(Importing(newID, owner, deployment), Retire(newID));
      assert Allows(Importing(newID, owner, deployment), Mint(newID, Import));
    }

    /** importStack once it has the lock, which it gives up whatever comes. */
    method ImportAndRelease(newID: string, generation: nat, deployment: Deployment, ghost owner: string)
      returns (a: Answer, ghost at: int)
      requires store.Valid() && Execution(store.h) && !DeletionID(newID) && newID != ""
      requires IsKind(store.Now(), newID, Import) && newID in store.Now().aux.retired
      requires store.MayDo(Importing(newID, owner, deployment))
      modifies store
      ensures store.Valid() && store.Onward()
      ensures a.UpdateCreated? ==> a.updateID == newID && |old(store.h)| <= at && Imported(store.h, at, newID, deployment)
      ensures !a.UpdateCreated? ==>
                && a.Refused?
                && (|| store.setbacks > old(store.setbacks)
                    || ImportDeniedBy(store.h, |old(store.h)| - 1, newID, generation, deployment,
                                      store.time, old(store.ticks), store.ticks))
      ensures ReleaseAsked(store.h, |old(store.h)| - 1, newID, generation)
    {
      MayImport(newID, owner, deployment);
      a, at := ImportLocked(newID, generation, deployment);
      ghost var h1 := store.h;
      var _, _ := ReleaseUpdateLock(newID, generation);
      SeenLater(h1, store.h, at, newID, Succeeded);
      assert store.h[..|h1|] == h1;
    }

    /** What importStack may do with its record and its checkpoint. */
    lemma MayImport(newID: string, owner: string, deployment: Deployment)
      requires store.MayDo(Importing(newID, owner, deployment))
      ensures store.MayDo(Recording(newID, Import))
      ensures store.MayDo(Moving(newID, Import, InProgress)) && store.MayDo(Moving(newID, Import, Succeeded))
      ensures forall c: Commit :: c.updateID == newID && c.deployment == deployment ==> store.MayDo(Saving(c))
    {
    }

    /** importStack while it holds the stack. */
    method ImportLocked(newID: string, generation: nat, deployment: Deployment) returns (a: Answer, ghost at: int)
      requires store.Valid() && Execution(store.h) && !DeletionID(newID)
      requires newID != "" && newID in store.Now().aux.retired
      requires IsKind(store.Now(), newID, Import)
      requires store.MayDo(Recording(newID, Import))
      requires store.MayDo(Moving(newID, Import, InProgress)) && store.MayDo(Moving(newID, Import, Succeeded))
      requires forall c: Commit :: c.updateID == newID && c.deployment == deployment ==> store.MayDo(Saving(c))
      modifies store
      ensures store.Valid() && store.Onward()
      ensures a.UpdateCreated? ==> a.updateID == newID && |old(store.h)| <= at && Imported(store.h, at, newID, deployment)
      ensures !a.UpdateCreated? ==>
                && a.Refused?
                && (|| store.setbacks > old(store.setbacks)
                    || ImportDenied(store.h, |old(store.h)| - 1, newID, generation, deployment, store.time, old(store.ticks), store.ticks))
    {
      ghost var h0, t0 := store.h, store.ticks;
      at := 0;
      var u, _, _ := store.CreateUpdate(Import, newID);
      ghost var h1 := store.h;
      if u.Err? {
        return Refused(u.error), at;
      }
      ExecutionLater(h0, h1);
      KindLater(h0, h1, newID, Import);
      var started := StartImport(newID, |h0| - 1);
      ghost var h2, t2 := store.h, store.ticks;
      if started.Err? {
        return Refused(started.error), at;
      }
      KindLater(h0, h2, newID, Import);
      ExecutionLater(h0, h2);
      RecordSeenLater(h1, h2, |h0| - 1, |h0| - 1, u.value.incarnation, newID, u.value.update);
      a, at := CommitImport(Commit(u.value.incarnation, newID, generation, u.value.update.version, deployment), u.value, |h0| - 1, t0);
    }

    /** importStack starting its update. */
    method StartImport(newID: string, ghost since: int) returns (r: Result<()>)
      requires store.Valid() && Execution(store.h) && IsKind(store.Now(), newID, Import) && 0 <= since < |store.h|
      requires store.MayDo(Moving(newID, Import, InProgress))
      modifies store
      ensures store.Valid() && store.Onward()
      ensures r.Err? ==> store.setbacks > old(store.setbacks) || Unstartable(store.h, since, newID)
    {
      ghost var start := |store.h| - 1;
      var started, was, _ := store.StartUpdate(newID);
      if started.Err? && store.setbacks == old(store.setbacks) {
        MoveRefusedIs(store.h, since, start, was, newID, InProgress, started.error, {NotStarted, InProgress});
      }
      r := started;
    }

    /** importStack once its update, of record `f`, is in progress. */
    method CommitImport(c: Commit, ghost f: Found, ghost since: int, ghost t0: nat) returns (a: Answer, ghost at: int)
      requires store.Valid() && Execution(store.h) && !DeletionID(c.updateID) && c.updateID != ""
      requires IsKind(store.Now(), c.updateID, Import)
      requires store.MayDo(Saving(c)) && store.MayDo(Moving(c.updateID, Import, Succeeded))
      requires 0 <= since < |store.h| && t0 <= store.ticks && RecordSeen(store.h, since, f.incarnation, c.updateID, f.update)
      requires c.incarnation == f.incarnation && c.version == f.update.version
      modifies store
      ensures store.Valid() && store.Onward()
      ensures a.UpdateCreated? ==> a.updateID == c.updateID && |old(store.h)| <= at && Imported(store.h, at, c.updateID, c.deployment)
      ensures !a.UpdateCreated? ==>
                && a.Refused?
                && (|| store.setbacks > old(store.setbacks)
                    || ImportDenied(store.h, since, c.updateID, c.generation, c.deployment, store.time, t0, store.ticks))
    {
      ghost var h0, t1 := store.h, store.ticks;
      var saved, landed := store.SaveCheckpoint(c);
      ghost var h1 := store.h;
      at := landed;
      if saved.Err? {
        if store.setbacks == old(store.setbacks) {
          SaveRefusedOn(h1, h1, since, at, c, saved.error, store.time, t1, store.ticks, t0, store.ticks);
          RecordSeenLater(h0, h1, since, since, f.incarnation, c.updateID, f.update);
          assert ImportCommit(h1, since, c, f);
        }
        a := Refused(saved.error);
      } else {
        ExecutionLater(h0, h1);
        KindLater(h0, h1, c.updateID, Import);
        var completed, was, _ := store.CompleteUpdate(c.updateID, Succeeded, "import");
        if completed.Ok? {
          SeenNow(store.h, at, was.incarnation, c.updateID);
          a := UpdateCreated(c.updateID);
        } else {
          if store.setbacks == old(store.setbacks) {
            MoveRefusedIs(store.h, since, |h1| - 1, was, c.updateID, Succeeded, completed.error, {InProgress, Succeeded});
          }
          a := Refused(completed.error);
        }
      }
    }
  }

  /** The update committed the deployment at h[at], and has since been recorded as succeeded. */
  ghost predicate Imported(h: seq<Entry>, at: int, u: string, deployment: Deployment) {
    && 0 <= at < |h| && h[at].op.Publish? && h[at].op.commit.updateID == u && h[at].op.commit.deployment == deployment
    && StatusSeen(h, at, u, Succeeded)
  }

  /** No checkpoint, or one known to list no resources. */
  predicate Unused(hasResources: Deployment -> Option<bool>, last: Option<Deployment>) {
    last.None? || hasResources(last.value) == Some(false)
  }

  /** What the check made at h[checked] says of the stack as it was when it was removed: where its document points, or
      in checkpoints/latest.json if it does not, there was no checkpoint, or one that lists no resources. For a stack made
      by CreateStack: the last commit lists none, or its object was missing. */
  ghost predicate DeletedUnused(h: seq<Entry>, checked: int, inc: string, hasResources: Deployment -> Option<bool>) {
    && 0 <= checked < |h| - 1 && Current(h[|h| - 2].s.disk, inc)
    && (exists read :: AnswersLatest(h[checked].s.disk, h[|h| - 2].s.disk.stack.value, read) && Unused(hasResources, read))
    && (inc in h[|h| - 2].s.aux.born ==>
          var last := LastCommit(h[|h| - 2].s.aux.log, inc);
          Unused(hasResources, last) || Missing(h[checked].s, inc, last))
  }

  /** At h[checked] the checkpoint of the document read since h[from] listed resources. */
  ghost predicate InUse(h: seq<Entry>, from: int, checked: int, hasResources: Deployment -> Option<bool>) {
    exists k: int, dep: Deployment :: from <= k <= checked && ListsAt(h, k, checked, dep) && hasResources(dep) == Some(true)
  }

  ghost predicate ListsAt(h: seq<Entry>, k: int, checked: int, dep: Deployment) {
    && 0 <= k <= checked < |h| && h[k].s.disk.stack.Some?
    && AnswersLatest(h[checked].s.disk, h[k].s.disk.stack.value, Some(dep))
  }

  ghost predicate LetGoAt(h: seq<Entry>, k: int, u: string, generation: nat) {
    0 <= k < |h| && LetGo(h[k].s.disk, u, generation)
  }

  /** Since h[from], the update had let go of the generation. */
  ghost predicate LetGoSince(h: seq<Entry>, from: int, u: string, generation: nat) {
    exists k: int :: from <= k && LetGoAt(h, k, u, generation)
  }

  /** The check was made between h0 and h1, under a fence that the stack was removed under in the end. */
  lemma RemovedUnused(h0: seq<Entry>, h1: seq<Entry>, h: seq<Entry>, held: int, at: int, seen: int, empty: int,
                      inc: string, lock: Lock, hasResources: Deployment -> Option<bool>)
    requires Execution(h1) && IsRun(h) && 0 <= held < |h0| && h0 <= h1 <= h && |h0| - 1 <= at < |h1| && |h1| - 1 <= seen
    requires lock.generation > 0 && Deletion.Carries(h0[held].s.disk, lock.updateID, lock.generation)
    requires DeletedUnder(h, seen, empty, inc, lock.updateID, lock.generation)
    requires h1[at].s.disk.stack.Some?
    requires exists read :: AnswersLatest(Last(h1).disk, h1[at].s.disk.stack.value, read) && Unused(hasResources, read)
    ensures DeletedUnused(h, |h1| - 1, inc, hasResources)
  {
    ExecutionLater(h1, h);
    assert h[held] == h0[held] && h[at] == h1[at] && h[|h1| - 1] == h1[|h1| - 1];
    Deletion.SeenUnderFenceIsFinal(h, held, at, seen, empty, inc, lock.updateID, lock.generation);
    var st, st' := h[at].s.disk.stack.value, h[|h| - 2].s.disk.stack.value;
    assert st.latestCheckpointKey == st'.latestCheckpointKey && st.incarnation == st'.incarnation;
    var read :| AnswersLatest(Last(h1).disk, st, read) && Unused(hasResources, read);
    assert AnswersLatest(h[|h1| - 1].s.disk, st', read);
    Deletion.SeenUnderFenceIsFinal(h, held, |h1| - 1, seen, empty, inc, lock.updateID, lock.generation);
    CheckedMeansUnused(h, |h1| - 1, inc, read, hasResources);
  }

  lemma CheckedMeansUnused(h: seq<Entry>, checked: int, inc: string, read: Option<Deployment>, hasResources: Deployment -> Option<bool>)
    requires Execution(h) && 0 <= checked < |h| - 1 && Current(h[|h| - 2].s.disk, inc)
    requires AnswersLatest(h[checked].s.disk, h[|h| - 2].s.disk.stack.value, read) && Unused(hasResources, read)
    requires h[checked].s.aux.log == h[|h| - 2].s.aux.log
    ensures DeletedUnused(h, checked, inc, hasResources)
  {
    Reachable(h, checked);
    Reachable(h, |h| - 2);
    var last := LastCommit(h[|h| - 2].s.aux.log, inc);
    LastIsCommitted(h[|h| - 2].s.aux.log, inc, 0);
    if inc in h[|h| - 2].s.aux.born && last.Some? {
      ObjectReadsBack(h[checked].s, inc, last.value);
    }
  }

  /** A renewed lock's generation names the lock of a retired update for good. */
  lemma RenewedIsPinned(h0: seq<Entry>, h: seq<Entry>, at: int, u: string, l: Lock)
    requires |h0| > 0 && h0 <= h && IsRun(h) && u in Last(h0).aux.retired && |h0| <= at && Renewed(h, at, u, 0, l)
    ensures Pinned(Last(h), u, l.generation)
  {
    assert h[|h0| - 1] == h0[|h0| - 1];
    KeptRun(h, |h0| - 1, at);
    PinnedRun(h, at, |h| - 1, u, l.generation);
  }

  /** The update's lock was seen live, at h[seen]; that its renewal was refused later means that it was missed then. */
  lemma RenewalMissed(h0: seq<Entry>, h1: seq<Entry>, h: seq<Entry>, seen: int, at: int, u: string, token: nat, live: Lock,
                      e: Error, time: nat -> int, t0: nat, t1: nat, t2: nat)
    requires |h0| > 0 && h0 <= h1 <= h && IsRun(h) && u in Last(h0).aux.retired && |h0| - 1 <= seen < |h1| && |h1| - 1 <= at
    requires Holder(h1[seen].s.disk) == Some(live) && live.updateID == u && (token != 0 ==> live.generation == token)
    requires RenewRefused(h, at, u, live.generation, e, time, t1, t2) && t0 <= t1 <= t2
    ensures LockMissed(h, |h0| - 1, u, token, time, t0, t2)
  {
    assert h[|h0| - 1] == h0[|h0| - 1] && h[seen] == h1[seen];
    KeptRun(h, |h0| - 1, seen);
    if live.generation > 0 {
      PinnedRun(h, seen, at, u, live.generation);
    }
    assert MissedAt(h, at, u, token, time, t0, t2);
  }

  lemma RecordIsRetired(h: seq<Entry>, inc: string, u: string)
    requires Execution(h) && UpdateKey(inc, u) in Last(h).disk.updates
    requires !Last(h).disk.updates[UpdateKey(inc, u)].kind.Preview?
    ensures u in Last(h).aux.retired && !DeletionID(u)
  {
    Reachable(h, |h| - 1);
  }

  /** The lock was seen, at h[seen], not to be the update's. */
  lemma NothingToRelease(h0: seq<Entry>, h1: seq<Entry>, h2: seq<Entry>, h: seq<Entry>, seen: int, u: string)
    requires |h0| > 0 && h0 <= h1 <= h2 <= h && IsRun(h) && |h1| - 1 <= seen < |h2|
    requires u in Last(h1).aux.retired
    requires HeldBy(h2[seen].s.disk, u) ==> LegacyMode(h2[seen].s.disk)
    ensures !LegacyClaim(Last(h0).disk, u) ==> Gone(Last(h), u)
  {
    assert h[|h0| - 1] == h0[|h0| - 1] && h[|h1| - 1] == h1[|h1| - 1] && h[seen] == h2[seen];
    KeptRun(h, |h1| - 1, seen);
    if !LegacyClaim(Last(h0).disk, u) {
      LetGoIsGone(h, |h0| - 1, seen, u, 0);
    }
  }

  /** The lock was seen, at h[seen], to be the update's at generation g, and released later. */
  lemma AfterRelease(h0: seq<Entry>, h1: seq<Entry>, h2: seq<Entry>, h: seq<Entry>, seen: int, at: int, u: string, g: nat)
    requires |h0| > 0 && h0 <= h1 <= h2 <= h && IsRun(h) && |h1| - 1 <= seen < |h2| && |h2| - 1 <= at < |h|
    requires u in Last(h1).aux.retired && LetGo(h[at].s.disk, u, g)
    requires Holder(h2[seen].s.disk).Some? && Holder(h2[seen].s.disk).value.updateID == u
    requires Holder(h2[seen].s.disk).value.generation == g
    ensures !LegacyClaim(Last(h0).disk, u) ==> Gone(Last(h), u)
  {
    assert h[|h0| - 1] == h0[|h0| - 1] && h[|h1| - 1] == h1[|h1| - 1] && h[seen] == h2[seen];
    KeptRun(h, |h1| - 1, seen);
    KeptRun(h, seen, at);
    if g > 0 {
      PinnedRun(h, seen, at, u, g);
    }
    if !LegacyClaim(Last(h0).disk, u) {
      LetGoIsGone(h, |h0| - 1, at, u, g);
    }
  }

  lemma AfterTokenRelease(h0: seq<Entry>, h: seq<Entry>, at: int, u: string, token: nat)
    requires Execution(h0) && h0 <= h && IsRun(h) && |h0| - 1 <= at < |h|
    requires token > 0 && (u, token) in Last(h0).aux.tokens && LetGo(h[at].s.disk, u, token)
    ensures !LegacyClaim(Last(h0).disk, u) ==> Gone(Last(h), u)
  {
    Reachable(h0, |h0| - 1);
    assert h[|h0| - 1] == h0[|h0| - 1];
    PinnedRun(h, |h0| - 1, at, u, token);
    if !LegacyClaim(Last(h0).disk, u) {
      LetGoIsGone(h, |h0| - 1, at, u, token);
    }
  }

  /** No lock of the update's was seen, or one without a generation. */
  lemma NothingNumbered(h0: seq<Entry>, h2: seq<Entry>, h: seq<Entry>, seen: int, u: string)
    requires |h0| > 0 && h0 <= h2 <= h && IsRun(h) && |h0| - 1 <= seen < |h2| && u in Last(h0).aux.retired
    requires HeldBy(h2[seen].s.disk, u) ==> LegacyMode(h2[seen].s.disk) || Holder(h2[seen].s.disk).value.generation == 0
    ensures !LegacyClaim(Last(h0).disk, u) && Numbered(Last(h0).disk, u) ==> Gone(Last(h), u)
  {
    assert h[|h0| - 1] == h0[|h0| - 1] && h[seen] == h2[seen];
    if Numbered(Last(h0).disk, u) {
      NumberedRun(h, |h0| - 1, seen, u);
      NothingToRelease(h0, h0, h2, h, seen, u);
    }
  }

  /** What a request is promised about its start carries over to a later moment of it. */
  lemma CarryOver(a: seq<Entry>, b: seq<Entry>, u: string)
    requires |a| > 0 && a <= b && IsRun(b)
    ensures Last(a).aux.tokens <= Last(b).aux.tokens
    ensures !LegacyClaim(Last(a).disk, u) ==> !LegacyClaim(Last(b).disk, u)
    ensures Numbered(Last(a).disk, u) ==> Numbered(Last(b).disk, u)
  {
    KeptLater(a, b);
    assert b[|a| - 1] == a[|a| - 1];
    if Numbered(Last(a).disk, u) {
      NumberedRun(b, |a| - 1, |b| - 1, u);
    }
  }
}
