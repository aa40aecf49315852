/** internal/store/s3store.go: the operations of S3Store on one stack, step by step. Between any two bucket
    accesses the other servers may do any number of things (Interfere); every access of this server that
    changes the bucket is one operation of the protocol, recorded in the history `h`. */
module Store {
  import opened Types
  import opened Protocol
  import opened Invariant
  import opened Stability
  import opened Contracts
  import opened Reads
  import opened Outcomes

  class S3Store {
    var disk: Disk
    ghost var h: seq<Entry>
    ghost const minted: string     // the update ID minted for the request being served
    ghost const newborn: string    // the incarnation minted for it
    ghost const may: iset<Op>      // the operations this server is permitted
    const time: nat -> int         // what the clock shows, reading by reading
    var ticks: nat                 // how often it has been read
    ghost var setbacks: nat        // requests that failed, or whose conditional write was not reported done

    /** A server joins: the bucket is in some state the invariant allows. */
    constructor (disk: Disk, time: nat -> int, ghost aux: Aux, ghost minted: string, ghost newborn: string, ghost may: iset<Op>)
      requires Inv(State(disk, aux))
      ensures Valid() && Execution(h) && h == [Entry(Retire(""), State(disk, aux))]
      ensures this.minted == minted && this.newborn == newborn && this.may == may && this.time == time
    {
      this.disk, this.minted, this.newborn, this.may := disk, minted, newborn, may;
      this.time, ticks, setbacks := time, 0, 0;
      h := [Entry(Retire(""), State(disk, aux))];
      new;
      assert InvAt(h, 0);
    }

    ghost predicate Valid()
      reads this
    {
      IsRun(h) && Last(h).disk == disk
    }

    ghost function Now(): State
      requires |h| > 0
      reads this
    {
      Last(h)
    }

    /** The history, the clock and the count of setbacks only grow. */
    twostate predicate Onward()
      reads this
    {
      old(h) <= h && old(ticks) <= ticks && old(setbacks) <= setbacks
    }

    /** An operation that requires this does, to the bucket, nothing but what the effect allows: it is verified
        for every `may`, the smallest one included. */
    ghost predicate MayDo(e: Effect) {
      forall op {:trigger op in may} :: Allows(e, op) ==> op in may
    }

    /** Permission to move the record of the update to a status, whatever kind the update may turn out to be of. */
    ghost predicate MayMove(updateID: string, status: Status)
      requires |h| > 0
      reads this
    {
      forall kind: Kind :: (updateID in Now().aux.kinds ==> IsKind(Now(), updateID, kind)) ==> MayDo(Moving(updateID, kind, status))
    }

    // -------------------------------------------------------------- the bucket

    /** The other servers act. The empty body is one of the behaviours the contract allows; callers have to
        cope with all of them. */
    method Interfere()
      requires Valid()
      modifies this`disk, this`h
      ensures Valid() && Onward() && Respects(minted, newborn, old(Now()).aux, Now().aux)
    {
    }

    /** A clock reading: any value at all, for `time` is any function. */
    method Clock() returns (now: int)
      modifies this`ticks
      ensures now == time(old(ticks)) && ticks == old(ticks) + 1
    {
      now, ticks := time(ticks), ticks + 1;
    }

    /** Records the operation that the bucket has just undergone at the hands of this server. */
    ghost method Did(op: Op)
      requires op in may && IsRun(h) && Guard(Last(h), op) && DiskAfter(Last(h).disk, op) == disk
      modifies this`h
      ensures Valid() && h == old(h) + [Entry(op, Apply(old(Last(h)), op))]
    {
      var e := Entry(op, Apply(Last(h), op));
      RunExtend(h, e);
      h := h + [e];
    }

    method GetStack() returns (r: Result<Stack>)
      requires Valid()
      modifies this`disk, this`h, this`setbacks
      ensures Valid() && Onward() && Respects(minted, newborn, old(Now()).aux, Now().aux)
      ensures match r
              case Ok(st) => disk.stack == Some(st) && setbacks == old(setbacks)
              case Err(e) =>
                || (e == Transport && setbacks == old(setbacks) + 1)
                || (e == StackNotFound && disk.stack == None && setbacks == old(setbacks))
    {
      Interfere();
      if * {
        setbacks := setbacks + 1;
        return Err(Transport);
      }
      r := if disk.stack.None? then Err(StackNotFound) else Ok(disk.stack.value);
    }

    method GetLegacyLock() returns (r: Result<Lock>)
      requires Valid()
      modifies this`disk, this`h, this`setbacks
      ensures Valid() && Onward() && Respects(minted, newborn, old(Now()).aux, Now().aux)
      ensures match r
              case Ok(l) => disk.legacyLock == Some(l)
              case Err(e) => (e == Transport && setbacks > old(setbacks)) || (e == NoLock && disk.legacyLock == None)
    {
      Interfere();
      if * {
        setbacks := setbacks + 1;
        return Err(Transport);
      }
      r := if disk.legacyLock.None? then Err(NoLock) else Ok(disk.legacyLock.value);
    }

    /** One PUT or DELETE of stack.json with If-Match. The ETag is taken to reflect content only: the write
        lands when the document reads as it did. */
    method TryWriteStack(st: Stack, doc: Option<Stack>, ghost op: Op, ghost k: int) returns (reply: Reply)
      requires Valid() && op in may && Justified(h, k, st, op, doc)
      requires op.Acquire? ==> op.updateID == minted && Unspent(Now(), op.updateID, op.incarnation)
      modifies this`disk, this`h, this`setbacks
      ensures Valid() && Onward()
      ensures reply.Done? ==> |old(h)| < |h| && h[|h| - 1].op == op && disk.stack == doc
      ensures !reply.Done? ==> setbacks > old(setbacks)
      ensures op.Acquire? ==> Unspent(Now(), op.updateID, op.incarnation)
      ensures !op.Acquire? ==> Respects(minted, newborn, old(Now()).aux, Now().aux)
    {
      Interfere();
      var landed: bool, told: bool, lost: bool := *, *, *;
      if landed && disk.stack == Some(st) {
        JustifiedLater(old(h), h, k, st, op, doc);
        DecisionStillHolds(h, k, st, op, doc);
        disk := disk.(stack := doc);
        Did(op);
        reply := if told then Done else if lost then PreconditionFailed else RequestFailed;
      } else {
        reply := if disk.stack != Some(st) && told then PreconditionFailed else if lost then Conflict else RequestFailed;
      }
      if !reply.Done? {
        setbacks := setbacks + 1;
      }
    }

    /** putIfMatch and deleteIfMatch on stack.json: up to three attempts while the bucket answers 409. */
    method WriteStackIfMatch(st: Stack, doc: Option<Stack>, ghost op: Op, ghost k: int) returns (reply: Reply)
      requires Valid() && op in may && Justified(h, k, st, op, doc)
      requires op.Acquire? ==> op.updateID == minted && Unspent(Now(), op.updateID, op.incarnation)
      modifies this`disk, this`h, this`setbacks
      ensures Valid() && Onward()
      ensures reply.Done? ==> |old(h)| < |h| && h[|h| - 1].op == op && disk.stack == doc
      ensures !reply.Done? ==> setbacks > old(setbacks)
      ensures reply.Conflict? ==> setbacks >= old(setbacks) + 3
      ensures op.Acquire? ==> Unspent(Now(), op.updateID, op.incarnation)
      ensures !op.Acquire? ==> Respects(minted, newborn, old(Now()).aux, Now().aux)
    {
      ghost var h0 := h;
      var attempt := 0;
      reply := Conflict;
      while attempt < 3 && reply.Conflict?
        invariant Valid() && Onward()
        invariant op.Acquire? ==> Unspent(Now(), op.updateID, op.incarnation)
        invariant !op.Acquire? ==> Respects(minted, newborn, Last(h0).aux, Now().aux)
        invariant reply.Done? ==> |h0| < |h| && h[|h| - 1].op == op && disk.stack == doc
        invariant !reply.Done? ==> setbacks >= old(setbacks) + attempt
        invariant reply.Conflict? || attempt > 0
      {
        JustifiedLater(h0, h, k, st, op, doc);
        reply := TryWriteStack(st, doc, op, k);
        attempt := attempt + 1;
      }
    }

    /** deleteLegacyLock: removes the lock.json that a canonical write has superseded, if it is still the one
        that was read. Failures are ignored. */
    method DeleteLegacyLock(legacy: Option<Lock>)
      requires Valid() && (legacy.Some? ==> MayDo(Migrating(legacy.value))) && !LegacyMode(disk)
      modifies this`disk, this`h, this`setbacks
      ensures Valid() && Onward()
      ensures Respects(minted, newborn, old(Now()).aux, Now().aux)
      ensures legacy.Some? && setbacks == old(setbacks) ==> disk.legacyLock != legacy
    {
      if legacy.None? {
        return;
      }
      ghost var h0 := h;
      var attempt, conflict := 0, true;
      while attempt < 3 && conflict
        invariant Valid() && !LegacyMode(disk) && Onward()
        invariant Respects(minted, newborn, Last(h0).aux, Now().aux)
        invariant setbacks == old(setbacks) ==> (conflict && attempt == 0) || disk.legacyLock != legacy
      {
        ghost var k := |h| - 1;
        Interfere();
        KeptRun(h, k, |h| - 1);
        var landed: bool := *;
        conflict := *;
        if landed && disk.legacyLock == legacy {
          disk := disk.(legacyLock := None);
          Did(DropLegacy(legacy.value));
        } else if disk.legacyLock == legacy || conflict {
          setbacks := setbacks + 1;
        }
        attempt := attempt + 1;
      }
    }

    // -------------------------------------------------------------- locks

    /** Reads stack.json and, where it does not yet carry the lock, lock.json. */
    method ReadLockState() returns (r: Result<LockState>, ghost seen: int)
      requires Valid()
      modifies this`disk, this`h, this`setbacks
      ensures Valid() && Onward() && Respects(minted, newborn, old(Now()).aux, Now().aux)
      ensures |old(h)| - 1 <= seen < |h|
      ensures r.Ok? ==> AsRead(h, seen, r.value.stack, r.value.legacy)
      ensures r.Err? ==> (r.error == Transport && setbacks > old(setbacks)) || (r.error == StackNotFound && disk.stack == None)
    {
      var got := GetStack();
      seen := |h| - 1;
      ghost var h1 := h;
      if got.Err? {
        return Err(got.error), seen;
      }
      if UsesCanonicalLock(got.value) {
        return Ok(LockState(got.value, None)), seen;
      }
      var lg := GetLegacyLock();
      KeptRun(h, seen, |h| - 1);
      assert h[seen] == h1[seen];
      if lg.Err? && lg.error != NoLock {
        return Err(lg.error), seen;
      }
      r := Ok(LockState(got.value, if lg.Ok? then Some(lg.value) else None));
    }

    /** The switch of AcquireLock: whom the lock goes to, at which generation, or who is in the way. */
    static method DecideAcquire(st: Stack, legacy: Option<Lock>, updateID: string, owner: string, ttl: int,
                                ghost d: Disk, now: int, later: int)
      returns (r: Result<Lock>)
      requires d.stack == Some(st) && (UsesCanonicalLock(st) ==> legacy.None?)
      requires (!UsesCanonicalLock(st) ==> d.legacyLock == legacy)
      ensures match r
              case Ok(l) => AcquireGuard(d, updateID, owner, now, l.generation) && l == Lock(updateID, owner, later + ttl, l.generation)
              case Err(e) =>
                && e.LockHeld? && Holder(d) == Some(e.lock) && Blocks(e.lock, updateID, owner, now)
                && forall g: nat :: !AcquireGuard(d, updateID, owner, now, g)
    {
      var lock: Lock;
      if st.lock.Some? && DeletionFence(st.lock) && !DeletionID(updateID) {
        return Err(LockHeld(st.lock.value));
      } else if legacy.Some? && DeletionFence(legacy) && !DeletionID(updateID) {
        return Err(LockHeld(legacy.value));
      } else if st.lock.Some? && !st.lock.value.Expired(now) {
        if st.lock.value.updateID != updateID || st.lock.value.owner != owner {
          return Err(LockHeld(st.lock.value));
        }
        lock := st.lock.value.(expiresAt := later + ttl);
      } else if legacy.Some? && !legacy.value.Expired(now) {
        if legacy.value.updateID != updateID || legacy.value.owner != owner {
          return Err(LockHeld(legacy.value));
        }
        lock := legacy.value;
        if lock.generation == 0 {
          lock := lock.(generation := st.fence + 1);
        }
        lock := lock.(expiresAt := later + ttl);
      } else {
        var generation := st.fence + 1;
        if st.lock.Some? && st.lock.value.generation >= generation {
          generation := st.lock.value.generation + 1;
        }
        if legacy.Some? && legacy.value.generation >= generation {
          generation := legacy.value.generation + 1;
        }
        lock := Lock(updateID, owner, later + ttl, generation);
      }
      if lock.generation == 0 {
        lock := lock.(generation := st.fence + 1);
      }
      r := Ok(lock);
    }

    /** Writes the document with its new lock and, once that has landed, removes the superseded lock.json. */
    method WriteLock(st: Stack, legacy: Option<Lock>, doc: Stack, ghost op: Op) returns (reply: Reply, ghost at: int)
      requires Valid() && (legacy.Some? ==> MayDo(Migrating(legacy.value))) && op in may
      requires Justified(h, |h| - 1, st, op, Some(doc)) && UsesCanonicalLock(doc)
      requires op.Acquire? ==> op.updateID == minted && Unspent(Now(), op.updateID, op.incarnation)
      modifies this`disk, this`h, this`setbacks
      ensures Valid() && Onward() && |old(h)| - 1 <= at < |h|
      ensures reply.Done? ==> |old(h)| <= at && h[at].op == op && h[at].s.disk.stack == Some(doc)
      ensures !reply.Done? ==> setbacks > old(setbacks)
      ensures reply.Done? && legacy.Some? && setbacks == old(setbacks) ==> disk.legacyLock != legacy
      ensures op.Acquire? ==> Unspent(Now(), op.updateID, op.incarnation)
      ensures !op.Acquire? ==> Respects(minted, newborn, old(Now()).aux, Now().aux)
    {
      reply := WriteStackIfMatch(st, Some(doc), op, |h| - 1);
      at := |h| - 1;
      if reply.Done? {
        DeleteLegacyLock(legacy);
      }
    }

    /** One pass of AcquireLock's loop; no result means that the conditional write lost and the pass is to be
        repeated. */
    method AcquireOnce(incarnation: string, updateID: string, owner: string, ttl: int)
      returns (r: Option<Result<Lock>>, ghost at: int)
      requires Valid() && MayDo(Acquiring(incarnation, updateID, owner))
      requires updateID == minted && Unspent(Now(), updateID, incarnation)
      modifies this
      ensures Valid() && Onward() && |old(h)| - 1 <= at < |h|
      ensures Unspent(Now(), updateID, incarnation)
      ensures r.None? ==> setbacks > old(setbacks)
      ensures r.Some? && r.value.Ok? ==>
                && |old(h)| <= at && Granted(h, at, incarnation, updateID, owner, r.value.value)
                && Leased(time, old(ticks), ticks, h[at].op.now, r.value.value.expiresAt, ttl)
      ensures r.Some? && r.value.Err? ==>
                || (r.value.error == Transport && setbacks > old(setbacks))
                || AcquireRefused(h, at, incarnation, updateID, owner, r.value.error, time, old(ticks), ticks)
    {
      var got, seen := ReadLockState();
      at := seen;
      if got.Err? {
        at := |h| - 1;
        r := Some(Err(got.error));
      } else if got.value.stack.incarnation != incarnation {
        r := Some(Err(ConcurrentMutation));
      } else {
        r, at := TryAcquire(got.value.stack, got.value.legacy, updateID, owner, ttl, seen);
      }
    }

    /** AcquireLock's pass once stack.json and lock.json have been read. */
    method TryAcquire(st: Stack, legacy: Option<Lock>, updateID: string, owner: string, ttl: int, ghost seen: int)
      returns (r: Option<Result<Lock>>, ghost at: int)
      requires Valid() && MayDo(Acquiring(st.incarnation, updateID, owner))
      requires updateID == minted && Unspent(Now(), updateID, st.incarnation)
      requires AsRead(h, seen, st, legacy) && (UsesCanonicalLock(st) ==> legacy.None? && h[seen].s.disk.stack == Some(st))
      modifies this
      ensures Valid() && Onward() && seen <= at < |h| && Unspent(Now(), updateID, st.incarnation)
      ensures r.None? ==> setbacks > old(setbacks)
      ensures r.Some? && r.value.Ok? ==>
                && |old(h)| <= at && Granted(h, at, st.incarnation, updateID, owner, r.value.value)
                && Leased(time, old(ticks), ticks, h[at].op.now, r.value.value.expiresAt, ttl)
      ensures r.Some? && r.value.Err? ==>
                || (r.value.error == Transport && setbacks > old(setbacks))
                || AcquireRefused(h, at, st.incarnation, updateID, owner, r.value.error, time, old(ticks), ticks)
    {
      var now := Clock();
      var later := Clock();
      ghost var d := if disk.stack == Some(st) then disk else Disk(Some(st), legacy, map[], map[]);
      var decision := DecideAcquire(st, legacy, updateID, owner, ttl, d, now, later);
      if decision.Err? {
        at := seen;
        assert Blocks(decision.error.lock, updateID, owner, time(old(ticks)));
        r := Some(Err(decision.error));
      } else {
        r, at := TakeLock(st, legacy, decision.value, now, seen);
        assert now == time(old(ticks)) && later == time(old(ticks) + 1);
      }
    }

    /** The write of AcquireLock's loop, once it has been decided that the lock is to be had. */
    method TakeLock(st: Stack, legacy: Option<Lock>, lock: Lock, ghost now: int, ghost seen: int)
      returns (r: Option<Result<Lock>>, ghost at: int)
      requires Valid() && MayDo(Acquiring(st.incarnation, lock.updateID, lock.owner)) && 0 <= seen < |h|
      requires lock.updateID == minted && Unspent(Now(), lock.updateID, st.incarnation)
      requires UsesCanonicalLock(st) ==> disk.stack == Some(st)
      requires disk.stack == Some(st) ==> AcquireGuard(disk, lock.updateID, lock.owner, now, lock.generation)
      requires lock.generation > 0
      modifies this`disk, this`h, this`setbacks
      ensures Valid() && Onward() && seen <= at < |h| && Unspent(Now(), lock.updateID, st.incarnation)
      ensures r.Some? && r.value.Ok? ==>
                && |old(h)| <= at && Granted(h, at, st.incarnation, lock.updateID, lock.owner, r.value.value)
                && r.value.value == lock && h[at].op.now == now
      ensures r.Some? && r.value.Err? ==> r.value.error == Transport
      ensures (r.Some? && r.value.Ok?) || setbacks > old(setbacks)
    {
      var doc := st.(fence := Max(st.fence, lock.generation), lockProtocol := CANONICAL_LOCK_PROTOCOL, lock := Some(lock));
      ghost var op := Acquire(st.incarnation, lock.updateID, lock.owner, now, lock.expiresAt, lock.generation);
      AcquireJustified(h, st, op, lock);
      var reply, landed := WriteLock(st, legacy, doc, op);
      at := if reply.Done? then landed else seen;
      r := if reply.Done? then Some(Ok(lock)) else if reply.PreconditionFailed? then None else Some(Err(Transport));
    }

    method AcquireLock(incarnation: string, updateID: string, owner: string, ttl: int)
      returns (r: Result<Lock>, ghost at: int)
      requires Valid() && MayDo(Acquiring(incarnation, updateID, owner))
      requires updateID == minted && Unspent(Now(), updateID, incarnation)
      modifies this
      ensures Valid() && Onward() && |old(h)| - 1 <= at < |h|
      ensures Unspent(Now(), updateID, incarnation)
      ensures r.Ok? ==>
                && |old(h)| <= at && Granted(h, at, incarnation, updateID, owner, r.value)
                && Leased(time, old(ticks), ticks, h[at].op.now, r.value.expiresAt, ttl)
      ensures r.Err? ==>
                || (r.error == Transport && setbacks > old(setbacks))
                || (r.error == ConcurrentMutation && setbacks >= old(setbacks) + 5)
                || AcquireRefused(h, at, incarnation, updateID, owner, r.error, time, old(ticks), ticks)
    {
      ghost var h0 := h;
      var attempt := 0;
      var one: Option<Result<Lock>> := None;
      at := |h| - 1;
      while attempt < 5 && one.None?
        invariant Valid() && Onward() && |h0| - 1 <= at < |h| && Unspent(Now(), updateID, incarnation)
        invariant one.None? ==> setbacks >= old(setbacks) + attempt
        invariant one.Some? && one.value.Ok? ==>
                  && |h0| <= at && Granted(h, at, incarnation, updateID, owner, one.value.value)
                  && Leased(time, old(ticks), ticks, h[at].op.now, one.value.value.expiresAt, ttl)
        invariant one.Some? && one.value.Err? ==>
                  || (one.value.error == Transport && setbacks > old(setbacks))
                  || AcquireRefused(h, at, incarnation, updateID, owner, one.value.error, time, old(ticks), ticks)
      {
        one, at := AcquireOnce(incarnation, updateID, owner, ttl);
        attempt := attempt + 1;
      }
      r := if one.None? then Err(ConcurrentMutation) else one.value;
    }

    /** The checks of RenewLock: the lock as it is to read once renewed, or why it cannot be. */
    static method DecideRenew(st: Stack, legacy: Option<Lock>, updateID: string, generation: nat, ttl: int, now: int, later: int)
      returns (r: Result<Lock>)
      requires UsesCanonicalLock(st) ==> legacy.None?
      ensures match r
              case Ok(l) =>
                && var lock := Governing(st, legacy);
                && lock.Some? && lock.value.updateID == updateID && !lock.value.Expired(now)
                && (generation != 0 ==> lock.value.generation == generation)
                && KeepsGeneration(lock.value.generation, Ceiling(st, legacy), l.generation)
                && l == Lock(updateID, lock.value.owner, later + ttl, l.generation)
              case Err(e) =>
                && var lock := Governing(st, legacy);
                && if lock.None? then e == NoLock
                   else if lock.value.updateID == updateID && (generation == 0 || lock.value.generation == generation)
                   then e == NoLock && lock.value.Expired(now)
                   else e == LockHeld(lock.value)
    {
      var lock := if st.lock.Some? then st.lock else legacy;
      if lock.None? {
        return Err(NoLock);
      }
      if lock.value.updateID != updateID || (generation != 0 && lock.value.generation != generation) {
        return Err(LockHeld(lock.value));
      }
      if lock.value.Expired(now) {
        return Err(NoLock);
      }
      var renewed := lock.value;
      if renewed.generation == 0 {
        renewed := renewed.(generation := st.fence + 1);
      }
      r := Ok(renewed.(expiresAt := later + ttl));
    }

    /** One pass of RenewLock's loop. */
    method RenewOnce(updateID: string, generation: nat, ttl: int) returns (r: Option<Result<Lock>>, ghost at: int)
      requires Valid() && MayDo(Renewing(updateID, generation))
      modifies this
      ensures Valid() && Onward() && |old(h)| - 1 <= at < |h| && Respects(minted, newborn, old(Now()).aux, Now().aux)
      ensures r.None? ==> setbacks > old(setbacks)
      ensures r.Some? && r.value.Ok? ==>
                && |old(h)| <= at && Renewed(h, at, updateID, generation, r.value.value)
                && Leased(time, old(ticks), ticks, h[at].op.now, r.value.value.expiresAt, ttl)
      ensures r.Some? && r.value.Err? ==>
                || (r.value.error == Transport && setbacks > old(setbacks))
                || RenewRefused(h, at, updateID, generation, r.value.error, time, old(ticks), ticks)
    {
      var got, seen := ReadLockState();
      at := seen;
      if got.Err? {
        at := |h| - 1;
        r := Some(Err(got.error));
      } else {
        var LockState(st, legacy) := got.value;
        var now := Clock();
        var later := Clock();
        var decision := DecideRenew(st, legacy, updateID, generation, ttl, now, later);
        if decision.Err? {
          r := Some(decision);
        } else {
          r, at := PutRenewed(st, legacy, decision.value, now, seen);
        }
      }
    }

    /** The write of RenewLock's loop, once the lock is known to be renewable. */
    method PutRenewed(st: Stack, legacy: Option<Lock>, renewed: Lock, ghost now: int, ghost seen: int)
      returns (r: Option<Result<Lock>>, ghost at: int)
      requires Valid() && MayDo(Renewing(renewed.updateID, renewed.generation)) && 0 <= seen < |h|
      requires UsesCanonicalLock(st) ==> disk.stack == Some(st)
      requires !UsesCanonicalLock(st) && disk.stack == Some(st) ==> disk.legacyLock == legacy
      requires
        && var lock := Governing(st, legacy);
        && lock.Some? && lock.value.updateID == renewed.updateID && !lock.value.Expired(now)
        && KeepsGeneration(lock.value.generation, Ceiling(st, legacy), renewed.generation)
        && renewed.owner == lock.value.owner
      modifies this`disk, this`h, this`setbacks
      ensures Valid() && Onward() && seen <= at < |h| && Respects(minted, newborn, old(Now()).aux, Now().aux)
      ensures r.Some? && r.value.Ok? ==>
                && |old(h)| <= at && Renewed(h, at, renewed.updateID, renewed.generation, r.value.value)
                && r.value.value == renewed && h[at].op.now == now
      ensures r.Some? && r.value.Err? ==> r.value.error == Transport
      ensures (r.Some? && r.value.Ok?) || setbacks > old(setbacks)
    {
      var doc := st.(fence := Max(st.fence, renewed.generation), lockProtocol := CANONICAL_LOCK_PROTOCOL, lock := Some(renewed));
      ghost var op := Renew(renewed.updateID, now, renewed.expiresAt, renewed.generation);
      RenewJustified(h, st, legacy, op, doc);
      var reply, landed := WriteLock(st, legacy, doc, op);
      at := if reply.Done? then landed else seen;
      r := if reply.Done? then Some(Ok(renewed)) else if reply.PreconditionFailed? then None else Some(Err(Transport));
    }

    method RenewLock(updateID: string, generation: nat, ttl: int) returns (r: Result<Lock>, ghost at: int)
      requires Valid() && MayDo(Renewing(updateID, generation))
      modifies this
      ensures Valid() && Onward() && |old(h)| - 1 <= at < |h| && Respects(minted, newborn, old(Now()).aux, Now().aux)
      ensures r.Ok? ==>
                && |old(h)| <= at && Renewed(h, at, updateID, generation, r.value)
                && Leased(time, old(ticks), ticks, h[at].op.now, r.value.expiresAt, ttl)
      ensures r.Err? ==>
                || (r.error == Transport && setbacks > old(setbacks))
                || (r.error == ConcurrentMutation && setbacks >= old(setbacks) + 5)
                || RenewRefused(h, at, updateID, generation, r.error, time, old(ticks), ticks)
    {
      ghost var h0 := h;
      var attempt := 0;
      var one: Option<Result<Lock>> := None;
      at := |h| - 1;
      while attempt < 5 && one.None?
        invariant Valid() && Onward() && |h0| - 1 <= at < |h| && Respects(minted, newborn, Last(h0).aux, Now().aux)
        invariant one.None? ==> setbacks >= old(setbacks) + attempt
        invariant one.Some? && one.value.Ok? ==>
                  && |h0| <= at && Renewed(h, at, updateID, generation, one.value.value)
                  && Leased(time, old(ticks), ticks, h[at].op.now, one.value.value.expiresAt, ttl)
        invariant one.Some? && one.value.Err? ==>
                  || (one.value.error == Transport && setbacks > old(setbacks))
                  || RenewRefused(h, at, updateID, generation, one.value.error, time, old(ticks), ticks)
      {
        one, at := RenewOnce(updateID, generation, ttl);
        attempt := attempt + 1;
      }
      r := if one.None? then Err(ConcurrentMutation) else one.value;
    }

    /** One pass of ReleaseLock's loop. */
    method ReleaseOnce(updateID: string, generation: nat) returns (r: Option<Result<()>>, ghost at: int)
      requires Valid() && MayDo(Releasing(updateID, generation))
      modifies this`disk, this`h, this`setbacks
      ensures Valid() && Onward() && |old(h)| - 1 <= at < |h| && Respects(minted, newborn, old(Now()).aux, Now().aux)
      ensures r.None? ==> setbacks > old(setbacks)
      ensures r.Some? && r.value.Ok? ==> Holder(h[at].s.disk).None? || LegacyMode(h[at].s.disk)
      ensures r.Some? && r.value.Err? ==>
                || (r.value.error == Transport && setbacks > old(setbacks))
                || (r.value.error.LockHeld? && HeldOtherwise(h, at, updateID, generation, r.value.error.lock))
    {
      var got, seen := ReadLockState();
      at := seen;
      if got.Err? {
        if got.error.StackNotFound? {
          at := |h| - 1;
          r := Some(Ok(()));
        } else {
          r := Some(Err(got.error));
        }
      } else {
        var LockState(st, legacy) := got.value;
        var lock := if st.lock.Some? then st.lock else legacy;
        if lock.None? {
          r := Some(Ok(()));
        } else if lock.value.updateID != updateID || (generation != 0 && lock.value.generation != generation) {
          r := Some(Err(LockHeld(lock.value)));
        } else {
          var doc := st.(fence := Max(st.fence, lock.value.generation), lockProtocol := CANONICAL_LOCK_PROTOCOL, lock := None);
          ghost var op := Release(updateID, generation);
          ReleaseJustified(h, st, legacy, op, doc);
          var reply, landed := WriteLock(st, legacy, doc, op);
          at := if reply.Done? then landed else at;
          r := if reply.Done? then Some(Ok(())) else if reply.PreconditionFailed? then None else Some(Err(Transport));
        }
      }
    }

    method ReleaseLock(updateID: string, generation: nat) returns (r: Result<()>, ghost at: int)
      requires Valid() && MayDo(Releasing(updateID, generation))
      modifies this`disk, this`h, this`setbacks
      ensures Valid() && Onward() && |old(h)| - 1 <= at < |h| && Respects(minted, newborn, old(Now()).aux, Now().aux)
      ensures r.Ok? ==> Holder(h[at].s.disk).None? || LegacyMode(h[at].s.disk)
      ensures r.Err? ==>
                || (r.error == Transport && setbacks > old(setbacks))
                || (r.error == ConcurrentMutation && setbacks >= old(setbacks) + 5)
                || (r.error.LockHeld? && HeldOtherwise(h, at, updateID, generation, r.error.lock))
      ensures AsksRelease(h, |old(h)|, updateID, generation) && |old(h)| <= at
    {
      Did(GiveUp(updateID, generation));
      ghost var h0 := h;
      var attempt := 0;
      var one: Option<Result<()>> := None;
      at := |h| - 1;
      while attempt < 5 && one.None?
        invariant Valid() && Onward() && h0 <= h && |h0| - 1 <= at < |h| && Respects(minted, newborn, Last(h0).aux, Now().aux)
        invariant one.None? ==> setbacks >= old(setbacks) + attempt
        invariant one.Some? && one.value.Ok? ==> Holder(h[at].s.disk).None? || LegacyMode(h[at].s.disk)
        invariant one.Some? && one.value.Err? ==>
                  || (one.value.error == Transport && setbacks > old(setbacks))
                  || (one.value.error.LockHeld? && HeldOtherwise(h, at, updateID, generation, one.value.error.lock))
      {
        one, at := ReleaseOnce(updateID, generation);
        attempt := attempt + 1;
      }
      r := if one.None? then Err(ConcurrentMutation) else one.value;
    }

    /** The lock in force at some instant of the call; only a stack still in legacy mode can make it say
        NoLock while a lock is in force throughout. */
    method GetLock() returns (r: Result<Lock>, ghost at: int)
      requires Valid()
      modifies this`disk, this`h, this`setbacks
      ensures Valid() && Onward() && |old(h)| - 1 <= at < |h| && Respects(minted, newborn, old(Now()).aux, Now().aux)
      ensures match r
              case Ok(l) => Holder(h[at].s.disk) == Some(l)
              case Err(e) =>
                || (e == Transport && setbacks > old(setbacks))
                || (e == StackNotFound && h[at].s.disk.stack.None?)
                || (e == NoLock && (Holder(h[at].s.disk).None? || LegacyMode(h[at].s.disk)))
    {
      var got, seen := ReadLockState();
      at := seen;
      if got.Err? {
        at := |h| - 1;
        r := Err(got.error);
      } else if got.value.stack.lock.Some? {
        r := Ok(got.value.stack.lock.value);
      } else {
        r := if got.value.legacy.Some? then Ok(got.value.legacy.value) else Err(NoLock);
      }
    }

    // -------------------------------------------------------------- creation

    /** One PUT of stack.json with If-None-Match, under a freshly minted incarnation. */
    method TryCreateStack(st: Stack) returns (reply: Reply)
      requires Valid() && MayDo(Founding(st.incarnation)) && st == NewStack(st.incarnation, st.created)
      requires st.incarnation == newborn && st.incarnation != "" && st.incarnation !in Now().aux.used
      modifies this`disk, this`h, this`setbacks
      ensures Valid() && Onward() && CreateReplied(reply, |old(h)|, old(setbacks), st)
      ensures Unspent(old(Now()), minted, st.incarnation) ==> Unspent(Now(), minted, st.incarnation)
    {
      Interfere();
      var landed: bool, told: bool, lost: bool := *, *, *;
      if landed && disk.stack.None? {
        disk := disk.(stack := Some(st));
        Did(Create(st.incarnation, st.created));
        reply := if told then Done else if lost then PreconditionFailed else RequestFailed;
      } else {
        reply := if disk.stack.Some? && told then PreconditionFailed else if lost then Conflict else RequestFailed;
      }
      if reply.Conflict? || reply.RequestFailed? {
        setbacks := setbacks + 1;
      }
    }

    /** What the answer to that PUT means. */
    ghost predicate CreateReplied(reply: Reply, since: int, before: nat, st: Stack)
      reads this
      requires |h| > 0
    {
      match reply
      case Done => since < |h| && h[|h| - 1].op.Create? && disk.stack == Some(st)
      case PreconditionFailed => disk.stack.Some?
      case Conflict => setbacks > before && st.incarnation !in Now().aux.used
      case RequestFailed => setbacks > before
    }

    /** The same, up to three attempts while the bucket answers 409. */
    method CreateStack(incarnation: string) returns (r: Result<Stack>)
      requires Valid() && MayDo(Founding(incarnation))
      requires incarnation == newborn && incarnation != "" && incarnation !in Now().aux.used
      modifies this
      ensures Valid() && Onward()
      ensures r.Ok? ==> |old(h)| < |h| && h[|h| - 1].op.Create? && disk.stack == Some(r.value)
                        && r.value == NewStack(incarnation, r.value.created) && ReadIn(time, old(ticks), ticks, r.value.created)
      ensures r.Err? ==> (r.error == StackExists && disk.stack.Some?) || (r.error == Transport && setbacks > old(setbacks))
      ensures Unspent(old(Now()), minted, incarnation) ==> Unspent(Now(), minted, incarnation)
    {
      var now := Clock();
      var st := NewStack(incarnation, now);
      var attempt := 1;
      var reply := TryCreateStack(st);
      while attempt < 3 && reply.Conflict?
        invariant Valid() && Onward() && CreateReplied(reply, |old(h)|, old(setbacks), st) && ticks == old(ticks) + 1
        invariant Unspent(old(Now()), minted, incarnation) ==> Unspent(Now(), minted, incarnation)
      {
        reply := TryCreateStack(st);
        attempt := attempt + 1;
      }
      assert st.created == time(old(ticks));
      r := if reply.Done? then Ok(st) else if reply.PreconditionFailed? then Err(StackExists) else Err(Transport);
    }

    // -------------------------------------------------------------- checkpoints

    /** PUT of a checkpoint object with If-None-Match. Whether it is reported written or already there, it is
        there. */
    method PutObjectIfAbsent(ghost c: Commit, incarnation: string, deployment: Deployment) returns (reply: Reply)
      requires Valid() && MayDo(Saving(c)) && c.incarnation == incarnation && c.deployment == deployment
      modifies this`disk, this`h, this`setbacks
      ensures Valid() && Onward() && Respects(minted, newborn, old(Now()).aux, Now().aux)
      ensures reply.Done? || reply.PreconditionFailed? ==> CheckpointObject(incarnation, deployment) in disk.blobs
      ensures reply.Conflict? || reply.RequestFailed? ==> setbacks > old(setbacks)
    {
      ghost var h0 := h;
      var key := CheckpointObject(incarnation, deployment);
      var attempt := 0;
      reply := Conflict;
      while attempt < 3 && reply.Conflict?
        invariant Valid() && Onward() && Respects(minted, newborn, Last(h0).aux, Now().aux)
        invariant reply.Done? || reply.PreconditionFailed? ==> key in disk.blobs
        invariant (reply.Conflict? && attempt > 0) || reply.RequestFailed? ==> setbacks > old(setbacks)
      {
        Interfere();
        var landed: bool, told: bool, lost: bool := *, *, *;
        if landed && key !in disk.blobs {
          disk := disk.(blobs := disk.blobs[key := deployment]);
          Did(PutObject(incarnation, deployment));
          reply := if told then Done else if lost then PreconditionFailed else RequestFailed;
        } else {
          reply := if key in disk.blobs && told then PreconditionFailed else if lost then Conflict else RequestFailed;
        }
        if reply.Conflict? || reply.RequestFailed? {
          setbacks := setbacks + 1;
        }
        attempt := attempt + 1;
      }
    }

    /** One PUT, without a condition, of one of the two copies kept for older readers. */
    method TryPutCopy(c: Commit, key: Key) returns (conflict: bool)
      requires Valid() && MayDo(Saving(c)) && c in Now().aux.log
      requires key == HistoryKey(c.incarnation, c.version) || key == LatestKey(c.incarnation)
      modifies this`disk, this`h, this`setbacks
      ensures Valid() && Onward() && Respects(minted, newborn, old(Now()).aux, Now().aux) && c in Now().aux.log
      ensures conflict ==> setbacks > old(setbacks)
      ensures setbacks == old(setbacks) ==> BlobAt(h, |h| - 1, key, c.deployment)
    {
      ghost var op := if key.HistoryKey? then CopyHistory(c.incarnation, c.version, c.deployment)
                      else CopyLatest(c.incarnation, c.deployment);
      Interfere();
      LoggedForever(h, |old(h)| - 1, c);
      var landed: bool := *;
      conflict := *;
      if landed {
        disk := disk.(blobs := disk.blobs[key := c.deployment]);
        Did(op);
      }
      if conflict || !landed {
        setbacks := setbacks + 1;
      }
    }

    /** The same, up to three attempts while the bucket answers 409; failures are ignored. */
    method PutCopy(c: Commit, key: Key)
      requires Valid() && MayDo(Saving(c)) && c in Now().aux.log
      requires key == HistoryKey(c.incarnation, c.version) || key == LatestKey(c.incarnation)
      modifies this`disk, this`h, this`setbacks
      ensures Valid() && Onward() && Respects(minted, newborn, old(Now()).aux, Now().aux) && c in Now().aux.log
      ensures setbacks == old(setbacks) ==> BlobAt(h, |h| - 1, key, c.deployment)
    {
      var attempt := 1;
      var conflict := TryPutCopy(c, key);
      while attempt < 3 && conflict
        invariant Valid() && Onward() && Respects(minted, newborn, old(Now()).aux, Now().aux) && c in Now().aux.log
        invariant conflict ==> setbacks > old(setbacks)
        invariant setbacks == old(setbacks) ==> BlobAt(h, |h| - 1, key, c.deployment)
      {
        conflict := TryPutCopy(c, key);
        attempt := attempt + 1;
      }
    }

    /** One pass of SaveCheckpoint's loop. */
    method SaveOnce(c: Commit) returns (r: Option<Result<()>>, ghost at: int)
      requires Valid() && MayDo(Saving(c)) && Stored(Now(), c)
      requires if c.updateID == "" then c.incarnation != "" else !DeletionID(c.updateID)
      modifies this
      ensures Valid() && Onward() && Respects(minted, newborn, old(Now()).aux, Now().aux) && Stored(Now(), c)
      ensures r.None? ==> setbacks > old(setbacks)
      ensures r.Some? && r.value.Ok? ==> |old(h)| < |h| && h[|h| - 1].op.Publish? && h[|h| - 1].op.commit == c
      ensures r.Some? && r.value.Err? ==>
                || (r.value.error == Transport && setbacks > old(setbacks))
                || (|old(h)| - 1 <= at && SaveRefused(h, at, c, r.value.error, time, old(ticks), ticks))
    {
      var got := GetStack();
      at := |h| - 1;
      StoredLater(old(h), h, c);
      var now := Clock();
      if got.Err? {
        r := Some(Err(got.error));
      } else if got.value.incarnation != c.incarnation {
        r := Some(Err(ConcurrentMutation));
      } else if c.updateID == "" && (c.generation != 0 || c.version != 0 || got.value.version != 0 || got.value.lock.Some?) {
        r := Some(Err(InvalidUpdateState));
      } else if c.updateID != "" &&
                (got.value.lock.None? || got.value.lock.value.updateID != c.updateID
                 || got.value.lock.value.generation != c.generation || got.value.lock.value.Expired(now)
                 || got.value.version != c.version) {
        assert SaveBarred(got.value, c, time(old(ticks)));
        r := Some(Err(ConcurrentMutation));
      } else {
        r := PointTo(got.value, c, now);
      }
    }

    /** The write of SaveCheckpoint's loop: the document, as read, with its pointers moved to the new checkpoint. */
    method PointTo(st: Stack, c: Commit, ghost now: int) returns (r: Option<Result<()>>)
      requires Valid() && MayDo(Saving(c)) && Stored(Now(), c)
      requires disk.stack == Some(st) && st.incarnation == c.incarnation && PublishGuard(st, c, now)
      modifies this`disk, this`h, this`setbacks
      ensures Valid() && Onward() && Respects(minted, newborn, old(Now()).aux, Now().aux) && Stored(Now(), c)
      ensures r.Some? && r.value.Ok? ==> |old(h)| < |h| && h[|h| - 1].op.Publish? && h[|h| - 1].op.commit == c
      ensures r.Some? && r.value.Err? ==> r.value.error == Transport
      ensures (r.Some? && r.value.Ok?) || setbacks > old(setbacks)
    {
      var key := CheckpointObject(c.incarnation, c.deployment);
      var doc := st.(latestCheckpointKey := Some(key), checkpointVersions := st.checkpointVersions[c.version := key]);
      var reply := WriteStackIfMatch(st, Some(doc), Publish(c, now), |h| - 1);
      StoredLater(old(h), h, c);
      r := if reply.Done? then Some(Ok(())) else if reply.PreconditionFailed? then None else Some(Err(Transport));
    }

    /** SaveCheckpoint's loop: up to five passes. */
    method PublishCheckpoint(c: Commit) returns (r: Result<()>, ghost at: int)
      requires Valid() && MayDo(Saving(c)) && Stored(Now(), c)
      requires if c.updateID == "" then c.incarnation != "" else !DeletionID(c.updateID)
      modifies this
      ensures Valid() && Onward() && Respects(minted, newborn, old(Now()).aux, Now().aux)
      ensures r.Ok? ==> |old(h)| < |h| && h[|h| - 1].op.Publish? && h[|h| - 1].op.commit == c
      ensures r.Err? ==>
                || (r.error == Transport && setbacks > old(setbacks))
                || (r.error == ConcurrentMutation && setbacks >= old(setbacks) + 5)
                || (|old(h)| - 1 <= at && SaveRefused(h, at, c, r.error, time, old(ticks), ticks))
    {
      ghost var h0 := h;
      var attempt := 0;
      var one: Option<Result<()>> := None;
      at := |h| - 1;
      while attempt < 5 && one.None?
        invariant Valid() && Onward() && Respects(minted, newborn, Last(h0).aux, Now().aux) && Stored(Now(), c)
        invariant one.None? ==> setbacks >= old(setbacks) + attempt
        invariant one.Some? && one.value.Err? ==>
                  || (one.value.error == Transport && setbacks > old(setbacks))
                  || (|h0| - 1 <= at && SaveRefused(h, at, c, one.value.error, time, old(ticks), ticks))
        invariant one.Some? && one.value.Ok? ==> |h0| < |h| && h[|h| - 1].op.Publish? && h[|h| - 1].op.commit == c
      {
        one, at := SaveOnce(c);
        attempt := attempt + 1;
      }
      r := if one.None? then Err(ConcurrentMutation) else one.value;
    }

    /** The two copies, history first, after a commit that was the last step. */
    method PutCopies(c: Commit)
      requires Valid() && MayDo(Saving(c)) && |h| > 1 && h[|h| - 1].op.Publish? && h[|h| - 1].op.commit == c
      modifies this`disk, this`h, this`setbacks
      ensures Valid() && Onward() && Respects(minted, newborn, old(Now()).aux, Now().aux)
      ensures setbacks == old(setbacks) ==>
                && BlobSeen(h, |old(h)| - 1, HistoryKey(c.incarnation, c.version), c.deployment)
                && BlobSeen(h, |old(h)| - 1, LatestKey(c.incarnation), c.deployment)
    {
      PublishedIsLogged(h, c);
      PutCopy(c, HistoryKey(c.incarnation, c.version));
      ghost var h1 := h;
      PutCopy(c, LatestKey(c.incarnation));
      if setbacks == old(setbacks) {
        BlobSeenLater(h1, h, |old(h)| - 1, |h1| - 1, HistoryKey(c.incarnation, c.version), c.deployment);
      }
    }

    /** Commits a checkpoint. Success means that the pointer write landed, at h[at], with this commit appended
        to the log. */
    method SaveCheckpoint(c: Commit) returns (r: Result<()>, ghost at: int)
      requires Valid() && MayDo(Saving(c))
      requires if c.updateID == "" then c.incarnation != "" else !DeletionID(c.updateID)
      modifies this
      ensures Valid() && Onward() && Respects(minted, newborn, old(Now()).aux, Now().aux)
      ensures r.Ok? ==> |old(h)| <= at < |h| && h[at].op.Publish? && h[at].op.commit == c
      ensures r.Ok? && setbacks == old(setbacks) ==>
                && BlobSeen(h, at, HistoryKey(c.incarnation, c.version), c.deployment)
                && BlobSeen(h, at, LatestKey(c.incarnation), c.deployment)
      ensures r.Err? ==>
                || (r.error == Transport && setbacks > old(setbacks))
                || (r.error == ConcurrentMutation && setbacks >= old(setbacks) + 5)
                || (|old(h)| - 1 <= at && SaveRefused(h, at, c, r.error, time, old(ticks), ticks))
    {
      var initial := GetStack();
      at := |h| - 1;
      if initial.Err? {
        r := Err(initial.error);
      } else if initial.value.incarnation != c.incarnation {
        r := Err(ConcurrentMutation);
      } else {
        var put := PutObjectIfAbsent(c, c.incarnation, c.deployment);
        if put.Done? || put.PreconditionFailed? {
          r, at := PublishCheckpoint(c);
          if r.Ok? {
            at := |h| - 1;
            PutCopies(c);
          }
        } else {
          r := Err(Transport);
        }
      }
    }

    // -------------------------------------------------------------- update records

    /** Reads stack.json for the incarnation, then the record kept under it. */
    method GetUpdate(updateID: string) returns (r: Result<Found>, ghost at: int)
      requires Valid()
      modifies this`disk, this`h, this`setbacks
      ensures Valid() && Onward() && |old(h)| - 1 <= at < |h| && Respects(minted, newborn, old(Now()).aux, Now().aux)
      ensures match r
              case Ok(f) => Current(h[at].s.disk, f.incarnation) && RecordIs(disk, f.incarnation, updateID, f.update)
              case Err(e) =>
                || (e == Transport && setbacks > old(setbacks))
                || (e in {StackNotFound, UpdateNotFound} && NoRecordSeen(h, |old(h)| - 1, updateID))
    {
      var got := GetStack();
      at := |h| - 1;
      if got.Err? {
        assert got.error == StackNotFound ==> NoRecordAt(h, at, updateID);
        r := Err(got.error);
      } else {
        var key := UpdateKey(got.value.incarnation, updateID);
        Interfere();
        var reached: bool := *;
        if reached {
          assert key !in disk.updates ==> LacksRecord(h, |h| - 1, got.value.incarnation, updateID) && NoRecordAt(h, at, updateID);
          r := if key in disk.updates then Ok(Found(disk.updates[key], got.value.incarnation)) else Err(UpdateNotFound);
        } else {
          setbacks := setbacks + 1;
          r := Err(Transport);
        }
      }
    }

    /** One PUT of a new record with If-None-Match. */
    method TryPutRecord(incarnation: string, record: Update) returns (reply: Reply)
      requires Valid() && Execution(h) && MayDo(Recording(record.id, record.kind))
      requires record.status.NotStarted? && Truthful(Now(), incarnation, record)
      modifies this`disk, this`h, this`setbacks
      ensures Valid() && Onward() && Respects(minted, newborn, old(Now()).aux, Now().aux)
      ensures Execution(h) && Truthful(Now(), incarnation, record)
      ensures PutReplied(reply, |old(h)|, old(setbacks), incarnation, record)
    {
      var key := UpdateKey(incarnation, record.id);
      Interfere();
      ExecutionLater(old(h), h);
      TruthfulLater(old(h), h, incarnation, record);
      var landed: bool, told: bool, lost: bool := *, *, *;
      if landed && key !in disk.updates {
        ghost var h1 := h;
        disk := disk.(updates := disk.updates[key := record]);
        Did(PutRecord(incarnation, record));
        ExecutionLater(h1, h);
        TruthfulLater(h1, h, incarnation, record);
        reply := if told then Done else if lost then PreconditionFailed else RequestFailed;
      } else {
        reply := if key in disk.updates && told then PreconditionFailed else if lost then Conflict else RequestFailed;
      }
      if reply.Conflict? || reply.RequestFailed? {
        setbacks := setbacks + 1;
      }
    }

    /** What the answer to the PUT of a new record means. */
    ghost predicate PutReplied(reply: Reply, since: int, before: nat, incarnation: string, record: Update)
      reads this
    {
      match reply
      case Done =>
        0 <= since < |h| && h[|h| - 1].op == PutRecord(incarnation, record) && RecordIs(disk, incarnation, record.id, record)
      case PreconditionFailed => UpdateKey(incarnation, record.id) in disk.updates
      case Conflict => setbacks > before
      case RequestFailed => setbacks > before
    }

    /** PUT of a new record with If-None-Match, up to three attempts while the bucket answers 409. */
    method PutRecordIfAbsent(incarnation: string, record: Update) returns (reply: Reply)
      requires Valid() && Execution(h) && MayDo(Recording(record.id, record.kind))
      requires record.status.NotStarted? && Truthful(Now(), incarnation, record)
      modifies this`disk, this`h, this`setbacks
      ensures Valid() && Onward() && Respects(minted, newborn, old(Now()).aux, Now().aux)
      ensures Truthful(Now(), incarnation, record)
      ensures PutReplied(reply, |old(h)|, old(setbacks), incarnation, record)
    {
      var attempt := 1;
      reply := TryPutRecord(incarnation, record);
      while attempt < 3 && reply.Conflict?
        invariant Valid() && Onward() && Respects(minted, newborn, old(Now()).aux, Now().aux)
        invariant Execution(h) && Truthful(Now(), incarnation, record)
        invariant PutReplied(reply, |old(h)|, old(setbacks), incarnation, record)
      {
        reply := TryPutRecord(incarnation, record);
        attempt := attempt + 1;
      }
    }

    /** rollbackUpdate: removes the record this call put, if it still reads as it was put. */
    method RollbackRecord(incarnation: string, record: Update)
      requires Valid() && MayDo(Recording(record.id, record.kind)) && record.status.NotStarted?
      modifies this`disk, this`h, this`setbacks
      ensures Valid() && Onward() && Respects(minted, newborn, old(Now()).aux, Now().aux)
      ensures setbacks == old(setbacks) ==> !RecordIs(disk, incarnation, record.id, record)
    {
      ghost var h0 := h;
      var key := UpdateKey(incarnation, record.id);
      var attempt, conflict := 0, true;
      while attempt < 3 && conflict
        invariant Valid() && Onward() && Respects(minted, newborn, Last(h0).aux, Now().aux)
        invariant setbacks == old(setbacks) ==> (conflict && attempt == 0) || !RecordIs(disk, incarnation, record.id, record)
      {
        Interfere();
        var landed: bool := *;
        conflict := *;
        if landed && key in disk.updates && disk.updates[key] == record {
          disk := disk.(updates := disk.updates - {key});
          Did(DropRecord(incarnation, record));
        } else if conflict || (key in disk.updates && disk.updates[key] == record) {
          setbacks := setbacks + 1;
        }
        attempt := attempt + 1;
      }
    }

    /** One pass of commitUpdateVersion's loop. */
    method BumpOnce(incarnation: string, updateID: string, generation: nat, version: int, ghost kind: Kind)
      returns (r: Option<Result<()>>, ghost at: int)
      requires Valid() && Execution(h) && !kind.Preview? && MayDo(Recording(updateID, kind))
      requires updateID in Now().aux.retired && !DeletionID(updateID) && Claims(Now(), incarnation, updateID, version)
      modifies this
      ensures Valid() && Onward() && |old(h)| - 1 <= at && Respects(minted, newborn, old(Now()).aux, Now().aux)
      ensures r.None? ==> setbacks > old(setbacks)
      ensures r.Some? && r.value.Ok? ==> OwnsVersion(Now(), incarnation, updateID, version)
      ensures r.Some? && r.value.Err? ==>
                || (r.value.error == Transport && setbacks > old(setbacks))
                || CommitRefused(h, at, incarnation, updateID, generation, r.value.error, time, old(ticks), ticks)
    {
      var got := GetStack();
      at := |h| - 1;
      ExecutionLater(old(h), h);
      ClaimsLater(old(h), h, incarnation, updateID, version);
      var now := Clock();
      var stamp := Clock();
      if got.Err? {
        r := Some(Err(got.error));
      } else if got.value.incarnation != incarnation || got.value.lock.None? || got.value.lock.value.updateID != updateID
                || got.value.lock.value.generation != generation || got.value.lock.value.Expired(now) {
        assert got.value.incarnation == incarnation ==> !LiveLock(got.value, updateID, generation, time(old(ticks)));
        r := Some(Err(ConcurrentMutation));
      } else if got.value.version == version {
        r := Some(Ok(()));
      } else if got.value.version == version - 1 {
        var doc := got.value.(version := version, lastUpdate := stamp);
        ghost var op := Bump(incarnation, updateID, generation, version, now, stamp);
        var reply := WriteStackIfMatch(got.value, Some(doc), op, |h| - 1);
        if reply.Done? {
          BumpOwns(h, op);
        }
        r := if reply.Done? then Some(Ok(())) else if reply.PreconditionFailed? then None else Some(Err(Transport));
      } else {
        assert BumpedPast(h[at].s, updateID, version);
        r := Some(Err(ConcurrentMutation));
      }
    }

    /** commitUpdateVersion: moves Version to the record's number, unless this update has already done so. */
    method CommitUpdateVersion(incarnation: string, updateID: string, generation: nat, version: int, ghost kind: Kind)
      returns (r: Result<()>, ghost at: int)
      requires Valid() && Execution(h) && !kind.Preview? && MayDo(Recording(updateID, kind))
      requires updateID in Now().aux.retired && !DeletionID(updateID) && Claims(Now(), incarnation, updateID, version)
      modifies this
      ensures Valid() && Onward() && |old(h)| - 1 <= at && Respects(minted, newborn, old(Now()).aux, Now().aux)
      ensures r.Ok? ==> OwnsVersion(Now(), incarnation, updateID, version)
      ensures r.Err? ==>
                || (r.error == Transport && setbacks > old(setbacks))
                || (r.error == ConcurrentMutation && setbacks >= old(setbacks) + 5)
                || CommitRefused(h, at, incarnation, updateID, generation, r.error, time, old(ticks), ticks)
    {
      ghost var h0 := h;
      var attempt := 0;
      var one: Option<Result<()>> := None;
      at := |h| - 1;
      while attempt < 5 && one.None?
        invariant Valid() && Onward() && |h0| - 1 <= at && Respects(minted, newborn, Last(h0).aux, Now().aux)
        invariant one.None? ==> setbacks >= old(setbacks) + attempt
        invariant one.Some? && one.value.Ok? ==> OwnsVersion(Now(), incarnation, updateID, version)
        invariant one.Some? && one.value.Err? ==>
                  || (one.value.error == Transport && setbacks > old(setbacks))
                  || CommitRefused(h, at, incarnation, updateID, generation, one.value.error, time, old(ticks), ticks)
      {
        ExecutionLater(h0, h);
        ClaimsLater(h0, h, incarnation, updateID, version);
        one, at := BumpOnce(incarnation, updateID, generation, version, kind);
        attempt := attempt + 1;
      }
      r := if one.None? then Err(ConcurrentMutation) else one.value;
    }

    /** One pass of the barrier of a preview. */
    method AdmitOnce(incarnation: string, updateID: string) returns (r: Option<Result<()>>, ghost at: int)
      requires Valid() && MayDo(Recording(updateID, Preview))
      modifies this`disk, this`h, this`setbacks
      ensures Valid() && Onward() && |old(h)| - 1 <= at && Respects(minted, newborn, old(Now()).aux, Now().aux)
      ensures r.None? ==> setbacks > old(setbacks)
      ensures r.Some? && r.value.Ok? ==> |old(h)| < |h| && h[|h| - 1].op == Barrier(incarnation, updateID)
      ensures r.Some? && r.value.Err? ==>
                || (r.value.error == Transport && setbacks > old(setbacks))
                || AdmitRefused(h, at, incarnation, r.value.error)
    {
      var current := GetStack();
      at := |h| - 1;
      if current.Err? {
        r := Some(Err(current.error));
      } else if current.value.incarnation != incarnation {
        r := Some(Err(ConcurrentMutation));
      } else if DeletionFence(current.value.lock) {
        r := Some(Err(LockHeld(current.value.lock.value)));
      } else {
        var reply := WriteStackIfMatch(current.value, Some(current.value), Barrier(incarnation, updateID), |h| - 1);
        r := if reply.Done? then Some(Ok(())) else if reply.PreconditionFailed? then None else Some(Err(Transport));
      }
    }

    /** The barrier of a preview: stack.json is written back unchanged, up to five times, as long as no deletion
        fence stands. Success means that at the end of the call the stack was of this incarnation, unfenced. */
    method AdmitPreview(incarnation: string, updateID: string) returns (r: Result<()>, ghost at: int)
      requires Valid() && MayDo(Recording(updateID, Preview))
      modifies this`disk, this`h, this`setbacks
      ensures Valid() && Onward() && |old(h)| - 1 <= at && Respects(minted, newborn, old(Now()).aux, Now().aux)
      ensures r.Ok? ==> |old(h)| < |h| && h[|h| - 1].op == Barrier(incarnation, updateID)
      ensures r.Err? ==>
                || (r.error == Transport && setbacks > old(setbacks))
                || (r.error == ConcurrentMutation && setbacks >= old(setbacks) + 5)
                || AdmitRefused(h, at, incarnation, r.error)
    {
      ghost var h0 := h;
      var attempt := 0;
      var one: Option<Result<()>> := None;
      at := |h| - 1;
      while attempt < 5 && one.None?
        invariant Valid() && Onward() && |h0| - 1 <= at && Respects(minted, newborn, Last(h0).aux, Now().aux)
        invariant one.None? ==> setbacks >= old(setbacks) + attempt
        invariant one.Some? && one.value.Ok? ==> |h0| < |h| && h[|h| - 1].op == Barrier(incarnation, updateID)
        invariant one.Some? && one.value.Err? ==>
                  || (one.value.error == Transport && setbacks > old(setbacks))
                  || AdmitRefused(h, at, incarnation, one.value.error)
      {
        one, at := AdmitOnce(incarnation, updateID);
        attempt := attempt + 1;
      }
      r := if one.None? then Err(ConcurrentMutation) else one.value;
    }

    /** CreateUpdate's answer when the record is already there: a replay, or its own write whose response was
        lost. A locking update commits the version of the record found; a preview is returned as found. */
    method ResumeUpdate(kind: Kind, updateID: string, incarnation: string, generation: nat, ghost since: int)
      returns (r: Result<Found>)
      requires Valid() && Execution(h) && MayDo(Recording(updateID, kind))
      requires IsKind(Now(), updateID, kind) && AsOf(h, since, incarnation, updateID, generation, kind)
      requires (!kind.Preview? ==> updateID in Now().aux.retired && !DeletionID(updateID))
      requires incarnation in Now().aux.used && UpdateKey(incarnation, updateID) in disk.updates
      modifies this
      ensures Valid() && Onward() && Respects(minted, newborn, old(Now()).aux, Now().aux)
      ensures r.Ok? ==> r.value.update.kind == kind
      ensures r.Ok? && kind.Preview? ==> RecordIs(disk, r.value.incarnation, updateID, r.value.update)
      ensures r.Ok? ==> RecordSeen(h, |old(h)| - 1, r.value.incarnation, updateID, r.value.update)
      ensures r.Ok? && !kind.Preview? ==>
                r.value.incarnation == incarnation && OwnsVersion(Now(), incarnation, updateID, r.value.update.version)
      ensures r.Err? ==> setbacks > old(setbacks) || CreationHindered(h, since, kind, updateID, time, old(ticks), ticks)
    {
      var existing, seen := GetUpdate(updateID);
      ExecutionLater(old(h), h);
      if existing.Err? {
        assert RecordAt(h, |old(h)| - 1, incarnation, updateID);
        r := Err(Transport);
      } else {
        RecordNamesItself(old(h), h, existing.value.incarnation, updateID);
        SeenNow(h, |old(h)| - 1, existing.value.incarnation, updateID);
        if existing.value.update.kind != kind {
          r := Err(ConcurrentMutation);
        } else if kind.Preview? {
          r := existing;
        } else {
          FoundClaims(old(h), h, seen, existing.value, updateID, incarnation);
          r := CommitFound(kind, existing.value, updateID, incarnation, generation, since, |old(h)| - 1, seen);
        }
      }
    }

    /** The same for a locking update, its record found. */
    method CommitFound(ghost kind: Kind, f: Found, updateID: string, incarnation: string, generation: nat,
                       ghost since: int, ghost start: int, ghost seen: int)
      returns (r: Result<Found>)
      requires Valid() && Execution(h) && MayDo(Recording(updateID, kind)) && !kind.Preview? && f.update.kind == kind
      requires AsOf(h, since, incarnation, updateID, generation, kind)
      requires updateID in Now().aux.retired && !DeletionID(updateID) && Claims(Now(), incarnation, updateID, f.update.version)
      requires 0 <= start <= seen < |h| && incarnation in h[start].s.aux.used && Current(h[seen].s.disk, f.incarnation)
      requires RecordSeen(h, start, f.incarnation, updateID, f.update)
      modifies this
      ensures Valid() && Onward() && Respects(minted, newborn, old(Now()).aux, Now().aux)
      ensures r.Ok? ==>
                r.value == f && f.incarnation == incarnation && OwnsVersion(Now(), incarnation, updateID, f.update.version)
      ensures r.Ok? ==> RecordSeen(h, start, f.incarnation, updateID, f.update)
      ensures r.Err? ==> setbacks > old(setbacks) || CreationHindered(h, since, kind, updateID, time, old(ticks), ticks)
    {
      var committed, at := CommitUpdateVersion(incarnation, updateID, generation, f.update.version, kind);
      if committed.Ok? {
        ExecutionLater(old(h), h);
        assert h[seen] == old(h)[seen] && h[start] == old(h)[start];
        SameIncarnation(h, start, seen, incarnation, f.incarnation);
        RecordSeenLater(old(h), h, start, start, f.incarnation, updateID, f.update);
        r := Ok(f);
      } else {
        if setbacks == old(setbacks) {
          CommitHinders(old(h), h, since, at, incarnation, updateID, generation, kind, committed.error, time, old(ticks), ticks);
        }
        r := Err(committed.error);
      }
    }

    /** What CreateUpdate makes of its first reading of the stack: the record it is going to write. */
    method PrepareUpdate(kind: Kind, updateID: string) returns (r: Result<Prepared>, ghost seen: int)
      requires Valid() && Execution(h) && MayDo(Recording(updateID, kind))
      requires IsKind(Now(), updateID, kind)
      requires (!kind.Preview? ==> updateID in Now().aux.retired && !DeletionID(updateID))
      modifies this
      ensures Valid() && Onward() && Execution(h) && Respects(minted, newborn, old(Now()).aux, Now().aux)
      ensures |old(h)| - 1 <= seen < |h|
      ensures r.Ok? ==>
                && AsOf(h, seen, r.value.incarnation, updateID, r.value.generation, kind)
                && IsKind(Now(), updateID, kind)
                && r.value.incarnation in Now().aux.used && Truthful(Now(), r.value.incarnation, r.value.record)
                && Fresh(r.value.record, kind, updateID, h[seen].s.disk.stack.value.version, time, old(ticks), ticks)
      ensures r.Err? ==>
                || (r.error == Transport && setbacks > old(setbacks))
                || PrepareRefused(h, seen, kind, updateID, r.error, time, old(ticks), ticks)
    {
      var got := GetStack();
      seen := |h| - 1;
      ExecutionLater(old(h), h);
      KeptLater(old(h), h);
      var now := Clock();
      var start := Clock();
      if got.Err? {
        r := Err(got.error);
      } else if kind.Preview? && DeletionFence(got.value.lock) {
        r := Err(LockHeld(got.value.lock.value));
      } else if !kind.Preview?
                && (got.value.lock.None? || got.value.lock.value.updateID != updateID || got.value.lock.value.Expired(now)) {
        assert NotLive(got.value, updateID, time(old(ticks)));
        r := Err(NoLock);
      } else {
        var st := got.value;
        BeginUpdate(st.incarnation, updateID);
        var version := if kind.Preview? then st.version else st.version + 1;
        var generation := if kind.Preview? then 0 else st.lock.value.generation;
        r := Ok(Prepared(st.incarnation, generation, Update(updateID, kind, NotStarted, version, start, 0, "")));
      }
    }

    /** Creates the record of an update. A locking update is created only by the holder of the stack and then
        owns the record's version; a preview is admitted by its barrier, except on the branch taken when its
        record is found to exist already (`admitted` is false there). Without a setback, only a hindrance in the
        bucket keeps it from succeeding, and a record it has put does not stay. */
    method CreateUpdate(kind: Kind, updateID: string) returns (r: Result<Found>, ghost put: int, ghost admitted: bool)
      requires Valid() && Execution(h) && MayDo(Recording(updateID, kind))
      requires IsKind(Now(), updateID, kind)
      requires (!kind.Preview? ==> updateID in Now().aux.retired && !DeletionID(updateID))
      modifies this
      ensures Valid() && Onward() && Respects(minted, newborn, old(Now()).aux, Now().aux)
      ensures r.Ok? ==> r.value.update.kind == kind
      ensures r.Ok? && !kind.Preview? ==> OwnsVersion(Now(), r.value.incarnation, updateID, r.value.update.version)
      ensures r.Ok? && kind.Preview? && admitted ==>
                && |old(h)| <= put < |h| - 1 && h[put].op == PutRecord(r.value.incarnation, r.value.update)
                && h[|h| - 1].op == Barrier(r.value.incarnation, updateID)
                && PreviewRecord(h, |old(h)| - 1, r.value, updateID, time, old(ticks), ticks)
      ensures r.Ok? && kind.Preview? && !admitted ==> RecordIs(disk, r.value.incarnation, updateID, r.value.update)
      ensures r.Ok? ==> RecordSeen(h, |old(h)| - 1, r.value.incarnation, updateID, r.value.update)
      ensures r.Err? ==>
                setbacks > old(setbacks) || CreationHindered(h, |old(h)| - 1, kind, updateID, time, old(ticks), ticks)
    {
      put, admitted := |h| - 1, true;
      var prepared, seen := PrepareUpdate(kind, updateID);
      ghost var h1, t1 := h, ticks;
      if prepared.Err? {
        if setbacks == old(setbacks) {
          PrepareHinders(h, |old(h)| - 1, seen, kind, updateID, prepared.error, time, old(ticks), ticks);
        }
        r := Err(prepared.error);
      } else {
        var Prepared(incarnation, generation, u) := prepared.value;
        r, put, admitted := RecordUpdate(incarnation, u, generation, seen);
        if r.Ok? {
          RecordSeenLater(h, h, |old(h)| - 1, |h1| - 1, r.value.incarnation, updateID, r.value.update);
          assert admitted && kind.Preview? ==> VersionAt(h, seen, incarnation, u.version);
        } else if setbacks == old(setbacks) {
          HinderedLater(h, |old(h)| - 1, seen, kind, updateID, time, t1, ticks, old(ticks), ticks);
        }
      }
    }

    /** Notes that a creation has read the stack unfenced. */
    ghost method BeginUpdate(incarnation: string, updateID: string)
      requires Valid() && Execution(h) && Begin(incarnation, updateID) in may
      requires Current(disk, incarnation) && !DeletionFence(disk.stack.value.lock)
      modifies this`h
      ensures Valid() && Execution(h) && |h| == |old(h)| + 1 && old(h) <= h && incarnation in Now().aux.used
      ensures Now().aux == old(Now()).aux.(begun := old(Now()).aux.begun + {(incarnation, updateID)})
    {
      CurrentIsUsed(h);
      Did(Begin(incarnation, updateID));
      ExecutionLater(old(h), h);
    }

    /** CreateUpdate once it has decided on its record: a record written is finished, one found is resumed. */
    method RecordUpdate(incarnation: string, u: Update, generation: nat, ghost since: int)
      returns (r: Result<Found>, ghost put: int, ghost admitted: bool)
      requires Valid() && Execution(h) && MayDo(Recording(u.id, u.kind))
      requires u.status.NotStarted? && Truthful(Now(), incarnation, u)
      requires incarnation in Now().aux.used && AsOf(h, since, incarnation, u.id, generation, u.kind)
      modifies this
      ensures Valid() && Onward() && Respects(minted, newborn, old(Now()).aux, Now().aux)
      ensures r.Ok? ==> r.value.update.kind == u.kind
      ensures r.Ok? && !u.kind.Preview? ==> OwnsVersion(Now(), r.value.incarnation, u.id, r.value.update.version)
      ensures r.Ok? && u.kind.Preview? && admitted ==>
                && |old(h)| <= put < |h| - 1 && h[put].op == PutRecord(incarnation, u) && r.value == Found(u, incarnation)
                && h[|h| - 1].op == Barrier(incarnation, u.id)
      ensures r.Ok? && u.kind.Preview? && !admitted ==> RecordIs(disk, r.value.incarnation, u.id, r.value.update)
      ensures r.Ok? ==> RecordSeen(h, |old(h)| - 1, r.value.incarnation, u.id, r.value.update)
      ensures r.Err? ==> setbacks > old(setbacks) || CreationHindered(h, since, u.kind, u.id, time, old(ticks), ticks)
    {
      admitted := true;
      var reply := PutRecordIfAbsent(incarnation, u);
      put := |h| - 1;
      ghost var h1 := h;
      ExecutionLater(old(h), h1);
      assert h1[since] == old(h)[since];
      if reply.Done? {
        r := FinishUpdate(incarnation, u, generation, since);
      } else if reply.PreconditionFailed? {
        admitted := false;
        KeptLater(old(h), h1);
        r := ResumeUpdate(u.kind, u.id, incarnation, generation, since);
      } else {
        r := Err(Transport);
      }
      if r.Ok? {
        RecordSeenLater(h, h, |old(h)| - 1, |h1| - 1, r.value.incarnation, u.id, r.value.update);
      }
    }

    /** The barrier of a preview or the version of a locking update. */
    method SettleUpdate(incarnation: string, u: Update, generation: nat, ghost since: int) returns (r: Result<()>)
      requires Valid() && Execution(h) && MayDo(Recording(u.id, u.kind))
      requires Truthful(Now(), incarnation, u) && AsOf(h, since, incarnation, u.id, generation, u.kind)
      modifies this
      ensures Valid() && Onward() && Respects(minted, newborn, old(Now()).aux, Now().aux)
      ensures r.Ok? && !u.kind.Preview? ==> OwnsVersion(Now(), incarnation, u.id, u.version)
      ensures r.Ok? && u.kind.Preview? ==> |old(h)| < |h| && h[|h| - 1].op == Barrier(incarnation, u.id)
      ensures r.Err? ==> setbacks > old(setbacks) || CreationHindered(h, since, u.kind, u.id, time, old(ticks), ticks)
    {
      if u.kind.Preview? {
        var done, at := AdmitPreview(incarnation, u.id);
        r := done;
        if r.Err? && setbacks == old(setbacks) {
          AdmitHinders(old(h), h, since, at, incarnation, u.id, generation, r.error, time, old(ticks), ticks);
        }
      } else {
        var done, at := CommitUpdateVersion(incarnation, u.id, generation, u.version, u.kind);
        r := done;
        if r.Err? && setbacks == old(setbacks) {
          CommitHinders(old(h), h, since, at, incarnation, u.id, generation, u.kind, r.error, time, old(ticks), ticks);
        }
      }
    }

    /** The rest of CreateUpdate once its record is written: the barrier or the version, else a rollback. */
    method FinishUpdate(incarnation: string, u: Update, generation: nat, ghost since: int) returns (r: Result<Found>)
      requires Valid() && Execution(h) && MayDo(Recording(u.id, u.kind))
      requires u.status.NotStarted? && Truthful(Now(), incarnation, u) && AsOf(h, since, incarnation, u.id, generation, u.kind)
      requires RecordIs(disk, incarnation, u.id, u)
      modifies this
      ensures Valid() && Onward() && Respects(minted, newborn, old(Now()).aux, Now().aux)
      ensures r.Ok? ==> r.value == Found(u, incarnation) && RecordSeen(h, |old(h)| - 1, incarnation, u.id, u)
      ensures r.Ok? && !u.kind.Preview? ==> OwnsVersion(Now(), incarnation, u.id, u.version)
      ensures r.Ok? && u.kind.Preview? ==> |old(h)| < |h| && h[|h| - 1].op == Barrier(incarnation, u.id)
      ensures r.Err? ==>
                || setbacks > old(setbacks)
                || (!RecordIs(disk, incarnation, u.id, u) && CreationHindered(h, since, u.kind, u.id, time, old(ticks), ticks))
    {
      SeenNow(h, |h| - 1, incarnation, u.id);
      var done := SettleUpdate(incarnation, u, generation, since);
      ghost var h1 := h;
      if done.Ok? {
        RecordSeenLater(old(h), h, |old(h)| - 1, |old(h)| - 1, incarnation, u.id, u);
        r := Ok(Found(u, incarnation));
      } else {
        RollbackRecord(incarnation, u);
        if setbacks == old(setbacks) {
          HinderedOn(h1, h, since, u.kind, u.id, time, old(ticks), ticks);
        }
        r := Err(done.error);
      }
    }

    /** One PUT of a record with If-Match. */
    method TryWriteRecord(incarnation: string, was: Update, record: Update) returns (reply: Reply)
      requires Valid() && MayDo(Moving(was.id, was.kind, record.status))
      requires StatusStep(was.status, record.status) && record.id == was.id
      requires record.kind == was.kind && record.version == was.version
      modifies this`disk, this`h, this`setbacks
      ensures Valid() && Onward() && Respects(minted, newborn, old(Now()).aux, Now().aux)
      ensures if reply.Done? then RecordIs(disk, incarnation, was.id, record) else setbacks > old(setbacks)
    {
      var key := UpdateKey(incarnation, was.id);
      Interfere();
      var landed: bool, told: bool, lost: bool := *, *, *;
      if landed && key in disk.updates && disk.updates[key] == was {
        disk := disk.(updates := disk.updates[key := record]);
        Did(SetRecord(incarnation, was, record));
        reply := if told then Done else if lost then PreconditionFailed else RequestFailed;
      } else {
        var differs := key !in disk.updates || disk.updates[key] != was;
        reply := if differs && told then PreconditionFailed else if lost then Conflict else RequestFailed;
      }
      if !reply.Done? {
        setbacks := setbacks + 1;
      }
    }

    /** PUT of a record with If-Match, up to three attempts while the bucket answers 409. */
    method WriteRecordIfMatch(incarnation: string, was: Update, record: Update) returns (reply: Reply)
      requires Valid() && MayDo(Moving(was.id, was.kind, record.status))
      requires StatusStep(was.status, record.status) && record.id == was.id
      requires record.kind == was.kind && record.version == was.version
      modifies this`disk, this`h, this`setbacks
      ensures Valid() && Onward() && Respects(minted, newborn, old(Now()).aux, Now().aux)
      ensures if reply.Done? then RecordIs(disk, incarnation, was.id, record) else setbacks > old(setbacks)
    {
      var attempt := 1;
      reply := TryWriteRecord(incarnation, was, record);
      while attempt < 3 && reply.Conflict?
        invariant Valid() && Onward() && Respects(minted, newborn, old(Now()).aux, Now().aux)
        invariant if reply.Done? then RecordIs(disk, incarnation, was.id, record) else setbacks > old(setbacks)
      {
        reply := TryWriteRecord(incarnation, was, record);
        attempt := attempt + 1;
      }
    }

    /** Marks the record as in progress. `was` is the record it found, `stamp` the time it noted. */
    method StartUpdate(updateID: string) returns (r: Result<()>, ghost was: Found, ghost stamp: int)
      requires Valid() && Execution(h) && MayMove(updateID, InProgress)
      modifies this
      ensures Valid() && Onward() && Respects(minted, newborn, old(Now()).aux, Now().aux)
      ensures r.Ok? ==>
                && RecordSeen(h, |old(h)| - 1, was.incarnation, updateID, was.update)
                && (was.update.status.InProgress? || (was.update.status.NotStarted? && ReadIn(time, old(ticks), ticks, stamp)))
                && RecordIs(disk, was.incarnation, updateID,
                            if was.update.status.InProgress? then was.update
                            else was.update.(status := InProgress, startTime := stamp))
      ensures r.Err? ==> MoveRefused(h, |old(h)| - 1, was, updateID, InProgress, r.error) || setbacks > old(setbacks)
    {
      var got, seen := GetUpdate(updateID);
      ghost var h1 := h;
      was, stamp := Found(Update("", Preview, NotStarted, 0, 0, 0, ""), ""), 0;
      if got.Err? {
        r := Err(got.error);
      } else {
        var Found(u, inc) := got.value;
        was := got.value;
        SeenNow(h1, |old(h)| - 1, inc, updateID);
        if u.status.InProgress? {
          r := Ok(());
        } else if !u.status.NotStarted? {
          r := Err(InvalidUpdateState);
        } else {
          RecordNamesItself(old(h), h, inc, updateID);
          var now := Clock();
          stamp := now;
          var reply := WriteRecordIfMatch(inc, u, u.(status := InProgress, startTime := now));
          RecordSeenLater(h1, h, |old(h)| - 1, |old(h)| - 1, inc, updateID, u);
          r := if reply.Done? then Ok(()) else if reply.PreconditionFailed? then Err(ConcurrentMutation) else Err(Transport);
        }
      }
    }

    /** Gives the record its terminal status. `was` is the record it found, `stamp` the time it noted. */
    method CompleteUpdate(updateID: string, status: Status, message: string)
      returns (r: Result<()>, ghost was: Found, ghost stamp: int)
      requires Valid() && Execution(h) && MayMove(updateID, status) && status.Terminal()
      modifies this
      ensures Valid() && Onward() && Respects(minted, newborn, old(Now()).aux, Now().aux)
      ensures r.Ok? ==>
                && RecordSeen(h, |old(h)| - 1, was.incarnation, updateID, was.update)
                && (was.update.status == status
                    || (StatusStep(was.update.status, status) && ReadIn(time, old(ticks), ticks, stamp)))
                && RecordIs(disk, was.incarnation, updateID,
                            if was.update.status == status then was.update
                            else was.update.(status := status, message := message, endTime := stamp))
      ensures r.Err? ==> MoveRefused(h, |old(h)| - 1, was, updateID, status, r.error) || setbacks > old(setbacks)
    {
      var got, seen := GetUpdate(updateID);
      ghost var h1 := h;
      was, stamp := Found(Update("", Preview, NotStarted, 0, 0, 0, ""), ""), 0;
      if got.Err? {
        r := Err(got.error);
      } else {
        var Found(u, inc) := got.value;
        was := got.value;
        SeenNow(h1, |old(h)| - 1, inc, updateID);
        if u.status == status {
          r := Ok(());
        } else if !u.status.InProgress? && (!u.status.NotStarted? || !status.Cancelled?) {
          r := Err(InvalidUpdateState);
        } else {
          RecordNamesItself(old(h), h, inc, updateID);
          var now := Clock();
          stamp := now;
          var reply := WriteRecordIfMatch(inc, u, u.(status := status, message := message, endTime := now));
          RecordSeenLater(h1, h, |old(h)| - 1, |old(h)| - 1, inc, updateID, u);
          r := if reply.Done? then Ok(()) else if reply.PreconditionFailed? then Err(ConcurrentMutation) else Err(Transport);
        }
      }
    }

    // -------------------------------------------------------------- checkpoint reads

    method ReadCheckpoint(key: Key) returns (r: Result<Deployment>)
      requires Valid()
      modifies this`disk, this`h, this`setbacks
      ensures Valid() && Onward() && Respects(minted, newborn, old(Now()).aux, Now().aux)
      ensures match r
              case Ok(dep) => ReadBlob(disk, key) == Some(dep) && setbacks == old(setbacks)
              case Err(e) =>
                || (e == Transport && setbacks == old(setbacks) + 1)
                || (e == CheckpointNotFound && ReadBlob(disk, key) == None && setbacks == old(setbacks))
    {
      Interfere();
      var reached: bool := *;
      if reached {
        r := if key in disk.blobs then Ok(disk.blobs[key]) else Err(CheckpointNotFound);
      } else {
        setbacks := setbacks + 1;
        r := Err(Transport);
      }
    }

    /** The answer is what the document of h[seen] points to. For a stack made by CreateStack it is the last commit as
        of h[at], during the call, or nothing if there was none then or a deletion has removed its object. */
    method GetCheckpoint() returns (r: Result<Deployment>, ghost at: int, ghost seen: int)
      requires Valid() && Execution(h)
      modifies this`disk, this`h, this`setbacks
      ensures Valid() && Onward() && Respects(minted, newborn, old(Now()).aux, Now().aux)
      ensures |old(h)| - 1 <= at < |h| && |old(h)| - 1 <= seen < |h|
      ensures Answered(r) ==> h[seen].s.disk.stack.Some? && AnswersLatest(disk, h[seen].s.disk.stack.value, Read(r))
      ensures GetAnswered(r, setbacks - old(setbacks), disk)
      ensures Answered(r) && h[seen].s.disk.stack.value.incarnation in Now().aux.born ==>
                var incarnation := h[seen].s.disk.stack.value.incarnation;
                ReadsCommit(Now(), incarnation, Read(r), LastCommit(h[at].s.aux.log, incarnation))
    {
      var got := GetStack();
      at, seen := |h| - 1, |h| - 1;
      if got.Err? {
        r := Err(got.error);
      } else {
        var key := LatestLocation(got.value);
        r := ReadCheckpoint(key);
        ExecutionLater(old(h), h);
        if got.value.incarnation in Now().aux.born {
          BornThen(h, seen, got.value.incarnation);
          at := LatestReadAgrees(h, seen, |h| - 1, got.value.incarnation);
        }
      }
    }

    /** The same for the last commit at a version. */
    method GetCheckpointVersion(version: int) returns (r: Result<Deployment>, ghost at: int, ghost seen: int)
      requires Valid() && Execution(h)
      modifies this`disk, this`h, this`setbacks
      ensures Valid() && Onward() && Respects(minted, newborn, old(Now()).aux, Now().aux)
      ensures |old(h)| - 1 <= at < |h| && |old(h)| - 1 <= seen < |h|
      ensures Answered(r) ==> h[seen].s.disk.stack.Some? && AnswersVersion(disk, h[seen].s.disk.stack.value, version, Read(r))
      ensures GetAnswered(r, setbacks - old(setbacks), disk)
      ensures Answered(r) && h[seen].s.disk.stack.value.incarnation in Now().aux.born ==>
                var incarnation := h[seen].s.disk.stack.value.incarnation;
                ReadsCommit(Now(), incarnation, Read(r), LastCommitAt(h[at].s.aux.log, incarnation, version))
    {
      var got := GetStack();
      at, seen := |h| - 1, |h| - 1;
      if got.Err? {
        r := Err(got.error);
      } else {
        var key := HistoryLocation(got.value, version);
        r := ReadCheckpoint(key);
        ExecutionLater(old(h), h);
        if got.value.incarnation in Now().aux.born {
          BornThen(h, seen, got.value.incarnation);
          at := VersionReadAgrees(h, seen, |h| - 1, got.value.incarnation, version);
        }
      }
    }

    // -------------------------------------------------------------- deletion

    /** The elements of a set, one after the other. */
    static method InSomeOrder(keys: set<Key>) returns (order: seq<Key>)
      ensures forall k :: k in order <==> k in keys
    {
      var left := keys;
      order := [];
      while left != {}
        invariant left <= keys && forall k :: k in order <==> k in keys - left
        decreases |left|
      {
        var k :| k in left;
        order, left := order + [k], left - {k};
      }
    }

    /** listStackIncarnationObjects, as one snapshot: every object of the incarnation and nothing else. */
    method ListObjects(incarnation: string) returns (r: Result<seq<Key>>)
      requires Valid()
      modifies this`disk, this`h, this`setbacks
      ensures Valid() && Onward() && Respects(minted, newborn, old(Now()).aux, Now().aux)
      ensures r.Ok? ==> forall k :: k in r.value <==> Belongs(disk, incarnation, k)
      ensures r.Err? ==> r.error == Transport && setbacks > old(setbacks)
    {
      Interfere();
      var reached: bool := *;
      if reached {
        var lock := if incarnation == "" && disk.legacyLock.Some? then {LockKey} else {};
        var left := (set k | k in disk.updates.Keys && InIncarnation(k, incarnation))
                  + (set k | k in disk.blobs.Keys && InIncarnation(k, incarnation)) + lock;
        var objects := InSomeOrder(left);
        r := Ok(objects);
      } else {
        setbacks := setbacks + 1;
        r := Err(Transport);
      }
    }

    /** validateDeletionFence: the document is still, to the byte, the one the deletion started from, and its
        fence is still live. */
    method ValidateDeletionFence(st: Stack, updateID: string, generation: nat) returns (ok: bool, ghost now: int)
      requires Valid()
      modifies this`disk, this`h, this`setbacks, this`ticks
      ensures Valid() && Onward() && Respects(minted, newborn, old(Now()).aux, Now().aux)
      ensures ok ==> disk.stack == Some(st) && LiveLock(st, updateID, generation, now)
      ensures !ok ==>
                setbacks > old(setbacks) || disk.stack != Some(st) || NotOwnIn(time, old(ticks), ticks, st, updateID, generation)
    {
      var current := GetStack();
      var t := Clock();
      now := t;
      ok := current.Ok? && current.value == st && st.lock.Some? && st.lock.value.updateID == updateID
            && st.lock.value.generation == generation && !st.lock.value.Expired(t);
      assert !ok && disk.stack == Some(st) && setbacks == old(setbacks) ==> !LiveLock(st, updateID, generation, time(old(ticks)));
    }

    /** One key of a DeleteObjects request. */
    method EraseObject(incarnation: string, key: Key, ghost updateID: string, ghost generation: nat) returns (ok: bool)
      requires Valid() && MayDo(Deleting(incarnation, updateID, generation))
      requires incarnation in Now().aux.purged && !LegacyMode(disk)
      requires InIncarnation(key, incarnation) || (incarnation == "" && key == LockKey)
      modifies this`disk, this`h, this`setbacks
      ensures Valid() && Onward() && incarnation in Now().aux.purged && !LegacyMode(disk)
      ensures if ok then AbsentSeen(h, |old(h)| - 1, incarnation, key) else setbacks > old(setbacks)
    {
      Interfere();
      KeptRun(h, |old(h)| - 1, |h| - 1);
      var landed: bool, told: bool := *, *;
      if landed {
        disk := if key.LockKey? then disk.(legacyLock := None)
                else disk.(updates := disk.updates - {key}, blobs := disk.blobs - {key});
        Did(Erase(key));
        assert AbsentAt(h, |h| - 1, incarnation, key);
      }
      ok := landed && told;
      if !ok {
        setbacks := setbacks + 1;
      }
    }

    /** One DeleteObjects request: the keys go one by one, in their own time, and any may fail. */
    method DeleteBatch(incarnation: string, batch: seq<Key>, ghost updateID: string, ghost generation: nat)
      returns (ok: bool)
      requires Valid() && MayDo(Deleting(incarnation, updateID, generation))
      requires incarnation in Now().aux.purged && !LegacyMode(disk)
      requires forall k | k in batch :: InIncarnation(k, incarnation) || (incarnation == "" && k == LockKey)
      modifies this`disk, this`h, this`setbacks
      ensures Valid() && Onward() && incarnation in Now().aux.purged && !LegacyMode(disk)
      ensures if ok then forall k | k in batch :: AbsentSeen(h, |old(h)| - 1, incarnation, k) else setbacks > old(setbacks)
    {
      ok := true;
      for i := 0 to |batch|
        invariant Valid() && Onward() && incarnation in Now().aux.purged && !LegacyMode(disk)
        invariant if ok then forall k | k in batch[..i] :: AbsentSeen(h, |old(h)| - 1, incarnation, k) else setbacks > old(setbacks)
      {
        assert batch[i] in batch;
        ghost var h1 := h;
        var erased := EraseObject(incarnation, batch[i], updateID, generation);
        AbsentLater(h1, h, |old(h)| - 1, incarnation, batch[..i]);
        if ok && erased {
          AbsentSince(h, |old(h)| - 1, |h1| - 1, incarnation, batch[i]);
        }
        assert batch[..i + 1] == batch[..i] + [batch[i]];
        ok := ok && erased;
      }
      assert batch[..|batch|] == batch;
    }

    /** DeleteStack's loop: batches of a thousand, the fence checked before each. */
    method DeleteObjects(st: Stack, updateID: string, generation: nat, objects: seq<Key>) returns (r: Result<()>)
      requires Valid() && MayDo(Deleting(st.incarnation, updateID, generation))
      requires DeletionID(updateID) && !LegacyMode(disk)
      requires forall k | k in objects :: InIncarnation(k, st.incarnation) || (st.incarnation == "" && k == LockKey)
      modifies this
      ensures Valid() && Onward()
      ensures r.Ok? ==> forall k | k in objects :: AbsentSeen(h, |old(h)| - 1, st.incarnation, k)
      ensures r.Err? ==> r.error in {Transport, ConcurrentMutation}
      ensures r.Err? ==> setbacks > old(setbacks) || FenceLost(h, |old(h)| - 1, st, updateID, generation, time, old(ticks), ticks)
    {
      var start := 0;
      r := Ok(());
      while start < |objects| && r.Ok?
        invariant Valid() && Onward() && 0 <= start <= |objects| && !LegacyMode(disk)
        invariant r.Ok? ==> forall k | k in objects[..start] :: AbsentSeen(h, |old(h)| - 1, st.incarnation, k)
        invariant r.Err? ==> r.error in {Transport, ConcurrentMutation}
        invariant r.Err? ==>
                  setbacks > old(setbacks) || FenceLost(h, |old(h)| - 1, st, updateID, generation, time, old(ticks), ticks)
        decreases |objects| - start + if r.Ok? then 1 else 0
      {
        ghost var h1, t1 := h, ticks;
        var fenced, _ := ValidateDeletionFence(st, updateID, generation);
        if !fenced {
          KeptLater(h1, h);
          assert setbacks == old(setbacks) ==> LostAt(h, |h| - 1, st, updateID, generation, time, t1, ticks);
          assert setbacks == old(setbacks) ==> LostAt(h, |h| - 1, st, updateID, generation, time, old(ticks), ticks);
          r := Err(ConcurrentMutation);
        } else {
          var end := if start + 1000 < |objects| then start + 1000 else |objects|;
          r := DeleteSome(st.incarnation, objects[start..end], updateID, generation);
          AbsentLater(h1, h, |old(h)| - 1, st.incarnation, objects[..start]);
          if r.Ok? {
            AbsentAllSince(h, |old(h)| - 1, |h1| - 1, st.incarnation, objects[start..end]);
          }
          assert objects[..end] == objects[..start] + objects[start..end];
          start := end;
        }
      }
      assert objects[..|objects|] == objects;
    }

    /** One batch, under a fence just checked. */
    method DeleteSome(incarnation: string, batch: seq<Key>, ghost updateID: string, ghost generation: nat) returns (r: Result<()>)
      requires Valid() && MayDo(Deleting(incarnation, updateID, generation))
      requires Current(disk, incarnation) && DeletionFence(disk.stack.value.lock)
      requires forall k | k in batch :: InIncarnation(k, incarnation) || (incarnation == "" && k == LockKey)
      modifies this`disk, this`h, this`setbacks
      ensures Valid() && Onward() && !LegacyMode(disk)
      ensures if r.Ok? then forall k | k in batch :: AbsentSeen(h, |old(h)| - 1, incarnation, k) else setbacks > old(setbacks)
      ensures r.Err? ==> r.error == Transport
    {
      Did(Purge(incarnation));
      ghost var h1 := h;
      var ok := DeleteBatch(incarnation, batch, updateID, generation);
      if ok {
        AbsentAllSince(h, |old(h)| - 1, |h1| - 1, incarnation, batch);
      }
      r := if ok then Ok(()) else Err(Transport);
    }

    /** Deletes the stack under its deletion fence. Success means: at h[seen] the fence of this update and
        generation stood; at h[empty] the incarnation owned not one object; and the last step of the call removed
        stack.json while it still read as at h[seen]. Without a setback, only what is found in the bucket makes it
        refuse: the fence is not there or has run out, the document has changed, or an object has come back. */
    method DeleteStack(incarnation: string, updateID: string, generation: nat)
      returns (r: Result<()>, ghost seen: int, ghost empty: int)
      requires Valid() && MayDo(Deleting(incarnation, updateID, generation))
      modifies this
      ensures Valid() && Onward() && |old(h)| - 1 <= seen
      ensures r.Ok? ==> seen <= empty < |h| - 1 && DeletedUnder(h, seen, empty, incarnation, updateID, generation)
      ensures r.Err? ==>
                || setbacks > old(setbacks)
                || DeletionRefused(h, |old(h)| - 1, incarnation, updateID, generation, time, old(ticks), ticks)
      ensures r.Err? ==> TurnedAway(h, seen, r.error, time, old(ticks), ticks)
    {
      var got := GetStack();
      seen := |h| - 1;
      empty := seen;
      var now := Clock();
      ghost var h1 := h;
      assert got.Ok? && got.value.incarnation == incarnation && !LiveLock(got.value, updateID, generation, now) ==>
          !LiveLock(got.value, updateID, generation, time(old(ticks)));
      if got.Err? {
        assert setbacks == old(setbacks) ==> NoFenceAt(h, seen, incarnation, updateID, generation, time, old(ticks), ticks);
        r := Err(got.error);
      } else {
        var st := got.value;
        var refusal :=
          if st.incarnation != incarnation then Some(ConcurrentMutation)
          else if st.lock.None? || st.lock.value.Expired(now) then Some(NoLock)
          else if !DeletionFence(st.lock) then Some(LockHeld(st.lock.value))
          else if st.lock.value.updateID != updateID || st.lock.value.generation != generation then Some(ConcurrentMutation)
          else None;
        assert now == time(old(ticks));
        if refusal.Some? {
          assert NoFenceAt(h, seen, incarnation, updateID, generation, time, old(ticks), ticks);
          return Err(refusal.value), seen, empty;
        }
        ghost var t1 := ticks;
        r, empty := RemoveFenced(got.value, updateID, generation, seen);
        if r.Err? && setbacks == old(setbacks) {
          if FenceLost(h, seen, got.value, updateID, generation, time, t1, ticks) {
            LostSince(h, seen, seen, got.value, updateID, generation, time, t1, ticks, old(ticks), ticks);
          }
          RefusedSince(h, |old(h)| - 1, seen, got.value, updateID, generation, time, old(ticks), ticks);
        }
      }
    }

    /** Lists the objects of the incarnation, removes them, and lists again. Success means that at the end it owned
        none. */
    method RemoveObjects(st: Stack, updateID: string, generation: nat) returns (r: Result<()>)
      requires Valid() && MayDo(Deleting(st.incarnation, updateID, generation)) && DeletionID(updateID)
      requires disk.stack == Some(st) && UsesCanonicalLock(st)
      modifies this
      ensures Valid() && Onward()
      ensures r.Ok? ==> Emptied(disk, st.incarnation)
      ensures r.Err? ==> r.error in {Transport, ConcurrentMutation}
      ensures r.Err? ==>
                || setbacks > old(setbacks)
                || FenceLost(h, |old(h)| - 1, st, updateID, generation, time, old(ticks), ticks)
                || CameBack(h, |old(h)| - 1, |h| - 1, st.incarnation)
    {
      var objects := ListObjects(st.incarnation);
      ghost var h1, t1 := h, ticks;
      KeptLater(old(h), h);
      if objects.Err? {
        return Err(objects.error);
      }
      var gone := DeleteObjects(st, updateID, generation, objects.value);
      ghost var h2, t2 := h, ticks;
      if gone.Err? {
        if setbacks == old(setbacks) {
          LostSince(h, |old(h)| - 1, |h1| - 1, st, updateID, generation, time, t1, t2, old(ticks), ticks);
        }
        return gone;
      }
      var remaining := ListObjects(st.incarnation);
      if remaining.Err? {
        r := Err(remaining.error);
      } else if remaining.value != [] {
        BackAgain(h1, h2, h, |old(h)| - 1, st.incarnation, objects.value, remaining.value[0]);
        r := Err(ConcurrentMutation);
      } else {
        assert forall k :: k !in remaining.value;
        r := Ok(());
      }
    }

    /** The rest of DeleteStack, once the fence has been seen to stand. */
    method RemoveFenced(st: Stack, updateID: string, generation: nat, ghost seen: int)
      returns (r: Result<()>, ghost empty: int)
      requires Valid() && MayDo(Deleting(st.incarnation, updateID, generation)) && DeletionID(updateID)
      requires seen == |h| - 1 && disk.stack == Some(st) && st.lock.Some?
      requires st.lock.value.updateID == updateID && st.lock.value.generation == generation
      modifies this
      ensures Valid() && Onward()
      ensures r.Ok? ==> seen <= empty < |h| - 1 && DeletedUnder(h, seen, empty, st.incarnation, updateID, generation)
      ensures r.Err? ==> r.error in {Transport, ConcurrentMutation}
      ensures r.Err? ==>
                || setbacks > old(setbacks)
                || FenceLost(h, seen, st, updateID, generation, time, old(ticks), ticks)
                || CameBackSince(h, seen, st.incarnation)
    {
      empty := seen;
      var gone := RemoveObjects(st, updateID, generation);
      empty := |h| - 1;
      ghost var t1 := ticks;
      if gone.Err? {
        assert CameBack(h, seen, |h| - 1, st.incarnation) ==> CameBackSince(h, seen, st.incarnation);
        return gone, empty;
      }
      var fenced, now := ValidateDeletionFence(st, updateID, generation);
      if !fenced {
        assert setbacks == old(setbacks) ==> LostAt(h, |h| - 1, st, updateID, generation, time, t1, ticks);
        assert setbacks == old(setbacks) ==> LostAt(h, |h| - 1, st, updateID, generation, time, old(ticks), ticks);
        return Err(ConcurrentMutation), empty;
      }
      var reply := WriteStackIfMatch(st, None, Remove(st.incarnation, updateID, generation, now), |h| - 1);
      r := if reply.Done? then Ok(()) else if reply.PreconditionFailed? then Err(ConcurrentMutation) else Err(Transport);
    }
  }
}
