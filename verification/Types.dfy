/** The records of internal/store/store.go, the objects one stack owns in the bucket, and the errors. */
module Types {
  import opened Decimal

  datatype Option<+T> = None | Some(value: T)

  datatype Error =
    | StackNotFound
    | StackExists
    | UpdateNotFound
    | CheckpointNotFound
    | NoLock
    | InvalidUpdateState
    | ConcurrentMutation
    | LockHeld(lock: Lock)
    | Transport                      // any other failure of a bucket request

  datatype Result<+T> = Ok(value: T) | Err(error: Error)

  type Deployment = string

  /** Times are readings of a clock, in arbitrary units. */
  datatype Lock = Lock(updateID: string, owner: string, expiresAt: int, generation: nat)
  {
    predicate Expired(now: int) {
      !(now < expiresAt)
    }
  }

  /** Where the objects of one stack live. Incarnation "" is the layout of builds that had no incarnations. */
  datatype Key =
    | StackKey
    | LockKey
    | UpdateKey(incarnation: string, id: string)
    | LatestKey(incarnation: string)
    | HistoryKey(incarnation: string, version: int)
    | ObjectKey(incarnation: string, digest: string)

  function CheckpointObject(incarnation: string, deployment: Deployment): Key {
    ObjectKey(incarnation, Digest(deployment))
  }

  /** stack.json. The organisation, project and name are fixed: the model follows one stack. */
  datatype Stack = Stack(
    version: int,
    created: int,
    lastUpdate: int,
    incarnation: string,
    lockProtocol: int,
    fence: nat,
    lock: Option<Lock>,
    latestCheckpointKey: Option<Key>,
    checkpointVersions: map<int, Key>)

  datatype Kind = Preview | Deploy | Refresh | Destroy | Import

  datatype Status = NotStarted | InProgress | Succeeded | Failed | Cancelled
  {
    predicate Terminal() {
      Succeeded? || Failed? || Cancelled?
    }
  }

  datatype Update = Update(
    id: string,
    kind: Kind,
    status: Status,
    version: int,
    startTime: int,
    endTime: int,
    message: string)

  /** The objects of the bucket that belong to the stack. */
  datatype Disk = Disk(
    stack: Option<Stack>,
    legacyLock: Option<Lock>,
    updates: map<Key, Update>,
    blobs: map<Key, Deployment>)

  const CANONICAL_LOCK_PROTOCOL := 1

  predicate DeletionID(updateID: string) {
    "delete-" <= updateID
  }

  predicate DeletionFence(lock: Option<Lock>) {
    lock.Some? && DeletionID(lock.value.updateID)
  }

  /** Whether stack.json, and no longer lock.json, is the lock's home. */
  predicate UsesCanonicalLock(st: Stack) {
    st.lockProtocol >= CANONICAL_LOCK_PROTOCOL || st.incarnation != "" || st.fence != 0 || st.lock.Some?
  }

  function Max(a: nat, b: nat): nat {
    if a < b then b else a
  }
}
