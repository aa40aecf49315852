/** An operation that belongs to one incarnation never touches another. */
module Isolation {
  import opened Types
  import opened Protocol
  import opened Invariant

  /** The incarnation an operation is meant for: the one it names, the one its key lies in, or, for operations
      that name only an update, the one in which that update acquired the lock. */
  ghost function MeantFor(a: Aux, op: Op): Option<string> {
    match op
    case Renew(u, _, _, _) => if u in a.home then Some(a.home[u]) else None
    case Release(u, _) => if u in a.home then Some(a.home[u]) else None
    case Publish(c, _) => Some(c.incarnation)
    case Erase(key) => if key.StackKey? || key.LockKey? then Some("") else Some(key.incarnation)
    case DropLegacy(_) => Some("")
    case Mint(_, _) => None
    case Begin(_, _) => None
    case Retire(_) => None
    case IssueToken(_, _) => None
    case GiveUp(_, _) => None
    case _ => Some(op.incarnation)
  }

  /** Everything an incarnation owns: its stack.json, its records and its checkpoint objects. */
  ghost predicate SameFor(inc: string, d: Disk, d': Disk) {
    && (Current(d, inc) || Current(d', inc) ==> d.stack == d'.stack)
    && (forall key: Key :: !key.StackKey? && !key.LockKey? && key.incarnation == inc ==>
          && (key in d.updates <==> key in d'.updates) && (key in d.updates ==> d.updates[key] == d'.updates[key])
          && (key in d.blobs <==> key in d'.blobs) && (key in d.blobs ==> d.blobs[key] == d'.blobs[key]))
  }

  lemma StepIsolated(s: State, op: Op, inc: string)
    requires LockInv(s) && RecordInv(s) && Guard(s, op) && MeantFor(s.aux, op) != Some(inc)
    ensures SameFor(inc, s.disk, Apply(s, op).disk)
  {
  }

  /** Where an update once acquired the lock is where its later operations belong. */
  lemma {:induction false} HomeForever(h: seq<Entry>, i: int, j: int, u: string)
    requires IsRun(h) && 0 <= i <= j < |h| && u in h[i].s.aux.home
    ensures u in h[j].s.aux.home && h[j].s.aux.home[u] == h[i].s.aux.home[u]
  {
    if i < j {
      HomeForever(h, i, j - 1, u);
      assert StepAt(h, j);
    }
  }

  /** Over any stretch of an execution in which every operation is meant for other incarnations, an incarnation's
      documents, records and checkpoints do not change: late writes, renewals, releases and deletion batches of a
      predecessor cannot reach a successor. */
  lemma {:induction false} IncarnationsAreIsolated(h: seq<Entry>, i: int, j: int, inc: string)
    requires Execution(h) && 0 <= i <= j < |h|
    requires forall k | i < k <= j :: MeantFor(h[k - 1].s.aux, h[k].op) != Some(inc)
    ensures SameFor(inc, h[i].s.disk, h[j].s.disk)
  {
    if i < j {
      IncarnationsAreIsolated(h, i, j - 1, inc);
      Reachable(h, j - 1);
      assert StepAt(h, j);
      StepIsolated(h[j - 1].s, h[j].op, inc);
    }
  }
}
