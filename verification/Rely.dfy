/** What each server relies on is what all the others guarantee. */
module Rely {
  import opened Protocol
  import opened Contracts

  /** The request uses this update ID as its own. */
  predicate Mints(e: Effect, id: string) {
    match e
    case Acquiring(_, u, _) => u == id
    case CreatingUpdate(_, u, _) => u == id
    case DeletingStack(u, _) => u == id
    case Importing(u, _, _) => u == id
    case CreatingStack(_, _, u, _) => u == id
    case RollingBack(_, u, _) => u == id
    case _ => false
  }

  /** The request founds this incarnation. */
  predicate Founds(e: Effect, incarnation: string) {
    (e.Founding? || e.CreatingStack?) && e.incarnation == incarnation
  }

  /** The step at h[k] is one that some request may take which uses neither the update ID nor the incarnation as its
      own. */
  ghost predicate ByAnother(h: seq<Entry>, k: int, id: string, incarnation: string) {
    0 <= k < |h| && exists e :: Allows(e, h[k].op) && !Mints(e, id) && !Founds(e, incarnation)
  }

  lemma AnotherRespects(s: State, op: Op, e: Effect, id: string, incarnation: string)
    requires Guard(s, op) && Allows(e, op) && !Mints(e, id) && !Founds(e, incarnation)
    ensures Respects(id, incarnation, s.aux, Apply(s, op).aux)
  {
  }

  /** The contract of Interfere is met by any number of steps of other requests. */
  lemma {:induction false} OthersRespect(h: seq<Entry>, i: int, j: int, id: string, incarnation: string)
    requires IsRun(h) && 0 <= i <= j < |h| && forall k | i < k <= j :: ByAnother(h, k, id, incarnation)
    ensures Respects(id, incarnation, h[i].s.aux, h[j].s.aux)
  {
    if i < j {
      OthersRespect(h, i, j - 1, id, incarnation);
      assert StepAt(h, j) && ByAnother(h, j, id, incarnation);
      var e :| Allows(e, h[j].op) && !Mints(e, id) && !Founds(e, incarnation);
      AnotherRespects(h[j - 1].s, h[j].op, e, id, incarnation);
    }
  }
}
