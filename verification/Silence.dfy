/** What becomes of an update that has let go of the stack. */
module Silence {
  import opened Types
  import opened Protocol
  import opened Stability

  /** The update is retired and does not hold the stack. */
  ghost predicate Gone(s: State, u: string) {
    u in s.aux.retired && !HeldBy(s.disk, u)
  }

  /** The update is retired, and holds the stack, if at all, at this generation. */
  ghost predicate Pinned(s: State, u: string, g: nat) {
    g > 0 && u in s.aux.retired && (HeldBy(s.disk, u) ==> Holder(s.disk).value.generation == g)
  }

  lemma GoneStep(s: State, op: Op, u: string)
    requires Guard(s, op) && Gone(s, u)
    ensures Gone(Apply(s, op), u)
  {
  }

  lemma PinnedStep(s: State, op: Op, u: string, g: nat)
    requires Guard(s, op) && Pinned(s, u, g)
    ensures Pinned(Apply(s, op), u, g)
  {
  }

  lemma {:induction false} GoneRun(h: seq<Entry>, i: int, j: int, u: string)
    requires IsRun(h) && 0 <= i <= j < |h| && Gone(h[i].s, u)
    ensures Gone(h[j].s, u)
  {
    if i < j {
      GoneRun(h, i, j - 1, u);
      assert StepAt(h, j);
      GoneStep(h[j - 1].s, h[j].op, u);
    }
  }

  lemma {:induction false} PinnedRun(h: seq<Entry>, i: int, j: int, u: string, g: nat)
    requires IsRun(h) && 0 <= i <= j < |h| && Pinned(h[i].s, u, g)
    ensures Pinned(h[j].s, u, g)
  {
    if i < j {
      PinnedRun(h, i, j - 1, u, g);
      assert StepAt(h, j);
      PinnedStep(h[j - 1].s, h[j].op, u, g);
    }
  }

  /** Silence: an update that has let go never again holds the stack, renews, moves Version or commits a
      checkpoint, whatever requests on its behalf are still under way. */
  lemma SilentForever(h: seq<Entry>, i: int, j: int, u: string)
    requires IsRun(h) && 0 <= i <= j < |h| && Gone(h[i].s, u) && u != ""
    ensures !HeldBy(h[j].s.disk, u)
    ensures i < j && h[j].op.Publish? ==> h[j].op.commit.updateID != u
    ensures i < j && (h[j].op.Bump? || h[j].op.Renew? || h[j].op.Release? || h[j].op.Acquire? || h[j].op.Remove?) ==>
              h[j].op.updateID != u
  {
    GoneRun(h, i, j, u);
    if i < j {
      GoneRun(h, i, j - 1, u);
      assert StepAt(h, j);
    }
  }

  /** The one situation in which a release can be skipped: lock.json still rules and names the update. */
  ghost predicate LegacyClaim(d: Disk, u: string) {
    LegacyMode(d) && HeldBy(d, u)
  }

  /** Nothing names the update and generation any more, or lock.json still rules. */
  ghost predicate LetGo(d: Disk, u: string, g: nat) {
    match Holder(d)
    case None => true
    case Some(l) => LegacyMode(d) || l.updateID != u || (g != 0 && l.generation != g)
  }

  /** A release that found nothing to release, or something else, has done its work, unless lock.json claimed
      the stack for the update when the request came in. */
  lemma LetGoIsGone(h: seq<Entry>, i: int, j: int, u: string, g: nat)
    requires IsRun(h) && 0 <= i <= j < |h| && !LegacyClaim(h[i].s.disk, u)
    requires u in h[j].s.aux.retired && LetGo(h[j].s.disk, u, g) && (g > 0 ==> Pinned(h[j].s, u, g))
    ensures Gone(Last(h), u)
  {
    KeptRun(h, i, j);
    GoneRun(h, j, |h| - 1, u);
  }

  /** The update does not hold the stack under a lock without a generation, as old builds wrote them. */
  ghost predicate Numbered(d: Disk, u: string) {
    HeldBy(d, u) ==> Holder(d).value.generation > 0
  }

  /** The condition under which ending an update gives up its lock for certain: lock.json does not claim the
      stack for it, and the replay of a completion carries a token or finds a lock that carries a generation. */
  ghost predicate CanLetGo(d: Disk, u: string, token: nat, replayed: bool) {
    !LegacyClaim(d, u) && (!replayed || token > 0 || Numbered(d, u))
  }

  lemma {:induction false} NumberedRun(h: seq<Entry>, i: int, j: int, u: string)
    requires IsRun(h) && 0 <= i <= j < |h| && Numbered(h[i].s.disk, u)
    ensures Numbered(h[j].s.disk, u)
  {
    if i < j {
      NumberedRun(h, i, j - 1, u);
      assert StepAt(h, j);
    }
  }
}
