/** Previews leave no trace in stack.json. */
module Previews {
  import opened Types
  import opened Protocol
  import opened Contracts

  /** A step taken on behalf of a preview: its record's creation, moves and rollback, and its barrier. */
  predicate PreviewOp(op: Op) {
    || op.Barrier?
    || (op.PutRecord? && op.record.kind.Preview?)
    || (op.SetRecord? && op.was.kind.Preview?)
    || (op.DropRecord? && op.was.kind.Preview?)
  }

  /** What creating, starting and ending a preview may do. Renewing its lease does nothing at all. */
  predicate PreviewRequest(e: Effect) {
    (e.CreatingUpdate? && e.kind.Preview?) || e.StartingPreview? || e.EndingPreview?
  }

  /** The requests of a preview take preview steps only; anything else they do is bookkeeping of the model, which
      leaves the bucket alone. */
  lemma PreviewRequestsTakePreviewSteps(e: Effect, s: State, op: Op)
    requires PreviewRequest(e) && Allows(e, op) && Guard(s, op)
    ensures PreviewOp(op) || (Apply(s, op).disk == s.disk && (op.Mint? || op.Begin? || (op.IssueToken? && op.generation == 0)))
  {
  }

  /** The state without its preview records. */
  function WithoutPreviews(s: State): State {
    s.(disk := s.disk.(updates := map k | k in s.disk.updates && !s.disk.updates[k].kind.Preview? :: s.disk.updates[k]))
  }

  /** A run with every preview step, and every preview record, struck out. */
  function Struck(h: seq<Entry>): seq<Entry> {
    if h == [] then []
    else
      var e := h[|h| - 1];
      var rest := Struck(h[..|h| - 1]);
      if |h| > 1 && PreviewOp(e.op) then rest else rest + [e.(s := WithoutPreviews(e.s))]
  }

  /** The successive contents of stack.json, repetitions dropped. */
  function Documents(h: seq<Entry>): seq<Option<Stack>> {
    if h == [] then []
    else
      var rest, stack := Documents(h[..|h| - 1]), h[|h| - 1].s.disk.stack;
      if rest != [] && rest[|rest| - 1] == stack then rest else rest + [stack]
  }

  /** A preview's step changes nothing but preview records. */
  lemma PreviewStep(s: State, op: Op)
    requires Guard(s, op) && PreviewOp(op)
    ensures WithoutPreviews(Apply(s, op)) == WithoutPreviews(s) && Apply(s, op).disk.stack == s.disk.stack
  {
    assert WithoutPreviews(Apply(s, op)).disk.updates == WithoutPreviews(s).disk.updates;
  }

  /** Any other step neither needs preview records nor minds them. */
  lemma OtherStep(s: State, op: Op)
    requires Guard(s, op) && !PreviewOp(op)
    ensures Guard(WithoutPreviews(s), op) && Apply(WithoutPreviews(s), op) == WithoutPreviews(Apply(s, op))
  {
    OtherStepAllowed(s, op);
    if op.PutRecord? || op.SetRecord? || op.DropRecord? || op.Erase? {
      assert Apply(WithoutPreviews(s), op).disk.updates == WithoutPreviews(Apply(s, op)).disk.updates;
    }
  }

  lemma OtherStepAllowed(s: State, op: Op)
    requires Guard(s, op) && !PreviewOp(op)
    ensures Guard(WithoutPreviews(s), op)
  {
    assert Holder(WithoutPreviews(s).disk) == Holder(s.disk);
  }

  lemma {:induction false} DocumentsEnd(h: seq<Entry>)
    requires h != []
    ensures Documents(h) != [] && Documents(h)[|Documents(h)| - 1] == h[|h| - 1].s.disk.stack
  {
  }

  lemma DocumentsAppend(h: seq<Entry>, e: Entry)
    requires h != []
    ensures Documents(h + [e]) == if e.s.disk.stack == h[|h| - 1].s.disk.stack then Documents(h) else Documents(h) + [e.s.disk.stack]
  {
    assert (h + [e])[..|h|] == h;
    DocumentsEnd(h);
  }

  /** Striking every preview from a run leaves a run, in which stack.json goes through the same contents. */
  lemma {:induction false} PreviewsAreTransparent(h: seq<Entry>)
    requires IsRun(h)
    ensures IsRun(Struck(h)) && Last(Struck(h)) == WithoutPreviews(Last(h))
    ensures Documents(Struck(h)) == Documents(h)
  {
    var n := |h| - 1;
    if n == 0 {
      assert h[..0] == [];
      assert Struck(h) == [h[0].(s := WithoutPreviews(h[0].s))];
      assert Struck(h)[..0] == [];
    } else {
      var p := h[..n];
      forall i | 0 < i < |p| ensures StepAt(p, i) { assert StepAt(h, i); }
      PreviewsAreTransparent(p);
      assert StepAt(h, n);
      assert h == p + [h[n]];
      DocumentsAppend(p, h[n]);
      if PreviewOp(h[n].op) {
        PreviewStep(h[n - 1].s, h[n].op);
      } else {
        OtherStep(h[n - 1].s, h[n].op);
        var e := h[n].(s := WithoutPreviews(h[n].s));
        RunExtend(Struck(p), e);
        DocumentsAppend(Struck(p), e);
      }
    }
  }
}
