/**
  The batch loop shared by normalize and quantize: each clip of the batch
  is run through the per-clip step, and the results the step produced are
  kept, in batch order.
 */
module Batch {
  import opened Clips

  /** How many of the steps produced a result. */
  function CountSome<T>(steps: seq<Option<T>>): nat {
    if |steps| == 0 then 0
    else (if steps[0].Some? then 1 else 0) + CountSome(steps[1..])
  }

  /**
    The results of the steps that produced one, in order: as many as there
    are such steps, each one of the steps' results, none when no step
    produced anything.
   */
  function Collect<T>(steps: seq<Option<T>>): (r: seq<T>)
    ensures |r| == CountSome(steps) <= |steps|
    ensures |r| == 0 <==> forall i :: 0 <= i < |steps| ==> steps[i].None?
    ensures forall j :: 0 <= j < |r| ==> Some(r[j]) in steps
  {
    if |steps| == 0 then []
    else
      var rest := Collect(steps[1..]);
      assert forall i :: 1 <= i < |steps| ==> steps[i] == steps[1..][i - 1];
      match steps[0]
      case None => rest
      case Some(v) => [v] + rest
  }

  /**
    Every step that produced a result has it in the collection, at the
    position given by the number of producing steps before it.
   */
  lemma {:induction false} CollectComplete<T>(steps: seq<Option<T>>, i: nat)
    requires i < |steps| && steps[i].Some?
    ensures CountSome(steps[..i]) < |Collect(steps)|
    ensures Collect(steps)[CountSome(steps[..i])] == steps[i].value
  {
    if i == 0 {
      assert steps[..0] == [];
    } else {
      CollectComplete(steps[1..], i - 1);
      assert steps[..i][1..] == steps[1..][..i - 1];
      assert steps[1..][i - 1] == steps[i];
    }
  }

  /** Every result some step produced is in the collection. */
  lemma CollectHasAll<T>(steps: seq<Option<T>>)
    ensures forall i :: 0 <= i < |steps| && steps[i].Some? ==> steps[i].value in Collect(steps)
  {
    forall i | 0 <= i < |steps| && steps[i].Some?
      ensures steps[i].value in Collect(steps)
    {
      CollectComplete(steps, i);
    }
  }
}
