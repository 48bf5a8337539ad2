/**
 Navigation over the TIC index: selecting the MS1 spectrum nearest to a
 clicked time, and stepping to the previous or next MS1 spectrum.
 */
module Navigation {
  import opened Wrappers
  import opened Records

  function Abs(x: real): real {
    if x < 0.0 then -x else x
  }

  /** `p` is the first position whose time is nearest to `t`. */
  ghost predicate IsFirstNearest(times: seq<real>, t: real, p: int) {
    && 0 <= p < |times|
    && (forall q :: 0 <= q < |times| ==> Abs(times[p] - t) <= Abs(times[q] - t))
    && (forall q :: 0 <= q < p ==> Abs(times[p] - t) < Abs(times[q] - t))
  }

  /** The arg-min of the distances to `t`, scanning left to right and
      replacing the candidate only on a strictly smaller distance, so that
      ties go to the lowest position. */
  function NearestPosition(times: seq<real>, t: real): (p: nat)
    requires |times| > 0
    ensures IsFirstNearest(times, t, p)
  {
    if |times| == 1 then 0
    else
      var p := NearestPosition(times[..|times| - 1], t);
      if Abs(times[|times| - 1] - t) < Abs(times[p] - t) then |times| - 1 else p
  }

  /** The position of the first occurrence of `x`, as a list's index lookup
      does; None where that lookup raises. */
  function IndexOf(xs: seq<nat>, x: nat): (r: Option<nat>)
    ensures r.None? <==> x !in xs
    ensures r.Some? ==> r.value < |xs| && xs[r.value] == x
    ensures r.Some? ==> forall q :: 0 <= q < r.value ==> xs[q] != x
  {
    if |xs| == 0 then None
    else if xs[0] == x then Some(0)
    else
      match IndexOf(xs[1..], x)
      case None => None
      case Some(p) => Some(p + 1)
  }

  /** The left-arrow step: the MS1 spectrum one position back in `indices`.
      None when the key does nothing: at the first position, with fewer
      than two entries, or when `cur` is not listed (the lookup raises
      before anything changes). */
  function StepPrev(indices: seq<nat>, cur: nat): (r: Option<nat>)
    ensures |indices| <= 1 || cur !in indices ==> r.None?
    ensures r.Some? ==> r.value in indices && cur in indices
    ensures forall p :: 0 <= p < |indices| && indices[p] == cur && StrictlyIncreasing(indices) && |indices| > 1 ==>
              r == (if p == 0 then None else Some(indices[p - 1]))
  {
    if |indices| > 1 then
      match IndexOf(indices, cur)
      case None => None
      case Some(p) => if p > 0 then Some(indices[p - 1]) else None
    else
      None
  }

  /** The right-arrow step: the MS1 spectrum one position forward in
      `indices`. None when the key does nothing: at the last position, with
      fewer than two entries, or when `cur` is not listed. */
  function StepNext(indices: seq<nat>, cur: nat): (r: Option<nat>)
    ensures |indices| <= 1 || cur !in indices ==> r.None?
    ensures r.Some? ==> r.value in indices && cur in indices
    ensures forall p :: 0 <= p < |indices| && indices[p] == cur && StrictlyIncreasing(indices) && |indices| > 1 ==>
              r == (if p == |indices| - 1 then None else Some(indices[p + 1]))
  {
    if |indices| > 1 then
      match IndexOf(indices, cur)
      case None => None
      case Some(p) => if p < |indices| - 1 then Some(indices[p + 1]) else None
    else
      None
  }

  /** A step that moved is undone by the opposite step. */
  lemma {:induction false} PrevUndoesNext(indices: seq<nat>, cur: nat)
    requires StrictlyIncreasing(indices)
    requires StepNext(indices, cur).Some?
    ensures StepPrev(indices, StepNext(indices, cur).value) == Some(cur)
  {
    var p :| 0 <= p < |indices| && indices[p] == cur;
    assert StepNext(indices, cur) == Some(indices[p + 1]);
  }

  lemma {:induction false} NextUndoesPrev(indices: seq<nat>, cur: nat)
    requires StrictlyIncreasing(indices)
    requires StepPrev(indices, cur).Some?
    ensures StepNext(indices, StepPrev(indices, cur).value) == Some(cur)
  {
    var p :| 0 <= p < |indices| && indices[p] == cur;
    assert StepPrev(indices, cur) == Some(indices[p - 1]);
  }
}
