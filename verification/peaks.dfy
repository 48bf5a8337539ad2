/**
 Spectrum view derivation: dropping the points with non-positive intensity
 (a boolean mask applied to both arrays) and choosing the ten most intense of
 the remaining points for annotation.
 */
module Peaks {
  import opened Wrappers
  import opened Records

  /** The points of a spectrum that are drawn: m/z and intensity arrays of
      one length. */
  datatype Peaks = Peaks(mz: seq<real>, intensities: seq<real>)

  /** How many of the most intense points are annotated. */
  const TopPeakCount: nat := 10

  /** The positions whose intensity is positive, in increasing order. */
  function PositivePositions(ints: seq<real>): (ps: seq<nat>)
    ensures StrictlyIncreasing(ps)
    ensures forall j :: 0 <= j < |ps| ==> ps[j] < |ints| && ints[ps[j]] > 0.0
    ensures forall k :: 0 <= k < |ints| && ints[k] > 0.0 ==> k in ps
  {
    if |ints| == 0 then []
    else
      var ps := PositivePositions(ints[..|ints| - 1]);
      if ints[|ints| - 1] > 0.0 then ps + [|ints| - 1] else ps
  }

  /** Both arrays masked by `intensity > 0`, keeping the original order. */
  function KeepPositive(mz: seq<real>, ints: seq<real>): (f: Peaks)
    requires |mz| == |ints|
    ensures |f.mz| == |f.intensities| <= |ints|
    ensures forall j :: 0 <= j < |f.intensities| ==> f.intensities[j] > 0.0
  {
    if |ints| == 0 then Peaks([], [])
    else
      var f := KeepPositive(mz[..|mz| - 1], ints[..|ints| - 1]);
      if ints[|ints| - 1] > 0.0 then
        Peaks(f.mz + [mz[|mz| - 1]], f.intensities + [ints[|ints| - 1]])
      else
        f
  }

  /** The masked arrays are exactly the pairs at the positive positions, in
      their original order. */
  lemma {:induction false} KeepPositiveSelects(mz: seq<real>, ints: seq<real>)
    requires |mz| == |ints|
    ensures var f := KeepPositive(mz, ints);
            var ps := PositivePositions(ints);
      && |f.mz| == |ps|
      && forall j :: 0 <= j < |ps| ==> f.mz[j] == mz[ps[j]] && f.intensities[j] == ints[ps[j]]
  {
    if |ints| > 0 {
      var n := |ints| - 1;
      KeepPositiveSelects(mz[..n], ints[..n]);
      var f0 := KeepPositive(mz[..n], ints[..n]);
      var ps0 := PositivePositions(ints[..n]);
      assert KeepPositive(mz, ints) ==
        if ints[n] > 0.0 then Peaks(f0.mz + [mz[n]], f0.intensities + [ints[n]]) else f0;
      assert PositivePositions(ints) == if ints[n] > 0.0 then ps0 + [n] else ps0;
      GatherExtend(mz, ints, f0, ps0, n);
    }
  }

  /** The inductive step of `KeepPositiveSelects`: a gather from the first
      `n` points stays a gather from all points, and appending point `n`
      to both sides keeps it one. */
  lemma GatherExtend(mz: seq<real>, ints: seq<real>, f0: Peaks, ps0: seq<nat>, n: nat)
    requires |mz| == |ints| == n + 1
    requires |f0.mz| == |f0.intensities| == |ps0|
    requires forall j :: 0 <= j < |ps0| ==> ps0[j] < n
    requires forall j :: 0 <= j < |ps0| ==> f0.mz[j] == mz[..n][ps0[j]] && f0.intensities[j] == ints[..n][ps0[j]]
    ensures forall j :: 0 <= j < |ps0| ==> f0.mz[j] == mz[ps0[j]] && f0.intensities[j] == ints[ps0[j]]
    ensures var f := Peaks(f0.mz + [mz[n]], f0.intensities + [ints[n]]);
            var ps := ps0 + [n];
      forall j :: 0 <= j < |ps| ==> f.mz[j] == mz[ps[j]] && f.intensities[j] == ints[ps[j]]
  {
  }

  /** The filter applied to a stored spectrum. The mask comes from the
      intensity array; applying it to an m/z array of another length fails,
      which is None here. */
  function FilterEntry(e: Entry): (r: Option<Peaks>)
    ensures r.None? <==> |e.mz| != |e.intensities|
    ensures r.Some? ==> |r.value.mz| == |r.value.intensities|
    ensures r.Some? ==> forall j :: 0 <= j < |r.value.intensities| ==> r.value.intensities[j] > 0.0
    ensures r.Some? ==>
      var ps := PositivePositions(e.intensities);
      && |r.value.mz| == |ps|
      && forall j :: 0 <= j < |ps| ==>
           r.value.mz[j] == e.mz[ps[j]] && r.value.intensities[j] == e.intensities[ps[j]]
  {
    if |e.mz| == |e.intensities| then
      KeepPositiveSelects(e.mz, e.intensities);
      Some(KeepPositive(e.mz, e.intensities))
    else None
  }

  /** A position `rem[j]` of greatest value among the positions `rem`. */
  function ArgMaxIn(vals: seq<real>, rem: seq<nat>): (j: nat)
    requires |rem| > 0
    requires forall i :: 0 <= i < |rem| ==> rem[i] < |vals|
    ensures j < |rem|
    ensures forall i :: 0 <= i < |rem| ==> vals[rem[i]] <= vals[rem[j]]
  {
    if |rem| == 1 then 0
    else
      var j := ArgMaxIn(vals, rem[..|rem| - 1]);
      if vals[rem[j]] < vals[rem[|rem| - 1]] then |rem| - 1 else j
  }

  predicate Distinct(xs: seq<nat>) {
    forall i, j :: 0 <= i < j < |xs| ==> xs[i] != xs[j]
  }

  /** `xs` without its element at `j`. */
  function RemoveAt(xs: seq<nat>, j: nat): (r: seq<nat>)
    requires j < |xs| && Distinct(xs)
    ensures |r| + 1 == |xs|
    ensures Distinct(r)
    ensures forall i :: 0 <= i < |r| ==> r[i] == (if i < j then xs[i] else xs[i + 1])
    ensures forall u :: u in r <==> u in xs && u != xs[j]
  {
    var r := xs[..j] + xs[j + 1..];
    assert forall i :: 0 <= i < |r| ==> r[i] == (if i < j then xs[i] else xs[i + 1]);
    assert forall u :: u in xs && u != xs[j] ==> u in r by {
      forall u | u in xs && u != xs[j]
        ensures u in r
      {
        var i :| 0 <= i < |xs| && xs[i] == u;
        if i < j { assert r[i] == u; } else { assert r[i - 1] == u; }
      }
    }
    r
  }

  /** The positions `0 .. n-1`, in order. */
  function AllPositions(n: nat): (r: seq<nat>)
    ensures |r| == n
    ensures forall i :: 0 <= i < n ==> r[i] == i
  {
    if n == 0 then [] else AllPositions(n - 1) + [n - 1]
  }

  /** The loop's picture of a partial selection: `top` (chosen, in
      increasing order of value) and `rem` (not yet chosen) split the
      positions of `vals`, and nothing left is larger than anything chosen. */
  ghost predicate Selection(vals: seq<real>, top: seq<nat>, rem: seq<nat>) {
    && |top| + |rem| == |vals|
    && Distinct(rem) && Distinct(top)
    && (forall i :: 0 <= i < |top| ==> top[i] < |vals|)
    && (forall i :: 0 <= i < |rem| ==> rem[i] < |vals|)
    && (forall u :: 0 <= u < |vals| ==> (u in rem <==> u !in top))
    && (forall i, j :: 0 <= i < |top| && 0 <= j < |rem| ==> vals[rem[j]] <= vals[top[i]])
    && (forall i, j :: 0 <= i < j < |top| ==> vals[top[i]] <= vals[top[j]])
  }

  /** Moving a largest remaining position to the front of `top` keeps the
      selection's picture. */
  lemma SelectionStep(vals: seq<real>, top: seq<nat>, rem: seq<nat>, j: nat)
    requires Selection(vals, top, rem)
    requires j < |rem|
    requires forall i :: 0 <= i < |rem| ==> vals[rem[i]] <= vals[rem[j]]
    ensures Selection(vals, [rem[j]] + top, RemoveAt(rem, j))
  {
    var p := rem[j];
    var top' := [p] + top;
    var rem' := RemoveAt(rem, j);
    assert p in rem && p !in top;
    assert forall i :: 1 <= i < |top'| ==> top'[i] == top[i - 1];
    assert forall i :: 0 <= i < |rem'| ==> rem'[i] in rem;
  }

  /** The positions of the `min(10, |vals|)` largest values, in increasing
      order of value, as the last ten entries of an arg-sort are. Among equal
      values the choice is left open. */
  method TopPeaks(vals: seq<real>) returns (top: seq<nat>)
    ensures |top| == if |vals| < TopPeakCount then |vals| else TopPeakCount
    ensures forall i :: 0 <= i < |top| ==> top[i] < |vals|
    ensures Distinct(top)
    ensures forall i, u :: 0 <= i < |top| && 0 <= u < |vals| && u !in top ==> vals[u] <= vals[top[i]]
    ensures forall i, j :: 0 <= i < j < |top| ==> vals[top[i]] <= vals[top[j]]
  {
    var k := if |vals| < TopPeakCount then |vals| else TopPeakCount;
    var rem: seq<nat> := AllPositions(|vals|);
    top := [];
    forall u | 0 <= u < |vals|
      ensures u in rem
    {
      assert rem[u] == u;
    }
    while |top| < k
      invariant |top| <= k
      invariant Selection(vals, top, rem)
    {
      var j := ArgMaxIn(vals, rem);
      SelectionStep(vals, top, rem, j);
      top := [rem[j]] + top;
      rem := RemoveAt(rem, j);
    }
    forall i, u | 0 <= i < |top| && 0 <= u < |vals| && u !in top
      ensures vals[u] <= vals[top[i]]
    {
      var m :| 0 <= m < |rem| && rem[m] == u;
    }
  }
}
