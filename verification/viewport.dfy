/**
 Axis limits of the two plots: the padded "home" view computed from the data,
 and the scroll-wheel zoom about an anchor point.
 */
module Viewport {

  datatype Limits = Limits(lo: real, hi: real)

  /** The x and y limits of one plot. */
  datatype Box = Box(x: Limits, y: Limits)

  /** Padding and headroom of the home views: 5% and ×1.1 for the mass
      spectrum, 2% and ×1.05 for the TIC. */
  const SpectrumPad: real := 0.05
  const SpectrumHeadroom: real := 1.1
  const TicPad: real := 0.02
  const TicHeadroom: real := 1.05

  /** The scroll wheel zooms by 1.1 per notch. */
  const ScrollBase: real := 1.1

  /** A position of a smallest element. */
  function MinPosition(xs: seq<real>): (i: nat)
    requires |xs| > 0
    ensures i < |xs|
    ensures forall k :: 0 <= k < |xs| ==> xs[i] <= xs[k]
  {
    if |xs| == 1 then 0
    else
      var i := MinPosition(xs[..|xs| - 1]);
      if xs[|xs| - 1] < xs[i] then |xs| - 1 else i
  }

  /** A position of a largest element. */
  function MaxPosition(xs: seq<real>): (i: nat)
    requires |xs| > 0
    ensures i < |xs|
    ensures forall k :: 0 <= k < |xs| ==> xs[k] <= xs[i]
  {
    if |xs| == 1 then 0
    else
      var i := MaxPosition(xs[..|xs| - 1]);
      if xs[i] < xs[|xs| - 1] then |xs| - 1 else i
  }

  /** The range `lo .. hi` widened on both sides by `pad` times its width. */
  function Padded(lo: real, hi: real, pad: real): (r: Limits)
    requires lo <= hi && pad >= 0.0
    ensures r.lo <= lo && hi <= r.hi
    ensures hi - r.hi == r.lo - lo
    ensures r.lo == r.hi <==> lo == hi
    ensures r.hi - r.lo == (hi - lo) * (1.0 + 2.0 * pad)
  {
    var range := hi - lo;
    assert (hi + range * pad) - (lo - range * pad) == range * (1.0 + 2.0 * pad);
    Limits(lo - range * pad, hi + range * pad)
  }

  /** `v` is the smallest element of `xs`. */
  ghost predicate IsLeast(xs: seq<real>, v: real) {
    && (exists i :: 0 <= i < |xs| && xs[i] == v)
    && forall k :: 0 <= k < |xs| ==> v <= xs[k]
  }

  /** `v` is the largest element of `xs`. */
  ghost predicate IsGreatest(xs: seq<real>, v: real) {
    && (exists i :: 0 <= i < |xs| && xs[i] == v)
    && forall k :: 0 <= k < |xs| ==> xs[k] <= v
  }

  /** The home view of the points `xs`/`ys`: the x range from the smallest
      to the largest x, padded by `pad`; the y range from 0 to `headroom`
      times the largest y. */
  function HomeBox(xs: seq<real>, ys: seq<real>, pad: real, headroom: real): (b: Box)
    requires |xs| > 0 && |ys| > 0
    requires pad >= 0.0
    ensures forall lo, hi :: IsLeast(xs, lo) && IsGreatest(xs, hi) ==> lo <= hi && b.x == Padded(lo, hi, pad)
    ensures forall top :: IsGreatest(ys, top) ==> b.y == Limits(0.0, top * headroom)
    ensures forall i :: 0 <= i < |xs| ==> b.x.lo <= xs[i] <= b.x.hi
    ensures b.x.lo == b.x.hi <==> forall i :: 0 <= i < |xs| ==> xs[i] == xs[0]
  {
    var lo := MinPosition(xs);
    var hi := MaxPosition(xs);
    var top := MaxPosition(ys);
    assert forall v :: IsLeast(xs, v) ==> v == xs[lo];
    assert forall v :: IsGreatest(xs, v) ==> v == xs[hi];
    assert forall v :: IsGreatest(ys, v) ==> v == ys[top];
    var b := Box(Padded(xs[lo], xs[hi], pad), Limits(0.0, ys[top] * headroom));
    assert b.x.lo == b.x.hi ==> forall i :: 0 <= i < |xs| ==> xs[i] == xs[0] by {
      if b.x.lo == b.x.hi {
        assert xs[lo] == xs[hi];
      }
    }
    b
  }

  /** With non-negative heights and at least unit headroom, every point lies
      inside its home view. */
  lemma HomeBoxContains(xs: seq<real>, ys: seq<real>, pad: real, headroom: real)
    requires |xs| == |ys| > 0
    requires pad >= 0.0 && headroom >= 1.0
    requires forall i :: 0 <= i < |ys| ==> ys[i] >= 0.0
    ensures var b := HomeBox(xs, ys, pad, headroom);
      forall i :: 0 <= i < |xs| ==> b.x.lo <= xs[i] <= b.x.hi && b.y.lo <= ys[i] <= b.y.hi
  {
    var m := MaxPosition(ys);
    assert IsGreatest(ys, ys[m]);
    var b := HomeBox(xs, ys, pad, headroom);
    assert b.y.hi == ys[m] * headroom;
    assert ys[m] * headroom - ys[m] == ys[m] * (headroom - 1.0);
    assert ys[m] * (headroom - 1.0) >= 0.0;
  }

  /** The limits after zooming by `factor` about `anchor`: the width scales
      by `factor` and the anchor keeps its relative place. The width is
      divided by, so it must not be zero. */
  function ZoomAbout(l: Limits, anchor: real, factor: real): (r: Limits)
    requires l.lo != l.hi
    ensures r.hi - r.lo == (l.hi - l.lo) * factor
    ensures r.hi - anchor == (l.hi - anchor) * factor
    ensures anchor - r.lo == (anchor - l.lo) * factor
  {
    var width := l.hi - l.lo;
    var newWidth := width * factor;
    var rel := (l.hi - anchor) / width;
    Limits(anchor - newWidth * (1.0 - rel), anchor + newWidth * rel)
  }

  /** The zoom factor of one wheel notch: up zooms in, down zooms out. */
  function ScrollFactor(up: bool): (f: real)
    ensures f > 0.0
    ensures up ==> f * ScrollBase == 1.0
    ensures !up ==> f == ScrollBase
  {
    if up then 1.0 / ScrollBase else ScrollBase
  }

  /** One notch up then one notch down about the same anchor restores the
      limits, and so does the opposite order. */
  lemma ScrollRoundTrip(l: Limits, anchor: real, up: bool)
    requires l.lo != l.hi
    ensures ZoomAbout(l, anchor, ScrollFactor(up)).lo != ZoomAbout(l, anchor, ScrollFactor(up)).hi
    ensures ZoomAbout(ZoomAbout(l, anchor, ScrollFactor(up)), anchor, ScrollFactor(!up)) == l
  {
    var f := ScrollFactor(up);
    var g := ScrollFactor(!up);
    assert f * g == 1.0;
    var r := ZoomAbout(l, anchor, f);
    assert r.hi - r.lo == (l.hi - l.lo) * f;
    var r2 := ZoomAbout(r, anchor, g);
    assert r2.hi - anchor == ((l.hi - anchor) * f) * g;
    assert r2.hi - anchor == (l.hi - anchor) * (f * g);
    assert anchor - r2.lo == (anchor - l.lo) * (f * g);
  }
}
