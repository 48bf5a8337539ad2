/**
 The browser session: the state one browser window holds (file, TIC index,
 spectrum store, current spectrum, drag selection and the two plots' views)
 and the handlers that change it — loading a file, clicks, moves, releases,
 the scroll wheel, the arrow keys and the two reset commands.
 */
module Browser {
  import opened Wrappers
  import opened Records
  import opened IndexBuilder
  import opened Navigation
  import opened Peaks
  import opened Viewport
  import opened Events
  import opened DragZoom

  datatype Session = Session(
    file: Option<string>,
    tic: Option<TicIndex>,
    store: map<nat, Entry>,
    current: nat,
    drag: Drag,
    ticView: Box,
    specView: Box)

  /** A fresh window: nothing loaded, spectrum 0 current, the placeholder
      views 0..10 × 0..1000 (TIC) and 0..1000 × 0..1000 (spectrum). */
  const Initial: Session := Session(
    None, None, map[], 0, Idle,
    Box(Limits(0.0, 10.0), Limits(0.0, 1000.0)),
    Box(Limits(0.0, 1000.0), Limits(0.0, 1000.0)))

  /** Once a TIC index is published it is well formed and the current
      spectrum is one of its MS1 spectra. */
  ghost predicate Valid(s: Session) {
    s.tic.Some? ==> WellFormed(s.tic.value) && s.current in s.tic.value.indices
  }

  /** The views matplotlib's autoscaling gives the two plots when a redraw
      clears both axes and plots the data again. The plotting library
      computes them, so the handlers that redraw take them as a parameter. */
  datatype Autoscale = Autoscale(tic: Box, spec: Box)

  /** The session after a full redraw: both views are handed to
      autoscaling; nothing else changes. */
  function Redrawn(s: Session, auto: Autoscale): Session {
    s.(ticView := auto.tic, specView := auto.spec)
  }

  lemma InitialValid()
    ensures Valid(Initial) && Initial.tic.None?
  {
  }

  /** Why a load is reported as failed: the stream has no MS1 spectrum with
      a readable scan time, or the redraw after publishing the index raised
      because the new current spectrum's arrays cannot be masked. */
  datatype LoadError = NoMs1Spectra | RedrawFailed

  datatype LoadOutcome = LoadOutcome(session: Session, error: Option<LoadError>)

  /** Loading the stream `recs` of the file `path`. The builder's store
      replaces the session's store even when no MS1 spectrum is found.
      Otherwise the TIC index is published, the file recorded, the middle
      MS1 spectrum selected and both plots redrawn; the redraw raises (and
      the load is reported as failed, with everything already published
      kept) when that spectrum is stored with arrays of different lengths. */
  function Load(s: Session, path: string, recs: seq<RawSpectrum>, auto: Autoscale): (r: LoadOutcome)
    ensures r.error == Some(NoMs1Spectra) <==> forall k :: 0 <= k < |recs| ==> !IsTicRecord(recs[k])
    ensures r.error == Some(RedrawFailed) <==> r.error != Some(NoMs1Spectra) && RedrawRaises(r.session)
    ensures r.session.store == Build(s.store, recs).store
    ensures r.error == Some(NoMs1Spectra) ==> r.session == s.(store := r.session.store)
    ensures r.error != Some(NoMs1Spectra) ==>
              && r.session.tic.Some?
              && r.session.tic.value.indices == Build(s.store, recs).indices
              && r.session.tic.value.times == Build(s.store, recs).times
              && r.session.tic.value.intensities == Build(s.store, recs).intensities
              && r.session.current == r.session.tic.value.indices[|r.session.tic.value.indices| / 2]
              && r.session.file == Some(path)
              && r.session.drag == s.drag && r.session.ticView == auto.tic && r.session.specView == auto.spec
    ensures r.error != Some(NoMs1Spectra) || Valid(s) ==> Valid(r.session)
  {
    EmptyTicIffNoMs1(s.store, recs);
    var st := Build(s.store, recs);
    if |st.indices| == 0 then
      LoadOutcome(s.(store := st.store), Some(NoMs1Spectra))
    else
      var published := Redrawn(
        s.(store := st.store,
           tic := Some(TicIndex(st.times, st.intensities, st.indices)),
           file := Some(path),
           current := st.indices[|st.indices| / 2]),
        auto);
      LoadOutcome(published, if RedrawRaises(published) then Some(RedrawFailed) else None)
  }

  /** The redraw of the spectrum plot raises: the current spectrum is
      stored, but masking its arrays fails. */
  predicate RedrawRaises(s: Session) {
    s.current in s.store && CurrentPeaks(s).None?
  }

  /** After a successful load every MS1 spectrum whose scan time could be
      read is selectable, in stream order, and the store holds exactly the
      earlier entries plus the records that passed its gate. */
  lemma LoadPublishes(s: Session, path: string, recs: seq<RawSpectrum>, auto: Autoscale)
    requires Load(s, path, recs, auto).error != Some(NoMs1Spectra)
    ensures var t := Load(s, path, recs, auto).session.tic.value;
      && WellFormed(t)
      && (forall k: nat :: k in t.indices <==> k < |recs| && IsTicRecord(recs[k]))
      && (forall p :: 0 <= p < |t.indices| ==> t.times[p] == recs[t.indices[p]].timing.value.rt)
    ensures var store := Load(s, path, recs, auto).session.store;
      forall k: nat :: k in store <==> (k < |recs| && Stored(recs, k)) || k in s.store
  {
  }

  /** A load that finds no MS1 spectrum changes nothing: without a readable
      MS1 scan time no record can pass into the store either. */
  lemma FailedLoadKeepsSession(s: Session, path: string, recs: seq<RawSpectrum>, auto: Autoscale)
    requires Load(s, path, recs, auto).error == Some(NoMs1Spectra)
    ensures Load(s, path, recs, auto).session == s
  {
    var st := Build(s.store, recs);
    forall k: nat | k < |recs|
      ensures !Stored(recs, k)
    {
      assert !IsTicRecord(recs[k]);
      assert LastTic(recs, k).None?;
    }
    assert st.store.Keys == s.store.Keys;
  }

  /** An MS1 spectrum with an empty m/z array is a TIC point and can become
      current, yet it is not in the store. */
  lemma TicPointWithoutStoreEntry()
    ensures var r := Load(Initial, "run.mzML", [RawSpectrum(1, Some(Timing(0.5, 10.0)), Some([]), Some([]))], Autoscale(Initial.ticView, Initial.specView));
      && r.error.None?
      && r.session.current == 0
      && 0 !in r.session.store
  {
  }

  /** A stored MS1 spectrum with two m/z values but one intensity is
      published and selected, and then the redraw fails the load. */
  lemma RedrawFailureExample()
    ensures var r := Load(Initial, "run.mzML", [RawSpectrum(1, Some(Timing(1.0, 5.0)), Some([100.0, 200.0]), Some([3.0]))], Autoscale(Initial.ticView, Initial.specView));
      && r.error == Some(RedrawFailed)
      && r.session.tic.Some?
      && r.session.current == 0
      && 0 in r.session.store
  {
  }

  /** A click. On the TIC plot (once a file is loaded) it selects the MS1
      spectrum nearest in time to the clicked point and redraws both plots;
      on the spectrum plot it is a press of the drag selection. */
  function OnClick(s: Session, ev: MouseEvent, auto: Autoscale): (r: Session)
    ensures ev.axes == TicAxes && s.tic.Some? && ev.x.Some? && Valid(s) ==>
              forall p :: IsFirstNearest(s.tic.value.times, ev.x.value, p) ==>
                r == s.(current := s.tic.value.indices[p], ticView := auto.tic, specView := auto.spec)
    ensures ev.axes == TicAxes && (s.tic.None? || ev.x.None?) ==> r == s
    ensures ev.axes == SpectrumAxes ==> r == s.(drag := Press(s.drag, ev))
    ensures ev.axes == NoAxes ==> r == s
    ensures Valid(s) ==> Valid(r)
  {
    if ev.axes == TicAxes && s.tic.Some? then
      var t := s.tic.value;
      match ev.x
      case None => s
      case Some(x) =>
        if |t.times| == 0 then s
        else
          var p := NearestPosition(t.times, x);
          NearestUnique(t.times, x);
          if p < |t.indices| then Redrawn(s.(current := t.indices[p]), auto) else s
    else if ev.axes == SpectrumAxes then
      s.(drag := Press(s.drag, ev))
    else
      s
  }

  /** Only the first nearest position satisfies the nearest-time selection. */
  lemma NearestUnique(times: seq<real>, t: real)
    requires |times| > 0
    ensures forall p :: IsFirstNearest(times, t, p) ==> p == NearestPosition(times, t)
  {
    var q := NearestPosition(times, t);
    forall p | IsFirstNearest(times, t, p)
      ensures p == q
    {
      assert Abs(times[p] - t) == Abs(times[q] - t);
    }
  }

  function OnMouseMove(s: Session, ev: MouseEvent): (r: Session)
    ensures r == s.(drag := r.drag)
    ensures s.drag.active && ev.axes == SpectrumAxes ==> r.drag.end == Some(Point(ev.x, ev.y))
    ensures !(s.drag.active && ev.axes == SpectrumAxes) ==> r == s
  {
    s.(drag := Move(s.drag, ev))
  }

  function OnMouseRelease(s: Session, ev: MouseEvent): (r: Session)
    ensures r == s.(drag := r.drag, specView := r.specView)
    ensures Completes(s.drag, ev) ==> r.drag == Idle
    ensures Completes(s.drag, ev) && Committable(s.drag) ==>
              r.specView == Span(s.drag.start.value, s.drag.end.value)
    ensures !(Completes(s.drag, ev) && Committable(s.drag)) ==> r.specView == s.specView
    ensures !Completes(s.drag, ev) ==> r == s
  {
    var rel := Release(s.drag, s.specView, ev);
    s.(drag := rel.drag, specView := rel.view)
  }

  /** The scroll wheel over the spectrum plot, while the current spectrum
      is stored: zooms both axes about the pointer by one notch. The current
      limits are divided by their widths, which must not be zero. */
  function OnScroll(s: Session, ev: ScrollEvent): (r: Session)
    requires ScrollZooms(s, ev) ==> s.specView.x.lo != s.specView.x.hi && s.specView.y.lo != s.specView.y.hi
    ensures r == s.(specView := r.specView)
    ensures ScrollZooms(s, ev) ==>
              && r.specView.x.hi - r.specView.x.lo == (s.specView.x.hi - s.specView.x.lo) * ScrollFactor(ev.up)
              && r.specView.y.hi - r.specView.y.lo == (s.specView.y.hi - s.specView.y.lo) * ScrollFactor(ev.up)
              && r.specView.x.hi - ev.x.value == (s.specView.x.hi - ev.x.value) * ScrollFactor(ev.up)
              && r.specView.y.hi - ev.y.value == (s.specView.y.hi - ev.y.value) * ScrollFactor(ev.up)
    ensures !ScrollZooms(s, ev) ==> r == s
  {
    if ScrollZooms(s, ev) then
      var f := ScrollFactor(ev.up);
      s.(specView := Box(ZoomAbout(s.specView.x, ev.x.value, f), ZoomAbout(s.specView.y, ev.y.value, f)))
    else
      s
  }

  /** The scroll event reaches the zoom: over the spectrum plot, with the
      current spectrum stored and a pointer position on both axes. */
  predicate ScrollZooms(s: Session, ev: ScrollEvent) {
    ev.axes == SpectrumAxes && s.current in s.store && ev.x.Some? && ev.y.Some?
  }

  /** A notch up followed by a notch down at the same pointer position (or
      the reverse) gives back the session. */
  lemma ScrollBackRestores(s: Session, ev: ScrollEvent)
    requires ScrollZooms(s, ev) ==> s.specView.x.lo != s.specView.x.hi && s.specView.y.lo != s.specView.y.hi
    ensures var s1 := OnScroll(s, ev);
      && (ScrollZooms(s1, ev.(up := !ev.up)) ==>
            s1.specView.x.lo != s1.specView.x.hi && s1.specView.y.lo != s1.specView.y.hi)
      && OnScroll(s1, ev.(up := !ev.up)) == s
  {
    if ScrollZooms(s, ev) {
      ScrollRoundTrip(s.specView.x, ev.x.value, ev.up);
      ScrollRoundTrip(s.specView.y, ev.y.value, ev.up);
    }
  }

  /** The left arrow: when a file is loaded and there is a previous MS1
      spectrum, selects it and redraws both plots; otherwise does nothing. */
  function OnLeftArrow(s: Session, auto: Autoscale): (r: Session)
    ensures s.tic.None? || StepPrev(s.tic.value.indices, s.current).None? ==> r == s
    ensures s.tic.Some? && StepPrev(s.tic.value.indices, s.current).Some? ==>
              r == s.(current := StepPrev(s.tic.value.indices, s.current).value,
                      ticView := auto.tic, specView := auto.spec)
    ensures Valid(s) ==> Valid(r)
  {
    if s.tic.Some? then
      match StepPrev(s.tic.value.indices, s.current)
      case None => s
      case Some(c) => Redrawn(s.(current := c), auto)
    else s
  }

  /** The right arrow: the same with the next MS1 spectrum. */
  function OnRightArrow(s: Session, auto: Autoscale): (r: Session)
    ensures s.tic.None? || StepNext(s.tic.value.indices, s.current).None? ==> r == s
    ensures s.tic.Some? && StepNext(s.tic.value.indices, s.current).Some? ==>
              r == s.(current := StepNext(s.tic.value.indices, s.current).value,
                      ticView := auto.tic, specView := auto.spec)
    ensures Valid(s) ==> Valid(r)
  {
    if s.tic.Some? then
      match StepNext(s.tic.value.indices, s.current)
      case None => s
      case Some(c) => Redrawn(s.(current := c), auto)
    else s
  }

  /** Right arrow then left arrow returns to the starting spectrum when the
      right arrow moved; every other part of the session is restored too,
      except the views, which the second redraw autoscaled. The same holds
      for left then right. */
  lemma ArrowsRoundTrip(s: Session, a: Autoscale, b: Autoscale)
    requires Valid(s)
    ensures s.tic.Some? && StepNext(s.tic.value.indices, s.current).Some? ==>
              OnLeftArrow(OnRightArrow(s, a), b) == Redrawn(s, b)
    ensures s.tic.Some? && StepPrev(s.tic.value.indices, s.current).Some? ==>
              OnRightArrow(OnLeftArrow(s, a), b) == Redrawn(s, b)
  {
    if s.tic.Some? {
      var ix := s.tic.value.indices;
      if StepNext(ix, s.current).Some? {
        PrevUndoesNext(ix, s.current);
      }
      if StepPrev(ix, s.current).Some? {
        NextUndoesPrev(ix, s.current);
      }
    }
  }

  /** The filtered points of the current spectrum, when it is stored and its
      arrays can be masked. */
  function CurrentPeaks(s: Session): (r: Option<Peaks>)
    ensures r.Some? <==> s.current in s.store && |s.store[s.current].mz| == |s.store[s.current].intensities|
    ensures r.Some? ==> r == FilterEntry(s.store[s.current])
  {
    if s.current in s.store then FilterEntry(s.store[s.current]) else None
  }

  /** The home view of the spectrum plot for the current spectrum, None
      when there is no filtered point to show. */
  function SpectrumHome(s: Session): (r: Option<Box>)
    ensures r.Some? <==> CurrentPeaks(s).Some? && |CurrentPeaks(s).value.mz| > 0
    ensures r.Some? ==>
      var p := CurrentPeaks(s).value;
      && r.value == HomeBox(p.mz, p.intensities, SpectrumPad, SpectrumHeadroom)
      && forall i :: 0 <= i < |p.mz| ==>
           r.value.x.lo <= p.mz[i] <= r.value.x.hi && r.value.y.lo < p.intensities[i] <= r.value.y.hi
  {
    match CurrentPeaks(s)
    case None => None
    case Some(p) =>
      if |p.mz| > 0 then
        HomeBoxContains(p.mz, p.intensities, SpectrumPad, SpectrumHeadroom);
        Some(HomeBox(p.mz, p.intensities, SpectrumPad, SpectrumHeadroom))
      else None
  }

  /** The "reset MS zoom" command: shows all filtered points of the current
      spectrum; nothing changes when there are none. */
  function ResetMassSpectrumZoom(s: Session): (r: Session)
    ensures r == s.(specView := r.specView)
    ensures SpectrumHome(s).Some? ==> r.specView == SpectrumHome(s).value
    ensures SpectrumHome(s).None? ==> r == s
  {
    match SpectrumHome(s)
    case Some(b) => s.(specView := b)
    case None => s
  }

  /** The "home" command: resets the TIC view to all TIC points, then the
      spectrum view as the reset MS zoom command does. An empty TIC intensity
      list stops the command before anything changes; a spectrum whose arrays
      cannot be masked stops it after the TIC view was reset. */
  function ResetAllPlots(s: Session): (r: Session)
    ensures r == s.(ticView := r.ticView, specView := r.specView)
    ensures s.tic.Some? && |s.tic.value.times| > 0 && |s.tic.value.intensities| > 0 ==>
              r.ticView == HomeBox(s.tic.value.times, s.tic.value.intensities, TicPad, TicHeadroom)
    ensures s.tic.None? || |s.tic.value.times| == 0 ==> r.ticView == s.ticView
    ensures Valid(s) ==> r == ResetMassSpectrumZoom(s.(ticView := r.ticView))
  {
    var s1 :=
      if s.tic.Some? && |s.tic.value.times| > 0 then
        if |s.tic.value.intensities| == 0 then None
        else Some(s.(ticView := HomeBox(s.tic.value.times, s.tic.value.intensities, TicPad, TicHeadroom)))
      else Some(s);
    match s1
    case None => s
    case Some(s1) => ResetMassSpectrumZoom(s1)
  }

  /** The redraw of the spectrum plot: once a file is loaded, the filtered
      points of the current spectrum and the positions, among them, of the
      most intense ones, which get an m/z label. */
  method SpectrumAnnotations(s: Session) returns (shown: Option<Peaks>, top: seq<nat>)
    ensures shown == if s.tic.None? then None else CurrentPeaks(s)
    ensures shown.None? ==> top == []
    ensures shown.Some? ==>
      var ints := shown.value.intensities;
      && |top| == (if |ints| < TopPeakCount then |ints| else TopPeakCount)
      && (forall i :: 0 <= i < |top| ==> top[i] < |ints|)
      && Distinct(top)
      && (forall i, u :: 0 <= i < |top| && 0 <= u < |ints| && u !in top ==> ints[u] <= ints[top[i]])
  {
    top := [];
    if s.tic.None? {
      shown := None;
    } else {
      shown := CurrentPeaks(s);
      if shown.Some? && |shown.value.intensities| > 0 {
        top := TopPeaks(shown.value.intensities);
      }
    }
  }
}
