# mzML browser core, modelled in Dafny

The mzML browser shows a run's Total Ion Chromatogram (TIC) over retention
time and, below it, the mass spectrum of one selected MS1 scan. Almost all of
`mzml_browser.py` is Tk/matplotlib glue. This project models the small
sequential algorithms inside its handlers as pure functions over immutable
data:

- **Index builder** (`load_mzml_file`). One pass over the stream of spectrum
  records. It collects the three parallel TIC lists (times, total ion
  currents, stream positions) of the MS1 records. It fills the spectrum store
  (`spectra_data`), a map from stream position to entry. The loop is the left
  fold `IndexBuilder.Run`.
- **Navigation**. A TIC click selects the first nearest time (`np.argmin`).
  The arrow keys step one place through the TIC positions (`list.index`, clamped).
- **Spectrum view**. A mask keeps the points with intensity > 0. The ten most
  intense of them are labelled (`argsort[-10:]`). The reset commands compute
  padded "home" views: 5 % and ×1.1 for the spectrum, 2 % and ×1.05 for the TIC.
- **Drag zoom and scroll zoom** on the spectrum plot.
- **Session** (`Browser.Session`). It holds everything one window keeps:
  file, TIC index, store, current spectrum, drag state and both views. Each
  handler is a function from session to session. `Browser.Valid` is the
  invariant that loads, clicks and arrow keys preserve: a published TIC index
  is well formed and the current spectrum is one of its MS1 spectra.

Files: `wrappers.dfy` (Option), `records.dfy` (data model), `index_builder.dfy`,
`navigation.dfy`, `peaks.dfy`, `viewport.dfy`, `events.dfy`, `drag_zoom.dfy`,
`browser.dfy`.

Modelling choices:

- Floats are `real`. Python exceptions raised inside a handler (an empty
  `argmin`, a numpy mask of the wrong length, `list.index` of a missing value,
  `max()` of an empty array) abort the handler. The model keeps whatever the
  handler had already changed and nothing after that.
- `update_plots` clears both axes and plots the data again, so matplotlib
  autoscales both views. The handlers that call it (a successful load, a TIC
  click, an arrow step that moves) take the resulting limits as a parameter
  (`Browser.Autoscale`) and set both views to them.
- A raw record (`Records.RawSpectrum`) has `ms_level`, `timing` and the two
  arrays. `timing` (the scan time and the TIC value) is an `Option`: None
  means reading the scan time raised, which skips the whole record.
  **Assumption:** the scan-time read (line 249) and the TIC read (line 251)
  succeed or fail together. If only the TIC read failed, the code would leave
  `tic_times` one entry longer than `tic_intensities`. The model does not
  represent that case.
- The quirks of the code are modelled as written:
  - `rt` is assigned only in the MS1 branch. A stored non-MS1 record takes the
    time of the last earlier MS1 record with a readable scan time
    (`IndexBuilder.InheritedRt`). A non-MS1 record with peaks that comes
    before any such record raises an unbound-name error and is skipped.
  - Only `len(mz)` is checked before storing. The intensity array may have any
    length; filtering such an entry later fails.
  - The store is never cleared. Entries from earlier loads stay, and new ones
    overwrite by key.

Behaviour of the code that the model keeps:

- A load merges the new entries into the previous store. It does not start a
  fresh one.
- An MS1 record with an empty m/z array is a TIC point and can become current,
  but it is not in the store (`Browser.TicPointWithoutStoreEntry`). So not
  every TIC position has a store entry.
- An empty intensity array does not keep a record out of the store.
- When all m/z values are equal, the reset command passes equal lower and
  upper limits to `set_xlim`. The model's view then has zero width;
  matplotlib would widen it.
- A press while a drag is active restarts the drag. Its old end point is kept
  until the next move (`DragZoom.PressReleaseUsesStaleEnd`). A release outside
  the plot leaves the drag active.
- The loading window's Cancel button only hides that window. The loop runs on
  to the end of the stream.
- The failing load assigns the store before it raises. Under the assumption
  above, though, a stream with no readable MS1 record adds no store entry
  either: every non-MS1 record hits the unbound `rt`. So a failed load leaves
  the whole session unchanged (`Browser.FailedLoadKeepsSession`).

## Model

| member | source | states |
|---|---|---|
| IndexBuilder.StoreRecord | mzml_browser.py:256-266 | A record without both arrays or with an empty m/z array leaves the state alone. Otherwise the store gains its key, with an entry of its own position, arrays and the given time, and keeps every other entry. |
| IndexBuilder.Process | mzml_browser.py:247-266 | One loop step: a readable MS1 record appends its time, TIC and position and binds `rt`; no other record touches the TIC lists or `rt`. A record enters the store exactly when it passes the gate and a time is available (its own, or the bound `rt`). No other entry changes. |
| IndexBuilder.Run | mzml_browser.py:239-269 | The loop over a stream prefix: the TIC lists have equal length, at most one point per record, and no earlier store key is lost. Its full meaning is given by `RunTicIndex`, `RunRt` and `RunStore`. |
| IndexBuilder.RunTicIndex | mzml_browser.py:239-252 | After any prefix of the stream, the three TIC lists have equal length. The positions are strictly increasing and are exactly the MS1 records whose scan time was read. Each point carries that record's own time and TIC. |
| IndexBuilder.LastTic | mzml_browser.py:247-249 | Names the MS1 record whose scan time `rt` would hold before a given stream position: when it returns a position, that record has a readable time and no later record before the position does. When it returns nothing, no earlier record is an MS1 record with a readable time. |
| IndexBuilder.RunRt | mzml_browser.py:247-249 | The `rt` variable is bound exactly when some earlier MS1 scan time was read. It then holds the time of the last such record. |
| IndexBuilder.RunStore | mzml_browser.py:254-269 | The store keys are the earlier keys plus the positions of records that pass the gate (both arrays present, m/z non-empty) and have a time available. A new entry carries its own position, its arrays and its own or inherited time. Other earlier entries are untouched. |
| IndexBuilder.Build | mzml_browser.py:228-269 | The whole builder pass: the TIC lists hold exactly the readable MS1 records in stream order, and the store merges new entries over the earlier store by key, whatever their MS level. |
| IndexBuilder.EmptyTicIffNoMs1 | mzml_browser.py:271-272 | The builder finds no TIC point exactly when no record of the stream is an MS1 record with a readable scan time. |
| Browser.Load | mzml_browser.py:271-284 | The load fails with "no MS1 spectra" exactly when the stream has no readable MS1 record; that failure publishes no TIC data and keeps the current spectrum, file and views. Otherwise the lists are published, the file recorded, the entry at position len/2 (integer division) selected and both views handed to autoscaling. The load is then still reported as failed exactly when the redraw raises, that is when the selected spectrum is stored with arrays of different lengths (line 320). Every outcome keeps the session invariant. |
| Browser.LoadPublishes | mzml_browser.py:239-281 | After a load that found MS1 spectra (whether or not the redraw then raised) the published index is well formed and lists exactly the readable MS1 records with their times. The store holds exactly the earlier keys plus the stored records. |
| Browser.FailedLoadKeepsSession | mzml_browser.py:247-272 | A load that raises for lack of MS1 spectra leaves the whole session unchanged, store included. |
| Browser.TicPointWithoutStoreEntry | mzml_browser.py:247-266 | An MS1 record with an empty m/z array becomes the current spectrum but gets no store entry. |
| Browser.RedrawFailureExample | mzml_browser.py:256-284 | An MS1 spectrum with two m/z values and one intensity is stored, published and selected, and the redraw then fails the load. |
| Navigation.NearestPosition | mzml_browser.py:350 | The selected position minimises the distance to the clicked time. Every earlier position is strictly farther away, so ties go to the lowest position. |
| Browser.NearestUnique | mzml_browser.py:350 | Only one position satisfies that first-nearest property, so the selection is determined. |
| Browser.OnClick | mzml_browser.py:344-363 | A TIC click with a time makes `indices[p]` current, for the first-nearest `p`, and the redraw hands both views to autoscaling. Without a loaded file or a time it does nothing. A click on the spectrum plot is a drag press. The session invariant is kept. |
| Navigation.IndexOf | mzml_browser.py:488 | Returns the first position holding the value, or nothing exactly when the value is absent (where `list.index` raises). |
| Navigation.StepPrev | mzml_browser.py:485-490 | Gives the MS1 spectrum exactly one position back in the TIC positions. It gives nothing at position 0, with fewer than two entries, or when the value is unlisted. A step always lands on a listed spectrum. |
| Navigation.StepNext | mzml_browser.py:497-502 | Gives the MS1 spectrum exactly one position forward. It gives nothing at the last position, with fewer than two entries, or when the value is unlisted. A step always lands on a listed spectrum. |
| Navigation.PrevUndoesNext | mzml_browser.py:485-507 | On strictly increasing positions, a next step that moved is undone by a prev step. |
| Navigation.NextUndoesPrev | mzml_browser.py:485-507 | On strictly increasing positions, a prev step that moved is undone by a next step. |
| Browser.OnLeftArrow | mzml_browser.py:485-491 | With a file loaded and a previous MS1 spectrum, the left arrow selects it and the redraw hands both views to autoscaling. Otherwise nothing changes. It keeps the session invariant. |
| Browser.OnRightArrow | mzml_browser.py:497-503 | With a file loaded and a next MS1 spectrum, the right arrow selects it and the redraw hands both views to autoscaling. Otherwise nothing changes. It keeps the session invariant. |
| Browser.ArrowsRoundTrip | mzml_browser.py:485-507 | Right then left, or left then right, returns to the starting spectrum when the first key moved. Every other field is restored too, except the two views, which hold the second redraw's autoscaled limits. |
| Peaks.PositivePositions | mzml_browser.py:319 | The mask's kept positions are strictly increasing and are exactly the positions with intensity > 0. |
| Peaks.KeepPositive | mzml_browser.py:318-321 | The masked arrays have equal length, no longer than the input, and every kept intensity is positive. |
| Peaks.KeepPositiveSelects | mzml_browser.py:318-321 | The masked arrays are exactly the (m/z, intensity) pairs at the positive positions, in their original order. |
| Peaks.FilterEntry | mzml_browser.py:318-321 | Masking a stored spectrum fails exactly when its two arrays differ in length. Otherwise it gives exactly the (m/z, intensity) pairs at the positive-intensity positions, in their original order. |
| Peaks.TopPeaks | mzml_browser.py:330-331 | Selects min(10, n) distinct positions. Every selected intensity is at least every unselected one. The selection is in increasing order of intensity, as the tail of an ascending argsort is. |
| Browser.SpectrumAnnotations | mzml_browser.py:290-338 | With a file loaded, the drawn points are the current spectrum's masked points and the labels go to its top peaks. Without a file nothing is drawn. |
| Viewport.Padded | mzml_browser.py:439-440 | The padded range contains the data range and is padded equally on both sides. Its width is the data width times 1 + 2·pad, so each side gains pad times the data width. It is degenerate exactly when the data range is. |
| Viewport.HomeBox | mzml_browser.py:434-441 | The home view's x range is the data's least-to-greatest range, padded. It contains every x and is degenerate exactly when all x are equal. The y range runs from 0 to headroom times the greatest y. |
| Viewport.HomeBoxContains | mzml_browser.py:434-441 | With non-negative heights and headroom of at least 1, every point lies inside its home view. |
| Browser.CurrentPeaks | mzml_browser.py:424-432 | The current spectrum's masked points exist exactly when it is stored and its arrays have equal length. |
| Browser.SpectrumHome | mzml_browser.py:434-441 | The spectrum home view exists exactly when there is a masked point. It contains every masked point, strictly above the x axis. |
| Browser.ResetMassSpectrumZoom | mzml_browser.py:422-444 | Only the spectrum view changes, to the home view of the current spectrum. With no point to show nothing changes. |
| Browser.ResetAllPlots | mzml_browser.py:446-483 | The TIC view becomes the home view of the TIC points (2 %, ×1.05), and then the spectrum view is reset as above. The command changes no other part of the session. |
| Viewport.ZoomAbout | mzml_browser.py:385-393 | Zooming by a factor scales the width by it. The anchor keeps its relative place: its distances to both ends scale by the factor. |
| Viewport.ScrollFactor | mzml_browser.py:378-383 | One notch up zooms in by the inverse of 1.1. One notch down zooms out by 1.1. |
| Viewport.ScrollRoundTrip | mzml_browser.py:378-393 | A notch and the opposite notch about the same anchor restore the limits exactly. |
| Browser.OnScroll | mzml_browser.py:365-396 | Over the spectrum plot, with the current spectrum stored and a pointer position, both axes zoom about the pointer by one notch. Otherwise nothing changes, whatever the view. Only the spectrum view ever changes. |
| Browser.ScrollBackRestores | mzml_browser.py:365-396 | Scrolling one notch and then the opposite notch at the same position restores the session. A zoomed view stays non-degenerate, so the second scroll is always possible. |
| DragZoom.Span | mzml_browser.py:411-414 | The zoom rectangle is non-inverted, and its x and y bounds are exactly the two points' coordinates. |
| DragZoom.Press | mzml_browser.py:358-363 | A left press over the spectrum plot starts a selection at the pressed point and keeps the old end point. Any other press changes nothing. |
| DragZoom.Move | mzml_browser.py:398-401 | During a drag, a move over the spectrum plot records the end point. A move elsewhere, or outside a drag, leaves the end point alone. |
| DragZoom.Release | mzml_browser.py:404-420 | A left release over the plot during a drag returns to idle. It zooms to the rectangle of start and end when all four coordinates are known. A release elsewhere, or with another button, changes nothing. |
| DragZoom.SpanSymmetric | mzml_browser.py:413-414 | The zoom rectangle does not depend on drag direction. |
| DragZoom.PressMoveReleaseZooms | mzml_browser.py:358-420 | Press at a, move to b, release over the plot: the view becomes min/max of a and b per axis, and the selection is idle again. |
| DragZoom.DragExample | mzml_browser.py:358-420 | A drag from (100, 50) to (400, 10) shows m/z 100..400 and intensity 10..50. |
| DragZoom.PressReleaseUsesStaleEnd | mzml_browser.py:358-414 | A press followed at once by a release zooms to the end point of an earlier drag that never finished. |
| Browser.OnMouseMove | mzml_browser.py:398-401 | A move changes only the drag state, as `DragZoom.Move` does. |
| Browser.OnMouseRelease | mzml_browser.py:404-420 | A release changes only the drag state and the spectrum view, as `DragZoom.Release` does. |
| Browser.InitialValid | mzml_browser.py:28-32 | A fresh session has no TIC index and satisfies the session invariant. |

## Left out

- Reading the file (pymzml). The stream is given as a sequence of records.
  Reads of `ms_level`, `mz` and `i` are taken never to raise. For the scan-time
  and TIC reads, only a joint failure is modelled (see the assumption above).
- The counting pass (lines 233-234), the progress label (242-245), the loading
  window and its Cancel button (154-202), and `open_file`'s dialog and error box.
- All drawing: `update_plots` clearing and autoscaling the axes, the red marker
  line, label text and the `.2f` formatting, status-bar text, menus, and
  `initialize_empty_plots` beyond its initial limits. The limits autoscaling
  picks after `update_plots` clears the axes (after a load, a TIC click or an
  arrow step) come from matplotlib. They are a parameter of those handlers
  (`Browser.Autoscale`). The status
  message after an arrow step (lines 494, 506) is not modelled either; it
  raises a `KeyError` when the new current MS1 spectrum is not stored.
- The warning printed for a record whose processing raised (line 268). The
  record is skipped as modelled; the console text is not.
- Floating point. `real` replaces numpy floats, so there is no NaN,
  infinity or rounding. A midpoint click is an exact tie here and goes to the
  lower position.
- Peaks.TopPeaks: the argsort's order among equal intensities is left open.
  Because numpy's default sort is not stable, only the set-level property is
  stated; the model resolves ties in its own way.
- Browser.OnScroll: when the scroll reaches the zoom, requires the current
  view to have nonzero width and height, because lines 389-390 divide by
  them. matplotlib widens equal limits, but the model's reset and drag can
  produce them, and zooming such a view is not modelled. Scrolls that return
  before the division are modelled for every view.
- `tools/test_installation.py` only checks imports and has no logic to model.
