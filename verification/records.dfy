/**
 The data model of the browser: a spectrum record as the mzML reader yields
 it, an entry of the spectrum store, and the TIC index (three parallel lists).
 */
module Records {
  import opened Wrappers

  /** The retention time (minutes) and the reported total ion current of one
      scan. The two are read together: either both reads succeed or the
      record is abandoned. */
  datatype Timing = Timing(rt: real, tic: real)

  /** One spectrum of the stream. `timing` is None when reading the scan time
      fails; `mz` and `intensities` are None when the reader has no array. */
  datatype RawSpectrum = RawSpectrum(
    msLevel: int,
    timing: Option<Timing>,
    mz: Option<seq<real>>,
    intensities: Option<seq<real>>)

  /** An entry of the spectrum store, keyed by its stream position `index`. */
  datatype Entry = Entry(rt: real, mz: seq<real>, intensities: seq<real>, index: nat)

  /** The published TIC data: times, total ion currents and stream positions
      of the MS1 spectra, as three parallel lists. */
  datatype TicIndex = TicIndex(times: seq<real>, intensities: seq<real>, indices: seq<nat>)

  /** A record that contributes a point to the TIC: an MS1 spectrum whose
      scan time could be read. */
  predicate IsTicRecord(r: RawSpectrum) {
    r.msLevel == 1 && r.timing.Some?
  }

  /** The store's gate: both arrays present and a non-empty m/z array (the
      intensity array's length is not looked at). */
  predicate HasPeaks(r: RawSpectrum) {
    r.mz.Some? && r.intensities.Some? && |r.mz.value| > 0
  }

  predicate StrictlyIncreasing(xs: seq<nat>) {
    forall i, j :: 0 <= i < j < |xs| ==> xs[i] < xs[j]
  }

  /** What every published TIC index satisfies: parallel lists of one
      length, at least one point, positions in stream order. */
  predicate WellFormed(t: TicIndex) {
    && |t.times| == |t.intensities| == |t.indices|
    && |t.indices| > 0
    && StrictlyIncreasing(t.indices)
  }
}
