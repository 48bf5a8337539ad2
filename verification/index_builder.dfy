/**
 The index builder: one pass over the spectrum stream that collects the TIC
 points of the MS1 spectra and fills the spectrum store. The loop is modelled
 as a left fold over the stream: `Run(prior, recs, n)` is the builder's state
 after the first `n` records, starting from the store `prior` left over from
 earlier loads (the store is never cleared).
 */
module IndexBuilder {
  import opened Wrappers
  import opened Records

  /** The loop's variables: the three TIC lists, the store, and the
      retention-time variable `rt`, which is None until the first MS1 scan
      time has been read. */
  datatype BuildState = BuildState(
    times: seq<real>,
    intensities: seq<real>,
    indices: seq<nat>,
    store: map<nat, Entry>,
    rt: Option<real>)

  /** Stores record `r` at key `i` under retention time `rt` if it passes the
      store's gate. */
  function StoreRecord(st: BuildState, r: RawSpectrum, i: nat, rt: real): (s2: BuildState)
    ensures !HasPeaks(r) ==> s2 == st
    ensures HasPeaks(r) ==>
              && s2 == st.(store := s2.store)
              && s2.store.Keys == st.store.Keys + {i}
              && s2.store[i] == Entry(rt, r.mz.value, r.intensities.value, i)
              && forall k :: k in st.store && k != i ==> s2.store[k] == st.store[k]
  {
    if HasPeaks(r) then
      st.(store := st.store[i := Entry(rt, r.mz.value, r.intensities.value, i)])
    else
      st
  }

  /** The body of the loop for the record at stream position `i`. A failing
      scan-time read, or a stored non-MS1 record met while `rt` is still
      unbound, abandons the record and leaves the state as it was. */
  function Process(st: BuildState, r: RawSpectrum, i: nat): (s2: BuildState)
    ensures IsTicRecord(r) ==>
              && s2.times == st.times + [r.timing.value.rt]
              && s2.intensities == st.intensities + [r.timing.value.tic]
              && s2.indices == st.indices + [i]
              && s2.rt == Some(r.timing.value.rt)
    ensures !IsTicRecord(r) ==>
              s2.times == st.times && s2.intensities == st.intensities && s2.indices == st.indices && s2.rt == st.rt
    ensures HasPeaks(r) && (if r.msLevel == 1 then r.timing.Some? else st.rt.Some?) ==>
              && s2.store.Keys == st.store.Keys + {i}
              && s2.store[i].rt == (if r.msLevel == 1 then r.timing.value.rt else st.rt.value)
              && s2.store[i].index == i
              && Some(s2.store[i].mz) == r.mz && Some(s2.store[i].intensities) == r.intensities
              && forall k :: k in st.store && k != i ==> s2.store[k] == st.store[k]
    ensures !(HasPeaks(r) && (if r.msLevel == 1 then r.timing.Some? else st.rt.Some?)) ==> s2.store == st.store
  {
    if r.msLevel == 1 then
      match r.timing
      case None => st
      case Some(tm) =>
        var withPoint := st.(times := st.times + [tm.rt],
                             intensities := st.intensities + [tm.tic],
                             indices := st.indices + [i],
                             rt := Some(tm.rt));
        StoreRecord(withPoint, r, i, tm.rt)
    else if HasPeaks(r) then
      match st.rt
      case None => st
      case Some(rt) => StoreRecord(st, r, i, rt)
    else
      st
  }

  /** The state after the first `n` records of the stream. */
  function Run(prior: map<nat, Entry>, recs: seq<RawSpectrum>, n: nat): (st: BuildState)
    requires n <= |recs|
    ensures |st.times| == |st.intensities| == |st.indices| <= n
    ensures prior.Keys <= st.store.Keys
  {
    if n == 0 then BuildState([], [], [], prior, None)
    else Process(Run(prior, recs, n - 1), recs[n - 1], n - 1)
  }

  /** Record `j` is the last TIC record before position `k`. */
  ghost predicate LastTicBefore(recs: seq<RawSpectrum>, j: int, k: nat)
    requires k <= |recs|
  {
    && 0 <= j < k
    && IsTicRecord(recs[j])
    && forall m :: j < m < k ==> !IsTicRecord(recs[m])
  }

  /** The position of the last TIC record before position `k`, if any. */
  function LastTic(recs: seq<RawSpectrum>, k: nat): (r: Option<nat>)
    requires k <= |recs|
    ensures r.Some? ==> LastTicBefore(recs, r.value, k)
    ensures r.None? ==> forall j :: 0 <= j < k ==> !IsTicRecord(recs[j])
  {
    if k == 0 then None
    else if IsTicRecord(recs[k - 1]) then Some(k - 1)
    else LastTic(recs, k - 1)
  }

  /** Record `k` ends up in the store: it passes the gate, and a retention
      time is available for it — its own for MS1, an earlier MS1 one
      otherwise. */
  ghost predicate Stored(recs: seq<RawSpectrum>, k: nat)
    requires k < |recs|
  {
    && HasPeaks(recs[k])
    && (if recs[k].msLevel == 1 then recs[k].timing.Some? else LastTic(recs, k).Some?)
  }

  /** `rt` is the retention time the store records for record `k`: its own
      for an MS1 record, that of the last preceding TIC record otherwise. */
  ghost predicate InheritedRt(recs: seq<RawSpectrum>, k: nat, rt: real)
    requires k < |recs|
  {
    if recs[k].msLevel == 1 then
      recs[k].timing.Some? && rt == recs[k].timing.value.rt
    else
      LastTic(recs, k).Some? && rt == recs[LastTic(recs, k).value].timing.value.rt
  }

  /** The TIC lists `st` holds after the first `n` records: equal lengths,
      positions strictly increasing, and exactly the TIC records among the
      first `n`, each with its own time and total ion current. */
  ghost predicate TicLists(recs: seq<RawSpectrum>, n: nat, st: BuildState)
    requires n <= |recs|
  {
    && |st.times| == |st.intensities| == |st.indices|
    && StrictlyIncreasing(st.indices)
    && (forall p :: 0 <= p < |st.indices| ==>
          && st.indices[p] < n
          && IsTicRecord(recs[st.indices[p]])
          && st.times[p] == recs[st.indices[p]].timing.value.rt
          && st.intensities[p] == recs[st.indices[p]].timing.value.tic)
    && (forall k :: 0 <= k < n && IsTicRecord(recs[k]) ==> k in st.indices)
  }

  /** The retention-time variable after the first `n` records: bound
      exactly when a TIC record has been seen, and then the last one's
      time. */
  ghost predicate RtVariable(recs: seq<RawSpectrum>, n: nat, st: BuildState)
    requires n <= |recs|
  {
    && (st.rt.Some? <==> LastTic(recs, n).Some?)
    && (st.rt.Some? ==> st.rt.value == recs[LastTic(recs, n).value].timing.value.rt)
  }

  /** The store after the first `n` records, started from `prior`: its keys
      are the earlier keys plus the positions of the stored records; a
      stored record's entry carries its own position, arrays and inherited
      retention time; every other earlier entry is untouched. */
  ghost predicate StoreContents(prior: map<nat, Entry>, recs: seq<RawSpectrum>, n: nat, st: BuildState)
    requires n <= |recs|
  {
    && (forall k: nat :: k in st.store <==> (k < n && Stored(recs, k)) || k in prior)
    && (forall k: nat :: k < n && Stored(recs, k) ==>
          && k in st.store
          && st.store[k].index == k
          && Some(st.store[k].mz) == recs[k].mz
          && Some(st.store[k].intensities) == recs[k].intensities
          && InheritedRt(recs, k, st.store[k].rt))
    && (forall k: nat :: k in prior && !(k < n && Stored(recs, k)) ==> st.store[k] == prior[k])
  }

  /** Processing record `n` keeps the TIC lists' picture. */
  lemma TicListsStep(recs: seq<RawSpectrum>, n: nat, st0: BuildState, st: BuildState)
    requires n < |recs|
    requires TicLists(recs, n, st0)
    requires st == Process(st0, recs[n], n)
    ensures TicLists(recs, n + 1, st)
  {
    if IsTicRecord(recs[n]) {
      assert st.times == st0.times + [recs[n].timing.value.rt];
      assert st.intensities == st0.intensities + [recs[n].timing.value.tic];
      assert st.indices == st0.indices + [n];
    } else {
      assert st.times == st0.times && st.intensities == st0.intensities && st.indices == st0.indices;
    }
  }

  /** Processing record `n` keeps the retention-time variable's picture. */
  lemma RtVariableStep(recs: seq<RawSpectrum>, n: nat, st0: BuildState, st: BuildState)
    requires n < |recs|
    requires RtVariable(recs, n, st0)
    requires st == Process(st0, recs[n], n)
    ensures RtVariable(recs, n + 1, st)
  {
    if IsTicRecord(recs[n]) {
      assert st.rt == Some(recs[n].timing.value.rt);
    } else {
      assert st.rt == st0.rt;
      assert LastTic(recs, n + 1) == LastTic(recs, n);
    }
  }

  /** Record `n`'s effect on the store: when it is stored, the store gains
      key `n` with its own position, arrays and inherited time; otherwise
      the store stays as it was. */
  lemma ProcessStore(recs: seq<RawSpectrum>, n: nat, st0: BuildState)
    requires n < |recs|
    requires RtVariable(recs, n, st0)
    ensures var st := Process(st0, recs[n], n);
      if Stored(recs, n) then
        && st.store.Keys == st0.store.Keys + {n}
        && st.store[n].index == n
        && Some(st.store[n].mz) == recs[n].mz
        && Some(st.store[n].intensities) == recs[n].intensities
        && InheritedRt(recs, n, st.store[n].rt)
        && forall k :: k in st0.store && k != n ==> st.store[k] == st0.store[k]
      else
        st.store == st0.store
  {
    var r := recs[n];
    if Stored(recs, n) {
      var rt := if r.msLevel == 1 then r.timing.value.rt else st0.rt.value;
      assert Process(st0, r, n).store == st0.store[n := Entry(rt, r.mz.value, r.intensities.value, n)];
      assert InheritedRt(recs, n, rt);
    }
  }

  /** Processing record `n` keeps the store's picture. */
  lemma StoreContentsStep(prior: map<nat, Entry>, recs: seq<RawSpectrum>, n: nat, st0: BuildState, st: BuildState)
    requires n < |recs|
    requires RtVariable(recs, n, st0)
    requires StoreContents(prior, recs, n, st0)
    requires st == Process(st0, recs[n], n)
    ensures StoreContents(prior, recs, n + 1, st)
  {
    ProcessStore(recs, n, st0);
    forall k: nat
      ensures k in st.store <==> (k < n + 1 && Stored(recs, k)) || k in prior
    {
      if k != n {
        assert k in st.store <==> k in st0.store;
      }
    }
    forall k: nat | k < n + 1 && Stored(recs, k)
      ensures k in st.store && st.store[k].index == k
      ensures Some(st.store[k].mz) == recs[k].mz && Some(st.store[k].intensities) == recs[k].intensities
      ensures InheritedRt(recs, k, st.store[k].rt)
    {
      if k != n {
        assert st.store[k] == st0.store[k];
      }
    }
    forall k: nat | k in prior && !(k < n + 1 && Stored(recs, k))
      ensures st.store[k] == prior[k]
    {
      assert k != n || !Stored(recs, n);
      assert st.store[k] == st0.store[k];
    }
  }

  /** The TIC lists after any prefix of the stream. */
  lemma {:induction false} RunTicIndex(prior: map<nat, Entry>, recs: seq<RawSpectrum>, n: nat)
    requires n <= |recs|
    ensures TicLists(recs, n, Run(prior, recs, n))
  {
    if n > 0 {
      RunTicIndex(prior, recs, n - 1);
      TicListsStep(recs, n - 1, Run(prior, recs, n - 1), Run(prior, recs, n));
    }
  }

  /** The retention-time variable after any prefix of the stream. */
  lemma {:induction false} RunRt(prior: map<nat, Entry>, recs: seq<RawSpectrum>, n: nat)
    requires n <= |recs|
    ensures RtVariable(recs, n, Run(prior, recs, n))
  {
    if n > 0 {
      RunRt(prior, recs, n - 1);
      RtVariableStep(recs, n - 1, Run(prior, recs, n - 1), Run(prior, recs, n));
    }
  }

  /** The store after any prefix of the stream. */
  lemma {:induction false} RunStore(prior: map<nat, Entry>, recs: seq<RawSpectrum>, n: nat)
    requires n <= |recs|
    ensures StoreContents(prior, recs, n, Run(prior, recs, n))
  {
    if n > 0 {
      RunRt(prior, recs, n - 1);
      RunStore(prior, recs, n - 1);
      StoreContentsStep(prior, recs, n - 1, Run(prior, recs, n - 1), Run(prior, recs, n));
    }
  }

  /** The builder over a whole stream. */
  function Build(prior: map<nat, Entry>, recs: seq<RawSpectrum>): (st: BuildState)
    ensures |st.times| == |st.intensities| == |st.indices|
    ensures StrictlyIncreasing(st.indices)
    ensures forall k: nat :: k in st.indices <==> k < |recs| && IsTicRecord(recs[k])
    ensures forall p :: 0 <= p < |st.indices| ==>
              && st.indices[p] < |recs|
              && IsTicRecord(recs[st.indices[p]])
              && st.times[p] == recs[st.indices[p]].timing.value.rt
              && st.intensities[p] == recs[st.indices[p]].timing.value.tic
    ensures forall k: nat :: k in st.store <==> (k < |recs| && Stored(recs, k)) || k in prior
    ensures forall k: nat :: k < |recs| && Stored(recs, k) ==>
              && k in st.store
              && st.store[k].index == k
              && Some(st.store[k].mz) == recs[k].mz
              && Some(st.store[k].intensities) == recs[k].intensities
              && InheritedRt(recs, k, st.store[k].rt)
    ensures forall k: nat :: k in prior && !(k < |recs| && Stored(recs, k)) ==> st.store[k] == prior[k]
  {
    RunTicIndex(prior, recs, |recs|);
    RunStore(prior, recs, |recs|);
    Run(prior, recs, |recs|)
  }

  /** The builder finds no MS1 point exactly when no record of the stream is
      a TIC record. */
  lemma EmptyTicIffNoMs1(prior: map<nat, Entry>, recs: seq<RawSpectrum>)
    ensures |Build(prior, recs).indices| == 0 <==> forall k :: 0 <= k < |recs| ==> !IsTicRecord(recs[k])
  {
    var st := Build(prior, recs);
    if |st.indices| > 0 {
      assert st.indices[0] in st.indices;
    }
  }
}
