/** Storm windows: `extract_timespan_above_nT_intensity` scans an hourly Dst
    series and reports each span that rises above a threshold and later falls
    below it; `read_timespan_CSV` adds each span's length in hours. */
module StormWindows {
  import opened Wrappers
  import opened Seqs
  import opened DataProcessor

  /** One (TIMESTAMP, nT) pair of the intensity series. */
  datatype Sample = Sample(timestamp: Instant, nT: real)

  /** One STARTTIME/ENDTIME record. */
  datatype Window = Window(start: Instant, end: Instant)

  /** The loop's state between samples: the start marker of the window being
      followed (the end marker is always reset by then), and the windows so far. */
  datatype ScanState = ScanState(open: Option<Instant>, windows: seq<Window>)

  const Closed := ScanState(None, [])

  /** One iteration: open on a value above the threshold while no window is
      open; otherwise close on a value below it while one is open, emitting
      the window and resetting both markers. */
  function Step(st: ScanState, x: Sample, threshold: real): (r: ScanState)
    ensures x.nT == threshold ==> r == st
    ensures r.open.None? && st.open.Some? <==> |r.windows| == |st.windows| + 1
  {
    if x.nT > threshold && st.open.None? then ScanState(Some(x.timestamp), st.windows)
    else if x.nT < threshold && st.open.Some? then ScanState(None, st.windows + [Window(st.open.value, x.timestamp)])
    else st
  }

  /** The state after feeding `s` to the loop starting from `st`. */
  function Run(st: ScanState, s: seq<Sample>, threshold: real): ScanState
    decreases |s|
  {
    if s == [] then st else Step(Run(st, s[..|s| - 1], threshold), s[|s| - 1], threshold)
  }

  /** The records the extractor returns for the whole series. */
  function Extract(s: seq<Sample>, threshold: real): seq<Window> {
    Run(Closed, s, threshold).windows
  }

  /** `extract_timespan_above_nT_intensity`. */
  method ExtractTimespanAboveIntensity(samples: seq<Sample>, threshold: real) returns (records: seq<Window>)
    ensures records == Extract(samples, threshold)
  {
    records := [];
    var stime: Option<Instant> := None;
    var etime: Option<Instant> := None;
    var i := 0;
    while i < |samples|
      invariant 0 <= i <= |samples|
      invariant etime == None
      invariant ScanState(stime, records) == Run(Closed, samples[..i], threshold)
    {
      var timestamp, nT := samples[i].timestamp, samples[i].nT;
      if nT > threshold && stime.None? {
        stime := Some(timestamp);
      } else if nT < threshold && stime.Some? && etime.None? {
        etime := Some(timestamp);
      }
      if stime.Some? && etime.Some? {
        records := records + [Window(stime.value, etime.value)];
        stime, etime := None, None;
      }
      PrefixStep(samples, i);
      i := i + 1;
    }
    assert samples[..i] == samples;
  }

  lemma {:induction false} RunConcat(st: ScanState, a: seq<Sample>, b: seq<Sample>, threshold: real)
    ensures Run(st, a + b, threshold) == Run(Run(st, a, threshold), b, threshold)
    decreases |b|
  {
    if b == [] {
      assert a + b == a;
    } else {
      var b' := b[..|b| - 1];
      assert (a + b)[..|a + b| - 1] == a + b';
      RunConcat(st, a, b', threshold);
    }
  }

  /** Values at or below the threshold do nothing while no window is open. */
  lemma {:induction false} IdleWhileClosed(st: ScanState, b: seq<Sample>, threshold: real)
    requires st.open.None?
    requires forall k :: 0 <= k < |b| ==> b[k].nT <= threshold
    ensures Run(st, b, threshold) == st
    decreases |b|
  {
    if b != [] {
      IdleWhileClosed(st, b[..|b| - 1], threshold);
    }
  }

  /** Values at or above the threshold do nothing while a window is open. */
  lemma {:induction false} HoldWhileOpen(st: ScanState, b: seq<Sample>, threshold: real)
    requires st.open.Some?
    requires forall k :: 0 <= k < |b| ==> b[k].nT >= threshold
    ensures Run(st, b, threshold) == st
    decreases |b|
  {
    if b != [] {
      HoldWhileOpen(st, b[..|b| - 1], threshold);
    }
  }

  /** From a closed state, a window opens at the first sample above the
      threshold and closes at the next sample below it, and is then emitted
      with both markers reset. */
  lemma OpenThenClose(st: ScanState, b: seq<Sample>, i: nat, j: nat, threshold: real)
    requires st.open.None?
    requires i < j < |b|
    requires forall k :: 0 <= k < i ==> b[k].nT <= threshold
    requires b[i].nT > threshold
    requires forall k :: i < k < j ==> b[k].nT >= threshold
    requires b[j].nT < threshold
    ensures Run(st, b[..j + 1], threshold) == ScanState(None, st.windows + [Window(b[i].timestamp, b[j].timestamp)])
  {
    var p1, p2 := b[..i], b[i + 1..j];
    assert b[..j + 1] == p1 + [b[i]] + p2 + [b[j]];
    RunConcat(st, p1 + [b[i]] + p2, [b[j]], threshold);
    RunConcat(st, p1 + [b[i]], p2, threshold);
    RunConcat(st, p1, [b[i]], threshold);
    IdleWhileClosed(st, p1, threshold);
    var openedSt := ScanState(Some(b[i].timestamp), st.windows);
    assert Run(st, p1 + [b[i]], threshold) == openedSt by {
      assert [b[i]][..0] == [];
    }
    assert Run(openedSt, p2, threshold) == openedSt by {
      assert forall k :: 0 <= k < |p2| ==> p2[k] == b[i + 1 + k];
      HoldWhileOpen(openedSt, p2, threshold);
    }
    assert [b[j]][..0] == [];
  }

  /** A sample exactly at the threshold causes no transition and no output. */
  lemma EqualSampleIsInert(a: seq<Sample>, x: Sample, b: seq<Sample>, threshold: real)
    requires x.nT == threshold
    ensures Run(Closed, a + [x] + b, threshold) == Run(Closed, a + b, threshold)
  {
    RunConcat(Closed, a + [x], b, threshold);
    RunConcat(Closed, a, [x], threshold);
    RunConcat(Closed, a, b, threshold);
    assert [x][..0] == [];
  }

  /** Each emitted window used up two samples, and an open window one more. */
  lemma {:induction false} CountBound(s: seq<Sample>, threshold: real)
    ensures 2 * |Run(Closed, s, threshold).windows| + (if Run(Closed, s, threshold).open.Some? then 1 else 0) <= |s|
    decreases |s|
  {
    if s != [] {
      CountBound(s[..|s| - 1], threshold);
    }
  }

  /** At most half as many windows as samples. */
  lemma ExtractCount(s: seq<Sample>, threshold: real)
    ensures |Extract(s, threshold)| <= |s| / 2
  {
    CountBound(s, threshold);
  }

  ghost predicate StrictlyIncreasing(s: seq<Sample>) {
    forall i, j :: 0 <= i < j < |s| ==> s[i].timestamp < s[j].timestamp
  }

  /** What holds of the loop state after a strictly increasing series `s`. */
  ghost predicate Ordered(s: seq<Sample>, st: ScanState) {
    var w := st.windows;
    (forall k :: 0 <= k < |w| ==> w[k].start < w[k].end)
    && (forall k, l :: 0 <= k < l < |w| ==> w[k].end < w[l].start)
    && (forall k :: 0 <= k < |w| ==> |s| > 0 && w[k].end <= s[|s| - 1].timestamp)
    && (st.open.Some? ==> |s| > 0 && st.open.value <= s[|s| - 1].timestamp)
    && (st.open.Some? ==> forall k :: 0 <= k < |w| ==> w[k].end < st.open.value)
  }

  /** Every sample strictly inside a window, and every sample after the start
      of the window still open, is at or above the threshold. */
  ghost predicate Sustained(s: seq<Sample>, st: ScanState, threshold: real) {
    (forall k, j :: 0 <= k < |st.windows| && 0 <= j < |s| && st.windows[k].start < s[j].timestamp < st.windows[k].end
       ==> s[j].nT >= threshold)
    && (st.open.Some? ==> forall j :: 0 <= j < |s| && st.open.value < s[j].timestamp ==> s[j].nT >= threshold)
  }

  lemma {:induction false} ExtractOrdered(s: seq<Sample>, threshold: real)
    requires StrictlyIncreasing(s)
    ensures Ordered(s, Run(Closed, s, threshold))
    decreases |s|
  {
    if s != [] {
      var p := s[..|s| - 1];
      var x := s[|s| - 1];
      ExtractOrdered(p, threshold);
      var st := Run(Closed, p, threshold);
      assert p != [] ==> p[|p| - 1].timestamp < x.timestamp;
      var r := Step(st, x, threshold);
      assert r == Run(Closed, s, threshold);
      if x.nT < threshold && st.open.Some? {
        assert r.windows == st.windows + [Window(st.open.value, x.timestamp)];
      }
    }
  }

  lemma {:induction false} ExtractSustained(s: seq<Sample>, threshold: real)
    requires StrictlyIncreasing(s)
    ensures Sustained(s, Run(Closed, s, threshold), threshold)
    decreases |s|
  {
    if s != [] {
      var p := s[..|s| - 1];
      var x := s[|s| - 1];
      ExtractSustained(p, threshold);
      ExtractOrdered(p, threshold);
      var st := Run(Closed, p, threshold);
      var r := Step(st, x, threshold);
      assert r == Run(Closed, s, threshold);
      assert forall j :: 0 <= j < |p| ==> s[j] == p[j];
      forall k, j | 0 <= k < |r.windows| && 0 <= j < |s| && r.windows[k].start < s[j].timestamp < r.windows[k].end
        ensures s[j].nT >= threshold
      {
        if j < |p| {
          assert s[j] == p[j];
        }
      }
    }
  }

  /** With strictly increasing timestamps the windows come out in order, each
      opening before it closes and closing before the next one opens. */
  lemma ExtractIsOrdered(s: seq<Sample>, threshold: real)
    requires StrictlyIncreasing(s)
    ensures forall k :: 0 <= k < |Extract(s, threshold)| ==> Extract(s, threshold)[k].start < Extract(s, threshold)[k].end
    ensures forall k, l :: 0 <= k < l < |Extract(s, threshold)| ==> Extract(s, threshold)[k].end < Extract(s, threshold)[l].start
  {
    ExtractOrdered(s, threshold);
  }

  /** With strictly increasing timestamps, no sample strictly inside an emitted
      window is below the threshold. */
  lemma ExtractIsSustained(s: seq<Sample>, threshold: real, k: int, j: int)
    requires StrictlyIncreasing(s)
    requires 0 <= k < |Extract(s, threshold)| && 0 <= j < |s|
    requires Extract(s, threshold)[k].start < s[j].timestamp < Extract(s, threshold)[k].end
    ensures s[j].nT >= threshold
  {
    ExtractSustained(s, threshold);
  }

  /** A window still open when the samples run out is not among the records. */
  lemma TrailingWindowDropped(s: seq<Sample>, threshold: real)
    requires StrictlyIncreasing(s)
    requires Run(Closed, s, threshold).open.Some?
    ensures forall k :: 0 <= k < |Extract(s, threshold)| ==> Extract(s, threshold)[k].start != Run(Closed, s, threshold).open.value
  {
    ExtractOrdered(s, threshold);
  }

  /** `read_timespan_CSV`'s DURATION_HOURS column. */
  function DurationHours(w: Window): (h: real)
    ensures h > 0.0 <==> w.start < w.end
  {
    (w.end - w.start) as real / SecondsPerHour as real
  }

  /** Every extracted window of a strictly increasing series has a positive duration. */
  lemma ExtractedDurationsPositive(s: seq<Sample>, threshold: real)
    requires StrictlyIncreasing(s)
    ensures forall k :: 0 <= k < |Extract(s, threshold)| ==> DurationHours(Extract(s, threshold)[k]) > 0.0
  {
    ExtractIsOrdered(s, threshold);
  }
}
