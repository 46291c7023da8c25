/** The drag insight of one day of Starlink TLEs: the TLEs are split by the
    sign of their drag term, the three counts are logged to one file and
    the statistics of the positive drags to another. */
module DragAnomaly {
  import opened Wrappers
  import opened Seqs
  import opened Stats
  import opened DataProcessor
  import opened Records
  import opened Io

  /** `df[df[TLE.DRAG] > 0]`, `< 0` and `== 0`. */
  function Positive(rows: seq<Tle>): (r: seq<Tle>)
    ensures forall t :: t in r <==> t in rows && t.drag > 0.0
  {
    Filter(rows, (t: Tle) => t.drag > 0.0)
  }

  function Negative(rows: seq<Tle>): (r: seq<Tle>)
    ensures forall t :: t in r <==> t in rows && t.drag < 0.0
  {
    Filter(rows, (t: Tle) => t.drag < 0.0)
  }

  function Zero(rows: seq<Tle>): (r: seq<Tle>)
    ensures forall t :: t in r <==> t in rows && t.drag == 0.0
  {
    Filter(rows, (t: Tle) => t.drag == 0.0)
  }

  /** Every TLE has exactly one sign, so the three counts add up to the
      number of TLEs. */
  lemma {:induction false} PartitionCounts(rows: seq<Tle>)
    ensures |Positive(rows)| + |Negative(rows)| + |Zero(rows)| == |rows|
  {
    if rows != [] {
      PartitionCounts(rows[1..]);
    }
  }

  /** The drag observation record: the day, then the number of TLEs and of
      positive, negative and zero drags. */
  function DragObservation(day: Instant, rows: seq<Tle>): Record {
    [("DAY", TimeCell(day)), ("TOTAL_TLE", IntCell(|rows|)),
     ("POSITIVE_DRAG", IntCell(|Positive(rows)|)), ("NEGATIVE_DRAG", IntCell(|Negative(rows)|)),
     ("ZERO_DRAG", IntCell(|Zero(rows)|))]
  }

  /** The observation record holds the number of TLEs and the three sign
      counts, which add up to it. */
  lemma ObservationAddsUp(day: Instant, rows: seq<Tle>)
    ensures var r := DragObservation(day, rows);
            Get(r, "TOTAL_TLE") == Some(IntCell(|rows|))
            && Get(r, "POSITIVE_DRAG") == Some(IntCell(|Positive(rows)|))
            && Get(r, "NEGATIVE_DRAG") == Some(IntCell(|Negative(rows)|))
            && Get(r, "ZERO_DRAG") == Some(IntCell(|Zero(rows)|))
    ensures |Positive(rows)| + |Negative(rows)| + |Zero(rows)| == |rows|
  {
    var r := DragObservation(day, rows);
    assert "DAY"[0] == 'D' && "TOTAL_TLE"[0] == 'T' && "POSITIVE_DRAG"[0] == 'P';
    assert "NEGATIVE_DRAG"[0] == 'N' && "ZERO_DRAG"[0] == 'Z';
    var r1, r2, r3, r4 := r[1..], r[2..], r[3..], r[4..];
    assert r1[1..] == r2 && r2[1..] == r3 && r3[1..] == r4;
    assert Get(r4, "ZERO_DRAG") == Some(IntCell(|Zero(rows)|));
    assert Get(r3, "NEGATIVE_DRAG") == Some(IntCell(|Negative(rows)|));
    assert Get(r3, "ZERO_DRAG") == Get(r4, "ZERO_DRAG");
    assert Get(r2, "POSITIVE_DRAG") == Some(IntCell(|Positive(rows)|));
    assert Get(r2, "NEGATIVE_DRAG") == Get(r3, "NEGATIVE_DRAG") && Get(r2, "ZERO_DRAG") == Get(r3, "ZERO_DRAG");
    assert Get(r1, "TOTAL_TLE") == Some(IntCell(|rows|));
    assert Get(r1, "POSITIVE_DRAG") == Get(r2, "POSITIVE_DRAG") && Get(r1, "NEGATIVE_DRAG") == Get(r2, "NEGATIVE_DRAG");
    assert Get(r1, "ZERO_DRAG") == Get(r2, "ZERO_DRAG");
    PartitionCounts(rows);
  }

  /** A statistic as `CSV_logger` writes it: pandas gives NaN, printed
      `nan`, for no values. */
  function StatCell(v: Option<real>): (c: Cell)
    ensures v.Some? <==> c.RealCell?
    ensures v.Some? ==> c == RealCell(v.value)
  {
    match v
    case Some(x) => RealCell(x)
    case None => TextCell("nan")
  }

  /** `Series.max()` and `Series.min()`: NaN (None) for no values. */
  function MaxOf(s: seq<real>): (r: Option<real>)
    ensures r.Some? <==> |s| > 0
  {
    if |s| == 0 then None else Some(Max(s))
  }

  function MinOf(s: seq<real>): (r: Option<real>)
    ensures r.Some? <==> |s| > 0
  {
    if |s| == 0 then None else Some(Min(s))
  }

  /** The positive-drag statistics record; `p95` is the 95th percentile,
      which `np.percentile` computes. */
  function PositiveDragStats(day: Instant, rows: seq<Tle>, p95: Option<real>): Record {
    var d := Drags(Positive(rows));
    [("DAY", TimeCell(day)), ("MEDIAN", StatCell(Median(d))), ("MEAN", StatCell(Mean(d))),
     ("MAX", StatCell(MaxOf(d))), ("MIN", StatCell(MinOf(d))), ("P95", StatCell(p95))]
  }

  /** Without positive drags every statistic but the percentile is NaN. */
  lemma NoPositiveDrag(day: Instant, rows: seq<Tle>, p95: Option<real>)
    requires forall i :: 0 <= i < |rows| ==> rows[i].drag <= 0.0
    ensures var r := PositiveDragStats(day, rows, p95);
            r[1].1 == TextCell("nan") && r[2].1 == TextCell("nan") && r[3].1 == TextCell("nan") && r[4].1 == TextCell("nan")
  {
    FilterNone(rows, (t: Tle) => t.drag > 0.0);
  }

  /** With positive drags, the minimum is positive and the median and the
      mean lie between the minimum and the maximum. */
  lemma PositiveDragBounds(rows: seq<Tle>)
    requires |Positive(rows)| > 0
    ensures var d := Drags(Positive(rows));
            0.0 < Min(d) <= Median(d).value <= Max(d) && Min(d) <= Mean(d).value <= Max(d)
  {
    var pos := Positive(rows);
    var d := Drags(pos);
    MedianBounds(d);
    MeanBounds(d);
    var k :| 0 <= k < |d| && d[k] == Min(d);
    assert pos[k] in pos;
  }

  /** `generate_drag_insight`: one observation row, then one statistics row
      (both to the same file when the two paths are one). */
  method GenerateDragInsight(observed: CsvFile, stats: CsvFile, rows: seq<Tle>, day: Instant, p95: Option<real>)
    requires observed.Valid() && stats.Valid()
    modifies observed, stats
    ensures observed.Valid() && stats.Valid()
    ensures observed != stats ==> observed.lines == Appended(old(observed.lines), DragObservation(day, rows))
                                  && stats.lines == Appended(old(stats.lines), PositiveDragStats(day, rows, p95))
    ensures observed == stats ==> observed.lines == Appended(Appended(old(observed.lines), DragObservation(day, rows)), PositiveDragStats(day, rows, p95))
  {
    observed.Log(DragObservation(day, rows));
    stats.Log(PositiveDragStats(day, rows, p95));
  }
}
