/** The per-day trace rows that the after-effect measurers append to their
    output CSV and that the orbital-shift classifier reads back. */
module Trace {
  import opened Wrappers
  import opened Seqs
  import opened Stats
  import opened DataProcessor
  import opened Records
  import opened Io

  /** CAT_ID, DAYS, EPOCH, MEDIAN_BEFORE, ALTITUDE_CHANGE_KM and nT. */
  datatype TraceRow = TraceRow(catId: int, days: int, epoch: Instant, medianBefore: real, altitudeChangeKm: real, nT: real)

  /** The dict handed to `CSV_logger` for a trace row. */
  function TraceRecord(row: TraceRow): (d: Record)
    ensures Keys(d) == ["CAT_ID", "DAYS", "EPOCH", "MEDIAN_BEFORE", "ALTITUDE_CHANGE_KM", "nT"]
  {
    [("CAT_ID", IntCell(row.catId)), ("DAYS", IntCell(row.days)), ("EPOCH", TimeCell(row.epoch)),
     ("MEDIAN_BEFORE", RealCell(row.medianBefore)), ("ALTITUDE_CHANGE_KM", RealCell(row.altitudeChangeKm)),
     ("nT", RealCell(row.nT))]
  }

  function TraceRecords(rows: seq<TraceRow>): (r: seq<Record>)
    ensures |r| == |rows| && forall i :: 0 <= i < |rows| ==> r[i] == TraceRecord(rows[i])
  {
    seq(|rows|, i requires 0 <= i < |rows| => TraceRecord(rows[i]))
  }

  /** Logging one more row after `rows` appends its record to the log. */
  lemma LogStep(lines: seq<Line>, rows: seq<TraceRow>, row: TraceRow)
    ensures AppendedAll(lines, TraceRecords(rows + [row])) == Appended(AppendedAll(lines, TraceRecords(rows)), TraceRecord(row))
  {
    assert TraceRecords(rows + [row]) == TraceRecords(rows) + [TraceRecord(row)];
    AppendedAllConcat(lines, TraceRecords(rows), [TraceRecord(row)]);
  }

  /** The state of a satellite at the event: its last TLE before the event,
      the median altitude before it, and the distance between the two. */
  datatype Baseline = Baseline(last: Tle, median: real, change: real)

  /** The two guards shared by the after-effect measurers: no TLE before the
      event (already decaying), or a last altitude at least `threshold` km off
      the median (natural decay), skip the satellite. */
  function EventBaseline(rows: seq<Tle>, eventDate: Instant, threshold: real): (r: Option<Baseline>)
    ensures LastBefore(rows, eventDate).None? ==> r.None?
    ensures r.Some? ==> r.value.last == LastBefore(rows, eventDate).value
                        && Some(r.value.median) == MedianAltitude(rows, Some(eventDate))
                        && r.value.change == Abs(r.value.median - r.value.last.km)
                        && r.value.change < threshold
  {
    var last := LastBefore(rows, eventDate);
    if last.None? then None
    else
      LastBeforeGivesMedian(rows, eventDate);
      var median := MedianAltitude(rows, Some(eventDate)).value;
      var change := Abs(median - last.value.km);
      if change >= threshold then None else Some(Baseline(last.value, median, change))
  }

  lemma EventBaselineOf(rows: seq<Tle>, eventDate: Instant, threshold: real)
    requires LastBefore(rows, eventDate).Some?
    ensures MedianAltitude(rows, Some(eventDate)).Some?
    ensures var last := LastBefore(rows, eventDate).value;
            var median := MedianAltitude(rows, Some(eventDate)).value;
            var change := Abs(median - last.km);
            EventBaseline(rows, eventDate, threshold) == if change >= threshold then None else Some(Baseline(last, median, change))
  {
    LastBeforeGivesMedian(rows, eventDate);
    EventBaselineUnfold(rows, eventDate, threshold);
  }

  /** The baseline from the last TLE before the event and the median, as the callers compute them. */
  lemma BaselineFrom(rows: seq<Tle>, eventDate: Instant, threshold: real, last: Tle, median: real)
    requires LastBefore(rows, eventDate) == Some(last) && MedianAltitude(rows, Some(eventDate)) == Some(median)
    ensures Abs(median - last.km) >= threshold ==> EventBaseline(rows, eventDate, threshold).None?
    ensures Abs(median - last.km) < threshold ==> EventBaseline(rows, eventDate, threshold) == Some(Baseline(last, median, Abs(median - last.km)))
  {
    EventBaselineUnfold(rows, eventDate, threshold);
  }

  lemma EventBaselineUnfold(rows: seq<Tle>, eventDate: Instant, threshold: real)
    requires LastBefore(rows, eventDate).Some? && MedianAltitude(rows, Some(eventDate)).Some?
    ensures var last := LastBefore(rows, eventDate).value;
            var median := MedianAltitude(rows, Some(eventDate)).value;
            var change := Abs(median - last.km);
            EventBaseline(rows, eventDate, threshold) == if change >= threshold then None else Some(Baseline(last, median, change))
  {
    var last := LastBefore(rows, eventDate).value;
    var median := MedianAltitude(rows, Some(eventDate)).value;
    assert LastBefore(rows, eventDate) == Some(last);
    assert MedianAltitude(rows, Some(eventDate)) == Some(median);
  }

  /** A satellite with a TLE before the event is skipped only for a last
      altitude at least `threshold` km off the median. */
  lemma BaselineSkips(rows: seq<Tle>, eventDate: Instant, threshold: real)
    requires LastBefore(rows, eventDate).Some? && EventBaseline(rows, eventDate, threshold).None?
    ensures MedianAltitude(rows, Some(eventDate)).Some?
    ensures Abs(MedianAltitude(rows, Some(eventDate)).value - LastBefore(rows, eventDate).value.km) >= threshold
  {
    LastBeforeGivesMedian(rows, eventDate);
  }

  /** A baseline's last TLE precedes the event, and its median lies between
      the lowest and highest altitude recorded before the event. */
  lemma BaselineBounds(rows: seq<Tle>, eventDate: Instant, threshold: real)
    requires EventBaseline(rows, eventDate, threshold).Some?
    ensures var b := EventBaseline(rows, eventDate, threshold).value;
            b.last.epoch < eventDate && b.last in rows
            && Min(Kms(RowsBefore(rows, Some(eventDate)))) <= b.median <= Max(Kms(RowsBefore(rows, Some(eventDate))))
  {
    MedianAltitudeBounds(rows, Some(eventDate));
  }

  /** The date `day` days after the event. */
  function DayAfter(eventDate: Instant, day: int): Instant {
    eventDate + day * 86400
  }

  /** The row logged for day `day` after the event, from the first TLE after
      that day; none when the satellite has no TLE after it. The CAT_ID is
      `catId` when the caller fixes it, else the TLE's own NORAD_CAT_ID. */
  function FollowUp(rows: seq<Tle>, catId: Option<int>, median: real, eventDate: Instant, day: int, nT: Instant -> real): (r: seq<TraceRow>)
    ensures |r| <= 1 && (r != [] <==> FirstAfter(rows, DayAfter(eventDate, day)).Some?)
    ensures r != [] ==> r[0].days == day && r[0].medianBefore == median && r[0].altitudeChangeKm >= 0.0
                        && r[0].epoch > DayAfter(eventDate, day)
    ensures r != [] && catId.Some? ==> r[0].catId == catId.value
    ensures r != [] && catId.None? ==> r[0].catId == FirstAfter(rows, DayAfter(eventDate, day)).value.noradCatId
  {
    var date := DayAfter(eventDate, day);
    match FirstAfter(rows, date)
    case None => []
    case Some(t) =>
      [TraceRow(if catId.Some? then catId.value else t.noradCatId, day, t.epoch, median, Abs(median - t.km), nT(date))]
  }

  /** The rows logged for days 1 to `count` after the event. */
  function FollowUps(rows: seq<Tle>, catId: Option<int>, median: real, eventDate: Instant, count: nat, nT: Instant -> real): (r: seq<TraceRow>)
    ensures |r| <= count
    decreases count
  {
    if count == 0 then []
    else FollowUps(rows, catId, median, eventDate, count - 1, nT) + FollowUp(rows, catId, median, eventDate, count, nT)
  }

  /** Rows for days 1, 2, ..., |f| with no day skipped, each from a TLE after
      its day, all with the median `median` (and the CAT_ID `catId` when it is fixed). */
  predicate DaysInOrder(f: seq<TraceRow>, catId: Option<int>, median: real, eventDate: Instant) {
    forall i :: 0 <= i < |f| ==> f[i].days == i + 1 && f[i].medianBefore == median
                                  && f[i].epoch > DayAfter(eventDate, i + 1)
                                  && f[i].altitudeChangeKm >= 0.0
                                  && (catId.Some? ==> f[i].catId == catId.value)
  }

  /** The follow-up rows are for days 1, 2, ..., k with no day skipped. */
  lemma {:induction false} FollowUpsRows(rows: seq<Tle>, catId: Option<int>, median: real, eventDate: Instant, count: nat, nT: Instant -> real)
    ensures DaysInOrder(FollowUps(rows, catId, median, eventDate, count, nT), catId, median, eventDate)
    decreases count
  {
    if count > 0 {
      FollowUpsRows(rows, catId, median, eventDate, count - 1, nT);
      var prefix := FollowUps(rows, catId, median, eventDate, count - 1, nT);
      var last := FollowUp(rows, catId, median, eventDate, count, nT);
      var f := prefix + last;
      assert f == FollowUps(rows, catId, median, eventDate, count, nT);
      if last != [] {
        FollowUpsFull(rows, catId, median, eventDate, count, nT);
      }
      forall i | 0 <= i < |f|
        ensures f[i].days == i + 1 && f[i].medianBefore == median
        ensures f[i].epoch > DayAfter(eventDate, i + 1) && f[i].altitudeChangeKm >= 0.0
        ensures catId.Some? ==> f[i].catId == catId.value
      {
        if i < |prefix| {
          assert f[i] == prefix[i];
        } else {
          assert f[i] == last[0];
        }
      }
    }
  }

  /** Rows taking the CAT_ID from their TLE all carry `id` when every TLE does. */
  lemma {:induction false} FollowUpsOneSatellite(rows: seq<Tle>, id: int, median: real, eventDate: Instant, count: nat, nT: Instant -> real)
    requires forall i :: 0 <= i < |rows| ==> rows[i].noradCatId == id
    ensures AllCatId(FollowUps(rows, None, median, eventDate, count, nT), id)
    decreases count
  {
    if count > 0 {
      FollowUpsOneSatellite(rows, id, median, eventDate, count - 1, nT);
      var prefix := FollowUps(rows, None, median, eventDate, count - 1, nT);
      var last := FollowUp(rows, None, median, eventDate, count, nT);
      var f := prefix + last;
      assert f == FollowUps(rows, None, median, eventDate, count, nT);
      forall i | 0 <= i < |f| ensures f[i].catId == id {
        if i < |prefix| {
          assert f[i] == prefix[i];
        } else {
          assert f[i] == last[0];
          var t := FirstAfter(rows, DayAfter(eventDate, count)).value;
          assert t in rows;
        }
      }
    }
  }

  /** All of `count` days are recorded when the satellite has a TLE after the last one. */
  lemma {:induction false} FollowUpsFull(rows: seq<Tle>, catId: Option<int>, median: real, eventDate: Instant, count: nat, nT: Instant -> real)
    requires FirstAfter(rows, DayAfter(eventDate, count)).Some?
    ensures |FollowUps(rows, catId, median, eventDate, count, nT)| == count
    decreases count
  {
    if count > 1 {
      FirstAfterAntitone(rows, DayAfter(eventDate, count - 1), DayAfter(eventDate, count));
      FollowUpsFull(rows, catId, median, eventDate, count - 1, nT);
    }
  }

  /** When fewer than `count` days are recorded, the satellite has no TLE
      after the first unrecorded day: the trace ends where its TLEs do. */
  lemma {:induction false} FollowUpsStop(rows: seq<Tle>, catId: Option<int>, median: real, eventDate: Instant, count: nat, nT: Instant -> real)
    requires |FollowUps(rows, catId, median, eventDate, count, nT)| < count
    ensures FirstAfter(rows, DayAfter(eventDate, |FollowUps(rows, catId, median, eventDate, count, nT)| + 1)).None?
  {
    FollowUpsStopAt(rows, catId, median, eventDate, count, nT);
  }

  /** The day after the recorded ones has no row. */
  lemma {:induction false} FollowUpsStopAt(rows: seq<Tle>, catId: Option<int>, median: real, eventDate: Instant, count: nat, nT: Instant -> real)
    requires |FollowUps(rows, catId, median, eventDate, count, nT)| < count
    ensures FollowUp(rows, catId, median, eventDate, |FollowUps(rows, catId, median, eventDate, count, nT)| + 1, nT) == []
    decreases count
  {
    var prefix := FollowUps(rows, catId, median, eventDate, count - 1, nT);
    ConcatNil(prefix);
    if FollowUp(rows, catId, median, eventDate, count, nT) != [] {
      FollowUpsFull(rows, catId, median, eventDate, count, nT);
      assert false;
    }
    assert FollowUps(rows, catId, median, eventDate, count, nT) == prefix;
    if |prefix| < count - 1 {
      FollowUpsStopAt(rows, catId, median, eventDate, count - 1, nT);
    }
  }

  /** The rows logged for one satellite and one event: none when the
      satellite is skipped, else the event-day row from its last TLE before
      the event, then the follow-up rows for days 1 to `count`. */
  function MeasuredTrace(rows: seq<Tle>, catId: Option<int>, eventDate: Instant, threshold: real, count: nat, nT: Instant -> real): seq<TraceRow> {
    var b := EventBaseline(rows, eventDate, threshold);
    if b.None? then []
    else
      var b := b.value;
      [TraceRow(if catId.Some? then catId.value else b.last.noradCatId, 0, b.last.epoch, b.median, b.change, nT(eventDate))]
      + FollowUps(rows, catId, b.median, eventDate, count, nT)
  }

  /** Rows for days 0, 1, ..., k after `eventDate`, all with one median: the
      event-day row from before the event and under `threshold`, each later
      row from a TLE after its day. */
  predicate WellShapedTrace(r: seq<TraceRow>, eventDate: Instant, threshold: real) {
    (forall i :: 0 <= i < |r| ==> r[i].days == i && r[i].medianBefore == r[0].medianBefore && r[i].altitudeChangeKm >= 0.0)
    && (r != [] ==> r[0].epoch < eventDate && r[0].altitudeChangeKm < threshold)
    && (forall i :: 1 <= i < |r| ==> r[i].epoch > DayAfter(eventDate, i))
  }

  /** Every row carries the CAT_ID `id`. */
  predicate AllCatId(r: seq<TraceRow>, id: int) {
    forall i :: 0 <= i < |r| ==> r[i].catId == id
  }

  lemma AllCatIdPrepend(first: TraceRow, f: seq<TraceRow>, id: int)
    requires first.catId == id && AllCatId(f, id)
    ensures AllCatId([first] + f, id)
  {
    var r := [first] + f;
    forall i | 0 <= i < |r| ensures r[i].catId == id {
      if i > 0 {
        assert r[i] == f[i - 1];
      }
    }
  }

  /** A skipped satellite has no rows. */
  lemma MeasuredTraceSkipped(rows: seq<Tle>, catId: Option<int>, eventDate: Instant, threshold: real, count: nat, nT: Instant -> real)
    requires EventBaseline(rows, eventDate, threshold).None?
    ensures MeasuredTrace(rows, catId, eventDate, threshold, count, nT) == []
  {
  }

  /** A skipped satellite appends nothing. */
  lemma SkippedLogsNothing(lines: seq<Line>, rows: seq<Tle>, catId: Option<int>, eventDate: Instant, threshold: real, count: nat, nT: Instant -> real)
    requires EventBaseline(rows, eventDate, threshold).None?
    ensures AppendedAll(lines, TraceRecords(MeasuredTrace(rows, catId, eventDate, threshold, count, nT))) == lines
  {
    MeasuredTraceSkipped(rows, catId, eventDate, threshold, count, nT);
    assert TraceRecords([]) == [];
  }

  lemma MeasuredTraceUnfold(rows: seq<Tle>, catId: Option<int>, eventDate: Instant, threshold: real, count: nat, nT: Instant -> real)
    requires EventBaseline(rows, eventDate, threshold).Some?
    ensures var b := EventBaseline(rows, eventDate, threshold).value;
            MeasuredTrace(rows, catId, eventDate, threshold, count, nT)
              == [TraceRow(if catId.Some? then catId.value else b.last.noradCatId, 0, b.last.epoch, b.median, b.change, nT(eventDate))]
                 + FollowUps(rows, catId, b.median, eventDate, count, nT)
  {
  }

  /** A satellite is skipped exactly when it fails a guard; otherwise it has
      rows for days 0 to k, at most `count` + 1 of them, with the fixed
      CAT_ID on every row when the caller fixes one. */
  lemma MeasuredTraceShape(rows: seq<Tle>, catId: Option<int>, eventDate: Instant, threshold: real, count: nat, nT: Instant -> real)
    ensures var r := MeasuredTrace(rows, catId, eventDate, threshold, count, nT);
            (r == [] <==> EventBaseline(rows, eventDate, threshold).None?)
            && |r| <= count + 1
            && WellShapedTrace(r, eventDate, threshold)
            && (catId.Some? ==> AllCatId(r, catId.value))
  {
    var b := EventBaseline(rows, eventDate, threshold);
    if b.Some? {
      var f := FollowUps(rows, catId, b.value.median, eventDate, count, nT);
      FollowUpsRows(rows, catId, b.value.median, eventDate, count, nT);
      MeasuredTraceUnfold(rows, catId, eventDate, threshold, count, nT);
      var first := TraceRow(if catId.Some? then catId.value else b.value.last.noradCatId, 0, b.value.last.epoch, b.value.median, b.value.change, nT(eventDate));
      assert first.altitudeChangeKm >= 0.0;
      PrependShape(first, f, catId, eventDate, threshold);
    }
  }

  /** The event-day row followed by follow-up rows in day order is a well-shaped trace. */
  lemma PrependShape(first: TraceRow, f: seq<TraceRow>, catId: Option<int>, eventDate: Instant, threshold: real)
    requires first.days == 0 && first.epoch < eventDate && 0.0 <= first.altitudeChangeKm < threshold
    requires catId.Some? ==> first.catId == catId.value
    requires DaysInOrder(f, catId, first.medianBefore, eventDate)
    ensures WellShapedTrace([first] + f, eventDate, threshold)
    ensures catId.Some? ==> AllCatId([first] + f, catId.value)
  {
    var r := [first] + f;
    forall i | 1 <= i < |r|
      ensures r[i].days == i && r[i].medianBefore == r[0].medianBefore && r[i].altitudeChangeKm >= 0.0
      ensures r[i].epoch > DayAfter(eventDate, i)
      ensures catId.Some? ==> r[i].catId == catId.value
    {
      assert r[i] == f[i - 1];
    }
  }

  /** A trace shorter than `count` + 1 rows stops because the satellite has
      no TLE after the first day it lacks. */
  lemma MeasuredTraceStop(rows: seq<Tle>, catId: Option<int>, eventDate: Instant, threshold: real, count: nat, nT: Instant -> real)
    requires var r := MeasuredTrace(rows, catId, eventDate, threshold, count, nT);
             r != [] && |r| < count + 1
    ensures FirstAfter(rows, DayAfter(eventDate, |MeasuredTrace(rows, catId, eventDate, threshold, count, nT)|)).None?
  {
    var b := EventBaseline(rows, eventDate, threshold).value;
    MeasuredTraceUnfold(rows, catId, eventDate, threshold, count, nT);
    FollowUpsStop(rows, catId, b.median, eventDate, count, nT);
  }

  /** Logging one row into `lines` appends its record. */
  lemma LogFirst(lines: seq<Line>, row: TraceRow)
    ensures AppendedAll(lines, TraceRecords([row])) == Appended(lines, TraceRecord(row))
  {
    var rs := TraceRecords([row]);
    assert rs == [TraceRecord(row)];
    assert rs[1..] == [];
  }

  /** The log holds the rows of `logged`, then the follow-up rows of days 1 to `day`. */
  ghost predicate FollowUpsLogged(lines: seq<Line>, start: seq<Line>, logged: seq<TraceRow>, rows: seq<Tle>, catId: Option<int>,
                                  median: real, eventDate: Instant, day: nat, nT: Instant -> real)
  {
    lines == AppendedAll(start, TraceRecords(logged + FollowUps(rows, catId, median, eventDate, day, nT)))
  }

  /** A day without a TLE after it adds no row. */
  lemma LogNextVanished(start: seq<Line>, logged: seq<TraceRow>, rows: seq<Tle>, catId: Option<int>, median: real, eventDate: Instant, day: nat, nT: Instant -> real, lines: seq<Line>)
    requires day >= 1 && FirstAfter(rows, DayAfter(eventDate, day)).None?
    requires FollowUpsLogged(lines, start, logged, rows, catId, median, eventDate, day - 1, nT)
    ensures FollowUpsLogged(lines, start, logged, rows, catId, median, eventDate, day, nT)
  {
    var f := FollowUps(rows, catId, median, eventDate, day - 1, nT);
    ConcatNil(f);
    assert FollowUps(rows, catId, median, eventDate, day, nT) == f + [];
  }

  /** A day with a TLE `t` after it adds the row of `t`. */
  lemma LogNextObserved(start: seq<Line>, logged: seq<TraceRow>, rows: seq<Tle>, catId: Option<int>, median: real, eventDate: Instant, day: nat, nT: Instant -> real, lines: seq<Line>, t: Tle)
    requires day >= 1 && FirstAfter(rows, DayAfter(eventDate, day)) == Some(t)
    requires FollowUpsLogged(lines, start, logged, rows, catId, median, eventDate, day - 1, nT)
    ensures FollowUpsLogged(Appended(lines, TraceRecord(TraceRow(if catId.Some? then catId.value else t.noradCatId, day, t.epoch, median, Abs(median - t.km), nT(DayAfter(eventDate, day))))),
                            start, logged, rows, catId, median, eventDate, day, nT)
  {
    var f := FollowUps(rows, catId, median, eventDate, day - 1, nT);
    var row := TraceRow(if catId.Some? then catId.value else t.noradCatId, day, t.epoch, median, Abs(median - t.km), nT(DayAfter(eventDate, day)));
    assert FollowUp(rows, catId, median, eventDate, day, nT) == [row];
    assert logged + FollowUps(rows, catId, median, eventDate, day, nT) == (logged + f) + [row];
    LogStep(start, logged + f, row);
  }

  /** One pass of the loop below: the first TLE after day `day`, and its row
      logged when there is one. */
  method LogDay(out: CsvFile, rows: seq<Tle>, catId: Option<int>, median: real, eventDate: Instant, day: nat, nT: Instant -> real, ghost start: seq<Line>, ghost logged: seq<TraceRow>)
    requires day >= 1 && out.Valid()
    requires FollowUpsLogged(out.lines, start, logged, rows, catId, median, eventDate, day - 1, nT)
    modifies out
    ensures out.Valid()
    ensures FollowUpsLogged(out.lines, start, logged, rows, catId, median, eventDate, day, nT)
  {
    var afterEffectDate := DayAfter(eventDate, day);
    var tleAfter := FirstAfter(rows, afterEffectDate);
    if tleAfter.None? {
      LogNextVanished(start, logged, rows, catId, median, eventDate, day, nT, out.lines);
      return;
    }
    var t := tleAfter.value;
    LogNextObserved(start, logged, rows, catId, median, eventDate, day, nT, out.lines, t);
    out.Log(TraceRecord(TraceRow(if catId.Some? then catId.value else t.noradCatId, day, t.epoch, median, Abs(median - t.km), nT(afterEffectDate))));
  }

  /** The loop that logs the follow-up rows: one `CSV_logger` call per day
      on which the satellite has a later TLE. */
  method LogFollowUps(out: CsvFile, rows: seq<Tle>, catId: Option<int>, median: real, eventDate: Instant, count: nat, nT: Instant -> real, ghost start: seq<Line>, ghost logged: seq<TraceRow>)
    requires out.Valid() && out.lines == AppendedAll(start, TraceRecords(logged))
    modifies out
    ensures out.Valid()
    ensures out.lines == AppendedAll(start, TraceRecords(logged + FollowUps(rows, catId, median, eventDate, count, nT)))
  {
    var dayId := 1;
    assert FollowUps(rows, catId, median, eventDate, 0, nT) == [];
    ConcatNil(logged);
    while dayId <= count
      invariant 1 <= dayId <= count + 1
      invariant out.Valid()
      invariant FollowUpsLogged(out.lines, start, logged, rows, catId, median, eventDate, dayId - 1, nT)
      decreases count + 1 - dayId
    {
      LogDay(out, rows, catId, median, eventDate, dayId, nT, start, logged);
      dayId := dayId + 1;
    }
    assert dayId - 1 == count;
  }

  /** The logging part of a measurer, once the satellite has passed both
      guards: the event-day row, then the follow-up rows. */
  method LogTrace(out: CsvFile, rows: seq<Tle>, catId: Option<int>, eventDate: Instant, threshold: real, count: nat, nT: Instant -> real, b: Baseline)
    requires out.Valid() && EventBaseline(rows, eventDate, threshold) == Some(b)
    modifies out
    ensures out.Valid()
    ensures out.lines == AppendedAll(old(out.lines), TraceRecords(MeasuredTrace(rows, catId, eventDate, threshold, count, nT)))
  {
    ghost var start := out.lines;
    var first := TraceRow(if catId.Some? then catId.value else b.last.noradCatId, 0, b.last.epoch, b.median, b.change, nT(eventDate));
    MeasuredTraceUnfold(rows, catId, eventDate, threshold, count, nT);
    out.Log(TraceRecord(first));
    LogFirst(start, first);
    LogFollowUps(out, rows, catId, b.median, eventDate, count, nT, start, [first]);
  }

  /** The second guard of a measurer and the logging after it, once the last
      TLE before the event is known: a satellite whose last altitude is at
      least `threshold` km off the median is skipped. */
  method LogGuarded(out: CsvFile, rows: seq<Tle>, catId: Option<int>, eventDate: Instant, threshold: real, count: nat, nT: Instant -> real, last: Tle)
    requires out.Valid() && LastBefore(rows, eventDate) == Some(last)
    modifies out
    ensures out.Valid()
    ensures out.lines == AppendedAll(old(out.lines), TraceRecords(MeasuredTrace(rows, catId, eventDate, threshold, count, nT)))
  {
    LastBeforeGivesMedian(rows, eventDate);
    var median := MedianAltitude(rows, Some(eventDate)).value;
    var change := Abs(median - last.km);
    BaselineFrom(rows, eventDate, threshold, last, median);
    if change >= threshold {
      SkippedLogsNothing(out.lines, rows, catId, eventDate, threshold, count, nT);
      return;
    }
    LogTrace(out, rows, catId, eventDate, threshold, count, nT, Baseline(last, median, change));
  }
}
