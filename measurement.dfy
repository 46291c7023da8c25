/** `track_satellite_altitude_change`: the after-effect measurer of the
    library, with the output file, the Dst table and the change threshold as
    parameters and the CAT_ID of each row taken from the TLE it comes from. */
module Measurement {
  import opened Wrappers
  import opened DataProcessor
  import opened Io
  import opened Trace

  /** `range(1, next_observation_days + 1)` has this many days. */
  function TrackedDays(days: int): nat {
    if days > 0 then days else 0
  }

  /** The rows appended for one satellite's TLEs. */
  function TrackedRows(rows: seq<Tle>, eventDate: Instant, days: int, threshold: real, nT: Instant -> real): seq<TraceRow> {
    MeasuredTrace(rows, None, eventDate, threshold, TrackedDays(days), nT)
  }

  /** A tracked satellite has rows for days 0, 1, ..., k, at most one more
      than the observation days, none exactly when it fails a guard; when
      every TLE of the file is of one satellite, every row carries its number. */
  lemma TrackedShape(rows: seq<Tle>, eventDate: Instant, days: int, threshold: real, nT: Instant -> real, id: int)
    requires forall i :: 0 <= i < |rows| ==> rows[i].noradCatId == id
    ensures var r := TrackedRows(rows, eventDate, days, threshold, nT);
            (r == [] <==> EventBaseline(rows, eventDate, threshold).None?)
            && |r| <= TrackedDays(days) + 1
            && WellShapedTrace(r, eventDate, threshold)
            && AllCatId(r, id)
  {
    MeasuredTraceShape(rows, None, eventDate, threshold, TrackedDays(days), nT);
    var b := EventBaseline(rows, eventDate, threshold);
    if b.Some? {
      var f := FollowUps(rows, None, b.value.median, eventDate, TrackedDays(days), nT);
      FollowUpsOneSatellite(rows, id, b.value.median, eventDate, TrackedDays(days), nT);
      MeasuredTraceUnfold(rows, None, eventDate, threshold, TrackedDays(days), nT);
      var first := TraceRow(b.value.last.noradCatId, 0, b.value.last.epoch, b.value.median, b.value.change, nT(eventDate));
      assert b.value.last in rows;
      AllCatIdPrepend(first, f, id);
    }
  }

  /** The trace runs to the last observation day unless the satellite has
      no TLE after the first day it lacks. */
  lemma TrackedUntilVanished(rows: seq<Tle>, eventDate: Instant, days: int, threshold: real, nT: Instant -> real)
    requires var r := TrackedRows(rows, eventDate, days, threshold, nT);
             r != [] && |r| <= TrackedDays(days)
    ensures FirstAfter(rows, DayAfter(eventDate, |TrackedRows(rows, eventDate, days, threshold, nT)|)).None?
  {
    MeasuredTraceStop(rows, None, eventDate, threshold, TrackedDays(days), nT);
  }

  /** `track_satellite_altitude_change`, appending to `out`. */
  method TrackSatelliteAltitudeChange(out: CsvFile, rows: seq<Tle>, eventDate: Instant, days: int, threshold: real, nT: Instant -> real)
    requires out.Valid()
    modifies out
    ensures out.Valid()
    ensures out.lines == AppendedAll(old(out.lines), TraceRecords(TrackedRows(rows, eventDate, days, threshold, nT)))
  {
    var lastTle := LastBefore(rows, eventDate);
    if lastTle.None? {
      SkippedLogsNothing(out.lines, rows, None, eventDate, threshold, TrackedDays(days), nT);
      return;
    }
    LogGuarded(out, rows, None, eventDate, threshold, TrackedDays(days), nT, lastTle.value);
  }
}
