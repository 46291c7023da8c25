/** `absolute_altitude_change`: for one satellite and one event date, a row
    for the event day and one for each following day with a TLE after it is
    appended to the event's output CSV, unless the satellite is already
    decaying. */
module AfterEffects {
  import opened Wrappers
  import opened Text
  import opened DataProcessor
  import opened Io
  import opened Trace

  /** `ALTITUDE_THERSHOLD` of the driver. */
  const AltitudeThreshold: real := 5.0

  /** `int(tle_csv_filename.split(".")[0])`; `None` where `int` raises. */
  function CatIdOfFileName(fileName: string): Option<int> {
    ParseInt(Split(fileName, '.')[0])
  }

  /** `range(1, next_observation_days)` has this many days. */
  function ObservedDays(days: int): nat {
    if days > 1 then days - 1 else 0
  }

  /** The rows appended for the file `fileName` holding the TLEs `rows`;
      `None` where reading the CAT_ID from the file name raises. */
  function CapturedRows(fileName: string, rows: seq<Tle>, eventDate: Instant, days: int, nT: Instant -> real): Option<seq<TraceRow>> {
    var catId := CatIdOfFileName(fileName);
    if catId.None? then None
    else Some(MeasuredTrace(rows, catId, eventDate, AltitudeThreshold, ObservedDays(days), nT))
  }

  /** The file `<NORAD_CAT_ID>.csv` yields its catalog number. */
  lemma FileNameRoundTrip(id: int)
    ensures CatIdOfFileName(IntToString(id) + ".csv") == Some(id)
  {
    var s := IntToString(id);
    assert '.' !in s by {
      IntToStringChars(id);
      forall k | 0 <= k < |s| ensures s[k] != '.' { }
    }
    SplitPrefix(s, ".csv", '.');
    assert Split(".csv", '.')[0] == "";
    assert Split(s + ".csv", '.')[0] == s;
    IntRoundTrip(id);
  }

  /** The captured rows of a satellite: none exactly when it fails a guard,
      else days 0, 1, ..., k, no more than the window's days, each carrying
      the catalog number of the file name. */
  lemma CapturedShape(fileName: string, rows: seq<Tle>, eventDate: Instant, days: int, nT: Instant -> real)
    requires CapturedRows(fileName, rows, eventDate, days, nT).Some?
    ensures var r := CapturedRows(fileName, rows, eventDate, days, nT).value;
            (r == [] <==> EventBaseline(rows, eventDate, AltitudeThreshold).None?)
            && |r| <= (if days > 1 then days else 1)
            && WellShapedTrace(r, eventDate, AltitudeThreshold)
            && AllCatId(r, CatIdOfFileName(fileName).value)
  {
    MeasuredTraceShape(rows, CatIdOfFileName(fileName), eventDate, AltitudeThreshold, ObservedDays(days), nT);
  }

  /** `absolute_altitude_change`, appending to `out`; `raised` where reading
      the CAT_ID from the file name raises, before anything is written. */
  method AbsoluteAltitudeChange(out: CsvFile, fileName: string, rows: seq<Tle>, eventDate: Instant, days: int, nT: Instant -> real)
    returns (raised: bool)
    requires out.Valid()
    modifies out
    ensures out.Valid()
    ensures raised <==> CapturedRows(fileName, rows, eventDate, days, nT).None?
    ensures raised ==> out.lines == old(out.lines)
    ensures !raised ==> out.lines == AppendedAll(old(out.lines), TraceRecords(CapturedRows(fileName, rows, eventDate, days, nT).value))
  {
    var catId := CatIdOfFileName(fileName);
    if catId.None? {
      return true;
    }
    CaptureSatellite(out, catId.value, rows, eventDate, ObservedDays(days), nT);
    return false;
  }

  /** The body of `absolute_altitude_change` once the CAT_ID is read. */
  method CaptureSatellite(out: CsvFile, catId: int, rows: seq<Tle>, eventDate: Instant, count: nat, nT: Instant -> real)
    requires out.Valid()
    modifies out
    ensures out.Valid()
    ensures out.lines == AppendedAll(old(out.lines), TraceRecords(MeasuredTrace(rows, Some(catId), eventDate, AltitudeThreshold, count, nT)))
  {
    var lastTle := LastBefore(rows, eventDate);
    if lastTle.None? {
      SkippedLogsNothing(out.lines, rows, Some(catId), eventDate, AltitudeThreshold, count, nT);
      return;
    }
    LogGuarded(out, rows, Some(catId), eventDate, AltitudeThreshold, count, nT, lastTle.value);
  }
}
