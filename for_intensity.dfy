/** `compute_absolute_change`: for one satellite and one event date, a single
    record holding the largest altitude change and the largest drag seen up
    to each observation day is appended to the output CSV, unless the
    satellite is already decaying. */
module ForIntensity {
  import opened Wrappers
  import opened Seqs
  import opened Text
  import opened Stats
  import opened DataProcessor
  import opened Records
  import opened Io
  import opened Trace

  /** `(median - window[KM]).abs()`. */
  function Deviations(w: seq<Tle>, median: real): (r: seq<real>)
    ensures |r| == |w| && forall i :: 0 <= i < |w| ==> r[i] == Abs(median - w[i].km)
  {
    seq(|w|, i requires 0 <= i < |w| => Abs(median - w[i].km))
  }

  /** `window[DRAG].abs()`. */
  function AbsDrags(w: seq<Tle>): (r: seq<real>)
    ensures |r| == |w| && forall i :: 0 <= i < |w| ==> r[i] == Abs(w[i].drag)
  {
    seq(|w|, i requires 0 <= i < |w| => Abs(w[i].drag))
  }

  function KmKey(d: int): string {
    "KM_after_DAY_" + IntToString(d)
  }

  function DragKey(d: int): string {
    "DRAG_after_DAY_" + IntToString(d)
  }

  /** The record's fixed keys and the per-day keys never collide, and
      different days have different keys. */
  lemma KeysDistinct(d1: int, d2: int)
    ensures |KmKey(d1)| > 0 && KmKey(d1)[0] == 'K' && |DragKey(d1)| > 0 && DragKey(d1)[0] == 'D'
    ensures KmKey(d1) != DragKey(d2)
    ensures KmKey(d1) == KmKey(d2) ==> d1 == d2
    ensures DragKey(d1) == DragKey(d2) ==> d1 == d2
  {
    assert KmKey(d1)[0] == 'K' && DragKey(d2)[0] == 'D';
    assert DragKey(d1)[0] == 'D';
    if KmKey(d1) == KmKey(d2) {
      assert IntToString(d1) == KmKey(d1)[13..] == KmKey(d2)[13..] == IntToString(d2);
      IntRoundTrip(d1);
      IntRoundTrip(d2);
    }
    if DragKey(d1) == DragKey(d2) {
      assert IntToString(d1) == DragKey(d1)[15..] == DragKey(d2)[15..] == IntToString(d2);
      IntRoundTrip(d1);
      IntRoundTrip(d2);
    }
  }

  /** The record built before the loop. */
  function InitialRecord(eventDate: Instant, before: Tle): Record {
    [("EVENT_DATE", TimeCell(eventDate)), ("NORAD_CAT_ID", IntCell(before.noradCatId)), ("LAUNCH_DATE", TimeCell(before.launchDate))]
  }

  /** One pass of the loop for `day_count` = `d`: a zero KM entry when the
      satellite has no TLE after the day, else the largest altitude change
      and drag over the TLEs from `before` to the first TLE after the day;
      `None` where that window is empty and indexing it raises. */
  function MeasureDay(rows: seq<Tle>, before: Tle, median: real, eventDate: Instant, d: int, record: Record): Option<Record> {
    match FirstAfter(rows, DayAfter(eventDate, d))
    case None => Some(Put(record, KmKey(d), IntCell(0)))
    case Some(after) =>
      match Between(rows, before.epoch, after.epoch, None)
      case None => None
      case Some(w) =>
        Some(Put(Put(record, KmKey(d), RealCell(Max(Deviations(w, median)))), DragKey(d), RealCell(Max(AbsDrags(w)))))
  }

  /** The record after the loop over `days`. */
  function MeasureDays(rows: seq<Tle>, before: Tle, median: real, eventDate: Instant, days: seq<int>): Option<Record>
    decreases |days|
  {
    if days == [] then Some(InitialRecord(eventDate, before))
    else
      match MeasureDays(rows, before, median, eventDate, days[..|days| - 1])
      case None => None
      case Some(record) => MeasureDay(rows, before, median, eventDate, days[|days| - 1], record)
  }

  /** What a call does: nothing for a satellite failing a guard, raise, or
      log one record. */
  datatype Outcome = Skipped | Raised | Logged(record: Record)

  function AbsoluteChange(rows: seq<Tle>, eventDate: Instant, days: seq<int>, threshold: real): Outcome {
    match EventBaseline(rows, eventDate, threshold)
    case None => Skipped
    case Some(b) =>
      match MeasureDays(rows, b.last, b.median, eventDate, days)
      case None => Raised
      case Some(record) => Logged(record)
  }

  /** A satellite is skipped exactly when it has no TLE before the event or
      its last altitude is at least `threshold` km off the median. */
  lemma SkippedOnGuards(rows: seq<Tle>, eventDate: Instant, days: seq<int>, threshold: real)
    ensures AbsoluteChange(rows, eventDate, days, threshold).Skipped? <==>
            LastBefore(rows, eventDate).None?
            || (MedianAltitude(rows, Some(eventDate)).Some?
                && Abs(MedianAltitude(rows, Some(eventDate)).value - LastBefore(rows, eventDate).value.km) >= threshold)
  {
    if LastBefore(rows, eventDate).Some? {
      EventBaselineOf(rows, eventDate, threshold);
    }
  }

  /** Once a day raises, the whole loop raises. */
  lemma {:induction false} RaisedStays(rows: seq<Tle>, before: Tle, median: real, eventDate: Instant, days: seq<int>, n: nat)
    requires n <= |days| && MeasureDays(rows, before, median, eventDate, days[..n]).None?
    ensures MeasureDays(rows, before, median, eventDate, days).None?
    decreases |days| - n
  {
    if n < |days| {
      assert days[..n + 1][..n] == days[..n];
      RaisedStays(rows, before, median, eventDate, days, n + 1);
    } else {
      assert days[..n] == days;
    }
  }

  /** With observation days that are not before the event, the first TLE
      after each day follows `before`, so no window is empty and nothing raises. */
  lemma {:induction false} NonNegativeDaysMeasure(rows: seq<Tle>, before: Tle, median: real, eventDate: Instant, days: seq<int>)
    requires before in rows && before.epoch < eventDate
    requires forall i :: 0 <= i < |days| ==> days[i] >= 0
    ensures MeasureDays(rows, before, median, eventDate, days).Some?
    decreases |days|
  {
    if days != [] {
      NonNegativeDaysMeasure(rows, before, median, eventDate, days[..|days| - 1]);
      var d := days[|days| - 1];
      var after := FirstAfter(rows, DayAfter(eventDate, d));
      if after.Some? {
        BetweenHoldsEnds(rows, before, after.value);
      }
    }
  }

  /** An accepted satellite is logged whenever no observation day is negative. */
  lemma NonNegativeDaysLog(rows: seq<Tle>, eventDate: Instant, days: seq<int>, threshold: real)
    requires EventBaseline(rows, eventDate, threshold).Some?
    requires forall i :: 0 <= i < |days| ==> days[i] >= 0
    ensures AbsoluteChange(rows, eventDate, days, threshold).Logged?
  {
    BaselineBounds(rows, eventDate, threshold);
    var b := EventBaseline(rows, eventDate, threshold).value;
    NonNegativeDaysMeasure(rows, b.last, b.median, eventDate, days);
  }

  /** The entries the record holds for day `d`. */
  predicate DayLogged(r: Record, rows: seq<Tle>, before: Tle, median: real, eventDate: Instant, d: int) {
    match FirstAfter(rows, DayAfter(eventDate, d))
    case None => Get(r, KmKey(d)) == Some(IntCell(0)) && DragKey(d) !in Keys(r)
    case Some(after) =>
      Between(rows, before.epoch, after.epoch, None).Some?
      && Get(r, KmKey(d)) == Some(RealCell(Max(Deviations(Between(rows, before.epoch, after.epoch, None).value, median))))
      && Get(r, DragKey(d)) == Some(RealCell(Max(AbsDrags(Between(rows, before.epoch, after.epoch, None).value))))
  }

  /** The fixed part of the record. */
  predicate Headed(r: Record, eventDate: Instant, before: Tle) {
    |Keys(r)| >= 3 && Keys(r)[..3] == ["EVENT_DATE", "NORAD_CAT_ID", "LAUNCH_DATE"]
    && Get(r, "EVENT_DATE") == Some(TimeCell(eventDate))
    && Get(r, "NORAD_CAT_ID") == Some(IntCell(before.noradCatId))
    && Get(r, "LAUNCH_DATE") == Some(TimeCell(before.launchDate))
  }

  /** Adding a per-day entry keeps the fixed part. */
  lemma PutKeepsHead(r: Record, eventDate: Instant, before: Tle, k: string, v: Cell)
    requires Headed(r, eventDate, before) && |k| > 0 && (k[0] == 'K' || k[0] == 'D')
    ensures Headed(Put(r, k, v), eventDate, before)
  {
    var r' := Put(r, k, v);
    assert "EVENT_DATE"[0] == 'E' && "NORAD_CAT_ID"[0] == 'N' && "LAUNCH_DATE"[0] == 'L';
    assert Get(r', "EVENT_DATE") == Get(r, "EVENT_DATE");
    assert Get(r', "NORAD_CAT_ID") == Get(r, "NORAD_CAT_ID");
    assert Get(r', "LAUNCH_DATE") == Get(r, "LAUNCH_DATE");
    assert Keys(r')[..3] == Keys(r)[..3];
  }

  lemma InitialHeaded(eventDate: Instant, before: Tle)
    ensures Headed(InitialRecord(eventDate, before), eventDate, before)
  {
    var r := InitialRecord(eventDate, before);
    assert r[1..][1..] == [("LAUNCH_DATE", TimeCell(before.launchDate))];
    assert Get(r, "NORAD_CAT_ID") == Get(r[1..], "NORAD_CAT_ID");
    assert Get(r, "LAUNCH_DATE") == Get(r[1..][1..], "LAUNCH_DATE");
  }

  /** Adding the entries of day `e` keeps those of every other day. */
  lemma PutKeepsDay(r: Record, rows: seq<Tle>, before: Tle, median: real, eventDate: Instant, d: int, e: int, vk: Cell, vd: Cell)
    requires d != e && DayLogged(r, rows, before, median, eventDate, d)
    ensures DayLogged(Put(r, KmKey(e), vk), rows, before, median, eventDate, d)
    ensures DayLogged(Put(Put(r, KmKey(e), vk), DragKey(e), vd), rows, before, median, eventDate, d)
  {
    KeysDistinct(e, d);
    KeysDistinct(d, e);
    PutOtherKey(r, rows, before, median, eventDate, d, KmKey(e), vk);
    PutOtherKey(Put(r, KmKey(e), vk), rows, before, median, eventDate, d, DragKey(e), vd);
  }

  /** Setting a key that is neither entry of day `d` keeps the entries of `d`. */
  lemma PutOtherKey(r: Record, rows: seq<Tle>, before: Tle, median: real, eventDate: Instant, d: int, k: string, v: Cell)
    requires k != KmKey(d) && k != DragKey(d) && DayLogged(r, rows, before, median, eventDate, d)
    ensures DayLogged(Put(r, k, v), rows, before, median, eventDate, d)
  {
    var r' := Put(r, k, v);
    assert Get(r', KmKey(d)) == Get(r, KmKey(d));
    assert Get(r', DragKey(d)) == Get(r, DragKey(d));
  }

  lemma PutKeepsDays(r: Record, rows: seq<Tle>, before: Tle, median: real, eventDate: Instant, seen: seq<int>, e: int, vk: Cell, vd: Cell)
    requires forall d :: d in seen ==> DayLogged(r, rows, before, median, eventDate, d)
    ensures forall d :: d in seen && d != e ==> DayLogged(Put(r, KmKey(e), vk), rows, before, median, eventDate, d)
    ensures forall d :: d in seen && d != e ==> DayLogged(Put(Put(r, KmKey(e), vk), DragKey(e), vd), rows, before, median, eventDate, d)
  {
    forall d | d in seen && d != e
      ensures DayLogged(Put(r, KmKey(e), vk), rows, before, median, eventDate, d)
      ensures DayLogged(Put(Put(r, KmKey(e), vk), DragKey(e), vd), rows, before, median, eventDate, d)
    {
      PutKeepsDay(r, rows, before, median, eventDate, d, e, vk, vd);
    }
  }

  /** DRAG entries exist only for the days in `seen`. */
  ghost predicate DragsOnlyOf(r: Record, seen: seq<int>) {
    forall d :: DragKey(d) in Keys(r) ==> d in seen
  }

  /** The record after the passes for the days `seen`. */
  ghost predicate RecordOf(r: Record, rows: seq<Tle>, before: Tle, median: real, eventDate: Instant, seen: seq<int>) {
    Headed(r, eventDate, before) && |r| <= 3 + 2 * |seen| && DragsOnlyOf(r, seen)
    && forall d :: d in seen ==> DayLogged(r, rows, before, median, eventDate, d)
  }

  lemma InitialRecordOf(rows: seq<Tle>, before: Tle, median: real, eventDate: Instant)
    ensures RecordOf(InitialRecord(eventDate, before), rows, before, median, eventDate, [])
  {
    InitialHeaded(eventDate, before);
    var r := InitialRecord(eventDate, before);
    assert Keys(r) == ["EVENT_DATE", "NORAD_CAT_ID", "LAUNCH_DATE"];
    assert "EVENT_DATE"[0] == 'E' && "NORAD_CAT_ID"[0] == 'N' && "LAUNCH_DATE"[0] == 'L';
    forall d ensures DragKey(d) !in Keys(r) {
      KeysDistinct(d, d);
    }
  }

  /** A pass for a day with no TLE after it adds the zero KM entry. */
  lemma StepVanished(rows: seq<Tle>, before: Tle, median: real, eventDate: Instant, e: int, r: Record, seen: seq<int>)
    requires FirstAfter(rows, DayAfter(eventDate, e)).None?
    requires RecordOf(r, rows, before, median, eventDate, seen)
    ensures RecordOf(Put(r, KmKey(e), IntCell(0)), rows, before, median, eventDate, seen + [e])
  {
    var r' := Put(r, KmKey(e), IntCell(0));
    PutKm(r, eventDate, before, seen, e, IntCell(0));
    assert DragKey(e) in Keys(r) ==> e in seen;
    assert DayLogged(r', rows, before, median, eventDate, e);
    PutKeepsDays(r, rows, before, median, eventDate, seen, e, IntCell(0), IntCell(0));
    AllLogged(r', rows, before, median, eventDate, seen, e);
  }

  /** The days before `e` and the day `e` itself make up the days `seen + [e]`. */
  lemma AllLogged(r: Record, rows: seq<Tle>, before: Tle, median: real, eventDate: Instant, seen: seq<int>, e: int)
    requires forall d :: d in seen && d != e ==> DayLogged(r, rows, before, median, eventDate, d)
    requires DayLogged(r, rows, before, median, eventDate, e)
    ensures forall d :: d in seen + [e] ==> DayLogged(r, rows, before, median, eventDate, d)
  {
    forall d | d in seen + [e] ensures DayLogged(r, rows, before, median, eventDate, d) {
      if d != e {
        assert d in seen;
      }
    }
  }

  /** Adding the KM entry of day `e` keeps the fixed part, sets the key and
      leaves the DRAG entry of `e` as it was. */
  lemma PutKm(r: Record, eventDate: Instant, before: Tle, seen: seq<int>, e: int, v: Cell)
    requires Headed(r, eventDate, before) && DragsOnlyOf(r, seen)
    ensures var r' := Put(r, KmKey(e), v);
            Headed(r', eventDate, before) && DragsOnlyOf(r', seen + [e]) && |r'| <= |r| + 1
            && Get(r', KmKey(e)) == Some(v) && (DragKey(e) in Keys(r') <==> DragKey(e) in Keys(r))
  {
    var r' := Put(r, KmKey(e), v);
    KeysDistinct(e, e);
    PutKeepsHead(r, eventDate, before, KmKey(e), v);
    PutDragsOnly(r, seen, seen + [e], KmKey(e), v);
    assert |r'| == |Keys(r')| <= |Keys(r)| + 1;
  }

  /** Adding both entries of day `e` keeps the fixed part and sets the two keys. */
  lemma PutBoth(r: Record, eventDate: Instant, before: Tle, seen: seq<int>, e: int, vk: Cell, vd: Cell)
    requires Headed(r, eventDate, before) && DragsOnlyOf(r, seen)
    ensures var r' := Put(Put(r, KmKey(e), vk), DragKey(e), vd);
            Headed(r', eventDate, before) && DragsOnlyOf(r', seen + [e]) && |r'| <= |r| + 2
            && Get(r', KmKey(e)) == Some(vk) && Get(r', DragKey(e)) == Some(vd)
  {
    var r1 := Put(r, KmKey(e), vk);
    var r' := Put(r1, DragKey(e), vd);
    PutKm(r, eventDate, before, seen, e, vk);
    KeysDistinct(e, e);
    PutKeepsHead(r1, eventDate, before, DragKey(e), vd);
    assert e in seen + [e];
    PutDragsOnly(r1, seen + [e], seen + [e], DragKey(e), vd);
    assert Get(r', KmKey(e)) == Get(r1, KmKey(e));
    assert |r'| == |Keys(r')| <= |Keys(r1)| + 1;
  }

  /** Adding the key `k` keeps DRAG entries to the days of `seen'`. */
  lemma PutDragsOnly(r: Record, seen: seq<int>, seen': seq<int>, k: string, v: Cell)
    requires DragsOnlyOf(r, seen) && forall d :: d in seen ==> d in seen'
    requires (|k| > 0 && k[0] == 'K') || (exists e :: e in seen' && k == DragKey(e))
    ensures DragsOnlyOf(Put(r, k, v), seen')
  {
    assert Keys(Put(r, k, v)) == Keys(r) || Keys(Put(r, k, v)) == Keys(r) + [k];
    forall d | DragKey(d) in Keys(Put(r, k, v)) ensures d in seen' {
      if DragKey(d) == k {
        assert DragKey(d)[0] == 'D';
        var e :| e in seen' && k == DragKey(e);
        KeysDistinct(d, e);
      }
    }
  }

  /** A pass for a day with a TLE after it adds the KM and DRAG maxima over `w`. */
  lemma StepObserved(rows: seq<Tle>, before: Tle, median: real, eventDate: Instant, e: int, r: Record, seen: seq<int>, w: seq<Tle>)
    requires FirstAfter(rows, DayAfter(eventDate, e)).Some?
    requires Between(rows, before.epoch, FirstAfter(rows, DayAfter(eventDate, e)).value.epoch, None) == Some(w)
    requires RecordOf(r, rows, before, median, eventDate, seen)
    ensures RecordOf(Put(Put(r, KmKey(e), RealCell(Max(Deviations(w, median)))), DragKey(e), RealCell(Max(AbsDrags(w)))),
                     rows, before, median, eventDate, seen + [e])
  {
    var vk := RealCell(Max(Deviations(w, median)));
    var vd := RealCell(Max(AbsDrags(w)));
    var r' := Put(Put(r, KmKey(e), vk), DragKey(e), vd);
    PutBoth(r, eventDate, before, seen, e, vk, vd);
    assert DayLogged(r', rows, before, median, eventDate, e);
    PutKeepsDays(r, rows, before, median, eventDate, seen, e, vk, vd);
    AllLogged(r', rows, before, median, eventDate, seen, e);
  }

  /** Each pass writes the entries of its own day and keeps the rest. */
  lemma MeasureDayStep(rows: seq<Tle>, before: Tle, median: real, eventDate: Instant, e: int, r: Record, seen: seq<int>)
    requires MeasureDay(rows, before, median, eventDate, e, r).Some?
    requires RecordOf(r, rows, before, median, eventDate, seen)
    ensures RecordOf(MeasureDay(rows, before, median, eventDate, e, r).value, rows, before, median, eventDate, seen + [e])
  {
    var after := FirstAfter(rows, DayAfter(eventDate, e));
    if after.None? {
      StepVanished(rows, before, median, eventDate, e, r, seen);
    } else {
      var w := Between(rows, before.epoch, after.value.epoch, None).value;
      StepObserved(rows, before, median, eventDate, e, r, seen, w);
    }
  }

  /** A record of the loop holds the fixed keys first, then at most two
      entries per day: for a day with no TLE after it a zero KM entry and no
      DRAG entry, for the others the largest change and drag over the window. */
  lemma {:induction false} MeasureDaysShape(rows: seq<Tle>, before: Tle, median: real, eventDate: Instant, days: seq<int>)
    requires MeasureDays(rows, before, median, eventDate, days).Some?
    ensures RecordOf(MeasureDays(rows, before, median, eventDate, days).value, rows, before, median, eventDate, days)
    decreases |days|
  {
    if days == [] {
      InitialRecordOf(rows, before, median, eventDate);
    } else {
      var init := days[..|days| - 1];
      SnocSplit(days);
      MeasureDaysShape(rows, before, median, eventDate, init);
      var r := MeasureDays(rows, before, median, eventDate, init).value;
      MeasureDayStep(rows, before, median, eventDate, days[|days| - 1], r, init);
    }
  }

  /** A logged record starts with EVENT_DATE, NORAD_CAT_ID and LAUNCH_DATE of
      the last TLE before the event, and holds each observation day's entries. */
  lemma LoggedRecord(rows: seq<Tle>, eventDate: Instant, days: seq<int>, threshold: real)
    requires AbsoluteChange(rows, eventDate, days, threshold).Logged?
    ensures var r := AbsoluteChange(rows, eventDate, days, threshold).record;
            var b := EventBaseline(rows, eventDate, threshold).value;
            Headed(r, eventDate, b.last) && |r| <= 3 + 2 * |days|
            && forall d :: d in days ==> DayLogged(r, rows, b.last, b.median, eventDate, d)
  {
    var b := EventBaseline(rows, eventDate, threshold).value;
    MeasureDaysShape(rows, b.last, b.median, eventDate, days);
  }

  /** Over the window from `before` to the first TLE after a day, the KM
      entry is at least the change of both ends and every TLE in it, and the
      DRAG entry at least every absolute drag; both are non-negative. */
  lemma WindowMaxima(rows: seq<Tle>, before: Tle, after: Tle, median: real)
    requires before in rows && after in rows && before.epoch <= after.epoch
    ensures Between(rows, before.epoch, after.epoch, None).Some?
    ensures var w := Between(rows, before.epoch, after.epoch, None).value;
            var km := Max(Deviations(w, median));
            var drag := Max(AbsDrags(w));
            km >= Abs(median - after.km) && km >= Abs(median - before.km) && km >= 0.0
            && drag >= Abs(after.drag) && drag >= 0.0
            && (forall t :: t in rows && before.epoch <= t.epoch <= after.epoch ==> Abs(median - t.km) <= km && Abs(t.drag) <= drag)
  {
    BetweenHoldsEnds(rows, before, after);
    var w := Between(rows, before.epoch, after.epoch, None).value;
    var km := Max(Deviations(w, median));
    var drag := Max(AbsDrags(w));
    forall t | t in w ensures Abs(median - t.km) <= km && Abs(t.drag) <= drag {
      var k :| 0 <= k < |w| && w[k] == t;
      assert Deviations(w, median)[k] == Abs(median - t.km);
      assert AbsDrags(w)[k] == Abs(t.drag);
    }
  }

  /** The loop over `observation_days`. */
  method MeasureObservationDays(rows: seq<Tle>, before: Tle, median: real, eventDate: Instant, days: seq<int>)
    returns (r: Option<Record>)
    ensures r == MeasureDays(rows, before, median, eventDate, days)
  {
    var record := InitialRecord(eventDate, before);
    var i := 0;
    while i < |days|
      invariant 0 <= i <= |days|
      invariant MeasureDays(rows, before, median, eventDate, days[..i]) == Some(record)
    {
      var d := days[i];
      PrefixStep(days, i);
      var after := FirstAfter(rows, DayAfter(eventDate, d));
      if after.None? {
        record := Put(record, KmKey(d), IntCell(0));
      } else {
        var w := Between(rows, before.epoch, after.value.epoch, None);
        if w.None? {
          RaisedStays(rows, before, median, eventDate, days, i + 1);
          return None;
        }
        record := Put(record, KmKey(d), RealCell(Max(Deviations(w.value, median))));
        record := Put(record, DragKey(d), RealCell(Max(AbsDrags(w.value))));
      }
      i := i + 1;
    }
    assert days[..i] == days;
    return Some(record);
  }

  /** `compute_absolute_change` appending to `out`: the record is logged once
      when the satellite passes the guards and no window raises; `raised`
      where one does, before anything is written. */
  method ComputeAbsoluteChange(out: CsvFile, rows: seq<Tle>, eventDate: Instant, days: seq<int>, threshold: real)
    returns (raised: bool)
    requires out.Valid()
    modifies out
    ensures out.Valid()
    ensures raised <==> AbsoluteChange(rows, eventDate, days, threshold).Raised?
    ensures AbsoluteChange(rows, eventDate, days, threshold).Logged? ==>
              out.lines == Appended(old(out.lines), AbsoluteChange(rows, eventDate, days, threshold).record)
    ensures !AbsoluteChange(rows, eventDate, days, threshold).Logged? ==> out.lines == old(out.lines)
  {
    var before := LastBefore(rows, eventDate);
    if before.None? {
      return false;
    }
    EventBaselineOf(rows, eventDate, threshold);
    var median := MedianAltitude(rows, Some(eventDate)).value;
    if Abs(median - before.value.km) >= threshold {
      return false;
    }
    var record := MeasureObservationDays(rows, before.value, median, eventDate, days);
    if record.None? {
      return true;
    }
    out.Log(record.value);
    return false;
  }
}
