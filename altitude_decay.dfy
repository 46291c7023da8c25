/** `compute_abs_decay` and `compute_decay`: for one satellite and one event
    date, a record of the altitude change after each of the given days is
    appended to the output CSV, and `(accepted, id)` is returned. */
module AltitudeDecay {
  import opened Wrappers
  import opened Seqs
  import opened Text
  import opened Stats
  import opened DataProcessor
  import opened Records
  import opened Io
  import opened Trace
  import opened ForIntensity

  /** The `_abs_diff >= 5` guard. */
  const DecayThreshold: real := 5.0

  /** The second element of the returned pair: the file's stem before any
      TLE is read, else the NORAD_CAT_ID of the last TLE before the event. */
  datatype SatId = FileStem(name: string) | NoradId(id: int)

  /** `tle_CSV.split('.')[0].split('/')[-1]`. */
  function StemOf(path: string): string {
    var parts := Split(Split(path, '.')[0], '/');
    parts[|parts| - 1]
  }

  /** `compute_abs_decay` records the largest absolute change from the
      median, `compute_decay` how far the altitude rose above the last TLE. */
  datatype Measure = AbsoluteChangeMeasure | RiseMeasure

  /** `last[KM] - window[KM]`. */
  function Differences(w: seq<Tle>, lastKm: real): (r: seq<real>)
    ensures |r| == |w| && forall i :: 0 <= i < |w| ==> r[i] == lastKm - w[i].km
  {
    seq(|w|, i requires 0 <= i < |w| => lastKm - w[i].km)
  }

  /** The value stored for an observed day over the window `w`. */
  function DayValue(measure: Measure, w: seq<Tle>, last: Tle, median: real): real
    requires |w| > 0
  {
    match measure
    case AbsoluteChangeMeasure => Max(Deviations(w, median))
    case RiseMeasure =>
      var diff := Min(Differences(w, last.km));
      if diff < 0.0 then Abs(diff) else 0.0
  }

  lemma RiseValue(w: seq<Tle>, last: Tle, median: real)
    requires last in w
    ensures DayValue(RiseMeasure, w, last, median) == Max(Kms(w)) - last.km
  {
    RiseIsHighestAboveLast(w, last, median);
  }

  /** The smallest difference to the last TLE is the one of the highest TLE. */
  lemma MinDifferences(w: seq<Tle>, lastKm: real)
    requires |w| > 0
    ensures Min(Differences(w, lastKm)) == lastKm - Max(Kms(w))
  {
    var m := Max(Kms(w));
    var diffs := Differences(w, lastKm);
    var k :| 0 <= k < |w| && Kms(w)[k] == m;
    assert diffs[k] == lastKm - m;
    var j :| 0 <= j < |w| && diffs[j] == Min(diffs);
    assert Kms(w)[j] <= m;
  }

  lemma BelowMax(w: seq<Tle>)
    requires |w| > 0
    ensures forall t :: t in w ==> t.km <= Max(Kms(w))
  {
    forall t | t in w ensures t.km <= Max(Kms(w)) {
      var i :| 0 <= i < |w| && w[i] == t;
      assert Kms(w)[i] == t.km;
    }
  }

  /** `compute_decay`'s value is the largest altitude in the window above
      the last TLE before the event, and zero exactly when none is higher. */
  lemma RiseIsHighestAboveLast(w: seq<Tle>, last: Tle, median: real)
    requires last in w
    ensures DayValue(RiseMeasure, w, last, median) == Max(Kms(w)) - last.km
    ensures DayValue(RiseMeasure, w, last, median) >= 0.0
    ensures DayValue(RiseMeasure, w, last, median) == 0.0 <==> forall t :: t in w ==> t.km <= last.km
  {
    var m := Max(Kms(w));
    MinDifferences(w, last.km);
    BelowMax(w);
    var l :| 0 <= l < |w| && w[l] == last;
    assert Kms(w)[l] == last.km;
    if m != last.km {
      var k :| 0 <= k < |w| && Kms(w)[k] == m;
      assert w[k].km == m > last.km;
    }
  }

  /** `compute_abs_decay`'s value is at least the change of every TLE in the window. */
  lemma AbsoluteChangeBounds(w: seq<Tle>, last: Tle, median: real)
    requires |w| > 0
    ensures DayValue(AbsoluteChangeMeasure, w, last, median) >= 0.0
    ensures forall t :: t in w ==> Abs(median - t.km) <= DayValue(AbsoluteChangeMeasure, w, last, median)
  {
    forall t | t in w ensures Abs(median - t.km) <= DayValue(AbsoluteChangeMeasure, w, last, median) {
      var i :| 0 <= i < |w| && w[i] == t;
      assert Deviations(w, median)[i] == Abs(median - t.km);
    }
  }

  /** The key of a vanished day: as written it formats the float day ratio
      (`KM_after_DAY_1.0`), corrected it is the key an observed day uses. */
  datatype KeyStyle = AsWritten | Corrected

  function FloatKey(d: int): string {
    "KM_after_DAY_" + IntToString(d) + ".0"
  }

  function VanishedKey(style: KeyStyle, d: int): string {
    match style
    case AsWritten => FloatKey(d)
    case Corrected => KmKey(d)
  }

  /** The key a vanished day gets as written is never a key an observed day
      gets: a vanished satellite's record has no column of the header it
      shares with the observed ones. */
  lemma FloatKeyIsNoDayKey(d: int, d': int)
    ensures |FloatKey(d)| > 0 && FloatKey(d)[0] == 'K'
    ensures FloatKey(d) != KmKey(d')
  {
    var t := IntToString(d);
    assert FloatKey(d)[13 + |t|] == '.';
    assert '.' in FloatKey(d);
    IntToStringChars(d');
    forall k | 0 <= k < |KmKey(d')| ensures KmKey(d')[k] != '.' {
      if k >= 13 {
        assert KmKey(d')[k] == IntToString(d')[k - 13];
      }
    }
    assert '.' !in KmKey(d');
  }

  const FixedKeys: seq<string> := ["NORAD_CAT_ID", "LAUNCH_DATE", "EVENT_DATE"]

  function KmKeys(days: seq<int>): (r: seq<string>)
    ensures |r| == |days| && forall i :: 0 <= i < |days| ==> r[i] == KmKey(days[i])
  {
    seq(|days|, i requires 0 <= i < |days| => KmKey(days[i]))
  }

  lemma KmKeyIn(days: seq<int>, e: int)
    ensures KmKey(e) in FixedKeys + KmKeys(days) <==> e in days
  {
    KeysDistinct(e, e);
    assert FixedKeys[0][0] == 'N' && FixedKeys[1][0] == 'L' && FixedKeys[2][0] == 'E';
    assert KmKey(e) !in FixedKeys;
    if e in days {
      var i :| 0 <= i < |days| && days[i] == e;
      assert KmKeys(days)[i] == KmKey(e);
    }
    if KmKey(e) in KmKeys(days) {
      var i :| 0 <= i < |days| && KmKeys(days)[i] == KmKey(e);
      KeysDistinct(days[i], e);
    }
  }

  /** The record built before the loop. */
  function InitialDecayRecord(sdate: Instant, last: Tle): Record {
    [("NORAD_CAT_ID", IntCell(last.noradCatId)), ("LAUNCH_DATE", TimeCell(last.launchDate)), ("EVENT_DATE", TimeCell(sdate))]
  }

  /** One pass of the loop for the day `d`: a zero entry when the satellite
      has no TLE after the day, else the day's value over the TLEs from
      `last` to the first TLE after the day; `None` where that window is
      empty and indexing it raises. */
  function DecayDay(style: KeyStyle, measure: Measure, rows: seq<Tle>, last: Tle, median: real, sdate: Instant, d: int, record: Record): Option<Record> {
    match FirstAfter(rows, DayAfter(sdate, d))
    case None => Some(Put(record, VanishedKey(style, d), IntCell(0)))
    case Some(after) =>
      match Between(rows, last.epoch, after.epoch, None)
      case None => None
      case Some(w) => Some(Put(record, KmKey(d), RealCell(DayValue(measure, w, last, median))))
  }

  /** The record after the loop over the days `days` after `sdate`. */
  function DecayDays(style: KeyStyle, measure: Measure, rows: seq<Tle>, last: Tle, median: real, sdate: Instant, days: seq<int>): Option<Record>
    decreases |days|
  {
    if days == [] then Some(InitialDecayRecord(sdate, last))
    else
      match DecayDays(style, measure, rows, last, median, sdate, days[..|days| - 1])
      case None => None
      case Some(record) => DecayDay(style, measure, rows, last, median, sdate, days[|days| - 1], record)
  }

  /** What a call does: return `(False, id)`, raise, or log the record and
      return `(True, id)`. */
  datatype DecayResult = Rejected(id: SatId) | Crashed | Accepted(record: Record, id: SatId)

  /** The guards, then the loop. `gen2Start` is `START_LAUNCH_DATE_GEN_2`
      where the Gen2 check is enabled. */
  function DecayCall(style: KeyStyle, measure: Measure, gen2Start: Option<Instant>, path: string, rows: seq<Tle>, sdate: Instant, days: seq<int>): DecayResult {
    match LastBefore(rows, sdate)
    case None => Rejected(FileStem(StemOf(path)))
    case Some(last) =>
      if gen2Start.Some? && gen2Start.value > last.launchDate then Rejected(NoradId(last.noradCatId))
      else
        match EventBaseline(rows, sdate, DecayThreshold)
        case None => Rejected(NoradId(last.noradCatId))
        case Some(b) =>
          match DecayDays(style, measure, rows, last, b.median, sdate, days)
          case None => Crashed
          case Some(record) => Accepted(record, NoradId(last.noradCatId))
  }

  /** `compute_abs_decay`; `AsWritten` is the vanished-day key of the program,
      `Corrected` the key the observed days use. */
  function AbsDecay(style: KeyStyle, path: string, rows: seq<Tle>, sdate: Instant, days: seq<int>, gen2Start: Instant): DecayResult {
    DecayCall(style, AbsoluteChangeMeasure, Some(gen2Start), path, rows, sdate, days)
  }

  /** `compute_decay`, whose Gen2 check is commented out, with the vanished-day key of `style`. */
  function Decay(style: KeyStyle, path: string, rows: seq<Tle>, sdate: Instant, days: seq<int>): DecayResult {
    DecayCall(style, RiseMeasure, None, path, rows, sdate, days)
  }

  /** A call returns `(False, id)` exactly when the satellite has no TLE
      before the event (the id is then the file's stem), is launched before
      the Gen2 start where that is checked, or has its last altitude at
      least 5 km off the median (the id is then its NORAD_CAT_ID). */
  lemma RejectedOnGuards(style: KeyStyle, measure: Measure, gen2Start: Option<Instant>, path: string, rows: seq<Tle>, sdate: Instant, days: seq<int>)
    ensures LastBefore(rows, sdate).None? ==> DecayCall(style, measure, gen2Start, path, rows, sdate, days) == Rejected(FileStem(StemOf(path)))
    ensures LastBefore(rows, sdate).Some? ==> MedianAltitude(rows, Some(sdate)).Some?
    ensures LastBefore(rows, sdate).Some? ==>
              (DecayCall(style, measure, gen2Start, path, rows, sdate, days).Rejected? <==>
                 (gen2Start.Some? && gen2Start.value > LastBefore(rows, sdate).value.launchDate)
                 || Abs(MedianAltitude(rows, Some(sdate)).value - LastBefore(rows, sdate).value.km) >= DecayThreshold)
    ensures LastBefore(rows, sdate).Some? && !DecayCall(style, measure, gen2Start, path, rows, sdate, days).Crashed? ==>
              DecayCall(style, measure, gen2Start, path, rows, sdate, days).id == NoradId(LastBefore(rows, sdate).value.noradCatId)
  {
    if LastBefore(rows, sdate).Some? {
      GuardsReject(style, measure, gen2Start, path, rows, sdate, days);
      if !DecayCall(style, measure, gen2Start, path, rows, sdate, days).Crashed? {
        GuardsId(style, measure, gen2Start, path, rows, sdate, days);
      }
    }
  }

  lemma GuardsReject(style: KeyStyle, measure: Measure, gen2Start: Option<Instant>, path: string, rows: seq<Tle>, sdate: Instant, days: seq<int>)
    requires LastBefore(rows, sdate).Some?
    ensures MedianAltitude(rows, Some(sdate)).Some?
    ensures DecayCall(style, measure, gen2Start, path, rows, sdate, days).Rejected? <==>
              (gen2Start.Some? && gen2Start.value > LastBefore(rows, sdate).value.launchDate)
              || Abs(MedianAltitude(rows, Some(sdate)).value - LastBefore(rows, sdate).value.km) >= DecayThreshold
  {
    var last := LastBefore(rows, sdate).value;
    EventBaselineOf(rows, sdate, DecayThreshold);
    var r := DecayCall(style, measure, gen2Start, path, rows, sdate, days);
    if !(gen2Start.Some? && gen2Start.value > last.launchDate) && EventBaseline(rows, sdate, DecayThreshold).Some? {
      var b := EventBaseline(rows, sdate, DecayThreshold).value;
      assert r == if DecayDays(style, measure, rows, last, b.median, sdate, days).None? then Crashed
                  else Accepted(DecayDays(style, measure, rows, last, b.median, sdate, days).value, NoradId(last.noradCatId));
    }
  }

  lemma GuardsId(style: KeyStyle, measure: Measure, gen2Start: Option<Instant>, path: string, rows: seq<Tle>, sdate: Instant, days: seq<int>)
    requires LastBefore(rows, sdate).Some? && !DecayCall(style, measure, gen2Start, path, rows, sdate, days).Crashed?
    ensures DecayCall(style, measure, gen2Start, path, rows, sdate, days).id == NoradId(LastBefore(rows, sdate).value.noradCatId)
  {
  }

  /** Once a day raises, the whole loop raises. */
  lemma {:induction false} DecayRaisedStays(style: KeyStyle, measure: Measure, rows: seq<Tle>, last: Tle, median: real, sdate: Instant, days: seq<int>, n: nat)
    requires n <= |days| && DecayDays(style, measure, rows, last, median, sdate, days[..n]).None?
    ensures DecayDays(style, measure, rows, last, median, sdate, days).None?
    decreases |days| - n
  {
    if n < |days| {
      assert days[..n + 1][..n] == days[..n];
      DecayRaisedStays(style, measure, rows, last, median, sdate, days, n + 1);
    } else {
      assert days[..n] == days;
    }
  }

  /** With days that are not before the event nothing raises. */
  lemma {:induction false} NonNegativeDaysDecay(style: KeyStyle, measure: Measure, rows: seq<Tle>, last: Tle, median: real, sdate: Instant, days: seq<int>)
    requires last in rows && last.epoch < sdate
    requires forall i :: 0 <= i < |days| ==> days[i] >= 0
    ensures DecayDays(style, measure, rows, last, median, sdate, days).Some?
    decreases |days|
  {
    if days != [] {
      NonNegativeDaysDecay(style, measure, rows, last, median, sdate, days[..|days| - 1]);
      var after := FirstAfter(rows, DayAfter(sdate, days[|days| - 1]));
      if after.Some? {
        BetweenHoldsEnds(rows, last, after.value);
      }
    }
  }

  /** A satellite passing the guards is accepted whenever no day is negative. */
  lemma NonNegativeDaysAccepted(style: KeyStyle, measure: Measure, gen2Start: Option<Instant>, path: string, rows: seq<Tle>, sdate: Instant, days: seq<int>)
    requires forall i :: 0 <= i < |days| ==> days[i] >= 0
    ensures !DecayCall(style, measure, gen2Start, path, rows, sdate, days).Crashed?
  {
    var last := LastBefore(rows, sdate);
    if last.Some? && EventBaseline(rows, sdate, DecayThreshold).Some? {
      var b := EventBaseline(rows, sdate, DecayThreshold).value;
      NonNegativeDaysDecay(style, measure, rows, last.value, b.median, sdate, days);
    }
  }

  /** The entry the record holds for day `d`. */
  predicate DecayDayLogged(r: Record, style: KeyStyle, measure: Measure, rows: seq<Tle>, last: Tle, median: real, sdate: Instant, d: int) {
    match FirstAfter(rows, DayAfter(sdate, d))
    case None => Get(r, VanishedKey(style, d)) == Some(IntCell(0)) && (style == AsWritten ==> KmKey(d) !in Keys(r))
    case Some(after) =>
      Between(rows, last.epoch, after.epoch, None).Some?
      && Get(r, KmKey(d)) == Some(RealCell(DayValue(measure, Between(rows, last.epoch, after.epoch, None).value, last, median)))
  }

  /** The fixed part of the record. */
  predicate DecayHeaded(r: Record, sdate: Instant, last: Tle) {
    |Keys(r)| >= 3 && Keys(r)[..3] == FixedKeys
    && Get(r, "NORAD_CAT_ID") == Some(IntCell(last.noradCatId))
    && Get(r, "LAUNCH_DATE") == Some(TimeCell(last.launchDate))
    && Get(r, "EVENT_DATE") == Some(TimeCell(sdate))
  }

  /** Day keys exist only for the days of `seen`. */
  ghost predicate KmKeysOnlyOf(r: Record, seen: seq<int>) {
    forall d :: KmKey(d) in Keys(r) ==> d in seen
  }

  /** The record after the passes for the days `seen`; with the corrected
      key its columns are the fixed ones and one per distinct day, whatever
      the TLEs. */
  ghost predicate DecayRecordOf(r: Record, style: KeyStyle, measure: Measure, rows: seq<Tle>, last: Tle, median: real, sdate: Instant, seen: seq<int>) {
    DecayHeaded(r, sdate, last) && KmKeysOnlyOf(r, seen)
    && (style == Corrected ==> Keys(r) == FixedKeys + KmKeys(Unique(seen)))
    && forall d :: d in seen ==> DecayDayLogged(r, style, measure, rows, last, median, sdate, d)
  }

  lemma PutKeepsDecayHead(r: Record, sdate: Instant, last: Tle, k: string, v: Cell)
    requires DecayHeaded(r, sdate, last) && |k| > 0 && k[0] == 'K'
    ensures DecayHeaded(Put(r, k, v), sdate, last)
  {
    var r' := Put(r, k, v);
    assert "NORAD_CAT_ID"[0] == 'N' && "LAUNCH_DATE"[0] == 'L' && "EVENT_DATE"[0] == 'E';
    assert Get(r', "NORAD_CAT_ID") == Get(r, "NORAD_CAT_ID");
    assert Get(r', "LAUNCH_DATE") == Get(r, "LAUNCH_DATE");
    assert Get(r', "EVENT_DATE") == Get(r, "EVENT_DATE");
    assert Keys(r')[..3] == Keys(r)[..3];
  }

  lemma InitialDecayRecordOf(style: KeyStyle, measure: Measure, rows: seq<Tle>, last: Tle, median: real, sdate: Instant)
    ensures DecayRecordOf(InitialDecayRecord(sdate, last), style, measure, rows, last, median, sdate, [])
  {
    var r := InitialDecayRecord(sdate, last);
    assert Keys(r) == FixedKeys;
    assert r[1..][1..] == [("EVENT_DATE", TimeCell(sdate))];
    assert Get(r, "LAUNCH_DATE") == Get(r[1..], "LAUNCH_DATE");
    assert Get(r, "EVENT_DATE") == Get(r[1..][1..], "EVENT_DATE");
    assert KmKeys(Unique([])) == [];
    forall d ensures KmKey(d) !in Keys(r) {
      KmKeyIn([], d);
    }
  }

  /** Adding the key `k` of day `e` keeps day keys to the days of `seen + [e]`. */
  lemma PutKeepsKmKeysOnly(r: Record, style: KeyStyle, seen: seq<int>, e: int, k: string, v: Cell)
    requires KmKeysOnlyOf(r, seen)
    requires k == KmKey(e) || k == VanishedKey(style, e)
    ensures KmKeysOnlyOf(Put(r, k, v), seen + [e])
  {
    var r' := Put(r, k, v);
    assert Keys(r') == Keys(r) || Keys(r') == Keys(r) + [k];
    forall d | KmKey(d) in Keys(r') ensures d in seen + [e] {
      if KmKey(d) == k {
        if k == KmKey(e) {
          KeysDistinct(d, e);
        } else {
          FloatKeyIsNoDayKey(e, d);
        }
      }
    }
  }

  /** With the corrected key, the columns grow by the day's key when the day is new. */
  lemma PutKeepsColumns(r: Record, seen: seq<int>, e: int, v: Cell)
    requires Keys(r) == FixedKeys + KmKeys(Unique(seen))
    ensures Keys(Put(r, KmKey(e), v)) == FixedKeys + KmKeys(Unique(seen + [e]))
  {
    UniqueSnoc(seen, e);
    KmKeyIn(Unique(seen), e);
    if e !in Unique(seen) {
      KmKeysSnoc(Unique(seen), e);
      ConcatAssoc(FixedKeys, KmKeys(Unique(seen)), [KmKey(e)]);
    }
  }

  lemma KmKeysSnoc(days: seq<int>, e: int)
    ensures KmKeys(days + [e]) == KmKeys(days) + [KmKey(e)]
  {
    assert KmKeys(days + [e]) == KmKeys(days) + [KmKey(e)];
  }

  lemma FloatKeyInjective(d: int, e: int)
    ensures FloatKey(d) == FloatKey(e) ==> d == e
  {
    if FloatKey(d) == FloatKey(e) {
      assert FloatKey(d) == KmKey(d) + ".0" && FloatKey(e) == KmKey(e) + ".0";
      assert |KmKey(d)| == |KmKey(e)|;
      assert KmKey(d) == FloatKey(d)[..|KmKey(d)|] == FloatKey(e)[..|KmKey(e)|] == KmKey(e);
      KeysDistinct(d, e);
    }
  }

  /** Adding the key of day `e` keeps the entry of every other day. */
  lemma PutKeepsDecayDay(r: Record, style: KeyStyle, measure: Measure, rows: seq<Tle>, last: Tle, median: real, sdate: Instant, d: int, e: int, k: string, v: Cell)
    requires d != e && (k == KmKey(e) || k == VanishedKey(style, e))
    requires DecayDayLogged(r, style, measure, rows, last, median, sdate, d)
    ensures DecayDayLogged(Put(r, k, v), style, measure, rows, last, median, sdate, d)
  {
    KeysDistinct(d, e);
    FloatKeyIsNoDayKey(d, e);
    FloatKeyIsNoDayKey(e, d);
    FloatKeyInjective(d, e);
    assert KmKey(d) != k && VanishedKey(style, d) != k;
    assert Keys(Put(r, k, v)) == Keys(r) || Keys(Put(r, k, v)) == Keys(r) + [k];
  }

  lemma PutKeepsDecayDays(r: Record, style: KeyStyle, measure: Measure, rows: seq<Tle>, last: Tle, median: real, sdate: Instant, seen: seq<int>, e: int, k: string, v: Cell)
    requires k == KmKey(e) || k == VanishedKey(style, e)
    requires forall d :: d in seen ==> DecayDayLogged(r, style, measure, rows, last, median, sdate, d)
    requires DecayDayLogged(Put(r, k, v), style, measure, rows, last, median, sdate, e)
    ensures forall d :: d in seen + [e] ==> DecayDayLogged(Put(r, k, v), style, measure, rows, last, median, sdate, d)
  {
    forall d | d in seen && d != e ensures DecayDayLogged(Put(r, k, v), style, measure, rows, last, median, sdate, d) {
      PutKeepsDecayDay(r, style, measure, rows, last, median, sdate, d, e, k, v);
    }
    DecayAllLogged(Put(r, k, v), style, measure, rows, last, median, sdate, seen, e);
  }

  /** The days before `e` and the day `e` itself make up the days `seen + [e]`. */
  lemma DecayAllLogged(r: Record, style: KeyStyle, measure: Measure, rows: seq<Tle>, last: Tle, median: real, sdate: Instant, seen: seq<int>, e: int)
    requires forall d :: d in seen && d != e ==> DecayDayLogged(r, style, measure, rows, last, median, sdate, d)
    requires DecayDayLogged(r, style, measure, rows, last, median, sdate, e)
    ensures forall d :: d in seen + [e] ==> DecayDayLogged(r, style, measure, rows, last, median, sdate, d)
  {
    forall d | d in seen + [e] ensures DecayDayLogged(r, style, measure, rows, last, median, sdate, d) {
      if d != e {
        assert d in seen;
      }
    }
  }

  /** A pass for a day with no TLE after it adds a zero entry. */
  lemma DecayStepVanished(r: Record, style: KeyStyle, measure: Measure, rows: seq<Tle>, last: Tle, median: real, sdate: Instant, seen: seq<int>, e: int)
    requires FirstAfter(rows, DayAfter(sdate, e)).None?
    requires DecayRecordOf(r, style, measure, rows, last, median, sdate, seen)
    ensures DecayRecordOf(Put(r, VanishedKey(style, e), IntCell(0)), style, measure, rows, last, median, sdate, seen + [e])
  {
    var k := VanishedKey(style, e);
    var r' := Put(r, k, IntCell(0));
    KeysDistinct(e, e);
    FloatKeyIsNoDayKey(e, e);
    PutKeepsDecayHead(r, sdate, last, k, IntCell(0));
    PutKeepsKmKeysOnly(r, style, seen, e, k, IntCell(0));
    if style == Corrected {
      PutKeepsColumns(r, seen, e, IntCell(0));
    }
    assert Keys(r') == Keys(r) || Keys(r') == Keys(r) + [k];
    assert style == AsWritten ==> (KmKey(e) in Keys(r) ==> e in seen) && KmKey(e) != k;
    assert DecayDayLogged(r', style, measure, rows, last, median, sdate, e);
    PutKeepsDecayDays(r, style, measure, rows, last, median, sdate, seen, e, k, IntCell(0));
  }

  /** A pass for a day with a TLE after it adds the day's value over `w`. */
  lemma DecayStepObserved(r: Record, style: KeyStyle, measure: Measure, rows: seq<Tle>, last: Tle, median: real, sdate: Instant, seen: seq<int>, e: int, w: seq<Tle>)
    requires FirstAfter(rows, DayAfter(sdate, e)).Some?
    requires Between(rows, last.epoch, FirstAfter(rows, DayAfter(sdate, e)).value.epoch, None) == Some(w)
    requires DecayRecordOf(r, style, measure, rows, last, median, sdate, seen)
    ensures DecayRecordOf(Put(r, KmKey(e), RealCell(DayValue(measure, w, last, median))), style, measure, rows, last, median, sdate, seen + [e])
  {
    var v := RealCell(DayValue(measure, w, last, median));
    var r' := Put(r, KmKey(e), v);
    KeysDistinct(e, e);
    PutKeepsDecayHead(r, sdate, last, KmKey(e), v);
    PutKeepsKmKeysOnly(r, style, seen, e, KmKey(e), v);
    if style == Corrected {
      PutKeepsColumns(r, seen, e, v);
    }
    assert DecayDayLogged(r', style, measure, rows, last, median, sdate, e);
    PutKeepsDecayDays(r, style, measure, rows, last, median, sdate, seen, e, KmKey(e), v);
  }

  lemma DecayDayStep(r: Record, style: KeyStyle, measure: Measure, rows: seq<Tle>, last: Tle, median: real, sdate: Instant, seen: seq<int>, e: int)
    requires DecayDay(style, measure, rows, last, median, sdate, e, r).Some?
    requires DecayRecordOf(r, style, measure, rows, last, median, sdate, seen)
    ensures DecayRecordOf(DecayDay(style, measure, rows, last, median, sdate, e, r).value, style, measure, rows, last, median, sdate, seen + [e])
  {
    var after := FirstAfter(rows, DayAfter(sdate, e));
    if after.None? {
      DecayStepVanished(r, style, measure, rows, last, median, sdate, seen, e);
    } else {
      var w := Between(rows, last.epoch, after.value.epoch, None).value;
      DecayStepObserved(r, style, measure, rows, last, median, sdate, seen, e, w);
    }
  }

  /** A record of the loop holds the fixed keys first and each day's entry;
      with the corrected key, exactly one column per distinct day, in the
      order the days first appear. */
  lemma {:induction false} DecayDaysShape(style: KeyStyle, measure: Measure, rows: seq<Tle>, last: Tle, median: real, sdate: Instant, days: seq<int>)
    requires DecayDays(style, measure, rows, last, median, sdate, days).Some?
    ensures DecayRecordOf(DecayDays(style, measure, rows, last, median, sdate, days).value, style, measure, rows, last, median, sdate, days)
    decreases |days|
  {
    if days == [] {
      InitialDecayRecordOf(style, measure, rows, last, median, sdate);
    } else {
      var init := days[..|days| - 1];
      SnocSplit(days);
      DecayDaysShape(style, measure, rows, last, median, sdate, init);
      var e := days[|days| - 1];
      var r := DecayDays(style, measure, rows, last, median, sdate, init).value;
      DecayDayStep(r, style, measure, rows, last, median, sdate, init, e);
    }
  }

  /** With the corrected key, every accepted record of a run has the same
      columns: NORAD_CAT_ID, LAUNCH_DATE, EVENT_DATE, then one per day. */
  lemma AcceptedColumns(measure: Measure, gen2Start: Option<Instant>, path: string, rows: seq<Tle>, sdate: Instant, days: seq<int>)
    requires DecayCall(Corrected, measure, gen2Start, path, rows, sdate, days).Accepted?
    ensures Keys(DecayCall(Corrected, measure, gen2Start, path, rows, sdate, days).record) == FixedKeys + KmKeys(Unique(days))
  {
    AcceptedRecord(Corrected, measure, gen2Start, path, rows, sdate, days);
    var last := LastBefore(rows, sdate).value;
    var b := EventBaseline(rows, sdate, DecayThreshold).value;
    DecayDaysShape(Corrected, measure, rows, last, b.median, sdate, days);
  }

  /** As written, a day with no TLE after it leaves the record without that
      day's column and adds a `.0` column instead. */
  lemma AsWrittenVanishedColumn(measure: Measure, gen2Start: Option<Instant>, path: string, rows: seq<Tle>, sdate: Instant, days: seq<int>, d: int)
    requires DecayCall(AsWritten, measure, gen2Start, path, rows, sdate, days).Accepted?
    requires d in days && FirstAfter(rows, DayAfter(sdate, d)).None?
    ensures var r := DecayCall(AsWritten, measure, gen2Start, path, rows, sdate, days).record;
            KmKey(d) !in Keys(r) && Get(r, FloatKey(d)) == Some(IntCell(0))
  {
    AcceptedRecord(AsWritten, measure, gen2Start, path, rows, sdate, days);
    var last := LastBefore(rows, sdate).value;
    var b := EventBaseline(rows, sdate, DecayThreshold).value;
    DecayDaysShape(AsWritten, measure, rows, last, b.median, sdate, days);
  }

  /** For each day with a TLE after it, the rise loop stores how far the
      highest TLE from the last one before the event up to that TLE (the
      window `w`) lies above the last one before the event. Together with
      `AcceptedRecord` this is what `Decay` records. */
  lemma RiseOfDays(r: Record, style: KeyStyle, rows: seq<Tle>, last: Tle, median: real, sdate: Instant, days: seq<int>, d: int, w: seq<Tle>)
    requires DecayDays(style, RiseMeasure, rows, last, median, sdate, days) == Some(r) && d in days
    requires last in rows && FirstAfter(rows, DayAfter(sdate, d)).Some?
    requires Between(rows, last.epoch, FirstAfter(rows, DayAfter(sdate, d)).value.epoch, None) == Some(w)
    ensures Get(r, KmKey(d)) == Some(RealCell(Max(Kms(w)) - last.km))
  {
    DayEntryOf(style, RiseMeasure, rows, last, median, sdate, days, d);
    var after := FirstAfter(rows, DayAfter(sdate, d)).value;
    ObservedEntry(r, style, RiseMeasure, rows, last, median, sdate, d, after, w);
    WindowHoldsLast(rows, last, after);
    RiseEntry(r, last, median, d, w);
  }

  /** The entry of a day with a TLE after it is the day's value over its window. */
  lemma ObservedEntry(r: Record, style: KeyStyle, measure: Measure, rows: seq<Tle>, last: Tle, median: real, sdate: Instant, d: int, after: Tle, w: seq<Tle>)
    requires DecayDayLogged(r, style, measure, rows, last, median, sdate, d)
    requires FirstAfter(rows, DayAfter(sdate, d)) == Some(after)
    requires Between(rows, last.epoch, after.epoch, None) == Some(w)
    ensures |w| > 0 && Get(r, KmKey(d)) == Some(RealCell(DayValue(measure, w, last, median)))
  {
  }

  lemma RiseEntry(r: Record, last: Tle, median: real, d: int, w: seq<Tle>)
    requires last in w && Get(r, KmKey(d)) == Some(RealCell(DayValue(RiseMeasure, w, last, median)))
    ensures Get(r, KmKey(d)) == Some(RealCell(Max(Kms(w)) - last.km))
  {
    RiseValue(w, last, median);
    SameEntry(r, KmKey(d), DayValue(RiseMeasure, w, last, median), Max(Kms(w)) - last.km);
  }

  lemma SameEntry(r: Record, k: string, a: real, b: real)
    requires Get(r, k) == Some(RealCell(a)) && a == b
    ensures Get(r, k) == Some(RealCell(b))
  {
  }

  lemma DayEntryOf(style: KeyStyle, measure: Measure, rows: seq<Tle>, last: Tle, median: real, sdate: Instant, days: seq<int>, d: int)
    requires DecayDays(style, measure, rows, last, median, sdate, days).Some? && d in days
    ensures DecayDayLogged(DecayDays(style, measure, rows, last, median, sdate, days).value, style, measure, rows, last, median, sdate, d)
  {
    DecayDaysShape(style, measure, rows, last, median, sdate, days);
  }

  /** A non-empty window from a row's epoch holds that row. */
  lemma WindowHoldsLast(rows: seq<Tle>, last: Tle, after: Tle)
    requires last in rows && Between(rows, last.epoch, after.epoch, None).Some?
    ensures last in Between(rows, last.epoch, after.epoch, None).value
  {
    var w := Between(rows, last.epoch, after.epoch, None).value;
    assert w[0] in w && InWindow(w[0], last.epoch, after.epoch, None);
    assert InWindow(last, last.epoch, after.epoch, None);
  }

  /** An accepted call's record is the loop's record over the baseline. */
  lemma AcceptedRecord(style: KeyStyle, measure: Measure, gen2Start: Option<Instant>, path: string, rows: seq<Tle>, sdate: Instant, days: seq<int>)
    requires DecayCall(style, measure, gen2Start, path, rows, sdate, days).Accepted?
    ensures LastBefore(rows, sdate).Some? && EventBaseline(rows, sdate, DecayThreshold).Some?
    ensures EventBaseline(rows, sdate, DecayThreshold).value.last == LastBefore(rows, sdate).value
    ensures DecayDays(style, measure, rows, LastBefore(rows, sdate).value, EventBaseline(rows, sdate, DecayThreshold).value.median, sdate, days)
            == Some(DecayCall(style, measure, gen2Start, path, rows, sdate, days).record)
  {
  }

  /** One more day extends the loop by one pass. */
  lemma DecayDaysSnoc(style: KeyStyle, measure: Measure, rows: seq<Tle>, last: Tle, median: real, sdate: Instant, days: seq<int>, i: int)
    requires 0 <= i < |days| && DecayDays(style, measure, rows, last, median, sdate, days[..i]).Some?
    ensures DecayDays(style, measure, rows, last, median, sdate, days[..i + 1])
            == DecayDay(style, measure, rows, last, median, sdate, days[i], DecayDays(style, measure, rows, last, median, sdate, days[..i]).value)
  {
    PrefixStep(days, i);
  }

  /** The loop has run over the first `i` days and built `record`. */
  ghost predicate LoopDone(style: KeyStyle, measure: Measure, rows: seq<Tle>, last: Tle, median: real, sdate: Instant, days: seq<int>, i: int, record: Record)
    requires 0 <= i <= |days|
  {
    DecayDays(style, measure, rows, last, median, sdate, days[..i]) == Some(record)
  }

  /** A pass for a day with no TLE after it sets the zero entry. */
  lemma DecayLoopVanished(style: KeyStyle, measure: Measure, rows: seq<Tle>, last: Tle, median: real, sdate: Instant, days: seq<int>, i: int, record: Record)
    requires 0 <= i < |days| && LoopDone(style, measure, rows, last, median, sdate, days, i, record)
    requires FirstAfter(rows, DayAfter(sdate, days[i])).None?
    ensures LoopDone(style, measure, rows, last, median, sdate, days, i + 1, Put(record, VanishedKey(style, days[i]), IntCell(0)))
  {
    DecayDaysSnoc(style, measure, rows, last, median, sdate, days, i);
  }

  /** A pass for a day with a TLE after it sets the day's value over the window `w`. */
  lemma DecayLoopObserved(style: KeyStyle, measure: Measure, rows: seq<Tle>, last: Tle, median: real, sdate: Instant, days: seq<int>, i: int, record: Record, w: seq<Tle>)
    requires 0 <= i < |days| && LoopDone(style, measure, rows, last, median, sdate, days, i, record)
    requires FirstAfter(rows, DayAfter(sdate, days[i])).Some?
    requires Between(rows, last.epoch, FirstAfter(rows, DayAfter(sdate, days[i])).value.epoch, None) == Some(w)
    ensures |w| > 0
    ensures LoopDone(style, measure, rows, last, median, sdate, days, i + 1, Put(record, KmKey(days[i]), RealCell(DayValue(measure, w, last, median))))
  {
    DecayDaysSnoc(style, measure, rows, last, median, sdate, days, i);
  }

  /** A pass whose window is empty raises, and so does the whole loop. */
  lemma DecayLoopRaised(style: KeyStyle, measure: Measure, rows: seq<Tle>, last: Tle, median: real, sdate: Instant, days: seq<int>, i: int, record: Record)
    requires 0 <= i < |days| && LoopDone(style, measure, rows, last, median, sdate, days, i, record)
    requires FirstAfter(rows, DayAfter(sdate, days[i])).Some?
    requires Between(rows, last.epoch, FirstAfter(rows, DayAfter(sdate, days[i])).value.epoch, None).None?
    ensures DecayDays(style, measure, rows, last, median, sdate, days).None?
  {
    DecayDaysSnoc(style, measure, rows, last, median, sdate, days, i);
    DecayRaisedStays(style, measure, rows, last, median, sdate, days, i + 1);
  }

  lemma DecayLoopEnd(style: KeyStyle, measure: Measure, rows: seq<Tle>, last: Tle, median: real, sdate: Instant, days: seq<int>, record: Record)
    requires LoopDone(style, measure, rows, last, median, sdate, days, |days|, record)
    ensures DecayDays(style, measure, rows, last, median, sdate, days) == Some(record)
  {
    assert days[..|days|] == days;
  }

  /** The value of one day over its window: the largest deviation from the
      median, or how far the highest altitude lies above the last one. */
  method MeasureWindow(measure: Measure, w: seq<Tle>, last: Tle, median: real) returns (value: real)
    requires |w| > 0
    ensures value == DayValue(measure, w, last, median)
  {
    if measure == AbsoluteChangeMeasure {
      value := Max(Deviations(w, median));
    } else {
      var diff := Min(Differences(w, last.km));
      value := if diff < 0.0 then Abs(diff) else 0.0;
    }
  }

  /** The loop over `edates`. */
  method MeasureDecayDays(style: KeyStyle, measure: Measure, rows: seq<Tle>, last: Tle, median: real, sdate: Instant, days: seq<int>)
    returns (r: Option<Record>)
    ensures r == DecayDays(style, measure, rows, last, median, sdate, days)
  {
    var record := InitialDecayRecord(sdate, last);
    var i := 0;
    while i < |days|
      invariant 0 <= i <= |days|
      invariant LoopDone(style, measure, rows, last, median, sdate, days, i, record)
    {
      var d := days[i];
      var after := FirstAfter(rows, DayAfter(sdate, d));
      if after.None? {
        DecayLoopVanished(style, measure, rows, last, median, sdate, days, i, record);
        record := Put(record, VanishedKey(style, d), IntCell(0));
      } else {
        var w := Between(rows, last.epoch, after.value.epoch, None);
        if w.None? {
          DecayLoopRaised(style, measure, rows, last, median, sdate, days, i, record);
          return None;
        }
        DecayLoopObserved(style, measure, rows, last, median, sdate, days, i, record, w.value);
        var value := MeasureWindow(measure, w.value, last, median);
        record := Put(record, KmKey(d), RealCell(value));
      }
      i := i + 1;
    }
    DecayLoopEnd(style, measure, rows, last, median, sdate, days, record);
    return Some(record);
  }

  /** The guards and the loop of both functions, before the record is logged. */
  method EvaluateDecay(style: KeyStyle, measure: Measure, gen2Start: Option<Instant>, path: string, rows: seq<Tle>, sdate: Instant, days: seq<int>)
    returns (r: DecayResult)
    ensures r == DecayCall(style, measure, gen2Start, path, rows, sdate, days)
  {
    var last := LastBefore(rows, sdate);
    if last.None? {
      return Rejected(FileStem(StemOf(path)));
    }
    var id := NoradId(last.value.noradCatId);
    if gen2Start.Some? && gen2Start.value > last.value.launchDate {
      return Rejected(id);
    }
    EventBaselineOf(rows, sdate, DecayThreshold);
    var median := MedianAltitude(rows, Some(sdate)).value;
    if Abs(median - last.value.km) >= DecayThreshold {
      return Rejected(id);
    }
    var record := MeasureDecayDays(style, measure, rows, last.value, median, sdate, days);
    if record.None? {
      return Crashed;
    }
    return Accepted(record.value, id);
  }

  /** The shared body of both functions, appending to `out`. */
  method RunDecay(out: CsvFile, style: KeyStyle, measure: Measure, gen2Start: Option<Instant>, path: string, rows: seq<Tle>, sdate: Instant, days: seq<int>)
    returns (raised: bool, accepted: bool, id: SatId)
    requires out.Valid()
    modifies out
    ensures out.Valid()
    ensures var r := DecayCall(style, measure, gen2Start, path, rows, sdate, days);
            (raised <==> r.Crashed?) && (accepted <==> r.Accepted?) && (!raised ==> id == r.id)
            && (r.Accepted? ==> out.lines == Appended(old(out.lines), r.record))
            && (!r.Accepted? ==> out.lines == old(out.lines))
  {
    var r := EvaluateDecay(style, measure, gen2Start, path, rows, sdate, days);
    if r.Crashed? {
      return true, false, FileStem(StemOf(path));
    }
    if r.Accepted? {
      out.Log(r.record);
    }
    return false, r.Accepted?, r.id;
  }

  /** `compute_abs_decay`: `style` `AsWritten` is the program as written,
      `Corrected` the program with the vanished-day key fixed. */
  method ComputeAbsDecay(out: CsvFile, style: KeyStyle, path: string, rows: seq<Tle>, sdate: Instant, days: seq<int>, gen2Start: Instant)
    returns (raised: bool, accepted: bool, id: SatId)
    requires out.Valid()
    modifies out
    ensures out.Valid()
    ensures var r := AbsDecay(style, path, rows, sdate, days, gen2Start);
            (raised <==> r.Crashed?) && (accepted <==> r.Accepted?) && (!raised ==> id == r.id)
            && (r.Accepted? ==> out.lines == Appended(old(out.lines), r.record))
            && (!r.Accepted? ==> out.lines == old(out.lines))
  {
    raised, accepted, id := RunDecay(out, style, AbsoluteChangeMeasure, Some(gen2Start), path, rows, sdate, days);
  }

  /** `compute_decay`, with the vanished-day key of `style` as for `ComputeAbsDecay`. */
  method ComputeDecay(out: CsvFile, style: KeyStyle, path: string, rows: seq<Tle>, sdate: Instant, days: seq<int>)
    returns (raised: bool, accepted: bool, id: SatId)
    requires out.Valid()
    modifies out
    ensures out.Valid()
    ensures var r := Decay(style, path, rows, sdate, days);
            (raised <==> r.Crashed?) && (accepted <==> r.Accepted?) && (!raised ==> id == r.id)
            && (r.Accepted? ==> out.lines == Appended(old(out.lines), r.record))
            && (!r.Accepted? ==> out.lines == old(out.lines))
  {
    raised, accepted, id := RunDecay(out, style, RiseMeasure, None, path, rows, sdate, days);
  }
}
