/** The time-indexed queries over a satellite's TLE table: a DataFrame is a
    sequence of rows in file order, an instant is a count of seconds. */
module DataProcessor {
  import opened Wrappers
  import opened Seqs
  import opened Stats

  type Instant = int

  const SecondsPerHour: int := 3600
  const SecondsPerDay: int := 86400

  /** One row of a TLE CSV file, restricted to the columns the measurers read. */
  datatype Tle = Tle(noradCatId: int, epoch: Instant, launchDate: Instant, km: real, drag: real)

  /** Rows in non-decreasing EPOCH order, as the TLE files are written. */
  ghost predicate EpochSorted(rows: seq<Tle>) {
    forall i, j :: 0 <= i < j < |rows| ==> rows[i].epoch <= rows[j].epoch
  }

  /** The KM column. */
  function Kms(rows: seq<Tle>): (r: seq<real>)
    ensures |r| == |rows| && forall i :: 0 <= i < |rows| ==> r[i] == rows[i].km
  {
    seq(|rows|, i requires 0 <= i < |rows| => rows[i].km)
  }

  /** The DRAG column. */
  function Drags(rows: seq<Tle>): (r: seq<real>)
    ensures |r| == |rows| && forall i :: 0 <= i < |rows| ==> r[i] == rows[i].drag
  {
    seq(|rows|, i requires 0 <= i < |rows| => rows[i].drag)
  }

  /** `get_last_TLE_before_the_date`: the last row, in row order, whose EPOCH
      is strictly before `date`; `None` when there is none. */
  function LastBefore(rows: seq<Tle>, date: Instant): (r: Option<Tle>)
    ensures r.None? <==> forall i :: 0 <= i < |rows| ==> rows[i].epoch >= date
    ensures r.Some? ==> r.value.epoch < date
    ensures r.Some? ==> exists k :: 0 <= k < |rows| && rows[k] == r.value
                                    && forall j :: k < j < |rows| ==> rows[j].epoch >= date
    decreases |rows|
  {
    if rows == [] then None
    else if rows[|rows| - 1].epoch < date then Some(rows[|rows| - 1])
    else
      var r := LastBefore(rows[..|rows| - 1], date);
      assert r.Some? ==> exists k :: 0 <= k < |rows| && rows[k] == r.value
                                    && forall j :: k < j < |rows| ==> rows[j].epoch >= date;
      r
  }

  /** `get_first_TLE_after_the_date`: the first row, in row order, whose EPOCH
      is strictly after `date`; `None` when there is none. */
  function FirstAfter(rows: seq<Tle>, date: Instant): (r: Option<Tle>)
    ensures r.None? <==> forall i :: 0 <= i < |rows| ==> rows[i].epoch <= date
    ensures r.Some? ==> r.value.epoch > date
    ensures r.Some? ==> exists k :: 0 <= k < |rows| && rows[k] == r.value
                                    && forall j :: 0 <= j < k ==> rows[j].epoch <= date
    decreases |rows|
  {
    if rows == [] then None
    else if rows[0].epoch > date then Some(rows[0])
    else
      var r := FirstAfter(rows[1..], date);
      assert r.Some? ==> exists k :: 0 <= k < |rows| && rows[k] == r.value
                                    && forall j :: 0 <= j < k ==> rows[j].epoch <= date;
      r
  }

  /** The row mask of `get_all_TLE_between_two_date`: EPOCH within
      `[sdate, edate]`, both ends included, and the catalog number when given. */
  predicate InWindow(t: Tle, sdate: Instant, edate: Instant, catId: Option<int>) {
    (catId.Some? ==> t.noradCatId == catId.value) && sdate <= t.epoch <= edate
  }

  /** `get_all_TLE_between_two_date`: the rows in the window, in row order, or
      `None` when no row is. */
  function Between(rows: seq<Tle>, sdate: Instant, edate: Instant, catId: Option<int>): (r: Option<seq<Tle>>)
    ensures r.None? <==> forall i :: 0 <= i < |rows| ==> !InWindow(rows[i], sdate, edate, catId)
    ensures r.Some? ==> |r.value| > 0
    ensures r.Some? ==> forall t :: t in r.value <==> t in rows && InWindow(t, sdate, edate, catId)
  {
    var f := Filter(rows, (t: Tle) => InWindow(t, sdate, edate, catId));
    if |f| > 0 then
      assert f[0] in f;
      Some(f)
    else
      assert forall i :: 0 <= i < |rows| ==> rows[i] !in f;
      None
  }

  /** The window keeps the row order of the table. */
  lemma BetweenIsSubsequence(rows: seq<Tle>, sdate: Instant, edate: Instant, catId: Option<int>)
    requires Between(rows, sdate, edate, catId).Some?
    ensures SubsequenceOf(Between(rows, sdate, edate, catId).value, rows)
  {
    FilterIsSubsequence(rows, (t: Tle) => InWindow(t, sdate, edate, catId));
  }

  /** The window between two rows' epochs holds both rows. */
  lemma BetweenHoldsEnds(rows: seq<Tle>, a: Tle, b: Tle)
    requires a in rows && b in rows && a.epoch <= b.epoch
    ensures Between(rows, a.epoch, b.epoch, None).Some?
    ensures a in Between(rows, a.epoch, b.epoch, None).value
    ensures b in Between(rows, a.epoch, b.epoch, None).value
  {
    assert InWindow(a, a.epoch, b.epoch, None);
  }

  /** The rows considered by `get_median_altitude_by_cat_id`. */
  function RowsBefore(rows: seq<Tle>, endDate: Option<Instant>): (r: seq<Tle>)
    ensures forall t :: t in r <==> t in rows && (endDate.Some? ==> t.epoch < endDate.value)
  {
    if endDate.None? then rows else Filter(rows, (t: Tle) => t.epoch < endDate.value)
  }

  /** `get_median_altitude_by_cat_id`: the median KM of the rows before
      `endDate` (all rows when it is `None`); `None` stands for NaN. */
  function MedianAltitude(rows: seq<Tle>, endDate: Option<Instant>): (r: Option<real>)
    ensures r.Some? <==> exists t :: t in rows && (endDate.Some? ==> t.epoch < endDate.value)
  {
    var kept := RowsBefore(rows, endDate);
    assert |kept| > 0 ==> kept[0] in kept;
    Median(Kms(kept))
  }

  /** The median altitude lies between the lowest and highest altitude it is taken over. */
  lemma MedianAltitudeBounds(rows: seq<Tle>, endDate: Option<Instant>)
    requires MedianAltitude(rows, endDate).Some?
    ensures Min(Kms(RowsBefore(rows, endDate))) <= MedianAltitude(rows, endDate).value
    ensures MedianAltitude(rows, endDate).value <= Max(Kms(RowsBefore(rows, endDate)))
  {
    MedianBounds(Kms(RowsBefore(rows, endDate)));
  }

  /** Once a last TLE before `date` exists, the median before `date` is a number:
      the NaN guards that follow the lookup in the measurers never fire. */
  lemma LastBeforeGivesMedian(rows: seq<Tle>, date: Instant)
    requires LastBefore(rows, date).Some?
    ensures MedianAltitude(rows, Some(date)).Some?
  {
    assert LastBefore(rows, date).value in rows;
  }

  /** On a sorted table the last row before `date` has the greatest epoch below `date`. */
  lemma LastBeforeIsLatest(rows: seq<Tle>, date: Instant)
    requires EpochSorted(rows) && LastBefore(rows, date).Some?
    ensures forall i :: 0 <= i < |rows| && rows[i].epoch < date ==> rows[i].epoch <= LastBefore(rows, date).value.epoch
  {
    var v := LastBefore(rows, date).value;
    var k :| 0 <= k < |rows| && rows[k] == v && forall j :: k < j < |rows| ==> rows[j].epoch >= date;
    assert forall i :: 0 <= i <= k ==> rows[i].epoch <= rows[k].epoch;
  }

  /** On a sorted table the first row after `date` has the least epoch above `date`. */
  lemma FirstAfterIsEarliest(rows: seq<Tle>, date: Instant)
    requires EpochSorted(rows) && FirstAfter(rows, date).Some?
    ensures forall i :: 0 <= i < |rows| && rows[i].epoch > date ==> FirstAfter(rows, date).value.epoch <= rows[i].epoch
  {
    var v := FirstAfter(rows, date).value;
    var k :| 0 <= k < |rows| && rows[k] == v && forall j :: 0 <= j < k ==> rows[j].epoch <= date;
    assert forall i :: k <= i < |rows| ==> rows[k].epoch <= rows[i].epoch;
  }

  /** A satellite with a TLE after a date also has one after every earlier date. */
  lemma FirstAfterAntitone(rows: seq<Tle>, d1: Instant, d2: Instant)
    requires d1 <= d2 && FirstAfter(rows, d2).Some?
    ensures FirstAfter(rows, d1).Some?
  {
    var v := FirstAfter(rows, d2).value;
    var k :| 0 <= k < |rows| && rows[k] == v;
    assert rows[k].epoch > d1;
  }

  /** `satellite_age_in_days`: last EPOCH minus first EPOCH, in row order, in
      days; `None` where `iloc` raises on an empty table. */
  function SatelliteAgeInDays(rows: seq<Tle>): (r: Option<real>)
    ensures r.Some? <==> |rows| > 0
    ensures EpochSorted(rows) && r.Some? ==> r.value >= 0.0
  {
    if |rows| == 0 then None
    else Some((rows[|rows| - 1].epoch - rows[0].epoch) as real / SecondsPerDay as real)
  }
}
