/** The tracking insight of one day of Starlink TLEs: how many TLEs and how
    many distinct satellites were published, then the number of TLEs of
    each satellite. */
module TrackingAnomaly {
  import opened Wrappers
  import opened Seqs
  import opened DataProcessor
  import opened Records
  import opened Io

  /** The NORAD_CAT_ID column. */
  function CatIds(rows: seq<Tle>): (r: seq<int>)
    ensures |r| == |rows| && forall i :: 0 <= i < |rows| ==> r[i] == rows[i].noradCatId
  {
    seq(|rows|, i requires 0 <= i < |rows| => rows[i].noradCatId)
  }

  /** `get_unique_cat_ids`: the distinct ids in order of first appearance. */
  function UniqueCatIds(rows: seq<Tle>): seq<int> {
    Unique(CatIds(rows))
  }

  /** The record of the satellites tracked that day. */
  function SatTracked(day: Instant, rows: seq<Tle>): Record {
    [("DAY", TimeCell(day)), ("TOTAL_TLE_UPDATE", IntCell(|rows|)), ("UNIQUE_SAT", IntCell(|UniqueCatIds(rows)|))]
  }

  /** The record of one satellite: its id and `len(df[df["NORAD_CAT_ID"] == cat_id])`. */
  function TlesOf(day: Instant, rows: seq<Tle>, id: int): Record {
    [("DAY", TimeCell(day)), ("NORAD_CAT_ID", IntCell(id)), ("TOTAL_TLE", IntCell(Count(CatIds(rows), id)))]
  }

  /** One per-satellite record for each of `ids`, in order. */
  function TlesPerSat(day: Instant, rows: seq<Tle>, ids: seq<int>): (r: seq<Record>)
    ensures |r| == |ids| && forall i :: 0 <= i < |ids| ==> r[i] == TlesOf(day, rows, ids[i])
  {
    seq(|ids|, i requires 0 <= i < |ids| => TlesOf(day, rows, ids[i]))
  }

  /** UNIQUE_SAT counts the distinct ids, each id that occurs once, and is
      at most TOTAL_TLE_UPDATE. */
  lemma TrackedCounts(rows: seq<Tle>)
    ensures Distinct(UniqueCatIds(rows))
    ensures forall id :: id in UniqueCatIds(rows) <==> exists i :: 0 <= i < |rows| && rows[i].noradCatId == id
    ensures |UniqueCatIds(rows)| <= |rows|
  {
    var c := CatIds(rows);
    forall id
      ensures id in UniqueCatIds(rows) <==> exists i :: 0 <= i < |rows| && rows[i].noradCatId == id
    {
      if id in c {
        var i :| 0 <= i < |c| && c[i] == id;
        assert rows[i].noradCatId == id;
      }
      if exists i :: 0 <= i < |rows| && rows[i].noradCatId == id {
        var i :| 0 <= i < |rows| && rows[i].noradCatId == id;
        assert c[i] == id;
      }
    }
  }

  /** Every distinct satellite has at least one TLE, and the per-satellite
      counts add up to the number of TLEs of the day. */
  lemma PerSatCounts(rows: seq<Tle>)
    ensures forall id :: id in UniqueCatIds(rows) ==> Count(CatIds(rows), id) >= 1
    ensures SumCounts(UniqueCatIds(rows), CatIds(rows)) == |rows|
  {
    var c := CatIds(rows);
    forall id | id in UniqueCatIds(rows)
      ensures Count(c, id) >= 1
    {
      CountPositive(c, id);
    }
    SumCountsUnique(c);
  }

  /** `generate_tracking_insight`: the day's record, then one record per
      distinct satellite in order of first appearance (all to one file when
      the two paths are one). */
  method GenerateTrackingInsight(tracked: CsvFile, perSat: CsvFile, rows: seq<Tle>, day: Instant)
    requires tracked.Valid() && perSat.Valid()
    modifies tracked, perSat
    ensures tracked.Valid() && perSat.Valid()
    ensures tracked != perSat ==> tracked.lines == Appended(old(tracked.lines), SatTracked(day, rows))
                                  && perSat.lines == AppendedAll(old(perSat.lines), TlesPerSat(day, rows, UniqueCatIds(rows)))
    ensures tracked == perSat ==> perSat.lines == AppendedAll(Appended(old(tracked.lines), SatTracked(day, rows)), TlesPerSat(day, rows, UniqueCatIds(rows)))
  {
    var ids := UniqueCatIds(rows);
    tracked.Log(SatTracked(day, rows));
    ghost var start := perSat.lines;
    var i := 0;
    while i < |ids|
      invariant 0 <= i <= |ids|
      invariant perSat.Valid() && tracked.Valid()
      invariant tracked != perSat ==> tracked.lines == Appended(old(tracked.lines), SatTracked(day, rows))
      invariant perSat.lines == AppendedAll(start, TlesPerSat(day, rows, ids[..i]))
    {
      var id := ids[i];
      assert TlesPerSat(day, rows, ids[..i + 1]) == TlesPerSat(day, rows, ids[..i]) + [TlesOf(day, rows, id)];
      AppendedAllConcat(start, TlesPerSat(day, rows, ids[..i]), [TlesOf(day, rows, id)]);
      perSat.Log(TlesOf(day, rows, id));
      i := i + 1;
    }
    assert ids[..i] == ids;
  }
}
