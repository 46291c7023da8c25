/** The per-file cleanup of the Starlink TLE files: a file with too few TLEs
    or too short a history is removed, any other is rewritten with only the
    TLEs at operational altitude. */
module Cleanup {
  import opened Seqs
  import opened DataProcessor

  /** What a preprocessing step does to a TLE file: `remove_file`, or
      `export_as_csv` of these rows in place of the old content. */
  datatype FileAction = RemoveFile | ExportRows(rows: seq<Tle>)

  const MinTles: int := 10
  const MinAgeDays: real := 30.0
  const MaxOperationalKm: real := 650.0

  /** `df[df[TLE.ALTITUDE_KM] < 650]`. */
  function Operational(rows: seq<Tle>): (r: seq<Tle>)
    ensures forall t :: t in r <==> t in rows && t.km < MaxOperationalKm
  {
    Filter(rows, (t: Tle) => t.km < MaxOperationalKm)
  }

  /** `clean_up`: the row-count test, then the age test, then the altitude
      filter; the filtered rows are written back even when none was dropped.
      A file is removed exactly when it has fewer than 10 TLEs, whatever its
      age, or spans less than 30 days. */
  function CleanUp(rows: seq<Tle>): (r: FileAction)
    ensures |rows| < MinTles ==> r == RemoveFile
    ensures r == RemoveFile <==> |rows| < MinTles || SatelliteAgeInDays(rows).value < MinAgeDays
  {
    if |rows| < MinTles then RemoveFile
    else if SatelliteAgeInDays(rows).value < MinAgeDays then RemoveFile
    else ExportRows(Operational(rows))
  }

  /** A file that is kept is rewritten with its operational TLEs, in their
      original order, and with no others. */
  lemma CleanUpExports(rows: seq<Tle>)
    requires CleanUp(rows).ExportRows?
    ensures |rows| >= MinTles && SatelliteAgeInDays(rows).value >= MinAgeDays
    ensures SubsequenceOf(CleanUp(rows).rows, rows)
    ensures forall t :: t in CleanUp(rows).rows <==> t in rows && t.km < MaxOperationalKm
  {
    FilterIsSubsequence(rows, (t: Tle) => t.km < MaxOperationalKm);
  }

  /** A kept file whose TLEs are all operational is written back unchanged. */
  lemma AllOperationalUnchanged(rows: seq<Tle>)
    requires CleanUp(rows).ExportRows?
    requires forall i :: 0 <= i < |rows| ==> rows[i].km < MaxOperationalKm
    ensures CleanUp(rows) == ExportRows(rows)
  {
    FilterAll(rows, (t: Tle) => t.km < MaxOperationalKm);
  }

  /** Cleaning a cleaned file again either removes it (dropped TLEs can make
      it too small or too short) or leaves it as it is. */
  lemma CleanUpIdempotent(rows: seq<Tle>)
    requires CleanUp(rows).ExportRows?
    ensures CleanUp(CleanUp(rows).rows) == RemoveFile || CleanUp(CleanUp(rows).rows) == CleanUp(rows)
  {
    var k := CleanUp(rows).rows;
    if CleanUp(k).ExportRows? {
      forall i | 0 <= i < |k|
        ensures k[i].km < MaxOperationalKm
      {
        assert k[i] in k;
      }
      AllOperationalUnchanged(k);
    }
  }
}
