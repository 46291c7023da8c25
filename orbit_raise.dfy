/** Stripping the orbit-raising phase from a Starlink TLE file: the launch's
    row of the orbit-raise table gives the instant the satellite reached its
    operational altitude, and only the TLEs after it are kept. */
module OrbitRaise {
  import opened Wrappers
  import opened Seqs
  import opened DataProcessor
  import opened Cleanup

  /** A row of the orbit-raise CSV: a launch and the instant its satellites
      completed orbit raising (`ORBIT_RAISE_COMEPLETE`). */
  datatype OrbitRaiseRow = OrbitRaiseRow(launchDate: Instant, complete: Instant)

  /** `orbit_raise_df[orbit_raise_df[TLE.LAUNCH_DATE] == launch_date]`. */
  function Matches(table: seq<OrbitRaiseRow>, launch: Instant): (m: seq<OrbitRaiseRow>)
    ensures forall o :: o in m <==> o in table && o.launchDate == launch
  {
    Filter(table, (o: OrbitRaiseRow) => o.launchDate == launch)
  }

  /** `df_TLE[df_TLE[TLE.EPOCH] > maneuver_complete_date]`. */
  function After(rows: seq<Tle>, complete: Instant): (r: seq<Tle>)
    ensures forall t :: t in r <==> t in rows && t.epoch > complete
  {
    Filter(rows, (t: Tle) => t.epoch > complete)
  }

  /** `strip_orbit_raise_maneuver`: the launch date of the file's last row is
      looked up; one matching row keeps the TLEs after its completion
      instant, none or several remove the file. `None` where `iloc[-1]`
      raises on an empty file. */
  function StripOrbitRaise(rows: seq<Tle>, table: seq<OrbitRaiseRow>): (r: Option<FileAction>)
    ensures r.None? <==> rows == []
    ensures rows != [] ==> (r == Some(RemoveFile) <==> |Matches(table, rows[|rows| - 1].launchDate)| != 1)
  {
    if rows == [] then None
    else
      var m := Matches(table, rows[|rows| - 1].launchDate);
      if |m| == 1 then Some(ExportRows(After(rows, m[0].complete))) else Some(RemoveFile)
  }

  /** With `o` the one row for the last row's launch, the file is rewritten
      with the TLEs strictly after `o.complete`, in order: a TLE exactly at
      the completion instant is dropped. */
  lemma StripKeeps(rows: seq<Tle>, table: seq<OrbitRaiseRow>, o: OrbitRaiseRow)
    requires rows != []
    requires |Matches(table, rows[|rows| - 1].launchDate)| == 1
    requires o in table && o.launchDate == rows[|rows| - 1].launchDate
    ensures StripOrbitRaise(rows, table) == Some(ExportRows(After(rows, o.complete)))
    ensures SubsequenceOf(After(rows, o.complete), rows)
    ensures forall t :: t in rows && t.epoch <= o.complete ==> t !in After(rows, o.complete)
  {
    var m := Matches(table, rows[|rows| - 1].launchDate);
    assert o in m && m[0] in m;
    FilterIsSubsequence(rows, (t: Tle) => t.epoch > o.complete);
  }

  /** In a file of one launch, stripping a stripped file again keeps it as
      it is, unless stripping emptied it, when the second run raises. */
  lemma StripTwice(rows: seq<Tle>, table: seq<OrbitRaiseRow>)
    requires rows != [] && forall i :: 0 <= i < |rows| ==> rows[i].launchDate == rows[|rows| - 1].launchDate
    requires StripOrbitRaise(rows, table).value.ExportRows?
    ensures var k := StripOrbitRaise(rows, table).value.rows;
            StripOrbitRaise(k, table) == if k == [] then None else Some(ExportRows(k))
  {
    var launch := rows[|rows| - 1].launchDate;
    var m := Matches(table, launch);
    var k := After(rows, m[0].complete);
    if k != [] {
      assert k[|k| - 1] in rows;
      assert k[|k| - 1].launchDate == launch;
      forall i | 0 <= i < |k|
        ensures k[i].epoch > m[0].complete
      {
        assert k[i] in k;
      }
      FilterAll(k, (t: Tle) => t.epoch > m[0].complete);
    }
  }
}
