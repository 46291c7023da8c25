/** The orbital-shift classifier: each satellite's after-effect trace is
    tested, in order, for a minor/no impact, station keeping and a permanent
    decay, and is otherwise undecidable. */
module OrbitalShifts {
  import opened Wrappers
  import opened Seqs
  import opened Stats
  import opened Trace

  /** The ALTITUDE_CHANGE_KM column. */
  function Changes(g: seq<TraceRow>): (r: seq<real>)
    ensures |r| == |g| && forall i :: 0 <= i < |g| ==> r[i] == g[i].altitudeChangeKm
  {
    seq(|g|, i requires 0 <= i < |g| => g[i].altitudeChangeKm)
  }

  function First(g: seq<TraceRow>): real
    requires |g| > 0
  {
    g[0].altitudeChangeKm
  }

  function Last(g: seq<TraceRow>): real
    requires |g| > 0
  {
    g[|g| - 1].altitudeChangeKm
  }

  function MedianChange(g: seq<TraceRow>): real
    requires |g| > 0
  {
    Median(Changes(g)).value
  }

  /** `minor_no_impact`: the first and last changes lie within 0.05 km of the
      median, and the largest change within 1 km of it. */
  predicate MinorNoImpact(g: seq<TraceRow>)
    requires |g| > 0
  {
    var m := MedianChange(g);
    Max2(Abs(First(g) - m), Abs(Last(g) - m)) < 0.05 && Abs(m - Max(Changes(g))) < 1.0
  }

  /** `station_keeping`: the first and last changes are both below the median. */
  predicate StationKeeping(g: seq<TraceRow>)
    requires |g| > 0
  {
    First(g) < MedianChange(g) && MedianChange(g) > Last(g)
  }

  /** `permanent_decay`: the median exceeds the first change, and the last
      change exceeds the median, each by more than 0.05 km. */
  predicate PermanentDecay(g: seq<TraceRow>)
    requires |g| > 0
  {
    MedianChange(g) - First(g) > 0.05 && Last(g) - MedianChange(g) > 0.05
  }

  datatype ShiftType = MinorNoImpactShift | StationKeepingShift | PermanentDecayShift | Undecidable

  /** The if/elif dispatch of `detect_shift_type`. */
  function Classify(g: seq<TraceRow>): ShiftType
    requires |g| > 0
  {
    if MinorNoImpact(g) then MinorNoImpactShift
    else if StationKeeping(g) then StationKeepingShift
    else if PermanentDecay(g) then PermanentDecayShift
    else Undecidable
  }

  /** Station keeping has the last change below the median, a permanent decay above it. */
  lemma DecayExcludesKeeping(g: seq<TraceRow>)
    requires |g| > 0
    ensures !(PermanentDecay(g) && StationKeeping(g))
  {
  }

  /** A permanent decay has the first change more than 0.05 km off the median. */
  lemma DecayExcludesMinor(g: seq<TraceRow>)
    requires |g| > 0
    ensures !(PermanentDecay(g) && MinorNoImpact(g))
  {
  }

  /** A trace whose changes are all equal, a single row included, is a minor/no impact. */
  lemma ConstantIsMinor(g: seq<TraceRow>)
    requires |g| > 0
    requires forall i :: 0 <= i < |g| ==> g[i].altitudeChangeKm == g[0].altitudeChangeKm
    ensures MinorNoImpact(g) && Classify(g) == MinorNoImpactShift
  {
    ConstantMedian(Changes(g), g[0].altitudeChangeKm);
  }

  /** A station-keeping trace has at least three rows: with one row the median
      is that row, with two it is their average. */
  lemma KeepingNeedsThreeRows(g: seq<TraceRow>)
    requires |g| > 0 && StationKeeping(g)
    ensures |g| >= 3
  {
    if |g| == 1 {
      MedianOfOne(Changes(g));
    } else if |g| == 2 {
      MedianOfTwo(Changes(g));
    }
  }

  /** A permanent decay rises by more than 0.1 km from the first row to the last. */
  lemma DecayRises(g: seq<TraceRow>)
    requires |g| > 0 && PermanentDecay(g)
    ensures Last(g) - First(g) > 0.1
  {
  }

  /** In a minor/no impact the largest change is under 1 km above the median. */
  lemma MinorMaxNearMedian(g: seq<TraceRow>)
    requires |g| > 0 && MinorNoImpact(g)
    ensures MedianChange(g) <= Max(Changes(g)) < MedianChange(g) + 1.0
  {
    MedianBounds(Changes(g));
  }

  /** `df[df["CAT_ID"] == cat_id]`. */
  function Group(rows: seq<TraceRow>, id: int): (g: seq<TraceRow>)
    ensures forall r :: r in g <==> r in rows && r.catId == id
  {
    Filter(rows, (r: TraceRow) => r.catId == id)
  }

  function CatIds(rows: seq<TraceRow>): (r: seq<int>)
    ensures |r| == |rows| && forall i :: 0 <= i < |rows| ==> r[i] == rows[i].catId
  {
    seq(|rows|, i requires 0 <= i < |rows| => rows[i].catId)
  }

  /** A CAT_ID that occurs in the file has a non-empty group. */
  lemma GroupNonEmpty(rows: seq<TraceRow>, id: int)
    requires id in CatIds(rows)
    ensures |Group(rows, id)| > 0
  {
    var c := CatIds(rows);
    var k :| 0 <= k < |c| && c[k] == id;
    assert rows[k] in Group(rows, id);
  }

  /** The groups of `ids` classified as `kind`, in the order of `ids`. */
  function GroupsOf(rows: seq<TraceRow>, ids: seq<int>, kind: ShiftType): seq<seq<TraceRow>>
    requires forall i :: 0 <= i < |ids| ==> ids[i] in CatIds(rows)
    decreases |ids|
  {
    if ids == [] then []
    else
      var g := Group(rows, ids[|ids| - 1]);
      GroupNonEmpty(rows, ids[|ids| - 1]);
      GroupsOf(rows, ids[..|ids| - 1], kind) + (if Classify(g) == kind then [g] else [])
  }

  /** The four lists hold the groups of `ids` of each kind. */
  ghost predicate Dispatched(rows: seq<TraceRow>, ids: seq<int>, minor: seq<seq<TraceRow>>, keeping: seq<seq<TraceRow>>,
                             decay: seq<seq<TraceRow>>, undecidable: seq<seq<TraceRow>>)
    requires forall i :: 0 <= i < |ids| ==> ids[i] in CatIds(rows)
  {
    minor == GroupsOf(rows, ids, MinorNoImpactShift) && keeping == GroupsOf(rows, ids, StationKeepingShift)
    && decay == GroupsOf(rows, ids, PermanentDecayShift) && undecidable == GroupsOf(rows, ids, Undecidable)
  }

  /** The per-CAT_ID loop of `detect_shift_type`: each group goes to the first
      list whose test it passes, in the order of first appearance. */
  method DetectShiftType(rows: seq<TraceRow>)
    returns (minor: seq<seq<TraceRow>>, keeping: seq<seq<TraceRow>>, decay: seq<seq<TraceRow>>, undecidable: seq<seq<TraceRow>>)
    ensures minor == GroupsOf(rows, Unique(CatIds(rows)), MinorNoImpactShift)
    ensures keeping == GroupsOf(rows, Unique(CatIds(rows)), StationKeepingShift)
    ensures decay == GroupsOf(rows, Unique(CatIds(rows)), PermanentDecayShift)
    ensures undecidable == GroupsOf(rows, Unique(CatIds(rows)), Undecidable)
  {
    var ids := Unique(CatIds(rows));
    minor, keeping, decay, undecidable := [], [], [], [];
    var i := 0;
    while i < |ids|
      invariant 0 <= i <= |ids|
      invariant Dispatched(rows, ids[..i], minor, keeping, decay, undecidable)
    {
      var g := Group(rows, ids[i]);
      DispatchStep(rows, ids, i, minor, keeping, decay, undecidable);
      if MinorNoImpact(g) {
        minor := minor + [g];
      } else if StationKeeping(g) {
        keeping := keeping + [g];
      } else if PermanentDecay(g) {
        decay := decay + [g];
      } else {
        undecidable := undecidable + [g];
      }
      i := i + 1;
    }
    assert ids[..i] == ids;
  }

  /** One more satellite adds its group to the list of its kind and to no other. */
  lemma DispatchStep(rows: seq<TraceRow>, ids: seq<int>, i: int, minor: seq<seq<TraceRow>>, keeping: seq<seq<TraceRow>>,
                     decay: seq<seq<TraceRow>>, undecidable: seq<seq<TraceRow>>)
    requires 0 <= i < |ids| && forall j :: 0 <= j < |ids| ==> ids[j] in CatIds(rows)
    requires Dispatched(rows, ids[..i], minor, keeping, decay, undecidable)
    ensures |Group(rows, ids[i])| > 0
    ensures var g := Group(rows, ids[i]);
            var c := Classify(g);
            Dispatched(rows, ids[..i + 1], if c == MinorNoImpactShift then minor + [g] else minor,
                       if c == StationKeepingShift then keeping + [g] else keeping,
                       if c == PermanentDecayShift then decay + [g] else decay,
                       if c == Undecidable then undecidable + [g] else undecidable)
  {
    GroupsOfStep(rows, ids, i, MinorNoImpactShift);
    GroupsOfStep(rows, ids, i, StationKeepingShift);
    GroupsOfStep(rows, ids, i, PermanentDecayShift);
    GroupsOfStep(rows, ids, i, Undecidable);
  }

  lemma GroupsOfStep(rows: seq<TraceRow>, ids: seq<int>, i: int, kind: ShiftType)
    requires 0 <= i < |ids| && forall j :: 0 <= j < |ids| ==> ids[j] in CatIds(rows)
    ensures |Group(rows, ids[i])| > 0
    ensures Classify(Group(rows, ids[i])) == kind ==> GroupsOf(rows, ids[..i + 1], kind) == GroupsOf(rows, ids[..i], kind) + [Group(rows, ids[i])]
    ensures Classify(Group(rows, ids[i])) != kind ==> GroupsOf(rows, ids[..i + 1], kind) == GroupsOf(rows, ids[..i], kind)
  {
    PrefixStep(ids, i);
    GroupNonEmpty(rows, ids[i]);
    ConcatNil(GroupsOf(rows, ids[..i], kind));
  }

  /** Each group lands in exactly one of the four lists. */
  lemma {:induction false} GroupsPartition(rows: seq<TraceRow>, ids: seq<int>)
    requires forall i :: 0 <= i < |ids| ==> ids[i] in CatIds(rows)
    ensures |GroupsOf(rows, ids, MinorNoImpactShift)| + |GroupsOf(rows, ids, StationKeepingShift)|
            + |GroupsOf(rows, ids, PermanentDecayShift)| + |GroupsOf(rows, ids, Undecidable)| == |ids|
    decreases |ids|
  {
    if ids != [] {
      GroupsPartition(rows, ids[..|ids| - 1]);
    }
  }

  /** Every group in a list is a non-empty single-satellite trace that passes that list's test. */
  lemma {:induction false} GroupsClassified(rows: seq<TraceRow>, ids: seq<int>, kind: ShiftType)
    requires forall i :: 0 <= i < |ids| ==> ids[i] in CatIds(rows)
    ensures forall k :: 0 <= k < |GroupsOf(rows, ids, kind)| ==>
              var g := GroupsOf(rows, ids, kind)[k];
              |g| > 0 && Classify(g) == kind && forall r :: r in g ==> r.catId == g[0].catId
    decreases |ids|
  {
    if ids != [] {
      GroupsClassified(rows, ids[..|ids| - 1], kind);
    }
  }

  /** A satellite's group is in the list of `kind` exactly when the dispatch
      classifies it as `kind`, so it is in one list and no other. */
  lemma GroupLandsIn(rows: seq<TraceRow>, ids: seq<int>, id: int, kind: ShiftType)
    requires forall i :: 0 <= i < |ids| ==> ids[i] in CatIds(rows)
    requires id in ids
    ensures |Group(rows, id)| > 0
    ensures Group(rows, id) in GroupsOf(rows, ids, kind) <==> Classify(Group(rows, id)) == kind
  {
    GroupNonEmpty(rows, id);
    if Classify(Group(rows, id)) == kind {
      var k :| 0 <= k < |ids| && ids[k] == id;
      GroupInPrefix(rows, ids, k, |ids|, kind);
      assert ids[..|ids|] == ids;
    } else {
      GroupsClassified(rows, ids, kind);
    }
  }

  /** The group of `ids[k]`, classified as `kind`, is in the list of every prefix past `k`. */
  lemma {:induction false} GroupInPrefix(rows: seq<TraceRow>, ids: seq<int>, k: nat, m: nat, kind: ShiftType)
    requires forall i :: 0 <= i < |ids| ==> ids[i] in CatIds(rows)
    requires k < m <= |ids| && |Group(rows, ids[k])| > 0 && Classify(Group(rows, ids[k])) == kind
    ensures Group(rows, ids[k]) in GroupsOf(rows, ids[..m], kind)
    decreases m
  {
    GroupsOfStep(rows, ids, m - 1, kind);
    if k < m - 1 {
      GroupInPrefix(rows, ids, k, m - 1, kind);
    }
  }

  /** A satellite passing both the minor/no impact and the station-keeping
      test is recorded as a minor/no impact only. */
  lemma MinorShadowsKeeping(rows: seq<TraceRow>, id: int)
    requires id in CatIds(rows)
    requires |Group(rows, id)| > 0 && MinorNoImpact(Group(rows, id)) && StationKeeping(Group(rows, id))
    ensures Group(rows, id) in GroupsOf(rows, Unique(CatIds(rows)), MinorNoImpactShift)
    ensures Group(rows, id) !in GroupsOf(rows, Unique(CatIds(rows)), StationKeepingShift)
  {
    GroupLandsIn(rows, Unique(CatIds(rows)), id, MinorNoImpactShift);
    GroupLandsIn(rows, Unique(CatIds(rows)), id, StationKeepingShift);
  }

  /** For the satellites of one file, the numbers of minor, station-keeping,
      decaying and undecidable traces add up to the number of satellites. */
  lemma DetectedCounts(rows: seq<TraceRow>)
    ensures var ids := Unique(CatIds(rows));
            |GroupsOf(rows, ids, MinorNoImpactShift)| + |GroupsOf(rows, ids, StationKeepingShift)|
            + |GroupsOf(rows, ids, PermanentDecayShift)| + |GroupsOf(rows, ids, Undecidable)| == |ids|
  {
    GroupsPartition(rows, Unique(CatIds(rows)));
  }

  /** The rows of the list's groups, concatenated; `None` when the list is
      empty and no file is written. */
  function Exported(groups: seq<seq<TraceRow>>): (r: Option<seq<TraceRow>>)
    ensures r.Some? <==> |groups| > 0
  {
    if |groups| == 0 then None else Some(Concat(groups))
  }

  function Concat(groups: seq<seq<TraceRow>>): seq<TraceRow>
    decreases |groups|
  {
    if groups == [] then [] else groups[0] + Concat(groups[1..])
  }
}
