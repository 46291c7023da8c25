/** The two helpers of the stacked plots: the empirical CDF of a column and
    the tick marks of a time axis. Timestamps are seconds. */
module StackPlots {
  import opened Seqs
  import opened Stats
  import opened DataProcessor

  /** `np.arange(n) / float(n)`: the CDF's heights. */
  function Heights(n: nat): (y: seq<real>)
    ensures |y| == n
  {
    seq(n, i requires 0 <= i < n => i as real / n as real)
  }

  /** `get_CDF`: the values in ascending order and their heights. */
  function Cdf(data: seq<real>): (r: (seq<real>, seq<real>))
  {
    (Sort(data), Heights(|data|))
  }

  /** Heights at i/n of a sequence of n: in [0, 1), each times n its index. */
  predicate CdfHeights(y: seq<real>) {
    forall i :: 0 <= i < |y| ==> 0.0 <= y[i] < 1.0 && y[i] * (|y| as real) == i as real
  }

  predicate StrictlyIncreasing(y: seq<real>) {
    forall i, j :: 0 <= i < j < |y| ==> y[i] < y[j]
  }

  /** The CDF's x values are the data in ascending order, each as often as
      in the input; its y values are i/n, from 0, strictly increasing and
      below 1. */
  lemma CdfShape(data: seq<real>)
    ensures |Cdf(data).0| == |data| && |Cdf(data).1| == |data|
    ensures SortedAsc(Cdf(data).0) && multiset(Cdf(data).0) == multiset(data)
    ensures |data| > 0 ==> Cdf(data).1[0] == 0.0
    ensures CdfHeights(Cdf(data).1) && StrictlyIncreasing(Cdf(data).1)
  {
    SortSorted(data);
    HeightsShape(|data|);
  }

  lemma HeightsShape(n: nat)
    ensures CdfHeights(Heights(n)) && StrictlyIncreasing(Heights(n))
  {
    var y := Heights(n);
    forall i | 0 <= i < n
      ensures 0.0 <= y[i] < 1.0 && y[i] * (n as real) == i as real
    {
      HeightAt(i, n);
    }
    forall i, j | 0 <= i < j < n
      ensures y[i] < y[j]
    {
      assert y[i] == i as real / n as real && y[j] == j as real / n as real;
      HeightsIncrease(i, j, n);
    }
  }

  lemma HeightAt(i: nat, n: nat)
    requires i < n
    ensures 0.0 <= Heights(n)[i] < 1.0 && Heights(n)[i] * (n as real) == i as real
  {
    assert Heights(n)[i] == i as real / n as real;
    HeightBounds(i, n);
  }

  lemma HeightBounds(i: nat, n: nat)
    requires i < n
    ensures 0.0 <= i as real / n as real < 1.0
    ensures (i as real / n as real) * (n as real) == i as real
  {
  }

  lemma HeightsIncrease(i: nat, j: nat, n: nat)
    requires i < j < n
    ensures i as real / n as real < j as real / n as real
  {
    assert j as real / n as real - i as real / n as real == (j - i) as real / n as real;
  }

  /** The marks `get_date_marks` returns: `sdate`, then one step of `delta`
      after another while the previous mark is not past `edate`. Python loops
      forever when `delta` is not positive and `sdate <= edate`. */
  function DateMarks(sdate: Instant, edate: Instant, delta: int): (r: seq<Instant>)
    requires delta > 0 || sdate > edate
    ensures |r| >= 1 && r[0] == sdate
    decreases if sdate <= edate then edate - sdate + 1 else 0
  {
    [sdate] + (if sdate <= edate then DateMarks(sdate + delta, edate, delta) else [])
  }

  /** Consecutive elements are exactly `delta` apart. */
  predicate Stepped(r: seq<Instant>, delta: int) {
    forall i :: 0 <= i < |r| - 1 ==> r[i + 1] == r[i] + delta
  }

  /** The i-th element is `start + i * delta`. */
  predicate Arithmetic(r: seq<Instant>, start: Instant, delta: int) {
    forall i :: 0 <= i < |r| ==> r[i] == start + i * delta
  }

  /** All elements but the last are at or before `edate`, and the last is past it. */
  predicate EndsPast(r: seq<Instant>, edate: Instant)
    requires |r| > 0
  {
    (forall i :: 0 <= i < |r| - 1 ==> r[i] <= edate) && r[|r| - 1] > edate
  }

  /** Consecutive marks are exactly `delta` apart. */
  lemma {:induction false} MarksStep(sdate: Instant, edate: Instant, delta: int)
    requires delta > 0 || sdate > edate
    ensures Stepped(DateMarks(sdate, edate, delta), delta)
    decreases if sdate <= edate then edate - sdate + 1 else 0
  {
    if sdate <= edate {
      MarksStep(sdate + delta, edate, delta);
      var r := DateMarks(sdate, edate, delta);
      var t := DateMarks(sdate + delta, edate, delta);
      assert r == [sdate] + t;
      forall i | 0 <= i < |r| - 1
        ensures r[i + 1] == r[i] + delta
      {
        if i > 0 {
          assert r[i] == t[i - 1] && r[i + 1] == t[i];
          assert t[i] == t[i - 1] + delta;
        } else {
          assert r[1] == t[0] == sdate + delta;
          assert r[0] == sdate;
        }
      }
    }
  }

  /** Every mark but the last is at or before `edate`, and the last is past
      it; there is a single mark exactly when `sdate` is past `edate`. */
  lemma {:induction false} MarksCover(sdate: Instant, edate: Instant, delta: int)
    requires delta > 0 || sdate > edate
    ensures EndsPast(DateMarks(sdate, edate, delta), edate)
    ensures |DateMarks(sdate, edate, delta)| == 1 <==> sdate > edate
    decreases if sdate <= edate then edate - sdate + 1 else 0
  {
    if sdate <= edate {
      MarksCover(sdate + delta, edate, delta);
      var r := DateMarks(sdate, edate, delta);
      var t := DateMarks(sdate + delta, edate, delta);
      assert r == [sdate] + t;
      forall i | 0 <= i < |r| - 1
        ensures r[i] <= edate
      {
        if i > 0 {
          assert r[i] == t[i - 1];
        }
      }
      assert r[|r| - 1] == t[|t| - 1];
    }
  }

  /** The i-th mark is `sdate + i * delta`. */
  lemma {:induction false} MarksClosedForm(sdate: Instant, edate: Instant, delta: int)
    requires delta > 0 || sdate > edate
    ensures Arithmetic(DateMarks(sdate, edate, delta), sdate, delta)
    decreases if sdate <= edate then edate - sdate + 1 else 0
  {
    if sdate <= edate {
      MarksClosedForm(sdate + delta, edate, delta);
      var r := DateMarks(sdate, edate, delta);
      var t := DateMarks(sdate + delta, edate, delta);
      assert r == [sdate] + t;
      forall i | 0 < i < |r|
        ensures r[i] == sdate + i * delta
      {
        assert r[i] == t[i - 1];
        assert t[i - 1] == (sdate + delta) + (i - 1) * delta;
      }
    }
  }

  /** The marks after `cur`. */
  function MarksAfter(cur: Instant, edate: Instant, delta: int): seq<Instant>
    requires delta > 0 || cur > edate
  {
    if cur <= edate then DateMarks(cur + delta, edate, delta) else []
  }

  /** The loop's step: the next mark moves from the marks to come to the marks made. */
  lemma LoopStep(sdate: Instant, edate: Instant, delta: int, marks: seq<Instant>, cur: Instant)
    requires delta > 0 && cur <= edate
    requires DateMarks(sdate, edate, delta) == marks + MarksAfter(cur, edate, delta)
    ensures DateMarks(sdate, edate, delta) == (marks + [cur + delta]) + MarksAfter(cur + delta, edate, delta)
  {
    ConcatAssoc(marks, [cur + delta], MarksAfter(cur + delta, edate, delta));
  }

  /** `get_date_marks`: the while loop over a moving `sdate`. */
  method GetDateMarks(sdate: Instant, edate: Instant, delta: int) returns (marks: seq<Instant>)
    requires delta > 0 || sdate > edate
    ensures marks == DateMarks(sdate, edate, delta)
  {
    var cur := sdate;
    marks := [cur];
    while cur <= edate
      invariant delta > 0 || cur > edate
      invariant DateMarks(sdate, edate, delta) == marks + MarksAfter(cur, edate, delta)
      decreases edate - cur
    {
      LoopStep(sdate, edate, delta, marks, cur);
      cur := cur + delta;
      marks := marks + [cur];
    }
    ConcatNil(marks);
  }

}
