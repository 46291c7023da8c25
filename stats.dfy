/** The numeric aggregates the source takes from pandas and numpy on finite
    values: `np.sort`, `min`, `max`, `sum`, `mean` and `median` (the middle value
    of the sorted values, or the average of the two middle values). */
module Stats {
  import opened Wrappers

  function Abs(x: real): (r: real)
    ensures r >= 0.0 && (r == x || r == -x)
  {
    if x < 0.0 then -x else x
  }

  function Max2(a: real, b: real): (r: real)
    ensures r >= a && r >= b && (r == a || r == b)
  {
    if a < b then b else a
  }

  ghost predicate SortedAsc(s: seq<real>) {
    forall i, j :: 0 <= i < j < |s| ==> s[i] <= s[j]
  }

  /** `x` placed before the first element of `s` it does not exceed. */
  function Insert(x: real, s: seq<real>): (r: seq<real>)
    ensures |r| == |s| + 1
    decreases |s|
  {
    if s == [] || x <= s[0] then [x] + s else [s[0]] + Insert(x, s[1..])
  }

  /** A lower bound of `x` and of every element of `s` bounds every element of the insertion. */
  lemma {:induction false} InsertBound(x: real, s: seq<real>, b: real)
    requires b <= x && forall i :: 0 <= i < |s| ==> b <= s[i]
    ensures forall i :: 0 <= i < |Insert(x, s)| ==> b <= Insert(x, s)[i]
    decreases |s|
  {
    if s != [] && x > s[0] {
      InsertBound(x, s[1..], b);
    }
  }

  /** Inserting adds `x` to the values. */
  lemma {:induction false} InsertPerm(x: real, s: seq<real>)
    ensures multiset(Insert(x, s)) == multiset(s) + multiset{x}
    decreases |s|
  {
    if s != [] && x > s[0] {
      InsertPerm(x, s[1..]);
      assert Insert(x, s) == [s[0]] + Insert(x, s[1..]);
      assert s == [s[0]] + s[1..];
    }
  }

  /** Inserting into an ascending sequence keeps it ascending. */
  lemma {:induction false} InsertSorted(x: real, s: seq<real>)
    requires SortedAsc(s)
    ensures SortedAsc(Insert(x, s))
    decreases |s|
  {
    if s != [] && x > s[0] {
      var t := Insert(x, s[1..]);
      assert SortedAsc(s[1..]) by {
        forall i, j | 0 <= i < j < |s| - 1 ensures s[1..][i] <= s[1..][j] {
          assert s[1..][i] == s[i + 1] && s[1..][j] == s[j + 1];
        }
      }
      InsertSorted(x, s[1..]);
      InsertBound(x, s[1..], s[0]);
      var r := [s[0]] + t;
      assert Insert(x, s) == r;
      forall i, j | 0 <= i < j < |r| ensures r[i] <= r[j] {
        if i == 0 {
          assert r[0] == s[0] && r[j] == t[j - 1];
        } else {
          assert r[i] == t[i - 1] && r[j] == t[j - 1];
        }
      }
    }
  }

  /** `np.sort`: insertion of each value in turn. */
  function Sort(s: seq<real>): (r: seq<real>)
    ensures |r| == |s|
    decreases |s|
  {
    if s == [] then [] else Insert(s[0], Sort(s[1..]))
  }

  /** `np.sort` returns the values in ascending order, each as often as in the input. */
  lemma {:induction false} SortSorted(s: seq<real>)
    ensures SortedAsc(Sort(s))
    ensures multiset(Sort(s)) == multiset(s)
    decreases |s|
  {
    if s != [] {
      SortSorted(s[1..]);
      InsertSorted(s[0], Sort(s[1..]));
      InsertPerm(s[0], Sort(s[1..]));
      assert s == [s[0]] + s[1..];
    }
  }

  function Min(s: seq<real>): (m: real)
    requires |s| > 0
    ensures m in s
    ensures forall i :: 0 <= i < |s| ==> m <= s[i]
    decreases |s|
  {
    if |s| == 1 then s[0]
    else
      var m := Min(s[1..]);
      assert forall i :: 1 <= i < |s| ==> s[i] == s[1..][i - 1];
      if s[0] <= m then s[0] else m
  }

  function Max(s: seq<real>): (m: real)
    requires |s| > 0
    ensures m in s
    ensures forall i :: 0 <= i < |s| ==> s[i] <= m
    decreases |s|
  {
    if |s| == 1 then s[0]
    else
      var m := Max(s[1..]);
      assert forall i :: 1 <= i < |s| ==> s[i] == s[1..][i - 1];
      if s[0] >= m then s[0] else m
  }

  function Sum(s: seq<real>): real
    decreases |s|
  {
    if s == [] then 0.0 else s[0] + Sum(s[1..])
  }

  /** `Series.mean()`: NaN (None) for no values. */
  function Mean(s: seq<real>): (r: Option<real>)
    ensures r.Some? <==> |s| > 0
  {
    if |s| == 0 then None else Some(Sum(s) / (|s| as real))
  }

  /** `Series.median()`: NaN (None) for no values. */
  function Median(s: seq<real>): (r: Option<real>)
    ensures r.Some? <==> |s| > 0
  {
    if |s| == 0 then None else Some(Middle(Sort(s)))
  }

  /** The middle value of an odd count, the mean of the two middle values of an even one. */
  function Middle(t: seq<real>): real
    requires |t| > 0
  {
    var n := |t|;
    if n % 2 == 1 then t[n / 2] else (t[n / 2 - 1] + t[n / 2]) / 2.0
  }

  /** Bounds of every value bound the middle value. */
  lemma MiddleBetween(t: seq<real>, lo: real, hi: real)
    requires |t| > 0
    requires forall i :: 0 <= i < |t| ==> lo <= t[i] <= hi
    ensures lo <= Middle(t) <= hi
  {
    var n := |t|;
    if n % 2 == 0 {
      assert lo <= t[n / 2 - 1] <= hi && lo <= t[n / 2] <= hi;
    }
  }

  /** Every element of a permutation of `s` is an element of `s`. */
  lemma SortedElementIn(s: seq<real>, i: int)
    requires 0 <= i < |s|
    ensures Sort(s)[i] in s
  {
    var t := Sort(s);
    SortSorted(s);
    assert t[i] in multiset(t);
  }

  /** A lower bound of every value bounds the sum from below, `|s|` times over. */
  lemma {:induction false} SumAtLeast(s: seq<real>, a: real)
    requires forall i :: 0 <= i < |s| ==> a <= s[i]
    ensures (|s| as real) * a <= Sum(s)
    decreases |s|
  {
    if s != [] {
      SumAtLeast(s[1..], a);
      assert (|s| as real) * a == ((|s| - 1) as real) * a + a;
    }
  }

  /** An upper bound of every value bounds the sum from above, `|s|` times over. */
  lemma {:induction false} SumAtMost(s: seq<real>, b: real)
    requires forall i :: 0 <= i < |s| ==> s[i] <= b
    ensures Sum(s) <= (|s| as real) * b
    decreases |s|
  {
    if s != [] {
      SumAtMost(s[1..], b);
      assert (|s| as real) * b == ((|s| - 1) as real) * b + b;
    }
  }

  lemma QuotientAtLeast(x: real, n: real, a: real)
    requires n > 0.0 && n * a <= x
    ensures a <= x / n
  {
  }

  lemma QuotientAtMost(x: real, n: real, b: real)
    requires n > 0.0 && x <= n * b
    ensures x / n <= b
  {
  }

  lemma MeanAtLeastMin(s: seq<real>)
    requires |s| > 0
    ensures Min(s) <= Mean(s).value
  {
    var a, x, n := Min(s), Sum(s), |s| as real;
    assert Mean(s) == Some(x / n);
    SumAtLeast(s, a);
    QuotientAtLeast(x, n, a);
  }

  lemma MeanAtMostMax(s: seq<real>)
    requires |s| > 0
    ensures Mean(s).value <= Max(s)
  {
    var b, x, n := Max(s), Sum(s), |s| as real;
    assert Mean(s) == Some(x / n);
    SumAtMost(s, b);
    QuotientAtMost(x, n, b);
  }

  /** The mean lies between the minimum and the maximum. */
  lemma MeanBounds(s: seq<real>)
    requires |s| > 0
    ensures Min(s) <= Mean(s).value <= Max(s)
  {
    MeanAtLeastMin(s);
    MeanAtMostMax(s);
  }

  /** The median lies between the minimum and the maximum. */
  lemma MedianBounds(s: seq<real>)
    requires |s| > 0
    ensures Min(s) <= Median(s).value <= Max(s)
  {
    var t := Sort(s);
    forall i | 0 <= i < |t| ensures Min(s) <= t[i] <= Max(s) {
      SortedBetween(s, i);
    }
    MiddleBetween(t, Min(s), Max(s));
  }

  lemma SortedBetween(s: seq<real>, i: int)
    requires 0 <= i < |s|
    ensures Min(s) <= Sort(s)[i] <= Max(s)
  {
    SortedElementIn(s, i);
    var j :| 0 <= j < |s| && s[j] == Sort(s)[i];
  }

  /** Values that are all equal have that value as median, min and max. */
  lemma ConstantMedian(s: seq<real>, c: real)
    requires |s| > 0
    requires forall i :: 0 <= i < |s| ==> s[i] == c
    ensures Min(s) == c && Max(s) == c && Median(s) == Some(c)
  {
    assert Min(s) == c && Max(s) == c;
    var m := Median(s).value;
    assert c <= m <= c by { MedianBounds(s); }
    assert Median(s) == Some(m);
  }

  /** For two values the median is their average whatever their order. */
  lemma MedianOfTwo(s: seq<real>)
    requires |s| == 2
    ensures Median(s) == Some((s[0] + s[1]) / 2.0)
  {
    var t := Sort(s);
    SortSorted(s);
    assert multiset(t) == multiset{s[0], s[1]} by { assert s == [s[0], s[1]]; }
    assert t == [t[0], t[1]];
    assert multiset(t) == multiset{t[0], t[1]};
    assert t[0] + t[1] == s[0] + s[1] by {
      if t[0] == s[0] {
        assert multiset{t[1]} == multiset{s[1]};
      } else {
        assert t[0] == s[1];
        assert multiset{t[1]} == multiset{s[0]};
      }
    }
  }

  /** For one value the median is that value. */
  lemma MedianOfOne(s: seq<real>)
    requires |s| == 1
    ensures Median(s) == Some(s[0])
  {
    SortedElementIn(s, 0);
  }
}
