/** Row-order helpers shared by the DataFrame models: a boolean-mask filter
    (`df[mask]`), order of first appearance (`Series.unique()`) and counting. */
module Seqs {

  /** `df[mask]`: the rows satisfying `p`, in row order. */
  function Filter<T(!new)>(s: seq<T>, p: T -> bool): (r: seq<T>)
    ensures |r| <= |s|
    ensures forall x :: x in r <==> x in s && p(x)
    ensures forall i :: 0 <= i < |r| ==> p(r[i])
  {
    if s == [] then [] else (if p(s[0]) then [s[0]] else []) + Filter(s[1..], p)
  }

  /** `r` can be obtained from `s` by deleting elements, keeping the order. */
  ghost predicate SubsequenceOf<T>(r: seq<T>, s: seq<T>)
    decreases |s|
  {
    r == [] || (s != [] && ((r[0] == s[0] && SubsequenceOf(r[1..], s[1..])) || SubsequenceOf(r, s[1..])))
  }

  lemma {:induction false} FilterIsSubsequence<T(!new)>(s: seq<T>, p: T -> bool)
    ensures SubsequenceOf(Filter(s, p), s)
  {
    if s != [] {
      FilterIsSubsequence(s[1..], p);
      var r := Filter(s, p);
      if p(s[0]) {
        assert r[0] == s[0] && r[1..] == Filter(s[1..], p);
      } else {
        assert r == Filter(s[1..], p);
      }
    }
  }

  /** A mask every row passes keeps the table unchanged. */
  lemma {:induction false} FilterAll<T(!new)>(s: seq<T>, p: T -> bool)
    requires forall i :: 0 <= i < |s| ==> p(s[i])
    ensures Filter(s, p) == s
  {
    if s != [] {
      FilterAll(s[1..], p);
      assert [s[0]] + s[1..] == s;
    }
  }

  /** A mask no row passes keeps nothing. */
  lemma {:induction false} FilterNone<T(!new)>(s: seq<T>, p: T -> bool)
    requires forall i :: 0 <= i < |s| ==> !p(s[i])
    ensures Filter(s, p) == []
  {
    if s != [] {
      FilterNone(s[1..], p);
    }
  }

  /** A non-empty sequence is its prefix followed by its last element. */
  lemma SnocSplit<T>(s: seq<T>)
    requires |s| > 0
    ensures s[..|s| - 1] + [s[|s| - 1]] == s
  {
  }

  /** Prefixes grow one element at a time. */
  lemma PrefixStep<T>(s: seq<T>, i: int)
    requires 0 <= i < |s|
    ensures s[..i + 1][..i] == s[..i] && s[..i + 1][i] == s[i]
    ensures s[..i + 1] == s[..i] + [s[i]]
  {
  }

  lemma ConcatAssoc<T>(a: seq<T>, b: seq<T>, c: seq<T>)
    ensures a + (b + c) == (a + b) + c
  {
  }

  lemma ConcatNil<T>(s: seq<T>)
    ensures s + [] == s
  {
  }

  /** No element occurs twice. */
  ghost predicate Distinct<T>(s: seq<T>) {
    forall i, j :: 0 <= i < j < |s| ==> s[i] != s[j]
  }

  /** `Series.unique()`: each value once, in order of first appearance. */
  function Unique<T(==,!new)>(s: seq<T>): (u: seq<T>)
    ensures Distinct(u)
    ensures forall x :: x in u <==> x in s
    ensures |u| <= |s|
    decreases |s|
  {
    if s == [] then []
    else
      var u := Unique(s[..|s| - 1]);
      assert forall x :: x in s <==> x in s[..|s| - 1] || x == s[|s| - 1];
      if s[|s| - 1] in u then u else u + [s[|s| - 1]]
  }

  /** One more element extends the distinct values when it is new. */
  lemma UniqueSnoc<T(!new)>(s: seq<T>, x: T)
    ensures Unique(s + [x]) == if x in Unique(s) then Unique(s) else Unique(s) + [x]
  {
    var t := s + [x];
    assert t[..|t| - 1] == s;
  }

  /** Number of occurrences of `x` in `s` (the length of `df[df[col] == x]`). */
  function Count<T(==)>(s: seq<T>, x: T): nat
    decreases |s|
  {
    if s == [] then 0 else Count(s[..|s| - 1], x) + (if s[|s| - 1] == x then 1 else 0)
  }

  lemma {:induction false} CountPositive<T>(s: seq<T>, x: T)
    requires x in s
    ensures Count(s, x) >= 1
  {
    if s[|s| - 1] != x {
      assert x in s[..|s| - 1] by {
        var i :| 0 <= i < |s| && s[i] == x;
        assert s[..|s| - 1][i] == x;
      }
      CountPositive(s[..|s| - 1], x);
    }
  }

  /** Sum over the distinct values of the number of occurrences of each. */
  function SumCounts<T(==)>(ids: seq<T>, s: seq<T>): nat
    decreases |ids|
  {
    if ids == [] then 0 else SumCounts(ids[..|ids| - 1], s) + Count(s, ids[|ids| - 1])
  }

  lemma {:induction false} CountAbsent<T>(s: seq<T>, x: T)
    requires x !in s
    ensures Count(s, x) == 0
  {
    if s != [] {
      assert x !in s[..|s| - 1] by {
        assert forall y :: y in s[..|s| - 1] ==> y in s;
      }
      CountAbsent(s[..|s| - 1], x);
    }
  }

  /** Extending `s` by `x`: the counts over `ids` grow by one exactly when `x` is listed. */
  lemma {:induction false} SumCountsSnoc<T>(ids: seq<T>, s: seq<T>, x: T)
    requires Distinct(ids)
    ensures SumCounts(ids, s + [x]) == SumCounts(ids, s) + (if x in ids then 1 else 0)
    decreases |ids|
  {
    if ids != [] {
      var init := ids[..|ids| - 1];
      var y := ids[|ids| - 1];
      assert Distinct(init);
      SumCountsSnoc(init, s, x);
      assert (s + [x])[..|s + [x]| - 1] == s;
      assert x in ids <==> x in init || x == y;
      assert x == y ==> x !in init;
    }
  }

  /** Every row is counted exactly once by the per-value counts. */
  lemma {:induction false} SumCountsUnique<T(!new)>(s: seq<T>)
    ensures SumCounts(Unique(s), s) == |s|
    decreases |s|
  {
    if s != [] {
      var init := s[..|s| - 1];
      var x := s[|s| - 1];
      assert init + [x] == s;
      SumCountsUnique(init);
      var u := Unique(init);
      SumCountsSnoc(u, init, x);
      if x in u {
        assert Unique(s) == u;
      } else {
        assert Unique(s) == u + [x];
        assert (u + [x])[..|u + [x]| - 1] == u;
        assert x !in init;
        CountAbsent(init, x);
        assert Count(s, x) == 1;
      }
    }
  }
}
