/** The file helpers of the I/O module: the append-only CSV logger and the
    newline-separated NORAD catalog number lists. Files are modelled by their
    content; opening, existence tests and encodings are not. */
module Io {
  import opened Wrappers
  import opened Seqs
  import opened Text
  import opened Records

  /** A line of a CSV log: the column names, or one record's values in the
      record's own key order. */
  datatype Line = HeaderLine(names: seq<string>) | DataLine(cells: seq<Cell>)

  /** The content of a log after `CSV_logger(record)`: the header from this
      record's keys when the file does not exist yet, then the values. */
  function Appended(lines: seq<Line>, record: Record): (r: seq<Line>)
    ensures |r| == |lines| + (if lines == [] then 2 else 1)
    ensures r[..|lines|] == lines && r[|r| - 1] == DataLine(Values(record))
    ensures lines == [] ==> r[0] == HeaderLine(Keys(record))
  {
    lines + (if lines == [] then [HeaderLine(Keys(record))] else []) + [DataLine(Values(record))]
  }

  /** The content after logging each of `records` in turn. */
  function AppendedAll(lines: seq<Line>, records: seq<Record>): seq<Line>
    decreases |records|
  {
    if records == [] then lines else AppendedAll(Appended(lines, records[0]), records[1..])
  }

  /** A log whose first line, and no other, is a header. */
  ghost predicate WellFormed(lines: seq<Line>) {
    forall i :: 0 <= i < |lines| ==> (lines[i].HeaderLine? <==> i == 0)
  }

  lemma AppendedWellFormed(lines: seq<Line>, record: Record)
    requires WellFormed(lines)
    ensures WellFormed(Appended(lines, record))
  {
  }

  /** The header is written once per file, from the first record logged to it. */
  lemma {:induction false} AppendedAllWellFormed(lines: seq<Line>, records: seq<Record>)
    requires WellFormed(lines)
    ensures WellFormed(AppendedAll(lines, records))
    ensures |AppendedAll(lines, records)| == |lines| + |records| + (if lines == [] && records != [] then 1 else 0)
    ensures lines == [] && records != [] ==> AppendedAll(lines, records)[0] == HeaderLine(Keys(records[0]))
    ensures lines != [] ==> AppendedAll(lines, records)[..|lines|] == lines
    decreases |records|
  {
    if records != [] {
      var next := Appended(lines, records[0]);
      AppendedWellFormed(lines, records[0]);
      AppendedAllWellFormed(next, records[1..]);
      assert AppendedAll(next, records[1..])[..|next|] == next;
      assert AppendedAll(next, records[1..])[..|lines|] == next[..|lines|];
    }
  }

  lemma AppendedAllConcat(lines: seq<Line>, a: seq<Record>, b: seq<Record>)
    ensures AppendedAll(lines, a + b) == AppendedAll(AppendedAll(lines, a), b)
    decreases |a|
  {
    if a != [] {
      assert (a + b)[0] == a[0] && (a + b)[1..] == a[1..] + b;
      AppendedAllConcat(Appended(lines, a[0]), a[1..], b);
    } else {
      assert a + b == b;
    }
  }

  /** An output CSV file written by `CSV_logger`; no lines means the file
      does not exist. */
  class CsvFile {
    var lines: seq<Line>

    ghost predicate Valid()
      reads this
    {
      WellFormed(lines)
    }

    constructor ()
      ensures Valid() && lines == []
    {
      lines := [];
    }

    /** `CSV_logger(record, path)`. */
    method Log(record: Record)
      requires Valid()
      modifies this
      ensures Valid()
      ensures lines == Appended(old(lines), record)
    {
      if lines == [] {
        lines := lines + [HeaderLine(Keys(record))];
      }
      lines := lines + [DataLine(Values(record))];
    }
  }

  /** `int()` of every piece, collected into a set; `None` where one piece
      makes `int()` raise. */
  function ParseAll(pieces: seq<string>): (r: Option<set<int>>)
    ensures r.Some? <==> forall i :: 0 <= i < |pieces| ==> ParseInt(pieces[i]).Some?
    decreases |pieces|
  {
    if pieces == [] then Some({})
    else
      var init := pieces[..|pieces| - 1];
      var last := ParseInt(pieces[|pieces| - 1]);
      var rest := ParseAll(init);
      assert forall i :: 0 <= i < |init| ==> init[i] == pieces[i];
      if rest.None? || last.None? then None else Some(rest.value + {last.value})
  }

  /** The numbers listed in `ids`. */
  function Elements(ids: seq<int>): (r: set<int>)
    ensures forall x :: x in r <==> x in ids
    decreases |ids|
  {
    if ids == [] then {} else Elements(ids[..|ids| - 1]) + {ids[|ids| - 1]}
  }

  lemma ParseLast(ps: seq<string>, n: int)
    requires ps != [] && ParseInt(ps[|ps| - 1]) == Some(n) && ParseAll(ps[..|ps| - 1]).Some?
    ensures ParseAll(ps) == Some(ParseAll(ps[..|ps| - 1]).value + {n})
  {
  }

  /** The printed numbers parse back to exactly the numbers printed. */
  lemma {:induction false} ParseAllPieces(ids: seq<int>)
    ensures ParseAll(Pieces(ids)) == Some(Elements(ids))
    decreases |ids|
  {
    if ids != [] {
      var init := ids[..|ids| - 1];
      var last := ids[|ids| - 1];
      var ps := Pieces(ids);
      ParseAllPieces(init);
      assert ps[..|ps| - 1] == Pieces(init);
      assert ps[|ps| - 1] == IntToString(last);
      IntRoundTrip(last);
      ParseLast(ps, last);
    }
  }

  /** What `read_catalog_number_list` reads from a file holding `content`. */
  function CatalogNumbers(content: string): Option<set<int>> {
    ParseAll(Split(Strip(content), '\n'))
  }

  ghost predicate StrictlyAscending(s: seq<int>) {
    forall i, j :: 0 <= i < j < |s| ==> s[i] < s[j]
  }

  /** What `read_catalog_number_list` returns: a set, or an ascending list. */
  datatype CatalogList = NumberSet(ids: set<int>) | NumberList(sorted: seq<int>)

  /** `read_catalog_number_list`; `None` where `int()` raises. */
  method ReadCatalogNumberList(content: string, inOrder: bool) returns (r: Option<CatalogList>)
    ensures r.None? <==> CatalogNumbers(content).None?
    ensures r.Some? && !inOrder ==> r.value == NumberSet(CatalogNumbers(content).value)
    ensures r.Some? && inOrder ==>
              && r.value.NumberList? && StrictlyAscending(r.value.sorted)
              && forall x :: x in r.value.sorted <==> x in CatalogNumbers(content).value
  {
    var parsed := ParseLines(Split(Strip(content), '\n'));
    if parsed.None? {
      return None;
    }
    var catalog := parsed.value;
    if inOrder {
      var sorted := SortedList(catalog);
      return Some(NumberList(sorted));
    }
    return Some(NumberSet(catalog));
  }

  /** The loop of `read_catalog_number_list`: add `int(id)` of every line to the set. */
  method ParseLines(pieces: seq<string>) returns (r: Option<set<int>>)
    ensures r == ParseAll(pieces)
  {
    var catalog: set<int> := {};
    var i := 0;
    while i < |pieces|
      invariant 0 <= i <= |pieces|
      invariant ParseAll(pieces[..i]) == Some(catalog)
    {
      var id := ParseInt(pieces[i]);
      PrefixStep(pieces, i);
      if id.None? {
        assert ParseAll(pieces[..i + 1]).None?;
        NoneExtends(pieces, i + 1);
        return None;
      }
      catalog := catalog + {id.value};
      i := i + 1;
    }
    assert pieces[..i] == pieces;
    return Some(catalog);
  }

  /** Once a prefix fails to parse, the whole list does. */
  lemma {:induction false} NoneExtends(pieces: seq<string>, n: nat)
    requires n <= |pieces| && ParseAll(pieces[..n]).None?
    ensures ParseAll(pieces).None?
    decreases |pieces| - n
  {
    if n < |pieces| {
      assert pieces[..n + 1][..n] == pieces[..n];
      NoneExtends(pieces, n + 1);
    } else {
      assert pieces[..n] == pieces;
    }
  }

  /** `sorted(list(s))`, by repeatedly taking the least remaining number. */
  method SortedList(s: set<int>) returns (r: seq<int>)
    ensures StrictlyAscending(r)
    ensures forall x :: x in r <==> x in s
  {
    r := [];
    var rest := s;
    while rest != {}
      invariant rest <= s
      invariant forall x :: x in s <==> x in r || x in rest
      invariant StrictlyAscending(r)
      invariant forall i, y :: 0 <= i < |r| && y in rest ==> r[i] < y
      decreases |rest|
    {
      var m := SetMin(rest);
      r := r + [m];
      rest := rest - {m};
    }
  }

  /** A non-empty set has an element. */
  lemma HasElement(s: set<int>)
    requires s != {}
    ensures exists x :: x in s
  {
    if forall y :: y !in s {
      assert false;
    }
  }

  /** The least element of a non-empty finite set. */
  method SetMin(s: set<int>) returns (m: int)
    requires s != {}
    ensures m in s && forall y :: y in s ==> m <= y
  {
    HasElement(s);
    var x :| x in s;
    m := x;
    var rest := s - {x};
    while rest != {}
      invariant rest <= s && m in s
      invariant forall y :: y in s ==> m <= y || y in rest
      decreases |rest|
    {
      HasElement(rest);
      var y :| y in rest;
      if y < m {
        m := y;
      }
      rest := rest - {y};
    }
  }

  /** The file content `write_catalog_number_list` produces when the set is
      enumerated in the order `ids`: each number followed by a newline. */
  function CatalogText(ids: seq<int>): string
    decreases |ids|
  {
    if ids == [] then "" else IntToString(ids[0]) + "\n" + CatalogText(ids[1..])
  }

  /** `ids` lists each element of `s` exactly once. */
  ghost predicate Enumerates(ids: seq<int>, s: set<int>) {
    (forall x :: x in ids <==> x in s) && (forall i, j :: 0 <= i < j < |ids| ==> ids[i] != ids[j])
  }

  /** `write_catalog_number_list`: the set is written in its iteration order,
      which Python leaves unspecified. */
  method WriteCatalogNumberList(catalog: set<int>) returns (content: string, ghost order: seq<int>)
    ensures Enumerates(order, catalog)
    ensures content == CatalogText(order)
  {
    content := "";
    order := [];
    var rest := catalog;
    while rest != {}
      invariant rest <= catalog
      invariant forall x :: x in catalog <==> x in order || x in rest
      invariant forall x :: x in order ==> x !in rest
      invariant forall i, j :: 0 <= i < j < |order| ==> order[i] != order[j]
      invariant content == CatalogText(order)
      decreases |rest|
    {
      HasElement(rest);
      var id :| id in rest;
      CatalogTextSnoc(order, id);
      content := content + IntToString(id) + "\n";
      order := order + [id];
      rest := rest - {id};
    }
  }

  lemma {:induction false} CatalogTextSnoc(ids: seq<int>, x: int)
    ensures CatalogText(ids + [x]) == CatalogText(ids) + IntToString(x) + "\n"
    decreases |ids|
  {
    if ids == [] {
      assert CatalogText([x]) == IntToString(x) + "\n" + CatalogText([]);
    } else {
      assert (ids + [x])[0] == ids[0] && (ids + [x])[1..] == ids[1..] + [x];
      CatalogTextSnoc(ids[1..], x);
    }
  }

  function Pieces(ids: seq<int>): (r: seq<string>)
    ensures |r| == |ids| && forall i :: 0 <= i < |ids| ==> r[i] == IntToString(ids[i])
    decreases |ids|
  {
    if ids == [] then [] else [IntToString(ids[0])] + Pieces(ids[1..])
  }

  lemma {:induction false} CatalogTextIsJoin(ids: seq<int>)
    requires ids != []
    ensures CatalogText(ids) == Join(Pieces(ids), '\n') + "\n"
    decreases |ids|
  {
    if |ids| > 1 {
      CatalogTextIsJoin(ids[1..]);
      assert Pieces(ids)[1..] == Pieces(ids[1..]);
    }
  }

  lemma TrimLeftKeeps(s: string)
    requires s != [] && !IsSpace(s[0])
    ensures TrimLeft(s) == s
  {
  }

  lemma TrimRightDropsNewline(s: string)
    requires s != [] && !IsSpace(s[|s| - 1])
    ensures TrimRight(s + "\n") == s
  {
    assert (s + "\n")[..|s + "\n"| - 1] == s;
  }

  /** No blank at either end, as `str(n)` for every integer. */
  predicate Trimmed(s: string) {
    s != [] && !IsSpace(s[0]) && !IsSpace(s[|s| - 1])
  }

  lemma {:induction false} JoinTrimmed(pieces: seq<string>)
    requires |pieces| >= 1
    requires forall i :: 0 <= i < |pieces| ==> Trimmed(pieces[i])
    ensures Trimmed(Join(pieces, '\n'))
    decreases |pieces|
  {
    if |pieces| > 1 {
      var rest := Join(pieces[1..], '\n');
      JoinTrimmed(pieces[1..]);
      var j := pieces[0] + ['\n'] + rest;
      assert j[0] == pieces[0][0] && j[|j| - 1] == rest[|rest| - 1];
    }
  }

  lemma StripNewline(s: string)
    requires Trimmed(s)
    ensures Strip(s + "\n") == s
  {
    assert (s + "\n")[0] == s[0];
    TrimLeftKeeps(s + "\n");
    TrimRightDropsNewline(s);
  }

  lemma PiecesTrimmed(order: seq<int>)
    ensures forall i :: 0 <= i < |Pieces(order)| ==> Trimmed(Pieces(order)[i])
  {
  }

  /** Stripping the written text removes exactly the final newline. */
  lemma StripCatalogText(order: seq<int>)
    requires order != []
    ensures Strip(CatalogText(order)) == Join(Pieces(order), '\n')
  {
    CatalogTextIsJoin(order);
    PiecesTrimmed(order);
    JoinTrimmed(Pieces(order));
    StripNewline(Join(Pieces(order), '\n'));
  }

  lemma ReadCatalogText(order: seq<int>)
    requires order != []
    ensures CatalogNumbers(CatalogText(order)) == Some(Elements(order))
  {
    var pieces := Pieces(order);
    StripCatalogText(order);
    SplitJoin(pieces, '\n');
    ParseAllPieces(order);
  }

  /** Reading back what was written gives the set again, for every non-empty
      set and every iteration order. */
  lemma WriteReadRoundTrip(catalog: set<int>, order: seq<int>)
    requires catalog != {} && Enumerates(order, catalog)
    ensures CatalogNumbers(CatalogText(order)) == Some(catalog)
  {
    assert order != [] by {
      HasElement(catalog);
    }
    ReadCatalogText(order);
    var e := Elements(order);
    forall x | x in catalog ensures x in e {
      assert x in order;
    }
    assert e == catalog;
  }

  /** An empty or blank file makes `int('')` raise: the empty set does not
      survive a write and a read. */
  lemma EmptyDoesNotRoundTrip()
    ensures CatalogText([]) == ""
    ensures CatalogNumbers("").None?
  {
    assert Split("", '\n') == [""];
    BlankIsNotAnInt("");
  }
}
