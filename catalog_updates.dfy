/** `find_new_catalog_numbers`: the catalog numbers seen in the current TLE
    file that the old list lacks are written to a new list, and the old list
    is rewritten with them added. The current numbers are an input: reading
    them from a TLE file goes through the `ephem` library. */
module CatalogUpdates {
  import opened Wrappers
  import opened Io

  /** The loop over the current set: each number missing from the old set is
      added to both the new set and the old set. */
  method UpdateCatalogNumbers(current: set<int>, previous: set<int>) returns (newIds: set<int>, updatedOld: set<int>)
    ensures newIds == current - previous
    ensures updatedOld == previous + current
    ensures newIds * previous == {} && newIds <= updatedOld
  {
    newIds := {};
    updatedOld := previous;
    var rest := current;
    while rest != {}
      invariant rest <= current
      invariant newIds == (current - rest) - previous
      invariant updatedOld == previous + (current - rest)
      decreases |rest|
    {
      HasElement(rest);
      var cid :| cid in rest;
      if cid !in updatedOld {
        newIds := newIds + {cid};
        updatedOld := updatedOld + {cid};
      }
      rest := rest - {cid};
    }
  }

  /** A parsed list is never empty: `split` always yields a piece, and each
      piece must be a number. */
  lemma {:induction false} ParsedIsNonEmpty(pieces: seq<string>)
    requires |pieces| >= 1 && ParseAll(pieces).Some?
    ensures ParseAll(pieces).value != {}
    decreases |pieces|
  {
    var init := pieces[..|pieces| - 1];
    assert ParseAll(init).Some?;
    var last := Text.ParseInt(pieces[|pieces| - 1]);
    assert last.value in ParseAll(pieces).value;
  }

  /** `find_new_catalog_numbers` with the old list's content given and both
      lists' new contents returned; `None` where reading the old list raises. */
  method FindNewCatalogNumbers(current: set<int>, oldContent: string)
    returns (r: Option<(string, string)>, ghost newOrder: seq<int>, ghost oldOrder: seq<int>)
    ensures r.None? <==> CatalogNumbers(oldContent).None?
    ensures r.Some? ==> Enumerates(newOrder, current - CatalogNumbers(oldContent).value)
                        && r.value.0 == CatalogText(newOrder)
    ensures r.Some? ==> Enumerates(oldOrder, CatalogNumbers(oldContent).value + current)
                        && r.value.1 == CatalogText(oldOrder)
  {
    newOrder, oldOrder := [], [];
    var read := ReadCatalogNumberList(oldContent, false);
    if read.None? {
      return None, newOrder, oldOrder;
    }
    var newIds, updatedOld := UpdateCatalogNumbers(current, read.value.ids);
    var newContent, oldText;
    newContent, newOrder := WriteCatalogNumberList(newIds);
    oldText, oldOrder := WriteCatalogNumberList(updatedOld);
    return Some((newContent, oldText)), newOrder, oldOrder;
  }

  /** Running again on the rewritten old list finds nothing new. */
  lemma RerunFindsNothing(current: set<int>, oldContent: string, oldOrder: seq<int>)
    requires CatalogNumbers(oldContent).Some?
    requires Enumerates(oldOrder, CatalogNumbers(oldContent).value + current)
    ensures CatalogNumbers(CatalogText(oldOrder)).Some?
    ensures current - CatalogNumbers(CatalogText(oldOrder)).value == {}
  {
    var previous := CatalogNumbers(oldContent).value;
    ParsedIsNonEmpty(Text.Split(Text.Strip(oldContent), '\n'));
    WriteReadRoundTrip(previous + current, oldOrder);
  }
}
