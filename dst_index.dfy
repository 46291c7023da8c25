/** `parse_dst_index`: the fixed-width parser of the Kyoto WDC-like Dst text.
    The text of each URL is an input (fetching is left out). Which timestamp
    texts `pd.to_datetime` accepts is the parameter `accepts`: that parser is
    library code, and where it returns no timestamp it raises. */
module DstIndex {
  import opened Wrappers
  import opened Text

  /** One hourly record: the date as the three text fields the timestamp is
      built from, the hour, and the value in nT. */
  datatype DstRecord = DstRecord(year: string, month: string, day: string, hour: nat, nT: int)

  const FirstColumn: nat := 20
  const FieldWidth: nat := 4
  const HoursPerLine: nat := 24
  /** `range(20, 116, 4)` stops before column 116. */
  const EndColumn: nat := 116

  /** The pieces in order, or `None` as soon as one piece is `None`: the
      records of a loop that raises on its first bad piece. */
  function Collect<R>(parts: seq<Option<seq<R>>>): (r: Option<seq<R>>)
    ensures r.Some? <==> forall i :: 0 <= i < |parts| ==> parts[i].Some?
    decreases |parts|
  {
    if parts == [] then Some([])
    else
      var init := Collect(parts[..|parts| - 1]);
      assert forall i :: 0 <= i < |parts| - 1 ==> parts[..|parts| - 1][i] == parts[i];
      if init.Some? && parts[|parts| - 1].Some? then Some(init.value + parts[|parts| - 1].value) else None
  }

  lemma CollectNone<R>(parts: seq<Option<seq<R>>>, n: nat)
    requires n <= |parts| && Collect(parts[..n]).None?
    ensures Collect(parts).None?
  {
    var i :| 0 <= i < n && parts[..n][i].None?;
    assert parts[i].None?;
  }

  lemma CollectSnoc<R>(parts: seq<Option<seq<R>>>, n: nat)
    requires n < |parts| && Collect(parts[..n]).Some? && parts[n].Some?
    ensures Collect(parts[..n + 1]) == Some(Collect(parts[..n]).value + parts[n].value)
  {
    assert parts[..n + 1][..n] == parts[..n];
  }

  /** Collected pieces of `width` records each give `width` records per piece. */
  lemma {:induction false} CollectLength<R>(parts: seq<Option<seq<R>>>, width: nat)
    requires forall i :: 0 <= i < |parts| ==> parts[i].Some? && |parts[i].value| == width
    ensures |Collect(parts).value| == width * |parts|
    decreases |parts|
  {
    if parts != [] {
      var init := parts[..|parts| - 1];
      assert forall i :: 0 <= i < |init| ==> init[i] == parts[i];
      CollectLength(init, width);
      assert width * |parts| == width * |init| + width;
    }
  }

  /** The first column of hour `h`'s field. */
  function Column(h: nat): nat {
    FirstColumn + FieldWidth * h
  }

  /** Hour `h`'s four-column field of `line`. */
  function Field(line: string, h: nat): string {
    PySlice(line, Column(h), Column(h) + FieldWidth)
  }

  /** Hour `h`'s value, as `int()` reads the field. */
  function HourValue(line: string, h: nat): Option<int> {
    ParseInt(Field(line, h))
  }

  /** `str(h).rjust(2, '0')`. */
  function Pad2(h: nat): (s: string)
    ensures |s| >= 2
  {
    if h < 10 then "0" + IntToString(h) else IntToString(h)
  }

  /** The text handed to `pd.to_datetime` for hour `h` of `line`. */
  function TimestampText(line: string, h: nat): string {
    "20" + PySlice(line, 3, 5) + "-" + PySlice(line, 5, 7) + "-" + PySlice(line, 8, 10) + " " + Pad2(h) + ":00:00"
  }

  /** The record of hour `h` when its field holds the number `v`. */
  function MakeRecord(line: string, h: nat, v: int): DstRecord {
    DstRecord("20" + PySlice(line, 3, 5), PySlice(line, 5, 7), PySlice(line, 8, 10), h, v)
  }

  /** The record for hour `h` of `line`, or `None` where `pd.to_datetime` or
      `int()` raises. */
  function HourRecord(accepts: string -> bool, line: string, h: nat): (r: Option<seq<DstRecord>>)
    ensures r.Some? <==> accepts(TimestampText(line, h)) && HourValue(line, h).Some?
    ensures r.Some? ==> r.value == [MakeRecord(line, h, HourValue(line, h).value)]
  {
    if !accepts(TimestampText(line, h)) then None
    else
      var v := HourValue(line, h);
      if v.None? then None else Some([MakeRecord(line, h, v.value)])
  }

  function HourParts(accepts: string -> bool, line: string): (r: seq<Option<seq<DstRecord>>>)
    ensures |r| == HoursPerLine && forall h :: 0 <= h < HoursPerLine ==> r[h] == HourRecord(accepts, line, h)
  {
    seq(HoursPerLine, h requires 0 <= h < HoursPerLine => HourRecord(accepts, line, h))
  }

  /** The 24 records of one line. */
  function LineRecords(accepts: string -> bool, line: string): Option<seq<DstRecord>> {
    Collect(HourParts(accepts, line))
  }

  /** `content.split('\n')[:-3]`: the last three lines are dropped. */
  function DataLines(text: string): (r: seq<string>)
    ensures var all := Split(text, '\n'); |r| == if |all| >= 3 then |all| - 3 else 0
    ensures forall i :: 0 <= i < |r| ==> r[i] == Split(text, '\n')[i]
  {
    var all := Split(text, '\n');
    if |all| >= 3 then all[..|all| - 3] else []
  }

  function LineParts(accepts: string -> bool, lines: seq<string>): (r: seq<Option<seq<DstRecord>>>)
    ensures |r| == |lines| && forall i :: 0 <= i < |lines| ==> r[i] == LineRecords(accepts, lines[i])
  {
    seq(|lines|, i requires 0 <= i < |lines| => LineRecords(accepts, lines[i]))
  }

  /** The records of one fetched text, line after line. */
  function TextRecords(accepts: string -> bool, text: string): Option<seq<DstRecord>> {
    Collect(LineParts(accepts, DataLines(text)))
  }

  function TextParts(accepts: string -> bool, texts: seq<string>): (r: seq<Option<seq<DstRecord>>>)
    ensures |r| == |texts| && forall i :: 0 <= i < |texts| ==> r[i] == TextRecords(accepts, texts[i])
  {
    seq(|texts|, i requires 0 <= i < |texts| => TextRecords(accepts, texts[i]))
  }

  /** The records of all texts, in URL order. */
  function DstRecords(accepts: string -> bool, texts: seq<string>): Option<seq<DstRecord>> {
    Collect(TextParts(accepts, texts))
  }

  /** The hourly loop over columns 20, 24, ..., 112 of one line. */
  method ParseLine(accepts: string -> bool, line: string) returns (r: Option<seq<DstRecord>>)
    ensures r == LineRecords(accepts, line)
  {
    var yy, mm, dd := PySlice(line, 3, 5), PySlice(line, 5, 7), PySlice(line, 8, 10);
    var records: seq<DstRecord> := [];
    var h := 0;
    var index := FirstColumn;
    while index < EndColumn
      invariant 0 <= h <= HoursPerLine && index == Column(h)
      invariant HoursDone(accepts, line, h, records)
    {
      if !accepts(TimestampText(line, h)) {
        HourFails(accepts, line, h, records, index);
        return None;
      }
      var nT := ParseInt(PySlice(line, index, index + FieldWidth));
      if nT.None? {
        HourFails(accepts, line, h, records, index);
        return None;
      }
      HourStep(accepts, line, h, records, index);
      records := records + [DstRecord("20" + yy, mm, dd, h, nT.value)];
      h := h + 1;
      index := index + FieldWidth;
    }
    assert h == HoursPerLine;
    HoursAll(accepts, line, records);
    return Some(records);
  }

  /** The records of the first `h` hours of `line` are `records`. */
  ghost predicate HoursDone(accepts: string -> bool, line: string, h: nat, records: seq<DstRecord>) {
    h <= HoursPerLine && Collect(HourParts(accepts, line)[..h]) == Some(records)
  }

  /** A timestamp `pd.to_datetime` rejects, or a field `int()` cannot read,
      makes the whole line raise. */
  lemma HourFails(accepts: string -> bool, line: string, h: nat, records: seq<DstRecord>, index: nat)
    requires HoursDone(accepts, line, h, records) && h < HoursPerLine && index == Column(h)
    requires !accepts(TimestampText(line, h)) || ParseInt(PySlice(line, index, index + FieldWidth)).None?
    ensures LineRecords(accepts, line).None?
  {
    assert PySlice(line, index, index + FieldWidth) == Field(line, h);
    assert HourParts(accepts, line)[..h + 1][h].None?;
    CollectNone(HourParts(accepts, line), h + 1);
  }

  /** One pass of the hour loop appends the record of hour `h`. */
  lemma HourStep(accepts: string -> bool, line: string, h: nat, records: seq<DstRecord>, index: nat)
    requires HoursDone(accepts, line, h, records) && h < HoursPerLine && index == Column(h)
    requires accepts(TimestampText(line, h)) && ParseInt(PySlice(line, index, index + FieldWidth)).Some?
    ensures HoursDone(accepts, line, h + 1, records + [DstRecord("20" + PySlice(line, 3, 5), PySlice(line, 5, 7), PySlice(line, 8, 10),
                                                                 h, ParseInt(PySlice(line, index, index + FieldWidth)).value)])
  {
    assert PySlice(line, index, index + FieldWidth) == Field(line, h);
    var v := HourValue(line, h).value;
    assert HourParts(accepts, line)[h] == Some([MakeRecord(line, h, v)]);
    CollectSnoc(HourParts(accepts, line), h);
  }

  /** After all 24 hours the records are the line's. */
  lemma HoursAll(accepts: string -> bool, line: string, records: seq<DstRecord>)
    requires HoursDone(accepts, line, HoursPerLine, records)
    ensures LineRecords(accepts, line) == Some(records)
  {
    assert HourParts(accepts, line)[..HoursPerLine] == HourParts(accepts, line);
  }

  /** The loop over the data lines of one fetched text. */
  method ParseText(accepts: string -> bool, text: string) returns (r: Option<seq<DstRecord>>)
    ensures r == TextRecords(accepts, text)
  {
    var lines := DataLines(text);
    var records: seq<DstRecord> := [];
    var i := 0;
    while i < |lines|
      invariant 0 <= i <= |lines|
      invariant Collect(LineParts(accepts, lines)[..i]) == Some(records)
    {
      var fromLine := ParseLine(accepts, lines[i]);
      assert fromLine == LineParts(accepts, lines)[i];
      if fromLine.None? {
        assert LineParts(accepts, lines)[..i + 1][i].None?;
        CollectNone(LineParts(accepts, lines), i + 1);
        return None;
      }
      CollectSnoc(LineParts(accepts, lines), i);
      records := records + fromLine.value;
      i := i + 1;
    }
    assert LineParts(accepts, lines)[..i] == LineParts(accepts, lines);
    return Some(records);
  }

  /** `parse_dst_index` over the fetched texts; `None` where it raises. */
  method ParseDstIndex(accepts: string -> bool, texts: seq<string>) returns (r: Option<seq<DstRecord>>)
    ensures r == DstRecords(accepts, texts)
  {
    var records: seq<DstRecord> := [];
    var k := 0;
    while k < |texts|
      invariant 0 <= k <= |texts|
      invariant Collect(TextParts(accepts, texts)[..k]) == Some(records)
    {
      var fromText := ParseText(accepts, texts[k]);
      assert fromText == TextParts(accepts, texts)[k];
      if fromText.None? {
        assert TextParts(accepts, texts)[..k + 1][k].None?;
        CollectNone(TextParts(accepts, texts), k + 1);
        return None;
      }
      CollectSnoc(TextParts(accepts, texts), k);
      records := records + fromText.value;
      k := k + 1;
    }
    assert TextParts(accepts, texts)[..k] == TextParts(accepts, texts);
    return Some(records);
  }

  /** A parsed line gives exactly 24 records, hours 0 to 23 in order, each
      dated from columns 3-5, 5-7 and 8-10, with a timestamp `pd.to_datetime`
      accepted, and valued from its own column. */
  lemma LineShape(accepts: string -> bool, line: string)
    requires LineRecords(accepts, line).Some?
    ensures |LineRecords(accepts, line).value| == HoursPerLine
    ensures forall h :: 0 <= h < HoursPerLine ==> accepts(TimestampText(line, h))
    ensures forall h :: 0 <= h < HoursPerLine ==>
              HourValue(line, h).Some? && LineRecords(accepts, line).value[h] == MakeRecord(line, h, HourValue(line, h).value)
  {
    var parts := HourParts(accepts, line);
    forall h | 0 <= h < HoursPerLine ensures parts[h].Some? && |parts[h].value| == 1 {
      assert parts[h] == HourRecord(accepts, line, h);
    }
    CollectSingletons(parts);
    forall h | 0 <= h < HoursPerLine
      ensures accepts(TimestampText(line, h)) && HourValue(line, h).Some?
              && LineRecords(accepts, line).value[h] == MakeRecord(line, h, HourValue(line, h).value)
    {
      assert parts[h] == HourRecord(accepts, line, h);
    }
  }

  /** Collecting one-record pieces lists those records in order. */
  lemma {:induction false} CollectSingletons<R>(parts: seq<Option<seq<R>>>)
    requires forall i :: 0 <= i < |parts| ==> parts[i].Some? && |parts[i].value| == 1
    ensures |Collect(parts).value| == |parts|
    ensures forall i :: 0 <= i < |parts| ==> Collect(parts).value[i] == parts[i].value[0]
    decreases |parts|
  {
    if parts != [] {
      var init := parts[..|parts| - 1];
      assert forall i :: 0 <= i < |init| ==> init[i] == parts[i];
      CollectSingletons(init);
    }
  }

  /** Columns from 116 on are never read. */
  lemma IgnoresTail(accepts: string -> bool, line: string, tail: string)
    requires |line| >= EndColumn
    ensures LineRecords(accepts, line + tail) == LineRecords(accepts, line)
  {
    assert PySlice(line + tail, 3, 5) == PySlice(line, 3, 5);
    assert PySlice(line + tail, 5, 7) == PySlice(line, 5, 7);
    assert PySlice(line + tail, 8, 10) == PySlice(line, 8, 10);
    forall h | 0 <= h < HoursPerLine ensures HourRecord(accepts, line + tail, h) == HourRecord(accepts, line, h) {
      assert Column(h) + FieldWidth <= EndColumn;
      assert Field(line + tail, h) == Field(line, h);
      assert TimestampText(line + tail, h) == TimestampText(line, h);
    }
    assert HourParts(accepts, line + tail) == HourParts(accepts, line);
  }

  /** A blank hour field makes `int()` raise, and with it the whole parse. */
  lemma BlankFieldFails(accepts: string -> bool, texts: seq<string>, k: nat, i: nat, h: nat)
    requires k < |texts| && i < |DataLines(texts[k])| && h < HoursPerLine
    requires forall c :: 0 <= c < |Field(DataLines(texts[k])[i], h)| ==> IsSpace(Field(DataLines(texts[k])[i], h)[c])
    ensures DstRecords(accepts, texts).None?
  {
    var line := DataLines(texts[k])[i];
    BlankIsNotAnInt(Field(line, h));
    LineFails(accepts, texts, k, i, h);
  }

  /** A timestamp `pd.to_datetime` rejects makes the whole parse raise. */
  lemma MalformedDateFails(accepts: string -> bool, texts: seq<string>, k: nat, i: nat, h: nat)
    requires k < |texts| && i < |DataLines(texts[k])| && h < HoursPerLine
    requires !accepts(TimestampText(DataLines(texts[k])[i], h))
    ensures DstRecords(accepts, texts).None?
  {
    LineFails(accepts, texts, k, i, h);
  }

  lemma LineFails(accepts: string -> bool, texts: seq<string>, k: nat, i: nat, h: nat)
    requires k < |texts| && i < |DataLines(texts[k])| && h < HoursPerLine
    requires HourRecord(accepts, DataLines(texts[k])[i], h).None?
    ensures DstRecords(accepts, texts).None?
  {
    var line := DataLines(texts[k])[i];
    assert HourParts(accepts, line)[h].None?;
    assert LineParts(accepts, DataLines(texts[k]))[i].None?;
    assert TextParts(accepts, texts)[k].None?;
  }

  /** The number of data lines over all texts. */
  function TotalLines(texts: seq<string>): nat
    decreases |texts|
  {
    if texts == [] then 0 else TotalLines(texts[..|texts| - 1]) + |DataLines(texts[|texts| - 1])|
  }

  /** A successful parse gives 24 records for every line kept from every text. */
  lemma {:induction false} RecordCount(accepts: string -> bool, texts: seq<string>)
    requires DstRecords(accepts, texts).Some?
    ensures |DstRecords(accepts, texts).value| == HoursPerLine * TotalLines(texts)
    decreases |texts|
  {
    if texts != [] {
      var init := texts[..|texts| - 1];
      var last := texts[|texts| - 1];
      assert TextParts(accepts, texts)[..|texts| - 1] == TextParts(accepts, init);
      RecordCount(accepts, init);
      var lines := DataLines(last);
      forall i | 0 <= i < |lines| ensures LineParts(accepts, lines)[i].Some? && |LineParts(accepts, lines)[i].value| == HoursPerLine {
        LineShape(accepts, lines[i]);
      }
      CollectLength(LineParts(accepts, lines), HoursPerLine);
    }
  }
}
