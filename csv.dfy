/**
 * `convertToCSV`: the catalog lookups, the export order, the fixed eight-column
 * layout and the quoting of every field (a `"` inside a field is doubled, as in
 * section 2, rule 7 of RFC 4180). Lines are joined with a bare line feed.
 *
 * The module also holds a reader for the quoted body, so that the round trip
 * "write, then read back" can be stated and proved.
 */
module Csv {
  import opened Wrappers
  import opened Text
  import opened Sequences
  import opened Types

  // ---------------------------------------------------------------------------
  // Catalog lookups
  // ---------------------------------------------------------------------------

  /** `studioOrderMap` after the `forEach`: each id maps to the index of its last entry. */
  function CatalogOrder(studios: seq<Studio>): map<string, nat>
  {
    if studios == [] then map[]
    else CatalogOrder(studios[..|studios| - 1])[studios[|studios| - 1].id := |studios| - 1]
  }

  /** `studioNameMap` after the `forEach`: each id maps to the name of its last entry. */
  function CatalogNames(studios: seq<Studio>): map<string, string>
  {
    if studios == [] then map[]
    else CatalogNames(studios[..|studios| - 1])[studios[|studios| - 1].id := studios[|studios| - 1].name]
  }

  /** The `forEach` that fills both maps, one `set` per catalog entry. */
  method BuildCatalogMaps(studios: seq<Studio>) returns (order: map<string, nat>, names: map<string, string>)
    ensures order == CatalogOrder(studios) && names == CatalogNames(studios)
  {
    order, names := map[], map[];
    for i := 0 to |studios|
      invariant order == CatalogOrder(studios[..i]) && names == CatalogNames(studios[..i])
    {
      assert studios[..i + 1][..i] == studios[..i];
      order := order[studios[i].id := i];
      names := names[studios[i].id := studios[i].name];
    }
    assert studios[..|studios|] == studios;
  }

  /**
   * An id is in the maps exactly when some entry has it; it maps to the last
   * such entry's index, and the name map agrees with that entry.
   */
  lemma {:induction false} CatalogLookup(studios: seq<Studio>, id: string)
    ensures id in CatalogOrder(studios) <==> exists i :: 0 <= i < |studios| && studios[i].id == id
    ensures id in CatalogNames(studios) <==> id in CatalogOrder(studios)
    ensures id in CatalogOrder(studios) ==>
      var i := CatalogOrder(studios)[id];
      && i < |studios| && studios[i].id == id
      && CatalogNames(studios)[id] == studios[i].name
      && forall j :: i < j < |studios| ==> studios[j].id != id
  {
    if studios != [] {
      var init := studios[..|studios| - 1];
      CatalogLookup(init, id);
      forall i | 0 <= i < |init| ensures init[i] == studios[i] { }
      if id != studios[|studios| - 1].id && exists i :: 0 <= i < |studios| && studios[i].id == id {
        var i :| 0 <= i < |studios| && studios[i].id == id;
        assert init[i].id == id;
      }
    }
  }

  /** With distinct ids every entry maps to its own position. */
  lemma CatalogOrderOfDistinct(studios: seq<Studio>, i: nat)
    requires i < |studios|
    requires forall p, q :: 0 <= p < q < |studios| ==> studios[p].id != studios[q].id
    ensures studios[i].id in CatalogOrder(studios) && CatalogOrder(studios)[studios[i].id] == i
    ensures studios[i].id in CatalogNames(studios) && CatalogNames(studios)[studios[i].id] == studios[i].name
  {
    CatalogLookup(studios, studios[i].id);
  }

  // ---------------------------------------------------------------------------
  // Export order
  // ---------------------------------------------------------------------------

  /** `studioOrderMap.get(b.studio) ?? Infinity`: `None` stands for Infinity. */
  function Rank(order: map<string, nat>, b: Booking): Option<nat>
  {
    if b.studio in order then Some(order[b.studio]) else None
  }

  /** `Infinity` is above every index and equal to itself. */
  predicate RankLt(x: Option<nat>, y: Option<nat>)
  {
    x.Some? && (y.None? || x.value < y.value)
  }

  /** `a` may come before `b` in the export: the comparator gives a result of at most zero. */
  predicate ExportBefore(order: map<string, nat>, a: Booking, b: Booking)
  {
    var ra, rb := Rank(order, a), Rank(order, b);
    if ra != rb then RankLt(ra, rb)
    else if a.date != b.date then LexLe(a.date, b.date)
    else LexLe(a.startTime, b.startTime)
  }

  function ExportLe(order: map<string, nat>): (Booking, Booking) -> bool
  {
    (a, b) => ExportBefore(order, a, b)
  }

  /** The comparator is total and transitive, so the sort has a well-defined result. */
  lemma ExportLeTotalPreorder(order: map<string, nat>)
    ensures TotalPreorder(ExportLe(order))
  {
    forall a: Booking, b: Booking ensures ExportBefore(order, a, b) || ExportBefore(order, b, a) {
      LexLeTotal(a.date, b.date);
      LexLeTotal(a.startTime, b.startTime);
    }
    forall a: Booking, b: Booking, c: Booking | ExportBefore(order, a, b) && ExportBefore(order, b, c)
      ensures ExportBefore(order, a, c)
    {
      ExportBeforeTransitive(order, a, b, c);
    }
  }

  lemma ExportBeforeTransitive(order: map<string, nat>, a: Booking, b: Booking, c: Booking)
    requires ExportBefore(order, a, b) && ExportBefore(order, b, c)
    ensures ExportBefore(order, a, c)
  {
    var ra, rb, rc := Rank(order, a), Rank(order, b), Rank(order, c);
    if ra == rb && rb == rc {
      if a.date != b.date && b.date != c.date {
        LexLeTransitive(a.date, b.date, c.date);
        if a.date == c.date {
          LexLeAntisymmetric(a.date, b.date);
        }
      } else if a.date == b.date && b.date == c.date {
        LexLeTransitive(a.startTime, b.startTime, c.startTime);
      }
    }
  }

  /** `[...data].sort(...)`: a sorted copy; the argument itself is a value and stays as it was. */
  function SortForExport(data: seq<Booking>, studios: seq<Studio>): (sorted: seq<Booking>)
    ensures multiset(sorted) == multiset(data) && |sorted| == |data|
  {
    assert |data| == |multiset(data)|;
    SortBy(data, ExportLe(CatalogOrder(studios)))
  }

  /**
   * The export order: catalog position first, studios outside the catalog last,
   * then date, then start time, each ascending.
   */
  lemma SortForExportOrdered(data: seq<Booking>, studios: seq<Studio>)
    ensures SortedBy(SortForExport(data, studios), ExportLe(CatalogOrder(studios)))
  {
    ExportLeTotalPreorder(CatalogOrder(studios));
    SortBySorted(data, ExportLe(CatalogOrder(studios)));
  }

  /** In the sorted rows a catalog studio's booking never follows one whose studio is not in the catalog. */
  lemma UnknownStudiosLast(data: seq<Booking>, studios: seq<Studio>, i: nat, j: nat)
    requires i < j < |SortForExport(data, studios)|
    ensures var s := SortForExport(data, studios);
      s[i].studio !in CatalogOrder(studios) ==> s[j].studio !in CatalogOrder(studios)
  {
    SortForExportOrdered(data, studios);
  }

  // ---------------------------------------------------------------------------
  // Layout and quoting
  // ---------------------------------------------------------------------------

  const HEADERS: seq<string> := ["ID", "Studio", "Date", "Start Time", "End Time", "Name", "Recording Purpose", "Subject"]

  function HeaderLine(): string
  {
    Join(HEADERS, ",")
  }

  /** The header line is the eight names, unquoted: split at its commas it gives them back. */
  lemma HeaderLineText()
    ensures Split(HeaderLine(), ',') == HEADERS
  {
    forall i | 0 <= i < |HEADERS| ensures ',' !in HEADERS[i] {
      HeaderNoComma(i);
    }
    SplitJoin(HEADERS, ',');
  }

  lemma HeaderNoComma(i: nat)
    requires i < |HEADERS|
    ensures ',' !in HEADERS[i]
  {
    var h := HEADERS[i];
    forall k | 0 <= k < |h| ensures h[k] != ',' {
    }
  }

  /** `studioNameMap.get(id) || id`: the catalog name, or the raw id when it has none (or an empty one). */
  function StudioLabel(names: map<string, string>, id: string): (shown: string)
    ensures id in names && names[id] != "" ==> shown == names[id]
    ensures !(id in names && names[id] != "") ==> shown == id
  {
    if id in names && names[id] != "" then names[id] else id
  }

  /** The eight column values of a booking, in header order. */
  function RowValues(b: Booking, names: map<string, string>): (values: seq<string>)
    ensures |values| == |HEADERS|
  {
    [b.id, StudioLabel(names, b.studio), b.date, b.startTime, b.endTime, b.name, b.recordingPurpose, b.subject]
  }

  /** Doubles every `"` of a value and leaves every other character as it is. */
  function Escape(v: string): (e: string)
    ensures |e| >= |v|
  {
    if v == [] then []
    else (if v[0] == '"' then "\"\"" else [v[0]]) + Escape(v[1..])
  }

  function Quote(v: string): string
  {
    "\"" + Escape(v) + "\""
  }

  function QuoteAll(values: seq<string>): (quoted: seq<string>)
    ensures |quoted| == |values|
  {
    seq(|values|, i requires 0 <= i < |values| => Quote(values[i]))
  }

  function RowText(b: Booking, names: map<string, string>): string
  {
    Join(QuoteAll(RowValues(b, names)), ",")
  }

  function RowTexts(rows: seq<Booking>, names: map<string, string>): (texts: seq<string>)
    ensures |texts| == |rows|
  {
    seq(|rows|, i requires 0 <= i < |rows| => RowText(rows[i], names))
  }

  /** The whole export: empty for no bookings, else the header line and one line per sorted booking. */
  function CsvText(data: seq<Booking>, studios: seq<Studio>): string
  {
    if data == [] then ""
    else Join([HeaderLine()] + RowTexts(SortForExport(data, studios), CatalogNames(studios)), "\n")
  }

  /** `convertToCSV`. */
  method ConvertToCsv(data: seq<Booking>, studios: seq<Studio>) returns (csv: string)
    ensures csv == CsvText(data, studios)
  {
    if |data| == 0 {
      return "";
    }
    var order, names := BuildCatalogMaps(studios);
    var sortedData := SortBy(data, ExportLe(order));
    var csvRows := [Join(HEADERS, ",")];
    csvRows := EmitRows(csvRows, sortedData, names);
    csv := Join(csvRows, "\n");
  }

  /** Appends one quoted, comma-joined line per sorted booking, in order. */
  method EmitRows(header: seq<string>, sortedData: seq<Booking>, names: map<string, string>) returns (csvRows: seq<string>)
    ensures csvRows == header + RowTexts(sortedData, names)
  {
    csvRows := header;
    for i := 0 to |sortedData|
      invariant csvRows == header + RowTexts(sortedData[..i], names)
    {
      var values := QuoteAll(RowValues(sortedData[i], names));
      assert RowTexts(sortedData[..i + 1], names) == RowTexts(sortedData[..i], names) + [Join(values, ",")];
      csvRows := csvRows + [Join(values, ",")];
    }
    assert sortedData[..|sortedData|] == sortedData;
  }

  // ---------------------------------------------------------------------------
  // Reading the export back
  // ---------------------------------------------------------------------------

  /** A value read from the front of a text, and what follows it. */
  datatype Read<T> = Read(value: T, rest: string)

  /** Reads the inside of a quoted field up to its closing quote, undoubling `""`. */
  function ReadQuoted(s: string): (r: Option<Read<string>>)
    ensures r.Some? ==> |r.value.rest| < |s|
  {
    if s == [] then None
    else if s[0] == '"' then
      if |s| >= 2 && s[1] == '"' then
        match ReadQuoted(s[2..])
        case None => None
        case Some(r) => Some(Read("\"" + r.value, r.rest))
      else Some(Read("", s[1..]))
    else
      match ReadQuoted(s[1..])
      case None => None
      case Some(r) => Some(Read([s[0]] + r.value, r.rest))
  }

  function ReadField(s: string): (r: Option<Read<string>>)
    ensures r.Some? ==> |r.value.rest| < |s|
  {
    if s != [] && s[0] == '"' then ReadQuoted(s[1..]) else None
  }

  /** Reads comma-separated quoted fields up to the end of a line. */
  function ReadFields(s: string): (r: Option<Read<seq<string>>>)
    ensures r.Some? ==> |r.value.rest| < |s|
    decreases |s|
  {
    match ReadField(s)
    case None => None
    case Some(f) =>
      if f.rest != [] && f.rest[0] == ',' then
        match ReadFields(f.rest[1..])
        case None => None
        case Some(more) => Some(Read([f.value] + more.value, more.rest))
      else Some(Read([f.value], f.rest))
  }

  /** Reads line-feed-separated records to the end of the text. */
  function ReadRecords(s: string): Option<seq<seq<string>>>
    decreases |s|
  {
    match ReadFields(s)
    case None => None
    case Some(line) =>
      if line.rest == [] then Some([line.value])
      else if line.rest[0] == '\n' then
        match ReadRecords(line.rest[1..])
        case None => None
        case Some(more) => Some([line.value] + more)
      else None
  }

  /** Undoubling the escaped text recovers the value, up to the closing quote. */
  lemma {:induction false} ReadQuotedEscape(v: string, rest: string)
    requires rest == [] || rest[0] != '"'
    ensures ReadQuoted(Escape(v) + "\"" + rest) == Some(Read(v, rest))
  {
    if v == [] {
      assert Escape(v) + "\"" + rest == "\"" + rest;
    } else {
      ReadQuotedEscape(v[1..], rest);
      var tail := Escape(v[1..]) + "\"" + rest;
      var c := v[0];
      EscapeHead(v, rest);
      ReadQuotedStep(c, tail, v[1..], rest, Escape(v) + "\"" + rest);
      assert [c] + v[1..] == v;
    }
  }

  /** Escaping the first character and then the rest, followed by the closing quote and what comes after it. */
  lemma EscapeHead(v: string, rest: string)
    requires v != []
    ensures Escape(v) + "\"" + rest == (if v[0] == '"' then "\"\"" else [v[0]]) + (Escape(v[1..]) + "\"" + rest)
  {
  }

  /** One step of `ReadQuoted`: a doubled quote or a plain character in front of a readable tail. */
  lemma ReadQuotedStep(c: char, tail: string, v: string, rest: string, s: string)
    requires ReadQuoted(tail) == Some(Read(v, rest))
    requires s == (if c == '"' then "\"\"" else [c]) + tail
    ensures ReadQuoted(s) == Some(Read([c] + v, rest))
  {
    if c == '"' {
      assert s[2..] == tail;
    } else {
      assert s[1..] == tail;
    }
  }

  /** A quoted field reads back as its value. */
  lemma ReadFieldQuote(v: string, rest: string)
    requires rest == [] || rest[0] != '"'
    ensures ReadField(Quote(v) + rest) == Some(Read(v, rest))
  {
    var s := Quote(v) + rest;
    assert s == "\"" + (Escape(v) + "\"" + rest);
    assert s[1..] == Escape(v) + "\"" + rest;
    ReadQuotedEscape(v, rest);
  }

  /** A comma-joined line of quoted fields reads back as the values. */
  lemma {:induction false} ReadFieldsJoin(values: seq<string>, rest: string)
    requires |values| >= 1
    requires rest == [] || rest[0] == '\n'
    ensures ReadFields(Join(QuoteAll(values), ",") + rest) == Some(Read(values, rest))
  {
    var q := QuoteAll(values);
    if |values| == 1 {
      assert Join(q, ",") == Quote(values[0]);
      ReadFieldQuote(values[0], rest);
      assert [values[0]] == values;
    } else {
      assert q[1..] == QuoteAll(values[1..]);
      var tail := Join(QuoteAll(values[1..]), ",") + rest;
      assert Join(q, ",") + rest == Quote(values[0]) + ("," + tail);
      ReadFieldQuote(values[0], "," + tail);
      assert ("," + tail)[1..] == tail;
      ReadFieldsJoin(values[1..], rest);
      assert [values[0]] + values[1..] == values;
    }
  }

  function AllRowValues(rows: seq<Booking>, names: map<string, string>): (table: seq<seq<string>>)
    ensures |table| == |rows|
  {
    seq(|rows|, i requires 0 <= i < |rows| => RowValues(rows[i], names))
  }

  /** The last line of the body reads back as one record. */
  lemma ReadRecordsLast(values: seq<string>)
    requires |values| >= 1
    ensures ReadRecords(Join(QuoteAll(values), ",")) == Some([values])
  {
    ReadFieldsJoin(values, "");
    assert Join(QuoteAll(values), ",") + "" == Join(QuoteAll(values), ",");
  }

  /** A line followed by a line feed reads back as its record in front of the records after it. */
  lemma ReadRecordsNext(values: seq<string>, tail: string)
    requires |values| >= 1
    ensures ReadRecords(Join(QuoteAll(values), ",") + ("\n" + tail)) ==
      match ReadRecords(tail)
      case None => None
      case Some(more) => Some([values] + more)
  {
    ReadFieldsJoin(values, "\n" + tail);
    assert ("\n" + tail)[1..] == tail;
  }

  /** The lines of a table: each record's values quoted and comma-joined. */
  function RecordLines(table: seq<seq<string>>): (lines: seq<string>)
    ensures |lines| == |table|
  {
    seq(|table|, i requires 0 <= i < |table| => Join(QuoteAll(table[i]), ","))
  }

  /** A table of non-empty records, written one line per record, reads back as the table. */
  lemma {:induction false} ReadRecordLines(table: seq<seq<string>>)
    requires |table| >= 1
    requires forall i :: 0 <= i < |table| ==> |table[i]| >= 1
    ensures ReadRecords(Join(RecordLines(table), "\n")) == Some(table)
  {
    var lines := RecordLines(table);
    if |table| == 1 {
      assert Join(lines, "\n") == Join(QuoteAll(table[0]), ",");
      ReadRecordsLast(table[0]);
      assert [table[0]] == table;
    } else {
      assert lines[1..] == RecordLines(table[1..]);
      var tail := Join(RecordLines(table[1..]), "\n");
      assert Join(lines, "\n") == Join(QuoteAll(table[0]), ",") + ("\n" + tail);
      ReadRecordsNext(table[0], tail);
      ReadRecordLines(table[1..]);
      assert [table[0]] + table[1..] == table;
    }
  }

  /** The line-feed-joined rows read back as the table of their values. */
  lemma ReadRecordsJoin(rows: seq<Booking>, names: map<string, string>)
    requires |rows| >= 1
    ensures ReadRecords(Join(RowTexts(rows, names), "\n")) == Some(AllRowValues(rows, names))
  {
    var table := AllRowValues(rows, names);
    assert RowTexts(rows, names) == RecordLines(table);
    ReadRecordLines(table);
  }

  /**
   * The export is the header line, a line feed, and a body that reads back as
   * one record of eight values per booking, in export order.
   */
  lemma CsvRoundTrip(data: seq<Booking>, studios: seq<Studio>)
    requires data != []
    ensures var sorted := SortForExport(data, studios);
      exists body ::
        && CsvText(data, studios) == HeaderLine() + "\n" + body
        && ReadRecords(body) == Some(AllRowValues(sorted, CatalogNames(studios)))
  {
    var sorted := SortForExport(data, studios);
    var texts := RowTexts(sorted, CatalogNames(studios));
    var lines := [HeaderLine()] + texts;
    assert lines[1..] == texts;
    var body := Join(texts, "\n");
    assert CsvText(data, studios) == HeaderLine() + "\n" + body;
    ReadRecordsJoin(sorted, CatalogNames(studios));
  }

  lemma CsvEmpty(studios: seq<Studio>)
    ensures CsvText([], studios) == ""
  {
  }

  /** The studio column of an id that no catalog entry has is the id itself. */
  lemma StudioColumnUnknown(studios: seq<Studio>, id: string)
    requires forall i :: 0 <= i < |studios| ==> studios[i].id != id
    ensures StudioLabel(CatalogNames(studios), id) == id
  {
    CatalogLookup(studios, id);
  }

  /** The studio column of a catalog id is the name of its last entry, or the id when that name is empty. */
  lemma StudioColumnKnown(studios: seq<Studio>, id: string, i: nat)
    requires i < |studios| && studios[i].id == id
    requires forall j :: i < j < |studios| ==> studios[j].id != id
    ensures StudioLabel(CatalogNames(studios), id) == if studios[i].name != "" then studios[i].name else id
  {
    CatalogLookup(studios, id);
    assert id in CatalogOrder(studios);
    var last := CatalogOrder(studios)[id];
    assert last == i;
  }

  /** Each data line shows its booking's values, with the studio's catalog name in place of its id. */
  lemma RowColumns(b: Booking, studios: seq<Studio>, i: nat)
    requires i < |studios| && studios[i].id == b.studio && studios[i].name != ""
    requires forall p, q :: 0 <= p < q < |studios| ==> studios[p].id != studios[q].id
    ensures RowValues(b, CatalogNames(studios)) ==
      [b.id, studios[i].name, b.date, b.startTime, b.endTime, b.name, b.recordingPurpose, b.subject]
  {
    CatalogOrderOfDistinct(studios, i);
    assert StudioLabel(CatalogNames(studios), b.studio) == studios[i].name;
  }

}
