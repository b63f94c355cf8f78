/**
 * The application state the export and the date picker change, and the pure
 * part of an export: the inclusive date-range filter, the empty check and the
 * file name.
 */
module App {
  import opened Wrappers
  import opened Text
  import opened Sequences
  import opened Types
  import opened Csv

  /** The booking's date lies between the two dates inclusive, by string order. */
  predicate InRange(startDate: string, endDate: string, b: Booking)
  {
    LexLe(startDate, b.date) && LexLe(b.date, endDate)
  }

  function InExportRange(startDate: string, endDate: string): Booking -> bool
  {
    (b: Booking) => InRange(startDate, endDate, b)
  }

  /** The bookings an export covers, in the order the store returned them. */
  function FilterForExport(all: seq<Booking>, startDate: string, endDate: string): seq<Booking>
  {
    Filter(all, InExportRange(startDate, endDate))
  }

  /** A booking is exported exactly when it is stored and its date lies in the range. */
  lemma FilterForExportMembership(all: seq<Booking>, startDate: string, endDate: string, b: Booking)
    ensures b in FilterForExport(all, startDate, endDate) <==> b in all && InRange(startDate, endDate, b)
  {
    FilterMembership(all, InExportRange(startDate, endDate), b);
  }

  /** The filter keeps the stored order: filtering a concatenation concatenates the filtered parts. */
  lemma FilterForExportOrder(a: seq<Booking>, b: seq<Booking>, startDate: string, endDate: string)
    ensures FilterForExport(a + b, startDate, endDate) == FilterForExport(a, startDate, endDate) + FilterForExport(b, startDate, endDate)
  {
    FilterConcat(a, b, InExportRange(startDate, endDate));
  }

  /** When every stored booking lies in the range, the export is the whole store, in stored order. */
  lemma FilterForExportAll(all: seq<Booking>, startDate: string, endDate: string)
    requires forall k :: 0 <= k < |all| ==> InRange(startDate, endDate, all[k])
    ensures FilterForExport(all, startDate, endDate) == all
  {
    FilterAll(all, InExportRange(startDate, endDate));
  }

  /** A range whose end comes before its start (and differs on the dates compared) exports nothing. */
  lemma EmptyRangeExportsNothing(all: seq<Booking>, startDate: string, endDate: string)
    requires LexLe(endDate, startDate) && endDate != startDate
    ensures FilterForExport(all, startDate, endDate) == []
  {
    forall k | 0 <= k < |all| ensures !InRange(startDate, endDate, all[k]) {
      if InRange(startDate, endDate, all[k]) {
        LexLeTransitive(startDate, all[k].date, endDate);
        LexLeAntisymmetric(startDate, endDate);
      }
    }
    FilterNone(all, InExportRange(startDate, endDate));
  }

  /** The download's name: the two dates between the fixed parts `bookings_`, `_to_` and `.csv`. */
  function ExportFileName(startDate: string, endDate: string): (name: string)
    ensures |name| == |startDate| + |endDate| + 17
  {
    "bookings_" + startDate + "_to_" + endDate + ".csv"
  }

  /** Ranges with start dates of one length (as `YYYY-MM-DD` dates are) are told apart by the file name. */
  lemma ExportFileNameInjective(s1: string, e1: string, s2: string, e2: string)
    requires |s1| == |s2|
    requires ExportFileName(s1, e1) == ExportFileName(s2, e2)
    ensures s1 == s2 && e1 == e2
  {
    var n1, n2 := ExportFileName(s1, e1), ExportFileName(s2, e2);
    assert s1 == n1[9..9 + |s1|];
    assert s2 == n2[9..9 + |s2|];
    assert |e1| == |e2|;
    assert e1 == n1[13 + |s1|..13 + |s1| + |e1|];
    assert e2 == n2[13 + |s2|..13 + |s2| + |e2|];
  }

  /** A file handed to the browser: its contents and its name. */
  datatype Download = Download(contents: string, fileName: string)

  /** What an export produces: nothing for an empty range, else the CSV of the range over the catalog. */
  function ExportOutcome(all: seq<Booking>, startDate: string, endDate: string): (r: Option<Download>)
    ensures r.None? <==> FilterForExport(all, startDate, endDate) == []
    ensures r.Some? ==> r.value.fileName == ExportFileName(startDate, endDate)
  {
    var filtered := FilterForExport(all, startDate, endDate);
    if filtered == [] then None
    else Some(Download(CsvText(filtered, STUDIOS), ExportFileName(startDate, endDate)))
  }

  /** An export that produces a file writes one data line per booking in the range, read back from the file. */
  lemma ExportRoundTrip(all: seq<Booking>, startDate: string, endDate: string)
    requires ExportOutcome(all, startDate, endDate).Some?
    ensures var filtered := FilterForExport(all, startDate, endDate);
      exists body ::
        && ExportOutcome(all, startDate, endDate).value.contents == HeaderLine() + "\n" + body
        && ReadRecords(body) == Some(AllRowValues(SortForExport(filtered, STUDIOS), CatalogNames(STUDIOS)))
        && |AllRowValues(SortForExport(filtered, STUDIOS), CatalogNames(STUDIOS))| == |filtered|
  {
    CsvRoundTrip(FilterForExport(all, startDate, endDate), STUDIOS);
  }

  /** The dashboard's selected date and whether the export dialog is open. */
  class AppState {
    var selectedDate: string
    var isExportModalOpen: bool

    /** The app opens on `today` (read from the clock by the caller) with the export dialog closed. */
    constructor (today: string)
      ensures selectedDate == today && !isExportModalOpen
    {
      selectedDate := today;
      isExportModalOpen := false;
    }

    /** `handleDateChange`: an empty value leaves the date as it was. */
    method HandleDateChange(newDate: string)
      modifies this
      ensures selectedDate == if newDate == "" then old(selectedDate) else newDate
      ensures isExportModalOpen == old(isExportModalOpen)
    {
      if newDate != "" {
        selectedDate := newDate;
      }
    }

    /**
     * `handleExportBookings` over the bookings the store returned: nothing to
     * download for an empty range (the dialog stays as it is), else the CSV of
     * the range and its file name, and the dialog closes.
     */
    method HandleExportBookings(allBookings: seq<Booking>, startDate: string, endDate: string)
      returns (download: Option<Download>)
      modifies this
      ensures download == ExportOutcome(allBookings, startDate, endDate)
      ensures selectedDate == old(selectedDate)
      ensures isExportModalOpen == (if download.None? then old(isExportModalOpen) else false)
    {
      var filteredBookings := FilterForExport(allBookings, startDate, endDate);
      if |filteredBookings| == 0 {
        return None;
      }
      var csvData := ConvertToCsv(filteredBookings, STUDIOS);
      download := Some(Download(csvData, ExportFileName(startDate, endDate)));
      isExportModalOpen := false;
    }
  }

}
