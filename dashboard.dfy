/**
 * The dashboard's per-studio lists (`bookingsByStudio`) and the colour given
 * to each recording purpose.
 */
module Dashboard {
  import opened Text
  import opened Sequences
  import opened Types

  // ---------------------------------------------------------------------------
  // Purpose colours
  // ---------------------------------------------------------------------------

  const DEFAULT_COLOR := "border-gray-500 bg-gray-500/10"

  /** `getPurposeColorClasses`. */
  function PurposeColorClasses(purpose: string): string
  {
    if purpose == "YouTube" then "border-red-500 bg-red-500/10"
    else if purpose == "Planner" then "border-blue-500 bg-blue-500/10"
    else if purpose == "Smart Course" then "border-green-500 bg-green-500/10"
    else if purpose == "Live" then "border-purple-500 bg-purple-500/10"
    else DEFAULT_COLOR
  }

  /** Exactly the four purpose labels get a colour of their own, and no two share one. */
  lemma PurposeColorsDistinct(p: RecordingPurpose, q: RecordingPurpose, other: string)
    requires forall r :: r in RECORDING_PURPOSES ==> other != PurposeLabel(r)
    ensures PurposeColorClasses(PurposeLabel(p)) != DEFAULT_COLOR
    ensures p != q ==> PurposeColorClasses(PurposeLabel(p)) != PurposeColorClasses(PurposeLabel(q))
    ensures PurposeColorClasses(other) == DEFAULT_COLOR
  {
    assert PurposeLabel(YouTube) in [PurposeLabel(YouTube)];
    assert other != PurposeLabel(YouTube) && other != PurposeLabel(Planner);
    assert other != PurposeLabel(SmartCourse) && other != PurposeLabel(Live);
  }

  // ---------------------------------------------------------------------------
  // Per-studio lists
  // ---------------------------------------------------------------------------

  function StudioIds(studios: seq<Studio>): set<string>
  {
    set i | 0 <= i < |studios| :: studios[i].id
  }

  function OfStudio(id: string): Booking -> bool
  {
    (b: Booking) => b.studio == id
  }

  /** `a` may come before `b` in a studio's list: its start time is not later by string order. */
  function StartLe(): (Booking, Booking) -> bool
  {
    (a: Booking, b: Booking) => LexLe(a.startTime, b.startTime)
  }

  /** The lists the dashboard shows: for each catalog id, its bookings sorted by start. */
  function Grouped(studios: seq<Studio>, bookings: seq<Booking>): map<string, seq<Booking>>
  {
    map id | id in StudioIds(studios) :: SortBy(Filter(bookings, OfStudio(id)), StartLe())
  }

  /**
   * `bookingsByStudio`: an empty list per catalog studio, each booking pushed
   * onto its studio's list if there is one, then every list sorted by start.
   */
  method BookingsByStudio(studios: seq<Studio>, bookings: seq<Booking>) returns (m: map<string, seq<Booking>>)
    ensures m == Grouped(studios, bookings)
  {
    m := EmptyLists(studios);
    m := PushAll(m, bookings);
    m := SortEach(m, bookings);
    assert m.Keys == Grouped(studios, bookings).Keys;
  }

  /** The `studios.forEach` loop: an empty list per catalog id. */
  method EmptyLists(studios: seq<Studio>) returns (m: map<string, seq<Booking>>)
    ensures m.Keys == StudioIds(studios)
    ensures forall id :: id in m ==> m[id] == []
  {
    m := map[];
    for i := 0 to |studios|
      invariant m.Keys == StudioIds(studios[..i])
      invariant forall id :: id in m ==> m[id] == []
    {
      assert StudioIds(studios[..i + 1]) == StudioIds(studios[..i]) + {studios[i].id} by {
        assert forall j :: 0 <= j < i ==> studios[..i + 1][j] == studios[..i][j];
      }
      m := m[studios[i].id := []];
    }
    assert studios[..|studios|] == studios;
  }

  /** Appends each booking to its studio's list, skipping bookings whose studio has no list. */
  method PushAll(start: map<string, seq<Booking>>, bookings: seq<Booking>) returns (m: map<string, seq<Booking>>)
    requires forall id :: id in start ==> start[id] == []
    ensures m.Keys == start.Keys
    ensures forall id :: id in m ==> m[id] == Filter(bookings, OfStudio(id))
  {
    m := start;
    for i := 0 to |bookings|
      invariant m.Keys == start.Keys
      invariant forall id :: id in m ==> m[id] == Filter(bookings[..i], OfStudio(id))
    {
      var b := bookings[i];
      assert bookings[..i + 1] == bookings[..i] + [b];
      forall id | id in m ensures Filter(bookings[..i + 1], OfStudio(id)) == Filter(bookings[..i], OfStudio(id)) + (if b.studio == id then [b] else []) {
        FilterConcat(bookings[..i], [b], OfStudio(id));
      }
      if b.studio in m {
        m := m[b.studio := m[b.studio] + [b]];
      }
    }
    assert bookings[..|bookings|] == bookings;
  }

  /** The `map.forEach` loop that sorts every list by start time. */
  method SortEach(start: map<string, seq<Booking>>, bookings: seq<Booking>) returns (m: map<string, seq<Booking>>)
    requires forall id :: id in start ==> start[id] == Filter(bookings, OfStudio(id))
    ensures m.Keys == start.Keys
    ensures forall id :: id in m ==> m[id] == SortBy(Filter(bookings, OfStudio(id)), StartLe())
  {
    m := start;
    var todo := start.Keys;
    while todo != {}
      invariant todo <= m.Keys && m.Keys == start.Keys
      invariant forall id :: id in todo ==> m[id] == Filter(bookings, OfStudio(id))
      invariant forall id :: id in m && id !in todo ==> m[id] == SortBy(Filter(bookings, OfStudio(id)), StartLe())
      decreases |todo|
    {
      var id :| id in todo;
      var sorted := SortBy(m[id], StartLe());
      m := m[id := sorted];
      todo := todo - {id};
    }
  }

  lemma StartLeTotalPreorder()
    ensures TotalPreorder(StartLe())
  {
    forall a: Booking, b: Booking ensures LexLe(a.startTime, b.startTime) || LexLe(b.startTime, a.startTime) {
      LexLeTotal(a.startTime, b.startTime);
    }
    forall a: Booking, b: Booking, c: Booking | LexLe(a.startTime, b.startTime) && LexLe(b.startTime, c.startTime)
      ensures LexLe(a.startTime, c.startTime)
    {
      LexLeTransitive(a.startTime, b.startTime, c.startTime);
    }
  }

  /** Every catalog studio has a list, and nothing else does. */
  lemma GroupedKeys(studios: seq<Studio>, bookings: seq<Booking>, id: string)
    ensures id in Grouped(studios, bookings) <==> exists i :: 0 <= i < |studios| && studios[i].id == id
  {
    if exists i :: 0 <= i < |studios| && studios[i].id == id {
      var i :| 0 <= i < |studios| && studios[i].id == id;
      assert studios[i].id in StudioIds(studios);
    }
  }

  /** Each list is in ascending start-time order. */
  lemma GroupedSorted(studios: seq<Studio>, bookings: seq<Booking>, id: string)
    requires id in Grouped(studios, bookings)
    ensures SortedBy(Grouped(studios, bookings)[id], StartLe())
  {
    StartLeTotalPreorder();
    SortBySorted(Filter(bookings, OfStudio(id)), StartLe());
  }

  /**
   * The sort is stable: a studio whose bookings are stored in start-time order
   * shows them in the stored order.
   */
  lemma GroupedPresorted(studios: seq<Studio>, bookings: seq<Booking>, id: string)
    requires id in Grouped(studios, bookings)
    requires SortedBy(Filter(bookings, OfStudio(id)), StartLe())
    ensures Grouped(studios, bookings)[id] == Filter(bookings, OfStudio(id))
  {
    SortByOfSorted(Filter(bookings, OfStudio(id)), StartLe());
  }

  /** A list holds every booking of its studio as often as it occurs in the input, and nothing else. */
  lemma GroupedCounts(studios: seq<Studio>, bookings: seq<Booking>, id: string, b: Booking)
    requires id in Grouped(studios, bookings)
    ensures multiset(Grouped(studios, bookings)[id])[b] == if b.studio == id then multiset(bookings)[b] else 0
  {
    FilterCount(bookings, OfStudio(id), b);
  }

  /** A booking whose studio is not in the catalog is in no list. */
  lemma UnknownStudioHidden(studios: seq<Studio>, bookings: seq<Booking>, b: Booking, id: string)
    requires forall i :: 0 <= i < |studios| ==> studios[i].id != b.studio
    requires id in Grouped(studios, bookings)
    ensures b !in Grouped(studios, bookings)[id]
  {
    GroupedKeys(studios, bookings, id);
    GroupedCounts(studios, bookings, id, b);
  }

  /** A catalog studio without bookings gets an empty list. */
  lemma EmptyStudioList(studios: seq<Studio>, bookings: seq<Booking>, id: string)
    requires id in Grouped(studios, bookings)
    requires forall k :: 0 <= k < |bookings| ==> bookings[k].studio != id
    ensures Grouped(studios, bookings)[id] == []
  {
    FilterNone(bookings, OfStudio(id));
  }

}
