/**
 * Whether the offered start and end lists keep one studio's day free of
 * overlapping bookings, and where the text `"00:00"` for midnight breaks that.
 */
module NoOverlap {
  import opened Wrappers
  import opened Text
  import opened Sequences
  import opened Types
  import opened Time
  import opened BookingModal

  lemma EndTimeOptionsAt(startTime: string, s: nat, bookings: seq<Booking>, editing: Option<Booking>)
    requires startTime != "" && TimeToMinutes(startTime) == Some(s)
    ensures EndTimeOptions(startTime, bookings, editing) == Render(EndMinutes(s, EndLimit(NextBookingStart(bookings, editing, s))))
  {
  }

  lemma EndTimeOptionsStart(startTime: string, bookings: seq<Booking>, editing: Option<Booking>, endTime: string)
    requires endTime in EndTimeOptions(startTime, bookings, editing)
    ensures startTime != "" && TimeToMinutes(startTime).Some?
  {
  }

  /**
   * What an offered end is, in minutes: a half-hour tick after the start, no
   * later than the limit, and so not past the start of any other booking that
   * begins after the chosen start.
   */
  lemma OfferedEnd(s: nat, bookings: seq<Booking>, editing: Option<Booking>, endTime: string)
    requires endTime in Render(EndMinutes(s, EndLimit(NextBookingStart(bookings, editing, s))))
    ensures exists x: nat ::
      && endTime == MinutesToTime(x) && s < x && (x - s) % 30 == 0
      && x <= EndLimit(NextBookingStart(bookings, editing, s))
      && (forall k :: (0 <= k < |bookings| && IsOther(bookings[k], editing) && TimeToMinutes(bookings[k].startTime).Some?
                       && s < TimeToMinutes(bookings[k].startTime).value) ==> x <= TimeToMinutes(bookings[k].startTime).value)
  {
    var limit := EndLimit(NextBookingStart(bookings, editing, s));
    OfferedEndMinutes(s, limit, endTime);
    var x: nat :| endTime == MinutesToTime(x) && s < x <= limit && (x - s) % 30 == 0;
    LimitIsNextStart(bookings, editing, s);
  }

  // ---------------------------------------------------------------------------
  // Midnight
  // ---------------------------------------------------------------------------

  lemma LastSlotText()
    ensures TimeGrid()[SLOT_COUNT - 1] == "23:00" && TimeToMinutes("23:00") == Some(1380)
  {
    GridEnds();
    GridMinutes(SLOT_COUNT - 1);
  }

  /**
   * The end list for a 23:00 start on a day where no booking starts after
   * 23:00: 23:30 and, for 24:00, the text "00:00".
   */
  lemma LateEndOptions(bookings: seq<Booking>)
    requires forall k :: !LaterOther(bookings, None, 1380, k)
    ensures EndTimeOptions("23:00", bookings, None) == ["23:30", "00:00"]
  {
    LastSlotText();
    EndTimeOptionsAt("23:00", 1380, bookings, None);
    LimitIsNextStart(bookings, None, 1380);
    assert EndMinutes(1380, DAY_END) == [1410, 1440];
    LateTexts();
  }

  lemma LateTexts()
    ensures Render([1410, 1440]) == ["23:30", "00:00"]
  {
    MidnightText();
    HalfPastElevenText();
  }

  /**
   * As written, a booking from 23:00 to the offered end "00:00" occupies no
   * tick, because "00:00" reads back as minute 0: the 23:00 slot stays offered
   * and "00:00" is offered again as its end, so the same hour can be booked twice.
   */
  lemma MidnightEndLeavesStartOpen(b: Booking)
    requires b.startTime == "23:00" && b.endTime == "00:00"
    ensures "00:00" in EndTimeOptions("23:00", [], None)
    ensures "23:00" in FreeSlots(TimeGrid(), [b])
    ensures "00:00" in EndTimeOptions("23:00", [b], None)
  {
    LateEndOptions([]);
    LateEndOptions([b]);
    LastSlotText();
    MidnightText();
    assert !OccupiesTick(b, 1380);
    assert !Booked([b], 1380);
    FreeSlotsMembership(TimeGrid(), [b], "23:00");
  }

  /** A stored end read as intended: "00:00" (minute 0) closes the day at minute 1440. */
  function EndMinutesFixed(b: Booking): (e: Option<nat>)
    ensures e.Some? <==> TimeToMinutes(b.endTime).Some?
    ensures e.Some? ==> e.value % DAY_END == TimeToMinutes(b.endTime).value % DAY_END && e.value != 0
  {
    var e := TimeToMinutes(b.endTime);
    if e == Some(0) then Some(DAY_END) else e
  }

  predicate OccupiesTickFixed(b: Booking, m: int)
  {
    var s, e := TimeToMinutes(b.startTime), EndMinutesFixed(b);
    s.Some? && e.Some? && s.value <= m < e.value && (m - s.value) % 30 == 0
  }

  predicate BookedFixed(bookings: seq<Booking>, m: int)
  {
    exists k :: 0 <= k < |bookings| && OccupiesTickFixed(bookings[k], m)
  }

  predicate SlotFreeFixed(bookings: seq<Booking>, slot: string)
  {
    var m := TimeToMinutes(slot);
    m.None? || !BookedFixed(bookings, m.value)
  }

  function IsFreeSlotFixed(bookings: seq<Booking>): string -> bool
  {
    slot => SlotFreeFixed(bookings, slot)
  }

  /** The offered start times with stored ends read by `EndMinutesFixed`. */
  function FreeSlotsFixed(slots: seq<string>, bookings: seq<Booking>): seq<string>
  {
    Filter(slots, IsFreeSlotFixed(bookings))
  }

  /** An offered end, stored and read back by `EndMinutesFixed`, gives the minute that was offered. */
  lemma EndReadsBackFixed(b: Booking, x: nat)
    requires 0 < x <= DAY_END && b.endTime == MinutesToTime(x)
    ensures EndMinutesFixed(b) == Some(x)
  {
    if x < DAY_END {
      ReadBackBelowDay(x, b.endTime);
    } else {
      MidnightText();
    }
  }

  /** A stored booking that spans a non-empty run of half hours within the day. */
  predicate WellFormedFixed(b: Booking)
  {
    var s, e := TimeToMinutes(b.startTime), EndMinutesFixed(b);
    s.Some? && e.Some? && s.value < e.value <= DAY_END && s.value % 30 == 0
  }

  /** Two well-formed bookings whose spans do not overlap (touching at one end is allowed). */
  predicate ApartFixed(a: Booking, b: Booking)
  {
    && WellFormedFixed(a) && WellFormedFixed(b)
    && (EndMinutesFixed(a).value <= TimeToMinutes(b.startTime).value
        || EndMinutesFixed(b).value <= TimeToMinutes(a.startTime).value)
  }

  function WellFormed(): Booking -> bool
  {
    (b: Booking) => WellFormedFixed(b)
  }

  function Apart(): (Booking, Booking) -> bool
  {
    (a, b) => ApartFixed(a, b)
  }

  /**
   * One studio's day: every booking well formed and each apart from every
   * later one (`SortedBy` with a symmetric relation holds of every pair).
   */
  predicate ScheduleFixed(bookings: seq<Booking>)
  {
    && (forall k :: 0 <= k < |bookings| ==> WellFormedFixed(bookings[k]))
    && SortedBy(bookings, Apart())
  }

  /** The new booking built from an offered start and end is apart from an existing one. */
  lemma OfferedApartFixed(bookings: seq<Booking>, nb: Booking, k: nat, x: nat)
    requires k < |bookings| && WellFormedFixed(bookings[k])
    requires var s := TimeToMinutes(nb.startTime); s.Some? && s.value % 30 == 0 && SlotFreeFixed(bookings, nb.startTime)
    requires WellFormedFixed(nb) && EndMinutesFixed(nb) == Some(x)
    requires forall j :: (0 <= j < |bookings| && TimeToMinutes(bookings[j].startTime).Some?
                          && TimeToMinutes(nb.startTime).value < TimeToMinutes(bookings[j].startTime).value) ==> x <= TimeToMinutes(bookings[j].startTime).value
    ensures ApartFixed(bookings[k], nb)
  {
    var sm: int := TimeToMinutes(nb.startTime).value;
    var bs: int, be: int := TimeToMinutes(bookings[k].startTime).value, EndMinutesFixed(bookings[k]).value;
    AlignedDifference(sm, bs);
    assert !OccupiesTickFixed(bookings[k], sm);
  }

  lemma AlignedDifference(a: int, b: int)
    requires a % 30 == 0 && b % 30 == 0
    ensures (a - b) % 30 == 0
  {
    assert a - b == 30 * (a / 30 - b / 30);
  }

  /** An offered start is a grid slot: a half-hour minute no booking occupies. */
  lemma OfferedStartFixed(bookings: seq<Booking>, slot: string)
    requires slot in FreeSlotsFixed(TimeGrid(), bookings)
    ensures var m := TimeToMinutes(slot); m.Some? && m.value % 30 == 0 && !BookedFixed(bookings, m.value)
  {
    FilterMembership(TimeGrid(), IsFreeSlotFixed(bookings), slot);
    GridSlotMinutes(slot);
  }

  /**
   * The end limit is at most the end of the day when every booking starts
   * within the day.
   */
  lemma LimitWithinDay(bookings: seq<Booking>, editing: Option<Booking>, s: nat)
    requires forall k :: 0 <= k < |bookings| ==> WellFormedFixed(bookings[k])
    ensures EndLimit(NextBookingStart(bookings, editing, s)) <= DAY_END
  {
    LimitIsNextStart(bookings, editing, s);
  }

  /**
   * An offered end for the start minute `sm`, stored and read back, is a minute after it,
   * within the day and not past any later booking's start.
   */
  lemma OfferedSpanFixed(bookings: seq<Booking>, nb: Booking, sm: nat)
    requires forall k :: 0 <= k < |bookings| ==> WellFormedFixed(bookings[k])
    requires TimeToMinutes(nb.startTime) == Some(sm) && sm % 30 == 0
    requires nb.endTime in Render(EndMinutes(sm, EndLimit(NextBookingStart(bookings, None, sm))))
    ensures WellFormedFixed(nb)
    ensures forall j :: (0 <= j < |bookings| && TimeToMinutes(bookings[j].startTime).Some?
                         && sm < TimeToMinutes(bookings[j].startTime).value)
                        ==> EndMinutesFixed(nb).value <= TimeToMinutes(bookings[j].startTime).value
  {
    OfferedEnd(sm, bookings, None, nb.endTime);
    var x: nat :|
      && nb.endTime == MinutesToTime(x) && sm < x && (x - sm) % 30 == 0
      && x <= EndLimit(NextBookingStart(bookings, None, sm))
      && (forall k :: (0 <= k < |bookings| && IsOther(bookings[k], None) && TimeToMinutes(bookings[k].startTime).Some?
                       && sm < TimeToMinutes(bookings[k].startTime).value) ==> x <= TimeToMinutes(bookings[k].startTime).value);
    LimitWithinDay(bookings, None, sm);
    EndReadsBackFixed(nb, x);
  }

  /** The booking made from an offered start and end is well formed and apart from every existing one. */
  lemma OfferedBookingFixed(bookings: seq<Booking>, nb: Booking)
    requires ScheduleFixed(bookings)
    requires nb.startTime in FreeSlotsFixed(TimeGrid(), bookings)
    requires nb.endTime in EndTimeOptions(nb.startTime, bookings, None)
    ensures WellFormedFixed(nb)
    ensures forall k :: 0 <= k < |bookings| ==> ApartFixed(bookings[k], nb)
  {
    OfferedStartFixed(bookings, nb.startTime);
    var sm := TimeToMinutes(nb.startTime).value;
    EndTimeOptionsStart(nb.startTime, bookings, None, nb.endTime);
    EndTimeOptionsAt(nb.startTime, sm, bookings, None);
    OfferedSpanFixed(bookings, nb, sm);
    forall k | 0 <= k < |bookings| ensures ApartFixed(bookings[k], nb) {
      OfferedApartFixed(bookings, nb, k, EndMinutesFixed(nb).value);
    }
  }

  /**
   * With ends read by `EndMinutesFixed`, booking an offered start and an
   * offered end keeps a studio's day free of overlaps.
   */
  lemma NoDoubleBookingFixed(bookings: seq<Booking>, nb: Booking)
    requires ScheduleFixed(bookings)
    requires nb.startTime in FreeSlotsFixed(TimeGrid(), bookings)
    requires nb.endTime in EndTimeOptions(nb.startTime, bookings, None)
    ensures ScheduleFixed(bookings + [nb])
  {
    OfferedBookingFixed(bookings, nb);
    ForallAppend(bookings, nb, WellFormed());
    SortedByAppend(bookings, nb, Apart());
  }

}
