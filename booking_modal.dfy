/**
 * The booking form: which start and end times it offers for one studio on one
 * day, how it fills and updates its fields, and what a submit produces.
 *
 * The offered lists are what keeps bookings from overlapping: a start is only
 * offered if no existing booking occupies it, and the end list stops at the next
 * other booking's start.
 */
module BookingModal {
  import opened Wrappers
  import opened Text
  import opened Sequences
  import opened Types
  import opened Time

  // ---------------------------------------------------------------------------
  // Available start times
  // ---------------------------------------------------------------------------

  /**
   * The occupancy loop marks, for a booking whose start and end both read as
   * minutes, the ticks start, start + 30, ... strictly below the end.
   */
  predicate OccupiesTick(b: Booking, m: int)
  {
    var s, e := TimeToMinutes(b.startTime), TimeToMinutes(b.endTime);
    s.Some? && e.Some? && s.value <= m < e.value && (m - s.value) % 30 == 0
  }

  /** Minute `m` is in the occupied set built from `bookings`. */
  predicate Booked(bookings: seq<Booking>, m: int)
  {
    exists k :: 0 <= k < |bookings| && OccupiesTick(bookings[k], m)
  }

  /** A slot is kept unless its minute is occupied (a slot without a minute value never is). */
  predicate SlotFree(bookings: seq<Booking>, slot: string)
  {
    var m := TimeToMinutes(slot);
    m.None? || !Booked(bookings, m.value)
  }

  function IsFreeSlot(bookings: seq<Booking>): string -> bool
  {
    slot => SlotFree(bookings, slot)
  }

  /** The slots, in their order, whose minute no booking occupies. */
  function FreeSlots(slots: seq<string>, bookings: seq<Booking>): seq<string>
  {
    Filter(slots, IsFreeSlot(bookings))
  }

  lemma BookedExtend(bookings: seq<Booking>, b: Booking, m: int)
    ensures Booked(bookings + [b], m) <==> Booked(bookings, m) || OccupiesTick(b, m)
  {
    var all := bookings + [b];
    if Booked(all, m) && !OccupiesTick(b, m) {
      var k :| 0 <= k < |all| && OccupiesTick(all[k], m);
      assert k < |bookings| && all[k] == bookings[k];
    }
    if Booked(bookings, m) {
      var k :| 0 <= k < |bookings| && OccupiesTick(bookings[k], m);
      assert all[k] == bookings[k];
    }
    if OccupiesTick(b, m) {
      assert all[|bookings|] == b;
    }
  }

  /**
   * `availableStartTimes`: nothing while editing; otherwise the occupied minutes
   * of every booking are collected into a set and the slots are filtered by it.
   */
  method AvailableStartTimes(isEditing: bool, modalBookings: seq<Booking>, allTimeSlots: seq<string>)
    returns (starts: seq<string>)
    ensures isEditing ==> starts == []
    ensures !isEditing ==> starts == FreeSlots(allTimeSlots, modalBookings)
  {
    if isEditing {
      return [];
    }
    var bookedMinutes := OccupiedMinutes(modalBookings);
    starts := KeepUnbooked(allTimeSlots, modalBookings, bookedMinutes);
  }

  /** Collects the occupied minutes of every booking of the day into one set (the outer loop of `availableStartTimes`). */
  method OccupiedMinutes(modalBookings: seq<Booking>) returns (bookedMinutes: set<int>)
    ensures forall m :: m in bookedMinutes <==> Booked(modalBookings, m)
  {
    bookedMinutes := {};
    for k := 0 to |modalBookings|
      invariant forall m :: m in bookedMinutes <==> Booked(modalBookings[..k], m)
    {
      var b := modalBookings[k];
      var startMins, endMins := TimeToMinutes(b.startTime), TimeToMinutes(b.endTime);
      var before := bookedMinutes;
      // with NaN on either side the loop condition is false from the start
      if startMins.Some? && endMins.Some? {
        bookedMinutes := MarkTicks(bookedMinutes, startMins.value, endMins.value);
      }
      assert forall m :: m in bookedMinutes <==> m in before || OccupiesTick(b, m);
      assert modalBookings[..k + 1] == modalBookings[..k] + [b];
      forall m ensures m in bookedMinutes <==> Booked(modalBookings[..k + 1], m) {
        BookedExtend(modalBookings[..k], b, m);
      }
    }
    assert modalBookings[..|modalBookings|] == modalBookings;
  }

  /** Adds to the set every half-hour tick from a booking's start up to, but not including, its end. */
  method MarkTicks(booked: set<int>, s: int, e: int) returns (bookedMinutes: set<int>)
    ensures forall m :: m in bookedMinutes <==> m in booked || (s <= m < e && (m - s) % 30 == 0)
  {
    bookedMinutes := booked;
    var mins: int := s;
    while mins < e
      invariant s <= mins && (mins - s) % 30 == 0
      invariant mins == s || mins - 30 < e
      invariant forall m :: m in bookedMinutes <==> m in booked || (s <= m < mins && (m - s) % 30 == 0)
      decreases e - mins
    {
      bookedMinutes := bookedMinutes + {mins};
      mins := mins + 30;
    }
    forall m ensures m in bookedMinutes <==> m in booked || (s <= m < e && (m - s) % 30 == 0) {
      TickBelow(s, e, mins, m);
    }
  }

  /** Keeps, in order, the slots whose minute is not in the occupied set. */
  method KeepUnbooked(allTimeSlots: seq<string>, modalBookings: seq<Booking>, bookedMinutes: set<int>)
    returns (starts: seq<string>)
    requires forall m :: m in bookedMinutes <==> Booked(modalBookings, m)
    ensures starts == FreeSlots(allTimeSlots, modalBookings)
  {
    starts := [];
    for i := 0 to |allTimeSlots|
      invariant starts == FreeSlots(allTimeSlots[..i], modalBookings)
    {
      var slot := allTimeSlots[i];
      var m := TimeToMinutes(slot);
      FreeSlotsStep(allTimeSlots, i, modalBookings);
      if !(m.Some? && m.value in bookedMinutes) {
        starts := starts + [slot];
      }
    }
    assert allTimeSlots[..|allTimeSlots|] == allTimeSlots;
  }

  lemma FreeSlotsStep(slots: seq<string>, i: nat, bookings: seq<Booking>)
    requires i < |slots|
    ensures FreeSlots(slots[..i + 1], bookings) ==
      FreeSlots(slots[..i], bookings) + (if SlotFree(bookings, slots[i]) then [slots[i]] else [])
  {
    assert slots[..i + 1] == slots[..i] + [slots[i]];
    FilterConcat(slots[..i], [slots[i]], IsFreeSlot(bookings));
  }

  /** The ticks below the first aligned minute at or past `e` are the ticks below `e`. */
  lemma TickBelow(s: int, e: int, mins: int, m: int)
    requires s <= mins && (mins - s) % 30 == 0 && (mins == s || mins - 30 < e) && e <= mins
    ensures (s <= m < mins && (m - s) % 30 == 0) <==> (s <= m < e && (m - s) % 30 == 0)
  {
    if s <= m < mins && (m - s) % 30 == 0 {
      assert (mins - m) % 30 == 0;
      assert m <= mins - 30;
    }
  }

  /** A slot is offered exactly when it is in the grid and its minute is not occupied. */
  lemma FreeSlotsMembership(slots: seq<string>, bookings: seq<Booking>, slot: string)
    ensures slot in FreeSlots(slots, bookings) <==> slot in slots && SlotFree(bookings, slot)
  {
    FilterMembership(slots, IsFreeSlot(bookings), slot);
  }

  /** `a` reads as an earlier minute than `b`. */
  predicate Earlier(a: string, b: string)
  {
    var x, y := TimeToMinutes(a), TimeToMinutes(b);
    x.Some? && y.Some? && x.value < y.value
  }

  /** The offered start times keep the grid's ascending order. */
  lemma FreeSlotsAscending(bookings: seq<Booking>)
    ensures SortedBy(FreeSlots(TimeGrid(), bookings), Earlier)
  {
    forall i, j | 0 <= i < j < |TimeGrid()| ensures Earlier(TimeGrid()[i], TimeGrid()[j]) {
      GridAscending(i, j);
    }
    FilterKeepsSorted(TimeGrid(), IsFreeSlot(bookings), Earlier);
  }

  /**
   * On a day where each booking whose times read as minutes ends at or before
   * a slot or starts after it, that slot stays offered: a booking may start
   * where another ends, and a booking whose times do not read occupies nothing.
   */
  lemma EndSlotStaysFree(bookings: seq<Booking>, i: nat)
    requires i < SLOT_COUNT
    requires forall k :: 0 <= k < |bookings| ==>
      var s, e := TimeToMinutes(bookings[k].startTime), TimeToMinutes(bookings[k].endTime);
      s.Some? && e.Some? ==> e.value <= FIRST_SLOT + 30 * i || FIRST_SLOT + 30 * i < s.value
    ensures TimeGrid()[i] in FreeSlots(TimeGrid(), bookings)
  {
    GridMinutes(i);
    FreeSlotsMembership(TimeGrid(), bookings, TimeGrid()[i]);
  }

  // ---------------------------------------------------------------------------
  // Available end times
  // ---------------------------------------------------------------------------

  /** Bookings that limit the end: all for a new booking, all but the edited id when editing. */
  predicate IsOther(b: Booking, editing: Option<Booking>)
  {
    editing.None? || b.id != editing.value.id
  }

  /** The start minutes of the other bookings that begin strictly after `startMins` (NaN starts drop out). */
  function LaterStarts(bookings: seq<Booking>, editing: Option<Booking>, startMins: nat): (r: seq<nat>)
    ensures forall x :: x in r ==> x > startMins
  {
    if bookings == [] then []
    else
      var s := TimeToMinutes(bookings[0].startTime);
      (if IsOther(bookings[0], editing) && s.Some? && s.value > startMins then [s.value] else [])
      + LaterStarts(bookings[1..], editing, startMins)
  }

  lemma {:induction false} LaterStartsComplete(bookings: seq<Booking>, editing: Option<Booking>, startMins: nat, k: nat)
    requires k < |bookings| && IsOther(bookings[k], editing)
    requires TimeToMinutes(bookings[k].startTime).Some? && TimeToMinutes(bookings[k].startTime).value > startMins
    ensures TimeToMinutes(bookings[k].startTime).value in LaterStarts(bookings, editing, startMins)
  {
    if k > 0 {
      assert bookings[1..][k - 1] == bookings[k];
      LaterStartsComplete(bookings[1..], editing, startMins, k - 1);
    }
  }

  lemma {:induction false} LaterStartsSound(bookings: seq<Booking>, editing: Option<Booking>, startMins: nat, x: nat)
    requires x in LaterStarts(bookings, editing, startMins)
    ensures exists k :: 0 <= k < |bookings| && IsOther(bookings[k], editing) && TimeToMinutes(bookings[k].startTime) == Some(x)
  {
    var s := TimeToMinutes(bookings[0].startTime);
    if IsOther(bookings[0], editing) && s.Some? && s.value > startMins && x == s.value {
    } else {
      LaterStartsSound(bookings[1..], editing, startMins, x);
      var k :| 0 <= k < |bookings[1..]| && IsOther(bookings[1..][k], editing) && TimeToMinutes(bookings[1..][k].startTime) == Some(x);
      assert bookings[k + 1] == bookings[1..][k];
    }
  }

  /** The first element after an ascending sort: the least element, or `undefined` for an empty list. */
  function Least(xs: seq<nat>): (r: Option<nat>)
    ensures r.None? <==> xs == []
    ensures r.Some? ==> r.value in xs && forall x :: x in xs ==> r.value <= x
  {
    if xs == [] then None
    else
      var rest := Least(xs[1..]);
      assert forall x :: x in xs ==> x == xs[0] || x in xs[1..];
      if rest.Some? && rest.value < xs[0] then rest else Some(xs[0])
  }

  /** `nextBookingStartMins`: the earliest start after the chosen one among the other bookings. */
  function NextBookingStart(bookings: seq<Booking>, editing: Option<Booking>, startMins: nat): (next: Option<nat>)
    ensures next.Some? ==> startMins < next.value
  {
    Least(LaterStarts(bookings, editing, startMins))
  }

  /** `nextBookingStartMins || 24 * 60`: a missing (or zero) next start gives the end of the day. */
  function EndLimit(next: Option<nat>): nat
  {
    if next.Some? && next.value != 0 then next.value else DAY_END
  }

  /** The offered end minutes for a start and a limit: start + 30, start + 60, ... up to the limit. */
  function EndMinutes(startMins: nat, limit: nat): (ends: seq<nat>)
    ensures ends == [] <==> limit < startMins + 30
    ensures ends != [] ==> ends[|ends| - 1] <= limit < ends[|ends| - 1] + 30
  {
    var n := if limit < startMins + 30 then 0 else (limit - startMins) / 30;
    seq(n, i requires 0 <= i < n => startMins + 30 * (i + 1))
  }

  /** `HH:MM` texts of a list of minute counts. */
  function Render(mins: seq<nat>): (texts: seq<string>)
    ensures |texts| == |mins|
  {
    seq(|mins|, i requires 0 <= i < |mins| => MinutesToTime(mins[i]))
  }

  /** The value of the end-time list for the form's start time. */
  function EndTimeOptions(startTime: string, bookings: seq<Booking>, editing: Option<Booking>): seq<string>
  {
    if startTime == "" then []
    else
      var s := TimeToMinutes(startTime);
      if s.None? then []
      else Render(EndMinutes(s.value, EndLimit(NextBookingStart(bookings, editing, s.value))))
  }

  /** `availableEndTimes`: emits every 30-minute tick after the start up to and including the limit. */
  method AvailableEndTimes(startTime: string, modalBookings: seq<Booking>, editing: Option<Booking>)
    returns (options: seq<string>)
    ensures startTime == "" ==> options == []
    ensures options == EndTimeOptions(startTime, modalBookings, editing)
  {
    if startTime == "" {
      return [];
    }
    var startMins := TimeToMinutes(startTime);
    if startMins.None? {
      // NaN + 30 <= limit is false: the loop below never runs
      return [];
    }
    var s := startMins.value;
    var limitMins := EndLimit(NextBookingStart(modalBookings, editing, s));
    options := EmitEndTimes(s, limitMins);
  }

  /** Emits the text of every half-hour tick after the start, up to and including the limit. */
  method EmitEndTimes(s: nat, limitMins: nat) returns (options: seq<string>)
    ensures options == Render(EndMinutes(s, limitMins))
  {
    options := [];
    var mins := s + 30;
    while mins <= limitMins
      invariant mins == s + 30 * (|options| + 1)
      invariant |options| == 0 || s + 30 * |options| <= limitMins
      invariant forall i :: 0 <= i < |options| ==> options[i] == MinutesToTime(s + 30 * (i + 1))
      decreases limitMins - mins
    {
      options := options + [MinutesToTime(mins)];
      mins := mins + 30;
    }
    TickCount(s, limitMins, |options|);
  }

  lemma TickCount(s: nat, limit: nat, q: nat)
    requires (q == 0 || s + 30 * q <= limit) && limit < s + 30 * (q + 1)
    ensures q == if limit < s + 30 then 0 else (limit - s) / 30
  {
  }

  /** The end minutes are exactly the 30-aligned minutes after the start up to the limit, ascending. */
  lemma EndMinutesExactly(startMins: nat, limit: nat, e: int)
    ensures e in EndMinutes(startMins, limit) <==> startMins < e <= limit && (e - startMins) % 30 == 0
    ensures var ends := EndMinutes(startMins, limit);
      |ends| > 0 ==> ends[0] == startMins + 30 && forall i :: 0 < i < |ends| ==> ends[i] == ends[i - 1] + 30
  {
    var ends := EndMinutes(startMins, limit);
    if startMins < e <= limit && (e - startMins) % 30 == 0 {
      var i := (e - startMins) / 30 - 1;
      assert e == startMins + 30 * (i + 1);
      assert 0 <= i < |ends|;
      assert ends[i] == e;
    }
  }

  /** Booking `k` is another booking that starts strictly after `startMins`. */
  predicate LaterOther(bookings: seq<Booking>, editing: Option<Booking>, startMins: nat, k: int)
  {
    && 0 <= k < |bookings| && IsOther(bookings[k], editing)
    && TimeToMinutes(bookings[k].startTime).Some? && startMins < TimeToMinutes(bookings[k].startTime).value
  }

  /**
   * The limit is the end of the day when no other booking starts later, and
   * otherwise the start of one of them; no other booking starts between the
   * chosen start and the limit.
   */
  lemma LimitIsNextStart(bookings: seq<Booking>, editing: Option<Booking>, startMins: nat)
    ensures var limit := EndLimit(NextBookingStart(bookings, editing, startMins));
      && (limit == DAY_END || startMins < limit)
      && ((exists k :: LaterOther(bookings, editing, startMins, k)) ==>
            exists k :: LaterOther(bookings, editing, startMins, k) && TimeToMinutes(bookings[k].startTime) == Some(limit))
      && ((forall k :: !LaterOther(bookings, editing, startMins, k)) ==> limit == DAY_END)
      && forall k :: (0 <= k < |bookings| && IsOther(bookings[k], editing) && TimeToMinutes(bookings[k].startTime).Some?
                      && startMins < TimeToMinutes(bookings[k].startTime).value) ==> limit <= TimeToMinutes(bookings[k].startTime).value
  {
    var later := LaterStarts(bookings, editing, startMins);
    var next := NextBookingStart(bookings, editing, startMins);
    if next.Some? {
      LaterStartsSound(bookings, editing, startMins, next.value);
      var k :| 0 <= k < |bookings| && IsOther(bookings[k], editing) && TimeToMinutes(bookings[k].startTime) == Some(next.value);
      assert LaterOther(bookings, editing, startMins, k);
    }
    if exists k :: LaterOther(bookings, editing, startMins, k) {
      var k :| LaterOther(bookings, editing, startMins, k);
      LaterStartsComplete(bookings, editing, startMins, k);
    }
    forall k | 0 <= k < |bookings| && IsOther(bookings[k], editing) && TimeToMinutes(bookings[k].startTime).Some?
                 && startMins < TimeToMinutes(bookings[k].startTime).value
      ensures EndLimit(next) <= TimeToMinutes(bookings[k].startTime).value
    {
      LaterStartsComplete(bookings, editing, startMins, k);
    }
  }

  /** An entry of the end list for `s` and `limit` is the text of a half-hour tick in `(s, limit]`. */
  lemma OfferedEndMinutes(s: nat, limit: nat, endTime: string)
    requires endTime in Render(EndMinutes(s, limit))
    ensures exists x: nat :: endTime == MinutesToTime(x) && s < x <= limit && (x - s) % 30 == 0
  {
    var ends := EndMinutes(s, limit);
    var i :| 0 <= i < |ends| && endTime == Render(ends)[i];
    EndMinutesExactly(s, limit, ends[i]);
  }

  // ---------------------------------------------------------------------------
  // The form
  // ---------------------------------------------------------------------------

  /** The form's state: every field is the text of its control. */
  datatype FormData = FormData(
    name: string,
    recordingPurpose: string,
    subject: string,
    startTime: string,
    endTime: string,
    date: string)

  /** The controls of the form, named by their `name` attribute. */
  datatype FormField = NameField | PurposeField | SubjectField | StartField | EndField | DateField

  function Get(f: FormData, field: FormField): string
  {
    match field
    case NameField => f.name
    case PurposeField => f.recordingPurpose
    case SubjectField => f.subject
    case StartField => f.startTime
    case EndField => f.endTime
    case DateField => f.date
  }

  /**
   * `handleChange`: the control's field takes the new value; changing the
   * start or the date clears the end; every other field keeps its value.
   */
  function HandleChange(prev: FormData, field: FormField, value: string): (next: FormData)
    ensures forall g ::
      Get(next, g) == if g == field then value
        else if g == EndField && (field == StartField || field == DateField) then ""
        else Get(prev, g)
  {
    var updated := match field
      case NameField => prev.(name := value)
      case PurposeField => prev.(recordingPurpose := value)
      case SubjectField => prev.(subject := value)
      case StartField => prev.(startTime := value)
      case EndField => prev.(endTime := value)
      case DateField => prev.(date := value);
    if field == StartField || field == DateField then updated.(endTime := "") else updated
  }

  /** `selectedDate` when it lies in the booking window `[minDate, maxDate]`, else `minDate`. */
  function NewBookingDate(selectedDate: string, minDate: string, maxDate: string): (d: string)
    ensures d == selectedDate <== LexLe(minDate, selectedDate) && LexLe(selectedDate, maxDate)
    ensures !(LexLe(minDate, selectedDate) && LexLe(selectedDate, maxDate)) ==> d == minDate
    ensures LexLe(minDate, maxDate) ==> LexLe(minDate, d) && LexLe(d, maxDate)
  {
    if LexLe(minDate, selectedDate) && LexLe(selectedDate, maxDate) then selectedDate
    else
      LexLeReflexive(minDate);
      minDate
  }

  /**
   * The form the modal opens with: the edited booking's fields, or a blank form
   * with the first purpose and a date inside the booking window.
   */
  function InitialForm(modalData: ModalData, selectedDate: string, minDate: string, maxDate: string): (f: FormData)
    ensures modalData.booking.Some? ==> var b := modalData.booking.value;
      f == FormData(b.name, b.recordingPurpose, b.subject, b.startTime, b.endTime, b.date)
    ensures modalData.booking.None? ==>
      && f.name == "" && f.subject == "" && f.startTime == "" && f.endTime == ""
      && f.recordingPurpose == "YouTube"
      && f.date == NewBookingDate(selectedDate, minDate, maxDate)
  {
    match modalData.booking
    case Some(b) => FormData(b.name, b.recordingPurpose, b.subject, b.startTime, b.endTime, b.date)
    case None => FormData("", PurposeLabel(RECORDING_PURPOSES[0]), "", "", "", NewBookingDate(selectedDate, minDate, maxDate))
  }

  /** What a submit does: refuse an incomplete form, or hand an updated or a new booking on. */
  datatype SubmitOutcome = Rejected | UpdateBooking(booking: Booking) | AddBooking(newBooking: NewBooking)

  /** The five fields the submit checks; the recording purpose is not among them. */
  predicate Complete(f: FormData)
  {
    f.name != "" && f.subject != "" && f.startTime != "" && f.endTime != "" && f.date != ""
  }

  /**
   * `handleSubmit`: a form with an empty name, subject, start time, end time or
   * date is refused (the recording purpose is not checked); otherwise an edit
   * keeps the original id and a new booking gets none; the studio is the modal's.
   */
  function HandleSubmit(f: FormData, modalData: ModalData): (r: SubmitOutcome)
    ensures r.Rejected? <==> !Complete(f)
    ensures r.UpdateBooking? <==> Complete(f) && modalData.booking.Some?
    ensures r.UpdateBooking? ==> r.booking == Booking(modalData.booking.value.id, modalData.studio, f.date,
      f.startTime, f.endTime, f.name, f.recordingPurpose, f.subject)
    ensures r.AddBooking? ==> r.newBooking == NewBooking(modalData.studio, f.date,
      f.startTime, f.endTime, f.name, f.recordingPurpose, f.subject)
  {
    if !Complete(f) then Rejected
    else if modalData.booking.Some? then
      var b := modalData.booking.value;
      UpdateBooking(Booking(b.id, modalData.studio, f.date, f.startTime, f.endTime, f.name, f.recordingPurpose, f.subject))
    else AddBooking(NewBooking(modalData.studio, f.date, f.startTime, f.endTime, f.name, f.recordingPurpose, f.subject))
  }

  /** A new-booking form is refused until it has been filled in. */
  lemma FreshFormRejected(modalData: ModalData, selectedDate: string, minDate: string, maxDate: string)
    requires modalData.booking.None?
    ensures HandleSubmit(InitialForm(modalData, selectedDate, minDate, maxDate), modalData) == Rejected
  {
  }

  /** Choosing a new start (or date) clears the end, so the form cannot be sent until an end is chosen again. */
  lemma StartChangeNeedsNewEnd(f: FormData, field: FormField, value: string, modalData: ModalData)
    requires field == StartField || field == DateField
    ensures HandleChange(f, field, value).endTime == ""
    ensures HandleSubmit(HandleChange(f, field, value), modalData) == Rejected
  {
    assert Get(HandleChange(f, field, value), EndField) == "";
  }

  /** Saving an edit form unchanged hands back the edited booking (in its own studio). */
  lemma UnchangedEditRoundTrip(b: Booking, selectedDate: string, minDate: string, maxDate: string)
    requires b.name != "" && b.subject != "" && b.startTime != "" && b.endTime != "" && b.date != ""
    ensures var m := ModalData(b.studio, Some(b.startTime), Some(b));
      HandleSubmit(InitialForm(m, selectedDate, minDate, maxDate), m) == UpdateBooking(b)
  {
  }

  /** Setting a field twice to the same value is the same as setting it once. */
  lemma HandleChangeIdempotent(f: FormData, field: FormField, value: string)
    ensures HandleChange(HandleChange(f, field, value), field, value) == HandleChange(f, field, value)
  {
    var once := HandleChange(f, field, value);
    var twice := HandleChange(once, field, value);
    assert forall g :: Get(twice, g) == Get(once, g);
    assert Get(twice, NameField) == Get(once, NameField);
    assert Get(twice, PurposeField) == Get(once, PurposeField);
    assert Get(twice, SubjectField) == Get(once, SubjectField);
    assert Get(twice, StartField) == Get(once, StartField);
    assert Get(twice, EndField) == Get(once, EndField);
    assert Get(twice, DateField) == Get(once, DateField);
  }

  /** `studioName`: the first catalog entry with the id, unless its name is empty; otherwise the id itself. */
  function StudioName(studios: seq<Studio>, id: string): (name: string)
    ensures name == id || exists i :: 0 <= i < |studios| && studios[i].id == id && studios[i].name == name
    ensures (forall i :: 0 <= i < |studios| ==> studios[i].id != id) ==> name == id
    ensures forall i :: 0 <= i < |studios| && studios[i].id == id && (forall j :: 0 <= j < i ==> studios[j].id != id) ==>
      name == if studios[i].name != "" then studios[i].name else id
  {
    if studios == [] then id
    else if studios[0].id == id then (if studios[0].name != "" then studios[0].name else id)
    else
      var rest := StudioName(studios[1..], id);
      assert rest != id ==> exists i :: 0 <= i < |studios[1..]| && studios[1..][i].id == id && studios[1..][i].name == rest;
      rest
  }

}
