/**
 * The half-hour time grid of a bookable day and the conversions between
 * `HH:MM` text and minutes since midnight. `None` stands for JavaScript's `NaN`.
 */
module Time {
  import opened Wrappers
  import opened Text

  /** End of the day, `24 * 60`: the limit of the end-time list when no other booking starts later. */
  const DAY_END: nat := 1440
  /** Minute of the first slot, 08:00. */
  const FIRST_SLOT: nat := 480
  /** 08:00, 08:30, ..., 23:00: the last start slot is 23:00. */
  const SLOT_COUNT: nat := 31

  /**
   * The `HH:MM` text the end-time list produces for a minute count: the hour is
   * taken modulo 24 and both parts are padded to two digits.
   */
  function MinutesToTime(mins: nat): string
  {
    Pad2((mins / 60) % 24) + ":" + Pad2(mins % 60)
  }

  /** The value of the grid: slot `i` starts `30 * i` minutes after 08:00. */
  function TimeGrid(): seq<string>
  {
    seq(SLOT_COUNT, i requires 0 <= i < SLOT_COUNT => MinutesToTime(FIRST_SLOT + 30 * i))
  }

  lemma HourText(h: nat, half: nat)
    requires h < 24 && half < 2
    ensures MinutesToTime(60 * h + 30 * half) == PadStart2(h) + (if half == 0 then ":00" else ":30")
  {
    var m := 60 * h + 30 * half;
    DivideHour(h, 30 * half);
    assert (m / 60) % 24 == h;
    HalfHourPads();
    Pad2Shape(h);
  }

  lemma HalfHourPads()
    ensures Pad2(0) == "00" && Pad2(30) == "30"
  {
    assert 30 / 10 == 3 && 30 % 10 == 0;
  }

  lemma DivideHour(h: nat, r: nat)
    requires r < 60
    ensures (60 * h + r) / 60 == h && (60 * h + r) % 60 == r
  {
  }

  /** The slots the booking form offers, built hour by hour from 08 to 23. */
  method GenerateTimeSlots() returns (slots: seq<string>)
    ensures slots == TimeGrid()
    ensures |slots| == 31 && slots[0] == "08:00" && slots[30] == "23:00" && "23:30" !in slots
  {
    slots := [];
    for h := 8 to 24
      invariant |slots| == if h < 24 then 2 * (h - 8) else 31
      invariant slots == TimeGrid()[..|slots|]
    {
      GridHour(h, 0);
      GridExtend(slots);
      slots := slots + [PadStart2(h) + ":00"];
      if h != 23 {
        GridHour(h, 1);
        GridExtend(slots);
        slots := slots + [PadStart2(h) + ":30"];
      }
    }
    GridEnds();
  }

  lemma GridExtend(slots: seq<string>)
    requires |slots| < SLOT_COUNT && slots == TimeGrid()[..|slots|]
    ensures slots + [TimeGrid()[|slots|]] == TimeGrid()[..|slots| + 1]
  {
  }

  /** Slot `2 * (h - 8) + half` of the grid is hour `h`, on the hour or at half past. */
  lemma GridHour(h: nat, half: nat)
    requires 8 <= h < 24 && half < 2 && 2 * (h - 8) + half < SLOT_COUNT
    ensures TimeGrid()[2 * (h - 8) + half] == PadStart2(h) + (if half == 0 then ":00" else ":30")
  {
    var i := 2 * (h - 8) + half;
    assert FIRST_SLOT + 30 * i == 60 * h + 30 * half;
    HourText(h, half);
  }

  /** `Number(s)` on the strings the model admits: a digit string (the empty one is 0); anything else is `NaN`. */
  function NumberOf(s: string): (r: Option<nat>)
    ensures r.Some? <==> AllDigits(s)
  {
    if AllDigits(s) then Some(DigitsValue(s)) else None
  }

  /** `timeToMinutes`: the first two `:`-separated parts as numbers, hours times 60 plus minutes. */
  function TimeToMinutes(time: string): Option<nat>
  {
    MinutesOfParts(Split(time, ':'))
  }

  /** A text without a colon has no minute part, so it reads as `NaN`. */
  lemma NoColonIsNaN(time: string)
    requires ':' !in time
    ensures TimeToMinutes(time) == None
  {
    SplitNoSeparator(time, ':');
  }

  function MinutesOfParts(parts: seq<string>): Option<nat>
  {
    if |parts| < 2 then None
    else
      var hours, minutes := NumberOf(parts[0]), NumberOf(parts[1]);
      if hours.Some? && minutes.Some? then Some(hours.value * 60 + minutes.value) else None
  }

  lemma ColonFree(s: string)
    requires AllDigits(s)
    ensures ':' !in s
  {
    forall i | 0 <= i < |s| ensures s[i] != ':' {
      assert IsDigit(s[i]);
    }
  }

  lemma SplitTime(hh: string, mm: string)
    requires AllDigits(hh) && AllDigits(mm)
    ensures Split(hh + ":" + mm, ':') == [hh, mm]
  {
    ColonFree(hh);
    ColonFree(mm);
    assert hh + ":" + mm == hh + [':'] + mm;
    SplitAtSeparator(hh, ':', mm);
    SplitNoSeparator(mm, ':');
  }

  /** A well-formed `HH:MM` reads as `HH * 60 + MM`. */
  lemma TimeToMinutesOfDigits(hh: string, mm: string)
    requires AllDigits(hh) && AllDigits(mm)
    ensures TimeToMinutes(hh + ":" + mm) == Some(DigitsValue(hh) * 60 + DigitsValue(mm))
  {
    SplitTime(hh, mm);
    TimeOfSplit(hh + ":" + mm, [hh, mm]);
    MinutesOfDigitParts(hh, mm);
  }

  lemma MinutesOfDigitParts(hh: string, mm: string)
    requires AllDigits(hh) && AllDigits(mm)
    ensures MinutesOfParts([hh, mm]) == Some(DigitsValue(hh) * 60 + DigitsValue(mm))
  {
  }

  lemma TimeOfSplit(time: string, parts: seq<string>)
    requires Split(time, ':') == parts
    ensures TimeToMinutes(time) == MinutesOfParts(parts)
  {
  }

  lemma ClockArithmetic(mins: nat)
    ensures ((mins / 60) % 24) * 60 + mins % 60 == mins % DAY_END
  {
    var q, r := mins / 60, mins % 60;
    assert mins == 60 * q + r;
    var a, b := q / 24, q % 24;
    assert q == 24 * a + b;
    assert mins == 1440 * a + (60 * b + r);
    assert 0 <= 60 * b + r < 1440;
  }

  /** Reading back the text of a minute count gives that count modulo one day. */
  lemma {:induction false} TimeToMinutesOfMinutesToTime(mins: nat)
    ensures TimeToMinutes(MinutesToTime(mins)) == Some(mins % DAY_END)
  {
    var h, m := (mins / 60) % 24, mins % 60;
    Pad2Shape(h);
    Pad2Shape(m);
    TimeToMinutesOfDigits(Pad2(h), Pad2(m));
    ClockArithmetic(mins);
  }

  /** The grid's `i`-th slot reads as minute `480 + 30 * i`. */
  lemma GridMinutes(i: nat)
    requires i < SLOT_COUNT
    ensures TimeToMinutes(TimeGrid()[i]) == Some(FIRST_SLOT + 30 * i)
  {
    var m := FIRST_SLOT + 30 * i;
    ReadBackBelowDay(m, TimeGrid()[i]);
  }

  lemma ReadBackBelowDay(m: nat, t: string)
    requires m < DAY_END && t == MinutesToTime(m)
    ensures TimeToMinutes(t) == Some(m)
  {
    TimeToMinutesOfMinutesToTime(m);
  }

  lemma GridEnds()
    ensures |TimeGrid()| == 31 && TimeGrid()[0] == "08:00" && TimeGrid()[30] == "23:00"
    ensures "23:30" !in TimeGrid()
  {
    GridFirst();
    GridLast();
    LateHalfHour();
    forall i | 0 <= i < SLOT_COUNT ensures TimeGrid()[i] != "23:30" {
      GridMinutes(i);
    }
  }

  lemma GridFirst()
    ensures TimeGrid()[0] == "08:00"
  {
    GridHour(8, 0);
    Pad2Shape(8);
    assert Pad2(8) == "08";
  }

  lemma GridLast()
    ensures TimeGrid()[30] == "23:00"
  {
    GridHour(23, 0);
    Pad2Shape(23);
    assert Pad2(23) == "23";
  }

  /** Every slot of the grid reads back as a half-hour minute of the working day. */
  lemma GridSlotMinutes(slot: string)
    requires slot in TimeGrid()
    ensures var m := TimeToMinutes(slot); m.Some? && m.value % 30 == 0 && FIRST_SLOT <= m.value < DAY_END
  {
    var i := GridIndex(slot);
    GridSlotAligned(i);
  }

  lemma GridIndex(slot: string) returns (i: nat)
    requires slot in TimeGrid()
    ensures i < SLOT_COUNT && TimeGrid()[i] == slot
  {
    i :| 0 <= i < SLOT_COUNT && TimeGrid()[i] == slot;
  }

  lemma GridSlotAligned(i: nat)
    requires i < SLOT_COUNT
    ensures var m := TimeToMinutes(TimeGrid()[i]); m.Some? && m.value % 30 == 0 && FIRST_SLOT <= m.value < DAY_END
  {
    var m := FIRST_SLOT + 30 * i;
    GridMinutes(i);
    assert m % 30 == 0 by { assert m == 30 * (16 + i); }
  }

  lemma HalfPastElevenText()
    ensures MinutesToTime(1410) == "23:30"
  {
    HourText(23, 1);
    Pad2Shape(23);
    assert DigitChar(2) == '2' && DigitChar(3) == '3';
  }

  lemma MidnightText()
    ensures MinutesToTime(DAY_END) == "00:00"
    ensures TimeToMinutes("00:00") == Some(0)
  {
    Pad2Shape(0);
    TimeToMinutesOfMinutesToTime(DAY_END);
  }

  lemma LateHalfHour()
    ensures TimeToMinutes("23:30") == Some(1410)
  {
    TimeToMinutesOfDigits("23", "30");
    assert "23" + ":" + "30" == "23:30";
    assert "23"[..1] == "2" && "30"[..1] == "3";
    assert DigitsValue("23") == 23 && DigitsValue("30") == 30;
  }

  /** Consecutive slots are exactly 30 minutes apart, so the grid is strictly ascending. */
  lemma GridAscending(i: nat, j: nat)
    requires i < j < SLOT_COUNT
    ensures var a, b := TimeToMinutes(TimeGrid()[i]), TimeToMinutes(TimeGrid()[j]);
      a.Some? && b.Some? && b.value - a.value == 30 * (j - i)
  {
    GridMinutes(i);
    GridMinutes(j);
  }

  /** Every slot is a two-digit hour from 08 to 23, a colon, then `00` or `30`. */
  lemma GridShape(i: nat)
    requires i < SLOT_COUNT
    ensures var slot := TimeGrid()[i];
      && |slot| == 5 && AllDigits(slot[..2]) && slot[2] == ':'
      && 8 <= DigitsValue(slot[..2]) <= 23
      && (slot[3..] == "00" || slot[3..] == "30")
  {
    var h, half := 8 + i / 2, i % 2;
    assert i == 2 * (h - 8) + half;
    GridHour(h, half);
    Pad2Shape(h);
    var slot := TimeGrid()[i];
    assert slot == Pad2(h) + (if half == 0 then ":00" else ":30");
    assert slot[..2] == Pad2(h);
    assert slot[3..] == (if half == 0 then "00" else "30");
  }

  /** `parseInt(s, 10)`: the value of the leading digits, `NaN` when there are none. */
  function ParseIntPrefix(s: string): (r: Option<nat>)
    ensures r.Some? <==> |s| > 0 && IsDigit(s[0])
  {
    var k := DigitPrefixLength(s);
    if k == 0 then None else Some(DigitsValue(s[..k]))
  }

  /** `parseInt` reads the whole leading run of digits, and stops at the first character that is not one. */
  lemma ParseIntOfDigits(d: string, rest: string)
    requires |d| > 0 && AllDigits(d) && (rest == [] || !IsDigit(rest[0]))
    ensures ParseIntPrefix(d + rest) == Some(DigitsValue(d))
  {
    DigitPrefixOfDigitsThen(d, rest);
    assert (d + rest)[..|d|] == d;
  }

  lemma {:induction false} DigitPrefixOfDigitsThen(d: string, rest: string)
    requires AllDigits(d) && (rest == [] || !IsDigit(rest[0]))
    ensures DigitPrefixLength(d + rest) == |d|
  {
    if d != [] {
      assert IsDigit(d[0]);
      assert (d + rest)[1..] == d[1..] + rest;
      DigitPrefixOfDigitsThen(d[1..], rest);
    } else {
      assert d + rest == rest;
    }
  }

  lemma {:induction false} DigitPrefixOfDigits(s: string)
    requires AllDigits(s)
    ensures DigitPrefixLength(s) == |s|
  {
    if s != [] {
      assert IsDigit(s[0]);
      DigitPrefixOfDigits(s[1..]);
    }
  }

  /** The 12-hour clock hour of `hour`: 0 and 12 show as 12. */
  function Hour12(hour: nat): (h: nat)
    ensures 1 <= h <= 12 && h % 12 == hour % 12
  {
    if hour % 12 == 0 then 12 else hour % 12
  }

  /** `formatTimeTo12Hour`: the hour without padding, the minute text as given, then AM or PM. */
  function FormatTimeTo12Hour(time: string): (shown: string)
    ensures shown == "" <==> time == ""
    ensures shown != "" ==> |shown| >= 3 && shown[|shown| - 3..] in [" AM", " PM"]
  {
    if time == "" then ""
    else
      var parts := Split(time, ':');
      // a missing minute part prints as the text of `undefined`
      var minute := if |parts| >= 2 then parts[1] else "undefined";
      var hour := ParseIntPrefix(parts[0]);
      // NaN compares false against 12 and is falsy after `% 12`
      var ampm := if hour.Some? && hour.value >= 12 then "PM" else "AM";
      var hour12 := if hour.Some? then Hour12(hour.value) else 12;
      var prefix := ShowNat(hour12) + ":" + minute;
      assert (prefix + " " + ampm)[|prefix|..] == " " + ampm;
      assert " " + ampm == [' ', ampm[0], 'M'];
      prefix + " " + ampm
  }

  lemma FormatEmpty()
    ensures FormatTimeTo12Hour("") == ""
  {
  }

  /**
   * On a digit hour and a minute text without a colon, the display is the
   * 12-hour hour (unpadded), the minute text verbatim, and PM exactly from 12 on.
   */
  lemma FormatOfDigits(hh: string, mm: string)
    requires |hh| >= 1 && AllDigits(hh) && ':' !in mm
    ensures var h := DigitsValue(hh);
      FormatTimeTo12Hour(hh + ":" + mm) == ShowNat(Hour12(h)) + ":" + mm + " " + (if h >= 12 then "PM" else "AM")
  {
    ColonFree(hh);
    SplitAtSeparator(hh, ':', mm);
    SplitNoSeparator(mm, ':');
    DigitPrefixOfDigits(hh);
    assert hh[..|hh|] == hh;
  }

  /** How a grid or end-list time shows on the 12-hour clock. */
  lemma FormatOfMinutesToTime(mins: nat)
    ensures var h := (mins / 60) % 24;
      FormatTimeTo12Hour(MinutesToTime(mins)) == ShowNat(Hour12(h)) + ":" + Pad2(mins % 60) + " " + (if h >= 12 then "PM" else "AM")
  {
    var h, m := (mins / 60) % 24, mins % 60;
    Pad2Shape(h);
    Pad2Shape(m);
    ColonFree(Pad2(m));
    FormatOfDigits(Pad2(h), Pad2(m));
  }

  /** `calculateDurationInSlots`: the minute difference divided by 30, rounded up (`Math.ceil`). */
  function CalculateDurationInSlots(startTime: string, endTime: string): (r: Option<int>)
    ensures r.Some? <==> TimeToMinutes(startTime).Some? && TimeToMinutes(endTime).Some?
    ensures r.Some? ==> var d := TimeToMinutes(endTime).value - TimeToMinutes(startTime).value;
      30 * (r.value - 1) < d <= 30 * r.value
  {
    match (TimeToMinutes(startTime), TimeToMinutes(endTime))
    case (Some(startMinutes), Some(endMinutes)) =>
      var duration := endMinutes - startMinutes;
      // Dafny's division by a positive constant rounds down, so this rounds up
      Some(-((-duration) / 30))
    case _ => None
  }

  /** For 30-aligned times the duration is the exact number of half-hour slots between them. */
  lemma DurationOfAlignedTimes(startTime: string, endTime: string, s: nat, k: nat)
    requires TimeToMinutes(startTime) == Some(s) && TimeToMinutes(endTime) == Some(s + 30 * k)
    ensures CalculateDurationInSlots(startTime, endTime) == Some(k)
  {
    var r := CalculateDurationInSlots(startTime, endTime);
    assert 30 * (r.value - 1) < 30 * k <= 30 * r.value;
  }

}
