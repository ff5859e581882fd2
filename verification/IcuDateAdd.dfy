/** Adding intervals to timestamps and subtracting timestamps, by way of a calendar. */
module IcuDateAdd {
  import opened Timestamps
  import opened IcuCalendar

  const MILLIS_PER_DAY := 86_400_000

  // ----- Timestamps and the calendar's clock -----

  method TryGetTime(calendar: Calendar, micros: nat) returns (result: Outcome<int>)
    ensures result == Extracted(calendar.time, ToInt64(micros))
  {
    var millis := calendar.GetTime();
    millis := millis * MICROS_PER_MSEC;
    if !IsInt64(millis) {
      return RangeError;
    }
    millis := millis + ToInt64(micros);
    if !IsInt64(millis) {
      return RangeError;
    }
    var daysMicros := GetDate(millis) * MICROS_PER_DAY;
    return if IsInt64(daysMicros) then Ok(millis) else RangeError;
  }

  function Extracted(millis: int, micros: int): Outcome<int> {
    if IsInt64(millis * MICROS_PER_MSEC) && Representable(millis * MICROS_PER_MSEC + micros)
    then Ok(millis * MICROS_PER_MSEC + micros) else RangeError
  }

  // The clock is put to the floor, the rest is returned.
  method SetTime(calendar: Calendar, ts: int) returns (rest: nat)
    requires IsInt64(ts)
    modifies calendar
    ensures calendar.time == ts / 1000 && rest == ts % 1000
  {
    var millis, micros := Quot(ts, MICROS_PER_MSEC), Rem(ts, MICROS_PER_MSEC);
    if micros < 0 {
      millis := millis - 1;
      micros := micros + MICROS_PER_MSEC;
    }
    calendar.SetTime(millis);
    rest := micros;
  }

  method SubtractField(calendar: Calendar, field: Field, endDate: int) returns (diff: Outcome<int>)
    requires !field.MONTH? && -REACH <= calendar.time <= REACH && -REACH <= Quot(endDate, 1000) <= REACH
    modifies calendar
    ensures var d, u := Quot(endDate, 1000) - old(calendar.time), Unit(field);
            && (diff.Ok? <==> INT32_MIN * u <= d <= INT32_MAX * u)
            && (diff.Ok? ==> diff.value == Quot(d, u) && calendar.time == old(calendar.time) + diff.value * u)
  {
    diff := calendar.FieldDifference(Quot(endDate, MICROS_PER_MSEC), field);
  }

  // ----- Timestamp plus interval -----

  // Adding months, too, stays within the supported days.
  ghost predicate BoundedMonths(addMonths: (int, int) -> int) {
    forall t, n :: MIN_MILLIS <= addMonths(t, n) <= MAX_MILLIS
  }

  ghost predicate Bounded(calendar: Calendar)
    reads calendar
  {
    MIN_MILLIS <= calendar.time <= MAX_MILLIS && BoundedMonths(calendar.addMonths)
  }

  // Steps of one sign may be taken together.
  lemma PinTogether(x: int, a: int, b: int)
    requires MIN_MILLIS <= x <= MAX_MILLIS && ((a >= 0 && b >= 0) || (a <= 0 && b <= 0))
    ensures Pin(Pin(x + a) + b) == Pin(x + a + b)
  {
  }

  // Hours are added in portions of 32 bits.
  method CalendarAddHour(calendar: Calendar, hours: int)
    requires Bounded(calendar)
    modifies calendar
    ensures Bounded(calendar) && calendar.time == Pin(old(calendar.time) + hours * 3_600_000)
  {
    var intervalHour := hours;
    ghost var done, start := 0, calendar.time;
    if intervalHour >= 0 {
      while intervalHour > 0
        invariant Bounded(calendar) && done >= 0 && done + (if intervalHour > 0 then intervalHour else 0) == hours
        invariant calendar.time == Pin(start + done * 3_600_000)
      {
        var amount := if intervalHour > INT32_MAX then INT32_MAX else intervalHour;
        PinTogether(start, done * 3_600_000, amount * 3_600_000);
        calendar.Add(HOUR, amount);
        done := done + amount;
        intervalHour := intervalHour - INT32_MAX;
      }
    } else {
      while intervalHour < 0
        invariant Bounded(calendar) && done <= 0 && done + (if intervalHour < 0 then intervalHour else 0) == hours
        invariant calendar.time == Pin(start + done * 3_600_000)
        decreases -intervalHour
      {
        var amount := if intervalHour < INT32_MIN then INT32_MIN else intervalHour;
        PinTogether(start, done * 3_600_000, amount * 3_600_000);
        calendar.Add(HOUR, amount);
        done := done + amount;
        intervalHour := intervalHour - INT32_MIN;
      }
    }
  }

  // The interval's microseconds in whole units, all of one sign.
  datatype Parts = Parts(h: int, m: int, s: int, ms: int)

  function Millis(p: Parts): int {
    p.h * 3_600_000 + p.m * 60_000 + p.s * 1000 + p.ms
  }

  predicate OneSign(p: Parts) {
    (p.h >= 0 && p.m >= 0 && p.s >= 0 && p.ms >= 0) || (p.h <= 0 && p.m <= 0 && p.s <= 0 && p.ms <= 0)
  }

  method Split(micros: int) returns (p: Parts)
    ensures Millis(p) == Quot(micros, 1000) && OneSign(p)
    ensures -1000 < p.ms < 1000 && -60 < p.s < 60 && -60 < p.m < 60
  {
    var intervalH := Quot(micros, MICROS_PER_MSEC);
    var ms := Rem(intervalH, MSECS_PER_SEC);
    intervalH := Quot(intervalH, MSECS_PER_SEC);
    var s := Rem(intervalH, SECS_PER_MINUTE);
    intervalH := Quot(intervalH, SECS_PER_MINUTE);
    var m := Rem(intervalH, MINS_PER_HOUR);
    intervalH := Quot(intervalH, MINS_PER_HOUR);
    p := Parts(intervalH, m, s, ms);
  }

  // Adding nothing and adding a pinned amount are the same within the supported days.
  method AddPinned(calendar: Calendar, field: Field, amount: int)
    requires Bounded(calendar) && !field.MONTH?
    modifies calendar
    ensures Bounded(calendar) && calendar.time == Pin(old(calendar.time) + amount * Unit(field))
  {
    calendar.Add(field, amount);
  }

  method AddLowestFirst(calendar: Calendar, p: Parts)
    requires Bounded(calendar) && OneSign(p)
    modifies calendar
    ensures Bounded(calendar) && calendar.time == Pin(old(calendar.time) + Millis(p))
  {
    hide Pin;
    ghost var x := calendar.time;
    AddPinned(calendar, MILLISECOND, p.ms);
    PinTogether(x, p.ms, p.s * 1000);
    AddPinned(calendar, SECOND, p.s);
    PinTogether(x, p.ms + p.s * 1000, p.m * 60_000);
    AddPinned(calendar, MINUTE, p.m);
    PinTogether(x, p.ms + p.s * 1000 + p.m * 60_000, p.h * 3_600_000);
    CalendarAddHour(calendar, p.h);
  }

  method AddHighestFirst(calendar: Calendar, p: Parts)
    requires Bounded(calendar) && OneSign(p)
    modifies calendar
    ensures Bounded(calendar) && calendar.time == Pin(old(calendar.time) + Millis(p))
  {
    hide Pin;
    ghost var x := calendar.time;
    CalendarAddHour(calendar, p.h);
    PinTogether(x, p.h * 3_600_000, p.m * 60_000);
    AddPinned(calendar, MINUTE, p.m);
    PinTogether(x, p.h * 3_600_000 + p.m * 60_000, p.s * 1000);
    AddPinned(calendar, SECOND, p.s);
    PinTogether(x, p.h * 3_600_000 + p.m * 60_000 + p.s * 1000, p.ms);
    AddPinned(calendar, MILLISECOND, p.ms);
  }

  // The milliseconds and microseconds after the microseconds of timestamp and interval are put together.
  function Carry(ts: int, micros: int): (c: (int, int))
    ensures c.0 * 1000 + c.1 + 1000 * Quot(micros, 1000) == ts + micros && -1000 < c.1 < 1000
    ensures Quot(ts, 1000) - 1 <= c.0 <= Quot(ts, 1000) + 1
  {
    QuotRem(ts, 1000);
    QuotRem(micros, 1000);
    var sum := Rem(ts, 1000) + Rem(micros, 1000);
    if sum >= 1000 then (Quot(ts, 1000) + 1, sum - 1000)
    else if sum < 0 then (Quot(ts, 1000) - 1, sum + 1000)
    else (Quot(ts, 1000), sum)
  }

  // Where the clock goes: months before days, and the time of day last unless something is negative.
  function Moved(addMonths: (int, int) -> int, start: int, i: Interval): int {
    if i.months < 0 || i.days < 0 || i.micros < 0
    then Pin(Months(addMonths, Pin(start + Quot(i.micros, 1000)), i.months) + i.days * MILLIS_PER_DAY)
    else Pin(Pin(Months(addMonths, start, i.months) + i.days * MILLIS_PER_DAY) + Quot(i.micros, 1000))
  }

  function Months(addMonths: (int, int) -> int, millis: int, months: int): int {
    if months == 0 then millis else addMonths(millis, months)
  }

  function Added(addMonths: (int, int) -> int, ts: int, i: Interval): Outcome<int> {
    var c := Carry(ts, i.micros);
    if IsInt64(c.0 * 1000) && Representable(c.0 * 1000) then Extracted(Moved(addMonths, c.0, i), c.1) else RangeError
  }

  /** Timestamp plus interval; infinite timestamps stay as they are. */
  method Add(ts: int, i: Interval, calendar: Calendar) returns (result: Outcome<int>)
    requires IsInt64(ts) && IsInterval(i) && BoundedMonths(calendar.addMonths)
    modifies calendar
    ensures result == if IsFinite(ts) then Added(calendar.addMonths, ts, i) else Ok(ts)
  {
    if !IsFinite(ts) {
      return Ok(ts);
    }
    var millis, micros := Quot(ts, MICROS_PER_MSEC), Rem(ts, MICROS_PER_MSEC);
    micros := micros + Rem(i.micros, MICROS_PER_MSEC);
    if micros >= MICROS_PER_MSEC {
      micros := micros - MICROS_PER_MSEC;
      millis := millis + 1;
    } else if micros < 0 {
      micros := micros + MICROS_PER_MSEC;
      millis := millis - 1;
    }
    assert (millis, micros) == Carry(ts, i.micros);
    var us := millis * MICROS_PER_MSEC;
    if !IsInt64(us) || !IsInt64(GetDate(us) * MICROS_PER_DAY) {
      return RangeError;
    }
    calendar.SetTime(millis);
    AddFields(calendar, i);
    ThereAndBack(micros);
    result := TryGetTime(calendar, ToUint64(micros));
  }

  method AddMonthsAndDays(calendar: Calendar, months: int, days: int)
    requires Bounded(calendar)
    modifies calendar
    ensures Bounded(calendar)
    ensures calendar.time == Pin(Months(calendar.addMonths, old(calendar.time), months) + days * MILLIS_PER_DAY)
  {
    calendar.Add(MONTH, months);
    calendar.Add(DATE, days);
  }

  // Fields are added from the least to the greatest when something is negative, and the other way round if not.
  method AddFields(calendar: Calendar, i: Interval)
    requires Bounded(calendar)
    modifies calendar
    ensures calendar.time == Moved(calendar.addMonths, old(calendar.time), i)
  {
    var parts := Split(i.micros);
    hide Quot, Millis, Pin, Months;
    if i.months < 0 || i.days < 0 || i.micros < 0 {
      AddLowestFirst(calendar, parts);
      AddMonthsAndDays(calendar, i.months, i.days);
      return;
    }
    AddMonthsAndDays(calendar, i.months, i.days);
    AddHighestFirst(calendar, parts);
  }

  // Without months the clock moves by the sum, pinned once at most.
  lemma MovedWithoutMonths(addMonths: (int, int) -> int, start: int, i: Interval)
    requires -REACH <= start <= REACH && IsInterval(i) && i.months == 0
    ensures Moved(addMonths, start, i) == Pin(start + i.days * MILLIS_PER_DAY + Quot(i.micros, 1000))
  {
    assert -REACH <= Quot(i.micros, 1000) <= REACH;
  }

  // When the sum of timestamp and interval can be represented, along the way too.
  predicate InReach(ts: int, i: Interval) {
    var c := Carry(ts, i.micros);
    && IsInt64(c.0 * 1000) && Representable(c.0 * 1000)
    && IsInt64((c.0 + i.days * MILLIS_PER_DAY + Quot(i.micros, 1000)) * 1000)
    && Representable(ts + i.days * MICROS_PER_DAY + i.micros)
  }

  /** Without months, adding an interval of either sign is exact, or a range error. */
  lemma AddIsExact(addMonths: (int, int) -> int, ts: int, i: Interval)
    requires IsInt64(ts) && IsInterval(i) && i.months == 0
    ensures Added(addMonths, ts, i) == if InReach(ts, i)
            then Ok(ts + i.days * MICROS_PER_DAY + i.micros) else RangeError
  {
    var c := Carry(ts, i.micros);
    assert -REACH <= c.0 <= REACH;
    MovedWithoutMonths(addMonths, c.0, i);
  }

  /** With months, everything but the month step is exact: the result is the sum of timestamp, days,
      microseconds and what the month step moves the clock by, or a range error exactly when that cannot
      be represented; where the clock is pinned on the way, it is one. The month step is taken from the
      timestamp's milliseconds when nothing is negative, and otherwise after the time of day. */
  lemma AddWithMonths(addMonths: (int, int) -> int, ts: int, i: Interval)
    requires IsInt64(ts) && IsInterval(i) && BoundedMonths(addMonths)
    ensures var start := Carry(ts, i.micros).0;
            var at := if i.months >= 0 && i.days >= 0 && i.micros >= 0 then start else start + Quot(i.micros, 1000);
            var step := if i.months == 0 then 0 else addMonths(at, i.months) - at;
            var clock := start + step + i.days * MILLIS_PER_DAY + Quot(i.micros, 1000);
            var sum := ts + 1000 * step + i.days * MICROS_PER_DAY + i.micros;
            Added(addMonths, ts, i) ==
            if IsInt64(start * 1000) && Representable(start * 1000) && IsInt64(clock * 1000) && Representable(sum)
            then Ok(sum) else RangeError
  {
    var c := Carry(ts, i.micros);
    assert -REACH <= c.0 <= REACH && -REACH <= Quot(i.micros, 1000) <= REACH;
  }

  // ----- Timestamp minus timestamp -----

  function FromTime(hour: int, minute: int, second: int, micros: int): int {
    ((hour * 60 + minute) * 60 + second) * 1_000_000 + micros
  }

  // The borrowed millisecond that is not taken off an end in the first millisecond after the epoch.
  function Slip(end: int, start: int): int {
    if start < 0 && 1 <= end <= 999 && start % 1000 > end then 1 else 0
  }

  function SignedSlip(end: int, start: int): int {
    if start > end then -Slip(start, end) else Slip(end, start)
  }

  function Total(i: Interval): int {
    i.days * MICROS_PER_DAY + i.micros
  }

  // The end's milliseconds and microseconds after a possible borrow.
  function Borrowed(end: int, start: int): (b: (int, int)) {
    if Rem(end, 1000) >= 0 && start % 1000 > Rem(end, 1000)
    then (Quot(end - 1000, 1000), Rem(end, 1000) + 1000)
    else (Quot(end, 1000), Rem(end, 1000))
  }

  lemma BorrowedTotal(end: int, start: int)
    requires start <= end
    ensures var b := Borrowed(end, start);
            && start / 1000 <= b.0 && -1000 < b.1 < 2000
            && (b.0 - start / 1000) * 1000 + b.1 - start % 1000 == end - start + 1000 * Slip(end, start)
  {
    QuotRem(end, 1000);
    QuotRem(end - 1000, 1000);
  }

  // A difference that is not negative: its microseconds are less than a day, and they are below zero, so
  // that the signs of days and microseconds can differ, exactly when the end is before the epoch, not a
  // whole number of milliseconds, and its milliseconds, rounded up, are a whole number of days, or a
  // millisecond more, after those of the start, with too few microseconds to make up for the rounding.
  predicate WellSplit(days: int, micros: int, end: int, start: int) {
    && days >= 0 && -2000 < micros < MICROS_PER_DAY
    && (end >= 0 ==> micros >= 0)
    && (micros < 0 <==>
          && end < 0 && end % 1000 != 0
          && ((end / 1000 + 1 - start / 1000) % MILLIS_PER_DAY) * 1000 < start % 1000 + (1000 - end % 1000))
  }

  lemma SplitOfBorrowed(end: int, start: int, days: int, micros: int)
    requires start <= end
    requires var b := Borrowed(end, start);
             && days == (b.0 - start / 1000) / MILLIS_PER_DAY
             && days * MICROS_PER_DAY + micros == (b.0 - start / 1000) * 1000 + b.1 - start % 1000
    ensures WellSplit(days, micros, end, start) && days >= 0 && -2000 < micros < MICROS_PER_DAY
    ensures days * MICROS_PER_DAY + micros == end - start + 1000 * Slip(end, start)
    ensures Total(Interval(0, days, micros)) == days * MICROS_PER_DAY + micros
  {
    var b := Borrowed(end, start);
    var d := b.0 - start / 1000;
    BorrowedTotal(end, start);
    QuotRem(end, 1000);
    QuotRem(end - 1000, 1000);
    assert days * MILLIS_PER_DAY + d % MILLIS_PER_DAY == d;
    assert micros == (d % MILLIS_PER_DAY) * 1000 + b.1 - start % 1000;
  }

  /** The interval between two timestamps, in days and microseconds. */
  method Sub(end: int, start: int, calendar: Calendar) returns (result: Outcome<Interval>)
    requires IsInt64(end) && IsInt64(start)
    modifies calendar
    ensures result == InvalidInput <==> !IsFinite(end) || !IsFinite(start)
    ensures IsFinite(end) && IsFinite(start) ==>
              && result.Ok? && IsInterval(result.value) && result.value.months == 0
              && Total(result.value) == end - start + 1000 * SignedSlip(end, start)
              && (start <= end ==> WellSplit(result.value.days, result.value.micros, end, start))
              && (start > end ==> WellSplit(-result.value.days, -result.value.micros, start, end))
    decreases if start > end then 1 else 0
  {
    hide Slip;
    if !IsFinite(end) || !IsFinite(start) {
      return InvalidInput;
    }
    if start > end {
      var negated := Sub(start, end, calendar);
      var i := negated.value;
      assert i.days >= 0 && i.micros > -2000;
      hide WellSplit;
      return Ok(Interval(-i.months, -i.days, -i.micros));
    }
    hide WellSplit, Borrowed, Total;
    var startMicros := SetTime(calendar, start);
    BorrowedTotal(end, start);
    var endDate, endMicros := Borrow(end, startMicros, start);
    var days, micros := Subtract(calendar, endDate, endMicros, startMicros, Borrowed(end, start).1);
    SplitOfBorrowed(end, start, days, micros);
    return Ok(Interval(0, days, micros));
  }

  // The end's date and spare microseconds, a millisecond taken off when they are less than the start's. Spare
  // microseconds below zero are unsigned here, and so never less.
  method Borrow(end: int, startMicros: nat, ghost start: int) returns (endDate: int, endMicros: nat)
    requires IsInt64(end) && IsFinite(end) && startMicros == start % 1000
    ensures Quot(endDate, 1000) == Borrowed(end, start).0 && endMicros == ToUint64(Borrowed(end, start).1)
  {
    endDate, endMicros := end, ToUint64(Rem(end, MICROS_PER_MSEC));
    ThereAndBack(Rem(end, MICROS_PER_MSEC));
    if startMicros > endMicros {
      endDate := endDate - MICROS_PER_MSEC;
      endMicros := endMicros + MICROS_PER_MSEC;
    }
  }

  // A field of a difference that is not negative; less than one unit is left.
  method NextField(calendar: Calendar, field: Field, endDate: int) returns (diff: nat)
    requires !field.MONTH? && -REACH <= calendar.time <= Quot(endDate, 1000) <= REACH
    requires Quot(endDate, 1000) - calendar.time <= INT32_MAX * Unit(field)
    modifies calendar
    ensures calendar.time == old(calendar.time) + diff * Unit(field)
    ensures 0 <= Quot(endDate, 1000) - calendar.time < Unit(field)
    ensures diff <= INT32_MAX
  {
    ghost var d, u := Quot(endDate, 1000) - calendar.time, Unit(field);
    var result := SubtractField(calendar, field, endDate);
    diff := result.value;
    assert d / u == diff && 0 <= d - diff * u < u;
    Ordered(diff, INT32_MAX, u);
  }

  // The last part is computed unsigned and then narrowed.
  method Narrow(msDiff: nat, endMicros: nat, startMicros: nat, ghost exact: int) returns (microsDiff: int)
    requires msDiff < 1000 && startMicros < 1000 && -1000 < exact < 2000 && endMicros == ToUint64(exact)
    ensures microsDiff == msDiff * 1000 + exact - startMicros
  {
    microsDiff := WrapInt32(ToUint64(msDiff * MICROS_PER_MSEC + (endMicros - startMicros)));
    assert ToUint64(msDiff * 1000 + (endMicros - startMicros)) == ToUint64(msDiff * 1000 + exact - startMicros);
    NarrowExact(msDiff * 1000 + exact - startMicros);
  }

  // The fields of the difference, from the greatest to the least.
  method Subtract(calendar: Calendar, endDate: int, endMicros: nat, startMicros: nat, ghost exact: int)
    returns (days: int, micros: int)
    requires -REACH < calendar.time <= Quot(endDate, 1000) < REACH
    requires startMicros < 1000 && -1000 < exact < 2000 && endMicros == ToUint64(exact)
    modifies calendar
    ensures 0 <= days <= INT32_MAX && days == (Quot(endDate, 1000) - old(calendar.time)) / MILLIS_PER_DAY
    ensures days * MICROS_PER_DAY + micros == (Quot(endDate, 1000) - old(calendar.time)) * 1000 + exact - startMicros
  {
    days := NextField(calendar, DATE, endDate);
    var hourDiff := NextField(calendar, HOUR_OF_DAY, endDate);
    var minDiff := NextField(calendar, MINUTE, endDate);
    var secDiff := NextField(calendar, SECOND, endDate);
    var msDiff := NextField(calendar, MILLISECOND, endDate);
    var microsDiff := Narrow(msDiff, endMicros, startMicros, exact);
    micros := FromTime(hourDiff, minDiff, secDiff, microsDiff);
  }

  /** Subtracting and adding again: the end comes back, or a range error, except for the slip. */
  method SubtractThenAdd(end: int, start: int, calendar: Calendar) returns (again: Outcome<int>)
    requires IsInt64(end) && IsInt64(start) && IsFinite(end) && IsFinite(start) && BoundedMonths(calendar.addMonths)
    modifies calendar
    ensures again == RangeError || (again.Ok? && again.value == end + 1000 * SignedSlip(end, start))
    ensures again.Ok? && 0 <= start <= end ==> again.value == end
    ensures again.Ok? ==> (again.value == end <==> SignedSlip(end, start) == 0)
  {
    var i := Sub(end, start, calendar);
    again := Add(start, i.value, calendar);
    AddIsExact(calendar.addMonths, start, i.value);
  }

  /** One microsecond after the epoch minus one before it is not two microseconds, whatever the calendar,
      and adding the difference back does not give the end. */
  method SlipHappens(calendar: Calendar) returns (difference: Outcome<Interval>, again: Outcome<int>)
    requires BoundedMonths(calendar.addMonths)
    modifies calendar
    ensures difference.Ok? && Total(difference.value) == 1002
    ensures again == Ok(1001)
  {
    assert SignedSlip(1, -1) == 1;
    difference := Sub(1, -1, calendar);
    again := Add(-1, difference.value, calendar);
    AddIsExact(calendar.addMonths, -1, difference.value);
    assert -1 % 1000 == 999;
  }
}
