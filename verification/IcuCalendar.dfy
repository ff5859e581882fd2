/** A calendar at a fixed offset from universal time: a millisecond clock that fields are added to. */
module IcuCalendar {
  import opened Timestamps

  datatype Field = MONTH | DATE | HOUR_OF_DAY | HOUR | MINUTE | SECOND | MILLISECOND

  // Milliseconds per unit; a day is always 24 hours long here.
  function Unit(f: Field): (u: int)
    requires !f.MONTH?
    ensures 1 <= u <= 86_400_000
  {
    match f
    case DATE => 86_400_000
    case HOUR_OF_DAY => 3_600_000
    case HOUR => 3_600_000
    case MINUTE => 60_000
    case SECOND => 1000
    case MILLISECOND => 1
  }

  const MAX_MILLIS := (0x7F00_0000 - 2_440_588) * 86_400_000
  const MIN_MILLIS := (-0x7F00_0000 - 2_440_588) * 86_400_000

  // Times beyond the supported Julian days are pinned to them.
  function Pin(millis: int): int {
    if millis > MAX_MILLIS then MAX_MILLIS else if millis < MIN_MILLIS then MIN_MILLIS else millis
  }

  // Every 64-bit count of microseconds is within this many milliseconds.
  const REACH := 10_000_000_000_000_000

  lemma Ordered(a: int, b: int, u: int)
    requires u > 0
    ensures a < b <==> a * u < b * u
    ensures a <= b <==> a * u <= b * u
  {
    if a < b {
      assert (b - a) * u > 0;
    } else if b < a {
      assert (a - b) * u > 0;
    }
  }

  lemma Enclosed(x: int, q: int, u: int)
    requires u > 0 && 0 <= q && q * u <= x < (q + 1) * u
    ensures Quot(x, u) == q && Quot(-x, u) == -q
  {
    assert (x / u) * u <= x < (x / u + 1) * u;
    Ordered(x / u, q + 1, u);
    Ordered(q, x / u + 1, u);
  }

  // A shift that runs over wraps around.
  lemma WrapDoubled(x: int)
    requires INT32_MIN / 2 <= x < 0 || x == INT32_MIN
    ensures WrapInt32(2 * x) == if x == INT32_MIN then 0 else 2 * x
  {
  }

  function Power(k: nat): (p: nat)
    ensures p >= 1
  {
    if k == 0 then 1 else 2 * Power(k - 1)
  }

  lemma {:induction false} PowerGrows(j: nat, k: nat)
    requires j <= k
    ensures Power(j) <= Power(k)
  {
    if j < k {
      PowerGrows(j, k - 1);
    }
  }

  lemma PowerOf31()
    ensures Power(31) == -INT32_MIN
  {
    assert Power(5) == 32 && Power(10) == 1024 && Power(15) == 32_768 && Power(20) == 1_048_576;
    assert Power(25) == 33_554_432 && Power(30) == 1_073_741_824;
  }

  // Doubling meets 2^31 exactly.
  lemma PowerFits(k: nat)
    requires k > 0 && Power(k - 1) < -INT32_MIN
    ensures Power(k) == 2 * Power(k - 1) <= -INT32_MIN
  {
    PowerOf31();
    PowerGrows(if k <= 31 then k else 31, if k <= 31 then 31 else k - 1);
  }

  class Calendar {
    // What adding months does; the calendar's own rules are not part of this model.
    const addMonths: (int, int) -> int
    var time: int

    constructor (addMonths: (int, int) -> int)
      ensures this.addMonths == addMonths
    {
      this.addMonths, time := addMonths, 0;
    }

    method SetTime(millis: int)
      modifies this
      ensures time == Pin(millis)
    {
      time := if millis > MAX_MILLIS then MAX_MILLIS else if millis < MIN_MILLIS then MIN_MILLIS else millis;
    }

    method GetTime() returns (millis: int)
      ensures millis == time
    {
      millis := time;
    }

    method Add(field: Field, amount: int)
      modifies this
      ensures amount == 0 ==> time == old(time)
      ensures amount != 0 ==>
                time == if field.MONTH? then addMonths(old(time), amount) else Pin(old(time) + amount * Unit(field))
    {
      if amount == 0 {
        return;
      }
      if field.MONTH? {
        time := addMonths(time, amount);
        return;
      }
      SetTime(time + amount * Unit(field));
    }

    // The calendar is put to start and moved on from there.
    method AddFrom(start: int, field: Field, amount: int) returns (ms: int)
      requires !field.MONTH? && -REACH <= start <= REACH && -5 * REACH <= amount * Unit(field) <= 5 * REACH
      modifies this
      ensures ms == time == start + amount * Unit(field)
    {
      SetTime(start);
      Add(field, amount);
      ms := GetTime();
    }

    /** How many units of the field fit between the calendar's time and the target, rounded toward the
        former; the calendar advances by as much. It fails exactly when that is more than 32 bits hold. */
    method FieldDifference(target: int, field: Field) returns (diff: Outcome<int>)
      requires !field.MONTH? && -REACH <= time <= REACH && -REACH <= target <= REACH
      modifies this
      ensures diff.Ok? <==> INT32_MIN * Unit(field) <= target - old(time) <= INT32_MAX * Unit(field)
      ensures diff.Ok? ==> diff.value == Quot(target - old(time), Unit(field))
      ensures diff.Ok? ==> time == old(time) + diff.value * Unit(field)
    {
      if time < target {
        diff := DifferenceUp(target, field);
      } else if time > target {
        diff := DifferenceDown(target, field);
      } else {
        diff := Ok(0);
      }
    }

    method DifferenceUp(target: int, field: Field) returns (diff: Outcome<int>)
      requires !field.MONTH? && -REACH <= time < target <= REACH
      modifies this
      ensures diff.Ok? <==> target - old(time) <= INT32_MAX * Unit(field)
      ensures diff.Ok? ==> diff.value == Quot(target - old(time), Unit(field))
      ensures diff.Ok? ==> time == old(time) + diff.value * Unit(field)
    {
      var u, start := Unit(field), time;
      var min, max := 0, 1;
      while true
        invariant 0 <= min < max <= INT32_MAX && max <= 2 * min + 1 && start == old(time)
        invariant min * u < target - start
        decreases INT32_MAX - min
      {
        DoubleBound(min, max, u, target - start);
        var ms := AddFrom(start, field, max);
        if ms == target {
          Enclosed(target - start, max, u);
          Ordered(max, INT32_MAX, u);
          return Ok(max);
        } else if ms > target {
          break;
        } else if max < INT32_MAX {
          min := max;
          max := if 2 * max > INT32_MAX then INT32_MAX else 2 * max;
        } else {
          return RangeError;
        }
      }
      Ordered(max, INT32_MAX, u);
      var units := SearchUp(start, target, field, min, max);
      return Ok(units);
    }

    // Binary search between a value that is too small and one that is too large.
    method SearchUp(start: int, target: int, field: Field, low: int, high: int) returns (units: int)
      requires !field.MONTH? && -REACH <= start <= REACH && 0 <= low < high
      requires low * Unit(field) < target - start < high * Unit(field) <= 5 * REACH
      modifies this
      ensures units == Quot(target - start, Unit(field)) && time == start + units * Unit(field)
    {
      hide Quot;
      var u, min, max := Unit(field), low, high;
      while max - min > 1
        invariant 0 <= min < max && min * u < target - start < max * u <= 5 * REACH
        decreases max - min
      {
        var t := min + (max - min) / 2;
        Ordered(t, max, u);
        Ordered(0, t, u);
        var ms := AddFrom(start, field, t);
        if ms == target {
          Enclosed(target - start, t, u);
          return t;
        } else if ms > target {
          max := t;
        } else {
          min := t;
        }
      }
      Enclosed(target - start, min, u);
      Ordered(0, min + 1, u);
      var _ := AddFrom(start, field, min);
      return min;
    }

    method DifferenceDown(target: int, field: Field) returns (diff: Outcome<int>)
      requires !field.MONTH? && -REACH <= target < time <= REACH
      modifies this
      ensures diff.Ok? <==> INT32_MIN * Unit(field) <= target - old(time)
      ensures diff.Ok? ==> diff.value == Quot(target - old(time), Unit(field))
      ensures diff.Ok? ==> time == old(time) + diff.value * Unit(field)
    {
      var u, start := Unit(field), time;
      var min, max := 0, -1;
      ghost var k: nat := 0;
      assert Power(0) == 1;
      hide Power, WrapInt32, Quot;
      while true
        invariant -max == Power(k)
        invariant INT32_MIN <= max < min <= 0 && -max <= -2 * min + 1 && start == old(time)
        invariant (-min) * u < start - target
        decreases min - INT32_MIN
      {
        DoubleBound(-min, -max, u, start - target);
        var ms := AddFrom(start, field, max);
        if ms == target {
          Enclosed(start - target, -max, u);
          Ordered(INT32_MIN, max, u);
          return Ok(max);
        } else if ms < target {
          break;
        } else {
          if max != INT32_MIN {
            PowerFits(k + 1);
          }
          WrapDoubled(max);
          min := max;
          max := WrapInt32(2 * max);
          if max == 0 {
            return RangeError;
          }
          k := k + 1;
        }
      }
      Ordered(INT32_MIN, max, u);
      var units := SearchDown(start, target, field, min, max);
      return Ok(units);
    }

    method SearchDown(start: int, target: int, field: Field, high: int, low: int) returns (units: int)
      requires !field.MONTH? && -REACH <= start <= REACH && low < high <= 0
      requires (-high) * Unit(field) < start - target < (-low) * Unit(field) <= 5 * REACH
      modifies this
      ensures units == Quot(target - start, Unit(field)) && time == start + units * Unit(field)
    {
      hide Quot;
      var u, min, max := Unit(field), high, low;
      while min - max > 1
        invariant max < min <= 0 && (-min) * u < start - target < (-max) * u <= 5 * REACH
        decreases min - max
      {
        var t := min - (min - max) / 2;  // the division rounds toward zero
        Ordered(-t, -max, u);
        Ordered(0, -t, u);
        var ms := AddFrom(start, field, t);
        if ms == target {
          Enclosed(start - target, -t, u);
          return t;
        } else if ms < target {
          max := t;
        } else {
          min := t;
        }
      }
      Enclosed(start - target, -min, u);
      Ordered(0, -min + 1, u);
      var _ := AddFrom(start, field, min);
      return min;
    }
  }

  lemma DoubleBound(min: int, max: int, u: int, reach: int)
    requires 0 <= min < max <= 2 * min + 1 && 1 <= u <= 86_400_000 && min * u < reach <= 2 * REACH
    ensures 0 <= max * u <= 5 * REACH
  {
    Ordered(max, 2 * min + 1, u);
    Ordered(0, max, u);
    assert (2 * min + 1) * u == 2 * (min * u) + u;
  }
}
