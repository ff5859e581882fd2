/** Timestamps in microseconds and the 64-bit arithmetic around them. */
module Timestamps {

  const INT32_MAX := 0x7FFF_FFFF
  const INT32_MIN := -0x8000_0000
  const INT64_MAX := 0x7FFF_FFFF_FFFF_FFFF
  const INT64_MIN := -0x8000_0000_0000_0000
  const MICROS_PER_MSEC := 1000
  const MSECS_PER_SEC := 1000
  const SECS_PER_MINUTE := 60
  const MINS_PER_HOUR := 60
  const MICROS_PER_DAY := 86_400_000_000

  datatype Outcome<+T> = Ok(value: T) | RangeError | InvalidInput

  datatype Interval = Interval(months: int, days: int, micros: int)

  predicate IsInt32(x: int) {
    INT32_MIN <= x <= INT32_MAX
  }

  predicate IsInt64(x: int) {
    INT64_MIN <= x <= INT64_MAX
  }

  predicate IsInterval(i: Interval) {
    IsInt32(i.months) && IsInt32(i.days) && IsInt64(i.micros)
  }

  // The two ends of the symmetric range stand for the infinities.
  predicate IsFinite(ts: int) {
    ts != INT64_MAX && ts != -INT64_MAX
  }

  // Division and remainder round toward zero.
  function Quot(a: int, b: int): int
    requires b > 0
  {
    if a >= 0 then a / b else -(-a / b)
  }

  function Rem(a: int, b: int): int
    requires b > 0
  {
    a - b * Quot(a, b)
  }

  lemma QuotRem(a: int, b: int)
    requires b > 0
    ensures a == b * Quot(a, b) + Rem(a, b) && -b < Rem(a, b) < b
    ensures a >= 0 ==> Rem(a, b) >= 0
    ensures a <= 0 ==> Rem(a, b) <= 0
  {
  }

  function GetDate(ts: int): int {
    if ts == INT64_MAX then INT32_MAX
    else if ts == -INT64_MAX then -INT32_MAX
    else if ts < 0 then Quot(ts + 1, MICROS_PER_DAY) - 1
    else Quot(ts, MICROS_PER_DAY)
  }

  // The day of a finite timestamp is the floor, before the epoch as after it.
  lemma GetDateIsFloor(ts: int)
    requires IsInt64(ts) && IsFinite(ts)
    ensures GetDate(ts) * MICROS_PER_DAY <= ts < (GetDate(ts) + 1) * MICROS_PER_DAY
    ensures IsInt32(GetDate(ts))
  {
  }

  // A timestamp whose day can be turned back into microseconds.
  predicate Representable(ts: int) {
    IsInt64(ts) && IsInt64(GetDate(ts) * MICROS_PER_DAY)
  }

  /** Every 64-bit value but the infinities and the first, incomplete day. */
  lemma RepresentableRange(ts: int)
    ensures Representable(ts) <==> -106_751_991 * MICROS_PER_DAY <= ts < INT64_MAX
  {
    if IsInt64(ts) && IsFinite(ts) {
      GetDateIsFloor(ts);
    }
  }

  // ----- Conversions between integer widths -----

  function WrapInt32(x: int): int {
    (x - INT32_MIN) % 0x1_0000_0000 + INT32_MIN
  }

  function ToUint64(x: int): nat {
    x % 0x1_0000_0000_0000_0000
  }

  function ToInt64(x: int): int {
    (x - INT64_MIN) % 0x1_0000_0000_0000_0000 + INT64_MIN
  }

  lemma ThereAndBack(x: int)
    requires IsInt64(x)
    ensures ToInt64(ToUint64(x)) == x && (x >= 0 ==> ToUint64(x) == x) && (x < 0 ==> ToUint64(x) > INT64_MAX)
  {
  }

  // Small values survive unsigned arithmetic and the narrowing.
  lemma NarrowExact(x: int)
    requires IsInt32(x)
    ensures WrapInt32(ToUint64(x)) == x
  {
  }
}
