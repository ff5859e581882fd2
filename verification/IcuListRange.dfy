/** range and generate_series over timestamps: one pass counts the values of every row, a second pass
    computes them again into the child vector. */
module IcuListRange {
  import opened Characters
  import opened Timestamps
  import opened IcuDateAdd
  import opened ListBatch

  const UINT32_MAX := 0xFFFF_FFFF

  datatype Row = Row(start: Option<int>, end: Option<int>, increment: Option<Interval>) {
    predicate IsValid() {
      start.Some? && end.Some? && increment.Some?
    }
  }

  predicate IsPositive(i: Interval) {
    i.months > 0 || i.days > 0 || i.micros > 0
  }

  predicate IsNegative(i: Interval) {
    i.months < 0 || i.days < 0 || i.micros < 0
  }

  // The bound is not passed yet.
  predicate Within(value: int, end: int, negative: bool, inclusive: bool) {
    if negative then (if inclusive then value >= end else value > end)
    else (if inclusive then value <= end else value < end)
  }

  // The n-th value; the step may fail.
  function Nth(add: (int, Interval) -> Outcome<int>, start: int, i: Interval, n: nat): Outcome<int> {
    if n == 0 then Ok(start)
    else match Nth(add, start, i, n - 1)
         case Ok(v) => add(v, i)
         case e => e
  }

  // Counting on from a value with n values counted already.
  function Count(add: (int, Interval) -> Outcome<int>, value: int, end: int, i: Interval, inclusive: bool,
                 n: nat): Outcome<nat>
    requires n <= UINT32_MAX
    decreases UINT32_MAX - n
  {
    if !Within(value, end, IsNegative(i), inclusive) then Ok(n)
    else match add(value, i)
         case Ok(next) => if n + 1 > UINT32_MAX then InvalidInput else Count(add, next, end, i, inclusive, n + 1)
         case RangeError => RangeError
         case InvalidInput => InvalidInput
  }

  function Length(add: (int, Interval) -> Outcome<int>, start: int, end: int, i: Interval,
                  inclusive: bool): Outcome<nat> {
    if !IsNegative(i) && !IsPositive(i) then Ok(0)
    else if !IsFinite(start) || !IsFinite(end) || (IsNegative(i) && IsPositive(i)) then InvalidInput
    else if (start > end && IsPositive(i)) || (start < end && IsNegative(i)) then Ok(0)
    else Count(add, start, end, i, inclusive, 0)
  }

  function RowLength(add: (int, Interval) -> Outcome<int>, row: Row, inclusive: bool): Outcome<nat> {
    if row.IsValid() then Length(add, row.start.value, row.end.value, row.increment.value, inclusive) else Ok(0)
  }

  /** The first pass over one row. It ends, because it gives up past 2^32 - 1 values. */
  method ListLength(add: (int, Interval) -> Outcome<int>, start: int, end: int, i: Interval, inclusive: bool)
    returns (length: Outcome<nat>)
    ensures length == Length(add, start, end, i, inclusive)
  {
    var isPositive := i.months > 0 || i.days > 0 || i.micros > 0;
    var isNegative := i.months < 0 || i.days < 0 || i.micros < 0;
    if !isNegative && !isPositive {
      return Ok(0);
    }
    if !IsFinite(start) || !IsFinite(end) {
      return InvalidInput;
    }
    if isNegative && isPositive {
      return InvalidInput;
    }
    if start > end && isPositive {
      return Ok(0);
    }
    if start < end && isNegative {
      return Ok(0);
    }
    var totalValues: nat := 0;
    var value := start;
    if isNegative {
      while if inclusive then value >= end else value > end
        invariant totalValues <= UINT32_MAX
        invariant Count(add, value, end, i, inclusive, totalValues) == Count(add, start, end, i, inclusive, 0)
        decreases UINT32_MAX - totalValues
      {
        var next := add(value, i);
        if !next.Ok? {
          return if next.RangeError? then RangeError else InvalidInput;
        }
        value := next.value;
        totalValues := totalValues + 1;
        if totalValues > UINT32_MAX {
          return InvalidInput;
        }
      }
    } else {
      while if inclusive then value <= end else value < end
        invariant totalValues <= UINT32_MAX
        invariant Count(add, value, end, i, inclusive, totalValues) == Count(add, start, end, i, inclusive, 0)
        decreases UINT32_MAX - totalValues
      {
        var next := add(value, i);
        if !next.Ok? {
          return if next.RangeError? then RangeError else InvalidInput;
        }
        value := next.value;
        totalValues := totalValues + 1;
        if totalValues > UINT32_MAX {
          return InvalidInput;
        }
      }
    }
    return Ok(totalValues);
  }

  // The first n values exist and keep the bound.
  ghost predicate AllWithin(add: (int, Interval) -> Outcome<int>, start: int, end: int, i: Interval, inclusive: bool,
                            n: nat) {
    forall k :: 0 <= k < n ==>
      Nth(add, start, i, k).Ok? && Within(Nth(add, start, i, k).value, end, IsNegative(i), inclusive)
  }

  lemma {:induction false} CountCharacterised(add: (int, Interval) -> Outcome<int>, start: int, end: int, i: Interval,
                                              inclusive: bool, n: nat, m: nat)
    requires n <= UINT32_MAX && AllWithin(add, start, end, i, inclusive, n) && Nth(add, start, i, n).Ok?
    ensures Count(add, Nth(add, start, i, n).value, end, i, inclusive, n) == Ok(m) <==>
            && n <= m <= UINT32_MAX && AllWithin(add, start, end, i, inclusive, m) && Nth(add, start, i, m).Ok?
            && !Within(Nth(add, start, i, m).value, end, IsNegative(i), inclusive)
    decreases UINT32_MAX - n
  {
    var value := Nth(add, start, i, n).value;
    if Within(value, end, IsNegative(i), inclusive) {
      assert AllWithin(add, start, end, i, inclusive, n + 1);
      assert Nth(add, start, i, n + 1) == add(value, i);
      if add(value, i).Ok? && n < UINT32_MAX {
        CountCharacterised(add, start, end, i, inclusive, n + 1, m);
      }
    }
  }

  lemma CountedFromStart(add: (int, Interval) -> Outcome<int>, start: int, end: int, i: Interval, inclusive: bool,
                         m: nat)
    ensures Length(add, start, end, i, inclusive) == Ok(m) <==>
            if !IsNegative(i) && !IsPositive(i) then m == 0
            else
              && IsFinite(start) && IsFinite(end) && !(IsNegative(i) && IsPositive(i))
              && m <= UINT32_MAX && AllWithin(add, start, end, i, inclusive, m) && Nth(add, start, i, m).Ok?
              && !Within(Nth(add, start, i, m).value, end, IsNegative(i), inclusive)
  {
    CountCharacterised(add, start, end, i, inclusive, 0, m);
    if m > 0 {
      assert AllWithin(add, start, end, i, inclusive, m) ==>
        Nth(add, start, i, 0).Ok? && Within(Nth(add, start, i, 0).value, end, IsNegative(i), inclusive);
    }
  }

  // The first n values exist; they do not exceed the bound; they do not fall below it.
  ghost predicate Exist(add: (int, Interval) -> Outcome<int>, start: int, i: Interval, n: nat) {
    forall k :: 0 <= k < n ==> Nth(add, start, i, k).Ok?
  }

  ghost predicate UpTo(add: (int, Interval) -> Outcome<int>, start: int, end: int, i: Interval, inclusive: bool, n: nat)
    requires Exist(add, start, i, n)
  {
    forall k :: 0 <= k < n ==>
      if inclusive then Nth(add, start, i, k).value <= end else Nth(add, start, i, k).value < end
  }

  ghost predicate DownTo(add: (int, Interval) -> Outcome<int>, start: int, end: int, i: Interval, inclusive: bool,
                         n: nat)
    requires Exist(add, start, i, n)
  {
    forall k :: 0 <= k < n ==>
      if inclusive then Nth(add, start, i, k).value >= end else Nth(add, start, i, k).value > end
  }

  lemma {:induction false} WithinWrittenOut(add: (int, Interval) -> Outcome<int>, start: int, end: int, i: Interval,
                                            inclusive: bool, n: nat)
    ensures AllWithin(add, start, end, i, inclusive, n) <==>
            Exist(add, start, i, n) &&
            if IsNegative(i) then DownTo(add, start, end, i, inclusive, n) else UpTo(add, start, end, i, inclusive, n)
  {
    if n > 0 {
      WithinWrittenOut(add, start, end, i, inclusive, n - 1);
      hide Nth;
      var last := Nth(add, start, i, n - 1);
      assert AllWithin(add, start, end, i, inclusive, n) <==>
        AllWithin(add, start, end, i, inclusive, n - 1) &&
        last.Ok? && Within(last.value, end, IsNegative(i), inclusive);
      assert Exist(add, start, i, n) <==> Exist(add, start, i, n - 1) && last.Ok?;
    }
  }

  /** A row has m values exactly when the first m values exist and keep the bound and the next one exists
      and breaks it: up to the end for a step forward, down to it for a step back, and the end itself
      counts when the range is inclusive. A zero interval has none; mixed signs and infinite bounds are
      refused. */
  lemma LengthCharacterised(add: (int, Interval) -> Outcome<int>, start: int, end: int, i: Interval, inclusive: bool,
                            m: nat)
    ensures i.months == i.days == i.micros == 0 ==> Length(add, start, end, i, inclusive) == Ok(0)
    ensures i.months >= 0 && i.days >= 0 && i.micros >= 0 && (i.months > 0 || i.days > 0 || i.micros > 0) ==>
              (Length(add, start, end, i, inclusive) == Ok(m) <==>
                && IsFinite(start) && IsFinite(end) && m <= UINT32_MAX
                && Exist(add, start, i, m) && UpTo(add, start, end, i, inclusive, m)
                && Nth(add, start, i, m).Ok?
                && if inclusive then Nth(add, start, i, m).value > end else Nth(add, start, i, m).value >= end)
    ensures i.months <= 0 && i.days <= 0 && i.micros <= 0 && (i.months < 0 || i.days < 0 || i.micros < 0) ==>
              (Length(add, start, end, i, inclusive) == Ok(m) <==>
                && IsFinite(start) && IsFinite(end) && m <= UINT32_MAX
                && Exist(add, start, i, m) && DownTo(add, start, end, i, inclusive, m)
                && Nth(add, start, i, m).Ok?
                && if inclusive then Nth(add, start, i, m).value < end else Nth(add, start, i, m).value <= end)
    ensures (i.months > 0 || i.days > 0 || i.micros > 0) && (i.months < 0 || i.days < 0 || i.micros < 0) ==>
              Length(add, start, end, i, inclusive) == InvalidInput
  {
    CountedFromStart(add, start, end, i, inclusive, m);
    WithinWrittenOut(add, start, end, i, inclusive, m);
    hide Nth, AllWithin, Exist, UpTo, DownTo, Count;
  }

  lemma {:induction false} ValuesExist(add: (int, Interval) -> Outcome<int>, row: Row, inclusive: bool, k: nat)
    requires row.IsValid() && RowLength(add, row, inclusive).Ok? && k < RowLength(add, row, inclusive).value
    ensures Nth(add, row.start.value, row.increment.value, k).Ok?
  {
    CountedFromStart(add, row.start.value, row.end.value, row.increment.value, inclusive,
      RowLength(add, row, inclusive).value);
  }

  // Where row r starts in the child vector, when no row fails.
  function Offset(add: (int, Interval) -> Outcome<int>, rows: seq<Row>, inclusive: bool, r: nat): nat
    requires r <= |rows|
  {
    if r == 0 then 0
    else
      var length := RowLength(add, rows[r - 1], inclusive);
      Offset(add, rows, inclusive, r - 1) + if length.Ok? then length.value else 0
  }

  ghost predicate Measured(add: (int, Interval) -> Outcome<int>, rows: seq<Row>, inclusive: bool, n: nat,
                           entries: seq<Entry>)
    requires n <= |rows|
  {
    && |entries| == |rows|
    && (forall j :: 0 <= j < n ==> RowLength(add, rows[j], inclusive).Ok?)
    && forall j {:trigger entries[j]} :: 0 <= j < n ==>
         entries[j] == Entry(Offset(add, rows, inclusive, j), RowLength(add, rows[j], inclusive).value)
  }

  // The first pass: it fails when one row fails.
  method MeasureRows(add: (int, Interval) -> Outcome<int>, rows: seq<Row>, inclusive: bool, listData: array<Entry>)
    returns (totalSize: Outcome<nat>, validity: seq<bool>)
    requires listData.Length == |rows|
    modifies listData
    ensures totalSize.Ok? <==> forall j :: 0 <= j < |rows| ==> RowLength(add, rows[j], inclusive).Ok?
    ensures totalSize.Ok? ==>
              && Measured(add, rows, inclusive, |rows|, listData[..])
              && totalSize.value == Offset(add, rows, inclusive, |rows|)
              && |validity| == |rows| && forall j :: 0 <= j < |rows| ==> validity[j] == rows[j].IsValid()
  {
    var total: nat := 0;
    validity := [];
    for r := 0 to |rows|
      invariant Measured(add, rows, inclusive, r, listData[..]) && total == Offset(add, rows, inclusive, r)
      invariant |validity| == r && forall j :: 0 <= j < r ==> validity[j] == rows[j].IsValid()
    {
      if !rows[r].IsValid() {
        validity := validity + [false];
        listData[r] := Entry(total, 0);
      } else {
        validity := validity + [true];
        var length := ListLength(add, rows[r].start.value, rows[r].end.value, rows[r].increment.value, inclusive);
        if !length.Ok? {
          assert !RowLength(add, rows[r], inclusive).Ok?;
          return if length.RangeError? then RangeError else InvalidInput, validity;
        }
        listData[r] := Entry(total, length.value);
        total := total + length.value;
      }
    }
    return Ok(total), validity;
  }

  predicate IsNth(add: (int, Interval) -> Outcome<int>, row: Row, k: nat, value: int) {
    row.IsValid() && Nth(add, row.start.value, row.increment.value, k) == Ok(value)
  }

  // The first n values of the row are in place.
  ghost predicate Filled(add: (int, Interval) -> Outcome<int>, row: Row, from: nat, n: nat, child: seq<int>) {
    from + n <= |child| && forall j :: from <= j < from + n ==> IsNth(add, row, j - from, child[j])
  }

  // The second pass over one row; no step fails that the first pass has taken.
  method FillRow(add: (int, Interval) -> Outcome<int>, row: Row, inclusive: bool, from: nat, length: nat,
                 rangeData: array<int>)
    requires RowLength(add, row, inclusive) == Ok(length) && from + length <= rangeData.Length
    modifies rangeData
    ensures Filled(add, row, from, length, rangeData[..])
    ensures forall j :: 0 <= j < rangeData.Length && !(from <= j < from + length) ==> rangeData[j] == old(rangeData[j])
  {
    if length == 0 {
      return;
    }
    var value, increment := row.start.value, row.increment.value;
    for k := 0 to length
      invariant k > 0 ==> Nth(add, row.start.value, increment, k - 1) == Ok(value)
      invariant k == 0 ==> value == row.start.value
      invariant Filled(add, row, from, k, rangeData[..])
      invariant forall j :: 0 <= j < rangeData.Length && !(from <= j < from + k) ==> rangeData[j] == old(rangeData[j])
    {
      ValuesExist(add, row, inclusive, k);
      if k > 0 {
        value := add(value, increment).value;
      }
      rangeData[from + k] := value;
    }
  }

  lemma {:induction false} OffsetGrows(add: (int, Interval) -> Outcome<int>, rows: seq<Row>, inclusive: bool, r: nat,
                                       n: nat)
    requires r < n <= |rows|
    ensures Offset(add, rows, inclusive, r) <= Offset(add, rows, inclusive, r + 1) <= Offset(add, rows, inclusive, n)
    decreases n
  {
    if r < n - 1 {
      OffsetGrows(add, rows, inclusive, r, n - 1);
    }
  }

  lemma MeasuredAt(add: (int, Interval) -> Outcome<int>, rows: seq<Row>, inclusive: bool, r: nat, entries: seq<Entry>)
    requires r < |rows| && Measured(add, rows, inclusive, |rows|, entries)
    ensures RowLength(add, rows[r], inclusive) == Ok(entries[r].length)
    ensures entries[r].offset == Offset(add, rows, inclusive, r)
    ensures Offset(add, rows, inclusive, r + 1) == Offset(add, rows, inclusive, r) + entries[r].length
  {
  }

  // The values of the first n rows are in place.
  ghost predicate AllFilled(add: (int, Interval) -> Outcome<int>, rows: seq<Row>, n: nat, entries: seq<Entry>,
                            child: seq<int>)
    requires n <= |rows| == |entries|
  {
    forall j {:trigger entries[j]} :: 0 <= j < n ==> Filled(add, rows[j], entries[j].offset, entries[j].length, child)
  }

  lemma FilledAlike(add: (int, Interval) -> Outcome<int>, row: Row, from: nat, n: nat, child: seq<int>, more: seq<int>)
    requires Filled(add, row, from, n, child) && |child| == |more|
    requires forall j :: 0 <= j < from + n ==> more[j] == child[j]
    ensures Filled(add, row, from, n, more)
  {
  }

  lemma NothingFilled(add: (int, Interval) -> Outcome<int>, rows: seq<Row>, entries: seq<Entry>, child: seq<int>)
    requires |rows| == |entries|
    ensures AllFilled(add, rows, 0, entries, child)
  {
  }

  // Later rows leave the values of an earlier one alone.
  lemma RowStillFilled(add: (int, Interval) -> Outcome<int>, rows: seq<Row>, inclusive: bool, n: nat, j: nat,
                       entries: seq<Entry>, child: seq<int>, more: seq<int>)
    requires j < n < |rows| && Measured(add, rows, inclusive, |rows|, entries) && |child| == |more|
    requires Filled(add, rows[j], entries[j].offset, entries[j].length, child)
    requires forall l :: 0 <= l < Offset(add, rows, inclusive, n) && l < |more| ==> more[l] == child[l]
    ensures Filled(add, rows[j], entries[j].offset, entries[j].length, more)
  {
    MeasuredAt(add, rows, inclusive, j, entries);
    OffsetGrows(add, rows, inclusive, j, n);
    hide Offset, RowLength, Measured;
    FilledAlike(add, rows[j], entries[j].offset, entries[j].length, child, more);
  }

  lemma OneMoreFilled(add: (int, Interval) -> Outcome<int>, rows: seq<Row>, n: nat, entries: seq<Entry>,
                      child: seq<int>)
    requires n < |rows| == |entries| && AllFilled(add, rows, n, entries, child)
    requires Filled(add, rows[n], entries[n].offset, entries[n].length, child)
    ensures AllFilled(add, rows, n + 1, entries, child)
  {
  }

  lemma {:induction false} StillFilled(add: (int, Interval) -> Outcome<int>, rows: seq<Row>, inclusive: bool, n: nat,
                                       m: nat, entries: seq<Entry>, child: seq<int>, more: seq<int>)
    requires m <= n < |rows| && Measured(add, rows, inclusive, |rows|, entries) && |child| == |more|
    requires AllFilled(add, rows, n, entries, child)
    requires forall l :: 0 <= l < Offset(add, rows, inclusive, n) && l < |more| ==> more[l] == child[l]
    ensures AllFilled(add, rows, m, entries, more)
  {
    if m > 0 {
      StillFilled(add, rows, inclusive, n, m - 1, entries, child, more);
      assert Filled(add, rows[m - 1], entries[m - 1].offset, entries[m - 1].length, child);
      hide AllFilled, Filled, Offset;
      RowStillFilled(add, rows, inclusive, n, m - 1, entries, child, more);
      OneMoreFilled(add, rows, m - 1, entries, more);
    }
  }

  method AppendRow(add: (int, Interval) -> Outcome<int>, rows: seq<Row>, inclusive: bool, r: nat, totalIdx: nat,
                   length: nat, rangeData: array<int>, ghost entries: seq<Entry>)
    returns (next: nat)
    requires r < |rows| && Measured(add, rows, inclusive, |rows|, entries) && length == entries[r].length
    requires totalIdx == Offset(add, rows, inclusive, r) && rangeData.Length == Offset(add, rows, inclusive, |rows|)
    requires AllFilled(add, rows, r, entries, rangeData[..])
    modifies rangeData
    ensures next == Offset(add, rows, inclusive, r + 1) && AllFilled(add, rows, r + 1, entries, rangeData[..])
  {
    OffsetGrows(add, rows, inclusive, r, |rows|);
    MeasuredAt(add, rows, inclusive, r, entries);
    ghost var before := rangeData[..];
    hide Offset, RowLength, Measured, Filled, AllFilled;
    FillRow(add, rows[r], inclusive, totalIdx, length, rangeData);
    next := totalIdx + length;
    StillFilled(add, rows, inclusive, r, r, entries, before, rangeData[..]);
    OneMoreFilled(add, rows, r, entries, rangeData[..]);
  }

  // The second pass.
  method FillRows(add: (int, Interval) -> Outcome<int>, rows: seq<Row>, inclusive: bool, listData: array<Entry>,
                  rangeData: array<int>)
    requires Measured(add, rows, inclusive, |rows|, listData[..]) &&
             rangeData.Length == Offset(add, rows, inclusive, |rows|)
    modifies rangeData
    ensures listData[..] == old(listData[..]) && |listData[..]| == |rows|
    ensures AllFilled(add, rows, |rows|, listData[..], rangeData[..])
  {
    assert Offset(add, rows, inclusive, 0) == 0;
    ghost var entries := listData[..];
    NothingFilled(add, rows, entries, rangeData[..]);
    hide Offset, RowLength, Measured, Filled, AllFilled;
    var totalIdx: nat := 0;
    for r := 0 to |rows|
      invariant totalIdx == Offset(add, rows, inclusive, r) && listData[..] == entries
      invariant AllFilled(add, rows, r, entries, rangeData[..])
    {
      totalIdx := AppendRow(add, rows, inclusive, r, totalIdx, listData[r].length, rangeData, entries);
    }
  }

  /** Both passes. If no row fails, row r is start, start + increment, and so on, as many values as the
      first pass counted, and the rows lie end to end and fill the child vector exactly. */
  method ListRange(add: (int, Interval) -> Outcome<int>, rows: seq<Row>, inclusive: bool, listData: array<Entry>)
    returns (result: Outcome<seq<int>>, validity: seq<bool>)
    requires listData.Length == |rows|
    modifies listData
    ensures result.Ok? <==> forall j :: 0 <= j < |rows| ==> RowLength(add, rows[j], inclusive).Ok?
    ensures result.Ok? ==>
              && Measured(add, rows, inclusive, |rows|, listData[..])
              && |result.value| == Offset(add, rows, inclusive, |rows|)
              && |validity| == |rows| && (forall j :: 0 <= j < |rows| ==> validity[j] == rows[j].IsValid())
              && AllFilled(add, rows, |rows|, listData[..], result.value)
              && forall j :: 0 <= j < |rows| && !rows[j].IsValid() ==> listData[j].length == 0
  {
    var totalSize: Outcome<nat>;
    totalSize, validity := MeasureRows(add, rows, inclusive, listData);
    if !totalSize.Ok? {
      return if totalSize.RangeError? then RangeError else InvalidInput, validity;
    }
    var rangeData := new int[totalSize.value];
    FillRows(add, rows, inclusive, listData, rangeData);
    return Ok(rangeData[..]), validity;
  }

  // ----- With the calendar's addition as the step -----

  function AddWith(addMonths: (int, int) -> int): (int, Interval) -> Outcome<int> {
    (ts: int, i: Interval) => if IsFinite(ts) then Added(addMonths, ts, i) else Ok(ts)
  }

  /** For intervals without months the values are evenly spaced, across the epoch too. */
  lemma {:induction false} EvenlySpaced(addMonths: (int, int) -> int, start: int, i: Interval, n: nat)
    requires IsInt64(start) && IsFinite(start) && IsInterval(i) && i.months == 0
    requires Nth(AddWith(addMonths), start, i, n).Ok?
    ensures var v := Nth(AddWith(addMonths), start, i, n).value;
            v == start + n * Total(i) && IsInt64(v) && IsFinite(v)
  {
    if n > 0 {
      EvenlySpaced(addMonths, start, i, n - 1);
      var before := Nth(AddWith(addMonths), start, i, n - 1).value;
      AddIsExact(addMonths, before, i);
      RepresentableRange(before + Total(i));
      assert n * Total(i) == (n - 1) * Total(i) + Total(i);
    }
  }

  // How many multiples of a step fit in a distance, the distance itself counted when it is one.
  function Steps(distance: int, step: int, inclusive: bool): nat
    requires step > 0
  {
    if distance < 0 then 0
    else distance / step + (if inclusive || distance % step > 0 then 1 else 0)
  }

  lemma StepsExactly(distance: int, step: int, inclusive: bool, m: nat)
    requires step > 0
    requires m > 0 ==> if inclusive then (m - 1) * step <= distance else (m - 1) * step < distance
    requires if inclusive then m * step > distance else m * step >= distance
    ensures m == Steps(distance, step, inclusive)
  {
    if distance >= 0 {
      var q, r := distance / step, distance % step;
      assert distance == q * step + r && 0 <= r < step;
      var n := Steps(distance, step, inclusive);
      if m < n {
        assert m <= n - 1;
        MultiplyMonotone(m, n - 1, step);
      } else if m > n {
        assert m - 1 >= n;
        MultiplyMonotone(n, m - 1, step);
      }
      assert (q + 1) * step == q * step + step;
    } else if m > 0 {
      MultiplyMonotone(0, m - 1, step);
    }
  }

  lemma MultiplyMonotone(a: int, b: int, c: int)
    requires a <= b && c > 0
    ensures a * c <= b * c
  {
  }

  // What is between start and end in the direction of the interval, and one step of it.
  function Distance(start: int, end: int, i: Interval): int {
    if i.days < 0 || i.micros < 0 then start - end else end - start
  }

  function Stride(i: Interval): int {
    if i.days < 0 || i.micros < 0 then -(i.days * MICROS_PER_DAY + i.micros) else i.days * MICROS_PER_DAY + i.micros
  }

  /** Then the length is how often the step fits in the distance between the bounds ... */
  lemma EvenLength(addMonths: (int, int) -> int, start: int, end: int, i: Interval, inclusive: bool, m: nat)
    requires IsInt64(start) && IsInterval(i) && i.months == 0 && (i.days != 0 || i.micros != 0)
    requires Length(AddWith(addMonths), start, end, i, inclusive) == Ok(m)
    ensures Stride(i) > 0 && m == Steps(Distance(start, end, i), Stride(i), inclusive)
  {
    var add, step := AddWith(addMonths), Stride(i);
    LengthCharacterised(add, start, end, i, inclusive, m);
    hide Nth, Length, AddWith;
    EvenlySpaced(addMonths, start, i, m);
    if m > 0 {
      assert Nth(add, start, i, m - 1).Ok?;
      EvenlySpaced(addMonths, start, i, m - 1);
      assert if i.days < 0 || i.micros < 0 then DownTo(add, start, end, i, inclusive, m)
             else UpTo(add, start, end, i, inclusive, m);
    }
    if i.days < 0 || i.micros < 0 {
      assert m * Total(i) == -(m * step) && (m - 1) * Total(i) == -((m - 1) * step);
    }
    StepsExactly(Distance(start, end, i), step, inclusive, m);
  }

  /** ... and an inclusive range has one value more than the exclusive one exactly when the end is reached. */
  lemma InclusiveHasTheEnd(addMonths: (int, int) -> int, start: int, end: int, i: Interval, m: nat, n: nat)
    requires IsInt64(start) && IsInterval(i) && i.months == 0 && (i.days != 0 || i.micros != 0)
    requires Length(AddWith(addMonths), start, end, i, true) == Ok(m)
    requires Length(AddWith(addMonths), start, end, i, false) == Ok(n)
    ensures Stride(i) > 0
    ensures m == n + if Distance(start, end, i) >= 0 && Distance(start, end, i) % Stride(i) == 0 then 1 else 0
  {
    EvenLength(addMonths, start, end, i, true, m);
    EvenLength(addMonths, start, end, i, false, n);
  }
}
