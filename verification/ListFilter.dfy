/** list_filter in batches: row boundaries are rebuilt by counters that survive from batch to batch. */
module ListFilter {
  import opened Characters
  import opened Selections
  import opened ListBatch
  import opened ListTransform

  // ----- The counters, over list lengths and flags -----

  // Where list r starts among all elements.
  function Start(lengths: seq<nat>, r: nat): nat
    requires r <= |lengths|
  {
    if r == 0 then 0 else Start(lengths, r - 1) + lengths[r - 1]
  }

  lemma {:induction false} StartGrows(lengths: seq<nat>, r: nat, n: nat)
    requires r < n <= |lengths|
    ensures Start(lengths, r) + lengths[r] <= Start(lengths, n)
    decreases n
  {
    if r < n - 1 {
      StartGrows(lengths, r, n - 1);
    }
  }

  lemma {:induction false} StartOfLonger(lengths: seq<nat>, more: seq<nat>, r: nat)
    requires r <= |lengths| <= |more| && more[..|lengths|] == lengths
    ensures Start(more, r) == Start(lengths, r)
  {
    if r > 0 {
      StartOfLonger(lengths, more, r - 1);
      assert more[r - 1] == more[..|lengths|][r - 1];
    }
  }

  // The entry of list r once the flags of all its elements are known.
  function Filtered(lengths: seq<nat>, flags: seq<bool>, r: nat): Entry
    requires r < |lengths|
  {
    var from := Start(lengths, r);
    CountToGrows(flags, from, from + lengths[r]);
    Entry(CountTo(flags, from), CountTo(flags, from + lengths[r]) - CountTo(flags, from))
  }

  lemma FilteredOfLonger(lengths: seq<nat>, flags: seq<bool>, more: seq<bool>, r: nat)
    requires r < |lengths| && Start(lengths, r) + lengths[r] <= |flags|
    ensures Filtered(lengths, flags + more, r) == Filtered(lengths, flags, r)
  {
    CountToOfLonger(flags, more, Start(lengths, r));
    CountToOfLonger(flags, more, Start(lengths, r) + lengths[r]);
  }

  // The counters after the elements with these flags: rowIdx lists are finished.
  ghost predicate Counts(lengths: seq<nat>, rowIdx: nat, srcLength: nat, offset: nat, length: nat, flags: seq<bool>) {
    && rowIdx <= |lengths| && Start(lengths, rowIdx) + srcLength == |flags|
    && (srcLength == 0 || (rowIdx < |lengths| && srcLength < lengths[rowIdx]))
    && offset == CountTo(flags, Start(lengths, rowIdx)) && offset + length == CountTo(flags, |flags|)
  }

  lemma CountsEmpty(lengths: seq<nat>, rowIdx: nat, srcLength: nat, offset: nat, length: nat, flags: seq<bool>)
    requires Counts(lengths, rowIdx, srcLength, offset, length, flags) && rowIdx < |lengths| && lengths[rowIdx] == 0
    ensures Counts(lengths, rowIdx + 1, srcLength, offset, length, flags)
    ensures Filtered(lengths, flags, rowIdx) == Entry(offset, 0)
  {
  }

  lemma CountsOne(lengths: seq<nat>, rowIdx: nat, srcLength: nat, offset: nat, length: nat, flags: seq<bool>,
                  flag: bool)
    requires Counts(lengths, rowIdx, srcLength, offset, length, flags) && rowIdx < |lengths| && lengths[rowIdx] > 0
    ensures var length' := length + if flag then 1 else 0;
            if lengths[rowIdx] == srcLength + 1 then
              && Counts(lengths, rowIdx + 1, 0, offset + length', 0, flags + [flag])
              && Filtered(lengths, flags + [flag], rowIdx) == Entry(offset, length')
            else
              Counts(lengths, rowIdx, srcLength + 1, offset, length', flags + [flag])
  {
    CountToOfLonger(flags, [flag], Start(lengths, rowIdx));
    CountToOfLonger(flags, [flag], |flags|);
  }

  lemma CountsLonger(lengths: seq<nat>, entryLength: nat, rowIdx: nat, srcLength: nat, offset: nat, length: nat,
                     flags: seq<bool>)
    requires Counts(lengths, rowIdx, srcLength, offset, length, flags)
    ensures Counts(lengths + [entryLength], rowIdx, srcLength, offset, length, flags)
  {
    StartOfLonger(lengths, lengths + [entryLength], rowIdx);
  }

  // The first n lists have their entries.
  ghost predicate Entered(lengths: seq<nat>, n: nat, flags: seq<bool>, entries: seq<Entry>) {
    && n <= |lengths| && n <= |entries| && Start(lengths, n) <= |flags|
    && forall r {:trigger entries[r]} :: 0 <= r < n ==> entries[r] == Filtered(lengths, flags, r)
  }

  lemma EnteredOfLonger(lengths: seq<nat>, n: nat, flags: seq<bool>, more: seq<bool>, entries: seq<Entry>)
    requires Entered(lengths, n, flags, entries)
    ensures Entered(lengths, n, flags + more, entries)
  {
    forall r {:trigger entries[r]} | 0 <= r < n ensures entries[r] == Filtered(lengths, flags + more, r) {
      StartGrows(lengths, r, n);
      FilteredOfLonger(lengths, flags, more, r);
    }
  }

  lemma FilteredOfMoreLists(lengths: seq<nat>, entryLength: nat, flags: seq<bool>, r: nat)
    requires r < |lengths|
    ensures Filtered(lengths + [entryLength], flags, r) == Filtered(lengths, flags, r)
  {
    StartOfLonger(lengths, lengths + [entryLength], r);
  }

  lemma EnteredOfMoreLists(lengths: seq<nat>, entryLength: nat, n: nat, flags: seq<bool>, entries: seq<Entry>)
    requires Entered(lengths, n, flags, entries)
    ensures Entered(lengths + [entryLength], n, flags, entries)
  {
    hide Filtered;
    StartOfLonger(lengths, lengths + [entryLength], n);
    forall r {:trigger entries[r]} | 0 <= r < n
      ensures entries[r] == Filtered(lengths + [entryLength], flags, r)
    {
      FilteredOfMoreLists(lengths, entryLength, flags, r);
    }
  }

  lemma EnteredOneMore(lengths: seq<nat>, n: nat, flags: seq<bool>, entries: seq<Entry>, entry: Entry)
    requires Entered(lengths, n, flags, entries) && n < |lengths| && n < |entries|
    requires Start(lengths, n) + lengths[n] <= |flags| && entry == Filtered(lengths, flags, n)
    ensures Entered(lengths, n + 1, flags, entries[n := entry])
  {
    hide Filtered;
  }

  class ListFilterInfo {
    var entryLengths: seq<nat>
    var length: nat
    var offset: nat
    var rowIdx: nat
    var srcLength: nat

    constructor (entries: array<Entry>)
      ensures Valid([], entries) && entryLengths == []
    {
      entryLengths, length, offset, rowIdx, srcLength := [], 0, 0, 0, 0;
    }

    ghost predicate Valid(flags: seq<bool>, entries: array<Entry>)
      reads this, entries
    {
      && |entryLengths| <= entries.Length
      && Counts(entryLengths, rowIdx, srcLength, offset, length, flags)
      && Entered(entryLengths, rowIdx, flags, entries[..])
    }

    // One more list.
    method Push(entryLength: nat, ghost flags: seq<bool>, entries: array<Entry>)
      requires Valid(flags, entries) && |entryLengths| < entries.Length
      modifies this`entryLengths
      ensures Valid(flags, entries) && entryLengths == old(entryLengths) + [entryLength]
    {
      CountsLonger(entryLengths, entryLength, rowIdx, srcLength, offset, length, flags);
      EnteredOfMoreLists(entryLengths, entryLength, rowIdx, flags, entries[..]);
      entryLengths := entryLengths + [entryLength];
    }

    method Enter(entry: Entry, entries: array<Entry>, ghost flags: seq<bool>)
      requires |entryLengths| <= entries.Length && rowIdx < |entryLengths|
      requires Entered(entryLengths, rowIdx, flags, entries[..])
      requires Start(entryLengths, rowIdx) + entryLengths[rowIdx] <= |flags| &&
               entry == Filtered(entryLengths, flags, rowIdx)
      modifies this`rowIdx, entries
      ensures rowIdx == old(rowIdx) + 1 && Entered(entryLengths, rowIdx, flags, entries[..])
    {
      EnteredOneMore(entryLengths, rowIdx, flags, entries[..], entry);
      ghost var before := entries[..];
      entries[rowIdx] := entry;
      assert entries[..] == before[rowIdx := entry];
      rowIdx := rowIdx + 1;
    }

    // Empty lists are entered without any element.
    method EnterEmptyLists(entries: array<Entry>, ghost flags: seq<bool>)
      requires Valid(flags, entries)
      modifies this`rowIdx, entries
      ensures Valid(flags, entries)
      ensures rowIdx < |entryLengths| ==> entryLengths[rowIdx] > 0
    {
      while rowIdx < |entryLengths| && entryLengths[rowIdx] == 0
        invariant Valid(flags, entries)
        decreases |entryLengths| - rowIdx
      {
        CountsEmpty(entryLengths, rowIdx, srcLength, offset, length, flags);
        Enter(Entry(offset, 0), entries, flags);
      }
    }

    // One element of the current list.
    method Take(flag: bool, entries: array<Entry>, ghost flags: seq<bool>)
      requires Valid(flags, entries) && rowIdx < |entryLengths| && entryLengths[rowIdx] > 0
      modifies this`length, this`offset, this`rowIdx, this`srcLength, entries
      ensures Valid(flags + [flag], entries)
    {
      hide CountTo, Entered;
      CountsOne(entryLengths, rowIdx, srcLength, offset, length, flags, flag);
      EnteredOfLonger(entryLengths, rowIdx, flags, [flag], entries[..]);
      if flag {
        length := length + 1;
      }
      srcLength := srcLength + 1;
      if entryLengths[rowIdx] == srcLength {
        Enter(Entry(offset, length), entries, flags + [flag]);
        offset := offset + length;
        length, srcLength := 0, 0;
      }
    }

    method TakeNext(flag: bool, entries: array<Entry>, ghost flags: seq<bool>)
      requires Valid(flags, entries) && |flags| < Start(entryLengths, |entryLengths|)
      modifies this`length, this`offset, this`rowIdx, this`srcLength, entries
      ensures Valid(flags + [flag], entries)
    {
      hide Entered;
      EnterEmptyLists(entries, flags);
      Take(flag, entries, flags);
    }

    /** One batch of lambda results: the entries of the lists that it finishes, and the selection vector
        of the elements it keeps. */
    method AppendResult(lambdaVector: seq<Option<bool>>, entries: array<Entry>, ghost flags: seq<bool>)
      returns (sel: seq<nat>)
      requires Valid(flags, entries) && |flags| + |lambdaVector| <= Start(entryLengths, |entryLengths|)
      modifies this`length, this`offset, this`rowIdx, this`srcLength, entries
      ensures Valid(flags + Flags(lambdaVector), entries)
      ensures sel == Indices(Flags(lambdaVector), 0)
      ensures rowIdx < |entryLengths| ==> entryLengths[rowIdx] > 0
    {
      hide Counts, Entered, Indices, Start;
      ghost var batch := Flags(lambdaVector);
      sel := [];
      assert flags + batch[..0] == flags;
      for i := 0 to |lambdaVector|
        invariant Valid(flags + batch[..i], entries)
        invariant sel + Indices(batch, i) == Indices(batch, 0)
      {
        var flag := lambdaVector[i] == Some(true);
        IndicesNext(batch, i, sel);
        if flag {
          sel := sel + [i];
        }
        TakeNext(flag, entries, flags + batch[..i]);
        assert flags + batch[..i + 1] == (flags + batch[..i]) + [flag];
      }
      assert batch[..|lambdaVector|] == batch;
      IndicesEnd(batch, sel);
      EnterEmptyLists(entries, flags + batch);
    }
  }

  // NULL counts as false.
  function Flags(lambdaVector: seq<Option<bool>>): (f: seq<bool>)
    ensures |f| == |lambdaVector|
    ensures forall i :: 0 <= i < |f| && lambdaVector[i].None? ==> !f[i]
  {
    seq(|lambdaVector|, i requires 0 <= i < |lambdaVector| => lambdaVector[i] == Some(true))
  }

  // ----- The loop over rows and elements -----

  // The flags of these elements.
  function FlagsOf<T, C>(input: Input<T, C>, lambda: Arguments<T, C> -> Option<bool>, ps: seq<Position>): (f: seq<bool>)
    requires input.Valid() && input.Fit(ps)
    ensures |f| == |ps|
  {
    Flags(Run(input, lambda, ps))
  }

  // What the filter keeps of these elements.
  function KeptOf<T, C>(input: Input<T, C>, lambda: Arguments<T, C> -> Option<bool>, ps: seq<Position>): seq<T>
    requires input.Valid() && input.Fit(ps)
  {
    Kept(input.Elements(ps), FlagsOf(input, lambda, ps))
  }

  lemma OneMoreBatch<T, C>(input: Input<T, C>, lambda: Arguments<T, C> -> Option<bool>, a: seq<Position>,
                           b: seq<Position>)
    requires input.Valid() && input.Fit(a) && input.Fit(b)
    ensures FlagsOf(input, lambda, a + b) == FlagsOf(input, lambda, a) + FlagsOf(input, lambda, b)
    ensures KeptOf(input, lambda, a + b) == KeptOf(input, lambda, a) + KeptOf(input, lambda, b)
  {
    assert FlagsOf(input, lambda, a + b) == FlagsOf(input, lambda, a) + FlagsOf(input, lambda, b);
    assert input.Elements(a + b) == input.Elements(a) + input.Elements(b);
    KeptAppend(input.Elements(a), FlagsOf(input, lambda, a), input.Elements(b), FlagsOf(input, lambda, b));
  }

  // The list lengths of the first n rows.
  function Lengths<T, C>(input: Input<T, C>, n: nat): (l: seq<nat>)
    requires n <= |input.rows|
    ensures |l| == n
  {
    seq(n, r requires 0 <= r < n => input.Length(r))
  }

  lemma {:induction false} StartIsOffset<T, C>(input: Input<T, C>, n: nat, r: nat)
    requires r <= n <= |input.rows|
    ensures Start(Lengths(input, n), r) == Offset(input, r)
    decreases r
  {
    if r > 0 {
      StartIsOffset(input, n, r - 1);
    }
  }

  // One batch is evaluated, and the kept elements appended to the result's child vector.
  method Flush<T, C>(info: LambdaExecuteInfo<T, C, Option<bool>>, filter: ListFilterInfo, entries: array<Entry>,
                     child: seq<T>, ghost done: seq<Position>)
    returns (child': seq<T>)
    requires info.Valid() && info.input.Fit(done) && child == KeptOf(info.input, info.lambda, done)
    requires filter.Valid(FlagsOf(info.input, info.lambda, done), entries)
    requires |done| + |info.pending| <= Start(filter.entryLengths, |filter.entryLengths|)
    modifies info, filter`length, filter`offset, filter`rowIdx, filter`srcLength, entries
    ensures info.Valid() && info.pending == []
    ensures info.input.Fit(done + old(info.pending)) &&
            child' == KeptOf(info.input, info.lambda, done + old(info.pending))
    ensures filter.Valid(FlagsOf(info.input, info.lambda, done + old(info.pending)), entries)
    ensures filter.rowIdx < |filter.entryLengths| ==> filter.entryLengths[filter.rowIdx] > 0
  {
    hide Counts, Entered, Kept;
    var lambdaVector := info.ExecuteExpression();
    var elements := info.Elements();
    OneMoreBatch(info.input, info.lambda, done, info.pending);
    ghost var flags := FlagsOf(info.input, info.lambda, info.pending);
    var sel := filter.AppendResult(lambdaVector, entries, FlagsOf(info.input, info.lambda, done));
    SliceIsKept(elements, flags, 0);
    assert elements[0..] == elements && flags[0..] == flags;
    child' := child + Slice(elements, sel);
    info.Clear();
  }

  // The elements of one row go into the batch, which is flushed whenever it is full.
  method AppendRow<T, C>(info: LambdaExecuteInfo<T, C, Option<bool>>, filter: ListFilterInfo, entries: array<Entry>,
                         row: nat, entry: Entry, child: seq<T>, ghost done: seq<Position>)
    returns (child': seq<T>, ghost done': seq<Position>)
    requires info.Valid() && row < |info.input.rows| && info.input.rows[row] == Some(entry)
    requires info.input.Fit(done) && child == KeptOf(info.input, info.lambda, done)
    requires done + info.pending == info.input.Positions(row)
    requires filter.Valid(FlagsOf(info.input, info.lambda, done), entries)
    requires filter.entryLengths == Lengths(info.input, row + 1)
    modifies info, info.childSel, info.rowSel, info.indexVector
    modifies filter`length, filter`offset, filter`rowIdx, filter`srcLength, entries
    ensures info.Valid() && done' + info.pending == info.input.Positions(row + 1)
    ensures info.input.Fit(done') && child' == KeptOf(info.input, info.lambda, done')
    ensures filter.Valid(FlagsOf(info.input, info.lambda, done'), entries)
  {
    hide Counts, Entered, Kept;
    child', done' := child, done;
    PositionsLength(info.input, row);
    StartIsOffset(info.input, row + 1, row + 1);
    for k := 0 to entry.length
      invariant info.Valid() && done' + info.pending == info.input.Positions(row) + info.input.RowPositions(row, k)
      invariant info.input.Fit(done') && child' == KeptOf(info.input, info.lambda, done')
      invariant filter.Valid(FlagsOf(info.input, info.lambda, done'), entries)
    {
      if info.elemCnt == info.childSel.Length {
        child' := Flush(info, filter, entries, child', done');
        done' := info.input.Positions(row) + info.input.RowPositions(row, k);
      }
      ghost var all := done' + info.pending;
      info.Set(Position(row, entry.offset + k, k + 1));
      NextPosition(info.input, row, k);
      assert done' + info.pending == all + [Position(row, entry.offset + k, k + 1)];
    }
  }

  lemma AllCounted(lengths: seq<nat>, rowIdx: nat, srcLength: nat, offset: nat, length: nat, flags: seq<bool>)
    requires Counts(lengths, rowIdx, srcLength, offset, length, flags) && |flags| == Start(lengths, |lengths|)
    requires rowIdx < |lengths| ==> lengths[rowIdx] > 0
    ensures rowIdx == |lengths|
  {
    if rowIdx < |lengths| {
      StartGrows(lengths, rowIdx, |lengths|);
    }
  }

  lemma NothingYet<T, C>(input: Input<T, C>, lambda: Arguments<T, C> -> Option<bool>)
    requires input.Valid()
    ensures FlagsOf(input, lambda, []) == [] && KeptOf(input, lambda, []) == []
  {
  }

  method ExecuteLambda<T, C>(input: Input<T, C>, lambda: Arguments<T, C> -> Option<bool>, vectorSize: nat,
                             entries: array<Entry>)
    returns (validity: seq<bool>, child: seq<T>)
    requires input.Valid() && vectorSize > 0 && entries.Length == |input.rows|
    modifies entries
    ensures |validity| == |input.rows|
    ensures forall r :: 0 <= r < |input.rows| ==> validity[r] == input.rows[r].Some?
    ensures child == KeptOf(input, lambda, input.Positions(|input.rows|))
    ensures Entered(Lengths(input, |input.rows|), |input.rows|,
            FlagsOf(input, lambda, input.Positions(|input.rows|)), entries[..])
  {
    hide Counts, Entered, KeptOf, FlagsOf;
    var info := new LambdaExecuteInfo(input, lambda, vectorSize);
    var filter := new ListFilterInfo(entries);
    ghost var done: seq<Position> := [];
    validity, child := [], [];
    NothingYet(input, lambda);
    for row := 0 to |input.rows|
      invariant info.Valid() && info.input == input && info.lambda == lambda && fresh(filter)
      invariant fresh(info) && fresh(info.childSel) && fresh(info.rowSel) && fresh(info.indexVector)
      invariant done + info.pending == input.Positions(row)
      invariant input.Fit(done) && child == KeptOf(input, lambda, done)
      invariant filter.Valid(FlagsOf(input, lambda, done), entries) && filter.entryLengths == Lengths(input, row)
      invariant |validity| == row && forall r :: 0 <= r < row ==> validity[r] == input.rows[r].Some?
    {
      filter.Push(input.Length(row), FlagsOf(input, lambda, done), entries);
      assert filter.entryLengths == Lengths(input, row + 1);
      validity := validity + [input.rows[row].Some?];
      if input.rows[row].None? {
        assert input.Positions(row + 1) == input.Positions(row);
        continue;
      }
      child, done := AppendRow(info, filter, entries, row, input.rows[row].value, child, done);
    }
    PositionsLength(input, |input.rows|);
    StartIsOffset(input, |input.rows|, |input.rows|);
    child := Flush(info, filter, entries, child, done);
    AllCounted(filter.entryLengths, filter.rowIdx, filter.srcLength, filter.offset, filter.length,
               FlagsOf(input, lambda, input.Positions(|input.rows|)));
  }

  // The filter on the list of one row, without any batch.
  function FilteredRow<T, C>(input: Input<T, C>, lambda: Arguments<T, C> -> Option<bool>, r: nat): seq<T>
    requires input.Valid() && r < |input.rows| && input.rows[r].Some?
  {
    var e := input.rows[r].value;
    Kept(input.child[e.offset..e.offset + e.length], Flags(Mapped(input, lambda, r)))
  }

  lemma FlagsOfRow<T, C>(input: Input<T, C>, lambda: Arguments<T, C> -> Option<bool>, r: nat)
    requires input.Valid() && r < |input.rows| && input.rows[r].Some?
    ensures var ps := input.Positions(|input.rows|);
            && Offset(input, r) + input.Length(r) <= |ps|
            && FlagsOf(input, lambda, ps)[Offset(input, r)..Offset(input, r) + input.Length(r)] ==
               Flags(Mapped(input, lambda, r))
  {
    SliceIsMapped(input, lambda, r);
    var values, from, till := Run(input, lambda, input.Positions(|input.rows|)), Offset(input, r),
      Offset(input, r) + input.Length(r);
    assert Flags(values)[from..till] == Flags(values[from..till]);
  }

  lemma ElementsSlice<T, C>(input: Input<T, C>, ps: seq<Position>, from: nat, e: Entry)
    requires input.Valid() && input.Fit(ps) && from + e.length <= |ps| && e.offset + e.length <= |input.child|
    requires forall j :: from <= j < from + e.length ==> ps[j].child == e.offset + (j - from)
    ensures input.Elements(ps)[from..from + e.length] == input.child[e.offset..e.offset + e.length]
  {
  }

  lemma ElementsOfRow<T, C>(input: Input<T, C>, r: nat)
    requires input.Valid() && r < |input.rows| && input.rows[r].Some?
    ensures var ps := input.Positions(|input.rows|);
            var e := input.rows[r].value;
            && Offset(input, r) + e.length <= |ps|
            && input.Elements(ps)[Offset(input, r)..Offset(input, r) + e.length] ==
               input.child[e.offset..e.offset + e.length]
  {
    var ps, e, from := input.Positions(|input.rows|), input.rows[r].value, Offset(input, r);
    RowWithin(input, r, |input.rows|);
    hide Offset;
    forall j | from <= j < from + e.length ensures ps[j].child == e.offset + (j - from) {
      RowElement(input, r, j - from);
    }
    ElementsSlice(input, ps, from, e);
  }

  lemma SliceIsFiltered<T, C>(input: Input<T, C>, lambda: Arguments<T, C> -> Option<bool>, r: nat, from: nat, till: nat)
    requires input.Valid() && r < |input.rows| && input.rows[r].Some?
    requires from == Offset(input, r) && till == from + input.Length(r)
    ensures var flags := FlagsOf(input, lambda, input.Positions(|input.rows|));
            && till <= |flags| && CountTo(flags, from) <= CountTo(flags, till) <=
               |KeptOf(input, lambda, input.Positions(|input.rows|))|
            && KeptOf(input, lambda, input.Positions(|input.rows|))[CountTo(flags, from)..CountTo(flags, till)] ==
               FilteredRow(input, lambda, r)
  {
    hide Offset, Kept, CountTo, Flags, Mapped;
    FlagsOfRow(input, lambda, r);
    ElementsOfRow(input, r);
    var ps := input.Positions(|input.rows|);
    KeptSlice(input.Elements(ps), FlagsOf(input, lambda, ps), from, till);
  }

  lemma EndToEnd(lengths: seq<nat>, flags: seq<bool>, r: nat)
    requires |flags| == Start(lengths, |lengths|) && r < |lengths|
    ensures Start(lengths, r) + lengths[r] <= |flags|
    ensures r == 0 ==> Filtered(lengths, flags, r).offset == 0
    ensures var e := Filtered(lengths, flags, r);
            if r + 1 < |lengths| then
              Start(lengths, r + 1) + lengths[r + 1] <= |flags| &&
                Filtered(lengths, flags, r + 1).offset == e.offset + e.length
            else e.offset + e.length == CountTo(flags, |flags|)
    ensures lengths[r] == 0 ==> Filtered(lengths, flags, r).length == 0
  {
    StartGrows(lengths, r, |lengths|);
    if r + 1 < |lengths| {
      StartGrows(lengths, r + 1, |lengths|);
    }
  }

  // What the result holds for row r.
  ghost predicate RowIsFiltered<T, C>(input: Input<T, C>, lambda: Arguments<T, C> -> Option<bool>,
                                      entries: seq<Entry>, child: seq<T>, r: nat)
    requires input.Valid() && r < |input.rows| == |entries|
  {
    var e := entries[r];
    && e.offset + e.length == (if r + 1 < |entries| then entries[r + 1].offset else |child|)
    && (r == 0 ==> e.offset == 0)
    && match input.rows[r]
       case None => e.length == 0
       case Some(_) =>
         e.offset + e.length <= |child| && KeepsTrue(input, lambda, r, child[e.offset..e.offset + e.length])
  }

  // The elements of row r for which the lambda is true, in order; one for which it is NULL is not among them.
  ghost predicate KeepsTrue<T, C>(input: Input<T, C>, lambda: Arguments<T, C> -> Option<bool>, r: nat, kept: seq<T>)
    requires input.Valid() && r < |input.rows| && input.rows[r].Some?
  {
    var captured := input.Captured(r);
    ColumnsOf(input, r, captured) && exists picked :: Picks(input, lambda, r, captured, kept, picked)
  }

  // The kept elements are those at the picked positions of the list, and a position is picked exactly when
  // the lambda is true on its element, its number and the row's columns.
  ghost predicate Picks<T, C>(input: Input<T, C>, lambda: Arguments<T, C> -> Option<bool>, r: nat, captured: seq<C>,
                              kept: seq<T>, picked: seq<nat>)
    requires input.Valid() && r < |input.rows| && input.rows[r].Some?
  {
    var list := input.rows[r].value;
    && (forall j, l :: 0 <= j < l < |picked| ==> picked[j] < picked[l])
    && (forall k: nat :: k in picked <==>
          && k < list.length
          && lambda(Arguments(if input.hasIndex then Some(k + 1) else None, input.child[list.offset + k],
                              captured)) == Some(true))
    && |kept| == |picked|
    && forall j :: 0 <= j < |kept| ==> picked[j] < list.length && kept[j] == input.child[list.offset + picked[j]]
  }

  lemma FilteredPicks<T, C>(input: Input<T, C>, lambda: Arguments<T, C> -> Option<bool>, r: nat)
    requires input.Valid() && r < |input.rows| && input.rows[r].Some?
    ensures KeepsTrue(input, lambda, r, FilteredRow(input, lambda, r))
  {
    var list := input.rows[r].value;
    var elements, flags := input.child[list.offset..list.offset + list.length], Flags(Mapped(input, lambda, r));
    var picked := Indices(flags, 0);
    SliceIsKept(elements, flags, 0);
    assert elements[0..] == elements && flags[0..] == flags;
    IndicesIncrease(flags, 0);
    hide Kept, Indices;
    forall k: nat
      ensures k in picked <==>
              && k < list.length
              && lambda(Arguments(if input.hasIndex then Some(k + 1) else None, input.child[list.offset + k],
                                  input.Captured(r))) == Some(true)
    {
      IndicesHold(flags, 0, k);
      assert k < list.length ==> (flags[k] <==> Mapped(input, lambda, r)[k] == Some(true));
    }
    CapturedColumns(input, r);
    assert Picks(input, lambda, r, input.Captured(r), Slice(elements, picked), picked);
  }

  lemma ResultOfRow<T, C>(input: Input<T, C>, lambda: Arguments<T, C> -> Option<bool>, entries: seq<Entry>, r: nat)
    requires input.Valid() && r < |input.rows| == |entries|
    requires Entered(Lengths(input, |entries|), |entries|, FlagsOf(input, lambda, input.Positions(|entries|)), entries)
    ensures RowIsFiltered(input, lambda, entries, KeptOf(input, lambda, input.Positions(|entries|)), r)
  {
    hide FlagsOf, Offset, FilteredRow, KeepsTrue, Start, CountTo;
    var n := |entries|;
    var lengths, flags := Lengths(input, n), FlagsOf(input, lambda, input.Positions(n));
    PositionsLength(input, n);
    StartIsOffset(input, n, n);
    StartIsOffset(input, n, r);
    EndToEnd(lengths, flags, r);
    CountToIsCount(flags, |flags|);
    assert flags[..|flags|] == flags;
    if input.rows[r].Some? {
      SliceIsFiltered(input, lambda, r, Offset(input, r), Offset(input, r) + input.Length(r));
      FilteredPicks(input, lambda, r);
    }
  }

  /** However large a batch is, the slice of every valid row is the filter of its own list; NULL and
      empty rows get empty slices, and the slices lie end to end and cover the result exactly. */
  method ListFilter<T, C>(input: Input<T, C>, lambda: Arguments<T, C> -> Option<bool>, vectorSize: nat,
                          entries: array<Entry>)
    returns (validity: seq<bool>, child: seq<T>)
    requires input.Valid() && vectorSize > 0 && entries.Length == |input.rows|
    modifies entries
    ensures |validity| == |input.rows|
    ensures forall r :: 0 <= r < |input.rows| ==> validity[r] == input.rows[r].Some?
    ensures forall r :: 0 <= r < |input.rows| ==> RowIsFiltered(input, lambda, entries[..], child, r)
  {
    validity, child := ExecuteLambda(input, lambda, vectorSize, entries);
    forall r | 0 <= r < |input.rows| ensures RowIsFiltered(input, lambda, entries[..], child, r) {
      ResultOfRow(input, lambda, entries[..], r);
    }
  }
}
