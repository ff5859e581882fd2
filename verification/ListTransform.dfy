/** list_transform in batches gives every row the lambda's values on its own elements. */
module ListTransform {
  import opened Characters
  import opened ListBatch

  // Where row r starts in the result: NULL rows take no room.
  function Offset<T, C>(input: Input<T, C>, r: nat): nat
    requires r <= |input.rows|
  {
    if r == 0 then 0 else Offset(input, r - 1) + input.Length(r - 1)
  }

  lemma FirstOffset<T, C>(input: Input<T, C>)
    ensures Offset(input, 0) == 0
  {
  }

  lemma NextOffset<T, C>(input: Input<T, C>, r: nat)
    requires r < |input.rows|
    ensures Offset(input, r + 1) == Offset(input, r) + input.Length(r)
  {
  }

  lemma {:induction false} PositionsLength<T, C>(input: Input<T, C>, n: nat)
    requires input.Valid() && n <= |input.rows|
    ensures |input.Positions(n)| == Offset(input, n)
  {
    if n > 0 {
      PositionsLength(input, n - 1);
    }
  }

  lemma {:induction false} OffsetGrows<T, C>(input: Input<T, C>, r: nat, n: nat)
    requires r < n <= |input.rows|
    ensures Offset(input, r) + input.Length(r) <= Offset(input, n)
    decreases n
  {
    if r < n - 1 {
      OffsetGrows(input, r, n - 1);
    }
  }

  // The elements of row r within all elements.
  lemma {:induction false} RowWithin<T, C>(input: Input<T, C>, r: nat, n: nat)
    requires input.Valid() && r < n <= |input.rows|
    ensures Offset(input, r) + input.Length(r) <= |input.Positions(n)|
    ensures input.Positions(n)[Offset(input, r)..Offset(input, r) + input.Length(r)] ==
            input.RowPositions(r, input.Length(r))
    decreases n
  {
    PositionsLength(input, n);
    PositionsLength(input, n - 1);
    if r < n - 1 {
      RowWithin(input, r, n - 1);
      var from, till := Offset(input, r), Offset(input, r) + input.Length(r);
      assert input.Positions(n)[from..till] == input.Positions(n - 1)[from..till];
    } else {
      assert input.Positions(n) == input.Positions(r) + input.RowPositions(r, input.Length(r));
      assert input.Positions(n)[|input.Positions(r)|..] == input.RowPositions(r, input.Length(r));
    }
  }

  // The k-th element of row r within all elements.
  lemma RowElement<T, C>(input: Input<T, C>, r: nat, k: nat)
    requires input.Valid() && r < |input.rows| && input.rows[r].Some? && k < input.rows[r].value.length
    ensures Offset(input, r) + k < |input.Positions(|input.rows|)|
    ensures input.Positions(|input.rows|)[Offset(input, r) + k] == Position(r, input.rows[r].value.offset + k, k + 1)
  {
    RowWithin(input, r, |input.rows|);
    assert input.Positions(|input.rows|)[Offset(input, r)..Offset(input, r) + input.Length(r)][k] ==
           input.RowPositions(r, input.Length(r))[k];
  }

  // The lambda on the elements of one row, without any batch.
  function Mapped<T, C, U>(input: Input<T, C>, lambda: Arguments<T, C> -> U, r: nat): (values: seq<U>)
    requires input.Valid() && r < |input.rows| && input.rows[r].Some?
    ensures |values| == input.rows[r].value.length
  {
    var e := input.rows[r].value;
    seq(e.length, k requires 0 <= k < e.length =>
      lambda(Arguments(if input.hasIndex then Some(k + 1) else None, input.child[e.offset + k], input.Captured(r))))
  }

  lemma MappedAt<T, C, U>(input: Input<T, C>, lambda: Arguments<T, C> -> U, r: nat, k: nat)
    requires input.Valid() && r < |input.rows| && input.rows[r].Some? && k < input.rows[r].value.length
    ensures Offset(input, r) + k < |input.Positions(|input.rows|)|
    ensures Run(input, lambda, input.Positions(|input.rows|))[Offset(input, r) + k] == Mapped(input, lambda, r)[k]
  {
    RowElement(input, r, k);
    hide Offset;
    var ps, j := input.Positions(|input.rows|), Offset(input, r) + k;
    assert Run(input, lambda, ps)[j] == lambda(input.At(ps[j]));
  }

  lemma SliceIsMapped<T, C, U>(input: Input<T, C>, lambda: Arguments<T, C> -> U, r: nat)
    requires input.Valid() && r < |input.rows| && input.rows[r].Some?
    ensures Offset(input, r) + input.Length(r) <= |Run(input, lambda, input.Positions(|input.rows|))|
    ensures Run(input, lambda, input.Positions(|input.rows|))[Offset(input, r)..Offset(input, r) + input.Length(r)] ==
            Mapped(input, lambda, r)
  {
    RowWithin(input, r, |input.rows|);
    hide Offset, Run, Mapped;
    var from, values, mapped := Offset(input, r), Run(input, lambda, input.Positions(|input.rows|)),
      Mapped(input, lambda, r);
    forall j | from <= j < from + |mapped| ensures values[j] == mapped[j - from] {
      MappedAt(input, lambda, r, j - from);
    }
  }

  lemma RunAppend<T, C, U>(input: Input<T, C>, lambda: Arguments<T, C> -> U, a: seq<Position>, b: seq<Position>)
    requires input.Valid() && input.Fit(a) && input.Fit(b)
    ensures Run(input, lambda, a + b) == Run(input, lambda, a) + Run(input, lambda, b)
  {
  }

  // One more element of the row.
  lemma NextPosition<T, C>(input: Input<T, C>, row: nat, k: nat)
    requires input.Valid() && row < |input.rows| && input.rows[row].Some? && k < input.rows[row].value.length
    ensures var p := Position(row, input.rows[row].value.offset + k, k + 1);
            && input.InRange(p)
            && input.Positions(row) + input.RowPositions(row, k + 1) ==
               input.Positions(row) + input.RowPositions(row, k) + [p]
  {
    var p := Position(row, input.rows[row].value.offset + k, k + 1);
    assert input.RowPositions(row, k + 1) == input.RowPositions(row, k) + [p];
    assert input.RowPositions(row, k + 1)[k] == p;
  }

  lemma NothingYet<T, C, U>(input: Input<T, C>, lambda: Arguments<T, C> -> U)
    requires input.Valid()
    ensures Run(input, lambda, []) == []
  {
  }

  // One batch is evaluated and its values appended to the result's child vector.
  method Flush<T, C, U>(info: LambdaExecuteInfo<T, C, U>, child: seq<U>, ghost done: seq<Position>)
    returns (child': seq<U>)
    requires info.Valid() && info.input.Fit(done) && child == Run(info.input, info.lambda, done)
    modifies info
    ensures info.Valid() && info.pending == []
    ensures child' == Run(info.input, info.lambda, done + old(info.pending))
  {
    var lambdaVector := info.ExecuteExpression();
    RunAppend(info.input, info.lambda, done, info.pending);
    child' := child + lambdaVector;
    info.Clear();
  }

  /** The loop over rows and elements. Entries of NULL rows are left alone. */
  method ExecuteLambda<T, C, U>(input: Input<T, C>, lambda: Arguments<T, C> -> U, vectorSize: nat,
                                entries: array<Entry>)
    returns (validity: seq<bool>, child: seq<U>)
    requires input.Valid() && vectorSize > 0 && entries.Length == |input.rows|
    modifies entries
    ensures |validity| == |input.rows|
    ensures forall r :: 0 <= r < |input.rows| ==> validity[r] == input.rows[r].Some?
    ensures forall r :: 0 <= r < |input.rows| ==>
              entries[r] == match input.rows[r] case None => old(entries[r])
                                                case Some(e) => Entry(Offset(input, r), e.length)
    ensures child == Run(input, lambda, input.Positions(|input.rows|))
  {
    hide Run, Offset;
    var info := new LambdaExecuteInfo(input, lambda, vectorSize);
    ghost var done: seq<Position> := [];
    validity, child := [], [];
    NothingYet(input, lambda);
    var offset := 0;
    FirstOffset(input);
    for row := 0 to |input.rows|
      invariant info.Valid() && info.input == input && info.lambda == lambda
      invariant fresh(info) && fresh(info.childSel) && fresh(info.rowSel) && fresh(info.indexVector)
      invariant done + info.pending == input.Positions(row)
      invariant input.Fit(done) && child == Run(input, lambda, done)
      invariant offset == Offset(input, row) && |validity| == row
      invariant forall r :: 0 <= r < row ==> validity[r] == input.rows[r].Some?
      invariant forall r :: 0 <= r < row ==>
                  entries[r] == match input.rows[r] case None => old(entries[r])
                                                    case Some(e) => Entry(Offset(input, r), e.length)
      invariant forall r :: row <= r < |input.rows| ==> entries[r] == old(entries[r])
    {
      if input.rows[row].None? {
        validity := validity + [false];
        NextOffset(input, row);
        assert input.Positions(row + 1) == input.Positions(row);
        continue;
      }
      validity := validity + [true];
      NextOffset(input, row);
      var entry := input.rows[row].value;
      entries[row] := Entry(offset, entry.length);
      offset := offset + entry.length;
      child, done := AppendRow(info, row, entry, child, done);
    }
    child := Flush(info, child, done);
  }

  // The elements of one row go into the batch, which is flushed whenever it is full.
  method AppendRow<T, C, U>(info: LambdaExecuteInfo<T, C, U>, row: nat, entry: Entry, child: seq<U>,
                            ghost done: seq<Position>)
    returns (child': seq<U>, ghost done': seq<Position>)
    requires info.Valid() && row < |info.input.rows| && info.input.rows[row] == Some(entry)
    requires info.input.Fit(done) && child == Run(info.input, info.lambda, done)
    requires done + info.pending == info.input.Positions(row)
    modifies info, info.childSel, info.rowSel, info.indexVector
    ensures info.Valid() && done' + info.pending == info.input.Positions(row + 1)
    ensures info.input.Fit(done') && child' == Run(info.input, info.lambda, done')
  {
    child', done' := child, done;
    for k := 0 to entry.length
      invariant info.Valid() && done' + info.pending == info.input.Positions(row) + info.input.RowPositions(row, k)
      invariant info.input.Fit(done') && child' == Run(info.input, info.lambda, done')
    {
      if info.elemCnt == info.childSel.Length {
        child' := Flush(info, child', done');
        done' := info.input.Positions(row) + info.input.RowPositions(row, k);
      }
      ghost var all := done' + info.pending;
      info.Set(Position(row, entry.offset + k, k + 1));
      NextPosition(info.input, row, k);
      assert done' + info.pending == all + [Position(row, entry.offset + k, k + 1)];
    }
  }

  // Element by element: the lambda of the element's number, the element and the row's columns.
  ghost predicate HoldsLambda<T, C, U>(input: Input<T, C>, lambda: Arguments<T, C> -> U, r: nat, values: seq<U>)
    requires input.Valid() && r < |input.rows| && input.rows[r].Some?
  {
    var list, captured := input.rows[r].value, input.Captured(r);
    && ColumnsOf(input, r, captured) && |values| == list.length
    && forall k :: 0 <= k < |values| ==>
         values[k] == lambda(Arguments(if input.hasIndex then Some(k + 1) else None, input.child[list.offset + k],
                                       captured))
  }

  lemma MappedHoldsLambda<T, C, U>(input: Input<T, C>, lambda: Arguments<T, C> -> U, r: nat)
    requires input.Valid() && r < |input.rows| && input.rows[r].Some?
    ensures HoldsLambda(input, lambda, r, Mapped(input, lambda, r))
  {
    CapturedColumns(input, r);
  }

  /** However large a batch is, every valid row keeps its length and holds the lambda's values on its
      own elements, with its own index and captured columns; the rows lie end to end. */
  method ListTransform<T, C, U>(input: Input<T, C>, lambda: Arguments<T, C> -> U, vectorSize: nat,
                                entries: array<Entry>)
    returns (validity: seq<bool>, child: seq<U>)
    requires input.Valid() && vectorSize > 0 && entries.Length == |input.rows|
    modifies entries
    ensures |validity| == |input.rows| && |child| == Offset(input, |input.rows|)
    ensures forall r :: 0 <= r < |input.rows| ==> validity[r] == input.rows[r].Some?
    ensures forall r :: 0 <= r < |input.rows| && validity[r] ==>
              && entries[r] == Entry(Offset(input, r), input.rows[r].value.length)
              && entries[r].offset + entries[r].length <= |child|
              && HoldsLambda(input, lambda, r, child[entries[r].offset..entries[r].offset + entries[r].length])
  {
    validity, child := ExecuteLambda(input, lambda, vectorSize, entries);
    PositionsLength(input, |input.rows|);
    forall r | 0 <= r < |input.rows| && validity[r]
      ensures entries[r].offset + entries[r].length <= |child|
      ensures HoldsLambda(input, lambda, r, child[entries[r].offset..entries[r].offset + entries[r].length])
    {
      SliceIsMapped(input, lambda, r);
      MappedHoldsLambda(input, lambda, r);
    }
  }
}
