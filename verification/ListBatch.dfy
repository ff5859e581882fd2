/** List lambdas run over fixed-size batches of the lists' elements: what a batch holds, and the
    executor that evaluates the lambda on it. */
module ListBatch {
  import opened Characters

  // Where a row's list lies in the child vector.
  datatype Entry = Entry(offset: nat, length: nat)

  // A further column of the lambda's input.
  datatype Column<C> = Constant(value: C) | PerRow(values: seq<C>)

  // What the lambda sees of one element.
  datatype Arguments<T, C> = Arguments(index: Option<nat>, element: T, captured: seq<C>)

  // One element of one row's list; the index counts from 1.
  datatype Position = Position(row: nat, child: nat, index: nat)

  datatype Input<T, C> = Input(rows: seq<Option<Entry>>, child: seq<T>, columns: seq<Column<C>>, hasIndex: bool) {
    ghost predicate Valid() {
      && (forall r :: 0 <= r < |rows| && rows[r].Some? ==> rows[r].value.offset + rows[r].value.length <= |child|)
      && (forall c :: 0 <= c < |columns| && columns[c].PerRow? ==> |columns[c].values| == |rows|)
    }

    function Length(r: nat): nat
      requires r < |rows|
    {
      match rows[r]
      case None => 0
      case Some(e) => e.length
    }

    // What the row has in the further columns.
    function Captured(r: nat): seq<C>
      requires r < |rows| && Valid()
    {
      seq(|columns|, c requires 0 <= c < |columns| =>
        match columns[c] case Constant(v) => v case PerRow(values) => values[r])
    }

    predicate InRange(p: Position) {
      p.row < |rows| && p.child < |child|
    }

    predicate Fit(ps: seq<Position>) {
      forall i :: 0 <= i < |ps| ==> InRange(ps[i])
    }

    function At(p: Position): Arguments<T, C>
      requires Valid() && InRange(p)
    {
      Arguments(if hasIndex then Some(p.index) else None, child[p.child], Captured(p.row))
    }

    // The first n elements of row r.
    function RowPositions(r: nat, n: nat): (ps: seq<Position>)
      requires r < |rows| && n <= Length(r) && Valid()
      ensures |ps| == n && Fit(ps)
    {
      seq(n, k requires 0 <= k < n => Position(r, rows[r].value.offset + k, k + 1))
    }

    // All elements of the first n rows, row after row.
    function Positions(n: nat): (ps: seq<Position>)
      requires n <= |rows| && Valid()
      ensures Fit(ps)
    {
      if n == 0 then [] else Positions(n - 1) + RowPositions(n - 1, Length(n - 1))
    }

    function Elements(ps: seq<Position>): (s: seq<T>)
      requires Valid() && Fit(ps)
      ensures |s| == |ps|
    {
      seq(|ps|, i requires 0 <= i < |ps| => child[ps[i].child])
    }
  }

  // These values are what the row has in the further columns: a constant, or the row's own value.
  ghost predicate ColumnsOf<T, C>(input: Input<T, C>, r: nat, captured: seq<C>)
    requires input.Valid() && r < |input.rows|
  {
    && |captured| == |input.columns|
    && (forall c :: 0 <= c < |captured| && input.columns[c].Constant? ==> captured[c] == input.columns[c].value)
    && (forall c :: 0 <= c < |captured| && input.columns[c].PerRow? ==> captured[c] == input.columns[c].values[r])
  }

  lemma CapturedColumns<T, C>(input: Input<T, C>, r: nat)
    requires input.Valid() && r < |input.rows|
    ensures ColumnsOf(input, r, input.Captured(r))
  {
  }

  // The lambda on each of these elements.
  function Run<T, C, U>(input: Input<T, C>, lambda: Arguments<T, C> -> U, ps: seq<Position>): (values: seq<U>)
    requires input.Valid() && input.Fit(ps)
    ensures |values| == |ps|
  {
    seq(|ps|, i requires 0 <= i < |ps| => lambda(input.At(ps[i])))
  }

  /** The selection vectors of the batch being filled. */
  class LambdaExecuteInfo<T, C, U> {
    const input: Input<T, C>
    const lambda: Arguments<T, C> -> U
    const childSel: array<nat>
    const rowSel: array<nat>
    const indexVector: array<nat>
    var elemCnt: nat
    ghost var pending: seq<Position>

    constructor (input: Input<T, C>, lambda: Arguments<T, C> -> U, vectorSize: nat)
      requires input.Valid() && vectorSize > 0
      ensures Valid() && pending == [] && this.input == input && this.lambda == lambda && childSel.Length == vectorSize
      ensures fresh(childSel) && fresh(rowSel) && fresh(indexVector)
    {
      this.input, this.lambda := input, lambda;
      childSel, rowSel, indexVector := new nat[vectorSize], new nat[vectorSize], new nat[vectorSize];
      elemCnt, pending := 0, [];
    }

    ghost predicate Valid()
      reads this, childSel, rowSel, indexVector
    {
      && input.Valid() && 0 < childSel.Length == rowSel.Length == indexVector.Length
      && childSel != rowSel && childSel != indexVector && rowSel != indexVector
      && elemCnt == |pending| <= childSel.Length
      && input.Fit(pending)
      && forall i :: 0 <= i < elemCnt ==>
           && childSel[i] == pending[i].child && rowSel[i] == pending[i].row
           && (input.hasIndex ==> indexVector[i] == pending[i].index)
    }

    // One more element of the batch.
    method Set(p: Position)
      requires Valid() && elemCnt < childSel.Length && input.InRange(p)
      modifies this, childSel, rowSel, indexVector
      ensures Valid() && pending == old(pending) + [p]
    {
      childSel[elemCnt] := p.child;
      rowSel[elemCnt] := p.row;
      if input.hasIndex {
        indexVector[elemCnt] := p.index;
      }
      elemCnt, pending := elemCnt + 1, pending + [p];
    }

    method Clear()
      requires Valid()
      modifies this
      ensures Valid() && pending == []
    {
      elemCnt, pending := 0, [];
    }

    // The input chunk is sliced by the selection vectors, and the lambda runs on each of its rows.
    method ExecuteExpression() returns (lambdaVector: seq<U>)
      requires Valid()
      ensures lambdaVector == Run(input, lambda, pending)
    {
      lambdaVector := [];
      for i := 0 to elemCnt
        invariant |lambdaVector| == i && forall j :: 0 <= j < i ==> lambdaVector[j] == lambda(input.At(pending[j]))
      {
        var captured := input.Captured(rowSel[i]);
        var index := if input.hasIndex then Some(indexVector[i]) else None;
        lambdaVector := lambdaVector + [lambda(Arguments(index, input.child[childSel[i]], captured))];
      }
    }

    // The elements of the batch, for the functor that keeps some of them.
    method Elements() returns (elements: seq<T>)
      requires Valid()
      ensures elements == input.Elements(pending)
    {
      elements := [];
      for i := 0 to elemCnt
        invariant |elements| == i && forall j :: 0 <= j < i ==> elements[j] == input.child[pending[j].child]
      {
        elements := elements + [input.child[childSel[i]]];
      }
    }
  }
}
