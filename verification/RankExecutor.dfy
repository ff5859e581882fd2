/** The rank executor: ranks are counted row by row from the partition and peer boundaries, and the
    predicate is evaluated on the way. */
module RankExecutor {
  import opened WindowRank
  import opened MergePruning
  import opened EarlyStop
  import opened Selections

  // The boundary vectors of a chunk whose first row is number row.
  datatype Bounds = Bounds(row: nat, partitionBegin: seq<nat>, peerBegin: seq<nat>) {
    ghost predicate Valid() {
      && |partitionBegin| == |peerBegin|
      && (forall i :: 0 <= i < |peerBegin| ==> partitionBegin[i] <= peerBegin[i] <= row + i)
      && (forall i :: 0 < i < |peerBegin| ==> Moves(i))
    }

    // A row starts a partition, or starts a group of peers, or is one more peer.
    ghost predicate Moves(i: nat)
      requires 0 < i < |peerBegin| == |partitionBegin|
    {
      || partitionBegin[i] == row + i
      || (partitionBegin[i] == partitionBegin[i - 1] && (peerBegin[i] == row + i || peerBegin[i] == peerBegin[i - 1]))
    }

    ghost function RankOf(i: nat): (r: nat)
      requires Valid() && i < |peerBegin|
      ensures r >= 1
    {
      peerBegin[i] - partitionBegin[i] + 1
    }

    ghost function Passes(limit: int): (ok: seq<bool>)
      requires Valid()
      ensures |ok| == |peerBegin| && forall i :: 0 <= i < |ok| ==> ok[i] == (RankOf(i) <= limit)
    {
      seq(|peerBegin|, i requires 0 <= i < |peerBegin| => RankOf(i) <= limit)
    }
  }

  // The boundary vectors that belong to these rows.
  ghost predicate BoundsOf(rows: seq<Tuple>, bounds: Bounds) {
    && |bounds.partitionBegin| == |bounds.peerBegin| && bounds.row + |bounds.peerBegin| <= |rows|
    && forall i :: 0 <= i < |bounds.peerBegin| ==>
         bounds.partitionBegin[i] == PartitionBegin(rows, bounds.row + i) &&
         bounds.peerBegin[i] == PeerBegin(rows, bounds.row + i)
  }

  // These boundary vectors give every row of the chunk its SQL rank.
  ghost predicate GivesRanks(rows: seq<Tuple>, bounds: Bounds) {
    && bounds.Valid() && bounds.row + |bounds.peerBegin| <= |rows|
    && forall i :: 0 <= i < |bounds.peerBegin| ==> bounds.RankOf(i) == Rank(rows, rows[bounds.row + i])
  }

  lemma BoundsGiveRanks(rows: seq<Tuple>, bounds: Bounds)
    requires Sorted(rows) && BoundsOf(rows, bounds)
    ensures GivesRanks(rows, bounds)
  {
    forall i | 0 <= i < |bounds.peerBegin| ensures bounds.partitionBegin[i] <= bounds.peerBegin[i] <= bounds.row + i {}
    assert bounds.Valid();
    forall i | 0 <= i < |bounds.peerBegin| ensures bounds.RankOf(i) == Rank(rows, rows[bounds.row + i]) {
      RankAtIsRank(rows, bounds.row + i);
    }
  }

  // In order, the partition starts after the chunk's first row; that row and earlier starts may be listed too.
  ghost predicate Begins(bounds: Bounds, begins: seq<nat>)
    requires bounds.Valid()
  {
    && (forall j, l :: 0 <= j < l < |begins| ==> begins[j] < begins[l])
    && (forall j :: 0 <= j < |begins| ==> begins[j] < bounds.row + |bounds.peerBegin|)
    && (forall i :: 0 < i < |bounds.peerBegin| ==>
          (bounds.row + i in begins <==> bounds.partitionBegin[i] == bounds.row + i))
  }

  // The first start after the row.
  function FirstAfter(begins: seq<nat>, row: nat, j: nat): (n: nat)
    requires j <= |begins|
    ensures j <= n <= |begins| && (n < |begins| ==> begins[n] > row)
    ensures forall l :: j <= l < n ==> begins[l] <= row
    decreases |begins| - j
  {
    if j < |begins| && begins[j] <= row then FirstAfter(begins, row, j + 1) else j
  }

  // The starts inside the chunk, counted from its first row.
  ghost function Inside(bounds: Bounds, begins: seq<nat>): (b: seq<nat>)
    requires bounds.Valid() && Begins(bounds, begins)
    ensures var n := FirstAfter(begins, bounds.row, 0);
            |b| == |begins| - n && forall j :: 0 <= j < |b| ==> b[j] == begins[n + j] - bounds.row && b[j] > 0
  {
    var n := FirstAfter(begins, bounds.row, 0);
    seq(|begins| - n, j requires 0 <= j < |begins| - n => AfterFirst(bounds, begins, n, j))
  }

  ghost function AfterFirst(bounds: Bounds, begins: seq<nat>, n: nat, j: nat): (d: nat)
    requires bounds.Valid() && Begins(bounds, begins)
    requires n == FirstAfter(begins, bounds.row, 0) && j < |begins| - n
    ensures d == begins[n + j] - bounds.row && d > 0
  {
    assert j > 0 ==> begins[n] < begins[n + j];
    begins[n + j] - bounds.row
  }

  lemma InsideIsAStart(bounds: Bounds, begins: seq<nat>, i: nat)
    requires bounds.Valid() && Begins(bounds, begins) && 0 < i < |bounds.peerBegin|
    ensures i in Inside(bounds, begins) <==> bounds.partitionBegin[i] == bounds.row + i
  {
    var n, b := FirstAfter(begins, bounds.row, 0), Inside(bounds, begins);
    if i in b {
      var j :| 0 <= j < |b| && b[j] == i;
      assert begins[n + j] == bounds.row + i;
    }
    if bounds.row + i in begins {
      var l :| 0 <= l < |begins| && begins[l] == bounds.row + i;
      assert b[l - n] == i;
    }
  }

  lemma JumpTarget(bounds: Bounds, begins: seq<nat>, n: nat)
    requires bounds.Valid() && Begins(bounds, begins) && n < |Inside(bounds, begins)|
    ensures var i, next := Inside(bounds, begins)[n], FirstAfter(begins, bounds.row, 0) + n;
            && i < |bounds.peerBegin| && begins[next] == bounds.row + i
            && bounds.partitionBegin[i] == bounds.peerBegin[i] == bounds.row + i
  {
    InsideIsAStart(bounds, begins, Inside(bounds, begins)[n]);
  }

  lemma PassesChunk(bounds: Bounds, begins: seq<nat>, limit: int)
    requires bounds.Valid() && Begins(bounds, begins)
    ensures Chunk(bounds.Passes(limit), Inside(bounds, begins))
  {
    var ok, b := bounds.Passes(limit), Inside(bounds, begins);
    forall i | 0 < i < |ok| && ok[i] && i !in b ensures ok[i - 1] {
      InsideIsAStart(bounds, begins, i);
      assert bounds.Moves(i);
    }
    forall j | 0 <= j < |b| ensures bounds.RankOf(b[j]) == 1 {
      InsideIsAStart(bounds, begins, b[j]);
    }
  }

  // The selection so far and what the walk still adds make up all.
  ghost predicate Selecting(selected: seq<nat>, rest: seq<nat>, all: seq<nat>) {
    selected + rest == all
  }

  lemma WalkTakes(ok: seq<bool>, b: seq<nat>, n: nat, i: nat, selected: seq<nat>, all: seq<nat>)
    requires n <= |b| && i < |ok| && Selecting(selected, Walk(ok, b, n, i), all)
    ensures ok[i] ==> Selecting(selected + [i], Walk(ok, b, n, i + 1), all)
    ensures !ok[i] && n < |b| ==> Selecting(selected, Walk(ok, b, n + 1, b[n]), all)
    ensures !ok[i] && n == |b| ==> selected == all
  {
    if ok[i] {
      assert selected + ([i] + Walk(ok, b, n, i + 1)) == (selected + [i]) + Walk(ok, b, n, i + 1);
    }
  }

  method SkipBegins(begins: seq<nat>, row: nat) returns (next: nat)
    ensures next == FirstAfter(begins, row, 0)
  {
    next := 0;
    while next < |begins| && begins[next] <= row
      invariant next <= |begins| && FirstAfter(begins, row, next) == FirstAfter(begins, row, 0)
    {
      next := next + 1;
    }
  }

  class WindowPeerLocalState {
    var denseRank: nat
    var rankEqual: nat
    var rank: nat
    var sel: array<nat>
    var matchCount: nat

    constructor ()
      ensures rank == 1 && denseRank == 1 && rankEqual == 0 && fresh(sel) && sel.Length == matchCount == 0
    {
      denseRank, rankEqual, rank, matchCount := 1, 0, 1, 0;
      sel := new nat[0];
    }

    // The rows selected so far.
    ghost function Selected(): (s: seq<nat>)
      requires matchCount <= sel.Length
      reads this, sel
      ensures |s| == matchCount
    {
      sel[..matchCount]
    }

    // A selection vector for this many rows.
    method Initialize(count: nat)
      modifies this`sel, this`matchCount
      ensures fresh(sel) && sel.Length == count && matchCount == 0 && Selected() == []
    {
      sel := new nat[count];
      matchCount := 0;
    }

    // The source writes the row without looking at the vector's length; past its end, nothing is defined.
    method SetIndex(i: nat) returns (fits: bool)
      requires matchCount <= sel.Length
      modifies this`matchCount, sel
      ensures matchCount <= sel.Length && fits == (old(matchCount) < sel.Length)
      ensures Selected() == if fits then old(Selected()) + [i] else old(Selected())
    {
      if matchCount == sel.Length {
        return false;
      }
      sel[matchCount] := i;
      matchCount := matchCount + 1;
      return true;
    }

    // Fit to count the rank of a row with these boundaries.
    ghost predicate Ready(partitionBegin: nat, peerBegin: nat, rowIdx: nat)
      reads this
    {
      || partitionBegin == rowIdx
      || (peerBegin == rowIdx && rank + rankEqual == peerBegin - partitionBegin + 1)
      || (peerBegin < rowIdx && rank == peerBegin - partitionBegin + 1 && rankEqual == rowIdx - peerBegin)
    }

    method NextRank(partitionBegin: nat, peerBegin: nat, rowIdx: nat)
      requires partitionBegin <= peerBegin <= rowIdx && Ready(partitionBegin, peerBegin, rowIdx)
      modifies this`rank, this`rankEqual, this`denseRank
      ensures rank == peerBegin - partitionBegin + 1 && rankEqual == rowIdx - peerBegin + 1
      ensures partitionBegin == rowIdx ==> denseRank == 1
      ensures partitionBegin < rowIdx ==> denseRank == old(denseRank) + if peerBegin == rowIdx then 1 else 0
    {
      if partitionBegin == rowIdx {
        denseRank, rank, rankEqual := 1, 1, 0;
      } else if peerBegin == rowIdx {
        denseRank := denseRank + 1;
        rank := rank + rankEqual;
        rankEqual := 0;
      }
      rankEqual := rankEqual + 1;
    }

    // Reset to the row before the chunk.
    method Reset(bounds: Bounds)
      requires bounds.Valid() && 0 < |bounds.peerBegin|
      modifies this`rank, this`rankEqual
      ensures Ready(bounds.partitionBegin[0], bounds.peerBegin[0], bounds.row)
    {
      rank := bounds.peerBegin[0] - bounds.partitionBegin[0] + 1;
      rankEqual := bounds.row - bounds.peerBegin[0];
    }

    // The rank of row i of the chunk, written to the result vector.
    method EvaluateRow(bounds: Bounds, i: nat, rdata: array<nat>)
      requires bounds.Valid() && i < |bounds.peerBegin| == rdata.Length
      requires Ready(bounds.partitionBegin[i], bounds.peerBegin[i], bounds.row + i)
      modifies this`rank, this`rankEqual, this`denseRank, rdata
      ensures rank == bounds.RankOf(i) && rdata[i] == rank
      ensures forall j :: 0 <= j < rdata.Length && j != i ==> rdata[j] == old(rdata[j])
      ensures i + 1 < rdata.Length ==>
                Ready(bounds.partitionBegin[i + 1], bounds.peerBegin[i + 1], bounds.row + i + 1)
    {
      NextRank(bounds.partitionBegin[i], bounds.peerBegin[i], bounds.row + i);
      rdata[i] := rank;
      assert i + 1 < rdata.Length ==> bounds.Moves(i + 1);
    }

    /** Without a predicate: the ranks alone. */
    method Evaluate(bounds: Bounds, rdata: array<nat>)
      requires bounds.Valid() && 0 < |bounds.peerBegin| == rdata.Length
      modifies this`rank, this`rankEqual, this`denseRank, rdata
      ensures forall i :: 0 <= i < rdata.Length ==> rdata[i] == bounds.RankOf(i)
    {
      Reset(bounds);
      for i := 0 to rdata.Length
        invariant i < rdata.Length ==> Ready(bounds.partitionBegin[i], bounds.peerBegin[i], bounds.row + i)
        invariant forall j :: 0 <= j < i ==> rdata[j] == bounds.RankOf(j)
      {
        EvaluateRow(bounds, i, rdata);
      }
    }

    /** With the predicate: the ranks, and the passing rows in order; there is room for all of them. */
    method EvaluateAndFilter(bounds: Bounds, limit: int, rdata: array<nat>)
      requires bounds.Valid() && 0 < |bounds.peerBegin| == rdata.Length
      modifies this, rdata
      ensures forall i :: 0 <= i < rdata.Length ==> rdata[i] == bounds.RankOf(i)
      ensures fresh(sel) && matchCount <= sel.Length && Selected() == Indices(bounds.Passes(limit), 0)
    {
      ghost var ok := bounds.Passes(limit);
      ghost var all := Indices(ok, 0);
      hide Indices;
      Reset(bounds);
      Initialize(rdata.Length);
      assert Selected() + all == all;
      for i := 0 to rdata.Length
        invariant fresh(sel) && matchCount <= i && sel.Length == rdata.Length
        invariant i < rdata.Length ==> Ready(bounds.partitionBegin[i], bounds.peerBegin[i], bounds.row + i)
        invariant forall j :: 0 <= j < i ==> rdata[j] == bounds.RankOf(j)
        invariant Selected() + Indices(ok, i) == all
      {
        EvaluateRow(bounds, i, rdata);
        IndicesNext(ok, i, Selected());
        if rank <= limit {
          var fits := SetIndex(i);
        }
      }
      IndicesEnd(ok, Selected());
    }

    // One row of the walk: it is selected, or the walk skips to the next partition start, or it stops.
    method EvaluateOrSkip(bounds: Bounds, begins: seq<nat>, limit: int, rdata: array<nat>, i: nat, next: nat,
                          ghost b: seq<nat>, ghost n: nat, ghost all: seq<nat>)
      returns (i': int, next': nat, fits: bool)
      requires bounds.Valid() && i < |bounds.peerBegin| == rdata.Length == sel.Length && sel != rdata
      requires Begins(bounds, begins) && b == Inside(bounds, begins) && n <= |b| && |b| - n == |begins| - next
      requires Ready(bounds.partitionBegin[i], bounds.peerBegin[i], bounds.row + i)
      requires matchCount <= sel.Length && Selecting(Selected(), Walk(bounds.Passes(limit), b, n, i), all)
      modifies this`rank, this`rankEqual, this`denseRank, this`matchCount, sel, rdata
      ensures rdata[i] == bounds.RankOf(i) && forall j :: 0 <= j < rdata.Length && j != i ==> rdata[j] == old(rdata[j])
      ensures matchCount <= sel.Length && (!fits ==> |all| > sel.Length)
      ensures fits ==> Selected() == old(Selected()) + (if bounds.RankOf(i) <= limit then [i] else [])
      ensures fits && bounds.RankOf(i) <= limit ==> next' == next && i' == i + 1
      ensures fits && bounds.RankOf(i) > limit && next == |begins| ==>
                next' == next && i' == rdata.Length && Selected() == all
      ensures fits && bounds.RankOf(i) > limit && next < |begins| ==>
                next' == next + 1 && n < |b| && i' == b[n] < rdata.Length
      ensures fits ==>
                Selected() == all || Selecting(Selected(), Walk(bounds.Passes(limit), b, n + next' - next, i'), all)
      ensures fits && i' < rdata.Length ==>
                Ready(bounds.partitionBegin[i'], bounds.peerBegin[i'], bounds.row + i')
    {
      EvaluateRow(bounds, i, rdata);
      WalkTakes(bounds.Passes(limit), b, n, i, Selected(), all);
      if rank <= limit {
        fits := SetIndex(i);
        return i + 1, next, fits;
      }
      if next == |begins| {
        return rdata.Length, next, true;
      }
      JumpTarget(bounds, begins, n);
      var rowIdx := bounds.row + i;
      var diff := begins[next] as int - rowIdx - 1;
      return i + diff + 1, next + 1, true;
    }

    /** With the predicate and early stopping: the walk that skips from a failing row to the next
        partition start of the list, as far as the selection vector has room for it. */
    method EvaluateAndStop(bounds: Bounds, begins: seq<nat>, limit: int, rdata: array<nat>) returns (fits: bool)
      requires bounds.Valid() && 0 < |bounds.peerBegin| == rdata.Length && Begins(bounds, begins)
      modifies this, rdata
      ensures fits == Stopped(bounds, begins, limit).Fitted?
      ensures fits ==>
                && fresh(sel) && matchCount <= sel.Length && Selected() == Stopped(bounds, begins, limit).sel
                && forall i :: i in Selected() ==> i < rdata.Length && rdata[i] == bounds.RankOf(i)
    {
      ghost var b := Inside(bounds, begins);
      ghost var all := Walk(bounds.Passes(limit), b, 0, 0);
      Reset(bounds);
      var next := SkipBegins(begins, bounds.row);
      ghost var n: nat := 0;
      Initialize(rdata.Length);
      var i := 0;
      while i < rdata.Length
        invariant fresh(sel) && matchCount <= sel.Length == rdata.Length
        invariant 0 <= i <= rdata.Length && n <= |b| && |b| - n == |begins| - next
        invariant i < rdata.Length ==> Ready(bounds.partitionBegin[i], bounds.peerBegin[i], bounds.row + i)
        invariant i < rdata.Length || Selected() != all ==>
                    Selecting(Selected(), Walk(bounds.Passes(limit), b, n, i), all)
        invariant forall j :: j in Selected() ==> j < rdata.Length && rdata[j] == bounds.RankOf(j)
        decreases |b| - n, rdata.Length - i
      {
        var before := next;
        i, next, fits := EvaluateOrSkip(bounds, begins, limit, rdata, i, next, b, n, all);
        if !fits {
          return false;
        }
        n := n + next - before;
      }
      return true;
    }
  }

  // What early stopping leaves behind: the selected rows, when the vector's one slot per row of the chunk
  // is enough for the walk, or a write past the vector's end.
  datatype Selection = Overrun | Fitted(sel: seq<nat>)

  ghost function Stopped(bounds: Bounds, begins: seq<nat>, limit: int): Selection
    requires bounds.Valid() && Begins(bounds, begins)
  {
    var walk := Walk(bounds.Passes(limit), Inside(bounds, begins), 0, 0);
    if |walk| <= |bounds.peerBegin| then Fitted(walk) else Overrun
  }

  // The slots that the walk over the chunk takes.
  ghost function Room(bounds: Bounds, begins: seq<nat>, limit: int): nat
    requires bounds.Valid() && Begins(bounds, begins)
  {
    PassesChunk(bounds, begins, limit);
    Needed(bounds.Passes(limit), Inside(bounds, begins), 0)
  }

  /** With early stopping the chunk selects each passing row once, in order, exactly when no whole
      partition of it passes before a row that fails. If it writes no further than the selection vector
      reaches, it selects the passing rows and no others; it writes past the end exactly when the
      passing runs at the starts it comes to are longer, together, than the chunk. */
  lemma StopAgreesUnlessSkewed(bounds: Bounds, begins: seq<nat>, limit: int)
    requires bounds.Valid() && Begins(bounds, begins)
    ensures var ok, b, r := bounds.Passes(limit), Inside(bounds, begins), Stopped(bounds, begins, limit);
            && (r == Fitted(Indices(ok, 0)) <==> !Skewed(ok, b))
            && (r == Overrun <==> Room(bounds, begins, limit) > |ok|)
            && (r.Fitted? ==> forall i: nat :: i in r.sel <==> i < |ok| && ok[i])
  {
    var ok, b := bounds.Passes(limit), Inside(bounds, begins);
    PassesChunk(bounds, begins, limit);
    InOrderUnlessSkewed(ok, b);
    IndicesFit(ok, 0);
    WalkNeeds(ok, b, 0, 0);
    forall i: nat ensures i in Walk(ok, b, 0, 0) <==> i < |ok| && ok[i] {
      WalkSelects(ok, b, 0, 0, i);
    }
  }

  // ----- From the selections of the chunks to the query's answer -----

  function Gather(rows: seq<Tuple>, row: nat, sel: seq<nat>): seq<Tuple>
    requires forall j :: 0 <= j < |sel| ==> row + sel[j] < |rows|
  {
    if sel == [] then [] else [rows[row + sel[0]]] + Gather(rows, row, sel[1..])
  }

  lemma GatherFirst(rows: seq<Tuple>, row: nat, i: nat, passes: bool, sel: seq<nat>)
    requires row + i < |rows| && forall j :: 0 <= j < |sel| ==> row + sel[j] < |rows|
    ensures Gather(rows, row, (if passes then [i] else []) + sel) ==
            (if passes then [rows[row + i]] else []) + Gather(rows, row, sel)
  {
    assert ([i] + sel)[1..] == sel && [] + sel == sel;
  }

  lemma {:induction false} SelectionFrom(rows: seq<Tuple>, row: nat, ok: seq<bool>, k: nat, i: nat)
    requires row + |ok| <= |rows| && i <= |ok|
    requires forall j :: 0 <= j < |ok| ==> ok[j] == (Rank(rows, rows[row + j]) <= k)
    ensures forall j :: 0 <= j < |Indices(ok, i)| ==> row + Indices(ok, i)[j] < |rows|
    ensures Gather(rows, row, Indices(ok, i)) == Passing(rows[row + i..row + |ok|], rows, k)
    decreases |ok| - i
  {
    if i < |ok| {
      SelectionFrom(rows, row, ok, k, i + 1);
      assert rows[row + i..row + |ok|][1..] == rows[row + i + 1..row + |ok|];
      GatherFirst(rows, row, i, ok[i], Indices(ok, i + 1));
    }
  }
}
