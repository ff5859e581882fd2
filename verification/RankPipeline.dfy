/** The window query as a whole: threads prune what they sink, sorted runs are pruned, merged and
    pruned again, and the rank executor selects the answer chunk by chunk. */
module RankPipeline {
  import opened WindowRank
  import opened PartitionPruning
  import opened MergePruning
  import opened EarlyStop
  import opened RankExecutor
  import opened Selections

  // ----- All chunks of a sorted collection -----

  // A chunk as the executor gets it: its boundary vectors and the list of partition starts.
  datatype Block = Block(bounds: Bounds, begins: seq<nat>) {
    ghost predicate Of(rows: seq<Tuple>) {
      BoundsOf(rows, bounds) && bounds.Valid() && 0 < |bounds.peerBegin| && Begins(bounds, begins)
    }

    // What the executor selects, stopping early or not, when there is room for it.
    ghost function Selected(k: nat, early: bool): (sel: seq<nat>)
      requires bounds.Valid() && Begins(bounds, begins)
      ensures forall j :: 0 <= j < |sel| ==> sel[j] < |bounds.peerBegin|
    {
      var ok, b := bounds.Passes(k), Inside(bounds, begins);
      StopSelectsTheSame(bounds, begins, k);
      if early then Walk(ok, b, 0, 0) else Indices(ok, 0)
    }

    ghost predicate Fits(k: nat, early: bool)
      requires bounds.Valid() && Begins(bounds, begins)
    {
      early ==> Stopped(bounds, begins, k).Fitted?
    }

    ghost predicate Overruns(k: nat)
      requires bounds.Valid() && Begins(bounds, begins)
    {
      Room(bounds, begins, k) > |bounds.peerBegin|
    }

    ghost predicate Skews(k: nat)
      requires bounds.Valid() && Begins(bounds, begins)
    {
      Skewed(bounds.Passes(k), Inside(bounds, begins))
    }
  }

  ghost function Elements(s: seq<nat>): set<nat> {
    set i | 0 <= i < |s| :: s[i]
  }

  lemma StopSelectsTheSame(bounds: Bounds, begins: seq<nat>, k: nat)
    requires bounds.Valid() && Begins(bounds, begins)
    ensures var plain, early := Indices(bounds.Passes(k), 0), Walk(bounds.Passes(k), Inside(bounds, begins), 0, 0);
            && Elements(plain) == Elements(early)
            && (forall j :: 0 <= j < |early| ==> early[j] < |bounds.peerBegin|)
  {
    var ok, b := bounds.Passes(k), Inside(bounds, begins);
    var plain, early := Indices(ok, 0), Walk(ok, b, 0, 0);
    PassesChunk(bounds, begins, k);
    forall x: nat ensures x in early <==> x < |ok| && ok[x] {
      WalkSelects(ok, b, 0, 0, x);
    }
    hide Walk, Indices;
    forall x: nat ensures x in Elements(plain) <==> x in Elements(early) {
      IndicesHold(ok, 0, x);
      assert x in early <==> x < |ok| && ok[x];
    }
    forall j | 0 <= j < |early| ensures early[j] < |bounds.peerBegin| {
      assert early[j] in early;
    }
  }

  // The blocks cover the rows from this one on, without gaps.
  ghost predicate Covers(rows: seq<Tuple>, blocks: seq<Block>, row: nat)
    decreases |blocks|
  {
    if blocks == [] then row == |rows|
    else
      var bounds := blocks[0].bounds;
      blocks[0].Of(rows) && bounds.row == row && Covers(rows, blocks[1..], row + |bounds.peerBegin|)
  }

  // The selected rows, block after block.
  ghost function Output(rows: seq<Tuple>, blocks: seq<Block>, row: nat, k: nat, early: bool): seq<Tuple>
    requires Covers(rows, blocks, row)
    decreases |blocks|
  {
    if blocks == [] then [] else
    var n := |blocks[0].bounds.peerBegin|;
    Gather(rows, row, blocks[0].Selected(k, early)) + Output(rows, blocks[1..], row + n, k, early)
  }

  ghost predicate AnySkews(rows: seq<Tuple>, blocks: seq<Block>, row: nat, k: nat)
    requires Covers(rows, blocks, row)
    decreases |blocks|
  {
    blocks != [] &&
    (blocks[0].Skews(k) || AnySkews(rows, blocks[1..], row + |blocks[0].bounds.peerBegin|, k))
  }

  // Every block has room for its selection.
  ghost predicate AllFit(rows: seq<Tuple>, blocks: seq<Block>, row: nat, k: nat, early: bool)
    requires Covers(rows, blocks, row)
    decreases |blocks|
  {
    blocks == [] ||
    (blocks[0].Fits(k, early) && AllFit(rows, blocks[1..], row + |blocks[0].bounds.peerBegin|, k, early))
  }

  ghost predicate AnyOverruns(rows: seq<Tuple>, blocks: seq<Block>, row: nat, k: nat)
    requires Covers(rows, blocks, row)
    decreases |blocks|
  {
    blocks != [] &&
    (blocks[0].Overruns(k) || AnyOverruns(rows, blocks[1..], row + |blocks[0].bounds.peerBegin|, k))
  }

  // What a run of the executor comes to; nothing is said of one that writes past a selection vector.
  datatype Run = Undefined | Finished(rows: seq<Tuple>)

  ghost function Result(rows: seq<Tuple>, blocks: seq<Block>, k: nat, early: bool): Run
    requires Covers(rows, blocks, 0)
  {
    if AllFit(rows, blocks, 0, k, early) then Finished(Output(rows, blocks, 0, k, early)) else Undefined
  }

  lemma OutputOfNone(rows: seq<Tuple>, row: nat, k: nat, early: bool)
    requires Covers(rows, [], row)
    ensures row == |rows| && Output(rows, [], row, k, early) == [] == Passing(rows[row..], rows, k)
    ensures !AnySkews(rows, [], row, k) && AllFit(rows, [], row, k, early) && !AnyOverruns(rows, [], row, k)
  {
  }

  lemma OutputOfFirst(rows: seq<Tuple>, blocks: seq<Block>, row: nat, k: nat, early: bool)
    requires Covers(rows, blocks, row) && blocks != []
    ensures var next := row + |blocks[0].bounds.peerBegin|;
            && blocks[0].Of(rows) && blocks[0].bounds.row == row && next <= |rows| && Covers(rows, blocks[1..], next)
            && Output(rows, blocks, row, k, early) ==
                 Gather(rows, row, blocks[0].Selected(k, early)) + Output(rows, blocks[1..], next, k, early)
  {
    hide Gather, Begins, PartitionBegin, PeerBegin, Walk, Indices;
  }

  // The filter selects the passing rows of the block.
  lemma BlockFilters(rows: seq<Tuple>, block: Block, k: nat)
    requires Sorted(rows) && block.Of(rows)
    ensures var row, n := block.bounds.row, |block.bounds.peerBegin|;
            Gather(rows, row, block.Selected(k, false)) == Passing(rows[row..row + n], rows, k)
  {
    hide Sorted, Passing, Gather, Indices, Walk, Rank;
    BoundsGiveRanks(rows, block.bounds);
    hide BoundsOf, Begins;
    SelectionFrom(rows, block.bounds.row, block.bounds.Passes(k), k, 0);
  }

  lemma PassingBetween(rows: seq<Tuple>, row: nat, next: nat, k: nat)
    requires row <= next <= |rows|
    ensures Passing(rows[row..], rows, k) == Passing(rows[row..next], rows, k) + Passing(rows[next..], rows, k)
  {
    hide Passing;
    assert rows[row..] == rows[row..next] + rows[next..];
    PassingAppend(rows[row..next], rows[next..], rows, k);
  }

  lemma {:induction false} FilteredOutput(rows: seq<Tuple>, blocks: seq<Block>, row: nat, k: nat)
    requires Sorted(rows) && Covers(rows, blocks, row) && row <= |rows|
    ensures Output(rows, blocks, row, k, false) == Passing(rows[row..], rows, k)
    decreases |blocks|
  {
    hide Passing, Gather, Sorted, Covers, Output, Block.Of;
    if blocks == [] {
      OutputOfNone(rows, row, k, false);
    } else {
      OutputOfFirst(rows, blocks, row, k, false);
      BlockFilters(rows, blocks[0], k);
      var next := row + |blocks[0].bounds.peerBegin|;
      FilteredOutput(rows, blocks[1..], next, k);
      PassingBetween(rows, row, next, k);
    }
  }

  // ----- A selection with repetitions -----

  // Every row number is one of the rows.
  ghost predicate Within(rows: seq<Tuple>, row: nat, s: seq<nat>) {
    forall j :: 0 <= j < |s| ==> row + s[j] < |rows|
  }

  lemma ElementsAppend(s: seq<nat>, x: nat)
    ensures Elements(s + [x]) == Elements(s) + {x}
    ensures Repeats(s + [x]) <==> Repeats(s) || x in Elements(s)
  {
    var t := s + [x];
    assert t[|s|] == x && forall i :: 0 <= i < |s| ==> t[i] == s[i];
    if Repeats(s) {
      var j, l :| 0 <= j < l < |s| && s[j] == s[l];
      assert t[j] == t[l];
    } else if x in Elements(s) {
      var j :| 0 <= j < |s| && s[j] == x;
      assert t[j] == t[|s|];
    }
  }

  lemma {:induction false} RepeatsCount(s: seq<nat>)
    ensures |Elements(s)| <= |s| && (|Elements(s)| == |s| <==> !Repeats(s))
  {
    if s != [] {
      var front, x := s[..|s| - 1], s[|s| - 1];
      RepeatsCount(front);
      assert front + [x] == s;
      ElementsAppend(front, x);
      hide Elements, Repeats;
      assert x in Elements(front) ==> Elements(s) == Elements(front);
    }
  }

  lemma {:induction false} GatherAppend(rows: seq<Tuple>, row: nat, s: seq<nat>, t: seq<nat>)
    requires Within(rows, row, s) && Within(rows, row, t)
    ensures Gather(rows, row, s + t) == Gather(rows, row, s) + Gather(rows, row, t)
  {
    if s == [] {
      assert s + t == t;
    } else {
      assert (s + t)[1..] == s[1..] + t;
      GatherAppend(rows, row, s[1..], t);
    }
  }

  lemma {:induction false} GatherAt(rows: seq<Tuple>, row: nat, s: seq<nat>)
    requires Within(rows, row, s)
    ensures |Gather(rows, row, s)| == |s|
    ensures forall j :: 0 <= j < |s| ==> Gather(rows, row, s)[j] == rows[row + s[j]]
  {
    if s != [] {
      GatherAt(rows, row, s[1..]);
    }
  }

  lemma Exchange(f: seq<Tuple>, u: Tuple, g: seq<Tuple>)
    ensures multiset((f + [u]) + g) == multiset{u} + multiset(f + g)
  {
  }

  lemma GatherExchange(rows: seq<Tuple>, row: nat, front: seq<nat>, x: nat, back: seq<nat>)
    requires Within(rows, row, front) && Within(rows, row, [x]) && Within(rows, row, back)
    ensures Within(rows, row, (front + [x]) + back) && Within(rows, row, front + back) && row + x < |rows|
    ensures multiset(Gather(rows, row, (front + [x]) + back)) ==
            multiset{rows[row + x]} + multiset(Gather(rows, row, front + back))
  {
    hide Gather;
    assert row + [x][0] < |rows|;
    GatherAt(rows, row, [x]);
    assert Gather(rows, row, [x]) == [rows[row + x]];
    GatherAppend(rows, row, front, back);
    GatherAppend(rows, row, front, [x]);
    GatherAppend(rows, row, front + [x], back);
    Exchange(Gather(rows, row, front), rows[row + x], Gather(rows, row, back));
  }

  lemma GatherWithout(rows: seq<Tuple>, row: nat, s: seq<nat>, j: nat)
    requires Within(rows, row, s) && j < |s|
    ensures Within(rows, row, s[..j] + s[j + 1..])
    ensures multiset(Gather(rows, row, s)) ==
            multiset{rows[row + s[j]]} + multiset(Gather(rows, row, s[..j] + s[j + 1..]))
  {
    hide Gather;
    var front, x, back := s[..j], s[j], s[j + 1..];
    assert s == (front + [x]) + back;
    GatherExchange(rows, row, front, x, back);
  }

  // Rows that a selection names once are among those that another one names at all.
  lemma {:induction false} GatherWithin(rows: seq<Tuple>, row: nat, s: seq<nat>, t: seq<nat>)
    requires Within(rows, row, s) && Within(rows, row, t) && !Repeats(s) && Elements(s) <= Elements(t)
    ensures multiset(Gather(rows, row, s)) <= multiset(Gather(rows, row, t))
    decreases |s|
  {
    hide Gather;
    if s == [] {
      GatherAt(rows, row, s);
    } else {
      assert s[0] in Elements(t);
      var j :| 0 <= j < |t| && t[j] == s[0];
      var s', t' := s[1..], t[..j] + t[j + 1..];
      assert s[..0] + s[1..] == s';
      GatherWithout(rows, row, s, 0);
      GatherWithout(rows, row, t, j);
      OneLess(s, t, j);
      GatherWithin(rows, row, s', t');
    }
  }

  lemma OneLess(s: seq<nat>, t: seq<nat>, j: nat)
    requires s != [] && !Repeats(s) && Elements(s) <= Elements(t) && j < |t| && t[j] == s[0]
    ensures !Repeats(s[1..]) && Elements(s[1..]) <= Elements(t[..j] + t[j + 1..])
  {
    var rest := t[..j] + t[j + 1..];
    forall i, l | 0 <= i < l < |s[1..]| ensures s[1..][i] != s[1..][l] {
      assert s[i + 1] != s[l + 1];
    }
    forall y | y in Elements(s[1..]) ensures y in Elements(rest) {
      var l :| 0 <= l < |s[1..]| && s[1..][l] == y;
      assert s[l + 1] == y && y in Elements(s) && s[0] != s[l + 1];
      var i :| 0 <= i < |t| && t[i] == y;
      assert rest[if i < j then i else i - 1] == y;
    }
  }

  lemma SameRows(rows: seq<Tuple>, row: nat, s: seq<nat>, t: seq<nat>, u: Tuple)
    requires Within(rows, row, s) && Within(rows, row, t) && Elements(s) == Elements(t)
    requires u in Gather(rows, row, s)
    ensures u in Gather(rows, row, t)
  {
    GatherAt(rows, row, s);
    GatherAt(rows, row, t);
    var j :| 0 <= j < |s| && Gather(rows, row, s)[j] == u;
    assert s[j] in Elements(s);
    var l :| 0 <= l < |t| && t[l] == s[j];
    assert Gather(rows, row, t)[l] == u;
  }

  // One block: early stopping selects what the filter does, more often exactly when the block skews.
  lemma BlockStops(rows: seq<Tuple>, block: Block, k: nat)
    requires block.Of(rows)
    ensures var plain := Gather(rows, block.bounds.row, block.Selected(k, false));
            var early := Gather(rows, block.bounds.row, block.Selected(k, true));
            && multiset(plain) <= multiset(early) && (forall t :: t in early <==> t in plain)
            && (if block.Skews(k) then |early| > |plain| else early == plain)
    ensures (block.Fits(k, true) <==> !block.Overruns(k)) && (!block.Skews(k) ==> block.Fits(k, true))
  {
    var row, plain, early := block.bounds.row, block.Selected(k, false), block.Selected(k, true);
    var ok, b := block.bounds.Passes(k), Inside(block.bounds, block.begins);
    hide Gather, Walk, Indices, Skewed, Chunk, Repeats, Elements;
    StopSelectsTheSame(block.bounds, block.begins, k);
    StopAgreesUnlessSkewed(block.bounds, block.begins, k);
    IndicesDistinct(ok, 0);
    GatherAt(rows, row, plain);
    GatherAt(rows, row, early);
    GatherWithin(rows, row, plain, early);
    forall t ensures t in Gather(rows, row, early) <==> t in Gather(rows, row, plain) {
      if t in Gather(rows, row, early) {
        SameRows(rows, row, early, plain, t);
      }
      if t in Gather(rows, row, plain) {
        SameRows(rows, row, plain, early, t);
      }
    }
    if block.Skews(k) {
      PassesChunk(block.bounds, block.begins, k);
      SkewedRepeats(ok, b);
      RepeatsCount(plain);
      RepeatsCount(early);
    }
  }

  lemma {:induction false} StoppedOutput(rows: seq<Tuple>, blocks: seq<Block>, row: nat, k: nat)
    requires Covers(rows, blocks, row)
    ensures var plain, early := Output(rows, blocks, row, k, false), Output(rows, blocks, row, k, true);
            && multiset(plain) <= multiset(early)
            && (forall t :: t in early <==> t in plain)
            && (if AnySkews(rows, blocks, row, k) then |early| > |plain| else early == plain)
    ensures AllFit(rows, blocks, row, k, true) <==> !AnyOverruns(rows, blocks, row, k)
    ensures AllFit(rows, blocks, row, k, false)
    ensures !AnySkews(rows, blocks, row, k) ==> AllFit(rows, blocks, row, k, true)
    decreases |blocks|
  {
    hide Gather, Skewed, Output, Covers, Block.Of;
    if blocks == [] {
      OutputOfNone(rows, row, k, false);
      OutputOfNone(rows, row, k, true);
    } else {
      OutputOfFirst(rows, blocks, row, k, false);
      OutputOfFirst(rows, blocks, row, k, true);
      BlockStops(rows, blocks[0], k);
      StoppedOutput(rows, blocks[1..], row + |blocks[0].bounds.peerBegin|, k);
    }
  }

  /** The blocks together select the answer. Stopping early does so too exactly when no block skews. It
      writes past a selection vector exactly when the walk over some block takes more slots than the block
      has rows; otherwise it selects the same rows, some more than once. */
  lemma BlocksGiveTheAnswer(rows: seq<Tuple>, blocks: seq<Block>, k: nat)
    requires Sorted(rows) && Covers(rows, blocks, 0)
    ensures var answer, early := TopK(rows, k), Result(rows, blocks, k, true);
            && Result(rows, blocks, k, false) == Finished(answer)
            && (early == Finished(answer) <==> !AnySkews(rows, blocks, 0, k))
            && (early == Undefined <==> AnyOverruns(rows, blocks, 0, k))
            && (early.Finished? ==>
                  multiset(answer) <= multiset(early.rows) && forall t :: t in early.rows <==> t in answer)
  {
    FilteredOutput(rows, blocks, 0, k);
    assert rows[0..] == rows;
    StoppedOutput(rows, blocks, 0, k);
  }

  // ----- Skewed chunks -----

  // Partition 0 passes as a whole before a row of partition 1 fails.
  const SKEWED_ROWS: seq<Tuple> := [Tuple(0, 0, 0), Tuple(1, 0, 1), Tuple(1, 1, 2)]
  const SKEWED_BLOCK: Block := Block(Bounds(0, [0, 1, 1], [0, 1, 2]), [1])

  lemma SkewedWalk(ok: seq<bool>, b: seq<nat>)
    requires ok == [true, true, false] && b == [1]
    ensures Skewed(ok, b) && Walk(ok, b, 0, 0) == [0, 1, 1] && Indices(ok, 0) == [0, 1]
  {
    assert Lags(ok, b, 0, 2);
    assert Walk(ok, b, 1, 2) == [];
    assert Walk(ok, b, 1, 1) == [1] + [];
    assert Walk(ok, b, 0, 2) == [1];
    assert Walk(ok, b, 0, 1) == [1] + [1];
    assert Walk(ok, b, 0, 0) == [0] + [1, 1];
    assert Indices(ok, 2) == [];
    assert Indices(ok, 1) == [1] + [];
    assert Indices(ok, 0) == [0] + [1];
  }

  lemma SkewedBounds()
    ensures Sorted(SKEWED_ROWS) && BoundsOf(SKEWED_ROWS, SKEWED_BLOCK.bounds) && SKEWED_BLOCK.bounds.Valid()
    ensures SKEWED_BLOCK.bounds.Passes(1) == [true, true, false]
  {
    var rows, bounds := SKEWED_ROWS, SKEWED_BLOCK.bounds;
    assert PartitionBegin(rows, 0) == PeerBegin(rows, 0) == 0;
    assert PartitionBegin(rows, 1) == PeerBegin(rows, 1) == 1;
    assert PartitionBegin(rows, 2) == 1 && PeerBegin(rows, 2) == 2;
    assert bounds.Moves(1) && bounds.Moves(2);
  }

  lemma SkewedBegins()
    requires SKEWED_BLOCK.bounds.Valid()
    ensures Begins(SKEWED_BLOCK.bounds, SKEWED_BLOCK.begins)
    ensures Inside(SKEWED_BLOCK.bounds, SKEWED_BLOCK.begins) == [1]
  {
    assert FirstAfter([1], 0, 0) == 0;
  }

  /** Sorted rows whose only chunk skews: at the failing row the walk goes back to the start of
      partition 1, and selects that row again. There is just enough room. */
  lemma SkewedRows()
    ensures Sorted(SKEWED_ROWS) && Covers(SKEWED_ROWS, [SKEWED_BLOCK], 0) && SKEWED_BLOCK.Skews(1)
    ensures SKEWED_BLOCK.Selected(1, true) == [0, 1, 1] && SKEWED_BLOCK.Selected(1, false) == [0, 1]
    ensures SKEWED_BLOCK.Fits(1, true)
  {
    SkewedBounds();
    SkewedBegins();
    hide Walk, Indices, Skewed, Sorted, BoundsOf, Begins;
    SkewedWalk(SKEWED_BLOCK.bounds.Passes(1), Inside(SKEWED_BLOCK.bounds, SKEWED_BLOCK.begins));
    var rest := [SKEWED_BLOCK][1..];
    assert rest == [] && Covers(SKEWED_ROWS, rest, 3);
  }

  // Two partitions pass as a whole before a row of the third fails.
  const OVERRUN_ROWS: seq<Tuple> := [Tuple(0, 0, 0), Tuple(1, 0, 1), Tuple(2, 0, 2), Tuple(2, 1, 3)]
  const OVERRUN_BLOCK: Block := Block(Bounds(0, [0, 1, 2, 2], [0, 1, 2, 3]), [1, 2])

  lemma OverrunWalk(ok: seq<bool>, b: seq<nat>)
    requires ok == [true, true, true, false] && b == [1, 2]
    ensures Walk(ok, b, 0, 0) == [0, 1, 2, 1, 2, 2]
  {
    assert Walk(ok, b, 2, 3) == [];
    assert Walk(ok, b, 2, 2) == [2] + [];
    assert Walk(ok, b, 1, 3) == [2];
    assert Walk(ok, b, 1, 2) == [2] + [2];
    assert Walk(ok, b, 1, 1) == [1] + [2, 2];
    assert Walk(ok, b, 0, 3) == [1, 2, 2];
    assert Walk(ok, b, 0, 2) == [2] + [1, 2, 2];
    assert Walk(ok, b, 0, 1) == [1] + [2, 1, 2, 2];
    assert Walk(ok, b, 0, 0) == [0] + [1, 2, 1, 2, 2];
  }

  lemma OverrunBounds()
    ensures Sorted(OVERRUN_ROWS) && BoundsOf(OVERRUN_ROWS, OVERRUN_BLOCK.bounds) && OVERRUN_BLOCK.bounds.Valid()
    ensures OVERRUN_BLOCK.bounds.Passes(1) == [true, true, true, false]
  {
    var rows, bounds := OVERRUN_ROWS, OVERRUN_BLOCK.bounds;
    assert PartitionBegin(rows, 0) == PeerBegin(rows, 0) == 0;
    assert PartitionBegin(rows, 1) == PeerBegin(rows, 1) == 1;
    assert PartitionBegin(rows, 2) == PeerBegin(rows, 2) == 2;
    assert PartitionBegin(rows, 3) == 2 && PeerBegin(rows, 3) == 3;
    assert bounds.Moves(1) && bounds.Moves(2) && bounds.Moves(3);
  }

  lemma OverrunBegins()
    requires OVERRUN_BLOCK.bounds.Valid()
    ensures Begins(OVERRUN_BLOCK.bounds, OVERRUN_BLOCK.begins)
    ensures Inside(OVERRUN_BLOCK.bounds, OVERRUN_BLOCK.begins) == [1, 2]
  {
    assert FirstAfter([1, 2], 0, 0) == 0;
  }

  /** Four sorted rows whose only chunk takes six slots. */
  lemma OverrunRows()
    ensures Sorted(OVERRUN_ROWS) && Covers(OVERRUN_ROWS, [OVERRUN_BLOCK], 0)
    ensures OVERRUN_BLOCK.Selected(1, true) == [0, 1, 2, 1, 2, 2] && !OVERRUN_BLOCK.Fits(1, true)
    ensures Result(OVERRUN_ROWS, [OVERRUN_BLOCK], 1, true) == Undefined
  {
    OverrunBounds();
    OverrunBegins();
    hide Walk, Indices, Sorted, BoundsOf, Begins, Output;
    OverrunWalk(OVERRUN_BLOCK.bounds.Passes(1), Inside(OVERRUN_BLOCK.bounds, OVERRUN_BLOCK.begins));
    var rest := [OVERRUN_BLOCK][1..];
    assert rest == [] && Covers(OVERRUN_ROWS, rest, 4);
  }

  // ----- The executor over all chunks -----

  // The ranks that belong to these rows.
  ghost predicate RanksOf(ranks: seq<nat>, some: seq<Tuple>, rows: seq<Tuple>) {
    |ranks| == |some| && forall j :: 0 <= j < |ranks| ==> ranks[j] == Rank(rows, some[j])
  }

  lemma GatheredRanks(rows: seq<Tuple>, bounds: Bounds, sel: seq<nat>, rdata: seq<nat>)
    requires Sorted(rows) && BoundsOf(rows, bounds) && bounds.Valid() && |rdata| == |bounds.peerBegin|
    requires forall j :: 0 <= j < |sel| ==> sel[j] < |rdata| && rdata[sel[j]] == bounds.RankOf(sel[j])
    ensures Within(rows, bounds.row, sel)
    ensures RanksOf(Slice(rdata, sel), Gather(rows, bounds.row, sel), rows)
  {
    GatherAt(rows, bounds.row, sel);
    BoundsGiveRanks(rows, bounds);
  }

  // One chunk: its ranks are computed, rows are selected, and the chunk is sliced.
  method ExecuteBlock(state: WindowPeerLocalState, rows: seq<Tuple>, block: Block, k: nat, early: bool)
    returns (fits: bool, part: seq<Tuple>, ranks: seq<nat>)
    requires Sorted(rows) && block.Of(rows)
    modifies state
    ensures fits == block.Fits(k, early)
    ensures fits ==> part == Gather(rows, block.bounds.row, block.Selected(k, early)) && RanksOf(ranks, part, rows)
  {
    hide Sorted, Walk, Indices, Gather, RanksOf, BoundsOf, Begins, Slice;
    var bounds := block.bounds;
    var rdata := new nat[|bounds.peerBegin|];
    fits, part, ranks := true, [], [];
    if early {
      fits := state.EvaluateAndStop(bounds, block.begins, k, rdata);
      if !fits {
        return;
      }
      assert forall j :: 0 <= j < state.matchCount ==> state.Selected()[j] in state.Selected();
    } else {
      state.EvaluateAndFilter(bounds, k, rdata);
    }
    var sel := state.sel[..state.matchCount];
    assert sel == block.Selected(k, early);
    GatheredRanks(rows, bounds, sel, rdata[..]);
    part := Gather(rows, bounds.row, sel);
    ranks := Slice(rdata[..], sel);
  }

  // The result so far, and what is still to be computed.
  ghost predicate Executing(rows: seq<Tuple>, blocks: seq<Block>, row: nat, k: nat, early: bool,
                            answer: seq<Tuple>, all: seq<Tuple>) {
    Covers(rows, blocks, row) && answer + Output(rows, blocks, row, k, early) == all
  }

  // What is still to be executed has room exactly when all has.
  ghost predicate Fitting(rows: seq<Tuple>, blocks: seq<Block>, row: nat, k: nat, early: bool, all: bool) {
    Covers(rows, blocks, row) && (AllFit(rows, blocks, row, k, early) <==> all)
  }

  lemma FittingOne(rows: seq<Tuple>, blocks: seq<Block>, row: nat, k: nat, early: bool, all: bool)
    requires Fitting(rows, blocks, row, k, early, all) && blocks != []
    ensures blocks[0].Of(rows)
    ensures if blocks[0].Fits(k, early)
            then Fitting(rows, blocks[1..], row + |blocks[0].bounds.peerBegin|, k, early, all)
            else !all
  {
  }

  lemma ExecutesOne(rows: seq<Tuple>, blocks: seq<Block>, row: nat, k: nat, early: bool,
                    answer: seq<Tuple>, all: seq<Tuple>)
    requires Executing(rows, blocks, row, k, early, answer, all) && blocks != []
    ensures var bounds := blocks[0].bounds;
            && blocks[0].Of(rows) && bounds.row == row
            && Executing(rows, blocks[1..], row + |bounds.peerBegin|, k, early,
                         answer + Gather(rows, row, blocks[0].Selected(k, early)), all)
  {
    hide Gather, Covers, Output, Begins, BoundsOf;
    OutputOfFirst(rows, blocks, row, k, early);
    var rest := Output(rows, blocks[1..], row + |blocks[0].bounds.peerBegin|, k, early);
    var part := Gather(rows, row, blocks[0].Selected(k, early));
    assert answer + (part + rest) == (answer + part) + rest;
  }

  lemma ExecutesNone(rows: seq<Tuple>, blocks: seq<Block>, k: nat, early: bool)
    requires Covers(rows, blocks, 0)
    ensures Executing(rows, blocks, 0, k, early, [], Output(rows, blocks, 0, k, early))
    ensures Fitting(rows, blocks, 0, k, early, AllFit(rows, blocks, 0, k, early))
  {
    var all := Output(rows, blocks, 0, k, early);
    assert [] + all == all;
  }

  lemma ExecutesAll(rows: seq<Tuple>, row: nat, k: nat, early: bool, answer: seq<Tuple>, all: seq<Tuple>)
    requires Executing(rows, [], row, k, early, answer, all)
    ensures answer == all
  {
  }

  lemma FittingNone(rows: seq<Tuple>, row: nat, k: nat, early: bool, all: bool)
    requires Fitting(rows, [], row, k, early, all)
    ensures all
  {
  }

  /** The executor over all chunks, with one local state. */
  method Execute(rows: seq<Tuple>, blocks: seq<Block>, k: nat, early: bool)
    returns (fits: bool, answer: seq<Tuple>, ranks: seq<nat>)
    requires Sorted(rows) && Covers(rows, blocks, 0)
    ensures fits == Result(rows, blocks, k, early).Finished?
    ensures fits ==> answer == Result(rows, blocks, k, early).rows && RanksOf(ranks, answer, rows)
  {
    hide Executing, Fitting, AllFit, Sorted, Rank, Gather, Covers, Output, Block.Of, Block.Fits;
    var state := new WindowPeerLocalState();
    ghost var all, room := Output(rows, blocks, 0, k, early), AllFit(rows, blocks, 0, k, early);
    answer, ranks := [], [];
    ghost var row: nat := 0;
    ExecutesNone(rows, blocks, k, early);
    assert blocks[0..] == blocks;
    for c := 0 to |blocks|
      invariant Executing(rows, blocks[c..], row, k, early, answer, all) && RanksOf(ranks, answer, rows)
      invariant Fitting(rows, blocks[c..], row, k, early, room) && fresh(state)
    {
      assert blocks[c..][0] == blocks[c] && blocks[c..][1..] == blocks[c + 1..];
      ExecutesOne(rows, blocks[c..], row, k, early, answer, all);
      FittingOne(rows, blocks[c..], row, k, early, room);
      var part, partRanks;
      fits, part, partRanks := ExecuteBlock(state, rows, blocks[c], k, early);
      if !fits {
        return;
      }
      answer := answer + part;
      ranks := ranks + partRanks;
      row := row + |blocks[c].bounds.peerBegin|;
    }
    ExecutesAll(rows, row, k, early, answer, all);
    FittingNone(rows, row, k, early, room);
    return true, answer, ranks;
  }

  // ----- Threads, sorted runs, merge and executor together -----

  // Tuples with equal hash prefixes: the slices of their sorted runs, what the merge makes of them,
  // and the chunks in which the executor reads the result.
  datatype Group = Group(slices: seq<seq<Tuple>>, merged: seq<seq<Tuple>>, blocks: seq<Block>) {
    // What is left after the merged partitions have been pruned on scanning.
    ghost function Rows(k: nat): seq<Tuple> {
      KeptParts(merged, DenseFlags(merged, k))
    }

    ghost predicate Arranged(k: nat) {
      && (forall p :: 0 <= p < |slices| ==> Sorted(slices[p])) && Sorted(Concat(merged))
      && multiset(Concat(merged)) == multiset(KeptParts(slices, DenseFlags(slices, k)))
      && Covers(Rows(k), blocks, 0)
    }
  }

  ghost function Input(groups: seq<Group>): seq<Tuple> {
    if groups == [] then [] else Concat(groups[0].slices) + Input(groups[1..])
  }

  ghost predicate Apart(a: seq<Tuple>, b: seq<Tuple>) {
    forall i, j :: 0 <= i < |a| && 0 <= j < |b| ==> a[i].partition != b[j].partition
  }

  // Each group is arranged, and no partition is in two groups.
  ghost predicate AllArranged(groups: seq<Group>, k: nat) {
    groups != [] ==>
      && groups[0].Arranged(k) && Apart(Concat(groups[0].slices), Input(groups[1..]))
      && AllArranged(groups[1..], k)
  }

  ghost function Answer(groups: seq<Group>, k: nat, early: bool): seq<Tuple>
    requires AllArranged(groups, k)
  {
    if groups == [] then []
    else Output(groups[0].Rows(k), groups[0].blocks, 0, k, early) + Answer(groups[1..], k, early)
  }

  ghost predicate AllGroupsFit(groups: seq<Group>, k: nat, early: bool)
    requires AllArranged(groups, k)
  {
    groups == [] ||
    (AllFit(groups[0].Rows(k), groups[0].blocks, 0, k, early) && AllGroupsFit(groups[1..], k, early))
  }

  // What the query comes to.
  ghost function QueryResult(groups: seq<Group>, k: nat, early: bool): Run
    requires AllArranged(groups, k)
  {
    if AllGroupsFit(groups, k, early) then Finished(Answer(groups, k, early)) else Undefined
  }

  ghost predicate AnyGroupOverruns(groups: seq<Group>, k: nat)
    requires AllArranged(groups, k)
  {
    groups != [] && (AnyOverruns(groups[0].Rows(k), groups[0].blocks, 0, k) || AnyGroupOverruns(groups[1..], k))
  }

  ghost predicate AnyGroupSkews(groups: seq<Group>, k: nat)
    requires AllArranged(groups, k)
  {
    groups != [] && (AnySkews(groups[0].Rows(k), groups[0].blocks, 0, k) || AnyGroupSkews(groups[1..], k))
  }

  predicate InOrder(t: Tuple, u: Tuple) {
    t.partition < u.partition || (t.partition == u.partition && t.order <= u.order)
  }

  lemma {:induction false} KeptWithin(rows: seq<Tuple>, keep: seq<bool>, t: Tuple)
    requires |rows| == |keep| && t in Kept(rows, keep)
    ensures t in rows
  {
    if t in Kept(rows[1..], keep[1..]) {
      KeptWithin(rows[1..], keep[1..], t);
    }
  }

  lemma SortedPrepend(t: Tuple, rows: seq<Tuple>)
    requires Sorted(rows) && forall j :: 0 <= j < |rows| ==> InOrder(t, rows[j])
    ensures Sorted([t] + rows)
  {
    var all := [t] + rows;
    forall i, j | 0 <= i < j < |all| ensures InOrder(all[i], all[j]) {
      assert all[j] == rows[j - 1] && (i > 0 ==> all[i] == rows[i - 1]);
    }
  }

  lemma {:induction false} KeptSorted(rows: seq<Tuple>, keep: seq<bool>)
    requires Sorted(rows) && |rows| == |keep|
    ensures Sorted(Kept(rows, keep))
  {
    if rows != [] {
      var rest := Kept(rows[1..], keep[1..]);
      KeptSorted(rows[1..], keep[1..]);
      forall j | 0 <= j < |rest| ensures InOrder(rows[0], rest[j]) {
        KeptWithin(rows[1..], keep[1..], rest[j]);
        var i :| 0 <= i < |rows[1..]| && rows[1..][i] == rest[j];
        assert rows[i + 1] == rest[j];
      }
      hide Sorted;
      SortedPrepend(rows[0], rest);
      assert [] + rest == rest;
    }
  }

  lemma {:induction false} PartSorted(parts: seq<seq<Tuple>>, p: nat)
    requires Sorted(Concat(parts)) && p < |parts|
    ensures Sorted(parts[p])
  {
    var first, rest := parts[0], Concat(parts[1..]);
    if p == 0 {
      forall i, j | 0 <= i < j < |first| ensures InOrder(first[i], first[j]) {
        assert first[i] == Concat(parts)[i] && first[j] == Concat(parts)[j];
      }
    } else {
      forall i, j | 0 <= i < j < |rest| ensures InOrder(rest[i], rest[j]) {
        assert rest[i] == Concat(parts)[|first| + i] && rest[j] == Concat(parts)[|first| + j];
      }
      PartSorted(parts[1..], p - 1);
    }
  }

  // What the executor reads is sorted, and has the answer of the group's slices.
  lemma GroupAnswer(group: Group, k: nat)
    requires group.Arranged(k)
    ensures Sorted(group.Rows(k))
    ensures multiset(TopK(group.Rows(k), k)) == multiset(TopK(Concat(group.slices), k))
  {
    var merged := group.merged;
    forall p | 0 <= p < |merged| ensures Sorted(merged[p]) {
      PartSorted(merged, p);
    }
    MergePruningIsSafe(group.slices, merged, k);
    AllDropBeyond(merged, k);
    assert [] + Concat(merged) == Concat(merged);
    PartsConcatenated(merged, DenseFlags(merged, k), [], Concat(merged), k);
    KeptSorted(Concat(merged), ConcatFlags(DenseFlags(merged, k)));
  }

  lemma {:induction false} RankApart(a: seq<Tuple>, b: seq<Tuple>, t: Tuple)
    requires forall j :: 0 <= j < |b| ==> b[j].partition != t.partition
    ensures Rank(a + b, t) == Rank(a, t) == Rank(b + a, t)
  {
    SmallerAppend(a, b, t);
    SmallerAppend(b, a, t);
    NoneBelow(b, t);
  }

  lemma {:induction false} PassingSame(some: seq<Tuple>, all: seq<Tuple>, all': seq<Tuple>, k: nat)
    requires forall j :: 0 <= j < |some| ==> Rank(all, some[j]) == Rank(all', some[j])
    ensures Passing(some, all, k) == Passing(some, all', k)
  {
    if some != [] {
      PassingSame(some[1..], all, all', k);
    }
  }

  lemma TopKApart(a: seq<Tuple>, b: seq<Tuple>, k: nat)
    requires Apart(a, b)
    ensures TopK(a + b, k) == TopK(a, k) + TopK(b, k)
  {
    hide Rank;
    PassingAppend(a, b, a + b, k);
    forall i | 0 <= i < |a| ensures Rank(a + b, a[i]) == Rank(a, a[i]) {
      RankApart(a, b, a[i]);
    }
    PassingSame(a, a + b, a, k);
    forall j | 0 <= j < |b| ensures Rank(a + b, b[j]) == Rank(b, b[j]) {
      RankApart(b, a, b[j]);
    }
    PassingSame(b, a + b, b, k);
  }

  lemma {:induction false} GroupsAnswer(groups: seq<Group>, k: nat)
    requires AllArranged(groups, k)
    ensures multiset(Answer(groups, k, false)) == multiset(TopK(Input(groups), k))
  {
    if groups != [] {
      var group, rest := groups[0], Input(groups[1..]);
      hide TopK, Output, Covers, Apart, DenseFlags, Sorted;
      GroupAnswer(group, k);
      BlocksGiveTheAnswer(group.Rows(k), group.blocks, k);
      GroupsAnswer(groups[1..], k);
      TopKApart(Concat(group.slices), rest, k);
    }
  }

  lemma {:induction false} GroupsStop(groups: seq<Group>, k: nat)
    requires AllArranged(groups, k)
    ensures var plain, early := Answer(groups, k, false), Answer(groups, k, true);
            && multiset(plain) <= multiset(early)
            && (forall t :: t in early <==> t in plain)
            && (if AnyGroupSkews(groups, k) then |early| > |plain| else early == plain)
    ensures AllGroupsFit(groups, k, true) <==> !AnyGroupOverruns(groups, k)
    ensures AllGroupsFit(groups, k, false) && (!AnyGroupSkews(groups, k) ==> AllGroupsFit(groups, k, true))
  {
    if groups != [] {
      hide Output, Covers, Apart, DenseFlags, Sorted;
      StoppedOutput(groups[0].Rows(k), groups[0].blocks, 0, k);
      GroupsStop(groups[1..], k);
    }
  }

  // ----- The ranks of the result -----

  lemma {:induction false} ConcatWithin(parts: seq<seq<Tuple>>, keep: seq<seq<bool>>, k: nat, t: Tuple)
    requires PartsDropBeyond(parts, keep, k) && t in KeptParts(parts, keep)
    ensures t in Concat(parts)
  {
    assert [] + Concat(parts) == Concat(parts);
    PartsConcatenated(parts, keep, [], Concat(parts), k);
    KeptWithin(Concat(parts), ConcatFlags(keep), t);
  }

  // A group's rows within rank k have the rank they had among its slices.
  lemma GroupRank(group: Group, k: nat, t: Tuple)
    requires group.Arranged(k) && t in group.Rows(k) && Rank(group.Rows(k), t) <= k
    ensures t in Concat(group.slices) && Rank(Concat(group.slices), t) == Rank(group.Rows(k), t)
  {
    var slices, merged := group.slices, group.merged;
    var kept := KeptParts(slices, DenseFlags(slices, k));
    forall p | 0 <= p < |merged| ensures Sorted(merged[p]) {
      PartSorted(merged, p);
    }
    AllDropBeyond(merged, k);
    AllDropBeyond(slices, k);
    hide Sorted, DenseFlags, PartsDropBeyond, KeptParts, Concat, Covers;
    PartwiseRankKept(merged, DenseFlags(merged, k), t, k);
    ConcatWithin(merged, DenseFlags(merged, k), k, t);
    SmallerPermuted(Concat(merged), kept, t);
    assert t in multiset(kept);
    PartwiseRankKept(slices, DenseFlags(slices, k), t, k);
    ConcatWithin(slices, DenseFlags(slices, k), k, t);
  }

  lemma {:induction false} InputRank(groups: seq<Group>, p: nat, k: nat, t: Tuple)
    requires AllArranged(groups, k) && p < |groups| && t in Concat(groups[p].slices)
    ensures t in Input(groups) && Rank(Input(groups), t) == Rank(Concat(groups[p].slices), t)
  {
    var first, rest := Concat(groups[0].slices), Input(groups[1..]);
    if p == 0 {
      RankApart(first, rest, t);
    } else {
      InputRank(groups[1..], p - 1, k, t);
      RankApart(rest, first, t);
    }
  }

  /** A row of the result has the rank it has among all tuples of the query. */
  lemma RankAmongAll(threads: seq<seq<Tuple>>, keep: seq<seq<bool>>, groups: seq<Group>, p: nat, k: nat, t: Tuple)
    requires PartsDropBeyond(threads, keep, k)
    requires AllArranged(groups, k) && multiset(Input(groups)) == multiset(KeptParts(threads, keep))
    requires p < |groups| && t in TopK(groups[p].Rows(k), k)
    ensures Rank(Concat(threads), t) == Rank(groups[p].Rows(k), t) <= k
  {
    var rows := groups[p].Rows(k);
    PassingRanks(rows, rows, k, t);
    ArrangedAt(groups, p, k);
    GroupRank(groups[p], k, t);
    InputRank(groups, p, k, t);
    SmallerPermuted(Input(groups), KeptParts(threads, keep), t);
    PartwiseRankKept(threads, keep, t, k);
  }

  lemma {:induction false} ArrangedAt(groups: seq<Group>, p: nat, k: nat)
    requires AllArranged(groups, k) && p < |groups|
    ensures groups[p].Arranged(k) && AllArranged(groups[p + 1..], k) && AllArranged(groups[p..], k)
    ensures Answer(groups[p..], k, false) ==
              Output(groups[p].Rows(k), groups[p].blocks, 0, k, false) + Answer(groups[p + 1..], k, false)
    ensures Answer(groups[p..], k, true) ==
              Output(groups[p].Rows(k), groups[p].blocks, 0, k, true) + Answer(groups[p + 1..], k, true)
    ensures forall early :: AllGroupsFit(groups[p..], k, early) <==>
              AllFit(groups[p].Rows(k), groups[p].blocks, 0, k, early) && AllGroupsFit(groups[p + 1..], k, early)
  {
    hide Covers, Output, Apart, Sorted, AllFit;
    if p == 0 {
      assert groups[0..] == groups;
    } else {
      ArrangedAt(groups[1..], p - 1, k);
      assert groups[1..][p..] == groups[p + 1..] && groups[1..][p - 1..] == groups[p..];
    }
  }

  lemma NoGroups(k: nat, early: bool)
    ensures AllArranged([], k) && Answer([], k, early) == [] && AllGroupsFit([], k, early)
  {
  }

  // ----- The steps of the query, with the executor and the scanner at work -----

  // The input of each thread.
  function Inputs(threads: seq<seq<seq<Tuple>>>): (parts: seq<seq<Tuple>>)
    ensures |parts| == |threads| && forall p :: 0 <= p < |parts| ==> parts[p] == Concat(threads[p])
  {
    seq(|threads|, p requires 0 <= p < |threads| => Concat(threads[p]))
  }

  lemma {:induction false} SelectedParts(parts: seq<seq<Tuple>>, keep: seq<seq<bool>>, kept: seq<seq<Tuple>>)
    requires |parts| == |keep| == |kept|
    requires forall p :: 0 <= p < |parts| ==> |parts[p]| == |keep[p]| && kept[p] == Kept(parts[p], keep[p])
    ensures Concat(kept) == KeptParts(parts, keep)
  {
    if parts != [] {
      forall p | 0 <= p < |parts[1..]|
        ensures |parts[1..][p]| == |keep[1..][p]| && kept[1..][p] == Kept(parts[1..][p], keep[1..][p])
      {
        assert parts[1..][p] == parts[p + 1] && keep[1..][p] == keep[p + 1] && kept[1..][p] == kept[p + 1];
      }
      SelectedParts(parts[1..], keep[1..], kept[1..]);
    }
  }

  /** All threads sink their chunks. Partitions that share a hash value may do so in different threads. */
  method SinkThreads(hash: Hash, threads: seq<seq<seq<Tuple>>>, prune: seq<seq<bool>>, k: nat)
    returns (appended: seq<seq<Tuple>>, ghost keep: seq<seq<bool>>)
    requires k > 0 && |prune| == |threads|
    requires forall p :: 0 <= p < |threads| ==>
               |prune[p]| == |threads[p]| && CollisionFree(hash, Concat(threads[p])) && InRange(threads[p])
    ensures PartsDropBeyond(Inputs(threads), keep, k)
    ensures Concat(appended) == KeptParts(Inputs(threads), keep)
  {
    appended, keep := [], [];
    for p := 0 to |threads|
      invariant |appended| == |keep| == p
      invariant forall q :: 0 <= q < p ==>
                  |keep[q]| == |Concat(threads[q])| && appended[q] == Kept(Concat(threads[q]), keep[q]) &&
                  DropsBeyond(Concat(threads[q]), keep[q], Concat(threads[q]), k)
    {
      hide DropsBeyond, CollisionFree, TopK;
      var part;
      ghost var flags;
      part, flags := SinkAll(hash, threads[p], prune[p], k);
      appended, keep := appended + [part], keep + [flags];
    }
    SelectedParts(Inputs(threads), keep, appended);
  }

  // Order values fit the heap's sentinel.
  predicate InRange(chunks: seq<seq<Tuple>>) {
    forall c, i :: 0 <= c < |chunks| && 0 <= i < |chunks[c]| ==> chunks[c][i].order >= INT32_MIN
  }

  /** The merged partitions of a group, scanned one after the other. */
  method ScanGroup(merged: seq<seq<Tuple>>, k: nat, vectorSize: nat) returns (rows: seq<Tuple>)
    requires vectorSize > 0 && Sorted(Concat(merged))
    ensures rows == KeptParts(merged, DenseFlags(merged, k))
  {
    var scanned: seq<seq<Tuple>> := [];
    for p := 0 to |merged|
      invariant |scanned| == p
      invariant forall q :: 0 <= q < p ==> scanned[q] == Kept(merged[q], WithinDense(merged[q], k))
    {
      hide Sorted, WithinDense, Kept, TopK;
      PartSorted(merged, p);
      var partition := new MergedPartition(merged[p]);
      var part := partition.ScanAll(k, vectorSize);
      scanned := scanned + [part];
    }
    SelectedParts(merged, DenseFlags(merged, k), scanned);
    rows := Concat(scanned);
  }

  lemma OutputMembers(rows: seq<Tuple>, blocks: seq<Block>, k: nat, early: bool)
    requires Sorted(rows) && Covers(rows, blocks, 0)
    ensures forall t :: t in Output(rows, blocks, 0, k, early) ==> t in TopK(rows, k)
  {
    FilteredOutput(rows, blocks, 0, k);
    assert rows[0..] == rows;
    StoppedOutput(rows, blocks, 0, k);
  }

  lemma PartRanks(threads: seq<seq<Tuple>>, keep: seq<seq<bool>>, groups: seq<Group>, p: nat, k: nat, early: bool,
                  part: seq<Tuple>, ranks: seq<nat>)
    requires PartsDropBeyond(threads, keep, k)
    requires AllArranged(groups, k) && multiset(Input(groups)) == multiset(KeptParts(threads, keep))
    requires p < |groups| && groups[p].Arranged(k) && Sorted(groups[p].Rows(k))
    requires part == Output(groups[p].Rows(k), groups[p].blocks, 0, k, early) && RanksOf(ranks, part, groups[p].Rows(k))
    ensures RanksOf(ranks, part, Concat(threads))
  {
    hide AllArranged, Sorted, Covers, Output, DenseFlags, PartsDropBeyond, KeptParts, Concat, Input, Rank;
    OutputMembers(groups[p].Rows(k), groups[p].blocks, k, early);
    forall j | 0 <= j < |part| ensures ranks[j] == Rank(Concat(threads), part[j]) {
      assert part[j] in TopK(groups[p].Rows(k), k);
      RankAmongAll(threads, keep, groups, p, k, part[j]);
    }
  }

  /** The source side: every group is scanned and executed. Each row of the result comes with the rank
      it has among all tuples that the threads were given. */
  method ExecuteGroups(groups: seq<Group>, k: nat, early: bool, vectorSize: nat,
                       ghost threads: seq<seq<Tuple>>, ghost keep: seq<seq<bool>>)
    returns (fits: bool, answer: seq<Tuple>, ranks: seq<nat>)
    requires vectorSize > 0 && PartsDropBeyond(threads, keep, k)
    requires AllArranged(groups, k) && multiset(Input(groups)) == multiset(KeptParts(threads, keep))
    ensures fits == QueryResult(groups, k, early).Finished?
    ensures fits ==> answer == QueryResult(groups, k, early).rows && RanksOf(ranks, answer, Concat(threads))
  {
    hide AllArranged, Sorted, Covers, Output, DenseFlags, PartsDropBeyond, KeptParts, Concat, Input, Rank, Answer;
    hide AllGroupsFit, AllFit;
    NoGroups(k, early);
    answer, ranks := [], [];
    ghost var all := Answer(groups, k, early);
    assert groups[0..] == groups && answer + all == all;
    for p := 0 to |groups|
      invariant AllArranged(groups[p..], k) && RanksOf(ranks, answer, Concat(threads))
      invariant answer + Answer(groups[p..], k, early) == all
      invariant AllGroupsFit(groups[p..], k, early) <==> AllGroupsFit(groups, k, early)
    {
      ArrangedAt(groups, p, k);
      GroupAnswer(groups[p], k);
      var rows := ScanGroup(groups[p].merged, k, vectorSize);
      var part, partRanks;
      fits, part, partRanks := Execute(rows, groups[p].blocks, k, early);
      if !fits {
        return;
      }
      PartRanks(threads, keep, groups, p, k, early, part, partRanks);
      assert answer + (part + Answer(groups[p + 1..], k, early)) == (answer + part) + Answer(groups[p + 1..], k, early);
      answer := answer + part;
      ranks := ranks + partRanks;
    }
    assert groups[|groups|..] == [];
    return true, answer, ranks;
  }

  /** The query: threads drop tuples beyond rank k of their own, the rest is grouped by hash, sorted,
      pruned, merged and pruned again, and the executor selects from each group. Whatever the threads,
      groups, slices, merged partitions and chunks are, the result is the answer over all tuples. With
      early stopping it is the answer exactly when no chunk skews, it is undefined exactly when some
      chunk's walk takes more slots than the chunk has rows, and otherwise it holds the same rows. */
  lemma PipelineGivesTheAnswer(threads: seq<seq<Tuple>>, keep: seq<seq<bool>>, groups: seq<Group>, k: nat)
    requires PartsDropBeyond(threads, keep, k)
    requires AllArranged(groups, k) && multiset(Input(groups)) == multiset(KeptParts(threads, keep))
    ensures var answer := TopK(Concat(threads), k);
            var plain, early := QueryResult(groups, k, false), QueryResult(groups, k, true);
            && plain.Finished? && multiset(plain.rows) == multiset(answer)
            && (early.Finished? && multiset(early.rows) == multiset(answer) <==> !AnyGroupSkews(groups, k))
            && (early == Undefined <==> AnyGroupOverruns(groups, k))
            && (early.Finished? ==>
                  multiset(answer) <= multiset(early.rows) && forall t :: t in early.rows <==> t in answer)
  {
    var answer, plain, early := TopK(Concat(threads), k), Answer(groups, k, false), Answer(groups, k, true);
    GroupsAnswer(groups, k);
    TopKPermuted(Input(groups), KeptParts(threads, keep), k);
    SafePartwisePruning(threads, keep, k);
    GroupsStop(groups, k);
    assert |multiset(early)| == |early| && |multiset(plain)| == |plain|;
    forall t ensures t in plain <==> t in answer {
      assert t in multiset(plain) <==> t in multiset(answer);
    }
  }
}
