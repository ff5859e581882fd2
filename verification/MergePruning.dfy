/** Pruning while sorted runs are merged: of every partition only the first k distinct order values of
    a run are read, and the merged result is thinned out in the same way while it is scanned. */
module MergePruning {
  import opened WindowRank
  import opened Selections

  ghost predicate Sorted(run: seq<Tuple>) {
    forall i, j :: 0 <= i < j < |run| ==>
      run[i].partition < run[j].partition || (run[i].partition == run[j].partition && run[i].order <= run[j].order)
  }

  function DenseRank(run: seq<Tuple>, i: nat): (d: nat)
    requires i < |run|
    ensures d >= 1
  {
    if i == 0 || run[i - 1].partition != run[i].partition then 1
    else if run[i - 1].order == run[i].order then DenseRank(run, i - 1)
    else DenseRank(run, i - 1) + 1
  }

  // The first order value of a partition is read whatever the limit.
  function Limit(k: nat): nat {
    if k == 0 then 1 else k
  }

  ghost function WithinDense(run: seq<Tuple>, k: nat): (keep: seq<bool>)
    ensures |keep| == |run|
    ensures forall i :: 0 <= i < |run| ==> (keep[i] <==> DenseRank(run, i) <= Limit(k))
  {
    seq(|run|, i requires 0 <= i < |run| => DenseRank(run, i) <= Limit(k))
  }

  lemma {:induction false} DenseRankBelowRank(run: seq<Tuple>, i: nat)
    requires Sorted(run) && i < |run|
    ensures DenseRank(run, i) <= Rank(run, run[i])
  {
    if i > 0 && run[i - 1].partition == run[i].partition {
      DenseRankBelowRank(run, i - 1);
      if run[i - 1].order != run[i].order {
        SmallerStrict(run, i - 1, run[i]);
      } else {
        SameOrder(run, run[i - 1], run[i]);
      }
    }
  }

  lemma {:induction false} SameOrder(rows: seq<Tuple>, t: Tuple, u: Tuple)
    requires t.partition == u.partition && t.order == u.order
    ensures Smaller(rows, t) == Smaller(rows, u)
  {
    if rows != [] {
      SameOrder(rows[1..], t, u);
    }
  }

  // The order values below i's in its partition.
  ghost function OrdersBelow(run: seq<Tuple>, i: nat): set<int>
    requires i < |run|
  {
    set j | 0 <= j < |run| && run[j].partition == run[i].partition && run[j].order < run[i].order :: run[j].order
  }

  /** The dense rank counts the distinct order values below a tuple's in its partition. */
  lemma {:induction false} DenseRankCounts(run: seq<Tuple>, i: nat)
    requires Sorted(run) && i < |run|
    ensures DenseRank(run, i) == |OrdersBelow(run, i)| + 1
  {
    if i == 0 || run[i - 1].partition != run[i].partition {
      forall j | 0 <= j < |run| && run[j].partition == run[i].partition ensures run[j].order >= run[i].order {
        FirstOfPartition(run, i, j);
      }
      assert OrdersBelow(run, i) == {};
    } else {
      DenseRankCounts(run, i - 1);
      var before := run[i - 1].order;
      assert before <= run[i].order;
      if before == run[i].order {
        assert OrdersBelow(run, i) == OrdersBelow(run, i - 1);
      } else {
        forall j | 0 <= j < |run| && run[j].partition == run[i].partition && run[j].order < run[i].order
          ensures run[j].order <= before
        {
          assert j < i;
        }
        assert OrdersBelow(run, i) == OrdersBelow(run, i - 1) + {before};
        assert before !in OrdersBelow(run, i - 1);
      }
    }
  }

  lemma FirstOfPartition(run: seq<Tuple>, i: nat, j: nat)
    requires Sorted(run) && i < |run| && j < |run| && run[j].partition == run[i].partition
    requires i == 0 || run[i - 1].partition != run[i].partition
    ensures run[j].order >= run[i].order
  {
    assert i > 0 ==> run[i - 1].partition < run[i].partition;
    assert forall l :: 0 <= l < i - 1 ==> run[l].partition <= run[i - 1].partition;
  }

  /** A tuple of a sorted run is kept exactly when fewer than k distinct order values are below its own in
      its partition, or none is. */
  lemma KeptExactly(run: seq<Tuple>, k: nat, i: nat)
    requires Sorted(run) && i < |run|
    ensures WithinDense(run, k)[i] <==> |OrdersBelow(run, i)| < k || OrdersBelow(run, i) == {}
  {
    DenseRankCounts(run, i);
    assert |OrdersBelow(run, i)| == 0 <==> OrdersBelow(run, i) == {};
  }

  /** What dense pruning drops from a sorted run is beyond rank k. */
  lemma DenseDropsBeyond(run: seq<Tuple>, k: nat)
    requires Sorted(run)
    ensures DropsBeyond(run, WithinDense(run, k), run, k)
  {
    forall i | 0 <= i < |run| && !WithinDense(run, k)[i] ensures Smaller(run, run[i]) >= k {
      DenseRankBelowRank(run, i);
    }
  }

  // The tuples of run[from..till] that dense pruning keeps.
  function DenseKept(run: seq<Tuple>, k: nat, from: nat, till: nat): seq<Tuple>
    requires from <= till <= |run|
  {
    if till == from then []
    else DenseKept(run, k, from, till - 1) + (if DenseRank(run, till - 1) <= Limit(k) then [run[till - 1]] else [])
  }

  lemma {:induction false} DenseKeptAppend(run: seq<Tuple>, k: nat, from: nat, mid: nat, till: nat)
    requires from <= mid <= till <= |run|
    ensures DenseKept(run, k, from, till) == DenseKept(run, k, from, mid) + DenseKept(run, k, mid, till)
    decreases till
  {
    if mid < till {
      DenseKeptAppend(run, k, from, mid, till - 1);
    }
  }

  lemma {:induction false} DenseKeptIsKept(run: seq<Tuple>, keep: seq<bool>, k: nat, from: nat)
    requires from <= |run| && keep == WithinDense(run, k)
    ensures DenseKept(run, k, from, |run|) == Kept(run[from..], keep[from..])
    decreases |run| - from
  {
    if from < |run| {
      DenseKeptIsKept(run, keep, k, from + 1);
      DenseKeptAppend(run, k, from, from + 1, |run|);
      assert DenseKept(run, k, from, from + 1) == if keep[from] then [run[from]] else [];
      assert run[from..][1..] == run[from + 1..] && keep[from..][1..] == keep[from + 1..];
    }
  }

  lemma DenseKeptIsSafe(run: seq<Tuple>, k: nat)
    requires Sorted(run)
    ensures DenseKept(run, k, 0, |run|) == Kept(run, WithinDense(run, k))
    ensures TopK(DenseKept(run, k, 0, |run|), k) == TopK(run, k)
  {
    var keep := WithinDense(run, k);
    DenseKeptIsKept(run, keep, k, 0);
    assert run[0..] == run && keep[0..] == keep;
    DenseDropsBeyond(run, k);
    SafePruning(run, keep, k);
  }

  // ----- The scanner's state -----

  // partition, orderBy and count after the first j tuples of the run.
  ghost predicate Tracks(run: seq<Tuple>, j: nat, partition: int, orderBy: int, count: nat, k: nat) {
    0 < j <= |run| ==>
      var last := run[j - 1];
      var dense := DenseRank(run, j - 1);
      && partition == last.partition && count == (if dense <= Limit(k) then dense else Limit(k))
      && (if dense <= Limit(k) then orderBy == last.order else orderBy < last.order)
  }

  // The state after the next tuple, and whether the tuple is kept.
  lemma TracksNext(run: seq<Tuple>, j: nat, partition: int, orderBy: int, count: nat, k: nat)
    requires Sorted(run) && j < |run| && Tracks(run, j, partition, orderBy, count, k)
    ensures var t := run[j];
            if j == 0 || t.partition != partition then
              DenseRank(run, j) <= Limit(k) && Tracks(run, j + 1, t.partition, t.order, 1, k)
            else if t.order == orderBy || count < k then
              && DenseRank(run, j) <= Limit(k)
              && Tracks(run, j + 1, partition, t.order, if t.order == orderBy then count else count + 1, k)
            else
              DenseRank(run, j) > Limit(k) && Tracks(run, j + 1, partition, orderBy, count, k)
  {
    if j > 0 {
      assert run[j - 1].partition < run[j].partition ||
             (run[j - 1].partition == run[j].partition && run[j - 1].order <= run[j].order);
    }
  }

  /** Reading one sorted run for the merge. */
  method PruneRun(run: seq<Tuple>, k: nat) returns (merged: seq<Tuple>)
    requires Sorted(run)
    ensures merged == Kept(run, WithinDense(run, k))
    ensures TopK(merged, k) == TopK(run, k)
  {
    merged := [];
    var begin, runPartition, runOrderBy, runOrderByCount := true, 0, 0, 0;
    for i := 0 to |run|
      invariant begin == (i == 0) && Tracks(run, i, runPartition, runOrderBy, runOrderByCount, k)
      invariant merged == DenseKept(run, k, 0, i)
    {
      TracksNext(run, i, runPartition, runOrderBy, runOrderByCount, k);
      var t := run[i];
      if begin || t.partition != runPartition {
        begin := false;
        runPartition, runOrderBy, runOrderByCount := t.partition, t.order, 1;
        merged := merged + [t];
      } else {
        var sameOrder := t.order == runOrderBy;
        if sameOrder || runOrderByCount < k {
          runOrderByCount := runOrderByCount + (if sameOrder then 0 else 1);
          runOrderBy := t.order;
          merged := merged + [t];
        }
      }
    }
    DenseKeptIsSafe(run, k);
  }

  /** Scanning a merged partition chunk by chunk, with the state carried from one chunk to the next. */
  class MergedPartition {
    const keys: seq<Tuple>
    var index: nat
    var partition: int
    var orderBy: int
    var orderByCount: nat

    constructor (keys: seq<Tuple>)
      ensures this.keys == keys && index == 0
    {
      this.keys := keys;
      index, partition, orderBy, orderByCount := 0, 0, 0, 0;
    }

    ghost predicate Valid(k: nat)
      reads this
    {
      Sorted(keys) && index <= |keys| && Tracks(keys, index, partition, orderBy, orderByCount, k)
    }

    // One tuple: the state moves on, and the tuple is kept or not.
    method Admit(t: Tuple, first: bool, k: nat, ghost j: nat) returns (keep: bool)
      requires Sorted(keys) && j < |keys| && t == keys[j] && first == (j == 0)
      requires Tracks(keys, j, partition, orderBy, orderByCount, k)
      modifies this`partition, this`orderBy, this`orderByCount
      ensures Tracks(keys, j + 1, partition, orderBy, orderByCount, k)
      ensures keep == (DenseRank(keys, j) <= Limit(k))
    {
      TracksNext(keys, j, partition, orderBy, orderByCount, k);
      if first || t.partition != partition {
        partition, orderBy, orderByCount := t.partition, t.order, 1;
        return true;
      }
      var sameOrder := t.order == orderBy;
      if sameOrder || orderByCount < k {
        orderByCount := orderByCount + (if sameOrder then 0 else 1);
        orderBy := t.order;
        return true;
      }
      return false;
    }

    method Scan(k: nat, vectorSize: nat) returns (chunk: seq<Tuple>)
      requires Valid(k) && vectorSize > 0
      modifies this
      ensures Valid(k) && old(index) <= index && |chunk| <= vectorSize
      ensures chunk == DenseKept(keys, k, old(index), index)
      ensures index == |keys| || |chunk| == vectorSize
    {
      chunk := [];
      var end := |keys| - index;
      var isBegin := index == 0;
      var start := index;
      var i: nat := 0;
      while i < end && |chunk| < vectorSize
        invariant i <= end && index == start && |chunk| <= vectorSize
        invariant Tracks(keys, start + i, partition, orderBy, orderByCount, k)
        invariant chunk == DenseKept(keys, k, start, start + i)
      {
        var t := keys[start + i];
        var kept := Admit(t, isBegin && i == 0, k, start + i);
        if kept {
          chunk := chunk + [t];
        }
        i := i + 1;
      }
      index := index + i;
    }

    /** Scanning to the end: the chunk size cannot be observed. */
    method ScanAll(k: nat, vectorSize: nat) returns (rows: seq<Tuple>)
      requires Valid(k) && index == 0 && vectorSize > 0
      modifies this
      ensures rows == Kept(keys, WithinDense(keys, k))
      ensures TopK(rows, k) == TopK(keys, k)
    {
      rows := [];
      while index < |keys|
        invariant Valid(k) && rows == DenseKept(keys, k, 0, index)
        decreases |keys| - index
      {
        ghost var from := index;
        var chunk := Scan(k, vectorSize);
        DenseKeptAppend(keys, k, 0, from, index);
        rows := rows + chunk;
      }
      DenseKeptIsSafe(keys, k);
    }
  }

  ghost function DenseFlags(runs: seq<seq<Tuple>>, k: nat): (keep: seq<seq<bool>>)
    ensures |keep| == |runs| && forall p :: 0 <= p < |runs| ==> keep[p] == WithinDense(runs[p], k)
  {
    seq(|runs|, p requires 0 <= p < |runs| => WithinDense(runs[p], k))
  }

  lemma AllDropBeyond(runs: seq<seq<Tuple>>, k: nat)
    requires forall p :: 0 <= p < |runs| ==> Sorted(runs[p])
    ensures PartsDropBeyond(runs, DenseFlags(runs, k), k)
  {
    forall p | 0 <= p < |runs| ensures DropsBeyond(runs[p], DenseFlags(runs, k)[p], runs[p], k) {
      DenseDropsBeyond(runs[p], k);
    }
  }

  /** The whole merge: any slices of any number of sorted runs are pruned, sorted together into any
      number of merged partitions, and pruned again while those are scanned. The query's answer is
      the same as on all tuples. */
  lemma MergePruningIsSafe(slices: seq<seq<Tuple>>, merged: seq<seq<Tuple>>, k: nat)
    requires forall p :: 0 <= p < |slices| ==> Sorted(slices[p])
    requires forall p :: 0 <= p < |merged| ==> Sorted(merged[p])
    requires multiset(Concat(merged)) == multiset(KeptParts(slices, DenseFlags(slices, k)))
    ensures multiset(TopK(KeptParts(merged, DenseFlags(merged, k)), k)) == multiset(TopK(Concat(slices), k))
  {
    AllDropBeyond(slices, k);
    SafePartwisePruning(slices, DenseFlags(slices, k), k);
    TopKPermuted(Concat(merged), KeptParts(slices, DenseFlags(slices, k)), k);
    AllDropBeyond(merged, k);
    SafePartwisePruning(merged, DenseFlags(merged, k), k);
  }
}
