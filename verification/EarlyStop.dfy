/** Evaluating the rank window function together with its predicate, one chunk of sorted rows at a
    time, and skipping to the next partition at the first row that fails. */
module EarlyStop {
  import opened WindowRank
  import opened MergePruning
  import opened Selections

  // ----- Boundaries of a sorted column of rows -----

  function PartitionBegin(rows: seq<Tuple>, r: nat): (b: nat)
    requires r < |rows|
    ensures b <= r
  {
    if r == 0 || rows[r - 1].partition != rows[r].partition then r else PartitionBegin(rows, r - 1)
  }

  function PeerBegin(rows: seq<Tuple>, r: nat): (b: nat)
    requires r < |rows|
    ensures PartitionBegin(rows, r) <= b <= r
  {
    if r == 0 || rows[r - 1].partition != rows[r].partition || rows[r - 1].order != rows[r].order then r
    else PeerBegin(rows, r - 1)
  }

  // The rank the boundaries give.
  function RankAt(rows: seq<Tuple>, r: nat): nat
    requires r < |rows|
  {
    PeerBegin(rows, r) - PartitionBegin(rows, r) + 1
  }

  lemma {:induction false} SmallerBefore(rows: seq<Tuple>, n: nat, t: Tuple, from: nat)
    requires n <= |rows| && from <= n
    requires forall i :: 0 <= i < from ==> !Below(rows[i], t)
    requires forall i :: from <= i < n ==> Below(rows[i], t)
    ensures Smaller(rows[..n], t) == n - from
    decreases n
  {
    if n > 0 {
      assert rows[..n] == rows[..n - 1] + [rows[n - 1]];
      SmallerAppend(rows[..n - 1], [rows[n - 1]], t);
      assert [rows[n - 1]][1..] == [];
      SmallerBefore(rows, n - 1, t, if from == n then n - 1 else from);
    }
  }

  lemma {:induction false} NoneBelow(rows: seq<Tuple>, t: Tuple)
    requires forall i :: 0 <= i < |rows| ==> !Below(rows[i], t)
    ensures Smaller(rows, t) == 0
  {
    if rows != [] {
      NoneBelow(rows[1..], t);
    }
  }

  lemma {:induction false} SamePartition(rows: seq<Tuple>, r: nat, i: nat)
    requires r < |rows| && PartitionBegin(rows, r) <= i <= r
    ensures rows[i].partition == rows[r].partition
  {
    if i < r {
      SamePartition(rows, r - 1, i);
    }
  }

  lemma {:induction false} SamePeers(rows: seq<Tuple>, r: nat, i: nat)
    requires r < |rows| && PeerBegin(rows, r) <= i <= r
    ensures rows[i].order == rows[r].order
  {
    if i < r {
      SamePeers(rows, r - 1, i);
    }
  }

  lemma {:induction false} OtherPartition(rows: seq<Tuple>, r: nat, i: nat)
    requires Sorted(rows) && r < |rows| && i < PartitionBegin(rows, r)
    ensures rows[i].partition < rows[r].partition
  {
    var p := PartitionBegin(rows, r);
    if p == r {
      assert rows[r - 1].partition < rows[r].partition && (i < r - 1 ==> rows[i].partition <= rows[r - 1].partition);
    } else {
      OtherPartition(rows, r - 1, i);
    }
  }

  lemma {:induction false} BeforePeers(rows: seq<Tuple>, r: nat, i: nat)
    requires Sorted(rows) && r < |rows| && PartitionBegin(rows, r) <= i < PeerBegin(rows, r)
    ensures Below(rows[i], rows[r])
  {
    if PeerBegin(rows, r) == r {
      SamePartition(rows, r - 1, i);
      assert rows[r - 1].order < rows[r].order && (i < r - 1 ==> rows[i].order <= rows[r - 1].order);
    } else {
      BeforePeers(rows, r - 1, i);
    }
  }

  lemma OutsideNotBelow(rows: seq<Tuple>, r: nat, i: nat)
    requires Sorted(rows) && r < |rows| && i < |rows|
    requires i < PartitionBegin(rows, r) || PeerBegin(rows, r) <= i
    ensures !Below(rows[i], rows[r])
  {
    if i < PartitionBegin(rows, r) {
      OtherPartition(rows, r, i);
    } else if i <= r {
      SamePeers(rows, r, i);
    }
  }

  /** On sorted rows, the distance between the boundaries is the SQL rank. */
  lemma RankAtIsRank(rows: seq<Tuple>, r: nat)
    requires Sorted(rows) && r < |rows|
    ensures RankAt(rows, r) == Rank(rows, rows[r])
  {
    var t, part, peer := rows[r], PartitionBegin(rows, r), PeerBegin(rows, r);
    forall i | 0 <= i < |rows| && (i < part || peer <= i) ensures !Below(rows[i], t) {
      OutsideNotBelow(rows, r, i);
    }
    forall i | part <= i < peer ensures Below(rows[i], t) {
      BeforePeers(rows, r, i);
    }
    assert rows == rows[..peer] + rows[peer..];
    SmallerAppend(rows[..peer], rows[peer..], t);
    NoneBelow(rows[peer..], t);
    SmallerBefore(rows, peer, t, part);
  }

  // ----- The walk over one chunk, abstracted to which rows pass and where partitions start -----

  // Partition starts inside the chunk; within a partition no row passes after one that fails.
  ghost predicate Chunk(ok: seq<bool>, b: seq<nat>) {
    && (forall j :: 0 <= j < |b| ==> 0 < b[j] < |ok|)
    && (forall j, l :: 0 <= j < l < |b| ==> b[j] < b[l])
    && (forall i :: 0 < i < |ok| && ok[i] && i !in b ==> ok[i - 1])
    && ((forall j :: 0 <= j < |b| ==> ok[b[j]]) || (forall i :: 0 <= i < |ok| ==> !ok[i]))
  }

  function Start(b: seq<nat>, p: nat): nat
    requires p <= |b|
  {
    if p == 0 then 0 else b[p - 1]
  }

  function End(ok: seq<bool>, b: seq<nat>, p: nat): nat
    requires p <= |b|
  {
    if p == |b| then |ok| else b[p]
  }

  /** The rows selected from row i on, when the next skip goes to start b[next]. */
  function Walk(ok: seq<bool>, b: seq<nat>, next: nat, i: nat): seq<nat>
    requires next <= |b|
    decreases |b| - next, |ok| - i
  {
    if i >= |ok| then []
    else if ok[i] then [i] + Walk(ok, b, next, i + 1)
    else if next == |b| then []
    else Walk(ok, b, next + 1, b[next])
  }

  // Some whole partition of the chunk passes although a later row fails.
  ghost predicate Skewed(ok: seq<bool>, b: seq<nat>) {
    exists p, r {:trigger Lags(ok, b, p, r)} :: Lags(ok, b, p, r)
  }

  ghost predicate Lags(ok: seq<bool>, b: seq<nat>, p: nat, r: nat) {
    && p < |b| && b[p] <= r < |ok| && !ok[r]
    && forall i :: Start(b, p) <= i < b[p] && i < |ok| ==> ok[i]
  }

  lemma {:induction false} FailsToTheEnd(ok: seq<bool>, b: seq<nat>, p: nat, i: nat, x: nat)
    requires Chunk(ok, b) && p <= |b| && Start(b, p) <= i <= x < End(ok, b, p) && i < |ok| && !ok[i]
    ensures !ok[x]
    decreases x
  {
    if i < x {
      FailsToTheEnd(ok, b, p, i, x - 1);
      NotAStart(ok, b, p, x);
    }
  }

  lemma NotAStart(ok: seq<bool>, b: seq<nat>, p: nat, x: nat)
    requires Chunk(ok, b) && p <= |b| && Start(b, p) < x < End(ok, b, p)
    ensures x !in b
  {
    forall j | 0 <= j < |b| ensures b[j] != x {
      assert j < p ==> j == p - 1 || b[j] < b[p - 1];
      assert p < |b| && j >= p ==> j == p || b[p] < b[j];
    }
  }

  lemma {:induction false} SkipFailing(ok: seq<bool>, b: seq<nat>, p: nat, i: nat)
    requires Chunk(ok, b) && p <= |b| && Start(b, p) <= i < End(ok, b, p) && !ok[i]
    ensures Indices(ok, i) == Indices(ok, End(ok, b, p))
    decreases |ok| - i
  {
    if i + 1 < End(ok, b, p) {
      FailsToTheEnd(ok, b, p, i, i + 1);
      SkipFailing(ok, b, p, i + 1);
    }
  }

  /** Early stopping never loses a passing row and never selects a failing one. */
  lemma {:induction false} WalkSelects(ok: seq<bool>, b: seq<nat>, next: nat, i: nat, x: nat)
    requires Chunk(ok, b) && next <= |b| && Start(b, next) <= i
    ensures x in Walk(ok, b, next, i) ==> x < |ok| && ok[x]
    ensures i <= x < |ok| && ok[x] ==> x in Walk(ok, b, next, i)
    decreases |b| - next, |ok| - i
  {
    if i < |ok| {
      if ok[i] {
        WalkSelects(ok, b, next, i + 1, x);
      } else {
        if i <= x < End(ok, b, next) {
          FailsToTheEnd(ok, b, next, i, x);
        }
        if next < |b| {
          WalkSelects(ok, b, next + 1, b[next], x);
        }
      }
    }
  }

  lemma NextSegment(ok: seq<bool>, b: seq<nat>, next: nat)
    requires Chunk(ok, b) && next < |b|
    ensures End(ok, b, next) == b[next] == Start(b, next + 1) < End(ok, b, next + 1) <= |ok|
  {
  }

  lemma NotLagging(ok: seq<bool>, b: seq<nat>, p: nat, r: nat)
    requires !Skewed(ok, b)
    ensures !Lags(ok, b, p, r)
  {
  }

  lemma {:induction false} WalkInOrder(ok: seq<bool>, b: seq<nat>, next: nat, i: nat)
    requires Chunk(ok, b) && next <= |b| && !Skewed(ok, b)
    requires || (Start(b, next) <= i < End(ok, b, next) && forall x :: Start(b, next) <= x < i ==> ok[x])
             || (i <= |ok| && forall x :: i <= x < |ok| ==> ok[x])
    ensures Walk(ok, b, next, i) == Indices(ok, i)
    decreases |b| - next, |ok| - i
  {
    hide Chunk, Skewed;
    if i < |ok| {
      if ok[i] {
        if i + 1 == End(ok, b, next) && next < |b| && Start(b, next) <= i {
          forall x | i + 1 <= x < |ok| ensures ok[x] {
            NotLagging(ok, b, next, x);
          }
        }
        WalkInOrder(ok, b, next, i + 1);
      } else {
        SkipFailing(ok, b, next, i);
        if next < |b| {
          NextSegment(ok, b, next);
          WalkInOrder(ok, b, next + 1, b[next]);
        }
      }
    }
  }

  // Once the next start is behind the current row, the next failing row leads back to it.
  lemma {:induction false} ComesBack(ok: seq<bool>, b: seq<nat>, next: nat, i: nat, r: nat)
    requires Chunk(ok, b) && next < |b| && b[next] <= i <= r < |ok| && !ok[r] && ok[b[next]]
    ensures b[next] in Walk(ok, b, next, i)
    decreases r - i
  {
    if ok[i] {
      ComesBack(ok, b, next, i + 1, r);
    } else {
      assert Walk(ok, b, next + 1, b[next])[0] == b[next];
    }
  }

  ghost predicate Repeats(s: seq<nat>) {
    exists j, l :: 0 <= j < l < |s| && s[j] == s[l]
  }

  lemma RepeatsFurther(x: nat, s: seq<nat>)
    requires x in s || Repeats(s)
    ensures Repeats([x] + s)
  {
    var t := [x] + s;
    if x in s {
      var l :| 0 <= l < |s| && s[l] == x;
      assert t[0] == t[l + 1];
    } else {
      var j, l :| 0 <= j < l < |s| && s[j] == s[l];
      assert t[j + 1] == t[l + 1];
    }
  }

  lemma {:induction false} WalkRepeats(ok: seq<bool>, b: seq<nat>, next: nat, i: nat, p: nat, r: nat)
    requires Chunk(ok, b) && next <= p && Lags(ok, b, p, r)
    requires Start(b, next) <= i < End(ok, b, next)
    ensures Repeats(Walk(ok, b, next, i))
    decreases |b| - next, |ok| - i
  {
    assert next < p ==> b[next] < b[p];
    assert p > 0 ==> b[p - 1] < b[p];
    assert ok[Start(b, p)];
    if ok[i] {
      var rest := Walk(ok, b, next, i + 1);
      if i + 1 < b[next] {
        WalkRepeats(ok, b, next, i + 1, p, r);
      } else {
        ComesBack(ok, b, next, i + 2, r);
        RepeatsFurther(i + 1, Walk(ok, b, next, i + 2));
      }
      RepeatsFurther(i, rest);
    } else {
      assert next + 1 < |b| ==> b[next] < b[next + 1];
      WalkRepeats(ok, b, next + 1, b[next], p, r);
    }
  }

  lemma {:induction false} IndicesDistinct(ok: seq<bool>, i: nat)
    ensures !Repeats(Indices(ok, i))
    decreases |ok| - i
  {
    if i < |ok| {
      IndicesDistinct(ok, i + 1);
      var s, rest := Indices(ok, i), Indices(ok, i + 1);
      forall j, l | 0 <= j < l < |s| ensures s[j] != s[l] {
        if ok[i] {
          assert s[l] == rest[l - 1] && (j > 0 ==> s[j] == rest[j - 1]);
        }
      }
    }
  }

  lemma SkewedRepeats(ok: seq<bool>, b: seq<nat>)
    requires Chunk(ok, b) && Skewed(ok, b)
    ensures Repeats(Walk(ok, b, 0, 0))
  {
    var p, r :| Lags(ok, b, p, r);
    WalkRepeats(ok, b, 0, 0, p, r);
  }

  /** The rows come out once each and in order exactly when no whole partition of the chunk passes
      before a row that fails: the next-start cursor moves only when a row fails. */
  lemma InOrderUnlessSkewed(ok: seq<bool>, b: seq<nat>)
    requires Chunk(ok, b)
    ensures Walk(ok, b, 0, 0) == Indices(ok, 0) <==> !Skewed(ok, b)
  {
    if ok != [] {
      if Skewed(ok, b) {
        SkewedRepeats(ok, b);
        IndicesDistinct(ok, 0);
      } else {
        WalkInOrder(ok, b, 0, 0);
      }
    }
  }

  // ----- The room a selection takes -----

  // The first failing row from i on.
  function FirstFail(ok: seq<bool>, i: nat): (f: nat)
    requires i <= |ok|
    ensures i <= f <= |ok| && (f < |ok| ==> !ok[f])
    ensures forall j :: i <= j < f ==> ok[j]
    decreases |ok| - i
  {
    if i < |ok| && ok[i] then FirstFail(ok, i + 1) else i
  }

  // How many slots the walk takes from the n-th start on: the runs of passing rows, one for each start
  // it comes to, until one reaches the end of the chunk or the starts are used up.
  function Needed(ok: seq<bool>, b: seq<nat>, n: nat): nat
    requires n <= |b| && forall j :: 0 <= j < |b| ==> b[j] < |ok|
    decreases |b| - n
  {
    var f := FirstFail(ok, Start(b, n));
    f - Start(b, n) + (if f == |ok| || n == |b| then 0 else Needed(ok, b, n + 1))
  }

  lemma {:induction false} WalkNeeds(ok: seq<bool>, b: seq<nat>, n: nat, i: nat)
    requires n <= |b| && i <= |ok| && forall j :: 0 <= j < |b| ==> b[j] < |ok|
    ensures var f := FirstFail(ok, i);
            |Walk(ok, b, n, i)| == f - i + (if f == |ok| || n == |b| then 0 else Needed(ok, b, n + 1))
    decreases |b| - n, |ok| - i
  {
    if i < |ok| {
      if ok[i] {
        WalkNeeds(ok, b, n, i + 1);
      } else if n < |b| {
        WalkNeeds(ok, b, n + 1, b[n]);
      }
    }
  }

  lemma {:induction false} IndicesFit(ok: seq<bool>, i: nat)
    requires i <= |ok|
    ensures |Indices(ok, i)| <= |ok| - i
    decreases |ok| - i
  {
    if i < |ok| {
      IndicesFit(ok, i + 1);
    }
  }
}
