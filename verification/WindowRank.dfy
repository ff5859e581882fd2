/** The rank window function with a predicate rank <= k, and when tuples may be dropped before it. */
module WindowRank {
  import opened Selections

  datatype Tuple = Tuple(partition: int, order: int, payload: int)

  predicate Below(u: Tuple, t: Tuple) {
    u.partition == t.partition && u.order < t.order
  }

  // How many tuples of t's window partition are ordered strictly before t.
  function Smaller(rows: seq<Tuple>, t: Tuple): nat {
    if rows == [] then 0 else (if Below(rows[0], t) then 1 else 0) + Smaller(rows[1..], t)
  }

  function Rank(rows: seq<Tuple>, t: Tuple): nat {
    Smaller(rows, t) + 1
  }

  // The tuples of some that the predicate keeps when ranks are taken among all.
  function Passing(some: seq<Tuple>, all: seq<Tuple>, k: nat): seq<Tuple> {
    if some == [] then []
    else (if Rank(all, some[0]) <= k then [some[0]] else []) + Passing(some[1..], all, k)
  }

  // The answer of the query: rank, then filter.
  function TopK(rows: seq<Tuple>, k: nat): seq<Tuple> {
    Passing(rows, rows, k)
  }

  // ----- Counting -----

  lemma {:induction false} SmallerAppend(a: seq<Tuple>, b: seq<Tuple>, t: Tuple)
    ensures Smaller(a + b, t) == Smaller(a, t) + Smaller(b, t)
  {
    if a == [] {
      assert a + b == b;
    } else {
      assert (a + b)[1..] == a[1..] + b;
      SmallerAppend(a[1..], b, t);
    }
  }

  lemma {:induction false} PassingAppend(a: seq<Tuple>, b: seq<Tuple>, all: seq<Tuple>, k: nat)
    ensures Passing(a + b, all, k) == Passing(a, all, k) + Passing(b, all, k)
  {
    if a == [] {
      assert a + b == b;
    } else {
      assert (a + b)[1..] == a[1..] + b;
      PassingAppend(a[1..], b, all, k);
    }
  }

  // ----- Pruning is safe when only tuples beyond rank k go -----

  // Every dropped tuple has at least k smaller ones among all.
  ghost predicate DropsBeyond(rows: seq<Tuple>, keep: seq<bool>, all: seq<Tuple>, k: nat)
    requires |rows| == |keep|
  {
    forall i :: 0 <= i < |rows| && !keep[i] ==> Smaller(all, rows[i]) >= k
  }

  lemma {:induction false} KeptSmaller(rows: seq<Tuple>, keep: seq<bool>, t: Tuple)
    requires |rows| == |keep|
    ensures Smaller(Kept(rows, keep), t) <= Smaller(rows, t)
    ensures (forall i :: 0 <= i < |rows| && !keep[i] ==> !Below(rows[i], t)) ==>
              Smaller(Kept(rows, keep), t) == Smaller(rows, t)
  {
    if rows != [] {
      var rest := Kept(rows[1..], keep[1..]);
      KeptSmaller(rows[1..], keep[1..], t);
      if keep[0] {
        assert ([rows[0]] + rest)[1..] == rest;
      } else {
        assert [] + rest == rest;
      }
      if forall i :: 0 <= i < |rows| && !keep[i] ==> !Below(rows[i], t) {
        forall i | 0 <= i < |rows[1..]| && !keep[1..][i] ensures !Below(rows[1..][i], t) {
          assert rows[1..][i] == rows[i + 1] && keep[1..][i] == keep[i + 1];
        }
      }
    }
  }

  lemma {:induction false} SmallerMonotone(all: seq<Tuple>, u: Tuple, t: Tuple)
    requires Below(u, t)
    ensures Smaller(all, u) <= Smaller(all, t)
  {
    if all != [] {
      SmallerMonotone(all[1..], u, t);
    }
  }

  // Somewhere among the k smallest tuples of t's partition there is always a survivor, so a tuple
  // beyond rank k stays beyond rank k.
  lemma {:induction false} StillBeyond(rows: seq<Tuple>, keep: seq<bool>, t: Tuple, k: nat)
    requires |rows| == |keep| && DropsBeyond(rows, keep, rows, k) && Smaller(rows, t) >= k
    ensures Smaller(Kept(rows, keep), t) >= k
    decreases Smaller(rows, t)
  {
    if exists i :: 0 <= i < |rows| && !keep[i] && Below(rows[i], t) {
      var i :| 0 <= i < |rows| && !keep[i] && Below(rows[i], t);
      SmallerStrict(rows, i, t);
      StillBeyond(rows, keep, rows[i], k);
      SmallerMonotone(Kept(rows, keep), rows[i], t);
    } else {
      KeptSmaller(rows, keep, t);
    }
  }

  lemma {:induction false} SmallerStrict(rows: seq<Tuple>, i: nat, t: Tuple)
    requires i < |rows| && Below(rows[i], t)
    ensures Smaller(rows, rows[i]) < Smaller(rows, t)
  {
    if i == 0 {
      SmallerMonotone(rows[1..], rows[0], t);
    } else {
      SmallerStrict(rows[1..], i - 1, t);
    }
  }

  // The rank of a tuple within the first k is not changed by the pruning, and one beyond stays so.
  lemma RankKept(rows: seq<Tuple>, keep: seq<bool>, t: Tuple, k: nat)
    requires |rows| == |keep| && DropsBeyond(rows, keep, rows, k)
    ensures Rank(Kept(rows, keep), t) <= k <==> Rank(rows, t) <= k
    ensures Rank(rows, t) <= k ==> Rank(Kept(rows, keep), t) == Rank(rows, t)
  {
    if Smaller(rows, t) >= k {
      StillBeyond(rows, keep, t, k);
    } else {
      forall i | 0 <= i < |rows| && !keep[i] ensures !Below(rows[i], t) {
        if Below(rows[i], t) {
          SmallerMonotone(rows, rows[i], t);
        }
      }
      KeptSmaller(rows, keep, t);
    }
  }

  lemma {:induction false} PassingSelected(some: seq<Tuple>, flags: seq<bool>, rows: seq<Tuple>, keep: seq<bool>,
                                           k: nat)
    requires |some| == |flags| && |rows| == |keep| && DropsBeyond(rows, keep, rows, k)
    requires forall i :: 0 <= i < |some| && !flags[i] ==> Smaller(rows, some[i]) >= k
    ensures Passing(Kept(some, flags), Kept(rows, keep), k) == Passing(some, rows, k)
  {
    if some != [] {
      var rest := Kept(some[1..], flags[1..]);
      forall i | 0 <= i < |some[1..]| && !flags[1..][i] ensures Smaller(rows, some[1..][i]) >= k {
        assert some[1..][i] == some[i + 1] && flags[1..][i] == flags[i + 1];
      }
      PassingSelected(some[1..], flags[1..], rows, keep, k);
      RankKept(rows, keep, some[0], k);
      if flags[0] {
        assert ([some[0]] + rest)[1..] == rest;
      } else {
        assert [] + rest == rest;
      }
    }
  }

  /** Dropping only tuples that have at least k smaller ones in their partition does not change the
      answer, ranks included: the tuples that survive are enough to rank the first k. */
  lemma SafePruning(rows: seq<Tuple>, keep: seq<bool>, k: nat)
    requires |rows| == |keep| && DropsBeyond(rows, keep, rows, k)
    ensures TopK(Kept(rows, keep), k) == TopK(rows, k)
    ensures forall t :: t in TopK(rows, k) ==> Rank(Kept(rows, keep), t) == Rank(rows, t)
  {
    PassingSelected(rows, keep, rows, keep, k);
    forall t | t in TopK(rows, k) ensures Rank(Kept(rows, keep), t) == Rank(rows, t) {
      PassingRanks(rows, rows, k, t);
      RankKept(rows, keep, t, k);
    }
  }

  lemma {:induction false} PassingRanks(some: seq<Tuple>, all: seq<Tuple>, k: nat, t: Tuple)
    requires t in Passing(some, all, k)
    ensures t in some && Rank(all, t) <= k
  {
    if some != [] && t in Passing(some[1..], all, k) {
      PassingRanks(some[1..], all, k, t);
    }
  }

  // ----- The answer does not depend on the order of the rows -----

  lemma Cancel(x: multiset<Tuple>, a: multiset<Tuple>, b: multiset<Tuple>)
    requires x + a == x + b
    ensures a == b
  {
    forall t: Tuple ensures a[t] == b[t] {
      assert (x + a)[t] == x[t] + a[t] && (x + b)[t] == x[t] + b[t];
    }
  }

  lemma Exposed(b: seq<Tuple>, j: nat)
    requires j < |b|
    ensures multiset(b) == multiset{b[j]} + multiset(b[..j] + b[j + 1..])
  {
    var front, back := b[..j], b[j + 1..];
    assert b == front + [b[j]] + back;
    assert multiset(front + back) == multiset(front) + multiset(back);
  }

  lemma WithoutFirst(a: seq<Tuple>, b: seq<Tuple>, j: nat)
    requires a != [] && j < |b| && b[j] == a[0] && multiset(a) == multiset(b)
    ensures multiset(a[1..]) == multiset(b[..j] + b[j + 1..])
  {
    Exposed(a, 0);
    assert a[..0] + a[1..] == a[1..];
    Exposed(b, j);
    Cancel(multiset{a[0]}, multiset(a[1..]), multiset(b[..j] + b[j + 1..]));
  }

  lemma {:induction false} SmallerPermuted(a: seq<Tuple>, b: seq<Tuple>, t: Tuple)
    requires multiset(a) == multiset(b)
    ensures Smaller(a, t) == Smaller(b, t)
    decreases |a|
  {
    if a == [] {
      assert |multiset(b)| == 0;
    } else {
      assert a[0] in multiset(b);
      var j :| 0 <= j < |b| && b[j] == a[0];
      var front, back := b[..j], b[j + 1..];
      WithoutFirst(a, b, j);
      assert front + ([b[j]] + back) == b && ([b[j]] + back)[1..] == back;
      SmallerPermuted(a[1..], front + back, t);
      SmallerAppend(front, back, t);
      SmallerAppend(front, [b[j]] + back, t);
    }
  }

  lemma {:induction false} PassingCount(some: seq<Tuple>, all: seq<Tuple>, k: nat, t: Tuple)
    ensures multiset(Passing(some, all, k))[t] == if Rank(all, t) <= k then multiset(some)[t] else 0
  {
    if some != [] {
      assert some == [some[0]] + some[1..];
      PassingCount(some[1..], all, k, t);
    }
  }

  lemma TopKPermuted(a: seq<Tuple>, b: seq<Tuple>, k: nat)
    requires multiset(a) == multiset(b)
    ensures multiset(TopK(a, k)) == multiset(TopK(b, k))
  {
    forall t: Tuple ensures multiset(TopK(a, k))[t] == multiset(TopK(b, k))[t] {
      PassingCount(a, a, k, t);
      PassingCount(b, b, k, t);
      SmallerPermuted(a, b, t);
    }
  }

  // ----- Pruning parts separately -----

  function Concat(parts: seq<seq<Tuple>>): seq<Tuple> {
    if parts == [] then [] else parts[0] + Concat(parts[1..])
  }

  function ConcatFlags(flags: seq<seq<bool>>): seq<bool> {
    if flags == [] then [] else flags[0] + ConcatFlags(flags[1..])
  }

  ghost predicate PartsDropBeyond(parts: seq<seq<Tuple>>, keep: seq<seq<bool>>, k: nat) {
    |parts| == |keep| &&
    forall p :: 0 <= p < |parts| ==> |parts[p]| == |keep[p]| && DropsBeyond(parts[p], keep[p], parts[p], k)
  }

  function KeptParts(parts: seq<seq<Tuple>>, keep: seq<seq<bool>>): seq<Tuple>
    requires |parts| == |keep| && forall p :: 0 <= p < |parts| ==> |parts[p]| == |keep[p]|
  {
    if parts == [] then [] else Kept(parts[0], keep[0]) + KeptParts(parts[1..], keep[1..])
  }

  lemma {:induction false} PartsConcatenated(parts: seq<seq<Tuple>>, keep: seq<seq<bool>>, before: seq<Tuple>,
                                             all: seq<Tuple>, k: nat)
    requires PartsDropBeyond(parts, keep, k) && all == before + Concat(parts)
    ensures |Concat(parts)| == |ConcatFlags(keep)| && DropsBeyond(Concat(parts), ConcatFlags(keep), all, k)
    ensures KeptParts(parts, keep) == Kept(Concat(parts), ConcatFlags(keep))
    decreases |parts|
  {
    if parts != [] {
      var rest := Concat(parts[1..]);
      forall p | 0 <= p < |parts[1..]|
        ensures |parts[1..][p]| == |keep[1..][p]| && DropsBeyond(parts[1..][p], keep[1..][p], parts[1..][p], k)
      {
        assert parts[1..][p] == parts[p + 1] && keep[1..][p] == keep[p + 1];
      }
      assert all == (before + parts[0]) + rest;
      PartsConcatenated(parts[1..], keep[1..], before + parts[0], all, k);
      KeptAppend(parts[0], keep[0], rest, ConcatFlags(keep[1..]));
      forall i | 0 <= i < |Concat(parts)| && !ConcatFlags(keep)[i] ensures Smaller(all, Concat(parts)[i]) >= k {
        if i < |parts[0]| {
          SmallerAppend(before, parts[0] + rest, parts[0][i]);
          SmallerAppend(parts[0], rest, parts[0][i]);
          assert all == before + (parts[0] + rest);
        } else {
          assert Concat(parts)[i] == rest[i - |parts[0]|];
        }
      }
    }
  }

  /** Parts -- threads, or sorted runs -- may be pruned each on its own: a tuple beyond rank k within
      its part is beyond rank k in the whole. */
  lemma SafePartwisePruning(parts: seq<seq<Tuple>>, keep: seq<seq<bool>>, k: nat)
    requires PartsDropBeyond(parts, keep, k)
    ensures TopK(KeptParts(parts, keep), k) == TopK(Concat(parts), k)
  {
    assert [] + Concat(parts) == Concat(parts);
    PartsConcatenated(parts, keep, [], Concat(parts), k);
    SafePruning(Concat(parts), ConcatFlags(keep), k);
  }

  // Nor do ranks of tuples that pass change.
  lemma PartwiseRankKept(parts: seq<seq<Tuple>>, keep: seq<seq<bool>>, t: Tuple, k: nat)
    requires PartsDropBeyond(parts, keep, k)
    ensures Rank(KeptParts(parts, keep), t) <= k <==> Rank(Concat(parts), t) <= k
    ensures Rank(Concat(parts), t) <= k ==> Rank(KeptParts(parts, keep), t) == Rank(Concat(parts), t)
  {
    assert [] + Concat(parts) == Concat(parts);
    PartsConcatenated(parts, keep, [], Concat(parts), k);
    RankKept(Concat(parts), ConcatFlags(keep), t, k);
  }
}
