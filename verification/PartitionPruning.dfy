/** Pruning tuples while they are hash-partitioned: per hash value the k smallest order values seen so
    far are remembered, and a tuple above all of them is dropped. */
module PartitionPruning {
  import opened WindowRank
  import opened Selections

  type Hash = int -> int

  // How many of the tuples share t's hash value and are ordered before it.
  function SmallerInBucket(hash: Hash, rows: seq<Tuple>, h: int, order: int): nat {
    if rows == [] then 0
    else SmallerInBucket(hash, rows[..|rows| - 1], h, order) +
         (if hash(rows[|rows| - 1].partition) == h && rows[|rows| - 1].order < order then 1 else 0)
  }

  // The tuples that pruning keeps of rows, after the tuples in seen have been through it.
  ghost predicate Prunes(hash: Hash, seen: seq<Tuple>, rows: seq<Tuple>, keep: seq<bool>, k: nat) {
    |rows| == |keep| &&
    forall i :: 0 <= i < |rows| ==>
      (keep[i] <==> SmallerInBucket(hash, seen + rows[..i], hash(rows[i].partition), rows[i].order) < k)
  }

  // ----- The heap of the k smallest values -----

  function Min(a: nat, b: nat): nat {
    if a < b then a else b
  }

  // A max-priority queue, given by its contents in ascending order: the top is the last.
  type Queue = seq<int>

  ghost predicate Ascending(q: Queue) {
    forall i, j :: 0 <= i < j < |q| ==> q[i] <= q[j]
  }

  function Insert(q: Queue, x: int): (r: Queue)
    ensures |r| == |q| + 1
    ensures forall v :: v in r <==> v in q || v == x
  {
    if q == [] || q[|q| - 1] <= x then q + [x] else Insert(q[..|q| - 1], x) + [q[|q| - 1]]
  }

  function CountLess(q: Queue, order: int): nat {
    if q == [] then 0 else CountLess(q[..|q| - 1], order) + (if q[|q| - 1] < order then 1 else 0)
  }

  lemma {:induction false} InsertAscends(q: Queue, x: int)
    requires Ascending(q)
    ensures Ascending(Insert(q, x))
  {
    if q != [] && q[|q| - 1] > x {
      var front, last := q[..|q| - 1], q[|q| - 1];
      InsertAscends(front, x);
      forall i | 0 <= i < |Insert(front, x)| ensures Insert(front, x)[i] <= last {
        assert Insert(front, x)[i] in Insert(front, x);
      }
    }
  }

  lemma {:induction false} InsertCounts(q: Queue, x: int, order: int)
    ensures CountLess(Insert(q, x), order) == CountLess(q, order) + (if x < order then 1 else 0)
  {
    if q == [] || q[|q| - 1] <= x {
      assert (q + [x])[..|q|] == q;
    } else {
      var front, last := q[..|q| - 1], q[|q| - 1];
      InsertCounts(front, x, order);
      assert (Insert(front, x) + [last])[..|q|] == Insert(front, x);
    }
  }

  lemma {:induction false} CountLessBound(q: Queue, order: int)
    ensures CountLess(q, order) <= |q|
    ensures (forall v :: v in q ==> v < order) ==> CountLess(q, order) == |q|
  {
    if q != [] {
      var front := q[..|q| - 1];
      CountLessBound(front, order);
      if forall v :: v in q ==> v < order {
        assert forall v :: v in front ==> v in q;
        assert q[|q| - 1] in q;
      }
    }
  }

  // Keeping the k smallest of at most k + 1 values loses nothing below any bound, up to k.
  function Trim(q: Queue, k: nat): Queue {
    if |q| > k then q[..|q| - 1] else q
  }

  lemma TrimCounts(q: Queue, k: nat, order: int)
    requires Ascending(q) && |q| <= k + 1
    ensures CountLess(Trim(q, k), order) == Min(k, CountLess(q, order))
  {
    CountLessBound(q, order);
    if |q| > k {
      CountLessBound(q[..|q| - 1], order);
    }
  }

  const INT32_MIN: int := -0x8000_0000

  datatype MinContainer = MinContainer(values: Queue, maxValue: int) {
    ghost predicate Valid(k: nat) {
      && Ascending(values) && |values| <= k
      && maxValue == (if values == [] then INT32_MIN else values[|values| - 1])
      && forall v :: v in values ==> v >= INT32_MIN
    }
  }

  const EMPTY_CONTAINER := MinContainer([], INT32_MIN)

  // The container holds the k smallest order values of a bucket: below any bound it counts as many
  // values as the bucket, up to k.
  ghost predicate Holds(m: MinContainer, hash: Hash, seen: seq<Tuple>, h: int, k: nat) {
    m.Valid(k) && forall order :: CountLess(m.values, order) == Min(k, SmallerInBucket(hash, seen, h, order))
  }

  lemma HoldsNext(m: MinContainer, m': MinContainer, hash: Hash, seen: seq<Tuple>, t: Tuple, h: int, k: nat)
    requires Holds(m, hash, seen, h, k) && m'.Valid(k)
    requires m'.values == if hash(t.partition) == h then Trim(Insert(m.values, t.order), k) else m.values
    ensures Holds(m', hash, seen + [t], h, k)
  {
    assert (seen + [t])[..|seen|] == seen;
    forall order ensures CountLess(m'.values, order) == Min(k, SmallerInBucket(hash, seen + [t], h, order)) {
      assert CountLess(m.values, order) == Min(k, SmallerInBucket(hash, seen, h, order));
      if hash(t.partition) == h {
        InsertAscends(m.values, t.order);
        InsertCounts(m.values, t.order, order);
        TrimCounts(Insert(m.values, t.order), k, order);
      }
    }
  }

  // With k values remembered, one above their maximum is not among the k smallest.
  lemma AboveMaximum(q: Queue, x: int, k: nat)
    requires Ascending(q) && |q| == k > 0 && x > q[|q| - 1]
    ensures Trim(Insert(q, x), k) == q && CountLess(q, x) == k
  {
    assert Insert(q, x) == q + [x];
    CountLessBound(q, x);
  }

  function Container(minima: map<int, MinContainer>, h: int): MinContainer {
    if h in minima then minima[h] else EMPTY_CONTAINER
  }

  // What is remembered of the tuples that went through pruning so far.
  ghost predicate Remembers(minima: map<int, MinContainer>, hash: Hash, seen: seq<Tuple>, k: nat) {
    forall h: int :: Holds(Container(minima, h), hash, seen, h, k)
  }

  lemma NothingSeen(hash: Hash, k: nat)
    ensures Remembers(map[], hash, [], k)
  {
  }

  class HashedSortLocalSinkState {
    var minima: map<int, MinContainer>

    constructor ()
      ensures minima == map[]
    {
      minima := map[];
    }

    // The k smallest values with one more taken in; the value is passed over when k are below it.
    method AddValue(container: MinContainer, t: Tuple, k: nat) returns (local: MinContainer, kept: bool)
      requires k > 0 && container.Valid(k) && t.order >= INT32_MIN
      ensures local.Valid(k) && local.values == Trim(Insert(container.values, t.order), k)
      ensures kept <==> CountLess(container.values, t.order) < k
    {
      local, kept := container, true;
      if |local.values| < k {
        local := MinContainer(Insert(local.values, t.order),
                              if local.maxValue < t.order then t.order else local.maxValue);
      } else if t.order <= local.maxValue {
        local := local.(values := Insert(local.values, t.order));
        if |local.values| > k {
          local := local.(values := local.values[..|local.values| - 1]);
          local := local.(maxValue := local.values[|local.values| - 1]);
        }
      } else {
        kept := false;
      }
      StepIsValid(container, local, t, k);
      KeptIffFewer(container, t, k);
    }

    // One tuple: it goes through unless k smaller-or-equal values of its bucket are all below it.
    method Admit(hash: Hash, ghost seen: seq<Tuple>, t: Tuple, k: nat) returns (kept: bool)
      requires k > 0 && Remembers(minima, hash, seen, k) && t.order >= INT32_MIN
      modifies this
      ensures Remembers(minima, hash, seen + [t], k)
      ensures kept <==> SmallerInBucket(hash, seen, hash(t.partition), t.order) < k
    {
      var h := hash(t.partition);
      ghost var before := Container(minima, h);
      assert Holds(before, hash, seen, h, k);
      var local := if h in minima then minima[h] else EMPTY_CONTAINER;
      local, kept := AddValue(local, t, k);
      assert CountLess(before.values, t.order) == Min(k, SmallerInBucket(hash, seen, h, t.order));
      RemembersNext(minima, minima[h := local], hash, seen, t, k);
      minima := minima[h := local];
    }

    /** One chunk of the sink: with pruning on, exactly the tuples with fewer than k smaller ones so
        far in their bucket are appended; with pruning off, which the adaptive mode may decide for any
        chunk, all of them are, and nothing is remembered. */
    method Sink(hash: Hash, ghost seen: seq<Tuple>, chunk: seq<Tuple>, k: nat, prune: bool)
      returns (appended: seq<Tuple>, ghost keep: seq<bool>, ghost seen': seq<Tuple>)
      requires k > 0 && Remembers(minima, hash, seen, k)
      requires forall t :: t in chunk ==> t.order >= INT32_MIN
      modifies this
      ensures |keep| == |chunk| && appended == Kept(chunk, keep)
      ensures seen' == (if prune then seen + chunk else seen) && Remembers(minima, hash, seen', k)
      ensures if prune then Prunes(hash, seen, chunk, keep, k) else appended == chunk
    {
      if !prune {
        keep := seq(|chunk|, i => true);
        AllKept(chunk, keep);
        return chunk, keep, seen;
      }
      appended, keep := [], [];
      seen' := seen;
      assert chunk[..0] == [] && seen + [] == seen;
      assert Prunes(hash, seen, [], [], k) && Kept<Tuple>([], []) == [];
      hide Prunes, Remembers, Kept, SmallerInBucket;
      for i := 0 to |chunk|
        invariant |keep| == i && appended == Kept(chunk[..i], keep)
        invariant seen' == seen + chunk[..i] && Remembers(minima, hash, seen', k)
        invariant Prunes(hash, seen, chunk[..i], keep, k)
      {
        var t := chunk[i];
        var kept := Admit(hash, seen', t, k);
        seen' := seen' + [t];
        assert chunk[..i + 1] == chunk[..i] + [t];
        assert seen + chunk[..i + 1] == seen';
        PrunesNext(hash, seen, chunk[..i], keep, t, kept, k);
        KeptOneMore(chunk[..i], keep, t, kept);
        keep := keep + [kept];
        if kept {
          appended := appended + [t];
        }
      }
      assert chunk[..|chunk|] == chunk;
    }
  }

  lemma KeptOneMore(rows: seq<Tuple>, keep: seq<bool>, t: Tuple, kept: bool)
    requires |rows| == |keep|
    ensures Kept(rows + [t], keep + [kept]) == Kept(rows, keep) + if kept then [t] else []
  {
    KeptAppend(rows, keep, [t], [kept]);
    assert [t][1..] == [];
  }

  lemma {:induction false} AllKept(rows: seq<Tuple>, keep: seq<bool>)
    requires |rows| == |keep| && forall i :: 0 <= i < |keep| ==> keep[i]
    ensures Kept(rows, keep) == rows
  {
    if rows != [] {
      AllKept(rows[1..], keep[1..]);
    }
  }

  lemma StepIsValid(m: MinContainer, m': MinContainer, t: Tuple, k: nat)
    requires m.Valid(k) && k > 0 && t.order >= INT32_MIN
    requires m' == if |m.values| < k
                   then MinContainer(Insert(m.values, t.order), if m.maxValue < t.order then t.order else m.maxValue)
                   else if t.order <= m.maxValue then
                     var q := Trim(Insert(m.values, t.order), k); MinContainer(q, q[|q| - 1])
                   else m
    ensures m'.Valid(k) && m'.values == Trim(Insert(m.values, t.order), k)
  {
    InsertAscends(m.values, t.order);
    var q := Insert(m.values, t.order);
    assert q[|q| - 1] == if m.values == [] || m.values[|m.values| - 1] <= t.order
      then t.order else m.values[|m.values| - 1];
    if |m.values| < k {
      assert m'.values == q;
    } else if t.order > m.maxValue {
      AboveMaximum(m.values, t.order, k);
    } else {
      assert m'.values == q[..k] && forall v :: v in q[..k] ==> v in q;
      assert Ascending(q[..k]);
    }
  }

  lemma KeptIffFewer(m: MinContainer, t: Tuple, k: nat)
    requires m.Valid(k) && k > 0
    ensures CountLess(m.values, t.order) < k <==> (|m.values| < k || t.order <= m.maxValue)
  {
    CountLessBound(m.values, t.order);
    if |m.values| == k {
      CountLessBound(m.values[..k - 1], t.order);
    }
  }

  lemma RemembersNext(minima: map<int, MinContainer>, minima': map<int, MinContainer>, hash: Hash, seen: seq<Tuple>,
                      t: Tuple, k: nat)
    requires Remembers(minima, hash, seen, k)
    requires var h := hash(t.partition);
             && minima'.Keys == minima.Keys + {h} && (forall g :: g in minima && g != h ==> minima'[g] == minima[g])
             && minima'[h].Valid(k) && minima'[h].values == Trim(Insert(Container(minima, h).values, t.order), k)
    ensures Remembers(minima', hash, seen + [t], k)
  {
    forall g: int ensures Holds(Container(minima', g), hash, seen + [t], g, k) {
      assert Holds(Container(minima, g), hash, seen, g, k);
      HoldsNext(Container(minima, g), Container(minima', g), hash, seen, t, g, k);
    }
  }

  lemma PrunesNext(hash: Hash, seen: seq<Tuple>, rows: seq<Tuple>, keep: seq<bool>, t: Tuple, kept: bool, k: nat)
    requires Prunes(hash, seen, rows, keep, k)
    requires kept <==> SmallerInBucket(hash, seen + rows, hash(t.partition), t.order) < k
    ensures Prunes(hash, seen, rows + [t], keep + [kept], k)
  {
    forall i | 0 <= i < |rows + [t]|
      ensures (keep + [kept])[i] <==>
              SmallerInBucket(hash, seen + (rows + [t])[..i], hash((rows + [t])[i].partition),
                (rows + [t])[i].order) < k
    {
      assert (rows + [t])[..i] == rows[..i];
      if i == |rows| {
        assert rows[..i] == rows;
      }
    }
  }

  // ----- When pruning by hash value is safe -----

  ghost predicate InjectiveOn(hash: Hash, parts: iset<int>) {
    forall p: int, q: int :: p in parts && q in parts && hash(p) == hash(q) ==> p == q
  }

  // All tuples belong to these partitions.
  ghost predicate Over(rows: seq<Tuple>, parts: iset<int>) {
    forall i :: 0 <= i < |rows| ==> rows[i].partition in parts
  }

  // No two partitions of the input share a hash value.
  predicate CollisionFree(hash: Hash, rows: seq<Tuple>) {
    forall i, j :: 0 <= i < |rows| && 0 <= j < |rows| && hash(rows[i].partition) == hash(rows[j].partition) ==>
      rows[i].partition == rows[j].partition
  }

  ghost function PartitionsOf(rows: seq<Tuple>): (parts: iset<int>)
    ensures Over(rows, parts)
  {
    iset i | 0 <= i < |rows| :: rows[i].partition
  }

  lemma CollisionFreeOn(hash: Hash, rows: seq<Tuple>)
    ensures CollisionFree(hash, rows) <==> InjectiveOn(hash, PartitionsOf(rows))
  {
    if InjectiveOn(hash, PartitionsOf(rows)) {
      forall i, j | 0 <= i < |rows| && 0 <= j < |rows| && hash(rows[i].partition) == hash(rows[j].partition)
        ensures rows[i].partition == rows[j].partition
      {
      }
    }
  }

  lemma {:induction false} BucketIsPartition(hash: Hash, parts: iset<int>, rows: seq<Tuple>, t: Tuple)
    requires InjectiveOn(hash, parts) && Over(rows, parts) && t.partition in parts
    ensures SmallerInBucket(hash, rows, hash(t.partition), t.order) == Smaller(rows, t)
  {
    if rows != [] {
      var front, last := rows[..|rows| - 1], rows[|rows| - 1];
      BucketIsPartition(hash, parts, front, t);
      assert rows == front + [last];
      SmallerAppend(front, [last], t);
      assert [last][1..] == [];
    }
  }

  lemma BeyondInBucket(hash: Hash, parts: iset<int>, before: seq<Tuple>, after: seq<Tuple>, t: Tuple, k: nat)
    requires InjectiveOn(hash, parts) && Over(before, parts) && t.partition in parts
    requires SmallerInBucket(hash, before, hash(t.partition), t.order) >= k
    ensures Smaller(before + after, t) >= k
  {
    BucketIsPartition(hash, parts, before, t);
    SmallerAppend(before, after, t);
  }

  lemma PrunedBeyond(hash: Hash, parts: iset<int>, seen: seq<Tuple>, rows: seq<Tuple>, keep: seq<bool>, k: nat)
    requires InjectiveOn(hash, parts) && Over(seen, parts) && Over(rows, parts) && Prunes(hash, seen, rows, keep, k)
    ensures DropsBeyond(rows, keep, seen + rows, k)
  {
    hide InjectiveOn, Smaller, SmallerInBucket;
    forall i | 0 <= i < |rows| && !keep[i] ensures Smaller(seen + rows, rows[i]) >= k {
      var before, after := seen + rows[..i], rows[i..];
      assert seen + rows == before + after;
      BeyondInBucket(hash, parts, before, after, rows[i], k);
    }
  }

  /** When no two partitions of the input collide, pruning it does not change the query's answer. */
  lemma PruningIsSafe(hash: Hash, rows: seq<Tuple>, keep: seq<bool>, k: nat)
    requires CollisionFree(hash, rows) && Prunes(hash, [], rows, keep, k)
    ensures TopK(Kept(rows, keep), k) == TopK(rows, k)
  {
    assert [] + rows == rows;
    CollisionFreeOn(hash, rows);
    PrunedBeyond(hash, PartitionsOf(rows), [], rows, keep, k);
    SafePruning(rows, keep, k);
  }

  // k tuples of partition p followed by the only tuple of partition q.
  function CollisionRows(p: int, q: int, k: nat): seq<Tuple> {
    Copies(p, k) + [Tuple(q, 1, 0)]
  }

  function Copies(p: int, k: nat): (r: seq<Tuple>)
    ensures |r| == k && forall i :: 0 <= i < k ==> r[i] == Tuple(p, 0, 0)
  {
    if k == 0 then [] else Copies(p, k - 1) + [Tuple(p, 0, 0)]
  }

  lemma {:induction false} CopiesBelow(hash: Hash, p: int, k: nat)
    ensures SmallerInBucket(hash, Copies(p, k), hash(p), 1) == k
    ensures SmallerInBucket(hash, Copies(p, k), hash(p), 0) == 0
  {
    if k > 0 {
      CopiesBelow(hash, p, k - 1);
      assert Copies(p, k)[..k - 1] == Copies(p, k - 1);
    }
  }

  lemma {:induction false} CopiesElsewhere(p: int, k: nat, t: Tuple)
    requires t.partition != p
    ensures Smaller(Copies(p, k), t) == 0
  {
    if k > 0 {
      CopiesElsewhere(p, k - 1, t);
      SmallerAppend(Copies(p, k - 1), [Tuple(p, 0, 0)], t);
      assert [Tuple(p, 0, 0)][1..] == [];
    }
  }

  function CollisionKeep(k: nat): seq<bool> {
    seq(k, i => true) + [false]
  }

  lemma CollisionPrunes(hash: Hash, p: int, q: int, k: nat)
    requires p != q && hash(p) == hash(q)
    ensures k > 0 ==> Prunes(hash, [], CollisionRows(p, q, k), CollisionKeep(k), k)
  {
    var rows, keep := CollisionRows(p, q, k), CollisionKeep(k);
    if k > 0 {
      forall i | 0 <= i < |rows|
        ensures keep[i] <==> SmallerInBucket(hash, [] + rows[..i], hash(rows[i].partition), rows[i].order) < k
      {
        assert [] + rows[..i] == rows[..i];
        assert rows[..i] == Copies(p, k)[..i];
        CopiesPrefix(p, k, i);
        CopiesBelow(hash, p, i);
      }
    }
  }

  // The dropped tuple is first in its own partition.
  lemma LastIsFirst(p: int, q: int, k: nat)
    requires k > 0 && p != q
    ensures Tuple(q, 1, 0) in TopK(CollisionRows(p, q, k), k)
  {
    var rows, last := CollisionRows(p, q, k), Tuple(q, 1, 0);
    CopiesElsewhere(p, k, last);
    SmallerAppend(Copies(p, k), [last], last);
    assert [last][1..] == [];
    PassingCount(rows, rows, k, last);
    assert last in multiset(rows) by { assert rows[k] == last; }
    assert multiset(TopK(rows, k))[last] > 0;
  }

  lemma CopiesSelected(p: int, q: int, k: nat)
    ensures Kept(CollisionRows(p, q, k), CollisionKeep(k)) == Copies(p, k)
  {
    var last := Tuple(q, 1, 0);
    AllKept(Copies(p, k), seq(k, i => true));
    KeptAppend(Copies(p, k), seq(k, i => true), [last], [false]);
    assert Kept([last], [false]) == [] by { assert [last][1..] == []; }
  }

  /** With two partitions that share a hash value it does: the tuple of one can be dropped because of
      the tuples of the other, for every k. */
  lemma CollisionLosesTuple(hash: Hash, p: int, q: int, k: nat)
    requires k > 0 && p != q && hash(p) == hash(q)
    ensures Prunes(hash, [], CollisionRows(p, q, k), CollisionKeep(k), k)
    ensures TopK(Kept(CollisionRows(p, q, k), CollisionKeep(k)), k) != TopK(CollisionRows(p, q, k), k)
  {
    var last := Tuple(q, 1, 0);
    CollisionPrunes(hash, p, q, k);
    LastIsFirst(p, q, k);
    CopiesSelected(p, q, k);
    if last in TopK(Copies(p, k), k) {
      PassingRanks(Copies(p, k), Copies(p, k), k, last);
      assert false;
    }
  }

  lemma {:induction false} CopiesPrefix(p: int, k: nat, i: nat)
    requires i <= k
    ensures Copies(p, k)[..i] == Copies(p, i)
  {
  }

  // Pruning keeps the answer of every input over these partitions.
  ghost predicate SafeOver(hash: Hash, parts: iset<int>, k: nat) {
    forall rows, keep :: Over(rows, parts) && Prunes(hash, [], rows, keep, k) ==>
      TopK(Kept(rows, keep), k) == TopK(rows, k)
  }

  /** Pruning by hash value is safe for every input over a set of partitions exactly when no two
      partitions of the set collide. */
  lemma SafeExactlyWithoutCollisions(hash: Hash, parts: iset<int>, k: nat)
    requires k > 0
    ensures SafeOver(hash, parts, k) <==> InjectiveOn(hash, parts)
  {
    if InjectiveOn(hash, parts) {
      forall rows, keep | Over(rows, parts) && Prunes(hash, [], rows, keep, k)
        ensures TopK(Kept(rows, keep), k) == TopK(rows, k)
      {
        PruningIsSafe(hash, rows, keep, k);
      }
    } else {
      var p: int, q: int :| p in parts && q in parts && hash(p) == hash(q) && p != q;
      CollisionLosesTuple(hash, p, q, k);
      assert Over(CollisionRows(p, q, k), parts);
      assert !SafeOver(hash, parts, k);
    }
  }

  // ----- A thread: any chunks, pruned or not -----

  lemma {:induction false} ConcatSnoc(parts: seq<seq<Tuple>>, part: seq<Tuple>)
    ensures Concat(parts + [part]) == Concat(parts) + part
  {
    if parts == [] {
      assert [part][1..] == [] && [] + [part] == [part];
    } else {
      assert (parts + [part])[1..] == parts[1..] + [part];
      ConcatSnoc(parts[1..], part);
    }
  }

  /** A thread's share of the sink, whatever its chunks and whenever the adaptive mode prunes: only
      tuples beyond rank k of the thread's own tuples are dropped, so by SafePartwisePruning the
      threads together leave the query's answer unchanged. */
  method SinkAll(hash: Hash, chunks: seq<seq<Tuple>>, prune: seq<bool>, k: nat)
    returns (appended: seq<Tuple>, ghost keep: seq<bool>)
    requires k > 0 && |prune| == |chunks| && CollisionFree(hash, Concat(chunks))
    requires forall c, i :: 0 <= c < |chunks| && 0 <= i < |chunks[c]| ==> chunks[c][i].order >= INT32_MIN
    ensures |keep| == |Concat(chunks)| && appended == Kept(Concat(chunks), keep)
    ensures DropsBeyond(Concat(chunks), keep, Concat(chunks), k)
    ensures TopK(appended, k) == TopK(Concat(chunks), k)
  {
    var state := new HashedSortLocalSinkState();
    NothingSeen(hash, k);
    ghost var parts := PartitionsOf(Concat(chunks));
    CollisionFreeOn(hash, Concat(chunks));
    ghost var seen, done := [], [];
    appended, keep := [], [];
    for c := 0 to |chunks|
      invariant Remembers(state.minima, hash, seen, k)
      invariant done == Concat(chunks[..c]) && |keep| == |done| && appended == Kept(done, keep)
      invariant forall t :: Smaller(seen, t) <= Smaller(done, t)
      invariant DropsBeyond(done, keep, done, k) && Over(seen, parts)
      invariant fresh(state)
    {
      ghost var before := seen;
      var part;
      ghost var flags;
      part, flags, seen := state.Sink(hash, seen, chunks[c], k, prune[c]);
      assert chunks[..c + 1] == chunks[..c] + [chunks[c]];
      ConcatSnoc(chunks[..c], chunks[c]);
      ConcatHolds(chunks, c);
      ThreadStep(hash, parts, before, done, keep, chunks[c], flags, prune[c], k);
      KeptAppend(done, keep, chunks[c], flags);
      appended := appended + part;
      keep := keep + flags;
      done := done + chunks[c];
    }
    assert chunks[..|chunks|] == chunks;
    SafePruning(Concat(chunks), keep, k);
  }

  // A chunk's tuples are among all tuples.
  lemma {:induction false} ConcatHolds(chunks: seq<seq<Tuple>>, c: nat)
    requires c < |chunks|
    ensures Over(chunks[c], PartitionsOf(Concat(chunks)))
  {
    var all := Concat(chunks);
    forall i | 0 <= i < |chunks[c]| ensures chunks[c][i].partition in PartitionsOf(all) {
      var j := ConcatIndex(chunks, c, i);
      assert all[j].partition in PartitionsOf(all);
    }
  }

  lemma {:induction false} ConcatIndex(chunks: seq<seq<Tuple>>, c: nat, i: nat) returns (j: nat)
    requires c < |chunks| && i < |chunks[c]|
    ensures j < |Concat(chunks)| && Concat(chunks)[j] == chunks[c][i]
  {
    if c == 0 {
      j := i;
    } else {
      j := ConcatIndex(chunks[1..], c - 1, i);
      j := j + |chunks[0]|;
    }
  }

  lemma ThreadStep(hash: Hash, parts: iset<int>, seen: seq<Tuple>, done: seq<Tuple>, keep: seq<bool>,
                   chunk: seq<Tuple>, flags: seq<bool>, prune: bool, k: nat)
    requires InjectiveOn(hash, parts) && Over(seen, parts) && Over(chunk, parts)
    requires |keep| == |done| && |flags| == |chunk| && DropsBeyond(done, keep, done, k)
    requires forall t :: Smaller(seen, t) <= Smaller(done, t)
    requires if prune then Prunes(hash, seen, chunk, flags, k) else Kept(chunk, flags) == chunk
    ensures DropsBeyond(done + chunk, keep + flags, done + chunk, k)
    ensures forall t :: Smaller(if prune then seen + chunk else seen, t) <= Smaller(done + chunk, t)
  {
    forall t ensures Smaller(if prune then seen + chunk else seen, t) <= Smaller(done + chunk, t) {
      SmallerAppend(seen, chunk, t);
      SmallerAppend(done, chunk, t);
    }
    if prune {
      PrunedBeyond(hash, parts, seen, chunk, flags, k);
      forall i | 0 <= i < |chunk| && !flags[i] ensures Smaller(done + chunk, chunk[i]) >= k {
        SmallerAppend(seen, chunk, chunk[i]);
        SmallerAppend(done, chunk, chunk[i]);
      }
    } else {
      NothingDropped(chunk, flags);
    }
    DropsAppend(done, keep, chunk, flags, k);
  }

  lemma DropsAppend(done: seq<Tuple>, keep: seq<bool>, chunk: seq<Tuple>, flags: seq<bool>, k: nat)
    requires |keep| == |done| && |flags| == |chunk|
    requires DropsBeyond(done, keep, done, k) && DropsBeyond(chunk, flags, done + chunk, k)
    ensures DropsBeyond(done + chunk, keep + flags, done + chunk, k)
  {
    forall i | 0 <= i < |done + chunk| && !(keep + flags)[i] ensures Smaller(done + chunk, (done + chunk)[i]) >= k {
      var t := (done + chunk)[i];
      SmallerAppend(done, chunk, t);
      if i >= |done| {
        assert t == chunk[i - |done|] && !flags[i - |done|];
      }
    }
  }

  lemma {:induction false} NothingDropped(rows: seq<Tuple>, keep: seq<bool>)
    requires |rows| == |keep| && |Kept(rows, keep)| == |rows|
    ensures forall i :: 0 <= i < |keep| ==> keep[i]
  {
    if rows != [] {
      NothingDropped(rows[1..], keep[1..]);
      forall i | 0 <= i < |keep| ensures keep[i] {
        assert i > 0 ==> keep[i] == keep[1..][i - 1];
      }
    }
  }
}
