/** Selection vectors: which positions of a vector are selected, and what is selected by them. */
module Selections {

  // The selected positions from i on, in order.
  function Indices(ok: seq<bool>, i: nat): (r: seq<nat>)
    ensures forall j :: 0 <= j < |r| ==> i <= r[j] < |ok| && ok[r[j]]
    decreases |ok| - i
  {
    if i >= |ok| then [] else (if ok[i] then [i] else []) + Indices(ok, i + 1)
  }

  lemma {:induction false} IndicesHold(ok: seq<bool>, i: nat, x: nat)
    ensures x in Indices(ok, i) <==> i <= x < |ok| && ok[x]
    decreases |ok| - i
  {
    if i < |ok| {
      IndicesHold(ok, i + 1, x);
    }
  }

  lemma {:induction false} IndicesIncrease(ok: seq<bool>, i: nat)
    ensures forall j, l :: 0 <= j < l < |Indices(ok, i)| ==> Indices(ok, i)[j] < Indices(ok, i)[l]
    decreases |ok| - i
  {
    if i < |ok| {
      IndicesIncrease(ok, i + 1);
      var s, rest := Indices(ok, i), Indices(ok, i + 1);
      forall j, l | 0 <= j < l < |s| ensures s[j] < s[l] {
        if ok[i] {
          assert s[l] == rest[l - 1] && (j > 0 ==> s[j] == rest[j - 1]);
        }
      }
    }
  }

  // Going on by one position.
  lemma IndicesNext(ok: seq<bool>, i: nat, sel: seq<nat>)
    requires i < |ok|
    ensures sel + Indices(ok, i) == (if ok[i] then sel + [i] else sel) + Indices(ok, i + 1)
  {
    assert ok[i] ==> Indices(ok, i) == [i] + Indices(ok, i + 1);
  }

  lemma IndicesEnd(ok: seq<bool>, sel: seq<nat>)
    ensures sel + Indices(ok, |ok|) == sel
  {
  }

  function Count(ok: seq<bool>): (n: nat)
    ensures n <= |ok|
  {
    if ok == [] then 0 else (if ok[0] then 1 else 0) + Count(ok[1..])
  }

  // How many of the first n are selected.
  function CountTo(ok: seq<bool>, n: nat): nat {
    if n == 0 then 0 else CountTo(ok, n - 1) + (if n <= |ok| && ok[n - 1] then 1 else 0)
  }

  lemma {:induction false} CountToGrows(ok: seq<bool>, m: nat, n: nat)
    requires m <= n
    ensures CountTo(ok, m) <= CountTo(ok, n)
    decreases n
  {
    if m < n {
      CountToGrows(ok, m, n - 1);
    }
  }

  lemma {:induction false} CountToOfLonger(ok: seq<bool>, more: seq<bool>, n: nat)
    requires n <= |ok|
    ensures CountTo(ok + more, n) == CountTo(ok, n)
  {
    if n > 0 {
      CountToOfLonger(ok, more, n - 1);
    }
  }

  lemma {:induction false} CountToIsCount(ok: seq<bool>, n: nat)
    requires n <= |ok|
    ensures CountTo(ok, n) == Count(ok[..n])
  {
    if n > 0 {
      CountToIsCount(ok, n - 1);
      assert ok[..n] == ok[..n - 1] + [ok[n - 1]];
      CountAppend(ok[..n - 1], [ok[n - 1]]);
      assert [ok[n - 1]][1..] == [];
    }
  }

  function Kept<T>(s: seq<T>, ok: seq<bool>): (r: seq<T>)
    requires |s| == |ok|
    ensures |r| == Count(ok)
  {
    if s == [] then [] else (if ok[0] then [s[0]] else []) + Kept(s[1..], ok[1..])
  }

  lemma {:induction false} CountAppend(a: seq<bool>, b: seq<bool>)
    ensures Count(a + b) == Count(a) + Count(b)
  {
    if a == [] {
      assert a + b == b;
    } else {
      assert (a + b)[1..] == a[1..] + b;
      CountAppend(a[1..], b);
    }
  }

  lemma {:induction false} KeptAppend<T>(s: seq<T>, a: seq<bool>, t: seq<T>, b: seq<bool>)
    requires |s| == |a| && |t| == |b|
    ensures Kept(s + t, a + b) == Kept(s, a) + Kept(t, b)
  {
    if s == [] {
      assert s + t == t && a + b == b;
    } else {
      assert (s + t)[1..] == s[1..] + t && (a + b)[1..] == a[1..] + b;
      KeptAppend(s[1..], a[1..], t, b);
    }
  }

  /** What is kept of a stretch lies in what is kept of the whole, between the counts at its ends. */
  lemma KeptSlice<T>(s: seq<T>, ok: seq<bool>, i: nat, j: nat)
    requires |s| == |ok| && i <= j <= |s|
    ensures CountTo(ok, i) <= CountTo(ok, j) <= Count(ok)
    ensures Kept(s, ok)[CountTo(ok, i)..CountTo(ok, j)] == Kept(s[i..j], ok[i..j])
  {
    hide Kept, Count, CountTo;
    CountToIsCount(ok, i);
    CountToIsCount(ok, j);
    assert s[..j] == s[..i] + s[i..j] && ok[..j] == ok[..i] + ok[i..j];
    KeptAppend(s[..i], ok[..i], s[i..j], ok[i..j]);
    CountAppend(ok[..i], ok[i..j]);
    assert s == s[..j] + s[j..] && ok == ok[..j] + ok[j..];
    KeptAppend(s[..j], ok[..j], s[j..], ok[j..]);
    CountAppend(ok[..j], ok[j..]);
  }

  // Slicing a vector by its selected positions.
  function Slice<T>(s: seq<T>, sel: seq<nat>): seq<T>
    requires forall j :: 0 <= j < |sel| ==> sel[j] < |s|
  {
    seq(|sel|, j requires 0 <= j < |sel| => s[sel[j]])
  }

  lemma {:induction false} SliceIsKept<T>(s: seq<T>, ok: seq<bool>, i: nat)
    requires |s| == |ok| && i <= |s|
    ensures Slice(s, Indices(ok, i)) == Kept(s[i..], ok[i..])
    decreases |s| - i
  {
    if i < |s| {
      SliceIsKept(s, ok, i + 1);
      assert s[i..][1..] == s[i + 1..] && ok[i..][1..] == ok[i + 1..];
      assert Slice(s, Indices(ok, i)) == (if ok[i] then [s[i]] else []) + Slice(s, Indices(ok, i + 1));
    }
  }
}
