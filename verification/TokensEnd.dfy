/** What the recogniser does at the end of the tokens: which matchers answer that they are optional,
    when a list still succeeds, and where a failure leaves the index. */
module TokensEnd {
  import opened Characters
  import opened Matchers
  import opened Peg
  import opened Recogniser

  // ----- Answers to the question for suggestions -----

  // The matchers marked after the children from the k-th to before the j-th have been asked in turn.
  ghost function Turn(g: Grammar, cs: seq<nat>, k: nat, added: set<nat>, j: nat): (after: set<nat>)
    requires g.Valid() && Below(cs, |g.nodes|) && k <= j <= |cs|
    ensures added <= after
  {
    if j == k then added else Suggest(g, cs[j - 1], Turn(g, cs, k, added, j - 1)).added
  }

  // The j-th child, asked in its turn, answers that it is optional.
  ghost predicate YieldsInTurn(g: Grammar, cs: seq<nat>, k: nat, added: set<nat>, j: nat)
    requires g.Valid() && Below(cs, |g.nodes|) && k <= j < |cs|
  {
    !Suggest(g, cs[j], Turn(g, cs, k, added, j)).mandatory
  }

  lemma {:induction false} TurnShifted(g: Grammar, cs: seq<nat>, k: nat, added: set<nat>, j: nat)
    requires g.Valid() && Below(cs, |g.nodes|) && k < j <= |cs|
    ensures Turn(g, cs, k, added, j) == Turn(g, cs, k + 1, Suggest(g, cs[k], added).added, j)
    decreases j
  {
    if j > k + 1 {
      TurnShifted(g, cs, k, added, j - 1);
    }
  }

  /** Children are asked in turn up to the first that answers mandatory: it is optional to go on from
      the k-th exactly when each of them, asked in its turn, is. */
  lemma {:induction false} AskedInTurn(g: Grammar, cs: seq<nat>, k: nat, added: set<nat>)
    requires g.Valid() && Below(cs, |g.nodes|) && k <= |cs|
    ensures var s := SuggestAll(g, cs, k, added);
            && (!s.mandatory <==> forall j :: k <= j < |cs| ==> YieldsInTurn(g, cs, k, added, j))
            && (!s.mandatory ==> s.added == Turn(g, cs, k, added, |cs|))
            && (s.mandatory ==>
                  exists j :: k <= j < |cs| && !YieldsInTurn(g, cs, k, added, j)
                              && s.added == Turn(g, cs, k, added, j + 1)
                              && forall l :: k <= l < j ==> YieldsInTurn(g, cs, k, added, l))
    decreases |cs| - k
  {
    if k < |cs| {
      var first := Suggest(g, cs[k], added);
      assert Turn(g, cs, k, added, k + 1) == first.added;
      assert first.mandatory <==> !YieldsInTurn(g, cs, k, added, k);
      if !first.mandatory {
        var next := k + 1;
        AskedInTurn(g, cs, next, first.added);
        forall j | k < j <= |cs|
          ensures Turn(g, cs, k, added, j) == Turn(g, cs, k + 1, first.added, j)
        {
          TurnShifted(g, cs, k, added, j);
        }
        var s := SuggestAll(g, cs, k, added);
        assert s == SuggestAll(g, cs, k + 1, first.added);
        if s.mandatory {
          var j :| next <= j < |cs| && !YieldsInTurn(g, cs, next, first.added, j) &&
                   s.added == Turn(g, cs, next, first.added, j + 1) &&
                   forall l :: next <= l < j ==> YieldsInTurn(g, cs, next, first.added, l);
          assert !YieldsInTurn(g, cs, k, added, j) && s.added == Turn(g, cs, k, added, j + 1);
          forall l | k <= l < j ensures YieldsInTurn(g, cs, k, added, l) {
            assert l > k ==> YieldsInTurn(g, cs, k + 1, first.added, l);
          }
        } else {
          forall j | k <= j < |cs| ensures YieldsInTurn(g, cs, k, added, j) {
            assert j > k ==> YieldsInTurn(g, cs, k + 1, first.added, j);
          }
        }
      }
    }
  }

  /** Asked for the first time, an optional matcher answers that it is optional, a list does when its
      children, asked in turn, do, and every other matcher is mandatory. */
  lemma AskedFirst(g: Grammar, m: nat, added: set<nat>)
    requires g.Valid() && m < |g.nodes| && m !in added
    ensures Below(g.nodes[m].Successors(), |g.nodes|)
    ensures match g.nodes[m]
            case Optional(_) => !Suggest(g, m, added).mandatory
            case List(_, cs) =>
              !Suggest(g, m, added).mandatory <==> forall j :: 0 <= j < |cs| ==> YieldsInTurn(g, cs, 0, added + {m}, j)
            case _ => Suggest(g, m, added).mandatory
  {
    if g.nodes[m].List? {
      AskedInTurn(g, g.nodes[m].children, 0, added + {m});
    }
  }

  /** Asked again, every matcher is mandatory and marks nothing. */
  lemma AskedAgain(g: Grammar, m: nat, added: set<nat>)
    requires g.Valid() && m < |g.nodes| && m in added
    ensures Suggest(g, m, added) == Suggested(true, added)
  {
  }

  // ----- Lists at the end of the tokens -----

  lemma {:induction false} TurnMarks(g: Grammar, cs: seq<nat>, k: nat, added: set<nat>, j: nat)
    requires g.Valid() && Below(cs, |g.nodes|) && k <= j <= |cs|
    ensures forall l :: k <= l < j ==> cs[l] in Turn(g, cs, k, added, j)
    decreases j
  {
    if j > k {
      TurnMarks(g, cs, k, added, j - 1);
      SuggestAsks(g, cs[j - 1], Turn(g, cs, k, added, j - 1));
    }
  }

  /** With no token left, the rest of a list succeeds, where it stands and with every child marked, exactly
      when each of them in turn answers that it is optional; otherwise the list is exhausted. */
  lemma ListAtEnd(g: Grammar, n: nat, cs: seq<nat>, k: nat, toks: seq<string>, s: State, inner: State)
    requires g.Valid() && All(cs, k).In(g) && n > 0 && s.index >= |toks|
    ensures var r := Recognise(g, n, All(cs, k), toks, s, inner);
            && r.Some? && r.value.state.index == s.index
            && (r.value.answer.Success? <==> forall j :: k <= j < |cs| ==> YieldsInTurn(g, cs, k, s.added, j))
            && (r.value.answer.Success? ==> forall j :: k <= j < |cs| ==> cs[j] in r.value.state.added)
            && (!r.value.answer.Success? ==> r.value.answer.Exhausted?)
  {
    AskedInTurn(g, cs, k, s.added);
    TurnMarks(g, cs, k, s.added, |cs|);
  }

  /** In particular, when all the rest are optional matchers: exactly when none has been asked before its
      turn. */
  lemma OptionalsAtEnd(g: Grammar, n: nat, cs: seq<nat>, k: nat, toks: seq<string>, s: State, inner: State)
    requires g.Valid() && All(cs, k).In(g) && n > 0 && s.index >= |toks|
    requires forall j :: k <= j < |cs| ==> g.nodes[cs[j]].Optional?
    ensures var r := Recognise(g, n, All(cs, k), toks, s, inner);
            && r.Some? && r.value.state.index == s.index
            && (r.value.answer.Success? <==> forall j :: k <= j < |cs| ==> cs[j] !in Turn(g, cs, k, s.added, j))
            && (r.value.answer.Success? ==> forall j :: k <= j < |cs| ==> cs[j] in r.value.state.added)
  {
    ListAtEnd(g, n, cs, k, toks, s, inner);
    forall j | k <= j < |cs| ensures YieldsInTurn(g, cs, k, s.added, j) <==> cs[j] !in Turn(g, cs, k, s.added, j) {
      if cs[j] in Turn(g, cs, k, s.added, j) {
        AskedAgain(g, cs[j], Turn(g, cs, k, s.added, j));
      } else {
        AskedFirst(g, cs[j], Turn(g, cs, k, s.added, j));
      }
    }
  }

  /** With no token left, a repeat that has matched succeeds, and asks its element. */
  lemma RepeatAtEnd(g: Grammar, n: nat, c: nat, toks: seq<string>, s: State, inner: State)
    requires g.Valid() && c < |g.nodes| && n > 0 && inner.index >= |toks|
    ensures var r := Recognise(g, n, More(c), toks, s, inner);
            && r.Some? && r.value.answer.Success? && r.value.state.index == inner.index
            && c in r.value.state.added && s.added <= r.value.state.added
  {
    SuggestAsks(g, c, s.added);
  }

  // ----- Where a failure leaves the index -----

  lemma {:induction false} ExhaustedAtEnd(g: Grammar, n: nat, cs: seq<nat>, k: nat, toks: seq<string>, s: State,
                                          inner: State)
    requires g.Valid() && All(cs, k).In(g)
    ensures var r := Recognise(g, n, All(cs, k), toks, s, inner);
            r.Some? && r.value.answer.Exhausted? ==> r.value.state.index >= |toks|
    decreases n
  {
    if n > 0 && k < |cs| && s.index < |toks| {
      var r := Recognise(g, n - 1, One(cs[k]), toks, s, s);
      if r.Some? && r.value.answer.Success? {
        ExhaustedAtEnd(g, n - 1, cs, k + 1, toks, r.value.state, r.value.state);
      }
    }
  }

  /** A failing matcher leaves the state as it was, except that a list which the tokens did not suffice for
      leaves the index at their end. */
  lemma FailureIndex(g: Grammar, n: nat, m: nat, toks: seq<string>, s: State)
    requires g.Valid() && m < |g.nodes| && Recognise(g, n, One(m), toks, s, s).Some?
    ensures var r := Recognise(g, n, One(m), toks, s, s).value;
            r.answer.Fail? ==>
              && r.state.added == s.added
              && (r.state.index == s.index || (g.nodes[m].List? && r.state.index >= |toks|))
  {
    var node, own := g.nodes[m], State(s.index, {});
    assert Below(node.Successors(), |g.nodes|);
    match node
    case List(_, cs) => ExhaustedAtEnd(g, n - 1, cs, 0, toks, own, own);
    case Choice(cs) => FailedChoice(g, n - 1, cs, 0, toks, s);
    case Repeat(c) =>
      assert node.Successors()[0] == c;
      var r := Recognise(g, n - 1, One(c), toks, own, own).value;
      if r.answer.Success? {
        MoreSucceeds(g, n - 1, c, toks, s, r.state);
      }
    case _ =>
  }

  lemma {:induction false} FailedChoice(g: Grammar, n: nat, cs: seq<nat>, k: nat, toks: seq<string>, s: State)
    requires g.Valid() && Any(cs, k).In(g) && Recognise(g, n, Any(cs, k), toks, s, s).Some?
    ensures var r := Recognise(g, n, Any(cs, k), toks, s, s).value;
            r.answer.Fail? ==> r.state == s
    decreases n
  {
    if k < |cs| && Recognise(g, n - 1, One(cs[k]), toks, State(s.index, {}), s).value.answer.Fail? {
      FailedChoice(g, n - 1, cs, k + 1, toks, s);
    }
  }

  lemma {:induction false} MoreSucceeds(g: Grammar, n: nat, c: nat, toks: seq<string>, s: State, inner: State)
    requires g.Valid() && c < |g.nodes| && Recognise(g, n, More(c), toks, s, inner).Some?
    ensures !Recognise(g, n, More(c), toks, s, inner).value.answer.Fail?
    decreases n
  {
    if inner.index < |toks| {
      var r := Recognise(g, n - 1, One(c), toks, inner, inner).value;
      if r.answer.Success? {
        MoreSucceeds(g, n - 1, c, toks, s.(index := inner.index), r.state);
      }
    }
  }

  // ----- Two small lists -----

  /** After a leaf that takes the last token, an optional leaf does not stop a list from succeeding ... */
  lemma OptionalLeafMissing(kw: KeywordSets, a: Matcher, b: Matcher, toks: seq<string>)
    requires toks != [] && a.IsLeaf() && b.IsLeaf() && LeafVerdict(kw, a, toks[|toks| - 1]) == Accept
    ensures var g := Grammar(kw, [List("", [1, 2]), a, Optional(3), b]);
            Recognises(g, 0, toks, State(|toks| - 1, {}), Recognition(Success, State(|toks|, {})))
  {
    var g := Grammar(kw, [List("", [1, 2]), a, Optional(3), b]);
    var s, e := State(|toks| - 1, {}), State(|toks|, {});
    assert Recognise(g, 2, One(1), toks, s, s) == Some(Recognition(Success, e));
    OptionalsAtEnd(g, 2, [1, 2], 1, toks, e, e);
    assert Recognise(g, 2, All([1, 2], 1), toks, e, e).value.answer.Success?;
    assert Recognise(g, 3, All([1, 2], 0), toks, s, s) == Recognise(g, 2, All([1, 2], 1), toks, e, e);
    assert Recognise(g, 4, One(0), toks, s, s) == Some(Recognition(Success, e));
  }

  /** ... and one that is not optional does, and leaves the index at the end. */
  lemma LeafMissing(kw: KeywordSets, a: Matcher, b: Matcher, toks: seq<string>)
    requires toks != [] && a.IsLeaf() && b.IsLeaf() && LeafVerdict(kw, a, toks[|toks| - 1]) == Accept
    ensures var g := Grammar(kw, [List("", [1, 2]), a, b]);
            Recognises(g, 0, toks, State(|toks| - 1, {}), Recognition(Fail, State(|toks|, {})))
  {
    var g := Grammar(kw, [List("", [1, 2]), a, b]);
    var s, e := State(|toks| - 1, {}), State(|toks|, {});
    assert Recognise(g, 2, One(1), toks, s, s) == Some(Recognition(Success, e));
    ListAtEnd(g, 2, [1, 2], 1, toks, e, e);
    AskedFirst(g, 2, {});
    assert !YieldsInTurn(g, [1, 2], 1, {}, 1);
    assert Recognise(g, 3, All([1, 2], 0), toks, s, s) == Recognise(g, 2, All([1, 2], 1), toks, e, e);
    assert Recognise(g, 4, One(0), toks, s, s) == Some(Recognition(Fail, e));
  }
}
