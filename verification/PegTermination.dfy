/** Which grammars always finish matching, and what makes one loop. */
module PegTermination {
  import opened Characters
  import opened Matchers
  import opened Peg
  import opened PegProperties

  /** A ranking of the matchers, with an over-approximation of those that can match nothing. The
      rank drops along every reference that can be followed before a token is consumed, and the
      element of a repetition always consumes. */
  datatype Ranking = Ranking(rank: seq<nat>, nullable: seq<bool>) {
    ghost predicate AllNullable(cs: seq<nat>) {
      forall j :: 0 <= j < |cs| ==> cs[j] < |nullable| && nullable[cs[j]]
    }

    ghost predicate Ranks(g: Grammar) {
      |rank| == |nullable| == |g.nodes| && g.Valid() && forall m :: 0 <= m < |g.nodes| ==> RanksNode(g, m)
    }

    ghost predicate RanksNode(g: Grammar, m: nat)
      requires |rank| == |nullable| == |g.nodes| && g.Valid() && m < |g.nodes|
    {
      assert Below(g.nodes[m].Successors(), |g.nodes|);
      match g.nodes[m]
      case List(_, cs) =>
        && (forall k :: 0 <= k < |cs| && AllNullable(cs[..k]) ==> rank[cs[k]] < rank[m])
        && (AllNullable(cs) ==> nullable[m])
      case Optional(c) => assert g.nodes[m].Successors()[0] == c; rank[c] < rank[m] && nullable[m]
      case Choice(cs) => forall k :: 0 <= k < |cs| ==> rank[cs[k]] < rank[m] && (nullable[cs[k]] ==> nullable[m])
      case Repeat(c) => assert g.nodes[m].Successors()[0] == c; rank[c] < rank[m] && !nullable[c]
      case _ => true
    }
  }

  // ----- A matcher that is not nullable consumes a token -----

  ghost predicate Consumes(g: Grammar, r: Ranking, goal: Goal, toks: seq<string>, i: nat, o: Outcome) {
    i <= |toks| && r.Ranks(g) && goal.In(g) ==>
      && |o.tokens| == |toks|
      && (o.result.Matched? ==> i <= o.result.end <= |toks|)
      && (o.result.Matched? && o.result.end == i ==> MayMatchNothing(r, goal))
  }

  ghost predicate MayMatchNothing(r: Ranking, goal: Goal) {
    match goal
    case One(m) => m < |r.nullable| && r.nullable[m]
    case All(cs, k) => k <= |cs| && r.AllNullable(cs[k..])
    case Any(cs, k) => exists j :: k <= j < |cs| && cs[j] < |r.nullable| && r.nullable[cs[j]]
    case More(_) => true
  }

  ghost function ConsumesRelation(g: Grammar, r: Ranking): Relation {
    (goal: Goal, toks: seq<string>, i: nat, o: Outcome) => Consumes(g, r, goal, toks, i, o)
  }

  // When a pair of goals matches nothing, so does each of them.
  lemma ConsumesFollowed(g: Grammar, r: Ranking, first: Goal, second: Goal, toks: seq<string>, i: nat, o: Outcome)
    requires r.Ranks(g) && first.In(g) && second.In(g) && i <= |toks|
    requires Followed(ConsumesRelation(g, r), first, second, toks, i, o)
    ensures |o.tokens| == |toks| && (o.result.Matched? ==> i <= o.result.end <= |toks|)
    ensures o.result.Matched? && o.result.end == i ==> MayMatchNothing(r, first) && MayMatchNothing(r, second)
  {
    var R := ConsumesRelation(g, r);
    var a: Outcome :| R(first, toks, i, a) &&
      if a.result.Matched? then
        exists b: Outcome :: R(second, a.tokens, a.result.end, b) &&
          o == b.(result := Prepend(a.result.trees, b.result))
      else o == a;
    if a.result.Matched? {
      var b: Outcome :| R(second, a.tokens, a.result.end, b) &&
          o == b.(result := Prepend(a.result.trees, b.result));
    }
  }

  lemma ConsumesNode(g: Grammar, r: Ranking, m: nat, toks: seq<string>, i: nat, o: Outcome)
    requires r.Ranks(g) && One(m).In(g) && i <= |toks|
    requires NodeRule(g, ConsumesRelation(g, r), g.nodes[m], toks, i, o)
    ensures Consumes(g, r, One(m), toks, i, o)
  {
    assert r.RanksNode(g, m);
    assert Below(g.nodes[m].Successors(), |g.nodes|);
    var R := ConsumesRelation(g, r);
    match g.nodes[m]
    case List(_, cs) =>
      var a: Outcome :| R(All(cs, 0), toks, i, a) && o == Bundle(g.nodes[m], a);
      assert cs[0..] == cs;
    case Optional(c) =>
      assert g.nodes[m].Successors()[0] == c;
      var a: Outcome :| R(One(c), toks, i, a) && o == Settle(i, a);
    case Choice(cs) =>
      assert R(Any(cs, 0), toks, i, o);
    case Repeat(c) =>
      assert g.nodes[m].Successors()[0] == c;
      var a: Outcome :| Followed(R, One(c), More(c), toks, i, a) && o == Bundle(g.nodes[m], a);
      ConsumesFollowed(g, r, One(c), More(c), toks, i, a);
    case _ =>
  }

  lemma ConsumesChoice(g: Grammar, r: Ranking, cs: seq<nat>, k: nat, toks: seq<string>, i: nat, o: Outcome)
    requires r.Ranks(g) && Any(cs, k).In(g) && i <= |toks|
    requires Rule(g, ConsumesRelation(g, r), Any(cs, k), toks, i, o)
    ensures Consumes(g, r, Any(cs, k), toks, i, o)
  {
    if k < |cs| {
      var R := ConsumesRelation(g, r);
      var a: Outcome :| R(One(cs[k]), toks, i, a) &&
        if a.result.Matched? then o == Select(k, a)
        else if a.result.Raised? then o == a
        else R(Any(cs, k + 1), a.tokens, i, o);
    }
  }

  lemma ConsumesSequence(g: Grammar, r: Ranking, cs: seq<nat>, k: nat, toks: seq<string>, i: nat, o: Outcome)
    requires r.Ranks(g) && All(cs, k).In(g) && i <= |toks|
    requires Rule(g, ConsumesRelation(g, r), All(cs, k), toks, i, o)
    ensures Consumes(g, r, All(cs, k), toks, i, o)
  {
    hide Followed, Ranking.Ranks;
    if k < |cs| {
      ConsumesFollowed(g, r, One(cs[k]), All(cs, k + 1), toks, i, o);
      assert cs[k..] == [cs[k]] + cs[k + 1..];
    }
  }

  lemma ConsumesMore(g: Grammar, r: Ranking, m: nat, toks: seq<string>, i: nat, o: Outcome)
    requires r.Ranks(g) && More(m).In(g) && i <= |toks|
    requires Rule(g, ConsumesRelation(g, r), More(m), toks, i, o)
    ensures Consumes(g, r, More(m), toks, i, o)
  {
    if Followed(ConsumesRelation(g, r), One(m), More(m), toks, i, o) {
      ConsumesFollowed(g, r, One(m), More(m), toks, i, o);
    }
  }

  lemma ConsumesRule(g: Grammar, r: Ranking, goal: Goal, toks: seq<string>, i: nat, o: Outcome)
    requires r.Ranks(g) && goal.In(g) && i <= |toks|
    requires Rule(g, ConsumesRelation(g, r), goal, toks, i, o)
    ensures Consumes(g, r, goal, toks, i, o)
  {
    hide Followed, NodeRule, Consumes;
    match goal
    case One(m) => ConsumesNode(g, r, m, toks, i, o);
    case All(cs, k) => ConsumesSequence(g, r, cs, k, toks, i, o);
    case Any(cs, k) => ConsumesChoice(g, r, cs, k, toks, i, o);
    case More(m) => ConsumesMore(g, r, m, toks, i, o);
  }

  lemma ConsumesClosed(g: Grammar, r: Ranking)
    requires r.Ranks(g)
    ensures Closed(g, ConsumesRelation(g, r))
  {
    hide Rule;
    var R := ConsumesRelation(g, r);
    forall goal: Goal, toks: seq<string>, i: nat, o: Outcome | goal.In(g) && Rule(g, R, goal, toks, i, o)
      ensures R(goal, toks, i, o)
    {
      if i <= |toks| {
        ConsumesRule(g, r, goal, toks, i, o);
      }
    }
  }

  /** A matcher that the ranking does not call nullable consumes at least one token. */
  lemma NonNullableConsumes(g: Grammar, r: Ranking, m: nat, toks: seq<string>, i: nat, o: Outcome)
    requires r.Ranks(g) && i <= |toks| && Derives(g, One(m), toks, i, o)
    ensures |o.tokens| == |toks| && (o.result.Matched? ==> i <= o.result.end <= |toks|)
    ensures o.result.Matched? && !r.nullable[m] ==> o.result.end > i
  {
    ConsumesClosed(g, r);
    DerivesLeast(g, ConsumesRelation(g, r), One(m), toks, i, o);
    assert ConsumesRelation(g, r)(One(m), toks, i, o);
  }

  // ----- Termination -----

  /** With a ranking, matching always finishes, whatever the tokens. */
  lemma {:induction false} Terminates(g: Grammar, r: Ranking, m: nat, toks: seq<string>, i: nat) returns (o: Outcome)
    requires r.Ranks(g) && m < |g.nodes| && i <= |toks|
    ensures Derives(g, One(m), toks, i, o)
    decreases |toks| - i, r.rank[m], 1, 0
  {
    var R := DerivesIn(g);
    assert r.RanksNode(g, m);
    assert Below(g.nodes[m].Successors(), |g.nodes|);
    var node := g.nodes[m];
    match node {
      case List(_, cs) =>
        var a := TerminatesAll(g, r, m, cs, 0, i, toks, i);
        o := Bundle(node, a);
        assert R(All(cs, 0), toks, i, a);
      case Optional(c) =>
        assert node.Successors()[0] == c;
        var a := Terminates(g, r, c, toks, i);
        o := Settle(i, a);
        assert R(One(c), toks, i, a);
      case Choice(cs) =>
        o := TerminatesAny(g, r, m, cs, 0, toks, i);
      case Repeat(c) =>
        assert node.Successors()[0] == c;
        var a := Terminates(g, r, c, toks, i);
        o := a;
        if a.result.Matched? {
          NonNullableConsumes(g, r, c, toks, i, a);
          var b := TerminatesMore(g, r, c, a.tokens, a.result.end);
          o := b.(result := Prepend(a.result.trees, b.result));
          assert R(More(c), a.tokens, a.result.end, b);
        }
        assert R(One(c), toks, i, a);
        assert Followed(R, One(c), More(c), toks, i, o);
        o := Bundle(node, o);
      case _ =>
        o := LeafOutcome(g.keywords, node, toks, i);
    }
    assert Rule(g, R, One(m), toks, i, o);
    DerivesClosed(g, One(m), toks, i, o);
  }

  // The children of list m from the k-th on, m having been entered at token start.
  lemma {:induction false} TerminatesAll(g: Grammar, r: Ranking, m: nat, cs: seq<nat>, k: nat, start: nat,
                                         toks: seq<string>, i: nat) returns (o: Outcome)
    requires r.Ranks(g) && m < |g.nodes| && g.nodes[m].List? && g.nodes[m].children == cs && k <= |cs|
    requires start <= i <= |toks|
    requires i == start ==> r.AllNullable(cs[..k])
    ensures Derives(g, All(cs, k), toks, i, o)
    decreases |toks| - start, r.rank[m], 0, |cs| - k
  {
    var R := DerivesIn(g);
    assert r.RanksNode(g, m);
    assert Below(g.nodes[m].Successors(), |g.nodes|);
    if k == |cs| {
      o := Outcome(toks, Matched(i, []));
    } else {
      var a := Terminates(g, r, cs[k], toks, i);
      NonNullableConsumes(g, r, cs[k], toks, i, a);
      o := a;
      if a.result.Matched? {
        assert cs[..k + 1] == cs[..k] + [cs[k]];
        var b := TerminatesAll(g, r, m, cs, k + 1, start, a.tokens, a.result.end);
        o := b.(result := Prepend(a.result.trees, b.result));
        assert R(All(cs, k + 1), a.tokens, a.result.end, b);
      }
      assert R(One(cs[k]), toks, i, a);
      assert Followed(R, One(cs[k]), All(cs, k + 1), toks, i, o);
    }
    DerivesClosed(g, All(cs, k), toks, i, o);
  }

  lemma {:induction false} TerminatesAny(g: Grammar, r: Ranking, m: nat, cs: seq<nat>, k: nat,
                                         toks: seq<string>, i: nat) returns (o: Outcome)
    requires r.Ranks(g) && m < |g.nodes| && g.nodes[m].Choice? && g.nodes[m].children == cs && k <= |cs|
    requires i <= |toks|
    ensures Derives(g, Any(cs, k), toks, i, o)
    decreases |toks| - i, r.rank[m], 0, |cs| - k
  {
    var R := DerivesIn(g);
    assert r.RanksNode(g, m);
    assert Below(g.nodes[m].Successors(), |g.nodes|);
    if k == |cs| {
      o := Outcome(toks, NoMatch);
    } else {
      var a := Terminates(g, r, cs[k], toks, i);
      NonNullableConsumes(g, r, cs[k], toks, i, a);
      if a.result.NoMatch? {
        o := TerminatesAny(g, r, m, cs, k + 1, a.tokens, i);
      } else {
        o := if a.result.Matched? then Select(k, a) else a;
      }
      assert R(One(cs[k]), toks, i, a);
    }
    DerivesClosed(g, Any(cs, k), toks, i, o);
  }

  lemma {:induction false} TerminatesMore(g: Grammar, r: Ranking, c: nat, toks: seq<string>, i: nat)
    returns (o: Outcome)
    requires r.Ranks(g) && c < |g.nodes| && !r.nullable[c] && i <= |toks|
    ensures Derives(g, More(c), toks, i, o)
    decreases |toks| - i, r.rank[c] + 1, 0, 0
  {
    var R := DerivesIn(g);
    if i == |toks| {
      o := Outcome(toks, Matched(i, []));
    } else {
      var a := Terminates(g, r, c, toks, i);
      NonNullableConsumes(g, r, c, toks, i, a);
      assert R(One(c), toks, i, a);
      if a.result.Matched? {
        var b := TerminatesMore(g, r, c, a.tokens, a.result.end);
        MoreMatches(g, c, a.tokens, a.result.end, b);
        o := b.(result := Prepend(a.result.trees, b.result));
        assert R(More(c), a.tokens, a.result.end, b);
        assert Followed(R, One(c), More(c), toks, i, o);
      } else if a.result.Raised? {
        o := a;
        assert Followed(R, One(c), More(c), toks, i, o);
      } else {
        o := a.(result := Matched(i, []));
      }
    }
    DerivesClosed(g, More(c), toks, i, o);
  }

  lemma MoreMatches(g: Grammar, c: nat, toks: seq<string>, i: nat, o: Outcome)
    requires Derives(g, More(c), toks, i, o)
    ensures !o.result.NoMatch?
  {
    var n: nat :| Eval(g, n, More(c), toks, i) == Some(o);
    MoreNeverFails(g, n, c, toks, i);
  }

  // ----- Divergence -----

  datatype Call = Call(goal: Goal, tokens: seq<string>, index: nat)

  // The first goal, or the second from where the first ended when it matched.
  ghost predicate CallsEither(g: Grammar, c: Call, first: Goal, second: Goal, d: Call) {
    || d == Call(first, c.tokens, c.index)
    || exists o :: Derives(g, first, c.tokens, c.index, o) && o.result.Matched? &&
                   d == Call(second, o.tokens, o.result.end)
  }

  // Evaluating c comes to evaluating d: what is evaluated before d has an outcome.
  ghost predicate Calls(g: Grammar, c: Call, d: Call)
    requires g.Valid() && c.goal.In(g)
  {
    match c.goal
    case One(m) => NodeCalls(g, g.nodes[m], c, d)
    case All(cs, k) => k < |cs| && CallsEither(g, c, One(cs[k]), All(cs, k + 1), d)
    case Any(cs, k) =>
      k < |cs| &&
      (|| d == Call(One(cs[k]), c.tokens, c.index)
       || exists o :: Derives(g, One(cs[k]), c.tokens, c.index, o) && o.result.NoMatch? &&
                      d == Call(Any(cs, k + 1), o.tokens, c.index))
    case More(m) => c.index < |c.tokens| && CallsEither(g, c, One(m), More(m), d)
  }

  ghost predicate NodeCalls(g: Grammar, node: Matcher, c: Call, d: Call) {
    match node
    case List(_, cs) => d == Call(All(cs, 0), c.tokens, c.index)
    case Optional(x) => d == Call(One(x), c.tokens, c.index)
    case Choice(cs) => d == Call(Any(cs, 0), c.tokens, c.index)
    case Repeat(x) => CallsEither(g, c, One(x), More(x), d)
    case _ => false
  }

  // Each of these evaluations comes to another one of them.
  ghost predicate Endless(g: Grammar, calls: iset<Call>)
    requires g.Valid()
  {
    forall c {:trigger CallsOn(g, c, calls)} :: c in calls ==> CallsOn(g, c, calls)
  }

  ghost predicate CallsOn(g: Grammar, c: Call, calls: iset<Call>)
    requires g.Valid()
  {
    c.goal.In(g) && exists d :: d in calls && Calls(g, c, d)
  }

  ghost predicate Finishes(g: Grammar, c: Call) {
    exists o :: Derives(g, c.goal, c.tokens, c.index, o)
  }

  lemma {:induction false} EndlessLoops(g: Grammar, calls: iset<Call>, c: Call, n: nat)
    requires g.Valid() && Endless(g, calls) && c in calls && c.goal.In(g)
    ensures Eval(g, n, c.goal, c.tokens, c.index).None?
    decreases n, 1
  {
    hide EvalNode;
    if n > 0 {
      assert CallsOn(g, c, calls);
      var d :| d in calls && Calls(g, c, d);
      assert CallsOn(g, d, calls);
      match c.goal
      case One(m) => EndlessNode(g, calls, m, c, d, n);
      case All(cs, k) => EndlessEither(g, calls, c, One(cs[k]), All(cs, k + 1), d, n - 1);
      case Any(cs, k) =>
        EndlessLoops(g, calls, d, n - 1);
        if d != Call(One(cs[k]), c.tokens, c.index) && Eval(g, n - 1, One(cs[k]), c.tokens, c.index).Some? {
          var o :| Derives(g, One(cs[k]), c.tokens, c.index, o) && o.result.NoMatch? &&
                   d == Call(Any(cs, k + 1), o.tokens, c.index);
          Deterministic(g, One(cs[k]), c.tokens, c.index, o, Eval(g, n - 1, One(cs[k]), c.tokens, c.index).value);
        }
      case More(m) => EndlessEither(g, calls, c, One(m), More(m), d, n - 1);
    }
  }

  // Two goals in a row do not get past the one that is endless.
  lemma {:induction false} EndlessEither(g: Grammar, calls: iset<Call>, c: Call, first: Goal, second: Goal, d: Call,
                                         n: nat)
    requires g.Valid() && Endless(g, calls) && d in calls && d.goal.In(g)
    requires first.In(g) && second.In(g) && CallsEither(g, c, first, second, d)
    ensures var o := Eval(g, n, first, c.tokens, c.index);
            || o.None?
            || (o.value.result.Matched? && Eval(g, n, second, o.value.tokens, o.value.result.end).None?)
    decreases n, 2
  {
    EndlessLoops(g, calls, d, n);
    if d != Call(first, c.tokens, c.index) && Eval(g, n, first, c.tokens, c.index).Some? {
      var o :| Derives(g, first, c.tokens, c.index, o) && o.result.Matched? &&
               d == Call(second, o.tokens, o.result.end);
      Deterministic(g, first, c.tokens, c.index, o, Eval(g, n, first, c.tokens, c.index).value);
    }
  }

  lemma {:induction false} EndlessNode(g: Grammar, calls: iset<Call>, m: nat, c: Call, d: Call, n: nat)
    requires g.Valid() && Endless(g, calls) && d in calls && d.goal.In(g) && n > 0 && m < |g.nodes|
    requires NodeCalls(g, g.nodes[m], c, d)
    ensures EvalNode(g, n, m, c.tokens, c.index).None?
    decreases n, 0
  {
    assert Below(g.nodes[m].Successors(), |g.nodes|);
    match g.nodes[m]
    case Repeat(x) =>
      assert g.nodes[m].Successors()[0] == x;
      EndlessEither(g, calls, c, One(x), More(x), d, n - 1);
    case Optional(x) =>
      assert g.nodes[m].Successors()[0] == x;
      EndlessLoops(g, calls, d, n - 1);
    case List(_, _) => EndlessLoops(g, calls, d, n - 1);
    case Choice(_) => EndlessLoops(g, calls, d, n - 1);
    case _ =>
  }

  // The evaluations that do not finish.
  ghost function Unfinished(g: Grammar): iset<Call> {
    iset c: Call | g.Valid() && c.goal.In(g) && !Finishes(g, c)
  }

  // If all that c comes to finishes, so does c.
  lemma FinishesWithCalls(g: Grammar, c: Call)
    requires g.Valid() && c.goal.In(g) && forall d :: Calls(g, c, d) ==> d.goal.In(g) && Finishes(g, d)
    ensures Finishes(g, c)
  {
    var R, toks, i := DerivesIn(g), c.tokens, c.index;
    match c.goal
    case One(m) => FinishesNode(g, m, c);
    case All(cs, k) =>
      if k == |cs| {
        DerivesClosed(g, c.goal, toks, i, Outcome(toks, Matched(i, [])));
      } else {
        var o := FinishesEither(g, c, One(cs[k]), All(cs, k + 1));
        DerivesClosed(g, c.goal, toks, i, o);
      }
    case Any(cs, k) => FinishesAny(g, cs, k, c);
    case More(m) =>
      if i >= |toks| {
        DerivesClosed(g, c.goal, toks, i, Outcome(toks, Matched(i, [])));
      } else {
        FinishesMore(g, m, c);
      }
  }

  lemma FinishesEither(g: Grammar, c: Call, first: Goal, second: Goal) returns (o: Outcome)
    requires g.Valid() && first.In(g) && second.In(g)
    requires forall d :: CallsEither(g, c, first, second, d) ==> Finishes(g, d)
    ensures Followed(DerivesIn(g), first, second, c.tokens, c.index, o)
  {
    var R := DerivesIn(g);
    assert CallsEither(g, c, first, second, Call(first, c.tokens, c.index));
    var a :| Derives(g, first, c.tokens, c.index, a);
    assert R(first, c.tokens, c.index, a);
    o := a;
    if a.result.Matched? {
      assert CallsEither(g, c, first, second, Call(second, a.tokens, a.result.end));
      var b :| Derives(g, second, a.tokens, a.result.end, b);
      assert R(second, a.tokens, a.result.end, b);
      o := b.(result := Prepend(a.result.trees, b.result));
    }
  }

  lemma FinishesAny(g: Grammar, cs: seq<nat>, k: nat, c: Call)
    requires g.Valid() && c.goal == Any(cs, k) && c.goal.In(g)
    requires forall d :: Calls(g, c, d) ==> Finishes(g, d)
    ensures Finishes(g, c)
  {
    var R, toks, i := DerivesIn(g), c.tokens, c.index;
    var o := Outcome(toks, NoMatch);
    if k < |cs| {
      assert Calls(g, c, Call(One(cs[k]), toks, i));
      var a :| Derives(g, One(cs[k]), toks, i, a);
      assert R(One(cs[k]), toks, i, a);
      if a.result.NoMatch? {
        assert Calls(g, c, Call(Any(cs, k + 1), a.tokens, i));
        o :| Derives(g, Any(cs, k + 1), a.tokens, i, o);
      } else {
        o := if a.result.Matched? then Select(k, a) else a;
      }
    }
    DerivesClosed(g, c.goal, toks, i, o);
  }

  lemma FinishesMore(g: Grammar, m: nat, c: Call)
    requires g.Valid() && c.goal == More(m) && m < |g.nodes| && c.index < |c.tokens|
    requires forall d :: Calls(g, c, d) ==> Finishes(g, d)
    ensures Finishes(g, c)
  {
    var R, toks, i := DerivesIn(g), c.tokens, c.index;
    assert forall d :: CallsEither(g, c, One(m), More(m), d) ==> Calls(g, c, d);
    var o := FinishesEither(g, c, One(m), More(m));
    var a :| R(One(m), toks, i, a) &&
      if a.result.Matched? then
        exists b: Outcome :: R(More(m), a.tokens, a.result.end, b) &&
          o == b.(result := Prepend(a.result.trees, b.result))
      else o == a;
    if a.result.Matched? {
      var b: Outcome :| R(More(m), a.tokens, a.result.end, b) && o == b.(result := Prepend(a.result.trees, b.result));
      MoreMatches(g, m, a.tokens, a.result.end, b);
    } else if a.result.NoMatch? {
      o := a.(result := Matched(i, []));
    }
    DerivesClosed(g, c.goal, toks, i, o);
  }

  lemma FinishesNode(g: Grammar, m: nat, c: Call)
    requires g.Valid() && c.goal == One(m) && m < |g.nodes|
    requires forall d :: NodeCalls(g, g.nodes[m], c, d) ==> Finishes(g, d)
    ensures Finishes(g, c)
  {
    var R, toks, i, node := DerivesIn(g), c.tokens, c.index, g.nodes[m];
    var o;
    assert Below(node.Successors(), |g.nodes|);
    match node {
      case List(_, cs) =>
        assert NodeCalls(g, node, c, Call(All(cs, 0), toks, i));
        var a :| Derives(g, All(cs, 0), toks, i, a);
        assert R(All(cs, 0), toks, i, a);
        o := Bundle(node, a);
      case Optional(x) =>
        assert NodeCalls(g, node, c, Call(One(x), toks, i));
        var a :| Derives(g, One(x), toks, i, a);
        assert R(One(x), toks, i, a);
        o := Settle(i, a);
      case Choice(cs) =>
        assert NodeCalls(g, node, c, Call(Any(cs, 0), toks, i));
        o :| Derives(g, Any(cs, 0), toks, i, o);
      case Repeat(x) =>
        assert node.Successors()[0] == x;
        var a := FinishesEither(g, c, One(x), More(x));
        o := Bundle(node, a);
      case _ => o := LeafOutcome(g.keywords, node, toks, i);
    }
    NodeClosed(g, m, toks, i, o);
  }

  /** Matching does not finish exactly when it gets into evaluations that come to one another without
      end, whatever the graph. */
  lemma DivergesExactly(g: Grammar, c: Call)
    requires g.Valid() && c.goal.In(g)
    ensures !Finishes(g, c) <==> exists calls :: c in calls && Endless(g, calls)
  {
    if calls: iset<Call> :| c in calls && Endless(g, calls) {
      forall n: nat ensures Eval(g, n, c.goal, c.tokens, c.index).None? {
        EndlessLoops(g, calls, c, n);
      }
    }
    if !Finishes(g, c) {
      UnfinishedEndless(g);
      assert c in Unfinished(g);
    }
  }

  lemma UnfinishedEndless(g: Grammar)
    requires g.Valid()
    ensures Endless(g, Unfinished(g))
  {
    forall c | c in Unfinished(g) ensures CallsOn(g, c, Unfinished(g)) {
      forall d | Calls(g, c, d) ensures d.goal.In(g) {
        CallsInGraph(g, c, d);
      }
      if forall d :: Calls(g, c, d) ==> Finishes(g, d) {
        FinishesWithCalls(g, c);
      }
      var d :| Calls(g, c, d) && !Finishes(g, d);
      assert d in Unfinished(g);
    }
  }

  lemma CallsInGraph(g: Grammar, c: Call, d: Call)
    requires g.Valid() && c.goal.In(g) && Calls(g, c, d)
    ensures d.goal.In(g)
  {
    if c.goal.One? {
      var node := g.nodes[c.goal.m];
      assert Below(node.Successors(), |g.nodes|);
      assert node.Repeat? || node.Optional? ==> node.Successors()[0] < |g.nodes|;
    }
  }

  // On each of these token vectors the element matches nothing at token i, and leaves one of them behind:
  // the same, or one with quotes stripped.
  ghost predicate MatchesNothing(g: Grammar, c: nat, i: nat, vectors: iset<seq<string>>) {
    forall toks {:trigger MatchesNothingOn(g, c, i, vectors, toks)} ::
      toks in vectors ==> MatchesNothingOn(g, c, i, vectors, toks)
  }

  ghost predicate MatchesNothingOn(g: Grammar, c: nat, i: nat, vectors: iset<seq<string>>, toks: seq<string>) {
    i < |toks| && exists o :: Derives(g, One(c), toks, i, o) && EndsAt(o, i) && o.tokens in vectors
  }

  ghost predicate EndsAt(o: Outcome, i: nat) {
    o.result.Matched? && o.result.end == i
  }

  /** A repeat whose element, after its first match, goes on matching nothing where a token is left has
      no outcome. */
  lemma EmptyElementDiverges(g: Grammar, m: nat, vectors: iset<seq<string>>, toks: seq<string>, j: nat,
                             first: Outcome, i: nat)
    requires g.Valid() && m < |g.nodes| && g.nodes[m].Repeat? && MatchesNothing(g, g.nodes[m].element, i, vectors)
    requires Derives(g, One(g.nodes[m].element), toks, j, first) && EndsAt(first, i) && first.tokens in vectors
    ensures !exists o :: Derives(g, One(m), toks, j, o)
  {
    var c := g.nodes[m].element;
    forall n: nat ensures Eval(g, n, One(m), toks, j).None? {
      assert Below(g.nodes[m].Successors(), |g.nodes|) && g.nodes[m].Successors()[0] == c;
      if n > 0 && Eval(g, n - 1, One(c), toks, j).Some? {
        Deterministic(g, One(c), toks, j, first, Eval(g, n - 1, One(c), toks, j).value);
        EmptyElementLoops(g, c, i, vectors, first.tokens, n - 1);
      }
    }
  }

  lemma {:induction false} EmptyElementLoops(g: Grammar, c: nat, i: nat, vectors: iset<seq<string>>, toks: seq<string>,
                                             n: nat)
    requires MatchesNothing(g, c, i, vectors) && toks in vectors && g.Valid() && c < |g.nodes|
    ensures Eval(g, n, More(c), toks, i).None?
    decreases n
  {
    assert MatchesNothingOn(g, c, i, vectors, toks);
    if n > 0 && Eval(g, n - 1, One(c), toks, i).Some? {
      var o :| Derives(g, One(c), toks, i, o) && EndsAt(o, i) && o.tokens in vectors;
      Deterministic(g, One(c), toks, i, o, Eval(g, n - 1, One(c), toks, i).value);
      EmptyElementLoops(g, c, i, vectors, o.tokens, n - 1);
    }
  }

  /** In particular one whose element matches nothing and leaves the tokens alone. */
  lemma EmptyMatchDiverges(g: Grammar, m: nat, toks: seq<string>, i: nat, o: Outcome)
    requires g.Valid() && m < |g.nodes| && g.nodes[m].Repeat? && i < |toks|
    requires Derives(g, One(g.nodes[m].element), toks, i, o) && EndsAt(o, i) && o.tokens == toks
    ensures !exists o' :: Derives(g, One(m), toks, i, o')
  {
    assert MatchesNothingOn(g, g.nodes[m].element, i, iset{toks}, toks);
    EmptyElementDiverges(g, m, iset{toks}, toks, i, o, i);
  }

  // The matcher asks this one first, at the same token.
  predicate AsksFirst(node: Matcher, x: nat) {
    match node
    case List(_, cs) => cs != [] && cs[0] == x
    case Optional(c) => c == x
    case Choice(cs) => cs != [] && cs[0] == x
    case Repeat(c) => c == x
    case _ => false
  }

  // A cycle of matchers, each asking the next one first.
  predicate LeftRecursive(g: Grammar, cycle: seq<nat>)
    requires g.Valid()
  {
    && cycle != [] && Below(cycle, |g.nodes|)
    && forall j :: 0 <= j < |cycle| ==> AsksFirst(g.nodes[cycle[j]], cycle[if j + 1 < |cycle| then j + 1 else 0])
  }

  // The evaluations of such a cycle.
  ghost function Round(g: Grammar, cycle: seq<nat>, toks: seq<string>, i: nat): iset<Call>
    requires g.Valid() && Below(cycle, |g.nodes|)
  {
    iset c: Call | c.tokens == toks && c.index == i &&
                   exists m :: m in cycle && (c.goal == One(m) || c.goal == Inner(g.nodes[m], m)) :: c
  }

  // What a list or choice evaluates on its own behalf.
  function Inner(node: Matcher, m: nat): Goal {
    match node
    case List(_, cs) => All(cs, 0)
    case Choice(cs) => Any(cs, 0)
    case _ => One(m)
  }

  /** Matchers that ask each other first around a cycle, of whatever length, never finish: left recursion
      through any lists, choices, optionals and repeats. */
  lemma LeftRecursionDiverges(g: Grammar, cycle: seq<nat>, m: nat, toks: seq<string>, i: nat)
    requires g.Valid() && LeftRecursive(g, cycle) && m in cycle
    ensures !exists o :: Derives(g, One(m), toks, i, o)
  {
    var calls, c := Round(g, cycle, toks, i), Call(One(m), toks, i);
    forall d | d in calls ensures CallsOn(g, d, calls) {
      RoundGoesOn(g, cycle, toks, i, d);
    }
    assert c in calls && Endless(g, calls);
    DivergesExactly(g, c);
    assert !Finishes(g, c);
  }

  lemma RoundGoesOn(g: Grammar, cycle: seq<nat>, toks: seq<string>, i: nat, c: Call)
    requires g.Valid() && LeftRecursive(g, cycle) && c in Round(g, cycle, toks, i)
    ensures CallsOn(g, c, Round(g, cycle, toks, i))
  {
    var calls := Round(g, cycle, toks, i);
    var m :| m in cycle && (c.goal == One(m) || c.goal == Inner(g.nodes[m], m));
    var j :| 0 <= j < |cycle| && cycle[j] == m;
    var x := cycle[if j + 1 < |cycle| then j + 1 else 0];
    assert AsksFirst(g.nodes[m], x) && x in cycle;
    assert Below(g.nodes[m].Successors(), |g.nodes|);
    var d := if c.goal == One(m) && (g.nodes[m].List? || g.nodes[m].Choice?) then Call(Inner(g.nodes[m], m), toks, i)
             else Call(One(x), toks, i);
    assert d in calls;
    assert Calls(g, c, d);
  }
}
