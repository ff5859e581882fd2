/** Parsing expression semantics of a matcher graph: a step-indexed big-step evaluator, the
    relation it defines, and what that relation guarantees. The token vector is part of the state
    because an identifier matcher strips the quotes of the token it accepts. */
module Peg {
  import opened Characters
  import opened Matchers

  datatype Result = NoMatch | Matched(end: nat, trees: seq<ParseTree>) | Raised
  datatype Outcome = Outcome(tokens: seq<string>, result: Result)

  // One: a matcher. All: a sequence from its k-th child on. Any: ordered choice from the k-th
  // alternative on. More: further repetitions after a first success.
  datatype Goal = One(m: nat) | All(children: seq<nat>, k: nat) | Any(children: seq<nat>, k: nat) | More(m: nat) {
    predicate In(g: Grammar) {
      match this
      case One(m) => m < |g.nodes|
      case More(m) => m < |g.nodes|
      case All(cs, k) => k <= |cs| && Below(cs, |g.nodes|)
      case Any(cs, k) => k <= |cs| && Below(cs, |g.nodes|)
    }
  }

  function LeafOutcome(kw: KeywordSets, m: Matcher, toks: seq<string>, i: nat): Outcome
    requires m.IsLeaf()
  {
    if i >= |toks| then
      // The reserved-identifier matcher indexes the token vector unchecked; the vector throws.
      Outcome(toks, if m.ReservedIdentifier? then Raised else NoMatch)
    else
      match LeafVerdict(kw, m, toks[i])
      case Accept => Outcome(toks[i := LeafRewrite(m, toks[i])], Matched(i + 1, [LeafTree(m, toks[i])]))
      case Reject => Outcome(toks, NoMatch)
      case Throws => Outcome(toks, Raised)
  }

  function Prepend(ts: seq<ParseTree>, r: Result): Result {
    if r.Matched? then Matched(r.end, ts + r.trees) else r
  }

  // The tree a List or Repeat node makes of its children's trees.
  function Bundle(m: Matcher, o: Outcome): Outcome {
    match o.result
    case Matched(e, ts) =>
      o.(result := Matched(e, [if m.List? then ListResult(m.name, ts) else RepeatResult(ts)]))
    case _ => o
  }

  // An Optional node commits to its child's match and turns a failure into an empty success.
  function Settle(i: nat, o: Outcome): Outcome {
    match o.result
    case Matched(e, ts) =>
      o.(result := Matched(e, [OptionalResult(if |ts| == 1 then Some(ts[0]) else None)]))
    case NoMatch => o.(result := Matched(i, [OptionalResult(None)]))
    case Raised => o
  }

  function Select(k: nat, o: Outcome): Outcome
    requires o.result.Matched?
  {
    if |o.result.trees| == 1 then o.(result := o.result.(trees := [ChoiceResult(o.result.trees[0], k)]))
    else o
  }

  /** Evaluation of a goal at token i with n steps of fuel; None when the fuel runs out. */
  ghost function Eval(g: Grammar, n: nat, goal: Goal, toks: seq<string>, i: nat): Option<Outcome>
    requires g.Valid() && goal.In(g)
    decreases n, 1
  {
    if n == 0 then None else
    match goal
    case One(m) => EvalNode(g, n, m, toks, i)
    case All(cs, k) =>
      if k == |cs| then Some(Outcome(toks, Matched(i, []))) else
      var o :- Eval(g, n - 1, One(cs[k]), toks, i);
      if !o.result.Matched? then Some(o) else
      var p :- Eval(g, n - 1, All(cs, k + 1), o.tokens, o.result.end);
      Some(p.(result := Prepend(o.result.trees, p.result)))
    case Any(cs, k) =>
      if k == |cs| then Some(Outcome(toks, NoMatch)) else
      var o :- Eval(g, n - 1, One(cs[k]), toks, i);
      if o.result.Matched? then Some(Select(k, o))
      else if o.result.Raised? then Some(o)
      else Eval(g, n - 1, Any(cs, k + 1), o.tokens, i)
    case More(m) =>
      if i >= |toks| then Some(Outcome(toks, Matched(i, []))) else
      var o :- Eval(g, n - 1, One(m), toks, i);
      if o.result.NoMatch? then Some(o.(result := Matched(i, [])))
      else if o.result.Raised? then Some(o) else
      var p :- Eval(g, n - 1, More(m), o.tokens, o.result.end);
      Some(p.(result := Prepend(o.result.trees, p.result)))
  }

  ghost function EvalNode(g: Grammar, n: nat, m: nat, toks: seq<string>, i: nat): Option<Outcome>
    requires n > 0 && g.Valid() && m < |g.nodes|
    decreases n, 0
  {
    var node := g.nodes[m];
    assert Below(node.Successors(), |g.nodes|);
    match node
    case List(_, cs) =>
      var o :- Eval(g, n - 1, All(cs, 0), toks, i);
      Some(Bundle(node, o))
    case Optional(c) =>
      assert node.Successors()[0] == c;
      var o :- Eval(g, n - 1, One(c), toks, i);
      Some(Settle(i, o))
    case Choice(cs) => Eval(g, n - 1, Any(cs, 0), toks, i)
    case Repeat(c) =>
      assert node.Successors()[0] == c;
      var o :- Eval(g, n - 1, One(c), toks, i);
      if !o.result.Matched? then Some(o) else
      var p :- Eval(g, n - 1, More(c), o.tokens, o.result.end);
      Some(Bundle(node, p.(result := Prepend(o.result.trees, p.result))))
    case _ => Some(LeafOutcome(g.keywords, node, toks, i))
  }

  lemma {:induction false} FuelMonotone(g: Grammar, n: nat, n': nat, goal: Goal, toks: seq<string>, i: nat)
    requires g.Valid() && goal.In(g) && n <= n'
    requires Eval(g, n, goal, toks, i).Some?
    ensures Eval(g, n', goal, toks, i) == Eval(g, n, goal, toks, i)
    decreases n, 0
  {
    match goal
    case One(m) =>
      var node := g.nodes[m];
      assert Below(node.Successors(), |g.nodes|);
      match node {
        case List(_, cs) => FuelMonotone(g, n - 1, n' - 1, All(cs, 0), toks, i);
        case Optional(c) =>
          assert node.Successors()[0] == c;
          FuelMonotone(g, n - 1, n' - 1, One(c), toks, i);
        case Choice(cs) => FuelMonotone(g, n - 1, n' - 1, Any(cs, 0), toks, i);
        case Repeat(c) =>
          assert node.Successors()[0] == c;
          FuelMonotoneThen(g, n - 1, n' - 1, One(c), More(c), toks, i);
        case _ =>
      }
    case All(cs, k) =>
      if k < |cs| {
        FuelMonotoneThen(g, n - 1, n' - 1, One(cs[k]), All(cs, k + 1), toks, i);
      }
    case Any(cs, k) =>
      if k < |cs| {
        FuelMonotone(g, n - 1, n' - 1, One(cs[k]), toks, i);
        var o := Eval(g, n - 1, One(cs[k]), toks, i).value;
        if o.result.NoMatch? {
          FuelMonotone(g, n - 1, n' - 1, Any(cs, k + 1), o.tokens, i);
        }
      }
    case More(m) =>
      if i < |toks| {
        FuelMonotoneThen(g, n - 1, n' - 1, One(m), More(m), toks, i);
      }
  }

  // A goal followed, when it matches, by a second one from where the first ended.
  lemma {:induction false} FuelMonotoneThen(g: Grammar, n: nat, n': nat, first: Goal, second: Goal,
                                            toks: seq<string>, i: nat)
    requires g.Valid() && first.In(g) && second.In(g) && n <= n'
    requires Eval(g, n, first, toks, i).Some?
    requires var o := Eval(g, n, first, toks, i).value;
             o.result.Matched? ==> Eval(g, n, second, o.tokens, o.result.end).Some?
    ensures Eval(g, n', first, toks, i) == Eval(g, n, first, toks, i)
    ensures var o := Eval(g, n, first, toks, i).value;
            o.result.Matched? ==>
              Eval(g, n', second, o.tokens, o.result.end) == Eval(g, n, second, o.tokens, o.result.end)
    decreases n, 1
  {
    FuelMonotone(g, n, n', first, toks, i);
    var o := Eval(g, n, first, toks, i).value;
    if o.result.Matched? {
      FuelMonotone(g, n, n', second, o.tokens, o.result.end);
    }
  }

  // ----- The relation the evaluator defines -----

  ghost predicate Derives(g: Grammar, goal: Goal, toks: seq<string>, i: nat, o: Outcome) {
    g.Valid() && goal.In(g) && exists n: nat :: Eval(g, n, goal, toks, i) == Some(o)
  }

  lemma Deterministic(g: Grammar, goal: Goal, toks: seq<string>, i: nat, o: Outcome, o': Outcome)
    requires Derives(g, goal, toks, i, o) && Derives(g, goal, toks, i, o')
    ensures o == o'
  {
    var n: nat :| Eval(g, n, goal, toks, i) == Some(o);
    var n': nat :| Eval(g, n', goal, toks, i) == Some(o');
    FuelMonotone(g, n, n + n', goal, toks, i);
    FuelMonotone(g, n', n + n', goal, toks, i);
  }

  type Relation = (Goal, seq<string>, nat, Outcome) -> bool

  // The inference rules of parsing expressions: what may be concluded about a goal when R says
  // what holds of its parts.
  ghost predicate Rule(g: Grammar, R: Relation, goal: Goal, toks: seq<string>, i: nat, o: Outcome)
    requires g.Valid() && goal.In(g)
  {
    match goal
    case One(m) => NodeRule(g, R, g.nodes[m], toks, i, o)
    case All(cs, k) =>
      if k == |cs| then o == Outcome(toks, Matched(i, []))
      else Followed(R, One(cs[k]), All(cs, k + 1), toks, i, o)
    case Any(cs, k) =>
      if k == |cs| then o == Outcome(toks, NoMatch) else
      exists a: Outcome :: R(One(cs[k]), toks, i, a) &&
        if a.result.Matched? then o == Select(k, a)
        else if a.result.Raised? then o == a
        else R(Any(cs, k + 1), a.tokens, i, o)
    case More(m) =>
      if i >= |toks| then o == Outcome(toks, Matched(i, [])) else
      || (Followed(R, One(m), More(m), toks, i, o) && !o.result.NoMatch?)
      || exists a: Outcome :: R(One(m), toks, i, a) && a.result.NoMatch? && o == a.(result := Matched(i, []))
  }

  ghost predicate NodeRule(g: Grammar, R: Relation, node: Matcher, toks: seq<string>, i: nat, o: Outcome) {
    match node
    case List(_, cs) => exists a: Outcome :: R(All(cs, 0), toks, i, a) && o == Bundle(node, a)
    case Optional(c) => exists a: Outcome :: R(One(c), toks, i, a) && o == Settle(i, a)
    case Choice(cs) => R(Any(cs, 0), toks, i, o)
    case Repeat(c) => exists a: Outcome :: Followed(R, One(c), More(c), toks, i, a) && o == Bundle(node, a)
    case _ => o == LeafOutcome(g.keywords, node, toks, i)
  }

  // first, then second from where first ended; a failure or exception of first is the outcome.
  ghost predicate Followed(R: Relation, first: Goal, second: Goal, toks: seq<string>, i: nat, o: Outcome) {
    exists a: Outcome :: R(first, toks, i, a) &&
      if a.result.Matched? then
        exists b: Outcome :: R(second, a.tokens, a.result.end, b) &&
          o == b.(result := Prepend(a.result.trees, b.result))
      else o == a
  }

  ghost function DerivesIn(g: Grammar): Relation {
    (goal: Goal, toks: seq<string>, i: nat, o: Outcome) => Derives(g, goal, toks, i, o)
  }

  ghost predicate Closed(g: Grammar, R: Relation)
    requires g.Valid()
  {
    forall goal: Goal, toks: seq<string>, i: nat, o: Outcome ::
      goal.In(g) && Rule(g, R, goal, toks, i, o) ==> R(goal, toks, i, o)
  }

  lemma StepUp(g: Grammar, n: nat, goal: Goal, toks: seq<string>, i: nat, o: Outcome)
    requires g.Valid() && goal.In(g) && Eval(g, n, goal, toks, i) == Some(o)
    ensures Derives(g, goal, toks, i, o)
  {
  }

  // Two goals in a row share one amount of fuel.
  lemma CommonFuel(g: Grammar, first: Goal, toks: seq<string>, i: nat, a: Outcome,
                   second: Goal, toks': seq<string>, i': nat, b: Outcome) returns (n: nat)
    requires Derives(g, first, toks, i, a) && Derives(g, second, toks', i', b)
    ensures Eval(g, n, first, toks, i) == Some(a) && Eval(g, n, second, toks', i') == Some(b)
  {
    var n1: nat :| Eval(g, n1, first, toks, i) == Some(a);
    var n2: nat :| Eval(g, n2, second, toks', i') == Some(b);
    n := n1 + n2;
    FuelMonotone(g, n1, n, first, toks, i);
    FuelMonotone(g, n2, n, second, toks', i');
  }

  /** The derivations are closed under the parsing-expression rules ... */
  lemma DerivesClosed(g: Grammar, goal: Goal, toks: seq<string>, i: nat, o: Outcome)
    requires g.Valid() && goal.In(g)
    requires Rule(g, DerivesIn(g), goal, toks, i, o)
    ensures Derives(g, goal, toks, i, o)
  {
    hide Eval, EvalNode, Followed, NodeRule;
    match goal
    case One(m) => NodeClosed(g, m, toks, i, o);
    case All(cs, k) => SequenceClosed(g, cs, k, toks, i, o);
    case Any(cs, k) => ChoiceClosed(g, cs, k, toks, i, o);
    case More(m) => MoreClosed(g, m, toks, i, o);
  }

  lemma SequenceClosed(g: Grammar, cs: seq<nat>, k: nat, toks: seq<string>, i: nat, o: Outcome)
    requires g.Valid() && All(cs, k).In(g)
    requires Rule(g, DerivesIn(g), All(cs, k), toks, i, o)
    ensures Derives(g, All(cs, k), toks, i, o)
  {
    if k == |cs| {
      StepUp(g, 1, All(cs, k), toks, i, o);
    } else {
      var n := FollowedFuel(g, One(cs[k]), All(cs, k + 1), toks, i, o);
      StepUp(g, n + 1, All(cs, k), toks, i, o);
    }
  }

  lemma ChoiceClosed(g: Grammar, cs: seq<nat>, k: nat, toks: seq<string>, i: nat, o: Outcome)
    requires g.Valid() && Any(cs, k).In(g)
    requires Rule(g, DerivesIn(g), Any(cs, k), toks, i, o)
    ensures Derives(g, Any(cs, k), toks, i, o)
  {
    if k == |cs| {
      StepUp(g, 1, Any(cs, k), toks, i, o);
    } else {
      var R := DerivesIn(g);
      var a: Outcome :| R(One(cs[k]), toks, i, a) &&
        if a.result.Matched? then o == Select(k, a)
        else if a.result.Raised? then o == a
        else R(Any(cs, k + 1), a.tokens, i, o);
      var n;
      if a.result.NoMatch? {
        n := CommonFuel(g, One(cs[k]), toks, i, a, Any(cs, k + 1), a.tokens, i, o);
      } else {
        n :| Eval(g, n, One(cs[k]), toks, i) == Some(a);
      }
      StepUp(g, n + 1, Any(cs, k), toks, i, o);
    }
  }

  lemma MoreClosed(g: Grammar, m: nat, toks: seq<string>, i: nat, o: Outcome)
    requires g.Valid() && More(m).In(g)
    requires Rule(g, DerivesIn(g), More(m), toks, i, o)
    ensures Derives(g, More(m), toks, i, o)
  {
    var R := DerivesIn(g);
    if i >= |toks| {
      StepUp(g, 1, More(m), toks, i, o);
    } else if Followed(R, One(m), More(m), toks, i, o) && !o.result.NoMatch? {
      var n := FollowedFuel(g, One(m), More(m), toks, i, o);
      StepUp(g, n + 1, More(m), toks, i, o);
    } else {
      var a: Outcome :| R(One(m), toks, i, a) && a.result.NoMatch? && o == a.(result := Matched(i, []));
      var n: nat :| Eval(g, n, One(m), toks, i) == Some(a);
      StepUp(g, n + 1, More(m), toks, i, o);
    }
  }

  lemma FollowedFuel(g: Grammar, first: Goal, second: Goal, toks: seq<string>, i: nat, o: Outcome) returns (n: nat)
    requires g.Valid() && first.In(g) && second.In(g)
    requires Followed(DerivesIn(g), first, second, toks, i, o)
    ensures Eval(g, n, first, toks, i).Some?
    ensures var a := Eval(g, n, first, toks, i).value;
            if a.result.Matched? then
              Eval(g, n, second, a.tokens, a.result.end).Some? &&
              var b := Eval(g, n, second, a.tokens, a.result.end).value;
              o == b.(result := Prepend(a.result.trees, b.result))
            else o == a
  {
    var R := DerivesIn(g);
    var a: Outcome :| R(first, toks, i, a) &&
      if a.result.Matched? then
        exists b: Outcome :: R(second, a.tokens, a.result.end, b) &&
          o == b.(result := Prepend(a.result.trees, b.result))
      else o == a;
    if a.result.Matched? {
      var b: Outcome :| R(second, a.tokens, a.result.end, b) &&
          o == b.(result := Prepend(a.result.trees, b.result));
      n := CommonFuel(g, first, toks, i, a, second, a.tokens, a.result.end, b);
    } else {
      n := CommonFuel(g, first, toks, i, a, first, toks, i, a);
    }
  }

  lemma NodeClosed(g: Grammar, m: nat, toks: seq<string>, i: nat, o: Outcome)
    requires g.Valid() && One(m).In(g)
    requires NodeRule(g, DerivesIn(g), g.nodes[m], toks, i, o)
    ensures Derives(g, One(m), toks, i, o)
  {
    var R := DerivesIn(g);
    var node := g.nodes[m];
    assert Below(node.Successors(), |g.nodes|);
    var n: nat := 0;
    match node {
      case List(_, cs) =>
        var a: Outcome :| R(All(cs, 0), toks, i, a) && o == Bundle(node, a);
        n :| Eval(g, n, All(cs, 0), toks, i) == Some(a);
      case Optional(c) =>
        var a: Outcome :| R(One(c), toks, i, a) && o == Settle(i, a);
        n :| Eval(g, n, One(c), toks, i) == Some(a);
      case Choice(cs) =>
        n :| Eval(g, n, Any(cs, 0), toks, i) == Some(o);
      case Repeat(c) =>
        assert node.Successors()[0] == c;
        var a: Outcome :| Followed(R, One(c), More(c), toks, i, a) && o == Bundle(node, a);
        n := FollowedFuel(g, One(c), More(c), toks, i, a);
      case _ =>
    }
    StepUp(g, n + 1, One(m), toks, i, o);
  }

  /** ... and contained in every relation that is closed under them: they are the least such
      relation. This is also the induction principle for properties of all derivations. */
  lemma DerivesLeast(g: Grammar, R: Relation, goal: Goal, toks: seq<string>, i: nat, o: Outcome)
    requires g.Valid() && Closed(g, R) && Derives(g, goal, toks, i, o)
    ensures R(goal, toks, i, o)
  {
    var n: nat :| Eval(g, n, goal, toks, i) == Some(o);
    LeastUpTo(g, R, n, goal, toks, i, o);
  }

  lemma {:induction false} LeastUpTo(g: Grammar, R: Relation, n: nat, goal: Goal, toks: seq<string>, i: nat, o: Outcome)
    requires g.Valid() && goal.In(g) && Closed(g, R)
    requires Eval(g, n, goal, toks, i) == Some(o)
    ensures R(goal, toks, i, o)
    decreases n, 1
  {
    hide EvalNode, NodeRule;
    match goal
    case One(m) =>
      LeastNode(g, R, n, m, toks, i, o);
    case All(cs, k) =>
      if k < |cs| {
        var a := Eval(g, n - 1, One(cs[k]), toks, i).value;
        LeastUpTo(g, R, n - 1, One(cs[k]), toks, i, a);
        if a.result.Matched? {
          LeastUpTo(g, R, n - 1, All(cs, k + 1), a.tokens, a.result.end,
                       Eval(g, n - 1, All(cs, k + 1), a.tokens, a.result.end).value);
        }
        assert Followed(R, One(cs[k]), All(cs, k + 1), toks, i, o);
      }
      assert Rule(g, R, goal, toks, i, o);
    case Any(cs, k) =>
      if k < |cs| {
        var a := Eval(g, n - 1, One(cs[k]), toks, i).value;
        LeastUpTo(g, R, n - 1, One(cs[k]), toks, i, a);
        if a.result.NoMatch? {
          LeastUpTo(g, R, n - 1, Any(cs, k + 1), a.tokens, i, o);
        }
      }
      assert Rule(g, R, goal, toks, i, o);
    case More(m) =>
      if i < |toks| {
        var a := Eval(g, n - 1, One(m), toks, i).value;
        LeastUpTo(g, R, n - 1, One(m), toks, i, a);
        if a.result.Matched? {
          LeastUpTo(g, R, n - 1, More(m), a.tokens, a.result.end,
                       Eval(g, n - 1, More(m), a.tokens, a.result.end).value);
          MoreNeverFails(g, n - 1, m, a.tokens, a.result.end);
          assert Followed(R, One(m), More(m), toks, i, o);
        } else if a.result.Raised? {
          assert Followed(R, One(m), More(m), toks, i, o);
        }
      }
      assert Rule(g, R, goal, toks, i, o);
  }

  lemma {:induction false} LeastNode(g: Grammar, R: Relation, n: nat, m: nat, toks: seq<string>, i: nat, o: Outcome)
    requires g.Valid() && One(m).In(g) && Closed(g, R) && n > 0
    requires EvalNode(g, n, m, toks, i) == Some(o)
    ensures R(One(m), toks, i, o)
    decreases n, 0
  {
    var node := g.nodes[m];
    assert Below(node.Successors(), |g.nodes|);
    match node {
      case List(_, cs) =>
        LeastUpTo(g, R, n - 1, All(cs, 0), toks, i, Eval(g, n - 1, All(cs, 0), toks, i).value);
      case Optional(c) =>
        assert node.Successors()[0] == c;
        LeastUpTo(g, R, n - 1, One(c), toks, i, Eval(g, n - 1, One(c), toks, i).value);
      case Choice(cs) => LeastUpTo(g, R, n - 1, Any(cs, 0), toks, i, o);
      case Repeat(c) =>
        assert node.Successors()[0] == c;
        var a := Eval(g, n - 1, One(c), toks, i).value;
        LeastUpTo(g, R, n - 1, One(c), toks, i, a);
        if a.result.Matched? {
          var b := Eval(g, n - 1, More(c), a.tokens, a.result.end).value;
          LeastUpTo(g, R, n - 1, More(c), a.tokens, a.result.end, b);
          assert Followed(R, One(c), More(c), toks, i, b.(result := Prepend(a.result.trees, b.result)));
        } else {
          assert Followed(R, One(c), More(c), toks, i, a);
        }
      case _ =>
    }
    assert Rule(g, R, One(m), toks, i, o);
  }

  lemma {:induction false} MoreNeverFails(g: Grammar, n: nat, m: nat, toks: seq<string>, i: nat)
    requires g.Valid() && More(m).In(g) && Eval(g, n, More(m), toks, i).Some?
    ensures !Eval(g, n, More(m), toks, i).value.result.NoMatch?
    decreases n
  {
    if i < |toks| {
      var a := Eval(g, n - 1, One(m), toks, i).value;
      if a.result.Matched? {
        MoreNeverFails(g, n - 1, m, a.tokens, a.result.end);
      }
    }
  }
}
