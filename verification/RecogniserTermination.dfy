/** The recogniser's answers do not depend on the steps allowed, and on a ranked grammar it finishes on
    any tokens, its end included. */
module RecogniserTermination {
  import opened Characters
  import opened Matchers
  import opened Peg
  import opened PegTermination
  import opened Recogniser

  // ----- Steps -----

  lemma {:induction false} RecogniseMonotone(g: Grammar, n: nat, n': nat, goal: Goal, toks: seq<string>, s: State,
                                             inner: State)
    requires g.Valid() && goal.In(g) && n <= n' && Recognise(g, n, goal, toks, s, inner).Some?
    ensures Recognise(g, n', goal, toks, s, inner) == Recognise(g, n, goal, toks, s, inner)
    decreases n, 1
  {
    match goal
    case One(m) => NodeMonotone(g, n, n', m, toks, s);
    case All(cs, k) =>
      if k < |cs| && s.index < |toks| {
        RecogniseMonotone(g, n - 1, n' - 1, One(cs[k]), toks, s, s);
        var r := Recognise(g, n - 1, One(cs[k]), toks, s, s).value;
        if r.answer.Success? {
          RecogniseMonotone(g, n - 1, n' - 1, All(cs, k + 1), toks, r.state, r.state);
        }
      }
    case Any(cs, k) =>
      if k < |cs| {
        RecogniseMonotone(g, n - 1, n' - 1, One(cs[k]), toks, State(s.index, {}), s);
        if Recognise(g, n - 1, One(cs[k]), toks, State(s.index, {}), s).value.answer.Fail? {
          RecogniseMonotone(g, n - 1, n' - 1, Any(cs, k + 1), toks, s, s);
        }
      }
    case More(m) =>
      if inner.index < |toks| {
        RecogniseMonotone(g, n - 1, n' - 1, One(m), toks, inner, inner);
        var r := Recognise(g, n - 1, One(m), toks, inner, inner).value;
        if r.answer.Success? {
          RecogniseMonotone(g, n - 1, n' - 1, More(m), toks, s.(index := inner.index), r.state);
        }
      }
  }

  lemma {:induction false} NodeMonotone(g: Grammar, n: nat, n': nat, m: nat, toks: seq<string>, s: State)
    requires g.Valid() && m < |g.nodes| && 0 < n <= n' && RecogniseNode(g, n, m, toks, s).Some?
    ensures RecogniseNode(g, n', m, toks, s) == RecogniseNode(g, n, m, toks, s)
    decreases n, 0
  {
    var node, own := g.nodes[m], State(s.index, {});
    assert Below(node.Successors(), |g.nodes|);
    match node
    case List(_, cs) => RecogniseMonotone(g, n - 1, n' - 1, All(cs, 0), toks, own, own);
    case Optional(c) =>
      assert node.Successors()[0] == c;
      RecogniseMonotone(g, n - 1, n' - 1, One(c), toks, own, own);
    case Choice(cs) => RecogniseMonotone(g, n - 1, n' - 1, Any(cs, 0), toks, s, s);
    case Repeat(c) =>
      assert node.Successors()[0] == c;
      RecogniseMonotone(g, n - 1, n' - 1, One(c), toks, own, own);
      var r := Recognise(g, n - 1, One(c), toks, own, own).value;
      if r.answer.Success? {
        RecogniseMonotone(g, n - 1, n' - 1, More(c), toks, s, r.state);
      }
    case _ =>
  }

  /** The recogniser has at most one answer. */
  lemma RecognisesOnce(g: Grammar, m: nat, toks: seq<string>, s: State, r: Recognition, r': Recognition)
    requires Recognises(g, m, toks, s, r) && Recognises(g, m, toks, s, r')
    ensures r == r'
  {
    var n: nat :| Recognise(g, n, One(m), toks, s, s) == Some(r);
    var n': nat :| Recognise(g, n', One(m), toks, s, s) == Some(r');
    RecogniseMonotone(g, n, n + n', One(m), toks, s, s);
    RecogniseMonotone(g, n', n + n', One(m), toks, s, s);
  }

  // ----- What suggestions take for optional can match nothing -----

  lemma {:induction false} OptionalIsNullable(g: Grammar, r: Ranking, m: nat, added: set<nat>)
    requires r.Ranks(g) && m < |g.nodes| && !Suggest(g, m, added).mandatory
    ensures r.nullable[m]
    decreases |Unseen(g, added)|, 0
  {
    var added' := added + {m};
    assert r.RanksNode(g, m);
    assert Unseen(g, added') == Unseen(g, added) - {m} && m in Unseen(g, added);
    assert Below(g.nodes[m].Successors(), |g.nodes|);
    if g.nodes[m].List? {
      var cs := g.nodes[m].children;
      AllOptionalIsNullable(g, r, cs, 0, added');
      assert cs[0..] == cs;
    }
  }

  lemma {:induction false} AllOptionalIsNullable(g: Grammar, r: Ranking, cs: seq<nat>, k: nat, added: set<nat>)
    requires r.Ranks(g) && k <= |cs| && Below(cs, |g.nodes|) && !SuggestAll(g, cs, k, added).mandatory
    ensures r.AllNullable(cs[k..])
    decreases |Unseen(g, added)|, |cs| - k + 1
  {
    if k < |cs| {
      OptionalIsNullable(g, r, cs[k], added);
      var s := Suggest(g, cs[k], added);
      UnseenShrinks(g, added, s.added);
      AllOptionalIsNullable(g, r, cs, k + 1, s.added);
      assert cs[k..] == [cs[k]] + cs[k + 1..];
    }
  }

  // ----- A success consumes, or the goal can match nothing -----

  ghost function StartOf(goal: Goal, s: State, inner: State): nat {
    if goal.More? then inner.index else s.index
  }

  // A success ends between its start and the end of the tokens.
  ghost predicate Advances(r: Ranking, goal: Goal, toks: seq<string>, i: nat, o: Option<Recognition>) {
    o.Some? && o.value.answer.Success? ==>
      i <= o.value.state.index <= |toks| && (o.value.state.index == i ==> MayMatchNothing(r, goal))
  }

  lemma {:induction false} SuccessAdvances(g: Grammar, r: Ranking, n: nat, goal: Goal, toks: seq<string>, s: State,
                                           inner: State)
    requires r.Ranks(g) && goal.In(g) && StartOf(goal, s, inner) <= |toks|
    ensures Advances(r, goal, toks, StartOf(goal, s, inner), Recognise(g, n, goal, toks, s, inner))
    decreases n, 1
  {
    if n > 0 {
      match goal
      case One(m) => NodeAdvances(g, r, n, m, toks, s);
      case All(cs, k) => SequenceAdvances(g, r, n, cs, k, toks, s, inner);
      case Any(cs, k) =>
        if k < |cs| {
          SuccessAdvances(g, r, n - 1, One(cs[k]), toks, State(s.index, {}), s);
          SuccessAdvances(g, r, n - 1, Any(cs, k + 1), toks, s, s);
        }
      case More(m) =>
        if inner.index < |toks| {
          SuccessAdvances(g, r, n - 1, One(m), toks, inner, inner);
          var o := Recognise(g, n - 1, One(m), toks, inner, inner);
          if o.Some? && o.value.answer.Success? {
            SuccessAdvances(g, r, n - 1, More(m), toks, s.(index := inner.index), o.value.state);
          }
        }
    }
  }

  lemma {:induction false} SequenceAdvances(g: Grammar, r: Ranking, n: nat, cs: seq<nat>, k: nat, toks: seq<string>,
                                            s: State, inner: State)
    requires n > 0 && r.Ranks(g) && All(cs, k).In(g) && s.index <= |toks|
    ensures Advances(r, All(cs, k), toks, s.index, Recognise(g, n, All(cs, k), toks, s, inner))
    decreases n, 0
  {
    if k < |cs| {
      if s.index == |toks| {
        if !SuggestAll(g, cs, k, s.added).mandatory {
          AllOptionalIsNullable(g, r, cs, k, s.added);
        }
      } else {
        SuccessAdvances(g, r, n - 1, One(cs[k]), toks, s, s);
        var o := Recognise(g, n - 1, One(cs[k]), toks, s, s);
        if o.Some? && o.value.answer.Success? {
          SuccessAdvances(g, r, n - 1, All(cs, k + 1), toks, o.value.state, o.value.state);
        }
        assert cs[k..] == [cs[k]] + cs[k + 1..];
      }
    }
  }

  lemma {:induction false} NodeAdvances(g: Grammar, r: Ranking, n: nat, m: nat, toks: seq<string>, s: State)
    requires n > 0 && r.Ranks(g) && m < |g.nodes| && s.index <= |toks|
    ensures Advances(r, One(m), toks, s.index, RecogniseNode(g, n, m, toks, s))
    decreases n, 0
  {
    var node, own := g.nodes[m], State(s.index, {});
    assert r.RanksNode(g, m);
    assert Below(node.Successors(), |g.nodes|);
    match node
    case List(_, cs) =>
      SuccessAdvances(g, r, n - 1, All(cs, 0), toks, own, own);
      assert cs[0..] == cs;
    case Optional(c) =>
      assert node.Successors()[0] == c;
      SuccessAdvances(g, r, n - 1, One(c), toks, own, own);
    case Choice(cs) => SuccessAdvances(g, r, n - 1, Any(cs, 0), toks, s, s);
    case Repeat(c) =>
      assert node.Successors()[0] == c;
      SuccessAdvances(g, r, n - 1, One(c), toks, own, own);
      var o := Recognise(g, n - 1, One(c), toks, own, own);
      if o.Some? && o.value.answer.Success? {
        SuccessAdvances(g, r, n - 1, More(c), toks, s, o.value.state);
      }
    case _ =>
  }

  // ----- Termination -----

  /** With a ranking, recognising always finishes, whatever the tokens and the state. */
  lemma {:induction false} RecogniserTerminates(g: Grammar, r: Ranking, m: nat, toks: seq<string>, s: State,
                                                inner: State) returns (n: nat)
    requires r.Ranks(g) && m < |g.nodes| && s.index <= |toks|
    ensures Recognise(g, n, One(m), toks, s, inner).Some?
    decreases |toks| - s.index, r.rank[m], 1, 0
  {
    var node, own := g.nodes[m], State(s.index, {});
    assert r.RanksNode(g, m);
    assert Below(node.Successors(), |g.nodes|);
    n := 0;
    match node {
      case List(_, cs) => n := AllTerminates(g, r, m, cs, 0, s.index, toks, own);
      case Optional(c) =>
        assert node.Successors()[0] == c;
        n := RecogniserTerminates(g, r, c, toks, own, own);
      case Choice(cs) => n := AnyTerminates(g, r, m, cs, 0, toks, s);
      case Repeat(c) =>
        assert node.Successors()[0] == c;
        n := RecogniserTerminates(g, r, c, toks, own, own);
        var o := Recognise(g, n, One(c), toks, own, own).value;
        if o.answer.Success? {
          SuccessAdvances(g, r, n, One(c), toks, own, own);
          var n' := MoreTerminates(g, r, c, toks, s, o.state);
          RecogniseMonotone(g, n, n + n', One(c), toks, own, own);
          RecogniseMonotone(g, n', n + n', More(c), toks, s, o.state);
          n := n + n';
        }
      case _ =>
    }
    n := n + 1;
  }

  // The children of list m from the k-th on, m having been entered at token start.
  lemma {:induction false} AllTerminates(g: Grammar, r: Ranking, m: nat, cs: seq<nat>, k: nat, start: nat,
                                         toks: seq<string>, s: State) returns (n: nat)
    requires r.Ranks(g) && m < |g.nodes| && g.nodes[m].List? && g.nodes[m].children == cs && k <= |cs|
    requires start <= s.index <= |toks| && (s.index == start ==> r.AllNullable(cs[..k])) && Below(cs, |g.nodes|)
    ensures Recognise(g, n, All(cs, k), toks, s, s).Some?
    decreases |toks| - start, r.rank[m], 0, |cs| - k
  {
    assert r.RanksNode(g, m);
    n := 0;
    if k < |cs| && s.index < |toks| {
      n := RecogniserTerminates(g, r, cs[k], toks, s, s);
      SuccessAdvances(g, r, n, One(cs[k]), toks, s, s);
      var o := Recognise(g, n, One(cs[k]), toks, s, s).value;
      if o.answer.Success? {
        assert cs[..k + 1] == cs[..k] + [cs[k]];
        var n' := AllTerminates(g, r, m, cs, k + 1, start, toks, o.state);
        RecogniseMonotone(g, n, n + n', One(cs[k]), toks, s, s);
        RecogniseMonotone(g, n', n + n', All(cs, k + 1), toks, o.state, o.state);
        n := n + n';
      }
    }
    n := n + 1;
  }

  lemma {:induction false} AnyTerminates(g: Grammar, r: Ranking, m: nat, cs: seq<nat>, k: nat, toks: seq<string>,
                                         s: State) returns (n: nat)
    requires r.Ranks(g) && m < |g.nodes| && g.nodes[m].Choice? && g.nodes[m].children == cs && k <= |cs|
    requires s.index <= |toks| && Below(cs, |g.nodes|)
    ensures Recognise(g, n, Any(cs, k), toks, s, s).Some?
    decreases |toks| - s.index, r.rank[m], 0, |cs| - k
  {
    assert r.RanksNode(g, m);
    n := 0;
    if k < |cs| {
      var own := State(s.index, {});
      n := RecogniserTerminates(g, r, cs[k], toks, own, s);
      if Recognise(g, n, One(cs[k]), toks, own, s).value.answer.Fail? {
        var n' := AnyTerminates(g, r, m, cs, k + 1, toks, s);
        RecogniseMonotone(g, n, n + n', One(cs[k]), toks, own, s);
        RecogniseMonotone(g, n', n + n', Any(cs, k + 1), toks, s, s);
        n := n + n';
      }
    }
    n := n + 1;
  }

  lemma {:induction false} MoreTerminates(g: Grammar, r: Ranking, c: nat, toks: seq<string>, s: State, inner: State)
    returns (n: nat)
    requires r.Ranks(g) && c < |g.nodes| && !r.nullable[c] && inner.index <= |toks|
    ensures Recognise(g, n, More(c), toks, s, inner).Some?
    decreases |toks| - inner.index, r.rank[c] + 1, 0, 0
  {
    n := 0;
    if inner.index < |toks| {
      n := RecogniserTerminates(g, r, c, toks, inner, inner);
      SuccessAdvances(g, r, n, One(c), toks, inner, inner);
      var o := Recognise(g, n, One(c), toks, inner, inner).value;
      if o.answer.Success? {
        var s' := s.(index := inner.index);
        var n' := MoreTerminates(g, r, c, toks, s', o.state);
        RecogniseMonotone(g, n, n + n', One(c), toks, inner, inner);
        RecogniseMonotone(g, n', n + n', More(c), toks, s', o.state);
        n := n + n';
      }
    }
    n := n + 1;
  }

  /** So on a ranked grammar there is exactly one answer, and a success ends within the tokens and, unless
      the matcher can match nothing, behind its start. */
  lemma RankedAnswer(g: Grammar, ranking: Ranking, m: nat, toks: seq<string>, s: State) returns (r: Recognition)
    requires ranking.Ranks(g) && m < |g.nodes| && s.index <= |toks|
    ensures Recognises(g, m, toks, s, r) && forall r' :: Recognises(g, m, toks, s, r') ==> r' == r
    ensures r.answer.Success? ==>
              s.index <= r.state.index <= |toks| && (r.state.index == s.index ==> ranking.nullable[m])
  {
    var n := RecogniserTerminates(g, ranking, m, toks, s, s);
    r := Recognise(g, n, One(m), toks, s, s).value;
    assert Recognises(g, m, toks, s, r);
    SuccessAdvances(g, ranking, n, One(m), toks, s, s);
    forall r' | Recognises(g, m, toks, s, r') ensures r' == r {
      RecognisesOnce(g, m, toks, s, r, r');
    }
  }

  // ----- Divergence -----

  // A goal in the states it is recognised in.
  datatype Ask = Ask(goal: Goal, state: State, inner: State)

  // What is asked first on behalf of c.
  function First(g: Grammar, toks: seq<string>, c: Ask): (d: Option<Ask>)
    requires g.Valid() && c.goal.In(g)
    ensures d.Some? ==> d.value.goal.In(g)
  {
    var s, own := c.state, State(c.state.index, {});
    match c.goal
    case One(m) =>
      assert Below(g.nodes[m].Successors(), |g.nodes|);
      (match g.nodes[m]
       case List(_, cs) => Some(Ask(All(cs, 0), own, own))
       case Optional(x) => assert g.nodes[m].Successors()[0] == x; Some(Ask(One(x), own, own))
       case Choice(cs) => Some(Ask(Any(cs, 0), s, s))
       case Repeat(x) => assert g.nodes[m].Successors()[0] == x; Some(Ask(One(x), own, own))
       case _ => None)
    case All(cs, k) => if k < |cs| && s.index < |toks| then Some(Ask(One(cs[k]), s, s)) else None
    case Any(cs, k) => if k < |cs| then Some(Ask(One(cs[k]), own, s)) else None
    case More(x) => if c.inner.index < |toks| then Some(Ask(One(x), c.inner, c.inner)) else None
  }

  // What is asked next, when the first answer was r.
  function Second(g: Grammar, c: Ask, r: Recognition): (d: Option<Ask>)
    requires g.Valid() && c.goal.In(g)
    ensures d.Some? ==> d.value.goal.In(g)
  {
    match c.goal
    case One(m) =>
      if g.nodes[m].Repeat? && r.answer.Success? then
        assert Below(g.nodes[m].Successors(), |g.nodes|) && g.nodes[m].Successors()[0] == g.nodes[m].element;
        Some(Ask(More(g.nodes[m].element), c.state, r.state))
      else None
    case All(cs, k) => if k < |cs| && r.answer.Success? then Some(Ask(All(cs, k + 1), r.state, r.state)) else None
    case Any(cs, k) => if k < |cs| && r.answer.Fail? then Some(Ask(Any(cs, k + 1), c.state, c.state)) else None
    case More(x) =>
      if r.answer.Success? then Some(Ask(More(x), c.state.(index := c.inner.index), r.state)) else None
  }

  ghost function Answer(g: Grammar, toks: seq<string>, c: Ask, n: nat): Option<Recognition>
    requires g.Valid() && c.goal.In(g)
  {
    Recognise(g, n, c.goal, toks, c.state, c.inner)
  }

  // Recognising takes one step more than what it asks.
  lemma AnswerSteps(g: Grammar, toks: seq<string>, c: Ask, n: nat)
    requires g.Valid() && c.goal.In(g)
    ensures Answer(g, toks, c, n + 1).Some? <==>
            var first := First(g, toks, c);
            first.Some? ==>
              var r := Answer(g, toks, first.value, n);
              && r.Some?
              && (Second(g, c, r.value).Some? ==> Answer(g, toks, Second(g, c, r.value).value, n).Some?)
  {
    match c.goal
    case One(m) =>
      assert Below(g.nodes[m].Successors(), |g.nodes|);
      assert Recognise(g, n + 1, One(m), toks, c.state, c.inner) == RecogniseNode(g, n + 1, m, toks, c.state);
      match g.nodes[m] {
        case List(_, cs) =>
        case Optional(x) => assert g.nodes[m].Successors()[0] == x;
        case Choice(cs) =>
        case Repeat(x) => assert g.nodes[m].Successors()[0] == x;
        case _ =>
      }
    case All(cs, k) =>
    case Any(cs, k) =>
    case More(x) =>
  }

  ghost predicate Answered(g: Grammar, toks: seq<string>, c: Ask)
    requires g.Valid() && c.goal.In(g)
  {
    exists n: nat :: Answer(g, toks, c, n).Some?
  }

  // Recognising c comes to recognising d: what is asked before d is answered.
  ghost predicate ComesTo(g: Grammar, toks: seq<string>, c: Ask, d: Ask)
    requires g.Valid() && c.goal.In(g)
  {
    var first := First(g, toks, c);
    && first.Some?
    && (d == first.value || exists n: nat :: Answer(g, toks, first.value, n).Some? &&
                                             Second(g, c, Answer(g, toks, first.value, n).value) == Some(d))
  }

  // Each of these questions comes to another one of them.
  ghost predicate Unending(g: Grammar, toks: seq<string>, asks: iset<Ask>)
    requires g.Valid()
  {
    forall c {:trigger GoesOn(g, toks, c, asks)} :: c in asks ==> GoesOn(g, toks, c, asks)
  }

  ghost predicate GoesOn(g: Grammar, toks: seq<string>, c: Ask, asks: iset<Ask>)
    requires g.Valid()
  {
    c.goal.In(g) && exists d :: d in asks && ComesTo(g, toks, c, d)
  }

  lemma {:induction false} UnendingLoops(g: Grammar, toks: seq<string>, asks: iset<Ask>, c: Ask, n: nat)
    requires g.Valid() && Unending(g, toks, asks) && c in asks && c.goal.In(g)
    ensures Answer(g, toks, c, n).None?
    decreases n
  {
    if n > 0 {
      hide Answer, First, Second;
      assert GoesOn(g, toks, c, asks);
      var d :| d in asks && ComesTo(g, toks, c, d);
      assert GoesOn(g, toks, d, asks);
      UnendingLoops(g, toks, asks, d, n - 1);
      AnswerSteps(g, toks, c, n - 1);
      var first := First(g, toks, c).value;
      if d != first && Answer(g, toks, first, n - 1).Some? {
        var n': nat :| Answer(g, toks, first, n').Some? && Second(g, c, Answer(g, toks, first, n').value) == Some(d);
        SameAnswer(g, toks, first, n', n - 1);
      }
    }
  }

  lemma SameAnswer(g: Grammar, toks: seq<string>, c: Ask, n: nat, n': nat)
    requires g.Valid() && c.goal.In(g) && Answer(g, toks, c, n).Some? && Answer(g, toks, c, n').Some?
    ensures Answer(g, toks, c, n) == Answer(g, toks, c, n')
  {
    RecogniseMonotone(g, n, n + n', c.goal, toks, c.state, c.inner);
    RecogniseMonotone(g, n', n + n', c.goal, toks, c.state, c.inner);
  }

  // If all that c comes to is answered, so is c.
  lemma AnsweredWithAsks(g: Grammar, toks: seq<string>, c: Ask)
    requires g.Valid() && c.goal.In(g)
    requires forall d: Ask :: d.goal.In(g) && ComesTo(g, toks, c, d) ==> Answered(g, toks, d)
    ensures Answered(g, toks, c)
  {
    hide Answer, First, Second;
    var first := First(g, toks, c);
    var n: nat := 0;
    if first.Some? {
      assert ComesTo(g, toks, c, first.value);
      n :| Answer(g, toks, first.value, n).Some?;
      var second := Second(g, c, Answer(g, toks, first.value, n).value);
      if second.Some? {
        assert ComesTo(g, toks, c, second.value);
        var n': nat :| Answer(g, toks, second.value, n').Some?;
        MoreSteps(g, toks, first.value, n, n + n');
        MoreSteps(g, toks, second.value, n', n + n');
        n := n + n';
      }
    }
    AnswerSteps(g, toks, c, n);
    assert Answer(g, toks, c, n + 1).Some?;
  }

  lemma MoreSteps(g: Grammar, toks: seq<string>, c: Ask, n: nat, n': nat)
    requires g.Valid() && c.goal.In(g) && n <= n' && Answer(g, toks, c, n).Some?
    ensures Answer(g, toks, c, n') == Answer(g, toks, c, n)
  {
    RecogniseMonotone(g, n, n', c.goal, toks, c.state, c.inner);
  }

  ghost function Unanswered(g: Grammar, toks: seq<string>): iset<Ask>
    requires g.Valid()
  {
    iset c: Ask | c.goal.In(g) && !Answered(g, toks, c)
  }

  lemma UnansweredUnending(g: Grammar, toks: seq<string>)
    requires g.Valid()
    ensures Unending(g, toks, Unanswered(g, toks))
  {
    forall c | c in Unanswered(g, toks) ensures GoesOn(g, toks, c, Unanswered(g, toks)) {
      if forall d: Ask :: d.goal.In(g) && ComesTo(g, toks, c, d) ==> Answered(g, toks, d) {
        AnsweredWithAsks(g, toks, c);
      }
      var d: Ask :| d.goal.In(g) && ComesTo(g, toks, c, d) && !Answered(g, toks, d);
      assert d in Unanswered(g, toks);
    }
  }

  /** Recognising does not finish exactly when it gets into questions that come to one another without
      end, whatever the graph, the tokens and the state. */
  lemma RecogniserDivergesExactly(g: Grammar, toks: seq<string>, c: Ask)
    requires g.Valid() && c.goal.In(g)
    ensures !Answered(g, toks, c) <==> exists asks :: c in asks && Unending(g, toks, asks)
  {
    if asks: iset<Ask> :| c in asks && Unending(g, toks, asks) {
      forall n: nat ensures Answer(g, toks, c, n).None? {
        UnendingLoops(g, toks, asks, c, n);
      }
    }
    if !Answered(g, toks, c) {
      UnansweredUnending(g, toks);
      assert c in Unanswered(g, toks);
    }
  }

  // The questions of a left-recursive cycle in one position.
  ghost function Round(g: Grammar, cycle: seq<nat>, i: nat): iset<Ask>
    requires g.Valid() && Below(cycle, |g.nodes|)
  {
    iset c: Ask | c.state.index == i &&
                  exists m :: m in cycle && (c.goal == One(m) || c.goal == Inner(g.nodes[m], m)) :: c
  }

  // A list at the end of the tokens suggests instead of recognising its children.
  predicate Recognising(g: Grammar, cycle: seq<nat>, toks: seq<string>, i: nat)
    requires g.Valid() && Below(cycle, |g.nodes|)
  {
    i < |toks| || forall j :: 0 <= j < |cycle| ==> !g.nodes[cycle[j]].List?
  }

  /** Left recursion never finishes where a token is left, nor, without a list, at the end of the tokens. */
  lemma LeftRecursionUnanswered(g: Grammar, cycle: seq<nat>, m: nat, toks: seq<string>, s: State)
    requires g.Valid() && LeftRecursive(g, cycle) && m in cycle && Recognising(g, cycle, toks, s.index)
    ensures !exists r :: Recognises(g, m, toks, s, r)
  {
    var asks, c := Round(g, cycle, s.index), Ask(One(m), s, s);
    forall d | d in asks ensures GoesOn(g, toks, d, asks) {
      RoundGoesOn(g, cycle, toks, s.index, d);
    }
    assert c in asks && Unending(g, toks, asks);
    RecogniserDivergesExactly(g, toks, c);
    if r :| Recognises(g, m, toks, s, r) {
      var n: nat :| Recognise(g, n, One(m), toks, s, s) == Some(r);
      assert Answer(g, toks, c, n).None?;
    }
  }

  lemma RoundGoesOn(g: Grammar, cycle: seq<nat>, toks: seq<string>, i: nat, c: Ask)
    requires g.Valid() && LeftRecursive(g, cycle) && c in Round(g, cycle, i) && Recognising(g, cycle, toks, i)
    ensures GoesOn(g, toks, c, Round(g, cycle, i))
  {
    var m :| m in cycle && (c.goal == One(m) || c.goal == Inner(g.nodes[m], m));
    var j :| 0 <= j < |cycle| && cycle[j] == m;
    assert AsksFirst(g.nodes[m], cycle[if j + 1 < |cycle| then j + 1 else 0]);
    assert Below(g.nodes[m].Successors(), |g.nodes|);
    var d := First(g, toks, c).value;
    assert d in Round(g, cycle, i);
    assert ComesTo(g, toks, c, d);
  }
}
