/** The two interpreters as the program runs them: recursive methods over a mutable match state,
    each proved to compute the outcome its semantics gives. */
module Interpreter {
  import opened Characters
  import opened Matchers
  import opened Peg
  import opened PegProperties
  import opened PegTermination
  import opened RecogniserTermination
  import R = Recogniser

  // The token vector is shared by every state of one parse.
  class TokenVector {
    var texts: seq<string>

    constructor (texts: seq<string>)
      ensures this.texts == texts
    {
      this.texts := texts;
    }
  }

  class MatchState {
    const tokens: TokenVector
    var tokenIndex: nat
    var addedSuggestions: set<nat>

    constructor (tokens: TokenVector, tokenIndex: nat)
      ensures this.tokens == tokens && this.tokenIndex == tokenIndex && addedSuggestions == {}
    {
      this.tokens := tokens;
      this.tokenIndex := tokenIndex;
      this.addedSuggestions := {};
    }

    ghost function Value(): R.State
      reads this
    {
      R.State(tokenIndex, addedSuggestions)
    }
  }

  datatype Reply = Null | Parsed(tree: ParseTree) | Exception

  // The reply and the final state carry out the outcome o of a matcher run from start.
  ghost predicate Carries(o: Outcome, start: nat, r: Reply, texts: seq<string>, index: nat) {
    && texts == o.tokens
    && match o.result
       case NoMatch => r == Null && index == start
       case Raised => r == Exception
       case Matched(e, ts) => r.Parsed? && ts == [r.tree] && index == e
  }

  // Every outcome of a single matcher holds one tree, so it can be carried out.
  lemma OneTree(g: Grammar, n: nat, m: nat, toks: seq<string>, i: nat)
    requires g.Valid() && m < |g.nodes| && Eval(g, n, One(m), toks, i).Some?
    ensures var o := Eval(g, n, One(m), toks, i).value;
            o.result.Matched? ==> |o.result.trees| == 1 && o.result.trees == [o.result.trees[0]]
  {
    SingleTree(g, n, One(m), toks, i);
  }

  lemma {:induction false} SingleTree(g: Grammar, n: nat, goal: Goal, toks: seq<string>, i: nat)
    requires g.Valid() && goal.In(g) && (goal.One? || goal.Any?) && Eval(g, n, goal, toks, i).Some?
    ensures var o := Eval(g, n, goal, toks, i).value; o.result.Matched? ==> |o.result.trees| == 1
    decreases n
  {
    match goal
    case One(m) =>
      assert Below(g.nodes[m].Successors(), |g.nodes|);
      if g.nodes[m].Choice? {
        SingleTree(g, n - 1, Any(g.nodes[m].children, 0), toks, i);
      }
    case Any(cs, k) =>
      if k < |cs| {
        SingleTree(g, n - 1, One(cs[k]), toks, i);
        var o := Eval(g, n - 1, One(cs[k]), toks, i).value;
        if o.result.NoMatch? {
          SingleTree(g, n - 1, Any(cs, k + 1), o.tokens, i);
        }
      }
  }

  /** MatchParseResult on any matcher of any graph: it finishes whenever the semantics gives an
      outcome, with exactly that outcome; a null reply leaves the token index where it was. */
  method MatchParseResult(g: Grammar, m: nat, state: MatchState, ghost n: nat) returns (r: Reply)
    requires g.Valid() && m < |g.nodes|
    requires Eval(g, n, One(m), state.tokens.texts, state.tokenIndex).Some?
    modifies state`tokenIndex, state.tokens
    ensures Carries(old(Eval(g, n, One(m), state.tokens.texts, state.tokenIndex).value),
                    old(state.tokenIndex), r, state.tokens.texts, state.tokenIndex)
    decreases n, 0
  {
    OneTree(g, n, m, state.tokens.texts, state.tokenIndex);
    var node := g.nodes[m];
    assert Below(node.Successors(), |g.nodes|);
    match node
    case List(name, cs) => r := ParseList(g, name, cs, state, n - 1);
    case Optional(c) =>
      assert node.Successors()[0] == c;
      var childState := new MatchState(state.tokens, state.tokenIndex);
      OneTree(g, n - 1, c, state.tokens.texts, state.tokenIndex);
      r := MatchParseResult(g, c, childState, n - 1);
      if r.Null? {
        return Parsed(OptionalResult(None));
      } else if r.Parsed? {
        state.tokenIndex := childState.tokenIndex;
        return Parsed(OptionalResult(Some(r.tree)));
      }
    case Choice(cs) => r := ParseChoice(g, cs, state, n - 1);
    case Repeat(c) =>
      assert node.Successors()[0] == c;
      r := ParseRepeat(g, c, state, n - 1);
    case _ =>
      if state.tokenIndex >= |state.tokens.texts| {
        return if node.ReservedIdentifier? then Exception else Null;
      }
      var text := state.tokens.texts[state.tokenIndex];
      var verdict := MatchLeaf(g.keywords, node, text);
      match verdict
      case Reject => r := Null;
      case Throws => r := Exception;
      case Accept =>
        state.tokens.texts := state.tokens.texts[state.tokenIndex := LeafRewrite(node, text)];
        state.tokenIndex := state.tokenIndex + 1;
        r := Parsed(LeafTree(node, text));
  }

  method ParseList(g: Grammar, name: string, cs: seq<nat>, state: MatchState, ghost n: nat) returns (r: Reply)
    requires g.Valid() && Below(cs, |g.nodes|)
    requires Eval(g, n, All(cs, 0), state.tokens.texts, state.tokenIndex).Some?
    modifies state`tokenIndex, state.tokens
    ensures var o := old(Eval(g, n, All(cs, 0), state.tokens.texts, state.tokenIndex).value);
            Carries(Bundle(List(name, cs), o), old(state.tokenIndex), r, state.tokens.texts, state.tokenIndex)
    decreases n
  {
    ghost var o := Eval(g, n, All(cs, 0), state.tokens.texts, state.tokenIndex).value;
    var listState := new MatchState(state.tokens, state.tokenIndex);
    var results: seq<ParseTree> := [];
    ghost var f: nat := n;
    var k := 0;
    while k < |cs|
      invariant 0 <= k <= |cs| && f <= n
      invariant Eval(g, f, All(cs, k), state.tokens.texts, listState.tokenIndex).Some?
      invariant o == var p := Eval(g, f, All(cs, k), state.tokens.texts, listState.tokenIndex).value;
                     p.(result := Prepend(results, p.result))
      invariant state.tokenIndex == old(state.tokenIndex)
    {
      f := f - 1;
      OneTree(g, f, cs[k], state.tokens.texts, listState.tokenIndex);
      var childResult := MatchParseResult(g, cs[k], listState, f);
      if !childResult.Parsed? {
        return childResult;
      }
      ghost var p := Eval(g, f, All(cs, k + 1), state.tokens.texts, listState.tokenIndex).value;
      assert p.result.Matched? ==>
          results + ([childResult.tree] + p.result.trees) == (results + [childResult.tree]) + p.result.trees;
      results := results + [childResult.tree];
      k := k + 1;
    }
    assert results + [] == results;
    state.tokenIndex := listState.tokenIndex;
    r := Parsed(ListResult(name, results));
  }

  method ParseChoice(g: Grammar, cs: seq<nat>, state: MatchState, ghost n: nat) returns (r: Reply)
    requires g.Valid() && Below(cs, |g.nodes|)
    requires Eval(g, n, Any(cs, 0), state.tokens.texts, state.tokenIndex).Some?
    modifies state`tokenIndex, state.tokens
    ensures Carries(old(Eval(g, n, Any(cs, 0), state.tokens.texts, state.tokenIndex).value),
                    old(state.tokenIndex), r, state.tokens.texts, state.tokenIndex)
    decreases n
  {
    ghost var o := Eval(g, n, Any(cs, 0), state.tokens.texts, state.tokenIndex).value;
    ghost var f: nat := n;
    for k := 0 to |cs|
      invariant f <= n
      invariant Eval(g, f, Any(cs, k), state.tokens.texts, state.tokenIndex) == Some(o)
      invariant state.tokenIndex == old(state.tokenIndex)
    {
      var choiceState := new MatchState(state.tokens, state.tokenIndex);
      f := f - 1;
      OneTree(g, f, cs[k], state.tokens.texts, state.tokenIndex);
      var childResult := MatchParseResult(g, cs[k], choiceState, f);
      match childResult
      case Null =>
      case Exception => return Exception;
      case Parsed(t) =>
        state.tokenIndex := choiceState.tokenIndex;
        return Parsed(ChoiceResult(t, k));
    }
    r := Null;
  }

  // A first match of c and the repetitions after it.
  ghost function RepeatOutcome(g: Grammar, n: nat, c: nat, toks: seq<string>, i: nat): Option<Outcome>
    requires g.Valid() && c < |g.nodes|
  {
    var o :- Eval(g, n, One(c), toks, i);
    if !o.result.Matched? then Some(o) else
    var p :- Eval(g, n, More(c), o.tokens, o.result.end);
    Some(p.(result := Prepend(o.result.trees, p.result)))
  }

  method ParseRepeat(g: Grammar, c: nat, state: MatchState, ghost n: nat) returns (r: Reply)
    requires g.Valid() && c < |g.nodes|
    requires RepeatOutcome(g, n, c, state.tokens.texts, state.tokenIndex).Some?
    modifies state`tokenIndex, state.tokens
    ensures var o := old(RepeatOutcome(g, n, c, state.tokens.texts, state.tokenIndex).value);
            Carries(Bundle(Repeat(c), o), old(state.tokenIndex), r, state.tokens.texts, state.tokenIndex)
    decreases n, 1
  {
    ghost var o := RepeatOutcome(g, n, c, state.tokens.texts, state.tokenIndex).value;
    var repeatState := new MatchState(state.tokens, state.tokenIndex);
    OneTree(g, n, c, state.tokens.texts, state.tokenIndex);
    var firstResult := MatchParseResult(g, c, repeatState, n);
    if !firstResult.Parsed? {
      return firstResult;
    }
    var results := [firstResult.tree];
    ghost var f: nat := n;
    while true
      invariant f <= n
      invariant Eval(g, f, More(c), state.tokens.texts, repeatState.tokenIndex).Some?
      invariant o == var p := Eval(g, f, More(c), state.tokens.texts, repeatState.tokenIndex).value;
                     p.(result := Prepend(results, p.result))
      decreases f
    {
      assert results + [] == results;
      state.tokenIndex := repeatState.tokenIndex;
      if repeatState.tokenIndex >= |state.tokens.texts| {
        break;
      }
      f := f - 1;
      OneTree(g, f, c, state.tokens.texts, repeatState.tokenIndex);
      var nextResult := MatchParseResult(g, c, repeatState, f);
      if nextResult.Exception? {
        return Exception;
      }
      if nextResult.Null? {
        break;
      }
      ghost var p := Eval(g, f, More(c), state.tokens.texts, repeatState.tokenIndex).value;
      assert p.result.Matched? ==>
          results + ([nextResult.tree] + p.result.trees) == (results + [nextResult.tree]) + p.result.trees;
      results := results + [nextResult.tree];
    }
    r := Parsed(RepeatResult(results));
  }

  /** On a ranked grammar the parser always finishes, from any position, and what it returns is a
      derivation of the grammar whose leaves are the tokens it consumed. */
  method ParseRanked(g: Grammar, ghost ranking: Ranking, m: nat, state: MatchState) returns (r: Reply)
    requires ranking.Ranks(g) && m < |g.nodes|
    requires state.tokenIndex <= |state.tokens.texts|
    modifies state`tokenIndex, state.tokens
    ensures exists o :: Derives(g, One(m), old(state.tokens.texts), old(state.tokenIndex), o) &&
                        Carries(o, old(state.tokenIndex), r, state.tokens.texts, state.tokenIndex)
    ensures r.Parsed? ==> SpelledOut(Leaves(r.tree), state.tokens.texts, old(state.tokenIndex), state.tokenIndex)
  {
    ghost var toks, i := state.tokens.texts, state.tokenIndex;
    ghost var o := Terminates(g, ranking, m, toks, i);
    ghost var n: nat :| Eval(g, n, One(m), toks, i) == Some(o);
    r := MatchParseResult(g, m, state, n);
    assert Derives(g, One(m), toks, i, o) && Carries(o, i, r, state.tokens.texts, state.tokenIndex);
    if r.Parsed? {
      TreeSpellsTokens(g, m, toks, i, o);
    }
  }

  // ----- The recognising interpreter -----

  /** AddSuggestion: marks the matchers it visits and reports whether this one must be matched. */
  method AddSuggestion(g: Grammar, m: nat, state: MatchState) returns (mandatory: bool)
    requires g.Valid() && m < |g.nodes|
    modifies state`addedSuggestions
    ensures R.Suggested(mandatory, state.addedSuggestions) == R.Suggest(g, m, old(state.addedSuggestions))
    decreases |R.Unseen(g, state.addedSuggestions)|, 0
  {
    if m in state.addedSuggestions {
      return true;
    }
    ghost var added := state.addedSuggestions;
    state.addedSuggestions := state.addedSuggestions + {m};
    assert R.Unseen(g, state.addedSuggestions) == R.Unseen(g, added) - {m} && m in R.Unseen(g, added);
    var node := g.nodes[m];
    assert Below(node.Successors(), |g.nodes|);
    match node
    case List(_, cs) => mandatory := AddSuggestions(g, cs, 0, state);
    case Optional(c) =>
      assert node.Successors()[0] == c;
      mandatory := AddSuggestion(g, c, state);
      return false;
    case Choice(cs) =>
      AddEachSuggestion(g, cs, state);
      return true;
    case Repeat(c) =>
      assert node.Successors()[0] == c;
      mandatory := AddSuggestion(g, c, state);
      return true;
    case _ => return true;
  }

  // The children from the k-th on, up to the first mandatory one.
  method AddSuggestions(g: Grammar, cs: seq<nat>, k: nat, state: MatchState) returns (mandatory: bool)
    requires g.Valid() && Below(cs, |g.nodes|) && k <= |cs|
    modifies state`addedSuggestions
    ensures R.Suggested(mandatory, state.addedSuggestions) == R.SuggestAll(g, cs, k, old(state.addedSuggestions))
    decreases |R.Unseen(g, state.addedSuggestions)|, 1
  {
    ghost var added := state.addedSuggestions;
    var j := k;
    while j < |cs|
      invariant k <= j <= |cs| && added <= state.addedSuggestions
      invariant R.SuggestAll(g, cs, k, added) == R.SuggestAll(g, cs, j, state.addedSuggestions)
    {
      R.UnseenShrinks(g, added, state.addedSuggestions);
      mandatory := AddSuggestion(g, cs[j], state);
      if mandatory {
        return;
      }
      j := j + 1;
    }
    mandatory := false;
  }

  method AddEachSuggestion(g: Grammar, cs: seq<nat>, state: MatchState)
    requires g.Valid() && Below(cs, |g.nodes|)
    modifies state`addedSuggestions
    ensures state.addedSuggestions == R.SuggestEach(g, cs, 0, old(state.addedSuggestions))
    decreases |R.Unseen(g, state.addedSuggestions)|, 1
  {
    ghost var added := state.addedSuggestions;
    for j := 0 to |cs|
      invariant added <= state.addedSuggestions
      invariant R.SuggestEach(g, cs, 0, added) == R.SuggestEach(g, cs, j, state.addedSuggestions)
    {
      R.UnseenShrinks(g, added, state.addedSuggestions);
      var mandatory := AddSuggestion(g, cs[j], state);
    }
  }

  /** Match on any matcher of any graph: it finishes whenever the recogniser's semantics gives an
      answer, with that answer and the state it leaves. */
  method Match(g: Grammar, m: nat, state: MatchState, ghost n: nat) returns (answer: R.Answer)
    requires g.Valid() && m < |g.nodes|
    requires R.Recognise(g, n, One(m), state.tokens.texts, state.Value(), state.Value()).Some?
    modifies state`tokenIndex, state`addedSuggestions
    ensures old(R.Recognise(g, n, One(m), state.tokens.texts, state.Value(), state.Value()).value) ==
            R.Recognition(answer, state.Value())
    decreases n, 0
  {
    var node := g.nodes[m];
    assert Below(node.Successors(), |g.nodes|);
    match node
    case List(_, cs) => answer := MatchList(g, cs, state, n - 1);
    case Optional(c) =>
      assert node.Successors()[0] == c;
      var childState := new MatchState(state.tokens, state.tokenIndex);
      answer := Match(g, c, childState, n - 1);
      if answer.Fail? {
        return R.Success;
      }
      if answer.Success? {
        state.tokenIndex := childState.tokenIndex;
      }
    case Choice(cs) => answer := MatchChoice(g, cs, state, n - 1);
    case Repeat(c) =>
      assert node.Successors()[0] == c;
      answer := MatchRepeat(g, c, state, n - 1);
    case _ =>
      if state.tokenIndex >= |state.tokens.texts| {
        return if node.Keyword? then R.Fail else R.Thrown;
      }
      var verdict := MatchLeaf(g.keywords, node, state.tokens.texts[state.tokenIndex]);
      match verdict
      case Reject => answer := R.Fail;
      case Throws => answer := R.Thrown;
      case Accept =>
        state.tokenIndex := state.tokenIndex + 1;
        answer := R.Success;
  }

  method MatchList(g: Grammar, cs: seq<nat>, state: MatchState, ghost n: nat) returns (answer: R.Answer)
    requires g.Valid() && Below(cs, |g.nodes|)
    requires var own := R.State(state.tokenIndex, {});
             R.Recognise(g, n, All(cs, 0), state.tokens.texts, own, own).Some?
    modifies state`tokenIndex, state`addedSuggestions
    ensures var own := old(R.State(state.tokenIndex, {}));
            R.Adopt(old(state.Value()), R.Recognise(g, n, All(cs, 0), state.tokens.texts, own, own).value) ==
            R.Recognition(answer, state.Value())
    decreases n
  {
    ghost var toks, own := state.tokens.texts, R.State(state.tokenIndex, {});
    ghost var r := R.Recognise(g, n, All(cs, 0), toks, own, own).value;
    var listState := new MatchState(state.tokens, state.tokenIndex);
    ghost var f: nat := n;
    var k := 0;
    while k < |cs|
      invariant 0 <= k <= |cs| && f <= n && state.Value() == old(state.Value())
      invariant R.Recognise(g, f, All(cs, k), toks, listState.Value(), listState.Value()).Some?
      invariant var q := R.Recognise(g, f, All(cs, k), toks, listState.Value(), listState.Value()).value;
                R.Adopt(state.Value(), q) == R.Adopt(state.Value(), r)
    {
      if listState.tokenIndex >= |listState.tokens.texts| {
        var mandatory := AddSuggestions(g, cs, k, listState);
        state.tokenIndex := listState.tokenIndex;
        return if mandatory then R.Fail else R.Success;
      }
      f := f - 1;
      answer := Match(g, cs[k], listState, f);
      if !answer.Success? {
        return;
      }
      k := k + 1;
    }
    state.tokenIndex := listState.tokenIndex;
    answer := R.Success;
  }

  method MatchChoice(g: Grammar, cs: seq<nat>, state: MatchState, ghost n: nat) returns (answer: R.Answer)
    requires g.Valid() && Below(cs, |g.nodes|)
    requires R.Recognise(g, n, Any(cs, 0), state.tokens.texts, state.Value(), state.Value()).Some?
    modifies state`tokenIndex, state`addedSuggestions
    ensures old(R.Recognise(g, n, Any(cs, 0), state.tokens.texts, state.Value(), state.Value()).value) ==
            R.Recognition(answer, state.Value())
    decreases n
  {
    ghost var f: nat := n;
    for k := 0 to |cs|
      invariant f <= n && state.Value() == old(state.Value())
      invariant R.Recognise(g, f, Any(cs, k), state.tokens.texts, state.Value(), state.Value()) ==
                old(R.Recognise(g, n, Any(cs, 0), state.tokens.texts, state.Value(), state.Value()))
    {
      var choiceState := new MatchState(state.tokens, state.tokenIndex);
      f := f - 1;
      RecogniseIgnoresInner(g, f, cs[k], state.tokens.texts, choiceState.Value(), state.Value());
      answer := Match(g, cs[k], choiceState, f);
      if !answer.Fail? {
        if answer.Success? {
          state.tokenIndex := choiceState.tokenIndex;
        }
        return;
      }
    }
    answer := R.Fail;
  }

  // Only repetitions look at the inner state.
  lemma RecogniseIgnoresInner(g: Grammar, n: nat, m: nat, toks: seq<string>, s: R.State, inner: R.State)
    requires g.Valid() && m < |g.nodes|
    ensures R.Recognise(g, n, One(m), toks, s, inner) == R.Recognise(g, n, One(m), toks, s, s)
  {
  }

  // A first match of c in a state of its own and the repetitions after it.
  ghost function RepeatRecognition(g: Grammar, n: nat, c: nat, toks: seq<string>, s: R.State): Option<R.Recognition>
    requires g.Valid() && c < |g.nodes|
  {
    var own := R.State(s.index, {});
    var r :- R.Recognise(g, n, One(c), toks, own, own);
    if !r.answer.Success? then Some(R.Recognition(r.answer, s))
    else R.Recognise(g, n, More(c), toks, s, r.state)
  }

  method MatchRepeat(g: Grammar, c: nat, state: MatchState, ghost n: nat) returns (answer: R.Answer)
    requires g.Valid() && c < |g.nodes|
    requires RepeatRecognition(g, n, c, state.tokens.texts, state.Value()).Some?
    modifies state`tokenIndex, state`addedSuggestions
    ensures old(RepeatRecognition(g, n, c, state.tokens.texts, state.Value()).value) ==
            R.Recognition(answer, state.Value())
    decreases n, 1
  {
    ghost var toks := state.tokens.texts;
    var repeatState := new MatchState(state.tokens, state.tokenIndex);
    answer := Match(g, c, repeatState, n);
    if !answer.Success? {
      return;
    }
    ghost var f: nat := n;
    while true
      invariant f <= n
      invariant R.Recognise(g, f, More(c), toks, state.Value(), repeatState.Value()).Some?
      invariant R.Recognise(g, f, More(c), toks, state.Value(), repeatState.Value()) ==
                old(RepeatRecognition(g, n, c, toks, state.Value()))
      decreases f
    {
      state.tokenIndex := repeatState.tokenIndex;
      if repeatState.tokenIndex >= |state.tokens.texts| {
        var mandatory := AddSuggestion(g, c, state);
        return R.Success;
      }
      f := f - 1;
      answer := Match(g, c, repeatState, f);
      if !answer.Success? {
        return if answer.Thrown? then R.Thrown else R.Success;
      }
    }
  }

  /** On a ranked grammar the recogniser always finishes, from any position and whatever has been
      suggested, with the only answer its semantics gives; a success ends within the tokens, and has
      consumed one unless the matcher can match nothing. */
  method MatchRanked(g: Grammar, ghost ranking: Ranking, m: nat, state: MatchState) returns (answer: R.Answer)
    requires ranking.Ranks(g) && m < |g.nodes|
    requires state.tokenIndex <= |state.tokens.texts|
    modifies state`tokenIndex, state`addedSuggestions
    ensures R.Recognises(g, m, state.tokens.texts, old(state.Value()), R.Recognition(answer, state.Value()))
    ensures forall r :: R.Recognises(g, m, state.tokens.texts, old(state.Value()), r) ==>
              r == R.Recognition(answer, state.Value())
    ensures answer.Success? ==>
              && old(state.tokenIndex) <= state.tokenIndex <= |state.tokens.texts|
              && (state.tokenIndex == old(state.tokenIndex) ==> ranking.nullable[m])
  {
    ghost var toks, s := state.tokens.texts, state.Value();
    ghost var r := RankedAnswer(g, ranking, m, toks, s);
    ghost var n: nat :| R.Recognise(g, n, One(m), toks, s, s) == Some(r);
    answer := Match(g, m, state, n);
  }
}
