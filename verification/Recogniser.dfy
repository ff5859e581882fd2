/** The recognising interpreter: it builds no trees, and at the end of the tokens it asks the
    remaining matchers for suggestions instead of matching them. */
module Recogniser {
  import opened Characters
  import opened Matchers
  import opened Peg
  import opened PegProperties

  // ----- Suggestions -----

  ghost function Unseen(g: Grammar, added: set<nat>): set<nat> {
    set m: nat | m < |g.nodes| && m !in added
  }

  datatype Suggested = Suggested(mandatory: bool, added: set<nat>)

  // A matcher asked a second time in the same state answers that it is mandatory, which is what
  // stops recursive rules.
  ghost function Suggest(g: Grammar, m: nat, added: set<nat>): (r: Suggested)
    requires g.Valid() && m < |g.nodes|
    ensures added <= r.added
    decreases |Unseen(g, added)|, 0
  {
    if m in added then Suggested(true, added) else
    var node := g.nodes[m];
    var added' := added + {m};
    assert Unseen(g, added') == Unseen(g, added) - {m} && m in Unseen(g, added);
    assert Below(node.Successors(), |g.nodes|);
    match node
    case List(_, cs) => SuggestAll(g, cs, 0, added')
    case Optional(c) => Suggested(false, (assert node.Successors()[0] == c; Suggest(g, c, added')).added)
    case Choice(cs) => Suggested(true, SuggestEach(g, cs, 0, added'))
    case Repeat(c) => Suggested(true, (assert node.Successors()[0] == c; Suggest(g, c, added')).added)
    case _ => Suggested(true, added')
  }

  lemma UnseenShrinks(g: Grammar, added: set<nat>, added': set<nat>)
    requires added <= added'
    ensures |Unseen(g, added')| <= |Unseen(g, added)|
  {
    CardinalityMonotone(Unseen(g, added'), Unseen(g, added));
  }

  // Children from the k-th on, up to the first mandatory one.
  ghost function SuggestAll(g: Grammar, cs: seq<nat>, k: nat, added: set<nat>): (r: Suggested)
    requires g.Valid() && k <= |cs| && Below(cs, |g.nodes|)
    ensures added <= r.added
    decreases |Unseen(g, added)|, |cs| - k + 1
  {
    if k == |cs| then Suggested(false, added) else
    var s := Suggest(g, cs[k], added);
    UnseenShrinks(g, added, s.added);
    if s.mandatory then s else SuggestAll(g, cs, k + 1, s.added)
  }

  ghost function SuggestEach(g: Grammar, cs: seq<nat>, k: nat, added: set<nat>): (r: set<nat>)
    requires g.Valid() && k <= |cs| && Below(cs, |g.nodes|)
    ensures added <= r
    decreases |Unseen(g, added)|, |cs| - k + 1
  {
    if k == |cs| then added else
    var s := Suggest(g, cs[k], added);
    UnseenShrinks(g, added, s.added);
    SuggestEach(g, cs, k + 1, s.added)
  }

  // ----- Which matchers are asked -----

  // Between two states, children up to the k-th have been asked, and the last of them, if there are
  // more, answered that it is mandatory.
  ghost predicate AsksUpTo(g: Grammar, cs: seq<nat>, k: nat, before: set<nat>, after: set<nat>)
    requires g.Valid() && Below(cs, |g.nodes|)
  {
    && k <= |cs| && (forall j :: 0 <= j < k ==> cs[j] in after)
    && (k < |cs| ==> k > 0 && exists mid :: before <= mid <= after && Suggest(g, cs[k - 1], mid).mandatory)
  }

  // A matcher that is asked passes the question on: a choice to all alternatives, a list to its
  // children up to a mandatory one.
  ghost predicate Asks(g: Grammar, x: nat, before: set<nat>, after: set<nat>)
    requires g.Valid() && x < |g.nodes|
  {
    assert Below(g.nodes[x].Successors(), |g.nodes|);
    match g.nodes[x]
    case List(_, cs) => exists k :: AsksUpTo(g, cs, k, before, after)
    case Optional(c) => c in after
    case Choice(cs) => forall j :: 0 <= j < |cs| ==> cs[j] in after
    case Repeat(c) => c in after
    case _ => true
  }

  // Every matcher marked between the states is one of the graph and has passed the question on.
  ghost predicate AllAsk(g: Grammar, before: set<nat>, after: set<nat>)
    requires g.Valid()
  {
    before <= after && forall x :: x in after && x !in before ==> x < |g.nodes| && Asks(g, x, before, after)
  }

  lemma AsksWider(g: Grammar, x: nat, before: set<nat>, b: set<nat>, a: set<nat>, after: set<nat>)
    requires g.Valid() && x < |g.nodes| && before <= b && a <= after && Asks(g, x, b, a)
    ensures Asks(g, x, before, after)
  {
    match g.nodes[x]
    case List(_, cs) =>
      var k :| AsksUpTo(g, cs, k, b, a);
      assert AsksUpTo(g, cs, k, before, after);
    case _ =>
  }

  lemma AllAskThen(g: Grammar, before: set<nat>, mid: set<nat>, after: set<nat>)
    requires g.Valid() && AllAsk(g, before, mid) && AllAsk(g, mid, after)
    ensures AllAsk(g, before, after)
  {
    hide Asks;
    forall x | x in after && x !in before ensures x < |g.nodes| && Asks(g, x, before, after) {
      if x in mid {
        AsksWider(g, x, before, before, mid, after);
      } else {
        AsksWider(g, x, before, mid, after, after);
      }
    }
  }

  // The first matcher asked has only been missing from the state.
  lemma AllAskFirst(g: Grammar, m: nat, before: set<nat>, after: set<nat>)
    requires g.Valid() && m < |g.nodes| && AllAsk(g, before + {m}, after) && Asks(g, m, before + {m}, after)
    ensures AllAsk(g, before, after)
  {
    hide Asks;
    forall x | x in after && x !in before ensures x < |g.nodes| && Asks(g, x, before, after) {
      AsksWider(g, x, before, before + {m}, after, after);
    }
  }

  /** The matcher is marked, and every matcher marked with it has passed the question on. */
  lemma {:induction false} SuggestAsks(g: Grammar, m: nat, added: set<nat>)
    requires g.Valid() && m < |g.nodes|
    ensures m in Suggest(g, m, added).added && AllAsk(g, added, Suggest(g, m, added).added)
    decreases |Unseen(g, added)|, 0
  {
    if m !in added {
      var node := g.nodes[m];
      var added', after := added + {m}, Suggest(g, m, added).added;
      assert Unseen(g, added') == Unseen(g, added) - {m} && m in Unseen(g, added);
      assert Below(node.Successors(), |g.nodes|);
      match node {
        case List(_, cs) =>
          var k := SuggestAllAsks(g, cs, 0, added');
          assert AsksUpTo(g, cs, k, added', after);
        case Optional(c) =>
          assert node.Successors()[0] == c;
          SuggestAsks(g, c, added');
        case Choice(cs) => SuggestEachAsks(g, cs, 0, added');
        case Repeat(c) =>
          assert node.Successors()[0] == c;
          SuggestAsks(g, c, added');
        case _ =>
      }
      AllAskFirst(g, m, added, after);
    }
  }

  lemma {:induction false} SuggestAllAsks(g: Grammar, cs: seq<nat>, k: nat, added: set<nat>) returns (last: nat)
    requires g.Valid() && k <= |cs| && Below(cs, |g.nodes|)
    ensures var s := SuggestAll(g, cs, k, added);
            && k <= last <= |cs| && (forall j :: k <= j < last ==> cs[j] in s.added)
            && (if k == |cs| then !s.mandatory
                else k < last && exists mid :: added <= mid <= s.added && Suggest(g, cs[last - 1], mid) == s)
            && (!s.mandatory ==> last == |cs|) && AllAsk(g, added, s.added)
    decreases |Unseen(g, added)|, |cs| - k + 1
  {
    hide Suggest, SuggestEach, Asks;
    last := k;
    if k < |cs| {
      var s := Suggest(g, cs[k], added);
      SuggestAsks(g, cs[k], added);
      UnseenShrinks(g, added, s.added);
      last := k + 1;
      if !s.mandatory {
        last := SuggestAllAsks(g, cs, k + 1, s.added);
        AllAskThen(g, added, s.added, SuggestAll(g, cs, k + 1, s.added).added);
      }
    }
  }

  lemma {:induction false} SuggestEachAsks(g: Grammar, cs: seq<nat>, k: nat, added: set<nat>)
    requires g.Valid() && k <= |cs| && Below(cs, |g.nodes|)
    ensures var after := SuggestEach(g, cs, k, added);
            AllAsk(g, added, after) && forall j :: k <= j < |cs| ==> cs[j] in after
    decreases |Unseen(g, added)|, |cs| - k + 1
  {
    if k < |cs| {
      var s := Suggest(g, cs[k], added);
      SuggestAsks(g, cs[k], added);
      UnseenShrinks(g, added, s.added);
      SuggestEachAsks(g, cs, k + 1, s.added);
      AllAskThen(g, added, s.added, SuggestEach(g, cs, k + 1, s.added));
    }
  }

  // Matchers that refer only to each other.
  ghost predicate ClosedUnder(g: Grammar, ms: iset<nat>) {
    forall x :: x in ms && x < |g.nodes| ==> forall y :: y in g.nodes[x].Successors() ==> y in ms
  }

  /** Nothing else is marked: a matcher that cannot be reached stays as it was. */
  lemma {:induction false} SuggestWithin(g: Grammar, m: nat, added: set<nat>, ms: iset<nat>)
    requires g.Valid() && m < |g.nodes| && m in ms && ClosedUnder(g, ms)
    ensures forall x :: x in Suggest(g, m, added).added ==> x in added || x in ms
    decreases |Unseen(g, added)|, 0
  {
    if m !in added {
      var node := g.nodes[m];
      var added' := added + {m};
      assert Unseen(g, added') == Unseen(g, added) - {m} && m in Unseen(g, added);
      assert Below(node.Successors(), |g.nodes|);
      match node
      case List(_, cs) => SuggestListWithin(g, cs, 0, added', ms);
      case Optional(c) =>
        assert node.Successors()[0] == c;
        SuggestWithin(g, c, added', ms);
      case Choice(cs) => SuggestListWithin(g, cs, 0, added', ms);
      case Repeat(c) =>
        assert node.Successors()[0] == c;
        SuggestWithin(g, c, added', ms);
      case _ =>
    }
  }

  lemma {:induction false} SuggestListWithin(g: Grammar, cs: seq<nat>, k: nat, added: set<nat>, ms: iset<nat>)
    requires g.Valid() && k <= |cs| && Below(cs, |g.nodes|) && ClosedUnder(g, ms)
    requires forall j :: 0 <= j < |cs| ==> cs[j] in ms
    ensures forall x :: x in SuggestAll(g, cs, k, added).added ==> x in added || x in ms
    ensures forall x :: x in SuggestEach(g, cs, k, added) ==> x in added || x in ms
    decreases |Unseen(g, added)|, |cs| - k + 1
  {
    if k < |cs| {
      var s := Suggest(g, cs[k], added);
      SuggestWithin(g, cs[k], added, ms);
      UnseenShrinks(g, added, s.added);
      SuggestListWithin(g, cs, k + 1, s.added, ms);
    }
  }

  // ----- Recognition -----

  // Exhausted is a failure at the end of the tokens: unlike any other, it moves the caller's index.
  datatype Answer = Success | Fail | Exhausted | Thrown

  datatype State = State(index: nat, added: set<nat>)
  datatype Recognition = Recognition(answer: Answer, state: State)

  function LeafRecognition(kw: KeywordSets, m: Matcher, toks: seq<string>, s: State): Recognition
    requires m.IsLeaf()
  {
    if s.index >= |toks| then
      // Only the keyword matcher checks the index; for the others the token vector throws.
      Recognition(if m.Keyword? then Fail else Thrown, s)
    else
      match LeafVerdict(kw, m, toks[s.index])
      case Accept => Recognition(Success, s.(index := s.index + 1))
      case Reject => Recognition(Fail, s)
      case Throws => Recognition(Thrown, s)
  }

  // The state after running a child in a state of its own.
  function Adopt(s: State, r: Recognition): Recognition {
    match r.answer
    case Success => Recognition(Success, s.(index := r.state.index))
    case Exhausted => Recognition(Fail, s.(index := r.state.index))
    case _ => Recognition(r.answer, s)
  }

  /** Recognition of a goal with n steps of fuel. For More, inner is the state the element runs in
      and s the one that is reported. */
  ghost function Recognise(g: Grammar, n: nat, goal: Goal, toks: seq<string>, s: State,
                           inner: State): (r: Option<Recognition>)
    requires g.Valid() && goal.In(g)
    ensures !goal.All? && r.Some? ==> !r.value.answer.Exhausted?
    decreases n
  {
    if n == 0 then None else
    match goal
    case One(m) => RecogniseNode(g, n, m, toks, s)
    case All(cs, k) =>
      if k == |cs| then Some(Recognition(Success, s))
      else if s.index >= |toks| then
        var suggested := SuggestAll(g, cs, k, s.added);
        Some(Recognition(if suggested.mandatory then Exhausted else Success, s.(added := suggested.added)))
      else
        var r :- Recognise(g, n - 1, One(cs[k]), toks, s, s);
        if r.answer.Success? then Recognise(g, n - 1, All(cs, k + 1), toks, r.state, r.state)
        else Some(Recognition(r.answer, s))
    case Any(cs, k) =>
      if k == |cs| then Some(Recognition(Fail, s)) else
      var r :- Recognise(g, n - 1, One(cs[k]), toks, State(s.index, {}), s);
      if r.answer.Fail? then Recognise(g, n - 1, Any(cs, k + 1), toks, s, s)
      else Some(Adopt(s, r))
    case More(m) =>
      var s' := s.(index := inner.index);
      if inner.index >= |toks| then Some(Recognition(Success, s'.(added := Suggest(g, m, s.added).added))) else
      var r :- Recognise(g, n - 1, One(m), toks, inner, inner);
      if r.answer.Success? then Recognise(g, n - 1, More(m), toks, s', r.state)
      else Some(Recognition(if r.answer.Thrown? then Thrown else Success, s'))
  }

  ghost function RecogniseNode(g: Grammar, n: nat, m: nat, toks: seq<string>, s: State): (r: Option<Recognition>)
    requires n > 0 && g.Valid() && m < |g.nodes|
    ensures r.Some? ==> !r.value.answer.Exhausted?
    decreases n, 0
  {
    var node := g.nodes[m];
    var own := State(s.index, {});
    assert Below(node.Successors(), |g.nodes|);
    match node
    case List(_, cs) =>
      var r :- Recognise(g, n - 1, All(cs, 0), toks, own, own);
      Some(Adopt(s, r))
    case Optional(c) =>
      assert node.Successors()[0] == c;
      var r :- Recognise(g, n - 1, One(c), toks, own, own);
      Some(if r.answer.Fail? then Recognition(Success, s) else Adopt(s, r))
    case Choice(cs) => Recognise(g, n - 1, Any(cs, 0), toks, s, s)
    case Repeat(c) =>
      assert node.Successors()[0] == c;
      var r :- Recognise(g, n - 1, One(c), toks, own, own);
      if !r.answer.Success? then Some(Recognition(r.answer, s))
      else Recognise(g, n - 1, More(c), toks, s, r.state)
    case _ => Some(LeafRecognition(g.keywords, node, toks, s))
  }

  // ----- Agreement with the tree-building interpreter -----

  // The last token is one that no leaf of the grammar accepts.
  ghost predicate Sentinel(g: Grammar, toks: seq<string>) {
    toks != [] &&
    forall m :: 0 <= m < |g.nodes| && g.nodes[m].IsLeaf() ==>
      LeafVerdict(g.keywords, g.nodes[m], toks[|toks| - 1]) != Accept
  }

  // Every double-quoted token is the last one but for its case.
  ghost predicate Steady(toks: seq<string>) {
    forall j :: 0 <= j < |toks| && IsQuoted(toks[j]) ==> Lower(toks[j]) == Lower(toks[|toks| - 1])
  }

  // An identifier that does not accept the last token strips no token of a steady vector.
  lemma NothingStripped(g: Grammar, m: nat, toks: seq<string>, i: nat)
    requires g.Valid() && m < |g.nodes| && g.nodes[m].IsLeaf() && i < |toks| && Steady(toks) && Sentinel(g, toks)
    ensures LeafVerdict(g.keywords, g.nodes[m], toks[i]) == Accept ==> LeafRewrite(g.nodes[m], toks[i]) == toks[i]
  {
    var text, last := toks[i], toks[|toks| - 1];
    if g.nodes[m].Identifier? && IsQuoted(text) {
      assert Lower(text)[0] == ToLower(last[0]) == '"';
      assert Lower(text)[|text| - 1] == ToLower(last[|text| - 1]) == '"';
    }
  }

  ghost predicate SameAnswer(o: Outcome, toks: seq<string>, r: Recognition) {
    match o.result
    case Matched(e, _) => r.answer == Success && r.state.index == e && e < |toks|
    case NoMatch => r.answer == Fail
    case Raised => r.answer == Thrown
  }

  ghost predicate Agree(o: Outcome, toks: seq<string>, r: Recognition) {
    o.tokens == toks && SameAnswer(o, toks, r)
  }

  /** Both interpreters give the same answer at the same index, or neither finishes within n steps. */
  lemma {:induction false} InterpretersAgree(g: Grammar, n: nat, goal: Goal, toks: seq<string>, s: State, inner: State)
    requires g.Valid() && goal.In(g) && Steady(toks) && Sentinel(g, toks)
    requires s.index < |toks| && (goal.More? ==> inner.index < |toks|)
    ensures var i := if goal.More? then inner.index else s.index;
            var o, r := Eval(g, n, goal, toks, i), Recognise(g, n, goal, toks, s, inner);
            o.Some? == r.Some? && (o.Some? ==> Agree(o.value, toks, r.value))
    decreases n, 1
  {
    var i := if goal.More? then inner.index else s.index;
    if n > 0 {
      match goal
      case One(m) => NodesAgree(g, n, m, toks, s);
      case All(cs, k) =>
        if k < |cs| {
          InterpretersAgree(g, n - 1, One(cs[k]), toks, s, s);
          var r := Recognise(g, n - 1, One(cs[k]), toks, s, s);
          if r.Some? && r.value.answer.Success? {
            InterpretersAgree(g, n - 1, All(cs, k + 1), toks, r.value.state, r.value.state);
          }
        }
      case Any(cs, k) =>
        if k < |cs| {
          InterpretersAgree(g, n - 1, One(cs[k]), toks, State(s.index, {}), s);
          InterpretersAgree(g, n - 1, Any(cs, k + 1), toks, s, s);
        }
      case More(m) =>
        InterpretersAgree(g, n - 1, One(m), toks, inner, inner);
        var r := Recognise(g, n - 1, One(m), toks, inner, inner);
        if r.Some? && r.value.answer.Success? {
          InterpretersAgree(g, n - 1, More(m), toks, s.(index := inner.index), r.value.state);
        }
    }
  }

  lemma {:induction false} NodesAgree(g: Grammar, n: nat, m: nat, toks: seq<string>, s: State)
    requires n > 0 && g.Valid() && m < |g.nodes| && Steady(toks) && Sentinel(g, toks) && s.index < |toks|
    ensures var o, r := EvalNode(g, n, m, toks, s.index), RecogniseNode(g, n, m, toks, s);
            o.Some? == r.Some? && (o.Some? ==> Agree(o.value, toks, r.value))
    decreases n, 0
  {
    var node := g.nodes[m];
    var own := State(s.index, {});
    assert Below(node.Successors(), |g.nodes|);
    match node
    case List(_, cs) => InterpretersAgree(g, n - 1, All(cs, 0), toks, own, own);
    case Optional(c) =>
      assert node.Successors()[0] == c;
      InterpretersAgree(g, n - 1, One(c), toks, own, own);
    case Choice(cs) => InterpretersAgree(g, n - 1, Any(cs, 0), toks, s, s);
    case Repeat(c) =>
      assert node.Successors()[0] == c;
      InterpretersAgree(g, n - 1, One(c), toks, own, own);
      var r := Recognise(g, n - 1, One(c), toks, own, own);
      if r.Some? && r.value.answer.Success? {
        InterpretersAgree(g, n - 1, More(c), toks, s, r.value.state);
      }
    case _ =>
      NothingStripped(g, m, toks, s.index);
      assert toks[s.index := toks[s.index]] == toks;
  }

  ghost predicate Recognises(g: Grammar, m: nat, toks: seq<string>, s: State, r: Recognition) {
    g.Valid() && m < |g.nodes| && exists n: nat :: Recognise(g, n, One(m), toks, s, s) == Some(r)
  }

  /** With a final token no leaf accepts, and any double-quoted token spelled like it, the recogniser
      succeeds exactly when the parser does, and stops at the same token. */
  lemma RecogniserAgreesWithParser(g: Grammar, m: nat, toks: seq<string>, s: State, o: Outcome)
    requires Steady(toks) && Sentinel(g, toks) && s.index < |toks|
    requires Derives(g, One(m), toks, s.index, o)
    ensures exists r :: Recognises(g, m, toks, s, r) && Agree(o, toks, r)
  {
    var n: nat :| Eval(g, n, One(m), toks, s.index) == Some(o);
    InterpretersAgree(g, n, One(m), toks, s, s);
    var r := Recognise(g, n, One(m), toks, s, s).value;
    assert Recognises(g, m, toks, s, r);
  }

  lemma ParserAgreesWithRecogniser(g: Grammar, m: nat, toks: seq<string>, s: State, r: Recognition)
    requires Steady(toks) && Sentinel(g, toks) && s.index < |toks|
    requires Recognises(g, m, toks, s, r)
    ensures exists o :: Derives(g, One(m), toks, s.index, o) && Agree(o, toks, r)
  {
    var n: nat :| Recognise(g, n, One(m), toks, s, s) == Some(r);
    InterpretersAgree(g, n, One(m), toks, s, s);
    StepUp(g, n, One(m), toks, s.index, Eval(g, n, One(m), toks, s.index).value);
  }

  // ----- Exactly when they agree -----

  ghost predicate SameAnswers(g: Grammar, m: nat, toks: seq<string>, s: State) {
    && (forall o :: Derives(g, One(m), toks, s.index, o) ==>
          exists r :: Recognises(g, m, toks, s, r) && SameAnswer(o, toks, r))
    && (forall r :: Recognises(g, m, toks, s, r) ==>
          exists o :: Derives(g, One(m), toks, s.index, o) && SameAnswer(o, toks, r))
  }

  // A graph of any composite matchers over these leaves.
  ghost predicate BuiltOf(g: Grammar, kw: KeywordSets, leaves: iset<Matcher>) {
    g.Valid() && g.keywords == kw && forall m :: 0 <= m < |g.nodes| && g.nodes[m].IsLeaf() ==> g.nodes[m] in leaves
  }

  ghost predicate AlwaysSame(kw: KeywordSets, leaves: iset<Matcher>, toks: seq<string>) {
    forall g: Grammar, m: nat, s: State ::
      BuiltOf(g, kw, leaves) && m < |g.nodes| && s.index < |toks| ==> SameAnswers(g, m, toks, s)
  }

  ghost predicate NoneAccepts(kw: KeywordSets, leaves: iset<Matcher>, text: string) {
    forall l :: l in leaves && l.IsLeaf() ==> LeafVerdict(kw, l, text) != Accept
  }

  lemma SentinelSuffices(kw: KeywordSets, leaves: iset<Matcher>, toks: seq<string>)
    requires toks != [] && Steady(toks) && NoneAccepts(kw, leaves, toks[|toks| - 1])
    ensures AlwaysSame(kw, leaves, toks)
  {
    forall g: Grammar, m: nat, s: State | BuiltOf(g, kw, leaves) && m < |g.nodes| && s.index < |toks|
      ensures SameAnswers(g, m, toks, s)
    {
      forall o | Derives(g, One(m), toks, s.index, o)
        ensures exists r :: Recognises(g, m, toks, s, r) && SameAnswer(o, toks, r)
      {
        RecogniserAgreesWithParser(g, m, toks, s, o);
      }
      forall r | Recognises(g, m, toks, s, r)
        ensures exists o :: Derives(g, One(m), toks, s.index, o) && SameAnswer(o, toks, r)
      {
        ParserAgreesWithRecogniser(g, m, toks, s, r);
      }
    }
  }

  lemma Differ(g: Grammar, m: nat, toks: seq<string>, s: State, o: Outcome, r: Recognition)
    requires Derives(g, One(m), toks, s.index, o) && Recognises(g, m, toks, s, r) && !SameAnswer(o, toks, r)
    ensures !SameAnswers(g, m, toks, s)
  {
    if SameAnswers(g, m, toks, s) {
      var o' :| Derives(g, One(m), toks, s.index, o') && SameAnswer(o', toks, r);
      Deterministic(g, One(m), toks, s.index, o, o');
    }
  }

  // A choice whose only alternative is optional and never matches: the parser takes it anywhere.
  ghost predicate Hollow(g: Grammar, a: nat) {
    g.Valid() && a + 2 < |g.nodes| && g.nodes[a..a + 3] == [Choice([a + 1]), Optional(a + 2), Choice([])]
  }

  lemma HollowMatches(g: Grammar, a: nat, toks: seq<string>, i: nat)
    requires Hollow(g, a)
    ensures Eval(g, 6, One(a), toks, i) == Some(Outcome(toks, Matched(i, [ChoiceResult(OptionalResult(None), 0)])))
  {
    var empty := Outcome(toks, Matched(i, [OptionalResult(None)]));
    var nodes := g.nodes[a..a + 3];
    assert g.nodes[a] == nodes[0] && g.nodes[a + 1] == nodes[1] && g.nodes[a + 2] == nodes[2];
    assert Eval(g, 2, Any([], 0), toks, i) == Some(Outcome(toks, NoMatch));
    assert Eval(g, 3, One(a + 2), toks, i) == Some(Outcome(toks, NoMatch));
    assert Eval(g, 4, One(a + 1), toks, i) == Some(empty);
    assert Eval(g, 5, Any([a + 1], 0), toks, i) == Some(Select(0, empty));
  }

  // Suggestions call a choice mandatory, whatever its alternatives.
  lemma HollowIsMandatory(g: Grammar, cs: seq<nat>, k: nat, added: set<nat>)
    requires k < |cs| && Below(cs, |g.nodes|) && Hollow(g, cs[k])
    ensures SuggestAll(g, cs, k, added).mandatory
  {
    assert g.nodes[cs[k]] == g.nodes[cs[k]..cs[k] + 3][0];
  }

  /** At the end of the tokens a list with such a choice parses, and is not recognised; a leaf that
      accepts the last token leads there. */
  lemma DisagreeAtEndOfTokens(kw: KeywordSets, toks: seq<string>)
    ensures var g := Grammar(kw, [List("", [1]), Choice([2]), Optional(3), Choice([])]);
            && (exists o :: Derives(g, One(0), toks, |toks|, o) && o.result.Matched?)
            && (exists r :: Recognises(g, 0, toks, State(|toks|, {}), r) && r.answer.Fail?)
  {
    var g := Grammar(kw, [List("", [1]), Choice([2]), Optional(3), Choice([])]);
    var e := |toks|;
    HollowMatches(g, 1, toks, e);
    assert Eval(g, 6, All([1], 1), toks, e) == Some(Outcome(toks, Matched(e, [])));
    assert Eval(g, 7, All([1], 0), toks, e).Some?;
    StepUp(g, 8, One(0), toks, e, Eval(g, 8, One(0), toks, e).value);
    var s := State(e, {});
    HollowIsMandatory(g, [1], 0, {});
    var r := Recognise(g, 2, One(0), toks, s, s).value;
    assert Recognises(g, 0, toks, s, r);
  }

  lemma AcceptedLastTokenSplits(kw: KeywordSets, leaf: Matcher, toks: seq<string>)
    requires toks != [] && leaf.IsLeaf() && LeafVerdict(kw, leaf, toks[|toks| - 1]) == Accept
    ensures var g := Grammar(kw, [List("", [1, 2]), leaf, Choice([3]), Optional(4), Choice([])]);
            !SameAnswers(g, 0, toks, State(|toks| - 1, {}))
  {
    var g := Grammar(kw, [List("", [1, 2]), leaf, Choice([3]), Optional(4), Choice([])]);
    var i, e := |toks| - 1, |toks|;
    var a := LeafOutcome(kw, leaf, toks, i);
    HollowMatches(g, 2, a.tokens, e);
    assert Eval(g, 6, All([1, 2], 2), a.tokens, e) == Some(Outcome(a.tokens, Matched(e, [])));
    assert Eval(g, 7, All([1, 2], 1), a.tokens, e).Some?;
    assert Eval(g, 7, One(1), toks, i) == Some(a);
    assert Eval(g, 8, All([1, 2], 0), toks, i).Some?;
    var o := Eval(g, 9, One(0), toks, i).value;
    StepUp(g, 9, One(0), toks, i, o);
    var s := State(i, {});
    HollowIsMandatory(g, [1, 2], 1, {});
    assert Recognise(g, 2, One(1), toks, s, s) == Some(Recognition(Success, State(e, {})));
    assert Recognise(g, 3, All([1, 2], 0), toks, s, s).value.answer.Exhausted?;
    var r := Recognise(g, 4, One(0), toks, s, s).value;
    assert Recognises(g, 0, toks, s, r);
    Differ(g, 0, toks, s, o, r);
  }

  /** Over a steady token vector, the answers agree in every graph of given leaves exactly when no
      leaf accepts the last token; only if, over any vector. */
  lemma AgreeExactlyBehindSentinel(kw: KeywordSets, leaves: iset<Matcher>, toks: seq<string>)
    requires toks != []
    ensures AlwaysSame(kw, leaves, toks) ==> NoneAccepts(kw, leaves, toks[|toks| - 1])
    ensures Steady(toks) ==> (AlwaysSame(kw, leaves, toks) <==> NoneAccepts(kw, leaves, toks[|toks| - 1]))
  {
    if NoneAccepts(kw, leaves, toks[|toks| - 1]) {
      if Steady(toks) {
        SentinelSuffices(kw, leaves, toks);
      }
    } else {
      var leaf :| leaf in leaves && leaf.IsLeaf() && LeafVerdict(kw, leaf, toks[|toks| - 1]) == Accept;
      var g := Grammar(kw, [List("", [1, 2]), leaf, Choice([3]), Optional(4), Choice([])]);
      AcceptedLastTokenSplits(kw, leaf, toks);
      assert BuiltOf(g, kw, leaves);
    }
  }

  // (Identifier nothing) / q: the failed alternative strips the token q that the second one wants.
  function StrippingGrammar(q: string, last: string): Grammar {
    Grammar(KeywordSets({Lower(last)}, {}, {}, {}),
            [Choice([1, 4]), List("", [2, 3]), Identifier(Variable), Choice([]), Keyword(q, 0, ' ')])
  }

  lemma StrippedTokenFails(q: string, last: string, toks: seq<string>, j: nat)
    requires j < |toks| && toks[j] == q && IsQuoted(q) && Lower(q) != Lower(last)
    ensures Derives(StrippingGrammar(q, last), One(0), toks, j, Outcome(toks[j := Unquote(q)], NoMatch))
  {
    var g := StrippingGrammar(q, last);
    var toks' := toks[j := Unquote(q)];
    var o := Outcome(toks', NoMatch);
    var node := g.nodes[2];
    assert LeafVerdict(g.keywords, node, q) == Accept;
    var a := LeafOutcome(g.keywords, node, toks, j);
    assert Eval(g, 2, One(2), toks, j) == Some(a) && a.tokens == toks';
    assert Eval(g, 1, Any([], 0), toks', j + 1) == Some(o);
    assert Eval(g, 2, One(3), toks', j + 1) == Some(o);
    assert Eval(g, 3, All([2, 3], 1), toks', j + 1) == Some(o);
    assert Eval(g, 3, One(2), toks, j) == Some(a);
    assert Eval(g, 4, All([2, 3], 0), toks, j) == Some(o);
    assert Eval(g, 5, One(1), toks, j) == Some(o);
    assert |Lower(q)| != |Lower(Unquote(q))|;
    assert LeafVerdict(g.keywords, g.nodes[4], Unquote(q)) == Reject;
    assert Eval(g, 4, One(4), toks', j) == Some(o);
    assert Eval(g, 4, Any([1, 4], 2), toks', j) == Some(o);
    assert Eval(g, 5, Any([1, 4], 1), toks', j) == Some(o);
    assert Eval(g, 6, Any([1, 4], 0), toks, j) == Some(o);
    StepUp(g, 7, One(0), toks, j, o);
  }

  lemma OriginalTokenSucceeds(q: string, last: string, toks: seq<string>, j: nat)
    requires j + 1 < |toks| && toks[j] == q && IsQuoted(q) && Lower(q) != Lower(last)
    ensures exists r :: Recognises(StrippingGrammar(q, last), 0, toks, State(j, {}), r) && r.answer.Success?
  {
    var g := StrippingGrammar(q, last);
    var s, s' := State(j, {}), State(j + 1, {});
    assert LeafVerdict(g.keywords, g.nodes[2], q) == Accept;
    assert Recognise(g, 3, One(2), toks, s, s) == Some(Recognition(Success, s'));
    assert Recognise(g, 1, Any([], 0), toks, s', s') == Some(Recognition(Fail, s'));
    assert Recognise(g, 2, One(3), toks, s', s') == Some(Recognition(Fail, s'));
    assert Recognise(g, 3, All([2, 3], 1), toks, s', s') == Some(Recognition(Fail, s'));
    assert Recognise(g, 4, All([2, 3], 0), toks, s, s) == Some(Recognition(Fail, s'));
    assert Recognise(g, 5, One(1), toks, s, s) == Some(Recognition(Fail, s));
    assert LeafVerdict(g.keywords, g.nodes[4], q) == Accept;
    assert Recognise(g, 4, One(4), toks, s, s) == Some(Recognition(Success, s'));
    assert Recognise(g, 5, Any([1, 4], 1), toks, s, s) == Some(Recognition(Success, s'));
    assert Recognise(g, 6, Any([1, 4], 0), toks, s, s) == Some(Recognition(Success, s'));
    var r := Recognise(g, 7, One(0), toks, s, s).value;
    assert Recognises(g, 0, toks, s, r);
  }

  /** A token vector has the same answers behind every sentinel exactly when it is steady. */
  lemma AgreeExactlyWhenSteady(toks: seq<string>)
    requires toks != []
    ensures Steady(toks) <==>
            forall kw: KeywordSets, leaves: iset<Matcher> ::
              NoneAccepts(kw, leaves, toks[|toks| - 1]) ==> AlwaysSame(kw, leaves, toks)
  {
    var last := toks[|toks| - 1];
    if Steady(toks) {
      forall kw: KeywordSets, leaves: iset<Matcher> | NoneAccepts(kw, leaves, last)
        ensures AlwaysSame(kw, leaves, toks)
      {
        SentinelSuffices(kw, leaves, toks);
      }
    } else {
      var j :| 0 <= j < |toks| && IsQuoted(toks[j]) && Lower(toks[j]) != Lower(last);
      var q := toks[j];
      var g := StrippingGrammar(q, last);
      var leaves := iset{g.nodes[2], g.nodes[4]};
      StrippedTokenFails(q, last, toks, j);
      OriginalTokenSucceeds(q, last, toks, j);
      var r :| Recognises(g, 0, toks, State(j, {}), r) && r.answer.Success?;
      Differ(g, 0, toks, State(j, {}), Outcome(toks[j := Unquote(q)], NoMatch), r);
      assert BuiltOf(g, g.keywords, leaves);
      assert NoneAccepts(g.keywords, leaves, last) && !AlwaysSame(g.keywords, leaves, toks);
    }
  }
}
