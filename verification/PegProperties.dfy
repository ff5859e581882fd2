/** What every derivation guarantees. */
module PegProperties {
  import opened Characters
  import opened Matchers
  import opened Peg

  // ----- Bounds and the token vector -----

  // t' is t with some outer quotes stripped, possibly repeatedly.
  ghost predicate Strips(t: string, t': string)
    decreases |t|
  {
    t == t' || (IsQuoted(t) && Strips(Unquote(t), t'))
  }

  lemma {:induction false} StripsTransitive(t: string, u: string, v: string)
    requires Strips(t, u) && Strips(u, v)
    ensures Strips(t, v)
    decreases |t|
  {
    if t != u {
      StripsTransitive(Unquote(t), u, v);
    }
  }

  // Only tokens from i on change, and only by losing quotes; a match ends between its start and
  // the end of the tokens; a single matcher yields a single tree.
  ghost predicate Sound(goal: Goal, toks: seq<string>, i: nat, o: Outcome) {
    i <= |toks| ==>
      && |o.tokens| == |toks|
      && (forall j :: 0 <= j < i ==> o.tokens[j] == toks[j])
      && (forall j :: i <= j < |toks| ==> Strips(toks[j], o.tokens[j]))
      && (o.result.Matched? ==> i <= o.result.end <= |toks|)
      && (o.result.Matched? && (goal.One? || goal.Any?) ==> |o.result.trees| == 1)
  }

  ghost function SoundRelation(): Relation {
    (goal: Goal, toks: seq<string>, i: nat, o: Outcome) => Sound(goal, toks, i, o)
  }

  lemma SoundThen(first: Goal, second: Goal, toks: seq<string>, i: nat, a: Outcome, b: Outcome)
    requires i <= |toks| && Sound(first, toks, i, a) && a.result.Matched?
    requires Sound(second, a.tokens, a.result.end, b)
    ensures |b.tokens| == |toks|
    ensures forall j :: 0 <= j < i ==> b.tokens[j] == toks[j]
    ensures forall j :: i <= j < |toks| ==> Strips(toks[j], b.tokens[j])
    ensures b.result.Matched? ==> i <= b.result.end <= |toks|
  {
    forall j | i <= j < |toks| ensures Strips(toks[j], b.tokens[j]) {
      if j >= a.result.end {
        StripsTransitive(toks[j], a.tokens[j], b.tokens[j]);
      }
    }
  }

  lemma SoundFollowed(first: Goal, second: Goal, toks: seq<string>, i: nat, o: Outcome)
    requires i <= |toks| && Followed(SoundRelation(), first, second, toks, i, o)
    requires !second.One? && !second.Any?
    ensures Sound(second, toks, i, o)
  {
    var R := SoundRelation();
    var a: Outcome :| R(first, toks, i, a) &&
      if a.result.Matched? then
        exists b: Outcome :: R(second, a.tokens, a.result.end, b) &&
          o == b.(result := Prepend(a.result.trees, b.result))
      else o == a;
    if a.result.Matched? {
      var b: Outcome :| R(second, a.tokens, a.result.end, b) &&
          o == b.(result := Prepend(a.result.trees, b.result));
      SoundThen(first, second, toks, i, a, b);
    }
  }

  lemma SoundClosed(g: Grammar)
    requires g.Valid()
    ensures Closed(g, SoundRelation())
  {
    var R := SoundRelation();
    forall goal: Goal, toks: seq<string>, i: nat, o: Outcome | goal.In(g) && Rule(g, R, goal, toks, i, o)
      ensures R(goal, toks, i, o)
    {
      if i <= |toks| {
        match goal
        case One(m) => SoundNode(g, m, toks, i, o);
        case All(cs, k) =>
          if k < |cs| {
            SoundFollowed(One(cs[k]), All(cs, k + 1), toks, i, o);
          }
        case Any(cs, k) =>
          if k < |cs| {
            SoundChoice(g, cs, k, toks, i, o);
          }
        case More(m) =>
          if Followed(R, One(m), More(m), toks, i, o) {
            SoundFollowed(One(m), More(m), toks, i, o);
          }
      }
    }
  }

  lemma SoundNode(g: Grammar, m: nat, toks: seq<string>, i: nat, o: Outcome)
    requires g.Valid() && One(m).In(g) && i <= |toks|
    requires NodeRule(g, SoundRelation(), g.nodes[m], toks, i, o)
    ensures Sound(One(m), toks, i, o)
  {
    var R := SoundRelation();
    var node := g.nodes[m];
    match node
    case List(_, cs) =>
    case Optional(c) =>
    case Choice(cs) =>
    case Repeat(c) =>
      var a: Outcome :| Followed(R, One(c), More(c), toks, i, a) && o == Bundle(node, a);
      SoundFollowed(One(c), More(c), toks, i, a);
    case _ =>
      if i < |toks| {
        assert Strips(toks[i], LeafRewrite(node, toks[i]));
      }
  }

  lemma SoundChoice(g: Grammar, cs: seq<nat>, k: nat, toks: seq<string>, i: nat, o: Outcome)
    requires g.Valid() && Any(cs, k).In(g) && k < |cs| && i <= |toks|
    requires Rule(g, SoundRelation(), Any(cs, k), toks, i, o)
    ensures Sound(Any(cs, k), toks, i, o)
  {
    var R := SoundRelation();
    var a: Outcome :| R(One(cs[k]), toks, i, a) &&
      if a.result.Matched? then o == Select(k, a)
      else if a.result.Raised? then o == a
      else R(Any(cs, k + 1), a.tokens, i, o);
    if a.result.NoMatch? {
      forall j | i <= j < |toks| ensures Strips(toks[j], o.tokens[j]) {
        StripsTransitive(toks[j], a.tokens[j], o.tokens[j]);
      }
    }
  }

  lemma DerivationSound(g: Grammar, goal: Goal, toks: seq<string>, i: nat, o: Outcome)
    requires Derives(g, goal, toks, i, o)
    ensures Sound(goal, toks, i, o)
  {
    SoundClosed(g);
    DerivesLeast(g, SoundRelation(), goal, toks, i, o);
  }

  ghost predicate Unquoted(toks: seq<string>) {
    forall j :: 0 <= j < |toks| ==> !IsQuoted(toks[j])
  }

  /** Without double-quoted tokens, matching -- backtracking included -- leaves the token vector
      alone, so every alternative is tried on the tokens the query came with. */
  lemma TokensUntouched(g: Grammar, goal: Goal, toks: seq<string>, i: nat, o: Outcome)
    requires Derives(g, goal, toks, i, o) && i <= |toks| && Unquoted(toks)
    ensures o.tokens == toks
  {
    DerivationSound(g, goal, toks, i, o);
    forall j | 0 <= j < |toks| ensures o.tokens[j] == toks[j] {
      assert j >= i ==> Strips(toks[j], o.tokens[j]);
    }
  }

  // Every derivation over these tokens, in any grammar, from any start, leaves them as they are.
  ghost predicate LeftAlone(toks: seq<string>) {
    forall g: Grammar, goal: Goal, i: nat, o: Outcome ::
      i <= |toks| && Derives(g, goal, toks, i, o) ==> o.tokens == toks
  }

  /** And exactly those: an identifier strips any double-quoted token, with no keywords in the way. */
  lemma LeftAloneExactlyUnquoted(toks: seq<string>)
    ensures LeftAlone(toks) <==> Unquoted(toks)
  {
    if Unquoted(toks) {
      forall g: Grammar, goal: Goal, i: nat, o: Outcome | i <= |toks| && Derives(g, goal, toks, i, o)
        ensures o.tokens == toks
      {
        TokensUntouched(g, goal, toks, i, o);
      }
    } else {
      var j :| 0 <= j < |toks| && IsQuoted(toks[j]);
      var g := Grammar(KeywordSets({}, {}, {}, {}), [Identifier(Variable)]);
      var o := LeafOutcome(g.keywords, g.nodes[0], toks, j);
      StepUp(g, 1, One(0), toks, j, o);
      assert |o.tokens[j]| < |toks[j]|;
    }
  }

  // An alternative that fails after accepting a quoted identifier: (Identifier 'x') / 'select'.
  function BacktrackingGrammar(): Grammar {
    Grammar(KeywordSets({"select"}, {}, {}, {}),
            [Choice([1, 4]), List("", [2, 3]), Identifier(Variable), Keyword("x", 0, ' '), Keyword("select", 0, ' ')])
  }

  /** With a double-quoted token it need not: the failed first alternative has unquoted the token,
      and the second one now matches it as a keyword, which it does not on the original tokens. */
  lemma BacktrackingSeesStrippedToken()
    ensures BacktrackingGrammar().Valid()
    ensures exists o :: Derives(BacktrackingGrammar(), One(0), ["\"select\""], 0, o) && o.result.Matched?
    ensures Derives(BacktrackingGrammar(), One(4), ["\"select\""], 0, Outcome(["\"select\""], NoMatch))
  {
    var g := BacktrackingGrammar();
    var quoted, bare := "\"select\"", "select";
    var toks, toks' := [quoted], [bare];
    assert Lower(quoted)[0] == '"';
    assert Lower("select")[0] == 's';
    assert Lower(quoted) !in g.keywords.reserved by {
      assert |Lower(quoted)| == 8;
    }
    assert Unquote(quoted) == bare;
    var node := g.nodes[2];
    assert LeafVerdict(g.keywords, node, quoted) == Accept;
    assert toks[0 := LeafRewrite(node, quoted)] == toks';
    var a := Outcome(toks', Matched(1, [IdentifierResult(bare)]));
    assert Eval(g, 1, One(2), toks, 0) == Some(a);
    assert Eval(g, 1, One(3), toks', 1) == Some(Outcome(toks', NoMatch));
    assert Eval(g, 2, All([2, 3], 1), toks', 1) == Some(Outcome(toks', NoMatch));
    assert Eval(g, 3, All([2, 3], 0), toks, 0) == Some(Outcome(toks', NoMatch)) by {
      FuelMonotone(g, 1, 2, One(2), toks, 0);
    }
    assert Eval(g, 4, One(1), toks, 0) == Some(Outcome(toks', NoMatch));
    assert LeafVerdict(g.keywords, g.nodes[4], quoted) == Reject;
    assert LeafVerdict(g.keywords, g.nodes[4], bare) == Accept;
    var b := Outcome(toks', Matched(1, [KeywordResult(bare)]));
    assert toks'[0 := bare] == toks';
    assert Eval(g, 1, One(4), toks', 0) == Some(b);
    assert Eval(g, 4, Any([1, 4], 1), toks', 0) == Some(Select(1, b)) by {
      FuelMonotone(g, 1, 3, One(4), toks', 0);
    }
    assert Eval(g, 5, Any([1, 4], 0), toks, 0) == Some(Select(1, b));
    StepUp(g, 6, One(0), toks, 0, Select(1, b));
    StepUp(g, 1, One(4), toks, 0, Outcome(toks, NoMatch));
  }

  // ----- A parse tree spells the tokens it covers -----

  function Leaves(t: ParseTree): seq<ParseTree> {
    match t
    case ListResult(_, ts) => LeavesOfAll(ts)
    case RepeatResult(ts) => LeavesOfAll(ts)
    case OptionalResult(Some(c)) => Leaves(c)
    case OptionalResult(None) => []
    case ChoiceResult(c, _) => Leaves(c)
    case _ => [t]
  }

  function LeavesOfAll(ts: seq<ParseTree>): seq<ParseTree> {
    if ts == [] then [] else Leaves(ts[0]) + LeavesOfAll(ts[1..])
  }

  lemma {:induction false} LeavesOfAppend(ts: seq<ParseTree>, us: seq<ParseTree>)
    ensures LeavesOfAll(ts + us) == LeavesOfAll(ts) + LeavesOfAll(us)
  {
    if ts == [] {
      assert ts + us == us;
    } else {
      assert (ts + us)[1..] == ts[1..] + us;
      LeavesOfAppend(ts[1..], us);
    }
  }

  lemma LeavesOfOne(t: ParseTree)
    ensures LeavesOfAll([t]) == Leaves(t)
  {
    assert [t][1..] == [];
  }

  // A string literal's leaf carries the text between the quotes; every other leaf the token.
  predicate Spells(leaf: ParseTree, token: string) {
    match leaf
    case StringResult(text) => token == "'" + text + "'"
    case KeywordResult(text) => text == token
    case IdentifierResult(text) => text == token
    case NumberResult(text) => text == token
    case OperatorResult(text) => text == token
    case _ => false
  }

  ghost predicate SpelledOut(leaves: seq<ParseTree>, toks: seq<string>, i: nat, e: nat) {
    i <= e <= |toks| && |leaves| == e - i && forall j :: 0 <= j < |leaves| ==> Spells(leaves[j], toks[i + j])
  }

  ghost predicate Spelling(goal: Goal, toks: seq<string>, i: nat, o: Outcome) {
    Sound(goal, toks, i, o) &&
    (i <= |toks| && o.result.Matched? ==> SpelledOut(LeavesOfAll(o.result.trees), o.tokens, i, o.result.end))
  }

  ghost function SpellingRelation(): Relation {
    (goal: Goal, toks: seq<string>, i: nat, o: Outcome) => Spelling(goal, toks, i, o)
  }

  lemma SpellingThen(first: Goal, second: Goal, toks: seq<string>, i: nat, a: Outcome, b: Outcome)
    requires i <= |toks| && a.result.Matched? && !second.One? && !second.Any?
    requires Spelling(first, toks, i, a) && Spelling(second, a.tokens, a.result.end, b)
    ensures Spelling(second, toks, i, b.(result := Prepend(a.result.trees, b.result)))
  {
    SoundThen(first, second, toks, i, a, b);
    if b.result.Matched? {
      LeavesOfAppend(a.result.trees, b.result.trees);
    }
  }

  lemma SpellingFollowed(first: Goal, second: Goal, toks: seq<string>, i: nat, o: Outcome)
    requires i <= |toks| && Followed(SpellingRelation(), first, second, toks, i, o)
    requires !second.One? && !second.Any?
    ensures Spelling(second, toks, i, o)
  {
    var R := SpellingRelation();
    var a: Outcome :| R(first, toks, i, a) &&
      if a.result.Matched? then
        exists b: Outcome :: R(second, a.tokens, a.result.end, b) &&
          o == b.(result := Prepend(a.result.trees, b.result))
      else o == a;
    if a.result.Matched? {
      var b: Outcome :| R(second, a.tokens, a.result.end, b) &&
          o == b.(result := Prepend(a.result.trees, b.result));
      SpellingThen(first, second, toks, i, a, b);
    }
  }

  lemma SpellingBundle(goal: Goal, m: nat, node: Matcher, toks: seq<string>, i: nat, a: Outcome)
    requires node.List? || node.Repeat?
    requires i <= |toks| && Spelling(goal, toks, i, a)
    ensures Spelling(One(m), toks, i, Bundle(node, a))
  {
    if a.result.Matched? {
      LeavesOfOne(Bundle(node, a).result.trees[0]);
    }
  }

  lemma SpellingOptional(c: nat, m: nat, toks: seq<string>, i: nat, a: Outcome)
    requires i <= |toks| && Spelling(One(c), toks, i, a)
    ensures Spelling(One(m), toks, i, Settle(i, a))
  {
    var o := Settle(i, a);
    if o.result.Matched? {
      LeavesOfOne(o.result.trees[0]);
      if a.result.Matched? {
        LeavesOfOne(a.result.trees[0]);
        assert a.result.trees == [a.result.trees[0]];
      }
    }
  }

  lemma SpellingLeaf(kw: KeywordSets, m: nat, node: Matcher, toks: seq<string>, i: nat)
    requires node.IsLeaf() && i <= |toks|
    ensures Spelling(One(m), toks, i, LeafOutcome(kw, node, toks, i))
  {
    var o := LeafOutcome(kw, node, toks, i);
    if i < |toks| {
      assert Strips(toks[i], LeafRewrite(node, toks[i]));
    }
    if o.result.Matched? {
      LeavesOfOne(o.result.trees[0]);
      assert Spells(LeafTree(node, toks[i]), o.tokens[i]);
    }
  }

  lemma SpellingNode(g: Grammar, m: nat, toks: seq<string>, i: nat, o: Outcome)
    requires g.Valid() && One(m).In(g) && i <= |toks|
    requires NodeRule(g, SpellingRelation(), g.nodes[m], toks, i, o)
    ensures Spelling(One(m), toks, i, o)
  {
    var R := SpellingRelation();
    var node := g.nodes[m];
    match node
    case List(_, cs) =>
      var a: Outcome :| R(All(cs, 0), toks, i, a) && o == Bundle(node, a);
      SpellingBundle(All(cs, 0), m, node, toks, i, a);
    case Optional(c) =>
      var a: Outcome :| R(One(c), toks, i, a) && o == Settle(i, a);
      SpellingOptional(c, m, toks, i, a);
    case Choice(cs) =>
      assert R(Any(cs, 0), toks, i, o);
    case Repeat(c) =>
      var a: Outcome :| Followed(R, One(c), More(c), toks, i, a) && o == Bundle(node, a);
      SpellingFollowed(One(c), More(c), toks, i, a);
      SpellingBundle(More(c), m, node, toks, i, a);
    case _ => SpellingLeaf(g.keywords, m, node, toks, i);
  }

  lemma SpellingChoice(g: Grammar, cs: seq<nat>, k: nat, toks: seq<string>, i: nat, o: Outcome)
    requires g.Valid() && Any(cs, k).In(g) && i <= |toks|
    requires Rule(g, SpellingRelation(), Any(cs, k), toks, i, o)
    ensures Sound(Any(cs, k), toks, i, o) ==> Spelling(Any(cs, k), toks, i, o)
  {
    if k < |cs| {
      var R := SpellingRelation();
      var a: Outcome :| R(One(cs[k]), toks, i, a) &&
        if a.result.Matched? then o == Select(k, a)
        else if a.result.Raised? then o == a
        else R(Any(cs, k + 1), a.tokens, i, o);
      if a.result.Matched? {
        LeavesOfOne(a.result.trees[0]);
        LeavesOfOne(o.result.trees[0]);
        assert a.result.trees == [a.result.trees[0]];
      }
    }
  }

  lemma SpellingClosed(g: Grammar)
    requires g.Valid()
    ensures Closed(g, SpellingRelation())
  {
    var R := SpellingRelation();
    forall goal: Goal, toks: seq<string>, i: nat, o: Outcome | goal.In(g) && Rule(g, R, goal, toks, i, o)
      ensures R(goal, toks, i, o)
    {
      assert Rule(g, SoundRelation(), goal, toks, i, o) by {
        RuleMonotone(g, R, SoundRelation(), goal, toks, i, o);
      }
      SoundClosed(g);
      assert SoundRelation()(goal, toks, i, o);
      if i <= |toks| {
        match goal
        case One(m) => SpellingNode(g, m, toks, i, o);
        case All(cs, k) =>
          if k < |cs| {
            SpellingFollowed(One(cs[k]), All(cs, k + 1), toks, i, o);
          }
        case Any(cs, k) => SpellingChoice(g, cs, k, toks, i, o);
        case More(m) =>
          if Followed(R, One(m), More(m), toks, i, o) {
            SpellingFollowed(One(m), More(m), toks, i, o);
          }
      }
    }
  }

  // The rules only use what they are told positively.
  lemma RuleMonotone(g: Grammar, R: Relation, S: Relation, goal: Goal, toks: seq<string>, i: nat, o: Outcome)
    requires g.Valid() && goal.In(g) && Rule(g, R, goal, toks, i, o)
    requires forall goal: Goal, toks: seq<string>, i: nat, o: Outcome :: R(goal, toks, i, o) ==> S(goal, toks, i, o)
    ensures Rule(g, S, goal, toks, i, o)
  {
    if goal.One? && g.nodes[goal.m].Repeat? {
      var c := g.nodes[goal.m].element;
      var a: Outcome :| Followed(R, One(c), More(c), toks, i, a) && o == Bundle(g.nodes[goal.m], a);
      assert Followed(S, One(c), More(c), toks, i, a);
    }
  }

  /** The leaves of a successful parse, left to right, are exactly the tokens between its start and
      its end, as the token vector stands when it succeeds. */
  lemma TreeSpellsTokens(g: Grammar, m: nat, toks: seq<string>, i: nat, o: Outcome)
    requires Derives(g, One(m), toks, i, o) && i <= |toks| && o.result.Matched?
    ensures i <= o.result.end <= |toks| == |o.tokens|
    ensures |o.result.trees| == 1
    ensures SpelledOut(Leaves(o.result.trees[0]), o.tokens, i, o.result.end)
    ensures Unquoted(toks) ==> SpelledOut(Leaves(o.result.trees[0]), toks, i, o.result.end)
  {
    SpellingClosed(g);
    DerivesLeast(g, SpellingRelation(), One(m), toks, i, o);
    assert SpellingRelation()(One(m), toks, i, o);
    assert o.result.trees == [o.result.trees[0]];
    LeavesOfOne(o.result.trees[0]);
    if Unquoted(toks) {
      TokensUntouched(g, One(m), toks, i, o);
    }
  }
}
