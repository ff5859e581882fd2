/** A parse tree has the shape of the matcher that made it. */
module TreeShapes {
  import opened Characters
  import opened Matchers
  import opened Peg

  // The tree is one of this matcher's: a list has a tree for each child, a choice says which alternative it
  // took, a repeat has at least one tree of its element.
  ghost predicate Shaped(g: Grammar, m: nat, t: ParseTree)
    requires g.Valid() && m < |g.nodes|
    decreases t
  {
    assert Below(g.nodes[m].Successors(), |g.nodes|);
    match g.nodes[m]
    case Keyword(_, _, _) => t.KeywordResult?
    case List(name, cs) =>
      && t.ListResult? && t.name == name && |t.children| == |cs|
      && forall j :: 0 <= j < |cs| ==> Shaped(g, cs[j], t.children[j])
    case Optional(c) =>
      assert g.nodes[m].Successors()[0] == c;
      t.OptionalResult? && (t.child.Some? ==> Shaped(g, c, t.child.value))
    case Choice(cs) => t.ChoiceResult? && t.index < |cs| && Shaped(g, cs[t.index], t.selected)
    case Repeat(c) =>
      assert g.nodes[m].Successors()[0] == c;
      t.RepeatResult? && t.children != [] && forall j :: 0 <= j < |t.children| ==> Shaped(g, c, t.children[j])
    case Identifier(_) => t.IdentifierResult?
    case ReservedIdentifier(_) => t.IdentifierResult?
    case StringLiteral => t.StringResult?
    case NumberLiteral => t.NumberResult?
    case Operator => t.OperatorResult?
    case ArithmeticOperator => t.OperatorResult?
  }

  // The trees of a goal that matched.
  ghost predicate GoalShaped(g: Grammar, goal: Goal, ts: seq<ParseTree>)
    requires g.Valid() && goal.In(g)
  {
    match goal
    case One(m) => |ts| == 1 && Shaped(g, m, ts[0])
    case All(cs, k) => |ts| == |cs| - k && forall j :: 0 <= j < |ts| ==> Shaped(g, cs[k + j], ts[j])
    case Any(cs, k) =>
      && |ts| == 1 && ts[0].ChoiceResult? && k <= ts[0].index < |cs|
      && Shaped(g, cs[ts[0].index], ts[0].selected)
    case More(m) => forall j :: 0 <= j < |ts| ==> Shaped(g, m, ts[j])
  }

  ghost function ShapeRelation(g: Grammar): Relation
    requires g.Valid()
  {
    (goal: Goal, toks: seq<string>, i: nat, o: Outcome) =>
      goal.In(g) && o.result.Matched? ==> GoalShaped(g, goal, o.result.trees)
  }

  lemma ShapeFollowed(g: Grammar, first: Goal, second: Goal, toks: seq<string>, i: nat, o: Outcome)
    requires g.Valid() && first.In(g) && second.In(g)
    requires Followed(ShapeRelation(g), first, second, toks, i, o)
    ensures o.result.Matched? ==>
              exists ts, us :: o.result.trees == ts + us && GoalShaped(g, first, ts) && GoalShaped(g, second, us)
  {
    var R := ShapeRelation(g);
    var a: Outcome :| R(first, toks, i, a) &&
      if a.result.Matched? then
        exists b: Outcome :: R(second, a.tokens, a.result.end, b) &&
          o == b.(result := Prepend(a.result.trees, b.result))
      else o == a;
    if a.result.Matched? {
      var b: Outcome :| R(second, a.tokens, a.result.end, b) &&
          o == b.(result := Prepend(a.result.trees, b.result));
      if b.result.Matched? {
        assert o.result.trees == a.result.trees + b.result.trees;
      }
    }
  }

  lemma ShapeSequence(g: Grammar, cs: seq<nat>, k: nat, toks: seq<string>, i: nat, o: Outcome)
    requires g.Valid() && All(cs, k).In(g) && Rule(g, ShapeRelation(g), All(cs, k), toks, i, o) && o.result.Matched?
    ensures GoalShaped(g, All(cs, k), o.result.trees)
  {
    hide Shaped, Followed;
    if k < |cs| {
      ShapeFollowed(g, One(cs[k]), All(cs, k + 1), toks, i, o);
      var ts, us :| o.result.trees == ts + us && GoalShaped(g, One(cs[k]), ts) && GoalShaped(g, All(cs, k + 1), us);
      ShapePrepended(g, cs, k, ts, us);
    }
  }

  lemma ShapePrepended(g: Grammar, cs: seq<nat>, k: nat, ts: seq<ParseTree>, us: seq<ParseTree>)
    requires g.Valid() && All(cs, k).In(g) && k < |cs|
    requires GoalShaped(g, One(cs[k]), ts) && GoalShaped(g, All(cs, k + 1), us)
    ensures GoalShaped(g, All(cs, k), ts + us)
  {
    hide Shaped;
    forall j | 0 <= j < |ts + us| ensures Shaped(g, cs[k + j], (ts + us)[j]) {
      assert j > 0 ==> Shaped(g, cs[k + 1 + (j - 1)], us[j - 1]);
    }
  }

  lemma ShapeRepeated(g: Grammar, m: nat, ts: seq<ParseTree>, us: seq<ParseTree>)
    requires g.Valid() && m < |g.nodes| && GoalShaped(g, One(m), ts) && GoalShaped(g, More(m), us)
    ensures GoalShaped(g, More(m), ts + us) && |ts + us| > 0
  {
    hide Shaped;
  }

  lemma ShapeMore(g: Grammar, m: nat, toks: seq<string>, i: nat, o: Outcome)
    requires g.Valid() && More(m).In(g) && Rule(g, ShapeRelation(g), More(m), toks, i, o) && o.result.Matched?
    ensures GoalShaped(g, More(m), o.result.trees)
  {
    hide Shaped, Followed;
    if Followed(ShapeRelation(g), One(m), More(m), toks, i, o) {
      ShapeFollowed(g, One(m), More(m), toks, i, o);
      var ts, us :| o.result.trees == ts + us && GoalShaped(g, One(m), ts) && GoalShaped(g, More(m), us);
      ShapeRepeated(g, m, ts, us);
    }
  }

  lemma ShapeChoice(g: Grammar, cs: seq<nat>, k: nat, toks: seq<string>, i: nat, o: Outcome)
    requires g.Valid() && Any(cs, k).In(g) && Rule(g, ShapeRelation(g), Any(cs, k), toks, i, o) && o.result.Matched?
    ensures GoalShaped(g, Any(cs, k), o.result.trees)
  {
    if k < |cs| {
      var R := ShapeRelation(g);
      var a: Outcome :| R(One(cs[k]), toks, i, a) &&
        if a.result.Matched? then o == Select(k, a)
        else if a.result.Raised? then o == a
        else R(Any(cs, k + 1), a.tokens, i, o);
    }
  }

  lemma ShapeNode(g: Grammar, m: nat, toks: seq<string>, i: nat, o: Outcome)
    requires g.Valid() && m < |g.nodes| && NodeRule(g, ShapeRelation(g), g.nodes[m], toks, i, o) && o.result.Matched?
    ensures GoalShaped(g, One(m), o.result.trees)
  {
    var R, node := ShapeRelation(g), g.nodes[m];
    assert Below(node.Successors(), |g.nodes|);
    match node
    case List(_, cs) =>
      var a: Outcome :| R(All(cs, 0), toks, i, a) && o == Bundle(node, a);
      assert GoalShaped(g, All(cs, 0), a.result.trees);
      assert forall j :: 0 <= j < |cs| ==> cs[0 + j] == cs[j];
    case Optional(c) =>
      assert node.Successors()[0] == c;
      var a: Outcome :| R(One(c), toks, i, a) && o == Settle(i, a);
      assert a.result.Matched? ==> GoalShaped(g, One(c), a.result.trees);
      assert Shaped(g, m, o.result.trees[0]);
    case Choice(cs) =>
      assert GoalShaped(g, Any(cs, 0), o.result.trees);
      assert Shaped(g, m, o.result.trees[0]);
    case Repeat(c) =>
      assert node.Successors()[0] == c;
      var a: Outcome :| Followed(R, One(c), More(c), toks, i, a) && o == Bundle(node, a);
      ShapeFollowed(g, One(c), More(c), toks, i, a);
      var ts, us :| a.result.trees == ts + us && GoalShaped(g, One(c), ts) && GoalShaped(g, More(c), us);
      ShapeRepeated(g, c, ts, us);
    case _ =>
  }

  lemma ShapeClosed(g: Grammar)
    requires g.Valid()
    ensures Closed(g, ShapeRelation(g))
  {
    hide Followed, NodeRule, GoalShaped;
    var R := ShapeRelation(g);
    forall goal: Goal, toks: seq<string>, i: nat, o: Outcome | goal.In(g) && Rule(g, R, goal, toks, i, o)
      ensures R(goal, toks, i, o)
    {
      if o.result.Matched? {
        match goal
        case One(m) => ShapeNode(g, m, toks, i, o);
        case All(cs, k) => ShapeSequence(g, cs, k, toks, i, o);
        case Any(cs, k) => ShapeChoice(g, cs, k, toks, i, o);
        case More(m) => ShapeMore(g, m, toks, i, o);
      }
    }
  }

  /** What a matcher returns is one tree of its own shape, all the way down: the names of lists, the number
      of their children, the numbers of the alternatives taken and the kinds of the leaves are those of the
      grammar. */
  lemma TreeHasShape(g: Grammar, m: nat, toks: seq<string>, i: nat, o: Outcome)
    requires Derives(g, One(m), toks, i, o) && o.result.Matched?
    ensures |o.result.trees| == 1 && Shaped(g, m, o.result.trees[0])
  {
    ShapeClosed(g);
    DerivesLeast(g, ShapeRelation(g), One(m), toks, i, o);
    assert ShapeRelation(g)(One(m), toks, i, o);
  }
}
