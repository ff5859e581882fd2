/** The stack machine builds what the rule bodies mean. */
module GrammarCorrectness {
  import opened Characters
  import opened Matchers
  import opened GrammarCompiler
  import opened GrammarMeaning

  // ----- Well-formed grammars -----

  // A bare reference to the rule's own parameter.
  predicate IsParameter(rule: PegRule, it: Item) {
    match it
    case RuleRef(name) => name in rule.parameters
    case Not(it') => IsParameter(rule, it')
    case _ => false
  }

  // Every reference leads to a known matcher or a rule without parameters, every call to a rule with
  // one parameter, and no choice starts with the bare parameter.
  predicate GoodItem(src: Source, known: set<string>, key: string, it: Item)
    requires key in src.rules
  {
    match it
    case Word(_) => true
    case RuleRef(name) =>
      name in src.rules[key].parameters || name in known ||
      (Lower(name) in src.bodies && Lower(name) in src.rules && src.rules[Lower(name)].parameters == [])
    case Call(name, args) =>
      name != "" && Lower(name) in src.bodies && Lower(name) in src.rules && |src.rules[Lower(name)].parameters| == 1 &&
      forall t :: t in args ==> GoodTerm(src, known, key, t)
    case Group(body) => forall t :: t in body ==> GoodTerm(src, known, key, t)
    case Not(it') => GoodItem(src, known, key, it')
  }

  predicate GoodTerm(src: Source, known: set<string>, key: string, t: Term)
    requires key in src.rules
  {
    match t
    case Atom(it) => GoodItem(src, known, key, it)
    case Alternatives(first, rest) =>
      && !first.Alternatives? && rest != []
      && !(first.Atom? && IsParameter(src.rules[key], first.item))
      && GoodTerm(src, known, key, first)
      && forall it :: it in rest ==> GoodItem(src, known, key, it)
    case Maybe(t') => GoodTerm(src, known, key, t')
    case Many(t') => GoodTerm(src, known, key, t')
  }

  // The rules that have a body are well formed. A rule without one, such as a regular expression, may
  // be there too, as long as no reference or call leads to it: an override must cover its name.
  ghost predicate Good(src: Source, known: set<string>) {
    src.o.Orders(src.rules) &&
    forall key :: key in src.bodies ==>
      && key in src.rules && src.rules[key].tokens == BodyTokens(src.bodies[key])
      && |src.rules[key].parameters| <= 1
      && forall t :: t in src.bodies[key] ==> GoodTerm(src, known, key, t)
  }

  // The rules with one more, of any tokens, which no body stands for.
  function WithRule(src: Source, key: string, rule: PegRule): Source {
    src.(rules := src.rules[key := rule])
  }

  lemma {:induction false} GoodItemWithRule(src: Source, known: set<string>, key: string, rule: PegRule, at: string,
                                            it: Item)
    requires key !in src.bodies && at in src.rules && at != key && GoodItem(src, known, at, it)
    ensures GoodItem(WithRule(src, key, rule), known, at, it)
    decreases it
  {
    match it
    case Call(_, args) =>
      forall t | t in args ensures GoodTerm(WithRule(src, key, rule), known, at, t) {
        GoodTermWithRule(src, known, key, rule, at, t);
      }
    case Group(body) =>
      forall t | t in body ensures GoodTerm(WithRule(src, key, rule), known, at, t) {
        GoodTermWithRule(src, known, key, rule, at, t);
      }
    case Not(it') => GoodItemWithRule(src, known, key, rule, at, it');
    case _ =>
  }

  lemma {:induction false} GoodTermWithRule(src: Source, known: set<string>, key: string, rule: PegRule, at: string,
                                            t: Term)
    requires key !in src.bodies && at in src.rules && at != key && GoodTerm(src, known, at, t)
    ensures GoodTerm(WithRule(src, key, rule), known, at, t)
    decreases t
  {
    match t
    case Atom(it) => GoodItemWithRule(src, known, key, rule, at, it);
    case Alternatives(first, rest) =>
      GoodTermWithRule(src, known, key, rule, at, first);
      forall it | it in rest ensures GoodItem(WithRule(src, key, rule), known, at, it) {
        GoodItemWithRule(src, known, key, rule, at, it);
      }
    case Maybe(t') => GoodTermWithRule(src, known, key, rule, at, t');
    case Many(t') => GoodTermWithRule(src, known, key, rule, at, t');
  }

  /** Rules that an override covers, or that are never reached, may hold anything, regular expressions
      too: the grammar stays good. */
  lemma GoodWithRule(src: Source, known: set<string>, key: string, rule: PegRule)
    requires Good(src, known) && key !in src.bodies && src.o.Admits(key, rule, rule.tokens)
    ensures Good(WithRule(src, key, rule), known)
  {
    forall at, t | at in src.bodies && t in src.bodies[at]
      ensures GoodTerm(WithRule(src, key, rule), known, at, t)
    {
      GoodTermWithRule(src, known, key, rule, at, t);
    }
  }

  // ----- What one stretch of building does to the store -----

  ghost predicate NewComplete(src: Source, f: Factory, f': Factory) {
    forall name :: name in f'.cache && name !in f.cache ==>
      Complete(src, f', Plus(NoRegion(), |f.nodes|, |f'.nodes|), name)
  }

  // Existing matchers other than top are left alone, and every newly cached rule is complete.
  ghost predicate Builds(src: Source, f: Factory, f': Factory, top: nat) {
    && f'.Valid() && Grows(f, f')
    && (forall j :: 0 <= j < |f.nodes| && j != top ==> f'.nodes[j] == f.nodes[j])
    && NewComplete(src, f, f')
  }

  lemma BuildsThen(src: Source, f: Factory, f1: Factory, f2: Factory, top: nat, top': nat)
    requires Builds(src, f, f1, top) && Builds(src, f1, f2, top')
    requires f1.cache == f.cache || top' < |f.nodes| || top' >= |f1.nodes|
    requires top' == top || top' >= |f.nodes|
    ensures Builds(src, f, f2, top)
  {
    var r := Plus(NoRegion(), |f.nodes|, |f2.nodes|);
    forall name | name in f2.cache && name !in f.cache
      ensures Complete(src, f2, r, name)
    {
      var shape := ListShape(name, BodyShapes(src, Lower(name), None, src.bodies[Lower(name)]));
      if name in f1.cache {
        assert Complete(src, f1, Plus(NoRegion(), |f.nodes|, |f1.nodes|), name);
        ShowsFrozen(f1, f2, Plus(NoRegion(), |f.nodes|, |f1.nodes|), r, f1.cache[name], shape);
      } else {
        ShowsFrozen(f2, f2, Plus(NoRegion(), |f1.nodes|, |f2.nodes|), r, f2.cache[name], shape);
      }
    }
  }

  // Cached matchers are never choices, so a reference never looks like one.
  ghost predicate Settled(f: Factory)
    requires f.Valid()
  {
    && (forall name :: name in f.cache ==> !f.nodes[f.cache[name]].Choice?)
    && (forall word :: word in f.overrides ==> f.nodes[f.overrides[word]].Keyword?)
  }

  lemma SettledKept(src: Source, f: Factory, f': Factory, top: nat)
    requires f.Valid() && Settled(f) && Builds(src, f, f', top)
    requires top < |f.nodes| ==>
               || (f.nodes[top].List? && f'.nodes[top].List?)
               || (f.nodes[top].Choice? && f'.nodes[top].Choice?)
    ensures Settled(f')
  {
    forall name | name in f'.cache ensures !f'.nodes[f'.cache[name]].Choice? {
      if name !in f.cache {
        assert Complete(src, f', Plus(NoRegion(), |f.nodes|, |f'.nodes|), name);
      }
    }
  }

  // ----- Where a stretch of building takes place -----

  // The rule being read, the meaning of its parameter with the region its matchers lie in, and the
  // number of matchers there were when the rule was begun.
  datatype Scope = Scope(frame: Frame, env: Option<Shape>, region: Region, base: nat)

  ghost predicate InScope(src: Source, sc: Scope, f: Factory) {
    && sc.frame.key in src.rules && sc.base <= |f.nodes|
    && (forall j: nat :: sc.region(j) ==> j < sc.base)
    && (if sc.frame.parameters == [] then sc.env == None
        else sc.env.Some? && Shows(f, sc.region, sc.frame.parameters[0], sc.env.value))
  }

  ghost predicate On(src: Source, known: set<string>, sc: Scope, m: Machine) {
    && Good(src, known) && Ready(src.rules, src.o, sc.frame, m)
    && InScope(src, sc, m.factory) && Settled(m.factory)
    && (forall name :: name in known ==> name in m.factory.cache)
    && sc.base <= m.Top()
  }

  ghost predicate Accepts(m: Machine)
    requires m.Valid()
  {
    var top := m.factory.nodes[m.Top()];
    top.List? || (top.Choice? && |m.stack| > 1)
  }

  // The conditions of a stretch hold again after it, above the same or a new container.
  lemma StillOn(src: Source, known: set<string>, sc: Scope, m: Machine, m': Machine, top: nat)
    requires On(src, known, sc, m) && Builds(src, m.factory, m'.factory, top)
    requires sc.base <= top
    requires top < |m.factory.nodes| ==>
      (m.factory.nodes[top].List? && m'.factory.nodes[top].List?) ||
        (m.factory.nodes[top].Choice? && m'.factory.nodes[top].Choice?)
    requires m'.Valid() && src.o.AdmitsStack(sc.frame.key, src.rules[sc.frame.key], m'.stack) && sc.base <= m'.Top()
    ensures On(src, known, sc, m')
  {
    SettledKept(src, m.factory, m'.factory, top);
    if sc.frame.parameters != [] {
      ShowsFrozen(m.factory, m'.factory, sc.region, sc.region, sc.frame.parameters[0], sc.env.value);
    }
  }

  // ----- Runs -----

  lemma {:induction false} RunAppend(rules: Rules, o: Order, frame: Frame, m: Machine, a: seq<PegToken>,
                                     b: seq<PegToken>)
    requires Ready(rules, o, frame, m) && o.Admits(frame.key, rules[frame.key], a) &&
             o.Admits(frame.key, rules[frame.key], b)
    requires Run(rules, o, frame, m, a).Ok?
    ensures o.Admits(frame.key, rules[frame.key], a + b)
    ensures Run(rules, o, frame, m, a + b) == Run(rules, o, frame, Run(rules, o, frame, m, a).value, b)
    decreases |a|
  {
    if a == [] {
      assert a + b == b;
    } else {
      assert (a + b)[1..] == a[1..] + b;
      RunAppend(rules, o, frame, Step(rules, o, frame, m, a[0]).value, a[1..], b);
    }
  }

  lemma RunOne(rules: Rules, o: Order, frame: Frame, m: Machine, tok: PegToken)
    requires Ready(rules, o, frame, m) && o.Admits(frame.key, rules[frame.key], [tok])
    ensures Run(rules, o, frame, m, [tok]) == Step(rules, o, frame, m, tok)
  {
    assert [tok][1..] == [];
  }

  lemma RunCons(rules: Rules, o: Order, frame: Frame, m: Machine, tok: PegToken, toks: seq<PegToken>)
    requires Ready(rules, o, frame, m) && o.Admits(frame.key, rules[frame.key], [tok] + toks)
    requires o.Admits(frame.key, rules[frame.key], [tok]) && o.Admits(frame.key, rules[frame.key], toks)
    requires Step(rules, o, frame, m, tok).Ok?
    ensures Run(rules, o, frame, m, [tok] + toks) == Run(rules, o, frame, Step(rules, o, frame, m, tok).value, toks)
  {
    assert ([tok] + toks)[1..] == toks;
  }

  lemma AdmitsParts(o: Order, key: string, rule: PegRule, a: seq<PegToken>, b: seq<PegToken>)
    requires o.Admits(key, rule, a + b)
    ensures o.Admits(key, rule, a) && o.Admits(key, rule, b)
  {
    forall i | 0 <= i < |a|
      ensures match a[i]
        case Reference(name) => name in o.names || name in rule.parameters
        case FunctionCall(name) => o.Callable(key, rule, name)
        case _ => true
    {
      assert (a + b)[i] == a[i];
    }
    forall i | 0 <= i < |b|
      ensures match b[i]
        case Reference(name) => name in o.names || name in rule.parameters
        case FunctionCall(name) => o.Callable(key, rule, name)
        case _ => true
    {
      assert (a + b)[|a| + i] == b[i];
    }
  }

  // An opening token, the tokens in between, and the bracket that closes them.
  lemma RunBracketed(rules: Rules, o: Order, frame: Frame, m: Machine, open: PegToken, m2: Machine,
                     toks: seq<PegToken>, m3: Machine)
    requires Ready(rules, o, frame, m)
    requires o.Admits(frame.key, rules[frame.key], [open] + (toks + [Op(')')]))
    requires o.Admits(frame.key, rules[frame.key], [open]) && o.Admits(frame.key, rules[frame.key], toks)
    requires Step(rules, o, frame, m, open) == Ok(m2) && Run(rules, o, frame, m2, toks) == Ok(m3)
    ensures Run(rules, o, frame, m, [open] + (toks + [Op(')')])) == CloseBracket(rules, o, frame, m3)
  {
    assert o.Admits(frame.key, rules[frame.key], [Op(')')]);
    RunAppend(rules, o, frame, m2, toks, [Op(')')]);
    RunCons(rules, o, frame, m, open, toks + [Op(')')]);
    RunOne(rules, o, frame, m3, Op(')'));
  }

  // ----- Results of building an item, a term, a body -----

  // The store in which the item's matcher id has been built and is about to be added.
  ghost predicate ItemBuilt(src: Source, sc: Scope, m: Machine, shape: Shape, f: Factory, id: nat) {
    && Builds(src, m.factory, f, |m.factory.nodes|) && id < |f.nodes|
    && Shows(f, Plus(sc.region, |m.factory.nodes|, |f.nodes|), id, shape)
  }

  // The list on top of the stack has received the matchers ids; nothing else that existed changed.
  ghost predicate Extended(src: Source, sc: Scope, m: Machine, shapes: seq<Shape>, m': Machine, ids: seq<nat>)
    requires m.Valid()
  {
    var f, top := m.factory, m.Top();
    && m'.stack == m.stack && Builds(src, f, m'.factory, top)
    && f.nodes[top].List?
    && m'.factory.nodes[top] == List(f.nodes[top].name, f.nodes[top].children + ids)
    && ShowsAll(m'.factory, Plus(sc.region, |f.nodes|, |m'.factory.nodes|), ids, shapes)
  }

  lemma ExtendedOn(src: Source, known: set<string>, sc: Scope, m: Machine, shapes: seq<Shape>, m': Machine,
                   ids: seq<nat>)
    requires On(src, known, sc, m) && Extended(src, sc, m, shapes, m', ids)
    ensures On(src, known, sc, m')
  {
    StillOn(src, known, sc, m, m', m.Top());
  }

  lemma ShowsAllAppend(f: Factory, r: Region, ids: seq<nat>, shapes: seq<Shape>, ids': seq<nat>, shapes': seq<Shape>)
    requires ShowsAll(f, r, ids, shapes) && ShowsAll(f, r, ids', shapes')
    ensures ShowsAll(f, r, ids + ids', shapes + shapes')
  {
  }

  lemma ShowsAllOne(f: Factory, r: Region, id: nat, shape: Shape)
    requires Shows(f, r, id, shape)
    ensures ShowsAll(f, r, [id], [shape])
  {
  }

  lemma ExtendedThen(src: Source, sc: Scope, m: Machine, shapes: seq<Shape>, m1: Machine, ids: seq<nat>,
                     shapes': seq<Shape>, m2: Machine, ids': seq<nat>)
    requires m.Valid() && m1.Valid() && sc.base <= m.Top() && (forall j: nat :: sc.region(j) ==> j < sc.base)
    requires Extended(src, sc, m, shapes, m1, ids) && Extended(src, sc, m1, shapes', m2, ids')
    ensures Extended(src, sc, m, shapes + shapes', m2, ids + ids')
  {
    var f, f1, f2 := m.factory, m1.factory, m2.factory;
    var cs := f.nodes[m.Top()].children;
    assert (cs + ids) + ids' == cs + (ids + ids');
    BuildsThen(src, f, f1, f2, m.Top(), m.Top());
    var r := Plus(sc.region, |f.nodes|, |f2.nodes|);
    assert ShowsAll(f2, r, ids + ids', shapes + shapes') by {
      ShowsAllFrozen(f1, f2, Plus(sc.region, |f.nodes|, |f1.nodes|), r, ids, shapes);
      ShowsAllFrozen(f2, f2, Plus(sc.region, |f1.nodes|, |f2.nodes|), r, ids', shapes');
      ShowsAllAppend(f2, r, ids, shapes, ids', shapes');
    }
  }

  // Adding an item's matcher to a list.
  lemma ItemAdded(src: Source, sc: Scope, m: Machine, shape: Shape, f: Factory, id: nat) returns (m': Machine)
    requires m.Valid() && m.factory.nodes[m.Top()].List? && ItemBuilt(src, sc, m, shape, f, id)
    requires sc.base <= m.Top() && (forall j: nat :: sc.region(j) ==> j < sc.base)
    ensures AddMatcher(m.(factory := f), id) == Ok(m')
    ensures Extended(src, sc, m, [shape], m', [id])
  {
    var top := m.Top();
    var f' := f.Replace(top, List(f.nodes[top].name, f.nodes[top].children + [id]));
    m' := m.(factory := f');
    assert AddMatcher(m.(factory := f), id) == Ok(m');
    assert Builds(src, f, f', top);
    BuildsThen(src, m.factory, f, f', top, top);
    var r := Plus(sc.region, |m.factory.nodes|, |f.nodes|);
    ShowsFrozen(f, f', r, r, id, shape);
    ShowsAllOne(f', r, id, shape);
  }

  lemma AllocateValid(f: Factory, node: Matcher)
    requires f.Valid() && node.Successors() == []
    ensures f.Allocate(node).Valid()
  {
    var f' := f.Allocate(node);
    forall j | 0 <= j < |f'.nodes| ensures Below(f'.nodes[j].Successors(), |f'.nodes|) {
      assert j < |f.nodes| ==> Below(f.nodes[j].Successors(), |f.nodes|);
    }
  }

  // A new bracket or argument list.
  lemma Opened(src: Source, known: set<string>, sc: Scope, m: Machine, functionName: string)
    requires On(src, known, sc, m)
    requires functionName != "" ==> src.o.Callable(sc.frame.key, src.rules[sc.frame.key], functionName)
    ensures var m' := OpenContainer(m, functionName);
            && On(src, known, sc, m') && Builds(src, m.factory, m'.factory, |m.factory.nodes|)
            && m'.factory.cache == m.factory.cache && m'.Top() == |m.factory.nodes|
            && m'.factory.nodes[m'.Top()] == List("", [])
            && src.o.Unbuilt(m'.factory) == src.o.Unbuilt(m.factory)
  {
    var m' := OpenContainer(m, functionName);
    AllocateValid(m.factory, List("", []));
    assert Builds(src, m.factory, m'.factory, |m.factory.nodes|);
    StillOn(src, known, sc, m, m', |m.factory.nodes|);
  }

  // ----- The main induction -----

  /** The tokens of an item build one matcher of the item's shape and add it to the container on top
      of the stack. */
  lemma {:induction false} BuildItem(src: Source, known: set<string>, sc: Scope, m: Machine, it: Item)
    returns (f: Factory, id: nat)
    requires On(src, known, sc, m) && Accepts(m) && GoodItem(src, known, sc.frame.key, it)
    requires src.o.Admits(sc.frame.key, src.rules[sc.frame.key], ItemTokens(it))
    ensures ItemBuilt(src, sc, m, ItemShape(src, sc.frame.key, sc.env, it), f, id)
    ensures Run(src.rules, src.o, sc.frame, m, ItemTokens(it)) == AddMatcher(m.(factory := f), id)
    decreases |src.o.Unbuilt(m.factory)|, src.o.Level(sc.frame.key, src.rules[sc.frame.key]), 0, it, 1
  {
    var key := sc.frame.key;
    var rule := src.rules[key];
    match it
    case Word(text) =>
      var (f', id') := KeywordMatcher(m.factory, text);
      f, id := f', id';
      AllocateValid(m.factory, Keyword(text, 0, ' '));
      RunOne(src.rules, src.o, sc.frame, m, Literal(text));
    case RuleRef(name) => f, id := BuildReference(src, known, sc, m, name);
    case Call(name, args) => f, id := BuildCallItem(src, known, sc, m, name, args);
    case Group(body) => f, id := BuildGroup(src, known, sc, m, body);
    case Not(it') =>
      AdmitsParts(src.o, key, rule, [Op('!')], ItemTokens(it'));
      RunCons(src.rules, src.o, sc.frame, m, Op('!'), ItemTokens(it'));
      f, id := BuildItem(src, known, sc, m, it');
  }

  lemma {:induction false} BuildReference(src: Source, known: set<string>, sc: Scope, m: Machine, name: string)
    returns (f: Factory, id: nat)
    requires On(src, known, sc, m) && Accepts(m) && GoodItem(src, known, sc.frame.key, RuleRef(name))
    requires src.o.Admits(sc.frame.key, src.rules[sc.frame.key], ItemTokens(RuleRef(name)))
    ensures ItemBuilt(src, sc, m, ItemShape(src, sc.frame.key, sc.env, RuleRef(name)), f, id)
    ensures Run(src.rules, src.o, sc.frame, m, ItemTokens(RuleRef(name))) == AddMatcher(m.(factory := f), id)
    decreases |src.o.Unbuilt(m.factory)|, src.o.Level(sc.frame.key, src.rules[sc.frame.key]), 0, RuleRef(name), 0
  {
    RunOne(src.rules, src.o, sc.frame, m, Reference(name));
    if name in src.rules[sc.frame.key].parameters {
      f, id := m.factory, sc.frame.parameters[0];
      ShowsFrozen(f, f, sc.region, Plus(sc.region, |f.nodes|, |f.nodes|), id, sc.env.value);
    } else {
      assert ItemTokens(RuleRef(name))[0] == Reference(name);
      f, id := BuildRule(src, known, m.factory, name);
    }
  }

  lemma {:induction false} BuildGroup(src: Source, known: set<string>, sc: Scope, m: Machine, body: seq<Term>)
    returns (f: Factory, id: nat)
    requires On(src, known, sc, m) && Accepts(m) && GoodItem(src, known, sc.frame.key, Group(body))
    requires src.o.Admits(sc.frame.key, src.rules[sc.frame.key], ItemTokens(Group(body)))
    ensures ItemBuilt(src, sc, m, ItemShape(src, sc.frame.key, sc.env, Group(body)), f, id)
    ensures Run(src.rules, src.o, sc.frame, m, ItemTokens(Group(body))) == AddMatcher(m.(factory := f), id)
    decreases |src.o.Unbuilt(m.factory)|, src.o.Level(sc.frame.key, src.rules[sc.frame.key]), 0, Group(body), 0
  {
    var key := sc.frame.key;
    var rule := src.rules[key];
    AdmitsParts(src.o, key, rule, [Op('(')], BodyTokens(body) + [Op(')')]);
    AdmitsParts(src.o, key, rule, BodyTokens(body), [Op(')')]);
    var m2 := OpenContainer(m, "");
    Opened(src, known, sc, m, "");
    var m3, ids := BuildBody(src, known, sc, m2, body);
    RunBracketed(src.rules, src.o, sc.frame, m, Op('('), m2, BodyTokens(body), m3);
    f, id := m3.factory, |m.factory.nodes|;
    assert m3.Pop() == m.(factory := f);
    GroupClosed(src, sc, m, m2, m3, ids, BodyShapes(src, key, sc.env, body));
  }

  // The list opened on m as m2 and filled with ids is a matcher of its own.
  lemma GroupClosed(src: Source, sc: Scope, m: Machine, m2: Machine, m3: Machine, ids: seq<nat>, shapes: seq<Shape>)
    requires m.Valid() && m2.Valid() && m2.Top() == |m.factory.nodes| && m2.factory.cache == m.factory.cache
    requires Builds(src, m.factory, m2.factory, |m.factory.nodes|)
    requires m2.factory.nodes[m2.Top()] == List("", [])
    requires Extended(src, sc, m2, shapes, m3, ids)
    ensures |m.factory.nodes| < |m3.factory.nodes| && m3.factory.nodes[|m.factory.nodes|] == List("", ids)
    ensures Builds(src, m.factory, m3.factory, |m.factory.nodes|)
    ensures ItemBuilt(src, sc, m, ListShape("", shapes), m3.factory, |m.factory.nodes|)
  {
    var f := m3.factory;
    BuildsThen(src, m.factory, m2.factory, f, |m.factory.nodes|, |m.factory.nodes|);
    ShowsAllFrozen(f, f, Plus(sc.region, |m2.factory.nodes|, |f.nodes|), Plus(sc.region, |m.factory.nodes|, |f.nodes|),
                   ids, shapes);
    assert [] + ids == ids;
  }

  lemma {:induction false} BuildCallItem(src: Source, known: set<string>, sc: Scope, m: Machine, name: string,
                                         args: seq<Term>)
    returns (f: Factory, id: nat)
    requires On(src, known, sc, m) && Accepts(m) && GoodItem(src, known, sc.frame.key, Call(name, args))
    requires src.o.Admits(sc.frame.key, src.rules[sc.frame.key], ItemTokens(Call(name, args)))
    ensures ItemBuilt(src, sc, m, ItemShape(src, sc.frame.key, sc.env, Call(name, args)), f, id)
    ensures Run(src.rules, src.o, sc.frame, m, ItemTokens(Call(name, args))) == AddMatcher(m.(factory := f), id)
    decreases |src.o.Unbuilt(m.factory)|, src.o.Level(sc.frame.key, src.rules[sc.frame.key]), 0, Call(name, args), 0
  {
    var key := sc.frame.key;
    var rule := src.rules[key];
    var open := FunctionCall(name);
    assert ItemTokens(Call(name, args))[0] == open;
    assert src.o.Callable(key, rule, name);
    AdmitsParts(src.o, key, rule, [open], BodyTokens(args) + [Op(')')]);
    AdmitsParts(src.o, key, rule, BodyTokens(args), [Op(')')]);
    var m2 := OpenContainer(m, name);
    Opened(src, known, sc, m, name);
    var m3, ids := BuildBody(src, known, sc, m2, args);
    RunBracketed(src.rules, src.o, sc.frame, m, open, m2, BodyTokens(args), m3);
    UnbuiltShrinks(src.o, m2.factory, m3.factory);
    f, id := CallBuilt(src, known, sc, m, m2, m3, name, args, ids);
  }

  // The argument list m3 has collected is passed to the called rule.
  lemma {:induction false} CallBuilt(src: Source, known: set<string>, sc: Scope, m: Machine, m2: Machine, m3: Machine,
                                     name: string, args: seq<Term>, ids: seq<nat>) returns (f: Factory, id: nat)
    requires On(src, known, sc, m) && On(src, known, sc, m3) && GoodItem(src, known, sc.frame.key, Call(name, args))
    requires m2.Valid() && m2.Top() == |m.factory.nodes| && m2.factory.cache == m.factory.cache
    requires m2.stack == m.stack + [Entry(|m.factory.nodes|, name)]
    requires Builds(src, m.factory, m2.factory, |m.factory.nodes|) && m2.factory.nodes[m2.Top()] == List("", [])
    requires Extended(src, sc, m2, BodyShapes(src, sc.frame.key, sc.env, args), m3, ids)
    requires src.o.Callable(sc.frame.key, src.rules[sc.frame.key], name)
    ensures ItemBuilt(src, sc, m, ItemShape(src, sc.frame.key, sc.env, Call(name, args)), f, id)
    ensures CloseBracket(src.rules, src.o, sc.frame, m3) == AddMatcher(m.(factory := f), id)
    decreases |src.o.Unbuilt(m3.factory)|, src.o.Level(sc.frame.key, src.rules[sc.frame.key]), 0, args, 0
  {
    var key := sc.frame.key;
    var shapes := BodyShapes(src, key, sc.env, args);
    GroupClosed(src, sc, m, m2, m3, ids, shapes);
    var f4, parameter := PassArgument(src, sc, m, m2, m3, ids, shapes);
    var r := Plus(sc.region, |m.factory.nodes|, |f4.nodes|);
    SettledKept(src, m.factory, f4, |m.factory.nodes|);
    f, id := BuildCall(src, known, f4, name, parameter, Wrap(shapes), r);
    assert m3.Pop() == m.(factory := m3.factory);
    assert m3.Pop().(factory := f) == m.(factory := f);
    CallClosed(src, sc, m, f4, f, ItemShape(src, key, sc.env, Call(name, args)), id);
  }

  lemma CallClosed(src: Source, sc: Scope, m: Machine, f4: Factory, f: Factory, shape: Shape, id: nat)
    requires Builds(src, m.factory, f4, |m.factory.nodes|) && Builds(src, f4, f, |f4.nodes|) && id < |f.nodes|
    requires Shows(f, Plus(Plus(sc.region, |m.factory.nodes|, |f4.nodes|), |f4.nodes|, |f.nodes|), id, shape)
    ensures ItemBuilt(src, sc, m, shape, f, id)
  {
    BuildsThen(src, m.factory, f4, f, |m.factory.nodes|, |f4.nodes|);
    ShowsFrozen(f, f, Plus(Plus(sc.region, |m.factory.nodes|, |f4.nodes|), |f4.nodes|, |f.nodes|),
                Plus(sc.region, |m.factory.nodes|, |f.nodes|), id, shape);
  }

  // The argument list m3 has collected becomes the parameter.
  lemma PassArgument(src: Source, sc: Scope, m: Machine, m2: Machine, m3: Machine, ids: seq<nat>, shapes: seq<Shape>)
    returns (f4: Factory, parameter: nat)
    requires m.Valid() && m2.Valid() && m3.Valid() && |m.factory.nodes| < |m2.factory.nodes|
    requires Builds(src, m.factory, m3.factory, |m.factory.nodes|)
    requires |m.factory.nodes| < |m3.factory.nodes| && |m2.factory.nodes| <= |m3.factory.nodes|
    requires m3.factory.nodes[|m.factory.nodes|] == List("", ids)
    requires ShowsAll(m3.factory, Plus(sc.region, |m2.factory.nodes|, |m3.factory.nodes|), ids, shapes)
    ensures Parameter(m3.factory, |m.factory.nodes|) == Ok((f4, parameter)) && f4.cache == m3.factory.cache
    ensures Builds(src, m.factory, f4, |m.factory.nodes|)
    ensures parameter < |f4.nodes| && Shows(f4, Plus(sc.region, |m.factory.nodes|, |f4.nodes|), parameter, Wrap(shapes))
  {
    var list := |m.factory.nodes|;
    assert Below(m3.factory.nodes[list].Successors(), |m3.factory.nodes|);
    var p := Parameter(m3.factory, list).value;
    f4, parameter := p.0, p.1;
    assert Builds(src, m3.factory, f4, |m3.factory.nodes|);
    BuildsThen(src, m.factory, m3.factory, f4, list, |m3.factory.nodes|);
    var r, r' := Plus(sc.region, |m2.factory.nodes|, |m3.factory.nodes|), Plus(sc.region, list, |f4.nodes|);
    assert Frozen(m3.factory, f4, r);
    ShowsAllFrozen(m3.factory, f4, r, r', ids, shapes);
  }

  /** The tokens of a term append one matcher of the term's shape to the list on top of the stack. */
  lemma {:induction false} BuildTerm(src: Source, known: set<string>, sc: Scope, m: Machine, t: Term)
    returns (m': Machine, id: nat)
    requires On(src, known, sc, m) && m.factory.nodes[m.Top()].List? && GoodTerm(src, known, sc.frame.key, t)
    requires src.o.Admits(sc.frame.key, src.rules[sc.frame.key], TermTokens(t))
    ensures Run(src.rules, src.o, sc.frame, m, TermTokens(t)) == Ok(m')
    ensures Extended(src, sc, m, [TermShape(src, sc.frame.key, sc.env, t)], m', [id]) && On(src, known, sc, m')
    decreases |src.o.Unbuilt(m.factory)|, src.o.Level(sc.frame.key, src.rules[sc.frame.key]), 0, t, 1
  {
    var key := sc.frame.key;
    var rule := src.rules[key];
    match t
    case Atom(it) =>
      var f;
      f, id := BuildItem(src, known, sc, m, it);
      m' := ItemAdded(src, sc, m, ItemShape(src, key, sc.env, it), f, id);
      ExtendedOn(src, known, sc, m, [ItemShape(src, key, sc.env, it)], m', [id]);
    case Alternatives(first, rest) => m', id := BuildAlternatives(src, known, sc, m, first, rest);
    case _ => m', id := BuildQuantified(src, known, sc, m, t);
  }

  lemma {:induction false} BuildQuantified(src: Source, known: set<string>, sc: Scope, m: Machine, t: Term)
    returns (m': Machine, id: nat)
    requires On(src, known, sc, m) && m.factory.nodes[m.Top()].List? && GoodTerm(src, known, sc.frame.key, t)
    requires (t.Maybe? || t.Many?) && src.o.Admits(sc.frame.key, src.rules[sc.frame.key], TermTokens(t))
    ensures Run(src.rules, src.o, sc.frame, m, TermTokens(t)) == Ok(m')
    ensures Extended(src, sc, m, [TermShape(src, sc.frame.key, sc.env, t)], m', [id]) && On(src, known, sc, m')
    decreases |src.o.Unbuilt(m.factory)|, src.o.Level(sc.frame.key, src.rules[sc.frame.key]), 0, t, 0
  {
    var key := sc.frame.key;
    var symbol := if t.Many? then Op('*') else Op('?');
    assert TermTokens(t) == TermTokens(t.term) + [symbol];
    AdmitsParts(src.o, key, src.rules[key], TermTokens(t.term), [symbol]);
    var m1, id1 := BuildTerm(src, known, sc, m, t.term);
    m', id := AddQuantifier(src, sc, m, m1, TermShape(src, key, sc.env, t.term), id1, t.Many?);
    RunQuantifier(src.rules, src.o, sc.frame, m, TermTokens(t.term), m1, t.Many?, m');
    ExtendedOn(src, known, sc, m, [TermShape(src, key, sc.env, t)], m', [id]);
  }

  lemma RunQuantifier(rules: Rules, o: Order, frame: Frame, m: Machine, toks: seq<PegToken>, m1: Machine, many: bool,
                      m': Machine)
    requires Ready(rules, o, frame, m) && o.Admits(frame.key, rules[frame.key], toks)
    requires Run(rules, o, frame, m, toks) == Ok(m1) && Quantify(m1, many) == Ok(m')
    ensures var all := toks + [if many then Op('*') else Op('?')];
            o.Admits(frame.key, rules[frame.key], all) && Run(rules, o, frame, m, all) == Ok(m')
  {
    var symbol := if many then Op('*') else Op('?');
    assert o.Admits(frame.key, rules[frame.key], [symbol]);
    RunAppend(rules, o, frame, m, toks, [symbol]);
    RunOne(rules, o, frame, m1, symbol);
  }

  // What '?' and '*' do to the store.
  lemma QuantifySteps(m: Machine, cs: seq<nat>, id: nat, many: bool) returns (f: Factory)
    requires m.Valid() && m.factory.nodes[m.Top()].List? && m.factory.nodes[m.Top()].children == cs + [id]
    ensures Quantify(m, many) == Ok(m.(factory := f)) && f.cache == m.factory.cache && Grows(m.factory, f) && f.Valid()
    ensures forall j :: 0 <= j < |m.factory.nodes| && j != m.Top() ==> f.nodes[j] == m.factory.nodes[j]
    ensures f.nodes[m.Top()] == List(m.factory.nodes[m.Top()].name, cs + [|f.nodes| - 1])
    ensures |f.nodes| == |m.factory.nodes| + (if many then 2 else 1)
    ensures if many then f.nodes[|f.nodes| - 1] == Optional(|f.nodes| - 2) && f.nodes[|f.nodes| - 2] == Repeat(id)
            else f.nodes[|f.nodes| - 1] == Optional(id)
  {
    assert (cs + [id])[..|cs + [id]| - 1] == cs && (cs + [id])[|cs + [id]| - 1] == id;
    f := Quantify(m, many).value.factory;
  }

  lemma Quantified(src: Source, sc: Scope, m: Machine, m1: Machine, f2: Factory, shape: Shape, id: nat, many: bool)
    requires m.Valid() && m1.Valid() && sc.base <= m.Top() && (forall j: nat :: sc.region(j) ==> j < sc.base)
    requires Extended(src, sc, m, [shape], m1, [id])
    requires f2.Valid() && f2.cache == m1.factory.cache && Grows(m1.factory, f2)
    requires forall j :: 0 <= j < |m1.factory.nodes| && j != m.Top() ==> f2.nodes[j] == m1.factory.nodes[j]
    requires f2.nodes[m.Top()] == List(m.factory.nodes[m.Top()].name,
             m.factory.nodes[m.Top()].children + [|f2.nodes| - 1])
    requires |f2.nodes| == |m1.factory.nodes| + (if many then 2 else 1)
    requires if many then f2.nodes[|f2.nodes| - 1] == Optional(|f2.nodes| - 2) && f2.nodes[|f2.nodes| - 2] == Repeat(id)
             else f2.nodes[|f2.nodes| - 1] == Optional(id)
    ensures Extended(src, sc, m, [OptionalShape(if many then RepeatShape(shape) else shape)], m1.(factory := f2),
            [|f2.nodes| - 1])
  {
    var f, f1, top := m.factory, m1.factory, m.Top();
    assert Builds(src, f1, f2, top);
    BuildsThen(src, f, f1, f2, top, top);
    var r, r' := Plus(sc.region, |f.nodes|, |f1.nodes|), Plus(sc.region, |f.nodes|, |f2.nodes|);
    assert [id][0] == id && [shape][0] == shape;
    assert Shows(f1, r, id, shape);
    ShowsFrozen(f1, f2, r, r', id, shape);
    QuantifiedShown(f2, r', id, shape, many);
  }

  lemma AddQuantifier(src: Source, sc: Scope, m: Machine, m1: Machine, shape: Shape, id: nat, many: bool)
    returns (m': Machine, id': nat)
    requires m.Valid() && m1.Valid() && sc.base <= m.Top() && (forall j: nat :: sc.region(j) ==> j < sc.base)
    requires Extended(src, sc, m, [shape], m1, [id])
    ensures Quantify(m1, many) == Ok(m')
    ensures Extended(src, sc, m, [OptionalShape(if many then RepeatShape(shape) else shape)], m', [id'])
  {
    var f2 := QuantifySteps(m1, m.factory.nodes[m.Top()].children, id, many);
    Quantified(src, sc, m, m1, f2, shape, id, many);
    m', id' := m1.(factory := f2), |f2.nodes| - 1;
  }

  lemma QuantifiedShown(f: Factory, r: Region, id: nat, shape: Shape, many: bool)
    requires Shows(f, r, id, shape) && |f.nodes| >= 2 && r(|f.nodes| - 1) && (many ==> r(|f.nodes| - 2))
    requires if many then f.nodes[|f.nodes| - 1] == Optional(|f.nodes| - 2) && f.nodes[|f.nodes| - 2] == Repeat(id)
             else f.nodes[|f.nodes| - 1] == Optional(id)
    ensures ShowsAll(f, r, [|f.nodes| - 1], [OptionalShape(if many then RepeatShape(shape) else shape)])
  {
    if many {
      assert Shows(f, r, |f.nodes| - 2, RepeatShape(shape));
    }
    ShowsAllOne(f, r, |f.nodes| - 1, OptionalShape(if many then RepeatShape(shape) else shape));
  }

  // A term, and then the rest of the body.
  lemma OneTermMore(src: Source, known: set<string>, sc: Scope, m: Machine, ts: seq<Term>,
                    m1: Machine, id: nat, m': Machine, ids: seq<nat>)
    requires On(src, known, sc, m) && m.factory.nodes[m.Top()].List? && ts != [] && On(src, known, sc, m1)
    requires src.o.Admits(sc.frame.key, src.rules[sc.frame.key], BodyTokens(ts))
    requires src.o.Admits(sc.frame.key, src.rules[sc.frame.key], TermTokens(ts[0]))
    requires src.o.Admits(sc.frame.key, src.rules[sc.frame.key], BodyTokens(ts[1..]))
    requires Run(src.rules, src.o, sc.frame, m, TermTokens(ts[0])) == Ok(m1)
    requires Extended(src, sc, m, [TermShape(src, sc.frame.key, sc.env, ts[0])], m1, [id])
    requires Run(src.rules, src.o, sc.frame, m1, BodyTokens(ts[1..])) == Ok(m')
    requires Extended(src, sc, m1, BodyShapes(src, sc.frame.key, sc.env, ts[1..]), m', ids)
    ensures Run(src.rules, src.o, sc.frame, m, BodyTokens(ts)) == Ok(m')
    ensures Extended(src, sc, m, BodyShapes(src, sc.frame.key, sc.env, ts), m', [id] + ids)
  {
    var key := sc.frame.key;
    assert BodyTokens(ts) == TermTokens(ts[0]) + BodyTokens(ts[1..]);
    hide TermShape, TermTokens, BodyTokens, GoodTerm, Good, Shows, Complete, Run;
    RunAppend(src.rules, src.o, sc.frame, m, TermTokens(ts[0]), BodyTokens(ts[1..]));
    ExtendedThen(src, sc, m, [TermShape(src, key, sc.env, ts[0])], m1, [id],
                 BodyShapes(src, key, sc.env, ts[1..]), m', ids);
  }

  lemma BodyParts(ts: seq<Term>)
    requires ts != []
    ensures BodyTokens(ts) == TermTokens(ts[0]) + BodyTokens(ts[1..])
  {
  }

  lemma EmptyBody(src: Source, sc: Scope, m: Machine)
    requires Ready(src.rules, src.o, sc.frame, m) && m.Valid() && m.factory.nodes[m.Top()].List?
    ensures BodyTokens([]) == [] && Run(src.rules, src.o, sc.frame, m, []) == Ok(m)
    ensures Extended(src, sc, m, BodyShapes(src, sc.frame.key, sc.env, []), m, [])
  {
    assert m.factory.nodes[m.Top()].children + [] == m.factory.nodes[m.Top()].children;
  }

  /** The tokens of a body append matchers of the terms' shapes, in order. */
  lemma {:induction false} BuildBody(src: Source, known: set<string>, sc: Scope, m: Machine, ts: seq<Term>)
    returns (m': Machine, ids: seq<nat>)
    requires On(src, known, sc, m) && m.factory.nodes[m.Top()].List?
    requires forall t :: t in ts ==> GoodTerm(src, known, sc.frame.key, t)
    requires src.o.Admits(sc.frame.key, src.rules[sc.frame.key], BodyTokens(ts))
    ensures Run(src.rules, src.o, sc.frame, m, BodyTokens(ts)) == Ok(m')
    ensures Extended(src, sc, m, BodyShapes(src, sc.frame.key, sc.env, ts), m', ids) && On(src, known, sc, m')
    decreases |src.o.Unbuilt(m.factory)|, src.o.Level(sc.frame.key, src.rules[sc.frame.key]), 0, ts, 0
  {
    var key := sc.frame.key;
    hide TermShape, TermTokens, BodyTokens, BodyShapes, GoodTerm, Good, Shows, Complete, Run, Extended;
    if ts == [] {
      m', ids := m, [];
      EmptyBody(src, sc, m);
    } else {
      BodyParts(ts);
      AdmitsParts(src.o, key, src.rules[key], TermTokens(ts[0]), BodyTokens(ts[1..]));
      var m1, id := BuildTerm(src, known, sc, m, ts[0]);
      UnbuiltShrinks(src.o, m.factory, m1.factory);
      assert forall t :: t in ts[1..] ==> t in ts;
      var ids1;
      m', ids1 := BuildBody(src, known, sc, m1, ts[1..]);
      ids := [id] + ids1;
      OneTermMore(src, known, sc, m, ts, m1, id, m', ids1);
    }
  }

  // ----- Choices -----

  // Only a bare parameter can stand for a choice without being written as one.
  lemma {:induction false} PlainItem(src: Source, key: string, env: Option<Shape>, it: Item)
    requires key in src.rules && !IsParameter(src.rules[key], it)
    ensures !ItemShape(src, key, env, it).ChoiceShape?
    decreases it
  {
    if it.Not? {
      PlainItem(src, key, env, it.item);
    }
  }

  lemma NotAChoice(f: Factory, r: Region, id: nat, shape: Shape)
    requires f.Valid() && Settled(f) && id < |f.nodes| && Shows(f, r, id, shape) && !shape.ChoiceShape?
    ensures !f.nodes[id].Choice?
  {
  }

  // The last item of the list on top of the stack is the choice q, built since the rule was begun.
  ghost predicate EndsInChoice(sc: Scope, m: Machine, q: nat)
    requires m.Valid()
  {
    var top := m.factory.nodes[m.Top()];
    && sc.base <= q < |m.factory.nodes| && q != m.Top() && m.factory.nodes[q].Choice?
    && top.List? && top.children != [] && top.children[|top.children| - 1] == q
  }

  // The choice q has received the matchers ids; nothing else that existed changed.
  ghost predicate ChoiceExtended(src: Source, sc: Scope, m: Machine, q: nat, shapes: seq<Shape>, m': Machine,
                                 ids: seq<nat>) {
    var f := m.factory;
    && q < |f.nodes| && f.nodes[q].Choice?
    && m'.stack == m.stack && Builds(src, f, m'.factory, q)
    && m'.factory.nodes[q] == Choice(f.nodes[q].children + ids)
    && ShowsAll(m'.factory, Plus(sc.region, |f.nodes|, |m'.factory.nodes|), ids, shapes)
  }

  lemma ChoiceExtendedThen(src: Source, sc: Scope, m: Machine, q: nat, shapes: seq<Shape>, m1: Machine, ids: seq<nat>,
                           shapes': seq<Shape>, m2: Machine, ids': seq<nat>)
    requires sc.base <= q && (forall j: nat :: sc.region(j) ==> j < sc.base)
    requires ChoiceExtended(src, sc, m, q, shapes, m1, ids) && ChoiceExtended(src, sc, m1, q, shapes', m2, ids')
    ensures ChoiceExtended(src, sc, m, q, shapes + shapes', m2, ids + ids')
  {
    var f, f1, f2 := m.factory, m1.factory, m2.factory;
    BuildsThen(src, f, f1, f2, q, q);
    var r := Plus(sc.region, |f.nodes|, |f2.nodes|);
    ShowsAllFrozen(f1, f2, Plus(sc.region, |f.nodes|, |f1.nodes|), r, ids, shapes);
    ShowsAllFrozen(f2, f2, Plus(sc.region, |f1.nodes|, |f2.nodes|), r, ids', shapes');
    ShowsAllAppend(f2, r, ids, shapes, ids', shapes');
    assert f.nodes[q].children + ids + ids' == f.nodes[q].children + (ids + ids');
  }

  // Adding an item's matcher to the choice q on top of the stack, which takes q off the stack.
  lemma AddedToChoice(sc: Scope, m: Machine, q: nat, f: Factory, id: nat) returns (m': Machine)
    requires m.Valid() && EndsInChoice(sc, m, q) && f.Valid() && |m.factory.nodes| <= |f.nodes| && id < |f.nodes|
    requires f.nodes[q] == m.factory.nodes[q] && f.nodes[m.Top()] == m.factory.nodes[m.Top()]
    ensures AddMatcher(m.Push(Entry(q, "")).(factory := f), id) == Ok(m')
    ensures m' == m.(factory := f.Replace(q, Choice(f.nodes[q].children + [id])))
    ensures m'.Valid() && EndsInChoice(sc, m', q)
  {
    m' := m.(factory := f.Replace(q, Choice(f.nodes[q].children + [id])));
    assert m.Push(Entry(q, "")).(factory := f).Pop() == m.(factory := f);
    assert Below(f.nodes[q].Successors(), |f.nodes|);
  }

  lemma AlternativeAdded(src: Source, sc: Scope, m: Machine, q: nat, shape: Shape, f: Factory, id: nat)
    returns (m': Machine)
    requires m.Valid() && EndsInChoice(sc, m, q) && (forall j: nat :: sc.region(j) ==> j < sc.base)
    requires ItemBuilt(src, sc, m, shape, f, id)
    ensures AddMatcher(m.Push(Entry(q, "")).(factory := f), id) == Ok(m')
    ensures ChoiceExtended(src, sc, m, q, [shape], m', [id]) && m'.Valid() && EndsInChoice(sc, m', q)
  {
    hide Complete, Shows, ShowsAll, AddMatcher;
    m' := AddedToChoice(sc, m, q, f, id);
    var f' := m'.factory;
    assert Builds(src, f, f', q);
    BuildsThen(src, m.factory, f, f', q, q);
    var r := Plus(sc.region, |m.factory.nodes|, |f.nodes|);
    ShowsFrozen(f, f', r, r, id, shape);
    ShowsAllOne(f', r, id, shape);
  }

  // One '/' and the item after it.
  lemma {:induction false} BuildAlternative(src: Source, known: set<string>, sc: Scope, m: Machine, q: nat, it: Item)
    returns (m': Machine, id: nat)
    requires On(src, known, sc, m) && EndsInChoice(sc, m, q) && GoodItem(src, known, sc.frame.key, it)
    requires src.o.Admits(sc.frame.key, src.rules[sc.frame.key], [Op('/')] + ItemTokens(it))
    ensures Run(src.rules, src.o, sc.frame, m, [Op('/')] + ItemTokens(it)) == Ok(m')
    ensures ChoiceExtended(src, sc, m, q, [ItemShape(src, sc.frame.key, sc.env, it)], m', [id])
    ensures On(src, known, sc, m') && EndsInChoice(sc, m', q)
    decreases |src.o.Unbuilt(m.factory)|, src.o.Level(sc.frame.key, src.rules[sc.frame.key]), 0, it, 2
  {
    var key := sc.frame.key;
    AdmitsParts(src.o, key, src.rules[key], [Op('/')], ItemTokens(it));
    var mq := Reopen(src, known, sc, m, q);
    RunCons(src.rules, src.o, sc.frame, m, Op('/'), ItemTokens(it));
    var f;
    f, id := BuildItem(src, known, sc, mq, it);
    m' := AlternativeAdded(src, sc, m, q, ItemShape(src, key, sc.env, it), f, id);
    ChoiceExtendedOn(src, known, sc, m, q, [ItemShape(src, key, sc.env, it)], m', [id]);
  }

  lemma Reopen(src: Source, known: set<string>, sc: Scope, m: Machine, q: nat) returns (mq: Machine)
    requires On(src, known, sc, m) && EndsInChoice(sc, m, q)
    ensures mq == m.Push(Entry(q, "")) && mq.Top() == q && Alternative(m) == Ok(mq)
    ensures On(src, known, sc, mq) && Accepts(mq)
  {
    mq := m.Push(Entry(q, ""));
    assert mq.Valid();
  }

  lemma ChoiceExtendedOn(src: Source, known: set<string>, sc: Scope, m: Machine, q: nat, shapes: seq<Shape>,
                         m': Machine, ids: seq<nat>)
    requires On(src, known, sc, m) && sc.base <= q && ChoiceExtended(src, sc, m, q, shapes, m', ids)
    ensures On(src, known, sc, m')
  {
    StillOn(src, known, sc, m, m', q);
  }

  /** Each further '/' and item append one alternative to the choice. */
  lemma {:induction false} BuildRest(src: Source, known: set<string>, sc: Scope, m: Machine, q: nat, rest: seq<Item>)
    returns (m': Machine, ids: seq<nat>)
    requires On(src, known, sc, m) && EndsInChoice(sc, m, q)
    requires forall it :: it in rest ==> GoodItem(src, known, sc.frame.key, it)
    requires src.o.Admits(sc.frame.key, src.rules[sc.frame.key], RestTokens(rest))
    ensures Run(src.rules, src.o, sc.frame, m, RestTokens(rest)) == Ok(m')
    ensures ChoiceExtended(src, sc, m, q, RestShapes(src, sc.frame.key, sc.env, rest), m', ids) &&
            On(src, known, sc, m')
    decreases |src.o.Unbuilt(m.factory)|, src.o.Level(sc.frame.key, src.rules[sc.frame.key]), 0, rest, 0
  {
    var key := sc.frame.key;
    if rest == [] {
      m', ids := m, [];
      assert m.factory.nodes[q].children + [] == m.factory.nodes[q].children;
    } else {
      var first, more := [Op('/')] + ItemTokens(rest[0]), RestTokens(rest[1..]);
      assert RestTokens(rest) == first + more;
      AdmitsParts(src.o, key, src.rules[key], first, more);
      var m1, id := BuildAlternative(src, known, sc, m, q, rest[0]);
      RunAppend(src.rules, src.o, sc.frame, m, first, more);
      UnbuiltShrinks(src.o, m.factory, m1.factory);
      var ids1;
      m', ids1 := BuildRest(src, known, sc, m1, q, rest[1..]);
      ids := [id] + ids1;
      ChoiceExtendedThen(src, sc, m, q, [ItemShape(src, key, sc.env, rest[0])], m1, [id],
                         RestShapes(src, key, sc.env, rest[1..]), m', ids1);
    }
  }

  // The first '/' turns the term built by m1 into the first alternative of a new choice. The machine
  // m2, with that choice already in the list, would do the same on '/'.
  lemma ChoiceStarted(src: Source, sc: Scope, m: Machine, shape: Shape, m1: Machine, id: nat)
    returns (m2: Machine, q: nat)
    requires m.Valid() && m1.Valid() && Settled(m1.factory) && Extended(src, sc, m, [shape], m1, [id])
    requires !shape.ChoiceShape? && sc.base <= m.Top()
    ensures m2.Valid() && EndsInChoice(sc, m2, q) && q == |m1.factory.nodes|
    ensures m2.stack == m1.stack && Builds(src, m1.factory, m2.factory, m.Top()) && m2.factory.cache == m1.factory.cache
    ensures m2.factory.nodes[m.Top()] == List(m.factory.nodes[m.Top()].name, m.factory.nodes[m.Top()].children + [q])
    ensures m2.factory.nodes[q] == Choice([id])
    ensures Alternative(m1) == Ok(m2.Push(Entry(q, ""))) && Alternative(m2) == Ok(m2.Push(Entry(q, "")))
  {
    var f1, top := m1.factory, m.Top();
    var cs := m.factory.nodes[top].children;
    assert [id][0] == id && [shape][0] == shape;
    assert Below(f1.nodes[top].Successors(), |f1.nodes|);
    assert f1.nodes[top].children[|cs|] == id;
    NotAChoice(f1, Plus(sc.region, |m.factory.nodes|, |f1.nodes|), id, shape);
    hide Complete, Shows, ShowsAll;
    assert (cs + [id])[..|cs + [id]| - 1] == cs && (cs + [id])[|cs + [id]| - 1] == id;
    q := |f1.nodes|;
    var pushed := Alternative(m1).value;
    m2 := pushed.Pop();
    assert m2.stack == m1.stack;
    assert (cs + [q])[|cs + [q]| - 1] == q;
    assert m2.Push(Entry(q, "")) == pushed;
  }

  // Two machines that do the same on '/' do the same on all further alternatives.
  lemma SameRest(src: Source, known: set<string>, sc: Scope, m1: Machine, m2: Machine, rest: seq<Item>)
    requires On(src, known, sc, m1) && On(src, known, sc, m2) && rest != []
    requires Alternative(m1).Ok? && Alternative(m1) == Alternative(m2)
    requires src.o.Admits(sc.frame.key, src.rules[sc.frame.key], RestTokens(rest))
    ensures Run(src.rules, src.o, sc.frame, m1, RestTokens(rest)) ==
            Run(src.rules, src.o, sc.frame, m2, RestTokens(rest))
  {
    var key := sc.frame.key;
    var toks := ItemTokens(rest[0]) + RestTokens(rest[1..]);
    AdmitsParts(src.o, key, src.rules[key], [Op('/')], toks);
    RunCons(src.rules, src.o, sc.frame, m1, Op('/'), toks);
    RunCons(src.rules, src.o, sc.frame, m2, Op('/'), toks);
  }

  lemma {:induction false} BuildAlternatives(src: Source, known: set<string>, sc: Scope, m: Machine, first: Term,
                                             rest: seq<Item>)
    returns (m': Machine, id: nat)
    requires On(src, known, sc, m) && m.factory.nodes[m.Top()].List? &&
             GoodTerm(src, known, sc.frame.key, Alternatives(first, rest))
    requires src.o.Admits(sc.frame.key, src.rules[sc.frame.key], TermTokens(Alternatives(first, rest)))
    ensures Run(src.rules, src.o, sc.frame, m, TermTokens(Alternatives(first, rest))) == Ok(m')
    ensures Extended(src, sc, m, [TermShape(src, sc.frame.key, sc.env, Alternatives(first, rest))], m', [id]) &&
            On(src, known, sc, m')
    decreases |src.o.Unbuilt(m.factory)|, src.o.Level(sc.frame.key, src.rules[sc.frame.key]), 0,
              Alternatives(first, rest), 0
  {
    var key := sc.frame.key;
    var shape := TermShape(src, key, sc.env, first);
    AdmitsParts(src.o, key, src.rules[key], TermTokens(first), RestTokens(rest));
    var m1, id1 := BuildTerm(src, known, sc, m, first);
    if first.Atom? {
      PlainItem(src, key, sc.env, first.item);
    }
    RunAppend(src.rules, src.o, sc.frame, m, TermTokens(first), RestTokens(rest));
    var m2, q := ChoiceStarted(src, sc, m, shape, m1, id1);
    StillOn(src, known, sc, m1, m2, m.Top());
    SameRest(src, known, sc, m1, m2, rest);
    UnbuiltShrinks(src.o, m.factory, m2.factory);
    var ids;
    m', ids := BuildRest(src, known, sc, m2, q, rest);
    id := q;
    ChoiceFinished(src, sc, m, shape, m1, id1, m2, q, RestShapes(src, key, sc.env, rest), m', ids);
  }

  lemma ChoiceFinished(src: Source, sc: Scope, m: Machine, shape: Shape, m1: Machine, id1: nat, m2: Machine, q: nat,
                       shapes: seq<Shape>, m': Machine, ids: seq<nat>)
    requires m.Valid() && m1.Valid() && m2.Valid() && sc.base <= m.Top() &&
             (forall j: nat :: sc.region(j) ==> j < sc.base)
    requires Extended(src, sc, m, [shape], m1, [id1])
    requires q == |m1.factory.nodes| < |m2.factory.nodes| && m2.stack == m1.stack
    requires Builds(src, m1.factory, m2.factory, m.Top()) && m2.factory.cache == m1.factory.cache
    requires m2.factory.nodes[m.Top()] == List(m.factory.nodes[m.Top()].name, m.factory.nodes[m.Top()].children + [q])
    requires m2.factory.nodes[q] == Choice([id1]) && ChoiceExtended(src, sc, m2, q, shapes, m', ids)
    ensures Extended(src, sc, m, [ChoiceShape([shape] + shapes)], m', [q])
  {
    var f, f1, f2, f', top := m.factory, m1.factory, m2.factory, m'.factory, m.Top();
    BuildsThen(src, f1, f2, f', top, q);
    BuildsThen(src, f, f1, f', top, top);
    var r, r' := Plus(sc.region, |f.nodes|, |f1.nodes|), Plus(sc.region, |f.nodes|, |f'.nodes|);
    ShowsAllFrozen(f1, f', r, r', [id1], [shape]);
    ShowsAllFrozen(f', f', Plus(sc.region, |f2.nodes|, |f'.nodes|), r', ids, shapes);
    ShowsAllAppend(f', r', [id1], [shape], ids, shapes);
    assert Shows(f', r', q, ChoiceShape([shape] + shapes));
    ShowsAllOne(f', r', q, ChoiceShape([shape] + shapes));
  }

  // ----- Rules -----

  lemma Begun(o: Order, f: Factory, name: string, cached: bool)
    requires f.Valid() && (cached ==> name in o.names && name !in f.cache)
    ensures var f1 := Begin(o, f, name, cached);
            && f1.nodes == f.nodes + [List("", [])] && f1.overrides == f.overrides
            && f1.cache == if cached then f.cache[name := |f.nodes|] else f.cache
  {
  }

  lemma BegunSettled(o: Order, f: Factory, name: string, cached: bool)
    requires f.Valid() && Settled(f) && (cached ==> name in o.names && name !in f.cache)
    ensures Settled(Begin(o, f, name, cached))
    ensures forall j :: 0 <= j < |f.nodes| ==> Begin(o, f, name, cached).nodes[j] == f.nodes[j]
  {
    Begun(o, f, name, cached);
    hide Begin, Below;
    var f1 := Begin(o, f, name, cached);
    forall n | n in f1.cache ensures !f1.nodes[f1.cache[n]].Choice? {
      if n in f.cache {
        assert f1.cache[n] == f.cache[n];
      }
    }
  }

  lemma BegunInScope(src: Source, f: Factory, name: string, parameters: seq<nat>, env: Option<Shape>, region: Region)
    requires f.Valid() && Settled(f) && Lower(name) in src.rules && Below(parameters, |f.nodes|)
    requires parameters == [] ==> name in src.o.names && name !in f.cache && env == None
    requires parameters != [] ==> env.Some? && Shows(f, region, parameters[0], env.value)
    requires forall j: nat :: region(j) ==> j < |f.nodes|
    ensures InScope(src, Scope(Frame(Lower(name), parameters), env, region, |f.nodes|),
            Begin(src.o, f, name, parameters == []))
  {
    hide Shows;
    BegunSettled(src.o, f, name, parameters == []);
    if parameters != [] {
      ShowsFrozen(f, Begin(src.o, f, name, false), region, region, parameters[0], env.value);
    }
  }

  // Reading a rule's body starts in order.
  lemma RuleBegun(src: Source, known: set<string>, f: Factory, name: string, parameters: seq<nat>,
                  env: Option<Shape>, region: Region)
    requires f.Valid() && Settled(f) && Good(src, known) && (forall n :: n in known ==> n in f.cache)
    requires Lower(name) in src.bodies && Lower(name) in src.rules
    requires |src.rules[Lower(name)].parameters| == |parameters| && Below(parameters, |f.nodes|)
    requires parameters == [] ==> name in src.o.names && name !in f.cache && env == None
    requires parameters != [] ==> env.Some? && Shows(f, region, parameters[0], env.value)
    requires forall j: nat :: region(j) ==> j < |f.nodes|
    ensures var f1 := Begin(src.o, f, name, parameters == []);
            On(src, known, Scope(Frame(Lower(name), parameters), env, region, |f.nodes|),
              Machine(f1, [Entry(|f.nodes|, "")]))
  {
    var m := Machine(Begin(src.o, f, name, parameters == []), [Entry(|f.nodes|, "")]);
    assert Ready(src.rules, src.o, Frame(Lower(name), parameters), m);
    hide GoodTerm, Shows, Good, Ready, Settled;
    var f1 := Begin(src.o, f, name, parameters == []);
    var sc := Scope(Frame(Lower(name), parameters), env, region, |f.nodes|);
    BegunSettled(src.o, f, name, parameters == []);
    BegunInScope(src, f, name, parameters, env, region);
  }

  lemma {:induction false} BuildRuleBody(src: Source, known: set<string>, f: Factory, name: string,
                                         parameters: seq<nat>, env: Option<Shape>, region: Region)
    returns (m': Machine, ids: seq<nat>)
    requires f.Valid() && Settled(f) && Good(src, known) && (forall n :: n in known ==> n in f.cache)
    requires Lower(name) in src.bodies && Lower(name) in src.rules
    requires |src.rules[Lower(name)].parameters| == |parameters| && Below(parameters, |f.nodes|)
    requires parameters == [] ==> name in src.o.names && name !in f.cache && env == None
    requires parameters != [] ==> env.Some? && Shows(f, region, parameters[0], env.value)
    requires forall j: nat :: region(j) ==> j < |f.nodes|
    ensures var sc := Scope(Frame(Lower(name), parameters), env, region, |f.nodes|);
            BodyBuilt(src, sc, f, name, m', ids)
    decreases |src.o.Unbuilt(f)|, if parameters == [] then 0 else src.o.Rank(Lower(name)) + 1, 1, 0, 0
  {
    var f1 := Begin(src.o, f, name, parameters == []);
    var m := Machine(f1, [Entry(|f.nodes|, "")]);
    var sc := Scope(Frame(Lower(name), parameters), env, region, |f.nodes|);
    RuleBegun(src, known, f, name, parameters, env, region);
    m', ids := BuildBody(src, known, sc, m, src.bodies[Lower(name)]);
  }

  // The body of the rule has been read into the list that was begun for it.
  ghost predicate BodyBuilt(src: Source, sc: Scope, f: Factory, name: string, m': Machine, ids: seq<nat>) {
    && f.Valid() && src.o.Orders(src.rules) && Lower(name) in src.rules && Lower(name) in src.bodies
    && (sc.frame.parameters == [] ==> name in src.o.names && name !in f.cache)
    && sc.frame.key == Lower(name)
    && var m := Machine(Begin(src.o, f, name, sc.frame.parameters == []), [Entry(|f.nodes|, "")]);
       && Ready(src.rules, src.o, sc.frame, m)
       && Run(src.rules, src.o, sc.frame, m, src.rules[Lower(name)].tokens) == Ok(m')
       && Extended(src, sc, m, BodyShapes(src, Lower(name), sc.env, src.bodies[Lower(name)]), m', ids)
  }

  // After the rule has been named, its list shows the rule's meaning.
  lemma RuleNamed(src: Source, sc: Scope, f: Factory, name: string, m': Machine, ids: seq<nat>) returns (f': Factory)
    requires BodyBuilt(src, sc, f, name, m', ids) && (forall j: nat :: sc.region(j) ==> j < |f.nodes|)
    ensures f' == SetName(m'.factory, |f.nodes|, name)
    ensures f'.Valid() && Grows(f, f') && |f.nodes| < |f'.nodes|
    ensures forall j :: 0 <= j < |f.nodes| ==> f'.nodes[j] == f.nodes[j]
    ensures sc.frame.parameters == [] ==> name in f'.cache && f'.cache[name] == |f.nodes|
    ensures Shows(f', Plus(sc.region, |f.nodes|, |f'.nodes|), |f.nodes|,
                  ListShape(name, BodyShapes(src, Lower(name), sc.env, src.bodies[Lower(name)])))
  {
    var f1, f2, id := Begin(src.o, f, name, sc.frame.parameters == []), m'.factory, |f.nodes|;
    f' := SetName(f2, id, name);
    var shapes := BodyShapes(src, Lower(name), sc.env, src.bodies[Lower(name)]);
    assert [] + ids == ids;
    assert f1.nodes[id] == List("", []);
    assert f2.nodes[id] == List("", ids) && f'.nodes[id] == List(name, ids);
    var r, r' := Plus(sc.region, |f1.nodes|, |f2.nodes|), Plus(sc.region, id, |f'.nodes|);
    NamingFreezes(src, sc, f, name, m', ids);
    ShowsAllFrozen(f2, f', r, r', ids, shapes);
  }

  // Naming touches only the rule's own list, which is not part of its children.
  lemma NamingFreezes(src: Source, sc: Scope, f: Factory, name: string, m': Machine, ids: seq<nat>)
    requires BodyBuilt(src, sc, f, name, m', ids)
    requires forall j: nat :: sc.region(j) ==> j < |f.nodes|
    ensures Frozen(m'.factory, SetName(m'.factory, |f.nodes|, name), Plus(sc.region, |f.nodes| + 1, |m'.factory.nodes|))
  {
  }

  lemma RuleComplete(src: Source, sc: Scope, f: Factory, name: string, m': Machine, ids: seq<nat>, f': Factory)
    requires BodyBuilt(src, sc, f, name, m', ids) && f' == SetName(m'.factory, |f.nodes|, name) &&
             |f.nodes| < |f'.nodes|
    requires sc.frame.parameters == [] ==> sc.env == None && (forall j: nat :: !sc.region(j))
    requires Grows(f, f') && (sc.frame.parameters == [] ==> f'.cache[name] == |f.nodes|)
    requires Shows(f', Plus(sc.region, |f.nodes|, |f'.nodes|), |f.nodes|,
                   ListShape(name, BodyShapes(src, Lower(name), sc.env, src.bodies[Lower(name)])))
    ensures NewComplete(src, f, f')
  {
    var f1, f2, id := Begin(src.o, f, name, sc.frame.parameters == []), m'.factory, |f.nodes|;
    var span, inner := Plus(NoRegion(), id, |f'.nodes|), Plus(NoRegion(), |f1.nodes|, |f2.nodes|);
    forall n | n in f'.cache && n !in f.cache
      ensures Complete(src, f', span, n)
    {
      if n in f1.cache {
        assert n == name && sc.frame.parameters == [];
        ShowsFrozen(f', f', Plus(sc.region, id, |f'.nodes|), span, id,
                    ListShape(name, BodyShapes(src, Lower(name), sc.env, src.bodies[Lower(name)])));
      } else {
        assert Complete(src, f2, inner, n);
        ShowsFrozen(f2, f', inner, span, f2.cache[n],
          ListShape(n, BodyShapes(src, Lower(n), None, src.bodies[Lower(n)])));
      }
    }
  }

  /** A reference to a rule: the cached matcher, or a new one built for good. */
  lemma {:induction false} BuildRule(src: Source, known: set<string>, f: Factory, name: string)
    returns (f': Factory, id: nat)
    requires f.Valid() && Settled(f) && Good(src, known) && (forall n :: n in known ==> n in f.cache)
    requires name in src.o.names
    requires name !in f.cache ==>
               Lower(name) in src.bodies && Lower(name) in src.rules && src.rules[Lower(name)].parameters == []
    ensures Create(src.rules, src.o, f, name, []) == Ok((f', id))
    ensures Builds(src, f, f', |f.nodes|) && id < |f'.nodes|
    ensures name in f'.cache && f'.cache[name] == id
    decreases |src.o.Unbuilt(f)|, 0, 2, 0, 0
  {
    if name in f.cache {
      f', id := f, f.cache[name];
    } else {
      var m', ids := BuildRuleBody(src, known, f, name, [], None, NoRegion());
      id := |f.nodes|;
      var sc := Scope(Frame(Lower(name), []), None, NoRegion(), |f.nodes|);
      f' := RuleNamed(src, sc, f, name, m', ids);
      RuleComplete(src, sc, f, name, m', ids, f');
    }
  }

  /** A call: a new instance of the rule, for this argument. */
  lemma {:induction false} BuildCall(src: Source, known: set<string>, f: Factory, name: string, parameter: nat,
                                     env: Shape, region: Region)
    returns (f': Factory, id: nat)
    requires f.Valid() && Settled(f) && Good(src, known) && (forall n :: n in known ==> n in f.cache)
    requires Lower(name) in src.bodies && Lower(name) in src.rules && |src.rules[Lower(name)].parameters| == 1
    requires parameter < |f.nodes|
    requires Shows(f, region, parameter, env) && (forall j: nat :: region(j) ==> j < |f.nodes|)
    ensures Create(src.rules, src.o, f, name, [parameter]) == Ok((f', id))
    ensures Builds(src, f, f', |f.nodes|) && id < |f'.nodes|
    ensures Shows(f', Plus(region, |f.nodes|, |f'.nodes|), id,
                  ListShape(name, BodyShapes(src, Lower(name), Some(env), src.bodies[Lower(name)])))
    decreases |src.o.Unbuilt(f)|, src.o.Rank(Lower(name)) + 1, 2, 0, 0
  {
    var m', ids := BuildRuleBody(src, known, f, name, [parameter], Some(env), region);
    id := |f.nodes|;
    var sc := Scope(Frame(Lower(name), [parameter]), Some(env), region, |f.nodes|);
    f' := RuleNamed(src, sc, f, name, m', ids);
    RuleComplete(src, sc, f, name, m', ids, f');
  }
}
