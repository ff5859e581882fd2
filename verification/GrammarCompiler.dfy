/** The grammar compiler as a transition system: a stack of containers under construction, driven by
    the flat token list of a rule body, over a store of matchers and a cache of built rules. */
module GrammarCompiler {
  import opened Characters
  import opened Matchers

  datatype PegToken =
    | Literal(text: string)
    | Reference(name: string)
    | FunctionCall(name: string)
    | Op(symbol: char)
    | Regex(text: string)

  datatype PegRule = PegRule(parameters: seq<string>, tokens: seq<PegToken>)

  // Rules are looked up ignoring case: the keys are lower-case names.
  type Rules = map<string, PegRule>

  datatype BuildError =
    | RuleMissing | TooManyParameters | ParameterMismatch | ChoiceAsRoot | NotAContainer
    | TooManyCloseBrackets | UnclosedBracket | QuantifierWithoutList | QuantifierFirst
    | OrWithoutList | OrFirst | UnknownOperator | RegexNotSupported

  datatype Built<+T> = Ok(value: T) | Error(reason: BuildError) {
    predicate IsFailure() { Error? }
    function PropagateFailure<U>(): Built<U> requires Error? { Error(reason) }
    function Extract(): T requires Ok? { value }
  }

  datatype Factory = Factory(nodes: seq<Matcher>, cache: map<string, nat>, overrides: map<string, nat>) {
    ghost predicate Valid() {
      && (forall m :: 0 <= m < |nodes| ==> Below(nodes[m].Successors(), |nodes|))
      && (forall name :: name in cache ==> cache[name] < |nodes|)
      && (forall word :: word in overrides ==> overrides[word] < |nodes|)
    }

    function Allocate(m: Matcher): Factory {
      this.(nodes := nodes + [m])
    }

    function Replace(id: nat, m: Matcher): Factory
      requires id < |nodes|
    {
      this.(nodes := nodes[id := m])
    }
  }

  // The store only grows; cached rules keep their matcher.
  ghost predicate Grows(f: Factory, f': Factory) {
    && |f.nodes| <= |f'.nodes|
    && f'.overrides == f.overrides
    && (forall name :: name in f.cache ==> name in f'.cache && f'.cache[name] == f.cache[name])
  }

  // A stacked container; functionName is "" unless it collects the arguments of a call.
  datatype Entry = Entry(matcher: nat, functionName: string)

  datatype Machine = Machine(factory: Factory, stack: seq<Entry>) {
    ghost predicate Valid() {
      factory.Valid() && stack != [] && forall e :: 0 <= e < |stack| ==> stack[e].matcher < |factory.nodes|
    }

    function Top(): nat
      requires stack != []
    {
      stack[|stack| - 1].matcher
    }

    function Pop(): Machine
      requires stack != []
    {
      this.(stack := stack[..|stack| - 1])
    }

    function Push(e: Entry): Machine {
      this.(stack := stack + [e])
    }
  }

  ghost function KeywordMatcher(f: Factory, text: string): (r: (Factory, nat))
    ensures f.Valid() ==> r.0.Valid() && r.1 < |r.0.nodes| && Grows(f, r.0) && r.0.cache == f.cache
  {
    if Lower(text) in f.overrides then (f, f.overrides[Lower(text)])
    else (f.Allocate(Keyword(text, 0, ' ')), |f.nodes|)
  }

  ghost function AddMatcher(m: Machine, id: nat): (r: Built<Machine>)
    requires m.Valid() && id < |m.factory.nodes|
    ensures r.Ok? ==> r.value.Valid() && Grows(m.factory, r.value.factory) && r.value.factory.cache == m.factory.cache
  {
    var top := m.Top();
    match m.factory.nodes[top]
    case List(name, cs) =>
      var r := m.(factory := m.factory.Replace(top, List(name, cs + [id])));
      assert Below(m.factory.nodes[top].Successors(), |m.factory.nodes|);
      Ok(r)
    case Choice(cs) =>
      if |m.stack| <= 1 then Error(ChoiceAsRoot) else
      assert Below(m.factory.nodes[top].Successors(), |m.factory.nodes|);
      Ok(m.(factory := m.factory.Replace(top, Choice(cs + [id]))).Pop())
    case _ => Error(NotAContainer)
  }

  // '?' and '*': wrap the last item of the current list.
  ghost function Quantify(m: Machine, many: bool): (r: Built<Machine>)
    requires m.Valid()
    ensures r.Ok? ==> r.value.Valid() && Grows(m.factory, r.value.factory) && r.value.factory.cache == m.factory.cache
  {
    var f, top := m.factory, m.Top();
    match f.nodes[top]
    case List(name, cs) =>
      if cs == [] then Error(QuantifierFirst) else
      assert Below(f.nodes[top].Successors(), |f.nodes|);
      var last := cs[|cs| - 1];
      var f' := if many then f.Allocate(Repeat(last)).Allocate(Optional(|f.nodes|)) else f.Allocate(Optional(last));
      Ok(m.(factory := f'.Replace(top, List(name, cs[..|cs| - 1] + [|f'.nodes| - 1]))))
    case _ => Error(QuantifierWithoutList)
  }

  // '/': reopen the choice that is the last item, or turn the last item into a new choice.
  ghost function Alternative(m: Machine): (r: Built<Machine>)
    requires m.Valid()
    ensures r.Ok? ==> r.value.Valid() && Grows(m.factory, r.value.factory) && r.value.factory.cache == m.factory.cache
  {
    var f, top := m.factory, m.Top();
    match f.nodes[top]
    case List(name, cs) =>
      if cs == [] then Error(OrFirst) else
      assert Below(f.nodes[top].Successors(), |f.nodes|);
      var last := cs[|cs| - 1];
      if f.nodes[last].Choice? then Ok(m.Push(Entry(last, "")))
      else
        var f' := f.Allocate(Choice([last])).Replace(top, List(name, cs[..|cs| - 1] + [|f.nodes|]));
        Ok(m.(factory := f').Push(Entry(|f.nodes|, "")))
    case _ => Error(OrWithoutList)
  }

  function OpenContainer(m: Machine, functionName: string): Machine {
    m.(factory := m.factory.Allocate(List("", []))).Push(Entry(|m.factory.nodes|, functionName))
  }

  /** A ranking of the parameterised rules that drops along their calls, and the names a build can
      come across. A build terminates because of both. */
  datatype Order = Order(names: set<string>, rank: map<string, nat>, top: nat) {
    function Rank(key: string): nat {
      if key in rank then rank[key] else 0
    }

    // Names a call may have in the body of the rule under key.
    predicate Callable(key: string, rule: PegRule, name: string) {
      Rank(Lower(name)) < top && (rule.parameters != [] ==> Rank(Lower(name)) < Rank(key))
    }

    ghost predicate Admits(key: string, rule: PegRule, toks: seq<PegToken>) {
      forall i :: 0 <= i < |toks| ==>
        match toks[i]
        case Reference(name) => name in names || name in rule.parameters
        case FunctionCall(name) => Callable(key, rule, name)
        case _ => true
    }

    ghost predicate Orders(rules: Rules) {
      forall key :: key in rules ==> Admits(key, rules[key], rules[key].tokens)
    }

    ghost predicate AdmitsStack(key: string, rule: PegRule, stack: seq<Entry>) {
      forall e :: 0 <= e < |stack| && stack[e].functionName != "" ==> Callable(key, rule, stack[e].functionName)
    }

    // How far into calls a rule body can reach: above everything for a rule without parameters.
    function Level(key: string, rule: PegRule): nat {
      if rule.parameters == [] then top + 1 else Rank(key) + 1
    }

    ghost function Unbuilt(f: Factory): set<string> {
      names - f.cache.Keys
    }
  }

  // The rule whose body is being read, with the matchers passed for its parameters.
  datatype Frame = Frame(key: string, parameters: seq<nat>) {
    ghost predicate For(rules: Rules, f: Factory) {
      key in rules && |parameters| == |rules[key].parameters| <= 1 && Below(parameters, |f.nodes|)
    }
  }

  lemma UnbuiltShrinks(o: Order, f: Factory, f': Factory)
    requires Grows(f, f')
    ensures |o.Unbuilt(f')| <= |o.Unbuilt(f)|
  {
    CardinalityMonotone(o.Unbuilt(f'), o.Unbuilt(f));
  }

  /** The matcher for a rule: from the cache, or a new list filled from the rule's tokens. A rule
      without parameters is cached before its body is read, so that it may refer to itself. */
  ghost function Create(rules: Rules, o: Order, f: Factory, name: string,
                        parameters: seq<nat>): (r: Built<(Factory, nat)>)
    requires f.Valid() && o.Orders(rules) && Below(parameters, |f.nodes|)
    requires parameters == [] ==> name in o.names
    ensures r.Ok? ==> r.value.0.Valid() && r.value.1 < |r.value.0.nodes| && Grows(f, r.value.0)
    decreases |o.Unbuilt(f)|, if parameters == [] then 0 else o.Rank(Lower(name)) + 1, 1, 0
  {
    if parameters == [] && name in f.cache then Ok((f, f.cache[name])) else
    var key := Lower(name);
    if key !in rules then Error(RuleMissing) else
    if |rules[key].parameters| > 1 then Error(TooManyParameters) else
    if |parameters| != |rules[key].parameters| then Error(ParameterMismatch) else
    var f' := Begin(o, f, name, parameters == []);
    var m :- Run(rules, o, Frame(key, parameters), Machine(f', [Entry(|f.nodes|, "")]), rules[key].tokens);
    if |m.stack| != 1 then Error(UnclosedBracket) else
    Ok((SetName(m.factory, |f.nodes|, name), |f.nodes|))
  }

  // Caching one more of the names leaves fewer rules to build.
  lemma CachedShrinks(o: Order, f: Factory, f': Factory, name: string)
    requires name in o.names && name !in f.cache && f'.cache == f.cache[name := |f.nodes|]
    ensures |o.Unbuilt(f')| < |o.Unbuilt(f)|
  {
    assert o.Unbuilt(f') == o.Unbuilt(f) - {name} && name in o.Unbuilt(f);
  }

  // The empty list a rule is built in, cached unless the rule has parameters.
  ghost function Begin(o: Order, f: Factory, name: string, cached: bool): (r: Factory)
    requires f.Valid()
    requires cached ==> name in o.names && name !in f.cache
    ensures r.Valid() && |r.nodes| == |f.nodes| + 1 && Grows(f, r)
    ensures if cached then |o.Unbuilt(r)| < |o.Unbuilt(f)| else o.Unbuilt(r) == o.Unbuilt(f)
  {
    var r := f.Allocate(List("", []));
    if !cached then r else
    var r' := r.(cache := r.cache[name := |f.nodes|]);
    CachedShrinks(o, f, r', name);
    r'
  }

  ghost function SetName(f: Factory, id: nat, name: string): (r: Factory)
    requires f.Valid() && id < |f.nodes|
    ensures r.Valid() && |r.nodes| == |f.nodes| && Grows(f, r) && r.cache == f.cache
  {
    assert Below(f.nodes[id].Successors(), |f.nodes|);
    match f.nodes[id]
    case List(_, cs) => f.Replace(id, List(name, cs))
    case _ => f
  }

  ghost predicate Ready(rules: Rules, o: Order, frame: Frame, m: Machine) {
    && m.Valid() && o.Orders(rules) && frame.For(rules, m.factory)
    && o.AdmitsStack(frame.key, rules[frame.key], m.stack)
  }

  /** The machine after some of the tokens of a rule. */
  ghost function Run(rules: Rules, o: Order, frame: Frame, m: Machine, toks: seq<PegToken>): (r: Built<Machine>)
    requires Ready(rules, o, frame, m) && o.Admits(frame.key, rules[frame.key], toks)
    ensures r.Ok? ==> Ready(rules, o, frame, r.value) && Grows(m.factory, r.value.factory)
    decreases |o.Unbuilt(m.factory)|, o.Level(frame.key, rules[frame.key]), 0, |toks| + 2
  {
    if toks == [] then Ok(m) else
    var m' :- Step(rules, o, frame, m, toks[0]);
    UnbuiltShrinks(o, m.factory, m'.factory);
    Run(rules, o, frame, m', toks[1..])
  }

  ghost function Step(rules: Rules, o: Order, frame: Frame, m: Machine, tok: PegToken): (r: Built<Machine>)
    requires Ready(rules, o, frame, m) && o.Admits(frame.key, rules[frame.key], [tok])
    ensures r.Ok? ==> Ready(rules, o, frame, r.value) && Grows(m.factory, r.value.factory)
    decreases |o.Unbuilt(m.factory)|, o.Level(frame.key, rules[frame.key]), 0, 2
  {
    assert [tok][0] == tok;
    match tok
    case Literal(text) =>
      var (f, id) := KeywordMatcher(m.factory, text);
      AddMatcher(m.(factory := f), id)
    case Reference(name) =>
      if name in rules[frame.key].parameters then AddMatcher(m, frame.parameters[0]) else
      var (f, id) :- Create(rules, o, m.factory, name, []);
      AddMatcher(m.(factory := f), id)
    case FunctionCall(name) => Ok(OpenContainer(m, name))
    case Op(symbol) =>
      if symbol == '?' || symbol == '*' then Quantify(m, symbol == '*')
      else if symbol == '/' then Alternative(m)
      else if symbol == '(' then Ok(OpenContainer(m, ""))
      else if symbol == ')' then CloseBracket(rules, o, frame, m)
      else if symbol == '!' then Ok(m)
      else Error(UnknownOperator)
    case Regex(_) => Error(RegexNotSupported)
  }

  // ')': a bracket becomes an item of the container below; a call is replaced by the called rule's
  // matcher, with the arguments -- wrapped in a list unless there is exactly one -- as parameter.
  ghost function CloseBracket(rules: Rules, o: Order, frame: Frame, m: Machine): (r: Built<Machine>)
    requires Ready(rules, o, frame, m)
    ensures r.Ok? ==> Ready(rules, o, frame, r.value) && Grows(m.factory, r.value.factory)
    decreases |o.Unbuilt(m.factory)|, o.Level(frame.key, rules[frame.key]), 0, 1
  {
    if |m.stack| <= 1 then Error(TooManyCloseBrackets) else
    var entry := m.stack[|m.stack| - 1];
    if entry.functionName == "" then AddMatcher(m.Pop(), entry.matcher) else
    var (f, id) :- CallResult(rules, o, frame, m.factory, entry);
    AddMatcher(m.Pop().(factory := f), id)
  }

  // The matcher for the call whose arguments the entry has collected.
  ghost function CallResult(rules: Rules, o: Order, frame: Frame, f: Factory, entry: Entry): (r: Built<(Factory, nat)>)
    requires f.Valid() && o.Orders(rules) && frame.For(rules, f) && entry.matcher < |f.nodes|
    requires o.Callable(frame.key, rules[frame.key], entry.functionName)
    ensures r.Ok? ==> r.value.0.Valid() && r.value.1 < |r.value.0.nodes| && Grows(f, r.value.0)
    decreases |o.Unbuilt(f)|, o.Level(frame.key, rules[frame.key]), 0, 0
  {
    var (f', parameter) :- Parameter(f, entry.matcher);
    Create(rules, o, f', entry.functionName, [parameter])
  }

  lemma CloseCall(rules: Rules, o: Order, frame: Frame, m: Machine, f: Factory, id: nat)
    requires Ready(rules, o, frame, m) && |m.stack| > 1
    requires var entry := m.stack[|m.stack| - 1];
             entry.functionName != "" && CallResult(rules, o, frame, m.factory, entry) == Ok((f, id))
    ensures var m' := m.Pop().(factory := f);
            m'.Valid() && CloseBracket(rules, o, frame, m) == AddMatcher(m', id)
  {
  }

  ghost function Parameter(f: Factory, list: nat): (r: Built<(Factory, nat)>)
    requires f.Valid() && list < |f.nodes|
    ensures r.Ok? ==>
              && r.value.0.Valid() && r.value.1 < |r.value.0.nodes|
              && Grows(f, r.value.0) && r.value.0.cache == f.cache
  {
    match f.nodes[list]
    case List(_, cs) =>
      assert Below(f.nodes[list].Successors(), |f.nodes|);
      if |cs| == 1 then Ok((f, cs[0])) else Ok((f.Allocate(List("", cs)), |f.nodes|))
    case _ => Error(NotAContainer)
  }
}
