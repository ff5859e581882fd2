/** The grammar compiler as the program runs it: a factory and a list of open containers that are
    edited in place. Every method is proved to take the step its transition function describes. */
module GrammarBuilder {
  import opened Characters
  import opened Matchers
  import C = GrammarCompiler
  import opened GrammarMeaning
  import opened GrammarCorrectness

  class MatcherFactory {
    var allocator: seq<Matcher>
    var matchers: map<string, nat>
    var keywordOverrides: map<string, nat>

    ghost function Value(): C.Factory
      reads this
    {
      C.Factory(allocator, matchers, keywordOverrides)
    }

    constructor ()
      ensures Value() == C.Factory([], map[], map[])
    {
      allocator, matchers, keywordOverrides := [], map[], map[];
    }

    method Allocate(m: Matcher) returns (id: nat)
      modifies this`allocator
      ensures id == |old(allocator)| && Value() == old(Value()).Allocate(m)
    {
      id := |allocator|;
      allocator := allocator + [m];
    }

    method Keyword(text: string) returns (id: nat)
      modifies this`allocator
      ensures (Value(), id) == C.KeywordMatcher(old(Value()), text)
    {
      if Lower(text) in keywordOverrides {
        return keywordOverrides[Lower(text)];
      }
      id := Allocate(Matcher.Keyword(text, 0, ' '));
    }

    // The first override registered for a keyword or rule stays.
    method AddKeywordOverride(name: string, score: int, extraChar: char)
      modifies this
      ensures Value() == WithKeywordOverride(old(Value()), name, score, extraChar)
    {
      var id := Allocate(Matcher.Keyword(name, score, extraChar));
      if Lower(name) !in keywordOverrides {
        keywordOverrides := keywordOverrides[Lower(name) := id];
      }
    }

    method AddRuleOverride(name: string, id: nat)
      modifies this`matchers
      ensures Value() == WithRuleOverride(old(Value()), name, id)
    {
      if name !in matchers {
        matchers := matchers[name := id];
      }
    }

    /** Creates the matcher of a rule, reading the rule's tokens one by one. */
    method CreateMatcher(rules: C.Rules, ghost o: C.Order, name: string, parameters: seq<nat>) returns (r: C.Built<nat>)
      requires Value().Valid() && o.Orders(rules) && Below(parameters, |allocator|)
      requires parameters == [] ==> name in o.names
      modifies this`allocator, this`matchers
      ensures match C.Create(rules, o, old(Value()), name, parameters)
              case Ok(built) => r == C.Ok(built.1) && Value() == built.0
              case Error(reason) => r == C.Error(reason)
      decreases |o.Unbuilt(Value())|, if parameters == [] then 0 else o.Rank(Lower(name)) + 1, 1, 0
    {
      if parameters == [] && name in matchers {
        return C.Ok(matchers[name]);
      }
      var key := Lower(name);
      if key !in rules {
        return C.Error(C.RuleMissing);
      }
      ghost var f := Value();
      var id := Allocate(Matcher.List("", []));
      if parameters == [] {
        matchers := matchers[name := id];
      }
      var rule := rules[key];
      if |rule.parameters| > 1 {
        return C.Error(C.TooManyParameters);
      }
      if |parameters| != |rule.parameters| {
        return C.Error(C.ParameterMismatch);
      }
      assert Value() == C.Begin(o, f, name, parameters == []);
      var list := new MatcherList(this);
      list.AddRootMatcher(id, "");
      assert list.matchers == [C.Entry(id, "")];
      var read := list.ConsumeAll(rules, o, key, parameters);
      if read.Error? {
        return C.Error(read.reason);
      }
      if |list.matchers| != 1 {
        return C.Error(C.UnclosedBracket);
      }
      if allocator[id].List? {
        allocator := allocator[id := Matcher.List(name, allocator[id].children)];
      }
      r := C.Ok(id);
    }
  }

  class MatcherList {
    const factory: MatcherFactory
    var matchers: seq<C.Entry>

    constructor (factory: MatcherFactory)
      ensures this.factory == factory && matchers == []
    {
      this.factory := factory;
      matchers := [];
    }

    ghost function Value(): C.Machine
      reads this, factory
    {
      C.Machine(factory.Value(), matchers)
    }

    method AddRootMatcher(id: nat, functionName: string)
      modifies this`matchers
      ensures matchers == old(matchers) + [C.Entry(id, functionName)]
    {
      matchers := matchers + [C.Entry(id, functionName)];
    }

    method AddMatcher(id: nat) returns (r: C.Built<()>)
      requires Value().Valid() && id < |factory.allocator|
      modifies this`matchers, factory`allocator
      ensures match C.AddMatcher(old(Value()), id)
              case Ok(m) => r == C.Ok(()) && Value() == m
              case Error(reason) => r == C.Error(reason)
    {
      var root := matchers[|matchers| - 1].matcher;
      var node := factory.allocator[root];
      if node.List? {
        factory.allocator := factory.allocator[root := Matcher.List(node.name, node.children + [id])];
      } else if node.Choice? {
        if |matchers| <= 1 {
          return C.Error(C.ChoiceAsRoot);
        }
        factory.allocator := factory.allocator[root := Matcher.Choice(node.children + [id])];
        matchers := matchers[..|matchers| - 1];
      } else {
        return C.Error(C.NotAContainer);
      }
      r := C.Ok(());
    }

    method Quantify(many: bool) returns (r: C.Built<()>)
      requires Value().Valid()
      modifies this`matchers, factory`allocator
      ensures match C.Quantify(old(Value()), many)
              case Ok(m) => r == C.Ok(()) && Value() == m
              case Error(reason) => r == C.Error(reason)
    {
      var root := matchers[|matchers| - 1].matcher;
      var node := factory.allocator[root];
      if !node.List? {
        return C.Error(C.QuantifierWithoutList);
      }
      var children := node.children;
      if children == [] {
        return C.Error(C.QuantifierFirst);
      }
      var final := children[|children| - 1];
      if many {
        final := factory.Allocate(Matcher.Repeat(final));
      }
      var replaced := factory.Allocate(Matcher.Optional(final));
      factory.allocator :=
        factory.allocator[root := Matcher.List(node.name, children[..|children| - 1] + [replaced])];
      r := C.Ok(());
    }

    method Alternative() returns (r: C.Built<()>)
      requires Value().Valid()
      modifies this`matchers, factory`allocator
      ensures match C.Alternative(old(Value()))
              case Ok(m) => r == C.Ok(()) && Value() == m
              case Error(reason) => r == C.Error(reason)
    {
      var root := matchers[|matchers| - 1].matcher;
      var node := factory.allocator[root];
      if !node.List? {
        return C.Error(C.OrWithoutList);
      }
      var children := node.children;
      if children == [] {
        return C.Error(C.OrFirst);
      }
      assert Below(node.Successors(), |factory.allocator|);
      var previous := children[|children| - 1];
      if factory.allocator[previous].Choice? {
        matchers := matchers + [C.Entry(previous, "")];
      } else {
        var choice := factory.Allocate(Matcher.Choice([previous]));
        factory.allocator :=
          factory.allocator[root := Matcher.List(node.name, children[..|children| - 1] + [choice])];
        matchers := matchers + [C.Entry(choice, "")];
      }
      r := C.Ok(());
    }

    method Argument(list: nat) returns (r: C.Built<nat>)
      requires factory.Value().Valid() && list < |factory.allocator|
      modifies factory`allocator
      ensures match C.Parameter(old(factory.Value()), list)
              case Ok(passed) => r == C.Ok(passed.1) && factory.Value() == passed.0
              case Error(reason) => r == C.Error(reason)
    {
      var node := factory.allocator[list];
      if !node.List? {
        return C.Error(C.NotAContainer);
      }
      if |node.children| == 1 {
        return C.Ok(node.children[0]);
      }
      var parameter := factory.Allocate(Matcher.List("", node.children));
      r := C.Ok(parameter);
    }

    method CallRule(rules: C.Rules, ghost o: C.Order, ghost frame: C.Frame, entry: C.Entry) returns (r: C.Built<nat>)
      requires factory.Value().Valid() && o.Orders(rules) && frame.For(rules, factory.Value())
      requires entry.matcher < |factory.allocator| && o.Callable(frame.key, rules[frame.key], entry.functionName)
      modifies factory`allocator, factory`matchers
      ensures C.CallResult(rules, o, frame, old(factory.Value()), entry) ==
              if r.Ok? then C.Ok((factory.Value(), r.value)) else C.Error(r.reason)
      decreases |o.Unbuilt(factory.Value())|, o.Level(frame.key, rules[frame.key]), 0, 0
    {
      var argument := Argument(entry.matcher);
      if argument.Error? {
        return C.Error(argument.reason);
      }
      r := factory.CreateMatcher(rules, o, entry.functionName, [argument.value]);
    }

    method CloseBracket(rules: C.Rules, ghost o: C.Order, ghost frame: C.Frame) returns (r: C.Built<()>)
      requires C.Ready(rules, o, frame, Value())
      modifies this`matchers, factory`allocator, factory`matchers
      ensures match C.CloseBracket(rules, o, frame, old(Value()))
              case Ok(m) => r == C.Ok(()) && Value() == m
              case Error(reason) => r == C.Error(reason)
      decreases |o.Unbuilt(Value().factory)|, o.Level(frame.key, rules[frame.key]), 0, 1
    {
      hide C.Create, C.Run, C.Step;
      if |matchers| <= 1 {
        return C.Error(C.TooManyCloseBrackets);
      }
      ghost var m := Value();
      var bracket := matchers[|matchers| - 1];
      if bracket.functionName == "" {
        matchers := matchers[..|matchers| - 1];
        assert C.CloseBracket(rules, o, frame, m) == C.AddMatcher(Value(), bracket.matcher) by {
          assert Value() == m.Pop();
        }
        r := AddMatcher(bracket.matcher);
      } else {
        var call := CallRule(rules, o, frame, bracket);
        if call.Error? {
          return C.Error(call.reason);
        }
        matchers := matchers[..|matchers| - 1];
        assert bracket == m.stack[|m.stack| - 1] && factory.Value().Valid();
        C.CloseCall(rules, o, frame, m, factory.Value(), call.value);
        assert Value() == m.Pop().(factory := factory.Value());
        r := AddMatcher(call.value);
      }
    }

    /** All tokens of the rule under key, in order. */
    method ConsumeAll(rules: C.Rules, ghost o: C.Order, key: string, parameters: seq<nat>) returns (r: C.Built<()>)
      requires C.Ready(rules, o, C.Frame(key, parameters), Value())
      modifies this`matchers, factory`allocator, factory`matchers
      ensures match C.Run(rules, o, C.Frame(key, parameters), old(Value()), rules[key].tokens)
              case Ok(m) => r == C.Ok(()) && Value() == m
              case Error(reason) => r == C.Error(reason)
      decreases |o.Unbuilt(Value().factory)|, o.Level(key, rules[key]), 0, 3
    {
      ghost var frame, m := C.Frame(key, parameters), Value();
      var toks := rules[key].tokens;
      var i := 0;
      while i < |toks|
        invariant 0 <= i <= |toks|
        invariant C.Ready(rules, o, frame, Value()) && C.Grows(m.factory, Value().factory)
        invariant o.Admits(key, rules[key], toks[i..])
        invariant C.Run(rules, o, frame, m, toks) == C.Run(rules, o, frame, Value(), toks[i..])
      {
        assert toks[i..][0] == toks[i] && toks[i..][1..] == toks[i + 1..];
        assert o.Admits(key, rules[key], [toks[i]]);
        C.UnbuiltShrinks(o, m.factory, Value().factory);
        r := Consume(rules, o, key, parameters, toks[i]);
        if r.Error? {
          return;
        }
        i := i + 1;
      }
      r := C.Ok(());
    }

    /** One token of the rule under key. */
    method Consume(rules: C.Rules, ghost o: C.Order, key: string, parameters: seq<nat>, token: C.PegToken)
      returns (r: C.Built<()>)
      requires C.Ready(rules, o, C.Frame(key, parameters), Value()) && o.Admits(key, rules[key], [token])
      modifies this`matchers, factory`allocator, factory`matchers
      ensures match C.Step(rules, o, C.Frame(key, parameters), old(Value()), token)
              case Ok(m) => r == C.Ok(()) && Value() == m
              case Error(reason) => r == C.Error(reason)
      decreases |o.Unbuilt(Value().factory)|, o.Level(key, rules[key]), 0, 2
    {
      assert [token][0] == token;
      match token
      case Literal(text) =>
        var id := factory.Keyword(text);
        r := AddMatcher(id);
      case Reference(name) =>
        if name in rules[key].parameters {
          r := AddMatcher(parameters[0]);
        } else {
          var rule := factory.CreateMatcher(rules, o, name, []);
          if rule.Error? {
            return C.Error(rule.reason);
          }
          r := AddMatcher(rule.value);
        }
      case FunctionCall(name) =>
        var list := factory.Allocate(Matcher.List("", []));
        AddRootMatcher(list, name);
        r := C.Ok(());
      case Op(symbol) =>
        if symbol == '?' || symbol == '*' {
          r := Quantify(symbol == '*');
        } else if symbol == '/' {
          r := Alternative();
        } else if symbol == '(' {
          var list := factory.Allocate(Matcher.List("", []));
          AddRootMatcher(list, "");
          r := C.Ok(());
        } else if symbol == ')' {
          r := CloseBracket(rules, o, C.Frame(key, parameters));
        } else if symbol == '!' {
          r := C.Ok(());
        } else {
          r := C.Error(C.UnknownOperator);
        }
      case Regex(_) => r := C.Error(C.RegexNotSupported);
    }
  }

  // ----- The whole grammar -----

  function WithKeywordOverride(f: C.Factory, name: string, score: int, extraChar: char): C.Factory {
    var f' := f.Allocate(Matcher.Keyword(name, score, extraChar));
    if Lower(name) in f.overrides then f' else f'.(overrides := f.overrides[Lower(name) := |f.nodes|])
  }

  function WithRuleOverride(f: C.Factory, name: string, id: nat): C.Factory {
    if name in f.cache then f else f.(cache := f.cache[name := id])
  }

  // A factory that holds nothing but registered overrides.
  ghost predicate OnlyOverrides(f: C.Factory) {
    && f.Valid()
    && (forall m :: 0 <= m < |f.nodes| ==> f.nodes[m].IsLeaf())
    && (forall word :: word in f.overrides ==> f.nodes[f.overrides[word]].Keyword?)
  }

  lemma OverridesStay(f: C.Factory, name: string, score: int, extraChar: char, leaf: Matcher)
    requires OnlyOverrides(f) && leaf.IsLeaf()
    ensures OnlyOverrides(WithKeywordOverride(f, name, score, extraChar))
    ensures OnlyOverrides(WithRuleOverride(f.Allocate(leaf), name, |f.nodes|))
  {
    AllocateValid(f, Matcher.Keyword(name, score, extraChar));
    AllocateValid(f, leaf);
  }

  /** Building a well-formed grammar from its root succeeds. Every rule it comes to need is built
      once, its matcher shows exactly the meaning of its body, and all references to the rule lead to
      that one matcher; overrides registered beforehand keep their matcher, and the names they cover
      are never built. The result is a graph the interpreters can run. */
  lemma GrammarBuilt(src: Source, f: C.Factory, root: string) returns (f': C.Factory, id: nat)
    requires OnlyOverrides(f) && Good(src, f.cache.Keys) && root in src.o.names
    requires root !in f.cache ==>
               Lower(root) in src.bodies && Lower(root) in src.rules && src.rules[Lower(root)].parameters == []
    ensures C.Create(src.rules, src.o, f, root, []) == C.Ok((f', id))
    ensures root in f'.cache && id == f'.cache[root] < |f'.nodes|
    ensures forall name :: name in f.cache ==> name in f'.cache && f'.cache[name] == f.cache[name]
    ensures forall j :: 0 <= j < |f.nodes| ==> f'.nodes[j] == f.nodes[j]
    ensures forall name :: name in f'.cache && name !in f.cache ==>
              Complete(src, f', Plus(NoRegion(), |f.nodes|, |f'.nodes|), name)
    ensures forall keywords :: Grammar(keywords, f'.nodes).Valid()
  {
    assert Settled(f);
    f', id := BuildRule(src, f.cache.Keys, f, root);
  }

  // A term `D / 'text'` is read in three steps: after the first, the list ends in the argument.
  lemma ParameterThenWord(rules: C.Rules, o: C.Order, frame: C.Frame, m: C.Machine, d: string, text: string)
    returns (m1: C.Machine)
    requires C.Ready(rules, o, frame, m) && d in rules[frame.key].parameters && m.factory.nodes[m.Top()].List?
    ensures o.Admits(frame.key, rules[frame.key], TermTokens(Alternatives(Atom(RuleRef(d)), [Word(text)])))
    ensures C.AddMatcher(m, frame.parameters[0]) == C.Ok(m1) && C.Ready(rules, o, frame, m1)
    ensures C.Alternative(m1).Ok? ==>
              var m2 := C.Alternative(m1).value;
              var (f, id) := C.KeywordMatcher(m2.factory, text);
              m2.(factory := f).Valid() && id < |f.nodes| &&
              C.Run(rules, o, frame, m, TermTokens(Alternatives(Atom(RuleRef(d)), [Word(text)]))) ==
              C.AddMatcher(m2.(factory := f), id)
  {
    var key, rule := frame.key, rules[frame.key];
    var ref, word := C.Reference(d), C.Literal(text);
    TokensOfAlternative(RuleRef(d), Word(text));
    assert o.Admits(key, rule, [ref] + ([C.Op('/')] + [word]));
    RunCons(rules, o, frame, m, ref, [C.Op('/')] + [word]);
    m1 := C.Step(rules, o, frame, m, ref).value;
    if C.Alternative(m1).Ok? {
      RunCons(rules, o, frame, m1, C.Op('/'), [word]);
      var m2 := C.Alternative(m1).value;
      AllocateValid(m2.factory, Matcher.Keyword(text, 0, ' '));
      RunOne(rules, o, frame, m2, word);
    }
  }

  /** Why no choice may start with the bare parameter: when the argument is itself a choice, the
      alternatives are added to the caller's matcher instead of a new one. The caller's matcher
      survives `D / 'text'` exactly when it is not a choice. */
  lemma ParameterAsFirstAlternative(rules: C.Rules, o: C.Order, frame: C.Frame, m: C.Machine, d: string, text: string)
    requires C.Ready(rules, o, frame, m) && d in rules[frame.key].parameters
    requires m.factory.nodes[m.Top()].List? && frame.parameters[0] != m.Top()
    ensures var toks := TermTokens(Alternatives(Atom(RuleRef(d)), [Word(text)]));
            && o.Admits(frame.key, rules[frame.key], toks)
            && var r := C.Run(rules, o, frame, m, toks);
               var p := frame.parameters[0];
               && r.Ok? && r.value.stack == m.stack
               && (r.value.factory.nodes[p] == m.factory.nodes[p] <==> !m.factory.nodes[p].Choice?)
  {
    hide C.Run, C.Step, C.Create, TermTokens;
    var p, top := frame.parameters[0], m.Top();
    var m1 := ParameterThenWord(rules, o, frame, m, d, text);
    var cs := m.factory.nodes[top].children;
    assert m1.factory.nodes[top].children == cs + [p] && (cs + [p])[|cs + [p]| - 1] == p;
    assert Below(m1.factory.nodes[top].Successors(), |m1.factory.nodes|);
    var m2 := C.Alternative(m1).value;
    var (f, id) := C.KeywordMatcher(m2.factory, text);
    if m.factory.nodes[p].Choice? {
      assert m2 == m1.Push(C.Entry(p, ""));
      assert |m.factory.nodes[p].children + [id]| > |m.factory.nodes[p].children|;
    } else {
      assert m2.Top() == |m1.factory.nodes|;
    }
  }
}
