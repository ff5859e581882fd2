/** What a rule body means, defined by recursion over its syntax, and the proof that the stack
    machine builds exactly that. */
module GrammarMeaning {
  import opened Characters
  import opened Matchers
  import opened GrammarCompiler

  // ----- Syntax -----

  // '/' binds only the item before it and the item after it; '?' and '*' apply to the whole last
  // term; '!' is read and ignored.
  datatype Item =
    | Word(text: string)
    | RuleRef(name: string)
    | Call(name: string, args: seq<Term>)
    | Group(body: seq<Term>)
    | Not(item: Item)

  datatype Term =
    | Atom(item: Item)
    | Alternatives(first: Term, rest: seq<Item>)
    | Maybe(term: Term)
    | Many(term: Term)

  function ItemTokens(it: Item): seq<PegToken>
    decreases it
  {
    match it
    case Word(text) => [Literal(text)]
    case RuleRef(name) => [Reference(name)]
    case Call(name, args) => [FunctionCall(name)] + (BodyTokens(args) + [Op(')')])
    case Group(body) => [Op('(')] + (BodyTokens(body) + [Op(')')])
    case Not(it') => [Op('!')] + ItemTokens(it')
  }

  function TermTokens(t: Term): seq<PegToken>
    decreases t
  {
    match t
    case Atom(it) => ItemTokens(it)
    case Alternatives(first, rest) => TermTokens(first) + RestTokens(rest)
    case Maybe(t') => TermTokens(t') + [Op('?')]
    case Many(t') => TermTokens(t') + [Op('*')]
  }

  function RestTokens(rest: seq<Item>): seq<PegToken>
    decreases rest
  {
    if rest == [] then [] else [Op('/')] + (ItemTokens(rest[0]) + RestTokens(rest[1..]))
  }

  function BodyTokens(ts: seq<Term>): seq<PegToken>
    decreases ts
  {
    if ts == [] then [] else TermTokens(ts[0]) + BodyTokens(ts[1..])
  }

  lemma TokensOfAlternative(first: Item, second: Item)
    ensures TermTokens(Alternatives(Atom(first), [second])) == ItemTokens(first) + ([Op('/')] + ItemTokens(second))
  {
    var rest := [second];
    assert rest[1..] == [];
    assert RestTokens(rest[1..]) == [];
    assert RestTokens(rest) == [Op('/')] + (ItemTokens(rest[0]) + RestTokens(rest[1..]));
  }

  // ----- Meaning -----

  datatype Shape =
    | KeywordShape(text: string)
    | RuleShape(name: string)
    | ListShape(name: string, children: seq<Shape>)
    | ChoiceShape(children: seq<Shape>)
    | OptionalShape(child: Shape)
    | RepeatShape(element: Shape)

  datatype Source = Source(rules: Rules, o: Order, bodies: map<string, seq<Term>>)

  // The argument of a call: a single term as it is, anything else as a list.
  function Wrap(shapes: seq<Shape>): Shape {
    if |shapes| == 1 then shapes[0] else ListShape("", shapes)
  }

  // The meaning of a piece of the body of the rule under key, with env for its parameter. A call
  // means the called rule's body with the argument in place of its parameter.
  function ItemShape(src: Source, key: string, env: Option<Shape>, it: Item): Shape
    requires key in src.rules
    decreases src.o.Level(key, src.rules[key]), it, 0
  {
    match it
    case Word(text) => KeywordShape(text)
    case RuleRef(name) => if name in src.rules[key].parameters && env.Some? then env.value else RuleShape(name)
    case Call(name, args) =>
      var arg := Wrap(BodyShapes(src, key, env, args));
      var callee := Lower(name);
      ListShape(name,
        if callee in src.rules && callee in src.bodies &&
           src.o.Level(callee, src.rules[callee]) < src.o.Level(key, src.rules[key])
        then BodyShapes(src, callee, Some(arg), src.bodies[callee]) else [])
    case Group(body) => ListShape("", BodyShapes(src, key, env, body))
    case Not(it') => ItemShape(src, key, env, it')
  }

  function TermShape(src: Source, key: string, env: Option<Shape>, t: Term): Shape
    requires key in src.rules
    decreases src.o.Level(key, src.rules[key]), t, 0
  {
    match t
    case Atom(it) => ItemShape(src, key, env, it)
    case Alternatives(first, rest) => ChoiceShape([TermShape(src, key, env, first)] + RestShapes(src, key, env, rest))
    case Maybe(t') => OptionalShape(TermShape(src, key, env, t'))
    case Many(t') => OptionalShape(RepeatShape(TermShape(src, key, env, t')))
  }

  function RestShapes(src: Source, key: string, env: Option<Shape>, rest: seq<Item>): seq<Shape>
    requires key in src.rules
    decreases src.o.Level(key, src.rules[key]), rest, 0
  {
    if rest == [] then [] else [ItemShape(src, key, env, rest[0])] + RestShapes(src, key, env, rest[1..])
  }

  function BodyShapes(src: Source, key: string, env: Option<Shape>, ts: seq<Term>): seq<Shape>
    requires key in src.rules
    decreases src.o.Level(key, src.rules[key]), ts, 0
  {
    if ts == [] then [] else [TermShape(src, key, env, ts[0])] + BodyShapes(src, key, env, ts[1..])
  }

  // ----- What the store shows -----

  type Region = nat -> bool

  function NoRegion(): Region {
    (j: nat) => false
  }

  // r and the matchers allocated from lo up to hi.
  function Plus(r: Region, lo: nat, hi: nat): Region {
    (j: nat) => r(j) || lo <= j < hi
  }

  ghost predicate Within(r: Region, r': Region) {
    forall j: nat :: r(j) ==> r'(j)
  }

  // The matcher id is a tree of the given shape whose own nodes lie in the region. References to
  // rules lead to the one matcher cached for the rule; overridden keywords to the override.
  ghost predicate Shows(f: Factory, r: Region, id: nat, shape: Shape)
    decreases shape
  {
    match shape
    case KeywordShape(text) =>
      if Lower(text) in f.overrides then id == f.overrides[Lower(text)]
      else r(id) && id < |f.nodes| && f.nodes[id] == Keyword(text, 0, ' ')
    case RuleShape(name) => name in f.cache && id == f.cache[name]
    case ListShape(name, shapes) =>
      r(id) && id < |f.nodes| && f.nodes[id].List? && f.nodes[id].name == name &&
        ShowsAll(f, r, f.nodes[id].children, shapes)
    case ChoiceShape(shapes) =>
      r(id) && id < |f.nodes| && f.nodes[id].Choice? && ShowsAll(f, r, f.nodes[id].children, shapes)
    case OptionalShape(s) => r(id) && id < |f.nodes| && f.nodes[id].Optional? && Shows(f, r, f.nodes[id].child, s)
    case RepeatShape(s) => r(id) && id < |f.nodes| && f.nodes[id].Repeat? && Shows(f, r, f.nodes[id].element, s)
  }

  ghost predicate ShowsAll(f: Factory, r: Region, ids: seq<nat>, shapes: seq<Shape>)
    decreases shapes
  {
    |ids| == |shapes| && forall k :: 0 <= k < |ids| ==> Shows(f, r, ids[k], shapes[k])
  }

  // The matcher of a rule without parameters.
  ghost predicate Complete(src: Source, f: Factory, r: Region, name: string) {
    name in f.cache && Lower(name) in src.rules && Lower(name) in src.bodies &&
    Shows(f, r, f.cache[name], ListShape(name, BodyShapes(src, Lower(name), None, src.bodies[Lower(name)])))
  }

  ghost predicate Frozen(f: Factory, f': Factory, r: Region) {
    Grows(f, f') && forall j: nat :: r(j) && j < |f.nodes| ==> f'.nodes[j] == f.nodes[j]
  }

  lemma {:induction false} ShowsFrozen(f: Factory, f': Factory, r: Region, r': Region, id: nat, shape: Shape)
    requires Shows(f, r, id, shape) && Frozen(f, f', r) && Within(r, r')
    ensures Shows(f', r', id, shape)
    decreases shape, 0
  {
    match shape
    case ListShape(_, shapes) => ShowsAllFrozen(f, f', r, r', f.nodes[id].children, shapes);
    case ChoiceShape(shapes) => ShowsAllFrozen(f, f', r, r', f.nodes[id].children, shapes);
    case OptionalShape(s) => ShowsFrozen(f, f', r, r', f.nodes[id].child, s);
    case RepeatShape(s) => ShowsFrozen(f, f', r, r', f.nodes[id].element, s);
    case _ =>
  }

  lemma {:induction false} ShowsAllFrozen(f: Factory, f': Factory, r: Region, r': Region, ids: seq<nat>,
                                          shapes: seq<Shape>)
    requires ShowsAll(f, r, ids, shapes) && Frozen(f, f', r) && Within(r, r')
    ensures ShowsAll(f', r', ids, shapes)
    decreases shapes
  {
    forall k | 0 <= k < |ids| ensures Shows(f', r', ids[k], shapes[k]) {
      ShowsFrozen(f, f', r, r', ids[k], shapes[k]);
    }
  }
}
