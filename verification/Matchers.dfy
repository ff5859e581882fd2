/** The matcher graph: what the grammar compiler builds and the interpreters run.
    Matchers live in one allocator and refer to each other by position, so a graph may share
    nodes and contain cycles. */
module Matchers {
  import opened Characters

  datatype SuggestionState =
    | CatalogName | SchemaName | TableName | TypeName | ColumnName | FileName | Variable
    | ScalarFunctionName | TableFunctionName | PragmaName | SettingName

  datatype Matcher =
    | Keyword(keyword: string, scoreBonus: int, extraChar: char)
    | List(name: string, children: seq<nat>)
    | Optional(child: nat)
    | Choice(children: seq<nat>)
    | Repeat(element: nat)
    | Identifier(suggestion: SuggestionState)
    | ReservedIdentifier(suggestion: SuggestionState)
    | StringLiteral
    | NumberLiteral
    | Operator
    | ArithmeticOperator
  {
    predicate IsLeaf() {
      !List? && !Optional? && !Choice? && !Repeat?
    }

    function Successors(): seq<nat> {
      match this
      case List(_, cs) => cs
      case Optional(c) => [c]
      case Choice(cs) => cs
      case Repeat(c) => [c]
      case _ => []
    }
  }

  predicate Below(ids: seq<nat>, bound: nat) {
    forall j :: 0 <= j < |ids| ==> ids[j] < bound
  }

  // Keyword categories; the words are stored in lower case and looked up ignoring case.
  datatype KeywordSets = KeywordSets(
    reserved: set<string>, unreserved: set<string>, columnName: set<string>, typeFunction: set<string>)

  datatype Grammar = Grammar(keywords: KeywordSets, nodes: seq<Matcher>) {
    predicate Valid() {
      forall m :: 0 <= m < |nodes| ==> Below(nodes[m].Successors(), |nodes|)
    }
  }

  datatype ParseTree =
    | KeywordResult(text: string)
    | IdentifierResult(text: string)
    | StringResult(text: string)
    | NumberResult(text: string)
    | OperatorResult(text: string)
    | ListResult(name: string, children: seq<ParseTree>)
    | OptionalResult(child: Option<ParseTree>)
    | ChoiceResult(selected: ParseTree, index: nat)
    | RepeatResult(children: seq<ParseTree>)

  // ----- Leaf matchers on one token's text -----

  datatype Verdict = Accept | Reject | Throws

  predicate IsQuoted(text: string) {
    text != "" && text[0] == '"' && text[|text| - 1] == '"'
  }

  // The in-place stripping of the outer quotes; a lone quote character becomes the empty text.
  function Unquote(text: string): string {
    if |text| <= 1 then "" else text[1..|text| - 1]
  }

  predicate SupportsStringLiteral(s: SuggestionState) {
    s.TableName? || s.FileName?
  }

  predicate LooksLikeIdentifier(s: SuggestionState, text: string) {
    text != "" &&
    (|| (text[0] == '\'' && text[|text| - 1] == '\'' && SupportsStringLiteral(s))
     || IsQuoted(text)
     || IsKeywordChar(text[0]))
  }

  predicate BannedAsIdentifier(kw: KeywordSets, s: SuggestionState, text: string) {
    var word := Lower(text);
    var functionName := s.ScalarFunctionName? || s.TableFunctionName?;
    var banned := if functionName then kw.columnName else kw.typeFunction;
    var override := if functionName then kw.typeFunction else kw.columnName;
    if s.TypeName? then word in kw.reserved || word in banned
    else (word in kw.reserved || word in banned) && !(word in kw.unreserved || word in override)
  }

  // NumberLiteralMatcher from position i on; a second exponent letter raises a parser exception.
  function NumberVerdict(text: string, i: nat, scientific: bool): Verdict
    requires i <= |text|
    decreases |text| - i
  {
    if i == |text| then Accept
    else if IsScientific(text[i]) && scientific then Throws
    else
      var sci := scientific || IsScientific(text[i]);
      if sci && (text[i] == '+' || text[i] == '-') then NumberVerdict(text, i + 1, sci)
      else if !IsNumber(text[i]) then Reject
      else NumberVerdict(text, i + 1, sci)
  }

  // An exponent letter after the first character and before position j.
  predicate ExponentBefore(text: string, j: nat)
    requires j <= |text|
  {
    exists e :: 1 <= e < j && IsScientific(text[e])
  }

  // A digit, a dot, an underscore, the only exponent letter, or a sign after it.
  predicate InNumber(text: string, j: nat)
    requires j < |text|
  {
    if ExponentBefore(text, j) then !IsScientific(text[j]) && (IsNumber(text[j]) || text[j] == '+' || text[j] == '-')
    else IsNumber(text[j])
  }

  // All from i to before j belong to the number.
  predicate AllInNumber(text: string, i: nat, j: nat)
    requires j <= |text|
  {
    forall l :: i <= l < j ==> InNumber(text, l)
  }

  // At j, the first to be out of order from i on, there is a second exponent letter.
  predicate SecondExponent(text: string, i: nat, j: nat) {
    i <= j < |text| && ExponentBefore(text, j) && IsScientific(text[j]) && AllInNumber(text, i, j)
  }

  lemma {:induction false} NumberFrom(text: string, i: nat)
    requires 1 <= i <= |text|
    ensures NumberVerdict(text, i, ExponentBefore(text, i)) == Accept <==> AllInNumber(text, i, |text|)
    ensures NumberVerdict(text, i, ExponentBefore(text, i)) == Throws <==> exists j: nat :: SecondExponent(text, i, j)
    decreases |text| - i
  {
    if i < |text| {
      var before := ExponentBefore(text, i);
      assert ExponentBefore(text, i + 1) <==> before || IsScientific(text[i]) by {
        if IsScientific(text[i]) {
          assert 1 <= i < i + 1;
        }
      }
      var next := i + 1;
      NumberFrom(text, next);
      assert AllInNumber(text, i, |text|) <==> InNumber(text, i) && AllInNumber(text, i + 1, |text|);
      if before && IsScientific(text[i]) {
        assert SecondExponent(text, i, i);
      } else if j: nat :| SecondExponent(text, i, j) {
        assert j > i ==> SecondExponent(text, next, j);
      } else if j: nat :| SecondExponent(text, next, j) {
        assert InNumber(text, i) ==> SecondExponent(text, i, j);
      }
    }
  }

  /** A number starts with a digit or dot and goes on with such, underscores, one exponent letter and signs
      after it; a second exponent letter raises the exception, when everything before it is in order. */
  lemma NumberLiterals(kw: KeywordSets, text: string)
    ensures LeafVerdict(kw, NumberLiteral, text) == Accept <==>
            text != "" && IsInitialNumber(text[0]) && AllInNumber(text, 1, |text|)
    ensures LeafVerdict(kw, NumberLiteral, text) == Throws <==>
            text != "" && IsInitialNumber(text[0]) && exists j: nat :: SecondExponent(text, 1, j)
  {
    if text != "" {
      assert !ExponentBefore(text, 1);
      NumberFrom(text, 1);
    }
  }

  const OPERATOR_CHARS: set<char> :=
    {'+', '-', '*', '/', '%', '^', '<', '>', '=', '~', '!', '@', '&', '|'}
  const ARITHMETIC_CHARS: set<char> := {'*', '/', '+', '-', '%'}

  predicate AllIn(text: string, chars: set<char>) {
    forall i :: 0 <= i < |text| ==> text[i] in chars
  }

  function LeafVerdict(kw: KeywordSets, m: Matcher, text: string): Verdict
    requires m.IsLeaf()
  {
    match m
    case Keyword(keyword, _, _) => if EqualsIgnoringCase(keyword, text) then Accept else Reject
    case Identifier(s) =>
      if !BannedAsIdentifier(kw, s, text) && LooksLikeIdentifier(s, text) then Accept else Reject
    case ReservedIdentifier(s) => if LooksLikeIdentifier(s, text) then Accept else Reject
    case StringLiteral =>
      if |text| >= 2 && text[0] == '\'' && text[|text| - 1] == '\'' then Accept else Reject
    case NumberLiteral =>
      if text == "" || !IsInitialNumber(text[0]) then Reject else NumberVerdict(text, 1, false)
    case Operator => if AllIn(text, OPERATOR_CHARS) then Accept else Reject
    case ArithmeticOperator => if AllIn(text, ARITHMETIC_CHARS) then Accept else Reject
  }

  // What an accepting leaf leaves in the token vector.
  function LeafRewrite(m: Matcher, text: string): string {
    if m.Identifier? && IsQuoted(text) then Unquote(text) else text
  }

  function LeafTree(m: Matcher, text: string): ParseTree
    requires m.IsLeaf()
  {
    match m
    case Keyword(_, _, _) => KeywordResult(text)
    case Identifier(_) => IdentifierResult(LeafRewrite(m, text))
    case ReservedIdentifier(_) => IdentifierResult(text)
    case StringLiteral => StringResult(Unquote(text))
    case NumberLiteral => NumberResult(text)
    case Operator => OperatorResult(text)
    case ArithmeticOperator => OperatorResult(text)
  }

  /** The checks of the leaf matchers, with their loops and early exits. */
  method MatchLeaf(kw: KeywordSets, m: Matcher, text: string) returns (v: Verdict)
    requires m.IsLeaf()
    ensures v == LeafVerdict(kw, m, text)
  {
    if m.NumberLiteral? {
      if text == "" || !IsInitialNumber(text[0]) {
        return Reject;
      }
      var scientific := false;
      var i := 1;
      while i < |text|
        invariant 1 <= i <= |text|
        invariant NumberVerdict(text, 1, false) == NumberVerdict(text, i, scientific)
      {
        if IsScientific(text[i]) {
          if scientific {
            return Throws;
          }
          scientific := true;
        }
        if !(scientific && (text[i] == '+' || text[i] == '-')) && !IsNumber(text[i]) {
          return Reject;
        }
        i := i + 1;
      }
      return Accept;
    }
    match m
    case Keyword(keyword, _, _) =>
      var same := CIEquals(keyword, text);
      return if same then Accept else Reject;
    case Identifier(s) =>
      var matches := MatchIdentifier(kw, s, text);
      return if matches then Accept else Reject;
    case ReservedIdentifier(s) =>
      var matches := IsIdentifier(s, text);
      return if matches then Accept else Reject;
    case StringLiteral =>
      if |text| >= 2 && text[0] == '\'' && text[|text| - 1] == '\'' {
        return Accept;
      }
      return Reject;
    case Operator => v := MatchAll(text, OPERATOR_CHARS);
    case ArithmeticOperator => v := MatchAll(text, ARITHMETIC_CHARS);
  }

  method CIEquals(s: string, t: string) returns (same: bool)
    ensures same <==> EqualsIgnoringCase(s, t)
  {
    if |s| != |t| {
      return false;
    }
    for i := 0 to |s|
      invariant forall j :: 0 <= j < i ==> Lower(s)[j] == Lower(t)[j]
    {
      if ToLower(s[i]) != ToLower(t[i]) {
        assert Lower(s)[i] != Lower(t)[i];
        return false;
      }
    }
    return true;
  }

  // The categories are looked up one by one; types have no category that overrides a ban.
  method MatchIdentifier(kw: KeywordSets, s: SuggestionState, text: string) returns (matches: bool)
    ensures matches <==> !BannedAsIdentifier(kw, s, text) && LooksLikeIdentifier(s, text)
  {
    var word := Lower(text);
    var banned, override := kw.typeFunction, kw.columnName;
    if s.ScalarFunctionName? || s.TableFunctionName? {
      banned, override := kw.columnName, kw.typeFunction;
    }
    if word in kw.reserved || word in banned {
      if s.TypeName? || !(word in kw.unreserved || word in override) {
        return false;
      }
    }
    matches := IsIdentifier(s, text);
  }

  method IsIdentifier(s: SuggestionState, text: string) returns (matches: bool)
    ensures matches <==> LooksLikeIdentifier(s, text)
  {
    if text == "" {
      return false;
    }
    if text[0] == '\'' && text[|text| - 1] == '\'' && SupportsStringLiteral(s) {
      return true;
    }
    if IsQuoted(text) {
      return true;
    }
    return IsKeywordChar(text[0]);
  }

  method MatchAll(text: string, chars: set<char>) returns (v: Verdict)
    ensures v == if AllIn(text, chars) then Accept else Reject
  {
    for i := 0 to |text|
      invariant AllIn(text[..i], chars)
    {
      if text[i] !in chars {
        return Reject;
      }
    }
    assert text[..|text|] == text;
    return Accept;
  }

  // A subset is no larger: what has not been built or suggested yet only shrinks.
  lemma {:induction false} CardinalityMonotone<T>(s: set<T>, t: set<T>)
    requires s <= t
    ensures |s| <= |t|
  {
    if s != {} {
      var x :| x in s;
      CardinalityMonotone(s - {x}, t - {x});
    }
  }
}
