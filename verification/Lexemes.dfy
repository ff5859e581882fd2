/** What the tokenizer recognises, written as functions of the query text and a position. */
module Lexemes {
  import opened Characters

  datatype TokenizeState =
    | STANDARD | SINGLE_LINE_COMMENT | MULTI_LINE_COMMENT | QUOTED_IDENTIFIER | STRING_LITERAL
    | KEYWORD | NUMERIC | OPERATOR | DOLLAR_QUOTED_STRING

  datatype Token = Token(text: string, offset: nat)

  datatype Event = Push(token: Token) | StatementEnd

  // What starts at a position in the standard state, and where the text goes on.
  datatype Lexeme =
    | Skip(next: nat, lastPos: nat)
    | Emit(token: Token, next: nat)
    | EndStatement(next: nat)
    | Open(state: TokenizeState, lastPos: nat)

  // ----- Where a run of characters ends -----

  function RunEnd(sql: string, i: nat, accepts: char -> bool): (e: nat)
    requires i <= |sql|
    ensures i <= e <= |sql| && (e < |sql| ==> !accepts(sql[e]))
    ensures forall j :: i <= j < e ==> accepts(sql[j])
    decreases |sql| - i
  {
    if i < |sql| && accepts(sql[i]) then RunEnd(sql, i + 1, accepts) else i
  }

  predicate NumberContinues(c: char, previous: char) {
    || IsInitialNumber(c) || c == '_'
    || (IsScientific(c) && !IsScientific(previous))
    || ((c == '+' || c == '-') && IsScientific(previous))
  }

  predicate ContinuesAt(sql: string, i: nat) {
    0 < i < |sql| && NumberContinues(sql[i], sql[i - 1])
  }

  function NumberRun(sql: string, i: nat): (e: nat)
    requires 0 < i <= |sql|
    ensures i <= e <= |sql| && !ContinuesAt(sql, e)
    ensures forall j :: i <= j < e ==> ContinuesAt(sql, j)
    decreases |sql| - i
  {
    if ContinuesAt(sql, i) then NumberRun(sql, i + 1) else i
  }

  // Back to the last digit or dot.
  function CutBack(sql: string, start: nat, i: nat): (e: nat)
    requires start < i <= |sql| && IsInitialNumber(sql[start])
    ensures start < e <= i && IsInitialNumber(sql[e - 1])
    ensures forall j :: e <= j < i ==> !IsInitialNumber(sql[j])
    decreases i
  {
    if IsInitialNumber(sql[i - 1]) then i else CutBack(sql, start, i - 1)
  }

  // The position after the closing quote; a doubled quote is an escape.
  function QuoteEnd(sql: string, quote: char, i: nat): (e: Option<nat>)
    requires i <= |sql|
    ensures e.Some? ==> i < e.value <= |sql| && sql[e.value - 1] == quote
    decreases |sql| - i
  {
    if i == |sql| then None
    else if sql[i] != quote then QuoteEnd(sql, quote, i + 1)
    else if i + 1 < |sql| && sql[i + 1] == quote then QuoteEnd(sql, quote, i + 2)
    else Some(i + 1)
  }

  function LineEnd(sql: string, i: nat): (e: Option<nat>)
    requires i <= |sql|
    ensures e.Some? ==> i < e.value <= |sql|
    decreases |sql| - i
  {
    if i == |sql| then None
    else if sql[i] == '\n' || sql[i] == '\r' then Some(i + 1)
    else LineEnd(sql, i + 1)
  }

  function CommentEnd(sql: string, i: nat): (e: Option<nat>)
    requires i <= |sql|
    ensures e.Some? ==> i < e.value <= |sql|
    decreases |sql| - i
  {
    if i == |sql| then None
    else if sql[i] == '*' && i + 1 < |sql| && sql[i + 1] == '/' then Some(i + 2)
    else CommentEnd(sql, i + 1)
  }

  // ----- Dollar quotes -----

  function FirstDollar(sql: string, i: nat): (e: nat)
    requires i <= |sql|
    ensures i <= e <= |sql| && (e < |sql| ==> sql[e] == '$')
    ensures forall j :: i <= j < e ==> sql[j] != '$'
    decreases |sql| - i
  {
    if i < |sql| && sql[i] != '$' then FirstDollar(sql, i + 1) else i
  }

  // The dollar that ends the marker, when only tag characters come before it.
  function MarkerEnd(sql: string, i: nat): (e: Option<nat>)
    requires i <= |sql|
    ensures e.Some? ==> i <= e.value < |sql| && sql[e.value] == '$'
    ensures e.Some? ==> forall j :: i <= j < e.value ==> IsDollarTagChar(sql[j])
    decreases |sql| - i
  {
    if i == |sql| then None
    else if sql[i] == '$' then Some(i)
    else if IsDollarTagChar(sql[i]) then MarkerEnd(sql, i + 1)
    else None
  }

  predicate ClosesAt(sql: string, marker: string, i: nat)
    requires i < |sql|
  {
    && sql[i] == '$' && i + 1 < |sql|
    && var end := FirstDollar(sql, i + 1);
       end < |sql| && end - (i + 1) == |marker| && sql[i + 1..end] == marker
  }

  // The dollar at which the closing marker starts.
  function DollarClose(sql: string, marker: string, i: nat): (e: Option<nat>)
    requires i <= |sql|
    ensures e.Some? ==> i <= e.value && e.value + |marker| + 2 <= |sql|
    decreases |sql| - i
  {
    if i == |sql| then None
    else if ClosesAt(sql, marker, i) then Some(i)
    else DollarClose(sql, marker, i + 1)
  }

  // ----- Operators -----

  predicate Pair(sql: string, i: nat, a: char, b: char) {
    i + 1 < |sql| && sql[i] == a && sql[i + 1] == b
  }

  function SpecialOperator(sql: string, i: nat): (opLen: nat)
    ensures opLen in {0, 2, 3} && (opLen > 0 ==> i + opLen <= |sql|)
  {
    if Pair(sql, i, '-', '>') && Pair(sql, i + 1, '>', '>') then 3
    else if || Pair(sql, i, ':', ':') || Pair(sql, i, ':', '=') || Pair(sql, i, '-', '>')
            || Pair(sql, i, '*', '*') || Pair(sql, i, '/', '/') then 2
    else 0
  }

  // ----- One lexeme -----

  // The tokenizer's situation at the top of its loop.
  predicate At(sql: string, state: TokenizeState, i: nat, lastPos: nat, marker: string) {
    && lastPos <= i <= |sql|
    && (!state.STANDARD? ==> lastPos < i)
    && (state.NUMERIC? ==> IsInitialNumber(sql[lastPos]))
    && (if state.DOLLAR_QUOTED_STRING? then lastPos + |marker| + 2 <= i else marker == "")
  }

  function Number(sql: string, i: nat, start: nat): (l: Lexeme)
    requires start < i <= |sql| && IsInitialNumber(sql[start])
    ensures Within(sql, l) && (l.Open? || (l.Emit? && l.next > start))
  {
    var e := NumberRun(sql, i);
    if e == |sql| then Open(NUMERIC, start) else Word(sql, NUMERIC, start, CutBack(sql, start, e))
  }

  // The token's offset is the marker's length, as the source has it.
  function DollarQuote(sql: string, i: nat, start: nat, marker: string): (l: Lexeme)
    requires start + |marker| + 2 <= i <= |sql|
    ensures Within(sql, l) && (l.Open? || (l.Emit? && l.next > start))
  {
    match DollarClose(sql, marker, i)
    case None => Open(DOLLAR_QUOTED_STRING, start)
    case Some(q) => Emit(Token("'" + sql[start + |marker| + 2..q] + "'", |marker| + 2), q + |marker| + 2)
  }

  // How a lexeme that is already open goes on from i.
  function Body(sql: string, state: TokenizeState, i: nat, lastPos: nat, marker: string): (l: Lexeme)
    requires !state.STANDARD? && At(sql, state, i, lastPos, marker)
    ensures Within(sql, l) && (l.Open? || l.next > lastPos)
  {
    match state
    case KEYWORD => Word(sql, state, lastPos, RunEnd(sql, i, IsKeywordChar))
    case OPERATOR => Word(sql, state, lastPos, RunEnd(sql, i, IsOperatorChar))
    case NUMERIC => Number(sql, i, lastPos)
    case STRING_LITERAL => Delimited(sql, state, lastPos, QuoteEnd(sql, '\'', i))
    case QUOTED_IDENTIFIER => Delimited(sql, state, lastPos, QuoteEnd(sql, '"', i))
    case SINGLE_LINE_COMMENT => Comment(sql, state, lastPos, LineEnd(sql, i))
    case MULTI_LINE_COMMENT => Comment(sql, state, lastPos, CommentEnd(sql, i))
    case DOLLAR_QUOTED_STRING => DollarQuote(sql, i, lastPos, marker)
  }

  predicate Within(sql: string, l: Lexeme) {
    match l
    case Skip(next, lastPos) => lastPos <= next <= |sql|
    case Emit(_, next) => next <= |sql|
    case EndStatement(next) => next <= |sql|
    case Open(_, lastPos) => lastPos <= |sql|
  }

  function Word(sql: string, state: TokenizeState, start: nat, end: nat): Lexeme
    requires start <= end <= |sql|
  {
    if end == |sql| then Open(state, start) else Emit(Token(sql[start..end], start), end)
  }

  function Delimited(sql: string, state: TokenizeState, start: nat, end: Option<nat>): Lexeme
    requires start <= |sql| && (end.Some? ==> start <= end.value <= |sql|)
  {
    match end
    case None => Open(state, start)
    case Some(e) => Emit(Token(sql[start..e], start), e)
  }

  function Comment(sql: string, state: TokenizeState, start: nat, end: Option<nat>): Lexeme {
    match end
    case None => Open(state, start)
    case Some(e) => Skip(e, e)
  }

  // What a dollar in the standard state does.
  function Dollar(sql: string, i: nat, lastPos: nat): (l: Lexeme)
    requires lastPos <= i < |sql|
    ensures Within(sql, l) && (l.Open? || l.next > i)
  {
    if i + 1 >= |sql| || '0' <= sql[i + 1] <= '9' then Skip(i + 1, lastPos)
    else match MarkerEnd(sql, i + 1)
         case None => Skip(i + 1, i)
         case Some(d) => Body(sql, DOLLAR_QUOTED_STRING, d + 1, i, sql[i + 1..d])
  }

  function Next(sql: string, i: nat, lastPos: nat): (l: Lexeme)
    requires lastPos <= i < |sql|
    ensures Within(sql, l) && (l.Open? || l.next > i)
  {
    var c := sql[i];
    if c == '\'' then Body(sql, STRING_LITERAL, i + 1, i, "")
    else if c == '"' then Body(sql, QUOTED_IDENTIFIER, i + 1, i, "")
    else if c == ';' then EndStatement(i + 1)
    else if c == '$' then Dollar(sql, i, lastPos)
    else if Pair(sql, i, '-', '-') then Body(sql, SINGLE_LINE_COMMENT, i + 2, lastPos, "")
    else if Pair(sql, i, '/', '*') then Body(sql, MULTI_LINE_COMMENT, i + 2, lastPos, "")
    else if IsSpace(c) then Skip(i + 1, i + 1)
    else if SpecialOperator(sql, i) > 0 then
      Emit(Token(sql[i..i + SpecialOperator(sql, i)], lastPos), i + SpecialOperator(sql, i))
    else if IsSingleByteOperator(c) then Emit(Token([c], lastPos), i + 1)
    else if IsInitialNumber(c) then Body(sql, NUMERIC, i + 1, i, "")
    else if IsPunctuation(c) then Body(sql, OPERATOR, i + 1, i, "")
    else Body(sql, KEYWORD, i + 1, i, "")
  }

  // ----- The whole text -----

  // What is pushed, the state at the end of the text, and the position the last word starts at.
  datatype Scan = Scan(events: seq<Event>, state: TokenizeState, lastPos: nat)

  function Left(sql: string, l: Lexeme): nat
    requires Within(sql, l)
  {
    if l.Open? then 0 else |sql| - l.next
  }

  function Lex(sql: string, i: nat, lastPos: nat): (s: Scan)
    requires lastPos <= i <= |sql|
    decreases |sql| - i, 0
  {
    if i == |sql| then Scan([], STANDARD, lastPos) else Follow(sql, Next(sql, i, lastPos))
  }

  function Follow(sql: string, l: Lexeme): (s: Scan)
    requires Within(sql, l)
    decreases Left(sql, l), 1
  {
    match l
    case Skip(next, lastPos) => Lex(sql, next, lastPos)
    case Emit(token, next) => var s := Lex(sql, next, next); s.(events := [Push(token)] + s.events)
    case EndStatement(next) => var s := Lex(sql, next, next); s.(events := [StatementEnd] + s.events)
    case Open(state, lastPos) => Scan([], state, lastPos)
  }

  function From(sql: string, state: TokenizeState, i: nat, lastPos: nat, marker: string): Scan
    requires At(sql, state, i, lastPos, marker)
  {
    if state.STANDARD? then Lex(sql, i, lastPos) else Follow(sql, Body(sql, state, i, lastPos, marker))
  }
}
