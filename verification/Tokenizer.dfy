/** The tokenizer's loop over the query text: its index moves back at the end of words and numbers. */
module Tokenizer {
  import opened Characters
  import opened Lexemes

  // The finished statements and the tokens of the current one.
  datatype Output = Output(statements: seq<seq<Token>>, tokens: seq<Token>)

  function Apply(o: Output, events: seq<Event>): Output
    decreases |events|
  {
    if events == [] then o
    else match events[0]
         case Push(t) => Apply(o.(tokens := o.tokens + [t]), events[1..])
         case StatementEnd => Apply(Output(o.statements + [o.tokens], []), events[1..])
  }

  // Where a run of the loop ends up.
  datatype Final = Final(output: Output, state: TokenizeState, lastPos: nat)

  function Finish(o: Output, s: Scan): Final {
    Final(Apply(o, s.events), s.state, s.lastPos)
  }

  // The final state decides whether there is a last word, and where it starts.
  function LastWord(sql: string, state: TokenizeState, lastPos: nat): (w: Option<Token>)
    requires lastPos <= |sql| && (state.STRING_LITERAL? ==> lastPos < |sql|)
  {
    match state
    case STRING_LITERAL => Some(Token(sql[lastPos + 1..], lastPos + 1))
    case SINGLE_LINE_COMMENT => None
    case MULTI_LINE_COMMENT => None
    case _ => Some(Token(sql[lastPos..], lastPos))
  }

  // The source's termination measure: the last position grows, or a lexeme opens, or the index grows.
  predicate Progress(state: TokenizeState, i: nat, lastPos: nat, state': TokenizeState, i': nat, lastPos': nat) {
    || lastPos < lastPos'
    || (lastPos == lastPos' && state.STANDARD? && !state'.STANDARD?)
    || (lastPos == lastPos' && state.STANDARD? == state'.STANDARD? && i < i')
  }

  lemma Skips(sql: string, i: nat, lastPos: nat, next: nat, lastPos': nat)
    requires lastPos <= i < |sql| && Next(sql, i, lastPos) == Skip(next, lastPos')
    ensures Lex(sql, i, lastPos) == Lex(sql, next, lastPos')
  {
  }

  lemma Emits(sql: string, i: nat, lastPos: nat, token: Token, next: nat, o: Output)
    requires lastPos <= i < |sql| && Next(sql, i, lastPos) == Emit(token, next)
    ensures Finish(o, Lex(sql, i, lastPos)) == Finish(o.(tokens := o.tokens + [token]), Lex(sql, next, next))
  {
  }

  lemma EndsStatement(sql: string, i: nat, lastPos: nat, o: Output)
    requires lastPos <= i < |sql| && Next(sql, i, lastPos) == EndStatement(i + 1)
    ensures Finish(o, Lex(sql, i, lastPos)) == Finish(Output(o.statements + [o.tokens], []), Lex(sql, i + 1, i + 1))
  {
  }

  // One character of a number: it goes on, or ends where the cut-back says.
  lemma NumberStep(sql: string, i: nat, start: nat)
    requires start < i < |sql| && IsInitialNumber(sql[start])
    ensures Number(sql, i, start) ==
            if NumberContinues(sql[i], sql[i - 1]) then Number(sql, i + 1, start)
            else var e := CutBack(sql, start, i); Emit(Token(sql[start..e], start), e)
  {
  }

  lemma DollarStep(sql: string, i: nat, start: nat, marker: string)
    requires start + |marker| + 2 <= i < |sql|
    ensures DollarQuote(sql, i, start, marker) ==
            if ClosesAt(sql, marker, i) then
              Emit(Token("'" + sql[start + |marker| + 2..i] + "'", |marker| + 2), i + |marker| + 2)
            else
              DollarQuote(sql, i + 1, start, marker)
  {
  }

  lemma Inner(sql: string, start: nat, end: nat, cut: nat)
    requires start + cut <= end - cut && end <= |sql|
    ensures sql[start..end][cut..(end - start) - cut] == sql[start + cut..end - cut]
  {
    var inner, outer := sql[start..end][cut..(end - start) - cut], sql[start + cut..end - cut];
    assert forall j :: 0 <= j < |outer| ==> inner[j] == outer[j];
  }

  // The characters of op, from i on.
  predicate StartsWith(sql: string, i: nat, op: string) {
    i + |op| <= |sql| && forall j :: 0 <= j < |op| ==> sql[i + j] == op[j]
  }

  lemma StartsWithPair(sql: string, i: nat, op: string)
    requires |op| == 2
    ensures StartsWith(sql, i, op) <==> Pair(sql, i, op[0], op[1])
  {
    if StartsWith(sql, i, op) {
      assert sql[i + 0] == op[0] && sql[i + 1] == op[1];
    }
  }

  class ParserTokenizer {
    const sql: string
    var tokens: seq<Token>
    var statements: seq<seq<Token>>

    constructor (sql: string)
      ensures this.sql == sql && tokens == [] && statements == []
    {
      this.sql := sql;
      tokens, statements := [], [];
    }

    function Out(): Output
      reads this
    {
      Output(statements, tokens)
    }

    // Where the run ends up from here.
    function Reaches(state: TokenizeState, i: nat, lastPos: nat, marker: string): Final
      requires At(sql, state, i, lastPos, marker)
      reads this
    {
      Finish(Out(), From(sql, state, i, lastPos, marker))
    }

    method PushToken(start: nat, end: nat)
      requires end <= |sql|
      modifies this`tokens
      ensures tokens == if start < end then old(tokens) + [Token(sql[start..end], start)] else old(tokens)
    {
      if start >= end {
        return;
      }
      var lastToken := sql[start..end];
      tokens := tokens + [Token(lastToken, start)];
    }

    method OnStatementEnd(pos: nat)
      modifies this
      ensures statements == old(statements) + [old(tokens)] && tokens == []
    {
      statements := statements + [tokens];
      tokens := [];
    }

    method OnLastToken(state: TokenizeState, lastWord: string, lastPos: nat)
      modifies this`tokens
      ensures tokens == if lastWord == "" then old(tokens) else old(tokens) + [Token(lastWord, lastPos)]
    {
      if lastWord == "" {
        return;
      }
      tokens := tokens + [Token(lastWord, lastPos)];
    }

    method OperatorEquals(pos: nat, op: string) returns (equal: bool)
      requires pos + |op| <= |sql|
      ensures equal == StartsWith(sql, pos, op)
      ensures |op| == 2 ==> equal == Pair(sql, pos, op[0], op[1])
    {
      if |op| == 2 {
        StartsWithPair(sql, pos, op);
      }
      for i := 0 to |op|
        invariant forall j :: 0 <= j < i ==> sql[pos + j] == op[j]
      {
        if sql[pos + i] != op[i] {
          return false;
        }
      }
      return true;
    }

    method IsSpecialOperator(pos: nat) returns (special: bool, opLen: nat)
      requires pos < |sql|
      ensures special == (SpecialOperator(sql, pos) > 0) && (special ==> opLen == SpecialOperator(sql, pos))
    {
      opLen := 0;
      if pos + 2 < |sql| {
        special := OperatorEquals(pos, "->>");
        assert special == (sql[pos] == "->>"[0] && sql[pos + 1] == "->>"[1] && sql[pos + 2] == "->>"[2]);
        if special {
          return true, 3;
        }
      }
      if pos + 1 >= |sql| {
        return false, 0;
      }
      special := OperatorEquals(pos, "::");
      if !special {
        special := OperatorEquals(pos, ":=");
      }
      if !special {
        special := OperatorEquals(pos, "->");
      }
      if !special {
        special := OperatorEquals(pos, "**");
      }
      if !special {
        special := OperatorEquals(pos, "//");
      }
      return special, 2;
    }

    // A word, operator or number ends before i: it is pushed, and the index steps back.
    method EndWord(start: nat, end: nat) returns (i: nat, lastPos: nat)
      requires start < end < |sql|
      modifies this`tokens
      ensures i + 1 == end == lastPos && At(sql, STANDARD, i + 1, lastPos, "")
      ensures Reaches(STANDARD, i + 1, lastPos, "") ==
              old(Finish(Out(), Follow(sql, Emit(Token(sql[start..end], start), end))))
    {
      hide Next;
      PushToken(start, end);
      return end - 1, end;
    }

    method Keyword(i: nat, start: nat) returns (state: TokenizeState, i': nat, lastPos: nat)
      requires i < |sql| && At(sql, KEYWORD, i, start, "")
      modifies this`tokens
      ensures At(sql, state, i' + 1, lastPos, "") && Progress(KEYWORD, i, start, state, i' + 1, lastPos)
      ensures Reaches(state, i' + 1, lastPos, "") == old(Reaches(KEYWORD, i, start, ""))
    {
      hide Next;
      state, i', lastPos := KEYWORD, i, start;
      if !IsKeywordChar(sql[i]) {
        i', lastPos := EndWord(start, i);
        state := STANDARD;
      }
    }

    method Operator(i: nat, start: nat) returns (state: TokenizeState, i': nat, lastPos: nat)
      requires i < |sql| && At(sql, OPERATOR, i, start, "")
      modifies this`tokens
      ensures At(sql, state, i' + 1, lastPos, "") && Progress(OPERATOR, i, start, state, i' + 1, lastPos)
      ensures Reaches(state, i' + 1, lastPos, "") == old(Reaches(OPERATOR, i, start, ""))
    {
      hide Next;
      state, i', lastPos := OPERATOR, i, start;
      if !IsOperatorChar(sql[i]) {
        i', lastPos := EndWord(start, i);
        state := STANDARD;
      }
    }

    method BackToNumber(start: nat, i: nat) returns (end: nat)
      requires start < i <= |sql| && IsInitialNumber(sql[start])
      ensures end == CutBack(sql, start, i)
    {
      end := i;
      while !IsInitialNumber(sql[end - 1])
        invariant start < end <= i
        invariant CutBack(sql, start, end) == CutBack(sql, start, i)
        decreases end
      {
        end := end - 1;
      }
    }

    method Numeric(i: nat, start: nat) returns (state: TokenizeState, i': nat, lastPos: nat)
      requires i < |sql| && At(sql, NUMERIC, i, start, "")
      modifies this`tokens
      ensures At(sql, state, i' + 1, lastPos, "") && Progress(NUMERIC, i, start, state, i' + 1, lastPos)
      ensures Reaches(state, i' + 1, lastPos, "") == old(Reaches(NUMERIC, i, start, ""))
    {
      hide Next;
      var c := sql[i];
      NumberStep(sql, i, start);
      if IsInitialNumber(c) || c == '_' {
        return NUMERIC, i, start;
      }
      if IsScientific(c) {
        if !IsScientific(sql[i - 1]) {
          return NUMERIC, i, start;
        }
      }
      if c == '+' || c == '-' {
        if IsScientific(sql[i - 1]) {
          return NUMERIC, i, start;
        }
      }
      var end := BackToNumber(start, i);
      state := STANDARD;
      i', lastPos := EndWord(start, end);
    }

    // Both kinds of quotes.
    method Quoted(open: TokenizeState, quote: char, i: nat, start: nat)
      returns (state: TokenizeState, i': nat, lastPos: nat)
      requires (open == STRING_LITERAL && quote == '\'') || (open == QUOTED_IDENTIFIER && quote == '"')
      requires i < |sql| && At(sql, open, i, start, "")
      modifies this`tokens
      ensures At(sql, state, i' + 1, lastPos, "") && Progress(open, i, start, state, i' + 1, lastPos)
      ensures Reaches(state, i' + 1, lastPos, "") == old(Reaches(open, i, start, ""))
    {
      hide Next;
      state, i', lastPos := open, i, start;
      if sql[i] == quote {
        if i + 1 < |sql| && sql[i + 1] == quote {
          i' := i' + 1;
        } else {
          PushToken(lastPos, i' + 1);
          lastPos := i' + 1;
          state := STANDARD;
        }
      }
    }

    method SingleLineComment(i: nat, start: nat) returns (state: TokenizeState, i': nat, lastPos: nat)
      requires i < |sql| && At(sql, SINGLE_LINE_COMMENT, i, start, "")
      ensures At(sql, state, i' + 1, lastPos, "") && Progress(SINGLE_LINE_COMMENT, i, start, state, i' + 1, lastPos)
      ensures Reaches(state, i' + 1, lastPos, "") == Reaches(SINGLE_LINE_COMMENT, i, start, "")
    {
      state, i', lastPos := SINGLE_LINE_COMMENT, i, start;
      if sql[i] == '\n' || sql[i] == '\r' {
        lastPos := i' + 1;
        state := STANDARD;
      }
    }

    method MultiLineComment(i: nat, start: nat) returns (state: TokenizeState, i': nat, lastPos: nat)
      requires i < |sql| && At(sql, MULTI_LINE_COMMENT, i, start, "")
      ensures At(sql, state, i' + 1, lastPos, "") && Progress(MULTI_LINE_COMMENT, i, start, state, i' + 1, lastPos)
      ensures Reaches(state, i' + 1, lastPos, "") == Reaches(MULTI_LINE_COMMENT, i, start, "")
    {
      state, i', lastPos := MULTI_LINE_COMMENT, i, start;
      if sql[i] == '*' && i + 1 < |sql| && sql[i + 1] == '/' {
        i' := i' + 1;
        lastPos := i' + 1;
        state := STANDARD;
      }
    }

    method DollarQuoted(i: nat, start: nat, marker: string)
      returns (state: TokenizeState, i': nat, lastPos: nat, marker': string)
      requires i < |sql| && At(sql, DOLLAR_QUOTED_STRING, i, start, marker)
      modifies this`tokens
      ensures At(sql, state, i' + 1, lastPos, marker') &&
              Progress(DOLLAR_QUOTED_STRING, i, start, state, i' + 1, lastPos)
      ensures Reaches(state, i' + 1, lastPos, marker') == old(Reaches(DOLLAR_QUOTED_STRING, i, start, marker))
    {
      hide Next;
      state, i', lastPos, marker' := DOLLAR_QUOTED_STRING, i, start, marker;
      DollarStep(sql, i, start, marker);
      if sql[i] != '$' || i + 1 >= |sql| {
        return;
      }
      var from := i + 1;
      var end := from;
      while end < |sql| && sql[end] != '$'
        invariant from <= end <= |sql| && FirstDollar(sql, end) == FirstDollar(sql, from)
      {
        end := end + 1;
      }
      if end >= |sql| || end - from != |marker| || sql[from..end] != marker {
        return;
      }
      var fullMarkerLen := |marker| + 2;
      var quoted := sql[lastPos..from + |marker| + 1];
      var text := "'" + quoted[fullMarkerLen..|quoted| - fullMarkerLen] + "'";
      Inner(sql, lastPos, from + |marker| + 1, fullMarkerLen);
      tokens := tokens + [Token(text, fullMarkerLen)];
      marker', state := "", STANDARD;
      i' := end;
      lastPos := i' + 1;
    }

    // A dollar in the standard state opens a quoted string, or is passed over.
    method OnDollar(i: nat, start: nat) returns (state: TokenizeState, i': nat, lastPos: nat, marker: string)
      requires start <= i < |sql| && sql[i] == '$'
      ensures At(sql, state, i' + 1, lastPos, marker) && Progress(STANDARD, i, start, state, i' + 1, lastPos)
      ensures Reaches(state, i' + 1, lastPos, marker) == Reaches(STANDARD, i, start, "")
    {
      state, i', lastPos, marker := STANDARD, i, start, "";
      assert Next(sql, i, start) == Dollar(sql, i, start);
      hide Next;
      if i + 1 >= |sql| || '0' <= sql[i + 1] <= '9' {
        Skips(sql, i, start, i + 1, start);
        return;
      }
      lastPos := i;
      var nextDollar := 0;
      var idx := i + 1;
      while idx < |sql|
        invariant i + 1 <= idx <= |sql| && nextDollar == 0 && MarkerEnd(sql, idx) == MarkerEnd(sql, i + 1)
      {
        if sql[idx] == '$' {
          nextDollar := idx;
          break;
        }
        if !IsDollarTagChar(sql[idx]) {
          break;
        }
        idx := idx + 1;
      }
      if nextDollar == 0 {
        assert MarkerEnd(sql, i + 1) == None;
        Skips(sql, i, start, i + 1, i);
        return;
      }
      assert MarkerEnd(sql, i + 1) == Some(nextDollar);
      state := DOLLAR_QUOTED_STRING;
      i' := nextDollar;
      marker := sql[lastPos + 1..i'];
    }

    // No quote, dollar, comment, semicolon or space: an operator is pushed, or a longer lexeme opens.
    method OperatorOrWord(i: nat, start: nat) returns (state: TokenizeState, i': nat, lastPos: nat)
      requires start <= i < |sql| && sql[i] !in {'\'', '"', ';', '$'} && !IsSpace(sql[i])
      requires !Pair(sql, i, '-', '-') && !Pair(sql, i, '/', '*')
      modifies this`tokens
      ensures At(sql, state, i' + 1, lastPos, "") && Progress(STANDARD, i, start, state, i' + 1, lastPos)
      ensures Reaches(state, i' + 1, lastPos, "") == old(Reaches(STANDARD, i, start, ""))
    {
      var c := sql[i];
      state, i', lastPos := STANDARD, i, start;
      var special, opLen := IsSpecialOperator(i);
      if special {
        Emits(sql, i, start, Token(sql[i..i + opLen], start), i + opLen, Out());
        tokens := tokens + [Token(sql[i..i + opLen], lastPos)];
        i' := i + opLen - 1;
        lastPos := i' + 1;
        return;
      }
      if IsSingleByteOperator(c) {
        Emits(sql, i, start, Token([c], start), i + 1, Out());
        tokens := tokens + [Token([c], lastPos)];
        lastPos := i + 1;
        return;
      }
      lastPos := i;
      if IsInitialNumber(c) {
        state := NUMERIC;
      } else if IsPunctuation(c) {
        state := OPERATOR;
      } else {
        state := KEYWORD;
      }
    }

    method CommentOrSpace(i: nat, start: nat) returns (state: TokenizeState, i': nat, lastPos: nat)
      requires start <= i < |sql| && sql[i] !in {'\'', '"', ';', '$'}
      modifies this`tokens
      ensures At(sql, state, i' + 1, lastPos, "") && Progress(STANDARD, i, start, state, i' + 1, lastPos)
      ensures Reaches(state, i' + 1, lastPos, "") == old(Reaches(STANDARD, i, start, ""))
    {
      var c := sql[i];
      assert IsSpace(c) ==> Next(sql, i, start) == Skip(i + 1, i + 1);
      if c == '-' && i + 1 < |sql| && sql[i + 1] == '-' {
        return SINGLE_LINE_COMMENT, i + 1, start;
      }
      if c == '/' && i + 1 < |sql| && sql[i + 1] == '*' {
        return MULTI_LINE_COMMENT, i + 1, start;
      }
      if IsSpace(c) {
        Skips(sql, i, start, i + 1, i + 1);
        return STANDARD, i, i + 1;
      }
      state, i', lastPos := OperatorOrWord(i, start);
    }

    method Standard(i: nat, start: nat) returns (state: TokenizeState, i': nat, lastPos: nat, marker: string)
      requires start <= i < |sql|
      modifies this
      ensures At(sql, state, i' + 1, lastPos, marker) && Progress(STANDARD, i, start, state, i' + 1, lastPos)
      ensures Reaches(state, i' + 1, lastPos, marker) == old(Reaches(STANDARD, i, start, ""))
    {
      var c := sql[i];
      state, i', lastPos, marker := STANDARD, i, start, "";
      if c == '\'' {
        return STRING_LITERAL, i, i, "";
      }
      if c == '"' {
        return QUOTED_IDENTIFIER, i, i, "";
      }
      if c == ';' {
        EndsStatement(sql, i, start, Out());
        OnStatementEnd(i);
        lastPos := i + 1;
        return;
      }
      if c == '$' {
        state, i', lastPos, marker := OnDollar(i, start);
        return;
      }
      state, i', lastPos := CommentOrSpace(i, start);
    }

    method InDelimiters(state: TokenizeState, i: nat, start: nat) returns (state': TokenizeState, i': nat, lastPos: nat)
      requires i < |sql| && At(sql, state, i, start, "")
      requires state.STRING_LITERAL? || state.QUOTED_IDENTIFIER? || state.SINGLE_LINE_COMMENT? ||
               state.MULTI_LINE_COMMENT?
      modifies this`tokens
      ensures At(sql, state', i' + 1, lastPos, "") && Progress(state, i, start, state', i' + 1, lastPos)
      ensures Reaches(state', i' + 1, lastPos, "") == old(Reaches(state, i, start, ""))
    {
      hide Next;
      match state
      case STRING_LITERAL => state', i', lastPos := Quoted(state, '\'', i, start);
      case QUOTED_IDENTIFIER => state', i', lastPos := Quoted(state, '"', i, start);
      case SINGLE_LINE_COMMENT => state', i', lastPos := SingleLineComment(i, start);
      case MULTI_LINE_COMMENT => state', i', lastPos := MultiLineComment(i, start);
    }

    method InWord(state: TokenizeState, i: nat, start: nat) returns (state': TokenizeState, i': nat, lastPos: nat)
      requires i < |sql| && At(sql, state, i, start, "") && (state.NUMERIC? || state.OPERATOR? || state.KEYWORD?)
      modifies this`tokens
      ensures At(sql, state', i' + 1, lastPos, "") && Progress(state, i, start, state', i' + 1, lastPos)
      ensures Reaches(state', i' + 1, lastPos, "") == old(Reaches(state, i, start, ""))
    {
      hide Next;
      match state
      case NUMERIC => state', i', lastPos := Numeric(i, start);
      case OPERATOR => state', i', lastPos := Operator(i, start);
      case KEYWORD => state', i', lastPos := Keyword(i, start);
    }

    method Step(state: TokenizeState, i: nat, start: nat, marker: string)
      returns (state': TokenizeState, i': nat, lastPos: nat, marker': string)
      requires i < |sql| && At(sql, state, i, start, marker)
      modifies this
      ensures At(sql, state', i' + 1, lastPos, marker') && Progress(state, i, start, state', i' + 1, lastPos)
      ensures Reaches(state', i' + 1, lastPos, marker') == old(Reaches(state, i, start, marker))
    {
      hide Next;
      if state.STANDARD? {
        state', i', lastPos, marker' := Standard(i, start);
        return;
      }
      if state.DOLLAR_QUOTED_STRING? {
        state', i', lastPos, marker' := DollarQuoted(i, start, marker);
        return;
      }
      marker' := marker;
      if state.NUMERIC? || state.OPERATOR? || state.KEYWORD? {
        state', i', lastPos := InWord(state, i, start);
        return;
      }
      state', i', lastPos := InDelimiters(state, i, start);
    }

    /** The loop ends, and computes exactly the lexemes of the text: the statements, the tokens after
        the last statement, and the last word unless the text ends in a comment. */
    method TokenizeInput() returns (allowed: bool)
      requires tokens == [] && statements == []
      modifies this
      ensures var f, s := Finish(Output([], []), Lex(sql, 0, 0)), Lex(sql, 0, 0);
              && s.lastPos <= |sql| && (s.state.STRING_LITERAL? ==> s.lastPos < |sql|)
              && var w := LastWord(sql, s.state, s.lastPos);
              && statements == f.output.statements && allowed == w.Some?
              && tokens == f.output.tokens + (if w.Some? && w.value.text != "" then [w.value] else [])
    {
      hide Next;
      var state, lastPos, marker := STANDARD, 0, "";
      ghost var final := Reaches(state, 0, lastPos, marker);
      var i: nat := 0;
      while i < |sql|
        invariant At(sql, state, i, lastPos, marker) && Reaches(state, i, lastPos, marker) == final
        decreases |sql| - lastPos, if state.STANDARD? then 1 else 0, |sql| - i
      {
        state, i, lastPos, marker := Step(state, i, lastPos, marker);
        i := i + 1;
      }
      assert From(sql, state, i, lastPos, marker) == Scan([], state, lastPos);
      if state.STRING_LITERAL? {
        lastPos := lastPos + 1;
      } else if state.SINGLE_LINE_COMMENT? || state.MULTI_LINE_COMMENT? {
        return false;
      }
      var lastWord := sql[lastPos..];
      OnLastToken(state, lastWord, lastPos);
      return true;
    }
  }
}
