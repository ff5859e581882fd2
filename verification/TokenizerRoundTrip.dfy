/** Joining the tokens of a text with single spaces and tokenising again gives the same tokens. */
module TokenizerRoundTrip {
  import opened Characters
  import opened Lexemes
  import opened Tokenizer
  import opened TokenizerProperties

  function Texts(tokens: seq<Token>): (t: seq<string>)
    ensures |t| == |tokens|
  {
    if tokens == [] then [] else [tokens[0].text] + Texts(tokens[1..])
  }

  // The token texts of a run, the last word included.
  function Words(sql: string, s: Scan): seq<string>
    requires s.lastPos <= |sql| && (s.state.STRING_LITERAL? ==> s.lastPos < |sql|)
  {
    Texts(Tokens(s.events)) +
    match LastWord(sql, s.state, s.lastPos)
    case None => []
    case Some(w) => if w.text == "" then [] else [w.text]
  }

  function Join(words: seq<string>): string {
    if words == [] then "" else if |words| == 1 then words[0] else words[0] + " " + Join(words[1..])
  }

  // One statement that ends outside string literals and comments.
  ghost predicate Closed(s: Scan) {
    && !s.state.STRING_LITERAL? && !s.state.SINGLE_LINE_COMMENT? && !s.state.MULTI_LINE_COMMENT?
    && StatementEnd !in s.events
  }

  // The len characters from i in s are those from q in t, and t goes on with a space or ends.
  ghost predicate Copied(s: string, i: nat, t: string, q: nat, len: nat) {
    && i + len <= |s| && q + len <= |t| && (q + len < |t| ==> t[q + len] == ' ')
    && forall j :: q <= j < q + len ==> t[j] == s[i + (j - q)]
  }

  // ----- Runs in the copy end where they end in the original -----

  lemma {:induction false} RunEndIs(t: string, i: nat, e: nat, accepts: char -> bool)
    requires i <= e <= |t| && (e < |t| ==> !accepts(t[e])) && forall j :: i <= j < e ==> accepts(t[j])
    ensures RunEnd(t, i, accepts) == e
    decreases e - i
  {
    if i < e {
      RunEndIs(t, i + 1, e, accepts);
    }
  }

  lemma CopiedRun(s: string, i: nat, t: string, q: nat, len: nat, accepts: char -> bool)
    requires len > 0 && Copied(s, i, t, q, len) && RunEnd(s, i + 1, accepts) == i + len && !accepts(' ')
    ensures RunEnd(t, q + 1, accepts) == q + len
  {
    RunEndIs(t, q + 1, q + len, accepts);
  }

  lemma {:induction false} NumberRunIs(t: string, i: nat, e: nat)
    requires 0 < i <= e <= |t| && !ContinuesAt(t, e) && forall j :: i <= j < e ==> ContinuesAt(t, j)
    ensures NumberRun(t, i) == e
    decreases e - i
  {
    if i < e {
      NumberRunIs(t, i + 1, e);
    }
  }

  lemma CopiedNumber(s: string, i: nat, t: string, q: nat, len: nat)
    requires len > 0 && Copied(s, i, t, q, len) && i + len <= NumberRun(s, i + 1)
    ensures NumberRun(t, q + 1) == q + len
  {
    forall j | q + 1 <= j < q + len ensures ContinuesAt(t, j) {
      assert ContinuesAt(s, i + (j - q));
      assert t[j] == s[i + (j - q)] && t[j - 1] == s[i + (j - q) - 1];
    }
    NumberRunIs(t, q + 1, q + len);
  }

  lemma {:induction false} CopiedQuote(s: string, i: nat, t: string, q: nat, len: nat, quote: char)
    requires Copied(s, i, t, q, len) && QuoteEnd(s, quote, i) == Some(i + len) && quote != ' '
    ensures QuoteEnd(t, quote, q) == Some(q + len)
    decreases len
  {
    assert t[q] == s[i];
    if len > 1 {
      assert t[q + 1] == s[i + 1];
      var step := if s[i] == quote then 2 else 1;
      CopiedFrom(s, i, t, q, len, step);
      CopiedQuote(s, i + step, t, q + step, len - step, quote);
    }
  }

  lemma CopiedFrom(s: string, i: nat, t: string, q: nat, len: nat, step: nat)
    requires Copied(s, i, t, q, len) && step <= len
    ensures Copied(s, i + step, t, q + step, len - step)
  {
  }

  lemma {:induction false} CopiedOpenQuote(s: string, i: nat, t: string, q: nat, quote: char)
    requires i <= |s| && Copied(s, i, t, q, |s| - i) && q + |s| - i == |t| && QuoteEnd(s, quote, i) == None
    ensures QuoteEnd(t, quote, q) == None
    decreases |s| - i
  {
    if i < |s| {
      assert t[q] == s[i];
      assert i + 1 < |s| ==> t[q + 1] == s[i + 1];
      var step := if s[i] == quote then 2 else 1;
      CopiedFrom(s, i, t, q, |s| - i, step);
      CopiedOpenQuote(s, i + step, t, q + step, quote);
    }
  }

  lemma CopiedPair(s: string, i: nat, t: string, q: nat, len: nat, a: char, b: char)
    requires len > 0 && Copied(s, i, t, q, len) && b != ' '
    ensures Pair(t, q, a, b) <==> len >= 2 && Pair(s, i, a, b)
  {
    assert t[q] == s[i];
    if len >= 2 {
      assert t[q + 1] == s[i + 1];
    }
  }

  lemma CopiedSpecial(s: string, i: nat, t: string, q: nat, len: nat)
    requires len > 0 && Copied(s, i, t, q, len) && (SpecialOperator(s, i) > 0 ==> len == SpecialOperator(s, i))
    ensures SpecialOperator(t, q) == SpecialOperator(s, i) || (len == 1 && SpecialOperator(t, q) == 0)
  {
    CopiedPair(s, i, t, q, len, ':', ':');
    CopiedPair(s, i, t, q, len, ':', '=');
    CopiedPair(s, i, t, q, len, '-', '>');
    CopiedPair(s, i, t, q, len, '*', '*');
    CopiedPair(s, i, t, q, len, '/', '/');
    if len >= 2 {
      assert t[q + 1] == s[i + 1];
      CopiedFrom(s, i, t, q, len, 1);
      CopiedPair(s, i + 1, t, q + 1, len - 1, '>', '>');
    }
  }

  // ----- A lexeme and its copy -----

  // A lexeme of the copy that gives this one word.
  ghost predicate Gives(t: string, q: nat, len: nat)
    requires q < |t| && q + len <= |t|
  {
    var l := Next(t, q, q);
    || l == Emit(Token(t[q..q + len], q), q + len)
    || (q + len == |t| && (l == Open(KEYWORD, q) || l == Open(NUMERIC, q) || l == Open(OPERATOR, q)))
  }

  // The branch Next takes for a word, number or operator.
  lemma SameBranch(s: string, i: nat, t: string, q: nat, len: nat)
    requires len > 0 && Copied(s, i, t, q, len) && s[i] !in {'\'', '"', ';', '$'} && !IsSpace(s[i])
    requires !Pair(s, i, '-', '-') && !Pair(s, i, '/', '*') && SpecialOperator(s, i) == 0
    requires !IsSingleByteOperator(s[i])
    ensures t[q] == s[i]
    ensures Next(t, q, q) ==
            if IsInitialNumber(s[i]) then Number(t, q + 1, q)
            else if IsPunctuation(s[i]) then Word(t, OPERATOR, q, RunEnd(t, q + 1, IsOperatorChar))
            else Word(t, KEYWORD, q, RunEnd(t, q + 1, IsKeywordChar))
  {
    assert t[q] == s[i];
    CopiedPair(s, i, t, q, len, '-', '-');
    CopiedPair(s, i, t, q, len, '/', '*');
    CopiedSpecial(s, i, t, q, len);
  }

  lemma CopiedNumeral(s: string, i: nat, n: nat, t: string, q: nat)
    requires i < n <= |s| && Copied(s, i, t, q, n - i) && IsInitialNumber(s[i]) && t[q] == s[i]
    requires Number(s, i + 1, i) == Emit(Token(s[i..n], i), n) ||
             (n == |s| && Number(s, i + 1, i).Open? && q + n - i == |t|)
    ensures var l := Number(t, q + 1, q);
            l == Emit(Token(t[q..q + n - i], q), q + n - i) || (q + n - i == |t| && l == Open(NUMERIC, q))
  {
    CopiedNumber(s, i, t, q, n - i);
    if q + n - i < |t| {
      LastIsInitial(s, i, n, t, q);
    }
  }

  lemma CopiedWord(s: string, i: nat, n: nat, t: string, q: nat)
    requires i < n <= |s| && Copied(s, i, t, q, n - i) && s[i] !in {'\'', '"', ';', '$'} && !IsSpace(s[i])
    requires !Pair(s, i, '-', '-') && !Pair(s, i, '/', '*') && SpecialOperator(s, i) == 0
    requires !IsSingleByteOperator(s[i])
    requires Next(s, i, i) == Emit(Token(s[i..n], i), n) || (n == |s| && Next(s, i, i).Open? && q + n - i == |t|)
    ensures Gives(t, q, n - i)
  {
    var len := n - i;
    SameBranch(s, i, s, i, |s| - i);
    SameBranch(s, i, t, q, len);
    if IsInitialNumber(s[i]) {
      CopiedNumeral(s, i, n, t, q);
    } else if IsPunctuation(s[i]) {
      CopiedRun(s, i, t, q, len, IsOperatorChar);
    } else {
      CopiedRun(s, i, t, q, len, IsKeywordChar);
    }
  }

  lemma LastIsInitial(s: string, i: nat, n: nat, t: string, q: nat)
    requires i < n <= |s| && Copied(s, i, t, q, n - i) && IsInitialNumber(s[i]) && IsInitialNumber(s[n - 1])
    ensures t[q] == s[i] && CutBack(t, q, q + n - i) == q + n - i
  {
    assert t[q + n - i - 1] == s[n - 1];
  }

  lemma CopiedLexeme(s: string, i: nat, n: nat, t: string, q: nat)
    requires i < n <= |s| && Copied(s, i, t, q, n - i) && s[i] != '$'
    requires Next(s, i, i) == Emit(Token(s[i..n], i), n)
    ensures Gives(t, q, n - i)
  {
    var len := n - i;
    assert t[q] == s[i];
    if s[i] == '\'' || s[i] == '"' {
      CopiedFrom(s, i, t, q, len, 1);
      CopiedQuote(s, i + 1, t, q + 1, len - 1, s[i]);
    } else {
      CopiedPair(s, i, t, q, len, '-', '-');
      CopiedPair(s, i, t, q, len, '/', '*');
      CopiedSpecial(s, i, t, q, len);
      if SpecialOperator(s, i) == 0 && !IsSingleByteOperator(s[i]) {
        CopiedWord(s, i, n, t, q);
      }
    }
  }

  lemma CopiedOpen(s: string, i: nat, t: string, q: nat, state: TokenizeState)
    requires i < |s| && Copied(s, i, t, q, |s| - i) && q + |s| - i == |t| && s[i] != '$'
    requires Next(s, i, i) == Open(state, i)
    requires !state.STRING_LITERAL? && !state.SINGLE_LINE_COMMENT? && !state.MULTI_LINE_COMMENT?
    ensures Gives(t, q, |s| - i) || Next(t, q, q) == Open(QUOTED_IDENTIFIER, q)
  {
    assert t[q] == s[i];
    if s[i] == '"' {
      CopiedFrom(s, i, t, q, |s| - i, 1);
      CopiedOpenQuote(s, i + 1, t, q + 1, '"');
    } else {
      CopiedWord(s, i, |s|, t, q);
    }
  }

  // ----- The whole text -----

  // From i on, a lexeme that starts at a dollar is passed over: no dollar quote opens.
  predicate DollarsPassed(sql: string, i: nat)
    requires i <= |sql|
    decreases |sql| - i
  {
    || i == |sql|
    || match Next(sql, i, i)
       case Skip(n, _) => DollarsPassed(sql, n)
       case Emit(_, n) => sql[i] != '$' && DollarsPassed(sql, n)
       case EndStatement(n) => DollarsPassed(sql, n)
       case Open(_, _) => sql[i] != '$'
  }

  // The words from q on, when the text goes on as one statement and ends as it should. A dollar that is
  // passed over is no word, unless it is the last character.
  function Reading(t: string, q: nat): Option<seq<string>>
    requires q <= |t|
    decreases |t| - q
  {
    if q == |t| then Some([])
    else if t[q..] == "$" then Some(["$"])
    else match Next(t, q, q)
         case Skip(n, _) => Reading(t, n)
         case Emit(token, n) => Before(token.text, Reading(t, n))
         case EndStatement(n) => None
         case Open(state, _) =>
           if state.STRING_LITERAL? || state.SINGLE_LINE_COMMENT? || state.MULTI_LINE_COMMENT?
             then None else Some([t[q..]])
  }

  function Before(word: string, words: Option<seq<string>>): Option<seq<string>> {
    if words.None? then None else Some([word] + words.value)
  }

  lemma {:induction false} LastPosWithin(t: string, q: nat, lastPos: nat)
    requires lastPos <= q <= |t|
    ensures Lex(t, q, lastPos).lastPos <= |t|
    decreases |t| - q
  {
    hide Next;
    if q < |t| {
      match Next(t, q, lastPos)
      case Skip(n, start) => LastPosWithin(t, n, start);
      case Emit(_, n) => LastPosWithin(t, n, n);
      case EndStatement(n) => LastPosWithin(t, n, n);
      case Open(_, _) =>
    }
  }

  // Where the last word would start does not matter to what is read from a lexeme on.
  lemma NextFromEarlier(t: string, q: nat, lastPos: nat)
    requires lastPos <= q < |t| && t[q] != '$'
    ensures var l := Next(t, q, q);
            match Next(t, q, lastPos)
            case Emit(token, n) => l.Emit? && l.next == n && l.token.text == token.text
            case Open(state, start) =>
              && l.Open? && l.state == state
              && (start == l.lastPos || state.SINGLE_LINE_COMMENT? || state.MULTI_LINE_COMMENT?)
            case m => l == m
  {
  }

  lemma WordsFromEarlier(t: string, q: nat, lastPos: nat)
    requires lastPos <= q < |t| && t[q] != '$'
    ensures var s, s' := Lex(t, q, q), Lex(t, q, lastPos);
            && s.lastPos <= |t| && s'.lastPos <= |t| && (Closed(s) <==> Closed(s'))
            && (Closed(s) ==> Words(t, s) == Words(t, s'))
  {
    hide Next;
    NextFromEarlier(t, q, lastPos);
    LastPosWithin(t, q, q);
    LastPosWithin(t, q, lastPos);
    if Next(t, q, q).Emit? {
      var n := Next(t, q, q).next;
      LastPosWithin(t, n, n);
      WordsOfEmit(t, q, q, Next(t, q, q).token, n);
      WordsOfEmit(t, q, lastPos, Next(t, q, lastPos).token, n);
    }
  }

  // A dollar that is passed over changes nothing, unless it ends the text.
  lemma PassedOver(t: string, q: nat)
    requires q < |t| && t[q] == '$' && DollarsPassed(t, q)
    ensures Next(t, q, q) == Skip(q + 1, q) && (q + 1 < |t| ==> t[q + 1] != '$')
  {
  }

  /** Reading is what the tokenizer makes of a text in which no dollar quote opens. */
  lemma {:induction false} ReadingIsWords(t: string, q: nat)
    requires q <= |t| && DollarsPassed(t, q)
    ensures var s := Lex(t, q, q);
            s.lastPos <= |t| && Reading(t, q) == if Closed(s) then Some(Words(t, s)) else None
    decreases |t| - q
  {
    LastPosWithin(t, q, q);
    if q == |t| {
      assert t[|t|..] == "" && Lex(t, q, q) == Scan([], STANDARD, q);
      assert Words(t, Lex(t, q, q)) == [];
    } else if t[q] == '$' {
      ReadingAtDollar(t, q);
      if q + 1 < |t| {
        ReadingIsWords(t, q + 1);
      }
    } else {
      NextWithoutDollar(t, q);
      match Next(t, q, q)
      case Skip(n, lastPos) =>
        ReadingIsWords(t, n);
      case Emit(token, n) =>
        ReadingIsWords(t, n);
        WordsOfEmit(t, q, q, token, n);
      case EndStatement(n) =>
        assert ([StatementEnd] + Lex(t, n, n).events)[0] == StatementEnd;
      case Open(state, lastPos) =>
        assert [] + [t[q..]] == [t[q..]];
    }
  }

  lemma ReadingAtDollar(t: string, q: nat)
    requires q < |t| && t[q] == '$' && DollarsPassed(t, q)
    ensures var s := Lex(t, q, q);
            if q + 1 == |t| then
              s.lastPos <= |t| && Closed(s) && Words(t, s) == ["$"] && Reading(t, q) == Some(["$"])
            else
              var s' := Lex(t, q + 1, q + 1);
              && s.lastPos <= |t| && s'.lastPos <= |t| && DollarsPassed(t, q + 1) && Reading(t, q) == Reading(t, q + 1)
              && (Closed(s) <==> Closed(s')) && (Closed(s) ==> Words(t, s) == Words(t, s'))
  {
    PassedOver(t, q);
    hide Next;
    Skips(t, q, q, q + 1, q);
    if q + 1 == |t| {
      assert t[q..] == "$" && [] + ["$"] == ["$"];
    } else {
      WordsFromEarlier(t, q + 1, q);
      assert |t[q..]| > 1;
    }
  }

  lemma WordsOfEmit(t: string, q: nat, lastPos: nat, token: Token, n: nat)
    requires lastPos <= q < |t| && Next(t, q, lastPos) == Emit(token, n) && Lex(t, n, n).lastPos <= |t|
    ensures var s, rest := Lex(t, q, lastPos), Lex(t, n, n);
            && s.lastPos == rest.lastPos && (Closed(s) <==> Closed(rest))
            && (Closed(rest) ==> Words(t, s) == [token.text] + Words(t, rest))
  {
    hide Next;
    var rest := Lex(t, n, n);
    assert Lex(t, q, lastPos) == rest.(events := [Push(token)] + rest.events);
    assert forall e :: e in [Push(token)] + rest.events <==> e == Push(token) || e in rest.events;
    TokensOfPush(token, rest.events);
    assert ([token] + Tokens(rest.events))[1..] == Tokens(rest.events);
  }

  lemma LastLexeme(t: string, q: nat)
    requires q < |t| && t[q] != '$' && (Gives(t, q, |t| - q) || Next(t, q, q) == Open(QUOTED_IDENTIFIER, q))
    ensures Reading(t, q) == Some([t[q..]]) && DollarsPassed(t, q)
  {
    hide Next;
    assert t[q..q + (|t| - q)] == t[q..];
    match Next(t, q, q)
    case Emit(token, n) =>
      assert [t[q..]] + [] == [t[q..]];
    case Open(state, lastPos) =>
  }

  lemma MoreLexemes(t: string, q: nat, n: nat)
    requires q < n < |t| && t[n] == ' ' && Next(t, q, q) == Emit(Token(t[q..n], q), n) && Reading(t, n + 1).Some?
    requires t[q] != '$' && DollarsPassed(t, n + 1)
    ensures Reading(t, q) == Before(t[q..n], Reading(t, n + 1)) && DollarsPassed(t, q)
  {
    assert Next(t, n, n) == Skip(n + 1, n + 1);
    assert Reading(t, n) == Reading(t, n + 1);
  }

  lemma CopyOf(s: string, i: nat, n: nat, t: string, q: nat)
    requires i < n <= |s| && q <= |t|
    requires t[q..] == s[i..n] || (n - i < |t[q..]| && t[q..][..n - i] == s[i..n] && t[q..][n - i] == ' ')
    ensures Copied(s, i, t, q, n - i)
  {
    forall j | q <= j < q + n - i ensures t[j] == s[i + (j - q)] {
      assert t[q..][j - q] == s[i..n][j - q];
    }
  }

  lemma OpenCase(s: string, i: nat, t: string, q: nat, state: TokenizeState)
    requires i < |s| && q <= |t| && s[i] != '$' && Next(s, i, i) == Open(state, i) && t[q..] == s[i..]
    requires !state.STRING_LITERAL? && !state.SINGLE_LINE_COMMENT? && !state.MULTI_LINE_COMMENT?
    ensures Reading(t, q) == Some([s[i..]]) && DollarsPassed(t, q)
  {
    hide Next;
    CopyOf(s, i, |s|, t, q);
    CopiedOpen(s, i, t, q, state);
    LastLexeme(t, q);
  }

  lemma LastEmit(s: string, i: nat, n: nat, t: string, q: nat)
    requires i < n <= |s| && q <= |t| && s[i] != '$' && Next(s, i, i) == Emit(Token(s[i..n], i), n)
    requires t[q..] == s[i..n]
    ensures Reading(t, q) == Some([s[i..n]]) && DollarsPassed(t, q)
  {
    hide Next;
    CopyOf(s, i, n, t, q);
    CopiedLexeme(s, i, n, t, q);
    LastLexeme(t, q);
  }

  lemma EmitAndMore(s: string, i: nat, n: nat, t: string, q: nat, rest: string)
    requires i < n <= |s| && q <= |t| && s[i] != '$' && Next(s, i, i) == Emit(Token(s[i..n], i), n)
    requires t[q..] == s[i..n] + " " + rest
    ensures var m := q + n - i;
            && m < |t| && t[q] != '$' && t[m] == ' ' && t[q..m] == s[i..n] && t[m + 1..] == rest
            && Next(t, q, q) == Emit(Token(t[q..m], q), m)
  {
    hide Next;
    var m := q + n - i;
    CopyOf(s, i, n, t, q);
    CopiedLexeme(s, i, n, t, q);
    assert t[m + 1..] == t[q..][n - i + 1..];
    assert t[q..m] == t[q..][..n - i] == s[i..n];
  }

  lemma JoinFirst(word: string, rest: seq<string>)
    ensures Join([word] + rest) == if rest == [] then word else word + " " + Join(rest)
  {
    assert ([word] + rest)[1..] == rest;
  }

  lemma EmitCase(s: string, i: nat, n: nat, t: string, q: nat, words: seq<string>)
    requires i < n <= |s| && q <= |t| && s[i] != '$' && Next(s, i, i) == Emit(Token(s[i..n], i), n)
    requires Reading(s, i) == Some(words) && t[q..] == Join(words)
    ensures words != [] && words[0] == s[i..n] && Reading(s, n) == Some(words[1..])
    ensures words[1..] == [] ==> Reading(t, q) == Some([words[0]]) && DollarsPassed(t, q)
    ensures words[1..] != [] ==>
              var m := q + n - i + 1;
              && m <= |t| && t[m..] == Join(words[1..])
              && (Reading(t, m).Some? && DollarsPassed(t, m) ==>
                    Reading(t, q) == Before(words[0], Reading(t, m)) && DollarsPassed(t, q))
  {
    hide Next;
    var rest := Reading(s, n).value;
    assert words == [s[i..n]] + rest && words[1..] == rest;
    JoinFirst(s[i..n], rest);
    if rest == [] {
      LastEmit(s, i, n, t, q);
    } else {
      EmitAndMore(s, i, n, t, q, Join(rest));
      if Reading(t, q + n - i + 1).Some? && DollarsPassed(t, q + n - i + 1) {
        MoreLexemes(t, q, q + n - i);
      }
    }
  }

  lemma {:induction false} RoundTripFrom(s: string, i: nat, t: string, q: nat, words: seq<string>)
    requires i <= |s| && DollarsPassed(s, i) && q <= |t|
    requires Reading(s, i) == Some(words) && t[q..] == Join(words)
    ensures Reading(t, q) == Some(words) && DollarsPassed(t, q)
    decreases |s| - i
  {
    hide Next;
    if i == |s| {
      assert q == |t|;
      return;
    }
    if s[i] == '$' {
      ReadingAtDollar(s, i);
      if i + 1 == |s| {
        assert t[q..] == "$" == Join(["$"]);
        LastDollar(t, q);
      } else {
        RoundTripFrom(s, i + 1, t, q, words);
      }
      return;
    }
    NextWithoutDollar(s, i);
    match Next(s, i, i)
    case Skip(n, lastPos) =>
      RoundTripFrom(s, n, t, q, words);
    case Open(state, lastPos) =>
      assert words == [s[i..]];
      OpenCase(s, i, t, q, state);
    case Emit(token, n) =>
      EmitCase(s, i, n, t, q, words);
      assert words == [words[0]] + words[1..];
      if words[1..] != [] {
        RoundTripFrom(s, n, t, q + n - i + 1, words[1..]);
      } else {
        assert words == [words[0]];
      }
  }

  lemma LastDollar(t: string, q: nat)
    requires q <= |t| && t[q..] == "$"
    ensures Reading(t, q) == Some(["$"]) && DollarsPassed(t, q)
  {
    assert q + 1 == |t| && t[q] == t[q..][0];
    assert Next(t, q, q) == Skip(q + 1, q);
  }

  /** The round trip, for any text that is one statement, ends outside string literals and comments and
      opens no dollar quote: its words, joined and read again, are the same words. */
  lemma RoundTrip(sql: string)
    requires DollarsPassed(sql, 0) && Closed(Lex(sql, 0, 0))
    ensures Reading(sql, 0).Some? && Reading(Join(Reading(sql, 0).value), 0) == Reading(sql, 0)
    ensures DollarsPassed(Join(Reading(sql, 0).value), 0)
  {
    ReadingIsWords(sql, 0);
    var words := Reading(sql, 0).value;
    assert Join(words)[0..] == Join(words);
    RoundTripFrom(sql, 0, Join(words), 0, words);
  }

  /** With a dollar quote it can fail: the token is the quoted text in single quotes, and a single quote in
      it is not doubled. */
  lemma DollarQuoteDoesNotReturn()
    ensures var sql := "$$'$$";
            var s := Lex(sql, 0, 0);
            && Closed(s) && s.lastPos <= |sql| && Words(sql, s) == ["'''"]
            && Reading(Join(Words(sql, s)), 0) == None
  {
    var sql, word := "$$'$$", "'''";
    assert MarkerEnd(sql, 1) == Some(1);
    assert FirstDollar(sql, 4) == 4 && ClosesAt(sql, "", 3) && !ClosesAt(sql, "", 2);
    assert DollarClose(sql, "", 2) == Some(3);
    assert Next(sql, 0, 0) == DollarQuote(sql, 2, 0, "");
    assert "'" + sql[2..3] + "'" == word;
    var token := Token(word, 2);
    assert Next(sql, 0, 0) == Emit(token, 5);
    assert Lex(sql, 5, 5) == Scan([], STANDARD, 5) && Words(sql, Lex(sql, 5, 5)) == [];
    WordsOfEmit(sql, 0, 0, token, 5);
    assert Join([word]) == word;
    assert QuoteEnd(word, '\'', 3) == None && QuoteEnd(word, '\'', 1) == None;
    assert Next(word, 0, 0) == Open(STRING_LITERAL, 0);
    assert |word[0..]| == 3;
  }

  lemma {:induction false} ApplyPushes(o: Output, events: seq<Event>)
    requires StatementEnd !in events
    ensures Apply(o, events) == Output(o.statements, o.tokens + Tokens(events))
    decreases |events|
  {
    if events != [] {
      assert events[0] in events && forall e :: e in events[1..] ==> e in events;
      var t := events[0].token;
      ApplyPushes(o.(tokens := o.tokens + [t]), events[1..]);
      assert (o.tokens + [t]) + Tokens(events[1..]) == o.tokens + ([t] + Tokens(events[1..]));
    }
  }

  lemma {:induction false} TextsAppend(a: seq<Token>, b: seq<Token>)
    ensures Texts(a + b) == Texts(a) + Texts(b)
  {
    if a == [] {
      assert a + b == b;
    } else {
      assert (a + b)[1..] == a[1..] + b;
      TextsAppend(a[1..], b);
    }
  }

  // The texts a tokenizer collects are the words read.
  lemma CollectedTexts(sql: string, tokens: seq<Token>)
    requires DollarsPassed(sql, 0) && Closed(Lex(sql, 0, 0)) && Lex(sql, 0, 0).lastPos <= |sql|
    requires var s := Lex(sql, 0, 0);
             var w := LastWord(sql, s.state, s.lastPos);
             tokens == Finish(Output([], []), s).output.tokens +
               (if w.Some? && w.value.text != "" then [w.value] else [])
    ensures Reading(sql, 0) == Some(Texts(tokens))
  {
    hide Next;
    var s := Lex(sql, 0, 0);
    var w := LastWord(sql, s.state, s.lastPos);
    ReadingIsWords(sql, 0);
    ApplyPushes(Output([], []), s.events);
    assert [] + Tokens(s.events) == Tokens(s.events);
    var last := if w.Some? && w.value.text != "" then [w.value] else [];
    TextsAppend(Tokens(s.events), last);
    assert Texts(last) == if last == [] then [] else [w.value.text];
    assert Words(sql, s) == Texts(Tokens(s.events)) + Texts(last);
  }

  /** Two runs of the tokenizer, the second over the joined tokens of the first. */
  method TokenizeTwice(sql: string) returns (first: seq<string>, again: seq<string>)
    requires DollarsPassed(sql, 0) && Closed(Lex(sql, 0, 0))
    ensures first == again && Reading(sql, 0) == Some(first)
  {
    var one := new ParserTokenizer(sql);
    var _ := one.TokenizeInput();
    CollectedTexts(sql, one.tokens);
    first := Texts(one.tokens);
    var joined := Join(first);
    RoundTrip(sql);
    ReadingIsWords(joined, 0);
    var two := new ParserTokenizer(joined);
    var _ := two.TokenizeInput();
    CollectedTexts(joined, two.tokens);
    again := Texts(two.tokens);
  }
}
