/** What the tokenizer promises about offsets and dollar quotes. */
module TokenizerProperties {
  import opened Characters
  import opened Lexemes
  import opened Tokenizer

  // ----- Tokens and the text between them -----

  function Tokens(events: seq<Event>): seq<Token> {
    if events == [] then []
    else (if events[0].Push? then [events[0].token] else []) + Tokens(events[1..])
  }

  predicate IsNewline(c: char) {
    c == '\n' || c == '\r'
  }

  // A comment from i up to k: it ends at the first line end, or at the first closing pair.
  ghost predicate CommentAt(sql: string, i: nat, k: nat) {
    k <= |sql| &&
    (|| (Pair(sql, i, '-', '-') && i + 2 < k && IsNewline(sql[k - 1])
         && forall j :: i + 2 <= j < k - 1 ==> !IsNewline(sql[j]))
     || (Pair(sql, i, '/', '*') && i + 4 <= k && Pair(sql, k - 2, '*', '/')
         && forall j :: i + 2 <= j < k - 2 ==> !Pair(sql, j, '*', '/')))
  }

  // Only spaces, semicolons and comments from i to j.
  ghost predicate Gap(sql: string, i: nat, j: nat)
    decreases j - i
  {
    || i == j <= |sql|
    || (i < j <= |sql| && exists k {:trigger GapStep(sql, i, k)} :: i < k <= j && GapStep(sql, i, k) && Gap(sql, k, j))
  }

  ghost predicate GapStep(sql: string, i: nat, k: nat) {
    || (i < |sql| && k == i + 1 && (IsSpace(sql[i]) || sql[i] == ';'))
    || CommentAt(sql, i, k)
  }

  // Each token is the text at its offset, and only gaps are left between the tokens and up to end.
  ghost predicate LaidOut(sql: string, from: nat, tokens: seq<Token>, end: nat)
    decreases |tokens|
  {
    if tokens == [] then from <= end && Gap(sql, from, end)
    else
      var t := tokens[0];
      var after := t.offset + |t.text|;
      && from <= t.offset < after <= |sql| && Gap(sql, from, t.offset)
      && t.text == sql[t.offset..after] && LaidOut(sql, after, tokens[1..], end)
  }

  lemma GapLonger(sql: string, i: nat, k: nat, j: nat)
    requires i < k && GapStep(sql, i, k) && k <= j && Gap(sql, k, j)
    ensures Gap(sql, i, j)
  {
  }

  lemma LaidOutFrom(sql: string, i: nat, k: nat, tokens: seq<Token>, end: nat)
    requires i < k && GapStep(sql, i, k) && LaidOut(sql, k, tokens, end)
    ensures LaidOut(sql, i, tokens, end)
  {
    GapLonger(sql, i, k, if tokens == [] then end else tokens[0].offset);
  }

  lemma {:induction false} LineEndFirst(sql: string, i: nat, from: nat)
    requires from <= i <= |sql| && forall j :: from <= j < i ==> !IsNewline(sql[j])
    ensures var e := LineEnd(sql, i);
            e.Some? ==> IsNewline(sql[e.value - 1]) && forall j :: from <= j < e.value - 1 ==> !IsNewline(sql[j])
    decreases |sql| - i
  {
    if i < |sql| && !IsNewline(sql[i]) {
      LineEndFirst(sql, i + 1, from);
    }
  }

  lemma {:induction false} CommentEndFirst(sql: string, i: nat, from: nat)
    requires from <= i <= |sql| && forall j :: from <= j < i ==> !Pair(sql, j, '*', '/')
    ensures var e := CommentEnd(sql, i);
            e.Some? ==> i + 2 <= e.value && Pair(sql, e.value - 2, '*', '/') &&
                        forall j :: from <= j < e.value - 2 ==> !Pair(sql, j, '*', '/')
    decreases |sql| - i
  {
    if i < |sql| && !Pair(sql, i, '*', '/') {
      CommentEndFirst(sql, i + 1, from);
    }
  }

  // Not at a dollar, a lexeme starts where the last one ended.
  lemma NextWithoutDollar(sql: string, i: nat)
    requires i < |sql| && sql[i] != '$'
    ensures match Next(sql, i, i)
            case Skip(n, lastPos) => n == lastPos && GapStep(sql, i, n)
            case Emit(t, n) => t == Token(sql[i..n], i)
            case EndStatement(n) => n == i + 1 && sql[i] == ';'
            case Open(state, lastPos) =>
              lastPos == i && !state.STANDARD? && (state.STRING_LITERAL? <==> sql[i] == '\'')
  {
    if Pair(sql, i, '-', '-') {
      LineEndFirst(sql, i + 2, i + 2);
    } else if Pair(sql, i, '/', '*') {
      CommentEndFirst(sql, i + 2, i + 2);
    }
  }

  // The dollar begins the last word: it is the last character, or opens a quote that nothing closes,
  // or is passed over before a comment that nothing closes.
  predicate DollarIsLast(sql: string, i: nat)
    requires i < |sql| && sql[i] == '$'
  {
    match Next(sql, i, i)
    case Open(_, _) => true
    case Skip(n, _) =>
      n == |sql| ||
      var next := Next(sql, n, i);
      next.Open? && (next.state.SINGLE_LINE_COMMENT? || next.state.MULTI_LINE_COMMENT?)
    case _ => false
  }

  // From i on, a lexeme starts at a dollar only where the last word does.
  predicate DollarsAreLast(sql: string, i: nat)
    requires i <= |sql|
    decreases |sql| - i
  {
    || i == |sql|
    || (if sql[i] == '$' then DollarIsLast(sql, i)
        else Next(sql, i, i).Open? || DollarsAreLast(sql, Next(sql, i, i).next))
  }

  // Not a piece of text at an earlier position: the token lies at start or later, or is a dollar quote's.
  predicate StartsLater(t: Token, start: nat) {
    t.text != "" && t.text[0] != '$' && (t.offset >= start || t.text[0] == '\'')
  }

  lemma DollarStartsLater(sql: string, i: nat, lastPos: nat)
    requires lastPos <= i < |sql|
    ensures match Dollar(sql, i, lastPos)
            case Skip(n, start) => start >= lastPos
            case Emit(t, n) => StartsLater(t, lastPos)
            case EndStatement(n) => true
            case Open(_, start) => start >= lastPos
  {
  }

  lemma NextStartsLater(sql: string, i: nat, lastPos: nat)
    requires lastPos <= i < |sql|
    ensures match Next(sql, i, lastPos)
            case Skip(n, start) => start >= lastPos
            case Emit(t, n) => StartsLater(t, lastPos)
            case EndStatement(n) => true
            case Open(_, start) => start >= lastPos
  {
    if sql[i] == '$' {
      DollarStartsLater(sql, i, lastPos);
    }
    hide Dollar;
  }

  lemma {:induction false} TokensStartLater(sql: string, i: nat, lastPos: nat)
    requires lastPos <= i <= |sql|
    ensures var s := Lex(sql, i, lastPos);
            && s.lastPos >= lastPos
            && forall j :: 0 <= j < |Tokens(s.events)| ==> StartsLater(Tokens(s.events)[j], lastPos)
    decreases |sql| - i
  {
    hide Next, StartsLater;
    if i < |sql| {
      NextStartsLater(sql, i, lastPos);
      match Next(sql, i, lastPos)
      case Skip(n, start) =>
        TokensStartLater(sql, n, start);
        LaterStill(Tokens(Lex(sql, n, start).events), start, lastPos);
      case Emit(t, n) =>
        TokensStartLater(sql, n, n);
        TokensOfPush(t, Lex(sql, n, n).events);
        LaterStill(Tokens(Lex(sql, n, n).events), n, lastPos);
      case EndStatement(n) =>
        TokensStartLater(sql, n, n);
        TokensOfEnd(Lex(sql, n, n).events);
        LaterStill(Tokens(Lex(sql, n, n).events), n, lastPos);
      case Open(state, start) =>
    }
  }

  lemma LaterStill(tokens: seq<Token>, start: nat, earlier: nat)
    requires earlier <= start && forall j :: 0 <= j < |tokens| ==> StartsLater(tokens[j], start)
    ensures forall j :: 0 <= j < |tokens| ==> StartsLater(tokens[j], earlier)
  {
  }

  lemma NextGapStep(sql: string, i: nat, k: nat, n: nat)
    requires GapStep(sql, i, k) && GapStep(sql, i, n)
    ensures k == n
  {
  }

  // Past a gap step, the layout is decided from its end on.
  lemma LaidOutPast(sql: string, i: nat, n: nat, tokens: seq<Token>, end: nat)
    requires i < n && GapStep(sql, i, n) && LaidOut(sql, i, tokens, end) && end >= n
    requires forall j :: 0 <= j < |tokens| ==> StartsLater(tokens[j], n)
    ensures LaidOut(sql, n, tokens, end)
  {
    var to := if tokens == [] then end else tokens[0].offset;
    FirstToken(sql, i, tokens, end);
    if i < to {
      var k :| i < k <= to && GapStep(sql, i, k) && Gap(sql, k, to);
      NextGapStep(sql, i, k, n);
    }
  }

  lemma FirstToken(sql: string, i: nat, tokens: seq<Token>, end: nat)
    ensures LaidOut(sql, i, tokens, end) && tokens != [] ==> tokens[0].text[0] == sql[tokens[0].offset]
  {
  }

  lemma NoGapAtDollar(sql: string, i: nat, to: nat)
    requires i < |sql| && sql[i] == '$'
    ensures Gap(sql, i, to) ==> to == i
  {
  }

  // At a dollar, the layout holds only if the dollar begins the last word.
  lemma DollarLaidOut(sql: string, i: nat)
    requires i < |sql| && sql[i] == '$'
    ensures var s := Lex(sql, i, i);
            && (LaidOut(sql, i, Tokens(s.events), s.lastPos) <==> Tokens(s.events) == [] && s.lastPos == i)
            && (DollarIsLast(sql, i) <==> Tokens(s.events) == [] && s.lastPos == i)
            && (DollarIsLast(sql, i) ==> !s.state.STRING_LITERAL? && (s.state.STANDARD? ==> s.lastPos + 1 == |sql|))
  {
    var s := Lex(sql, i, i);
    DollarBefore(sql, i);
    hide Next, Lex;
    TokensStartLater(sql, i, i);
    FirstToken(sql, i, Tokens(s.events), s.lastPos);
    NoGapAtDollar(sql, i, if Tokens(s.events) == [] then s.lastPos else Tokens(s.events)[0].offset);
  }

  lemma DollarBefore(sql: string, i: nat)
    requires i < |sql| && sql[i] == '$'
    ensures var s := Lex(sql, i, i);
            && (DollarIsLast(sql, i) <==> Tokens(s.events) == [] && s.lastPos == i)
            && (DollarIsLast(sql, i) ==> !s.state.STRING_LITERAL? && (s.state.STANDARD? ==> s.lastPos + 1 == |sql|))
  {
    match Next(sql, i, i)
    case Open(_, _) =>
    case Emit(t, n) => TokensOfPush(t, Lex(sql, n, n).events);
    case EndStatement(_) =>
    case Skip(n, start) =>
      assert n == i + 1 && start == i;
      if n < |sql| {
        assert sql[n] != '$';
        AfterDollar(sql, n);
      }
  }

  // What comes after a dollar that is passed over.
  lemma AfterDollar(sql: string, n: nat)
    requires 0 < n < |sql| && sql[n] != '$'
    ensures var s, next := Lex(sql, n, n - 1), Next(sql, n, n - 1);
            && (Tokens(s.events) == [] && s.lastPos == n - 1 <==>
                  next.Open? && (next.state.SINGLE_LINE_COMMENT? || next.state.MULTI_LINE_COMMENT?))
            && (next.Open? ==> s.state == next.state)
  {
    match Next(sql, n, n - 1)
    case Open(_, _) =>
    case Emit(t, m) => TokensOfPush(t, Lex(sql, m, m).events);
    case EndStatement(m) => TokensOfEnd(Lex(sql, m, m).events); TokensStartLater(sql, m, m);
    case Skip(m, start) => TokensStartLater(sql, m, start);
  }

  /** From any position, the tokens are laid out exactly when a lexeme starts at a dollar only where the
      last word does. */
  lemma {:induction false} LaysOut(sql: string, i: nat)
    requires i <= |sql|
    ensures var s := Lex(sql, i, i);
            && (LaidOut(sql, i, Tokens(s.events), s.lastPos) <==> DollarsAreLast(sql, i))
            && (DollarsAreLast(sql, i) && s.state.STANDARD? && s.lastPos < |sql| ==> sql[|sql| - 1] == '$')
            && (DollarsAreLast(sql, i) && s.state.STRING_LITERAL? ==> s.lastPos < |sql| && sql[s.lastPos] == '\'')
    decreases |sql| - i, 0
  {
    hide Next, DollarIsLast, LaidOut, Tokens;
    NothingLaidOut(sql, i);
    if i < |sql| && sql[i] == '$' {
      DollarLaidOut(sql, i);
    } else if i < |sql| {
      NextWithoutDollar(sql, i);
      match Next(sql, i, i)
      case Skip(n, lastPos) => LaysOutFrom(sql, i, n);
      case Emit(t, n) =>
        LaysOut(sql, n);
        TokensOfPush(t, Lex(sql, n, n).events);
        TokenLaidOut(sql, i, t, n, Tokens(Lex(sql, n, n).events), Lex(sql, n, n).lastPos);
      case EndStatement(n) =>
        LaysOutFrom(sql, i, n);
        TokensOfEnd(Lex(sql, n, n).events);
      case Open(state, lastPos) =>
    }
  }

  lemma NothingLaidOut(sql: string, i: nat)
    requires i <= |sql|
    ensures Tokens([]) == [] && LaidOut(sql, i, [], i)
  {
  }

  lemma TokenLaidOut(sql: string, i: nat, t: Token, n: nat, tokens: seq<Token>, end: nat)
    requires i < n <= |sql| && t == Token(sql[i..n], i)
    ensures LaidOut(sql, i, [t] + tokens, end) <==> LaidOut(sql, n, tokens, end)
  {
    assert ([t] + tokens)[1..] == tokens;
  }

  lemma {:induction false} LaysOutFrom(sql: string, i: nat, n: nat)
    requires i < n <= |sql| && GapStep(sql, i, n)
    ensures var s := Lex(sql, n, n);
            && (LaidOut(sql, i, Tokens(s.events), s.lastPos) <==> DollarsAreLast(sql, n))
            && (DollarsAreLast(sql, n) && s.state.STANDARD? && s.lastPos < |sql| ==> sql[|sql| - 1] == '$')
            && (DollarsAreLast(sql, n) && s.state.STRING_LITERAL? ==> s.lastPos < |sql| && sql[s.lastPos] == '\'')
    decreases |sql| - n, 1
  {
    hide Lex, LaidOut, DollarsAreLast;
    LaysOut(sql, n);
    TokensStartLater(sql, n, n);
    var s := Lex(sql, n, n);
    if LaidOut(sql, i, Tokens(s.events), s.lastPos) {
      LaidOutPast(sql, i, n, Tokens(s.events), s.lastPos);
    } else if LaidOut(sql, n, Tokens(s.events), s.lastPos) {
      LaidOutFrom(sql, i, n, Tokens(s.events), s.lastPos);
    }
  }

  lemma TokensOfPush(t: Token, events: seq<Event>)
    ensures Tokens([Push(t)] + events) == [t] + Tokens(events)
  {
    assert ([Push(t)] + events)[1..] == events;
  }

  lemma TokensOfEnd(events: seq<Event>)
    ensures Tokens([StatementEnd] + events) == Tokens(events)
  {
    assert ([StatementEnd] + events)[1..] == events;
  }

  /** Every token is the slice of the text at its offset, tokens come in order and do not overlap, and
      between them are only spaces, comments and semicolons, exactly when a lexeme starts at a dollar
      only where the last word does; dollars inside strings, identifiers and comments do not matter.
      Then the last word reaches from there to the end of the text; of an open string literal it leaves
      out the opening quote. */
  lemma TokensCoverTheText(sql: string)
    ensures var s := Lex(sql, 0, 0);
            && (LaidOut(sql, 0, Tokens(s.events), s.lastPos) <==> DollarsAreLast(sql, 0))
            && (DollarsAreLast(sql, 0) && s.state.STRING_LITERAL? ==> s.lastPos < |sql| && sql[s.lastPos] == '\'')
            && (DollarsAreLast(sql, 0) ==>
                  s.lastPos <= |sql| &&
                  match LastWord(sql, s.state, s.lastPos)
                  case None => s.state.SINGLE_LINE_COMMENT? || s.state.MULTI_LINE_COMMENT?
                  case Some(w) =>
                    w.text == sql[w.offset..] && w.offset == s.lastPos + (if s.state.STRING_LITERAL? then 1 else 0))
  {
    hide Lex, LaidOut, Tokens, DollarsAreLast;
    LaysOut(sql, 0);
    if DollarsAreLast(sql, 0) {
      LaidOutWithin(sql, 0, Tokens(Lex(sql, 0, 0).events), Lex(sql, 0, 0).lastPos);
    }
  }

  lemma {:induction false} LaidOutWithin(sql: string, from: nat, tokens: seq<Token>, end: nat)
    requires LaidOut(sql, from, tokens, end)
    ensures end <= |sql| && forall i :: 0 <= i < |tokens| ==> from <= tokens[i].offset
    decreases |tokens|
  {
    if tokens != [] {
      LaidOutWithin(sql, tokens[0].offset + |tokens[0].text|, tokens[1..], end);
      forall i | 0 <= i < |tokens| ensures from <= tokens[i].offset {
        if i > 0 {
          assert tokens[i] == tokens[1..][i - 1];
        }
      }
    }
  }

  lemma {:induction false} TokensInOrder(sql: string, from: nat, tokens: seq<Token>, end: nat, i: nat, j: nat)
    requires LaidOut(sql, from, tokens, end) && i < j < |tokens|
    ensures tokens[i].offset + |tokens[i].text| <= tokens[j].offset
    decreases |tokens|
  {
    var after := tokens[0].offset + |tokens[0].text|;
    if i == 0 {
      LaidOutWithin(sql, after, tokens[1..], end);
      assert tokens[j] == tokens[1..][j - 1];
    } else {
      TokensInOrder(sql, after, tokens[1..], end, i - 1, j - 1);
    }
  }

  // ----- Dollar quotes -----

  predicate MarkerAt(sql: string, marker: string, q: nat) {
    q + |marker| + 2 <= |sql| && sql[q..q + |marker| + 2] == "$" + marker + "$"
  }

  lemma ClosesAtMarker(sql: string, marker: string, q: nat)
    requires q < |sql| && '$' !in marker
    ensures ClosesAt(sql, marker, q) <==> MarkerAt(sql, marker, q)
  {
    var full := "$" + marker + "$";
    if MarkerAt(sql, marker, q) {
      var end := q + 1 + |marker|;
      assert forall j :: 0 <= j < |full| ==> sql[q + j] == sql[q..q + |full|][j] == full[j];
      assert sql[q] == full[0] && sql[end] == sql[q + (|marker| + 1)] == full[|marker| + 1];
      forall j | q + 1 <= j < end ensures sql[j] == marker[j - q - 1] {
        assert sql[q + (j - q)] == full[j - q];
      }
      assert sql[q + 1..end] == marker;
      assert FirstDollar(sql, q + 1) == end;
    }
    if ClosesAt(sql, marker, q) {
      var end := q + 1 + |marker|;
      assert sql[q..q + |full|] == [sql[q]] + sql[q + 1..end] + [sql[end]];
    }
  }

  lemma {:induction false} DollarCloseFirst(sql: string, marker: string, i: nat)
    requires i <= |sql| && '$' !in marker
    ensures match DollarClose(sql, marker, i)
            case None => forall q :: i <= q ==> !MarkerAt(sql, marker, q)
            case Some(e) => MarkerAt(sql, marker, e) && forall q :: i <= q < e ==> !MarkerAt(sql, marker, q)
    decreases |sql| - i
  {
    if i < |sql| {
      ClosesAtMarker(sql, marker, i);
      if !ClosesAt(sql, marker, i) {
        DollarCloseFirst(sql, marker, i + 1);
      }
    }
  }

  // The opening marker reaches to d, with only tag characters inside.
  predicate OpensTo(sql: string, p: nat, d: nat) {
    && p < d < |sql| && sql[p] == '$' && sql[d] == '$'
    && forall j :: p < j < d ==> IsDollarTagChar(sql[j])
  }

  lemma {:induction false} MarkerEndFinds(sql: string, i: nat, d: nat)
    requires i <= d < |sql| && sql[d] == '$' && forall j :: i <= j < d ==> IsDollarTagChar(sql[j])
    ensures MarkerEnd(sql, i) == Some(d)
    decreases d - i
  {
    if i < d {
      MarkerEndFinds(sql, i + 1, d);
    }
  }

  /** A dollar quote ends at the first occurrence of its own marker after the opening one, and its
      token is exactly the text between the two in single quotes; it stays open if there is none. */
  lemma DollarQuoteToken(sql: string, p: nat, d: nat, lastPos: nat)
    requires OpensTo(sql, p, d) && lastPos <= p
    ensures var marker := sql[p + 1..d];
            match Next(sql, p, lastPos)
            case Emit(t, n) =>
              var q := n - |marker| - 2;
              && d < q && MarkerAt(sql, marker, q) && (forall r :: d < r < q ==> !MarkerAt(sql, marker, r))
              && t.text == "'" + sql[d + 1..q] + "'" && t.offset == |marker| + 2
            case Open(state, start) =>
              state == DOLLAR_QUOTED_STRING && start == p && forall r :: d < r ==> !MarkerAt(sql, marker, r)
            case _ => false
  {
    var marker := sql[p + 1..d];
    assert !('0' <= sql[p + 1] <= '9');
    MarkerEndFinds(sql, p + 1, d);
    assert Next(sql, p, lastPos) == DollarQuote(sql, d + 1, p, marker);
    hide Next;
    assert '$' !in marker;
    DollarCloseFirst(sql, marker, d + 1);
  }

  // ----- Quoted lexemes -----

  // The text with each quote doubled.
  function Doubled(w: string, quote: char): string {
    if w == "" then "" else (if w[0] == quote then [quote, quote] else [w[0]]) + Doubled(w[1..], quote)
  }

  // From i, w with its quotes doubled and a closing quote, which no further quote follows.
  ghost predicate ClosedText(sql: string, i: nat, w: string, quote: char, e: nat) {
    && i < e <= |sql| && sql[i..e] == Doubled(w, quote) + [quote] && (e < |sql| ==> sql[e] != quote)
  }

  lemma {:induction false} QuoteEndsText(sql: string, i: nat, w: string, quote: char, e: nat)
    requires ClosedText(sql, i, w, quote, e)
    ensures QuoteEnd(sql, quote, i) == Some(e)
    decreases |w|
  {
    var text := sql[i..e];
    assert sql[i] == text[0];
    if w == "" {
      assert e == i + |text| == i + 1;
    } else {
      var step := if w[0] == quote then 2 else 1;
      assert text == (if w[0] == quote then [quote, quote] else [w[0]]) + (Doubled(w[1..], quote) + [quote]);
      assert step == 2 ==> sql[i + 1] == text[1];
      assert sql[i + step..e] == text[step..] == Doubled(w[1..], quote) + [quote];
      QuoteEndsText(sql, i + step, w[1..], quote, e);
    }
  }

  lemma {:induction false} TextOfQuote(sql: string, quote: char, i: nat) returns (w: string)
    requires i <= |sql| && QuoteEnd(sql, quote, i).Some?
    ensures ClosedText(sql, i, w, quote, QuoteEnd(sql, quote, i).value)
    decreases |sql| - i
  {
    var e := QuoteEnd(sql, quote, i).value;
    if sql[i] == quote && (i + 1 == |sql| || sql[i + 1] != quote) {
      w := "";
      assert sql[i..e] == [quote];
    } else {
      var step := if sql[i] == quote then 2 else 1;
      var rest := TextOfQuote(sql, quote, i + step);
      w := [sql[i]] + rest;
      assert w[1..] == rest;
      assert sql[i..e] == sql[i..i + step] + sql[i + step..e];
      assert sql[i..i + step] == if sql[i] == quote then [quote, quote] else [sql[i]];
    }
  }

  /** A quoted lexeme is the opening quote, some text with its quotes doubled, and a closing quote that no
      further quote follows: exactly such a stretch is one token, and without one the lexeme stays open. */
  lemma QuotedLexeme(sql: string, p: nat, e: nat)
    requires p < |sql| && (sql[p] == '\'' || sql[p] == '"')
    ensures match Next(sql, p, p)
            case Emit(t, n) =>
              && t == Token(sql[p..n], p)
              && (n == e <==> p < e <= |sql| && exists w :: sql[p..e] == [sql[p]] + Doubled(w, sql[p]) + [sql[p]]
                                                            && (e < |sql| ==> sql[e] != sql[p]))
            case Open(state, start) =>
              && state == (if sql[p] == '"' then QUOTED_IDENTIFIER else STRING_LITERAL) && start == p
              && !exists w :: p < e <= |sql| && sql[p..e] == [sql[p]] + Doubled(w, sql[p]) + [sql[p]]
                              && (e < |sql| ==> sql[e] != sql[p])
            case _ => false
  {
    var quote := sql[p];
    forall w | p < e <= |sql| && sql[p..e] == [quote] + Doubled(w, quote) + [quote] && (e < |sql| ==> sql[e] != quote)
      ensures QuoteEnd(sql, quote, p + 1) == Some(e)
    {
      assert sql[p + 1..e] == sql[p..e][1..] == Doubled(w, quote) + [quote];
      QuoteEndsText(sql, p + 1, w, quote, e);
    }
    if QuoteEnd(sql, quote, p + 1) == Some(e) {
      var w := TextOfQuote(sql, quote, p + 1);
      assert sql[p..e] == [quote] + sql[p + 1..e] == [quote] + Doubled(w, quote) + [quote];
    }
  }

  // ----- Special operators -----

  // The tokenizer's table of operators that are one token whatever comes next.
  const SPECIAL_OPERATORS: set<string> := {"->>", "::", ":=", "->", "**", "//"}

  /** The special operator at a position is the longest of the table that the text spells there. */
  lemma LongestSpecialOperator(sql: string, i: nat)
    requires i <= |sql|
    ensures var n := SpecialOperator(sql, i);
            && (n > 0 ==> i + n <= |sql| && sql[i..i + n] in SPECIAL_OPERATORS)
            && forall e :: i <= e <= |sql| && sql[i..e] in SPECIAL_OPERATORS ==> e - i <= n
  {
    var n := SpecialOperator(sql, i);
    if n > 0 {
      assert sql[i..i + n] == if n == 3 then [sql[i], sql[i + 1], sql[i + 2]] else [sql[i], sql[i + 1]];
    }
    forall e | i <= e <= |sql| && sql[i..e] in SPECIAL_OPERATORS ensures e - i <= SpecialOperator(sql, i) {
      var op := sql[i..e];
      assert |op| == 2 || |op| == 3;
      assert sql[i] == op[0] && sql[i + 1] == op[1] && (|op| == 3 ==> sql[i + 2] == op[2]);
    }
  }

  // ----- Statements -----

  function Pushes(tokens: seq<Token>): seq<Event> {
    if tokens == [] then [] else [Push(tokens[0])] + Pushes(tokens[1..])
  }

  // Statement after statement, each with its end, and the tokens of the last one.
  function Replay(o: Output): seq<Event>
    decreases |o.statements|
  {
    if o.statements == [] then Pushes(o.tokens)
    else Pushes(o.statements[0]) + [StatementEnd] + Replay(o.(statements := o.statements[1..]))
  }

  lemma {:induction false} PushesAppend(a: seq<Token>, b: seq<Token>)
    ensures Pushes(a + b) == Pushes(a) + Pushes(b)
  {
    if a == [] {
      assert a + b == b;
    } else {
      assert (a + b)[1..] == a[1..] + b;
      PushesAppend(a[1..], b);
    }
  }

  lemma {:induction false} ReplayPushed(o: Output, t: Token)
    ensures Replay(o.(tokens := o.tokens + [t])) == Replay(o) + [Push(t)]
    decreases |o.statements|
  {
    if o.statements == [] {
      PushesAppend(o.tokens, [t]);
      assert [t][1..] == [];
    } else {
      ReplayPushed(o.(statements := o.statements[1..]), t);
    }
  }

  lemma {:induction false} ReplayEnded(o: Output)
    ensures Replay(Output(o.statements + [o.tokens], [])) == Replay(o) + [StatementEnd]
    decreases |o.statements|
  {
    if o.statements == [] {
      assert [] + [o.tokens] == [o.tokens] && [o.tokens][1..] == [];
    } else {
      assert (o.statements + [o.tokens])[1..] == o.statements[1..] + [o.tokens];
      ReplayEnded(o.(statements := o.statements[1..]));
    }
  }

  /** Nothing that is pushed is lost, doubled or moved to another statement: the statements, replayed with
      their ends, and then the tokens of the last one are the events of the text. */
  lemma {:induction false} StatementsReplay(o: Output, events: seq<Event>)
    ensures Replay(Apply(o, events)) == Replay(o) + events
    decreases |events|
  {
    if events != [] {
      match events[0]
      case Push(t) =>
        ReplayPushed(o, t);
        StatementsReplay(o.(tokens := o.tokens + [t]), events[1..]);
      case StatementEnd =>
        ReplayEnded(o);
        StatementsReplay(Output(o.statements + [o.tokens], []), events[1..]);
    }
  }

  // ----- Dollars that open a quote -----

  /** A dollar opens a quote exactly when it begins a complete marker; otherwise it is passed over. */
  lemma DollarOpensExactly(sql: string, p: nat, lastPos: nat)
    requires p < |sql| && sql[p] == '$' && lastPos <= p
    ensures (exists d :: OpensTo(sql, p, d)) <==> !Next(sql, p, lastPos).Skip?
    ensures Next(sql, p, lastPos).Skip? ==> Next(sql, p, lastPos).next == p + 1
  {
    if d :| OpensTo(sql, p, d) {
      DollarQuoteToken(sql, p, d, lastPos);
    }
    if p + 1 < |sql| && !('0' <= sql[p + 1] <= '9') && MarkerEnd(sql, p + 1).Some? {
      assert OpensTo(sql, p, MarkerEnd(sql, p + 1).value);
    }
  }
}
