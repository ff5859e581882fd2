/** Character classes shared by the tokenizer and the matchers, over bytes written as
    characters with code 0..255. */
module Characters {

  datatype Option<+T> = None | Some(value: T) {
    predicate IsFailure() { None? }
    function PropagateFailure<U>(): Option<U> requires None? { None }
    function Extract(): T requires Some? { value }
  }

  predicate IsSpace(c: char) {
    c == ' ' || c == '\t' || c == '\n' || c == '\U{0B}' || c == '\U{0C}' || c == '\r'
  }

  // StringUtil::CharacterIsOperator: the raw punctuation ranges, without '_'.
  predicate IsPunctuation(c: char) {
    c != '_' && ('!' <= c <= '/' || ':' <= c <= '@' || '[' <= c <= '`' || '{' <= c <= '~')
  }

  predicate IsSingleByteOperator(c: char) {
    c in {'(', ')', '{', '}', '[', ']', ',', '?', '$', '+', '-', '#'}
  }

  predicate IsInitialNumber(c: char) {
    '0' <= c <= '9' || c == '.'
  }

  predicate IsScientific(c: char) {
    c == 'e' || c == 'E'
  }

  predicate IsNumber(c: char) {
    IsInitialNumber(c) || IsScientific(c) || c == '_'
  }

  predicate IsControlFlow(c: char) {
    c in {'\'', '-', ';', '"', '.'}
  }

  predicate IsKeywordChar(c: char) {
    !IsSingleByteOperator(c) && !IsPunctuation(c) && !IsSpace(c) && !IsControlFlow(c)
  }

  predicate IsOperatorChar(c: char) {
    !IsSingleByteOperator(c) && !IsControlFlow(c) && IsPunctuation(c)
  }

  predicate IsDollarTagChar(c: char) {
    'A' <= c <= 'Z' || 'a' <= c <= 'z' || '\U{80}' <= c <= '\U{FF}'
  }

  function ToLower(c: char): char {
    if 'A' <= c <= 'Z' then (c as int + 32) as char else c
  }

  function Lower(s: string): (r: string)
    ensures |r| == |s|
    ensures forall i :: 0 <= i < |s| ==> r[i] == ToLower(s[i])
  {
    seq(|s|, i requires 0 <= i < |s| => ToLower(s[i]))
  }

  predicate EqualsIgnoringCase(s: string, t: string) {
    Lower(s) == Lower(t)
  }
}
