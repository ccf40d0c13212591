/**
 * The token kinds and rule table of the untyped λ-calculus (src/untyped.ts:12-76): the four punctuation
 * tokens and identifiers `[a-zA-Z][_0-9a-zA-Z]*`. A run of digits or underscores may only continue an
 * identifier that is still pending (no whitespace in between).
 */
module UntypedLexer {
  import opened Wrappers
  import opened Tokenizer
  import Utils

  datatype Id = Dot | Lambda | LeftPren | RightPren | Identifier

  type UToken = Token<Id>

  /** `isSimply(id)`: appends one token of kind `id` holding the matched text. */
  function IsSimply(id: Id): Callback<Id> {
    (tokens: seq<UToken>, expression: string, pos: nat) => Ok(tokens + [Token(id, pos, expression)])
  }

  /** True when the last pending token is an identifier, so that matched text glues onto it. */
  predicate ExtendsIdentifier(tokens: seq<UToken>) {
    var last := Utils.Last(tokens);
    last.Some? && last.value.id == Identifier
  }

  /** The pending tokens with the matched text glued onto the last one (which is an identifier). */
  function Glue(tokens: seq<UToken>, expression: string): (r: seq<UToken>)
    requires ExtendsIdentifier(tokens)
    ensures |r| == |tokens| && r[..|r| - 1] == tokens[..|tokens| - 1]
    ensures r[|r| - 1] == Token(Identifier, tokens[|tokens| - 1].start, tokens[|tokens| - 1].value + expression)
  {
    var last := tokens[|tokens| - 1];
    tokens[..|tokens| - 1] + [Token(last.id, last.start, last.value + expression)]
  }

  /** `isIdentifier`: extends a pending identifier, or starts a new one at `pos`. */
  function IsIdentifier(tokens: seq<UToken>, expression: string, pos: nat): Result<seq<UToken>, TokenizeError> {
    if ExtendsIdentifier(tokens) then Ok(Glue(tokens, expression))
    else Ok(tokens + [Token(Identifier, pos, expression)])
  }

  /** `isNotIdStart`: extends a pending identifier; anywhere else a digit or underscore run is an error. */
  function IsNotIdStart(tokens: seq<UToken>, expression: string, pos: nat): Result<seq<UToken>, TokenizeError> {
    if ExtendsIdentifier(tokens) then Ok(Glue(tokens, expression))
    else Err(TokenizeError(pos, "identifier must begin with a letter"))
  }

  const Rules: seq<Rule<Id>> := [
    Rule(Literal("."), IsSimply(Dot)),
    Rule(Literal("λ"), IsSimply(Lambda)),
    Rule(Literal("("), IsSimply(LeftPren)),
    Rule(Literal(")"), IsSimply(RightPren)),
    Rule(Run(Letter, WordChar), IsIdentifier),
    Rule(Run(DigitOrUnderscore, DigitOrUnderscore), IsNotIdStart)
  ]

  /** What `tokenize(expression)` returns or throws. */
  function TokenizeSpec(expression: string): Result<seq<UToken>, TokenizeError> {
    Tokenizer.TokenizeSpec(expression, Rules)
  }

  /** `tokenize(expression)`. */
  method Tokenize(expression: string) returns (r: Result<seq<UToken>, TokenizeError>)
    ensures r == TokenizeSpec(expression)
  {
    r := Tokenizer.Tokenize(expression, Rules);
  }

  lemma RulesWellFormed()
    ensures WellFormed(Rules)
  {
  }

  /** A name is an identifier the rule table produces: a letter followed by letters, digits and underscores. */
  predicate ValidName(n: string) {
    |n| > 0 && InClass(Letter, n[0]) && forall k :: 0 < k < |n| ==> InClass(WordChar, n[k])
  }

  /** Which rule matches at an offset holding `c`: every rule's pattern is decided by its first character alone. */
  lemma MatchAt(s: string, i: nat)
    requires i < |s|
    ensures MatchLength(Rules[0].pattern, s, i) > 0 <==> s[i] == '.'
    ensures MatchLength(Rules[1].pattern, s, i) > 0 <==> s[i] == 'λ'
    ensures MatchLength(Rules[2].pattern, s, i) > 0 <==> s[i] == '('
    ensures MatchLength(Rules[3].pattern, s, i) > 0 <==> s[i] == ')'
    ensures MatchLength(Rules[4].pattern, s, i) > 0 <==> InClass(Letter, s[i])
    ensures MatchLength(Rules[5].pattern, s, i) > 0 <==> InClass(DigitOrUnderscore, s[i])
  {
    assert s[i..i + 1] == [s[i]];
  }

  /**
   * Where a digit or underscore run starts a new group of tokens (at the start of the text, after whitespace
   * or after any token but an identifier), the tokenizer fails there with "identifier must begin with a letter";
   * this is how `2x` and `_x` are refused.
   */
  lemma DigitStartsNoIdentifier(s: string, i: nat, result: seq<UToken>, temp: seq<UToken>)
    requires i < |s| && InClass(DigitOrUnderscore, s[i])
    requires !ExtendsIdentifier(temp)
    ensures TokenizeFrom(s, Rules, i, result, temp) == Err(TokenizeError(i, "identifier must begin with a letter"))
  {
    MatchAt(s, i);
    FirstMatchFound(Rules, s, i, 0, 5);
  }

  /** A digit run right after a pending identifier extends it: `x1` is one identifier. */
  lemma DigitsExtendIdentifier(s: string, i: nat, result: seq<UToken>, temp: seq<UToken>)
    requires i < |s| && InClass(DigitOrUnderscore, s[i])
    requires ExtendsIdentifier(temp)
    ensures var n := RunLength(DigitOrUnderscore, s, i + 1) + 1;
            TokenizeFrom(s, Rules, i, result, temp) == TokenizeFrom(s, Rules, i + n, result, Glue(temp, s[i..i + n]))
  {
    MatchAt(s, i);
    FirstMatchFound(Rules, s, i, 0, 5);
  }
}
