/**
 * The token kinds and rule table of the simply typed λ-calculus (src/typed.ts:10-91): punctuation, the
 * arrow `->`, the keywords `true`, `false` and `zero`, type names `[A-Z][a-z]*` and identifiers
 * `[a-z][_0-9a-zA-Z]*`. Rules are tried in table order, so a keyword is taken before an identifier even
 * where it only begins a longer word.
 */
module TypedLexer {
  import opened Wrappers
  import opened Tokenizer
  import Utils

  datatype Id =
    | Dot | Colon | Arrow | Comma | Lambda | LeftPren | RightPren | LeftSqrBr | RightSqrBr
    | True | False | Zero | Type | Identifier

  type TToken = Token<Id>

  /** `isSimply(id)`: appends one token of kind `id` holding the matched text. */
  function IsSimply(id: Id): Callback<Id> {
    (tokens: seq<TToken>, expression: string, pos: nat) => Ok(tokens + [Token(id, pos, expression)])
  }

  /** True when the last pending token is an identifier, so that matched text glues onto it. */
  predicate ExtendsIdentifier(tokens: seq<TToken>) {
    var last := Utils.Last(tokens);
    last.Some? && last.value.id == Identifier
  }

  /** The pending tokens with the matched text glued onto the last one (which is an identifier). */
  function Glue(tokens: seq<TToken>, expression: string): (r: seq<TToken>)
    requires ExtendsIdentifier(tokens)
    ensures |r| == |tokens| && r[..|r| - 1] == tokens[..|tokens| - 1]
    ensures r[|r| - 1] == Token(Identifier, tokens[|tokens| - 1].start, tokens[|tokens| - 1].value + expression)
  {
    var last := tokens[|tokens| - 1];
    tokens[..|tokens| - 1] + [Token(last.id, last.start, last.value + expression)]
  }

  /** `isIdentifier`: extends a pending identifier, or starts a new one at `pos`. */
  function IsIdentifier(tokens: seq<TToken>, expression: string, pos: nat): Result<seq<TToken>, TokenizeError> {
    if ExtendsIdentifier(tokens) then Ok(Glue(tokens, expression))
    else Ok(tokens + [Token(Identifier, pos, expression)])
  }

  /** `isNotIdStart`: extends a pending identifier; anywhere else a digit or underscore run is an error. */
  function IsNotIdStart(tokens: seq<TToken>, expression: string, pos: nat): Result<seq<TToken>, TokenizeError> {
    if ExtendsIdentifier(tokens) then Ok(Glue(tokens, expression))
    else Err(TokenizeError(pos, "identifier must begin with a lowercase letter"))
  }

  const Rules: seq<Rule<Id>> := [
    Rule(Literal("."), IsSimply(Dot)),
    Rule(Literal(":"), IsSimply(Colon)),
    Rule(Literal(","), IsSimply(Comma)),
    Rule(Literal("->"), IsSimply(Arrow)),
    Rule(Literal("λ"), IsSimply(Lambda)),
    Rule(Literal("("), IsSimply(LeftPren)),
    Rule(Literal(")"), IsSimply(RightPren)),
    Rule(Literal("["), IsSimply(LeftSqrBr)),
    Rule(Literal("]"), IsSimply(RightSqrBr)),
    Rule(Literal("true"), IsSimply(True)),
    Rule(Literal("false"), IsSimply(False)),
    Rule(Literal("zero"), IsSimply(Zero)),
    Rule(Run(Upper, Lower), IsSimply(Type)),
    Rule(Run(Lower, WordChar), IsIdentifier),
    Rule(Run(DigitOrUnderscore, DigitOrUnderscore), IsNotIdStart)
  ]

  /** What `tokenize(expression)` returns or throws. */
  function TokenizeSpec(expression: string): Result<seq<TToken>, TokenizeError> {
    Tokenizer.TokenizeSpec(expression, Rules)
  }

  /** `tokenize(expression)`. */
  method Tokenize(expression: string) returns (r: Result<seq<TToken>, TokenizeError>)
    ensures r == TokenizeSpec(expression)
  {
    r := Tokenizer.Tokenize(expression, Rules);
  }

  lemma RulesWellFormed()
    ensures WellFormed(Rules)
  {
  }

  /** The keyword rules, in table order. */
  const Keywords: seq<(string, Id)> := [("true", True), ("false", False), ("zero", Zero)]

  /**
   * Which rules can match at an offset holding `c`: a literal rule only where `c` is its first character,
   * and the three run rules exactly where `c` is in their first class.
   */
  lemma MatchAt(s: string, i: nat)
    requires i < |s|
    ensures forall k :: 0 <= k < 12 ==> Rules[k].pattern.Literal? && |Rules[k].pattern.text| > 0
    ensures forall k :: 0 <= k < 12 && MatchLength(Rules[k].pattern, s, i) > 0 ==> s[i] == Rules[k].pattern.text[0]
    ensures MatchLength(Rules[12].pattern, s, i) > 0 <==> InClass(Upper, s[i])
    ensures MatchLength(Rules[13].pattern, s, i) > 0 <==> InClass(Lower, s[i])
    ensures MatchLength(Rules[14].pattern, s, i) > 0 <==> InClass(DigitOrUnderscore, s[i])
  {
    forall k | 0 <= k < 12 && MatchLength(Rules[k].pattern, s, i) > 0
      ensures s[i] == Rules[k].pattern.text[0]
    {
      MatchLengthSpec(Rules[k].pattern, s, i);
    }
  }

  /**
   * `true`, `false` and `zero` are keywords wherever they begin, even at the start of a longer word: the
   * keyword token is appended and the rest of the word is read from after it (`truex` is `true` then `x`).
   */
  lemma KeywordFirst(s: string, i: nat, k: nat, result: seq<TToken>, temp: seq<TToken>)
    requires k < |Keywords| && i < |s| && StartsWith(s, i, Keywords[k].0)
    ensures i + |Keywords[k].0| <= |s|
    ensures TokenizeFrom(s, Rules, i, result, temp)
         == TokenizeFrom(s, Rules, i + |Keywords[k].0|, result, temp + [Token(Keywords[k].1, i, Keywords[k].0)])
  {
    var text := Keywords[k].0;
    KeywordMatch(s, i, k);
    StartsWithSlice(s, i, text);
    assert Rules[9 + k].callback == IsSimply(Keywords[k].1);
    MatchedStep(s, Rules, i, result, temp, 9 + k, |text|);
  }

  /** Where a keyword begins, its rule is the first that matches, and it matches the keyword's length. */
  lemma KeywordMatch(s: string, i: nat, k: nat)
    requires k < |Keywords| && i < |s| && StartsWith(s, i, Keywords[k].0)
    ensures i + |Keywords[k].0| <= |s| && !IsSpace(s[i])
    ensures FirstMatch(Rules, s, i, 0) == Some((9 + k, |Keywords[k].0|))
  {
    var text := Keywords[k].0;
    StartsWithSlice(s, i, text);
    LiteralHeads();
    assert s[i] == text[0] == Heads[9 + k];
    MatchAt(s, i);
    assert Rules[9 + k].pattern == Literal(text);
    FirstMatchFound(Rules, s, i, 0, 9 + k);
  }

  /** The first characters of the twelve literal rules, in table order: no two are the same. */
  const Heads: seq<char> := ['.', ':', ',', '-', 'λ', '(', ')', '[', ']', 't', 'f', 'z']

  lemma LiteralHeads()
    ensures |Heads| == 12
    ensures forall k :: 0 <= k < 12 ==> Rules[k].pattern.Literal? && |Rules[k].pattern.text| > 0 && Rules[k].pattern.text[0] == Heads[k]
    ensures forall a, b :: 0 <= a < b < 12 ==> Heads[a] != Heads[b]
    ensures forall a :: 9 <= a < 12 ==> !IsSpace(Heads[a])
  {
  }

  /** At an uppercase letter the text up to the last following lowercase letter is one type-name token. */
  lemma TypeNameToken(s: string, i: nat, result: seq<TToken>, temp: seq<TToken>)
    requires i < |s| && InClass(Upper, s[i])
    ensures var n := 1 + RunLength(Lower, s, i + 1);
            TokenizeFrom(s, Rules, i, result, temp) == TokenizeFrom(s, Rules, i + n, result, temp + [Token(Type, i, s[i..i + n])])
  {
    var n := RuleMatch(s, i, 12);
    MatchedStep(s, Rules, i, result, temp, 12, n);
  }

  /**
   * At a lowercase letter that does not begin a keyword, the longest word from there extends a pending
   * identifier or starts a new one.
   */
  lemma IdentifierToken(s: string, i: nat, result: seq<TToken>, temp: seq<TToken>)
    requires i < |s| && InClass(Lower, s[i])
    requires forall k :: 0 <= k < |Keywords| ==> !StartsWith(s, i, Keywords[k].0)
    ensures var n := 1 + RunLength(WordChar, s, i + 1);
            TokenizeFrom(s, Rules, i, result, temp) == TokenizeFrom(s, Rules, i + n, result, IsIdentifier(temp, s[i..i + n], i).value)
  {
    var n := RuleMatch(s, i, 13);
    MatchedStep(s, Rules, i, result, temp, 13, n);
  }

  /**
   * Where a digit or underscore run starts a new group of tokens, the tokenizer fails there with
   * "identifier must begin with a lowercase letter"; after a pending identifier the run extends it.
   */
  lemma DigitRun(s: string, i: nat, result: seq<TToken>, temp: seq<TToken>)
    requires i < |s| && InClass(DigitOrUnderscore, s[i])
    ensures !ExtendsIdentifier(temp) ==>
      TokenizeFrom(s, Rules, i, result, temp) == Err(TokenizeError(i, "identifier must begin with a lowercase letter"))
    ensures ExtendsIdentifier(temp) ==>
      var n := 1 + RunLength(DigitOrUnderscore, s, i + 1);
      TokenizeFrom(s, Rules, i, result, temp) == TokenizeFrom(s, Rules, i + n, result, Glue(temp, s[i..i + n]))
  {
    var n := RuleMatch(s, i, 14);
    MatchedStep(s, Rules, i, result, temp, 14, n);
  }

  /**
   * The run rules at a character of their first class: the type-name rule at an uppercase letter, the
   * identifier rule at a lowercase letter that begins no keyword, the digit rule at a digit or underscore.
   * Each is the first rule that matches there, and it matches the longest run.
   */
  lemma RuleMatch(s: string, i: nat, k: nat) returns (n: nat)
    requires i < |s| && 12 <= k < 15
    requires k == 12 ==> InClass(Upper, s[i])
    requires k == 13 ==> InClass(Lower, s[i]) && forall j :: 0 <= j < |Keywords| ==> !StartsWith(s, i, Keywords[j].0)
    requires k == 14 ==> InClass(DigitOrUnderscore, s[i])
    ensures !IsSpace(s[i]) && FirstMatch(Rules, s, i, 0) == Some((k, n))
    ensures n == 1 + RunLength(Rules[k].pattern.rest, s, i + 1)
    ensures Rules[k].callback == if k == 12 then IsSimply(Type) else if k == 13 then IsIdentifier else IsNotIdStart
  {
    MatchAt(s, i);
    n := MatchLength(Rules[k].pattern, s, i);
    forall j | 0 <= j < k ensures MatchLength(Rules[j].pattern, s, i) == 0 {
      if 9 <= j < 12 {
        assert Rules[j].pattern == Literal(Keywords[j - 9].0);
      }
    }
    FirstMatchFound(Rules, s, i, 0, k);
  }
}
