/**
 * The generic tokenizer of src/tokenize.ts: whitespace runs separate groups of tokens, and at every other
 * offset an ordered rule table is tried. Each rule pairs a pattern (a regular expression anchored at the
 * current offset in the source; here a `Pattern` value with an explicit matcher) with a callback that
 * rewrites the pending token array `temp`.
 */
module Tokenizer {
  import opened Wrappers
  import Utils

  datatype Token<K> = Token(id: K, start: nat, value: string)

  datatype TokenizeError = TokenizeError(position: nat, message: string)

  /** `toPrint()`: a caret under the offending offset, and the message. */
  function ToPrint(e: TokenizeError): (r: (string, string))
    ensures |r.0| == e.position + 1 && r.0[e.position] == '^'
    ensures forall k :: 0 <= k < e.position ==> r.0[k] == ' '
    ensures r.1 == e.message
  {
    (Utils.PositionString(e.position), e.message)
  }

  /** The character classes the rule tables of both calculi use. */
  datatype CharClass =
    | Letter             // [a-zA-Z]
    | Lower              // [a-z]
    | Upper              // [A-Z]
    | WordChar           // [_0-9a-zA-Z]
    | DigitOrUnderscore  // [_0-9]

  predicate InClass(cls: CharClass, c: char) {
    match cls
    case Letter => 'a' <= c <= 'z' || 'A' <= c <= 'Z'
    case Lower => 'a' <= c <= 'z'
    case Upper => 'A' <= c <= 'Z'
    case WordChar => 'a' <= c <= 'z' || 'A' <= c <= 'Z' || '0' <= c <= '9' || c == '_'
    case DigitOrUnderscore => '0' <= c <= '9' || c == '_'
  }

  /** A rule pattern: a literal text, or one character of `first` followed by as many of `rest` as possible. */
  datatype Pattern = Literal(text: string) | Run(first: CharClass, rest: CharClass)

  /** The characters of the JavaScript class `\s`. */
  predicate IsSpace(c: char) {
    || c == ' ' || c == '\t' || c == '\n' || c == '\r' || c == '\U{B}' || c == '\U{C}'
    || c == '\U{A0}' || c == '\U{1680}' || ('\U{2000}' <= c <= '\U{200A}')
    || c == '\U{2028}' || c == '\U{2029}' || c == '\U{202F}' || c == '\U{205F}'
    || c == '\U{3000}' || c == '\U{FEFF}'
  }

  /** Length of the longest run of `cls` characters starting at offset `i`. */
  function RunLength(cls: CharClass, s: string, i: nat): (n: nat)
    requires i <= |s|
    ensures i + n <= |s|
    decreases |s| - i
  {
    if i < |s| && InClass(cls, s[i]) then 1 + RunLength(cls, s, i + 1) else 0
  }

  /** The run is maximal: all of its characters are in `cls`, and the next one (if any) is not. */
  lemma {:induction false} RunLengthSpec(cls: CharClass, s: string, i: nat)
    requires i <= |s|
    ensures forall k :: i <= k < i + RunLength(cls, s, i) ==> InClass(cls, s[k])
    ensures i + RunLength(cls, s, i) == |s| || !InClass(cls, s[i + RunLength(cls, s, i)])
    decreases |s| - i
  {
    if i < |s| && InClass(cls, s[i]) {
      RunLengthSpec(cls, s, i + 1);
    }
  }

  /** Length of the whitespace run `/^\s+/` at offset `i` (0 when there is none). */
  function SpaceLength(s: string, i: nat): (n: nat)
    requires i <= |s|
    ensures i + n <= |s|
    decreases |s| - i
  {
    if i < |s| && IsSpace(s[i]) then 1 + SpaceLength(s, i + 1) else 0
  }

  lemma {:induction false} SpaceLengthSpec(s: string, i: nat)
    requires i <= |s|
    ensures forall k :: i <= k < i + SpaceLength(s, i) ==> IsSpace(s[k])
    ensures i + SpaceLength(s, i) == |s| || !IsSpace(s[i + SpaceLength(s, i)])
    decreases |s| - i
  {
    if i < |s| && IsSpace(s[i]) {
      SpaceLengthSpec(s, i + 1);
    }
  }

  /** `text` stands in `s` at offset `i`, compared one character at a time. */
  predicate StartsWith(s: string, i: nat, text: string)
    decreases |text|
  {
    |text| == 0 || (i < |s| && s[i] == text[0] && StartsWith(s, i + 1, text[1..]))
  }

  lemma {:induction false} StartsWithSlice(s: string, i: nat, text: string)
    requires i <= |s|
    ensures StartsWith(s, i, text) <==> |text| <= |s| - i && s[i..i + |text|] == text
    decreases |text|
  {
    if |text| > 0 && i < |s| {
      StartsWithSlice(s, i + 1, text[1..]);
      if |text| <= |s| - i && s[i..i + |text|] == text {
        assert s[i + 1..i + |text|] == text[1..];
      }
      if |text| <= |s| - i && s[i] == text[0] && s[i + 1..i + |text|] == text[1..] {
        assert s[i..i + |text|] == [s[i]] + s[i + 1..i + |text|];
        assert text == [text[0]] + text[1..];
      }
    }
  }

  /** Length of the text `p` matches at offset `i`; 0 means no match (patterns of a well-formed table never match empty text). */
  function MatchLength(p: Pattern, s: string, i: nat): (n: nat)
    requires i <= |s|
    ensures i + n <= |s|
  {
    match p
    case Literal(text) =>
      if StartsWith(s, i, text) then StartsWithSlice(s, i, text); |text| else 0
    case Run(first, rest) =>
      if i < |s| && InClass(first, s[i]) then 1 + RunLength(rest, s, i + 1) else 0
  }

  /** The text `text` stands in `s` at offset `p`. */
  predicate At(s: string, p: nat, text: string) {
    p + |text| <= |s| && forall k :: 0 <= k < |text| ==> s[p + k] == text[k]
  }

  /** Offset `q` ends a word: no identifier character follows. */
  predicate Boundary(s: string, q: nat) {
    q >= |s| || !InClass(WordChar, s[q])
  }

  lemma AtSplit(s: string, p: nat, a: string, b: string)
    requires At(s, p, a + b)
    ensures At(s, p, a) && At(s, p + |a|, b)
  {
    forall k | 0 <= k < |a| ensures s[p + k] == a[k] {
      assert (a + b)[k] == a[k];
    }
    forall k | 0 <= k < |b| ensures s[p + |a| + k] == b[k] {
      assert (a + b)[|a| + k] == b[k];
    }
  }

  lemma AtChar(s: string, p: nat, c: char)
    requires At(s, p, [c])
    ensures p < |s| && s[p] == c
  {
    assert [c][0] == c;
  }

  lemma AtSlice(s: string, p: nat, text: string)
    requires At(s, p, text)
    ensures s[p..p + |text|] == text
  {
  }

  /** `At` is `StartsWith` with room for the whole text. */
  lemma AtStartsWith(s: string, p: nat, text: string)
    requires At(s, p, text)
    ensures StartsWith(s, p, text)
  {
    StartsWithSlice(s, p, text);
    assert s[p..p + |text|] == text;
  }

  lemma {:induction false} RunLengthExact(cls: CharClass, s: string, i: nat, j: nat)
    requires i <= j <= |s|
    requires forall k :: i <= k < j ==> InClass(cls, s[k])
    requires j == |s| || !InClass(cls, s[j])
    ensures RunLength(cls, s, i) == j - i
    decreases j - i
  {
    if i < j {
      RunLengthExact(cls, s, i + 1, j);
    }
  }

  /** A match of a literal is that literal; a match of a run is a maximal run. */
  lemma MatchLengthSpec(p: Pattern, s: string, i: nat)
    requires i <= |s|
    ensures p.Literal? && MatchLength(p, s, i) > 0 ==> s[i..i + MatchLength(p, s, i)] == p.text
    ensures p.Run? && MatchLength(p, s, i) > 0 ==> InClass(p.first, s[i]) && forall k :: i < k < i + MatchLength(p, s, i) ==> InClass(p.rest, s[k])
  {
    if p.Run? && i < |s| {
      RunLengthSpec(p.rest, s, i + 1);
    }
    if p.Literal? {
      StartsWithSlice(s, i, p.text);
    }
  }

  /** A rule callback: given the pending tokens, the matched text and its offset, the new pending tokens or a thrown error. */
  type Callback<!K> = (seq<Token<K>>, string, nat) -> Result<seq<Token<K>>, TokenizeError>

  datatype Rule<!K> = Rule(pattern: Pattern, callback: Callback<K>)

  /** Every pattern of the table matches non-empty text only, so each step of the loop advances. */
  predicate WellFormed<K>(rules: seq<Rule<K>>) {
    forall k :: 0 <= k < |rules| ==> (rules[k].pattern.Literal? ==> |rules[k].pattern.text| > 0)
  }

  /** The first rule, from index `from` on, whose pattern matches at offset `i`, with the matched length. */
  function FirstMatch<K>(rules: seq<Rule<K>>, s: string, i: nat, from: nat): (r: Option<(nat, nat)>)
    requires i <= |s|
    ensures r.Some? ==> from <= r.value.0 < |rules| && 0 < r.value.1 <= |s| - i
    ensures r.Some? ==> r.value.1 == MatchLength(rules[r.value.0].pattern, s, i)
    decreases |rules| - from
  {
    if from >= |rules| then None
    else
      var n := MatchLength(rules[from].pattern, s, i);
      if n > 0 then Some((from, n)) else FirstMatch(rules, s, i, from + 1)
  }

  /** The rules tried before the one found (or all of them, when none is found) do not match. */
  lemma {:induction false} FirstMatchSpec<K>(rules: seq<Rule<K>>, s: string, i: nat, from: nat)
    requires i <= |s|
    ensures var r := FirstMatch(rules, s, i, from);
      && (r.Some? ==> forall k :: from <= k < r.value.0 ==> MatchLength(rules[k].pattern, s, i) == 0)
      && (r.None? ==> forall k :: from <= k < |rules| ==> MatchLength(rules[k].pattern, s, i) == 0)
    decreases |rules| - from
  {
    if from < |rules| && MatchLength(rules[from].pattern, s, i) == 0 {
      FirstMatchSpec(rules, s, i, from + 1);
    }
  }

  /** Conversely, the first matching rule is the one found. */
  lemma {:induction false} FirstMatchFound<K>(rules: seq<Rule<K>>, s: string, i: nat, from: nat, k: nat)
    requires i <= |s| && from <= k
    requires forall j :: from <= j < k && j < |rules| ==> MatchLength(rules[j].pattern, s, i) == 0
    ensures k < |rules| && MatchLength(rules[k].pattern, s, i) > 0 ==> FirstMatch(rules, s, i, from) == Some((k, MatchLength(rules[k].pattern, s, i)))
    ensures k >= |rules| ==> FirstMatch(rules, s, i, from) == None
    decreases k - from
  {
    if from < k && from < |rules| {
      FirstMatchFound(rules, s, i, from + 1, k);
    }
  }

  /** One pass of the loop body of `tokenize` at offset `i`: it fails, or moves on with new flushed and pending tokens. */
  datatype Step<K> = Failed(error: TokenizeError) | Advance(next: nat, result: seq<Token<K>>, temp: seq<Token<K>>)

  function StepAt<K>(s: string, rules: seq<Rule<K>>, i: nat, result: seq<Token<K>>, temp: seq<Token<K>>): (r: Step<K>)
    requires i < |s|
    ensures r.Advance? ==> i < r.next <= |s|
  {
    var separation := SpaceLength(s, i);
    if separation > 0 then Advance(i + separation, result + temp, [])
    else
      var m := FirstMatch(rules, s, i, 0);
      if m.None? then Failed(TokenizeError(i, "unexpected character: " + [s[i]]))
      else
        var next := rules[m.value.0].callback(temp, s[i..i + m.value.1], i);
        if next.Err? then Failed(next.error) else Advance(i + m.value.1, result, next.value)
  }

  /** What the loop of `tokenize` returns when it resumes at offset `i` with flushed tokens `result` and pending tokens `temp`. */
  function TokenizeFrom<K>(s: string, rules: seq<Rule<K>>, i: nat, result: seq<Token<K>>, temp: seq<Token<K>>)
    : Result<seq<Token<K>>, TokenizeError>
    requires i <= |s|
    decreases |s| - i
  {
    if i == |s| then Ok(result + temp)
    else
      match StepAt(s, rules, i, result, temp)
      case Failed(e) => Err(e)
      case Advance(j, result', temp') => TokenizeFrom(s, rules, j, result', temp')
  }

  /** A step that advances leaves the outcome of the rest of the loop unchanged. */
  lemma Advances<K>(s: string, rules: seq<Rule<K>>, i: nat, result: seq<Token<K>>, temp: seq<Token<K>>, step: Step<K>)
    requires i < |s| && step == StepAt(s, rules, i, result, temp) && step.Advance?
    ensures TokenizeFrom(s, rules, i, result, temp) == TokenizeFrom(s, rules, step.next, step.result, step.temp)
  {
  }

  /** Off whitespace, where the first matching rule is the `k`-th with length `n`, the loop goes on with its callback's outcome. */
  lemma MatchedStep<K>(s: string, rules: seq<Rule<K>>, i: nat, result: seq<Token<K>>, temp: seq<Token<K>>, k: nat, n: nat)
    requires i < |s| && !IsSpace(s[i]) && FirstMatch(rules, s, i, 0) == Some((k, n))
    ensures k < |rules| && i < i + n <= |s|
    ensures var next := rules[k].callback(temp, s[i..i + n], i);
      TokenizeFrom(s, rules, i, result, temp) == if next.Err? then Err(next.error) else TokenizeFrom(s, rules, i + n, result, next.value)
  {
    assert SpaceLength(s, i) == 0;
  }

  function TokenizeSpec<K>(s: string, rules: seq<Rule<K>>): Result<seq<Token<K>>, TokenizeError> {
    TokenizeFrom(s, rules, 0, [], [])
  }

  /** What trying the rules in order at offset `i` yields: the matched length and the first matching rule's callback outcome. */
  function RuleOutcome<K>(s: string, rules: seq<Rule<K>>, i: nat, temp: seq<Token<K>>)
    : Option<(nat, Result<seq<Token<K>>, TokenizeError>)>
    requires i <= |s|
  {
    var m := FirstMatch(rules, s, i, 0);
    if m.None? then None else Some((m.value.1, rules[m.value.0].callback(temp, s[i..i + m.value.1], i)))
  }

  /** The `for (let rule of rules)` loop: the first rule whose pattern matches runs its callback, and the search stops. */
  method TryRules<K>(expression: string, rules: seq<Rule<K>>, i: nat, temp: seq<Token<K>>)
    returns (outcome: Option<(nat, Result<seq<Token<K>>, TokenizeError>)>)
    requires i <= |expression|
    ensures outcome == RuleOutcome(expression, rules, i, temp)
  {
    var k := 0;
    while k < |rules|
      invariant k <= |rules|
      invariant forall j :: 0 <= j < k ==> MatchLength(rules[j].pattern, expression, i) == 0
    {
      var n := MatchLength(rules[k].pattern, expression, i);
      if n > 0 {
        FirstMatchFound(rules, expression, i, 0, k);
        return Some((n, rules[k].callback(temp, expression[i..i + n], i)));
      }
      k := k + 1;
    }
    FirstMatchFound(rules, expression, i, 0, k);
    return None;
  }

  /** `tokenize(expression, rules)`. */
  method Tokenize<K>(expression: string, rules: seq<Rule<K>>) returns (r: Result<seq<Token<K>>, TokenizeError>)
    ensures r == TokenizeSpec(expression, rules)
  {
    var result: seq<Token<K>> := [];
    var temp: seq<Token<K>> := [];
    var i := 0;
    while i < |expression|
      invariant i <= |expression|
      invariant TokenizeFrom(expression, rules, i, result, temp) == TokenizeSpec(expression, rules)
      decreases |expression| - i
    {
      ghost var step := StepAt(expression, rules, i, result, temp);
      var separation := SpaceLength(expression, i);
      if separation > 0 {
        Advances(expression, rules, i, result, temp, step);
        result := result + temp;
        temp := [];
        i := i + separation;
      } else {
        var outcome := TryRules(expression, rules, i, temp);
        if outcome.None? {
          assert step == Failed(TokenizeError(i, "unexpected character: " + [expression[i]]));
          return Err(TokenizeError(i, "unexpected character: " + [expression[i]]));
        }
        var (n, next) := outcome.value;
        if next.Err? {
          assert step == Failed(next.error);
          return Err(next.error);
        }
        Advances(expression, rules, i, result, temp, step);
        temp := next.value;
        i := i + n;
      }
    }
    r := Ok(result + temp);
  }

  lemma {:induction false} SpacesToEnd(s: string, i: nat)
    requires i <= |s|
    requires forall k :: i <= k < |s| ==> IsSpace(s[k])
    ensures SpaceLength(s, i) == |s| - i
    decreases |s| - i
  {
    if i < |s| {
      SpacesToEnd(s, i + 1);
    }
  }

  /** Input made of whitespace only (the empty input included) yields no token, whatever the rules. */
  lemma AllSpaceGivesNoToken<K>(s: string, rules: seq<Rule<K>>)
    requires forall k :: 0 <= k < |s| ==> IsSpace(s[k])
    ensures TokenizeSpec(s, rules) == Ok([])
  {
    var none: seq<Token<K>> := [];
    assert none + none == none;
    if |s| > 0 {
      SpacesToEnd(s, 0);
      assert TokenizeFrom(s, rules, 0, none, none) == TokenizeFrom(s, rules, |s|, none, none);
    }
  }

  /** At an offset that is neither whitespace nor matched by any rule, the error names that offset and that character. */
  lemma UnexpectedCharacter<K>(s: string, rules: seq<Rule<K>>, i: nat, result: seq<Token<K>>, temp: seq<Token<K>>)
    requires i < |s| && !IsSpace(s[i])
    requires forall k :: 0 <= k < |rules| ==> MatchLength(rules[k].pattern, s, i) == 0
    ensures TokenizeFrom(s, rules, i, result, temp) == Err(TokenizeError(i, "unexpected character: " + [s[i]]))
  {
  }

  /**
   * Tokens flushed at a whitespace run are final: callbacks only ever see `temp`, so whatever has been moved
   * to `result` is a prefix of the output, in the order produced.
   */
  lemma {:induction false} FlushedTokensArePrefix<K>(s: string, rules: seq<Rule<K>>, i: nat, result: seq<Token<K>>, temp: seq<Token<K>>)
    requires i <= |s|
    requires TokenizeFrom(s, rules, i, result, temp).Ok?
    ensures result <= TokenizeFrom(s, rules, i, result, temp).value
    decreases |s| - i
  {
    if i < |s| {
      var separation := SpaceLength(s, i);
      if separation > 0 {
        FlushedTokensArePrefix(s, rules, i + separation, result + temp, []);
        assert result <= result + temp;
      } else {
        var m := FirstMatch(rules, s, i, 0);
        var next := rules[m.value.0].callback(temp, s[i..i + m.value.1], i);
        FlushedTokensArePrefix(s, rules, i + m.value.1, result, next.value);
      }
    }
  }
}
