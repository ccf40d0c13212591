/**
 * Tokenizing a printed typed term. `TermToks(n, corrected, p)` is the token list that the typed rule table
 * produces for the text `ShowBy(n, corrected)` placed at offset `p`, and `TypeToks(t, p)` the one for
 * `ShowType(t)`: the printers put a space around `->`, after `,` and between the operands of an
 * application, so no two printed names glue together.
 */
module TypedShowLexing {
  import opened Wrappers
  import opened Tokenizer
  import L = TypedLexer
  import opened TypedSyntax

  /** A name the rule table reads back as one identifier: a lowercase letter, word characters, no keyword in front. */
  predicate ValidIdentifier(x: string) {
    && |x| > 0 && InClass(Lower, x[0])
    && (forall k :: 0 < k < |x| ==> InClass(WordChar, x[k]))
    && (forall k :: 0 <= k < |L.Keywords| ==> !StartsWith(x, 0, L.Keywords[k].0))
  }

  /** A type the parser accepts: every base type is `Bool` or `Nat`. */
  predicate ValidType(t: Type) {
    match t
    case SimpleType(value) => IsValidTypeName(value)
    case ArrowType(input, output) => ValidType(input) && ValidType(output)
    case PairType(first, second) => ValidType(first) && ValidType(second)
  }

  /** A term without `undefined` parts, whose names and types the lexer and parser read back as they are. */
  predicate Readable(n: Node) {
    match n
    case Identifier(value) => ValidIdentifier(value)
    case Abstraction(parameter, annotation, body) => ValidIdentifier(parameter) && ValidType(annotation) && Readable(body)
    case Application(left, right) => Readable(left) && Readable(right)
    case Undefined => false
  }

  /** A printed piece, bare or in parentheses. */
  function Wrapped(text: string, bare: bool): string {
    if bare then text else "(" + text + ")"
  }

  /** Whether the right side of application `n` is printed bare. */
  predicate RightBare(n: Node, corrected: bool)
    requires n.Application?
  {
    IsSimple(n) || (!IsSimple(n.left) && BareRight(n.right, corrected))
  }

  /** The four cases of `Application.toString` are one rule: each side bare or in parentheses, one space between. */
  lemma ShowApplication(n: Node, corrected: bool)
    requires n.Application?
    ensures ShowBy(n, corrected)
         == Wrapped(ShowBy(n.left, corrected), IsSimple(n.left)) + " " + Wrapped(ShowBy(n.right, corrected), RightBare(n, corrected))
  {
    WrappedJoin(ShowBy(n.left, corrected), ShowBy(n.right, corrected), IsSimple(n.left), RightBare(n, corrected));
  }

  /** Two pieces, each bare or in parentheses, with one space between. */
  lemma WrappedJoin(a: string, b: string, bareA: bool, bareB: bool)
    ensures Wrapped(a, bareA) + " " + Wrapped(b, bareB)
         == if bareA && bareB then a + " " + b
            else if bareA then a + " (" + b + ")"
            else if bareB then "(" + a + ") " + b
            else "(" + a + ") (" + b + ")"
  {
    if bareA && !bareB {
      assert a + " " + ("(" + b + ")") == a + " (" + b + ")";
    } else if !bareA && bareB {
      assert "(" + a + ")" + " " + b == "(" + a + ") " + b;
    } else if !bareA {
      assert "(" + a + ")" + " " + ("(" + b + ")") == "(" + a + ") (" + b + ")";
    }
  }

  /** The tokens of `ShowType(t)` printed at offset `p`. */
  function TypeToks(t: Type, p: nat): seq<L.TToken>
    decreases t, 0
  {
    match t
    case SimpleType(value) => [Token(L.Type, p, value)]
    case ArrowType(input, output) =>
      var q := p + |Wrapped(ShowType(input), input.SimpleType?)|;
      WrapTypeToks(input, input.SimpleType?, p) + [Token(L.Arrow, q + 1, "->")] + WrapTypeToks(output, TypeIsSimple(output), q + 4)
    case PairType(first, second) =>
      var q := p + 1 + |ShowType(first)|;
      [Token(L.LeftSqrBr, p, "[")] + TypeToks(first, p + 1) + [Token(L.Comma, q, ",")]
      + TypeToks(second, q + 2) + [Token(L.RightSqrBr, q + 2 + |ShowType(second)|, "]")]
  }

  /** The tokens of `Wrapped(ShowType(t), bare)` printed at offset `p`. */
  function WrapTypeToks(t: Type, bare: bool, p: nat): seq<L.TToken>
    decreases t, 1
  {
    if bare then TypeToks(t, p)
    else [Token(L.LeftPren, p, "(")] + TypeToks(t, p + 1) + [Token(L.RightPren, p + 1 + |ShowType(t)|, ")")]
  }

  /** The tokens of `λx:` printed at offset `p`. */
  function AbsHead(x: string, p: nat): seq<L.TToken> {
    [Token(L.Lambda, p, "λ"), Token(L.Identifier, p + 1, x), Token(L.Colon, p + 1 + |x|, ":")]
  }

  /** The tokens of `λx:T.` of abstraction `n` printed at offset `p`. */
  function AbsFront(n: Node, p: nat): seq<L.TToken>
    requires n.Abstraction?
  {
    AbsHead(n.parameter, p) + TypeToks(n.annotation, p + 2 + |n.parameter|)
    + [Token(L.Dot, p + 2 + |n.parameter| + |ShowType(n.annotation)|, ".")]
  }

  /** The text `λx:T.` of abstraction `n`. */
  function AbsFrontText(n: Node): string
    requires n.Abstraction?
  {
    "λ" + n.parameter + ":" + ShowType(n.annotation) + "."
  }

  /** An abstraction prints as `λx:T.` followed by its body. */
  lemma AbsShow(n: Node, corrected: bool)
    requires n.Abstraction?
    ensures ShowBy(n, corrected) == AbsFrontText(n) + ShowBy(n.body, corrected)
    ensures |AbsFrontText(n)| == 3 + |n.parameter| + |ShowType(n.annotation)|
  {
  }

  /** The tokens of `ShowBy(n, corrected)` printed at offset `p`. */
  function TermToks(n: Node, corrected: bool, p: nat): seq<L.TToken>
    decreases n, 0
  {
    match n
    case Identifier(value) => [Token(L.Identifier, p, value)]
    case Abstraction(parameter, annotation, body) =>
      var d := p + 2 + |parameter| + |ShowType(annotation)|;
      AbsHead(parameter, p) + TypeToks(annotation, p + 2 + |parameter|) + [Token(L.Dot, d, ".")]
      + TermToks(body, corrected, d + 1)
    case Application(left, right) =>
      WrapTermToks(left, corrected, IsSimple(left), p)
      + WrapTermToks(right, corrected, RightBare(n, corrected), p + |Wrapped(ShowBy(left, corrected), IsSimple(left))| + 1)
    case Undefined => [Token(L.Identifier, p, "undefined")]
  }

  /** The tokens of `Wrapped(ShowBy(n, corrected), bare)` printed at offset `p`. */
  function WrapTermToks(n: Node, corrected: bool, bare: bool, p: nat): seq<L.TToken>
    decreases n, 1
  {
    if bare then TermToks(n, corrected, p)
    else [Token(L.LeftPren, p, "(")] + TermToks(n, corrected, p + 1) + [Token(L.RightPren, p + 1 + |ShowBy(n, corrected)|, ")")]
  }

  /** The single-character punctuation of the rule table, with its rule. */
  predicate Punctuation(id: L.Id, c: char) {
    (id, c) in {(L.Dot, '.'), (L.Colon, ':'), (L.Comma, ','), (L.Lambda, 'λ'),
                (L.LeftPren, '('), (L.RightPren, ')'), (L.LeftSqrBr, '['), (L.RightSqrBr, ']')}
  }

  /** The outcome of the rest of the tokenizer loop, as a function of its state (offset, flushed and pending tokens). */
  type Outcome = (nat, seq<L.TToken>, seq<L.TToken>) -> Result<seq<L.TToken>, TokenizeError>

  /** `out` is unchanged by every advancing step of the typed rule table over `s`, as the loop's outcome is. */
  ghost predicate Respects(s: string, out: Outcome) {
    forall p: nat, r: seq<L.TToken>, t: seq<L.TToken> {:trigger StepAt(s, L.Rules, p, r, t)} ::
      p < |s| && StepAt(s, L.Rules, p, r, t).Advance? ==>
        out(p, r, t) == out(StepAt(s, L.Rules, p, r, t).next, StepAt(s, L.Rules, p, r, t).result, StepAt(s, L.Rules, p, r, t).temp)
  }

  /** One punctuation character becomes one pending token of its kind. */
  lemma OutPunct(s: string, p: nat, id: L.Id, c: char, result: seq<L.TToken>, temp: seq<L.TToken>, out: Outcome)
    requires Respects(s, out)
    requires p < |s| && s[p] == c && Punctuation(id, c)
    ensures out(p, result, temp) == out(p + 1, result, temp + [Token(id, p, [c])])
  {
    var k := PunctRule(id, c);
    L.MatchAt(s, p);
    assert s[p..p + 1] == [c];
    assert StartsWith(s, p, [c]);
    FirstMatchFound(L.Rules, s, p, 0, k);
    assert StepAt(s, L.Rules, p, result, temp) == Advance(p + 1, result, temp + [Token(id, p, [c])]);
  }

  /** The rule of a punctuation character, and no rule before it starts with that character. */
  lemma PunctRule(id: L.Id, c: char) returns (k: nat)
    requires Punctuation(id, c)
    ensures k < 12 && L.Rules[k] == Rule(Literal([c]), L.IsSimply(id))
    ensures forall j :: 0 <= j < k ==> L.Rules[j].pattern.text[0] != c
  {
    k := if c == '.' then 0 else if c == ':' then 1 else if c == ',' then 2 else if c == 'λ' then 4
      else if c == '(' then 5 else if c == ')' then 6 else if c == '[' then 7 else 8;
  }

  /** The text `->` becomes one arrow token. */
  lemma OutArrow(s: string, p: nat, result: seq<L.TToken>, temp: seq<L.TToken>, out: Outcome)
    requires Respects(s, out)
    requires At(s, p, "->")
    ensures out(p, result, temp) == out(p + 2, result, temp + [Token(L.Arrow, p, "->")])
  {
    AtStartsWith(s, p, "->");
    assert s[p] == "->"[0] == '-';
    AtSlice(s, p, "->");
    L.MatchAt(s, p);
    FirstMatchFound(L.Rules, s, p, 0, 3);
    assert StepAt(s, L.Rules, p, result, temp) == Advance(p + 2, result, temp + [Token(L.Arrow, p, "->")]);
  }

  /** A base type name ending at a word boundary becomes one type token. */
  lemma OutTypeName(s: string, p: nat, n: string, result: seq<L.TToken>, temp: seq<L.TToken>, out: Outcome)
    requires Respects(s, out)
    requires IsValidTypeName(n) && At(s, p, n) && Boundary(s, p + |n|)
    ensures out(p, result, temp) == out(p + |n|, result, temp + [Token(L.Type, p, n)])
  {
    assert forall k :: p <= k < p + |n| ==> s[k] == n[k - p];
    AtSlice(s, p, n);
    L.MatchAt(s, p);
    RunLengthExact(Lower, s, p + 1, p + |n|);
    FirstMatchFound(L.Rules, s, p, 0, 12);
    assert StepAt(s, L.Rules, p, result, temp) == Advance(p + |n|, result, temp + [Token(L.Type, p, n)]);
  }

  /** A valid identifier followed by a word boundary has no keyword at its start in the text. */
  lemma NoKeywordAt(s: string, p: nat, n: string)
    requires ValidIdentifier(n) && At(s, p, n) && Boundary(s, p + |n|)
    ensures forall k :: 0 <= k < |L.Keywords| ==> !StartsWith(s, p, L.Keywords[k].0)
  {
    forall k | 0 <= k < |L.Keywords| ensures !StartsWith(s, p, L.Keywords[k].0) {
      var kw := L.Keywords[k].0;
      assert forall j :: 0 <= j < |kw| ==> InClass(Lower, kw[j]);
      StartsWithSlice(s, p, kw);
      StartsWithSlice(n, 0, kw);
    }
  }

  /** A name that starts a new group and ends at a word boundary becomes one identifier token. */
  lemma OutName(s: string, p: nat, n: string, result: seq<L.TToken>, temp: seq<L.TToken>, out: Outcome)
    requires Respects(s, out)
    requires ValidIdentifier(n) && At(s, p, n) && Boundary(s, p + |n|)
    requires !L.ExtendsIdentifier(temp)
    ensures out(p, result, temp) == out(p + |n|, result, temp + [Token(L.Identifier, p, n)])
  {
    NameStep(s, p, n, result, temp);
  }

  /** The loop's step over such a name. */
  lemma NameStep(s: string, p: nat, n: string, result: seq<L.TToken>, temp: seq<L.TToken>)
    requires ValidIdentifier(n) && At(s, p, n) && Boundary(s, p + |n|)
    requires !L.ExtendsIdentifier(temp)
    ensures p < |s| && StepAt(s, L.Rules, p, result, temp) == Advance(p + |n|, result, temp + [Token(L.Identifier, p, n)])
  {
    NameMatch(s, p, n);
    assert s[p] == n[0];
    assert SpaceLength(s, p) == 0;
  }

  /** The first rule that matches such a name is the identifier rule, and it takes the whole name. */
  lemma NameMatch(s: string, p: nat, n: string)
    requires ValidIdentifier(n) && At(s, p, n) && Boundary(s, p + |n|)
    ensures p < |s| && FirstMatch(L.Rules, s, p, 0) == Some((13, |n|)) && s[p..p + |n|] == n
  {
    assert forall k :: p <= k < p + |n| ==> s[k] == n[k - p];
    AtSlice(s, p, n);
    NoKeywordAt(s, p, n);
    L.MatchAt(s, p);
    forall k | 0 <= k < 13 ensures MatchLength(L.Rules[k].pattern, s, p) == 0 {
      if 9 <= k < 12 {
        assert L.Rules[k].pattern == Literal(L.Keywords[k - 9].0);
      }
    }
    RunLengthExact(WordChar, s, p + 1, p + |n|);
    FirstMatchFound(L.Rules, s, p, 0, 13);
  }

  /** A single space before a non-space character flushes the pending tokens. */
  lemma OutSpace(s: string, p: nat, result: seq<L.TToken>, temp: seq<L.TToken>, out: Outcome)
    requires Respects(s, out)
    requires p + 1 < |s| && s[p] == ' ' && !IsSpace(s[p + 1])
    ensures out(p, result, temp) == out(p + 1, result + temp, [])
  {
    assert SpaceLength(s, p + 1) == 0;
    assert StepAt(s, L.Rules, p, result, temp) == Advance(p + 1, result + temp, []);
  }

  /** The printed form of a valid type is not empty and does not start with whitespace. */
  lemma TypeShowStart(t: Type)
    requires ValidType(t)
    ensures |ShowType(t)| > 0 && !IsSpace(ShowType(t)[0])
  {
    if t.ArrowType? && t.input.SimpleType? {
      assert ShowType(t)[0] == t.input.value[0];
    }
  }

  /** The printed form of a readable term is not empty and does not start with whitespace. */
  lemma {:induction false} TermShowStart(n: Node, corrected: bool)
    requires Readable(n)
    ensures |ShowBy(n, corrected)| > 0 && !IsSpace(ShowBy(n, corrected)[0])
  {
    if n.Application? {
      ShowApplication(n, corrected);
      TermShowStart(n.left, corrected);
      var w := Wrapped(ShowBy(n.left, corrected), IsSimple(n.left));
      assert ShowBy(n, corrected)[0] == w[0];
    }
  }

  /** Parentheses keep a text nonempty and its first character nonblank. */
  lemma WrappedStart(text: string, bare: bool)
    requires |text| > 0 && !IsSpace(text[0])
    ensures |Wrapped(text, bare)| > 0 && !IsSpace(Wrapped(text, bare)[0])
  {
  }

  /** Where the characters of `[first, second]` stand. */
  lemma PairPieces(s: string, p: nat, first: string, second: string)
    requires At(s, p, "[" + first + ", " + second + "]")
    ensures var q := p + 1 + |first|;
            && q + 2 + |second| < |s| && s[p] == '[' && At(s, p + 1, first)
            && s[q] == ',' && s[q + 1] == ' ' && At(s, q + 2, second) && s[q + 2 + |second|] == ']'
  {
    AtSplit(s, p, "[" + first + ", " + second, "]");
    AtSplit(s, p, "[" + first + ", ", second);
    AtSplit(s, p, "[" + first, ", ");
    AtSplit(s, p, "[", first);
    var q := p + 1 + |first|;
    assert s[p] == "["[0] && s[q] == ", "[0] && s[q + 1] == ", "[1] && s[q + 2 + |second|] == "]"[0];
  }

  /** Where the characters of `λx:T.` stand. */
  lemma AbsPieces(s: string, p: nat, x: string, ty: string)
    requires At(s, p, "λ" + x + ":" + ty + ".")
    ensures var d := p + 2 + |x| + |ty|;
            && d < |s| && s[p] == 'λ' && At(s, p + 1, x) && s[p + 1 + |x|] == ':'
            && At(s, p + 2 + |x|, ty) && s[d] == '.'
  {
    AtSplit(s, p, "λ" + x + ":" + ty, ".");
    AtSplit(s, p, "λ" + x + ":", ty);
    AtSplit(s, p, "λ" + x, ":");
    AtSplit(s, p, "λ", x);
    var d := p + 2 + |x| + |ty|;
    assert s[p] == "λ"[0] && s[p + 1 + |x|] == ":"[0] && s[d] == "."[0];
  }

  /** Where the characters of `left right` stand. */
  lemma AppPieces(s: string, p: nat, left: string, right: string)
    requires At(s, p, left + " " + right)
    ensures At(s, p, left) && p + |left| < |s| && s[p + |left|] == ' ' && At(s, p + |left| + 1, right)
  {
    AtSplit(s, p, left + " ", right);
    AtSplit(s, p, left, " ");
    assert s[p + |left|] == " "[0];
  }

  /** Where the characters of `(text)` stand. */
  lemma ParenPieces(s: string, p: nat, text: string)
    requires At(s, p, "(" + text + ")")
    ensures p + 1 + |text| < |s| && s[p] == '(' && At(s, p + 1, text) && s[p + 1 + |text|] == ')'
  {
    AtSplit(s, p, "(" + text, ")");
    AtSplit(s, p, "(", text);
    assert s[p] == "("[0] && s[p + 1 + |text|] == ")"[0];
  }

  /*
   * Bookkeeping of the tokens read so far, over plain token lists: `result + temp` is everything read,
   * flushed or pending.
   */

  /** A token read and then the rest: `r + (t + [x])` regroups. */
  lemma Regroup(r: seq<L.TToken>, t: seq<L.TToken>, x: seq<L.TToken>)
    ensures r + (t + x) == r + t + x
  {
  }

  /** Two parts, the pending list emptied between them. */
  lemma Join2(before: seq<L.TToken>, x: seq<L.TToken>, z: seq<L.TToken>, flushed: seq<L.TToken>, after: seq<L.TToken>)
    requires flushed == before + x && after == flushed + [] + z
    ensures after == before + (x + z)
  {
    assert flushed + [] == flushed;
  }

  /** The input's tokens and the arrow after what was read before. */
  lemma JoinArrow(before: seq<L.TToken>, x: seq<L.TToken>, arrow: L.TToken, flushed: seq<L.TToken>)
    requires flushed == before + x + [arrow]
    ensures flushed == before + (x + [arrow])
  {
  }

  /** Three parts, the pending list emptied before the last. */
  lemma Join3(before: seq<L.TToken>, x: seq<L.TToken>, y: seq<L.TToken>, z: seq<L.TToken>, flushed: seq<L.TToken>, after: seq<L.TToken>)
    requires flushed == before + x + y && after == flushed + [] + z
    ensures after == before + (x + y + z)
  {
    assert flushed + [] == flushed;
  }

  /** A head, a part read with the pending list emptied, and a closing token. */
  lemma JoinClose(before: seq<L.TToken>, x: seq<L.TToken>, z: seq<L.TToken>, w: seq<L.TToken>,
                  flushed: seq<L.TToken>, r: seq<L.TToken>, t: seq<L.TToken>)
    requires flushed == before + x && r + t == flushed + [] + z
    ensures r + (t + w) == before + (x + z + w)
  {
    assert flushed + [] == flushed;
    calc {
      r + (t + w);
      r + t + w;
      before + x + z + w;
      before + (x + z + w);
    }
  }

  /** An opening token, a part, then more pending tokens. */
  lemma JoinOpen(result: seq<L.TToken>, temp: seq<L.TToken>, o: seq<L.TToken>, x: seq<L.TToken>, w: seq<L.TToken>,
                 r: seq<L.TToken>, t: seq<L.TToken>)
    requires r + t == result + (temp + o) + x
    ensures r + (t + w) == result + temp + (o + x + w)
  {
    calc {
      r + (t + w);
      r + t + w;
      result + (temp + o) + x + w;
      result + temp + o + x + w;
      result + temp + (o + x + w);
    }
  }

  /** The head of an abstraction, its annotation, the dot, and its body. */
  lemma JoinAbs(result: seq<L.TToken>, temp: seq<L.TToken>, h: seq<L.TToken>, a: seq<L.TToken>, d: seq<L.TToken>, b: seq<L.TToken>,
                r: seq<L.TToken>, t: seq<L.TToken>, after: seq<L.TToken>)
    requires r + t == result + (temp + h) + a && after == r + (t + d) + b
    ensures after == result + temp + (h + a + d + b)
  {
    calc {
      after;
      r + (t + d) + b;
      r + t + d + b;
      result + (temp + h) + a + d + b;
      result + temp + h + a + d + b;
      result + temp + (h + a + d + b);
    }
  }

  /** An arrow type prints as its input and its output, each bare or in parentheses, around ` -> `. */
  lemma ArrowShow(t: Type)
    requires t.ArrowType?
    ensures ShowType(t) == Wrapped(ShowType(t.input), t.input.SimpleType?) + " -> " + Wrapped(ShowType(t.output), TypeIsSimple(t.output))
  {
  }

  /** The tokens of an arrow type: the input's, the arrow, the output's. */
  lemma ArrowToks(t: Type, p: nat)
    requires t.ArrowType?
    ensures var q := p + |Wrapped(ShowType(t.input), t.input.SimpleType?)|;
            TypeToks(t, p)
            == WrapTypeToks(t.input, t.input.SimpleType?, p) + [Token(L.Arrow, q + 1, "->")] + WrapTypeToks(t.output, TypeIsSimple(t.output), q + 4)
  {
  }

  /** The tokens of a pair type: bracket, the first's, comma, the second's, bracket. */
  lemma PairToks(t: Type, p: nat)
    requires t.PairType?
    ensures var q := p + 1 + |ShowType(t.first)|;
            TypeToks(t, p)
            == ([Token(L.LeftSqrBr, p, "[")] + TypeToks(t.first, p + 1) + [Token(L.Comma, q, ",")])
               + TypeToks(t.second, q + 2) + [Token(L.RightSqrBr, q + 2 + |ShowType(t.second)|, "]")]
  {
  }

  /** The tokens of an abstraction: its head, its annotation's, the dot, its body's. */
  lemma AbsToks(n: Node, corrected: bool, p: nat)
    requires n.Abstraction?
    ensures TermToks(n, corrected, p)
         == AbsHead(n.parameter, p) + TypeToks(n.annotation, p + 2 + |n.parameter|)
            + [Token(L.Dot, p + 2 + |n.parameter| + |ShowType(n.annotation)|, ".")]
            + TermToks(n.body, corrected, p + 3 + |n.parameter| + |ShowType(n.annotation)|)
  {
  }

  /** The tokens of an abstraction: those of `λx:T.`, then its body's from offset `d`. */
  lemma AbsFrontToks(n: Node, corrected: bool, p: nat, d: nat)
    requires n.Abstraction? && d == p + 3 + |n.parameter| + |ShowType(n.annotation)|
    ensures TermToks(n, corrected, p) == AbsFront(n, p) + TermToks(n.body, corrected, d)
  {
    AbsToks(n, corrected, p);
  }

  /** Tokens read in two stretches, the second appended to the first. */
  lemma JoinAfter(a: seq<L.TToken>, b: seq<L.TToken>, c: seq<L.TToken>, x: seq<L.TToken>, y: seq<L.TToken>)
    requires x == a + b && y == x + c
    ensures y == a + (b + c)
  {
  }

  /** Two stretches of the loop in a row, ending at the same offset however it is written. */
  lemma Chain(out: Outcome, p: nat, r: seq<L.TToken>, t: seq<L.TToken>, q: nat, r1: seq<L.TToken>, t1: seq<L.TToken>,
              e: nat, e': nat, r2: seq<L.TToken>, t2: seq<L.TToken>)
    requires out(p, r, t) == out(q, r1, t1) && out(q, r1, t1) == out(e, r2, t2) && e == e'
    ensures out(p, r, t) == out(e', r2, t2)
  {
  }

  /** The parts of a term are smaller than it. */
  lemma Smaller(n: Node)
    ensures n.Abstraction? ==> n.body < n
    ensures n.Application? ==> n.left < n && n.right < n
  {
  }

  /** The tokens of an application: its two sides', each bare or in parentheses. */
  lemma AppToks(n: Node, corrected: bool, p: nat)
    requires n.Application?
    ensures TermToks(n, corrected, p)
         == WrapTermToks(n.left, corrected, IsSimple(n.left), p)
            + WrapTermToks(n.right, corrected, RightBare(n, corrected), p + |Wrapped(ShowBy(n.left, corrected), IsSimple(n.left))| + 1)
  {
  }

  /** The text of a type at offset `p` appends `TypeToks(t, p)`, wherever it stands. */
  lemma {:induction false} LexType(s: string, t: Type, p: nat, result: seq<L.TToken>, temp: seq<L.TToken>, out: Outcome)
    returns (result': seq<L.TToken>, temp': seq<L.TToken>)
    requires Respects(s, out)
    requires ValidType(t) && At(s, p, ShowType(t)) && Boundary(s, p + |ShowType(t)|)
    ensures out(p, result, temp) == out(p + |ShowType(t)|, result', temp')
    ensures result' + temp' == result + temp + TypeToks(t, p)
    decreases t, 5
  {
    match t
    case SimpleType(n) =>
      OutTypeName(s, p, n, result, temp, out);
      result', temp' := result, temp + [Token(L.Type, p, n)];
    case ArrowType(a, o) =>
      result', temp' := LexArrow(s, a, o, p, result, temp, out);
    case PairType(f, g) =>
      result', temp' := LexPair(s, t, p, result, temp, out);
  }

  /** `input -> ` of an arrow type: the spaces around the arrow flush everything read so far. */
  lemma {:induction false} LexArrowHead(s: string, a: Type, o: Type, left: string, right: string, p: nat, q: nat,
                                        result: seq<L.TToken>, temp: seq<L.TToken>, out: Outcome)
    returns (flushed: seq<L.TToken>)
    requires Respects(s, out)
    requires ValidType(a) && left == Wrapped(ShowType(a), a.SimpleType?) && q == p + |left|
    requires |right| > 0 && !IsSpace(right[0]) && At(s, p, left + " -> " + right)
    ensures out(p, result, temp) == out(q + 4, flushed, [])
    ensures flushed == result + temp + WrapTypeToks(a, a.SimpleType?, p) + [Token(L.Arrow, q + 1, "->")]
    ensures At(s, q + 4, right)
    decreases ArrowType(a, o), 2
  {
    assert left + " -> " + right == left + (" -> " + right);
    AtSplit(s, p, left, " -> " + right);
    ArrowSpaces(s, q, right);
    var r1, t1 := LexTypeWrapped(s, a, a.SimpleType?, p, result, temp, out);
    flushed := LexArrowSign(s, q, right, r1, t1, out);
  }

  /** Where the characters of ` -> right` stand. */
  lemma ArrowSpaces(s: string, q: nat, right: string)
    requires At(s, q, " -> " + right)
    ensures q + 3 < |s| && s[q] == ' ' && s[q + 1] == '-' && At(s, q + 1, "->") && s[q + 3] == ' ' && At(s, q + 4, right)
  {
    AtSplit(s, q, " -> ", right);
    assert s[q] == " -> "[0] && s[q + 1] == " -> "[1] && s[q + 2] == " -> "[2] && s[q + 3] == " -> "[3];
    assert "->"[0] == '-' && "->"[1] == '>';
  }

  /** ` -> ` before a nonblank character: the arrow token, and everything read so far flushed. */
  lemma LexArrowSign(s: string, q: nat, right: string, r1: seq<L.TToken>, t1: seq<L.TToken>, out: Outcome)
    returns (flushed: seq<L.TToken>)
    requires Respects(s, out)
    requires |right| > 0 && !IsSpace(right[0]) && At(s, q, " -> " + right)
    ensures out(q, r1, t1) == out(q + 4, flushed, [])
    ensures flushed == r1 + t1 + [Token(L.Arrow, q + 1, "->")]
  {
    ArrowSpaces(s, q, right);
    assert s[q + 4] == right[0];
    OutSpace(s, q, r1, t1, out);
    OutArrow(s, q + 1, r1 + t1, [], out);
    var arrow := Token(L.Arrow, q + 1, "->");
    assert [] + [arrow] == [arrow];
    OutSpace(s, q + 3, r1 + t1, [arrow], out);
    flushed := r1 + t1 + [arrow];
  }

  /** `input -> output`. */
  lemma {:induction false} LexArrow(s: string, a: Type, o: Type, p: nat, result: seq<L.TToken>, temp: seq<L.TToken>, out: Outcome)
    returns (result': seq<L.TToken>, temp': seq<L.TToken>)
    requires Respects(s, out)
    requires ValidType(a) && ValidType(o)
    requires At(s, p, ShowType(ArrowType(a, o))) && Boundary(s, p + |ShowType(ArrowType(a, o))|)
    ensures out(p, result, temp) == out(p + |ShowType(ArrowType(a, o))|, result', temp')
    ensures result' + temp' == result + temp + TypeToks(ArrowType(a, o), p)
    decreases ArrowType(a, o), 4
  {
    var left, right := ArrowLayout(ArrowType(a, o), p);
    ArrowToks(ArrowType(a, o), p);
    var q := p + |left|;
    result', temp' := LexArrowParts(s, a, o, left, right, WrapTypeToks(a, a.SimpleType?, p), WrapTypeToks(o, TypeIsSimple(o), q + 4),
                                    p, q, q + 4 + |right|, result, temp, out);
  }

  /** The printed input and output of an arrow type: the text is `left -> right`. */
  lemma ArrowLayout(t: Type, p: nat) returns (left: string, right: string)
    requires t.ArrowType?
    ensures left == Wrapped(ShowType(t.input), t.input.SimpleType?) && right == Wrapped(ShowType(t.output), TypeIsSimple(t.output))
    ensures ShowType(t) == left + " -> " + right
  {
    left, right := Wrapped(ShowType(t.input), t.input.SimpleType?), Wrapped(ShowType(t.output), TypeIsSimple(t.output));
    ArrowShow(t);
  }

  /** The input, the arrow, the output. */
  lemma {:induction false} LexArrowParts(s: string, a: Type, o: Type, left: string, right: string,
                                         wa: seq<L.TToken>, wo: seq<L.TToken>, p: nat, q: nat, e: nat,
                                         result: seq<L.TToken>, temp: seq<L.TToken>, out: Outcome)
    returns (result': seq<L.TToken>, temp': seq<L.TToken>)
    requires Respects(s, out)
    requires ValidType(a) && ValidType(o)
    requires left == Wrapped(ShowType(a), a.SimpleType?) && right == Wrapped(ShowType(o), TypeIsSimple(o))
    requires q == p + |left| && e == q + 4 + |right|
    requires wa == WrapTypeToks(a, a.SimpleType?, p) && wo == WrapTypeToks(o, TypeIsSimple(o), q + 4)
    requires At(s, p, left + " -> " + right) && Boundary(s, e)
    ensures out(p, result, temp) == out(e, result', temp')
    ensures result' + temp' == result + temp + (wa + [Token(L.Arrow, q + 1, "->")] + wo)
    decreases ArrowType(a, o), 3
  {
    OutputStart(o, right);
    var flushed := LexArrowHead(s, a, o, left, right, p, q, result, temp, out);
    var x := wa + [Token(L.Arrow, q + 1, "->")];
    JoinArrow(result + temp, wa, Token(L.Arrow, q + 1, "->"), flushed);
    result', temp' := LexArrowTail(s, a, o, right, q + 4, e, result + temp, x, flushed, out);
  }

  /** The printed output of an arrow type starts with a nonblank character. */
  lemma OutputStart(o: Type, right: string)
    requires ValidType(o) && right == Wrapped(ShowType(o), TypeIsSimple(o))
    ensures |right| > 0 && !IsSpace(right[0])
  {
    TypeAlwaysSimple(o);
    TypeShowStart(o);
    WrappedStart(ShowType(o), TypeIsSimple(o));
  }

  /** ` output` of an arrow type, read after the arrow with nothing pending. */
  lemma {:induction false} LexArrowTail(s: string, a: Type, o: Type, right: string, p: nat, e: nat,
                                        before: seq<L.TToken>, x: seq<L.TToken>, flushed: seq<L.TToken>, out: Outcome)
    returns (result': seq<L.TToken>, temp': seq<L.TToken>)
    requires Respects(s, out)
    requires ValidType(o) && right == Wrapped(ShowType(o), TypeIsSimple(o)) && e == p + |right|
    requires At(s, p, right) && Boundary(s, e) && flushed == before + x
    ensures out(p, flushed, []) == out(e, result', temp')
    ensures result' + temp' == before + (x + WrapTypeToks(o, TypeIsSimple(o), p))
    decreases ArrowType(a, o), 2
  {
    result', temp' := LexTypeWrapped(s, o, TypeIsSimple(o), p, flushed, [], out);
    Join2(before, x, WrapTypeToks(o, TypeIsSimple(o), p), flushed, result' + temp');
  }

  /** `[first, ` of a pair type: the space after the comma flushes everything read so far. */
  lemma {:induction false} LexPairHead(s: string, t: Type, p: nat, result: seq<L.TToken>, temp: seq<L.TToken>, out: Outcome)
    returns (flushed: seq<L.TToken>)
    requires Respects(s, out)
    requires t.PairType? && ValidType(t) && At(s, p, ShowType(t))
    ensures var sf, sg := ShowType(t.first), ShowType(t.second);
            var q := p + 1 + |sf|;
            && out(p, result, temp) == out(q + 2, flushed, [])
            && flushed == result + temp + ([Token(L.LeftSqrBr, p, "[")] + TypeToks(t.first, p + 1) + [Token(L.Comma, q, ",")])
            && At(s, q + 2, sg) && q + 2 + |sg| < |s| && s[q + 2 + |sg|] == ']'
            && |ShowType(t)| == |sf| + |sg| + 4
    decreases t, 3
  {
    var f, g := t.first, t.second;
    var sf, sg := ShowType(f), ShowType(g);
    assert ShowType(t) == "[" + sf + ", " + sg + "]";
    PairPieces(s, p, sf, sg);
    var q := p + 1 + |sf|;
    TypeShowStart(g);
    assert s[q + 2] == sg[0];
    var open, comma := Token(L.LeftSqrBr, p, "["), Token(L.Comma, q, ",");
    OutPunct(s, p, L.LeftSqrBr, '[', result, temp, out);
    var r1, t1 := LexType(s, f, p + 1, result, temp + [open], out);
    OutPunct(s, q, L.Comma, ',', r1, t1, out);
    OutSpace(s, q + 1, r1, t1 + [comma], out);
    flushed := r1 + (t1 + [comma]);
    JoinOpen(result, temp, [open], TypeToks(f, p + 1), [comma], r1, t1);
  }

  /** `[first, second]`. */
  lemma {:induction false} LexPair(s: string, t: Type, p: nat, result: seq<L.TToken>, temp: seq<L.TToken>, out: Outcome)
    returns (result': seq<L.TToken>, temp': seq<L.TToken>)
    requires Respects(s, out)
    requires t.PairType? && ValidType(t) && At(s, p, ShowType(t)) && Boundary(s, p + |ShowType(t)|)
    ensures out(p, result, temp) == out(p + |ShowType(t)|, result', temp')
    ensures result' + temp' == result + temp + TypeToks(t, p)
    decreases t, 4
  {
    var f, g := t.first, t.second;
    var q := p + 1 + |ShowType(f)|;
    var e := q + 2 + |ShowType(g)|;
    var flushed := LexPairHead(s, t, p, result, temp, out);
    var r2, t2 := LexType(s, g, q + 2, flushed, [], out);
    var close := Token(L.RightSqrBr, e, "]");
    OutPunct(s, e, L.RightSqrBr, ']', r2, t2, out);
    result', temp' := r2, t2 + [close];
    PairToks(t, p);
    var head := [Token(L.LeftSqrBr, p, "[")] + TypeToks(f, p + 1) + [Token(L.Comma, q, ",")];
    JoinClose(result + temp, head, TypeToks(g, q + 2), [close], flushed, r2, t2);
  }

  lemma {:induction false} LexTypeParen(s: string, t: Type, p: nat, result: seq<L.TToken>, temp: seq<L.TToken>, out: Outcome)
    returns (result': seq<L.TToken>, temp': seq<L.TToken>)
    requires Respects(s, out)
    requires ValidType(t) && At(s, p, "(" + ShowType(t) + ")")
    ensures out(p, result, temp) == out(p + |ShowType(t)| + 2, result', temp')
    ensures result' + temp' == result + temp + WrapTypeToks(t, false, p)
    decreases t, 6
  {
    ParenPieces(s, p, ShowType(t));
    var q := p + 1 + |ShowType(t)|;
    var open, close := Token(L.LeftPren, p, "("), Token(L.RightPren, q, ")");
    OutPunct(s, p, L.LeftPren, '(', result, temp, out);
    var r1, t1 := LexType(s, t, p + 1, result, temp + [open], out);
    OutPunct(s, q, L.RightPren, ')', r1, t1, out);
    result', temp' := r1, t1 + [close];
    JoinOpen(result, temp, [open], TypeToks(t, p + 1), [close], r1, t1);
  }

  lemma {:induction false} LexTypeWrapped(s: string, t: Type, bare: bool, p: nat, result: seq<L.TToken>, temp: seq<L.TToken>, out: Outcome)
    returns (result': seq<L.TToken>, temp': seq<L.TToken>)
    requires Respects(s, out)
    requires ValidType(t) && At(s, p, Wrapped(ShowType(t), bare)) && Boundary(s, p + |Wrapped(ShowType(t), bare)|)
    ensures out(p, result, temp) == out(p + |Wrapped(ShowType(t), bare)|, result', temp')
    ensures result' + temp' == result + temp + WrapTypeToks(t, bare, p)
    decreases t, 7
  {
    if bare {
      result', temp' := LexType(s, t, p, result, temp, out);
    } else {
      result', temp' := LexTypeParen(s, t, p, result, temp, out);
    }
  }

  /**
   * Tokenizing the text of `n` at offset `p` appends `TermToks(n, corrected, p)` to the tokens produced so far
   * (flushed or pending), provided the text does not glue onto a pending identifier before it or a word
   * character after it.
   */
  lemma {:induction false} LexTerm(s: string, n: Node, corrected: bool, p: nat, result: seq<L.TToken>, temp: seq<L.TToken>, out: Outcome)
    returns (result': seq<L.TToken>, temp': seq<L.TToken>)
    requires Respects(s, out)
    requires Readable(n) && At(s, p, ShowBy(n, corrected)) && Boundary(s, p + |ShowBy(n, corrected)|)
    requires !L.ExtendsIdentifier(temp)
    ensures out(p, result, temp) == out(p + |ShowBy(n, corrected)|, result', temp')
    ensures result' + temp' == result + temp + TermToks(n, corrected, p)
    decreases n, 5
  {
    match n
    case Identifier(v) =>
      OutName(s, p, v, result, temp, out);
      result', temp' := result, temp + [Token(L.Identifier, p, v)];
    case Abstraction(x, ann, body) =>
      result', temp' := LexAbs(s, x, ann, body, corrected, p, result, temp, out);
    case Application(l, r) =>
      result', temp' := LexApp(s, l, r, corrected, p, result, temp, out);
  }

  /** The text `λx:` at offset `p` appends the three tokens of an abstraction's head. */
  lemma LexHead(s: string, x: string, p: nat, result: seq<L.TToken>, temp: seq<L.TToken>, out: Outcome)
    requires Respects(s, out)
    requires ValidIdentifier(x) && p + 1 + |x| < |s| && s[p] == 'λ' && At(s, p + 1, x) && s[p + 1 + |x|] == ':'
    requires !L.ExtendsIdentifier(temp)
    ensures out(p, result, temp) == out(p + 2 + |x|, result, temp + AbsHead(x, p))
  {
    OutPunct(s, p, L.Lambda, 'λ', result, temp, out);
    var t1 := temp + [Token(L.Lambda, p, "λ")];
    OutName(s, p + 1, x, result, t1, out);
    var t2 := t1 + [Token(L.Identifier, p + 1, x)];
    OutPunct(s, p + 1 + |x|, L.Colon, ':', result, t2, out);
    assert t2 + [Token(L.Colon, p + 1 + |x|, ":")] == temp + AbsHead(x, p);
  }

  /** The pieces of `λx:T.`: the name, the printed type, and the offset of the dot. */
  lemma AbsFrontLayout(n: Node, p: nat) returns (x: string, ty: string, d: nat)
    requires n.Abstraction?
    ensures x == n.parameter && ty == ShowType(n.annotation) && d == p + 2 + |x| + |ty|
    ensures AbsFrontText(n) == "λ" + x + ":" + ty + "." && |AbsFrontText(n)| == d + 1 - p
    ensures AbsFront(n, p) == AbsHead(x, p) + TypeToks(n.annotation, p + 2 + |x|) + [Token(L.Dot, d, ".")]
  {
    x, ty := n.parameter, ShowType(n.annotation);
    d := p + 2 + |x| + |ty|;
  }

  /** `λx:T.` of an abstraction: the head, the annotation and the dot, all pending. */
  lemma LexAbsHead(s: string, n: Node, p: nat, result: seq<L.TToken>, temp: seq<L.TToken>, out: Outcome)
    returns (r1: seq<L.TToken>, t1: seq<L.TToken>)
    requires Respects(s, out)
    requires n.Abstraction? && ValidIdentifier(n.parameter) && ValidType(n.annotation) && At(s, p, AbsFrontText(n))
    requires !L.ExtendsIdentifier(temp)
    ensures out(p, result, temp) == out(p + |AbsFrontText(n)|, r1, t1)
    ensures r1 + t1 == result + temp + AbsFront(n, p)
    ensures !L.ExtendsIdentifier(t1)
  {
    var x, ty, d := AbsFrontLayout(n, p);
    AbsPieces(s, p, x, ty);
    LexHead(s, x, p, result, temp, out);
    var r, t := LexType(s, n.annotation, p + 2 + |x|, result, temp + AbsHead(x, p), out);
    var dot := Token(L.Dot, d, ".");
    OutPunct(s, d, L.Dot, '.', r, t, out);
    r1, t1 := r, t + [dot];
    JoinOpen(result, temp, AbsHead(x, p), TypeToks(n.annotation, p + 2 + |x|), [dot], r, t);
  }

  /** `λx:T.body`: the head, the annotation, the dot, then the body. */
  lemma {:induction false} LexAbs(s: string, x: string, ann: Type, body: Node, corrected: bool, p: nat,
                                  result: seq<L.TToken>, temp: seq<L.TToken>, out: Outcome)
    returns (result': seq<L.TToken>, temp': seq<L.TToken>)
    requires Respects(s, out)
    requires ValidIdentifier(x) && ValidType(ann) && Readable(body)
    requires At(s, p, ShowBy(Abstraction(x, ann, body), corrected)) && Boundary(s, p + |ShowBy(Abstraction(x, ann, body), corrected)|)
    requires !L.ExtendsIdentifier(temp)
    ensures out(p, result, temp) == out(p + |ShowBy(Abstraction(x, ann, body), corrected)|, result', temp')
    ensures result' + temp' == result + temp + TermToks(Abstraction(x, ann, body), corrected, p)
    decreases Abstraction(x, ann, body), 4
  {
    var front, rest := AbsLayout(Abstraction(x, ann, body), corrected, p);
    result', temp' := LexAbsParts(s, x, ann, body, corrected, front, rest, p, result, temp, out);
  }

  /** The printed head `λx:T.` and body of an abstraction: the text is `front + rest`, and so are its tokens. */
  lemma AbsLayout(n: Node, corrected: bool, p: nat) returns (front: string, rest: string)
    requires n.Abstraction?
    ensures front == AbsFrontText(n) && rest == ShowBy(n.body, corrected)
    ensures ShowBy(n, corrected) == front + rest
    ensures TermToks(n, corrected, p) == AbsFront(n, p) + TermToks(n.body, corrected, p + |front|)
  {
    front, rest := AbsFrontText(n), ShowBy(n.body, corrected);
    AbsShow(n, corrected);
    AbsFrontToks(n, corrected, p, p + |front|);
  }

  /** The text `λx:T.`, then the body. */
  lemma {:induction false} LexAbsParts(s: string, x: string, ann: Type, body: Node, corrected: bool, front: string, rest: string,
                                       p: nat, result: seq<L.TToken>, temp: seq<L.TToken>, out: Outcome)
    returns (result': seq<L.TToken>, temp': seq<L.TToken>)
    requires Respects(s, out)
    requires ValidIdentifier(x) && ValidType(ann) && Readable(body)
    requires front == AbsFrontText(Abstraction(x, ann, body)) && rest == ShowBy(body, corrected)
    requires At(s, p, front + rest) && Boundary(s, p + |front| + |rest|)
    requires !L.ExtendsIdentifier(temp)
    ensures out(p, result, temp) == out(p + |front| + |rest|, result', temp')
    ensures result' + temp' == result + temp + (AbsFront(Abstraction(x, ann, body), p) + TermToks(body, corrected, p + |front|))
    decreases Abstraction(x, ann, body), 3
  {
    AtSplit(s, p, front, rest);
    var r1, t1 := LexAbsHead(s, Abstraction(x, ann, body), p, result, temp, out);
    result', temp' := LexTerm(s, body, corrected, p + |front|, r1, t1, out);
    JoinAfter(result + temp, AbsFront(Abstraction(x, ann, body), p), TermToks(body, corrected, p + |front|), r1 + t1, result' + temp');
  }

  /** An application: the left side bare or in parentheses, a space, the right side bare or in parentheses. */
  lemma {:induction false} LexApp(s: string, l: Node, r: Node, corrected: bool, p: nat, result: seq<L.TToken>, temp: seq<L.TToken>, out: Outcome)
    returns (result': seq<L.TToken>, temp': seq<L.TToken>)
    requires Respects(s, out)
    requires Readable(l) && Readable(r)
    requires At(s, p, ShowBy(Application(l, r), corrected)) && Boundary(s, p + |ShowBy(Application(l, r), corrected)|)
    requires !L.ExtendsIdentifier(temp)
    ensures out(p, result, temp) == out(p + |ShowBy(Application(l, r), corrected)|, result', temp')
    ensures result' + temp' == result + temp + TermToks(Application(l, r), corrected, p)
    decreases Application(l, r), 4
  {
    var bareLeft, bareRight, left, right := AppLayout(Application(l, r), corrected, p);
    result', temp' := LexAppParts(s, l, r, corrected, bareLeft, bareRight, left, right, p, result, temp, out);
  }

  /**
   * The printed sides of an application and how each is wrapped: the text is `left + " " + right`, and its
   * tokens are those of the two sides, the right one from just after the space.
   */
  lemma AppLayout(n: Node, corrected: bool, p: nat) returns (bareLeft: bool, bareRight: bool, left: string, right: string)
    requires n.Application?
    ensures bareLeft == IsSimple(n.left) && bareRight == RightBare(n, corrected)
    ensures left == Wrapped(ShowBy(n.left, corrected), bareLeft) && right == Wrapped(ShowBy(n.right, corrected), bareRight)
    ensures ShowBy(n, corrected) == left + " " + right
    ensures TermToks(n, corrected, p) == WrapTermToks(n.left, corrected, bareLeft, p) + WrapTermToks(n.right, corrected, bareRight, p + |left| + 1)
  {
    bareLeft, bareRight := IsSimple(n.left), RightBare(n, corrected);
    left, right := Wrapped(ShowBy(n.left, corrected), bareLeft), Wrapped(ShowBy(n.right, corrected), bareRight);
    ShowApplication(n, corrected);
    AppToks(n, corrected, p);
  }

  /** The two sides of an application, each bare or in parentheses, with one space between. */
  lemma {:induction false} LexAppParts(s: string, l: Node, r: Node, corrected: bool, bareLeft: bool, bareRight: bool,
                                       left: string, right: string, p: nat, result: seq<L.TToken>, temp: seq<L.TToken>, out: Outcome)
    returns (result': seq<L.TToken>, temp': seq<L.TToken>)
    requires Respects(s, out)
    requires Readable(l) && Readable(r)
    requires left == Wrapped(ShowBy(l, corrected), bareLeft) && right == Wrapped(ShowBy(r, corrected), bareRight)
    requires At(s, p, left + " " + right) && Boundary(s, p + |left| + 1 + |right|)
    requires !L.ExtendsIdentifier(temp)
    ensures out(p, result, temp) == out(p + |left| + 1 + |right|, result', temp')
    ensures result' + temp' == result + temp + (WrapTermToks(l, corrected, bareLeft, p) + WrapTermToks(r, corrected, bareRight, p + |left| + 1))
    decreases Application(l, r), 3
  {
    TermShowStart(r, corrected);
    WrappedStart(ShowBy(r, corrected), bareRight);
    var flushed := LexAppHead(s, l, r, corrected, bareLeft, left, right, p, result, temp, out);
    result', temp' := LexTermWrapped(s, r, corrected, bareRight, p + |left| + 1, flushed, [], out);
    Join2(result + temp, WrapTermToks(l, corrected, bareLeft, p), WrapTermToks(r, corrected, bareRight, p + |left| + 1), flushed, result' + temp');
  }

  /** The left side of an application and the space after it: the space flushes everything read so far. */
  lemma {:induction false} LexAppHead(s: string, l: Node, r: Node, corrected: bool, bareLeft: bool, left: string, right: string,
                                      p: nat, result: seq<L.TToken>, temp: seq<L.TToken>, out: Outcome)
    returns (flushed: seq<L.TToken>)
    requires Respects(s, out)
    requires Readable(l) && left == Wrapped(ShowBy(l, corrected), bareLeft)
    requires |right| > 0 && !IsSpace(right[0]) && At(s, p, left + " " + right)
    requires !L.ExtendsIdentifier(temp)
    ensures out(p, result, temp) == out(p + |left| + 1, flushed, [])
    ensures flushed == result + temp + WrapTermToks(l, corrected, bareLeft, p)
    ensures At(s, p + |left| + 1, right)
    decreases Application(l, r), 2
  {
    AppPieces(s, p, left, right);
    assert s[p + |left| + 1] == right[0];
    var r1, t1 := LexTermWrapped(s, l, corrected, bareLeft, p, result, temp, out);
    OutSpace(s, p + |left|, r1, t1, out);
    flushed := r1 + t1;
  }

  lemma {:induction false} LexTermParen(s: string, n: Node, corrected: bool, p: nat, result: seq<L.TToken>, temp: seq<L.TToken>, out: Outcome)
    returns (result': seq<L.TToken>, temp': seq<L.TToken>)
    requires Respects(s, out)
    requires Readable(n) && At(s, p, "(" + ShowBy(n, corrected) + ")")
    ensures out(p, result, temp) == out(p + |ShowBy(n, corrected)| + 2, result', temp')
    ensures result' + temp' == result + temp + WrapTermToks(n, corrected, false, p)
    decreases n, 6
  {
    ParenPieces(s, p, ShowBy(n, corrected));
    var q := p + 1 + |ShowBy(n, corrected)|;
    var open, close := Token(L.LeftPren, p, "("), Token(L.RightPren, q, ")");
    OutPunct(s, p, L.LeftPren, '(', result, temp, out);
    var r1, t1 := LexTerm(s, n, corrected, p + 1, result, temp + [open], out);
    OutPunct(s, q, L.RightPren, ')', r1, t1, out);
    result', temp' := r1, t1 + [close];
    JoinOpen(result, temp, [open], TermToks(n, corrected, p + 1), [close], r1, t1);
  }

  lemma {:induction false} LexTermWrapped(s: string, n: Node, corrected: bool, bare: bool, p: nat, result: seq<L.TToken>, temp: seq<L.TToken>, out: Outcome)
    returns (result': seq<L.TToken>, temp': seq<L.TToken>)
    requires Respects(s, out)
    requires Readable(n) && At(s, p, Wrapped(ShowBy(n, corrected), bare)) && Boundary(s, p + |Wrapped(ShowBy(n, corrected), bare)|)
    requires !L.ExtendsIdentifier(temp)
    ensures out(p, result, temp) == out(p + |Wrapped(ShowBy(n, corrected), bare)|, result', temp')
    ensures result' + temp' == result + temp + WrapTermToks(n, corrected, bare, p)
    decreases n, 7
  {
    if bare {
      result', temp' := LexTerm(s, n, corrected, p, result, temp, out);
    } else {
      result', temp' := LexTermParen(s, n, corrected, p, result, temp, out);
    }
  }

  /** The printed form of a readable term tokenizes without error, to exactly `TermToks(n, corrected, 0)`. */
  lemma TokenizeShowBy(n: Node, corrected: bool)
    requires Readable(n)
    ensures L.TokenizeSpec(ShowBy(n, corrected)) == Ok(TermToks(n, corrected, 0))
  {
    var s := ShowBy(n, corrected);
    assert At(s, 0, s);
    var out: Outcome := (p: nat, r: seq<L.TToken>, tmp: seq<L.TToken>) =>
      if p <= |s| then TokenizeFrom(s, L.Rules, p, r, tmp) else Ok([]);
    forall p: nat, r: seq<L.TToken>, tmp: seq<L.TToken> | p < |s| && StepAt(s, L.Rules, p, r, tmp).Advance?
      ensures out(p, r, tmp) == out(StepAt(s, L.Rules, p, r, tmp).next, StepAt(s, L.Rules, p, r, tmp).result, StepAt(s, L.Rules, p, r, tmp).temp)
    {
      Advances(s, L.Rules, p, r, tmp, StepAt(s, L.Rules, p, r, tmp));
    }
    var none: seq<L.TToken> := [];
    var r, tmp := LexTerm(s, n, corrected, 0, none, none, out);
    assert r + tmp == TermToks(n, corrected, 0);
  }
}
