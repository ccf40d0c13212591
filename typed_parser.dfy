/**
 * The recursive-descent parser of the simply typed λ-calculus (src/typed.ts:199-297):
 *
 *   term ::= λ ID : type . term | app          app ::= atom atom*        atom ::= ( term ) | ID
 *   type ::= atom_type -> type | atom_type     atom_type ::= ( type ) | [ type , type ] | TYPE
 *
 * Arrows associate to the right, applications to the left. Unlike the untyped parser it keeps no binder
 * stack: identifiers are read as they are written.
 *
 * The functions `ParseType`, `ParseAtomType`, `ParseTerm`, `ParseApplication`, `AppLoop` and `ParseAtom` say, for
 * a cursor position, what the methods `ReadType`, `ReadAtomType`, `ReadTerm`, `ReadApplication` (with its loop)
 * and `ReadAtom` return and where they leave the cursor.
 */
module TypedParser {
  import opened Wrappers
  import opened Tokenizer
  import opened ParserBase
  import L = TypedLexer
  import opened TypedSyntax

  /** A successful parse: the value read and the cursor after it. */
  datatype Parsed<T> = Parsed(value: T, next: nat)

  /** `type()`: an atomic type, then, after `->`, the output type read by the same rule. */
  function ParseType(toks: seq<L.TToken>, i: nat): (r: Result<Parsed<Type>, ParseError>)
    requires i <= |toks|
    ensures r.Ok? ==> i < r.value.next <= |toks|
    decreases |toks| - i, 1
  {
    var input :- ParseAtomType(toks, i);
    if NextIsAt(toks, input.next, L.Arrow) then
      var output :- ParseType(toks, input.next + 1);
      Ok(Parsed(ArrowType(input.value, output.value), output.next))
    else Ok(input)
  }

  /** `atomType()`. */
  function ParseAtomType(toks: seq<L.TToken>, i: nat): (r: Result<Parsed<Type>, ParseError>)
    requires i <= |toks|
    ensures r.Ok? ==> i < r.value.next <= |toks|
    decreases |toks| - i, 0
  {
    if NextIsAt(toks, i, L.LeftPren) then
      var inner :- ParseType(toks, i + 1);
      if NextIsAt(toks, inner.next, L.RightPren) then Ok(Parsed(inner.value, inner.next + 1))
      else Err(ErrorAt(toks, inner.next, "')' expected"))
    else if NextIsAt(toks, i, L.LeftSqrBr) then
      var first :- ParseType(toks, i + 1);
      if !NextIsAt(toks, first.next, L.Comma) then Err(ErrorAt(toks, first.next, "',' expected"))
      else
        var second :- ParseType(toks, first.next + 1);
        if !NextIsAt(toks, second.next, L.RightSqrBr) then Err(ErrorAt(toks, second.next, "']' expected"))
        else Ok(Parsed(PairType(first.value, second.value), second.next + 1))
    else if NextIsAt(toks, i, L.Type) then
      if IsValidTypeName(toks[i].value) then Ok(Parsed(SimpleType(toks[i].value), i + 1))
      else Err(ParseError(toks[i].start, "type must be Bool or Nat"))
    else if NextIsAt(toks, i, L.Identifier) then Err(ErrorAt(toks, i, "type name must begin with uppercase letter"))
    else Err(ErrorAt(toks, i, "type expected"))
  }

  /** `term()`: an abstraction `λ x : T . body`, or an application. */
  function ParseTerm(toks: seq<L.TToken>, i: nat): (r: Result<Parsed<Node>, ParseError>)
    requires i <= |toks|
    ensures r.Ok? ==> i < r.value.next <= |toks| || (r.value.next == i && r.value.value.Undefined?)
    decreases |toks| - i, 3
  {
    if i >= |toks| then Err(ErrorAt(toks, i, "λ-term expected"))
    else if NextIsAt(toks, i, L.Lambda) then
      if !NextIsAt(toks, i + 1, L.Identifier) then Err(ErrorAt(toks, i + 1, "λ-abstraction binding expected"))
      else if !NextIsAt(toks, i + 2, L.Colon) then Err(ErrorAt(toks, i + 2, "':' expected"))
      else
        var annotation :- ParseType(toks, i + 3);
        if !NextIsAt(toks, annotation.next, L.Dot) then Err(ErrorAt(toks, annotation.next, "'.' expected"))
        else
          var body :- ParseTerm(toks, annotation.next + 1);
          Ok(Parsed(Abstraction(toks[i + 1].value, annotation.value, body.value), body.next))
    else ParseApplication(toks, i)
  }

  /** `application()`: an atom, then the loop; with no atom at all the result is `undefined`. */
  function ParseApplication(toks: seq<L.TToken>, i: nat): (r: Result<Parsed<Node>, ParseError>)
    requires i <= |toks|
    ensures r.Ok? ==> i < r.value.next <= |toks| || (r.value.next == i && r.value.value.Undefined?)
    decreases |toks| - i, 2
  {
    var first :- ParseAtom(toks, i);
    AppLoop(toks, first.next, first.value)
  }

  /**
   * The `while (true)` loop of `application` once `lhs` has been read: atoms are applied left to right. An
   * atom after an `undefined` left side (the `()` of `() x`) makes the `Application` constructor throw.
   */
  function AppLoop(toks: seq<L.TToken>, i: nat, lhs: Node): (r: Result<Parsed<Node>, ParseError>)
    requires i <= |toks|
    ensures r.Ok? ==> i <= r.value.next <= |toks|
    ensures r.Ok? && r.value.next == i ==> r.value.value == lhs
    ensures r.Ok? && lhs.Undefined? ==> r.value.value.Undefined?
    decreases |toks| - i, 1
  {
    var rhs :- ParseAtom(toks, i);
    if rhs.value.Undefined? then Ok(Parsed(lhs, rhs.next))
    else if lhs.Undefined? then Err(UndefinedOperand)
    else AppLoop(toks, rhs.next, Application(lhs, rhs.value))
  }

  /**
   * `atom()`: a parenthesised term or an identifier, or `Undefined` without moving. A `.` here is reported at
   * the token before it; before the first token there is none, and the source's read of `.start` fails.
   */
  function ParseAtom(toks: seq<L.TToken>, i: nat): (r: Result<Parsed<Node>, ParseError>)
    requires i <= |toks|
    ensures r.Ok? ==> i <= r.value.next <= |toks|
    ensures r.Ok? && !r.value.value.Undefined? ==> i < r.value.next
    ensures r.Ok? && r.value.next == i ==> r.value.value.Undefined?
    decreases |toks| - i, 0
  {
    if NextIsAt(toks, i, L.Dot) then
      if i == 0 then Err(MissingToken) else Err(ParseError(toks[i - 1].start, "'λ' expected"))
    else if NextIsAt(toks, i, L.LeftPren) then
      var inner :- ParseTerm(toks, i + 1);
      if NextIsAt(toks, inner.next, L.RightPren) then Ok(Parsed(inner.value, inner.next + 1))
      else Err(ErrorAt(toks, inner.next, "')' expected"))
    else if NextIsAt(toks, i, L.Identifier) then Ok(Parsed(Identifier(toks[i].value), i + 1))
    else Ok(Parsed(Undefined, i))
  }

  /** What `parse(tokens)` returns or throws. Tokens after the first complete term are not looked at. */
  function ParseSpec(tokens: seq<L.TToken>): Result<Node, ParseError> {
    var p :- ParseTerm(tokens, 0);
    Ok(p.value)
  }

  /** The method's outcome `r` and cursor are those the specification function gives. */
  ghost predicate Follows<T>(r: Result<T, ParseError>, spec: Result<Parsed<T>, ParseError>, index: nat) {
    match spec
    case Ok(p) => r == Ok(p.value) && index == p.next
    case Err(e) => r == Err(e)
  }

  /** `Parser.type()`. */
  method ReadType(p: Parser<L.Id>) returns (r: Result<Type, ParseError>)
    requires p.Valid()
    modifies p
    ensures p.Valid()
    ensures Follows(r, ParseType(p.tokens, old(p.index)), p.index)
    decreases |p.tokens| - p.index, 1
  {
    var inputType :- ReadAtomType(p);
    var isArrow := p.SkipIs(L.Arrow);
    if isArrow {
      var outputType :- ReadType(p);
      return Ok(ArrowType(inputType, outputType));
    }
    return Ok(inputType);
  }

  /** `Parser.atomType()`. */
  method ReadAtomType(p: Parser<L.Id>) returns (r: Result<Type, ParseError>)
    requires p.Valid()
    modifies p
    ensures p.Valid()
    ensures Follows(r, ParseAtomType(p.tokens, old(p.index)), p.index)
    decreases |p.tokens| - p.index, 0
  {
    var isOpen := p.SkipIs(L.LeftPren);
    if isOpen {
      var inner :- ReadType(p);
      var _ :- p.Match(L.RightPren, "')' expected");
      return Ok(inner);
    }
    var isPair := p.SkipIs(L.LeftSqrBr);
    if isPair {
      var firstType :- ReadType(p);
      var _ :- p.Match(L.Comma, "',' expected");
      var secondType :- ReadType(p);
      var _ :- p.Match(L.RightSqrBr, "']' expected");
      return Ok(PairType(firstType, secondType));
    }
    if p.NextIs(L.Type) {
      var typeName := p.Match(L.Type, "NOT POSSIBLE");
      if !IsValidTypeName(typeName.value) {
        return Err(ParseError(p.tokens[p.CurrentTokenIndex() - 1].start, "type must be Bool or Nat"));
      }
      return Ok(SimpleType(typeName.value));
    } else if p.NextIs(L.Identifier) {
      return Err(ParseError(p.CurrentPosition(), "type name must begin with uppercase letter"));
    } else {
      if |p.tokens| == 0 {
        return Err(MissingToken);
      }
      return Err(ParseError(p.CurrentPosition(), "type expected"));
    }
  }

  /** `Parser.term()`. */
  method ReadTerm(p: Parser<L.Id>) returns (r: Result<Node, ParseError>)
    requires p.Valid()
    modifies p
    ensures p.Valid()
    ensures Follows(r, ParseTerm(p.tokens, old(p.index)), p.index)
    decreases |p.tokens| - p.index, 3
  {
    if p.Done() {
      if |p.tokens| == 0 {
        return Err(MissingToken);
      }
      return Err(ParseError(p.CurrentPosition(), "λ-term expected"));
    }
    var isLambda := p.SkipIs(L.Lambda);
    if isLambda {
      var id :- p.Match(L.Identifier, "λ-abstraction binding expected");
      var _ :- p.Match(L.Colon, "':' expected");
      var annotation :- ReadType(p);
      var _ :- p.Match(L.Dot, "'.' expected");
      var body :- ReadTerm(p);
      return Ok(Abstraction(id, annotation, body));
    } else {
      r := ReadApplication(p);
    }
  }

  /** `Parser.application()`. */
  method ReadApplication(p: Parser<L.Id>) returns (r: Result<Node, ParseError>)
    requires p.Valid()
    modifies p
    ensures p.Valid()
    ensures Follows(r, ParseApplication(p.tokens, old(p.index)), p.index)
    decreases |p.tokens| - p.index, 2
  {
    ghost var spec := ParseApplication(p.tokens, p.index);
    var lhs :- ReadAtom(p);
    while true
      invariant p.Valid()
      invariant spec == AppLoop(p.tokens, p.index, lhs)
      decreases |p.tokens| - p.index
    {
      var rhs :- ReadAtom(p);
      if rhs.Undefined? {
        return Ok(lhs);
      }
      if lhs.Undefined? {
        return Err(UndefinedOperand);
      }
      lhs := Application(lhs, rhs);
    }
  }

  /** `Parser.atom()`; `Ok(Undefined)` is its `undefined`. */
  method ReadAtom(p: Parser<L.Id>) returns (r: Result<Node, ParseError>)
    requires p.Valid()
    modifies p
    ensures p.Valid()
    ensures Follows(r, ParseAtom(p.tokens, old(p.index)), p.index)
    decreases |p.tokens| - p.index, 0
  {
    if p.NextIs(L.Dot) {
      if p.CurrentTokenIndex() == 0 {
        return Err(MissingToken);
      }
      return Err(ParseError(p.tokens[p.CurrentTokenIndex() - 1].start, "'λ' expected"));
    }
    var isOpen := p.SkipIs(L.LeftPren);
    if isOpen {
      var term :- ReadTerm(p);
      var _ :- p.Match(L.RightPren, "')' expected");
      return Ok(term);
    } else if p.NextIs(L.Identifier) {
      var id := p.Match(L.Identifier, "NOT POSSIBLE");
      return Ok(Identifier(id.value));
    } else {
      return Ok(Undefined);
    }
  }

  /** `parse(tokens)`. */
  method Parse(tokens: seq<L.TToken>) returns (r: Result<Node, ParseError>)
    ensures r == ParseSpec(tokens)
  {
    var p := new Parser(tokens);
    r := ReadTerm(p);
  }

  /** A type token other than `Bool` or `Nat` is refused at its own start; a lowercase name is refused as a type. */
  lemma AtomTypeNameErrors(toks: seq<L.TToken>, i: nat)
    requires i < |toks|
    ensures toks[i].id == L.Type && !IsValidTypeName(toks[i].value) ==>
      ParseAtomType(toks, i) == Err(ParseError(toks[i].start, "type must be Bool or Nat"))
    ensures toks[i].id == L.Identifier ==>
      ParseAtomType(toks, i) == Err(ParseError(toks[i].start, "type name must begin with uppercase letter"))
    ensures toks[i].id !in {L.LeftPren, L.LeftSqrBr, L.Type, L.Identifier} ==>
      ParseAtomType(toks, i) == Err(ParseError(toks[i].start, "type expected"))
  {
  }

  /** A pair type needs `,` after its first type and `]` after its second, and is reported where either is missing. */
  lemma PairTypeErrors(toks: seq<L.TToken>, i: nat, first: Parsed<Type>)
    requires i < |toks| && toks[i].id == L.LeftSqrBr && ParseType(toks, i + 1) == Ok(first)
    ensures !NextIsAt(toks, first.next, L.Comma) ==> ParseAtomType(toks, i) == Err(ErrorAt(toks, first.next, "',' expected"))
    ensures (NextIsAt(toks, first.next, L.Comma) && ParseType(toks, first.next + 1).Ok?
             && !NextIsAt(toks, ParseType(toks, first.next + 1).value.next, L.RightSqrBr)) ==>
      ParseAtomType(toks, i) == Err(ErrorAt(toks, ParseType(toks, first.next + 1).value.next, "']' expected"))
  {
  }

  /** After `λ` an abstraction needs a binding name, then `:`, a type and `.`; each missing part has its message. */
  lemma AbstractionErrors(toks: seq<L.TToken>, i: nat)
    requires i < |toks| && toks[i].id == L.Lambda
    ensures !NextIsAt(toks, i + 1, L.Identifier) ==>
      ParseTerm(toks, i) == Err(ErrorAt(toks, i + 1, "λ-abstraction binding expected"))
    ensures NextIsAt(toks, i + 1, L.Identifier) && !NextIsAt(toks, i + 2, L.Colon) ==>
      ParseTerm(toks, i) == Err(ErrorAt(toks, i + 2, "':' expected"))
    ensures (NextIsAt(toks, i + 1, L.Identifier) && NextIsAt(toks, i + 2, L.Colon) && ParseType(toks, i + 3).Ok?
             && !NextIsAt(toks, ParseType(toks, i + 3).value.next, L.Dot)) ==>
      ParseTerm(toks, i) == Err(ErrorAt(toks, ParseType(toks, i + 3).value.next, "'.' expected"))
  {
  }

  /** An empty token list, or a cursor past its end, is refused with "λ-term expected". */
  lemma TermExpected(toks: seq<L.TToken>)
    ensures |toks| == 0 ==> ParseSpec(toks) == Err(MissingToken)
    ensures |toks| > 0 ==> ParseTerm(toks, |toks|) == Err(ParseError(toks[|toks| - 1].start + 1, "λ-term expected"))
  {
  }

  /**
   * The tokens of `() x`: `atom()` reads `()` as `undefined`, and applying it to `x` throws in the
   * `Application` constructor; `()` alone is `undefined`.
   */
  lemma UndefinedApplied(toks: seq<L.TToken>)
    requires toks == [Token(L.LeftPren, 0, "("), Token(L.RightPren, 1, ")"), Token(L.Identifier, 3, "x")]
    ensures ParseSpec(toks) == Err(UndefinedOperand)
    ensures ParseSpec(toks[..2]) == Ok(Undefined)
  {
    var two := toks[..2];
    assert ParseAtom(toks, 1) == Ok(Parsed(Undefined, 1));
    assert AppLoop(toks, 1, Undefined) == Ok(Parsed(Undefined, 1));
    assert ParseApplication(toks, 1) == Ok(Parsed(Undefined, 1));
    assert ParseTerm(toks, 1) == Ok(Parsed(Undefined, 1));
    assert ParseAtom(toks, 0) == Ok(Parsed(Undefined, 2));
    assert ParseAtom(toks, 2) == Ok(Parsed(Identifier("x"), 3));
    assert AppLoop(toks, 2, Undefined) == Err(UndefinedOperand);
    assert ParseApplication(toks, 0) == Err(UndefinedOperand);
    assert ParseTerm(toks, 0) == Err(UndefinedOperand);
    assert ParseAtom(two, 1) == Ok(Parsed(Undefined, 1));
    assert AppLoop(two, 1, Undefined) == Ok(Parsed(Undefined, 1));
    assert ParseApplication(two, 1) == Ok(Parsed(Undefined, 1));
    assert ParseTerm(two, 1) == Ok(Parsed(Undefined, 1));
    assert ParseAtom(two, 0) == Ok(Parsed(Undefined, 2));
    assert ParseAtom(two, 2) == Ok(Parsed(Undefined, 2));
    assert AppLoop(two, 2, Undefined) == Ok(Parsed(Undefined, 2));
    assert ParseApplication(two, 0) == Ok(Parsed(Undefined, 2));
    assert ParseTerm(two, 0) == Ok(Parsed(Undefined, 2));
  }
}
