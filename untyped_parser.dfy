/**
 * The recursive-descent parser of the untyped λ-calculus (src/untyped.ts:150-222):
 *
 *   term ::= λ ID . term | app        app ::= atom atom*        atom ::= ( term ) | ID
 *
 * Identifiers get their de Bruijn index from the binder stack. A binder whose name is already bound is
 * renamed to a fresh `fN`, and the swap table redirects the variables of its body to the new name.
 *
 * The functions `ParseTerm`, `ParseApplication`, `AppLoop` and `ParseAtom` say, for a cursor position, a binder
 * stack and a swap table, what the methods `Term`, `Application` and `Atom` return, where they leave the cursor
 * and which swap table they leave behind. The methods drive a `ParserBase.Parser` object as the source does.
 */
module UntypedParser {
  import opened Wrappers
  import opened Tokenizer
  import opened ParserBase
  import opened UntypedLexer
  import opened UntypedTerm
  import opened FreshNames

  /** A successful parse: the term, the cursor after it, and the swap table left behind. */
  datatype Parsed = Parsed(term: Term, next: nat, swaps: map<string, string>)

  function ParseTerm(toks: seq<UToken>, i: nat, ids: seq<string>, swaps: map<string, string>)
    : (r: Result<Parsed, ParseError>)
    requires i <= |toks|
    ensures r.Ok? ==> i < r.value.next <= |toks| || (r.value.next == i && r.value.term.Missing?)
    decreases |toks| - i, 3
  {
    if i >= |toks| then Err(ErrorAt(toks, i, "λ-term expected"))
    else if NextIsAt(toks, i, Lambda) then
      if !NextIsAt(toks, i + 1, Identifier) then Err(ErrorAt(toks, i + 1, "λ-abstraction binding expected"))
      else if !NextIsAt(toks, i + 2, Dot) then Err(ErrorAt(toks, i + 2, "'.' expected"))
      else ParseAbstraction(toks, i + 3, toks[i + 1].value, ids, swaps)
    else ParseApplication(toks, i, ids, swaps)
  }

  /**
   * The rest of an abstraction once `λ id .` has been read: `id` is pushed as it is, or, when it is already
   * bound, a fresh name is pushed instead and the swap table sends `id` to it while the body is read.
   */
  function ParseAbstraction(toks: seq<UToken>, i: nat, id: string, ids: seq<string>, swaps: map<string, string>)
    : (r: Result<Parsed, ParseError>)
    requires i <= |toks|
    ensures r.Ok? ==> i <= r.value.next <= |toks| && r.value.term.Abs?
    decreases |toks| - i, 4
  {
    if IndexIn(ids, id) == 0 then
      var body :- ParseTerm(toks, i, ids + [id], swaps);
      Ok(Parsed(Abs(id, body.term), body.next, body.swaps))
    else
      var newId := FreshName(ids);
      var body :- ParseTerm(toks, i, ids + [newId], swaps[id := newId]);
      Ok(Parsed(Abs(newId, body.term), body.next, body.swaps - {id}))
  }

  function ParseApplication(toks: seq<UToken>, i: nat, ids: seq<string>, swaps: map<string, string>)
    : (r: Result<Parsed, ParseError>)
    requires i <= |toks|
    ensures r.Ok? ==> i < r.value.next <= |toks| || (r.value.next == i && r.value.term.Missing?)
    decreases |toks| - i, 2
  {
    var first :- ParseAtom(toks, i, ids, swaps);
    AppLoop(toks, first.next, ids, first.swaps, first.term)
  }

  /** The `while (true)` loop of `application` once `lhs` has been read: atoms are applied left to right. */
  function AppLoop(toks: seq<UToken>, i: nat, ids: seq<string>, swaps: map<string, string>, lhs: Term)
    : (r: Result<Parsed, ParseError>)
    requires i <= |toks|
    ensures r.Ok? ==> i <= r.value.next <= |toks|
    ensures r.Ok? && r.value.next == i ==> r.value.term == lhs
    decreases |toks| - i, 1
  {
    var rhs :- ParseAtom(toks, i, ids, swaps);
    if rhs.term.Missing? then Ok(Parsed(lhs, rhs.next, rhs.swaps))
    else AppLoop(toks, rhs.next, ids, rhs.swaps, App(lhs, rhs.term))
  }

  /** An atom, or `Missing` (the source's `undefined`) without moving when the next token starts none. */
  function ParseAtom(toks: seq<UToken>, i: nat, ids: seq<string>, swaps: map<string, string>)
    : (r: Result<Parsed, ParseError>)
    requires i <= |toks|
    ensures r.Ok? ==> i <= r.value.next <= |toks|
    ensures r.Ok? && !r.value.term.Missing? ==> i < r.value.next
    ensures r.Ok? && r.value.next == i ==> r.value.term.Missing? && r.value.swaps == swaps
    decreases |toks| - i, 0
  {
    if NextIsAt(toks, i, Dot) then Err(ParseError(toks[if i == 0 then 0 else i - 1].start, "'λ' expected"))
    else if NextIsAt(toks, i, LeftPren) then
      var inner :- ParseTerm(toks, i + 1, ids, swaps);
      if NextIsAt(toks, inner.next, RightPren) then Ok(Parsed(inner.term, inner.next + 1, inner.swaps))
      else Err(ErrorAt(toks, inner.next, "')' expected"))
    else if NextIsAt(toks, i, Identifier) then
      var name := SwapIn(swaps, toks[i].value);
      Ok(Parsed(Var(name, IndexIn(ids, name)), i + 1, swaps))
    else Ok(Parsed(Missing, i, swaps))
  }

  /** What `parse(tokens)` returns or throws. Tokens after the first complete term are not looked at. */
  function ParseSpec(tokens: seq<UToken>): Result<Term, ParseError> {
    var p :- ParseTerm(tokens, 0, [], map[]);
    Ok(p.term)
  }

  /** The method's outcome `r`, cursor and swap table are those the specification function gives. */
  ghost predicate Follows(r: Result<Term, ParseError>, spec: Result<Parsed, ParseError>, index: nat, swaps: map<string, string>) {
    match spec
    case Ok(p) => r == Ok(p.term) && index == p.next && swaps == p.swaps
    case Err(e) => r == Err(e)
  }

  /** `Parser.term()`. */
  method Term(p: Parser<Id>) returns (r: Result<Term, ParseError>)
    requires p.Valid()
    modifies p, p.context
    ensures p.Valid()
    ensures Follows(r, ParseTerm(p.tokens, old(p.index), old(p.context.data), old(p.context.toSwap)), p.index, p.context.toSwap)
    ensures r.Ok? ==> p.context.data == old(p.context.data)
    decreases |p.tokens| - p.index, 3
  {
    if p.Done() {
      if |p.tokens| == 0 {
        return Err(MissingToken);
      }
      return Err(ParseError(p.CurrentPosition(), "λ-term expected"));
    }
    ghost var i, ids, swaps := p.index, p.context.data, p.context.toSwap;
    var isLambda := p.SkipIs(Lambda);
    if isLambda {
      var id :- p.Match(Identifier, "λ-abstraction binding expected");
      var _ :- p.Match(Dot, "'.' expected");
      assert ParseTerm(p.tokens, i, ids, swaps) == ParseAbstraction(p.tokens, i + 3, id, ids, swaps);
      if p.context.IndexOf(id) == 0 {
        p.context.Push(id);
        var body :- Term(p);
        p.context.Pop();
        return Ok(Abs(id, body));
      } else {
        var newId := Fresh(p.context.Ids());
        p.context.Push(newId);
        p.context.AddSwap(id, newId);
        var body :- Term(p);
        p.context.Pop();
        p.context.RemoveSwap(id);
        return Ok(Abs(newId, body));
      }
    } else {
      r := Application(p);
    }
  }

  /** `Parser.application()`. */
  method Application(p: Parser<Id>) returns (r: Result<Term, ParseError>)
    requires p.Valid()
    modifies p, p.context
    ensures p.Valid()
    ensures Follows(r, ParseApplication(p.tokens, old(p.index), old(p.context.data), old(p.context.toSwap)), p.index, p.context.toSwap)
    ensures r.Ok? ==> p.context.data == old(p.context.data)
    decreases |p.tokens| - p.index, 2
  {
    ghost var spec := ParseApplication(p.tokens, p.index, p.context.data, p.context.toSwap);
    ghost var ids := p.context.data;
    var lhs :- Atom(p);
    while true
      invariant p.Valid() && p.context.data == ids
      invariant spec == AppLoop(p.tokens, p.index, ids, p.context.toSwap, lhs)
      decreases |p.tokens| - p.index
    {
      var rhs :- Atom(p);
      if rhs.Missing? {
        return Ok(lhs);
      }
      lhs := App(lhs, rhs);
    }
  }

  /** `Parser.atom()`; `Ok(Missing)` is its `undefined`. */
  method Atom(p: Parser<Id>) returns (r: Result<Term, ParseError>)
    requires p.Valid()
    modifies p, p.context
    ensures p.Valid()
    ensures Follows(r, ParseAtom(p.tokens, old(p.index), old(p.context.data), old(p.context.toSwap)), p.index, p.context.toSwap)
    ensures r.Ok? ==> p.context.data == old(p.context.data)
    decreases |p.tokens| - p.index, 0
  {
    if p.NextIs(Dot) {
      var i := p.CurrentTokenIndex() - 1;
      return Err(ParseError(p.tokens[if i < 0 then 0 else i].start, "'λ' expected"));
    }
    var isOpen := p.SkipIs(LeftPren);
    if isOpen {
      var term :- Term(p);
      var _ :- p.Match(RightPren, "')' expected");
      return Ok(term);
    } else if p.NextIs(Identifier) {
      var matched := p.Match(Identifier, "NOT POSSIBLE");
      var id := p.context.GetSwap(matched.value);
      return Ok(Var(id, p.context.IndexOf(id)));
    } else {
      return Ok(Missing);
    }
  }

  /** `parse(tokens)`. */
  method Parse(tokens: seq<UToken>) returns (r: Result<Term, ParseError>)
    ensures r == ParseSpec(tokens)
  {
    var p := new Parser(tokens);
    r := Term(p);
  }
}
