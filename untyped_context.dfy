/**
 * `ExecutionContext` of src/untyped.ts:329-426: named aliases for terms. `addAlias` stores the evaluated form
 * of a definition (after expanding the aliases already there); `evaluate` expands the aliases in an expression,
 * evaluates it, and folds alias values back into their names. The source's unbounded loops take a fuel bound,
 * and running out of it is reported as `Diverges`.
 */
module Context {
  import opened Wrappers
  import opened Tokenizer
  import opened ParserBase
  import UntypedLexer
  import UntypedParser
  import opened UntypedTerm
  import opened TermNames
  import opened Rebuilding
  import opened Reparsing
  import opened ShowLexing
  import opened ShowParsing
  import opened Substitution
  import opened Aliasing
  import opened Evaluation

  /** What the context's operations throw, and the outcomes the model adds. */
  datatype ContextError =
    | Lexing(lexError: TokenizeError)
    | Parsing(parseError: ParseError)
      /** A string thrown by `addAlias`: "DUPLICATE!" or "IDENTIFIER!". */
    | Thrown(message: string)
      /** A fixpoint loop still running after the fuel: the source would not return. */
    | Diverges
      /** The parsed expression is incomplete (the source goes on with `undefined` parts). */
    | Incomplete

  /** `parse(tokenize(text))`: the term, or the error thrown. */
  function Read(text: string): (r: Result<Term, ContextError>)
  {
    match UntypedLexer.TokenizeSpec(text)
    case Err(e) => Err(Lexing(e))
    case Ok(tokens) =>
      match UntypedParser.ParseSpec(tokens)
      case Err(e) => Err(Parsing(e))
      case Ok(t) => Ok(t)
  }

  /** Reading back the printed text of a well-formed term never fails and gives `Reparse(t)`. */
  lemma ReadShown(t: Term)
    requires WF(t)
    ensures Read(Show(t)) == Ok(Reparse(t))
  {
    TokenizeShow(t);
    ParseToks(t);
  }

  /**
   * The part `addAlias` and `evaluate` share: the text read, its aliases expanded and the result evaluated,
   * with a round trip through the printer after each stage; `corrected` picks the substitution of both loops.
   */
  function Prepared(als: seq<(string, Term)>, text: string, fuel: nat, corrected: bool): (r: Result<Term, ContextError>)
    requires ValuesWF(als)
    ensures r.Ok? ==> WF(r.value)
  {
    var ast :- Read(text);
    if !WF(ast) then Err(Incomplete)
    else
      var forward := Fixpoint(Forward(als, corrected), ast, fuel);
      if forward.None? then Err(Diverges)
      else
        var evaluated := Fixpoint(Reduce(corrected), Reparse(forward.value), fuel);
        if evaluated.None? then Err(Diverges)
        else Ok(Reparse(evaluated.value))
  }

  /**
   * The term `addAlias(alias, expr)` stores, or what it throws: the prepared term, refused when it `equals`
   * a stored value (checked first) or when it is a single identifier.
   */
  function AliasValue(als: seq<(string, Term)>, expr: string, fuel: nat, corrected: bool): (r: Result<Term, ContextError>)
    requires ValuesWF(als)
    ensures r.Ok? ==> WF(r.value) && !r.value.Var? && FirstEqual(als, r.value).None?
  {
    var value :- Prepared(als, expr, fuel, corrected);
    if FirstEqual(als, value).Some? then Err(Thrown("DUPLICATE!"))
    else if value.Var? then Err(Thrown("IDENTIFIER!"))
    else Ok(value)
  }

  /**
   * What `evaluate(expression)` returns or throws: the prepared term with alias values folded back into their
   * names, and read back from its printed text. The last round trip can fail, since an alias name need not be
   * an identifier.
   */
  function EvaluateText(als: seq<(string, Term)>, expression: string, fuel: nat, corrected: bool): (r: Result<Term, ContextError>)
    requires ValuesWF(als)
  {
    var value :- Prepared(als, expression, fuel, corrected);
    var backward := Fixpoint(Backward(als), value, fuel);
    if backward.None? then Err(Diverges) else Read(Show(backward.value))
  }

  /** A term that `equals` itself is the fixpoint of a step that leaves it as it is. */
  lemma FixpointOfIdentity(p: Pass, e: Term, fuel: nat)
    requires Applies(p, e) && Complete(e) && Apply(p, e) == e
    ensures Fixpoint(p, e, fuel) == Some(e)
  {
    EqualsReflexive(e);
    assert Iterate(p, e, 1) == e;
    assert Iterate(p, e, 2) == e;
  }

  /** Without aliases, evaluating an expression in the context is evaluating the term it reads as. */
  lemma EvaluateWithoutAliases(expression: string, fuel: nat, corrected: bool)
    requires Read(expression).Ok? && WF(Read(expression).value)
    ensures var t := Reparse(Read(expression).value);
            EvaluateText([], expression, fuel, corrected)
            == match Fixpoint(Reduce(corrected), t, fuel) case None => Err(Diverges) case Some(v) => Ok(v)
  {
    var ast := Read(expression).value;
    WFIsComplete(ast);
    FixpointOfIdentity(Forward([], corrected), ast, fuel);
    var t := Reparse(ast);
    var evaluated := Fixpoint(Reduce(corrected), t, fuel);
    if evaluated.Some? {
      FixpointSettles(Reduce(corrected), t, fuel);
      var n: nat :| n <= fuel && evaluated.value == Iterate(Reduce(corrected), t, n + 2);
      var v := evaluated.value;
      ReparseCanonical(v);
      WFIsComplete(v);
      FixpointOfIdentity(Backward([]), v, fuel);
      ReadShown(v);
    }
  }

  class ExecutionContext {
    /** `_aliases`: alias name to stored term, in insertion order. */
    var aliases: seq<(string, Term)>
    /** `unaliases`: alias name to the text it was defined with, in insertion order. */
    var unaliases: seq<(string, string)>
    /** The substitution `forAlsOnce` and `evalOnce` use: `subst` as written when false. */
    const corrected: bool

    /**
     * Both tables are maps; every stored term is well formed, and no two of them `equals` each other, which is
     * what lets `bakAlsOnce` name each one (`BakAlsOfValue`).
     */
    ghost predicate Valid()
      reads this
    {
      KeysDistinct(aliases) && KeysDistinct(unaliases) && ValuesWF(aliases) && ValuesApart(aliases)
    }

    constructor(corrected: bool)
      ensures Valid() && aliases == [] && unaliases == [] && this.corrected == corrected
    {
      aliases := [];
      unaliases := [];
      this.corrected := corrected;
    }

    /** The `aliases` getter: every definition text ever added, in insertion order, removed ones included. */
    method Aliases() returns (r: seq<(string, string)>)
      ensures r == unaliases
    {
      r := [];
      for i := 0 to |unaliases|
        invariant r == unaliases[..i]
      {
        r := r + [unaliases[i]];
      }
    }

    /**
     * `addAlias(alias, expr)`: on success both tables are set for `alias`, and the stored term folds back to
     * `alias` under `bakAlsOnce`; on failure neither table changes.
     */
    method AddAlias(alias: string, expr: string, fuel: nat) returns (r: Result<(), ContextError>)
      requires Valid()
      modifies this
      ensures Valid()
      ensures var value := AliasValue(old(aliases), expr, fuel, corrected);
              if value.Ok? then
                r.Ok? && aliases == Put(old(aliases), alias, value.value) && unaliases == Put(old(unaliases), alias, expr)
              else
                r == Err(value.error) && aliases == old(aliases) && unaliases == old(unaliases)
      ensures r.Ok? ==> exists i :: 0 <= i < |aliases| && aliases[i].0 == alias && BakAls(aliases, aliases[i].1) == Var(alias, 0)
    {
      var prepared := Prepare(expr, fuel);
      if prepared.Err? {
        return Err(prepared.error);
      }
      var ast := prepared.value;
      var duplicate := HasDuplicate(ast);
      if duplicate {
        return Err(Thrown("DUPLICATE!"));
      }
      if ast.Var? {
        return Err(Thrown("IDENTIFIER!"));
      }
      PutApart(aliases, alias, ast);
      PutFoldsBack(aliases, alias, ast);
      PutDistinct(aliases, alias, ast);
      PutDistinct(unaliases, alias, expr);
      aliases := Put(aliases, alias, ast);
      unaliases := Put(unaliases, alias, expr);
      return Ok(());
    }

    /** The duplicate check of `addAlias`: some stored term `equals` `t`. */
    method HasDuplicate(t: Term) returns (found: bool)
      ensures found <==> FirstEqual(aliases, t).Some?
    {
      for i := 0 to |aliases|
        invariant forall k :: 0 <= k < i ==> !Equals(t, aliases[k].1)
      {
        if Equals(t, aliases[i].1) {
          return true;
        }
      }
      return false;
    }

    /** `removeAlias(alias)`: the stored term goes; the definition text stays listed by `Aliases`. */
    method RemoveAlias(alias: string)
      requires Valid()
      modifies this
      ensures Valid()
      ensures aliases == Remove(old(aliases), alias) && unaliases == old(unaliases)
    {
      RemoveApart(aliases, alias);
      aliases := Remove(aliases, alias);
    }

    /** `parse(tokenize(text))`, by the tokenizer and parser methods. */
    static method ReadText(text: string) returns (r: Result<Term, ContextError>)
      ensures r == Read(text)
    {
      var tokens := UntypedLexer.Tokenize(text);
      if tokens.Err? {
        return Err(Lexing(tokens.error));
      }
      var parsed := UntypedParser.Parse(tokens.value);
      if parsed.Err? {
        return Err(Parsing(parsed.error));
      }
      return Ok(parsed.value);
    }

    /** The steps `addAlias` and `evaluate` share, by the methods the source calls. */
    method Prepare(text: string, fuel: nat) returns (r: Result<Term, ContextError>)
      requires Valid()
      ensures r == Prepared(aliases, text, fuel, corrected)
    {
      var read := ReadText(text);
      if read.Err? {
        return Err(read.error);
      }
      var ast := read.value;
      if !WF(ast) {
        return Err(Incomplete);
      }
      var forward := ForwardAlias(ast, fuel);
      if forward.None? {
        return Err(Diverges);
      }
      var evaluated := Evaluation.Evaluate(Reparse(forward.value), fuel, corrected);
      if evaluated.None? {
        return Err(Diverges);
      }
      return Ok(Reparse(evaluated.value));
    }

    /** `forAlsOnce(expr)`: every alias substituted in turn, in insertion order. */
    method ForAlsOnce(e: Term) returns (r: Term)
      requires Valid() && WF(e)
      ensures r == ForAls(aliases, e, corrected)
    {
      r := e;
      for i := 0 to |aliases|
        invariant WF(r) && ValuesWF(aliases[i..]) && ForAls(aliases[i..], r, corrected) == ForAls(aliases, e, corrected)
      {
        assert aliases[i..][1..] == aliases[i + 1..];
        if corrected {
          r := SubstCorrected(r, aliases[i].0, aliases[i].1);
        } else {
          r := Subst(r, aliases[i].0, aliases[i].1);
        }
      }
    }

    /**
     * `forwardAlias(expr)`, with at most `fuel` turns: `forAlsOnce` until two successive results `equals`
     * each other. `FixpointFreeFrom` says that every free name of the result is free in `expr` or in an alias
     * value.
     */
    method ForwardAlias(e: Term, fuel: nat) returns (r: Option<Term>)
      requires Valid() && WF(e)
      ensures r == Fixpoint(Forward(aliases, corrected), e, fuel)
    {
      var p := Forward(aliases, corrected);
      var alias1 := ForAlsOnce(e);
      var alias2 := ForAlsOnce(alias1);
      var i: nat := 0;
      while !Equals(alias1, alias2)
        invariant i <= fuel
        invariant alias1 == Iterate(p, e, i + 1) && alias2 == Iterate(p, e, i + 2)
        invariant FixFrom(p, e, i, fuel) == Fixpoint(p, e, fuel)
        decreases fuel - i
      {
        if i == fuel {
          return None;
        }
        var next := ForAlsOnce(alias2);
        alias1, alias2 := alias2, next;
        i := i + 1;
      }
      return Some(alias2);
    }

    /**
     * `backwardAlias(expr)`, with at most `fuel` turns: `bakAlsOnce` until two successive results `equals`
     * each other. `FixpointFreeFrom` says that every free name of the result is free in `expr` or an alias name.
     */
    method BackwardAlias(e: Term, fuel: nat) returns (r: Option<Term>)
      ensures r == Fixpoint(Backward(aliases), e, fuel)
    {
      var p := Backward(aliases);
      var alias1 := BakAls(aliases, e);
      var alias2 := BakAls(aliases, alias1);
      var i: nat := 0;
      while !Equals(alias1, alias2)
        invariant i <= fuel
        invariant alias1 == Iterate(p, e, i + 1) && alias2 == Iterate(p, e, i + 2)
        invariant FixFrom(p, e, i, fuel) == Fixpoint(p, e, fuel)
        decreases fuel - i
      {
        if i == fuel {
          return None;
        }
        var next := BakAls(aliases, alias2);
        alias1, alias2 := alias2, next;
        i := i + 1;
      }
      return Some(alias2);
    }

    /** `evaluate(expression)`. */
    method Evaluate(expression: string, fuel: nat) returns (r: Result<Term, ContextError>)
      requires Valid()
      ensures r == EvaluateText(aliases, expression, fuel, corrected)
    {
      var prepared := Prepare(expression, fuel);
      if prepared.Err? {
        return Err(prepared.error);
      }
      var backward := BackwardAlias(prepared.value, fuel);
      if backward.None? {
        return Err(Diverges);
      }
      r := ReadText(Show(backward.value));
    }
  }
}
