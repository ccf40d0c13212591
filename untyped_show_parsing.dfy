/**
 * Parsing the tokens of a printed term. When `Toks(t, p)` stands in a token list at cursor `i` and is followed
 * by the end of the list or a `)`, `term()` reads exactly those tokens and returns `Rebuild(t, ids, sw)`: the
 * printer's parentheses put back every grouping that the grammar would otherwise read differently.
 */
module ShowParsing {
  import opened Wrappers
  import opened Tokenizer
  import opened ParserBase
  import opened UntypedLexer
  import opened UntypedTerm
  import opened ShowLexing
  import opened Rebuilding
  import opened UntypedParser

  /** The tokens `x` stand in `toks` from cursor `i` on. */
  predicate TokensAt(toks: seq<UToken>, i: nat, x: seq<UToken>) {
    i + |x| <= |toks| && forall k {:trigger x[k]} :: 0 <= k < |x| ==> toks[i + k] == x[k]
  }

  lemma TokensAtSplit(toks: seq<UToken>, i: nat, x: seq<UToken>, y: seq<UToken>)
    requires TokensAt(toks, i, x + y)
    ensures TokensAt(toks, i, x) && TokensAt(toks, i + |x|, y)
  {
    forall k | 0 <= k < |x|
      ensures toks[i + k] == x[k]
    {
      assert (x + y)[k] == x[k];
    }
    forall k | 0 <= k < |y|
      ensures toks[i + |x| + k] == y[k]
    {
      assert (x + y)[|x| + k] == y[k];
    }
  }

  lemma TokenAt(toks: seq<UToken>, i: nat, x: seq<UToken>, k: nat)
    requires TokensAt(toks, i, x) && k < |x|
    ensures i + k < |toks| && toks[i + k] == x[k]
  {
  }

  /** Where a printed term may end for `term()` to stop there: at the end of the tokens or before a `)`. */
  predicate Stops(toks: seq<UToken>, j: nat) {
    j == |toks| || (j < |toks| && toks[j].id == RightPren)
  }

  /** The tokens of a term in operator position start with `(` or an identifier, never with `λ`. */
  lemma {:induction false} LeftToksStart(t: Term, p: nat)
    requires WF(t)
    ensures |LeftToks(t, p)| > 0 && LeftToks(t, p)[0].id in {LeftPren, Identifier}
  {
    match t
    case Var(_, _) =>
    case Abs(_, _) =>
    case App(l, r) =>
      LeftToksStart(l, p);
  }

  /** The parts of the tokens of `(t)`: the `(`, the tokens of `t`, and the `)` that stops `term()`. */
  lemma ParenParts(toks: seq<UToken>, i: nat, t: Term, p: nat)
    requires WF(t) && TokensAt(toks, i, ParenToks(t, p))
    ensures |ParenToks(t, p)| == |Toks(t, p + 1)| + 2
    ensures NextIsAt(toks, i, LeftPren) && TokensAt(toks, i + 1, Toks(t, p + 1))
    ensures NextIsAt(toks, i + 1 + |Toks(t, p + 1)|, RightPren)
  {
    var inner := Toks(t, p + 1);
    var close := [Token(RightPren, p + 1 + |Show(t)|, ")")];
    assert ParenToks(t, p) == [Token(LeftPren, p, "(")] + (inner + close);
    TokensAtSplit(toks, i, [Token(LeftPren, p, "(")], inner + close);
    TokensAtSplit(toks, i + 1, inner, close);
    TokenAt(toks, i, [Token(LeftPren, p, "(")], 0);
    TokenAt(toks, i + 1 + |inner|, close, 0);
  }

  /** The parts of the tokens of an abstraction: its head `λ b .` and the tokens of its body. */
  lemma AbsParts(toks: seq<UToken>, i: nat, t: Term, p: nat)
    requires t.Abs? && WF(t) && TokensAt(toks, i, Toks(t, p))
    ensures |Toks(t, p)| == 3 + |Toks(t.body, p + 2 + |t.binding|)|
    ensures TokensAt(toks, i, AbsHead(t.binding, p)) && TokensAt(toks, i + 3, Toks(t.body, p + 2 + |t.binding|))
  {
    TokensAtSplit(toks, i, AbsHead(t.binding, p), Toks(t.body, p + 2 + |t.binding|));
  }

  /** The parts of the tokens of an application: its operator and its operand. */
  lemma AppParts(toks: seq<UToken>, i: nat, t: Term, p: nat)
    requires t.App? && WF(t) && TokensAt(toks, i, Toks(t, p))
    ensures |Toks(t, p)| == |LeftToks(t.left, p)| + |RightToks(t.right, p + |LeftShow(t.left)| + 1)|
    ensures TokensAt(toks, i, LeftToks(t.left, p))
    ensures TokensAt(toks, i + |LeftToks(t.left, p)|, RightToks(t.right, p + |LeftShow(t.left)| + 1))
  {
    TokensAtSplit(toks, i, LeftToks(t.left, p), RightToks(t.right, p + |LeftShow(t.left)| + 1));
  }

  /** At a stopping point, the application loop returns what it has read so far. */
  lemma AppLoopStops(toks: seq<UToken>, j: nat, ids: seq<string>, sw: map<string, string>, lhs: Term)
    requires j <= |toks| && Stops(toks, j)
    ensures AppLoop(toks, j, ids, sw, lhs) == Ok(Parsed(lhs, j, sw))
  {
  }

  /** The application loop reads one more operand. */
  lemma AppLoopStep(toks: seq<UToken>, j: nat, ids: seq<string>, sw: map<string, string>, lhs: Term, rhs: Term, next: nat, sw': map<string, string>)
    requires j <= next <= |toks| && !rhs.Missing?
    requires ParseAtom(toks, j, ids, sw) == Ok(Parsed(rhs, next, sw'))
    ensures AppLoop(toks, j, ids, sw, lhs) == AppLoop(toks, next, ids, sw', App(lhs, rhs))
  {
  }

  /** `application()` reads its first operand and goes on with the loop. */
  lemma ApplicationStart(toks: seq<UToken>, i: nat, ids: seq<string>, sw: map<string, string>, lhs: Term, next: nat, sw': map<string, string>)
    requires i <= next <= |toks|
    requires ParseAtom(toks, i, ids, sw) == Ok(Parsed(lhs, next, sw'))
    ensures ParseApplication(toks, i, ids, sw) == AppLoop(toks, next, ids, sw', lhs)
  {
  }

  /** `term()` at a token other than `λ` is `application()`. */
  lemma TermAtOther(toks: seq<UToken>, i: nat, ids: seq<string>, sw: map<string, string>)
    requires i < |toks| && toks[i].id != Lambda
    ensures ParseTerm(toks, i, ids, sw) == ParseApplication(toks, i, ids, sw)
  {
  }

  /** `atom()` at an identifier looks it up through the swap table and indexes it against the binders. */
  lemma AtomIdentifier(toks: seq<UToken>, i: nat, ids: seq<string>, sw: map<string, string>)
    requires NextIsAt(toks, i, Identifier)
    ensures var m := SwapIn(sw, toks[i].value); ParseAtom(toks, i, ids, sw) == Ok(Parsed(Var(m, IndexIn(ids, m)), i + 1, sw))
  {
  }

  /** `atom()` at `(` reads a term and the `)` after it. */
  lemma AtomParen(toks: seq<UToken>, i: nat, ids: seq<string>, sw: map<string, string>, x: Term, j: nat, sw': map<string, string>)
    requires NextIsAt(toks, i, LeftPren) && NextIsAt(toks, j, RightPren)
    requires ParseTerm(toks, i + 1, ids, sw) == Ok(Parsed(x, j, sw'))
    ensures ParseAtom(toks, i, ids, sw) == Ok(Parsed(x, j + 1, sw'))
  {
  }

  /** `term()` on the tokens of `t`, followed by a stopping point, reads them all and returns the rebuilt term. */
  lemma {:induction false} ParseShown(toks: seq<UToken>, i: nat, t: Term, p: nat, ids: seq<string>, sw: map<string, string>)
    requires WF(t) && TokensAt(toks, i, Toks(t, p)) && Stops(toks, i + |Toks(t, p)|)
    ensures ParseTerm(toks, i, ids, sw) == Ok(Parsed(Rebuild(t, ids, sw).0, i + |Toks(t, p)|, Rebuild(t, ids, sw).1))
    decreases t, 3
  {
    match t
    case Var(_, _) => ParseShownVar(toks, i, t, p, ids, sw);
    case Abs(_, _) => ParseShownAbs(toks, i, t, p, ids, sw);
    case App(_, _) => ParseShownApp(toks, i, t, p, ids, sw);
  }

  lemma ParseShownVar(toks: seq<UToken>, i: nat, t: Term, p: nat, ids: seq<string>, sw: map<string, string>)
    requires t.Var? && WF(t) && TokensAt(toks, i, Toks(t, p)) && Stops(toks, i + |Toks(t, p)|)
    ensures ParseTerm(toks, i, ids, sw) == Ok(Parsed(Rebuild(t, ids, sw).0, i + |Toks(t, p)|, Rebuild(t, ids, sw).1))
  {
    TokenAt(toks, i, Toks(t, p), 0);
    TermAtOther(toks, i, ids, sw);
    AtomIdentifier(toks, i, ids, sw);
    var m := SwapIn(sw, t.name);
    ApplicationStart(toks, i, ids, sw, Var(m, IndexIn(ids, m)), i + 1, sw);
    AppLoopStops(toks, i + 1, ids, sw, Var(m, IndexIn(ids, m)));
  }

  lemma {:induction false} ParseShownApp(toks: seq<UToken>, i: nat, t: Term, p: nat, ids: seq<string>, sw: map<string, string>)
    requires t.App? && WF(t) && TokensAt(toks, i, Toks(t, p)) && Stops(toks, i + |Toks(t, p)|)
    ensures ParseTerm(toks, i, ids, sw) == Ok(Parsed(Rebuild(t, ids, sw).0, i + |Toks(t, p)|, Rebuild(t, ids, sw).1))
    decreases t, 2
  {
    var l, r := t.left, t.right;
    LeftToksStart(l, p);
    TokenAt(toks, i, Toks(t, p), 0);
    TermAtOther(toks, i, ids, sw);
    AppParts(toks, i, t, p);
    ParseLeftApp(toks, i, l, r, p, p + |LeftShow(l)| + 1, ids, sw);
    AppLoopStops(toks, i + |Toks(t, p)|, ids, Rebuild(t, ids, sw).1, Rebuild(t, ids, sw).0);
  }

  lemma {:induction false} ParseShownAbs(toks: seq<UToken>, i: nat, t: Term, p: nat, ids: seq<string>, sw: map<string, string>)
    requires t.Abs? && WF(t) && TokensAt(toks, i, Toks(t, p)) && Stops(toks, i + |Toks(t, p)|)
    ensures ParseTerm(toks, i, ids, sw) == Ok(Parsed(Rebuild(t, ids, sw).0, i + |Toks(t, p)|, Rebuild(t, ids, sw).1))
    decreases t, 2
  {
    var b, body := t.binding, t.body;
    AbsParts(toks, i, t, p);
    TermAtLambda(toks, i, b, p, ids, sw);
    ParseAbsBody(toks, i + 3, b, body, p + 2 + |b|, ids, sw);
  }

  /** The body of `λb.` read after the head: what `ParseAbstraction` returns is the rebuilt abstraction. */
  lemma {:induction false} ParseAbsBody(toks: seq<UToken>, i: nat, b: string, body: Term, q: nat, ids: seq<string>, sw: map<string, string>)
    requires WF(body) && TokensAt(toks, i, Toks(body, q)) && Stops(toks, i + |Toks(body, q)|)
    ensures ParseAbstraction(toks, i, b, ids, sw)
      == Ok(Parsed(Rebuild(Abs(b, body), ids, sw).0, i + |Toks(body, q)|, Rebuild(Abs(b, body), ids, sw).1))
    decreases body, 5
  {
    if IndexIn(ids, b) == 0 {
      ParseAbsKept(toks, i, b, body, q, ids, sw);
    } else {
      ParseAbsRenamed(toks, i, b, body, q, ids, sw);
    }
  }

  /** A binder not yet bound is pushed as it is. */
  lemma {:induction false} ParseAbsKept(toks: seq<UToken>, i: nat, b: string, body: Term, q: nat, ids: seq<string>, sw: map<string, string>)
    requires IndexIn(ids, b) == 0
    requires WF(body) && TokensAt(toks, i, Toks(body, q)) && Stops(toks, i + |Toks(body, q)|)
    ensures var inner := Rebuild(body, ids + [b], sw);
      ParseAbstraction(toks, i, b, ids, sw) == Ok(Parsed(Abs(b, inner.0), i + |Toks(body, q)|, inner.1))
    decreases body, 4
  {
    ParseShown(toks, i, body, q, ids + [b], sw);
  }

  /** A binder already bound is replaced by a fresh name, which the body's variables are swapped to. */
  lemma {:induction false} ParseAbsRenamed(toks: seq<UToken>, i: nat, b: string, body: Term, q: nat, ids: seq<string>, sw: map<string, string>)
    requires IndexIn(ids, b) != 0
    requires WF(body) && TokensAt(toks, i, Toks(body, q)) && Stops(toks, i + |Toks(body, q)|)
    ensures var f := FreshNames.FreshName(ids);
      var inner := Rebuild(body, ids + [f], sw[b := f]);
      ParseAbstraction(toks, i, b, ids, sw) == Ok(Parsed(Abs(f, inner.0), i + |Toks(body, q)|, inner.1 - {b}))
    decreases body, 4
  {
    var f := FreshNames.FreshName(ids);
    ParseShown(toks, i, body, q, ids + [f], sw[b := f]);
  }

  /** After `λ b .`, `term()` goes on as the rest of an abstraction with binder `b`. */
  lemma TermAtLambda(toks: seq<UToken>, i: nat, b: string, p: nat, ids: seq<string>, sw: map<string, string>)
    requires TokensAt(toks, i, AbsHead(b, p))
    ensures ParseTerm(toks, i, ids, sw) == ParseAbstraction(toks, i + 3, b, ids, sw)
  {
    TokenAt(toks, i, AbsHead(b, p), 0);
    TokenAt(toks, i, AbsHead(b, p), 1);
    TokenAt(toks, i, AbsHead(b, p), 2);
  }

  /**
   * `application()` on the tokens of `t` in operator position: it reads them and goes on with the rebuilt term
   * as the left operand of whatever follows.
   */
  lemma {:induction false} ParseLeft(toks: seq<UToken>, i: nat, t: Term, p: nat, ids: seq<string>, sw: map<string, string>)
    requires WF(t) && TokensAt(toks, i, LeftToks(t, p))
    ensures ParseApplication(toks, i, ids, sw)
      == AppLoop(toks, i + |LeftToks(t, p)|, ids, Rebuild(t, ids, sw).1, Rebuild(t, ids, sw).0)
    decreases t, if t.App? then 1 else 6
  {
    match t
    case Var(_, _) =>
      ParseLeftVar(toks, i, t, p, ids, sw);
    case Abs(_, _) =>
      ParseLeftAbs(toks, i, t, p, ids, sw);
    case App(l, r) =>
      AppParts(toks, i, t, p);
      ParseLeftApp(toks, i, l, r, p, p + |LeftShow(l)| + 1, ids, sw);
  }

  lemma ParseLeftVar(toks: seq<UToken>, i: nat, t: Term, p: nat, ids: seq<string>, sw: map<string, string>)
    requires t.Var? && WF(t) && TokensAt(toks, i, LeftToks(t, p))
    ensures ParseApplication(toks, i, ids, sw)
      == AppLoop(toks, i + |LeftToks(t, p)|, ids, Rebuild(t, ids, sw).1, Rebuild(t, ids, sw).0)
  {
    assert LeftToks(t, p) == Toks(t, p);
    TokenAt(toks, i, LeftToks(t, p), 0);
    AtomIdentifier(toks, i, ids, sw);
    var m := SwapIn(sw, t.name);
    ApplicationStart(toks, i, ids, sw, Var(m, IndexIn(ids, m)), i + 1, sw);
  }

  lemma {:induction false} ParseLeftAbs(toks: seq<UToken>, i: nat, t: Term, p: nat, ids: seq<string>, sw: map<string, string>)
    requires t.Abs? && WF(t) && TokensAt(toks, i, LeftToks(t, p))
    ensures ParseApplication(toks, i, ids, sw)
      == AppLoop(toks, i + |LeftToks(t, p)|, ids, Rebuild(t, ids, sw).1, Rebuild(t, ids, sw).0)
    decreases t, 5
  {
    assert LeftToks(t, p) == ParenToks(t, p);
    ParseParen(toks, i, t, p, ids, sw);
    ApplicationStart(toks, i, ids, sw, Rebuild(t, ids, sw).0, i + |LeftToks(t, p)|, Rebuild(t, ids, sw).1);
  }

  /** `application()` on the tokens of an operator `l` followed by those of an operand `r`. */
  lemma {:induction false} ParseLeftApp(toks: seq<UToken>, i: nat, l: Term, r: Term, p: nat, k: nat, ids: seq<string>, sw: map<string, string>)
    requires WF(l) && WF(r) && TokensAt(toks, i, LeftToks(l, p)) && TokensAt(toks, i + |LeftToks(l, p)|, RightToks(r, k))
    ensures ParseApplication(toks, i, ids, sw)
      == AppLoop(toks, i + |LeftToks(l, p)| + |RightToks(r, k)|, ids, Rebuild(App(l, r), ids, sw).1, Rebuild(App(l, r), ids, sw).0)
    decreases App(l, r), 0
  {
    var left := Rebuild(l, ids, sw);
    var j := i + |LeftToks(l, p)|;
    ParseLeft(toks, i, l, p, ids, sw);
    var right := Rebuild(r, ids, left.1);
    var n := j + |RightToks(r, k)|;
    ParseAtomShown(toks, j, r, k, ids, left.1);
    AppRebuilt(toks, i, l, r, ids, sw, j, n, left, right);
  }

  /** Reading the operator and then the operand of an application builds the rebuilt application. */
  lemma AppRebuilt(toks: seq<UToken>, i: nat, l: Term, r: Term, ids: seq<string>, sw: map<string, string>, j: nat, n: nat,
                    left: (Term, map<string, string>), right: (Term, map<string, string>))
    requires i <= j <= n <= |toks| && !r.Missing?
    requires left == Rebuild(l, ids, sw) && right == Rebuild(r, ids, left.1)
    requires ParseApplication(toks, i, ids, sw) == AppLoop(toks, j, ids, left.1, left.0)
    requires ParseAtom(toks, j, ids, left.1) == Ok(Parsed(right.0, n, right.1))
    ensures ParseApplication(toks, i, ids, sw) == AppLoop(toks, n, ids, Rebuild(App(l, r), ids, sw).1, Rebuild(App(l, r), ids, sw).0)
  {
    AppLoopStep(toks, j, ids, left.1, left.0, right.0, n, right.1);
  }

  /** `atom()` on the tokens of `t` in operand position reads them and returns the rebuilt term. */
  lemma {:induction false} ParseAtomShown(toks: seq<UToken>, i: nat, t: Term, p: nat, ids: seq<string>, sw: map<string, string>)
    requires WF(t) && TokensAt(toks, i, RightToks(t, p))
    ensures ParseAtom(toks, i, ids, sw) == Ok(Parsed(Rebuild(t, ids, sw).0, i + |RightToks(t, p)|, Rebuild(t, ids, sw).1))
    decreases t, 5
  {
    if t.Var? {
      TokenAt(toks, i, RightToks(t, p), 0);
      AtomIdentifier(toks, i, ids, sw);
    } else {
      ParseParen(toks, i, t, p, ids, sw);
    }
  }

  /** `atom()` on the tokens of `(t)`. */
  lemma {:induction false} ParseParen(toks: seq<UToken>, i: nat, t: Term, p: nat, ids: seq<string>, sw: map<string, string>)
    requires WF(t) && TokensAt(toks, i, ParenToks(t, p))
    ensures ParseAtom(toks, i, ids, sw) == Ok(Parsed(Rebuild(t, ids, sw).0, i + |ParenToks(t, p)|, Rebuild(t, ids, sw).1))
    decreases t, 4
  {
    ParenParts(toks, i, t, p);
    var j := i + 1 + |Toks(t, p + 1)|;
    ParseShown(toks, i + 1, t, p + 1, ids, sw);
    AtomParen(toks, i, ids, sw, Rebuild(t, ids, sw).0, j, Rebuild(t, ids, sw).1);
  }

  /** The tokens of a printed well-formed term parse to the rebuilt term. */
  lemma ParseToks(t: Term)
    requires WF(t)
    ensures ParseSpec(Toks(t, 0)) == Ok(Rebuild(t, [], map[]).0)
  {
    var toks := Toks(t, 0);
    ParseShown(toks, 0, t, 0, [], map[]);
  }
}
