/**
 * Substitution and reduction of src/untyped.ts:274-326: `capSubst` (substitution that may capture), `subst`
 * (capture-avoiding, renaming a binder to `fresh(vars(expr))` when it is free in the value), `evalOnce` (one
 * parallel step of β-reduction) and the fixpoint driver `evaluate`. Each of the first three reads its result
 * back through `Reparse`, as the source does with `parse(tokenize(ret.toString()))`.
 */
module Substitution {
  import opened Wrappers
  import opened UntypedTerm
  import opened FreshNames
  import opened TermNames
  import opened Rebuilding
  import opened Reparsing
  import opened ParserBase
  import Utils
  import UntypedLexer

  /** `capSubst(expr, target, value)`: every free `target` replaced by `value`, binders left as they are. */
  function CapSubst(e: Term, target: string, value: Term): (r: Term)
    requires WF(e) && WF(value)
    ensures WF(r) && Canonical(r, [])
  {
    var ret := (
      match e
      case Var(n, _) => if n == target then value else e
      case App(l, rt) => App(CapSubst(l, target, value), CapSubst(rt, target, value))
      case Abs(b, body) => if b == target then e else Abs(b, CapSubst(body, target, value)));
    Reparse(ret)
  }

  /** Substituting a variable keeps the shape of a term, so renaming a binder this way keeps its size. */
  lemma {:induction false} CapSubstVarShape(e: Term, target: string, value: Term)
    requires WF(e) && WF(value) && value.Var?
    ensures SameShape(e, CapSubst(e, target, value))
  {
    match e
    case Var(_, _) =>
    case App(l, rt) =>
      CapSubstVarShape(l, target, value);
      CapSubstVarShape(rt, target, value);
      var ret := App(CapSubst(l, target, value), CapSubst(rt, target, value));
      SameShapeTransitive(e, ret, Reparse(ret));
    case Abs(b, body) =>
      if b != target {
        CapSubstVarShape(body, target, value);
        var ret := Abs(b, CapSubst(body, target, value));
        SameShapeTransitive(e, ret, Reparse(ret));
      } else {
        assert CapSubst(e, target, value) == Reparse(e);
      }
  }

  /**
   * `capSubst` brings in no free name: a name free in the result is free in `e` and not the target, or it
   * comes from `value`, which only enters where the target is free.
   */
  lemma {:induction false} CapSubstFreeFrom(y: string, e: Term, x: string, v: Term)
    requires WF(e) && WF(v) && FreeIn(y, CapSubst(e, x, v))
    ensures (FreeIn(y, e) && y != x) || (FreeIn(y, v) && FreeIn(x, e))
  {
    match e
    case Var(n, _) =>
      ReparseFreeFrom(y, if n == x then v else e);
    case App(l, rt) =>
      var ret := App(CapSubst(l, x, v), CapSubst(rt, x, v));
      ReparseFreeFrom(y, ret);
      if FreeIn(y, ret.left) {
        CapSubstFreeFrom(y, l, x, v);
      } else {
        CapSubstFreeFrom(y, rt, x, v);
      }
    case Abs(b, body) =>
      if b == x {
        ReparseFreeFrom(y, e);
      } else {
        ReparseFreeFrom(y, Abs(b, CapSubst(body, x, v)));
        CapSubstFreeFrom(y, body, x, v);
      }
  }

  /** Every free name of `e` other than the target stays free, unless it has the form `f<k>` of a fresh name. */
  lemma {:induction false} CapSubstKeepsFree(y: string, e: Term, x: string, v: Term)
    requires WF(e) && WF(v) && FreeIn(y, e) && y != x && !FreshLike(y)
    ensures FreeIn(y, CapSubst(e, x, v))
  {
    match e
    case Var(_, _) =>
      ReparseKeepsFree(y, e);
    case App(l, rt) =>
      if FreeIn(y, l) {
        CapSubstKeepsFree(y, l, x, v);
      } else {
        CapSubstKeepsFree(y, rt, x, v);
      }
      ReparseKeepsFree(y, App(CapSubst(l, x, v), CapSubst(rt, x, v)));
    case Abs(b, body) =>
      if b == x {
        ReparseKeepsFree(y, e);
      } else {
        CapSubstKeepsFree(y, body, x, v);
        ReparseKeepsFree(y, Abs(b, CapSubst(body, x, v)));
      }
  }

  /** `capSubst(λy.x, x, y)` is `λy.y`: the binder captures the substituted `y`. */
  lemma CapSubstCaptures(e: Term)
    requires e == Abs("y", Var("x", 0))
    ensures CapSubst(e, "x", Var("y", 0)) == Abs("y", Var("y", 1))
  {
    assert "y" != "x" by { assert "y"[0] != "x"[0]; }
    assert IndexIn([], "y") == 0 && IndexIn(["y"], "y") == 1;
    assert [] + ["y"] == ["y"];
    assert CapSubst(Var("x", 0), "x", Var("y", 0)) == Var("y", 0);
  }

  /**
   * `subst(expr, target, value)`: like `CapSubst`, except that a binder free in `value` is first renamed
   * throughout its body to the first fresh name outside `vars(expr)` and `avoid`. The source avoids `vars(expr)`
   * alone (`Subst`); `SubstCorrected` also avoids the target and the names of `value`. The recursion on the
   * renamed body terminates because renaming keeps the shape of a term.
   */
  function SubstAvoiding(e: Term, target: string, value: Term, avoid: seq<string>): (r: Term)
    requires WF(e) && WF(value)
    ensures WF(r) && Canonical(r, [])
    decreases Size(e)
  {
    WFIsComplete(e);
    WFIsComplete(value);
    var ret := (
      match e
      case Var(n, _) => if n == target then value else e
      case App(l, rt) => App(SubstAvoiding(l, target, value, avoid), SubstAvoiding(rt, target, value, avoid))
      case Abs(b, body) =>
        if b == target then e
        else if b !in Free(value) then Abs(b, SubstAvoiding(body, target, value, avoid))
        else
          var f := FreshName(Vars(e) + avoid);
          FreshNameSpec(Vars(e) + avoid);
          var avoidant := CapSubst(body, b, Var(f, 0));
          CapSubstVarShape(body, b, Var(f, 0));
          SameShapeSize(body, avoidant);
          Abs(f, SubstAvoiding(avoidant, target, value, avoid)));
    Reparse(ret)
  }

  /** `subst` as written: the renamed binder avoids only `vars(expr)`. */
  function Subst(e: Term, target: string, value: Term): (r: Term)
    requires WF(e) && WF(value)
    ensures WF(r) && Canonical(r, [])
  {
    SubstAvoiding(e, target, value, [])
  }

  /** `subst` with the renamed binder also kept clear of the target and of every name of `value`. */
  function SubstCorrected(e: Term, target: string, value: Term): (r: Term)
    requires WF(e) && WF(value)
    ensures WF(r) && Canonical(r, [])
  {
    WFIsComplete(value);
    SubstAvoiding(e, target, value, Vars(value) + [target])
  }

  /** The renaming branch of `subst`: the fresh binder, the renamed body, and what the branch returns. */
  lemma Renaming(b: string, body: Term, x: string, v: Term, avoid: seq<string>) returns (f: string, avoidant: Term)
    requires WF(Abs(b, body)) && Complete(body) && WF(v) && b != x && FreeIn(b, v)
    ensures f == FreshName(Vars(Abs(b, body)) + avoid) && FreshLike(f) && f !in Vars(Abs(b, body)) + avoid
    ensures avoidant == CapSubst(body, b, Var(f, 0)) && WF(avoidant) && Size(avoidant) == Size(body)
    ensures SubstAvoiding(Abs(b, body), x, v, avoid) == Reparse(Abs(f, SubstAvoiding(avoidant, x, v, avoid)))
  {
    WFIsComplete(Abs(b, body));
    f := FreshName(Vars(Abs(b, body)) + avoid);
    FreshNameSpec(Vars(Abs(b, body)) + avoid);
    avoidant := CapSubst(body, b, Var(f, 0));
    CapSubstVarShape(body, b, Var(f, 0));
    SameShapeSize(body, avoidant);
    SubstRenames(b, body, x, v, avoid);
  }

  /**
   * `subst` brings in no free name: one free in the result is free in `e` and not the target, or comes from
   * `value`. It comes from `value` only where the target was free, unless the renamed binder can be the target
   * itself, which needs a target outside `avoid` of the form `f<k>` of a fresh name.
   */
  lemma {:induction false} SubstAvoidingFreeFrom(y: string, e: Term, x: string, v: Term, avoid: seq<string>)
    requires WF(e) && WF(v)
    requires FreeIn(y, SubstAvoiding(e, x, v, avoid))
    ensures (FreeIn(y, e) && y != x) || (FreeIn(y, v) && (FreeIn(x, e) || (x !in avoid && FreshLike(x))))
    decreases Size(e), 1
  {
    WFIsComplete(v);
    match e
    case Var(n, _) =>
      ReparseFreeFrom(y, if n == x then v else e);
    case App(l, rt) =>
      var ret := App(SubstAvoiding(l, x, v, avoid), SubstAvoiding(rt, x, v, avoid));
      ReparseFreeFrom(y, ret);
      if FreeIn(y, ret.left) {
        SubstAvoidingFreeFrom(y, l, x, v, avoid);
      } else {
        SubstAvoidingFreeFrom(y, rt, x, v, avoid);
      }
    case Abs(b, body) =>
      SubstAvoidingFreeFromAbs(y, b, body, x, v, avoid);
  }

  /** `SubstAvoidingFreeFrom` on an abstraction. */
  lemma {:induction false} SubstAvoidingFreeFromAbs(y: string, b: string, body: Term, x: string, v: Term, avoid: seq<string>)
    requires WF(Abs(b, body)) && WF(v)
    requires FreeIn(y, SubstAvoiding(Abs(b, body), x, v, avoid))
    ensures (FreeIn(y, Abs(b, body)) && y != x)
         || (FreeIn(y, v) && (FreeIn(x, Abs(b, body)) || (x !in avoid && FreshLike(x))))
    decreases Size(Abs(b, body)), 0
  {
    WFIsComplete(v);
    WFIsComplete(body);
    var e := Abs(b, body);
    if b == x {
      ReparseFreeFrom(y, e);
    } else if !FreeIn(b, v) {
      ReparseFreeFrom(y, Abs(b, SubstAvoiding(body, x, v, avoid)));
      SubstAvoidingFreeFrom(y, body, x, v, avoid);
    } else {
      var f, avoidant := Renaming(b, body, x, v, avoid);
      ReparseFreeFrom(y, Abs(f, SubstAvoiding(avoidant, x, v, avoid)));
      SubstAvoidingFreeFromRenamed(y, b, body, x, v, avoid, f, avoidant);
    }
  }

  /** `SubstAvoidingFreeFrom` on the body renamed to `f`. */
  lemma {:induction false} SubstAvoidingFreeFromRenamed(y: string, b: string, body: Term, x: string, v: Term,
                                                        avoid: seq<string>, f: string, avoidant: Term)
    requires WF(body) && WF(v) && WF(avoidant) && Size(avoidant) == Size(body)
    requires UntypedLexer.ValidName(f) && y != f && avoidant == CapSubst(body, b, Var(f, 0))
    requires x == f ==> x !in avoid && FreshLike(x)
    requires FreeIn(y, SubstAvoiding(avoidant, x, v, avoid))
    ensures (FreeIn(y, body) && y != b && y != x)
         || (FreeIn(y, v) && ((FreeIn(x, body) && x != b) || (x !in avoid && FreshLike(x))))
    decreases Size(body), 2
  {
    SubstAvoidingFreeFrom(y, avoidant, x, v, avoid);
    if FreeIn(y, avoidant) && y != x {
      CapSubstFreeFrom(y, body, b, Var(f, 0));
    } else if x != f && FreeIn(x, avoidant) {
      CapSubstFreeFrom(x, body, b, Var(f, 0));
    }
  }

  /** Every free name of `e` other than the target stays free, unless it has the form `f<k>` of a fresh name. */
  lemma {:induction false} SubstAvoidingKeepsFree(y: string, e: Term, x: string, v: Term, avoid: seq<string>)
    requires WF(e) && WF(v) && FreeIn(y, e) && y != x && !FreshLike(y)
    ensures FreeIn(y, SubstAvoiding(e, x, v, avoid))
    decreases Size(e), 1
  {
    WFIsComplete(v);
    match e
    case Var(n, _) =>
      ReparseKeepsFree(y, e);
    case App(l, rt) =>
      if FreeIn(y, l) {
        SubstAvoidingKeepsFree(y, l, x, v, avoid);
      } else {
        SubstAvoidingKeepsFree(y, rt, x, v, avoid);
      }
      ReparseKeepsFree(y, App(SubstAvoiding(l, x, v, avoid), SubstAvoiding(rt, x, v, avoid)));
    case Abs(b, body) =>
      SubstAvoidingKeepsFreeAbs(y, b, body, x, v, avoid);
  }

  /** `SubstAvoidingKeepsFree` on an abstraction. */
  lemma {:induction false} SubstAvoidingKeepsFreeAbs(y: string, b: string, body: Term, x: string, v: Term, avoid: seq<string>)
    requires WF(Abs(b, body)) && WF(v) && FreeIn(y, Abs(b, body)) && y != x && !FreshLike(y)
    ensures FreeIn(y, SubstAvoiding(Abs(b, body), x, v, avoid))
    decreases Size(Abs(b, body)), 0
  {
    WFIsComplete(v);
    WFIsComplete(body);
    var e := Abs(b, body);
    if b == x {
      ReparseKeepsFree(y, e);
    } else if !FreeIn(b, v) {
      SubstAvoidingKeepsFree(y, body, x, v, avoid);
      ReparseKeepsFree(y, Abs(b, SubstAvoiding(body, x, v, avoid)));
    } else {
      var f, avoidant := Renaming(b, body, x, v, avoid);
      assert y != f;
      SubstAvoidingKeepsFreeRenamed(y, b, body, x, v, avoid, f, avoidant);
      ReparseKeepsFree(y, Abs(f, SubstAvoiding(avoidant, x, v, avoid)));
    }
  }

  /** `SubstAvoidingKeepsFree` on the body renamed to `f`. */
  lemma {:induction false} SubstAvoidingKeepsFreeRenamed(y: string, b: string, body: Term, x: string, v: Term,
                                                         avoid: seq<string>, f: string, avoidant: Term)
    requires WF(body) && WF(v) && WF(avoidant) && Size(avoidant) == Size(body)
    requires UntypedLexer.ValidName(f) && avoidant == CapSubst(body, b, Var(f, 0))
    requires FreeIn(y, body) && y != b && y != x && !FreshLike(y)
    ensures FreeIn(y, SubstAvoiding(avoidant, x, v, avoid))
    decreases Size(body), 2
  {
    CapSubstKeepsFree(y, body, b, Var(f, 0));
    SubstAvoidingKeepsFree(y, avoidant, x, v, avoid);
  }

  /**
   * No capture: where the target is free, every free name of `value` stays free in the result (names of the
   * form `f<k>` aside).
   */
  lemma {:induction false} SubstAvoidingBringsFree(y: string, e: Term, x: string, v: Term, avoid: seq<string>)
    requires WF(e) && WF(v) && FreeIn(x, e) && FreeIn(y, v) && !FreshLike(x) && !FreshLike(y)
    ensures FreeIn(y, SubstAvoiding(e, x, v, avoid))
    decreases Size(e), 1
  {
    WFIsComplete(v);
    match e
    case Var(n, _) =>
      ReparseKeepsFree(y, v);
    case App(l, rt) =>
      if FreeIn(x, l) {
        SubstAvoidingBringsFree(y, l, x, v, avoid);
      } else {
        SubstAvoidingBringsFree(y, rt, x, v, avoid);
      }
      ReparseKeepsFree(y, App(SubstAvoiding(l, x, v, avoid), SubstAvoiding(rt, x, v, avoid)));
    case Abs(b, body) =>
      SubstAvoidingBringsFreeAbs(y, b, body, x, v, avoid);
  }

  /** `SubstAvoidingBringsFree` on an abstraction. */
  lemma {:induction false} SubstAvoidingBringsFreeAbs(y: string, b: string, body: Term, x: string, v: Term, avoid: seq<string>)
    requires WF(Abs(b, body)) && WF(v) && FreeIn(x, Abs(b, body)) && FreeIn(y, v) && !FreshLike(x) && !FreshLike(y)
    ensures FreeIn(y, SubstAvoiding(Abs(b, body), x, v, avoid))
    decreases Size(Abs(b, body)), 0
  {
    WFIsComplete(v);
    WFIsComplete(body);
    if !FreeIn(b, v) {
      SubstAvoidingBringsFree(y, body, x, v, avoid);
      ReparseKeepsFree(y, Abs(b, SubstAvoiding(body, x, v, avoid)));
    } else {
      var f, avoidant := Renaming(b, body, x, v, avoid);
      assert y != f;
      SubstAvoidingBringsFreeRenamed(y, b, body, x, v, avoid, f, avoidant);
      ReparseKeepsFree(y, Abs(f, SubstAvoiding(avoidant, x, v, avoid)));
    }
  }

  /** `SubstAvoidingBringsFree` on the body renamed to `f`. */
  lemma {:induction false} SubstAvoidingBringsFreeRenamed(y: string, b: string, body: Term, x: string, v: Term,
                                                          avoid: seq<string>, f: string, avoidant: Term)
    requires WF(body) && WF(v) && WF(avoidant) && Size(avoidant) == Size(body)
    requires UntypedLexer.ValidName(f) && avoidant == CapSubst(body, b, Var(f, 0))
    requires FreeIn(x, body) && x != b && FreeIn(y, v) && !FreshLike(x) && !FreshLike(y)
    ensures FreeIn(y, SubstAvoiding(avoidant, x, v, avoid))
    decreases Size(body), 2
  {
    CapSubstKeepsFree(x, body, b, Var(f, 0));
    SubstAvoidingBringsFree(y, avoidant, x, v, avoid);
  }

  /** With the target avoided, `SubstCorrected` brings in no free name whatever the names involved. */
  lemma SubstCorrectedFreeFrom(y: string, e: Term, x: string, v: Term)
    requires WF(e) && WF(v) && FreeIn(y, SubstCorrected(e, x, v))
    ensures (FreeIn(y, e) && y != x) || (FreeIn(y, v) && FreeIn(x, e))
  {
    WFIsComplete(v);
    SubstAvoidingFreeFrom(y, e, x, v, Vars(v) + [x]);
  }

  /**
   * The free names of `SubstCorrected(e, x, v)` are those of `e` other than `x`, and those of `v` when `x` is
   * free in `e` (for names that do not have the form `f<k>` of a fresh name).
   */
  lemma SubstCorrectedFree(y: string, e: Term, x: string, v: Term)
    requires WF(e) && WF(v) && !FreshLike(x) && !FreshLike(y)
    ensures FreeIn(y, SubstCorrected(e, x, v)) <==> (FreeIn(y, e) && y != x) || (FreeIn(y, v) && FreeIn(x, e))
  {
    WFIsComplete(v);
    var avoid := Vars(v) + [x];
    if FreeIn(y, SubstCorrected(e, x, v)) {
      SubstAvoidingFreeFrom(y, e, x, v, avoid);
    }
    if FreeIn(y, e) && y != x {
      SubstAvoidingKeepsFree(y, e, x, v, avoid);
    }
    if FreeIn(y, v) && FreeIn(x, e) {
      SubstAvoidingBringsFree(y, e, x, v, avoid);
    }
  }

  /**
   * `subst` as written brings in no free name: a free name of the result is free in `e` and not the target, or
   * free in `v`; and it comes from `v` only where the target was free in `e`, unless the target has the form `f<k>`
   * of a fresh name (`SubstTargetCollision`).
   */
  lemma SubstFreeFrom(y: string, e: Term, x: string, v: Term)
    requires WF(e) && WF(v) && FreeIn(y, Subst(e, x, v))
    ensures (FreeIn(y, e) && y != x) || FreeIn(y, v)
    ensures !FreshLike(x) ==> (FreeIn(y, e) && y != x) || (FreeIn(y, v) && FreeIn(x, e))
  {
    SubstAvoidingFreeFrom(y, e, x, v, []);
  }

  /**
   * The substitution a step uses: `subst` as the source writes it (`corrected` false), or `SubstCorrected`.
   * The evaluation and alias loops take this flag, so that both the program's own behaviour and the intended
   * one are modelled.
   */
  function SubstBy(corrected: bool, e: Term, target: string, value: Term): (r: Term)
    requires WF(e) && WF(value)
    ensures WF(r) && Canonical(r, [])
  {
    if corrected then SubstCorrected(e, target, value) else Subst(e, target, value)
  }

  /** Either substitution brings in no free name: one free in the result is free in `e` and not the target, or free in `v`. */
  lemma SubstByFreeFrom(y: string, corrected: bool, e: Term, x: string, v: Term)
    requires WF(e) && WF(v) && FreeIn(y, SubstBy(corrected, e, x, v))
    ensures (FreeIn(y, e) && y != x) || FreeIn(y, v)
  {
    if corrected {
      SubstCorrectedFreeFrom(y, e, x, v);
    } else {
      SubstFreeFrom(y, e, x, v);
    }
  }

  /** A variable reads back with index 0: alone, it is free. */
  lemma ReparseVar(n: string, k: nat)
    requires WF(Var(n, k))
    ensures Reparse(Var(n, k)) == Var(n, 0)
  {
    assert IndexIn([], n) == 0;
  }

  /** `λb.n` reads back with index 1 on `n` when `b` binds it, and 0 when `n` is free. */
  lemma ReparseAbsVar(b: string, n: string, k: nat)
    requires WF(Abs(b, Var(n, k)))
    ensures Reparse(Abs(b, Var(n, k))) == Abs(b, Var(n, if n == b then 1 else 0))
  {
    assert IndexIn([], b) == 0 && [] + [b] == [b];
    assert SwapIn(map[], n) == n;
    assert Rebuild(Var(n, k), [b], map[]).0 == Var(n, IndexIn([b], n));
    assert IndexIn([b], n) == if n == b then 1 else 0;
  }

  /** On a variable, `capSubst` gives the value read back for the target, and the variable freed otherwise. */
  lemma CapSubstVar(n: string, k: nat, x: string, v: Term)
    requires WF(Var(n, k)) && WF(v)
    ensures CapSubst(Var(n, k), x, v) == if n == x then Reparse(v) else Var(n, 0)
  {
    if n != x {
      ReparseVar(n, k);
    }
  }

  /** `x[x/t]` is `t` and `y[x/t]` is `y`: a variable is replaced exactly when it is the target. */
  lemma CapSubstOnVariables(x: string, y: string, t: string)
    requires UntypedLexer.ValidName(x) && UntypedLexer.ValidName(y) && UntypedLexer.ValidName(t) && x != y
    ensures CapSubst(Var(x, 0), x, Var(t, 0)) == Var(t, 0)
    ensures CapSubst(Var(y, 0), x, Var(t, 0)) == Var(y, 0)
  {
    CapSubstVar(x, 0, x, Var(t, 0));
    ReparseVar(t, 0);
    CapSubstVar(y, 0, x, Var(t, 0));
  }

  /** `(λx.y)[x/t]` is `λx.y`, since `x` is bound there, and `(λx.y)[y/t]` is `λx.t`. */
  lemma CapSubstUnderBinder(x: string, y: string, t: string)
    requires UntypedLexer.ValidName(x) && UntypedLexer.ValidName(y) && UntypedLexer.ValidName(t) && x != y && x != t
    ensures CapSubst(Abs(x, Var(y, 0)), x, Var(t, 0)) == Abs(x, Var(y, 0))
    ensures CapSubst(Abs(x, Var(y, 0)), y, Var(t, 0)) == Abs(x, Var(t, 0))
  {
    ReparseAbsVar(x, y, 0);
    CapSubstVar(y, 0, y, Var(t, 0));
    ReparseVar(t, 0);
    ReparseAbsVar(x, t, 0);
  }

  /** `((λx.x z) (y z))[z/t]` is `(λx.x t) (y t)`: both free `z` are replaced and the bound `x` is kept. */
  lemma CapSubstInApplication(x: string, y: string, z: string, t: string)
    requires UntypedLexer.ValidName(x) && UntypedLexer.ValidName(y) && UntypedLexer.ValidName(z) && UntypedLexer.ValidName(t)
    requires x != z && y != z && x != t
    ensures WF(Abs(x, App(Var(x, 1), Var(z, 0))))
    ensures CapSubst(App(Abs(x, App(Var(x, 1), Var(z, 0))), App(Var(y, 0), Var(z, 0))), z, Var(t, 0))
         == App(Abs(x, App(Var(x, 1), Var(t, 0))), App(Var(y, 0), Var(t, 0)))
  {
    var v := Var(t, 0);
    CapSubstVar(x, 1, z, v);
    CapSubstVar(z, 0, z, v);
    CapSubstVar(y, 0, z, v);
    ReparseVar(t, 0);
    var none: seq<string> := [];
    assert IndexIn(none, x) == 0 && IndexIn(none, y) == 0 && IndexIn(none, t) == 0;
    ReparseCanonical(App(Var(x, 0), Var(t, 0)));
    ReparseCanonical(App(Var(y, 0), Var(t, 0)));
    var body := App(Var(x, 0), Var(t, 0));
    assert CapSubst(App(Var(x, 1), Var(z, 0)), z, v) == body;
    assert none + [x] == [x] && IndexIn([x], x) == 1 && IndexIn([x], t) == 0;
    assert Rebuild(body, [x], map[]).0 == App(Var(x, 1), Var(t, 0));
    assert CapSubst(Abs(x, App(Var(x, 1), Var(z, 0))), z, v) == Abs(x, App(Var(x, 1), Var(t, 0)));
    assert CapSubst(App(Var(y, 0), Var(z, 0)), z, v) == App(Var(y, 0), Var(t, 0));
    var expected := App(Abs(x, App(Var(x, 1), Var(t, 0))), App(Var(y, 0), Var(t, 0)));
    assert Canonical(Abs(x, App(Var(x, 1), Var(t, 0))), none);
    ReparseCanonical(expected);
  }

  /** The five `capSubst` cases of src/tests/untyped.test.ts:185-199, with the names as the parser reads them. */
  lemma CapSubstExamples()
    ensures CapSubst(Var("x", 0), "x", Var("t", 0)) == Var("t", 0)
    ensures CapSubst(Var("y", 0), "x", Var("t", 0)) == Var("y", 0)
    ensures CapSubst(App(Abs("x", App(Var("x", 1), Var("z", 0))), App(Var("y", 0), Var("z", 0))), "z", Var("t", 0))
         == App(Abs("x", App(Var("x", 1), Var("t", 0))), App(Var("y", 0), Var("t", 0)))
    ensures CapSubst(Abs("x", Var("y", 0)), "x", Var("t", 0)) == Abs("x", Var("y", 0))
    ensures CapSubst(Abs("x", Var("y", 0)), "y", Var("t", 0)) == Abs("x", Var("t", 0))
  {
    ExampleNamesValid();
    assert UntypedLexer.ValidName("z") && UntypedLexer.ValidName("t");
    assert "x" != "y" && "x" != "z" && "y" != "z" && "x" != "t" by {
      assert "x"[0] != "y"[0] && "x"[0] != "z"[0] && "y"[0] != "z"[0] && "x"[0] != "t"[0];
    }
    CapSubstOnVariables("x", "y", "t");
    CapSubstUnderBinder("x", "y", "t");
    CapSubstInApplication("x", "y", "z", "t");
  }

  /** On a variable, `subst` gives the value read back for the target, and the variable freed otherwise. */
  lemma SubstVar(n: string, k: nat, x: string, v: Term, avoid: seq<string>)
    requires WF(Var(n, k)) && WF(v)
    ensures SubstAvoiding(Var(n, k), x, v, avoid) == if n == x then Reparse(v) else Var(n, 0)
  {
    if n != x {
      ReparseVar(n, k);
    }
  }

  /** A binder that is free in the value is renamed to the first fresh name outside `vars(expr)` and `avoid`. */
  lemma SubstRenames(b: string, body: Term, x: string, v: Term, avoid: seq<string>)
    requires WF(Abs(b, body)) && Complete(body) && WF(v) && b != x && FreeIn(b, v)
    ensures
      var f := FreshName(Vars(Abs(b, body)) + avoid);
      SubstAvoiding(Abs(b, body), x, v, avoid) == Reparse(Abs(f, SubstAvoiding(CapSubst(body, b, Var(f, 0)), x, v, avoid)))
  {
    WFIsComplete(v);
    assert b in Free(v);
  }

  /** `x⟦x/t⟧` is `t` and `y⟦x/t⟧` is `y`, whatever names the renaming avoids. */
  lemma SubstOnVariables(x: string, y: string, t: string, avoid: seq<string>)
    requires UntypedLexer.ValidName(x) && UntypedLexer.ValidName(y) && UntypedLexer.ValidName(t) && x != y
    ensures SubstAvoiding(Var(x, 0), x, Var(t, 0), avoid) == Var(t, 0)
    ensures SubstAvoiding(Var(y, 0), x, Var(t, 0), avoid) == Var(y, 0)
  {
    SubstVar(x, 0, x, Var(t, 0), avoid);
    ReparseVar(t, 0);
    SubstVar(y, 0, x, Var(t, 0), avoid);
  }

  /** `(λx.y)⟦x/t⟧` is `λx.y`: the binder shadows the target, so nothing is replaced or renamed. */
  lemma SubstShadowedTarget(x: string, y: string, t: string, avoid: seq<string>)
    requires UntypedLexer.ValidName(x) && UntypedLexer.ValidName(y) && UntypedLexer.ValidName(t) && x != y
    ensures SubstAvoiding(Abs(x, Var(y, 0)), x, Var(t, 0), avoid) == Abs(x, Var(y, 0))
  {
    ReparseAbsVar(x, y, 0);
  }

  /**
   * `(λx.x z)⟦z/x⟧` is `λf.f x`: the binder `x` is free in the value, so it is renamed to the fresh `f` before
   * `z` is replaced, and the substituted `x` stays free.
   */
  lemma SubstRenamesOperator(x: string, z: string, avoid: seq<string>)
    requires UntypedLexer.ValidName(x) && UntypedLexer.ValidName(z) && x != z
    ensures WF(Abs(x, App(Var(x, 1), Var(z, 0))))
    ensures
      var f := FreshName(Vars(Abs(x, App(Var(x, 1), Var(z, 0)))) + avoid);
      SubstAvoiding(Abs(x, App(Var(x, 1), Var(z, 0))), z, Var(x, 0), avoid) == Abs(f, App(Var(f, 1), Var(x, 0)))
  {
    var v := Var(x, 0);
    var body := App(Var(x, 1), Var(z, 0));
    var e := Abs(x, body);
    OperatorNames(x, z);
    assert FreeIn(x, v);
    var f, avoidant := Renaming(x, body, z, v, avoid);
    RenamedOperatorBody(x, z, f, avoid);
    ReparseRenamedOperator(f, x);
  }

  /** `λx.x z` is well formed, and both of its names occur in it. */
  lemma OperatorNames(x: string, z: string)
    requires UntypedLexer.ValidName(x) && UntypedLexer.ValidName(z)
    ensures WF(App(Var(x, 1), Var(z, 0))) && Complete(App(Var(x, 1), Var(z, 0))) && WF(Abs(x, App(Var(x, 1), Var(z, 0))))
    ensures OccursIn(x, Abs(x, App(Var(x, 1), Var(z, 0)))) && OccursIn(z, Abs(x, App(Var(x, 1), Var(z, 0))))
  {
    assert WF(Var(x, 1)) && WF(Var(z, 0)) && Complete(Var(x, 1)) && Complete(Var(z, 0));
    assert OccursIn(z, Var(z, 0)) && OccursIn(z, App(Var(x, 1), Var(z, 0)));
  }

  /** `λf.f x` reads back with `f` bound by the binder and `x` free. */
  lemma ReparseRenamedOperator(f: string, x: string)
    requires UntypedLexer.ValidName(f) && UntypedLexer.ValidName(x) && f != x
    ensures WF(Abs(f, App(Var(f, 0), Var(x, 0))))
    ensures Reparse(Abs(f, App(Var(f, 0), Var(x, 0)))) == Abs(f, App(Var(f, 1), Var(x, 0)))
  {
    var none: seq<string> := [];
    assert IndexIn(none, f) == 0 && none + [f] == [f];
    assert IndexIn([f], f) == 1 && IndexIn([f], x) == 0;
    assert SwapIn(map[], f) == f && SwapIn(map[], x) == x;
    assert Rebuild(App(Var(f, 0), Var(x, 0)), [f], map[]).0 == App(Var(f, 1), Var(x, 0));
  }

  /** Inside `λx.x z`, renaming `x` to `f` gives `f z`, and substituting `x` for `z` then gives `f x`. */
  lemma RenamedOperatorBody(x: string, z: string, f: string, avoid: seq<string>)
    requires UntypedLexer.ValidName(x) && UntypedLexer.ValidName(z) && UntypedLexer.ValidName(f)
    requires x != z && f != x && f != z
    ensures WF(App(Var(x, 1), Var(z, 0))) && WF(App(Var(f, 0), Var(z, 0)))
    ensures CapSubst(App(Var(x, 1), Var(z, 0)), x, Var(f, 0)) == App(Var(f, 0), Var(z, 0))
    ensures SubstAvoiding(App(Var(f, 0), Var(z, 0)), z, Var(x, 0), avoid) == App(Var(f, 0), Var(x, 0))
  {
    var v := Var(x, 0);
    CapSubstVar(x, 1, x, Var(f, 0));
    ReparseVar(f, 0);
    CapSubstVar(z, 0, x, Var(f, 0));
    var none: seq<string> := [];
    assert IndexIn(none, f) == 0 && IndexIn(none, z) == 0 && IndexIn(none, x) == 0;
    ReparseCanonical(App(Var(f, 0), Var(z, 0)));
    SubstVar(f, 0, z, v, avoid);
    SubstVar(z, 0, z, v, avoid);
    ReparseVar(x, 0);
    ReparseCanonical(App(Var(f, 0), Var(x, 0)));
  }

  /** `((λx.x z) (y z))⟦z/x⟧` is `(λf.f x) (y x)`: the operator's binder is renamed, and both `z` become the free `x`. */
  lemma SubstInApplication(x: string, y: string, z: string, avoid: seq<string>)
    requires UntypedLexer.ValidName(x) && UntypedLexer.ValidName(y) && UntypedLexer.ValidName(z)
    requires x != z && y != z
    ensures WF(Abs(x, App(Var(x, 1), Var(z, 0))))
    ensures
      var f := FreshName(Vars(Abs(x, App(Var(x, 1), Var(z, 0)))) + avoid);
      SubstAvoiding(App(Abs(x, App(Var(x, 1), Var(z, 0))), App(Var(y, 0), Var(z, 0))), z, Var(x, 0), avoid)
        == App(Abs(f, App(Var(f, 1), Var(x, 0))), App(Var(y, 0), Var(x, 0)))
  {
    var v := Var(x, 0);
    var f := FreshName(Vars(Abs(x, App(Var(x, 1), Var(z, 0)))) + avoid);
    SubstRenamesOperator(x, z, avoid);
    FreshNameSpec(Vars(Abs(x, App(Var(x, 1), Var(z, 0)))) + avoid);
    SubstVar(y, 0, z, v, avoid);
    SubstVar(z, 0, z, v, avoid);
    ReparseVar(x, 0);
    var none: seq<string> := [];
    assert IndexIn(none, y) == 0 && IndexIn(none, x) == 0;
    ReparseCanonical(App(Var(y, 0), Var(x, 0)));
    assert SubstAvoiding(App(Var(y, 0), Var(z, 0)), z, v, avoid) == App(Var(y, 0), Var(x, 0));
    assert none + [f] == [f] && IndexIn([f], f) == 1;
    assert f != x by { assert OccursIn(x, Abs(x, App(Var(x, 1), Var(z, 0)))); }
    assert IndexIn([f], x) == 0;
    var expected := App(Abs(f, App(Var(f, 1), Var(x, 0))), App(Var(y, 0), Var(x, 0)));
    assert Canonical(Abs(f, App(Var(f, 1), Var(x, 0))), none);
    ReparseCanonical(expected);
  }

  /**
   * The five `subst` cases of src/tests/untyped.test.ts:201-215, with the names as the parser reads them; each
   * holds as written and corrected.
   */
  lemma SubstExamples()
    ensures Subst(Var("x", 0), "x", Var("t", 0)) == Var("t", 0)
    ensures SubstCorrected(Var("x", 0), "x", Var("t", 0)) == Var("t", 0)
    ensures Subst(Var("y", 0), "x", Var("t", 0)) == Var("y", 0)
    ensures SubstCorrected(Var("y", 0), "x", Var("t", 0)) == Var("y", 0)
    ensures Subst(App(Abs("x", App(Var("x", 1), Var("z", 0))), App(Var("y", 0), Var("z", 0))), "z", Var("x", 0))
         == App(Abs("f0", App(Var("f0", 1), Var("x", 0))), App(Var("y", 0), Var("x", 0)))
    ensures SubstCorrected(App(Abs("x", App(Var("x", 1), Var("z", 0))), App(Var("y", 0), Var("z", 0))), "z", Var("x", 0))
         == App(Abs("f0", App(Var("f0", 1), Var("x", 0))), App(Var("y", 0), Var("x", 0)))
    ensures Subst(Abs("x", Var("y", 0)), "x", Var("t", 0)) == Abs("x", Var("y", 0))
    ensures SubstCorrected(Abs("x", Var("y", 0)), "x", Var("t", 0)) == Abs("x", Var("y", 0))
    ensures Subst(Abs("x", Var("y", 0)), "y", Var("x", 0)) == Abs("f0", Var("x", 0))
    ensures SubstCorrected(Abs("x", Var("y", 0)), "y", Var("x", 0)) == Abs("f0", Var("x", 0))
  {
    ExampleNamesValid();
    assert UntypedLexer.ValidName("z") && UntypedLexer.ValidName("t");
    assert "x" != "y" && "x" != "z" && "y" != "z" by {
      assert "x"[0] != "y"[0] && "x"[0] != "z"[0] && "y"[0] != "z"[0];
    }
    VarsOfVar("t", 0);
    VarsOfVar("x", 0);
    SubstOnVariables("x", "y", "t", []);
    SubstOnVariables("x", "y", "t", ["t", "x"]);
    SubstShadowedTarget("x", "y", "t", []);
    SubstShadowedTarget("x", "y", "t", ["t", "x"]);
    SubstApplicationExample();
    SubstAvoidsCapture(Abs("x", Var("y", 0)));
  }

  /** The application case of the `subst` tests, where the fresh name is `f0` for both variants. */
  lemma SubstApplicationExample()
    ensures WF(Abs("x", App(Var("x", 1), Var("z", 0))))
    ensures Subst(App(Abs("x", App(Var("x", 1), Var("z", 0))), App(Var("y", 0), Var("z", 0))), "z", Var("x", 0))
         == App(Abs("f0", App(Var("f0", 1), Var("x", 0))), App(Var("y", 0), Var("x", 0)))
    ensures SubstCorrected(App(Abs("x", App(Var("x", 1), Var("z", 0))), App(Var("y", 0), Var("z", 0))), "z", Var("x", 0))
         == App(Abs("f0", App(Var("f0", 1), Var("x", 0))), App(Var("y", 0), Var("x", 0)))
  {
    ExampleNamesValid();
    assert UntypedLexer.ValidName("z");
    assert "x" != "y" && "x" != "z" && "y" != "z" by {
      assert "x"[0] != "y"[0] && "x"[0] != "z"[0] && "y"[0] != "z"[0];
    }
    var a := Abs("x", App(Var("x", 1), Var("z", 0)));
    assert "x" != "f0" && "z" != "f0";
    assert !OccursIn("f0", Var("x", 1)) && !OccursIn("f0", Var("z", 0));
    assert !OccursIn("f0", a);
    assert OccursIn("x", a) && OccursIn("z", a);
    FirstFreshName(Vars(a) + [], a);
    VarsOfVar("x", 0);
    FirstFreshName(Vars(a) + (Vars(Var("x", 0)) + ["z"]), a);
    SubstInApplication("x", "y", "z", []);
    SubstInApplication("x", "y", "z", Vars(Var("x", 0)) + ["z"]);
  }

  /**
   * `subst(λx.x, t, x)`: `x` is free in the value, so the binder is renamed to the fresh name `f`. When `f` is the
   * target `t`, the renamed variable is itself replaced, and the closed identity becomes `λf.x`, with `x` free.
   */
  lemma SubstRenamedIdentity(x: string, k: nat, t: string, avoid: seq<string>)
    requires UntypedLexer.ValidName(x) && x != t
    ensures
      var f := FreshName(Vars(Abs(x, Var(x, k))) + avoid);
      SubstAvoiding(Abs(x, Var(x, k)), t, Var(x, 0), avoid) == if f == t then Abs(f, Var(x, 0)) else Abs(f, Var(f, 1))
  {
    var e := Abs(x, Var(x, k));
    var f := FreshName(Vars(e) + avoid);
    FreshNameSpec(Vars(e) + avoid);
    assert OccursIn(x, e);
    SubstRenames(x, Var(x, k), t, Var(x, 0), avoid);
    CapSubstVar(x, k, x, Var(f, 0));
    ReparseVar(f, 0);
    SubstVar(f, 0, t, Var(x, 0), avoid);
    ReparseVar(x, 0);
    if f == t {
      ReparseAbsVar(f, x, 0);
    } else {
      ReparseAbsVar(f, f, 0);
    }
  }

  /** `subst(λy.x, x, y)`: the binder is renamed to the fresh name `f`, so the substituted `y` stays free. */
  lemma SubstRenamedConstant(y: string, x: string, k: nat, avoid: seq<string>)
    requires UntypedLexer.ValidName(x) && UntypedLexer.ValidName(y) && x != y
    ensures
      var f := FreshName(Vars(Abs(y, Var(x, k))) + avoid);
      SubstAvoiding(Abs(y, Var(x, k)), x, Var(y, 0), avoid) == Abs(f, Var(y, 0))
  {
    var e := Abs(y, Var(x, k));
    var f := FreshName(Vars(e) + avoid);
    FreshNameSpec(Vars(e) + avoid);
    assert OccursIn(y, e);
    SubstRenames(y, Var(x, k), x, Var(y, 0), avoid);
    CapSubstVar(x, k, y, Var(f, 0));
    SubstVar(x, 0, x, Var(y, 0), avoid);
    ReparseVar(y, 0);
    ReparseAbsVar(f, y, 0);
  }

  /**
   * `subst(λx.x, f0, x)` as written: the binder is renamed to `fresh(vars(λx.x))`, which is `f0`, the target
   * itself. The closed `λx.x` becomes `λf0.x`, with `x` free although the target `f0` does not occur in `λx.x`.
   * Evaluating `(λf0.λx.x) x` takes this step.
   */
  lemma SubstTargetCollision(e: Term)
    requires e == Abs("x", Var("x", 1))
    ensures Subst(e, "f0", Var("x", 0)) == Abs("f0", Var("x", 0))
    ensures !FreeIn("x", e) && !FreeIn("f0", e) && FreeIn("x", Subst(e, "f0", Var("x", 0)))
  {
    ExampleNamesValid();
    assert "x" != "f0";
    FirstFreshName(Vars(e) + [], e);
    SubstRenamedIdentity("x", 1, "f0", []);
  }

  /** `SubstCorrected(λx.x, f0, x)` renames the binder to `f1` instead, and stays the closed `λf1.f1`. */
  lemma SubstCorrectedNoCollision(e: Term)
    requires e == Abs("x", Var("x", 1))
    ensures SubstCorrected(e, "f0", Var("x", 0)) == Abs("f1", Var("f1", 1))
  {
    ExampleNamesValid();
    assert "x" != "f0" && "f1" != "f0" by { assert "f0"[1] != "f1"[1]; }
    assert FreshName(Vars(e) + ["x", "f0"]) == "f1" by {
      SecondFreshName(Vars(e) + ["x", "f0"], e);
    }
    CorrectedIdentity("x", 1, "f0", "f1");
  }

  /** The corrected substitution into `λx.x` renames the binder to a fresh `f` other than the target, and the term stays closed. */
  lemma CorrectedIdentity(x: string, k: nat, t: string, f: string)
    requires UntypedLexer.ValidName(x) && x != t
    requires f == FreshName(Vars(Abs(x, Var(x, k))) + [x, t]) && f != t
    ensures SubstCorrected(Abs(x, Var(x, k)), t, Var(x, 0)) == Abs(f, Var(f, 1))
  {
    VarsOfVar(x, 0);
    assert Vars(Var(x, 0)) + [t] == [x, t];
    SubstRenamedIdentity(x, k, t, [x, t]);
  }

  /** `subst(λx.y, y, x)` renames the binder, so the substituted `x` stays free: `λf0.x`, as written and corrected. */
  lemma SubstAvoidsCapture(e: Term)
    requires e == Abs("x", Var("y", 0))
    ensures Subst(e, "y", Var("x", 0)) == Abs("f0", Var("x", 0))
    ensures SubstCorrected(e, "y", Var("x", 0)) == Abs("f0", Var("x", 0))
  {
    ExampleNamesValid();
    assert "x" != "y" by { assert "x"[0] != "y"[0]; }
    assert "x" != "f0" && "y" != "f0";
    RenamedConstantFirst("x", "y", []);
    CorrectedConstantFirst("x", "y");
  }

  /** The corrected `subst(λb.t, t, b)` when `f0` is neither name: the binder becomes `f0` here too. */
  lemma CorrectedConstantFirst(b: string, t: string)
    requires UntypedLexer.ValidName(b) && UntypedLexer.ValidName(t) && b != t && b != "f0" && t != "f0"
    ensures SubstCorrected(Abs(b, Var(t, 0)), t, Var(b, 0)) == Abs("f0", Var(b, 0))
  {
    VarsOfVar(b, 0);
    RenamedConstantFirst(b, t, Vars(Var(b, 0)) + [t]);
  }

  /** `subst(λb.t, t, b)` when `f0` is not among the names: the binder becomes `f0`, and the substituted `b` stays free. */
  lemma RenamedConstantFirst(b: string, t: string, avoid: seq<string>)
    requires UntypedLexer.ValidName(b) && UntypedLexer.ValidName(t) && b != t && b != "f0" && t != "f0"
    requires forall n :: n in avoid ==> n == b || n == t
    ensures SubstAvoiding(Abs(b, Var(t, 0)), t, Var(b, 0), avoid) == Abs("f0", Var(b, 0))
  {
    var e := Abs(b, Var(t, 0));
    assert OccursIn(t, Var(t, 0)) && !OccursIn("f0", Var(t, 0));
    assert OccursIn(b, e) && OccursIn(t, e) && !OccursIn("f0", e);
    FirstFreshName(Vars(e) + avoid, e);
    SubstRenamedConstant(b, t, 0, avoid);
  }

  /** When `f0` occurs neither in `e` nor among the other names, it is the fresh name. */
  lemma FirstFreshName(used: seq<string>, e: Term)
    requires Complete(e) && !OccursIn("f0", e)
    requires forall n :: n in used ==> OccursIn(n, e)
    ensures FreshName(used) == "f0"
  {
    assert Candidate(0) == "f0" by { assert Utils.DigitChar(0) == '0'; }
  }

  /** When `f0` is taken but `f1` occurs neither in `e` nor among the other names, `f1` is the fresh name. */
  lemma SecondFreshName(used: seq<string>, e: Term)
    requires Complete(e) && "f0" in used && !OccursIn("f1", e)
    requires forall n :: n in used ==> OccursIn(n, e) || n == "x" || n == "f0"
    ensures FreshName(used) == "f1"
  {
    assert Candidate(0) == "f0" by { assert Utils.DigitChar(0) == '0'; }
    assert Candidate(1) == "f1" by { assert Utils.DigitChar(1) == '1'; }
    assert "f1" != "x" && "f1" != "f0" by { assert "f0"[1] != "f1"[1]; }
    assert FirstFreeFrom(used, 1) == 1;
  }

  /** The names of the examples above are identifiers. */
  lemma ExampleNamesValid()
    ensures UntypedLexer.ValidName("x") && UntypedLexer.ValidName("y")
    ensures UntypedLexer.ValidName("f0") && UntypedLexer.ValidName("f1")
  {
  }

  lemma VarsOfVar(n: string, k: nat)
    ensures Vars(Var(n, k)) == [n] && Free(Var(n, k)) == [n]
  {
    DedupDistinct([n]);
  }

  /**
   * `evalOnce(expr)`: a redex at the root is contracted; otherwise every child takes one step. The contraction
   * substitutes with `subst` as written, or with the corrected substitution when `corrected` holds.
   */
  function EvalOnce(e: Term, corrected: bool): (r: Term)
    requires WF(e)
    ensures WF(r) && Canonical(r, [])
  {
    var temp := (
      match e
      case App(l, rt) =>
        if l.Abs? then assert WF(l) && WF(l.body); SubstBy(corrected, l.body, l.binding, rt)
        else App(EvalOnce(l, corrected), EvalOnce(rt, corrected))
      case Abs(b, body) => Abs(b, EvalOnce(body, corrected))
      case Var(_, _) => e);
    Reparse(temp)
  }

  /** At a redex, `evalOnce` is the substitution of the argument for the binder in the body. */
  lemma EvalOnceRedex(b: string, body: Term, a: Term, corrected: bool)
    requires UntypedLexer.ValidName(b) && WF(body) && WF(a)
    ensures EvalOnce(App(Abs(b, body), a), corrected) == SubstBy(corrected, body, b, a)
  {
    ReparseCanonical(SubstBy(corrected, body, b, a));
  }

  /** A variable is already a value: one step frees it (index 0) and changes nothing else. */
  lemma EvalOnceVar(n: string, k: nat, corrected: bool)
    requires WF(Var(n, k))
    ensures EvalOnce(Var(n, k), corrected) == Var(n, 0)
  {
    ReparseVar(n, k);
  }

  /** A step of `evalOnce`, as written or corrected, brings in no free name. */
  lemma {:induction false} EvalOnceFreeFrom(y: string, e: Term, corrected: bool)
    requires WF(e)
    ensures FreeIn(y, EvalOnce(e, corrected)) ==> FreeIn(y, e)
  {
    if FreeIn(y, EvalOnce(e, corrected)) {
      match e
      case Var(_, _) =>
        ReparseFreeFrom(y, e);
      case App(l, rt) =>
        if l.Abs? {
          assert WF(l) && WF(l.body);
          ReparseFreeFrom(y, SubstBy(corrected, l.body, l.binding, rt));
          SubstByFreeFrom(y, corrected, l.body, l.binding, rt);
        } else {
          ReparseFreeFrom(y, App(EvalOnce(l, corrected), EvalOnce(rt, corrected)));
          EvalOnceFreeFrom(y, l, corrected);
          EvalOnceFreeFrom(y, rt, corrected);
        }
      case Abs(b, body) =>
        ReparseFreeFrom(y, Abs(b, EvalOnce(body, corrected)));
        EvalOnceFreeFrom(y, body, corrected);
    }
  }

  /**
   * `evalOnce((λf0.λx.x) x)`: the closed function applied to `x` should give a closed term. As written the step
   * gives `λf0.x`, with `x` free (`SubstTargetCollision`); the corrected step gives `λf1.f1`.
   */
  lemma EvalOnceTargetCollision(e: Term)
    requires e == App(Abs("f0", Abs("x", Var("x", 1))), Var("x", 0))
    ensures EvalOnce(e, false) == Abs("f0", Var("x", 0))
    ensures EvalOnce(e, true) == Abs("f1", Var("f1", 1))
  {
    ExampleNamesValid();
    var body := Abs("x", Var("x", 1));
    EvalOnceRedex("f0", body, Var("x", 0), false);
    EvalOnceRedex("f0", body, Var("x", 0), true);
    SubstTargetCollision(body);
    SubstCorrectedNoCollision(body);
  }
}
