/**
 * `parse(tokenize(ret.toString()))`, the normalisation step that closes `capSubst`, `subst` and `evalOnce`
 * (src/untyped.ts:284, 302, 317). Printing a well-formed term and reading it back never fails, and what comes
 * back is `Rebuild(t, [], map[])`: fresh de Bruijn indices, and every binder that shadows one around it renamed.
 */
module Reparsing {
  import opened Wrappers
  import opened UntypedTerm
  import UntypedLexer
  import UntypedParser
  import opened ShowLexing
  import opened ShowParsing
  import opened Rebuilding
  import opened ParserBase
  import Utils
  import FreshNames
  import opened TermNames

  /** The term read back from the printed text of `t`. */
  function Reparse(t: Term): (r: Term)
    requires WF(t)
    ensures r == Rebuild(t, [], map[]).0
    ensures WF(r) && Canonical(r, []) && SameShape(t, r)
  {
    TokenizeShow(t);
    ParseToks(t);
    RebuildWF(t, [], map[]);
    WFIsComplete(t);
    RebuildCanonical(t, [], map[]);
    var tokens := UntypedLexer.TokenizeSpec(Show(t)).value;
    UntypedParser.ParseSpec(tokens).value
  }

  /** A term already in the parser's form reads back as itself. */
  lemma ReparseCanonical(t: Term)
    requires WF(t) && Canonical(t, [])
    ensures Reparse(t) == t
  {
    CanonicalIsFixed(t, []);
  }

  /** Reading back twice is reading back once. */
  lemma ReparseIdempotent(t: Term)
    requires WF(t)
    ensures Reparse(Reparse(t)) == Reparse(t)
  {
    ReparseCanonical(Reparse(t));
  }

  /** Reading back invents no free name. */
  lemma ReparseFreeFrom(x: string, t: Term)
    requires WF(t) && FreeIn(x, Reparse(t))
    ensures FreeIn(x, t)
  {
    RebuildFreeFrom(x, t, [], map[]);
  }

  /** Reading back keeps every free name that does not look like a fresh name `f<k>`. */
  lemma ReparseKeepsFree(x: string, t: Term)
    requires WF(t) && FreeIn(x, t) && !FreshLike(x)
    ensures FreeIn(x, Reparse(t))
  {
    RebuildKeepsFree(x, t, [], map[]);
  }

  /** `λx.λy.x y` reads back with de Bruijn text `λ λ 2 1`. */
  lemma DeBruijnOfNested(t: Term)
    requires t == Abs("x", Abs("y", App(Var("x", 0), Var("y", 0))))
    ensures Show(t) == "λx.λy.x y" && ShowDeBruijn(Reparse(t)) == "λ λ 2 1"
  {
    NestedShown(t);
    NestedRebuilt(t);
    NestedDeBruijn(Abs("x", Abs("y", App(Var("x", 2), Var("y", 1)))));
  }

  lemma NestedShown(t: Term)
    requires t == Abs("x", Abs("y", App(Var("x", 0), Var("y", 0))))
    ensures Show(t) == "λx.λy.x y"
  {
    assert Show(t.body.body) == "x" + " " + "y" == "x y";
    assert Show(t.body) == "λ" + "y" + "." + "x y" == "λy.x y";
    assert Show(t) == "λ" + "x" + "." + "λy.x y" == "λx.λy.x y";
  }

  lemma NestedDeBruijn(r: Term)
    requires r == Abs("x", Abs("y", App(Var("x", 2), Var("y", 1))))
    ensures ShowDeBruijn(r) == "λ λ 2 1"
  {
    SmallNumerals();
    var app := App(Var("x", 2), Var("y", 1));
    assert ShowDeBruijn(Var("x", 2)) == "2" && ShowDeBruijn(Var("y", 1)) == "1";
    assert ShowDeBruijn(app) == "2" + " " + "1" == "2 1";
    assert ShowDeBruijn(Abs("y", app)) == "λ " + "2 1" == "λ 2 1";
    assert ShowDeBruijn(r) == "λ " + "λ 2 1" == "λ λ 2 1";
  }

  lemma NestedRebuilt(t: Term)
    requires t == Abs("x", Abs("y", App(Var("x", 0), Var("y", 0))))
    ensures Rebuild(t, [], map[]).0 == Abs("x", Abs("y", App(Var("x", 2), Var("y", 1))))
  {
    assert IndexIn(["x", "y"], "x") == 2;
    assert IndexIn(["x", "y"], "y") == 1;
    assert Rebuild(App(Var("x", 0), Var("y", 0)), ["x", "y"], map[]).0 == App(Var("x", 2), Var("y", 1));
    assert [] + ["x"] == ["x"] && ["x"] + ["y"] == ["x", "y"];
    assert IndexIn([], "x") == 0 && IndexIn(["x"], "y") == 0;
  }

  lemma SmallNumerals()
    ensures Utils.NatToString(1) == "1" && Utils.NatToString(2) == "2"
  {
    assert Utils.DigitChar(1) == '1' && Utils.DigitChar(2) == '2';
  }

  /** `(λx.x z) x` reads back with de Bruijn text `(λ 1 z) x`: free variables keep their names. */
  lemma DeBruijnOfFree(t: Term)
    requires t == App(Abs("x", App(Var("x", 0), Var("z", 0))), Var("x", 0))
    ensures Show(t) == "(λx.x z) x" && ShowDeBruijn(Reparse(t)) == "(λ 1 z) x"
  {
    FreeShown(t);
    FreeRebuilt(t);
    FreeDeBruijn(App(Abs("x", App(Var("x", 1), Var("z", 0))), Var("x", 0)));
  }

  lemma FreeShown(t: Term)
    requires t == App(Abs("x", App(Var("x", 0), Var("z", 0))), Var("x", 0))
    ensures Show(t) == "(λx.x z) x"
  {
    assert Show(t.left.body) == "x" + " " + "z" == "x z";
    assert Show(t.left) == "λ" + "x" + "." + "x z" == "λx.x z";
    assert Show(t) == "(" + "λx.x z" + ")" + " " + "x" == "(λx.x z) x";
  }

  lemma FreeDeBruijn(r: Term)
    requires r == App(Abs("x", App(Var("x", 1), Var("z", 0))), Var("x", 0))
    ensures ShowDeBruijn(r) == "(λ 1 z) x"
  {
    SmallNumerals();
    var app := App(Var("x", 1), Var("z", 0));
    assert ShowDeBruijn(Var("x", 1)) == "1" && ShowDeBruijn(Var("z", 0)) == "z";
    assert ShowDeBruijn(app) == "1" + " " + "z" == "1 z";
    assert ShowDeBruijn(Abs("x", app)) == "λ " + "1 z" == "λ 1 z";
    assert ShowDeBruijn(r) == "(" + "λ 1 z" + ")" + " " + "x" == "(λ 1 z) x";
  }

  lemma FreeRebuilt(t: Term)
    requires t == App(Abs("x", App(Var("x", 0), Var("z", 0))), Var("x", 0))
    ensures Rebuild(t, [], map[]).0 == App(Abs("x", App(Var("x", 1), Var("z", 0))), Var("x", 0))
  {
    assert IndexIn(["x"], "x") == 1;
    assert IndexIn(["x"], "z") == 0;
    assert Rebuild(App(Var("x", 0), Var("z", 0)), ["x"], map[]) == (App(Var("x", 1), Var("z", 0)), map[]);
    assert [] + ["x"] == ["x"];
    assert IndexIn([], "x") == 0;
  }

  /**
   * `λx.λx.(λx.x) x`: the inner binders become `f0` and `f1`, and leaving `λf1` removes the swap for `x`
   * altogether, so the last `x`, bound by the middle binder as written, is read as the outermost one (index 2).
   */
  lemma ShadowedSwapDropped(t: Term)
    requires t == Abs("x", Abs("x", App(Abs("x", Var("x", 0)), Var("x", 0))))
    ensures Reparse(t) == Abs("x", Abs("f0", App(Abs("f1", Var("f1", 1)), Var("x", 2))))
  {
    FreshOfTaken();
    assert [] + ["x"] == ["x"] && ["x"] + ["f0"] == ["x", "f0"] && ["x", "f0"] + ["f1"] == ["x", "f0", "f1"];
    assert map[]["x" := "f0"] == map["x" := "f0"] && map["x" := "f0"]["x" := "f1"] == map["x" := "f1"];
    assert IndexIn([], "x") == 0;
    assert IndexIn(["x"], "x") == 1;
    assert IndexIn(["x", "f0"], "x") == 2;
    assert IndexIn(["x", "f0", "f1"], "f1") == 1;
    var inner := Rebuild(Var("x", 0), ["x", "f0", "f1"], map["x" := "f1"]);
    assert inner == (Var("f1", 1), map["x" := "f1"]);
    var left := Rebuild(Abs("x", Var("x", 0)), ["x", "f0"], map["x" := "f0"]);
    assert left == (Abs("f1", Var("f1", 1)), map[]);
    var right := Rebuild(Var("x", 0), ["x", "f0"], map[]);
    assert right == (Var("x", 2), map[]);
    var app := Rebuild(App(Abs("x", Var("x", 0)), Var("x", 0)), ["x", "f0"], map["x" := "f0"]);
    assert app == (App(left.0, right.0), map[]);
    assert Rebuild(Abs("x", App(Abs("x", Var("x", 0)), Var("x", 0))), ["x"], map[]).0 == Abs("f0", app.0);
  }

  /** The first fresh names past `x`: `f0`, then `f1` once `f0` is taken. */
  lemma FreshOfTaken()
    ensures FreshNames.FreshName(["x"]) == "f0" && FreshNames.FreshName(["x", "f0"]) == "f1"
  {
    assert FreshNames.Candidate(0) == "f0" && FreshNames.Candidate(1) == "f1";
    assert FreshNames.FirstFreeFrom(["x"], 0) == 0;
    assert FreshNames.FirstFreeFrom(["x", "f0"], 1) == 1;
  }

  /** `λx.λx.f0`: the renamed binder is `f0`, which captures the free `f0` of the body. */
  lemma FreshNameCaptures(t: Term)
    requires t == Abs("x", Abs("x", Var("f0", 0)))
    ensures Reparse(t) == Abs("x", Abs("f0", Var("f0", 1)))
  {
    FreshOfTaken();
    assert [] + ["x"] == ["x"] && ["x"] + ["f0"] == ["x", "f0"];
    assert map[]["x" := "f0"] == map["x" := "f0"];
    assert IndexIn([], "x") == 0;
    assert IndexIn(["x"], "x") == 1;
    assert IndexIn(["x", "f0"], "f0") == 1;
    assert Rebuild(Var("f0", 0), ["x", "f0"], map["x" := "f0"]) == (Var("f0", 1), map["x" := "f0"]);
    assert Rebuild(Abs("x", Var("f0", 0)), ["x"], map[]).0 == Abs("f0", Var("f0", 1));
  }

  /** As written, `λx.λx.(λx.x) x` reads back with its last `x` bound to a different binder than in the text. */
  lemma ShadowedSwapMisreads(t: Term)
    requires t == Abs("x", Abs("x", App(Abs("x", Var("x", 0)), Var("x", 0))))
    ensures !Equals(Reparse(t), Scoped(t, []))
  {
    ShadowedSwapDropped(t);
    var app := App(Abs("x", Var("x", 0)), Var("x", 0));
    assert [] + ["x"] == ["x"] && ["x"] + ["x"] == ["x", "x"];
    assert IndexIn(["x", "x"], "x") == 1;
    assert Scoped(Var("x", 0), ["x", "x"]) == Var("x", 1);
    assert Scoped(app, ["x", "x"]).right == Var("x", 1);
    assert Scoped(Abs("x", app), ["x"]).body == Scoped(app, ["x", "x"]);
    assert Scoped(t, []).body == Scoped(Abs("x", app), ["x"]);
  }

  /** As written, `λx.λx.f0` reads back with its free `f0` bound by the renamed binder. */
  lemma FreshNameMisreads(t: Term)
    requires t == Abs("x", Abs("x", Var("f0", 0)))
    ensures !Equals(Reparse(t), Scoped(t, []))
  {
    FreshNameCaptures(t);
    assert ["x"] + ["x"] == ["x", "x"];
    assert IndexIn(["x", "x"], "f0") == 0 by { assert "f0"[0] != "x"[0]; }
    assert Scoped(t, []).body.body == Var("f0", 0);
  }
}
