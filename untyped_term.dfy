/**
 * The abstract syntax of the untyped λ-calculus (src/untyped.ts:86-148): identifiers carry their name and
 * de Bruijn index (0 = free), abstractions their binder name, and applications their two sides. `Missing`
 * stands for the JavaScript `undefined` that the parser's `application` can put where a term was expected.
 */
module UntypedTerm {
  import Utils
  import UntypedLexer

  datatype Term =
    | Var(name: string, index: nat)
    | Abs(binding: string, body: Term)
    | App(left: Term, right: Term)
    | Missing

  /** No `undefined` anywhere: the engine and the de Bruijn printer would throw on one. */
  predicate Complete(t: Term) {
    match t
    case Var(_, _) => true
    case Abs(_, body) => Complete(body)
    case App(l, r) => Complete(l) && Complete(r)
    case Missing => false
  }

  /** Complete, and every name (of a variable or a binder) is an identifier of the untyped rule table. */
  predicate WF(t: Term) {
    match t
    case Var(n, _) => UntypedLexer.ValidName(n)
    case Abs(b, body) => UntypedLexer.ValidName(b) && WF(body)
    case App(l, r) => WF(l) && WF(r)
    case Missing => false
  }

  lemma {:induction false} WFIsComplete(t: Term)
    requires WF(t)
    ensures Complete(t)
  {
    match t
    case Var(_, _) =>
    case Abs(_, body) => WFIsComplete(body);
    case App(l, r) => WFIsComplete(l); WFIsComplete(r);
  }

  function Size(t: Term): (n: nat)
    ensures n >= 1
  {
    match t
    case Abs(_, body) => 1 + Size(body)
    case App(l, r) => 1 + Size(l) + Size(r)
    case _ => 1
  }

  /** The same tree of variables, abstractions and applications, whatever the names and indices. */
  predicate SameShape(a: Term, b: Term) {
    match (a, b)
    case (Var(_, _), Var(_, _)) => true
    case (Abs(_, x), Abs(_, y)) => SameShape(x, y)
    case (App(l1, r1), App(l2, r2)) => SameShape(l1, l2) && SameShape(r1, r2)
    case (Missing, Missing) => true
    case _ => false
  }

  lemma {:induction false} SameShapeSize(a: Term, b: Term)
    requires SameShape(a, b)
    ensures Size(a) == Size(b)
  {
    match (a, b)
    case (Var(_, _), Var(_, _)) =>
    case (Abs(_, x), Abs(_, y)) => SameShapeSize(x, y);
    case (App(l1, r1), App(l2, r2)) => SameShapeSize(l1, l2); SameShapeSize(r1, r2);
    case (Missing, Missing) =>
  }

  lemma {:induction false} SameShapeTransitive(a: Term, b: Term, c: Term)
    requires SameShape(a, b) && SameShape(b, c)
    ensures SameShape(a, c)
  {
    match (a, b, c)
    case (Abs(_, x), Abs(_, y), Abs(_, z)) => SameShapeTransitive(x, y, z);
    case (App(l1, r1), App(l2, r2), App(l3, r3)) => SameShapeTransitive(l1, l2, l3); SameShapeTransitive(r1, r2, r3);
    case _ =>
  }

  /** The left operand of an application prints in parentheses exactly when it is an abstraction. */
  function LeftShow(l: Term): string
    decreases l, 2
  {
    if l.Abs? then "(" + Show(l) + ")" else Show(l)
  }

  /** The right operand of an application prints in parentheses unless it is an identifier. */
  function RightShow(r: Term): string
    decreases r, 2
  {
    if r.Var? then Show(r) else "(" + Show(r) + ")"
  }

  /** `toString()`: the named notation; a nested `undefined` prints as the text "undefined". */
  function Show(t: Term): string
    decreases t, 1
  {
    match t
    case Var(n, _) => n
    case Abs(b, body) => "λ" + b + "." + Show(body)
    case App(l, r) => LeftShow(l) + " " + RightShow(r)
    case Missing => "undefined"
  }

  /** `toDeBruijnString()`: bound variables print as their index, free ones by name, binders as a bare `λ`. */
  function ShowDeBruijn(t: Term): string
    requires Complete(t)
  {
    match t
    case Var(n, k) => if k != 0 then Utils.NatToString(k) else n
    case Abs(_, body) => "λ " + ShowDeBruijn(body)
    case App(l, r) =>
      (if l.Abs? then "(" + ShowDeBruijn(l) + ")" else ShowDeBruijn(l))
      + " "
      + (if r.Var? then ShowDeBruijn(r) else "(" + ShowDeBruijn(r) + ")")
  }

  /**
   * `equals(n1, n2)`: α-equivalence on indexed terms. Two free variables agree by name, bound ones by index;
   * binder names are ignored; an `undefined` equals nothing.
   */
  function Equals(n1: Term, n2: Term): (r: bool)
    ensures r ==> Complete(n1) && Complete(n2) && SameShape(n1, n2)
  {
    match (n1, n2)
    case (Var(x, i), Var(y, j)) => if i == 0 && j == 0 then x == y else i == j
    case (App(l1, r1), App(l2, r2)) => Equals(l1, l2) && Equals(r1, r2)
    case (Abs(_, b1), Abs(_, b2)) => Equals(b1, b2)
    case _ => false
  }

  lemma {:induction false} EqualsReflexive(t: Term)
    requires Complete(t)
    ensures Equals(t, t)
  {
    match t
    case Var(_, _) =>
    case Abs(_, body) => EqualsReflexive(body);
    case App(l, r) => EqualsReflexive(l); EqualsReflexive(r);
  }

  lemma {:induction false} EqualsSymmetric(a: Term, b: Term)
    ensures Equals(a, b) == Equals(b, a)
  {
    match (a, b)
    case (App(l1, r1), App(l2, r2)) => EqualsSymmetric(l1, l2); EqualsSymmetric(r1, r2);
    case (Abs(_, x), Abs(_, y)) => EqualsSymmetric(x, y);
    case _ =>
  }

  lemma {:induction false} EqualsTransitive(a: Term, b: Term, c: Term)
    requires Equals(a, b) && Equals(b, c)
    ensures Equals(a, c)
  {
    match (a, b, c)
    case (App(l1, r1), App(l2, r2), App(l3, r3)) => EqualsTransitive(l1, l2, l3); EqualsTransitive(r1, r2, r3);
    case (Abs(_, x), Abs(_, y), Abs(_, z)) => EqualsTransitive(x, y, z);
    case (Var(_, _), Var(_, _), Var(_, _)) =>
  }

  /** α-equivalent terms have the same de Bruijn notation. */
  lemma {:induction false} EqualsSameDeBruijn(a: Term, b: Term)
    requires Equals(a, b)
    ensures ShowDeBruijn(a) == ShowDeBruijn(b)
  {
    match (a, b)
    case (Var(_, _), Var(_, _)) =>
    case (App(l1, r1), App(l2, r2)) => EqualsSameDeBruijn(l1, l2); EqualsSameDeBruijn(r1, r2);
    case (Abs(_, x), Abs(_, y)) => EqualsSameDeBruijn(x, y);
  }

  /** Renaming a binder never changes α-equivalence: `λx.x` equals `λy.y`. */
  lemma BinderNamesIgnored(x: string, y: string, body: Term)
    requires Complete(body)
    ensures Equals(Abs(x, body), Abs(y, body))
  {
    EqualsReflexive(body);
  }

  /** `λx.λy.x y` equals `λy.λx.y x` once indexed (both are `λ λ 2 1`), while the free `x` and `y` differ. */
  lemma EqualsExamples(a: Term, b: Term)
    requires a == Abs("x", Abs("y", App(Var("x", 2), Var("y", 1))))
    requires b == Abs("y", Abs("x", App(Var("y", 2), Var("x", 1))))
    ensures Equals(a, b) && !Equals(Var("x", 0), Var("y", 0))
  {
    assert "x" != "y" by { assert "x"[0] != "y"[0]; }
  }
}
