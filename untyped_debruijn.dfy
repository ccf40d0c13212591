/**
 * Reading the de Bruijn notation back (src/untyped.ts:96-132): the printout of `toDeBruijnString()` fixes
 * a well-formed term up to `equals`, so `equals` and equal de Bruijn strings are the same thing.
 *
 * The proof reads a printout from the left. A term that is not an abstraction is an application spine: a
 * head (an identifier, or an abstraction in parentheses) followed by arguments, each a space and then an
 * identifier or a parenthesised term. Identifiers and indices are runs of word characters, so each piece
 * ends where the next space, `)` or the end of the text begins.
 */
module DeBruijnText {
  import Utils
  import Tokenizer
  import UntypedLexer
  import opened UntypedTerm

  /** What may follow a whole term in a printout: nothing, or the `)` that closes it. */
  predicate Stop(s: string) {
    |s| == 0 || s[0] == ')'
  }

  /** What may follow a head or an argument: the end of the term, or the space before the next argument. */
  predicate StopOrSpace(s: string) {
    Stop(s) || s[0] == ' '
  }

  /** The leftmost term of an application spine. */
  function Head(t: Term): (h: Term)
    ensures !h.App?
  {
    if t.App? then Head(t.left) else t
  }

  /** The arguments of an application spine, leftmost first. */
  function Args(t: Term): seq<Term> {
    if t.App? then Args(t.left) + [t.right] else []
  }

  function SumSize(xs: seq<Term>): nat {
    if |xs| == 0 then 0 else SumSize(xs[..|xs| - 1]) + Size(xs[|xs| - 1])
  }

  predicate AllWF(xs: seq<Term>) {
    forall i :: 0 <= i < |xs| ==> WF(xs[i]) && Complete(xs[i])
  }

  /** A term in the position of an application's left side: an abstraction is parenthesised. */
  function LeftText(t: Term): string
    requires Complete(t)
  {
    if t.Abs? then "(" + ShowDeBruijn(t) + ")" else ShowDeBruijn(t)
  }

  /** A term in the position of an application's right side: anything but an identifier is parenthesised. */
  function RightText(t: Term): string
    requires Complete(t)
  {
    if t.Var? then ShowDeBruijn(t) else "(" + ShowDeBruijn(t) + ")"
  }

  /** The arguments of a spine as printed: each one after a space. */
  function ArgsText(xs: seq<Term>): string
    requires AllWF(xs)
  {
    if |xs| == 0 then "" else ArgsText(xs[..|xs| - 1]) + " " + RightText(xs[|xs| - 1])
  }

  /** An identifier or index prints as a non-empty run of word characters, starting with a digit exactly when bound. */
  lemma VarChars(t: Term)
    requires WF(t) && t.Var?
    ensures var d := ShowDeBruijn(t);
            && |d| > 0
            && (forall k :: 0 <= k < |d| ==> Tokenizer.InClass(Tokenizer.WordChar, d[k]))
            && (Utils.IsDigit(d[0]) <==> t.index != 0)
  {
  }

  /** A run of word characters followed by a non-word character is exactly the longest such run. */
  lemma {:induction false} WordRun(d: string, t: string, i: nat)
    requires i <= |d| && (forall k :: i <= k < |d| ==> Tokenizer.InClass(Tokenizer.WordChar, d[k]))
    requires StopOrSpace(t)
    ensures Tokenizer.RunLength(Tokenizer.WordChar, d + t, i) == |d| - i
    decreases |d| - i
  {
    if i < |d| {
      assert (d + t)[i] == d[i];
      WordRun(d, t, i + 1);
    } else if |t| > 0 {
      assert (d + t)[i] == t[0];
    }
  }

  /** Two identifiers whose printouts are followed by a non-word character are equal when the texts are. */
  lemma VarRead(a: Term, b: Term, t1: string, t2: string)
    requires WF(a) && WF(b) && a.Var? && b.Var?
    requires StopOrSpace(t1) && StopOrSpace(t2)
    requires ShowDeBruijn(a) + t1 == ShowDeBruijn(b) + t2
    ensures Equals(a, b) && t1 == t2
  {
    var da, db := ShowDeBruijn(a), ShowDeBruijn(b);
    VarChars(a);
    VarChars(b);
    WordRun(da, t1, 0);
    WordRun(db, t2, 0);
    assert da == (da + t1)[..|da|] == (db + t2)[..|db|] == db;
    assert t1 == (da + t1)[|da|..] == (db + t2)[|db|..] == t2;
    assert da[0] == db[0];
    if a.index != 0 {
      Utils.NatToStringInjective(a.index, b.index);
    }
  }

  /** A term that is not an abstraction prints starting with `(` or a word character. */
  lemma {:induction false} FirstChar(t: Term)
    requires WF(t) && Complete(t) && !t.Abs?
    ensures |ShowDeBruijn(t)| > 0
    ensures ShowDeBruijn(t)[0] == '(' || Tokenizer.InClass(Tokenizer.WordChar, ShowDeBruijn(t)[0])
  {
    match t
    case Var(_, _) => VarChars(t);
    case App(l, r) =>
      var left, right := AppText(t);
      if !l.Abs? {
        FirstChar(l);
      }
      assert left[0] == ShowDeBruijn(t)[0];
  }

  /** The printout of an abstraction: `λ`, a space, the body. */
  lemma AbsText(t: Term) returns (body: string)
    requires Complete(t) && t.Abs?
    ensures body == ShowDeBruijn(t.body) && ShowDeBruijn(t) == "λ " + body
  {
    body := ShowDeBruijn(t.body);
  }

  /** The printout of an application: its two sides, with a space between them. */
  lemma AppText(t: Term) returns (left: string, right: string)
    requires Complete(t) && t.App?
    ensures left == LeftText(t.left) && right == RightText(t.right) && ShowDeBruijn(t) == left + " " + right
  {
    left, right := LeftText(t.left), RightText(t.right);
  }

  lemma AbsPeel(x: string, y: string, t1: string, t2: string)
    requires "λ " + x + t1 == "λ " + y + t2
    ensures x + t1 == y + t2
  {
    assert x + t1 == ("λ " + x + t1)[2..];
    assert y + t2 == ("λ " + y + t2)[2..];
  }

  lemma ParenPeel(x: string, y: string, t1: string, t2: string)
    requires "(" + x + ")" + t1 == "(" + y + ")" + t2
    ensures x + (")" + t1) == y + (")" + t2)
  {
    assert x + (")" + t1) == ("(" + x + ")" + t1)[1..];
    assert y + (")" + t2) == ("(" + y + ")" + t2)[1..];
  }

  lemma CloseParen(t1: string, t2: string)
    requires ")" + t1 == ")" + t2
    ensures t1 == t2
  {
    assert t1 == (")" + t1)[1..];
  }

  lemma ArgPeel(r1: string, x1: string, s1: string, r2: string, x2: string, s2: string)
    requires " " + r1 + x1 + s1 == " " + r2 + x2 + s2
    ensures r1 + (x1 + s1) == r2 + (x2 + s2)
  {
    assert r1 + (x1 + s1) == (" " + r1 + x1 + s1)[1..];
    assert r2 + (x2 + s2) == (" " + r2 + x2 + s2)[1..];
  }

  lemma Regroup(a: string, x: string, s1: string, b: string, y: string, s2: string)
    requires a + x + s1 == b + y + s2
    ensures a + (x + s1) == b + (y + s2)
  {
    assert a + x + s1 == a + (x + s1);
    assert b + y + s2 == b + (y + s2);
  }

  lemma FirstDiffers(u: string, v: string, t1: string, t2: string)
    requires |u| > 0 && |v| > 0 && u[0] != v[0]
    ensures u + t1 != v + t2
  {
    assert (u + t1)[0] == u[0] && (v + t2)[0] == v[0];
  }

  /** The arguments printed after the first one. */
  lemma {:induction false} ArgsTextFront(xs: seq<Term>) returns (first: string, rest: string)
    requires |xs| > 0 && AllWF(xs)
    ensures AllWF(xs[1..]) && first == RightText(xs[0]) && rest == ArgsText(xs[1..])
    ensures ArgsText(xs) == " " + first + rest
    decreases |xs|
  {
    var n := |xs|;
    first, rest := RightText(xs[0]), ArgsText(xs[1..]);
    var init := xs[..n - 1];
    if n > 1 {
      var f, r := ArgsTextFront(init);
      var last := RightText(xs[n - 1]);
      assert ArgsText(xs) == ArgsText(init) + " " + last;
      assert init[1..] == xs[1..][..n - 2] && xs[1..][n - 2] == xs[n - 1];
      assert rest == r + " " + last;
      assert f == first;
      AssocFront(f, r, last);
    } else {
      assert init == [] && xs[1..] == [];
    }
  }

  lemma AssocFront(f: string, r: string, last: string)
    ensures " " + f + r + " " + last == " " + f + (r + " " + last)
  {
  }

  lemma {:induction false} SumSizeFront(xs: seq<Term>)
    requires |xs| > 0
    ensures SumSize(xs) == Size(xs[0]) + SumSize(xs[1..])
    decreases |xs|
  {
    if |xs| > 1 {
      var init := xs[..|xs| - 1];
      SumSizeFront(init);
      assert init[1..] == xs[1..][..|xs[1..]| - 1];
    } else {
      assert xs[1..] == [] && xs[..0] == [];
    }
  }

  /** The head and arguments of a well-formed spine are well formed, and together as large as the spine. */
  lemma {:induction false} SpineParts(t: Term)
    requires WF(t) && Complete(t)
    ensures WF(Head(t)) && Complete(Head(t)) && AllWF(Args(t))
    ensures Size(t) == Size(Head(t)) + SumSize(Args(t)) + |Args(t)|
  {
    if t.App? {
      SpineParts(t.left);
      var xs := Args(t);
      assert xs[..|xs| - 1] == Args(t.left) && xs[|xs| - 1] == t.right;
    }
  }

  lemma Assoc(h: string, a: string, r: string)
    ensures h + a + " " + r == h + (a + " " + r)
  {
  }

  /** A spine's left-side printout is its head's, then its arguments'. */
  lemma {:induction false} SpineText(t: Term)
    requires WF(t) && Complete(t)
    ensures WF(Head(t)) && Complete(Head(t)) && AllWF(Args(t))
    ensures LeftText(t) == LeftText(Head(t)) + ArgsText(Args(t))
  {
    SpineParts(t);
    if t.App? {
      var l := t.left;
      SpineText(l);
      var left, right := AppText(t);
      var xs := Args(t);
      assert xs[..|xs| - 1] == Args(l) && xs[|xs| - 1] == t.right;
      var h, a := LeftText(Head(l)), ArgsText(Args(l));
      assert ArgsText(xs) == a + " " + right;
      Assoc(h, a, right);
    }
  }

  /** Two spines with the same heads and the same arguments, pairwise, are equal. */
  lemma {:induction false} SpineEquals(a: Term, b: Term)
    requires Equals(Head(a), Head(b)) && |Args(a)| == |Args(b)|
    requires forall i :: 0 <= i < |Args(a)| ==> Equals(Args(a)[i], Args(b)[i])
    ensures Equals(a, b)
  {
    if a.App? {
      assert b.App?;
      var n := |Args(a)|;
      assert Args(a)[..n - 1] == Args(a.left) && Args(b)[..n - 1] == Args(b.left);
      assert Args(a)[n - 1] == a.right && Args(b)[n - 1] == b.right;
      SpineEquals(a.left, b.left);
    } else {
      assert !b.App?;
    }
  }

  /** A whole term is fixed, up to `equals`, by its printout when nothing or a `)` comes after it. */
  lemma {:induction false} TermRead(a: Term, b: Term, s1: string, s2: string)
    requires WF(a) && WF(b) && Complete(a) && Complete(b) && Stop(s1) && Stop(s2)
    requires ShowDeBruijn(a) + s1 == ShowDeBruijn(b) + s2
    ensures Equals(a, b) && s1 == s2
    decreases Size(a) + Size(b), 2
  {
    if a.Abs? && b.Abs? {
      var x := AbsText(a);
      var y := AbsText(b);
      AbsPeel(x, y, s1, s2);
      TermRead(a.body, b.body, s1, s2);
    } else if a.Abs? {
      var x := AbsText(a);
      FirstChar(b);
      FirstDiffers("λ " + x, ShowDeBruijn(b), s1, s2);
      assert false;
    } else if b.Abs? {
      var y := AbsText(b);
      FirstChar(a);
      FirstDiffers("λ " + y, ShowDeBruijn(a), s2, s1);
      assert false;
    } else {
      SpineParts(a);
      SpineParts(b);
      SpineText(a);
      SpineText(b);
      var ha, hb, xs, ys := Head(a), Head(b), Args(a), Args(b);
      Regroup(LeftText(ha), ArgsText(xs), s1, LeftText(hb), ArgsText(ys), s2);
      ArgsStart(xs, s1);
      ArgsStart(ys, s2);
      HeadRead(ha, hb, ArgsText(xs) + s1, ArgsText(ys) + s2);
      ArgsRead(xs, ys, s1, s2);
      SpineEquals(a, b);
    }
  }

  /** Printed arguments start with a space, so what follows a head is a space or the end of the term. */
  lemma ArgsStart(xs: seq<Term>, s: string)
    requires AllWF(xs) && Stop(s)
    ensures StopOrSpace(ArgsText(xs) + s)
    ensures |xs| > 0 ==> (ArgsText(xs) + s)[0] == ' '
  {
    if |xs| > 0 {
      var _, _ := ArgsTextFront(xs);
    }
  }

  /** An identifier, or an abstraction in parentheses, prints starting with a word character or `(`. */
  lemma HeadStart(h: Term) returns (d: string)
    requires WF(h) && Complete(h) && !h.App?
    ensures |LeftText(h)| > 0 && d == ShowDeBruijn(h)
    ensures h.Var? ==> LeftText(h) == d && Tokenizer.InClass(Tokenizer.WordChar, d[0])
    ensures h.Abs? ==> LeftText(h) == "(" + d + ")"
  {
    d := ShowDeBruijn(h);
    if h.Var? {
      VarChars(h);
    }
  }

  /** The head of a spine is fixed by its printout. */
  lemma {:induction false} HeadRead(h1: Term, h2: Term, t1: string, t2: string)
    requires WF(h1) && WF(h2) && Complete(h1) && Complete(h2) && !h1.App? && !h2.App? && StopOrSpace(t1) && StopOrSpace(t2)
    requires LeftText(h1) + t1 == LeftText(h2) + t2
    ensures Equals(h1, h2) && t1 == t2
    decreases Size(h1) + Size(h2), 1
  {
    var d1 := HeadStart(h1);
    var d2 := HeadStart(h2);
    if h1.Var? && h2.Var? {
      VarRead(h1, h2, t1, t2);
    } else if h1.Var? || h2.Var? {
      FirstDiffers(LeftText(h1), LeftText(h2), t1, t2);
      assert false;
    } else {
      var x := AbsText(h1);
      var y := AbsText(h2);
      ParenPeel(d1, d2, t1, t2);
      AbsPeel(x, y, ")" + t1, ")" + t2);
      TermRead(h1.body, h2.body, ")" + t1, ")" + t2);
      CloseParen(t1, t2);
    }
  }

  /** An identifier, or any other term in parentheses, prints starting with a word character or `(`. */
  lemma ArgStart(r: Term) returns (d: string)
    requires WF(r) && Complete(r)
    ensures |RightText(r)| > 0 && d == ShowDeBruijn(r)
    ensures r.Var? ==> RightText(r) == d && Tokenizer.InClass(Tokenizer.WordChar, d[0])
    ensures !r.Var? ==> RightText(r) == "(" + d + ")"
  {
    d := ShowDeBruijn(r);
    if r.Var? {
      VarChars(r);
    }
  }

  /** An argument is fixed by its printout. */
  lemma {:induction false} RightRead(x: Term, y: Term, t1: string, t2: string)
    requires WF(x) && WF(y) && Complete(x) && Complete(y) && StopOrSpace(t1) && StopOrSpace(t2)
    requires RightText(x) + t1 == RightText(y) + t2
    ensures Equals(x, y) && t1 == t2
    decreases Size(x) + Size(y), 3
  {
    var d1 := ArgStart(x);
    var d2 := ArgStart(y);
    if x.Var? && y.Var? {
      VarRead(x, y, t1, t2);
    } else if x.Var? || y.Var? {
      FirstDiffers(RightText(x), RightText(y), t1, t2);
      assert false;
    } else {
      ParenPeel(d1, d2, t1, t2);
      TermRead(x, y, ")" + t1, ")" + t2);
      CloseParen(t1, t2);
    }
  }

  /** The arguments of a spine are fixed, one by one, by their printout. */
  lemma {:induction false} ArgsRead(xs: seq<Term>, ys: seq<Term>, s1: string, s2: string)
    requires AllWF(xs) && AllWF(ys) && Stop(s1) && Stop(s2)
    requires ArgsText(xs) + s1 == ArgsText(ys) + s2
    ensures |xs| == |ys| && s1 == s2
    ensures forall i :: 0 <= i < |xs| ==> Equals(xs[i], ys[i])
    decreases SumSize(xs) + SumSize(ys), 4
  {
    if |xs| > 0 && |ys| > 0 {
      var rx, ax := ArgsTextFront(xs);
      var ry, ay := ArgsTextFront(ys);
      SumSizeFront(xs);
      SumSizeFront(ys);
      var xs', ys' := xs[1..], ys[1..];
      ArgsStart(xs', s1);
      ArgsStart(ys', s2);
      ArgPeel(rx, ax, s1, ry, ay, s2);
      RightRead(xs[0], ys[0], ax + s1, ay + s2);
      ArgsRead(xs', ys', s1, s2);
      forall i | 0 <= i < |xs|
        ensures Equals(xs[i], ys[i])
      {
        if i > 0 {
          assert xs[i] == xs'[i - 1] && ys[i] == ys'[i - 1];
        }
      }
    } else if |xs| > 0 || |ys| > 0 {
      ArgsStart(xs, s1);
      ArgsStart(ys, s2);
      assert false;
    } else {
      assert s1 == ArgsText(xs) + s1;
    }
  }

  /** Well-formed terms with the same de Bruijn notation are equal: the converse of `EqualsSameDeBruijn`. */
  lemma SameDeBruijnEquals(a: Term, b: Term)
    requires WF(a) && WF(b) && Complete(a) && Complete(b) && ShowDeBruijn(a) == ShowDeBruijn(b)
    ensures Equals(a, b)
  {
    assert ShowDeBruijn(a) + "" == ShowDeBruijn(b) + "";
    TermRead(a, b, "", "");
  }

  /** For well-formed terms, `equals` holds exactly when the de Bruijn strings agree. */
  lemma EqualsIffSameDeBruijn(a: Term, b: Term)
    requires WF(a) && WF(b) && Complete(a) && Complete(b)
    ensures Equals(a, b) <==> ShowDeBruijn(a) == ShowDeBruijn(b)
  {
    if Equals(a, b) {
      EqualsSameDeBruijn(a, b);
    }
    if ShowDeBruijn(a) == ShowDeBruijn(b) {
      SameDeBruijnEquals(a, b);
    }
  }

  /** Without well-formed names the converse fails: a free variable named `1` prints as the index 1. */
  lemma NameLikeIndex(a: Term, b: Term)
    requires a == Var("1", 0) && b == Var("z", 1)
    ensures Complete(a) && Complete(b) && ShowDeBruijn(a) == ShowDeBruijn(b) && !Equals(a, b)
  {
    assert Utils.NatToString(1) == "1";
  }
}
