/**
 * Parsing the tokens of a printed typed term. The typed parser looks at each token's kind and text only (the
 * offset goes into error messages), so the proof works on those marks: when the marks of `ShowBy(n, corrected)`
 * stand in a token list at cursor `i` and are followed by the end of the list or a `)`, `term()` reads exactly
 * those tokens and returns `n` itself. The typed parser keeps no binder stack, so nothing is renamed. This
 * holds for the corrected printer on every readable term, and for the printer as written only on terms where no
 * application chain stands bare to the right of a non-simple left side; `ShowMisgroups` exhibits one where it
 * fails.
 */
module TypedShowParsing {
  import opened Wrappers
  import opened Tokenizer
  import opened ParserBase
  import L = TypedLexer
  import opened TypedSyntax
  import opened TypedShowLexing
  import opened TypedParser

  /** What the parser reads of a token: its kind and its text. */
  type Mark = (L.Id, string)

  function MarkOf(t: L.TToken): Mark {
    (t.id, t.value)
  }

  /** The marks of a token list, token by token. */
  function Marks(x: seq<L.TToken>): seq<Mark> {
    seq(|x|, k requires 0 <= k < |x| => MarkOf(x[k]))
  }

  lemma {:induction false} MarksAppend(a: seq<L.TToken>, b: seq<L.TToken>)
    ensures Marks(a + b) == Marks(a) + Marks(b)
  {
    assert forall k :: 0 <= k < |a + b| ==> Marks(a + b)[k] == (Marks(a) + Marks(b))[k];
  }

  /* ---------- the marks of printed types and terms ---------- */

  /** The marks of `TypeToks(t, p)`, whatever the offset. */
  function TypeMarks(t: Type): seq<Mark>
    decreases t, 0
  {
    match t
    case SimpleType(value) => [(L.Type, value)]
    case ArrowType(input, output) =>
      WrapTypeMarks(input, input.SimpleType?) + [(L.Arrow, "->")] + WrapTypeMarks(output, TypeIsSimple(output))
    case PairType(first, second) =>
      [(L.LeftSqrBr, "[")] + TypeMarks(first) + [(L.Comma, ",")] + TypeMarks(second) + [(L.RightSqrBr, "]")]
  }

  /** The marks of `WrapTypeToks(t, bare, p)`. */
  function WrapTypeMarks(t: Type, bare: bool): seq<Mark>
    decreases t, 1
  {
    if bare then TypeMarks(t) else [(L.LeftPren, "(")] + TypeMarks(t) + [(L.RightPren, ")")]
  }

  /** The marks of `λx:`. */
  function AbsHeadMarks(x: string): seq<Mark> {
    [(L.Lambda, "λ"), (L.Identifier, x), (L.Colon, ":")]
  }

  /** The marks of `TermToks(n, corrected, p)`, whatever the offset. */
  function TermMarks(n: Node, corrected: bool): seq<Mark>
    decreases n, 0
  {
    match n
    case Identifier(value) => [(L.Identifier, value)]
    case Abstraction(parameter, annotation, body) =>
      AbsHeadMarks(parameter) + TypeMarks(annotation) + [(L.Dot, ".")] + TermMarks(body, corrected)
    case Application(left, right) =>
      WrapTermMarks(left, corrected, IsSimple(left)) + WrapTermMarks(right, corrected, RightBare(n, corrected))
    case Undefined => [(L.Identifier, "undefined")]
  }

  /** The marks of `WrapTermToks(n, corrected, bare, p)`. */
  function WrapTermMarks(n: Node, corrected: bool, bare: bool): seq<Mark>
    decreases n, 1
  {
    if bare then TermMarks(n, corrected) else [(L.LeftPren, "(")] + TermMarks(n, corrected) + [(L.RightPren, ")")]
  }

  /** The marks of three stretches in a row, the middle one a single token. */
  lemma {:induction false} MarksJoin3(a: seq<L.TToken>, m: L.TToken, b: seq<L.TToken>, x: seq<Mark>, y: seq<Mark>)
    requires Marks(a) == x && Marks(b) == y
    ensures Marks(a + [m] + b) == x + [MarkOf(m)] + y
  {
    MarksAppend(a + [m], b);
    MarksAppend(a, [m]);
  }

  /** The marks of a stretch between two single tokens. */
  lemma {:induction false} MarksAround(o: L.TToken, a: seq<L.TToken>, c: L.TToken, x: seq<Mark>)
    requires Marks(a) == x
    ensures Marks([o] + a + [c]) == [MarkOf(o)] + x + [MarkOf(c)]
  {
    MarksAppend([o] + a, [c]);
    MarksAppend([o], a);
  }

  /** The marks of a token, a stretch, a token, a stretch and a token in a row. */
  lemma {:induction false} MarksJoin5(o: L.TToken, a: seq<L.TToken>, m: L.TToken, b: seq<L.TToken>, c: L.TToken,
                                      x: seq<Mark>, y: seq<Mark>)
    requires Marks(a) == x && Marks(b) == y
    ensures Marks([o] + a + [m] + b + [c]) == [MarkOf(o)] + x + [MarkOf(m)] + y + [MarkOf(c)]
  {
    MarksAppend([o] + a + [m] + b, [c]);
    MarksAppend([o] + a + [m], b);
    MarksAppend([o] + a, [m]);
    MarksAppend([o], a);
  }

  /** The marks of two stretches, a single token and a stretch in a row. */
  lemma {:induction false} MarksJoin4(h: seq<L.TToken>, a: seq<L.TToken>, m: L.TToken, b: seq<L.TToken>,
                                      xh: seq<Mark>, xa: seq<Mark>, y: seq<Mark>)
    requires Marks(h) == xh && Marks(a) == xa && Marks(b) == y
    ensures Marks(h + a + [m] + b) == xh + xa + [MarkOf(m)] + y
  {
    MarksAppend(h + a + [m], b);
    MarksAppend(h + a, [m]);
    MarksAppend(h, a);
  }

  lemma {:induction false} AbsHeadToksMarks(x: string, p: nat)
    ensures Marks(AbsHead(x, p)) == AbsHeadMarks(x)
  {
  }

  /** Tokens laid out as an arrow type's (input, `->`, output) have that type's marks. */
  lemma {:induction false} ArrowMarksOf(t: Type, s: seq<L.TToken>, a: seq<L.TToken>, m: L.TToken, b: seq<L.TToken>)
    requires t.ArrowType? && s == a + [m] + b && m.id == L.Arrow && m.value == "->"
    requires Marks(a) == WrapTypeMarks(t.input, t.input.SimpleType?)
    requires Marks(b) == WrapTypeMarks(t.output, TypeIsSimple(t.output))
    ensures Marks(s) == TypeMarks(t)
  {
    MarksJoin3(a, m, b, WrapTypeMarks(t.input, t.input.SimpleType?), WrapTypeMarks(t.output, TypeIsSimple(t.output)));
  }

  /** Tokens laid out as a pair type's (`[`, first, `,`, second, `]`) have that type's marks. */
  lemma {:induction false} PairMarksOf(t: Type, s: seq<L.TToken>, o: L.TToken, a: seq<L.TToken>, m: L.TToken, b: seq<L.TToken>, c: L.TToken)
    requires t.PairType? && s == [o] + a + [m] + b + [c]
    requires MarkOf(o) == (L.LeftSqrBr, "[") && MarkOf(m) == (L.Comma, ",") && MarkOf(c) == (L.RightSqrBr, "]")
    requires Marks(a) == TypeMarks(t.first) && Marks(b) == TypeMarks(t.second)
    ensures Marks(s) == TypeMarks(t)
  {
    MarksJoin5(o, a, m, b, c, TypeMarks(t.first), TypeMarks(t.second));
  }

  lemma {:induction false} TypeToksMarks(t: Type, p: nat)
    ensures Marks(TypeToks(t, p)) == TypeMarks(t)
    decreases t, 1
  {
    if t.ArrowType? {
      ArrowToksMarks(t, p);
    } else if t.PairType? {
      PairToksMarks(t, p);
    }
  }

  /** The width of a type printed bare or in parentheses. */
  lemma {:induction false} WrappedWidth(t: Type, bare: bool) returns (w: nat)
    ensures w == |Wrapped(ShowType(t), bare)|
  {
    w := |Wrapped(ShowType(t), bare)|;
  }

  /** The tokens of an arrow type whose input ends at offset `q`. */
  lemma {:induction false} ArrowLayout(t: Type, p: nat, q: nat)
    requires t.ArrowType? && q == p + |Wrapped(ShowType(t.input), t.input.SimpleType?)|
    ensures TypeToks(t, p)
            == WrapTypeToks(t.input, t.input.SimpleType?, p) + [Token(L.Arrow, q + 1, "->")] + WrapTypeToks(t.output, TypeIsSimple(t.output), q + 4)
  {
  }

  /** The tokens of a pair type whose comma stands at offset `q` and closing bracket at `e`. */
  lemma {:induction false} PairLayout(t: Type, p: nat, q: nat, e: nat)
    requires t.PairType? && q == p + 1 + |ShowType(t.first)| && e == q + 2 + |ShowType(t.second)|
    ensures TypeToks(t, p)
            == [Token(L.LeftSqrBr, p, "[")] + TypeToks(t.first, p + 1) + [Token(L.Comma, q, ",")]
               + TypeToks(t.second, q + 2) + [Token(L.RightSqrBr, e, "]")]
  {
  }

  lemma {:induction false} ArrowToksMarks(t: Type, p: nat)
    requires t.ArrowType?
    ensures Marks(TypeToks(t, p)) == TypeMarks(t)
    decreases t, 0
  {
    var w := WrappedWidth(t.input, t.input.SimpleType?);
    var q := p + w;
    ArrowLayout(t, p, q);
    WrapTypeToksMarks(t.input, t.input.SimpleType?, p);
    WrapTypeToksMarks(t.output, TypeIsSimple(t.output), q + 4);
    ArrowMarksOf(t, TypeToks(t, p), WrapTypeToks(t.input, t.input.SimpleType?, p), Token(L.Arrow, q + 1, "->"),
                 WrapTypeToks(t.output, TypeIsSimple(t.output), q + 4));
  }

  lemma {:induction false} PairToksMarks(t: Type, p: nat)
    requires t.PairType?
    ensures Marks(TypeToks(t, p)) == TypeMarks(t)
    decreases t, 0
  {
    var w1 := WrappedWidth(t.first, true);
    var w2 := WrappedWidth(t.second, true);
    var q := p + 1 + w1;
    var e := q + 2 + w2;
    PairLayout(t, p, q, e);
    TypeToksMarks(t.first, p + 1);
    TypeToksMarks(t.second, q + 2);
    PairMarksOf(t, TypeToks(t, p), Token(L.LeftSqrBr, p, "["), TypeToks(t.first, p + 1), Token(L.Comma, q, ","),
                TypeToks(t.second, q + 2), Token(L.RightSqrBr, e, "]"));
  }

  lemma {:induction false} WrapTypeToksMarks(t: Type, bare: bool, p: nat)
    ensures Marks(WrapTypeToks(t, bare, p)) == WrapTypeMarks(t, bare)
    decreases t, 2
  {
    if bare {
      TypeToksMarks(t, p);
    } else {
      TypeToksMarks(t, p + 1);
      MarksAround(Token(L.LeftPren, p, "("), TypeToks(t, p + 1), Token(L.RightPren, p + 1 + |ShowType(t)|, ")"), TypeMarks(t));
    }
  }

  /** An abstraction's tokens have the marks of `λx:`, the annotation, `.` and the body. */
  lemma {:induction false} AbsToksMarks(n: Node, corrected: bool, p: nat)
    requires n.Abstraction?
    requires Marks(TypeToks(n.annotation, p + 2 + |n.parameter|)) == TypeMarks(n.annotation)
    requires Marks(TermToks(n.body, corrected, p + 3 + |n.parameter| + |ShowType(n.annotation)|)) == TermMarks(n.body, corrected)
    ensures Marks(TermToks(n, corrected, p)) == TermMarks(n, corrected)
  {
    AbsToks(n, corrected, p);
    AbsHeadToksMarks(n.parameter, p);
    MarksJoin4(AbsHead(n.parameter, p), TypeToks(n.annotation, p + 2 + |n.parameter|),
               Token(L.Dot, p + 2 + |n.parameter| + |ShowType(n.annotation)|, "."),
               TermToks(n.body, corrected, p + 3 + |n.parameter| + |ShowType(n.annotation)|),
               AbsHeadMarks(n.parameter), TypeMarks(n.annotation), TermMarks(n.body, corrected));
  }

  /** An application's tokens have the marks of its two sides. */
  lemma {:induction false} AppToksMarks(n: Node, corrected: bool, p: nat)
    requires n.Application?
    requires Marks(WrapTermToks(n.left, corrected, IsSimple(n.left), p)) == WrapTermMarks(n.left, corrected, IsSimple(n.left))
    requires Marks(WrapTermToks(n.right, corrected, RightBare(n, corrected), p + |Wrapped(ShowBy(n.left, corrected), IsSimple(n.left))| + 1))
             == WrapTermMarks(n.right, corrected, RightBare(n, corrected))
    ensures Marks(TermToks(n, corrected, p)) == TermMarks(n, corrected)
  {
    AppToks(n, corrected, p);
    AppMarks(n, corrected);
    MarksAppend(WrapTermToks(n.left, corrected, IsSimple(n.left), p),
                WrapTermToks(n.right, corrected, RightBare(n, corrected), p + |Wrapped(ShowBy(n.left, corrected), IsSimple(n.left))| + 1));
  }

  lemma {:induction false} TermToksMarks(n: Node, corrected: bool, p: nat)
    ensures Marks(TermToks(n, corrected, p)) == TermMarks(n, corrected)
    decreases n, 0
  {
    if n.Abstraction? {
      TypeToksMarks(n.annotation, p + 2 + |n.parameter|);
      TermToksMarks(n.body, corrected, p + 3 + |n.parameter| + |ShowType(n.annotation)|);
      AbsToksMarks(n, corrected, p);
    } else if n.Application? {
      WrapTermToksMarks(n.left, corrected, IsSimple(n.left), p);
      WrapTermToksMarks(n.right, corrected, RightBare(n, corrected), p + |Wrapped(ShowBy(n.left, corrected), IsSimple(n.left))| + 1);
      AppToksMarks(n, corrected, p);
    }
  }

  lemma {:induction false} WrapTermToksMarks(n: Node, corrected: bool, bare: bool, p: nat)
    ensures Marks(WrapTermToks(n, corrected, bare, p)) == WrapTermMarks(n, corrected, bare)
    decreases n, 1
  {
    if bare {
      TermToksMarks(n, corrected, p);
    } else {
      TermToksMarks(n, corrected, p + 1);
      MarksAround(Token(L.LeftPren, p, "("), TermToks(n, corrected, p + 1), Token(L.RightPren, p + 1 + |ShowBy(n, corrected)|, ")"),
                  TermMarks(n, corrected));
    }
  }

  /* ---------- marks standing in a token list ---------- */

  /** The marks `x` stand in `toks` from cursor `i` on, token by token. */
  predicate Matches(toks: seq<L.TToken>, i: nat, x: seq<Mark>) {
    i + |x| <= |toks| && forall k {:trigger x[k]} :: 0 <= k < |x| ==> MarkOf(toks[i + k]) == x[k]
  }

  /** `Matches`, stated as an equation so that where it is to be proved it is compared as a whole. */
  predicate MarksAt(toks: seq<L.TToken>, i: nat, x: seq<Mark>) {
    Matches(toks, i, x) == true
  }

  lemma {:induction false} MarksAtWhole(toks: seq<L.TToken>)
    ensures MarksAt(toks, 0, Marks(toks))
  {
  }

  lemma {:induction false} MarksAtSplit(toks: seq<L.TToken>, i: nat, x: seq<Mark>, y: seq<Mark>)
    requires MarksAt(toks, i, x + y)
    ensures MarksAt(toks, i, x) && MarksAt(toks, i + |x|, y)
  {
    forall k | 0 <= k < |x|
      ensures MarkOf(toks[i + k]) == x[k]
    {
      assert (x + y)[k] == x[k];
    }
    forall k | 0 <= k < |y|
      ensures MarkOf(toks[i + |x| + k]) == y[k]
    {
      assert (x + y)[|x| + k] == y[k];
    }
  }

  lemma {:induction false} MarkAt(toks: seq<L.TToken>, i: nat, x: seq<Mark>, k: nat)
    requires MarksAt(toks, i, x) && k < |x|
    ensures i + k < |toks| && toks[i + k].id == x[k].0 && toks[i + k].value == x[k].1
  {
  }

  /** Three stretches in a row: the first, a single mark, the rest. */
  lemma {:induction false} Split3(toks: seq<L.TToken>, i: nat, x: seq<Mark>, a: seq<Mark>, m: Mark, b: seq<Mark>)
    requires MarksAt(toks, i, x) && x == a + [m] + b
    ensures i + |x| == i + |a| + 1 + |b|
    ensures MarksAt(toks, i, a) && NextIsAt(toks, i + |a|, m.0) && MarksAt(toks, i + |a| + 1, b)
  {
    MarksAtSplit(toks, i, a + [m], b);
    MarksAtSplit(toks, i, a, [m]);
    MarkAt(toks, i + |a|, [m], 0);
  }

  /** A stretch between two single marks. */
  lemma {:induction false} Around(toks: seq<L.TToken>, i: nat, x: seq<Mark>, m1: Mark, a: seq<Mark>, m2: Mark)
    requires MarksAt(toks, i, x) && x == [m1] + a + [m2]
    ensures i + |x| == i + 1 + |a| + 1
    ensures NextIsAt(toks, i, m1.0) && MarksAt(toks, i + 1, a) && NextIsAt(toks, i + 1 + |a|, m2.0)
  {
    MarksAtSplit(toks, i, [m1] + a, [m2]);
    MarksAtSplit(toks, i, [m1], a);
    MarkAt(toks, i, [m1], 0);
    MarkAt(toks, i + 1 + |a|, [m2], 0);
  }

  /** Five stretches in a row: a mark, a stretch, a mark, a stretch, a mark. */
  lemma {:induction false} Split5(toks: seq<L.TToken>, i: nat, x: seq<Mark>, m1: Mark, a: seq<Mark>, m2: Mark, b: seq<Mark>, m3: Mark)
    requires MarksAt(toks, i, x) && x == [m1] + a + [m2] + b + [m3]
    ensures i + |x| == i + 1 + |a| + 1 + |b| + 1
    ensures NextIsAt(toks, i, m1.0) && MarksAt(toks, i + 1, a) && NextIsAt(toks, i + 1 + |a|, m2.0)
    ensures MarksAt(toks, i + 1 + |a| + 1, b) && NextIsAt(toks, i + 1 + |a| + 1 + |b|, m3.0)
  {
    assert x == ([m1] + a) + [m2] + (b + [m3]);
    Split3(toks, i, x, [m1] + a, m2, b + [m3]);
    MarksAtSplit(toks, i, [m1], a);
    MarkAt(toks, i, [m1], 0);
    MarksAtSplit(toks, i + 1 + |a| + 1, b, [m3]);
    MarkAt(toks, i + 1 + |a| + 1 + |b|, [m3], 0);
  }

  /* ---------- the parser's steps ---------- */

  /** `type()` from cursor `i`, where there is one. */
  function TypeAt(toks: seq<L.TToken>, i: nat): Result<Parsed<Type>, ParseError> {
    if i <= |toks| then ParseType(toks, i) else Err(MissingToken)
  }

  /** `atomType()` from cursor `i`, where there is one. */
  function AtomTypeAt(toks: seq<L.TToken>, i: nat): Result<Parsed<Type>, ParseError> {
    if i <= |toks| then ParseAtomType(toks, i) else Err(MissingToken)
  }

  /** Where a printed term may end for `term()` to stop there: at the end of the tokens or before a `)`. */
  predicate Stops(toks: seq<L.TToken>, j: nat) {
    j == |toks| || (j < |toks| && toks[j].id == L.RightPren)
  }

  /** `type()` at the end of an atomic type that no arrow follows returns that type. */
  lemma {:induction false} TypeEndsAtom(toks: seq<L.TToken>, i: nat, t: Type, j: nat)
    requires i < j <= |toks| && !NextIsAt(toks, j, L.Arrow)
    requires AtomTypeAt(toks, i) == Ok(Parsed(t, j))
    ensures TypeAt(toks, i) == Ok(Parsed(t, j))
  {
  }

  /** `type()` reads an atomic type, an arrow and the output type. */
  lemma {:induction false} TypeArrowStep(toks: seq<L.TToken>, i: nat, a: Type, j: nat, b: Type, k: nat)
    requires i <= |toks| && AtomTypeAt(toks, i) == Ok(Parsed(a, j)) && NextIsAt(toks, j, L.Arrow)
    requires TypeAt(toks, j + 1) == Ok(Parsed(b, k))
    ensures TypeAt(toks, i) == Ok(Parsed(ArrowType(a, b), k))
  {
  }

  /** `atomType()` reads `[`, a type, `,`, a type, `]`. */
  lemma {:induction false} AtomTypePairStep(toks: seq<L.TToken>, i: nat, a: Type, j: nat, b: Type, k: nat)
    requires NextIsAt(toks, i, L.LeftSqrBr) && TypeAt(toks, i + 1) == Ok(Parsed(a, j))
    requires NextIsAt(toks, j, L.Comma) && TypeAt(toks, j + 1) == Ok(Parsed(b, k))
    requires NextIsAt(toks, k, L.RightSqrBr)
    ensures AtomTypeAt(toks, i) == Ok(Parsed(PairType(a, b), k + 1))
  {
  }

  /** `atomType()` reads `(`, a type, `)`. */
  lemma {:induction false} AtomTypeParenStep(toks: seq<L.TToken>, i: nat, a: Type, j: nat)
    requires NextIsAt(toks, i, L.LeftPren) && TypeAt(toks, i + 1) == Ok(Parsed(a, j)) && NextIsAt(toks, j, L.RightPren)
    ensures AtomTypeAt(toks, i) == Ok(Parsed(a, j + 1))
  {
  }

  /** `atomType()` reads a base type named `Bool` or `Nat`. */
  lemma {:induction false} AtomTypeNameStep(toks: seq<L.TToken>, i: nat)
    requires NextIsAt(toks, i, L.Type) && IsValidTypeName(toks[i].value)
    ensures AtomTypeAt(toks, i) == Ok(Parsed(SimpleType(toks[i].value), i + 1))
  {
  }

  /** At a stopping point, the application loop returns what it has read so far. */
  lemma {:induction false} AppLoopStops(toks: seq<L.TToken>, j: nat, lhs: Node)
    requires j <= |toks| && Stops(toks, j)
    ensures AppLoop(toks, j, lhs) == Ok(Parsed(lhs, j))
  {
  }

  /** The application loop reads one more operand. */
  lemma {:induction false} AppLoopStep(toks: seq<L.TToken>, j: nat, lhs: Node, rhs: Node, next: nat)
    requires j <= next <= |toks| && !lhs.Undefined? && !rhs.Undefined?
    requires ParseAtom(toks, j) == Ok(Parsed(rhs, next))
    ensures AppLoop(toks, j, lhs) == AppLoop(toks, next, Application(lhs, rhs))
  {
  }

  /** `application()` reads its first operand and goes on with the loop. */
  lemma {:induction false} ApplicationStart(toks: seq<L.TToken>, i: nat, lhs: Node, next: nat)
    requires i <= next <= |toks|
    requires ParseAtom(toks, i) == Ok(Parsed(lhs, next))
    ensures ParseApplication(toks, i) == AppLoop(toks, next, lhs)
  {
  }

  /** `term()` at a token other than `λ` is `application()`. */
  lemma {:induction false} TermAtOther(toks: seq<L.TToken>, i: nat)
    requires i < |toks| && toks[i].id != L.Lambda
    ensures ParseTerm(toks, i) == ParseApplication(toks, i)
  {
  }

  /** `atom()` at an identifier returns it. */
  lemma {:induction false} AtomIdentifier(toks: seq<L.TToken>, i: nat)
    requires NextIsAt(toks, i, L.Identifier)
    ensures ParseAtom(toks, i) == Ok(Parsed(Identifier(toks[i].value), i + 1))
  {
  }

  /** `atom()` at `(` reads a term and the `)` after it. */
  lemma {:induction false} AtomParen(toks: seq<L.TToken>, i: nat, x: Node, j: nat)
    requires NextIsAt(toks, i, L.LeftPren) && NextIsAt(toks, j, L.RightPren)
    requires ParseTerm(toks, i + 1) == Ok(Parsed(x, j))
    ensures ParseAtom(toks, i) == Ok(Parsed(x, j + 1))
  {
  }

  /** `term()` reads `λ`, a name, `:`, a type, `.` and a body. */
  lemma {:induction false} TermAbsStep(toks: seq<L.TToken>, i: nat, ty: Type, j: nat, body: Node, k: nat)
    requires NextIsAt(toks, i, L.Lambda) && NextIsAt(toks, i + 1, L.Identifier) && NextIsAt(toks, i + 2, L.Colon)
    requires TypeAt(toks, i + 3) == Ok(Parsed(ty, j)) && NextIsAt(toks, j, L.Dot)
    requires ParseTerm(toks, j + 1) == Ok(Parsed(body, k))
    ensures ParseTerm(toks, i) == Ok(Parsed(Abstraction(toks[i + 1].value, ty, body), k))
  {
  }

  /* ---------- types ---------- */

  /** The marks of a parenthesised type: the `(`, the type's marks, and the `)` at `j`. */
  lemma {:induction false} WrapTypeParts(toks: seq<L.TToken>, i: nat, t: Type) returns (j: nat)
    requires MarksAt(toks, i, WrapTypeMarks(t, false))
    ensures j == i + 1 + |TypeMarks(t)| && i + |WrapTypeMarks(t, false)| == j + 1
    ensures NextIsAt(toks, i, L.LeftPren) && MarksAt(toks, i + 1, TypeMarks(t)) && NextIsAt(toks, j, L.RightPren)
  {
    Around(toks, i, WrapTypeMarks(t, false), (L.LeftPren, "("), TypeMarks(t), (L.RightPren, ")"));
    j := i + 1 + |TypeMarks(t)|;
  }

  /** The marks of an arrow type: the input's, the arrow at `j`, and the output's, which is always bare. */
  lemma {:induction false} ArrowParts(toks: seq<L.TToken>, i: nat, t: Type) returns (j: nat)
    requires t.ArrowType? && MarksAt(toks, i, TypeMarks(t))
    ensures j == i + |WrapTypeMarks(t.input, t.input.SimpleType?)| && i + |TypeMarks(t)| == j + 1 + |TypeMarks(t.output)|
    ensures MarksAt(toks, i, WrapTypeMarks(t.input, t.input.SimpleType?)) && NextIsAt(toks, j, L.Arrow)
    ensures MarksAt(toks, j + 1, TypeMarks(t.output))
  {
    TypeAlwaysSimple(t.output);
    assert WrapTypeMarks(t.output, TypeIsSimple(t.output)) == TypeMarks(t.output);
    Split3(toks, i, TypeMarks(t), WrapTypeMarks(t.input, t.input.SimpleType?), (L.Arrow, "->"), TypeMarks(t.output));
    j := i + |WrapTypeMarks(t.input, t.input.SimpleType?)|;
  }

  /** The marks of a pair type: `[`, the first's, `,` at `j`, the second's, `]` at `k`. */
  lemma {:induction false} PairParts(toks: seq<L.TToken>, i: nat, t: Type) returns (j: nat, k: nat)
    requires t.PairType? && MarksAt(toks, i, TypeMarks(t))
    ensures j == i + 1 + |TypeMarks(t.first)| && k == j + 1 + |TypeMarks(t.second)| && i + |TypeMarks(t)| == k + 1
    ensures NextIsAt(toks, i, L.LeftSqrBr) && MarksAt(toks, i + 1, TypeMarks(t.first)) && NextIsAt(toks, j, L.Comma)
    ensures MarksAt(toks, j + 1, TypeMarks(t.second)) && NextIsAt(toks, k, L.RightSqrBr)
  {
    Split5(toks, i, TypeMarks(t), (L.LeftSqrBr, "["), TypeMarks(t.first), (L.Comma, ","), TypeMarks(t.second), (L.RightSqrBr, "]"));
    j := i + 1 + |TypeMarks(t.first)|;
    k := j + 1 + |TypeMarks(t.second)|;
  }

  /** `type()` on the marks of `t`, where no arrow follows, reads them all and returns `t`. */
  lemma {:induction false} ParseTypeShown(toks: seq<L.TToken>, i: nat, t: Type) returns (k: nat)
    requires ValidType(t) && MarksAt(toks, i, TypeMarks(t)) && !NextIsAt(toks, i + |TypeMarks(t)|, L.Arrow)
    ensures k == i + |TypeMarks(t)| && TypeAt(toks, i) == Ok(Parsed(t, k))
    decreases t, 1
  {
    if t.SimpleType? {
      MarkAt(toks, i, TypeMarks(t), 0);
      AtomTypeNameStep(toks, i);
      k := i + 1;
      TypeEndsAtom(toks, i, t, k);
    } else if t.PairType? {
      k := ParsePairShown(toks, i, t);
      TypeEndsAtom(toks, i, t, k);
    } else {
      k := ParseArrowShown(toks, i, t);
    }
  }

  /** An arrow: the input as an atomic type, the `->`, then the output by `type()` again. */
  lemma {:induction false} ParseArrowShown(toks: seq<L.TToken>, i: nat, t: Type) returns (k: nat)
    requires t.ArrowType? && ValidType(t) && MarksAt(toks, i, TypeMarks(t))
    requires !NextIsAt(toks, i + |TypeMarks(t)|, L.Arrow)
    ensures k == i + |TypeMarks(t)| && TypeAt(toks, i) == Ok(Parsed(t, k))
    decreases t, 0
  {
    var j := ArrowParts(toks, i, t);
    var j' := ParseAtomTypeShown(toks, i, t.input, t.input.SimpleType?);
    k := ParseTypeShown(toks, j + 1, t.output);
    TypeArrowStep(toks, i, t.input, j, t.output, k);
  }

  /** A pair: `[`, the first type, `,`, the second type, `]`. */
  lemma {:induction false} ParsePairShown(toks: seq<L.TToken>, i: nat, t: Type) returns (k: nat)
    requires t.PairType? && ValidType(t) && MarksAt(toks, i, TypeMarks(t))
    ensures k == i + |TypeMarks(t)| && AtomTypeAt(toks, i) == Ok(Parsed(t, k))
    decreases t, 0
  {
    var j, e := PairParts(toks, i, t);
    var j' := ParseTypeShown(toks, i + 1, t.first);
    var e' := ParseTypeShown(toks, j + 1, t.second);
    AtomTypePairStep(toks, i, t.first, j, t.second, e);
    k := e + 1;
  }

  /** `atomType()` on the marks of a type printed bare (a base type) or in parentheses. */
  lemma {:induction false} ParseAtomTypeShown(toks: seq<L.TToken>, i: nat, t: Type, bare: bool) returns (k: nat)
    requires ValidType(t) && (bare ==> t.SimpleType?) && MarksAt(toks, i, WrapTypeMarks(t, bare))
    ensures k == i + |WrapTypeMarks(t, bare)| && AtomTypeAt(toks, i) == Ok(Parsed(t, k))
    decreases t, 2
  {
    if bare {
      MarkAt(toks, i, TypeMarks(t), 0);
      AtomTypeNameStep(toks, i);
      k := i + 1;
    } else {
      var j := WrapTypeParts(toks, i, t);
      var j' := ParseTypeShown(toks, i + 1, t);
      AtomTypeParenStep(toks, i, t, j);
      k := j + 1;
    }
  }

  /* ---------- terms ---------- */

  /** The printer puts the right side of an application bare only where it is an identifier. */
  predicate BareRightsAreNames(n: Node, corrected: bool) {
    corrected || NoBareChainRight(n)
  }

  lemma {:induction false} BareRightIsName(n: Node, corrected: bool)
    requires n.Application? && BareRightsAreNames(n, corrected)
    ensures RightBare(n, corrected) ==> n.right.Identifier?
    ensures BareRightsAreNames(n.left, corrected) && BareRightsAreNames(n.right, corrected)
  {
  }

  /** The marks of `(n)`: the `(`, the marks of `n`, and at `j` the `)` that stops `term()`. */
  lemma {:induction false} WrapTermParts(toks: seq<L.TToken>, i: nat, n: Node, corrected: bool) returns (j: nat)
    requires MarksAt(toks, i, WrapTermMarks(n, corrected, false))
    ensures j == i + 1 + |TermMarks(n, corrected)| && i + |WrapTermMarks(n, corrected, false)| == j + 1
    ensures NextIsAt(toks, i, L.LeftPren) && MarksAt(toks, i + 1, TermMarks(n, corrected)) && NextIsAt(toks, j, L.RightPren)
  {
    Around(toks, i, WrapTermMarks(n, corrected, false), (L.LeftPren, "("), TermMarks(n, corrected), (L.RightPren, ")"));
    j := i + 1 + |TermMarks(n, corrected)|;
  }

  /** The marks of an application: its left side's, then its right side's. */
  lemma {:induction false} AppMarks(n: Node, corrected: bool)
    requires n.Application?
    ensures TermMarks(n, corrected)
            == WrapTermMarks(n.left, corrected, IsSimple(n.left)) + WrapTermMarks(n.right, corrected, RightBare(n, corrected))
  {
  }

  /** The marks of an application start with `(` or an identifier, never with `λ`. */
  lemma {:induction false} AppMarksStart(n: Node, corrected: bool)
    requires n.Application? && Readable(n)
    ensures |TermMarks(n, corrected)| > 0 && TermMarks(n, corrected)[0].0 in {L.LeftPren, L.Identifier}
    decreases n
  {
    AppMarks(n, corrected);
    var w := WrapTermMarks(n.left, corrected, IsSimple(n.left));
    if !IsSimple(n.left) {
      assert w[0] == (L.LeftPren, "(");
    } else if n.left.Application? {
      AppMarksStart(n.left, corrected);
    } else {
      assert w == [(L.Identifier, n.left.value)];
    }
    assert TermMarks(n, corrected)[0] == w[0];
  }

  /** The marks of an abstraction: `λ`, the parameter, `:`, the annotation's, `.` at `j`, the body's up to `k`. */
  lemma {:induction false} AbsParts(toks: seq<L.TToken>, i: nat, n: Node, corrected: bool) returns (j: nat, k: nat)
    requires n.Abstraction? && MarksAt(toks, i, TermMarks(n, corrected))
    ensures j == i + 3 + |TypeMarks(n.annotation)| && k == j + 1 + |TermMarks(n.body, corrected)|
    ensures k == i + |TermMarks(n, corrected)|
    ensures NextIsAt(toks, i, L.Lambda) && NextIsAt(toks, i + 1, L.Identifier) && NextIsAt(toks, i + 2, L.Colon)
    ensures toks[i + 1].value == n.parameter
    ensures MarksAt(toks, i + 3, TypeMarks(n.annotation)) && NextIsAt(toks, j, L.Dot)
    ensures MarksAt(toks, j + 1, TermMarks(n.body, corrected))
  {
    Split3(toks, i, TermMarks(n, corrected), AbsHeadMarks(n.parameter) + TypeMarks(n.annotation), (L.Dot, "."),
           TermMarks(n.body, corrected));
    MarksAtSplit(toks, i, AbsHeadMarks(n.parameter), TypeMarks(n.annotation));
    MarkAt(toks, i, AbsHeadMarks(n.parameter), 0);
    MarkAt(toks, i, AbsHeadMarks(n.parameter), 1);
    MarkAt(toks, i, AbsHeadMarks(n.parameter), 2);
    j := i + 3 + |TypeMarks(n.annotation)|;
    k := j + 1 + |TermMarks(n.body, corrected)|;
  }

  /** The marks of an application: the left side's up to `j`, then the right side's up to `k`. */
  lemma {:induction false} AppParts(toks: seq<L.TToken>, i: nat, n: Node, corrected: bool) returns (j: nat, k: nat)
    requires n.Application? && MarksAt(toks, i, TermMarks(n, corrected))
    ensures j == i + |WrapTermMarks(n.left, corrected, IsSimple(n.left))|
    ensures k == j + |WrapTermMarks(n.right, corrected, RightBare(n, corrected))| && k == i + |TermMarks(n, corrected)|
    ensures MarksAt(toks, i, WrapTermMarks(n.left, corrected, IsSimple(n.left)))
    ensures MarksAt(toks, j, WrapTermMarks(n.right, corrected, RightBare(n, corrected)))
  {
    AppMarks(n, corrected);
    MarksAtSplit(toks, i, WrapTermMarks(n.left, corrected, IsSimple(n.left)), WrapTermMarks(n.right, corrected, RightBare(n, corrected)));
    j := i + |WrapTermMarks(n.left, corrected, IsSimple(n.left))|;
    k := j + |WrapTermMarks(n.right, corrected, RightBare(n, corrected))|;
  }

  /** `term()` on the marks of `n`, followed by a stopping point, reads them all and returns `n`. */
  lemma {:induction false} ParseShown(toks: seq<L.TToken>, i: nat, n: Node, corrected: bool) returns (k: nat)
    requires Readable(n) && BareRightsAreNames(n, corrected)
    requires MarksAt(toks, i, TermMarks(n, corrected)) && Stops(toks, i + |TermMarks(n, corrected)|)
    ensures k == i + |TermMarks(n, corrected)| && ParseTerm(toks, i) == Ok(Parsed(n, k))
    decreases n, 3
  {
    if n.Identifier? {
      k := ParseIdShown(toks, i, n, corrected);
    } else if n.Abstraction? {
      k := ParseAbsShown(toks, i, n, corrected);
    } else {
      k := ParseAppShown(toks, i, n, corrected);
    }
  }

  /** An identifier alone: `application()` reads it and stops. */
  lemma {:induction false} ParseIdShown(toks: seq<L.TToken>, i: nat, n: Node, corrected: bool) returns (k: nat)
    requires n.Identifier? && MarksAt(toks, i, TermMarks(n, corrected)) && Stops(toks, i + |TermMarks(n, corrected)|)
    ensures k == i + |TermMarks(n, corrected)| && ParseTerm(toks, i) == Ok(Parsed(n, k))
  {
    MarkAt(toks, i, TermMarks(n, corrected), 0);
    TermAtOther(toks, i);
    AtomIdentifier(toks, i);
    k := i + 1;
    ApplicationStart(toks, i, n, k);
    AppLoopStops(toks, k, n);
  }

  /** An application: `application()` reads both sides and stops. */
  lemma {:induction false} ParseAppShown(toks: seq<L.TToken>, i: nat, n: Node, corrected: bool) returns (k: nat)
    requires n.Application? && Readable(n) && BareRightsAreNames(n, corrected)
    requires MarksAt(toks, i, TermMarks(n, corrected)) && Stops(toks, i + |TermMarks(n, corrected)|)
    ensures k == i + |TermMarks(n, corrected)| && ParseTerm(toks, i) == Ok(Parsed(n, k))
    decreases n, 2
  {
    AppMarksStart(n, corrected);
    MarkAt(toks, i, TermMarks(n, corrected), 0);
    TermAtOther(toks, i);
    k := ParseLeftApp(toks, i, n, corrected);
    AppLoopStops(toks, k, n);
  }

  /** An abstraction: `λ`, the parameter, `:`, the annotation read by `type()`, `.`, the body read by `term()`. */
  lemma {:induction false} ParseAbsShown(toks: seq<L.TToken>, i: nat, n: Node, corrected: bool) returns (k: nat)
    requires n.Abstraction? && Readable(n) && BareRightsAreNames(n, corrected)
    requires MarksAt(toks, i, TermMarks(n, corrected)) && Stops(toks, i + |TermMarks(n, corrected)|)
    ensures k == i + |TermMarks(n, corrected)| && ParseTerm(toks, i) == Ok(Parsed(n, k))
    decreases n, 2
  {
    var j;
    j, k := AbsParts(toks, i, n, corrected);
    AbsPieces(toks, i, n, corrected, j, k);
    TermAbsStep(toks, i, n.annotation, j, n.body, k);
  }

  /** The annotation and the body of an abstraction, each read by its own rule. */
  lemma {:induction false} AbsPieces(toks: seq<L.TToken>, i: nat, n: Node, corrected: bool, j: nat, k: nat)
    requires n.Abstraction? && Readable(n) && BareRightsAreNames(n, corrected)
    requires MarksAt(toks, i + 3, TypeMarks(n.annotation)) && j == i + 3 + |TypeMarks(n.annotation)| && NextIsAt(toks, j, L.Dot)
    requires MarksAt(toks, j + 1, TermMarks(n.body, corrected)) && k == j + 1 + |TermMarks(n.body, corrected)| && Stops(toks, k)
    ensures TypeAt(toks, i + 3) == Ok(Parsed(n.annotation, j))
    ensures ParseTerm(toks, j + 1) == Ok(Parsed(n.body, k))
    decreases n, 1
  {
    var j' := ParseTypeShown(toks, i + 3, n.annotation);
    var k' := ParseShown(toks, j + 1, n.body, corrected);
  }

  /**
   * `application()` on the marks of an application `n`: it reads them, up to `k`, and goes on with `n` as the
   * left operand of whatever follows.
   */
  lemma {:induction false} ParseLeftApp(toks: seq<L.TToken>, i: nat, n: Node, corrected: bool) returns (k: nat)
    requires n.Application? && Readable(n) && BareRightsAreNames(n, corrected)
    requires MarksAt(toks, i, TermMarks(n, corrected))
    ensures k == i + |TermMarks(n, corrected)| && ParseApplication(toks, i) == AppLoop(toks, k, n)
    decreases n, 1
  {
    var j;
    j, k := AppParts(toks, i, n, corrected);
    BareRightIsName(n, corrected);
    AppPieces(toks, i, n, corrected, j, k);
  }

  /** The two sides of an application, each read by its own rule, and then applied. */
  lemma {:induction false} AppPieces(toks: seq<L.TToken>, i: nat, n: Node, corrected: bool, j: nat, k: nat)
    requires n.Application? && Readable(n.left) && Readable(n.right)
    requires BareRightsAreNames(n.left, corrected) && BareRightsAreNames(n.right, corrected)
    requires RightBare(n, corrected) ==> n.right.Identifier?
    requires MarksAt(toks, i, WrapTermMarks(n.left, corrected, IsSimple(n.left)))
    requires j == i + |WrapTermMarks(n.left, corrected, IsSimple(n.left))|
    requires MarksAt(toks, j, WrapTermMarks(n.right, corrected, RightBare(n, corrected)))
    requires k == j + |WrapTermMarks(n.right, corrected, RightBare(n, corrected))|
    ensures ParseApplication(toks, i) == AppLoop(toks, k, n)
    decreases n, 0
  {
    var j' := ParseLeft(toks, i, n.left, corrected);
    var k' := ParseOperand(toks, j, n.right, corrected, RightBare(n, corrected));
    AppLoopStep(toks, j, n.left, n.right, k);
  }

  /** `application()` on the marks of `t` in operator position (bare when simple, else in parentheses). */
  lemma {:induction false} ParseLeft(toks: seq<L.TToken>, i: nat, t: Node, corrected: bool) returns (k: nat)
    requires Readable(t) && BareRightsAreNames(t, corrected)
    requires MarksAt(toks, i, WrapTermMarks(t, corrected, IsSimple(t)))
    ensures k == i + |WrapTermMarks(t, corrected, IsSimple(t))| && ParseApplication(toks, i) == AppLoop(toks, k, t)
    decreases t, 5
  {
    if t.Identifier? {
      MarkAt(toks, i, TermMarks(t, corrected), 0);
      AtomIdentifier(toks, i);
      k := i + 1;
      ApplicationStart(toks, i, t, k);
    } else if IsSimple(t) {
      k := ParseLeftApp(toks, i, t, corrected);
    } else {
      k := ParseOperand(toks, i, t, corrected, false);
      ApplicationStart(toks, i, t, k);
    }
  }

  /** `atom()` on the marks of `t` printed bare (an identifier) or in parentheses. */
  lemma {:induction false} ParseOperand(toks: seq<L.TToken>, i: nat, t: Node, corrected: bool, bare: bool) returns (k: nat)
    requires Readable(t) && BareRightsAreNames(t, corrected) && (bare ==> t.Identifier?)
    requires MarksAt(toks, i, WrapTermMarks(t, corrected, bare))
    ensures k == i + |WrapTermMarks(t, corrected, bare)| && ParseAtom(toks, i) == Ok(Parsed(t, k))
    decreases t, 4
  {
    if bare {
      MarkAt(toks, i, TermMarks(t, corrected), 0);
      AtomIdentifier(toks, i);
      k := i + 1;
    } else {
      var j := WrapTermParts(toks, i, t, corrected);
      var j' := ParseShown(toks, i + 1, t, corrected);
      AtomParen(toks, i, t, j);
      k := j + 1;
    }
  }

  /* ---------- the round trip ---------- */

  /** The printed text of `n` lexes to tokens `toks` whose marks are those of `n`, and to no more tokens. */
  lemma {:induction false} ShownMarks(n: Node, corrected: bool) returns (toks: seq<L.TToken>)
    requires Readable(n)
    ensures L.TokenizeSpec(ShowBy(n, corrected)) == Ok(toks)
    ensures MarksAt(toks, 0, TermMarks(n, corrected)) && |toks| == |TermMarks(n, corrected)|
  {
    TokenizeShowBy(n, corrected);
    toks := TermToks(n, corrected, 0);
    TermToksMarks(n, corrected, 0);
    MarksAtWhole(toks);
  }

  /** Printing a readable term and reading it back gives the term itself, where bare right sides are names. */
  lemma {:induction false} ShowByRoundTrip(n: Node, corrected: bool)
    requires Readable(n) && BareRightsAreNames(n, corrected)
    ensures L.TokenizeSpec(ShowBy(n, corrected)).Ok?
    ensures ParseSpec(L.TokenizeSpec(ShowBy(n, corrected)).value) == Ok(n)
  {
    var toks := ShownMarks(n, corrected);
    var k := ParseShown(toks, 0, n, corrected);
  }

  /** The corrected printer: every readable term reads back as itself. */
  lemma {:induction false} ShowCorrectedRoundTrip(n: Node)
    requires Readable(n)
    ensures L.TokenizeSpec(ShowCorrected(n)).Ok?
    ensures ParseSpec(L.TokenizeSpec(ShowCorrected(n)).value) == Ok(n)
  {
    ShowByRoundTrip(n, true);
  }

  /** The printer as written reads back as the term wherever no application chain stands bare on the right. */
  lemma {:induction false} ShowRoundTrip(n: Node)
    requires Readable(n) && NoBareChainRight(n)
    ensures L.TokenizeSpec(Show(n)).Ok?
    ensures ParseSpec(L.TokenizeSpec(Show(n)).value) == Ok(n)
  {
    ShowByRoundTrip(n, false);
  }

  /** One-letter lowercase names are identifiers the lexer reads back. */
  lemma {:induction false} ExampleNamesReadable()
    ensures ValidIdentifier("x") && ValidIdentifier("f") && ValidIdentifier("y")
  {
    assert forall k :: 0 <= k < |L.Keywords| ==> |L.Keywords[k].0| > 1;
  }

  /**
   * The printer as written loses a grouping: `(λx:Bool.x) (f y)` prints as `(λx:Bool.x) f y`, which reads
   * back as `((λx:Bool.x) f) y`.
   */
  lemma {:induction false} ShowMisgroups(n: Node)
    requires n == Application(Abstraction("x", SimpleType("Bool"), Identifier("x")), Application(Identifier("f"), Identifier("y")))
    ensures L.TokenizeSpec(Show(n)).Ok?
    ensures ParseSpec(L.TokenizeSpec(Show(n)).value) == Ok(Application(Application(n.left, n.right.left), n.right.right))
    ensures ParseSpec(L.TokenizeSpec(Show(n)).value) != Ok(n)
  {
    ExampleNamesReadable();
    BareChainMisgroups(n);
  }

  /**
   * The printer as written, on an abstraction applied to a two-name chain `f y`: the chain is printed bare, and
   * the text reads back as the abstraction applied to `f`, then to `y`.
   */
  lemma {:induction false} BareChainMisgroups(n: Node)
    requires n.Application? && n.left.Abstraction? && Readable(n) && NoBareChainRight(n.left)
    requires n.right.Application? && n.right.left.Identifier? && n.right.right.Identifier?
    ensures L.TokenizeSpec(Show(n)).Ok?
    ensures ParseSpec(L.TokenizeSpec(Show(n)).value) == Ok(Application(Application(n.left, n.right.left), n.right.right))
    ensures ParseSpec(L.TokenizeSpec(Show(n)).value) != Ok(n)
  {
    var toks := ShownMarks(n, false);
    BareChainParse(toks, n);
  }

  /** The marks of `f y` printed bare: two identifiers. */
  lemma {:induction false} BareChainMarks(toks: seq<L.TToken>, k: nat, n: Node)
    requires n.Application? && n.left.Abstraction?
    requires n.right.Application? && n.right.left.Identifier? && n.right.right.Identifier?
    requires MarksAt(toks, k, WrapTermMarks(n.right, false, RightBare(n, false)))
    ensures k + |WrapTermMarks(n.right, false, RightBare(n, false))| == k + 2
    ensures NextIsAt(toks, k, L.Identifier) && toks[k].value == n.right.left.value
    ensures NextIsAt(toks, k + 1, L.Identifier) && toks[k + 1].value == n.right.right.value
  {
    AppMarks(n.right, false);
    assert WrapTermMarks(n.right, false, RightBare(n, false)) == [(L.Identifier, n.right.left.value), (L.Identifier, n.right.right.value)];
    MarkAt(toks, k, WrapTermMarks(n.right, false, RightBare(n, false)), 0);
    MarkAt(toks, k, WrapTermMarks(n.right, false, RightBare(n, false)), 1);
  }

  /** `term()` on the marks of such a term groups the chain with the abstraction. */
  lemma {:induction false} BareChainParse(toks: seq<L.TToken>, n: Node)
    requires n.Application? && n.left.Abstraction? && Readable(n) && NoBareChainRight(n.left)
    requires n.right.Application? && n.right.left.Identifier? && n.right.right.Identifier?
    requires MarksAt(toks, 0, TermMarks(n, false)) && |toks| == |TermMarks(n, false)|
    ensures ParseTerm(toks, 0) == Ok(Parsed(Application(Application(n.left, n.right.left), n.right.right), |toks|))
  {
    var abs, f, y := n.left, n.right.left, n.right.right;
    var k, e := AppParts(toks, 0, n, false);
    BareChainMarks(toks, k, n);
    var k' := ParseOperand(toks, 0, abs, false, false);
    TermAtOther(toks, 0);
    ApplicationStart(toks, 0, abs, k);
    AtomIdentifier(toks, k);
    AppLoopStep(toks, k, abs, f, k + 1);
    AtomIdentifier(toks, k + 1);
    AppLoopStep(toks, k + 1, Application(abs, f), y, k + 2);
    AppLoopStops(toks, k + 2, Application(Application(abs, f), y));
  }

  /** The corrected printer keeps the grouping: the same term prints as `(λx:Bool.x) (f y)` and reads back as itself. */
  lemma {:induction false} ShowCorrectedKeepsGrouping(n: Node)
    requires n == Application(Abstraction("x", SimpleType("Bool"), Identifier("x")), Application(Identifier("f"), Identifier("y")))
    ensures L.TokenizeSpec(ShowCorrected(n)).Ok?
    ensures ParseSpec(L.TokenizeSpec(ShowCorrected(n)).value) == Ok(n)
  {
    ExampleNamesReadable();
    ShowCorrectedRoundTrip(n);
  }
}
