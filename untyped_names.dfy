/**
 * `free`, `bound` and `vars` of src/untyped.ts:224-264. Each collects names by structural recursion and then
 * keeps only the first occurrence of every name (`ret.filter((v, i) => ret.indexOf(v) == i)`). The predicates
 * `FreeIn`, `BoundIn` and `OccursIn` are the textbook definitions the lists are proved to enumerate.
 */
module TermNames {
  import opened UntypedTerm

  predicate Distinct(s: seq<string>) {
    forall i, j :: 0 <= i < j < |s| ==> s[i] != s[j]
  }

  /** The position of the first occurrence of `x` in `s`: JavaScript's `s.indexOf(x)` for a present element. */
  function FirstIndex(s: seq<string>, x: string): (k: nat)
    requires x in s
    ensures k < |s| && s[k] == x && x !in s[..k]
  {
    if s[0] == x then 0 else 1 + FirstIndex(s[1..], x)
  }

  /** No occurrence of `x` comes before its first one. */
  lemma {:induction false} FirstIndexLeast(s: seq<string>, x: string, k: nat)
    requires k < |s| && s[k] == x
    ensures FirstIndex(s, x) <= k
  {
    if s[0] != x {
      FirstIndexLeast(s[1..], x, k - 1);
    }
  }

  /** Within a prefix that holds `x`, its first occurrence lies inside the prefix. */
  lemma FirstIndexInPrefix(s: seq<string>, n: nat, x: string)
    requires n <= |s| && x in s[..n]
    ensures FirstIndex(s, x) < n
  {
    var k :| 0 <= k < n && s[..n][k] == x;
    FirstIndexLeast(s, x, k);
  }

  /** An element missing from a prefix first occurs after it. */
  lemma FirstIndexAfterPrefix(s: seq<string>, m: nat, x: string)
    requires m <= |s| && x in s && x !in s[..m]
    ensures FirstIndex(s, x) >= m
  {
    assert forall k :: 0 <= k < m ==> s[..m][k] == s[k];
  }

  /** The elements of `s[..n]` whose `indexOf` is their own position, in order. */
  function KeepFirst(s: seq<string>, n: nat): (r: seq<string>)
    requires n <= |s|
    ensures Distinct(r)
    ensures forall x :: x in r <==> x in s[..n]
    ensures forall x :: x in r ==> x in s
    ensures forall i, j :: 0 <= i < j < |r| ==> FirstIndex(s, r[i]) < FirstIndex(s, r[j])
  {
    if n == 0 then []
    else
      var r := KeepFirst(s, n - 1);
      assert s[..n] == s[..n - 1] + [s[n - 1]];
      assert forall x :: x in s[..n] ==> x in s;
      if s[n - 1] in s[..n - 1] then r
      else
        assert FirstIndex(s, s[n - 1]) == n - 1 by {
          FirstIndexLeast(s, s[n - 1], n - 1);
          FirstIndexAfterPrefix(s, n - 1, s[n - 1]);
        }
        forall x | x in r ensures FirstIndex(s, x) < n - 1 {
          FirstIndexInPrefix(s, n - 1, x);
        }
        r + [s[n - 1]]
  }

  /** `ret.filter((v, i) => ret.indexOf(v) == i)`: duplicates dropped, first occurrences kept in order. */
  function Dedup(s: seq<string>): (r: seq<string>)
    ensures Distinct(r)
    ensures forall x :: x in r <==> x in s
    ensures forall i, j :: 0 <= i < j < |r| ==> FirstIndex(s, r[i]) < FirstIndex(s, r[j])
  {
    assert s[..|s|] == s;
    KeepFirst(s, |s|)
  }

  /** A list without duplicates is its own deduplication. */
  lemma {:induction false} DedupDistinct(s: seq<string>)
    requires Distinct(s)
    ensures Dedup(s) == s
  {
    DistinctKeepsAll(s, |s|);
    assert s[..|s|] == s;
  }

  lemma {:induction false} DistinctKeepsAll(s: seq<string>, n: nat)
    requires n <= |s| && Distinct(s)
    ensures KeepFirst(s, n) == s[..n]
  {
    if n > 0 {
      DistinctKeepsAll(s, n - 1);
      assert s[..n] == s[..n - 1] + [s[n - 1]];
      assert forall k :: 0 <= k < n - 1 ==> s[..n - 1][k] == s[k];
      assert s[n - 1] !in s[..n - 1];
    }
  }

  /** `.filter(el => el != binding)`. */
  function Without(s: seq<string>, b: string): (r: seq<string>)
    ensures forall x :: x in r <==> x in s && x != b
    ensures |r| <= |s|
  {
    if |s| == 0 then []
    else if s[0] == b then Without(s[1..], b)
    else [s[0]] + Without(s[1..], b)
  }

  /** `x` occurs free in `t`: it names a variable that no binder around it in `t` binds. */
  predicate FreeIn(x: string, t: Term) {
    match t
    case Var(n, _) => x == n
    case Abs(b, body) => x != b && FreeIn(x, body)
    case App(l, r) => FreeIn(x, l) || FreeIn(x, r)
    case Missing => false
  }

  /** `x` is the binder of some abstraction in `t`. */
  predicate BoundIn(x: string, t: Term) {
    match t
    case Var(_, _) => false
    case Abs(b, body) => x == b || BoundIn(x, body)
    case App(l, r) => BoundIn(x, l) || BoundIn(x, r)
    case Missing => false
  }

  /** `x` names a variable or a binder somewhere in `t`. */
  predicate OccursIn(x: string, t: Term) {
    match t
    case Var(n, _) => x == n
    case Abs(b, body) => x == b || OccursIn(x, body)
    case App(l, r) => OccursIn(x, l) || OccursIn(x, r)
    case Missing => false
  }

  /** `free(ast)`: the free names of `t`, each once, in order of first appearance. */
  function Free(t: Term): (r: seq<string>)
    requires Complete(t)
    ensures Distinct(r)
    ensures forall x :: x in r <==> FreeIn(x, t)
  {
    match t
    case Var(n, _) => Dedup([n])
    case App(l, r) => Dedup(Free(l) + Free(r))
    case Abs(b, body) => Dedup(Without(Free(body), b))
  }

  /** `bound(ast)`: the binder names of `t`, each once, in order of first appearance. */
  function Bound(t: Term): (r: seq<string>)
    requires Complete(t)
    ensures Distinct(r)
    ensures forall x :: x in r <==> BoundIn(x, t)
  {
    match t
    case Var(_, _) => Dedup([])
    case App(l, r) => Dedup(Bound(l) + Bound(r))
    case Abs(b, body) => Dedup([b] + Bound(body))
  }

  /** `vars(ast)`: every variable and binder name of `t`, each once, in order of first appearance. */
  function Vars(t: Term): (r: seq<string>)
    requires Complete(t)
    ensures Distinct(r)
    ensures forall x :: x in r <==> OccursIn(x, t)
  {
    match t
    case Var(n, _) => Dedup([n])
    case App(l, r) => Dedup(Vars(l) + Vars(r))
    case Abs(b, body) => Dedup([b] + Vars(body))
  }

  /** Every name of a term is free in it or the binder of one of its abstractions, and conversely. */
  lemma {:induction false} OccursIsFreeOrBound(x: string, t: Term)
    ensures OccursIn(x, t) <==> FreeIn(x, t) || BoundIn(x, t)
  {
    match t
    case Var(_, _) =>
    case Abs(_, body) => OccursIsFreeOrBound(x, body);
    case App(l, r) => OccursIsFreeOrBound(x, l); OccursIsFreeOrBound(x, r);
    case Missing =>
  }

  /** So `vars(t)` lists exactly the names that `free(t)` or `bound(t)` list. */
  lemma VarsAreFreeOrBound(t: Term)
    requires Complete(t)
    ensures forall x :: x in Vars(t) <==> x in Free(t) || x in Bound(t)
  {
    forall x ensures OccursIn(x, t) <==> FreeIn(x, t) || BoundIn(x, t) {
      OccursIsFreeOrBound(x, t);
    }
  }

  lemma PairDistinct(a: string, b: string)
    requires a != b
    ensures Distinct([a, b])
  {
    var s := [a, b];
    assert forall i, j :: 0 <= i < j < |s| ==> s[i] == a && s[j] == b;
  }

  /** The name lists of the four terms `λx.x`, `λx.x y`, `x y` and `(λx.x) x`, as parsed. */
  lemma NamesExamples(x: string, y: string)
    requires x == "x" && y == "y"
    ensures Complete(Abs(x, Var(x, 1))) && Free(Abs(x, Var(x, 1))) == [] && Bound(Abs(x, Var(x, 1))) == [x] && Vars(Abs(x, Var(x, 1))) == [x]
    ensures var t := Abs(x, App(Var(x, 1), Var(y, 0))); Complete(t) && Free(t) == [y] && Bound(t) == [x] && Vars(t) == [x, y]
    ensures var t := App(Var(x, 0), Var(y, 0)); Complete(t) && Free(t) == [x, y] && Bound(t) == [] && Vars(t) == [x, y]
    ensures var t := App(Abs(x, Var(x, 1)), Var(x, 0)); Complete(t) && Free(t) == [x] && Bound(t) == [x] && Vars(t) == [x]
  {
    assert x != y by { assert x[0] != y[0]; }
    NamesOfIdentity(x);
    NamesOfBinderApplied(x, y);
    NamesOfPair(x, y);
    NamesOfIdentityApplied(x);
  }

  /** `λx.x`: no free name, and `x` bound. */
  lemma NamesOfIdentity(x: string)
    ensures Complete(Abs(x, Var(x, 1))) && Free(Abs(x, Var(x, 1))) == [] && Bound(Abs(x, Var(x, 1))) == [x] && Vars(Abs(x, Var(x, 1))) == [x]
  {
    var t := Abs(x, Var(x, 1));
    FreeInOrder(t);
    BoundInOrder(t);
    VarsInOrder(t);
    ExampleOccurrences(x, x);
    DedupSmall(x, x);
  }

  /** `λx.x y` for distinct `x` and `y`: `y` free, `x` bound, and `x` listed before `y`. */
  lemma NamesOfBinderApplied(x: string, y: string)
    requires x != y
    ensures var t := Abs(x, App(Var(x, 1), Var(y, 0))); Complete(t) && Free(t) == [y] && Bound(t) == [x] && Vars(t) == [x, y]
  {
    var t := Abs(x, App(Var(x, 1), Var(y, 0)));
    FreeInOrder(t);
    BoundInOrder(t);
    VarsInOrder(t);
    ExampleOccurrences(x, y);
    DedupSmall(x, y);
    DedupSmall(y, y);
  }

  /** `x y` for distinct `x` and `y`: both free, in that order, and nothing bound. */
  lemma NamesOfPair(x: string, y: string)
    requires x != y
    ensures var t := App(Var(x, 0), Var(y, 0)); Complete(t) && Free(t) == [x, y] && Bound(t) == [] && Vars(t) == [x, y]
  {
    var t := App(Var(x, 0), Var(y, 0));
    FreeInOrder(t);
    BoundInOrder(t);
    VarsInOrder(t);
    ExampleOccurrences(x, y);
    DedupSmall(x, y);
  }

  /** `(λx.x) x`: the one name `x` is free (its last occurrence), bound, and listed once. */
  lemma NamesOfIdentityApplied(x: string)
    ensures var t := App(Abs(x, Var(x, 1)), Var(x, 0)); Complete(t) && Free(t) == [x] && Bound(t) == [x] && Vars(t) == [x]
  {
    var t := App(Abs(x, Var(x, 1)), Var(x, 0));
    FreeInOrder(t);
    BoundInOrder(t);
    VarsInOrder(t);
    ExampleOccurrences(x, x);
    DedupSmall(x, x);
  }

  /** The occurrence lists of the example terms. */
  lemma ExampleOccurrences(x: string, y: string)
    ensures var t := Abs(x, Var(x, 1));
            Complete(t) && FreeOccurrences(t) == [] && BinderOccurrences(t) == [x] && Occurrences(t) == [x, x]
    ensures var t := Abs(x, App(Var(x, 1), Var(y, 0)));
            Complete(t) && (x != y ==> FreeOccurrences(t) == [y]) && BinderOccurrences(t) == [x] && Occurrences(t) == [x, x, y]
    ensures var t := App(Var(x, 0), Var(y, 0));
            Complete(t) && FreeOccurrences(t) == [x, y] && BinderOccurrences(t) == [] && Occurrences(t) == [x, y]
    ensures var t := App(Abs(x, Var(x, 1)), Var(x, 0));
            Complete(t) && FreeOccurrences(t) == [x] && BinderOccurrences(t) == [x] && Occurrences(t) == [x, x, x]
  {
    WithoutSmall(x, y);
    var none: seq<string> := [];
    assert Complete(Var(x, 1)) && Complete(Var(y, 0)) && Complete(Var(x, 0));
    assert FreeOccurrences(Var(x, 1)) == [x] && FreeOccurrences(Var(y, 0)) == [y] && FreeOccurrences(Var(x, 0)) == [x];
    assert BinderOccurrences(Var(x, 1)) == none && BinderOccurrences(Var(y, 0)) == none && BinderOccurrences(Var(x, 0)) == none;
    assert Occurrences(Var(x, 1)) == [x] && Occurrences(Var(y, 0)) == [y] && Occurrences(Var(x, 0)) == [x];
    var app := App(Var(x, 1), Var(y, 0));
    assert Complete(app);
    assert FreeOccurrences(app) == [x] + [y] && BinderOccurrences(app) == none + none && Occurrences(app) == [x] + [y];
    var id := Abs(x, Var(x, 1));
    assert Complete(id);
    assert FreeOccurrences(id) == Without([x], x) && BinderOccurrences(id) == [x] + none && Occurrences(id) == [x] + [x];
    assert [x] + none == [x] && none + none == none && [x] + [x] == [x, x] && [x] + [y] == [x, y];
    assert [x] + [x, y] == [x, x, y] && [x, x] + [x] == [x, x, x] && none + [x] == [x];
  }

  /** Deduplicating the short lists of the examples: a repeated `x` is dropped wherever it recurs. */
  lemma DedupSmall(x: string, y: string)
    ensures Dedup([]) == [] && Dedup([x]) == [x]
    ensures Dedup([x, y]) == if x == y then [x] else [x, y]
    ensures Dedup([x, x, y]) == if x == y then [x] else [x, y]
  {
    DedupIsKeepNew([]);
    DedupIsKeepNew([x]);
    DedupIsKeepNew([x, y]);
    DedupIsKeepNew([x, x, y]);
    KeepNewSmall(x, y);
  }

  lemma KeepNewSmall(x: string, y: string)
    ensures KeepNew([x], {}) == [x]
    ensures KeepNew([x, y], {}) == if x == y then [x] else [x, y]
    ensures KeepNew([x, x, y], {}) == if x == y then [x] else [x, y]
  {
    var none: set<string> := {};
    assert none + {x} == {x};
    assert [x] == [x] + [] && [x, y] == [x] + [y] && [x, x, y] == [x] + [x, y] && [y] == [y] + [];
    KeepNewCons(x, [], none);
    KeepNewCons(y, [], {x});
    KeepNewCons(x, [y], none);
    KeepNewCons(x, [y], {x});
    KeepNewCons(x, [x, y], none);
  }

  lemma WithoutSmall(x: string, y: string)
    ensures Without([x], x) == []
    ensures x != y ==> Without([x, y], x) == [y]
  {
    assert [x][1..] == [] && [x, y][1..] == [y] && [y][1..] == [];
    assert Without([y], x) == [y] + Without([], x) || x == y;
  }

  lemma KeepNewCons(x: string, s: seq<string>, seen: set<string>)
    ensures KeepNew([x] + s, seen) == if x in seen then KeepNew(s, seen) else [x] + KeepNew(s, seen + {x})
  {
    assert ([x] + s)[0] == x && ([x] + s)[1..] == s;
  }

  /** The names of `s`, as a set. */
  function Elems(s: seq<string>): (r: set<string>)
    ensures forall x :: x in r <==> x in s
  {
    if |s| == 0 then {} else {s[0]} + Elems(s[1..])
  }

  /** Reading `s` left to right, the names not yet in `seen`, each kept where it first appears. */
  function KeepNew(s: seq<string>, seen: set<string>): (r: seq<string>)
    ensures forall x :: x in r <==> x in s && x !in seen
  {
    if |s| == 0 then []
    else if s[0] in seen then KeepNew(s[1..], seen)
    else [s[0]] + KeepNew(s[1..], seen + {s[0]})
  }

  lemma {:induction false} KeepNewAppend(a: seq<string>, b: seq<string>, seen: set<string>)
    ensures KeepNew(a + b, seen) == KeepNew(a, seen) + KeepNew(b, seen + Elems(a))
  {
    if |a| == 0 {
      assert a + b == b && seen + Elems(a) == seen;
    } else {
      assert (a + b)[1..] == a[1..] + b;
      if a[0] in seen {
        KeepNewAppend(a[1..], b, seen);
        assert seen + Elems(a[1..]) == seen + Elems(a);
      } else {
        KeepNewAppend(a[1..], b, seen + {a[0]});
        assert seen + {a[0]} + Elems(a[1..]) == seen + Elems(a);
      }
    }
  }

  /** Filtering twice is filtering once against both sets. */
  lemma {:induction false} KeepNewTwice(s: seq<string>, seen: set<string>, more: set<string>)
    ensures KeepNew(KeepNew(s, seen), more) == KeepNew(s, seen + more)
  {
    if |s| > 0 {
      var x := s[0];
      if x in seen {
        KeepNewTwice(s[1..], seen, more);
      } else {
        KeepNewTwice(s[1..], seen + {x}, more);
        if x in more {
          KeepNewTwice(s[1..], seen + {x}, more);
          assert seen + {x} + more == seen + more;
        } else {
          KeepNewTwice(s[1..], seen + {x}, more + {x});
          assert KeepNew(KeepNew(s[1..], seen + {x}), more + {x}) == KeepNew(s[1..], seen + {x} + (more + {x}));
          assert seen + {x} + (more + {x}) == seen + more + {x};
        }
      }
    }
  }

  /** Dropping a name and then filtering is filtering with that name already seen. */
  lemma {:induction false} KeepNewWithout(s: seq<string>, b: string, seen: set<string>)
    ensures KeepNew(Without(s, b), seen) == KeepNew(s, seen + {b})
  {
    if |s| > 0 {
      var x := s[0];
      if x == b {
        KeepNewWithout(s[1..], b, seen);
      } else if x in seen {
        KeepNewWithout(s[1..], b, seen);
      } else {
        KeepNewWithout(s[1..], b, seen + {x});
        assert seen + {x} + {b} == seen + {b} + {x};
      }
    }
  }

  lemma {:induction false} KeepFirstIsKeepNew(s: seq<string>, n: nat)
    requires n <= |s|
    ensures KeepFirst(s, n) == KeepNew(s[..n], {})
  {
    if n > 0 {
      KeepFirstIsKeepNew(s, n - 1);
      var x, front := s[n - 1], s[..n - 1];
      KeepFirstStep(s, n);
      KeepNewLast(front, x);
      assert s[..n] == front + [x];
    }
  }

  lemma KeepFirstStep(s: seq<string>, n: nat)
    requires 0 < n <= |s|
    ensures KeepFirst(s, n) == KeepFirst(s, n - 1) + (if s[n - 1] in s[..n - 1] then [] else [s[n - 1]])
  {
  }

  lemma KeepNewLast(front: seq<string>, x: string)
    ensures KeepNew(front + [x], {}) == KeepNew(front, {}) + (if x in front then [] else [x])
  {
    KeepNewAppend(front, [x], {});
    var none: set<string> := {};
    assert none + Elems(front) == Elems(front);
    assert KeepNew([x], Elems(front)) == if x in front then [] else [x];
  }

  /** `Dedup` read front to back: each name where it first appears, the later copies dropped. */
  lemma DedupIsKeepNew(s: seq<string>)
    ensures Dedup(s) == KeepNew(s, {})
  {
    KeepFirstIsKeepNew(s, |s|);
    assert s[..|s|] == s;
  }

  /** Deduplicating the parts first changes nothing: `[...dedup(a), ...dedup(b)]` deduplicates as `a + b` does. */
  lemma DedupConcat(a: seq<string>, b: seq<string>)
    ensures Dedup(Dedup(a) + Dedup(b)) == Dedup(a + b)
  {
    DedupIsKeepNew(a);
    DedupIsKeepNew(b);
    DedupIsKeepNew(a + b);
    var ka, kb := KeepNew(a, {}), KeepNew(b, {});
    DedupIsKeepNew(ka + kb);
    KeepNewAppend(ka, kb, {});
    KeepNewAppend(a, b, {});
    KeepNewTwice(a, {}, {});
    KeepNewTwice(b, {}, {} + Elems(ka));
    var none: set<string> := {};
    assert none + Elems(ka) == none + Elems(a);
    assert none + none == none && none + (none + Elems(a)) == none + Elems(a);
  }

  /** The same for dropping a binder from a deduplicated list. */
  lemma DedupWithout(s: seq<string>, b: string)
    ensures Dedup(Without(Dedup(s), b)) == Dedup(Without(s, b))
  {
    DedupIsKeepNew(s);
    DedupIsKeepNew(Without(KeepNew(s, {}), b));
    DedupIsKeepNew(Without(s, b));
    KeepNewWithout(KeepNew(s, {}), b, {});
    KeepNewWithout(s, b, {});
    var none: set<string> := {};
    KeepNewTwice(s, none, none + {b});
    assert none + (none + {b}) == none + {b};
  }

  /** And for putting a binder in front of a deduplicated list. */
  lemma DedupCons(b: string, s: seq<string>)
    ensures Dedup([b] + Dedup(s)) == Dedup([b] + s)
  {
    DedupIsKeepNew(s);
    DedupIsKeepNew([b] + KeepNew(s, {}));
    DedupIsKeepNew([b] + s);
    assert ([b] + KeepNew(s, {}))[1..] == KeepNew(s, {});
    assert ([b] + s)[1..] == s;
    var none: set<string> := {};
    KeepNewTwice(s, none, none + {b});
    assert none + (none + {b}) == none + {b};
  }

  /** The free variable occurrences of `t`, left to right, repeats kept. */
  function FreeOccurrences(t: Term): (r: seq<string>)
    requires Complete(t)
    ensures forall x :: x in r <==> FreeIn(x, t)
  {
    match t
    case Var(n, _) => [n]
    case Abs(b, body) => Without(FreeOccurrences(body), b)
    case App(l, r) => FreeOccurrences(l) + FreeOccurrences(r)
  }

  /** The binders of `t`, left to right, repeats kept. */
  function BinderOccurrences(t: Term): (r: seq<string>)
    requires Complete(t)
    ensures forall x :: x in r <==> BoundIn(x, t)
  {
    match t
    case Var(_, _) => []
    case Abs(b, body) => [b] + BinderOccurrences(body)
    case App(l, r) => BinderOccurrences(l) + BinderOccurrences(r)
  }

  /** Every binder and variable of `t`, left to right, repeats kept. */
  function Occurrences(t: Term): (r: seq<string>)
    requires Complete(t)
    ensures forall x :: x in r <==> OccursIn(x, t)
  {
    match t
    case Var(n, _) => [n]
    case Abs(b, body) => [b] + Occurrences(body)
    case App(l, r) => Occurrences(l) + Occurrences(r)
  }

  /** `free(t)` lists the free occurrences of `t` with every name kept where it first appears. */
  lemma {:induction false} FreeInOrder(t: Term)
    requires Complete(t)
    ensures Free(t) == Dedup(FreeOccurrences(t))
  {
    match t
    case Var(_, _) =>
    case Abs(b, body) =>
      FreeInOrder(body);
      DedupWithout(FreeOccurrences(body), b);
    case App(l, r) =>
      FreeInOrder(l);
      FreeInOrder(r);
      DedupConcat(FreeOccurrences(l), FreeOccurrences(r));
  }

  /** `bound(t)` lists the binders of `t` with every name kept where it first appears. */
  lemma {:induction false} BoundInOrder(t: Term)
    requires Complete(t)
    ensures Bound(t) == Dedup(BinderOccurrences(t))
  {
    match t
    case Var(_, _) =>
    case Abs(b, body) =>
      BoundInOrder(body);
      DedupCons(b, BinderOccurrences(body));
    case App(l, r) =>
      BoundInOrder(l);
      BoundInOrder(r);
      DedupConcat(BinderOccurrences(l), BinderOccurrences(r));
  }

  /** `vars(t)` lists the names of `t` with every name kept where it first appears. */
  lemma {:induction false} VarsInOrder(t: Term)
    requires Complete(t)
    ensures Vars(t) == Dedup(Occurrences(t))
  {
    match t
    case Var(_, _) =>
    case Abs(b, body) =>
      VarsInOrder(body);
      DedupCons(b, Occurrences(body));
    case App(l, r) =>
      VarsInOrder(l);
      VarsInOrder(r);
      DedupConcat(Occurrences(l), Occurrences(r));
  }
}
