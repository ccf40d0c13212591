/**
 * The three fixpoint loops of src/untyped.ts: `evaluate` (lines 320-326) repeats `evalOnce`, and
 * `forwardAlias` and `backwardAlias` (lines 384-415) repeat `forAlsOnce` and `bakAlsOnce`. Each loop stops at
 * the first pair of successive iterates that `equals` each other and returns the second of the pair. The
 * source loops for ever when no pair settles; here the number of turns is bounded by a fuel parameter, and
 * running out of fuel is a result of its own.
 */
module Evaluation {
  import opened Wrappers
  import opened UntypedTerm
  import opened TermNames
  import opened Substitution
  import opened Aliasing

  /**
   * The step a loop repeats: `evalOnce`, or `forAlsOnce` / `bakAlsOnce` over the given alias table; the first
   * two substitute as written, or correctedly when `corrected` holds.
   */
  datatype Pass =
    | Reduce(corrected: bool)
    | Forward(aliases: seq<(string, Term)>, corrected: bool)
    | Backward(aliases: seq<(string, Term)>)

  /** The terms a step takes: a well-formed term (with well-formed alias values), any term for `bakAlsOnce`. */
  predicate Applies(p: Pass, e: Term) {
    match p
    case Reduce(_) => WF(e)
    case Forward(als, _) => WF(e) && ValuesWF(als)
    case Backward(_) => true
  }

  /** One step. */
  function Apply(p: Pass, e: Term): (r: Term)
    requires Applies(p, e)
    ensures Applies(p, r)
  {
    match p
    case Reduce(c) => EvalOnce(e, c)
    case Forward(als, c) => ForAls(als, e, c)
    case Backward(als) => BakAls(als, e)
  }

  /** The step applied `n` times. */
  function Iterate(p: Pass, e: Term, n: nat): (r: Term)
    requires Applies(p, e)
    ensures Applies(p, r)
  {
    if n == 0 then e else Apply(p, Iterate(p, e, n - 1))
  }

  /** The `n+1`-th iterate `equals` the next one: the point where the loop stops. */
  predicate Settles(p: Pass, e: Term, n: nat)
    requires Applies(p, e)
  {
    Equals(Iterate(p, e, n + 1), Iterate(p, e, n + 2))
  }

  /** No iterate before the `n`-th settles. */
  predicate UnsettledBefore(p: Pass, e: Term, n: nat)
    requires Applies(p, e)
  {
    forall k: nat :: k < n ==> !Settles(p, e, k)
  }

  /** What the loop returns when it starts looking at the `i`-th pair and may go on up to the `fuel`-th. */
  function FixFrom(p: Pass, e: Term, i: nat, fuel: nat): (r: Option<Term>)
    requires Applies(p, e)
    ensures r.Some? ==> Applies(p, r.value)
    decreases fuel + 1 - i
  {
    if i > fuel then None
    else if Settles(p, e, i) then Some(Iterate(p, e, i + 2))
    else FixFrom(p, e, i + 1, fuel)
  }

  /** What the loop returns with `fuel` turns: `None` when it would still be running. */
  function Fixpoint(p: Pass, e: Term, fuel: nat): (r: Option<Term>)
    requires Applies(p, e)
    ensures r.Some? ==> Applies(p, r.value)
  {
    FixFrom(p, e, 0, fuel)
  }

  /**
   * The loop returns the iterate after the first pair that settles, and returns nothing only when no pair
   * within the fuel settles.
   */
  lemma FixpointSettles(p: Pass, e: Term, fuel: nat)
    requires Applies(p, e)
    ensures Fixpoint(p, e, fuel).Some? ==>
      exists n: nat :: n <= fuel && Settles(p, e, n) && UnsettledBefore(p, e, n) && Fixpoint(p, e, fuel).value == Iterate(p, e, n + 2)
    ensures Fixpoint(p, e, fuel).None? ==> UnsettledBefore(p, e, fuel + 1)
  {
    var n := FixFromSettles(p, e, 0, fuel);
  }

  /** The pair `n` at which the loop started at pair `i` stops, when it stops. */
  lemma {:induction false} FixFromSettles(p: Pass, e: Term, i: nat, fuel: nat) returns (n: nat)
    requires Applies(p, e) && i <= fuel + 1 && UnsettledBefore(p, e, i)
    ensures FixFrom(p, e, i, fuel).Some? ==>
      n <= fuel && Settles(p, e, n) && UnsettledBefore(p, e, n) && FixFrom(p, e, i, fuel).value == Iterate(p, e, n + 2)
    ensures FixFrom(p, e, i, fuel).None? ==> UnsettledBefore(p, e, fuel + 1)
    decreases fuel + 1 - i
  {
    n := i;
    if i > fuel {
      assert i == fuel + 1;
    } else if Settles(p, e, i) {
      assert FixFrom(p, e, i, fuel) == Some(Iterate(p, e, i + 2));
    } else {
      UnsettledPrefix(p, e, i);
      n := FixFromSettles(p, e, i + 1, fuel);
      assert FixFrom(p, e, i, fuel) == FixFrom(p, e, i + 1, fuel);
    }
  }

  /** One more iterate that does not settle extends the run of unsettled ones. */
  lemma UnsettledPrefix(p: Pass, e: Term, i: nat)
    requires Applies(p, e) && !Settles(p, e, i) && UnsettledBefore(p, e, i)
    ensures UnsettledBefore(p, e, i + 1)
  {
  }

  /** The iterate after the `n`-th is one more step of it. */
  lemma IterateNext(p: Pass, e: Term, n: nat)
    requires Applies(p, e)
    ensures Iterate(p, e, n + 1) == Apply(p, Iterate(p, e, n))
  {
  }

  /** A loop turn that finds no settled pair goes on to the next pair. */
  lemma FixFromNext(p: Pass, e: Term, i: nat, fuel: nat)
    requires Applies(p, e) && i < fuel && !Equals(Iterate(p, e, i + 1), Iterate(p, e, i + 2))
    ensures FixFrom(p, e, i, fuel) == FixFrom(p, e, i + 1, fuel)
  {
  }

  /** A loop turn that finds a settled pair returns its second iterate. */
  lemma FixFromStop(p: Pass, e: Term, i: nat, fuel: nat)
    requires Applies(p, e) && i <= fuel && Equals(Iterate(p, e, i + 1), Iterate(p, e, i + 2))
    ensures FixFrom(p, e, i, fuel) == Some(Iterate(p, e, i + 2))
  {
  }

  /** The last allowed pair that does not settle leaves the loop without a result. */
  lemma FixFromOut(p: Pass, e: Term, fuel: nat)
    requires Applies(p, e) && !Equals(Iterate(p, e, fuel + 1), Iterate(p, e, fuel + 2))
    ensures FixFrom(p, e, fuel, fuel) == None
  {
  }

  /** The names a step may bring in: none for `evalOnce`, the alias values' for `forAlsOnce`, the alias names for `bakAlsOnce`. */
  ghost predicate Introduces(p: Pass, y: string) {
    match p
    case Reduce(_) => false
    case Forward(als, _) => exists i :: 0 <= i < |als| && FreeIn(y, als[i].1)
    case Backward(als) => y in Keys(als)
  }

  /** A free name after a step was free before it, or one the step brings in. */
  lemma ApplyFreeFrom(p: Pass, e: Term, y: string)
    requires Applies(p, e)
    ensures FreeIn(y, Apply(p, e)) ==> FreeIn(y, e) || Introduces(p, y)
  {
    match p
    case Reduce(c) => EvalOnceFreeFrom(y, e, c);
    case Forward(als, c) => ForAlsFreeFrom(y, als, e, c);
    case Backward(als) => BakAlsFreeFrom(y, als, e);
  }

  /** A free name of any iterate was free in the start term, or is one the step brings in. */
  lemma {:induction false} IterateFreeFrom(p: Pass, e: Term, n: nat, y: string)
    requires Applies(p, e)
    ensures FreeIn(y, Iterate(p, e, n)) ==> FreeIn(y, e) || Introduces(p, y)
  {
    if n > 0 {
      IterateFreeFrom(p, e, n - 1, y);
      ApplyFreeFrom(p, Iterate(p, e, n - 1), y);
    }
  }

  /** A term the loop returns has only free names of `e` or ones the step brings in. */
  lemma FixpointFreeFrom(p: Pass, e: Term, fuel: nat, y: string)
    requires Applies(p, e)
    ensures Fixpoint(p, e, fuel).Some? ==> (FreeIn(y, Fixpoint(p, e, fuel).value) ==> FreeIn(y, e) || Introduces(p, y))
  {
    FixpointSettles(p, e, fuel);
    if Fixpoint(p, e, fuel).Some? {
      var n: nat :| n <= fuel && Settles(p, e, n) && UnsettledBefore(p, e, n) && Fixpoint(p, e, fuel).value == Iterate(p, e, n + 2);
      IterateFreeFrom(p, e, n + 2, y);
    }
  }

  /**
   * `evaluate(expr)`, with at most `fuel` turns of its loop; `FixpointFreeFrom` with `Reduce` says that a
   * term it returns has no free name that `expr` did not have.
   */
  method Evaluate(e: Term, fuel: nat, corrected: bool) returns (r: Option<Term>)
    requires WF(e)
    ensures r == Fixpoint(Reduce(corrected), e, fuel)
  {
    var p := Reduce(corrected);
    var eval1 := EvalOnce(e, corrected);
    var eval2 := EvalOnce(eval1, corrected);
    var i: nat := 0;
    while !Equals(eval1, eval2)
      invariant i <= fuel
      invariant eval1 == Iterate(p, e, i + 1) && eval2 == Iterate(p, e, i + 2)
      invariant FixFrom(p, e, i, fuel) == Fixpoint(p, e, fuel)
      decreases fuel - i
    {
      if i == fuel {
        return None;
      }
      var next := EvalOnce(eval2, corrected);
      eval1, eval2 := eval2, next;
      i := i + 1;
    }
    return Some(eval2);
  }
}
