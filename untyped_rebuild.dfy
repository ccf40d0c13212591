/**
 * What the untyped parser (src/untyped.ts:164-218) makes of a printed term, as a function on terms: every
 * variable is looked up through the swap table and indexed against the binder stack, and a binder that is
 * already on the stack is replaced by `fresh(stack)` with a swap entry for its body. `ShowParsing` proves that
 * parsing the tokens of `Show(t)` gives exactly `Rebuild(t, [], map[])`.
 */
module Rebuilding {
  import opened ParserBase
  import opened UntypedLexer
  import opened UntypedTerm
  import opened FreshNames
  import opened TermNames

  /** The term and the swap table that the parser produces for the text of `t` under binders `ids` and swaps `sw`. */
  function Rebuild(t: Term, ids: seq<string>, sw: map<string, string>): (r: (Term, map<string, string>))
    ensures SameShape(t, r.0)
  {
    match t
    case Var(n, _) =>
      var m := SwapIn(sw, n);
      (Var(m, IndexIn(ids, m)), sw)
    case Abs(b, body) =>
      if IndexIn(ids, b) == 0 then
        var inner := Rebuild(body, ids + [b], sw);
        (Abs(b, inner.0), inner.1)
      else
        var f := FreshName(ids);
        var inner := Rebuild(body, ids + [f], sw[b := f]);
        (Abs(f, inner.0), inner.1 - {b})
    case App(l, r) =>
      var left := Rebuild(l, ids, sw);
      var right := Rebuild(r, ids, left.1);
      (App(left.0, right.0), right.1)
    case Missing => (Missing, sw)
  }

  /** Every name the swap table sends to is an identifier. */
  predicate SwapsValid(sw: map<string, string>) {
    forall k :: k in sw ==> ValidName(sw[k])
  }

  /** Rebuilding keeps a term well formed, and the swap table keeps sending to identifiers. */
  lemma {:induction false} RebuildWF(t: Term, ids: seq<string>, sw: map<string, string>)
    requires WF(t) && SwapsValid(sw)
    ensures WF(Rebuild(t, ids, sw).0) && SwapsValid(Rebuild(t, ids, sw).1)
  {
    match t
    case Var(n, _) =>
    case Abs(b, body) =>
      if IndexIn(ids, b) == 0 {
        RebuildWF(body, ids + [b], sw);
      } else {
        var f := FreshName(ids);
        FreshNameSpec(ids);
        RebuildWF(body, ids + [f], sw[b := f]);
      }
    case App(l, r) =>
      RebuildWF(l, ids, sw);
      RebuildWF(r, ids, Rebuild(l, ids, sw).1);
  }

  /**
   * The form the parser produces: every variable carries the distance to the innermost binder of its name
   * (0 when there is none), and no binder repeats a name already bound around it.
   */
  predicate Canonical(t: Term, ids: seq<string>) {
    match t
    case Var(n, k) => k == IndexIn(ids, n)
    case Abs(b, body) => b !in ids && Canonical(body, ids + [b])
    case App(l, r) => Canonical(l, ids) && Canonical(r, ids)
    case Missing => false
  }

  /** Whatever the input, the rebuilt term is canonical (when it is complete). */
  lemma {:induction false} RebuildCanonical(t: Term, ids: seq<string>, sw: map<string, string>)
    requires Complete(t)
    ensures Canonical(Rebuild(t, ids, sw).0, ids)
  {
    match t
    case Var(n, _) =>
    case Abs(b, body) =>
      if IndexIn(ids, b) == 0 {
        RebuildCanonical(body, ids + [b], sw);
      } else {
        FreshNameSpec(ids);
        RebuildCanonical(body, ids + [FreshName(ids)], sw[b := FreshName(ids)]);
      }
    case App(l, r) =>
      RebuildCanonical(l, ids, sw);
      RebuildCanonical(r, ids, Rebuild(l, ids, sw).1);
  }

  /** A canonical term is rebuilt as itself, and no swap is ever made. */
  lemma {:induction false} CanonicalIsFixed(t: Term, ids: seq<string>)
    requires Canonical(t, ids)
    ensures Rebuild(t, ids, map[]) == (t, map[])
  {
    match t
    case Var(n, k) =>
    case Abs(b, body) =>
      CanonicalIsFixed(body, ids + [b]);
    case App(l, r) =>
      CanonicalIsFixed(l, ids);
      CanonicalIsFixed(r, ids);
  }

  /** Rebuilding twice is rebuilding once. */
  lemma RebuildIdempotent(t: Term)
    requires Complete(t)
    ensures Rebuild(Rebuild(t, [], map[]).0, [], map[]).0 == Rebuild(t, [], map[]).0
  {
    RebuildCanonical(t, [], map[]);
    CanonicalIsFixed(Rebuild(t, [], map[]).0, []);
  }

  /** Every name the swap table sends to is on the binder stack. */
  predicate SwapsInto(sw: map<string, string>, ids: seq<string>) {
    forall k :: k in sw ==> sw[k] in ids
  }

  /** Every entry of `a` is an entry of `b`. */
  predicate SubMap(a: map<string, string>, b: map<string, string>) {
    forall k :: k in a ==> k in b && a[k] == b[k]
  }

  /** The swap table left behind is part of the one given: entries are only ever removed. */
  lemma {:induction false} RebuildSwapsShrink(t: Term, ids: seq<string>, sw: map<string, string>)
    ensures SubMap(Rebuild(t, ids, sw).1, sw)
  {
    match t
    case Var(_, _) =>
    case Abs(b, body) =>
      if IndexIn(ids, b) == 0 {
        RebuildSwapsShrink(body, ids + [b], sw);
      } else {
        var f := FreshName(ids);
        var inner := Rebuild(body, ids + [f], sw[b := f]);
        RebuildSwapsShrink(body, ids + [f], sw[b := f]);
        assert Rebuild(t, ids, sw).1 == inner.1 - {b};
        forall k | k in inner.1 - {b} ensures k in sw && (inner.1 - {b})[k] == sw[k] {
          assert k in inner.1 && k != b;
        }
      }
    case App(l, r) =>
      RebuildSwapsShrink(l, ids, sw);
      RebuildSwapsShrink(r, ids, Rebuild(l, ids, sw).1);
    case Missing =>
  }

  /** A name free in the rebuilt term and not on the stack was already free in `t`: no free name is invented. */
  lemma {:induction false} RebuildFreeFrom(x: string, t: Term, ids: seq<string>, sw: map<string, string>)
    requires SwapsInto(sw, ids) && x !in ids
    requires FreeIn(x, Rebuild(t, ids, sw).0)
    ensures FreeIn(x, t)
  {
    match t
    case Var(_, _) =>
    case Abs(b, body) =>
      if IndexIn(ids, b) == 0 {
        RebuildFreeFrom(x, body, ids + [b], sw);
      } else {
        var f := FreshName(ids);
        RebuildFreeFrom(x, body, ids + [f], sw[b := f]);
      }
    case App(l, r) =>
      var left := Rebuild(l, ids, sw);
      if FreeIn(x, left.0) {
        RebuildFreeFrom(x, l, ids, sw);
      } else {
        RebuildSwapsShrink(l, ids, sw);
        forall k | k in left.1 ensures left.1[k] in ids {
          assert k in sw && left.1[k] == sw[k];
        }
        RebuildFreeFrom(x, r, ids, left.1);
      }
  }

  /** `x` has the form `f<k>` of the names `fresh` hands out. */
  ghost predicate FreshLike(x: string) {
    exists k: nat :: x == Candidate(k)
  }

  /**
   * A free name of `t` stays free in the rebuilt term, unless it has the form of a fresh name: a renamed binder
   * `f<k>` can capture it, as `FreshNameCaptures` shows.
   */
  lemma {:induction false} RebuildKeepsFree(x: string, t: Term, ids: seq<string>, sw: map<string, string>)
    requires x !in ids && x !in sw && !FreshLike(x)
    requires FreeIn(x, t)
    ensures FreeIn(x, Rebuild(t, ids, sw).0)
  {
    match t
    case Var(_, _) =>
    case Abs(b, body) =>
      if IndexIn(ids, b) == 0 {
        RebuildKeepsFree(x, body, ids + [b], sw);
      } else {
        var f := FreshName(ids);
        assert x != f;
        RebuildKeepsFree(x, body, ids + [f], sw[b := f]);
      }
    case App(l, r) =>
      RebuildSwapsShrink(l, ids, sw);
      if FreeIn(x, l) {
        RebuildKeepsFree(x, l, ids, sw);
      } else {
        RebuildKeepsFree(x, r, ids, Rebuild(l, ids, sw).1);
      }
  }

  /** The intended reading of a printed term: every variable refers to the innermost binder of its name around it. */
  function Scoped(t: Term, names: seq<string>): (r: Term)
    ensures SameShape(t, r)
  {
    match t
    case Var(n, _) => Var(n, IndexIn(names, n))
    case Abs(b, body) => Abs(b, Scoped(body, names + [b]))
    case App(l, r) => App(Scoped(l, names), Scoped(r, names))
    case Missing => Missing
  }

  /**
   * The parser with its two scoping slips corrected: a binder that shadows one around it is renamed away from
   * the names of its body as well as from the binders in scope, and the swap table of the enclosing scope is
   * restored, not cleared, when the binder's scope ends (so each sub-term is read with the table it starts with).
   */
  function RebuildCorrected(t: Term, ids: seq<string>, sw: map<string, string>): (r: Term)
    requires Complete(t)
    ensures SameShape(t, r)
  {
    match t
    case Var(n, _) =>
      var m := SwapIn(sw, n);
      Var(m, IndexIn(ids, m))
    case Abs(b, body) =>
      if IndexIn(ids, b) == 0 then
        Abs(b, RebuildCorrected(body, ids + [b], sw))
      else
        var f := FreshName(ids + Vars(body));
        Abs(f, RebuildCorrected(body, ids + [f], sw[b := f]))
    case App(l, r) => App(RebuildCorrected(l, ids, sw), RebuildCorrected(r, ids, sw))
  }

  /**
   * How the parser's stack `ids` and swap table `sw` stand for the binders `names` of the text: every bound
   * name of the text is still on the stack, only bound names are swapped, and every name occurring in `t`
   * resolves, through the swap table, to the binder its name refers to in the text.
   */
  ghost predicate ReadsAs(t: Term, ids: seq<string>, names: seq<string>, sw: map<string, string>) {
    && (forall n :: n in names ==> n in ids)
    && (forall k :: k in sw ==> k in names)
    && (forall n :: OccursIn(n, t) ==> IndexIn(ids, SwapIn(sw, n)) == IndexIn(names, n))
  }

  /** Entering a binder keeps the correspondence, for the binder's new name and its body. */
  lemma ReadsAsBody(b: string, body: Term, ids: seq<string>, names: seq<string>, sw: map<string, string>, f: string)
    requires ReadsAs(Abs(b, body), ids, names, sw)
    requires if IndexIn(ids, b) == 0 then f == b else f !in ids && !OccursIn(f, body)
    ensures ReadsAs(body, ids + [f], names + [b], if IndexIn(ids, b) == 0 then sw else sw[b := f])
  {
    var sw' := if IndexIn(ids, b) == 0 then sw else sw[b := f];
    forall n | OccursIn(n, body)
      ensures IndexIn(ids + [f], SwapIn(sw', n)) == IndexIn(names + [b], n)
    {
      IndexAfterPush(names, b, n);
      var m := SwapIn(sw', n);
      IndexAfterPush(ids, f, m);
      if n != b {
        assert m == SwapIn(sw, n);
        if n in sw {
          assert n in names && m in ids;
        }
      }
    }
  }

  /** The corrected reading of a term under a matching stack and table is its intended reading, up to `equals`. */
  lemma {:induction false} RebuildCorrectedScoped(t: Term, ids: seq<string>, names: seq<string>, sw: map<string, string>)
    requires Complete(t) && ReadsAs(t, ids, names, sw)
    ensures Equals(RebuildCorrected(t, ids, sw), Scoped(t, names))
  {
    match t
    case Var(n, _) =>
      assert OccursIn(n, t);
      if IndexIn(names, n) == 0 {
        assert n !in sw;
      }
    case Abs(b, body) =>
      if IndexIn(ids, b) == 0 {
        ReadsAsBody(b, body, ids, names, sw, b);
        RebuildCorrectedScoped(body, ids + [b], names + [b], sw);
      } else {
        var f := FreshName(ids + Vars(body));
        FreshNameSpec(ids + Vars(body));
        ReadsAsBody(b, body, ids, names, sw, f);
        RebuildCorrectedScoped(body, ids + [f], names + [b], sw[b := f]);
      }
    case App(l, r) =>
      assert ReadsAs(l, ids, names, sw) && ReadsAs(r, ids, names, sw);
      RebuildCorrectedScoped(l, ids, names, sw);
      RebuildCorrectedScoped(r, ids, names, sw);
  }

  /** The corrected parser reads every complete text as intended: each variable keeps the binder it has in the text. */
  lemma CorrectedReadingKeepsScopes(t: Term)
    requires Complete(t)
    ensures Equals(RebuildCorrected(t, [], map[]), Scoped(t, []))
  {
    RebuildCorrectedScoped(t, [], [], map[]);
  }

  /** The corrected reading is in the parser's form: indices are distances to binders, and no binder shadows another. */
  lemma {:induction false} RebuildCorrectedCanonical(t: Term, ids: seq<string>, sw: map<string, string>)
    requires Complete(t)
    ensures Canonical(RebuildCorrected(t, ids, sw), ids)
  {
    match t
    case Var(_, _) =>
    case Abs(b, body) =>
      if IndexIn(ids, b) == 0 {
        RebuildCorrectedCanonical(body, ids + [b], sw);
      } else {
        var f := FreshName(ids + Vars(body));
        FreshNameSpec(ids + Vars(body));
        assert f !in ids;
        RebuildCorrectedCanonical(body, ids + [f], sw[b := f]);
      }
    case App(l, r) =>
      RebuildCorrectedCanonical(l, ids, sw);
      RebuildCorrectedCanonical(r, ids, sw);
  }

  /** Where no binder shadows another, the correction changes nothing: a canonical term reads back as itself. */
  lemma {:induction false} CorrectedCanonicalIsFixed(t: Term, ids: seq<string>)
    requires Complete(t) && Canonical(t, ids)
    ensures RebuildCorrected(t, ids, map[]) == t
  {
    match t
    case Var(_, _) =>
    case Abs(b, body) =>
      CorrectedCanonicalIsFixed(body, ids + [b]);
    case App(l, r) =>
      CorrectedCanonicalIsFixed(l, ids);
      CorrectedCanonicalIsFixed(r, ids);
  }
}
