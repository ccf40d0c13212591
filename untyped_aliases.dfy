/**
 * The alias tables of `ExecutionContext` (src/untyped.ts:329-416) and the two rewritings built on them.
 * A JavaScript `Map` iterates in insertion order, so a table is a list of entries: `set` overwrites the value
 * of a present key where it stands and appends a new key at the end, `delete` drops the entry.
 * `forAlsOnce` substitutes every alias into a term, in insertion order; `bakAlsOnce` replaces a term that
 * `equals` an alias value by the alias name, and otherwise tries again in every child.
 */
module Aliasing {
  import opened Wrappers
  import opened UntypedTerm
  import opened TermNames
  import opened Substitution

  /** The keys of a table, in insertion order. */
  function Keys<V>(m: seq<(string, V)>): (r: seq<string>)
    ensures |r| == |m| && forall i :: 0 <= i < |m| ==> r[i] == m[i].0
  {
    if |m| == 0 then [] else [m[0].0] + Keys(m[1..])
  }

  /** No key is listed twice, as in a `Map`. */
  predicate KeysDistinct<V>(m: seq<(string, V)>) {
    Distinct(Keys(m))
  }

  /** `m.get(k)`. */
  function Lookup<V>(m: seq<(string, V)>, k: string): (r: Option<V>)
    ensures r.None? <==> k !in Keys(m)
    ensures r.Some? ==> exists i :: 0 <= i < |m| && m[i] == (k, r.value)
  {
    if |m| == 0 then None
    else if m[0].0 == k then Some(m[0].1)
    else Lookup(m[1..], k)
  }

  /** `m.set(k, v)`: the value of a present key is overwritten in place, a new key goes last. */
  function Put<V>(m: seq<(string, V)>, k: string, v: V): (r: seq<(string, V)>)
    ensures Keys(r) == if k in Keys(m) then Keys(m) else Keys(m) + [k]
    ensures forall i :: 0 <= i < |m| && m[i].0 != k ==> r[i] == m[i]
    ensures forall i :: 0 <= i < |r| ==> r[i] == (k, v) || (i < |m| && r[i] == m[i])
  {
    if |m| == 0 then [(k, v)]
    else if m[0].0 == k then [(k, v)] + m[1..]
    else
      var rest := Put(m[1..], k, v);
      assert Keys(m) == [m[0].0] + Keys(m[1..]);
      [m[0]] + rest
  }

  /** After `set`, keys stay distinct. */
  lemma PutDistinct<V>(m: seq<(string, V)>, k: string, v: V)
    requires KeysDistinct(m)
    ensures KeysDistinct(Put(m, k, v))
  {
    var keys := Keys(m);
    if k !in keys {
      var s := keys + [k];
      forall i, j | 0 <= i < j < |s| ensures s[i] != s[j] {
        if j == |keys| {
          assert s[i] == keys[i];
        } else {
          assert s[i] == keys[i] && s[j] == keys[j];
        }
      }
    }
  }

  /** After `set`, the key reads back the new value and every other key its old one. */
  lemma {:induction false} PutLookup<V>(m: seq<(string, V)>, k: string, v: V)
    ensures Lookup(Put(m, k, v), k) == Some(v)
    ensures forall j :: j != k ==> Lookup(Put(m, k, v), j) == Lookup(m, j)
  {
    if |m| > 0 && m[0].0 != k {
      PutLookup(m[1..], k, v);
      assert Put(m, k, v)[1..] == Put(m[1..], k, v);
    } else if |m| > 0 {
      assert Put(m, k, v)[1..] == m[1..];
    }
  }

  /** `m.delete(k)`: the entry of `k` is dropped, the others keep their order. */
  function Remove<V>(m: seq<(string, V)>, k: string): (r: seq<(string, V)>)
    ensures Keys(r) == Without(Keys(m), k)
    ensures Lookup(r, k).None?
    ensures forall j :: j != k ==> Lookup(r, j) == Lookup(m, j)
    ensures forall i :: 0 <= i < |r| ==> r[i] in m
  {
    if |m| == 0 then []
    else
      assert Keys(m) == [m[0].0] + Keys(m[1..]);
      if m[0].0 == k then Remove(m[1..], k) else [m[0]] + Remove(m[1..], k)
  }

  /** Every alias value is a well-formed term. */
  predicate ValuesWF(als: seq<(string, Term)>) {
    forall i :: 0 <= i < |als| ==> WF(als[i].1)
  }

  /**
   * `forAlsOnce(expr)`: `subst(ret, key, value)` for every alias in insertion order, each on the result of
   * the one before; `corrected` picks the substitution (`Substitution.SubstBy`).
   */
  function ForAls(als: seq<(string, Term)>, e: Term, corrected: bool): (r: Term)
    requires WF(e) && ValuesWF(als)
    ensures WF(r)
  {
    if |als| == 0 then e else ForAls(als[1..], SubstBy(corrected, e, als[0].0, als[0].1), corrected)
  }

  /** A free name of `ForAls(als, e, corrected)` is free in `e` or in one of the alias values. */
  lemma {:induction false} ForAlsFreeFrom(y: string, als: seq<(string, Term)>, e: Term, corrected: bool)
    requires WF(e) && ValuesWF(als)
    ensures FreeIn(y, ForAls(als, e, corrected)) ==> FreeIn(y, e) || exists i :: 0 <= i < |als| && FreeIn(y, als[i].1)
  {
    if |als| > 0 && FreeIn(y, ForAls(als, e, corrected)) {
      var next := SubstBy(corrected, e, als[0].0, als[0].1);
      ForAlsFreeFrom(y, als[1..], next, corrected);
      if FreeIn(y, next) {
        SubstByFreeFrom(y, corrected, e, als[0].0, als[0].1);
      } else {
        var i :| 0 <= i < |als[1..]| && FreeIn(y, als[1..][i].1);
        assert als[1..][i] == als[i + 1];
      }
    }
  }

  /** The position of the first alias whose value `equals` `e`, if any: the first loop of `bakAlsOnce`. */
  function FirstEqual(als: seq<(string, Term)>, e: Term): (r: Option<nat>)
    ensures r.Some? ==> r.value < |als| && Equals(e, als[r.value].1)
    ensures r.Some? ==> forall i :: 0 <= i < r.value ==> !Equals(e, als[i].1)
    ensures r.None? ==> forall i :: 0 <= i < |als| ==> !Equals(e, als[i].1)
  {
    if |als| == 0 then None
    else if Equals(e, als[0].1) then Some(0)
    else
      var rest := FirstEqual(als[1..], e);
      if rest.Some? then Some(rest.value + 1) else None
  }

  /**
   * `bakAlsOnce(expr)`: the name of the first alias whose value `equals` the term; otherwise, when there is
   * an alias at all, an application or abstraction is rebuilt from its rewritten children; otherwise the term
   * is returned as it is. The name comes back as a free variable (index 0).
   */
  function BakAls(als: seq<(string, Term)>, e: Term): (r: Term)
  {
    var first := FirstEqual(als, e);
    if first.Some? then Var(als[first.value].0, 0)
    else if |als| > 0 && e.App? then App(BakAls(als, e.left), BakAls(als, e.right))
    else if |als| > 0 && e.Abs? then Abs(e.binding, BakAls(als, e.body))
    else e
  }

  /** No two alias values `equals` each other: what the duplicate check of `addAlias` keeps. */
  predicate ValuesApart(als: seq<(string, Term)>) {
    forall i, j :: 0 <= i < |als| && 0 <= j < |als| && i != j ==> !Equals(als[i].1, als[j].1)
  }

  /** With the values apart, `bakAlsOnce` turns every alias value back into its own name. */
  lemma BakAlsOfValue(als: seq<(string, Term)>, i: nat)
    requires i < |als| && ValuesWF(als) && ValuesApart(als)
    ensures BakAls(als, als[i].1) == Var(als[i].0, 0)
  {
    WFIsComplete(als[i].1);
    EqualsReflexive(als[i].1);
  }

  /** A free name of `BakAls(als, e)` is free in `e` or an alias name: the rewriting invents no other name. */
  lemma {:induction false} BakAlsFreeFrom(y: string, als: seq<(string, Term)>, e: Term)
    ensures FreeIn(y, BakAls(als, e)) ==> FreeIn(y, e) || y in Keys(als)
  {
    var first := FirstEqual(als, e);
    if first.Some? {
      assert Keys(als)[first.value] == als[first.value].0;
    } else if |als| > 0 && e.App? {
      BakAlsFreeFrom(y, als, e.left);
      BakAlsFreeFrom(y, als, e.right);
    } else if |als| > 0 && e.Abs? {
      BakAlsFreeFrom(y, als, e.body);
    }
  }

  /** `set` with a value that `equals` none of the others keeps the values apart and well formed. */
  lemma PutApart(m: seq<(string, Term)>, k: string, v: Term)
    requires KeysDistinct(m) && ValuesWF(m) && ValuesApart(m) && WF(v) && FirstEqual(m, v).None?
    ensures ValuesWF(Put(m, k, v)) && ValuesApart(Put(m, k, v))
  {
    var r := Put(m, k, v);
    PutDistinct(m, k, v);
    forall i, j | 0 <= i < |r| && 0 <= j < |r| && i != j ensures !Equals(r[i].1, r[j].1) {
      assert Keys(r)[i] == r[i].0 && Keys(r)[j] == r[j].0;
      if r[j] == (k, v) {
        assert r[i] == m[i];
        if Equals(r[i].1, v) {
          EqualsSymmetric(r[i].1, v);
        }
      } else if r[i] != (k, v) {
        assert r[i] == m[i] && r[j] == m[j];
      }
    }
  }

  /** After a `set` that keeps the values apart, `bakAlsOnce` folds the new value back into its name. */
  lemma PutFoldsBack(m: seq<(string, Term)>, k: string, v: Term)
    requires KeysDistinct(m) && ValuesWF(m) && ValuesApart(m) && WF(v) && FirstEqual(m, v).None?
    ensures exists i :: 0 <= i < |Put(m, k, v)| && Put(m, k, v)[i].0 == k && BakAls(Put(m, k, v), Put(m, k, v)[i].1) == Var(k, 0)
  {
    var r := Put(m, k, v);
    PutApart(m, k, v);
    assert k in Keys(r);
    var i :| 0 <= i < |r| && Keys(r)[i] == k;
    BakAlsOfValue(r, i);
  }

  /** Dropping a name from a list without duplicates leaves it without duplicates. */
  lemma {:induction false} WithoutDistinct(s: seq<string>, b: string)
    requires Distinct(s)
    ensures Distinct(Without(s, b))
  {
    if |s| > 0 {
      WithoutDistinct(s[1..], b);
      if s[0] != b {
        var r := [s[0]] + Without(s[1..], b);
        forall i, j | 0 <= i < j < |r| ensures r[i] != r[j] {
          if i == 0 {
            assert r[j] in Without(s[1..], b);
          } else {
            assert r[i] == Without(s[1..], b)[i - 1] && r[j] == Without(s[1..], b)[j - 1];
          }
        }
      }
    }
  }

  /** `delete` keeps the keys distinct and the values apart and well formed. */
  lemma RemoveApart(m: seq<(string, Term)>, k: string)
    requires KeysDistinct(m) && ValuesWF(m) && ValuesApart(m)
    ensures KeysDistinct(Remove(m, k)) && ValuesWF(Remove(m, k)) && ValuesApart(Remove(m, k))
  {
    var r := Remove(m, k);
    WithoutDistinct(Keys(m), k);
    forall i, j | 0 <= i < |r| && 0 <= j < |r| && i != j ensures !Equals(r[i].1, r[j].1) {
      assert Keys(r)[i] == r[i].0 && Keys(r)[j] == r[j].0;
      var a :| 0 <= a < |m| && m[a] == r[i];
      var b :| 0 <= b < |m| && m[b] == r[j];
    }
  }
}
