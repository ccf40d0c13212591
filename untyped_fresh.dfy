/**
 * `fresh(used)` of src/untyped.ts:266-272: the first of the names `f0`, `f1`, `f2`, ... that is not in `used`.
 * The search ends because the candidates are pairwise distinct, so at most |used| of them can be taken.
 */
module FreshNames {
  import Utils
  import UntypedLexer

  /** The k-th candidate name, the text of `` `f${k}` ``. */
  function Candidate(k: nat): string {
    "f" + Utils.NatToString(k)
  }

  lemma CandidateInjective(a: nat, b: nat)
    requires Candidate(a) == Candidate(b)
    ensures a == b
  {
    assert Candidate(a)[1..] == Utils.NatToString(a);
    assert Candidate(b)[1..] == Utils.NatToString(b);
    Utils.NatToStringInjective(a, b);
  }

  lemma CandidateIsValidName(k: nat)
    ensures UntypedLexer.ValidName(Candidate(k))
  {
  }

  function Candidates(k: nat): set<string> {
    set j | 0 <= j < k :: Candidate(j)
  }

  lemma {:induction false} CandidatesCount(k: nat)
    ensures |Candidates(k)| == k
  {
    if k > 0 {
      CandidatesCount(k - 1);
      assert Candidates(k) == Candidates(k - 1) + {Candidate(k - 1)};
      if Candidate(k - 1) in Candidates(k - 1) {
        var j :| 0 <= j < k - 1 && Candidate(j) == Candidate(k - 1);
        CandidateInjective(j, k - 1);
      }
    }
  }

  lemma {:induction false} SubsetCount(a: set<string>, b: set<string>)
    requires a <= b
    ensures |a| <= |b|
    decreases |a|
  {
    if a != {} {
      var x :| x in a;
      SubsetCount(a - {x}, b - {x});
    }
  }

  lemma {:induction false} DistinctCount(s: seq<string>)
    ensures |set x | x in s| <= |s|
  {
    if |s| > 0 {
      var init := s[..|s| - 1];
      DistinctCount(init);
      assert (set x | x in s) == (set x | x in init) + {s[|s| - 1]};
    }
  }

  /** Pigeonhole: when the first k + 1 candidates are all taken, `used` holds more than k names. */
  lemma Pigeonhole(used: seq<string>, k: nat)
    requires forall j :: 0 <= j <= k ==> Candidate(j) in used
    ensures k < |used|
  {
    CandidatesCount(k + 1);
    SubsetCount(Candidates(k + 1), set x | x in used);
    DistinctCount(used);
  }

  /** The first free candidate at or after `k`, when every candidate before `k` is taken. */
  function FirstFreeFrom(used: seq<string>, k: nat): (r: nat)
    requires forall j :: 0 <= j < k ==> Candidate(j) in used
    ensures k <= r <= |used|
    ensures Candidate(r) !in used
    ensures forall j :: 0 <= j < r ==> Candidate(j) in used
    decreases |used| - k
  {
    if Candidate(k) !in used then
      if k > 0 then Pigeonhole(used, k - 1); k else k
    else
      Pigeonhole(used, k);
      FirstFreeFrom(used, k + 1)
  }

  /** What `fresh(used)` returns: the least-numbered candidate that `used` does not hold. */
  function FreshName(used: seq<string>): string {
    Candidate(FirstFreeFrom(used, 0))
  }

  /** The fresh name is unused, a valid identifier, and every candidate numbered below it is taken. */
  lemma FreshNameSpec(used: seq<string>)
    ensures FreshName(used) !in used
    ensures UntypedLexer.ValidName(FreshName(used))
    ensures exists k: nat :: k <= |used| && FreshName(used) == Candidate(k) && forall j :: 0 <= j < k ==> Candidate(j) in used
  {
    var k := FirstFreeFrom(used, 0);
    CandidateIsValidName(k);
  }

  /** Only the names of the form `fN` matter: adding or dropping other names changes nothing. */
  lemma FreshNameIgnoresOthers(used: seq<string>, other: seq<string>)
    requires forall k: nat :: Candidate(k) in used <==> Candidate(k) in other
    ensures FreshName(used) == FreshName(other)
  {
    var a, b := FirstFreeFrom(used, 0), FirstFreeFrom(other, 0);
    if a < b {
      assert false;
    } else if b < a {
      assert false;
    }
  }

  /** `fresh(used)`. */
  method Fresh(used: seq<string>) returns (f: string)
    ensures f == FreshName(used)
  {
    var i := 0;
    f := Candidate(i);
    while f in used
      invariant f == Candidate(i)
      invariant forall j :: 0 <= j < i ==> Candidate(j) in used
      decreases |used| - i
    {
      Pigeonhole(used, i);
      i := i + 1;
      f := Candidate(i);
    }
    assert FirstFreeFrom(used, i) == i;
    FreshFromAgrees(used, 0, i);
  }

  lemma {:induction false} FreshFromAgrees(used: seq<string>, k: nat, i: nat)
    requires k <= i
    requires forall j :: 0 <= j < i ==> Candidate(j) in used
    ensures FirstFreeFrom(used, k) == FirstFreeFrom(used, i)
    decreases i - k
  {
    if k < i {
      FreshFromAgrees(used, k + 1, i);
    }
  }
}
