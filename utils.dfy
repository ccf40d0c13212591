/** Small helpers of src/utils.ts, plus the decimal rendering that template strings apply to numbers. */
module Utils {
  import opened Wrappers

  /** `last(array)`: the final element, or `undefined` (None) for an empty array. */
  function Last<T>(a: seq<T>): (r: Option<T>)
    ensures r.None? <==> |a| == 0
    ensures r.Some? ==> r.value == a[|a| - 1]
  {
    if |a| > 0 then Some(a[|a| - 1]) else None
  }

  /** `positionString`: as many spaces as the position, then a caret. */
  function PositionString(position: nat): (r: string)
    ensures |r| == position + 1
    ensures r[position] == '^'
    ensures forall k :: 0 <= k < position ==> r[k] == ' '
  {
    if position == 0 then "^" else " " + PositionString(position - 1)
  }

  predicate IsDigit(c: char) { '0' <= c <= '9' }

  function DigitChar(d: nat): (c: char)
    requires d < 10
    ensures IsDigit(c)
  {
    ['0', '1', '2', '3', '4', '5', '6', '7', '8', '9'][d]
  }

  /** The decimal text `${n}` of a non-negative integer. */
  function NatToString(n: nat): (r: string)
    ensures |r| > 0
    ensures forall k :: 0 <= k < |r| ==> IsDigit(r[k])
    decreases n
  {
    if n < 10 then [DigitChar(n)] else NatToString(n / 10) + [DigitChar(n % 10)]
  }

  lemma DigitCharInjective(a: nat, b: nat)
    requires a < 10 && b < 10 && DigitChar(a) == DigitChar(b)
    ensures a == b
  {
  }

  /** Different numbers print differently, so `f0`, `f1`, ... are pairwise distinct names. */
  lemma {:induction false} NatToStringInjective(a: nat, b: nat)
    requires NatToString(a) == NatToString(b)
    ensures a == b
    decreases a
  {
    var sa, sb := NatToString(a), NatToString(b);
    if a < 10 && b < 10 {
      DigitCharInjective(a, b);
    } else if a >= 10 && b >= 10 {
      assert sa[|sa| - 1] == DigitChar(a % 10) && sb[|sb| - 1] == DigitChar(b % 10);
      DigitCharInjective(a % 10, b % 10);
      assert sa[..|sa| - 1] == NatToString(a / 10);
      assert sb[..|sb| - 1] == NatToString(b / 10);
      NatToStringInjective(a / 10, b / 10);
    }
  }
}
