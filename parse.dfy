/**
 * The recursive-descent parser base of src/parse.ts: a binder stack with a swap table (`Context`) and a
 * token cursor (`Parser`). The language parsers drive a `Parser` object; their pure specifications use the
 * value-level functions below.
 */
module ParserBase {
  import opened Wrappers
  import opened Tokenizer
  import Utils

  datatype ParseError =
    | ParseError(position: nat, message: string)
      /** The JavaScript TypeError thrown when the source reads `.start` of a token index that does not exist. */
    | MissingToken
      /** The TypeError thrown when the typed `Application` constructor reads `isSimple` of an `undefined` left side. */
    | UndefinedOperand

  /** `toPrint()`: a caret under the reported offset, and the message. */
  function ToPrint(e: ParseError): (r: (string, string))
    requires e.ParseError?
    ensures |r.0| == e.position + 1 && r.0[e.position] == '^'
    ensures r.1 == e.message
  {
    (Utils.PositionString(e.position), e.message)
  }

  /** `Array.prototype.lastIndexOf`: the last position holding `x`, or -1. */
  function LastIndexOf(s: seq<string>, x: string): (r: int)
    ensures -1 <= r < |s|
    ensures r == -1 <==> x !in s
    ensures r >= 0 ==> s[r] == x && forall k :: r < k < |s| ==> s[k] != x
    decreases |s|
  {
    if |s| == 0 then -1
    else if s[|s| - 1] == x then |s| - 1
    else LastIndexOf(s[..|s| - 1], x)
  }

  /** `Context.indexOf` on a binder stack: the distance to the innermost binder of `x` (1 = innermost), 0 when `x` is free. */
  function IndexIn(ids: seq<string>, x: string): (d: nat)
    ensures d == 0 <==> x !in ids
    ensures d > 0 ==> d <= |ids| && ids[|ids| - d] == x
    ensures d > 0 ==> forall k :: |ids| - d < k < |ids| ==> ids[k] != x
  {
    var index := LastIndexOf(ids, x);
    if index != -1 then |ids| - index else 0
  }

  /** Pushing a binder makes it the innermost one and moves every other bound name one step further out. */
  lemma IndexAfterPush(ids: seq<string>, y: string, x: string)
    ensures IndexIn(ids + [y], x) == if x == y then 1 else if IndexIn(ids, x) == 0 then 0 else IndexIn(ids, x) + 1
  {
    var s := ids + [y];
    assert s[..|s| - 1] == ids;
  }

  /** `Context.getSwap` on a swap table: the recorded replacement, or the name itself. */
  function SwapIn(swaps: map<string, string>, x: string): (r: string)
    ensures x !in swaps ==> r == x
    ensures x in swaps ==> r == swaps[x]
  {
    if x in swaps then swaps[x] else x
  }

  /** `currentPosition` for a cursor at `i`: that token's start, or one past the last token's start beyond the end. */
  function PositionAt<K>(tokens: seq<Token<K>>, i: nat): nat
    requires |tokens| > 0
  {
    if i >= |tokens| then tokens[|tokens| - 1].start + 1 else tokens[i].start
  }

  /** The error `new ParseError(this.currentPosition, message)` raises at cursor `i`; on no tokens at all, the TypeError. */
  function ErrorAt<K>(tokens: seq<Token<K>>, i: nat, message: string): (e: ParseError)
    ensures |tokens| == 0 <==> e.MissingToken?
    ensures e.ParseError? ==> e.message == message
    ensures e.ParseError? && i < |tokens| ==> e.position == tokens[i].start
    ensures e.ParseError? && i >= |tokens| ==> e.position == tokens[|tokens| - 1].start + 1
  {
    if |tokens| == 0 then MissingToken else ParseError(PositionAt(tokens, i), message)
  }

  /** `nextIs(id)` for a cursor at `i`. */
  predicate NextIsAt<K(==)>(tokens: seq<Token<K>>, i: nat, id: K) {
    i < |tokens| && tokens[i].id == id
  }

  /** The binder stack and swap table of src/parse.ts:22-45. */
  class Context {
    var data: seq<string>
    var toSwap: map<string, string>

    constructor ()
      ensures data == [] && toSwap == map[]
    {
      data := [];
      toSwap := map[];
    }

    /** The `ids` getter. */
    function Ids(): seq<string>
      reads this
    {
      data
    }

    method AddSwap(id1: string, id2: string)
      modifies this
      ensures toSwap == old(toSwap)[id1 := id2] && data == old(data)
      ensures GetSwap(id1) == id2
    {
      toSwap := toSwap[id1 := id2];
    }

    /** Forgets the swap of `id`, including one recorded by an enclosing binder. */
    method RemoveSwap(id: string)
      modifies this
      ensures toSwap == old(toSwap) - {id} && data == old(data)
      ensures GetSwap(id) == id
    {
      toSwap := toSwap - {id};
    }

    function GetSwap(id: string): (r: string)
      reads this
      ensures r == SwapIn(toSwap, id)
    {
      if id in toSwap then toSwap[id] else id
    }

    method Push(identifier: string)
      modifies this
      ensures data == old(data) + [identifier] && toSwap == old(toSwap)
      ensures IndexOf(identifier) == 1
    {
      data := data + [identifier];
      IndexAfterPush(old(data), identifier, identifier);
    }

    /** Drops the innermost binder; on an empty stack nothing changes (JavaScript's `pop` returns undefined). */
    method Pop()
      modifies this
      ensures |old(data)| > 0 ==> data == old(data)[..|old(data)| - 1]
      ensures |old(data)| == 0 ==> data == []
      ensures toSwap == old(toSwap)
    {
      if |data| > 0 {
        data := data[..|data| - 1];
      }
    }

    function IndexOf(identifier: string): (d: nat)
      reads this
      ensures d == IndexIn(data, identifier)
    {
      var index := LastIndexOf(data, identifier);
      if index != -1 then |data| - index else 0
    }
  }

  /** The token cursor of src/parse.ts:48-99; `index` only ever moves forward, one token at a time. */
  class Parser<K(==)> {
    const tokens: seq<Token<K>>
    var index: nat
    const context: Context

    constructor (tokens: seq<Token<K>>)
      ensures this.tokens == tokens && index == 0
      ensures fresh(context) && context.data == [] && context.toSwap == map[]
    {
      this.tokens := tokens;
      index := 0;
      context := new Context();
    }

    ghost predicate Valid()
      reads this
    {
      index <= |tokens|
    }

    function CurrentTokenIndex(): nat
      reads this
    {
      index
    }

    function CurrentPosition(): (p: nat)
      reads this
      requires |tokens| > 0
      ensures index < |tokens| ==> p == tokens[index].start
      ensures index >= |tokens| ==> p == tokens[|tokens| - 1].start + 1
    {
      PositionAt(tokens, index)
    }

    function Done(): (b: bool)
      reads this
      ensures b <==> index >= |tokens|
    {
      index >= |tokens|
    }

    function NextIs(id: K): (b: bool)
      reads this
      ensures b <==> index < |tokens| && tokens[index].id == id
      ensures Done() ==> !b
    {
      NextIsAt(tokens, index, id)
    }

    /** Consumes the next token exactly when it has kind `id`. */
    method SkipIs(id: K) returns (b: bool)
      requires Valid()
      modifies this
      ensures Valid()
      ensures b == old(NextIs(id))
      ensures index == if b then old(index) + 1 else old(index)
    {
      if index >= |tokens| {
        return false;
      }
      if tokens[index].id == id {
        index := index + 1;
        return true;
      }
      return false;
    }

    /** Consumes a token of kind `id` and returns its text, or reports `error` at the current position without moving. */
    method Match(id: K, error: string) returns (r: Result<string, ParseError>)
      requires Valid()
      modifies this
      ensures Valid()
      ensures old(NextIs(id)) ==> r == Ok(tokens[old(index)].value) && index == old(index) + 1
      ensures !old(NextIs(id)) ==> r == Err(ErrorAt(tokens, index, error)) && index == old(index)
    {
      if NextIs(id) {
        index := index + 1;
        return Ok(tokens[index - 1].value);
      } else {
        if |tokens| == 0 {
          return Err(MissingToken);
        }
        return Err(ParseError(CurrentPosition(), error));
      }
    }
  }
}
