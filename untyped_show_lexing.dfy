/**
 * Tokenizing a printed term. `Toks(t, p)` is the token list that the untyped rule table produces for the text
 * `Show(t)` placed at offset `p`: the printer separates the operands of an application by one space, so the
 * pieces it prints never glue together into one identifier.
 */
module ShowLexing {
  import opened Wrappers
  import opened Tokenizer
  import opened UntypedLexer
  import opened UntypedTerm

  /** The tokens of `Show(t)` printed at offset `p`. */
  function Toks(t: Term, p: nat): seq<UToken>
    requires WF(t)
    decreases t, 0
  {
    match t
    case Var(n, _) => [Token(Identifier, p, n)]
    case Abs(b, body) =>
      AbsHead(b, p) + Toks(body, p + 2 + |b|)
    case App(l, r) => LeftToks(l, p) + RightToks(r, p + |LeftShow(l)| + 1)
  }

  /** The tokens of `λb.` at offset `p`. */
  function AbsHead(b: string, p: nat): seq<UToken> {
    [Token(Lambda, p, "λ"), Token(Identifier, p + 1, b), Token(Dot, p + 1 + |b|, ".")]
  }

  /** The tokens of `(Show(t))` at offset `p`. */
  function ParenToks(t: Term, p: nat): seq<UToken>
    requires WF(t)
    decreases t, 1
  {
    [Token(LeftPren, p, "(")] + Toks(t, p + 1) + [Token(RightPren, p + 1 + |Show(t)|, ")")]
  }

  function LeftToks(l: Term, p: nat): seq<UToken>
    requires WF(l)
    decreases l, 5
  {
    if l.Abs? then ParenToks(l, p) else Toks(l, p)
  }

  function RightToks(r: Term, p: nat): seq<UToken>
    requires WF(r)
    decreases r, 5
  {
    if r.Var? then Toks(r, p) else ParenToks(r, p)
  }

  /** The outcome of the rest of the tokenizer loop, as a function of its state (offset, flushed and pending tokens). */
  type Outcome = (nat, seq<UToken>, seq<UToken>) -> Result<seq<UToken>, TokenizeError>

  /** `out` is unchanged by every advancing step of the untyped rule table over `s`, as the loop's outcome is. */
  ghost predicate Respects(s: string, out: Outcome) {
    forall p: nat, r: seq<UToken>, t: seq<UToken> {:trigger StepAt(s, Rules, p, r, t)} ::
      p < |s| && StepAt(s, Rules, p, r, t).Advance? ==>
        out(p, r, t) == out(StepAt(s, Rules, p, r, t).next, StepAt(s, Rules, p, r, t).result, StepAt(s, Rules, p, r, t).temp)
  }

  /** One punctuation character becomes one pending token of its kind. */
  lemma PunctStep(s: string, p: nat, id: Id, c: char, result: seq<UToken>, temp: seq<UToken>)
    requires p < |s| && s[p] == c
    requires (id, c) in {(Dot, '.'), (Lambda, 'λ'), (LeftPren, '('), (RightPren, ')')}
    ensures StepAt(s, Rules, p, result, temp) == Advance(p + 1, result, temp + [Token(id, p, [c])])
  {
    MatchAt(s, p);
    assert s[p..p + 1] == [c];
    if c == '.' {
      FirstMatchFound(Rules, s, p, 0, 0);
    } else if c == 'λ' {
      FirstMatchFound(Rules, s, p, 0, 1);
    } else if c == '(' {
      FirstMatchFound(Rules, s, p, 0, 2);
    } else {
      FirstMatchFound(Rules, s, p, 0, 3);
    }
  }

  /** A name that starts a new group (the pending token is no identifier) and ends at a word boundary becomes one identifier token. */
  lemma NameStep(s: string, p: nat, n: string, result: seq<UToken>, temp: seq<UToken>)
    requires ValidName(n) && At(s, p, n) && Boundary(s, p + |n|)
    requires !ExtendsIdentifier(temp)
    ensures StepAt(s, Rules, p, result, temp) == Advance(p + |n|, result, temp + [Token(Identifier, p, n)])
  {
    assert forall k :: p <= k < p + |n| ==> s[k] == n[k - p];
    MatchAt(s, p);
    RunLengthExact(WordChar, s, p + 1, p + |n|);
    FirstMatchFound(Rules, s, p, 0, 4);
    assert s[p..p + |n|] == n;
  }

  /** A single space before a non-space character flushes the pending tokens. */
  lemma SpaceStep(s: string, p: nat, result: seq<UToken>, temp: seq<UToken>)
    requires p + 1 < |s| && s[p] == ' ' && !IsSpace(s[p + 1])
    ensures StepAt(s, Rules, p, result, temp) == Advance(p + 1, result + temp, [])
  {
    assert SpaceLength(s, p + 1) == 0;
  }

  lemma OutPunct(s: string, p: nat, id: Id, c: char, result: seq<UToken>, temp: seq<UToken>, out: Outcome)
    requires Respects(s, out)
    requires p < |s| && s[p] == c
    requires (id, c) in {(Dot, '.'), (Lambda, 'λ'), (LeftPren, '('), (RightPren, ')')}
    ensures out(p, result, temp) == out(p + 1, result, temp + [Token(id, p, [c])])
  {
    PunctStep(s, p, id, c, result, temp);
  }

  lemma OutName(s: string, p: nat, n: string, result: seq<UToken>, temp: seq<UToken>, out: Outcome)
    requires Respects(s, out)
    requires ValidName(n) && At(s, p, n) && Boundary(s, p + |n|)
    requires !ExtendsIdentifier(temp)
    ensures out(p, result, temp) == out(p + |n|, result, temp + [Token(Identifier, p, n)])
  {
    NameStep(s, p, n, result, temp);
  }

  lemma OutSpace(s: string, p: nat, result: seq<UToken>, temp: seq<UToken>, out: Outcome)
    requires Respects(s, out)
    requires p + 1 < |s| && s[p] == ' ' && !IsSpace(s[p + 1])
    ensures out(p, result, temp) == out(p + 1, result + temp, [])
  {
    SpaceStep(s, p, result, temp);
  }

  /**
   * Tokenizing the text of `t` at offset `p` appends `Toks(t, p)` to the tokens produced so far (flushed or
   * pending), provided the text does not glue onto a pending identifier before it or a word character after it.
   */
  lemma {:induction false} LexShow(s: string, t: Term, p: nat, result: seq<UToken>, temp: seq<UToken>, out: Outcome)
    returns (result': seq<UToken>, temp': seq<UToken>)
    requires Respects(s, out)
    requires WF(t) && At(s, p, Show(t)) && Boundary(s, p + |Show(t)|)
    requires !ExtendsIdentifier(temp)
    ensures out(p, result, temp) == out(p + |Show(t)|, result', temp')
    ensures result' + temp' == result + temp + Toks(t, p)
    decreases t, 3
  {
    match t
    case Var(n, _) =>
      OutName(s, p, n, result, temp, out);
      result', temp' := result, temp + [Token(Identifier, p, n)];
    case Abs(_, _) =>
      result', temp' := LexAbs(s, t, p, result, temp, out);
    case App(_, _) =>
      result', temp' := LexApp(s, t, p, result, temp, out);
  }

  /** The text `λb.` at offset `p` appends the three tokens of an abstraction's head. */
  lemma LexBinder(s: string, p: nat, b: string, result: seq<UToken>, temp: seq<UToken>, out: Outcome)
    requires Respects(s, out)
    requires ValidName(b) && At(s, p, "λ" + b + ".")
    requires !ExtendsIdentifier(temp)
    ensures out(p, result, temp) == out(p + 2 + |b|, result, temp + AbsHead(b, p))
  {
    AtSplit(s, p, "λ" + b, ".");
    AtSplit(s, p, "λ", b);
    AtChar(s, p, 'λ');
    AtChar(s, p + 1 + |b|, '.');
    OutPunct(s, p, Lambda, 'λ', result, temp, out);
    var t1 := temp + [Token(Lambda, p, "λ")];
    OutName(s, p + 1, b, result, t1, out);
    var t2 := t1 + [Token(Identifier, p + 1, b)];
    OutPunct(s, p + 1 + |b|, Dot, '.', result, t2, out);
    assert t2 + [Token(Dot, p + 1 + |b|, ".")] == temp + AbsHead(b, p);
  }

  lemma {:induction false} LexAbs(s: string, t: Term, p: nat, result: seq<UToken>, temp: seq<UToken>, out: Outcome)
    returns (result': seq<UToken>, temp': seq<UToken>)
    requires Respects(s, out)
    requires t.Abs? && WF(t) && At(s, p, Show(t)) && Boundary(s, p + |Show(t)|)
    requires !ExtendsIdentifier(temp)
    ensures out(p, result, temp) == out(p + |Show(t)|, result', temp')
    ensures result' + temp' == result + temp + Toks(t, p)
    decreases t, 2
  {
    var b, body := t.binding, t.body;
    assert Show(t) == ("λ" + b + ".") + Show(body);
    AtSplit(s, p, "λ" + b + ".", Show(body));
    LexBinder(s, p, b, result, temp, out);
    var head := AbsHead(b, p);
    result', temp' := LexShow(s, body, p + 2 + |b|, result, temp + head, out);
    assert Toks(t, p) == head + Toks(body, p + 2 + |b|);
  }

  lemma {:induction false} LexApp(s: string, t: Term, p: nat, result: seq<UToken>, temp: seq<UToken>, out: Outcome)
    returns (result': seq<UToken>, temp': seq<UToken>)
    requires Respects(s, out)
    requires t.App? && WF(t) && At(s, p, Show(t)) && Boundary(s, p + |Show(t)|)
    requires !ExtendsIdentifier(temp)
    ensures out(p, result, temp) == out(p + |Show(t)|, result', temp')
    ensures result' + temp' == result + temp + Toks(t, p)
    decreases t, 2
  {
    var l, r := t.left, t.right;
    var q := p + |LeftShow(l)| + 1;
    assert Show(t) == LeftShow(l) + (" " + RightShow(r));
    var flushed := LexOperator(s, l, r, p, result, temp, out);
    assert q + |RightShow(r)| == p + |Show(t)|;
    result', temp' := LexRight(s, r, q, flushed, [], out);
    assert Toks(t, p) == LeftToks(l, p) + RightToks(r, q);
    calc {
      result' + temp';
      (result + temp + LeftToks(l, p)) + RightToks(r, q);
      result + temp + (LeftToks(l, p) + RightToks(r, q));
    }
  }

  /** The operator of an application and the space after it: the space flushes everything read so far. */
  lemma {:induction false} LexOperator(s: string, l: Term, r: Term, p: nat, result: seq<UToken>, temp: seq<UToken>, out: Outcome)
    returns (flushed: seq<UToken>)
    requires Respects(s, out)
    requires WF(l) && WF(r) && At(s, p, LeftShow(l) + (" " + RightShow(r)))
    requires !ExtendsIdentifier(temp)
    ensures out(p, result, temp) == out(p + |LeftShow(l)| + 1, flushed, [])
    ensures flushed == result + temp + LeftToks(l, p)
    ensures At(s, p + |LeftShow(l)| + 1, RightShow(r))
    decreases App(l, r), 1
  {
    var q := p + |LeftShow(l)|;
    AtSplit(s, p, LeftShow(l), " " + RightShow(r));
    AtSplit(s, q, " ", RightShow(r));
    AtChar(s, q, ' ');
    var r1, t1 := LexLeft(s, l, p, result, temp, out);
    LexSeparator(s, q, r, r1, t1, out);
    flushed := r1 + t1;
  }

  /** The space between the operands of an application flushes the pending tokens. */
  lemma LexSeparator(s: string, q: nat, r: Term, result: seq<UToken>, temp: seq<UToken>, out: Outcome)
    requires Respects(s, out)
    requires WF(r) && At(s, q, " " + RightShow(r))
    ensures out(q, result, temp) == out(q + 1, result + temp, [])
  {
    AtSplit(s, q, " ", RightShow(r));
    AtChar(s, q, ' ');
    RightShowStart(r);
    assert s[q + 1] == RightShow(r)[0];
    OutSpace(s, q, result, temp, out);
  }

  lemma RightShowStart(r: Term)
    requires WF(r)
    ensures |RightShow(r)| > 0 && !IsSpace(RightShow(r)[0])
  {
  }

  lemma {:induction false} LexParen(s: string, t: Term, p: nat, result: seq<UToken>, temp: seq<UToken>, out: Outcome)
    returns (result': seq<UToken>, temp': seq<UToken>)
    requires Respects(s, out)
    requires WF(t) && At(s, p, "(" + Show(t) + ")")
    ensures out(p, result, temp) == out(p + |Show(t)| + 2, result', temp')
    ensures result' + temp' == result + temp + ParenToks(t, p)
    decreases t, 4
  {
    AtSplit(s, p, "(" + Show(t), ")");
    AtSplit(s, p, "(", Show(t));
    AtChar(s, p, '(');
    var q := p + 1 + |Show(t)|;
    AtChar(s, q, ')');
    OutPunct(s, p, LeftPren, '(', result, temp, out);
    var r1, t1 := LexShow(s, t, p + 1, result, temp + [Token(LeftPren, p, "(")], out);
    OutPunct(s, q, RightPren, ')', r1, t1, out);
    result', temp' := r1, t1 + [Token(RightPren, q, ")")];
    assert result' + temp' == (r1 + t1) + [Token(RightPren, q, ")")];
  }

  lemma {:induction false} LexLeft(s: string, l: Term, p: nat, result: seq<UToken>, temp: seq<UToken>, out: Outcome)
    returns (result': seq<UToken>, temp': seq<UToken>)
    requires Respects(s, out)
    requires WF(l) && At(s, p, LeftShow(l)) && Boundary(s, p + |LeftShow(l)|)
    requires !ExtendsIdentifier(temp)
    ensures out(p, result, temp) == out(p + |LeftShow(l)|, result', temp')
    ensures result' + temp' == result + temp + LeftToks(l, p)
    decreases l, 5
  {
    if l.Abs? {
      result', temp' := LexParen(s, l, p, result, temp, out);
    } else {
      result', temp' := LexShow(s, l, p, result, temp, out);
    }
  }

  lemma {:induction false} LexRight(s: string, r: Term, p: nat, result: seq<UToken>, temp: seq<UToken>, out: Outcome)
    returns (result': seq<UToken>, temp': seq<UToken>)
    requires Respects(s, out)
    requires WF(r) && At(s, p, RightShow(r)) && Boundary(s, p + |RightShow(r)|)
    requires !ExtendsIdentifier(temp)
    ensures out(p, result, temp) == out(p + |RightShow(r)|, result', temp')
    ensures result' + temp' == result + temp + RightToks(r, p)
    decreases r, 5
  {
    if r.Var? {
      result', temp' := LexShow(s, r, p, result, temp, out);
    } else {
      result', temp' := LexParen(s, r, p, result, temp, out);
    }
  }

  /** The printed form of a well-formed term tokenizes to exactly `Toks(t, 0)`. */
  lemma TokenizeShow(t: Term)
    requires WF(t)
    ensures UntypedLexer.TokenizeSpec(Show(t)) == Ok(Toks(t, 0))
  {
    var s := Show(t);
    assert At(s, 0, s);
    var out: Outcome := (p: nat, r: seq<UToken>, tmp: seq<UToken>) =>
      if p <= |s| then TokenizeFrom(s, Rules, p, r, tmp) else Ok([]);
    forall p: nat, r: seq<UToken>, tmp: seq<UToken> | p < |s| && StepAt(s, Rules, p, r, tmp).Advance?
      ensures out(p, r, tmp) == out(StepAt(s, Rules, p, r, tmp).next, StepAt(s, Rules, p, r, tmp).result, StepAt(s, Rules, p, r, tmp).temp)
    {
      Advances(s, Rules, p, r, tmp, StepAt(s, Rules, p, r, tmp));
    }
    var none: seq<UToken> := [];
    var r, tmp := LexShow(s, t, 0, none, none, out);
    assert r + tmp == Toks(t, 0);
  }
}
