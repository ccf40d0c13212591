# learnlambda: a verified model of the lambda-calculus core

This project models the core of *learnlambda* in Dafny. learnlambda is a small TypeScript interpreter for the untyped λ-calculus, and it also has a front end for the simply typed λ-calculus. The model covers:

- **The generic tokenizer** (`src/tokenize.ts`). It walks the input with a table of rules. A rule's callback edits the list of pending tokens, and that list is flushed into the result at every whitespace run. The regular expressions of the rules are replaced by a small pattern language: a literal text, or one character of one class followed by the longest run of another class. Callbacks are function values that return the new pending list. The module `Tokenizer` holds the `Tokenize` method and the function `TokenizeSpec` that it is proved equal to.
- **The recursive-descent parser base** (`src/parse.ts`). The `ParserBase.Context` class holds the binder stack, where `indexOf` gives the de Bruijn distance, and the swap table. The `ParserBase.Parser` class is the token cursor with `nextIs`, `skipIs` and `match`. Error positions come from `currentPosition`.
- **The untyped engine** (`src/untyped.ts`), covering:
  - the token rules;
  - the parser, which assigns de Bruijn indices and renames shadowing binders to fresh names;
  - the named and the de Bruijn printers;
  - α-equivalence `equals`;
  - `free`, `bound`, `vars` and `fresh`;
  - capturing and capture-avoiding substitution;
  - `evalOnce` and the fixpoint driver `evaluate`;
  - the `ExecutionContext` class with its alias tables.

  `capSubst`, `subst` and `evalOnce` end by printing their result and reading it back. The model keeps that step as `Reparsing.Reparse`. It proves that printing a well-formed term and reading it back never fails, and that the result is `Rebuilding.Rebuild(t, [], map[]).0`: the same term with fresh indices and with every shadowing binder renamed. That renaming has two scoping slips, recorded under Findings. `Rebuilding.RebuildCorrected` is a corrected reading, proved to keep the binder of every variable.
- **The typed front end** (`src/typed.ts`), covering:
  - the token rules with keywords and type names;
  - the type and term grammars;
  - the printers driven by `isSimple`.

  Printing a readable term and parsing the text back is proved to give the term back, with one exception recorded under Findings.
- **The helpers** `last` and `positionString` (`src/utils.ts`).

Functions state what each operation computes, and lemmas state its properties. Where the source works by changing state, the model uses imperative Dafny with the same shape, proved equal to those functions:

- the tokenizer loop;
- the `Context` and `Parser` classes;
- the parser methods;
- `fresh`;
- the `evaluate`, `forwardAlias` and `backwardAlias` loops;
- `ExecutionContext`.

The unbounded loops take a `fuel` bound.

## Model

| member | source | states |
|---|---|---|
| Tokenizer.ToPrint | src/tokenize.ts:9-11 | the caret line is `position` spaces then `^`, and the message is unchanged |
| Tokenizer.RunLengthSpec | src/untyped.ts:65-72 | a run pattern matches the longest stretch of its class: every character in it belongs to the class, and the character after it does not |
| Tokenizer.SpaceLengthSpec | src/tokenize.ts:29-33 | the whitespace run skipped is maximal: all of it is `\s`, and it stops at a non-space or the end |
| Tokenizer.MatchLengthSpec | src/tokenize.ts:36-43 | a non-empty literal match is exactly the literal's text; a non-empty run match starts with a `first`-class character followed by `rest`-class characters |
| Tokenizer.FirstMatchSpec | src/tokenize.ts:36-43 | rules are tried in table order: every rule before the chosen one fails at that offset, and no match means that no rule matches there |
| Tokenizer.FirstMatchFound | src/tokenize.ts:36-43 | when rule k matches and no earlier rule does, rule k is the one chosen, with its match length |
| Tokenizer.StepAt | src/tokenize.ts:28-49 | each turn of the loop advances the offset by at least one character, and never past the end of the input |
| Tokenizer.TryRules | src/tokenize.ts:35-44 | the rule loop returns the first matching rule's length and the outcome of that rule's callback on the pending tokens |
| Tokenizer.Tokenize | src/tokenize.ts:22-51 | the imperative loop over `i`, `result` and `temp` computes exactly the tokenizer function |
| Tokenizer.AllSpaceGivesNoToken | src/tokenize.ts:22-51 | an empty or all-whitespace input gives an empty token list |
| Tokenizer.UnexpectedCharacter | src/tokenize.ts:45-47 | a non-space character that no rule matches throws `unexpected character: <c>` at its own offset |
| Tokenizer.FlushedTokensArePrefix | src/tokenize.ts:29-50 | tokens already flushed are never changed again: they are a prefix of the final output |
| Utils.Last | src/utils.ts:14-16 | `last(a)` is undefined exactly when `a` is empty, and is otherwise the final element |
| Utils.PositionString | src/utils.ts:9-11 | the caret string has length `position + 1`: spaces, then `^` at index `position` |
| Utils.NatToString | src/untyped.ts:96-98 | a number prints as a non-empty string of digits |
| Utils.NatToStringInjective | src/untyped.ts:266-272 | different numbers print differently, so the names `f<k>` are pairwise distinct |
| ParserBase.ToPrint | src/parse.ts:9-11 | the caret line has `^` at the error position, and the message is kept |
| ParserBase.LastIndexOf | src/parse.ts:42-45 | `lastIndexOf` is -1 exactly when the name is absent; otherwise it is the last position holding the name |
| ParserBase.IndexIn | src/parse.ts:42-45 | the distance is 0 exactly when the name is not on the stack; otherwise it counts back from the top to the innermost occurrence |
| ParserBase.IndexAfterPush | src/parse.ts:34-45 | after pushing `y`, `y` is at distance 1, other bound names are one further away, and free names stay at 0 |
| ParserBase.SwapIn | src/parse.ts:30-32 | `getSwap` is the identity for a name with no entry, and otherwise returns the stored replacement |
| ParserBase.ErrorAt | src/parse.ts:65-70 | an error is placed at the current token's start, or one past the last token's start at the end; with no tokens at all it is the runtime failure of reading `tokens[-1]` |
| ParserBase.Context.constructor | src/parse.ts:14-16 | a new context has an empty stack and an empty swap table |
| ParserBase.Context.AddSwap | src/parse.ts:22-24 | the swap table maps `id1` to `id2` afterwards, the rest is unchanged, and the stack is untouched |
| ParserBase.Context.RemoveSwap | src/parse.ts:26-28 | the entry for `id` is gone, so `getSwap(id)` is `id` again |
| ParserBase.Context.GetSwap | src/parse.ts:30-32 | returns the replacement recorded for the name, or the name itself |
| ParserBase.Context.Push | src/parse.ts:34-36 | the name is pushed on top of the stack and is then at distance 1 |
| ParserBase.Context.Pop | src/parse.ts:38-40 | the top is removed and the swap table is untouched, so a push followed by a pop restores the stack |
| ParserBase.Context.IndexOf | src/parse.ts:42-45 | the de Bruijn distance of the innermost binding, or 0 for a free name |
| ParserBase.Parser.constructor | src/parse.ts:54-59 | the cursor starts at 0 with a fresh, empty context |
| ParserBase.Parser.CurrentPosition | src/parse.ts:65-70 | the current token's start, or the last token's start + 1 once the cursor is past the end |
| ParserBase.Parser.Done | src/parse.ts:72-74 | done exactly when the cursor is at or past the end |
| ParserBase.Parser.NextIs | src/parse.ts:76-80 | true exactly when a token remains and has the given id, so false once done |
| ParserBase.Parser.SkipIs | src/parse.ts:82-90 | advances by exactly one when the next token has the id, and changes nothing otherwise |
| ParserBase.Parser.Match | src/parse.ts:92-99 | either returns the token's value and advances by one, or throws `ParseError(currentPosition, error)` without moving |
| UntypedLexer.Glue | src/untyped.ts:46-53 | text glued to a pending identifier extends its value and keeps its start, and the earlier pending tokens stay as they were |
| UntypedLexer.Tokenize | src/untyped.ts:74-76 | `tokenize` is the generic loop run over the untyped rule table |
| UntypedLexer.RulesWellFormed | src/untyped.ts:65-72 | every literal of the rule table is non-empty, so every rule match consumes text |
| UntypedLexer.MatchAt | src/untyped.ts:65-72 | which rule matches is decided by the first character: `.`, `λ`, `(`, `)`, a letter, or a digit/underscore |
| UntypedLexer.DigitStartsNoIdentifier | src/untyped.ts:55-62 | a digit/underscore run that does not continue a pending identifier throws "identifier must begin with a letter" at its offset |
| UntypedLexer.DigitsExtendIdentifier | src/untyped.ts:55-62 | a digit/underscore run right after an identifier is glued onto that identifier |
| UntypedTerm.Equals | src/untyped.ts:137-148 | terms that `equals` each other are complete and have the same shape |
| UntypedTerm.EqualsReflexive | src/untyped.ts:137-148 | every complete term equals itself |
| UntypedTerm.EqualsSymmetric | src/untyped.ts:137-148 | `equals` is symmetric |
| UntypedTerm.EqualsTransitive | src/untyped.ts:137-148 | `equals` is transitive |
| UntypedTerm.EqualsSameDeBruijn | src/untyped.ts:96-148 | terms that `equals` each other have the same de Bruijn notation |
| DeBruijnText.SameDeBruijnEquals | src/untyped.ts:96-148 | conversely, two well-formed terms with the same de Bruijn notation `equals` each other: the notation can be read back unambiguously |
| DeBruijnText.EqualsIffSameDeBruijn | src/untyped.ts:96-148 | for well-formed terms, `equals` holds exactly when the de Bruijn notations are the same text |
| DeBruijnText.NameLikeIndex | src/untyped.ts:96-148 | the converse needs identifier names: a free variable named `1` prints like the bound `z` at index 1, yet the two are not equal |
| UntypedTerm.BinderNamesIgnored | src/untyped.ts:137-148 | abstractions compare by body only, so renaming a binder keeps equality |
| UntypedTerm.EqualsExamples | src/tests/untyped.test.ts:134-143 | indexed `λx.λy.x y` equals `λy.λx.y x`, and free `x` does not equal free `y` |
| FreshNames.FirstFreeFrom | src/untyped.ts:266-272 | the search counter stops at the least `k` from its start whose `f<k>` is unused, and never beyond the size of the used list |
| FreshNames.FreshNameSpec | src/untyped.ts:266-272 | `fresh(used)` is an unused identifier `f<k>` for the least such `k` |
| FreshNames.FreshNameIgnoresOthers | src/untyped.ts:266-272 | `fresh` depends only on which names `f<k>` are used |
| FreshNames.Fresh | src/untyped.ts:266-272 | the counting loop returns exactly that least unused `f<k>` |
| FreshNames.CandidatesCount | src/untyped.ts:266-272 | the first `k` candidate names are `k` distinct names, so the search ends within the length of `used` |
| TermNames.KeepFirst | src/untyped.ts:224-264 | a prefix without repeats keeps each name once, in order of first occurrence |
| TermNames.Dedup | src/untyped.ts:224-264 | the list keeps each name once, has the same members, and is in order of first occurrence |
| TermNames.Free | src/untyped.ts:238-250 | `free` lists each free name exactly once |
| TermNames.Bound | src/untyped.ts:224-236 | `bound` lists each binder name exactly once |
| TermNames.Vars | src/untyped.ts:252-264 | `vars` lists each name occurring in the term exactly once |
| TermNames.FreeOccurrences | src/untyped.ts:238-250 | the free occurrences read left to right, repeats kept, are exactly the free names |
| TermNames.BinderOccurrences | src/untyped.ts:224-236 | the binders read left to right, repeats kept, are exactly the bound names |
| TermNames.Occurrences | src/untyped.ts:252-264 | every binder and variable read left to right, repeats kept, are exactly the names of the term |
| TermNames.FreeInOrder | src/untyped.ts:238-250 | `free` is the free occurrences with each repeat after the first dropped, so names come in order of first free occurrence |
| TermNames.BoundInOrder | src/untyped.ts:224-236 | `bound` is the binders with each repeat after the first dropped, in order of first binding |
| TermNames.VarsInOrder | src/untyped.ts:252-264 | `vars` is all occurrences with each repeat after the first dropped, in order of first occurrence |
| TermNames.DedupConcat | src/untyped.ts:242-249 | deduplicating the joined deduplicated lists is deduplicating the joined lists |
| TermNames.DedupWithout | src/untyped.ts:244-249 | removing a name before or after deduplicating gives the same list |
| TermNames.DedupCons | src/untyped.ts:230-235 | putting a name before a deduplicated list and deduplicating is deduplicating the original list with that name in front |
| TermNames.VarsAreFreeOrBound | src/untyped.ts:252-264 | a name is in `vars` exactly when it is in `free` or in `bound` |
| TermNames.NamesExamples | src/tests/untyped.test.ts:146-183 | `free`, `bound` and `vars` of `λx.x`, `λx.x y`, `x y` and `(λx.x) x` are the whole lists the tests expect, order included |
| TermNames.NamesOfBinderApplied | src/tests/untyped.test.ts:146-183 | for any distinct `x`, `y`: `free(λx.x y)` is `[y]`, `bound` is `[x]` and `vars` is `[x, y]` |
| TermNames.NamesOfPair | src/tests/untyped.test.ts:146-183 | for any distinct `x`, `y`: `free(x y)` and `vars(x y)` are `[x, y]` and `bound` is empty |
| TermNames.NamesOfIdentityApplied | src/tests/untyped.test.ts:146-183 | for any `x`: `free`, `bound` and `vars` of `(λx.x) x` are each `[x]` |
| UntypedParser.ParseTerm | src/untyped.ts:165-189 | `term` either consumes tokens or, consuming none, returns `undefined` |
| UntypedParser.ParseAbstraction | src/untyped.ts:169-185 | after `λ` a binding and `.`, the result is an abstraction |
| UntypedParser.ParseApplication | src/untyped.ts:191-200 | `application` consumes tokens, or returns `undefined` when no atom starts it |
| UntypedParser.AppLoop | src/untyped.ts:193-199 | the loop never moves the cursor back, and when it stops without consuming anything it returns the left side read so far |
| UntypedParser.ParseAtom | src/untyped.ts:202-217 | an atom that is not `undefined` consumes tokens; an atom that consumes nothing is `undefined` and leaves the swap table alone (`()` also gives `undefined`, after its two tokens) |
| UntypedParser.Term | src/untyped.ts:165-189 | the method moves the cursor and the swap table as `ParseTerm` says, and restores the binder stack |
| UntypedParser.Application | src/untyped.ts:191-200 | the method with its `while` loop follows `ParseApplication`, and restores the binder stack |
| UntypedParser.Atom | src/untyped.ts:202-217 | the method follows `ParseAtom`, and restores the binder stack |
| UntypedParser.Parse | src/untyped.ts:220-222 | `parse` returns what `ParseSpec` says; trailing tokens are ignored |
| Rebuilding.Rebuild | src/untyped.ts:165-217 | re-indexing and renaming keep the term's shape |
| Rebuilding.RebuildWF | src/untyped.ts:177-185 | renamed binders are identifiers, so a well-formed term stays well formed |
| Rebuilding.RebuildCanonical | src/untyped.ts:172-213 | what the parser builds is canonical: each index is the distance to its binder, and no binder shadows another |
| Rebuilding.CanonicalIsFixed | src/untyped.ts:172-213 | a canonical term is read back unchanged |
| Rebuilding.RebuildIdempotent | src/untyped.ts:165-217 | parsing the printout a second time changes nothing more |
| Rebuilding.RebuildSwapsShrink | src/untyped.ts:177-185 | the swap table left behind is a sub-table of the one before |
| Rebuilding.RebuildFreeFrom | src/untyped.ts:172-213 | reading back introduces no new free name |
| Rebuilding.Scoped | src/untyped.ts:165-217 | the intended reading of a text, where each variable refers to the innermost binder of its name, keeps the term's shape |
| Rebuilding.RebuildCorrected | src/untyped.ts:172-185 | the parser's reading with a renamed binder also avoiding the names of its body, and each scope restoring the swap table it started with; it keeps the term's shape |
| Rebuilding.RebuildCorrectedScoped | src/untyped.ts:172-213 | under a stack and swap table that resolve every name of the term to its binder in the text, the corrected reading `equals` the intended reading |
| Rebuilding.CorrectedReadingKeepsScopes | src/untyped.ts:172-213 | the corrected reading of any complete term `equals` its intended reading: every variable keeps its binder |
| Rebuilding.RebuildCorrectedCanonical | src/untyped.ts:172-213 | the corrected reading is canonical too: indices are distances to binders, and no binder shadows another |
| Rebuilding.CorrectedCanonicalIsFixed | src/untyped.ts:172-213 | the correction changes nothing on a canonical term, which reads back as itself |
| Rebuilding.RebuildKeepsFree | src/untyped.ts:172-213 | a free name stays free after reading back, unless it has the form `f<k>` |
| ShowLexing.TokenizeShow | src/untyped.ts:92-126 | the printed form of a well-formed term always tokenizes, to a token list fixed by the term |
| ShowParsing.ParseToks | src/untyped.ts:165-222 | those tokens parse to the rebuilt term |
| Reparsing.Reparse | src/untyped.ts:284 | `parse(tokenize(t.toString()))` is the rebuilt term: well formed, canonical and of the same shape |
| Reparsing.ReparseCanonical | src/untyped.ts:284 | a canonical term survives the round trip unchanged |
| Reparsing.ReparseIdempotent | src/untyped.ts:302 | normalising twice is normalising once |
| Reparsing.ReparseFreeFrom | src/untyped.ts:317 | normalising introduces no new free name |
| Reparsing.ReparseKeepsFree | src/untyped.ts:317 | normalising keeps every free name that does not have the form `f<k>` |
| Reparsing.DeBruijnOfNested | src/tests/untyped.test.ts:123 | `λx.λy.x y` is `λ λ 2 1` in de Bruijn notation |
| Reparsing.DeBruijnOfFree | src/tests/untyped.test.ts:125 | `(λx.x z) x` is `(λ 1 z) x` |
| Reparsing.ShadowedSwapDropped | src/untyped.ts:177-184 | reading `λx.λx.(λx.x) x` drops the outer swap of `x` when the inner one is removed, so the last `x` refers to the outermost binder |
| Reparsing.FreshNameCaptures | src/untyped.ts:178 | the parser's renaming avoids only binders in scope, so `λx.λx.f0` reads back as `λx.λf0.f0` and the free `f0` is captured |
| Reparsing.ShadowedSwapMisreads | src/untyped.ts:177-184 | as written, the read-back `λx.λx.(λx.x) x` does not `equals` its intended reading |
| Reparsing.FreshNameMisreads | src/untyped.ts:178 | as written, the read-back `λx.λx.f0` does not `equals` its intended reading |
| Substitution.CapSubst | src/untyped.ts:274-285 | capturing substitution gives a well-formed, normalised term |
| Substitution.CapSubstVarShape | src/untyped.ts:274-285 | substituting a variable never renames anything, and keeps the shape |
| Substitution.CapSubstFreeFrom | src/untyped.ts:274-285 | a free name of the result is free in `e` and not the target, or comes from `v` where the target was free |
| Substitution.CapSubstKeepsFree | src/untyped.ts:274-285 | a free name other than the target, and not of the form `f<k>`, stays free |
| Substitution.CapSubstCaptures | src/untyped.ts:274-285 | `(λy.x)[x:=y]` without renaming is `λy.y`: the substituted `y` is captured |
| Substitution.CapSubstOnVariables | src/tests/untyped.test.ts:185-199 | for any distinct `x`, `y`: `x[x/t]` is `t` and `y[x/t]` is `y` |
| Substitution.CapSubstUnderBinder | src/tests/untyped.test.ts:185-199 | for distinct `x`, `y` and `t` other than `x`: `(λx.y)[x/t]` is `λx.y` and `(λx.y)[y/t]` is `λx.t` |
| Substitution.CapSubstInApplication | src/tests/untyped.test.ts:185-199 | `((λx.x z) (y z))[z/t]` is `(λx.x t) (y t)`: every free `z` is replaced and the bound `x` is kept |
| Substitution.CapSubstExamples | src/tests/untyped.test.ts:185-199 | the five `capSubst` cases of the tests give the expected terms, exactly rather than only up to `equals` |
| Substitution.SubstAvoiding | src/untyped.ts:287-303 | substitution with a binder renamed away from the given names gives a well-formed, normalised term |
| Substitution.Subst | src/untyped.ts:287-303 | `subst` as written, with the fresh binder chosen from `vars(expr)` alone: well formed and normalised |
| Substitution.SubstCorrected | src/untyped.ts:287-303 | `subst` with the fresh binder also avoiding the target and the value's names: well formed and normalised |
| Substitution.Renaming | src/untyped.ts:297-301 | when the binder is free in the value, it is renamed to a fresh `f<k>` not among the names to avoid, and the body is rewritten to use it |
| Substitution.SubstCorrectedFreeFrom | src/untyped.ts:287-303 | the corrected substitution brings in no free name except from the value, and only where the target was free |
| Substitution.SubstCorrectedFree | src/untyped.ts:287-303 | for names not of the form `f<k>`: free in the result exactly when free in `e` and not the target, or free in `v` while the target is free in `e` |
| Substitution.SubstFreeFrom | src/untyped.ts:287-303 | `subst` as written brings in no name outside `e` and `v`, and none from `v` unless the target was free, unless the target has the form `f<k>` |
| Substitution.SubstTargetCollision | src/untyped.ts:297-301 | as written, `subst(λx.x, f0, x)` is `λf0.x`: a closed term gains a free `x` |
| Substitution.SubstCorrectedNoCollision | src/untyped.ts:297-301 | corrected, the same substitution gives the closed `λf1.f1` |
| Substitution.SubstAvoidsCapture | src/tests/untyped.test.ts:207 | `subst(λx.y, y, x)` is `λf0.x`, both as written and corrected: the substituted `x` stays free |
| Substitution.SubstOnVariables | src/tests/untyped.test.ts:201-215 | for any distinct `x`, `y` and any names avoided: `x⟦x/t⟧` is `t` and `y⟦x/t⟧` is `y` |
| Substitution.SubstShadowedTarget | src/tests/untyped.test.ts:201-215 | for distinct `x`, `y`: `(λx.y)⟦x/t⟧` is `λx.y`, since the binder shadows the target and nothing is renamed |
| Substitution.SubstRenamesOperator | src/untyped.ts:287-303 | in `(λx.x z)⟦z/x⟧` the binder `x` is free in the value, so it becomes the fresh name `f` and the result is `λf.f x`, with the substituted `x` free |
| Substitution.SubstInApplication | src/tests/untyped.test.ts:201-215 | `((λx.x z) (y z))⟦z/x⟧` is `(λf.f x) (y x)` with `f` the fresh name, for any distinct names and any names avoided |
| Substitution.SubstApplicationExample | src/tests/untyped.test.ts:205 | `((λx.x z) (y z))⟦z/x⟧` is `(λf0.f0 x) (y x)`, as written and corrected |
| Substitution.SubstExamples | src/tests/untyped.test.ts:201-215 | the five `subst` cases of the tests give the expected terms, exactly rather than only up to `equals`, as written and corrected |
| Substitution.SubstBy | src/untyped.ts:287-303 | the substitution a step uses gives a well-formed, normalised term; with `corrected` false it is `subst` as written, with `corrected` true the corrected substitution |
| Substitution.SubstByFreeFrom | src/untyped.ts:287-303 | with either substitution, a free name of the result is free in `e` and not the target, or free in the value |
| Substitution.EvalOnce | src/untyped.ts:305-318 | one step gives a well-formed, normalised term, whichever substitution the flag `corrected` picks (false: `subst` as written) |
| Substitution.EvalOnceRedex | src/untyped.ts:308-309 | at a root redex, the step is the substitution of the argument for the binder; with `corrected` false it is `subst` as written, with `corrected` true the corrected substitution |
| Substitution.EvalOnceVar | src/untyped.ts:316-317 | an identifier is left as it is, apart from re-indexing it as free |
| Substitution.EvalOnceFreeFrom | src/untyped.ts:305-318 | a step brings in no free name, with either substitution |
| Substitution.EvalOnceTargetCollision | src/untyped.ts:308-309 | as written, `evalOnce((λf0.λx.x) x)` is `λf0.x`, with a free `x`; corrected it is the closed `λf1.f1` |
| Evaluation.FixpointSettles | src/untyped.ts:320-326 | the loop returns the second of the first pair of successive iterates that `equals` each other; running out of fuel means no such pair exists within the fuel |
| Evaluation.ApplyFreeFrom | src/untyped.ts:305-415 | a step of `evalOnce` or `forAlsOnce`, with either substitution, adds free names only from alias values, and a step of `bakAlsOnce` only alias names |
| Evaluation.FixpointFreeFrom | src/untyped.ts:320-415 | a term any of the three loops returns, with either substitution, has only free names of its input or names its step brings in; for `evaluate`, none the input lacks |
| Evaluation.Evaluate | src/untyped.ts:320-326 | the loop, with its two look-ahead results, returns exactly the fixpoint of `evalOnce` with the substitution `corrected` picks, or nothing when it would still be running |
| Aliasing.Lookup | src/untyped.ts:332-334 | a lookup fails exactly for a missing key, and otherwise returns a value stored under it |
| Aliasing.Put | src/untyped.ts:366-368 | `Map.set` keeps an existing key in place, or appends a new key at the end; no other entry changes |
| Aliasing.PutDistinct | src/untyped.ts:366-368 | `set` keeps the keys distinct |
| Aliasing.PutLookup | src/untyped.ts:366-368 | after `set(k, v)` the key `k` gives `v`, and every other key gives what it gave before |
| Aliasing.Remove | src/untyped.ts:371-373 | `delete` removes the key, leaves every other key's value, and keeps the order |
| Aliasing.WithoutDistinct | src/untyped.ts:371-373 | removing a key keeps the keys distinct |
| Aliasing.ForAls | src/untyped.ts:377-382 | substituting every alias in turn, with either substitution, keeps a term well formed |
| Aliasing.ForAlsFreeFrom | src/untyped.ts:377-382 | with either substitution, a free name after substituting the aliases is free in the term or in some alias value |
| Aliasing.FirstEqual | src/untyped.ts:395-397 | finds the first stored value that `equals` the term, or reports that none does |
| Aliasing.BakAlsOfValue | src/untyped.ts:394-407 | when stored values are pairwise unequal, `bakAlsOnce` folds each stored value back into its own alias name |
| Aliasing.BakAlsFreeFrom | src/untyped.ts:394-407 | folding back introduces only alias names as new free names |
| Aliasing.PutApart | src/untyped.ts:359-368 | adding a value that equals no stored value keeps all stored values well formed and pairwise unequal |
| Aliasing.PutFoldsBack | src/untyped.ts:359-368 | after such an add, the new value folds back into the new alias name |
| Aliasing.RemoveApart | src/untyped.ts:371-373 | removing an alias keeps the stored values distinct and well formed |
| Context.ReadShown | src/untyped.ts:355-357 | reading the printout of a well-formed term never fails, and gives its normal form |
| Context.Prepared | src/untyped.ts:355-357 | the expanded and evaluated term is well formed, with either substitution |
| Context.AliasValue | src/untyped.ts:354-369 | a stored value is well formed, not an identifier, and equals no stored value; the duplicate check comes first; this holds with either substitution |
| Context.FixpointOfIdentity | src/untyped.ts:384-415 | a step that leaves a term unchanged makes that term its own fixpoint |
| Context.EvaluateWithoutAliases | src/untyped.ts:419-425 | with no aliases, `evaluate(text)` is the fixpoint of `evalOnce` (with the substitution `corrected` picks) on the text read, or divergence |
| Context.ExecutionContext.constructor | src/untyped.ts:332-334 | both tables start empty; the context's `corrected` flag picks the substitution its loops use (false: as written) |
| Context.ExecutionContext.Aliases | src/untyped.ts:336-341 | the getter lists every definition text in insertion order, removed aliases included |
| Context.ExecutionContext.AddAlias | src/untyped.ts:354-369 | on success both tables gain the alias, and the stored term folds back to the alias name; on a throw neither table changes; the stored term is `AliasValue` with the context's substitution |
| Context.ExecutionContext.HasDuplicate | src/untyped.ts:359-361 | true exactly when some stored value equals the term |
| Context.ExecutionContext.RemoveAlias | src/untyped.ts:371-373 | only the stored term goes; the definition texts are kept |
| Context.ExecutionContext.ReadText | src/untyped.ts:355 | the tokenizer and parser methods together read a text as `Read` says |
| Context.ExecutionContext.Prepare | src/untyped.ts:355-357 | reading, alias expansion and evaluation by the methods give `Prepared`, with the context's substitution |
| Context.ExecutionContext.ForAlsOnce | src/untyped.ts:377-382 | the loop substitutes every alias in insertion order, with the context's substitution |
| Context.ExecutionContext.ForwardAlias | src/untyped.ts:384-390 | the loop returns exactly the fixpoint of `forAlsOnce` over the current aliases, with the context's substitution; `FixpointFreeFrom` bounds its free names |
| Context.ExecutionContext.BackwardAlias | src/untyped.ts:409-415 | the loop returns exactly the fixpoint of `bakAlsOnce` over the current aliases, whose free names `FixpointFreeFrom` bounds |
| Context.ExecutionContext.Evaluate | src/untyped.ts:419-425 | reading, forward expansion, evaluation, backward folding and the final read-back, as `EvaluateText` says, with the context's substitution |
| TypedLexer.Tokenize | src/typed.ts:89-91 | `tokenize` is the generic loop run over the typed rule table |
| TypedLexer.RulesWellFormed | src/typed.ts:71-87 | every literal of the rule table is non-empty |
| TypedLexer.MatchAt | src/typed.ts:71-87 | literal rules match only at their first character; type names start uppercase, identifiers lowercase, and error runs with a digit or underscore |
| TypedLexer.KeywordMatch | src/typed.ts:71-87 | where `true`, `false` or `zero` begins, its keyword rule is the first that matches |
| TypedLexer.KeywordFirst | src/typed.ts:71-87 | so the keyword becomes a keyword token, not an identifier |
| TypedLexer.TypeNameToken | src/typed.ts:71-87 | an uppercase letter and the lowercase letters after it form one type-name token |
| TypedLexer.IdentifierToken | src/typed.ts:53-60 | a lowercase word not starting with a keyword starts or extends an identifier |
| TypedLexer.DigitRun | src/typed.ts:62-69 | a digit/underscore run continues a pending identifier, and otherwise throws "identifier must begin with a lowercase letter" |
| TypedSyntax.TypeAlwaysSimple | src/typed.ts:112-127 | an arrow's `isSimple` is its input's, and so every type is simple: an arrow's output is never parenthesised |
| TypedSyntax.ShowAgrees | src/typed.ts:184-194 | the printer as written and the corrected one differ only where an application chain stands bare on the right of a non-simple left side |
| TypedParser.ParseType | src/typed.ts:220-227 | `type()` consumes at least one token on success |
| TypedParser.ParseAtomType | src/typed.ts:229-250 | `atomType()` consumes at least one token on success |
| TypedParser.ParseTerm | src/typed.ts:252-266 | `term()` consumes tokens, or none with an `undefined` result |
| TypedParser.ParseApplication | src/typed.ts:268-277 | `application()` consumes tokens, or none with an `undefined` result; an atom applied to an `undefined` left side is the `Application` constructor's TypeError, `UndefinedOperand` |
| TypedParser.AppLoop | src/typed.ts:269-276 | the loop never moves the cursor back; when it stops without consuming anything it returns the left side; an `undefined` left side is returned only as it is, since applying it makes the `Application` constructor (src/typed.ts:181) throw `UndefinedOperand` |
| TypedParser.ParseAtom | src/typed.ts:279-293 | an atom that is not `undefined` consumes tokens, and one that consumes none is `undefined` (`()` also gives `undefined`, after its two tokens) |
| TypedParser.ReadType | src/typed.ts:220-227 | the method follows `ParseType` in result and cursor |
| TypedParser.ReadAtomType | src/typed.ts:229-250 | the method follows `ParseAtomType` |
| TypedParser.ReadTerm | src/typed.ts:252-266 | the method follows `ParseTerm` |
| TypedParser.ReadApplication | src/typed.ts:268-277 | the method and its `while` loop follow `ParseApplication`, including the `UndefinedOperand` throw |
| TypedParser.ReadAtom | src/typed.ts:279-293 | the method follows `ParseAtom` |
| TypedParser.Parse | src/typed.ts:296-297 | `parse` returns or throws what `ParseSpec` says, `UndefinedOperand` included |
| TypedParser.AtomTypeNameErrors | src/typed.ts:240-249 | a type token other than `Bool` or `Nat` throws "type must be Bool or Nat" at its start; a lowercase name throws "type name must begin with uppercase letter"; anything else throws "type expected" |
| TypedParser.PairTypeErrors | src/typed.ts:234-239 | a pair type missing `,` or `]` throws "',' expected" or "']' expected" where it is missing |
| TypedParser.AbstractionErrors | src/typed.ts:256-262 | after `λ`, a missing binding, `:` or `.` throws its own message at that token |
| TypedParser.UndefinedApplied | src/typed.ts:268-286 | the tokens of `() x` throw `UndefinedOperand`, while those of `()` alone parse to `undefined` |
| TypedParser.TermExpected | src/typed.ts:253-255 | at the end of the tokens `term()` throws "λ-term expected"; with no tokens at all it fails on `tokens[-1]` |
| TypedShowLexing.TokenizeShowBy | src/typed.ts:100-195 | the printed form of a readable term always tokenizes, to a token list fixed by the term |
| TypedShowParsing.ParseTypeShown | src/typed.ts:220-250 | the printed tokens of a valid type parse back to the type: arrows associate to the right |
| TypedShowParsing.ShowByRoundTrip | src/typed.ts:184-194 | printing and parsing back gives the term, wherever every bare right side is an identifier |
| TypedShowParsing.ShowRoundTrip | src/typed.ts:184-194 | the printer as written round-trips every readable term with no application chain bare on the right |
| TypedShowParsing.ShowCorrectedRoundTrip | src/typed.ts:184-194 | the corrected printer round-trips every readable term |
| TypedShowParsing.ShowMisgroups | src/typed.ts:189-190 | as written, `(λx:Bool.x) (f y)` prints as `(λx:Bool.x) f y`, which reads back as `((λx:Bool.x) f) y` |
| TypedShowParsing.ShowCorrectedKeepsGrouping | src/typed.ts:189-190 | the corrected printer keeps `(f y)` in parentheses, and the term reads back as itself |

## Left out

- The command line, the browser editor and the scripts (`src/index.ts`, `src/main.ts`, `src/run.ts`, `src/cm/`) are not part of this model. They are I/O and UI.
- The typed execution context, the type checker and the Nat primitives are not part of this model. `src/typed.ts` does not define them.
- The JavaScript RegExp engine: each rule's regular expression is replaced by an equivalent literal or character-class run, with `λ` as one character.
- Rule callbacks push onto and pop from the pending array in place. In the model they return the new pending sequence, which the loop stores.
- JavaScript `undefined` is an explicit value: `Missing` for untyped terms and `Undefined` for typed ones. A `TypeError` from reading `.start` of a missing token is the error `MissingToken`.
- The strings thrown by `addAlias` become `ContextError.Thrown("DUPLICATE!")` and `ContextError.Thrown("IDENTIFIER!")`.
- Context.Prepared: a term read with an `undefined` part is refused with `ContextError.Incomplete`, although the source does not always fail on it. With no alias defined, `forAlsOnce` returns the term unchanged and `equals(undefined, undefined)` is false (src/untyped.ts:137-147, 384-390), so `evaluate("()")` and `addAlias("a", "()")` loop forever. With an alias defined, `forAlsOnce` first calls `subst` with the first stored alias (src/untyped.ts:377-382). If that call reaches an `undefined` part, it reads `.binding` of `undefined` (src/untyped.ts:293) and throws a TypeError, as for `()` and `(λy.()) z`. If instead every `undefined` part lies under a binder named like that first alias, `subst` returns the abstraction without entering its body (src/untyped.ts:293-294). Line 302 then prints the part as the text `undefined` and reads it back as a free identifier. For example, after `addAlias("x", "λy.y")`, `evaluate("λx.()")` returns `λx.undefined` and `addAlias("z", "λx.()")` stores that term. The model refuses all three cases with `Incomplete`, so it does not model the source's `undefined` identifier.
- Context.AliasValue: through `Prepared`, it refuses with `Incomplete` the first-alias-binder case above, where the source stores a term holding the free identifier `undefined`.
- Context.ExecutionContext.AddAlias: through `AliasValue`, it returns `Err(Incomplete)` and leaves both tables unchanged in the first-alias-binder case above, where the source adds the alias.
- Context.EvaluateText: through `Prepared`, it gives `Incomplete` in the first-alias-binder case above, where the source returns a term holding the identifier `undefined`. The same holds for `Context.ExecutionContext.Evaluate`.
- `isCircularDefined` is not modelled. It always returns false and is never called.
- `Map` iteration order is modelled as an insertion-ordered sequence of pairs.
- Evaluation.Evaluate: a `fuel` bound replaces the unbounded loop, and running out of fuel (`None`) stands for divergence, as with omega. The same holds for `ForwardAlias`, `BackwardAlias` and the functions `Fixpoint`, `Prepared`, `AliasValue` and `EvaluateText`.
- Reparsing.ReparseKeepsFree: it holds only for names not of the form `f<k>`. The parser's renaming avoids only the binders in scope, so it can capture such a name (`Reparsing.FreshNameCaptures`). The same restriction applies to `Rebuilding.RebuildKeepsFree`, `Substitution.CapSubstKeepsFree` and `Substitution.SubstCorrectedFree`.
- Reparsing.Reparse: the parser methods and `Reparse` keep the parser as written, with the two scoping slips under Findings. The corrected reading `Rebuilding.RebuildCorrected` is proved separately and is not wired into substitution or evaluation.
- The `toString`, `toDeBruijnString` and `Token.toString` methods have no contract of their own. The printers are specified by the round-trip lemmas, the de Bruijn examples, `EqualsSameDeBruijn` and `DeBruijnText.EqualsIffSameDeBruijn`.
- The source indexes strings by UTF-16 code units. For a character outside the Basic Multilingual Plane, the message `unexpected character: <c>` (src/tokenize.ts:46) holds a lone surrogate. The model's message holds the whole character, and its offsets count characters, not code units.
- The typed round trip covers readable terms only. A name that is not an identifier, a base type other than `Bool` or `Nat`, or an `undefined` part does not read back as itself.

## Findings

| source | as written | input that shows it | evidently intended | confidence | as-written member | corrected member |
|---|---|---|---|---|---|---|
| src/untyped.ts:297-301 | `subst` renames a binder that is free in the value to `fresh(vars(expr))`, which avoids only the names of `expr` and so can be the target itself | `subst(λx.x, f0, x)` gives `λf0.x`, where the closed `λx.x` gains a free `x`; evaluating `(λf0.λx.x) x` takes this step | the fresh binder also avoids the target and the value's names, so the closed result is `λf1.f1` | not executed | Substitution.SubstTargetCollision | Substitution.SubstCorrectedNoCollision |
| src/untyped.ts:177-184 | `addSwap` overwrites and `removeSwap` deletes the swap of an outer shadowing binder (src/parse.ts:22-28), so leaving an inner scope forgets the outer renaming | in `λx.λx.(λx.x) x` the last `x` is bound by the middle binder, but it reads back as `λx.λf0.(λf1.f1) x`, bound by the outermost | leaving a scope restores the swap table it started with, so every variable keeps the binder it has in the text | not executed | Reparsing.ShadowedSwapMisreads | Rebuilding.CorrectedReadingKeepsScopes |
| src/untyped.ts:178 | the renamed binder is `fresh(this.context.ids)`, which avoids only the binders in scope | `λx.λx.f0` reads back as `λx.λf0.f0`: the free `f0` is captured | the fresh binder also avoids the names of its body | not executed | Reparsing.FreshNameMisreads | Rebuilding.CorrectedReadingKeepsScopes |
| src/typed.ts:189-190 | `Application.toString` prints the right side bare whenever it is simple, and a simple term can be an application chain | `(λx:Bool.x) (f y)` prints as `(λx:Bool.x) f y`, which parses as `((λx:Bool.x) f) y` | the right side is printed bare only when it is an identifier, so printing and parsing back gives the same term | not executed | TypedShowParsing.ShowMisgroups | TypedShowParsing.ShowCorrectedRoundTrip |

`Substitution.EvalOnce`, `Aliasing.ForAls`, the loops of `Evaluation` and the `ExecutionContext` take a flag `corrected`. With it false they substitute with `subst` as written, so the program's own evaluation is modelled, and `Substitution.EvalOnceTargetCollision` shows the two apart on `(λf0.λx.x) x`. Their free-name bounds hold for both. The parser keeps its as-written scoping, and the corrected reading is `Rebuilding.RebuildCorrected`. The typed printer is modelled both ways by `TypedSyntax.ShowBy`. `TypedShowParsing.ShowRoundTrip` shows that the printer as written agrees with the corrected one wherever no chain stands bare on the right.
