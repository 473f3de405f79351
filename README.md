# A verified model of a backtracking top-down parser

This project models the core of a small Kotlin parsing library.

- **Grammars.** A grammar is a map from nonterminals to extended expressions: symbols, sequences, choices (spelled `Choise`), repetitions and optional parts. Lowering turns it into a *simplified grammar*: each nonterminal maps to a list of flat rules. A nested expression that cannot stay in the current rule gets a synthetic nonterminal `n_i`, named after the nonterminal n being lowered: a non-symbol part of a sequence, and a repetition or optional variant of a choice. The counter i is local to each choice and each sequence. A sequence or choice variant of a choice, and the content of an optional part, are lowered under the same nonterminal, and a repetition's non-symbol content goes to `n_0`.
- **Look-ahead.** The simplified grammar finds the nullable nonterminals with a fixpoint loop. It then computes FIRST sets with a depth-first pass that reports left recursion and missing rules. Each FIRST set is a whitelist or a blacklist of characters, with `None` standing for the end of input. `getPossibleRules` uses the FIRST sets to filter the candidate rules for one look-ahead character.
- **Forkable containers.** A parse keeps its work in *forkable* containers: a stack, a stream over a lazily produced chain of ten-element chunks, and a tree. Forking a container hands out new handles and blocks the old one, which then fails with AlreadyForked. In the tree, every handle sees the children its ancestors added, followed by its own.
- **Parsing.** A parsing state holds a tree handle whose marker is the branch being filled, a stream handle, and the look-ahead character. Its transition consumes the next symbol of the marker's rule. At a nonterminal it forks once per possible rule. A nondeterministic machine runs the states generation by generation until a state succeeds or all of them fail.
- **Result.** The finished parse tree is converted to an AST. The AST can be rendered as text and post-processed by tag sets, such as stringify, unfold and remove-empties.

The Dafny modules follow the Kotlin files:

| module | file |
|---|---|
| `Grammar` | `grammar.dfy` |
| `FirstCharacters` | `first_characters.dfy` |
| `SimplifiedGrammar` | `simplified_grammar.dfy` |
| `Forkable` | `forkable.dfy` |
| `ForkableStack` | `forkable_stack.dfy` |
| `ForkableStream` | `forkable_stream.dfy` |
| `ForkableTree` | `forkable_tree.dfy` |
| `RegularMachine` | `regular_machine.dfy` |
| `Ast` | `ast.dfy` |
| `AstProcessors` | `ast_processors.dfy` |
| `ParsingState` | `parsing_state.dfy` |

`Wrappers` holds Option and Result. A Kotlin `null` becomes `None`, and a thrown exception becomes `Failure`.

Code that builds values from expressions is written as datatypes and functions. Code that mutates state is written as classes whose methods carry `modifies` clauses and are proved against specification functions or predicates. This covers:

- the lowering builder;
- the nullable loop and the FIRST pass;
- the three forkable containers;
- the machine;
- the AST traversals;
- the parsing state.

Two behaviours of the source are kept as they are written:

- `ForkableStack.fork` does not block the original handle, unlike the other two containers.
- The synthetic-name counter is local to one choice or one sequence, so names can collide. `SimplifiedGrammar.SyntheticNamesCollide` shows two unrelated rule sets ending up in one list.

The FIRST scan of a rule stops at an `EndOfFile` symbol. The code leaves `finished` true for it (`SimplifiedGrammar.kt:80`).

## Model

| member | source | states |
|---|---|---|
| Grammar.MakeTerminal | playin-with-kotlen-master/src/main/kotlin/formallang/grammar/Grammar.kt:28-31 | Constructing a terminal fails with WrongTerminal exactly when the text is empty, and otherwise gives a terminal holding that text. |
| Grammar.Not | playin-with-kotlen-master/src/main/kotlin/formallang/grammar/Grammar.kt:49 | `!s` keeps the name, allocates a new filter and negates the old filter on every input, including the end of input. |
| Grammar.FromPairsKeys | playin-with-kotlen-master/src/main/kotlin/formallang/grammar/Grammar.kt:100-101 | The vararg grammar constructor yields a map whose keys are exactly the nonterminals of the pairs. |
| Grammar.FromPairsValues | playin-with-kotlen-master/src/main/kotlin/formallang/grammar/Grammar.kt:100-101 | A pair that no later pair overrides gives its nonterminal's expression in the map. |
| Grammar.UnescapeEscape | playin-with-kotlen-master/src/main/kotlin/formallang/grammar/Grammar.kt:32 | Escaping quotes in a terminal's text is undone by the reference unescaping, so no text is lost. |
| Grammar.EscapedQuotesArePreceded | playin-with-kotlen-master/src/main/kotlin/formallang/grammar/Grammar.kt:32 | In escaped text every quote is preceded by a backslash. |
| Grammar.TerminalToString | playin-with-kotlen-master/src/main/kotlin/formallang/grammar/Grammar.kt:32 | A terminal renders between single quotes, and the text inside unescapes to the terminal's value. |
| FirstCharacters.EmptyWhiteList | playin-with-kotlen-master/src/main/kotlin/formallang/grammar/FirstCharacter.kt:36-40 | The default whitelist admits no character and no end of input. |
| FirstCharacters.Sum | playin-with-kotlen-master/src/main/kotlin/formallang/grammar/FirstCharacter.kt:51-56 | The sum of a whitelist and a blacklist is a blacklist that admits exactly what either operand admits. |
| FirstCharacters.Plus | playin-with-kotlen-master/src/main/kotlin/formallang/grammar/FirstCharacter.kt:21-45 | `+` admits exactly what either operand admits; two whitelists give a whitelist, and any blacklist operand gives a blacklist. |
| FirstCharacters.EmptyIsUnit | playin-with-kotlen-master/src/main/kotlin/formallang/grammar/FirstCharacter.kt:36-45 | The default whitelist is a unit of `+` on both sides, as far as `suitable` can tell. |
| FirstCharacters.TerminalFirst | playin-with-kotlen-master/src/main/kotlin/formallang/grammar/FirstCharacter.kt:61-62 | A terminal's first-character set is a whitelist that admits exactly the first character of its text. |
| FirstCharacters.SpecialFirst | playin-with-kotlen-master/src/main/kotlin/formallang/grammar/FirstCharacter.kt:67-68 | A special symbol's first-character set is a whitelist that admits exactly what the symbol's filter admits. |
| FirstCharacters.PlusAllIsUnion | playin-with-kotlen-master/src/main/kotlin/formallang/grammar/SimplifiedGrammar.kt:72-91 | Folding `+` from the default whitelist admits a character exactly when some element admits it. |
| SimplifiedGrammar.LowerFrame | playin-with-kotlen-master/src/main/kotlin/formallang/grammar/SimplifiedGrammar.kt:141-179 | Lowering under n only appends rules, and only to n and to the nonterminals named after n. |
| SimplifiedGrammar.SequenceEmitsOneRule | playin-with-kotlen-master/src/main/kotlin/formallang/grammar/SimplifiedGrammar.kt:163-177 | A sequence gives n one rule with one symbol per part, in order: a bare symbol stands for itself, any other part for `n_i`, where i counts the earlier non-symbol parts. |
| SimplifiedGrammar.RepeatEmitsLoop | playin-with-kotlen-master/src/main/kotlin/formallang/grammar/SimplifiedGrammar.kt:155-158 | A repetition of x gives n the rule `X n` and then the empty rule, where X is x if x is a symbol and `n_0` otherwise. |
| SimplifiedGrammar.MaybeEmitsEpsilon | playin-with-kotlen-master/src/main/kotlin/formallang/grammar/SimplifiedGrammar.kt:159-162 | An optional x gives n the rules x gives it, followed by the empty rule, and removes nothing. |
| SimplifiedGrammar.ChoiseEmitsOneRulePerVariant | playin-with-kotlen-master/src/main/kotlin/formallang/grammar/SimplifiedGrammar.kt:144-154 | A choice whose variants are not choices gives n one rule per variant, in order; a repetition or optional variant becomes `[n_i]`, where i counts only those variants. |
| SimplifiedGrammar.LowerSymbolThenMaybe | playin-with-kotlen-master/src/main/kotlin/formallang/grammar/SimplifiedGrammar.kt:163-177 | Lowering `y [z]`: the optional part goes to `n_0` first, then n gets the rule `y n_0`. |
| SimplifiedGrammar.LowerRepeatOrOther | playin-with-kotlen-master/src/main/kotlin/formallang/grammar/SimplifiedGrammar.kt:144-154 | Lowering a choice of `{x}` and s: the repetition goes to `n_0`, then n gets `n_0`, then s is lowered under n. |
| SimplifiedGrammar.SyntheticNamesCollide | playin-with-kotlen-master/src/main/kotlin/formallang/grammar/SimplifiedGrammar.kt:144-177 | The synthetic-name counter is local to each choice and each sequence. So a repetition variant and an optional part inside a sibling sequence both become `N_0`, and their rules share one list. |
| SimplifiedGrammar.Builder.AddRule | playin-with-kotlen-master/src/main/kotlin/formallang/grammar/SimplifiedGrammar.kt:137-138 | `addRule` appends the rule to n's list and creates the list if it is missing. |
| SimplifiedGrammar.Builder.ProcessRule | playin-with-kotlen-master/src/main/kotlin/formallang/grammar/SimplifiedGrammar.kt:141-179 | `processRule` leaves the rule map equal to the lowering of the expression under n applied to the old map. |
| SimplifiedGrammar.LowerAllOwned | playin-with-kotlen-master/src/main/kotlin/formallang/grammar/SimplifiedGrammar.kt:184-197 | Every nonterminal of the lowered grammar is a nonterminal of the grammar or is named after one. |
| SimplifiedGrammar.LowerGrammar | playin-with-kotlen-master/src/main/kotlin/formallang/grammar/SimplifiedGrammar.kt:184-197 | Each entry of the grammar is lowered exactly once, in some order, and the result is the lowering of all entries in that order. Every resulting nonterminal is a grammar nonterminal or is named after one. |
| SimplifiedGrammar.CanBeEmpty | playin-with-kotlen-master/src/main/kotlin/formallang/grammar/SimplifiedGrammar.kt:52-55 | The nullable test holds exactly when some rule is empty or consists only of nonterminals already known to be nullable. |
| SimplifiedGrammar.ComputeEpsilons | playin-with-kotlen-master/src/main/kotlin/formallang/grammar/SimplifiedGrammar.kt:41-61 | The loop computes the least set of nullable nonterminals: contained in the rule keys, closed, and below every closed set. |
| SimplifiedGrammar.NullablePass | playin-with-kotlen-master/src/main/kotlin/formallang/grammar/SimplifiedGrammar.kt:47-60 | One pass over the remaining entries removes only justified entries. A pass that changes nothing has found every entry not nullable. |
| SimplifiedGrammar.NullableSetUnique | playin-with-kotlen-master/src/main/kotlin/formallang/grammar/SimplifiedGrammar.kt:41-61 | There is only one least nullable set, so the iteration order of the hash map does not affect the result. |
| SimplifiedGrammar.ScanLengthFacts | playin-with-kotlen-master/src/main/kotlin/formallang/grammar/SimplifiedGrammar.kt:75-89 | The FIRST scan reads a prefix of the rule. Every symbol before its last one is a nullable nonterminal, and when it stops early its last symbol is not one. |
| SimplifiedGrammar.AccumulateMeaning | playin-with-kotlen-master/src/main/kotlin/formallang/grammar/SimplifiedGrammar.kt:74-89 | The accumulated set admits a character exactly when one of the scanned symbols admits it. |
| SimplifiedGrammar.RuleFirstMeaning | playin-with-kotlen-master/src/main/kotlin/formallang/grammar/SimplifiedGrammar.kt:73-90 | A rule's FIRST set admits a character exactly when a symbol the scan reads admits it. |
| SimplifiedGrammar.RulesFirstMeaning | playin-with-kotlen-master/src/main/kotlin/formallang/grammar/SimplifiedGrammar.kt:72-91 | A nonterminal's FIRST set admits a character exactly when one of its rules' FIRST sets does. |
| SimplifiedGrammar.FirstPass.ProcessNonTerminal | playin-with-kotlen-master/src/main/kotlin/formallang/grammar/SimplifiedGrammar.kt:67-95 | On success n's FIRST set is known and the invariant of the pass still holds. A LeftRecursion error comes with a left-recursive cycle through its nonterminal. A NoRuleFound error comes with a chain of scans from a rule key to the nonterminal without rules it names. |
| SimplifiedGrammar.FirstPass.ScanRules | playin-with-kotlen-master/src/main/kotlin/formallang/grammar/SimplifiedGrammar.kt:73-92 | The loop over n's rules records every rule's FIRST set and returns their `+`. Its errors come with a cycle or with a chain of scans to the missing nonterminal. |
| SimplifiedGrammar.FirstPass.ScanRule | playin-with-kotlen-master/src/main/kotlin/formallang/grammar/SimplifiedGrammar.kt:74-90 | The loop over a rule's symbols records and returns that rule's FIRST set. Its errors come with a cycle or with a chain of scans to the missing nonterminal. |
| SimplifiedGrammar.FirstPass.ScanSymbol | playin-with-kotlen-master/src/main/kotlin/formallang/grammar/SimplifiedGrammar.kt:76-88 | One symbol extends the accumulated set, and the scan finishes exactly at a symbol that is not a nullable nonterminal. Its errors come with a cycle or with a chain of scans to the missing nonterminal. |
| SimplifiedGrammar.FirstPass.Run | playin-with-kotlen-master/src/main/kotlin/formallang/grammar/SimplifiedGrammar.kt:96-100 | The outer loop ends with a FIRST set for every rule key, or reports left recursion with a cycle, or a missing rule with a chain of scans from a rule key to it. |
| SimplifiedGrammar.NoCycleThroughFinished | playin-with-kotlen-master/src/main/kotlin/formallang/grammar/SimplifiedGrammar.kt:68-69 | No left-recursive cycle passes through a nonterminal whose FIRST set is already known. |
| SimplifiedGrammar.Complete | playin-with-kotlen-master/src/main/kotlin/formallang/grammar/SimplifiedGrammar.kt:41-101 | After the pass, every FIRST set satisfies its equation, every rule's set is recorded, the grammar has no left-recursive cycle, and every nonterminal a scan reads has rules. |
| SimplifiedGrammar.Build | playin-with-kotlen-master/src/main/kotlin/formallang/grammar/SimplifiedGrammar.kt:41-101 | The `init` block: the epsilon set is the least nullable set. On success the grammar is well built, free of left recursion, and every nonterminal a scan reads has rules. LeftRecursion comes with a cycle through its nonterminal. NoRuleFound comes with a chain of scans from a rule key to its nonterminal, which has no rules. |
| SimplifiedGrammar.FromGrammar | playin-with-kotlen-master/src/main/kotlin/formallang/grammar/SimplifiedGrammar.kt:203-204 | `fromGrammar` lowers every entry once, then builds, with the same guarantees as Build on the lowered rules, including the NoRuleFound chain and the absence of missing rules on success. Every nonterminal of the result is a grammar nonterminal or is named after one, and a failure is LeftRecursion or NoRuleFound. |
| SimplifiedGrammar.EpsilonFirstIsEmpty | playin-with-kotlen-master/src/main/kotlin/formallang/grammar/SimplifiedGrammar.kt:74-90 | A corollary of `FirstCharacters.EmptyWhiteList`: the empty rule's FIRST set admits nothing. |
| SimplifiedGrammar.FilterSuitableMembers | playin-with-kotlen-master/src/main/kotlin/formallang/grammar/SimplifiedGrammar.kt:108-109 | The filter keeps exactly the rules that have a recorded set admitting the character. |
| SimplifiedGrammar.FilterSuitableAppend | playin-with-kotlen-master/src/main/kotlin/formallang/grammar/SimplifiedGrammar.kt:108-109 | The filter keeps rule order, because it distributes over concatenation. |
| SimplifiedGrammar.PossibleRulesOfUnknown | playin-with-kotlen-master/src/main/kotlin/formallang/grammar/SimplifiedGrammar.kt:107-111 | A corollary of `WellBuilt`, whose nullable set holds only rule keys: a nonterminal without rules has no possible rules. |
| SimplifiedGrammar.PossibleRulesMeaning | playin-with-kotlen-master/src/main/kotlin/formallang/grammar/SimplifiedGrammar.kt:107-111 | A non-empty rule is possible for n and c exactly when it is a rule of n and a symbol read by its FIRST scan admits c. |
| SimplifiedGrammar.PossibleRulesEpsilon | playin-with-kotlen-master/src/main/kotlin/formallang/grammar/SimplifiedGrammar.kt:110 | The empty rule is possible exactly when n is nullable, and then it comes last. |
| ForkableStack.ForkableStack.constructor | playin-with-kotlen-master/src/main/kotlin/forkable/ForkableStack.kt:33-37 | The private constructor creates an unblocked handle at the given node. |
| ForkableStack.ForkableStack.Push | playin-with-kotlen-master/src/main/kotlin/forkable/ForkableStack.kt:42-45 | A blocked handle fails and changes nothing. Otherwise the contents become the element followed by the old contents. |
| ForkableStack.ForkableStack.Peek | playin-with-kotlen-master/src/main/kotlin/forkable/ForkableStack.kt:50-51 | A blocked handle fails. Otherwise it returns the top element, or None exactly on an empty stack, and nothing changes. |
| ForkableStack.ForkableStack.Pull | playin-with-kotlen-master/src/main/kotlin/forkable/ForkableStack.kt:56-61 | A blocked handle fails. Otherwise it returns the old top element, or None on an empty stack, and the contents lose their first element; an empty stack stays empty. |
| ForkableStack.ForkableStack.Fork | playin-with-kotlen-master/src/main/kotlin/forkable/ForkableStack.kt:68-74 | Gives count distinct new unblocked handles at the current node. Following the code, the original handle is not blocked. |
| ForkableStack.PushThenPull | playin-with-kotlen-master/src/main/kotlin/forkable/ForkableStack.kt:42-61 | A push followed by a pull returns the pushed element and restores the contents. |
| ForkableStack.PushAfterFork | playin-with-kotlen-master/src/main/kotlin/forkable/ForkableStack.kt:42-74 | After a fork, a push through one handle is not seen through another handle, and the original handle can still peek. |
| ForkableStream.Producer.Invoke | playin-with-kotlen-master/src/main/kotlin/forkable/ForkableStream.kt:46-51 | Each call returns the producer's output at the number of calls made so far. |
| ForkableStream.ProduceChunk | playin-with-kotlen-master/src/main/kotlin/forkable/ForkableStream.kt:48-54 | One chunk is ten producer calls, in order. |
| ForkableStream.StreamNode.GetNextNode | playin-with-kotlen-master/src/main/kotlin/forkable/ForkableStream.kt:30-38 | The first call builds the successor node from a new chunk. Later calls return the same node without calling the producer. |
| ForkableStream.ForkableStream.constructor | playin-with-kotlen-master/src/main/kotlin/forkable/ForkableStream.kt:71-78 | Creates a handle after the empty initial node, on the first chunk, at index -1, at position 0. |
| ForkableStream.ForkableStream.Next | playin-with-kotlen-master/src/main/kotlin/forkable/ForkableStream.kt:86-94 | A blocked handle fails and changes nothing. Otherwise it returns the producer's output at the handle's position and advances the position by one, moving to the next node past the end of a chunk. |
| ForkableStream.ForkableStream.Fork | playin-with-kotlen-master/src/main/kotlin/forkable/ForkableStream.kt:99-107 | A blocked handle fails. Otherwise it gives count distinct new unblocked handles at the same node and index, sharing the producer, and blocks the original handle. |
| ForkableStream.StillValid | playin-with-kotlen-master/src/main/kotlin/forkable/ForkableStream.kt:99-107 | A handle stays valid when another handle extends the shared chain of nodes. |
| ForkableTree.TreeStore.NewOwner | playin-with-kotlen-master/src/main/kotlin/forkable/ForkableTree.kt:112-116 | Each handle gets a new identity, distinct from every earlier one; it stands in for the weak hash map key. |
| ForkableTree.VisibleIgnoresOthers | playin-with-kotlen-master/src/main/kotlin/forkable/ForkableTree.kt:126-127 | A list owned by a handle outside the caller's lineage is never seen. |
| ForkableTree.VisibleAppendOwn | playin-with-kotlen-master/src/main/kotlin/forkable/ForkableTree.kt:126-154 | What the caller appends comes last in what the caller sees. |
| ForkableTree.VisibleFrom | playin-with-kotlen-master/src/main/kotlin/forkable/ForkableTree.kt:126-130 | Every node a handle sees is in some owner's list. |
| ForkableTree.RealBranch.AddLeafChild | playin-with-kotlen-master/src/main/kotlin/forkable/ForkableTree.kt:143-145 | A new leaf with this parent goes at the end of the caller's own list, and no other list changes. |
| ForkableTree.RealBranch.AddBranchChild | playin-with-kotlen-master/src/main/kotlin/forkable/ForkableTree.kt:150-154 | A new childless branch with this parent goes at the end of the caller's own list, and no other list changes. |
| ForkableTree.RealBranch.GetParent | playin-with-kotlen-master/src/main/kotlin/forkable/ForkableTree.kt:159-166 | Returns None for a root, and otherwise the parent wrapped for the caller. |
| ForkableTree.Branch.GetChildren | playin-with-kotlen-master/src/main/kotlin/forkable/ForkableTree.kt:177-179 | A blocked caller fails. Otherwise the view shows its caller's lineage of lists, with branches wrapped for the caller. |
| ForkableTree.Branch.AddLeafChild | playin-with-kotlen-master/src/main/kotlin/forkable/ForkableTree.kt:183-185 | A blocked caller fails and changes nothing; otherwise the call goes to RealBranch.AddLeafChild for the caller. |
| ForkableTree.Branch.AddBranchChild | playin-with-kotlen-master/src/main/kotlin/forkable/ForkableTree.kt:180-182 | A blocked caller fails and changes nothing; otherwise the call goes to RealBranch.AddBranchChild for the caller. |
| ForkableTree.Branch.GetData | playin-with-kotlen-master/src/main/kotlin/forkable/ForkableTree.kt:186-188 | A blocked caller fails; otherwise it returns the branch's data. |
| ForkableTree.Branch.SetData | playin-with-kotlen-master/src/main/kotlin/forkable/ForkableTree.kt:189-191 | A blocked caller fails and changes nothing; otherwise the data is replaced and the children are kept. |
| ForkableTree.Branch.GetParent | playin-with-kotlen-master/src/main/kotlin/forkable/ForkableTree.kt:192-194 | A blocked caller fails; otherwise it returns None for the root and the parent wrapped for the caller otherwise. |
| ForkableTree.SharedData | playin-with-kotlen-master/src/main/kotlin/forkable/ForkableTree.kt:119-121 | A corollary of `ForkableTree.Branch.GetData`, which reads the one shared branch: every view of a branch reads the same data. |
| ForkableTree.ForkableTree.GetRoot | playin-with-kotlen-master/src/main/kotlin/forkable/ForkableTree.kt:262-265 | A blocked handle fails; otherwise it returns the root, wrapped for this handle when it is a branch. |
| ForkableTree.ForkableTree.GetMarker | playin-with-kotlen-master/src/main/kotlin/forkable/ForkableTree.kt:249-250 | A blocked handle fails; otherwise it returns the marker. |
| ForkableTree.ForkableTree.SetMarker | playin-with-kotlen-master/src/main/kotlin/forkable/ForkableTree.kt:254-257 | A blocked handle fails and keeps its marker; otherwise the marker becomes the node. |
| ForkableTree.ForkableTree.NewFork | playin-with-kotlen-master/src/main/kotlin/forkable/ForkableTree.kt:273-280 | One handle of a fork: the next identity, this handle's lineage inherited, and the marker rewrapped for the new handle. |
| ForkableTree.ForkableTree.Fork | playin-with-kotlen-master/src/main/kotlin/forkable/ForkableTree.kt:270-284 | A blocked handle fails. Otherwise it gives count new valid handles with consecutive new identities, each inheriting this lineage, and blocks this handle. |
| ForkableTree.LeafTree | playin-with-kotlen-master/src/main/kotlin/forkable/ForkableTree.kt:219-234 | A new family with one handle whose root is a parentless leaf and whose marker is the root. |
| ForkableTree.BranchTree | playin-with-kotlen-master/src/main/kotlin/forkable/ForkableTree.kt:219-240 | A new family with one handle whose root is a parentless childless branch, marked through the handle. |
| ForkableTree.SiblingsApart | playin-with-kotlen-master/src/main/kotlin/forkable/ForkableTree.kt:270-284 | Two handles forked from one parent never see each other's lists. |
| RegularMachine.FlatMapMembers | playin-with-kotlen-master/src/main/kotlin/automata/RegularMachiene.kt:27 | A state is a successor exactly when some state of the generation produces it. |
| RegularMachine.DropFailed | playin-with-kotlen-master/src/main/kotlin/automata/RegularMachiene.kt:27-28 | The filter keeps exactly the states that have not failed. |
| RegularMachine.DropFailedAppend | playin-with-kotlen-master/src/main/kotlin/automata/RegularMachiene.kt:27-28 | The filter keeps the order: it distributes over concatenation, and keeps a single state exactly when it has not failed. |
| RegularMachine.FindSuccess | playin-with-kotlen-master/src/main/kotlin/automata/RegularMachiene.kt:31 | `find` gives None exactly when no state succeeded, and otherwise the first successful state. |
| RegularMachine.StepMeaning | playin-with-kotlen-master/src/main/kotlin/automata/RegularMachiene.kt:26-38 | A step reports FAIL exactly when no successor survives, and then leaves none. SUCCESS leaves one successful successor. UNFINISHED leaves every surviving successor, all of them unfinished. |
| RegularMachine.StepPicksFirstSuccess | playin-with-kotlen-master/src/main/kotlin/automata/RegularMachiene.kt:31-34 | The state a SUCCESS step keeps is the first successful survivor in order. |
| RegularMachine.UnfinishedFilterIsNoOp | playin-with-kotlen-master/src/main/kotlin/automata/RegularMachiene.kt:36 | The discarded filter at the end of the step would not change the generation anyway. |
| RegularMachine.StepSettles | playin-with-kotlen-master/src/main/kotlin/automata/RegularMachiene.kt:29-37 | A corollary of `RegularMachine.FindSuccess`, restated for the run proofs: a SUCCESS step leaves exactly one state, and it is successful. |
| RegularMachine.RunsYieldsSuccess | playin-with-kotlen-master/src/main/kotlin/automata/RegularMachiene.kt:46-56 | A finished run returns null or a successful state. |
| RegularMachine.RunsFuelIrrelevant | playin-with-kotlen-master/src/main/kotlin/automata/RegularMachiene.kt:49-51 | Once a run finishes, a larger step budget gives the same result. |
| RegularMachine.RegularMachine.constructor | playin-with-kotlen-master/src/main/kotlin/automata/RegularMachiene.kt:9-16 | A machine with the given transition and an empty generation. |
| RegularMachine.RegularMachine.StepTransitions | playin-with-kotlen-master/src/main/kotlin/automata/RegularMachiene.kt:26-38 | `stepTransitions` replaces the generation and reports its type, as a step does. |
| RegularMachine.RegularMachine.RunMachine | playin-with-kotlen-master/src/main/kotlin/automata/RegularMachiene.kt:46-56 | `runMachiene` within a budget gives the run's result, which is null or a successful state. A start that is not unfinished takes no step: a successful start is the result, and a failed start gives null. |
| Ast.StringValue | playin-with-kotlen-master/src/main/kotlin/formallang/ast/Ast.kt:37-76 | A leaf's text: the terminal's value, the special character, the compound value, or empty for end of file and for the empty leaf. |
| Ast.ChildrenTextIsConcat | playin-with-kotlen-master/src/main/kotlin/formallang/ast/Ast.kt:19-24 | The fold over the children's texts is their concatenation in order. |
| Ast.BranchString | playin-with-kotlen-master/src/main/kotlin/formallang/ast/Ast.kt:19-24 | `getString` of a branch is the concatenation of its children's texts. |
| Ast.Decoration | playin-with-kotlen-master/src/main/kotlin/formallang/ast/Ast.kt:83-85 | The decoration fails exactly on a negative offset, and otherwise is that many bars. |
| Ast.RenderSucceeds | playin-with-kotlen-master/src/main/kotlin/formallang/ast/Ast.kt:87-93 | Rendering from a non-negative offset never throws. |
| Ast.RenderLines | playin-with-kotlen-master/src/main/kotlin/formallang/ast/Ast.kt:87-93 | When no name or text holds a newline, the rendering has one line per node. |
| Ast.ToStringLines | playin-with-kotlen-master/src/main/kotlin/formallang/ast/Ast.kt:95 | `Ast.toString` has one line per node of the tree. |
| AstProcessors.TaggedSet.Processed | playin-with-kotlen-master/src/main/kotlin/formallang/metainf/AstProcessorsBase.kt:52-56 | `process` fails exactly when the root's list is empty, and otherwise keeps the list's first node. |
| AstProcessors.TaggedSet.ProcessNodeRL | playin-with-kotlen-master/src/main/kotlin/formallang/metainf/AstProcessorsBase.kt:30-38 | The loop builds the root-last result: children first, then the node's own tag. |
| AstProcessors.TaggedSet.ProcessNodeRF | playin-with-kotlen-master/src/main/kotlin/formallang/metainf/AstProcessorsBase.kt:40-49 | The loop builds the root-first result: a tagged node is processed whole, and otherwise its children are processed. |
| AstProcessors.TaggedSet.Process | playin-with-kotlen-master/src/main/kotlin/formallang/metainf/AstProcessorsBase.kt:52-56 | `process` returns the traversal's first node for the tag set's direction, or fails on an empty list. |
| AstProcessors.UntaggedIsIdentity | playin-with-kotlen-master/src/main/kotlin/formallang/metainf/AstProcessorsBase.kt:30-49 | When no node is tagged, both traversals return the node itself. |
| AstProcessors.ProcessUntagged | playin-with-kotlen-master/src/main/kotlin/formallang/metainf/AstProcessorsBase.kt:52-56 | When no node is tagged, `process` returns an equal tree. |
| AstProcessors.TraversalsPreserveText | playin-with-kotlen-master/src/main/kotlin/formallang/metainf/AstProcessorsBase.kt:30-49 | A processor that keeps the text of what it replaces makes both traversals keep the text. |
| AstProcessors.ProcessPreservesText | playin-with-kotlen-master/src/main/kotlin/formallang/metainf/AstProcessorsBase.kt:52-56 | When the processor keeps text and the root's list has one node, the processed tree has the original text. |
| AstProcessors.TaggedNonTerminalSetTags | playin-with-kotlen-master/src/main/kotlin/formallang/metainf/AstProcessorsBase.kt:63-71 | `TaggedNonTerminalSet` tags exactly the branches built from one of the given nonterminals, never a leaf, and keeps the node processor and direction it is given. |
| AstProcessors.TaggedRuleSetTags | playin-with-kotlen-master/src/main/kotlin/formallang/metainf/AstProcessorsBase.kt:77-85 | `TaggedRuleSet` tags exactly the branches built by one of the given rules, never a leaf, and keeps the node processor and direction it is given. |
| AstProcessors.SetOf | playin-with-kotlen-master/src/main/kotlin/formallang/metainf/AstProcessors.kt:20-22 | The vararg constructors fill the set with exactly the given nonterminals. |
| AstProcessors.StringifyNonTerminalsOf | playin-with-kotlen-master/src/main/kotlin/formallang/metainf/AstProcessors.kt:9-23 | Stringify built from a list tags exactly the branches of the listed nonterminals, root first. The result is the stringify processor built on that set. |
| AstProcessors.UnfoldNonTerminalsOf | playin-with-kotlen-master/src/main/kotlin/formallang/metainf/AstProcessors.kt:29-43 | Unfold built from a list tags exactly the branches of the listed nonterminals, root last. The result is the unfold processor built on that set. |
| AstProcessors.ProcessorsPreserveText | playin-with-kotlen-master/src/main/kotlin/formallang/metainf/AstProcessors.kt:9-57 | Each of the three processors keeps the text of the nodes it replaces. |
| AstProcessors.StringifyLeavesNoTagged | playin-with-kotlen-master/src/main/kotlin/formallang/metainf/AstProcessors.kt:9-23 | After stringify no tagged branch is left: each outermost one became a single compound leaf. |
| AstProcessors.UnfoldLeavesNoTagged | playin-with-kotlen-master/src/main/kotlin/formallang/metainf/AstProcessors.kt:29-43 | After unfold no tagged branch is left: each one was spliced into its parent. |
| AstProcessors.StringifySingle | playin-with-kotlen-master/src/main/kotlin/formallang/metainf/AstProcessors.kt:9-23 | Stringify maps every node to exactly one node, so its `process` never fails. |
| AstProcessors.RemoveEmptiesLeavesNoEmpties | playin-with-kotlen-master/src/main/kotlin/formallang/metainf/AstProcessors.kt:48-57 | After RemoveEmpties no empty leaf and no childless branch is left, and at most one node comes back. |
| AstProcessors.RemoveEmptiesDropsEmptyText | playin-with-kotlen-master/src/main/kotlin/formallang/metainf/AstProcessors.kt:48-57 | RemoveEmpties drops a tree exactly when its text is empty. |
| AstProcessors.RemoveEmptiesProcess | playin-with-kotlen-master/src/main/kotlin/formallang/metainf/AstProcessors.kt:48-57 | `process` of RemoveEmpties fails exactly on a tree with empty text, and otherwise keeps the text. |
| AstProcessors.StringifyProcess | playin-with-kotlen-master/src/main/kotlin/formallang/metainf/AstProcessors.kt:9-23 | `process` of stringify always succeeds and keeps the text. |
| AstProcessors.UnfoldTaggedRoot | playin-with-kotlen-master/src/main/kotlin/formallang/metainf/AstProcessorsBase.kt:55 | Unfolding a tagged root keeps only the first of its children: `process` takes `get(0)`. |
| ParsingState.ToAstNodes | playin-with-kotlen-master/src/main/kotlin/formallang/parser/ParsingState.kt:51 | The children are converted in order: the first failure, or one node per child. |
| ParsingState.ConvertedHasNoChildlessBranch | playin-with-kotlen-master/src/main/kotlin/formallang/parser/ParsingState.kt:42-66 | A converted node has no childless branch, because such branches became EmptyLeaf. |
| ParsingState.ToAstShape | playin-with-kotlen-master/src/main/kotlin/formallang/parser/ParsingState.kt:38-40 | A successful conversion comes from an unblocked handle whose root branch has children, and the result has no childless branch. |
| ParsingState.RegularState.GetAst | playin-with-kotlen-master/src/main/kotlin/formallang/parser/ParsingState.kt:93 | `getAst` fails on a forked tree. On success the root had children and the AST has no childless branch. |
| ParsingState.Start | playin-with-kotlen-master/src/main/kotlin/formallang/parser/ParsingState.kt:179-191 | The public constructor. It fails on a forked stream. Otherwise it builds a new tree whose marked root is the unnamed nonterminal with the one-symbol rule of the main symbol, and the first character read is the look-ahead. |
| ParsingState.FinalTransition | playin-with-kotlen-master/src/main/kotlin/formallang/parser/ParsingState.kt:196-211 | A success or failed state is its own only successor, so a finished state stays finished. |
| ParsingState.CharText | playin-with-kotlen-master/src/main/kotlin/formallang/parser/ParsingState.kt:108 | A character's text is the character, and the end of input is "null". |
| ParsingState.MatchLengthIs | playin-with-kotlen-master/src/main/kotlin/formallang/parser/ParsingState.kt:118-124 | The literal matches the look-ahead up to the first mismatch, or to its end. |
| ParsingState.MatchLiteral | playin-with-kotlen-master/src/main/kotlin/formallang/parser/ParsingState.kt:118-124 | The comparison loop reads one character per matched character and returns the match length and the look-ahead after it. |
| ParsingState.RegularState.EndOfFileTransition | playin-with-kotlen-master/src/main/kotlin/formallang/parser/ParsingState.kt:95-101 | At the end of input the state appends an EndOfFile leaf with empty text and stays the same without reading. Otherwise it gives a failed state and nothing changes. |
| ParsingState.RegularState.SpecialSymbolTransition | playin-with-kotlen-master/src/main/kotlin/formallang/parser/ParsingState.kt:103-112 | If the filter admits the look-ahead, the state appends a leaf holding its text and gives one state that has read the next character. Otherwise it gives a failed state and nothing changes. |
| ParsingState.RegularState.TerminalTransition | playin-with-kotlen-master/src/main/kotlin/formallang/parser/ParsingState.kt:114-127 | The state reads as many characters as the literal matches. A full match appends a terminal leaf and gives one state with the look-ahead after the literal; otherwise it gives a failed state. |
| ParsingState.RegularState.NonTerminalTransition | playin-with-kotlen-master/src/main/kotlin/formallang/parser/ParsingState.kt:129-154 | With no possible rule, it gives a failed state and nothing changes. Otherwise it gives one successor per possible rule, in rule order, each marking a new branch for its rule. The stream is always forked, and the tree is forked exactly when there are several rules. |
| ParsingState.RegularState.SpawnSingle | playin-with-kotlen-master/src/main/kotlin/formallang/parser/ParsingState.kt:136-152 | With one rule, the stream is forked and the tree is not; the new branch becomes the marker of the shared tree. |
| ParsingState.RegularState.SpawnMany | playin-with-kotlen-master/src/main/kotlin/formallang/parser/ParsingState.kt:135-152 | With several rules, the tree and the stream are forked once per rule, and the k-th handles receive the branch for the k-th rule. |
| ParsingState.RegularState.Complete | playin-with-kotlen-master/src/main/kotlin/formallang/parser/ParsingState.kt:162-167 | A completed rule gives a success state at the root. Otherwise the marker moves to the parent and the state itself is the successor. |
| ParsingState.RegularState.Transition | playin-with-kotlen-master/src/main/kotlin/formallang/parser/ParsingState.kt:156-177 | A marked leaf and a marked branch with more children than symbols are errors. A complete branch completes. Otherwise the next symbol's transition runs, by its kind, and every successor is valid. |

## Left out

- `AsyncMachiene.kt`, `Parser.kt` and the test sources are not part of this model. Neither is the factory `RegularMachieneFactory`, whose suspend variant only wraps `runBlocking`.
- Coroutines, `Mutex`, `ConcurrentHashMap` and `GlobalScope.launch` are left out. Lowering runs the entries one after another. Each entry is lowered once, in an order the contracts quantify over, and the lowering of distinct entries does not interfere beyond the name collisions described above.
- Hash-map and hash-set iteration orders are left out, for the grammar entries, the nullable pass and the outer FIRST loop. The methods choose an arbitrary remaining key with `:|`, so every contract holds for every order.
- The `WeakHashMap` keyed by tree handles becomes a map from handle identities, which come from a shared counter. Garbage collection of dead handles is not modelled, and lists are never freed.
- Reference equality of Kotlin objects is modelled by Dafny object identity for classes (the filter of a special symbol, tree handles, stream nodes). Data classes become datatypes with structural equality, and so do the `Ast` node classes, whose equality the core never uses. `EndOfFile`'s `equals`/`hashCode` override is therefore implicit.
- The filter lambdas composed by `FirstCharacter.plus` and `sum` become the `Filter` datatype. The filter of a special symbol stays a function value.
- `SimplifiedRule.toString`, `SimplifiedGrammar.toString`, `SimplifiedGrammar.toGrammar` and `Grammar.toString` are left out; they are only used for printing. The symbol and expression renderings are modelled. Only the terminal rendering has a lemma (an unescaping round trip); the expression rendering has no stated property of its own.
- The vararg constructors of `SimplifiedRule` and `SimplifiedGrammar` are left out: a datatype constructor already takes the list or map.
- The FIRST sets of rules are recorded in a map keyed by rule value, as in Kotlin. Two equal rules of different nonterminals therefore share one entry. This is harmless, because a rule's FIRST set depends only on its symbols.
- `ForkableStack` has no public constructor in the source, so the model only has the private one.
- The producer of a stream is modelled as a function from the call count to `Option<T>`, and any side effects it has are left out. The chunk size is the constant 10 (`ARRAY_SIZE`).
- Characters are Dafny `char` values, which are Unicode scalar values, while a Kotlin `Char` is a UTF-16 code unit. A character outside the Basic Multilingual Plane is two Kotlin reads of the stream but one read in the model.
- Kotlin `Int` counts become `nat`. Overflow and negative fork counts are left out.
- `RegularMachine.RegularMachine.RunMachine`: `runMachiene` may loop forever, so the model runs it within a step budget (`fuel`) and reports `OutOfFuel` when the budget runs out. `RegularMachine.RunsFuelIrrelevant` shows that the budget does not change a finished result.
- `ParsingState.RegularState.Transition` is modelled as an imperative method over the heap. It is not plugged into the pure transition parameter of `RegularMachine`, so a whole parse is not run end to end in the model.
- `ParsingState.Start`: the model reads the first character before it builds the tree, while Kotlin builds the tree first. The two effects touch disjoint objects.
- `ParsingState.RegularState.NonTerminalTransition`: the model first grafts every new branch onto its forked tree handle, then forks the stream, then creates the states. Kotlin forks the tree and the stream first and then does one rule at a time. The tree handles and the stream handles are disjoint, so each successor ends up the same.
- `ParsingState.RegularState.NonTerminalTransition`: the model splits Kotlin's single function into several methods so that each proof stays small. These are `SpawnSingle`, `SpawnMany`, `GraftAndFinish`, `FinishMany`, `ForkTrees`, `ForkStreams`, `MakeStates`, `Graft`, `GraftForks` and `GraftOne`. `terminalTransition` and `specialSymbolTransition` likewise use `MatchLiteral`, `AppendLeaf` and `ReadNext`.
- `SuccessState.getAst` delegates to `ParsingState.RegularState.GetAst` and has no member of its own.
- `ParsingState.ToAstNodes`: its own contract states only the length of a successful result. The shape of the converted tree is stated by `ParsingState.ToAstShape` and `ParsingState.ConvertedHasNoChildlessBranch`.
- `ParsingState.CharText`: following Kotlin's `Char?.toString()`, a special symbol whose filter admits the end of input gets the leaf text "null". Converting that leaf to the AST then takes its first character, `n`.
- The exceptions thrown by casts (`as IBranch`, `!!`) and the `InvalidTreeException` are modelled as `Failure` values in `ParsingState.ConversionError`.
