# pint compiler core in Dafny

This project models the core of the pint toolchain and proves properties of it. The modelled parts are:

- the `yurtc` front end:
  - the lexer's token set and string-literal unescaping;
  - the recursive-descent parser, with its precedence ladder, tuple indices, integer immediates and the errors it emits.
- the `yurtc` intermediate passes:
  - canonicalisation of the solve directive;
  - scalarisation, which fixes array sizes and splits array variables into one variable per element;
  - lowering of array and tuple comparisons into element-by-element chains;
  - splitting of tuple variables into one variable per field, with the `iterate!` fixpoint drivers;
  - the older scalarisation pass over the legacy intermediate intent.
- the `pintc` pieces:
  - symbol tables and name clashes;
  - predicate bookkeeping: expression replacement, ephemerals, the expression visitor and the root set;
  - the assembly generator, which turns intents into constraint programs and state-read programs.
- the `yurtfmt` formatter over its syntax tree.

The model is written as follows:

- Arenas (`slotmap`s) are maps from keys to values plus a counter for the next fresh key. Keys are never reused, and iteration visits keys in increasing order.
- Passes that change an intent in place are methods on a class. Each is proved against a specification function, or against a full statement of the new state.
- Pure parts, such as the parser, the formatter's text and the assembly specification, are functions with lemmas.
- A Rust panic (`expect`, `unwrap`, `unreachable!`, `assert!`) is an explicit `Panic` error outcome, not a precondition. The one exception is the parser's integer `unwrap`, which `WellLexed` rules out (see "## Left out").
- Compile-time evaluation of expressions (`Expr::evaluate`) is a parameter: a function from an expression to an optional immediate. Immediates evaluate to themselves.
- `iterate!` re-runs a pass until it reports no change. It numbers the runs that report a change from 0, and gives up with `infinite loop in <pass>` on the run numbered past 10,000 (`Scalarize.IterationBound`). The `ScalarizeDriver.Iterate*` methods return, as a ghost output, how many runs changed something: at most 10,001 on success and exactly 10,002 for that error.

## Model

| member | source | states |
|---|---|---|
| SymbolTables.MakeFullSymbol | pintc/src/predicate.rs:1041-1046 | the full name starts with the module prefix, continues with the local scope and `::` when there is a scope, and ends with the name; its length is the sum of the parts |
| SymbolTables.FullSymbolInjective | pintc/src/predicate.rs:1041-1046 | within one module prefix and scope, two names with the same full name are the same name |
| SymbolTables.SymbolTable.AddSymbolNoClash | pintc/src/predicate.rs:976-986 | returns the full name, which is then in the table; a name already present keeps its first span and the table is unchanged; otherwise the name is added with the given span |
| SymbolTables.SymbolTable.AddSymbol | pintc/src/predicate.rs:988-1014 | an unseen full name is added with the span and returned as `Ok`; a name already present leaves the table unchanged and reports exactly one NameClash (short name, its span, the earlier span) |
| SymbolTables.SymbolTable.CheckForClash | pintc/src/predicate.rs:1016-1039 | keeps the errors already reported and adds exactly one NameClash for each name of `other` already in this table, never two for one name; neither table changes; succeeds iff the handler then holds no error |
| Predicates.BlockReplace | pintc/src/predicate.rs:694-706 | replacing a key in a block keeps its number of statements (the constraint and key effects are the lemmas below) |
| Predicates.StmtReplaceConstraints | pintc/src/predicate.rs:694-706 | the constraints of a statement after replacement are its constraints before, each with the key replaced |
| Predicates.BlockReplaceConstraints | pintc/src/predicate.rs:694-706 | the same for a block of statements |
| Predicates.IfReplaceConstraints | pintc/src/predicate.rs:752-766 | the same for an `if` declaration: condition, then-block and else-block are all rewritten |
| Predicates.BranchesReplaceConstraints | pintc/src/predicate.rs:825-841 | the same for the branches of a `match` declaration |
| Predicates.MatchReplaceConstraints | pintc/src/predicate.rs:825-841 | the same for a `match` declaration |
| Predicates.MatchConstraintsIgnoreElse | pintc/src/predicate.rs:875-883 | a `match` declaration's constraints do not depend on its `else` branch |
| Predicates.IfConstraintsOrder | pintc/src/predicate.rs:794-805 | an `if` declaration's then-block constraints come first; with no else-block they are all of them |
| Predicates.StmtReplaceKeys | pintc/src/predicate.rs:694-706 | the keys a statement mentions after replacement are exactly its old keys with `from` mapped to `to` |
| Predicates.BlockReplaceKeys | pintc/src/predicate.rs:694-706 | the same for a block |
| Predicates.IfReplaceKeys | pintc/src/predicate.rs:752-766 | the same for an `if` declaration, its condition included |
| Predicates.BranchesReplaceKeys | pintc/src/predicate.rs:825-841 | the same for the branches of a `match` declaration |
| Predicates.MatchReplaceKeys | pintc/src/predicate.rs:825-841 | the same for a `match` declaration, its scrutinee and `else` branch included |
| Predicates.IfReplaceRemovesKey | pintc/src/predicate.rs:752-766 | after replacing `from` by a different key no reference to `from` is left in the `if` declaration |
| Predicates.WithEphemeralKeepsNamesDistinct | pintc/src/predicate.rs:579-602 | declaring an ephemeral adds at most one entry, keeps the names distinct and leaves the name declared |
| Predicates.Predicate.InsertEphemeral | pintc/src/predicate.rs:579-602 | records the full name in the symbol table keeping an earlier span, appends the declaration unless one of that full name exists, and keeps ephemeral names distinct |
| Predicates.SubConstraints | pintc/src/predicate.rs:619-625 | each constraint's key is replaced, position by position, and nothing else about it changes |
| Predicates.SubStates | pintc/src/predicate.rs:613-617 | each state's expression key is replaced, position by position |
| Predicates.SubInterfaceInstances | pintc/src/predicate.rs:637-643 | each interface instance's address is replaced, position by position |
| Predicates.SubPredicateInstances | pintc/src/predicate.rs:645-653 | each predicate instance with an address has it replaced; those without one are unchanged |
| Predicates.SubAll | pintc/src/predicate.rs:604-654 | a sequence of keys with `from` replaced by `to`, position by position |
| Predicates.RootSetSub | pintc/src/predicate.rs:658-665 | replacing a key in the constraints, states and instances replaces it position by position in the root set |
| Predicates.Predicate.ReplaceExprs | pintc/src/predicate.rs:604-654 | replaces the key in states, constraints, every nested `if`, variable initialisers, interface addresses and present predicate-instance addresses; the root set afterwards is the old one with the key replaced |
| Predicates.Predicate.ReplaceInStates | pintc/src/predicate.rs:613-617 | the states afterwards are the old ones with the key replaced |
| Predicates.Predicate.ReplaceInVarInits | pintc/src/predicate.rs:631-635 | every variable initialiser equal to the old key becomes the new key, and no other initialiser changes |
| Predicates.Predicate.ReplaceInConstraints | pintc/src/predicate.rs:619-625 | the constraints afterwards are the old ones with the key replaced |
| Predicates.Predicate.ReplaceInIfDecls | pintc/src/predicate.rs:627-629 | every `if` declaration is rewritten in place, none added or removed |
| Predicates.Predicate.ReplaceInInterfaceInstances | pintc/src/predicate.rs:637-644 | the interface instances afterwards are the old ones with the address replaced |
| Predicates.Predicate.ReplaceInPredicateInstances | pintc/src/predicate.rs:645-653 | the predicate instances afterwards are the old ones with present addresses replaced |
| Predicates.Visit | pintc/src/predicate.rs:75-214 | every key passed to the callback is in the arena |
| Predicates.VisitAll | pintc/src/predicate.rs:75-214 | every key passed to the callback while visiting a list of children is in the arena |
| Predicates.VisitLeaf | pintc/src/predicate.rs:91-96 | a leaf expression gets exactly one callback |
| Predicates.VisitNodePosition | pintc/src/predicate.rs:81-213 | the visited node is the first callback in parents-before-children order and the last in children-before-parents order |
| Predicates.VisitOrdersAgree | pintc/src/predicate.rs:75-214 | both orders make the same multiset of callbacks |
| Predicates.VisitAllOrdersAgree | pintc/src/predicate.rs:75-214 | the same for a list of children |
| Predicates.VisitReachesChildren | pintc/src/predicate.rs:86-207 | every sub-expression of a visited node is visited too |
| Predicates.VisitAllContains | pintc/src/predicate.rs:86-207 | every key of a list of children is visited |
| Predicates.VisitRoots | pintc/src/predicate.rs:216-225 | visiting the root set reaches every root |
| Predicates.BranchesReplace | pintc/src/predicate.rs:825-841 | replacing a key in the branches of a `match` keeps their number |
| Predicates.SubConstraintsAppend | pintc/src/predicate.rs:619-625 | replacing in two constraint lists one after the other is replacing in their concatenation |
| Predicates.SubAllAppend | pintc/src/predicate.rs:658-665 | the same for key lists |
| Predicates.ConstraintExprsSub | pintc/src/predicate.rs:619-625 | the constraints' keys after replacement are their keys before, with the key replaced |
| Predicates.StateExprsSub | pintc/src/predicate.rs:613-617 | the states' keys after replacement are their keys before, with the key replaced |
| Predicates.AddressesSub | pintc/src/predicate.rs:637-643 | the interface addresses after replacement are the addresses before, with the key replaced |
| Predicates.SomeAddressesSub | pintc/src/predicate.rs:645-653 | the present predicate-instance addresses after replacement are those before, with the key replaced |
| Predicates.StoragePosition | pintc/src/predicate.rs:426-429 | finds the first storage variable of that name, and finds none only when no variable has it |
| Predicates.StorageVarOf | pintc/src/predicate.rs:420-431 | a contract without a storage block panics; otherwise the lookup succeeds iff some storage variable has the name, returning the position and declaration of the first, and panics when none has it |
| Intermediate.ExprReplace | yurtc/src/intermediate/transform/scalarize.rs:356 | replacing a reference keeps the form of the expression: an immediate stays an immediate, a path a path, a binary operation a binary operation, and so on |
| Intermediate.ReplaceInExprs | yurtc/src/intermediate/transform/scalarize.rs:356 | `replace_exprs` on the arena: the same keys, each expression with its references replaced |
| Intermediate.ReplaceKeys | yurtc/src/intermediate/transform/scalarize.rs:356 | the constraint list keeps its length and order; each key equal to the replaced one becomes the new one |
| Intermediate.ReplaceDirectives | yurtc/src/intermediate/transform/scalarize.rs:356 | the directive list keeps its length and order; each objective is replaced like a constraint key |
| Intermediate.ExprReplaceRemovesKey | yurtc/src/intermediate/transform/scalarize.rs:356-358 | after replacing a key by a different one, the expression no longer refers to the old key, so removing that key leaves no dangling reference |
| Intermediate.ExprReplaceRefs | yurtc/src/intermediate/transform/scalarize.rs:356 | replacing changes the references one by one, in place, and nothing else |
| Intermediate.ReplaceInExprsRemovesKey | yurtc/src/intermediate/transform/scalarize.rs:356-358 | across a whole arena, after replacing a key by a different one, no expression refers to the old key |
| Intermediate.FreshKeys | yurtc/src/intermediate/transform/scalarize.rs:350 | the keys a pass hands out from the counter on, in order |
| Intermediate.RenamedKeys | yurtc/src/intermediate/transform/scalarize.rs:356 | a constraint list after several replacements in turn: same length, each key renamed |
| Intermediate.RenamedDirectives | yurtc/src/intermediate/transform/scalarize.rs:356 | a directive list after several replacements in turn: same length, each directive renamed |
| Intermediate.RenamedUntouched | yurtc/src/intermediate/transform/scalarize.rs:356 | a key never replaced stays as it is |
| Intermediate.RenamedAvoids | yurtc/src/intermediate/transform/scalarize.rs:356 | when no target is itself replaced, the result of the replacements is never a replaced key |
| Intermediate.RenamedHits | yurtc/src/intermediate/transform/scalarize.rs:356 | with distinct replaced keys whose targets are never replaced, `froms[i]` ends up as `tos[i]` |
| Intermediate.RenamedExprRefs | yurtc/src/intermediate/transform/scalarize.rs:356 | several replacements change an expression's references one by one, in place |
| Intermediate.RenamedDirectiveObjective | yurtc/src/intermediate/transform/scalarize.rs:356 | several replacements keep a directive's kind and rename only its objective |
| Intermediate.RenamedFromNone | yurtc/src/intermediate/transform/scalarize.rs:356 | no replacement leaves the arena as it is |
| Intermediate.RenamedFromStep | yurtc/src/intermediate/transform/scalarize.rs:356-358 | the pass over the first `n - 1` replacements followed by replacement `n - 1` is the pass over the first `n` |
| Intermediate.RenamedFromNoDangling | yurtc/src/intermediate/transform/scalarize.rs:356-358 | after a pass whose targets are never replaced, no expression, constraint or directive it started with refers to a replaced key |
| Intermediate.FoldStepsFailureStays | yurtc/src/intermediate/transform/scalarize.rs:427-518 | once a lowering step has failed, folding more steps does not change the outcome |
| Intermediate.FoldStepsExtends | yurtc/src/intermediate/transform/scalarize.rs:427-518 | a successful step extends the fold of the prefix by one item |
| Intermediate.FoldStepsFails | yurtc/src/intermediate/transform/scalarize.rs:427-518 | the first failing step ends the whole loop with its error |
| Intermediate.FoldStepsKey | yurtc/src/intermediate/transform/scalarize.rs:514-516 | when every step removes its item's key, a fold adds no key below its start and removes each folded item's key |
| Intermediate.FoldStepsKeysGone | yurtc/src/intermediate/transform/scalarize.rs:514-516 | the same, for all the folded items at once |
| Intermediate.EnumVariantCount | yurtc/src/intermediate/transform/scalarize.rs:135-150 | a variant count is found exactly when an enum of that name is declared |
| Intermediate.Intent.InsertVar | yurtc/src/intermediate/transform/scalarize.rs:260-261 | the variable and its type go under the next fresh key, the key counter advances by one, and nothing else changes |
| Intermediate.Intent.DeclareVar | yurtc/src/intermediate/transform/canonicalize.rs:64-72 | `insert_var`: a name already declared is a NameClash and nothing changes; otherwise the name is recorded and the variable and its type go under the next fresh key |
| Intermediate.Intent.InsertExpr | yurtc/src/intermediate/transform/scalarize.rs:476-481 | the expression goes under the next fresh key with no type; the counter advances by one |
| Intermediate.Intent.InsertTypedExpr | yurtc/src/intermediate/transform/canonicalize.rs:76-80 | the expression and its type go under the next fresh key; the counter advances by one |
| Intermediate.Intent.SetExprType | yurtc/src/intermediate/transform/scalarize.rs:507-513 | only the type of that one key is set |
| Intermediate.Intent.ReplaceExprs | yurtc/src/intermediate/transform/scalarize.rs:356 | every reference to the old key, in expressions, constraints and directives, now refers to the new one |
| Intermediate.Intent.ReplaceAndRemove | yurtc/src/intermediate/transform/scalarize.rs:356-358 | references are replaced everywhere, then the old expression and its type are removed; variables are untouched |
| Intermediate.Intent.RemoveVar | yurtc/src/intermediate/transform/scalarize.rs:277-278 | the variable and its type are removed and nothing else changes |
| Scalarize.Unaliased | yurtc/src/intermediate/transform/scalarize.rs:370-381 | the type left after unwrapping aliases is never an alias |
| Scalarize.GetArrayParamsUnaliased | yurtc/src/intermediate/transform/scalarize.rs:370-381 | `get_array_params` answers exactly when the type under its aliases is an array, and then gives that array's element type, range and size |
| Scalarize.FixArraySize | yurtc/src/intermediate/transform/scalarize.rs:94-167 | on success the result is an array type with the same range and a known size |
| Scalarize.FixArraySizeOutcome | yurtc/src/intermediate/transform/scalarize.rs:130-165 | a range naming a declared enum gives its variant count, any other name NonConstArrayLength; any other range succeeds iff it evaluates to a positive integer, which is the size; no value is NonConstArrayLength, any other value InvalidConstArrayLength |
| Scalarize.FixArraySizeFixed | yurtc/src/intermediate/transform/scalarize.rs:108-130 | fixing an array whose nested element arrays can be fixed leaves no array without a size at any depth |
| Scalarize.FixedType | yurtc/src/intermediate/transform/scalarize.rs:173-196 | a fixed type no longer has an unsized array; a type without one is kept as it is |
| Scalarize.FixArraySizes | yurtc/src/intermediate/transform/scalarize.rs:91-199 | the key sets do not change; on success every variable type and every expression type is its fixed type, and no variable keeps an unsized array; variables are fixed before expressions: a failure is either the error of the first variable in key order that does not fix (expression types untouched, the variables below it already fixed), or, when every variable fixes, the error of the first failing expression with every variable type fixed |
| Scalarize.FixVarTypes | yurtc/src/intermediate/transform/scalarize.rs:172-195 | every variable type is replaced by its fixed type and nothing else changes; an error is the fixing error of the least variable key that fails, every smaller variable fixes, and exactly the variables below it have been fixed |
| Scalarize.FixExprTypes | yurtc/src/intermediate/transform/scalarize.rs:172-196 | every expression type is replaced by its fixed type and nothing else changes; an error is the fixing error of the least expression key that fails, every smaller expression fixes, and exactly the expressions below it have been fixed |
| Scalarize.TypesFixedStep | yurtc/src/intermediate/transform/scalarize.rs:186-191 | fixing key `i` extends the fixed prefix by one |
| Scalarize.TypesFixedSkip | yurtc/src/intermediate/transform/scalarize.rs:175-184 | a key without a type is passed over and the fixed prefix grows by one |
| Scalarize.ElementName | yurtc/src/intermediate/transform/scalarize.rs:257 | `name[i]`: the array name, a bracket, the decimal index and a closing bracket |
| Scalarize.ElementNameInjective | yurtc/src/intermediate/transform/scalarize.rs:257 | two different indices never give the same element name |
| Scalarize.ElementVarsSpec | yurtc/src/intermediate/transform/scalarize.rs:254-264 | the element variables are exactly the keys `base .. base + n`; the one at `base + i` is named `name[i]` and has the element type |
| Scalarize.FirstArrayVarBelow | yurtc/src/intermediate/transform/scalarize.rs:227-236 | a key found is a variable whose type is an array |
| Scalarize.FirstArrayVarBelowSpec | yurtc/src/intermediate/transform/scalarize.rs:227-236 | the search finds the first array variable in key order, and finds none only when no variable is an array |
| Scalarize.FindArrayVar | yurtc/src/intermediate/transform/scalarize.rs:227-236 | the `find_map` loop over the variable types returns exactly the first array variable |
| Scalarize.FirstArrayVarStays | yurtc/src/intermediate/transform/scalarize.rs:227-236 | once found, the first array variable stays the answer however far the search goes |
| Scalarize.AddElementVars | yurtc/src/intermediate/transform/scalarize.rs:254-264 | adds one variable per element (none for a non-positive size) under consecutive fresh keys, named `name[i]` and typed with the element type; nothing else changes |
| Scalarize.AddElementVar | yurtc/src/intermediate/transform/scalarize.rs:254-264 | adds the variable `name[idx]` with the element type under the next fresh key, extending the element variables by one |
| Scalarize.AccessesBelowSpec | yurtc/src/intermediate/transform/scalarize.rs:309-329 | the collected accesses are exactly the element accesses into the array, by name or by key, each once and in key order |
| Scalarize.CollectAccesses | yurtc/src/intermediate/transform/scalarize.rs:309-329 | the collection loop returns exactly those accesses, or the panic on a missing array expression |
| Scalarize.NoAccessesPastPanic | yurtc/src/intermediate/transform/scalarize.rs:314 | once the collection has panicked, looking further does not change the outcome |
| Scalarize.ResolveIndex | yurtc/src/intermediate/transform/scalarize.rs:337-363 | succeeds iff the index evaluates to an integer in `0 .. size`, and then selects that element; no value is NonConstArrayIndex, a non-integer InvalidConstArrayIndex, an integer out of range ArrayIndexOutOfBounds |
| Scalarize.RewriteAccess | yurtc/src/intermediate/transform/scalarize.rs:331-365 | a missing index expression panics; an index that does not resolve fails with its error and changes nothing; otherwise a new path to the selected element variable, with the element type, replaces the access everywhere and the access is removed |
| Scalarize.RewriteAccesses | yurtc/src/intermediate/transform/scalarize.rs:331-365 | the arena ends as `RewrittenBy`, the accesses rewritten in order by `RewriteStep`: each access whose index resolves to `i` is replaced everywhere by a new path to element variable `newKeys[i]`, typed with the element type, and removed; the first access that fails gives the error; on success none of the accesses is left |
| Scalarize.RewriteAccessTurn | yurtc/src/intermediate/transform/scalarize.rs:331-362 | one turn of the loop: the arena after it is `RewriteStep` of the arena before, or the turn fails with `RewriteStep`'s error |
| Scalarize.RewrittenByExtends | yurtc/src/intermediate/transform/scalarize.rs:331-362 | a successful rewrite of one more access extends the rewrite of the prefix |
| Scalarize.RewrittenByFails | yurtc/src/intermediate/transform/scalarize.rs:337-362 | the first failing access ends the whole loop with its error (the `?` and the early returns) |
| Scalarize.RewrittenByFailureStays | yurtc/src/intermediate/transform/scalarize.rs:337-362 | once a rewrite has failed, rewriting more accesses does not change the outcome |
| Scalarize.AccessKeys | yurtc/src/intermediate/transform/scalarize.rs:331 | the keys of the accesses, in order |
| Scalarize.RewriteStepReplaces | yurtc/src/intermediate/transform/scalarize.rs:350-358 | one rewrite replaces the access by the fresh key in everything below the counter, removes the access and its type, and rewrites constraints and directives |
| Scalarize.RewrittenByRenames | yurtc/src/intermediate/transform/scalarize.rs:331-362 | after `n` rewrites the arena below the old counter is the old one with the `i`-th access key replaced by the fresh key `counter + i`, in order, and the counter moved by `n` |
| Scalarize.RewriteStepPaths | yurtc/src/intermediate/transform/scalarize.rs:350-353 | a rewrite adds its element path at the fresh key and keeps the paths added before |
| Scalarize.RewrittenByNext | yurtc/src/intermediate/transform/scalarize.rs:350 | each successful rewrite takes exactly one fresh key |
| Scalarize.RewrittenByPath | yurtc/src/intermediate/transform/scalarize.rs:350-353 | after the rewrite, key `counter + i` holds a path to one of the element variables, typed with the element type |
| Scalarize.RewrittenKeysGone | yurtc/src/intermediate/transform/scalarize.rs:356-358 | after a successful rewrite none of the accesses is in the arena |
| Scalarize.RewrittenByRetargets | yurtc/src/intermediate/transform/scalarize.rs:356 | with distinct accesses, every reference to the `i`-th access, in an expression or constraint the pass started with, now names the key `counter + i` |
| Scalarize.RewrittenByNoDangling | yurtc/src/intermediate/transform/scalarize.rs:356-358 | after a successful rewrite no expression, constraint or directive the pass started with refers to a removed access |
| Scalarize.ScalarizeArray | yurtc/src/intermediate/transform/scalarize.rs:225-281 | `Ok(false)` with nothing changed iff there is no array variable; an unsized array or a nameless variable is an internal error with nothing changed; an access collection that panics gives that panic; otherwise the element variables `name[i]` of the element type come in under the next fresh keys (the variable counter moves by the size), the array variable is removed, and the arena ends as `RewrittenBy` with the fresh element keys (each access replaced by a path to the element its index selects), the result being its error or `Ok(true)`; the enums and the symbol set never change |
| Scalarize.ExpandArrayVar | yurtc/src/intermediate/transform/scalarize.rs:252-280 | once the array variable is found and named: the element variables come in under the next fresh keys and the counter moves by the size; a failing access collection returns its error with the arena as it was, a failing rewrite returns its error; otherwise the array variable is removed, no access into it is left, and the arena is `RewrittenBy` with the fresh keys |
| Chains.ChainOp | yurtc/src/intermediate/transform/scalarize.rs:485-505 | the connective of a chain is `&&` or `||`, never the comparison operator itself |
| Chains.ChainValueAnd | yurtc/src/intermediate/transform/scalarize.rs:485-505 | an `&&` chain is true iff every element comparison is true |
| Chains.ChainValueOr | yurtc/src/intermediate/transform/scalarize.rs:485-505 | an `\|\|` chain is true iff some element comparison is true |
| Chains.ChainOpMeaning | yurtc/src/intermediate/transform/scalarize.rs:444-505 | joined by the corrected connective, the element comparisons of two equal-length non-empty aggregates mean exactly the whole `==` or `!=` |
| Chains.AsWrittenNotEqualChainWrong | yurtc/src/intermediate/transform/scalarize.rs:444-505 | as written, the `!=` chain is false as soon as one pair of elements is equal, whatever the others |
| Chains.AsWrittenNotEqualCounterexample | yurtc/src/intermediate/transform/scalarize.rs:444-505 | `[1, 2] != [1, 3]` holds, yet the as-written chain `(1 != 1) && (2 != 3)` is false |
| Chains.ChainExprsKeys | yurtc/src/intermediate/transform/scalarize.rs:487-503 | the `reduce` adds one connective node per comparison after the first, under consecutive keys |
| Chains.ChainTypesKeys | yurtc/src/intermediate/transform/scalarize.rs:492-500 | the chain's types are recorded exactly at the connective nodes' keys |
| Chains.ChainExprsAt | yurtc/src/intermediate/transform/scalarize.rs:487-503 | node `i` joins the chain over the first `i` comparisons with comparison `i` |
| Chains.ChainTypesSpec | yurtc/src/intermediate/transform/scalarize.rs:496-501 | every connective node, and only those, is typed `bool` |
| Chains.ChainLeavesAreCompares | yurtc/src/intermediate/transform/scalarize.rs:485-505 | the leaves of the chain built in the arena are exactly the element comparisons, in order |
| Chains.ReduceChain | yurtc/src/intermediate/transform/scalarize.rs:485-505 | nothing to join gives no key and no change; otherwise the connective nodes are added under fresh keys, typed `bool`, and the root is the last one (or the only comparison) |
| Compares.ArrayCompareAt | yurtc/src/intermediate/transform/scalarize.rs:385-413 | a collected comparison is the expression at that key and its operator is `==` or `!=` |
| Compares.ArrayComparesBelowSpec | yurtc/src/intermediate/transform/scalarize.rs:385-414 | the collected comparisons are exactly the `==`/`!=` expressions whose two operands have array types, each once and in key order |
| Compares.ArrayComparesBelowSound | yurtc/src/intermediate/transform/scalarize.rs:385-414 | every collected comparison is the array comparison at its key, and the keys increase |
| Compares.ArrayComparesBelowComplete | yurtc/src/intermediate/transform/scalarize.rs:385-414 | every array comparison below `n` is collected |
| Compares.CollectArrayCompares | yurtc/src/intermediate/transform/scalarize.rs:385-414 | the collection loop returns exactly those comparisons |
| Compares.ArrayElementExprsKeys | yurtc/src/intermediate/transform/scalarize.rs:448-483 | element `i` adds four expressions, under the keys `base + 4i .. base + 4i + 3` |
| Compares.ArrayElementExprsAt | yurtc/src/intermediate/transform/scalarize.rs:448-483 | element `i` holds the index `i`, the accesses `lhs[i]` and `rhs[i]` and their comparison with the original operator |
| Compares.ArrayElementTypesKeys | yurtc/src/intermediate/transform/scalarize.rs:454-476 | types are recorded only for the new keys |
| Compares.ArrayElementStep | yurtc/src/intermediate/transform/scalarize.rs:448-483 | adding element `i` extends the arena and its types by that element's entries only |
| Compares.AddArrayElementCompares | yurtc/src/intermediate/transform/scalarize.rs:448-483 | adds, element by element, the index, the two accesses and the comparison; the index is typed `int`, the accesses with the element type; returns the comparison keys in order |
| Compares.AddArrayElementCompare | yurtc/src/intermediate/transform/scalarize.rs:448-483 | element `i` adds, in that order, the index, the two element accesses and their comparison, each typed, at the next four fresh keys |
| Compares.LoweredArrayElements | yurtc/src/intermediate/transform/scalarize.rs:448-483 | every element comparison of the lowering is in place, untouched by the chain links |
| Compares.LoweredArrayShape | yurtc/src/intermediate/transform/scalarize.rs:448-505 | what the lowering builds is the chain whose leaves are, in order, `lhs[i] op rhs[i]` for every element, each over the constant index `i` |
| Compares.BuildArrayChain | yurtc/src/intermediate/transform/scalarize.rs:448-505 | adds the element comparisons and their chain and nothing else, returning the chain's root |
| Compares.LowerArrayCompare | yurtc/src/intermediate/transform/scalarize.rs:427-518 | a missing size is an internal error and changes nothing; different sizes are MismatchedArrayComparisonSizes; a non-positive size panics; otherwise the chain, typed `bool`, replaces the comparison everywhere and the comparison is removed |
| Compares.ReplaceWithArrayChain | yurtc/src/intermediate/transform/scalarize.rs:484-517 | builds the element chain, puts its root in place of the comparison everywhere and removes the comparison |
| Compares.LowerArrayCompareTurn | yurtc/src/intermediate/transform/scalarize.rs:427-518 | one turn of the loop: the arena after it is `ArrayLowerStep` of the arena before (the comparison replaced by its element chain, `LoweredArena`), or the turn fails with `ArrayLowerStep`'s error |
| Compares.ArrayLowerStepRemovesKey | yurtc/src/intermediate/transform/scalarize.rs:514-516 | a successful lowering removes the comparison and adds keys only from the counter on |
| Compares.ArrayLowerStepsRemoveKeys | yurtc/src/intermediate/transform/scalarize.rs:514-516 | the same, for every arena and comparison |
| Compares.LowerArrayCompareList | yurtc/src/intermediate/transform/scalarize.rs:427-518 | the loop: the arena ends as the fold of `ArrayLowerStep` over the comparisons in key order, the first failure being the result; on success `Ok(true)` and none of the comparisons is left |
| Compares.LoweredArrayExprsAbove | yurtc/src/intermediate/transform/scalarize.rs:448-505 | everything the lowering adds lies at or above the first fresh key |
| Compares.LowerArrayCompares | yurtc/src/intermediate/transform/scalarize.rs:383-521 | `Ok(false)` with nothing changed iff there is no array comparison; otherwise the arena ends as the fold of `ArrayLowerStep` over the collected comparisons in key order, each replaced by the chain of its element comparisons, and the result is that fold's first error or `Ok(true)`; on success none of the collected comparisons is left |
| Compares.TupleCompareAt | yurtc/src/intermediate/transform/scalarize.rs:578-591 | a collected comparison is the expression at that key and its operator is `==` or `!=` |
| Compares.TupleComparesBelowSpec | yurtc/src/intermediate/transform/scalarize.rs:578-591 | on success the collected comparisons are exactly the `==`/`!=` expressions whose lhs has a tuple type, in key order; a failure is the panic of the first comparison whose rhs is not a tuple |
| Compares.TupleComparesBelowOk | yurtc/src/intermediate/transform/scalarize.rs:578-591 | a successful collection holds exactly the tuple comparisons below `n`, in key order, and met no panic |
| Compares.TupleComparesBelowSound | yurtc/src/intermediate/transform/scalarize.rs:578-591 | a successful collection holds only comparisons at their keys, keys increasing, and no key below `n` panicked |
| Compares.TupleComparesBelowComplete | yurtc/src/intermediate/transform/scalarize.rs:578-591 | a successful collection holds every tuple comparison below `n` |
| Compares.TupleComparesBelowErr | yurtc/src/intermediate/transform/scalarize.rs:578-591 | a failed collection fails with the panic of the first key that panics |
| Compares.TupleComparesPanicStays | yurtc/src/intermediate/transform/scalarize.rs:588 | once the collection has panicked, looking further does not change the outcome |
| Compares.CollectTupleCompares | yurtc/src/intermediate/transform/scalarize.rs:577-591 | the collection loop returns exactly those comparisons, or that panic |
| Compares.FieldIndexByName | yurtc/src/intermediate/transform/scalarize.rs:631-651 | finds the first field with the name, and finds none only when no field has it |
| Compares.AccessorsSelectFields | yurtc/src/intermediate/transform/scalarize.rs:631-651 | lhs field `i` is accessed as field `i`; the rhs field it is compared with is field `i` too, or, when all fields of both tuples are named, the rhs field of the same name |
| Compares.TupleFieldExprsKeys | yurtc/src/intermediate/transform/scalarize.rs:634-683 | field `i` adds three expressions, under the keys `base + 3i .. base + 3i + 2` |
| Compares.TupleFieldExprsAt | yurtc/src/intermediate/transform/scalarize.rs:634-683 | field `i` holds the two field accesses and their comparison with the original operator |
| Compares.TupleFieldTypesKeys | yurtc/src/intermediate/transform/scalarize.rs:665-680 | types are recorded only for the new keys |
| Compares.TupleFieldStep | yurtc/src/intermediate/transform/scalarize.rs:634-683 | adding field `i` extends the arena and its types by that field's entries only |
| Compares.AddTupleFieldCompares | yurtc/src/intermediate/transform/scalarize.rs:634-683 | adds, field by field, both accesses typed with the lhs field's type and their comparison typed `bool`; returns the comparison keys in order |
| Compares.AddTupleFieldCompare | yurtc/src/intermediate/transform/scalarize.rs:634-683 | field `i` adds the two field accesses, typed with the field's type, and their `Bool` comparison at the next three fresh keys |
| Compares.LoweredTupleFields | yurtc/src/intermediate/transform/scalarize.rs:634-683 | every field comparison of the lowering is in place, untouched by the chain links |
| Compares.LoweredTupleShape | yurtc/src/intermediate/transform/scalarize.rs:634-705 | what the lowering builds is the chain whose leaves are, in order, the field comparisons `lhs.a op rhs.b` |
| Compares.BuildTupleChain | yurtc/src/intermediate/transform/scalarize.rs:634-705 | adds the field comparisons and their chain and nothing else, returning the chain's root |
| Compares.LowerTupleCompare | yurtc/src/intermediate/transform/scalarize.rs:597-710 | a missing or non-tuple operand type panics; too few rhs fields for positional access panics; a tuple without fields panics; otherwise the chain replaces the comparison everywhere and the comparison is removed |
| Compares.ReplaceWithTupleChain | yurtc/src/intermediate/transform/scalarize.rs:684-709 | builds the field chain, puts its root in place of the comparison everywhere and removes the comparison |
| Compares.LowerTupleCompareTurn | yurtc/src/intermediate/transform/scalarize.rs:597-710 | one turn of the loop: the arena after it is `TupleLowerStep` of the arena before (the comparison replaced by its field chain, `LoweredArena`), or the turn fails with `TupleLowerStep`'s error |
| Compares.TupleLowerStepRemovesKey | yurtc/src/intermediate/transform/scalarize.rs:707-709 | a successful lowering removes the comparison and adds keys only from the counter on |
| Compares.TupleLowerStepsRemoveKeys | yurtc/src/intermediate/transform/scalarize.rs:707-709 | the same, for every arena and comparison |
| Compares.LowerTupleCompareList | yurtc/src/intermediate/transform/scalarize.rs:597-710 | the loop: the arena ends as the fold of `TupleLowerStep` over the comparisons in key order, the first failure being the result; on success `Ok(true)` and none of the comparisons is left |
| Compares.LoweredTupleExprsAbove | yurtc/src/intermediate/transform/scalarize.rs:634-705 | everything the lowering adds lies at or above the first fresh key |
| Compares.LowerTupleCompares | yurtc/src/intermediate/transform/scalarize.rs:575-713 | a collection panic changes nothing; `Ok(false)` with nothing changed iff there is no tuple comparison; otherwise the arena ends as the fold of `TupleLowerStep` over the collected comparisons in key order, each replaced by the chain of its field comparisons, and the result is that fold's first error or `Ok(true)`; on success none of the collected comparisons is left |
| TupleSplit.SamePrefix | yurtc/src/intermediate/transform/scalarize.rs:739-742 | two names with the same tuple-name prefix are equal iff their suffixes are |
| TupleSplit.FieldSpellingsDistinct | yurtc/src/intermediate/transform/scalarize.rs:737-744 | with distinct field names, none all digits, the fields of one tuple variable get distinct spellings `name.i` and `name.field` |
| TupleSplit.TupleVarsBelowSpec | yurtc/src/intermediate/transform/scalarize.rs:722-748 | on success the keys are exactly the tuple variables not yet split, in key order; a failure is an unsplit variable without a type |
| TupleSplit.TupleVarsPanicStays | yurtc/src/intermediate/transform/scalarize.rs:728-733 | once a variable without a type is met, looking further does not change the outcome |
| TupleSplit.CollectTupleVars | yurtc/src/intermediate/transform/scalarize.rs:722-748 | the first loop returns exactly those keys and, in order, the field variables of each |
| TupleSplit.SpellingMapSpec | yurtc/src/intermediate/transform/scalarize.rs:757-770 | with distinct spellings, both spellings of every field variable lead to its key and type, and no other spelling is in the map |
| TupleSplit.SpellingMapIdx | yurtc/src/intermediate/transform/scalarize.rs:757-770 | each field's index spelling maps to its new variable and the field's type |
| TupleSplit.SpellingMapSym | yurtc/src/intermediate/transform/scalarize.rs:757-770 | each named field's name spelling maps to its new variable and the field's type |
| TupleSplit.SpellingMapOnly | yurtc/src/intermediate/transform/scalarize.rs:757-770 | every spelling in the map is the index or the name spelling of some field |
| TupleSplit.AddFieldVars | yurtc/src/intermediate/transform/scalarize.rs:754-770 | adds one variable per field under consecutive fresh keys, named by its symbolic spelling when it has one, typed with the field type, and returns the spelling map |
| TupleSplit.LookupSpelling | yurtc/src/intermediate/transform/scalarize.rs:785-798 | a match found is for the expression at hand |
| TupleSplit.MatchAccess | yurtc/src/intermediate/transform/scalarize.rs:777-799 | a match found is for the expression at hand; an invalid accessor panics |
| TupleSplit.SplitAccessAt | yurtc/src/intermediate/transform/scalarize.rs:775-812 | a match found is for the expression at hand |
| TupleSplit.SplitAccessesBelowSpec | yurtc/src/intermediate/transform/scalarize.rs:775-813 | on success the accesses are exactly the field accesses into a path whose spelling is one of the new variables, in key order |
| TupleSplit.SplitAccessesBelowSound | yurtc/src/intermediate/transform/scalarize.rs:775-813 | every collected access is the split access at its key, and the keys increase |
| TupleSplit.SplitAccessesBelowComplete | yurtc/src/intermediate/transform/scalarize.rs:775-813 | every access below `n` that splits is collected |
| TupleSplit.SplitAccessesBelowErr | yurtc/src/intermediate/transform/scalarize.rs:775-813 | a failed collection fails with the panic of some key below `n` |
| TupleSplit.SplitAccessesPanicStays | yurtc/src/intermediate/transform/scalarize.rs:805 | once the collection has panicked, looking further does not change the outcome |
| TupleSplit.CollectSplitAccesses | yurtc/src/intermediate/transform/scalarize.rs:775-813 | the access loop returns exactly those accesses, or the first panic |
| TupleSplit.RewriteSplitAccess | yurtc/src/intermediate/transform/scalarize.rs:816-822 | a new path to the field variable, typed with the field type, replaces the access everywhere and the access is removed |
| TupleSplit.RewriteSplitAccesses | yurtc/src/intermediate/transform/scalarize.rs:816-822 | the arena ends as `SplitBy`: each access, in order, replaced everywhere by a new path to its field variable typed with the field type, and removed; the counter moves by one per access and none of the accesses is left |
| TupleSplit.SplitKeysGone | yurtc/src/intermediate/transform/scalarize.rs:820-821 | after the whole rewrite none of the accesses is in the arena |
| TupleSplit.SplitKeys | yurtc/src/intermediate/transform/scalarize.rs:816 | the keys of the accesses, in order |
| TupleSplit.SplitStepReplaces | yurtc/src/intermediate/transform/scalarize.rs:817-821 | one rewrite replaces the access by the fresh key in everything below the counter, removes the access and its type, and rewrites constraints and directives |
| TupleSplit.SplitByRenames | yurtc/src/intermediate/transform/scalarize.rs:816-822 | after `n` rewrites the arena below the old counter is the old one with the `i`-th access key replaced by the fresh key `counter + i`, in order |
| TupleSplit.SplitStepPaths | yurtc/src/intermediate/transform/scalarize.rs:817-818 | a rewrite adds its path at the fresh key and keeps the paths added before |
| TupleSplit.SplitByNext | yurtc/src/intermediate/transform/scalarize.rs:817 | each rewrite takes exactly one fresh key |
| TupleSplit.SplitByPath | yurtc/src/intermediate/transform/scalarize.rs:817-818 | after the rewrite, key `counter + i` holds a path to the `i`-th access's field variable, typed with the field type |
| TupleSplit.SplitByRetargets | yurtc/src/intermediate/transform/scalarize.rs:820 | with distinct accesses, every reference to the `i`-th access, in an expression or constraint the pass started with, now names the key `counter + i` |
| TupleSplit.SplitByNoDangling | yurtc/src/intermediate/transform/scalarize.rs:820-821 | after the rewrite no expression, constraint or directive the pass started with refers to a removed access |
| TupleSplit.SplitTupleVars | yurtc/src/intermediate/transform/scalarize.rs:715-826 | a variable without a type fails with nothing changed; the split variables are added to the skip list; `Ok(false)` with nothing changed iff there is no field to add; on `Ok(true)` the field variables are added with their spellings and types under the next fresh keys (the variable counter moves by their number), and the arena ends as `SplitBy` over the collected accesses, so none of them is left; the enums and the symbol set never change |
| TupleSplit.SplitNewFieldVars | yurtc/src/intermediate/transform/scalarize.rs:754-825 | once the new field variables are known: they come in under the next fresh keys with their spellings and types and the counter moves by their number; a panicking access collection returns that panic with the arena as it was; otherwise `Ok(true)`, none of the collected accesses is left, and the arena is `SplitBy` over them |
| ScalarizeDriver.NoArrayVarsSubMap | yurtc/src/intermediate/transform/scalarize.rs:567-570 | removing variables keeps the variable types free of arrays |
| ScalarizeDriver.IterateLowerArrayCompares | yurtc/src/intermediate/transform/scalarize.rs:10-32 | `iterate!` over `lower_array_compares`: on success no array comparison is left; `Ok(false)` only when nothing changed; the pass changed something at most 10,001 times (`IterationBound + 1`), and `Ok(true)` exactly when it changed something at least once; the 10,002nd change gives the `infinite loop in …` internal error |
| ScalarizeDriver.IterateScalarizeArray | yurtc/src/intermediate/transform/scalarize.rs:10-32 | `iterate!` over `scalarize_array`: on success no variable has an array type; `Ok(false)` only when nothing changed; the pass changed something at most 10,001 times (`IterationBound + 1`), and `Ok(true)` exactly when it changed something at least once; the 10,002nd change gives the `infinite loop in …` internal error |
| ScalarizeDriver.IterateLowerTupleCompares | yurtc/src/intermediate/transform/scalarize.rs:10-32 | `iterate!` over `lower_tuple_compares`: on success no tuple comparison is left; `Ok(false)` only when nothing changed; the pass changed something at most 10,001 times (`IterationBound + 1`), and `Ok(true)` exactly when it changed something at least once; the 10,002nd change gives the `infinite loop in …` internal error |
| ScalarizeDriver.IterateSplitTupleVars | yurtc/src/intermediate/transform/scalarize.rs:10-32 | `iterate!` over `split_tuple_vars`: on success every variable outside the skip list has a type that is not a tuple; the pass changed something at most 10,001 times (`IterationBound + 1`), and `Ok(true)` exactly when it changed something at least once; the 10,002nd change gives the `infinite loop in …` internal error |
| ScalarizeDriver.RemoveVars | yurtc/src/intermediate/transform/scalarize.rs:567-570 | removes exactly the listed variables and their types |
| ScalarizeDriver.ScalarizeArrays | yurtc/src/intermediate/transform/scalarize.rs:75-89 | on success no variable has an array type; `Ok(false)` only when nothing changed |
| ScalarizeDriver.ScalarizeTuples | yurtc/src/intermediate/transform/scalarize.rs:544-572 | on success every variable has a type and none is a tuple; `Ok(false)` only when at most some variables were removed |
| ScalarizeDriver.ScalarizeIntent | yurtc/src/intermediate/transform/scalarize.rs:34-49 | on success every variable has a type that is neither an array nor a tuple |
| Canonicalize.WithObjective | yurtc/src/intermediate/transform/canonicalize.rs:97-101 | the directive keeps its kind and optimises the given expression |
| Canonicalize.CanonicalizeDirective | yurtc/src/intermediate/transform/canonicalize.rs:40-106 | no directive is MissingSolveDirective and `satisfy` is left alone; an untyped objective is an internal error and a clash on `__objective` is reported, both with nothing changed; otherwise `__objective` is declared with the objective's type, the constraint `__objective == objective` is added and the directive optimises `__objective` |
| Canonicalize.ConstrainObjective | yurtc/src/intermediate/transform/canonicalize.rs:74-103 | adds the typed path to `__objective` and the `Bool` constraint equating it with the objective, and points the directive at the path; nothing else changes |
| LegacyScalarize.LegacyIntent.InsertVar | yurtc/src/intent/intermediate/transform/scalarize.rs:55-60 | the element variable and its type go under the next fresh key |
| LegacyScalarize.ElementNameExtends | yurtc/src/intent/intermediate/transform/scalarize.rs:56 | an element name is the array name followed by an index bracket |
| LegacyScalarize.ExtendsTransitive | yurtc/src/intent/intermediate/transform/scalarize.rs:62-77 | an element of an element is still named after the outer array |
| LegacyScalarize.ExpandArrayShape | yurtc/src/intent/intermediate/transform/scalarize.rs:37-98 | scalarising an array variable removes it, keeps every other variable and adds only scalar variables named `name[..]`, however deeply nested |
| LegacyScalarize.ExpandElemsShape | yurtc/src/intent/intermediate/transform/scalarize.rs:54-78 | the element loop keeps every variable and adds only scalar variables named after the array |
| LegacyScalarize.ExpandElemsFlat | yurtc/src/intent/intermediate/transform/scalarize.rs:54-78 | for a scalar element type the loop adds exactly `name[i]` .. `name[val - 1]` under consecutive fresh keys, typed with the element type |
| LegacyScalarize.WithElement | yurtc/src/intent/intermediate/transform/scalarize.rs:55-60 | element `i` goes under the next fresh key, named `name[i]` with the element type |
| LegacyScalarize.ExpandElemsScalarStep | yurtc/src/intent/intermediate/transform/scalarize.rs:54-60 | a scalar element adds that element and the loop goes on with the next |
| LegacyScalarize.ExpandElemsArrayStep | yurtc/src/intent/intermediate/transform/scalarize.rs:62-77 | an array element is expanded in full before the loop goes on with the next |
| LegacyScalarize.ExpandElemsFlatKeeps | yurtc/src/intent/intermediate/transform/scalarize.rs:54-78 | a one-dimensional loop succeeds, adds one variable per remaining element and keeps every existing variable |
| LegacyScalarize.ExpandElemsFlatAt | yurtc/src/intent/intermediate/transform/scalarize.rs:54-60 | key `next + d` holds element `name[i + d]` |
| LegacyScalarize.ExpandElemsFlatNew | yurtc/src/intent/intermediate/transform/scalarize.rs:54-78 | every new key holds the element named after its position |
| LegacyScalarize.ExpandArrayFlat | yurtc/src/intent/intermediate/transform/scalarize.rs:37-98 | a one-dimensional array of length `val` becomes exactly `name[0]` .. `name[val - 1]`, and is itself removed |
| LegacyScalarize.ExpandElemsNested | yurtc/src/intent/intermediate/transform/scalarize.rs:54-78 | for an array element type every `name[i][j]` of the inner element type appears under a fresh key |
| LegacyScalarize.NestedElement | yurtc/src/intent/intermediate/transform/scalarize.rs:62-77 | scalarising element `i` of a two-dimensional array adds `name[i][j]` for every inner index |
| LegacyScalarize.ExpandArrayNested | yurtc/src/intent/intermediate/transform/scalarize.rs:37-98 | a two-dimensional array becomes the variables `name[i][j]`, and is itself removed |
| LegacyScalarize.ScalarizeArrayVar | yurtc/src/intent/intermediate/transform/scalarize.rs:37-98 | `scalarize_array` succeeds iff the array expansion does, fails with its error, and leaves exactly its variables |
| LegacyScalarize.IndexedPath | yurtc/src/intent/intermediate/transform/scalarize.rs:128-145 | succeeds iff the index is a non-negative integer, giving `base[index]`; no value is NonConstArrayIndex, any other value InvalidConstArrayIndex |
| LegacyScalarize.AccessPathNames | yurtc/src/intent/intermediate/transform/scalarize.rs:117-175 | an access chain `name[i1]..[id]` with non-negative constant indices resolves to `name[i1]..[id]` |
| LegacyScalarize.ScalarizeAccess | yurtc/src/intent/intermediate/transform/scalarize.rs:117-175 | `scalarize_array_access` succeeds iff the access path resolves, fails with its error, and on success only the access expression changes, into that path |
| LegacyScalarize.ScalarizeAccessBase | yurtc/src/intent/intermediate/transform/scalarize.rs:117-175 | the base of an access is `AccessBase` of the old expressions; only the key being rewritten may change |
| LegacyScalarize.AccessNamesElementVar | yurtc/src/intent/intermediate/transform/scalarize.rs:117-175 | an access `name[i]` with `i` below the length names the `i`-th element variable the array became |
| LegacyScalarize.AccessPastEndNamesNoElement | yurtc/src/intent/intermediate/transform/scalarize.rs:132-140 | a constant index past the end is accepted, and the path it is rewritten to names none of the element variables |
| LegacyScalarize.ArrayVarsBelowSound | yurtc/src/intent/intermediate/transform/scalarize.rs:204-214 | every collected entry is an array variable, with its name, element type and range |
| LegacyScalarize.ArrayVarsBelowComplete | yurtc/src/intent/intermediate/transform/scalarize.rs:204-214 | every array variable is collected |
| LegacyScalarize.ArrayVarsBelowSorted | yurtc/src/intent/intermediate/transform/scalarize.rs:204-214 | the collected keys increase: arrays are handled in key order |
| LegacyScalarize.CollectArrayVars | yurtc/src/intent/intermediate/transform/scalarize.rs:204-214 | returns exactly the array variables, once each, in key order (`ArrayVarsBelow`) |
| LegacyScalarize.AccessSitesBelowSound | yurtc/src/intent/intermediate/transform/scalarize.rs:221-231 | every collected entry is an array element access, with its array and index operands |
| LegacyScalarize.AccessSitesBelowComplete | yurtc/src/intent/intermediate/transform/scalarize.rs:221-231 | every array element access is collected |
| LegacyScalarize.AccessSitesBelowSorted | yurtc/src/intent/intermediate/transform/scalarize.rs:221-231 | the collected keys increase: accesses are handled in key order |
| LegacyScalarize.CollectAccessSites | yurtc/src/intent/intermediate/transform/scalarize.rs:221-231 | returns exactly the array element accesses, once each, in key order (`AccessSitesBelow`) |
| LegacyScalarize.ArrayVarsStep | yurtc/src/intent/intermediate/transform/scalarize.rs:215-218 | after scalarising one collected array, the array variables left are the later collected ones |
| LegacyScalarize.ScalarizeArrayVarTurn | yurtc/src/intent/intermediate/transform/scalarize.rs:216-218 | one `scalarize_array` call is `ExpandArray` of the arena before it: its error, or the new variables and counter; the later collected arrays stay pending |
| LegacyScalarize.ExpandChainFold | yurtc/src/intent/intermediate/transform/scalarize.rs:215-218 | arenas linked by successive `scalarize_array` calls end where the fold `ExpandAll` is |
| LegacyScalarize.ExpandChainExtend | yurtc/src/intent/intermediate/transform/scalarize.rs:215-218 | one more successful `scalarize_array` call extends that chain |
| LegacyScalarize.ExpandChainFails | yurtc/src/intent/intermediate/transform/scalarize.rs:215-218 | the first failing `scalarize_array` call is the error of the whole `try_for_each` |
| LegacyScalarize.ScalarizeArrayVars | yurtc/src/intent/intermediate/transform/scalarize.rs:215-218 | the `try_for_each` over the arrays: the new variables and counter are those of `ExpandAll`, the result is its first error; on success no variable has an array type |
| LegacyScalarize.RewriteSite | yurtc/src/intent/intermediate/transform/scalarize.rs:233-236 | one access is overwritten by the path it names, keeping the expressions well founded |
| LegacyScalarize.RewriteAll | yurtc/src/intent/intermediate/transform/scalarize.rs:232-237 | rewriting the accesses in order, stopping at the first error, keeps the expressions well founded |
| LegacyScalarize.RewriteAllFailureStays | yurtc/src/intent/intermediate/transform/scalarize.rs:232-237 | once a rewrite fails, the later accesses are not rewritten and the error is the result |
| LegacyScalarize.ScalarizeAccessTurn | yurtc/src/intent/intermediate/transform/scalarize.rs:233-236 | one `scalarize_array_access` call is `RewriteSite` of the expressions before it: its error, or the new expressions; the later accesses stay pending |
| LegacyScalarize.RewriteChainFold | yurtc/src/intent/intermediate/transform/scalarize.rs:232-237 | expressions linked by successive access rewrites end where the fold `RewriteAll` is |
| LegacyScalarize.RewriteChainExtend | yurtc/src/intent/intermediate/transform/scalarize.rs:232-237 | one more successful rewrite extends that chain |
| LegacyScalarize.RewriteChainFails | yurtc/src/intent/intermediate/transform/scalarize.rs:232-237 | the first failing rewrite is the error of the whole `try_for_each` |
| LegacyScalarize.ScalarizeAccessSites | yurtc/src/intent/intermediate/transform/scalarize.rs:232-237 | the `try_for_each` over the accesses: the new expressions are those of `RewriteAll`, the result is its first error; on success no array element access is left |
| LegacyScalarize.ScalarizeIntent | yurtc/src/intent/intermediate/transform/scalarize.rs:201-238 | every array variable is scalarised before any access is rewritten; a failing array variable returns its error with the expressions untouched, otherwise the variables are those of `ExpandAll` and the result and expressions those of `RewriteAll` over the accesses of the original intent; on success no array type and no array element access is left |
| Lexer.LeadingWhitespace | yurtc/src/lexer.rs:128-134 | the count covers only whitespace characters and stops at the first other character or the end |
| Lexer.LeadingWhitespaceIs | yurtc/src/lexer.rs:128-134 | a whitespace run followed by another character or the end is exactly the leading run |
| Lexer.ReadFront | yurtc/src/lexer.rs:105-141 | one step reads at least one character and produces at most one |
| Lexer.ProcessStringLiteral | yurtc/src/lexer.rs:100-144 | the loop produces exactly the unescaped text of the raw literal |
| Lexer.ReadOne | yurtc/src/lexer.rs:105-141 | one turn of the loop advances and produces what the escape rules give for the front of the rest |
| Lexer.UnescapeEscape | yurtc/src/lexer.rs:100-144 | unescaping undoes escaping: every string survives the round trip |
| Lexer.UnescapeRead | yurtc/src/lexer.rs:105-142 | the text of a literal is what its front produces, then the text of the rest |
| Lexer.UnescapeAt | yurtc/src/lexer.rs:105-142 | the text from position `i` is what the front there produces, then the text from where reading resumes |
| Lexer.EscapeCharFront | yurtc/src/lexer.rs:107-125 | an escaped character is read back as that character, consuming exactly its escape |
| Lexer.ReadFrontContinuation | yurtc/src/lexer.rs:126-135 | a backslash before a newline produces nothing and consumes the newline and the whitespace after it |
| Lexer.ContinuationFront | yurtc/src/lexer.rs:126-135 | the continuation consumes exactly the backslash, the newline and the indentation before the next non-whitespace character |
| Lexer.UnescapeShorter | yurtc/src/lexer.rs:100-144 | unescaping never lengthens the text |
| Lexer.UnescapePlain | yurtc/src/lexer.rs:140 | text without backslashes is copied unchanged |
| Lexer.UnescapePrefix | yurtc/src/lexer.rs:140 | characters before the first backslash are copied ahead of the rest |
| Lexer.LineContinuation | yurtc/src/lexer.rs:126-135 | a backslash-newline and the indentation after it disappear |
| Lexer.Lex | yurtc/src/lexer.rs:91-98 | every item lands in exactly one of the two lists |
| Lexer.LexAppend | yurtc/src/lexer.rs:91-98 | partitioning keeps source order within each list |
| Lexer.LexTokens | yurtc/src/lexer.rs:94-95 | a token is in the token list iff the stream lexed it there |
| Lexer.LexErrors | yurtc/src/lexer.rs:94-96 | an error is in the error list iff the stream failed there |
| Lexer.TokenTextRoundTrip | yurtc/src/lexer.rs:9-87 | printing a fixed token gives the spelling the lexer reads as that token; tokens with text print their text |
| Lexer.FixedTokenTextInjective | yurtc/src/lexer.rs:61-87 | distinct fixed tokens print differently |
| Formatter.ParamTexts | yurtfmt/src/ast.rs:96-99 | one text per parameter, in order |
| Formatter.DeclTexts | yurtfmt/src/ast.rs:308-310 | one text per declaration, in order |
| Formatter.AstTextAppend | yurtfmt/src/ast.rs:306-313 | formatting a program split in two is formatting each half, in order |
| Formatter.PathTextRooted | yurtfmt/src/ast.rs:244-253 | a path starts with `::` exactly when it is marked rooted |
| Formatter.DeclTextEnding | yurtfmt/src/ast.rs:43-118 | value, solve, type and constraint declarations end with `;` and a line break, `use` with `;`, a function with a closing brace on its own line |
| Formatter.BinaryNestingNotPrinted | yurtfmt/src/ast.rs:276-283 | with no parentheses printed, a chain nested to the right prints like the same chain nested to the left |
| Formatter.FormattedCode.Write | yurtfmt/src/ast.rs:141 | appends the text and keeps the indentation |
| Formatter.FormattedCode.WriteLine | yurtfmt/src/ast.rs:64 | appends the text and a line break and keeps the indentation |
| Formatter.FormattedCode.IncreaseIndent | yurtfmt/src/ast.rs:175 | one level further in, text unchanged |
| Formatter.FormattedCode.DecreaseIndent | yurtfmt/src/ast.rs:187 | one level back out, never below zero, text unchanged |
| Formatter.FormatUseTree | yurtfmt/src/ast.rs:137-165 | appends exactly the text of the use tree, commas between group members, none after the last |
| Formatter.FormatType | yurtfmt/src/ast.rs:199-225 | appends exactly the text of the type, fields separated by `, ` inside `{ }` |
| Formatter.FormatField | yurtfmt/src/ast.rs:207-212 | a tuple field writes its name and `: ` only when it has one, then its type, and leaves the indentation alone |
| Formatter.FormatPath | yurtfmt/src/ast.rs:244-253 | appends exactly the text of the path |
| Formatter.FormatExpr | yurtfmt/src/ast.rs:255-304 | appends exactly the text of the expression |
| Formatter.FormatDecl | yurtfmt/src/ast.rs:43-118 | appends exactly the text of the declaration and restores the indentation |
| Formatter.FormatValue | yurtfmt/src/ast.rs:51-65 | `let name`, then `: type` and ` = init` when present, then `;` and a line break |
| Formatter.FormatTypeSpec | yurtfmt/src/ast.rs:54-57 | writes `: ` and the type exactly when a type is given, and nothing otherwise |
| Formatter.FormatInit | yurtfmt/src/ast.rs:59-62 | writes ` = ` and the initialiser exactly when one is given, and nothing otherwise |
| Formatter.ValueText | yurtfmt/src/ast.rs:51-65 | the text of a value declaration is `let`, the name, the optional type and initialiser pieces, then `;` and a newline |
| Formatter.FormatSolve | yurtfmt/src/ast.rs:66-75 | `solve directive`, the objective when present, then `;` and a line break |
| Formatter.FormatFn | yurtfmt/src/ast.rs:86-114 | the header line, the body one level in, then a closing brace on its own line |
| Formatter.FormatFnHeader | yurtfmt/src/ast.rs:93-109 | token, name, parameters, return type and opening brace |
| Formatter.FormatParams | yurtfmt/src/ast.rs:95-105 | the parameters joined by `, `, none after the last |
| Formatter.FormatBlock | yurtfmt/src/ast.rs:173-191 | the statements with one line break between consecutive ones, then the final expression, with the indentation restored |
| Formatter.FormatAst | yurtfmt/src/ast.rs:306-313 | appends the declarations' texts in order |
| AsmSpec.Embed | pintc/src/asm_gen.rs:113 | each constraint instruction becomes the same instruction in the state-read program, in order |
| AsmSpec.EmbedAppend | pintc/src/asm_gen.rs:124-126 | embedding two code pieces one after the other is embedding their concatenation |
| AsmSpec.TypeSizesAt | pintc/src/asm_gen.rs:152-156 | the size list has one entry per type, each that type's size |
| AsmSpec.AsI64 | pintc/src/asm_gen.rs:203-206 | `as i64` keeps the low 64 bits: the result is in the `i64` range, congruent to the word, and equal to it below 2^63 |
| AsmSpec.B256Pushes | pintc/src/asm_gen.rs:315-321 | a `b256` immediate is four pushes |
| AsmSpec.IndexOf | pintc/src/asm_gen.rs:143-146 | finds the first position holding the element, and none only when it is absent |
| AsmSpec.PrefixSumStep | pintc/src/asm_gen.rs:152-156 | the next prefix sum adds the next size |
| AsmSpec.PrefixSumGap | pintc/src/asm_gen.rs:152-156 | the range of an earlier item ends before a later item's start |
| AsmSpec.DVarMapNonEmpty | pintc/src/asm_gen.rs:545-563 | every variable gets at least one decision variable |
| AsmSpec.DVarsOrdered | pintc/src/asm_gen.rs:545-563 | decision variables of earlier variables come strictly before those of later ones, so none is shared |
| AsmSpec.DVarsCover | pintc/src/asm_gen.rs:545-564 | every decision variable below the total belongs to some variable |
| AsmSpec.DVarMapUpToStep | pintc/src/asm_gen.rs:545-564 | allocating variable `n` adds its range of decision variables, starting where the widths before it end |
| AsmSpec.DVarMapUpToAll | pintc/src/asm_gen.rs:545-564 | the allocation over all variables is the decision-variable map |
| AsmSpec.DVarOwner | pintc/src/asm_gen.rs:545-564 | every decision variable below the total width of the first `n` variables belongs to one of them, at some position in its list |
| AsmSpec.StateSlotsDisjoint | pintc/src/asm_gen.rs:455-462 | the slots of two different states do not overlap |
| AsmSpec.StorageKeysDisjoint | pintc/src/asm_gen.rs:148-156 | the keys of two different storage variables do not overlap |
| AsmSpec.FieldsDisjoint | pintc/src/asm_gen.rs:266-268 | every field lies inside its tuple and two different fields do not overlap |
| AsmSpec.BinaryOpCode | pintc/src/asm_gen.rs:323-352 | `==` is one `Eq` (`Eq4` for `b256` operands), `!=` is `Eq` then `Not`, every other operator one instruction that is not a state access |
| AsmSpec.DVarReadsAt | pintc/src/asm_gen.rs:449-452 | each decision variable is pushed and then accessed, in order |
| AsmSpec.CodeShape | pintc/src/asm_gen.rs:301-431 | generated code is never empty, and code ending in a state access has at least two instructions |
| AsmSpec.PathShape | pintc/src/asm_gen.rs:434-477 | a compiled path is never empty, and a state path ends in a state access after its delta |
| AsmSpec.VarPathCode | pintc/src/asm_gen.rs:447-453 | a path naming decision variable `i` reads, in order, the four words of a `b256` or the one word of any other type allocated to it |
| AsmSpec.VarPathReads | pintc/src/asm_gen.rs:447-453 | a path naming variable `i` (and no state) compiles to the reads of that variable's decision-variable range |
| AsmSpec.DVarRangeReads | pintc/src/asm_gen.rs:449-452 | reading a range of decision variables pushes each index in turn and accesses it |
| AsmSpec.NextStateReadsNext | pintc/src/asm_gen.rs:359-378 | the next-state operator on a path naming a state reads the same slot with delta 1 |
| AsmSpec.NextStateRewrite | pintc/src/asm_gen.rs:359-378 | the next-state operator succeeds only on code ending in a state access with delta `Push(0)`, turns it into `Push(1)` and keeps every other instruction |
| AsmSpec.BinaryUnfold | pintc/src/asm_gen.rs:323-352 | a binary operation compiles to its operands' code and the operator chosen by `BinaryOpCode`, with the missing-type panic for `==` |
| AsmSpec.UnaryUnfold | pintc/src/asm_gen.rs:353-382 | a unary operation whose operand compiles is `UnaryOpCode` on the operand's code |
| AsmSpec.UnaryOperandOk | pintc/src/asm_gen.rs:353-358 | a unary operation compiles only if its operand does |
| AsmSpec.NextStateOnBuffer | pintc/src/asm_gen.rs:359-378 | the next-state rewrite looked up on the whole buffer finds the operand's own final state read: it panics unless that read is `Push(0)` then a state access, and otherwise turns the `Push(0)` into `Push(1)` |
| AsmSpec.NextStateOfVarPanics | pintc/src/asm_gen.rs:359-378 | asking for the next state of a decision variable panics |
| AsmSpec.KeyCodeKind | pintc/src/asm_gen.rs:98-298 | a key is external exactly when its root is an extern block, static exactly when no map index or call lies on the way, and a static key is `[0, 0, 0, k3]` with code ending in `Push(k3)` |
| AsmSpec.CallKeyUnfold | pintc/src/asm_gen.rs:106-134 | a storage-library call: `get` with one argument, `get_extern` with two; a wrong argument count is an assertion panic and any other call is unimplemented |
| AsmSpec.IndexKeyUnfold | pintc/src/asm_gen.rs:219-241 | one step of `KeyCode` on a map entry: the map's key, then the entry built on it |
| AsmSpec.FieldKeyUnfold | pintc/src/asm_gen.rs:242-295 | one step of `KeyCode` on a tuple field: the tuple's key moved to the field; the field keeps the tuple's external and static roots |
| AsmSpec.EntryKeyOk | pintc/src/asm_gen.rs:219-241 | a map entry's key exists only when the map key, the index and its type do, and is the map key, the index, the pushed size and a hash, dynamic and as external as the map |
| AsmSpec.EntryKeyAppended | pintc/src/asm_gen.rs:219-241 | an entry key built after earlier code is the entry key built on the map key emitted after that code |
| AsmSpec.IndexKeyKind | pintc/src/asm_gen.rs:219-241 | a map entry's key is dynamic and as external as its map's |
| AsmSpec.StorageKeyKind | pintc/src/asm_gen.rs:135-168 | a storage variable's key is static, not external, and its code pushes its last word last |
| AsmSpec.ExternKeyKind | pintc/src/asm_gen.rs:169-217 | an external storage variable's key is static, external, and its code pushes its last word last |
| AsmSpec.StaticKeyCodeLast | pintc/src/asm_gen.rs:135-218 | code ending in a static key ends by pushing its last word |
| AsmSpec.FieldKeyKind | pintc/src/asm_gen.rs:266-294 | a tuple field keeps its tuple's kind and externality; a static key keeps its first three words and its code pushes the new last word last |
| AsmSpec.AppendedToNothing | pintc/src/asm_gen.rs:98-298 | code emitted on an empty buffer is the code itself |
| AsmSpec.IndexKeyCode | pintc/src/asm_gen.rs:219-241 | a map entry's key: the map's key, the index, the hashed length and a `Sha256`; dynamic, and external exactly when the map is |
| AsmSpec.StorageAccessKey | pintc/src/asm_gen.rs:135-168 | a storage variable's key is three zeros and the sizes of the variables before it |
| AsmSpec.RunStatesSlots | pintc/src/asm_gen.rs:566-569 | the slots of the compiled states are laid out back to back, slot `j` filled by program `j` |
| AsmSpec.RunStatesPrograms | pintc/src/asm_gen.rs:493-532 | when nothing failed, program `j` is state `j`'s and its slot holds that state's data size; a failed state records an error |
| AsmSpec.RunConstraintsCodes | pintc/src/asm_gen.rs:480-490 | when nothing failed, program `j` is constraint `j`'s code; a failed constraint records an error |
| AsmSpec.IntentSpecSuccess | pintc/src/asm_gen.rs:537-596 | a compiled intent has one program and slot per state, back to back, one program per constraint, and as many decision variables as the variables' widths add up to; any state or constraint that reports an error fails the intent |
| AsmSpec.Assembled | pintc/src/asm_gen.rs:575-595 | an intent that failed carries at least one error message |
| AsmSpec.AssembledSuccess | pintc/src/asm_gen.rs:537-596 | a successful intent holds one program and one slot per state, in order, one program per constraint, slots laid out back to back, and the decision-variable count; any state or constraint error fails it |
| AsmSpec.StatePrograms | pintc/src/asm_gen.rs:566-569 | one outcome per state, in order, each that state's program |
| AsmSpec.ConstraintCodes | pintc/src/asm_gen.rs:571-573 | one outcome per constraint, in order, each that constraint's code |
| AsmSpec.RunStatesNext | pintc/src/asm_gen.rs:566-569 | running the state loop over one more state is one more `StatesStep` |
| AsmSpec.RunConstraintsNext | pintc/src/asm_gen.rs:571-573 | running the constraint loop over one more constraint is one more `ConstraintsStep` |
| AsmSpec.SlotsLaidOutAppend | pintc/src/asm_gen.rs:493-532 | a slot placed where the others end and pointing at the next program keeps the slots laid out, and the total size grows by its amount |
| AsmGen.AsmBuilder.AllocateDVars | pintc/src/asm_gen.rs:543-564 | the allocation loop gives each variable its decision variables and returns their total |
| AsmGen.AsmBuilder.CompilePath | pintc/src/asm_gen.rs:434-477 | appends exactly the specified path code |
| AsmGen.AsmBuilder.CompileExpr | pintc/src/asm_gen.rs:301-431 | appends exactly the specified code of the expression, or fails as specified |
| AsmGen.AsmBuilder.CompileBinary | pintc/src/asm_gen.rs:323-352 | both operands' code, then the operator's |
| AsmGen.AsmBuilder.CompileBinaryOp | pintc/src/asm_gen.rs:323-352 | the operator step on a buffer that already holds both operands' code yields exactly the code `ExprCode` gives the operation, including the missing-type panic for `==` |
| AsmGen.AsmBuilder.CompileUnary | pintc/src/asm_gen.rs:353-382 | the operand's code, then `Not`, or the final state read switched to the next state |
| AsmGen.AsmBuilder.CompileUnaryOp | pintc/src/asm_gen.rs:353-382 | the operator step on a buffer holding the operand's code yields exactly `UnaryOpCode` of that code, so the next-state rewrite finds the operand's own final state read |
| AsmGen.AsmBuilder.CompileStateKey | pintc/src/asm_gen.rs:98-298 | appends exactly the specified key code and returns its kind |
| AsmGen.AsmBuilder.CompileCallKey | pintc/src/asm_gen.rs:106-134 | `get` and `get_extern` give dynamic keys, internal and external |
| AsmGen.AsmBuilder.CompileGetKey | pintc/src/asm_gen.rs:107-117 | `get(key)` emits the key argument's code and yields a dynamic key that is not external |
| AsmGen.AsmBuilder.CompileGetExternKey | pintc/src/asm_gen.rs:118-130 | `get_extern(address, key)` emits the address code then the key code and yields a dynamic external key |
| AsmGen.AsmBuilder.CompileStorageKey | pintc/src/asm_gen.rs:135-218 | storage and extern variables give static keys at their base |
| AsmGen.AsmBuilder.CompileIndexKey | pintc/src/asm_gen.rs:219-241 | the map key, the index and a `Sha256` |
| AsmGen.AsmBuilder.CompileFieldKey | pintc/src/asm_gen.rs:242-295 | the tuple's key moved on by the field's offset |
| AsmGen.AsmBuilder.CompileFieldOffset | pintc/src/asm_gen.rs:266-294 | moving a tuple's key on to a field gives exactly `FieldKey` of the tuple's key: the offset is the sum of the sizes of the fields before it |
| AsmGen.AsmBuilder.CompileConstraint | pintc/src/asm_gen.rs:480-490 | keeps the constraint's program only when it compiles |
| AsmGen.AsmBuilder.CompileState | pintc/src/asm_gen.rs:493-532 | on success keeps the program, adds a slot at the slot index holding the data size and pointing at the program, and advances the index by the data size; on failure nothing is kept |
| AsmGen.AsmBuilder.CompileStates | pintc/src/asm_gen.rs:566-569 | the state loop runs as specified and its programs and slots are the builder's |
| AsmGen.AsmBuilder.StateTurn | pintc/src/asm_gen.rs:566-569 | one turn of the state loop is `StatesStep` on the state's outcome, and a turn that goes on leaves the programs and slots the step records |
| AsmGen.AsmBuilder.CompileConstraints | pintc/src/asm_gen.rs:571-573 | the constraint loop runs as specified and its programs are the builder's |
| AsmGen.AsmBuilder.ConstraintTurn | pintc/src/asm_gen.rs:571-573 | one turn of the constraint loop is `ConstraintsStep` on the constraint's outcome, and a turn that goes on leaves the programs the step records |
| AsmGen.AsmBuilder.ConstraintLoopTurn | pintc/src/asm_gen.rs:571-573 | after turn `j` the loop state is the run over the first `j + 1` outcomes, and a turn that stops stops the whole run the same way |
| AsmGen.RunStatesStopped | pintc/src/asm_gen.rs:566-569 | once a state panics, the later states do not matter |
| AsmGen.RunConstraintsStopped | pintc/src/asm_gen.rs:571-573 | once a constraint panics, the later constraints do not matter |
| AsmGen.IntentToAsm | pintc/src/asm_gen.rs:537-596 | `intent_to_asm` computes exactly the specified compiled intent |
| AsmGen.Results | pintc/src/asm_gen.rs:42-52 | one compilation outcome per intent, in order |
| AsmGen.NoneAbortedStep | pintc/src/asm_gen.rs:46-54 | no panic among the first `i + 1` iff none among the first `i` and none at `i` |
| AsmGen.SomeErrorsStep | pintc/src/asm_gen.rs:46-54 | errors among the first `i + 1` iff among the first `i` or at `i` |
| AsmGen.CollectedStep | pintc/src/asm_gen.rs:46-54 | keeping intent `i` under its name disturbs none kept before |
| AsmGen.CompileStateful | pintc/src/asm_gen.rs:46-54 | aborts iff some selected intent panics; otherwise the kept intents are exactly the selected ones that compiled, under their names, and errors are reported iff one reported errors |
| AsmGen.CompileSelected | pintc/src/asm_gen.rs:47-53 | one turn over intent `i`: the root is skipped, an abort stops exactly when some intent up to `i` panicked, and otherwise errors and the collected intents are those of the first `i + 1` intents |
| AsmGen.ProgramToIntents | pintc/src/asm_gen.rs:37-65 | aborts iff a selected intent panics or a stateless program has none; fails iff one reports errors; on success the result keeps the program's kind and exactly the compiled selected intents |
| Parser.RadixDecimal | yurtc/src/parser.rs:435-441 | decimal digits read in radix 10 give their decimal value |
| Parser.IntegerLiteralParses | yurtc/src/parser.rs:426-444 | every integer literal the lexer produces is an integer immediate, so the `unwrap` never panics on one |
| Parser.IntegerDecimal | yurtc/src/parser.rs:426-444 | a decimal literal is an `i64` immediate when it fits and a big integer of the same value otherwise |
| Parser.IntegerRadix | yurtc/src/parser.rs:434-441 | a `0x` or `0b` literal is always a big integer holding the value of its digits after the prefix |
| Parser.FindChar | yurtc/src/parser.rs:270-273 | finds the first position of the character, and none only when it is absent |
| Parser.NatToStringHasNoDot | yurtc/src/parser.rs:254-262 | the decimal text of a number has no `.` and parses as a `usize` exactly when it fits |
| Parser.TupleIndexSingle | yurtc/src/parser.rs:254-262 | an integer literal that fits a `usize` is that one tuple index |
| Parser.FindCharAfter | yurtc/src/parser.rs:270-273 | the first `.` after a dot-free prefix is at the prefix's length |
| Parser.TupleIndexPair | yurtc/src/parser.rs:264-296 | the real literal `a.b` is the two tuple indices `a` then `b` |
| Parser.SplitPlainPair | yurtc/src/parser.rs:274-294 | splitting `a.b` at its `.` parses both halves as indices, in order |
| Parser.TupleIndexInvalid | yurtc/src/parser.rs:300 | any token other than a number literal is an InvalidTupleIndex |
| Parser.FoldIndicesSnoc | yurtc/src/parser.rs:302-308 | indices nest leftwards: the last index is applied outermost |
| Parser.LevelOp | yurtc/src/parser.rs:311-380 | an operator token found at a level is an operator of that level |
| Parser.FoldBinarySnoc | yurtc/src/parser.rs:311-380 | each level is left-associative: the last operator is applied outermost |
| Parser.LadderWeaken | yurtc/src/parser.rs:244 | a tree of a tighter level's shape also fits a looser level |
| Parser.FoldLadder | yurtc/src/parser.rs:311-380 | folding one level's operators onto a tighter operand gives a tree of the precedence shape |
| Parser.FoldSpine | yurtc/src/parser.rs:311-380 | every tree is the fold of its own left spine |
| Parser.SpineFold | yurtc/src/parser.rs:311-380 | the fold can be read back: its spine is the operand and the operator/operand pairs that were folded |
| Parser.ParseIdent | yurtc/src/parser.rs:382-400 | succeeds, consuming one token, iff the token is an identifier; a keyword is KeywordAsIdent and anything else is not |
| Parser.ParseType | yurtc/src/parser.rs:402-423 | a type consumes at least one token and reports only empty tuple types |
| Parser.TypeList | yurtc/src/parser.rs:404-407 | the comma list of types never fails, reports only empty tuple types and reports nothing when empty |
| Parser.TypeListMore | yurtc/src/parser.rs:404-407 | the rest of the list never fails and reports only empty tuple types |
| Parser.OptionalTypeSpec | yurtc/src/parser.rs:80-81 | never fails; when there is no `:` nothing is consumed and nothing reported |
| Parser.ParseParam | yurtc/src/parser.rs:138-141 | a parameter consumes at least one token |
| Parser.ParamList | yurtc/src/parser.rs:142-145 | the parameter list never fails and never moves backwards |
| Parser.ParamListMore | yurtc/src/parser.rs:142-145 | the rest of the list never fails and never moves backwards |
| Parser.IndexTail | yurtc/src/parser.rs:302-303 | the tuple indices after an atom never fail and report nothing |
| Parser.ParseExpr | yurtc/src/parser.rs:213-246 | an expression consumes at least one token and starts with a token that starts an atom |
| Parser.BinaryLevel | yurtc/src/parser.rs:311-380 | a level's expression consumes at least one token and starts like an atom |
| Parser.BinaryTail | yurtc/src/parser.rs:311-380 | a level's operator/operand pairs never fail and never move backwards |
| Parser.TupleIndexLevel | yurtc/src/parser.rs:248-309 | an atom with indices consumes at least one token, starts like an atom and is never a binary operation |
| Parser.FoldIndicesNotBinary | yurtc/src/parser.rs:302-308 | indexing something that is not a binary operation never gives one |
| Parser.Atom | yurtc/src/parser.rs:234-242 | an atom consumes at least one token, starts with an atom's token and is never a binary operation |
| Parser.UnaryAtom | yurtc/src/parser.rs:179-192 | a unary operation consumes its operator and gives a unary expression |
| Parser.IfAtom | yurtc/src/parser.rs:194-211 | an `if` consumes at least one token and gives an `if` expression |
| Parser.ParseBlock | yurtc/src/parser.rs:160-177 | a block consumes at least one token |
| Parser.BlockBody | yurtc/src/parser.rs:165-174 | a block body consumes at least one token |
| Parser.Args | yurtc/src/parser.rs:215-219 | arguments consume at least the two brackets; an empty list reports nothing |
| Parser.ArgList | yurtc/src/parser.rs:215-219 | the comma list never fails, never moves backwards and reports nothing when empty |
| Parser.ArgListMore | yurtc/src/parser.rs:215-219 | the rest of the list never fails and never moves backwards |
| Parser.OptionalInit | yurtc/src/parser.rs:82-83 | never fails; when there is no `=` nothing is consumed and nothing reported |
| Parser.Declaration | yurtc/src/parser.rs:63-158 | a declaration consumes at least one token |
| Parser.VarDeclaration | yurtc/src/parser.rs:75-95 | `var name [: type] [= init];` consumes at least one token and never runs past the input |
| Parser.LetDeclaration | yurtc/src/parser.rs:97-108 | `let name [: type] = init;` consumes at least one token and never runs past the input |
| Parser.ConstraintDeclaration | yurtc/src/parser.rs:110-117 | `constraint expr;` consumes at least one token and never runs past the input |
| Parser.SolveDeclaration | yurtc/src/parser.rs:119-132 | `solve` with `satisfy`, `minimize name` or `maximize name` consumes at least one token and never runs past the input |
| Parser.FnDeclaration | yurtc/src/parser.rs:134-158 | `fn name(params) -> type { body }` consumes at least one token and never runs past the input |
| Parser.ProgramDecls | yurtc/src/parser.rs:63-73 | the repetition never fails and never moves backwards |
| Parser.ParseProgram | yurtc/src/parser.rs:63-73 | succeeds iff the declarations reach the end of input and none of them reported an error, giving them; a failure has at least one error, starts with the errors the declarations reported, and a token left over is reported last as unexpected at its position |
| Parser.ParseSource | yurtc/src/parser.rs:34-61 | a syntax tree iff there is no lexing error and the parse succeeds; otherwise all lexing errors come first, in order, followed only by parsing errors, which are those of the parse when it failed |
| Parser.LevelLadder | yurtc/src/parser.rs:311-380 | every parse of a level has the precedence shape of that level |
| Parser.TailItems | yurtc/src/parser.rs:311-380 | a level's tail collects only that level's operators, each with an operand of a tighter level |
| Parser.LevelItemsCons | yurtc/src/parser.rs:311-380 | an operator of level `l` with an operand of a tighter level, in front of well-levelled items, keeps the items well-levelled |
| Parser.ExprLadder | yurtc/src/parser.rs:244 | precedence and associativity: a looser operator is never the operand of a tighter one, and never the right operand of one of its own level |
| Parser.EmptyTupleExprReported | yurtc/src/parser.rs:225-232 | an empty tuple expression parses and is reported with the span of its brackets |
| Parser.EmptyTupleTypeReported | yurtc/src/parser.rs:406-413 | an empty tuple type parses and is reported with the span of its brackets |
| Parser.UntypedVarReported | yurtc/src/parser.rs:85-93 | a `var` with neither a type nor an initialiser is reported as UntypedDecisionVar with the span of the whole declaration |
| Parser.TypedVarNotReported | yurtc/src/parser.rs:85-93 | a `var` with a type is not reported as untyped |
| Parser.UntypedVarExample | yurtc/src/parser.rs:75-95 | `var x;` parses, with `x` reported as untyped over the three tokens |
| Parser.UntypedVarProgramFails | yurtc/src/parser.rs:63-73 | `var x;` is read to the end of input, yet the program fails with the one UntypedDecisionVar its declaration reported |
| Parser.LetWithoutInitFails | yurtc/src/parser.rs:97-108 | a `let` whose name and optional type are not followed by `=` fails, at whatever token is there, whether at top level or in a block: a `let` needs an initialiser |
| Parser.TopLevelOnly | yurtc/src/parser.rs:160-177 | inside a block neither `solve` nor `fn` is a declaration |
| Parser.ExprStart | yurtc/src/parser.rs:213-246 | a token that cannot start an atom cannot start an expression |

## Left out

- Diagnostics, spans beyond their start and end offsets, file I/O, the command-line drivers and the SCIP solver back end are not modelled.
- `Expr::evaluate` is a parameter, because its definition in `yurtc/src/intermediate.rs` is not part of this model. Only its results at the call sites matter.
- `IntermediateIntent::replace_exprs` and `insert_var` are not part of this model either. They are modelled from their call sites:
  - replacement rewrites every reference to the old key in expressions, constraints and directives;
  - `insert_var` reports a NameClash for a name already declared and otherwise adds the variable.
- `Type::size` is not part of this model. The assembly model assumes `b256` is 4 words, a tuple is the sum of its fields and every other type is 1 word.
- `to_bytes` of immediates and the `Sha256` opcode's hash are left symbolic.
- Only the `b256` words pushed as four `i64`s go through `AsmSpec.AsI64`. Every other integer cast in code generation is an unbounded integer in the model, and its wrap-around is not captured: `key as i64` (pintc/src/asm_gen.rs:162, 210), the `i64` addition `key[3] += key_offset as i64` (:288), `slot_index as i64` and `size as i64` (:465-470), `data_size as u32` and `*slot_idx += data_size as u32` (:527, 530), `program_idx as u16` (:528) and `total_decision_vars as u32` (:582). These casts only wrap once a count leaves the target type (2^16 programs, 2^32 slots or decision variables, 2^63 for keys), and the model is exact below that.
- The lookups `intent.state_types[state.0]` in `compile_path` (pintc/src/asm_gen.rs:458 for each earlier state, :463 for the state itself) and `final_intent.var_types[var.0]` (pintc/src/asm_gen.rs:547) panic when a state or variable has no recorded type. The model's `AsmSpec.StateVar` (asm_spec.dfy:160) and `AsmSpec.Var` (asm_spec.dfy:158) carry their types, so these panics cannot be represented. AsmSpec.PathCode and AsmGen.AsmBuilder.CompilePath therefore never report them.
- AsmGen.ProgramToIntents: when several intents fail, the error reported first is not modelled beyond "a failure is reported". Each intent's handler scope is not modelled separately.
- The root intent's name (`ROOT_II_NAME`) is a parameter.
- Lexer.Lex: the `logos` lexer itself is not modelled. The token stream is a parameter of the parser, because the parser's token set is newer than the one in `yurtc/src/lexer.rs`. The lexer model covers the token spellings, the partition into tokens and errors, and string-literal unescaping.
- Parser.ParseProgram: `chumsky`'s error merging and recovery are not modelled. A failure carries the first error of the deterministic descent; errors emitted by a branch that then fails are dropped; a token left over after the declarations is reported as unexpected at its position.
- Parser: the set of keywords reported by `ident` is assumed to be the keyword tokens of the model.
- Parser: real literals keep their text, because floating point is not modelled. Big integers are unbounded naturals, so sign and `_` separators are not modelled.
- Parser: `WellLexed` asks that every integer literal token have the lexer's integer syntax. The lexer guarantees this, and it is what makes the `unwrap` in `immediate` safe (`Parser.IntegerLiteralParses`).
- Parser.ParseType, Parser.ParseExpr, Parser.BinaryLevel, Parser.Atom, Parser.ParseBlock, Parser.BlockBody and Parser.Declaration: their own contracts state only progress and what starts a parse. The tree shapes are stated by `Parser.LevelLadder`, `Parser.ExprLadder`, `Parser.TopLevelOnly` and the emitted-error lemmas.
- Compares.LoweredArrayShape: the chain it describes joins the element comparisons of an array `!=` with `||`, the corrected connective of "## Findings". The source joins them with `&&` (yurtc/src/intermediate/transform/scalarize.rs:489). `==` is joined with `&&` as in the source. The as-written connective is `Chains.AsWrittenChainOp`, with its counterexample in `Chains.AsWrittenNotEqualCounterexample`.
- Compares.BuildArrayChain: the chain it builds joins the element comparisons of an array `!=` with `||`, the corrected connective of "## Findings". The source joins them with `&&` (yurtc/src/intermediate/transform/scalarize.rs:489). `==` is joined with `&&` as in the source. The as-written connective is `Chains.AsWrittenChainOp`, with its counterexample in `Chains.AsWrittenNotEqualCounterexample`.
- Compares.LowerArrayCompare: the chain it puts in place of a comparison joins the element comparisons of an array `!=` with `||`, the corrected connective of "## Findings". The source joins them with `&&` (yurtc/src/intermediate/transform/scalarize.rs:489). `==` is joined with `&&` as in the source. The as-written connective is `Chains.AsWrittenChainOp`, with its counterexample in `Chains.AsWrittenNotEqualCounterexample`.
- Compares.ReplaceWithArrayChain: the chain it puts in place of a comparison joins the element comparisons of an array `!=` with `||`, the corrected connective of "## Findings". The source joins them with `&&` (yurtc/src/intermediate/transform/scalarize.rs:489). `==` is joined with `&&` as in the source. The as-written connective is `Chains.AsWrittenChainOp`, with its counterexample in `Chains.AsWrittenNotEqualCounterexample`.
- Compares.LowerArrayCompares: each chain it puts in place of a comparison joins the element comparisons of an array `!=` with `||`, the corrected connective of "## Findings". The source joins them with `&&` (yurtc/src/intermediate/transform/scalarize.rs:489). `==` is joined with `&&` as in the source. The as-written connective is `Chains.AsWrittenChainOp`, with its counterexample in `Chains.AsWrittenNotEqualCounterexample`.
- Compares.LoweredTupleShape: the chain it describes joins the field comparisons of a tuple `!=` with `||`, the corrected connective of "## Findings". The source joins them with `&&` (yurtc/src/intermediate/transform/scalarize.rs:689). `==` is joined with `&&` as in the source. The as-written connective is `Chains.AsWrittenChainOp`, with its counterexample in `Chains.AsWrittenNotEqualCounterexample`.
- Compares.BuildTupleChain: the chain it builds joins the field comparisons of a tuple `!=` with `||`, the corrected connective of "## Findings". The source joins them with `&&` (yurtc/src/intermediate/transform/scalarize.rs:689). `==` is joined with `&&` as in the source. The as-written connective is `Chains.AsWrittenChainOp`, with its counterexample in `Chains.AsWrittenNotEqualCounterexample`.
- Compares.LowerTupleCompare: the chain it puts in place of a comparison joins the field comparisons of a tuple `!=` with `||`, the corrected connective of "## Findings". The source joins them with `&&` (yurtc/src/intermediate/transform/scalarize.rs:689). `==` is joined with `&&` as in the source. The as-written connective is `Chains.AsWrittenChainOp`, with its counterexample in `Chains.AsWrittenNotEqualCounterexample`.
- Compares.ReplaceWithTupleChain: the chain it puts in place of a comparison joins the field comparisons of a tuple `!=` with `||`, the corrected connective of "## Findings". The source joins them with `&&` (yurtc/src/intermediate/transform/scalarize.rs:689). `==` is joined with `&&` as in the source. The as-written connective is `Chains.AsWrittenChainOp`, with its counterexample in `Chains.AsWrittenNotEqualCounterexample`.
- Compares.LowerTupleCompares: each chain it puts in place of a comparison joins the field comparisons of a tuple `!=` with `||`, the corrected connective of "## Findings". The source joins them with `&&` (yurtc/src/intermediate/transform/scalarize.rs:689). `==` is joined with `&&` as in the source. The as-written connective is `Chains.AsWrittenChainOp`, with its counterexample in `Chains.AsWrittenNotEqualCounterexample`.
- Compares.LowerTupleCompare: a rhs tuple with fewer fields than the lhs panics before anything is added. The source panics part-way through, after some field accesses were inserted. Both abort the compilation.
- ScalarizeDriver.IterateLowerArrayCompares, ScalarizeDriver.IterateScalarizeArray, ScalarizeDriver.IterateLowerTupleCompares and ScalarizeDriver.IterateSplitTupleVars: an error with fewer than 10,002 changing runs is the error of the run that failed. The contracts do not say which error that is, because each pass states its error against the intent as that run found it.
- Scalarize.ExpandArrayVar: after a failed rewrite, the contract does not say which expressions were already rewritten, nor which element variables were added. The error is stated exactly, and it aborts the compilation. A failed collection leaves the arena as it was.
- LegacyScalarize.ScalarizeArrayVars and LegacyScalarize.ScalarizeAccessSites: after an error, the contracts do not say how far the expansion got. The error is stated exactly, as that of the first failing step of the fold, and it aborts the compilation.
- LegacyScalarize.ScalarizeIntent: besides the arena invariants, the intent it takes must be well founded: the indexed expression of an array access has a smaller key than the access (`LegacyIntent.Valid`). The recursive rewrite of nested accesses then terminates. The source relies on the parser building sub-expressions first.
- Predicates.Predicate.ReplaceExprs does not rewrite the predicate's top-level `match` declarations, as in the source.
- Predicates.Predicate.ReplaceExprs does not rewrite expression keys inside variable and state types (`replace_type_expr`, pintc/src/predicate.rs:605-611). Types are opaque text here, because `Type` and `replace_type_expr` belong to `pintc/src/types`, which is not part of this model. Array-range expressions inside a type therefore keep the old key.
- Formatter.FormattedCode: the rendering of indentation belongs to `yurtfmt/src/formatter.rs`, which is not part of this model. The buffer keeps the text and the indentation level.
- Slot maps in the source reuse freed keys; the model never reuses one. The removal and replacement properties do not depend on the difference, because a removed key is never referred to again. The "first" and "in key order" claims do: under reuse, key order is not insertion order. These claims hold for an arena without reuse. They cover Scalarize.FirstArrayVarBelowSpec, Compares.ArrayComparesBelowSpec, Compares.TupleComparesBelowSpec, TupleSplit.TupleVarsBelowSpec, TupleSplit.SplitAccessesBelowSpec, LegacyScalarize.CollectArrayVars and the collection loops built on them.

## Findings

| source | as written | input that shows it | evidently intended | confidence | as-written member | corrected member |
|---|---|---|---|---|---|---|
| yurtc/src/intermediate/transform/scalarize.rs:485-505 | array `!=` is lowered to the element comparisons joined by `&&` (`BinaryOp::LogicalAnd` at line 489; tuple `!=` does the same at line 689) | `[1, 2] != [1, 3]` is true, but the lowered `(1 != 1) && (2 != 3)` is false | element-wise `!=` joined by `\|\|` (for `==`, `&&`), so that the chain means the same as the whole comparison | high, not executed | Chains.AsWrittenNotEqualCounterexample | Chains.ChainOpMeaning |
