# Semantic analysis of a C-minus compiler, in Dafny

This project models the semantic-analysis phase of a small compiler for a
C-like language (integer and void scalars, integer arrays, functions with
parameters).  The phase runs over a syntax tree in two passes:

* **buildSymtab** (pass 1) opens the global scope and declares the builtins
  `int input(void)` and `void output(int arg)` in it.  It then walks the tree:
  * It opens one scope per compound statement.  A function body reuses the
    scope its declaration opened for the parameters; the one-shot flag
    `inScopeBefore` says when to reuse.
  * It records the scope on the compound-statement node.
  * It inserts declarations and appends use lines to the records that uses
    resolve to.
  * It reports redefinitions, undeclared names and functions declared
    outside the global scope.
* **typeCheck** (pass 2) walks the tree again and re-enters the scopes that
  pass 1 recorded.  It applies the type rules to conditions, returns,
  assignments, binary operators, identifiers, calls and variable
  declarations.  It reports every type error and goes on.

The symbol table (`symtab.c`) keeps:
* a list of every scope ever created;
* a stack of the open scopes, with one location counter per level;
* in each scope, a 211-bucket chained hash table.

Lookup follows the parent links recorded when each scope was created, so the
innermost declaration shadows the outer ones.

Files:

* `wrappers.dfy`: the `Option` type.
* `tree.dfy`: the syntax-tree node class.
  * `Valid()` says a node heads a real tree, with no sharing and no cycles,
    in the shape the parser builds.
  * It also holds the node constructors of `util.c` and `copyString`.
* `symtab.dfy`: the symbol table.
  * Pure definitions: hashing, searching a chain, searching a scope,
    searching along the parent links, insertion, appending a line.
  * Lemmas about those definitions.
  * A `SymTab` class whose methods are the C routines, proved against the
    pure definitions.
* `typerules.dfy`: the type rules of `checkNode` as pure functions of what
  the checker reads off the nodes, and the argument check of a call.
* `analyze.dfy`: the analyser.
  * An `Analyzer` class holding the statics of `analyze.c`
    (`globalScope`, `funcName`, `inScopeBefore`), the error flag and the
    reported diagnostics.
  * One method per hook and per branch of a hook.
  * The generic traversal, written out once for each pass.

## Model

The table lists every member whose contract states something about the
source.  A few specification functions have no row of their own, because
the lemmas and methods of the table state what they mean:
* `SymTab.Prepended` and `SymTab.WithLine`, the pure effects of st_insert
  and st_add_lineno (see `PrependedFinds`, `PrependedKeepsOthers`,
  `WithLineEffect`, `SymTab.SymTab.Insert`, `SymTab.SymTab.AddLineno`);
* `SymTab.SymTab.Visible` and `SymTab.SymTab.Declaration`, what
  get_bucket answers from the top scope (see `GetBucket`, `Lookup`);
* `TypeRules.Decay`, the indexed-element rule that `AssignType`, `OpType`,
  `ReturnRejected` and `CheckArgsVerdict` state their results with;
* `TypeRules.MissingArgumentsLineAsWritten`, the short-call line as
  written (see `MissingArgumentsLine` and `ZeroArgumentShortCallAsWritten`);
* `Analyze.VoidParam`, the `param->child[0]->attr.type != VOID` test that
  `Params` reads.

| member | source | states |
|---|---|---|
| Tree.TreeNode.NewStmt | 3_Semantic/util.c:74-87 | a statement node of the given kind and line, with empty child slots and no sibling; it heads a one-node tree |
| Tree.TreeNode.NewExp | 3_Semantic/util.c:92-106 | an expression node with empty slots and no sibling whose type starts out Void |
| Tree.TreeNode.NewDecl | 3_Semantic/util.c:111-124 | a declaration node of the given kind with empty slots and no sibling |
| Tree.TreeNode.NewParam | 3_Semantic/util.c:129-142 | a parameter node of the given kind with empty slots and no sibling |
| Tree.TreeNode.NewType | 3_Semantic/util.c:147-160 | a type-specifier node with empty slots, no sibling and the given specifier; it heads a one-node tree |
| Tree.TreeNode.Linked | 3_Semantic/analyze.c:102-110 | a node whose slots and sibling are filled when it is made, as insertIOFuncNode fills the builtins' nodes; it heads a tree whenever the parts can be linked |
| Tree.CopyString | 3_Semantic/util.c:165-175 | NULL gives NULL; otherwise the result is a fresh buffer holding the same characters |
| SymTab.HashOf | 3_Semantic/symtab.c:23-33 | the hash of any name is a bucket index below SIZE (211) |
| SymTab.Hash | 3_Semantic/symtab.c:23-33 | the character loop computes HashOf, so it returns a bucket index below SIZE |
| SymTab.ChainIndex | 3_Semantic/symtab.c:48-49 | the index found holds the name and no earlier record does; when nothing is found, no record of the chain holds the name |
| SymTab.FindInChain | 3_Semantic/symtab.c:116-117 | the chain walk stops at the first record named `name`, or at the end of the chain |
| SymTab.FindInScope | 3_Semantic/symtab.c:96-103 | a record found in one scope is in that scope, in the name's bucket, and carries the name |
| SymTab.FindInScopeDeclares | 3_Semantic/symtab.c:94-107 | in a well-formed scope, looking in the name's bucket finds the name exactly when the scope holds it in any bucket |
| SymTab.LocateFrom | 3_Semantic/symtab.c:109-123 | a record found from scope `s` carries the name and lies in `s` or in a scope created before it |
| SymTab.ScopeChain | 3_Semantic/symtab.c:112-121 | the scopes searched from `s`: `s` first, each entry's parent is the next, and the last has no parent |
| SymTab.LocateNoneIff | 3_Semantic/symtab.c:109-123 | lookup fails exactly when no scope on the parent chain declares the name |
| SymTab.LocateInnermost | 3_Semantic/symtab.c:109-123 | a successful lookup answers from the first scope on the parent chain that declares the name (shadowing) |
| SymTab.Inserted | 3_Semantic/symtab.c:43-70 | insertion keeps the number of scopes, and the scope's table size, name, parent and nesting level |
| SymTab.PrependedFinds | 3_Semantic/symtab.c:50-61 | inserting a name the scope lacks keeps the table well formed; the scope then answers the name with the new record, at the head of its bucket |
| SymTab.PrependedKeepsOthers | 3_Semantic/symtab.c:50-61 | inserting one name changes no lookup of any other name, from any scope: the same success or failure and the same record |
| SymTab.PrependedKeepsFound | 3_Semantic/symtab.c:59-60 | prepending a record for one name leaves the record that another name finds in that scope unchanged |
| SymTab.PrependedKeepsAbsent | 3_Semantic/symtab.c:59-60 | prepending a record for one name does not change whether the scope holds any other name |
| SymTab.InsertKeepsTable | 3_Semantic/symtab.c:43-70 | either branch keeps the table well formed and only grows it; the scope then holds the name, under the new record if it was absent, and the table is unchanged if it was present |
| SymTab.WithLineEffect | 3_Semantic/symtab.c:83-92 | the record gets the line at the end of its list, earlier lines kept in order; every other record is unchanged |
| SymTab.WithLineKeepsLookups | 3_Semantic/symtab.c:83-92 | appending a use line keeps the table well formed and changes the answer of no lookup |
| SymTab.PrependedExtends | 3_Semantic/symtab.c:50-61 | insertion removes nothing: every earlier record keeps its name, node, location and lines |
| SymTab.WithLineExtends | 3_Semantic/symtab.c:83-92 | appending a line removes nothing and only lengthens one line list |
| SymTab.AppendScopeExtends | 3_Semantic/symtab.c:133 | adding a scope to the scope list leaves every earlier scope as it was |
| SymTab.ExtendsKeepsFind | 3_Semantic/symtab.c:43-92 | once a scope holds a name it keeps holding it, with the same node and location, whatever the table does afterwards |
| SymTab.ExtendsTrans | 3_Semantic/symtab.c:43-92 | growth composes: a table grown from one grown from `a` has grown from `a`, so a whole pass keeps every record |
| SymTab.CreatedAsWritten | 3_Semantic/symtab.c:126-136 | sc_create as written: the new scope's buckets are whatever memory it was given; the parent and level are set |
| SymTab.UnclearedScopeAnswersLookup | 3_Semantic/symtab.c:128-133 | a scope created from uncleared memory can answer a lookup for a name nobody declared |
| SymTab.Created | 3_Semantic/symtab.c:126-136 | a new scope has SIZE empty buckets and declares no name; its parent, level and function name are the given ones |
| SymTab.SymTab.constructor | 3_Semantic/symtab.c:35-36 | the table starts with no scopes and an empty stack |
| SymTab.SymTab.Top | 3_Semantic/symtab.c:138-143 | None (NULL) exactly on an empty stack; otherwise a valid scope index |
| SymTab.SymTab.Create | 3_Semantic/symtab.c:126-136 | appends an empty scope whose parent is the current top and whose level is the current depth; returns its index; the stack and counters are unchanged, and every earlier record survives |
| SymTab.SymTab.Push | 3_Semantic/symtab.c:151-155 | the scope becomes the top, with a fresh location counter at 0; the scope list is unchanged |
| SymTab.SymTab.Pop | 3_Semantic/symtab.c:145-149 | drops the top scope and its counter; does nothing on an empty stack; the scope list is unchanged |
| SymTab.SymTab.AddLocation | 3_Semantic/symtab.c:157-160 | returns the top level's counter and increments it, so successive calls after a push return 0, 1, 2, … |
| SymTab.SymTab.Insert | 3_Semantic/symtab.c:43-70 | the top scope gets the record at the head of its bucket if it lacked the name, and nothing changes if it held it; the stack and counters are unchanged, and every earlier record keeps its name, node, location and lines |
| SymTab.SymTab.GetBucket | 3_Semantic/symtab.c:109-123 | the answer of the parent-chain search from the top scope (Visible), None when no scope on the chain holds the name |
| SymTab.SymTab.Lookup | 3_Semantic/symtab.c:75-81 | -1 exactly when the name is visible nowhere; otherwise the location of the visible record |
| SymTab.SymTab.LookupTop | 3_Semantic/symtab.c:94-107 | -1 exactly when the top scope does not declare the name, whatever its parents hold; otherwise the top scope's record's location |
| SymTab.SymTab.AddLineno | 3_Semantic/symtab.c:83-92 | the visible record gets the line appended; every record keeps its name, node and location; requires the name to be visible |
| TypeRules.ConditionRejected | 3_Semantic/analyze.c:333-345 | a condition passes exactly when it is present and Integer or IntegerArray |
| TypeRules.ReturnRejectedAsWritten | 3_Semantic/analyze.c:346-352 | as written: a Void function must return nothing, an Integer function must return a value whose type is exactly Integer, and an IntegerArray function is never rejected |
| TypeRules.ReturnOfElementRejectedAsWritten | 3_Semantic/analyze.c:349-352 | as written, `return a[0];` in an int function is rejected although the element counts as Integer everywhere else |
| TypeRules.ReturnRejected | 3_Semantic/analyze.c:346-354 | a Void function must return nothing; an Integer function must return a value that is Integer once an indexed element counts as Integer |
| TypeRules.ReturnCorrectionOnlyForElements | 3_Semantic/analyze.c:349-352 | the corrected rule gives the as-written verdict on every return except an indexed array element in an Integer function |
| TypeRules.AssignType | 3_Semantic/analyze.c:362-371 | accepted exactly when both sides are Integer once indexed elements count as Integer; then the left side's type |
| TypeRules.OpType | 3_Semantic/analyze.c:372-391 | Integer exactly when both operands are Integer after decay, or both are unindexed arrays; rejected otherwise |
| TypeRules.OpTypeSymmetric | 3_Semantic/analyze.c:381-389 | the operator rule does not depend on the order of the operands |
| TypeRules.Indexable | 3_Semantic/analyze.c:405-411 | `x[i]` is allowed exactly on an array variable, an array parameter, or a symbol that is neither a declaration nor a parameter |
| TypeRules.CheckArgsFrom | 3_Semantic/analyze.c:435-461 | the argument loop from argument `i` on rejects, if at all, an argument at or after `i`, and calls a call short only when it has fewer arguments than the callee has parameters |
| TypeRules.CheckArgs | 3_Semantic/analyze.c:435-461 | the loop from the first argument: a rejected argument is one of the call's, and a short call has fewer arguments than parameters |
| TypeRules.CheckArgsVerdict | 3_Semantic/analyze.c:435-461 | a call is accepted exactly when every argument matches its parameter and no non-void parameter is left over; otherwise it is rejected at the first mismatch, or as short when all match |
| TypeRules.CheckArgsFromVerdict | 3_Semantic/analyze.c:435-461 | the same three outcomes for the loop started at any argument |
| TypeRules.ZeroArgumentShortCallAsWritten | 3_Semantic/analyze.c:458-461 | `f()` against `f(int x)` is short of arguments and, as written, has no first argument to report the error at |
| TypeRules.MissingArgumentsLine | 3_Semantic/analyze.c:458-461 | the short-call error line: the first argument's, as written, when there is one; the call's own line when there is none |
| Analyze.ArgNodes | 3_Semantic/analyze.c:426-456 | the argument list, first to last, along the sibling links until NULL |
| Analyze.ParamNodes | 3_Semantic/analyze.c:427-455 | the parameter list along the sibling links, up to the given length |
| Analyze.Operands | 3_Semantic/analyze.c:441-444 | the k-th operand is what the loop reads off the k-th argument: its type and whether it is indexed |
| Analyze.Lines | 3_Semantic/analyze.c:437-460 | the k-th line is the k-th node's line, where typeError reports an argument |
| Analyze.Params | 3_Semantic/analyze.c:441-458 | the k-th parameter is the k-th parameter node's type and whether its specifier is `void` |
| Analyze.CallDiagnostics | 3_Semantic/analyze.c:435-461 | a call reports at most one error, and none exactly when it is accepted or the rejected index lies past the argument list, which CallDiagnosticsNoneIff shows never happens |
| Analyze.CallDiagnosticsNoneIff | 3_Semantic/analyze.c:435-461 | a call's argument check reports nothing exactly when it accepts the call |
| Analyze.UndeclaredAt | 3_Semantic/analyze.c:54-61 | a call reports an undeclared function, any other use an undeclared variable, at the use's line |
| Analyze.RedefinedAt | 3_Semantic/analyze.c:63-72 | a function declaration reports a redefined function, a variable declaration a redefined variable, at its line |
| Analyze.InputNode | 3_Semantic/analyze.c:97-110 | the declaration of `int input(void)`: line 0, type Integer, an `int` type node, no parameter |
| Analyze.ArgParamNode | 3_Semantic/analyze.c:121-125 | the parameter `int arg`: scalar, typed Integer, with an `int` type node and no sibling |
| Analyze.OutputNode | 3_Semantic/analyze.c:115-135 | the declaration of `void output(int arg)`: line 0, type Void, a `void` type node, one Integer parameter `arg` |
| Analyze.InsertAtNextLocation | 3_Semantic/analyze.c:243 | the record goes in under the top level's next location, and that counter advances whether or not the name was new |
| Analyze.InsertBuiltins | 3_Semantic/analyze.c:112-137 | `input` and then `output` go into the top scope at line 0 under the next two locations |
| Analyze.InsertIOFuncNode | 3_Semantic/analyze.c:90-138 | the builtins' nodes have the shapes above and are inserted into the top scope under the next two locations; the stack is unchanged |
| Analyze.BuiltinsDeclared | 3_Semantic/analyze.c:112-137 | in a scope that lacked both names, `input` is then found at the first location and `output` at the next, each with use list [0] and its own node |
| Analyze.BuiltinsSurvive | 3_Semantic/analyze.c:282-289 | once the global scope declares `input` at location 0 and `output` at location 1, it keeps doing so, with the same nodes, however the table grows |
| Analyze.WalkArguments | 3_Semantic/analyze.c:435-461 | the argument loop gives the CheckArgs verdict; a rejection's line is the offending argument's; a short call's line is the first argument's, or the call's own when there is none |
| Analyze.MatchArguments | 3_Semantic/analyze.c:426-461 | on a call's own argument and parameter lists, the verdict is the one CheckArgs gives, and the error, if any, is exactly what CallDiagnostics gives |
| Analyze.Analyzer.constructor | 3_Semantic/analyze.c:15-18 | no global scope, no function name, flag down, nothing reported |
| Analyze.Analyzer.ReportTypeError | 3_Semantic/analyze.c:42-46 | records one type error at the line and raises the error flag |
| Analyze.Analyzer.ReportUndeclared | 3_Semantic/analyze.c:54-61 | records the undeclared-name error for the node's kind and raises the flag |
| Analyze.Analyzer.ReportRedefined | 3_Semantic/analyze.c:63-72 | records the redefinition error for the node's kind and raises the flag |
| Analyze.Analyzer.ReportNotGlobal | 3_Semantic/analyze.c:74-78 | records the function-not-global error and raises the flag |
| Analyze.Analyzer.ReportVoidVariable | 3_Semantic/analyze.c:80-84 | records the void-variable error and raises the flag |
| Analyze.Analyzer.EnterCompound | 3_Semantic/analyze.c:163-173 | a function body reuses the open scope and lowers the flag; any other block appends and pushes a new empty scope whose parent is the old top; the node records the top scope |
| Analyze.Analyzer.ResolveUse | 3_Semantic/analyze.c:181-191 | a name visible nowhere gives one undeclared error and leaves the table alone; a visible one gets the use line appended to its visible record, with no error |
| Analyze.Analyzer.DeclareFunction | 3_Semantic/analyze.c:199-225 | a name the top scope holds is reported redefined; outside the global scope the declaration is reported as not allowed; in both cases nothing is inserted or pushed; otherwise the function is inserted, its scope pushed, the flag raised and its type read off the specifier |
| Analyze.Analyzer.OpenFunction | 3_Semantic/analyze.c:211-224 | the function's record goes at the head of its bucket under the next location, a new scope named after it is appended and pushed, and the flag goes up |
| Analyze.Analyzer.DeclareVariable | 3_Semantic/analyze.c:226-248 | the type is set; a name the top scope lacks is inserted under the next location; a name it holds is reported redefined and its record left alone |
| Analyze.Analyzer.DeclareParam | 3_Semantic/analyze.c:253-267 | a `void` parameter, or one whose name is visible anywhere on the chain, changes nothing and reports nothing; any other is inserted and typed |
| Analyze.Analyzer.InsertNode | 3_Semantic/analyze.c:156-271 | only adds diagnostics, records and scopes, never removing or rewriting a record; a block pushes a scope unless the flag says its scope is open; a function declaration pushes one exactly when it raises the flag; nothing else touches the stack |
| Analyze.Analyzer.AfterInsertNode | 3_Semantic/analyze.c:273-277 | a compound statement pops the stack; nothing else changes it |
| Analyze.Analyzer.BuildTraverse | 3_Semantic/analyze.c:25-40 | pass 1 over a list leaves the stack as it found it, except for closing the waiting function scope at its body; every block visited records a valid scope; no record is removed or rewritten |
| Analyze.Analyzer.BuildNode | 3_Semantic/analyze.c:29-37 | the pre-order hook, the children, the post-order hook: the node and its slots hold valid scopes afterwards |
| Analyze.Analyzer.BuildBelow | 3_Semantic/analyze.c:32-37 | the children and then the post-order hook: a block ends with its scope popped |
| Analyze.Analyzer.BuildChildren | 3_Semantic/analyze.c:33-35 | the three slots in order; the stack returns to where it was unless the third slot is the body that closes the function's scope |
| Analyze.Analyzer.BuildLastChildren | 3_Semantic/analyze.c:33-35 | the second and third slots in order, with the same stack discipline |
| Analyze.Analyzer.BeforeCheckNode | 3_Semantic/analyze.c:291-318 | a function declaration sets the current function name; a block re-pushes the scope pass 1 recorded on it, with a fresh counter |
| Analyze.Analyzer.CheckCondition | 3_Semantic/analyze.c:333-345 | an error is reported exactly when ConditionRejected holds: at the statement for a missing condition, at the condition for a Void one |
| Analyze.Analyzer.CheckReturn | 3_Semantic/analyze.c:346-354 | one error at the statement exactly when ReturnRejected holds for the function `funcName` resolves to; on every return but an indexed array element this is exactly when ReturnRejectedAsWritten holds |
| Analyze.Analyzer.CheckAssign | 3_Semantic/analyze.c:362-371 | rejected at the left side exactly when AssignType fails, with the type left alone; otherwise the node takes AssignType's type |
| Analyze.Analyzer.CheckOp | 3_Semantic/analyze.c:372-391 | rejected at the operator exactly when OpType fails, with the type left alone; otherwise the node is Integer |
| Analyze.Analyzer.CheckIdentifier | 3_Semantic/analyze.c:395-415 | an unresolved name changes nothing; indexing a non-array is rejected; otherwise the node takes the declaring node's type |
| Analyze.Analyzer.CheckCall | 3_Semantic/analyze.c:416-465 | an unresolved name changes nothing; a non-function is an invalid expression; a function call reports exactly the argument-check diagnostics and takes the function's type whatever the outcome |
| Analyze.Analyzer.ResolveCall | 3_Semantic/analyze.c:418-425 | the declaring node of the visible record for the called name, None when there is none; looking up changes nothing the argument check reads |
| Analyze.Analyzer.CheckResolvedCall | 3_Semantic/analyze.c:423-464 | the three outcomes of a call once its name is resolved |
| Analyze.Analyzer.CheckCallTo | 3_Semantic/analyze.c:435-463 | the call reports the diagnostics CallDiagnostics gives for its argument check, and takes the function's type |
| Analyze.Analyzer.CheckVarDecl | 3_Semantic/analyze.c:473-485 | a `void` variable or array is reported; anything else reports nothing |
| Analyze.Analyzer.CheckNode | 3_Semantic/analyze.c:323-493 | only adds diagnostics; a block pops the scope and counter; no other node touches the stack; a constant is Integer |
| Analyze.Analyzer.CheckStmt | 3_Semantic/analyze.c:327-358 | a block pops its scope; the other statements only add diagnostics |
| Analyze.Analyzer.CheckExp | 3_Semantic/analyze.c:359-469 | an expression only adds diagnostics and leaves the symbol table alone; a constant is Integer with no error |
| Analyze.Analyzer.CheckTraverse | 3_Semantic/analyze.c:25-40 | pass 2 over a list pops every scope it pushes, so the stack, counters and scope list end as they began |
| Analyze.Analyzer.CheckOne | 3_Semantic/analyze.c:29-37 | one node in pass 2 leaves the stack, counters and scope list as it found them |
| Analyze.Analyzer.CheckBelow | 3_Semantic/analyze.c:32-37 | the children and then checkNode: a block ends with its re-pushed scope popped |
| Analyze.Analyzer.CheckChildren | 3_Semantic/analyze.c:33-35 | the three slots in order, with the stack returned to where it was |
| Analyze.Analyzer.CheckLastChildren | 3_Semantic/analyze.c:33-35 | the second and third slots in order, with the stack returned to where it was |
| Analyze.Analyzer.EnterGlobalScope | 3_Semantic/analyze.c:284-285 | an empty scope named "global" is appended, recorded as the global scope and pushed |
| Analyze.Analyzer.OpenGlobalScope | 3_Semantic/analyze.c:284-286 | the global scope is pushed and holds `input` at location 0 and `output` at location 1, both used at line 0, with the builtins' node shapes |
| Analyze.Analyzer.BuildSymtab | 3_Semantic/analyze.c:282-289 | pass 1 leaves the stack as it began and the flag down, records the global scope, and gives every block of the program a valid scope; the table only grows, and the global scope still declares `input` at location 0 and `output` at location 1 with their own nodes |
| Analyze.Analyzer.BuildInScope | 3_Semantic/analyze.c:287-288 | pass 1 inside the open scope, then one pop |
| Analyze.Analyzer.TypeCheck | 3_Semantic/analyze.c:498-503 | pass 2 only adds diagnostics and leaves the symbol table, stack and counters as they began |

## Left out

- The printers: the symbol-table listings of `symtab.c`, the tree printer of `util.c`, and the wording of the error messages.  Each reporter records a diagnostic (line and category) and raises the error flag.
- Allocation failure in the constructors and in `copyString`.  Allocation in Dafny does not fail.
- The `MAX_SCOPES` bound on the scope list and the stack.  They are growable sequences here, because C does not check the bound.
- Scopes are never freed, so a scope is named by its index in the scope list and a record by its position (scope, bucket, chain index).  The tree's `attr.scope` pointer is that index.
- Negative `char` codes in `hash`.  A Dafny `char` is never negative, and for non-negative codes `temp` stays below SIZE, so C's `int` never overflows.
- The unused `location` static of `analyze.c` and its increment in insertNode.  Nothing reads it.
- `symbolError` and `nullProc`.  Nothing calls either.
- The global `lineno` that the constructors read is a parameter.  Child slots, sibling, line, kind and type specifier are fixed when a node is made.  The parser and insertIOFuncNode fill them straight after `new*Node`, and the analyser never writes them.  `Linked` and the specifier parameter of `NewType` stand for that.
- The `funcName` static starts out as the empty string, where C has NULL.
- `traverse` takes function pointers in C.  Here it is written out once per pass (`BuildTraverse`, `CheckTraverse`) with its hooks inlined.
- Analyze.ArgNodes follows a sibling only while that sibling heads a smaller subtree.  On a tree that satisfies `Valid()` this is the whole list.
- In `checkNode` on a call, C tests `kind.decl` through the kind union even when the symbol is a parameter.  The model tests the node's kind, so every parameter is a non-function.
- Analyze.Analyzer.CheckReturn applies the corrected return rule, TypeRules.ReturnRejected, so `int f(int a[]) { return a[0]; }` passes where the code as written (TypeRules.ReturnRejectedAsWritten, analyze.c:349-351) reports "invalid return type".  Its contract states that the two rules agree on every other return.  The "## Findings" section explains the correction.
- Analyze.Analyzer.CheckReturn skips the check when `funcName` resolves to nothing, where C dereferences NULL.  Pass 1 always declares the function first.
- Analyze.VoidParam treats a parameter node without a type child as non-`void`.  C dereferences NULL there, and the parser never builds such a node.
- Analyze.WalkArguments reports the offending argument after the loop instead of inside it.  The diagnostics and their order are the same.
- Analyze.Analyzer.DeclareParam: parameters follow the code.  A parameter is inserted only when its name is visible nowhere on the scope chain (`st_lookup`), not only when it is absent from the function's scope.  So a parameter that shadows a global name is dropped without a diagnostic or a type.
- Analyze.Analyzer.TypeCheck requires that pass 1 ran first (a global scope exists).  C would push NULL.
- Analyze.MatchArguments and Analyze.Analyzer.CheckCall state their result on the argument and parameter lists as they were when the call was checked.
- Analyze.Analyzer.OpenGlobalScope states where the builtins are recorded and their shapes, not that their nodes head well-formed trees.
- Analyze.Analyzer.BuildSymtab states the stack discipline, the block attachment and the growth of the table in pass 1, and that the builtins survive it, not the full content of the resulting table.  The per-node methods state what each declaration and use adds.

## Findings

| source | as written | input that shows it | evidently intended | confidence | as-written member | corrected member |
|---|---|---|---|---|---|---|
| 3_Semantic/symtab.c:128-133 | sc_create takes the scope from malloc and never clears its 211 buckets | memory left over from an earlier allocation holding a record for "x" in the bucket of "x": the new scope answers a lookup for "x" | every bucket of a new scope starts empty | not executed | SymTab.UnclearedScopeAnswersLookup | SymTab.Created |
| 3_Semantic/analyze.c:349-352 | the return rule compares the value's type without letting an indexed array element count as Integer | `int f(int a[]) { return a[0]; }` is rejected with "invalid return type" | an indexed element counts as Integer, as in the assignment, operator and call rules | not executed | TypeRules.ReturnOfElementRejectedAsWritten | TypeRules.ReturnRejected |
| 3_Semantic/analyze.c:458-461 | the short-call error is reported at `t->child[0]`, which is NULL when the call has no argument | `void f(int x) { } … f();` dereferences NULL | report at the call's own line | not executed | TypeRules.ZeroArgumentShortCallAsWritten | TypeRules.MissingArgumentsLine |
