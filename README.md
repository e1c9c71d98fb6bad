# pyrefchecker, modelled in Dafny

pyrefchecker reports references in Python code that may be undefined when
they run. Its block-scope provider walks the module and gives every `for`,
`if`/`elif`/`else` and `try`/`except`/`else`/`finally` block one of two
treatments:

- a block scope of its own, under the current scope, so that names bound in
  it do not reach the code after the statement;
- no scope of its own, so that it binds directly in the current scope.

A block is *terminal* when one of its statement lines is a `raise`,
`return`, `break` or `continue`, or calls a function that never returns. The
rules are these:

- `for`: the target and the iterable go in the current scope. The body gets
  a block scope, and an `else` gets a second one.
- `if` whose test is a `TYPE_CHECKING` guard, with no `elif` or `else`: the
  body goes in the current scope.
- `if` whose chain ends in an `else` that is terminal: the body and every
  `elif` and `else` body go in the current scope.
- any other `if`: the body gets a block scope. Each `elif` is treated as an
  `if` of its own, and a final `else` goes in the current scope.
- `try` body: in the current scope when every handler is terminal (or there
  is none), in a block scope otherwise.
- `except` handlers: a lone handler goes in the current scope. With several,
  each gets a block scope of its own.
- `try`-`else`: the `else` gets a block scope, in which the `try` body is
  walked a second time and then the `else` body.
- `finally`: in the current scope.

The provider's result is a map from each node to the scope it was visited
in, and `check` works on the set of that map's values. Walking the `try`
body a second time moves its nodes to the new scopes, so the scopes of the
first walk no longer hold any node. The model keeps the table of all scopes
and marks those as *superseded*. The list `check` reads has an empty entry
for each superseded scope.

Once every access is resolved along its parent chain, `check` turns each
access left without referents into a warning, with these exceptions:

- always-defined module dunders are skipped;
- lines that carry a `ref: ignore` comment are silenced;
- a file holding an `import *` gives up with a single warning.

The model has one Dafny module per concern.

- `Syntax` is a small syntax tree with node ids. It covers statements,
  suites, `if` chains, `except` handlers, expressions and the small
  statements. `Wrappers` holds `Option` and `Result`.
- `Scopes` is the scope table. It holds:
  - records with a parent index, a kind, an optional name, bindings and
    accesses;
  - resolution of accesses along parent chains;
  - the qualified-name computation for non-import bindings, as a function
    and as the loop the source runs.
- `AstUtils` is the termination classifier (`is_terminal`,
  `is_exit_expression`, `is_conditional_typing_import`,
  `is_truth_comparison`), written as predicates.
- `BlockScopeWalk` is the functional specification of the visitor: a
  `Walk...` function per construct, from one state (table plus current-scope
  cursor) to the next.
- `BlockScopePolicy` holds the policy theorems. They say which bindings
  reach the enclosing scope, and which bindings cannot influence it, for each
  construct.
- `BlockScopeSeparation` bounds what each block can bind. It shows that
  separate handlers, and a `for` body and its `else`, get distinct scopes
  that do not see each other's bindings.
- `BlockScopeProvider` holds the `BlockScopeVisitor` class. Its fields are
  the table and the cursor. Each visit method moves the cursor into fresh
  block scopes and back, and is proved to produce exactly the state the
  walk describes. The module also holds the provider's whole-module result.
- `TreeLeaves` lists the comments and `import *` nodes of a tree, in
  visiting order.
- `IgnoreComments` and `ImportStars` are the two metadata providers, as
  classes that fill a metadata map, with the set and the flag `check`
  derives from them.
- `AccessOrder` is the order in which a scope's accesses are iterated.
  libcst keeps them as a map from name to a set of accesses, so they come
  grouped by name, with the names in the order of their first access.
- `Check` holds the warnings, their text (`__str__`, including the `{:2d}`
  field), and `check` as a nested loop proved against a fold.
- `Scenarios` holds test cases from the repository, worked through the
  whole model, and the qualified names of a small nested table.

## Model

| member | source | states |
|---|---|---|
| BlockScopeProvider.BlockScopeVisitor.VisitFor | pyrefchecker/block_scope_provider.py:75-88 | The new table and cursor are those of `WalkFor` on the old state. The target is bound and the iterable visited in the current scope. The body goes into a fresh block scope, and the `else` into a second one. The cursor is back on the starting scope. |
| BlockScopePolicy.ForConfinesBody | pyrefchecker/block_scope_provider.py:75-88 | A name is unbound in the enclosing scope before a `for` and is not one of its targets. Then it is still unbound there afterwards, whatever the body or the `else` binds. |
| BlockScopeProvider.BlockScopeVisitor.VisitIf | pyrefchecker/block_scope_provider.py:90-130 | The new state is `WalkIf` of the old. The method runs both `while orelse` loops of the source. The first looks for the final `else` and asks whether it is terminal. The second visits every `elif`/`else` body in the current scope. |
| BlockScopePolicy.TypingGuardBindsInScope | pyrefchecker/block_scope_provider.py:92-96 | For a `TYPE_CHECKING` guard, every name its body binds directly ends up bound in the enclosing scope. |
| BlockScopePolicy.TerminalElseBindsInScope | pyrefchecker/block_scope_provider.py:98-122 | When the `elif` chain ends in a terminal `else`, the direct bindings of the `if` body and of every `elif` and `else` body land in the enclosing scope. |
| BlockScopePolicy.IfBodyConfined | pyrefchecker/block_scope_provider.py:123-128 | When there is no guard and no terminal final `else`, the enclosing scope after the `if` is the same for any two bodies. The body is confined to its block scope. |
| BlockScopeProvider.BlockScopeVisitor.VisitTry | pyrefchecker/block_scope_provider.py:132-179 | The new state is `WalkTry` of the old. The method runs the body phase, then the handler phase, then the `else`/`finally` phase. |
| BlockScopeProvider.BlockScopeVisitor.VisitTryBody | pyrefchecker/block_scope_provider.py:135-148 | The body is walked in the current scope exactly when every handler is terminal, or there is none, and in a block scope otherwise. The method does this as a loop over the handlers. When an `else` follows, it marks the scopes of this walk superseded. |
| BlockScopeWalk.WalkTryBody | pyrefchecker/block_scope_provider.py:134-172 | The walk extends the state. When the `try` has an `else`, every scope this first walk of the body opens is superseded, because the `else` walks the body again. |
| BlockScopeProvider.BlockScopeVisitor.VisitTryHandlers | pyrefchecker/block_scope_provider.py:150-163 | With exactly one handler, it is walked in the current scope. Otherwise the method loops over the handlers, each walked in a block scope of its own. |
| BlockScopeProvider.BlockScopeVisitor.VisitTryFinish | pyrefchecker/block_scope_provider.py:165-177 | The `else` gets a block scope, in which the `try` body is walked again and then the `else` body. `finally` is walked in the current scope. |
| BlockScopePolicy.TerminalHandlersBodyInScope | pyrefchecker/block_scope_provider.py:135-143 | When all handlers are terminal, the direct bindings of the `try` body land in the enclosing scope. |
| BlockScopePolicy.TryBodyConfined | pyrefchecker/block_scope_provider.py:144-148 | When some handler is not terminal, the enclosing scope after the whole `try` is the same for any two bodies. |
| BlockScopePolicy.SingleHandlerBindsInScope | pyrefchecker/block_scope_provider.py:150-154 | With a single handler, its body's direct bindings and its `as` name land in the enclosing scope. |
| BlockScopePolicy.HandlersConfined | pyrefchecker/block_scope_provider.py:156-163 | With zero handlers or several, the handler phase leaves the enclosing scope's record unchanged. |
| BlockScopeSeparation.HandlersInOwnScopes | pyrefchecker/block_scope_provider.py:156-163 | With zero handlers or several, each handler gets a fresh block scope directly below the current one. The scopes are distinct and in handler order. Each binds its handler's `as` name and direct bindings, and nothing that handler's text could not bind. |
| BlockScopeSeparation.HandlersSeparate | pyrefchecker/block_scope_provider.py:156-163 | Take a name that handler m cannot bind and that the enclosing chain does not bind. Then it is unbound on the whole chain of m's scope, even if another handler binds it. |
| BlockScopeSeparation.StmtBounded | pyrefchecker/block_scope_provider.py:75-177 | Walking a statement adds to the current scope only names the statement's text could bind. |
| BlockScopeSeparation.ForScopes | pyrefchecker/block_scope_provider.py:79-86 | The `for` body and its `else` get two distinct fresh block scopes directly below the current one. Each binds its block's direct bindings, and nothing its block could not bind. |
| BlockScopeSeparation.ForSeparate | pyrefchecker/block_scope_provider.py:79-86 | Take a name that the body (or the `else`) cannot bind and that the enclosing chain does not bind after the loop. Then it is unbound on the whole chain of that block's scope, whatever the other block binds. |
| BlockScopePolicy.AnnotationsInEnclosingScope | pyrefchecker/block_scope_provider.py:72 | After a `def`, the enclosing record is what binding the function's name and then walking the parameter annotations and the return annotation there gives. The body adds nothing to it. |
| BlockScopePolicy.TryElseSeesBody | pyrefchecker/block_scope_provider.py:165-172 | A `try`-`else` creates a new block scope under the enclosing one. It holds the direct bindings of the `try` body and of the `else` body. |
| BlockScopePolicy.TryElseScope | pyrefchecker/block_scope_provider.py:165-172 | That block scope is at the first free index of the table, and the enclosing scope is its parent. |
| BlockScopePolicy.FinallyBindsInScope | pyrefchecker/block_scope_provider.py:174-177 | The `finally` body's direct bindings land in the enclosing scope. |
| BlockScopeProvider.BlockScopeVisitor.VisitModule | pyrefchecker/block_scope_provider.py:15-19 | The table is the walk of the module's statements with every access resolved. The cursor is restored. |
| BlockScopeProvider.ModuleScopes | pyrefchecker/block_scope_provider.py:15-19 | The provider's table is well formed and rooted: builtin scope, then global scope, then the rest. An access has no referents exactly when no scope on its parent chain binds its name. |
| BlockScopeProvider.ProvideScopes | pyrefchecker/block_scope_provider.py:15-19 | Running the visitor object over a module yields `ModuleNodeScopes`: the scopes of `ModuleScopes` past the builtin scope, with an empty entry for each superseded scope. |
| BlockScopeProvider.ModuleSuperseded | pyrefchecker/check.py:76 | The superseded scopes, which no node maps to, all lie past the global scope, inside the table. |
| BlockScopeProvider.NodeScopes | pyrefchecker/check.py:76 | The entry for each scope past the builtin scope is empty exactly when the scope is superseded, and holds the scope otherwise. |
| Scopes.FindQualifiedNameForNonImport | pyrefchecker/block_scope_provider.py:26-52 | The loop over the parent chain, which appends segments, returns what `QualifiedNameForNonImport` specifies. That includes the "Unexpected Scope" failure. |
| Scopes.QualifiedNameForNonImport | pyrefchecker/block_scope_provider.py:49-52 | On success, the result is a single name whose source is LOCAL. |
| Scopes.BlockScopeTransparent | pyrefchecker/block_scope_provider.py:43-44 | A binding in a block scope gets the same qualified name as a binding in its parent. |
| Scopes.RootedNeverUnexpected | pyrefchecker/block_scope_provider.py:45-46 | On a rooted table, no scope below the builtin scope raises "Unexpected Scope". |
| BlockScopeProvider.NoUnexpectedScope | pyrefchecker/block_scope_provider.py:45-46 | For every scope of the provider's table except the builtin scope, the qualified name is computed without error. |
| Scenarios.NestedQualifiedName | pyrefchecker/block_scope_provider.py:33-52 | Take a binding `x` in a comprehension, inside a block, inside method `m` of class `C`. It qualifies as `C.m.<locals>.<comprehension>.x`. |
| Scenarios.EmptyNamesAddNothing | pyrefchecker/block_scope_provider.py:34-51 | A class with an empty name adds no segment. An empty remaining name adds no part. |
| Scenarios.BuiltinScopeUnexpected | pyrefchecker/block_scope_provider.py:45-46 | Asking from the builtin scope fails with "Unexpected Scope". |
| AstUtils.TerminalIgnoresCompound | pyrefchecker/ast_utils.py:66-67 | Adding or removing a compound statement in a block never changes whether the block is terminal. |
| AstUtils.OneLineSuiteNeverTerminal | pyrefchecker/ast_utils.py:66-75 | A one-line suite such as `else: raise` is never terminal, because it holds no statement lines. |
| AstUtils.TerminalMonotone | pyrefchecker/ast_utils.py:56-75 | A block found terminal when looking a given depth into callees stays terminal when looking deeper. |
| AstUtils.ExitExpressionMonotone | pyrefchecker/ast_utils.py:9-53 | The same holds for exit expressions. |
| AstUtils.ImportedExitCallIsExit | pyrefchecker/ast_utils.py:18-26 | A call whose callee has a qualified name `sys.exit` or `os._exit` from an import is an exit expression. |
| AstUtils.NoReturnCalleeIsExit | pyrefchecker/ast_utils.py:29-45 | A call to a function bound in the scope with a `typing.NoReturn` return annotation is an exit expression, without looking into any body. |
| AstUtils.BareRaiseCalleeIsNotExit | pyrefchecker/ast_utils.py:47-53 | A callee whose body is a bare `raise` is terminal as a block, but a call to it is not an exit expression. |
| AstUtils.TypingGuardHasNoElse | pyrefchecker/ast_utils.py:83-84 | An `if` with an `elif` or `else` is never a `TYPE_CHECKING` guard. |
| AstUtils.TruthComparisonGuard | pyrefchecker/ast_utils.py:86-96 | Take `x is True` or `x == True`, where the comparator resolves to exactly the builtin `True`. It is a guard exactly when `x` resolves to the imported `typing.TYPE_CHECKING`. |
| AstUtils.NotATruthComparison | pyrefchecker/ast_utils.py:101-112 | A comparator that resolves to any other name leaves the whole comparison as the tested expression. |
| Check.ToString | pyrefchecker/check.py:20-47 | The text of each warning kind starts with that kind's fixed prefix. It ends with the reference and a backtick, or is exactly the import-star text. |
| Check.Width2RoundTrip | pyrefchecker/check.py:28-29 | The `{:2d}` field, with its padding removed, is the decimal of the number and reads back as it. |
| Check.ToStringInjective | pyrefchecker/check.py:20-47 | Two warnings with the same text are the same warning. |
| Check.AccessWarnings | pyrefchecker/check.py:107-122 | An access gives at most one warning. It gives the unlocated warning exactly when it is unresolved, not a dunder and has no position. It gives a located warning at line l, column c exactly when it is unresolved, not a dunder, starts at (l, c), and l is not ignored. |
| Check.CheckMetadata | pyrefchecker/check.py:94-124 | The loop over scopes, with the inner loop over each present scope's accesses in iteration order, returns the fold `Warnings`. |
| Check.CheckAccesses | pyrefchecker/check.py:106-123 | The inner loop over a scope's accesses returns the warnings of those accesses, in the order they are iterated. |
| AccessOrder.ByNamePermutation | pyrefchecker/check.py:106 | Iterating a scope's accesses visits each recorded access exactly once: the order is a permutation of the recorded accesses. |
| AccessOrder.ByNameGrouped | pyrefchecker/check.py:106 | The accesses come grouped by name: between two accesses to one name there is none to another name. |
| AccessOrder.ByNameFirstOrder | pyrefchecker/check.py:106 | The names come in the order of their first access: for two names, one's first access is iterated before the other's exactly when it was recorded first. |
| AccessOrder.DistinctNamesByName | pyrefchecker/check.py:106 | When every access is to a different name, the accesses are iterated in recording order. |
| AccessOrder.ByNameWithinName | pyrefchecker/check.py:106 | The accesses to one name are iterated in the order they were recorded. libcst fixes no order there; see "Left out". |
| AccessOrder.InterleavedNames | pyrefchecker/check.py:106 | For `print(a)`, `print(b)`, `print(a)`, both accesses to `a` are iterated before the one to `b`. |
| Check.EntryMember | pyrefchecker/check.py:103-123 | One scope reports a warning exactly when one of its recorded accesses gives it; a missing entry reports nothing. |
| Check.ScopeWarningsGrouped | pyrefchecker/check.py:103-123 | The warnings of one scope come grouped by name: between two warnings about one name there is none about another. |
| Check.ByNameWarningsMember | pyrefchecker/check.py:106-123 | A scope iterated by name reports exactly the warnings its accesses give in recording order: the order does not change what is reported. |
| Check.Warnings | pyrefchecker/check.py:100-101 | With the import-star flag set, the result is exactly the single import-star warning. |
| Check.AccessesWarningsAppend | pyrefchecker/check.py:106-123 | Warnings follow the order in which their accesses are iterated: two consecutive runs of accesses give the first run's warnings, then the second's. |
| Check.AccessesWarningsBound | pyrefchecker/check.py:106-123 | A scope gives no more warnings than it has accesses. |
| Check.ScopesWarningsMember | pyrefchecker/check.py:103-123 | A warning is reported exactly when some access of a present scope gives it. Missing entries are skipped. |
| Check.RefWarningIff | pyrefchecker/check.py:115-122 | A located warning is reported exactly for an unresolved, non-dunder access that starts at its position, on a line with no ignore comment. |
| Check.NoLocationRefWarningIff | pyrefchecker/check.py:110-114 | The unlocated warning is reported exactly for an unresolved, non-dunder access with no position. Ignored lines do not apply to it. |
| Check.WarningsExclude | pyrefchecker/check.py:100-122 | No reported warning names a dunder or sits on an ignored line. The import-star warning is reported exactly when the flag is set. |
| Check.CheckModule | pyrefchecker/check.py:93-124 | Collecting the metadata with the three providers and then checking yields `Warnings` of the module's metadata. |
| Check.ModuleReportsUnresolved | pyrefchecker/check.py:103-122 | A located access in a scope that is not superseded is reported if all of these hold: no scope on its chain binds the name; the name is not a dunder; the module has no `import *`; the line carries no ignore comment. |
| Check.ResolvedReportsNothing | pyrefchecker/check.py:103-123 | When every access of every present scope has referents and there is no `import *`, nothing is reported. |
| Check.ImportStarModuleWarnings | pyrefchecker/check.py:100-101 | A module with a top-level statement containing an `import *` reports only the import-star warning. |
| IgnoreComments.IgnoreCommentProvider.VisitComment | pyrefchecker/ignore_comment_provider.py:12-17 | The comment's own start line is recorded exactly when its text contains `ref: ignore`. Otherwise the map is unchanged. |
| IgnoreComments.IgnoredLines | pyrefchecker/check.py:83 | Running the provider over a tree's comments and taking the set of recorded values yields the start lines of the comments that hold the marker. |
| IgnoreComments.MarkerAnywhere | pyrefchecker/ignore_comment_provider.py:13 | The marker matches with any text before or after it. |
| IgnoreComments.ShortTextNeverMatches | pyrefchecker/ignore_comment_provider.py:13 | A comment shorter than the marker never matches. |
| IgnoreComments.IgnoredLinesAppend | pyrefchecker/ignore_comment_provider.py:12-17 | The ignored lines of consecutive stretches of the tree are the union of each stretch's lines. |
| IgnoreComments.NoCommentsNoIgnoredLines | pyrefchecker/ignore_comment_provider.py:12 | Without comment nodes no line is ignored, whatever the string literals say. |
| ImportStars.ImportStarProvider.VisitImportStar | pyrefchecker/import_star_provider.py:10-11 | The `import *` node is marked `True`. No other entry changes. |
| ImportStars.ImportStarFlag | pyrefchecker/check.py:88 | Running the provider over a tree, the map is non-empty exactly when the tree holds an `import *`. |
| ImportStars.ImportStarAppend | pyrefchecker/import_star_provider.py:10-11 | One `import *` anywhere in consecutive stretches of the tree sets the flag for the whole. |
| ImportStars.ImportStarStatementFlagsModule | pyrefchecker/import_star_provider.py:10-11 | A statement holding an `import *` flags every module that contains the statement at top level. |
| TreeLeaves.StmtLeavesInside | pyrefchecker/import_star_provider.py:10-11 | A statement's comments and `import *` nodes appear contiguously, in order, among those of any statement list holding it. |
| Scenarios.IfBodyBindingStaysInside | tests/test_pyrefchecker.py:23-29 | `if True: a = 1` followed by `print(a)` gives exactly one warning, at line 4, column 6, for `a`. |
| Scenarios.IgnoreCommentSilencesLine | tests/test_pyrefchecker.py:205-212 | With `# ref: ignore` on the `print(a)` line, no warning is reported. |
| Scenarios.TryElseReportsOnce | pyrefchecker/block_scope_provider.py:165-172 | In `try: print(x)` / `except: pass` / `else: pass`, the body is walked twice. The unresolved `x` is reported once, at line 2, column 10, because the first walk's scope is superseded. |
| Scenarios.HandlerBindingReachesAfter | tests/test_pyrefchecker.py:59-69 | A name bound by a lone non-terminal handler is bound after the `try`, so `print(a)` is reported nowhere. |

## Left out

- Parsing, libcst's `MetadataWrapper` and the position provider are not part of this model. The tree is a datatype with node ids, and positions are a partial map from node id to range, supplied by the caller.
- libcst's base `ScopeVisitor` is replaced by a simplified recorder:
  - `Name` loads become accesses;
  - assignment and `for` targets, imports (aliases), `except ... as` names, function and class definitions, and parameters become bindings;
  - functions, classes, lambdas and comprehensions open scopes of their own.

  Lambda and comprehension scopes carry no name, as `get_full_name_for_node` gives none for them. Decorators, default values, `global`/`nonlocal`, walrus targets, string annotations and the other expression forms are not modelled.
- Resolution is simplified to the first scope on the parent chain that binds the name. It ignores the filtering of bindings that come later in the file.
- It also ignores libcst's rule that a class scope is skipped when a name is looked up from any scope nested inside it. That includes the block scopes this provider adds, not only functions. For example, in `class C:` / `    x = 1` / `    for i in range(3):` / `        print(x)`, the source reports `x` and the model resolves it in `C`.
- The provider's node-to-scope map is not kept node by node. The model keeps the whole table and marks as superseded the scopes no node maps to any more. Only the second walk of a `try` body under an `else` creates such scopes.
- libcst visits each parameter's annotation just before it opens the function scope for that parameter. The model walks all parameter annotations first, then opens the function scope. The table holds the same records, but a lambda or comprehension inside an annotation gets its table index before the function's scope rather than after it.
- The qualified-name subsystem (`get_qualified_names_for`) is an oracle: a given map from (scope, node) to qualified names. The block-scope-aware qualified-name function is modelled and proved, but it is not connected to the oracle.
- `monkeypatch_nameutil` patches a library class globally. It is replaced by a native `BlockScope` kind, which the qualified-name function handles directly.
- `AstUtils.IsExitExpression`: the source's search into a callee's body does not end when a function calls itself. The model spends one unit of fuel per callee body, from `Oracle.exitFuel`, and answers "not an exit" when the fuel runs out. So the model does not claim the source terminates.
- `AstUtils.OwnAssignmentsFor` reads only the scope's own bindings of the callee's name (`Scope.assignments`), in the scope the question is asked in. The model keeps that scope for the callee's body rather than the scope of the assignment. The two are the same here, because the binding was found in that scope.
- Only trailing comments are modelled: those of a simple statement line and of a one-line suite. Comments on lines of their own, and comments inside brackets, are not.
- The source iterates the set of scopes in no fixed order. The model fixes one: table order, the order in which scopes were created.
- AccessOrder.ByNameWithinName: states a choice of the model, not a promise of the source. Within one scope, libcst iterates the accesses to one name in a set's order, which is not fixed; the model keeps the order they were recorded in. So the claims about the source are membership (`Check.ScopesWarningsMember`), at most one warning per access, and the grouping of a scope's warnings by name in first-access order. The order of warnings for accesses to the same name, and the order across scopes, are not claims about the source.
- An unlocated warning arises in the model only from a node without a position. The repository's string-annotation case (tests/test_pyrefchecker.py:173-180) is not produced, because string annotations are not parsed.
- `Check.ModuleReportsUnresolved` states only the direction "all conditions hold, so the warning is reported" for a module. The two-way statement is `Check.RefWarningIff`, on the collected metadata.
- The command line, the process pool, time-outs and output (pyrefchecker/bin.py, pyrefchecker/bin/) are I/O and concurrency and are not part of this model. Neither is file discovery, the `re` wrapper or loading `pyproject.toml` (pyrefchecker/pyproject_provider.py).
