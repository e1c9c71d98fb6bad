/**
  The termination classifier: does a block leave the enclosing control flow
  unconditionally, and does a call never return?  All of it is a set of
  predicates over the syntax tree, the scope record the question is asked in,
  and the qualified-name oracle.

  A call can be found never-returning by looking into the body of the
  function it calls, whose calls can be looked into in turn; for a function
  that calls itself that search has no end.  Here each step into a callee's
  body spends one unit of `fuel`, and a search that runs out answers "not an
  exit".
*/
module AstUtils {
  import opened Wrappers
  import opened Syntax
  import opened Scopes

  /** `EXIT_NODES`: the small statements that leave the enclosing block. */
  predicate IsExitNode(item: SmallStatement)
  {
    item.Raise? || item.Return? || item.Continue? || item.Break?
  }

  /** `EXIT_FUNCTIONS`: the process-exit primitives. */
  const EXIT_FUNCTIONS: seq<string> := ["sys.exit", "os._exit"]

  const NO_RETURN := QualifiedName("typing.NoReturn", IMPORT)
  const TYPE_CHECKING := QualifiedName("typing.TYPE_CHECKING", IMPORT)
  const BUILTIN_TRUE := QualifiedName("builtins.True", BUILTIN)

  /** The callee resolves, through an import, to a process-exit primitive. */
  predicate CallsExitFunction(o: Oracle, s: ScopeId, func: Expr)
  {
    exists q | q in QualifiedNamesFor(o, s, func) :: q.name in EXIT_FUNCTIONS && q.source == IMPORT
  }

  /** `scope.assignments[func]`: the bindings, in the scope itself, of the name the callee spells. */
  function OwnAssignmentsFor(sc: Scope, func: Expr): seq<BaseAssignment>
  {
    match FullName(func)
    case None => []
    case Some(n) => AssignmentsNamed(sc.assignments, n)
  }

  /** An expression statement that is a call which never returns. */
  predicate IsExitExpression(o: Oracle, sc: Scope, s: ScopeId, item: SmallStatement, fuel: nat)
    decreases fuel, 2
  {
    && item.ExprStatement? && item.value.Call?
    && (|| CallsExitFunction(o, s, item.value.func)
        || exists a | a in OwnAssignmentsFor(sc, item.value.func) :: IsNeverReturningDef(o, sc, s, a, fuel))
  }

  /**
    A binding made by a function definition that is annotated to return
    `typing.NoReturn`, or whose body calls a never-returning function at top level.
  */
  predicate IsNeverReturningDef(o: Oracle, sc: Scope, s: ScopeId, a: BaseAssignment, fuel: nat)
    decreases fuel, 1
  {
    && a.Assignment? && a.node.FunctionDefNode?
    && (|| (a.node.returnAnnotation.Some? && NO_RETURN in QualifiedNamesFor(o, s, a.node.returnAnnotation.value))
        || (fuel > 0 && BodyHasExitExpression(o, sc, s, a.node.body, fuel - 1)))
  }

  /** Some item of a top-level simple statement line of the (indented) body is an exit expression. */
  predicate BodyHasExitExpression(o: Oracle, sc: Scope, s: ScopeId, body: Suite, fuel: nat)
    decreases fuel, 3
  {
    && body.IndentedBlock?
    && exists i, j | 0 <= i < |body.body| && body.body[i].SimpleStatementLine? && 0 <= j < |body.body[i].items| ::
         IsExitExpression(o, sc, s, body.body[i].items[j], fuel)
  }

  /**
    A body is terminal when some item of one of its top-level simple statement
    lines is a `raise`, `return`, `continue` or `break`, or a never-returning
    call.  Compound statements in the body are not looked into, and a one-line
    suite has no statement lines at all.
  */
  predicate IsTerminal(o: Oracle, sc: Scope, s: ScopeId, body: Suite, fuel: nat)
  {
    && body.IndentedBlock?
    && exists i, j | 0 <= i < |body.body| && body.body[i].SimpleStatementLine? && 0 <= j < |body.body[i].items| ::
         IsExitNode(body.body[i].items[j]) || IsExitExpression(o, sc, s, body.body[i].items[j], fuel)
  }

  /** `x is True` or `x == True`: one comparison, against exactly the builtin `True`. */
  predicate IsTruthComparison(o: Oracle, s: ScopeId, test: Expr)
    requires test.Comparison?
  {
    && |test.comparisons| == 1
    && (test.comparisons[0].operator == Is || test.comparisons[0].operator == Equal)
    && QualifiedNamesFor(o, s, test.comparisons[0].comparator) == {BUILTIN_TRUE}
  }

  /** The expression a `TYPE_CHECKING` guard is recognised on. */
  function TestedExpression(o: Oracle, s: ScopeId, test: Expr): Expr
  {
    if test.Comparison? && IsTruthComparison(o, s, test) then test.left else test
  }

  /** An `if` without `elif`/`else` whose test is `typing.TYPE_CHECKING`, directly or compared to `True`. */
  predicate IsConditionalTypingImport(o: Oracle, s: ScopeId, node: IfNode)
  {
    node.orelse.NoElse? && TYPE_CHECKING in QualifiedNamesFor(o, s, TestedExpression(o, s, node.test))
  }

  // ---------------------------------------------------------------------
  // Properties
  // ---------------------------------------------------------------------

  /** Looking deeper into callees never turns an exit expression into a non-exit one. */
  lemma {:induction false} ExitExpressionMonotone(o: Oracle, sc: Scope, s: ScopeId, item: SmallStatement, f1: nat, f2: nat)
    requires f1 <= f2 && IsExitExpression(o, sc, s, item, f1)
    ensures IsExitExpression(o, sc, s, item, f2)
    decreases f1, 2
  {
    if !CallsExitFunction(o, s, item.value.func) {
      var a :| a in OwnAssignmentsFor(sc, item.value.func) && IsNeverReturningDef(o, sc, s, a, f1);
      NeverReturningDefMonotone(o, sc, s, a, f1, f2);
    }
  }

  lemma {:induction false} NeverReturningDefMonotone(o: Oracle, sc: Scope, s: ScopeId, a: BaseAssignment, f1: nat, f2: nat)
    requires f1 <= f2 && IsNeverReturningDef(o, sc, s, a, f1)
    ensures IsNeverReturningDef(o, sc, s, a, f2)
    decreases f1, 1
  {
    if !(a.node.returnAnnotation.Some? && NO_RETURN in QualifiedNamesFor(o, s, a.node.returnAnnotation.value)) {
      BodyHasExitExpressionMonotone(o, sc, s, a.node.body, f1 - 1, f2 - 1);
    }
  }

  lemma {:induction false} BodyHasExitExpressionMonotone(o: Oracle, sc: Scope, s: ScopeId, body: Suite, f1: nat, f2: nat)
    requires f1 <= f2 && BodyHasExitExpression(o, sc, s, body, f1)
    ensures BodyHasExitExpression(o, sc, s, body, f2)
    decreases f1, 3
  {
    var i, j :| 0 <= i < |body.body| && body.body[i].SimpleStatementLine? && 0 <= j < |body.body[i].items|
             && IsExitExpression(o, sc, s, body.body[i].items[j], f1);
    ExitExpressionMonotone(o, sc, s, body.body[i].items[j], f1, f2);
  }

  /** A body found terminal with some fuel stays terminal with more. */
  lemma TerminalMonotone(o: Oracle, sc: Scope, s: ScopeId, body: Suite, f1: nat, f2: nat)
    requires f1 <= f2 && IsTerminal(o, sc, s, body, f1)
    ensures IsTerminal(o, sc, s, body, f2)
  {
    var i, j :| 0 <= i < |body.body| && body.body[i].SimpleStatementLine? && 0 <= j < |body.body[i].items|
             && (IsExitNode(body.body[i].items[j]) || IsExitExpression(o, sc, s, body.body[i].items[j], f1));
    if !IsExitNode(body.body[i].items[j]) {
      ExitExpressionMonotone(o, sc, s, body.body[i].items[j], f1, f2);
    }
  }

  /**
    A compound statement in a body never decides whether the body is terminal,
    whatever it contains: removing it leaves the answer unchanged.
  */
  lemma TerminalIgnoresCompound(o: Oracle, sc: Scope, s: ScopeId, before: seq<Stmt>, c: Stmt, after: seq<Stmt>, fuel: nat)
    requires !c.SimpleStatementLine?
    ensures IsTerminal(o, sc, s, IndentedBlock(before + [c] + after), fuel)
        <==> IsTerminal(o, sc, s, IndentedBlock(before + after), fuel)
  {
    var long := before + [c] + after;
    var short := before + after;
    if IsTerminal(o, sc, s, IndentedBlock(long), fuel) {
      var i, j :| 0 <= i < |long| && long[i].SimpleStatementLine? && 0 <= j < |long[i].items|
               && (IsExitNode(long[i].items[j]) || IsExitExpression(o, sc, s, long[i].items[j], fuel));
      var k := if i < |before| then i else i - 1;
      assert long[i] == short[k];
    }
    if IsTerminal(o, sc, s, IndentedBlock(short), fuel) {
      var i, j :| 0 <= i < |short| && short[i].SimpleStatementLine? && 0 <= j < |short[i].items|
               && (IsExitNode(short[i].items[j]) || IsExitExpression(o, sc, s, short[i].items[j], fuel));
      var k := if i < |before| then i else i + 1;
      assert short[i] == long[k];
    }
  }

  /** A one-line suite (`else: raise`) is never terminal: it holds no statement lines. */
  lemma OneLineSuiteNeverTerminal(o: Oracle, sc: Scope, s: ScopeId, items: seq<SmallStatement>, trailing: Option<Comment>, fuel: nat)
    ensures !IsTerminal(o, sc, s, SimpleStatementSuite(items, trailing), fuel)
  {
  }

  /** A call whose callee resolves, through an import (aliased or not), to an exit primitive. */
  lemma ImportedExitCallIsExit(o: Oracle, sc: Scope, s: ScopeId, id: NodeId, call: Expr, fuel: nat, q: QualifiedName)
    requires call.Call? && q in QualifiedNamesFor(o, s, call.func) && q.source == IMPORT
    requires q.name == "sys.exit" || q.name == "os._exit"
    ensures IsExitExpression(o, sc, s, ExprStatement(id, call), fuel)
  {
  }

  /** A call to a function defined in the scope with a `typing.NoReturn` annotation is an exit, with no fuel needed. */
  lemma NoReturnCalleeIsExit(o: Oracle, sc: Scope, s: ScopeId, id: NodeId, call: Expr, def: BaseAssignment)
    requires call.Call? && def in sc.assignments && FullName(call.func) == Some(def.name)
    requires def.Assignment? && def.node.FunctionDefNode? && def.node.returnAnnotation.Some?
    requires NO_RETURN in QualifiedNamesFor(o, s, def.node.returnAnnotation.value)
    ensures IsExitExpression(o, sc, s, ExprStatement(id, call), 0)
  {
    assert def in OwnAssignmentsFor(sc, call.func);
  }

  /**
    A callee whose body is a bare `raise` is terminal as a block, but a call
    to it is not an exit expression: only calls in the callee's body count.
  */
  lemma BareRaiseCalleeIsNotExit(o: Oracle, sc: Scope, s: ScopeId, id: NodeId, call: Expr, fuel: nat)
    requires call.Call? && !CallsExitFunction(o, s, call.func)
    requires forall a | a in OwnAssignmentsFor(sc, call.func) ::
               a.Assignment? && a.node.FunctionDefNode? && a.node.returnAnnotation.None?
               && a.node.body.IndentedBlock? && |a.node.body.body| == 1
               && a.node.body.body[0].SimpleStatementLine? && a.node.body.body[0].items == [Raise(id, None)]
    ensures !IsExitExpression(o, sc, s, ExprStatement(id, call), fuel)
    ensures forall a | a in OwnAssignmentsFor(sc, call.func) :: IsTerminal(o, sc, s, a.node.body, fuel)
  {
    forall a | a in OwnAssignmentsFor(sc, call.func)
      ensures !IsNeverReturningDef(o, sc, s, a, fuel)
      ensures IsTerminal(o, sc, s, a.node.body, fuel)
    {
      var b := a.node.body;
      assert IsExitNode(b.body[0].items[0]);
      assert forall i, j | 0 <= i < |b.body| && b.body[i].SimpleStatementLine? && 0 <= j < |b.body[i].items| ::
        b.body[i].items[j] == Raise(id, None);
      if fuel > 0 {
        assert !BodyHasExitExpression(o, sc, s, b, fuel - 1);
      }
    }
  }

  /** A guard with an `elif` or `else` is never a `TYPE_CHECKING` guard. */
  lemma TypingGuardHasNoElse(o: Oracle, s: ScopeId, node: IfNode)
    requires !node.orelse.NoElse?
    ensures !IsConditionalTypingImport(o, s, node)
  {
  }

  /** `TYPE_CHECKING is True` and `TYPE_CHECKING == True` are recognised like `TYPE_CHECKING`. */
  lemma TruthComparisonGuard(o: Oracle, s: ScopeId, id: NodeId, cmpId: NodeId, left: Expr, op: CompOp, comparator: Expr, body: Suite)
    requires op == Is || op == Equal
    requires QualifiedNamesFor(o, s, comparator) == {BUILTIN_TRUE}
    ensures IsConditionalTypingImport(o, s, IfNode(id, Comparison(cmpId, left, [ComparisonTarget(op, comparator)]), body, NoElse))
        <==> TYPE_CHECKING in QualifiedNamesFor(o, s, left)
  {
  }

  /** A comparator that resolves to anything besides the builtin `True` leaves the comparison itself tested. */
  lemma NotATruthComparison(o: Oracle, s: ScopeId, test: Expr, q: QualifiedName)
    requires test.Comparison? && |test.comparisons| == 1
    requires q != BUILTIN_TRUE && q in QualifiedNamesFor(o, s, test.comparisons[0].comparator)
    ensures TestedExpression(o, s, test) == test
  {
  }
}
