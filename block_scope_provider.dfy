/**
  The block-scope provider: a visitor object that keeps the scope table and
  a cursor on the current scope, moves the cursor in and out of fresh block
  scopes as it visits `for`, `if` and `try` statements, and records bindings
  and accesses into the current record.  Each visit method is proved to do
  exactly what the walk of `BlockScopeWalk` describes.
*/
module BlockScopeProvider {
  import opened Wrappers
  import opened Syntax
  import opened Scopes
  import opened AstUtils
  import opened BlockScopeWalk

  function BuiltinBindings(builtins: seq<string>): (r: seq<BaseAssignment>)
    ensures |r| == |builtins|
    ensures forall k | 0 <= k < |builtins| :: r[k] == BuiltinAssignment(builtins[k])
  {
    if builtins == [] then [] else [BuiltinAssignment(builtins[0])] + BuiltinBindings(builtins[1..])
  }

  /** Before the walk: the builtin scope, holding the interpreter's builtins, and the module's global scope, current. */
  function InitialState(builtins: seq<string>): (r: State)
    ensures Valid(r) && Rooted(r.scopes) && r.cur == 1 && |r.scopes| == 2
    ensures Names(r.scopes[0]) == set b | b in builtins
    ensures r.scopes[1].assignments == [] && r.scopes[1].accesses == [] && r.superseded == {}
  {
    var r := State([Scope(None, BuiltinScope, None, BuiltinBindings(builtins), []),
                    Scope(Some(0), GlobalScope, None, [], [])], 1, {});
    assert forall x | x in builtins :: x in Names(r.scopes[0]) by {
      forall x | x in builtins ensures x in Names(r.scopes[0]) {
        var k :| 0 <= k < |builtins| && builtins[k] == x;
        assert r.scopes[0].assignments[k] == BuiltinAssignment(x);
      }
    }
    r
  }

  /** A walk step never breaks the rooted shape of the table when it starts below the builtin scope. */
  lemma ExtendsKeepsRooted(a: State, b: State)
    requires Rooted(a.scopes) && 1 <= a.cur && Extends(a, b)
    ensures Rooted(b.scopes)
  {
    assert b.scopes[0] == a.scopes[0];
  }

  /**
    `visit_Module` of the provider: walk the module from the initial state,
    then resolve every access.  The table is rooted, and an access is left
    without referents exactly when no scope on its chain binds the name.
  */
  function ModuleScopes(o: Oracle, builtins: seq<string>, m: Module): (r: seq<Scope>)
    ensures WellFormed(r) && Rooted(r)
    ensures forall i, k | 0 <= i < |r| && 0 <= k < |r[i].accesses| ::
              r[i].accesses[k].referents == [] <==>
                forall j | 0 <= j < |r| && InChain(r, i, j) :: r[i].accesses[k].name !in Names(r[j])
  {
    var init := InitialState(builtins);
    var walked := ModuleWalk(o, builtins, m);
    ExtendsKeepsRooted(init, walked);
    var r := InferAccesses(walked.scopes);
    ChainsAgree(walked.scopes, r);
    r
  }

  function ModuleWalk(o: Oracle, builtins: seq<string>, m: Module): (r: State)
    ensures Extends(InitialState(builtins), r)
  {
    WalkStmts(o, InitialState(builtins), m.body)
  }

  /**
    The scopes no node of the module maps to once the walk is over.  Neither
    the builtin nor the global scope is among them: the module node itself
    maps to the global scope.
  */
  function ModuleSuperseded(o: Oracle, builtins: seq<string>, m: Module): (r: set<ScopeId>)
    ensures forall j | j in r :: 2 <= j < |ModuleScopes(o, builtins, m)|
  {
    ModuleWalk(o, builtins, m).superseded
  }

  /**
    The values of the provider's node-to-scope map, indexed by scope and
    with the builtin scope left out: `None` for a superseded scope, which no
    node maps to, otherwise the resolved record.
  */
  function NodeScopes(table: seq<Scope>, superseded: set<ScopeId>): (r: seq<Option<Scope>>)
    requires |table| >= 1
    ensures |r| == |table| - 1
    ensures forall i | 0 <= i < |r| :: r[i] == if i + 1 in superseded then None else Some(table[i + 1])
  {
    seq(|table| - 1, i requires 0 <= i < |table| - 1 => if i + 1 in superseded then None else Some(table[i + 1]))
  }

  function ModuleNodeScopes(o: Oracle, builtins: seq<string>, m: Module): seq<Option<Scope>>
  {
    NodeScopes(ModuleScopes(o, builtins, m), ModuleSuperseded(o, builtins, m))
  }

  /** Resolution leaves parents and bindings alone, so chains and bound names are the same before and after. */
  lemma ChainsAgree(t: seq<Scope>, r: seq<Scope>)
    requires WellFormed(t) && WellFormed(r) && |r| == |t|
    requires forall i | 0 <= i < |t| :: r[i].parent == t[i].parent && r[i].assignments == t[i].assignments
    ensures forall i, j | 0 <= i < |t| && 0 <= j < |t| :: InChain(r, i, j) == InChain(t, i, j)
    ensures forall j | 0 <= j < |t| :: Names(r[j]) == Names(t[j])
  {
    forall i, j | 0 <= i < |t| && 0 <= j < |t|
      ensures InChain(r, i, j) == InChain(t, i, j)
    {
      InChainAgree(t, r, i, j);
    }
  }

  lemma {:induction false} InChainAgree(t: seq<Scope>, r: seq<Scope>, i: ScopeId, j: ScopeId)
    requires WellFormed(t) && WellFormed(r) && |r| == |t| && i < |t|
    requires forall i | 0 <= i < |t| :: r[i].parent == t[i].parent
    ensures InChain(r, i, j) == InChain(t, i, j)
    decreases i
  {
    if t[i].parent.Some? {
      InChainAgree(t, r, t[i].parent.value, j);
    }
  }

  /** Once the module is walked, computing the qualified name of a binding in any scope below the root never raises. */
  lemma NoUnexpectedScope(o: Oracle, builtins: seq<string>, m: Module, s: ScopeId, remainingName: string)
    requires 1 <= s < |ModuleScopes(o, builtins, m)|
    ensures QualifiedNameForNonImport(ModuleScopes(o, builtins, m), s, remainingName).Success?
  {
    RootedNeverUnexpected(ModuleScopes(o, builtins, m), s);
  }

  // ---------------------------------------------------------------------
  // Sizes of statements, which the visit methods decrease
  // ---------------------------------------------------------------------

  function SuiteSize(suite: Suite): nat
  {
    match suite
    case IndentedBlock(body) => 1 + StmtsSize(body)
    case SimpleStatementSuite(_, _) => 1
  }

  function StmtsSize(ss: seq<Stmt>): nat
  {
    if ss == [] then 0 else StmtSize(ss[0]) + StmtsSize(ss[1..])
  }

  function StmtSize(s: Stmt): nat
  {
    match s
    case SimpleStatementLine(_, _, _) => 1
    case If(node) => 1 + IfSize(node)
    case For(_, _, _, body, forElse) => 1 + SuiteSize(body) + (if forElse.Some? then SuiteSize(forElse.value.body) else 0)
    case Try(_, body, handlers, tryElse, finalbody) =>
      1 + SuiteSize(body) + HandlersSize(handlers)
        + (if tryElse.Some? then SuiteSize(tryElse.value.body) else 0)
        + (if finalbody.Some? then SuiteSize(finalbody.value.body) else 0)
    case FunctionDef(_, _, _, _, body) => 1 + SuiteSize(body)
    case ClassDef(_, _, body) => 1 + SuiteSize(body)
  }

  function IfSize(node: IfNode): nat
  {
    1 + SuiteSize(node.body) + OrElseSize(node.orelse)
  }

  function OrElseSize(orelse: OrElse): nat
  {
    match orelse
    case NoElse => 0
    case Elif(n) => 1 + IfSize(n)
    case Else(e) => 1 + SuiteSize(e.body)
  }

  function HandlerSize(h: ExceptHandler): nat
  {
    1 + SuiteSize(h.body)
  }

  function HandlersSize(hs: seq<ExceptHandler>): nat
  {
    if hs == [] then 0 else HandlerSize(hs[0]) + HandlersSize(hs[1..])
  }

  lemma {:induction false} StmtsSizeAt(ss: seq<Stmt>, i: nat)
    requires i < |ss|
    ensures StmtSize(ss[i]) <= StmtsSize(ss)
    decreases i
  {
    if i > 0 {
      StmtsSizeAt(ss[1..], i - 1);
    }
  }

  lemma {:induction false} HandlersSizeAt(hs: seq<ExceptHandler>, i: nat)
    requires i < |hs|
    ensures SuiteSize(hs[i].body) < HandlersSize(hs)
    decreases i
  {
    if i > 0 {
      HandlersSizeAt(hs[1..], i - 1);
    }
  }

  // ---------------------------------------------------------------------
  // The visitor
  // ---------------------------------------------------------------------

  class BlockScopeVisitor {
    const o: Oracle
    var scopes: seq<Scope>
    var scope: ScopeId
    /** Scopes whose nodes were all visited again in another scope. */
    var superseded: set<ScopeId>

    function Snapshot(): State
      reads this
    {
      State(scopes, scope, superseded)
    }

    constructor (o: Oracle, builtins: seq<string>)
      ensures this.o == o && Snapshot() == InitialState(builtins)
    {
      this.o := o;
      scopes := [Scope(None, BuiltinScope, None, BuiltinBindings(builtins), []),
                 Scope(Some(0), GlobalScope, None, [], [])];
      scope := 1;
      superseded := {};
    }

    method RecordAccessHere(name: string, node: NodeId)
      requires Valid(Snapshot())
      modifies this
      ensures Snapshot() == RecordAccess(old(Snapshot()), name, node)
    {
      var sc := scopes[scope];
      scopes := scopes[scope := sc.(accesses := sc.accesses + [Access(name, node, [])])];
    }

    method RecordAssignments(bs: seq<BaseAssignment>)
      requires Valid(Snapshot())
      modifies this
      ensures Snapshot() == BindAll(old(Snapshot()), bs)
    {
      var sc := scopes[scope];
      scopes := scopes[scope := sc.(assignments := sc.assignments + bs)];
    }

    /** `_new_scope`, entering; the returned cursor is what leaving restores. */
    method EnterScope(kind: ScopeKind, name: Option<string>) returns (saved: ScopeId)
      requires Valid(Snapshot())
      modifies this
      ensures saved == old(scope) && Snapshot() == Push(old(Snapshot()), kind, name)
    {
      saved := scope;
      scopes := scopes + [Scope(Some(scope), kind, name, [], [])];
      scope := |scopes| - 1;
    }

    method LeaveScope(saved: ScopeId)
      modifies this
      ensures scopes == old(scopes) && superseded == old(superseded) && scope == saved
    {
      scope := saved;
    }

    // --- expressions ---------------------------------------------------

    method VisitExpr(e: Expr)
      requires Valid(Snapshot())
      modifies this
      ensures Snapshot() == WalkExpr(o, old(Snapshot()), e)
      decreases e, 1
    {
      match e
      case Name(id, v) =>
        RecordAccessHere(v, id);
      case Attribute(_, base, _) =>
        VisitExpr(base);
      case Call(_, f, args) =>
        VisitExpr(f);
        VisitExprs(args);
      case Comparison(_, left, cs) =>
        VisitExpr(left);
        VisitComparisons(cs);
      case Lambda(_, ps, body) =>
        var saved := EnterScope(FunctionScope, None);
        RecordAssignments(TargetBindings(ps));
        VisitExpr(body);
        LeaveScope(saved);
      case ListComp(_, elt, t, iter) =>
        VisitExpr(iter);
        var saved := EnterScope(ComprehensionScope, None);
        RecordAssignments(TargetBindings([t]));
        VisitExpr(elt);
        LeaveScope(saved);
      case SimpleString(_, _) =>
      case Integer(_, _) =>
    }

    method VisitExprs(es: seq<Expr>)
      requires Valid(Snapshot())
      modifies this
      ensures Snapshot() == WalkExprs(o, old(Snapshot()), es)
      decreases es, 2
    {
      ghost var st0 := Snapshot();
      var i := 0;
      while i < |es|
        invariant 0 <= i <= |es| && Valid(Snapshot())
        invariant WalkExprs(o, Snapshot(), es[i..]) == WalkExprs(o, st0, es)
      {
        assert es[i..][1..] == es[i + 1..];
        VisitExpr(es[i]);
        i := i + 1;
      }
    }

    method VisitComparisons(cs: seq<ComparisonTarget>)
      requires Valid(Snapshot())
      modifies this
      ensures Snapshot() == WalkComparisons(o, old(Snapshot()), cs)
      decreases cs, 2
    {
      ghost var st0 := Snapshot();
      var i := 0;
      while i < |cs|
        invariant 0 <= i <= |cs| && Valid(Snapshot())
        invariant WalkComparisons(o, Snapshot(), cs[i..]) == WalkComparisons(o, st0, cs)
      {
        assert cs[i..][1..] == cs[i + 1..];
        VisitComparison(cs[i]);
        i := i + 1;
      }
    }

    method VisitComparison(c: ComparisonTarget)
      requires Valid(Snapshot())
      modifies this
      ensures Snapshot() == WalkComparison(o, old(Snapshot()), c)
      decreases c, 2
    {
      VisitExpr(c.comparator);
    }

    method VisitOptExpr(oe: Option<Expr>)
      requires Valid(Snapshot())
      modifies this
      ensures Snapshot() == WalkOptExpr(o, old(Snapshot()), oe)
    {
      if oe.Some? {
        VisitExpr(oe.value);
      }
    }

    method VisitAnnotations(ps: seq<Param>)
      requires Valid(Snapshot())
      modifies this
      ensures Snapshot() == WalkAnnotations(o, old(Snapshot()), ps)
    {
      ghost var st0 := Snapshot();
      var i := 0;
      while i < |ps|
        invariant 0 <= i <= |ps| && Valid(Snapshot())
        invariant WalkAnnotations(o, Snapshot(), ps[i..]) == WalkAnnotations(o, st0, ps)
      {
        assert ps[i..][1..] == ps[i + 1..];
        VisitOptExpr(ps[i].annotation);
        i := i + 1;
      }
    }

    // --- small statements ----------------------------------------------

    method VisitSmall(item: SmallStatement)
      requires Valid(Snapshot())
      modifies this
      ensures Snapshot() == WalkSmall(o, old(Snapshot()), item)
    {
      match item
      case ExprStatement(_, v) => VisitExpr(v);
      case Assign(_, ts, v) =>
        RecordAssignments(TargetBindings(ts));
        VisitExpr(v);
      case Raise(_, exc) => VisitOptExpr(exc);
      case Return(_, result) => VisitOptExpr(result);
      case Assert(_, test) => VisitExpr(test);
      case Break(_) =>
      case Continue(_) =>
      case Pass(_) =>
      case Import(_, names) => RecordAssignments(AliasBindings(names));
      case ImportFrom(_, _, imported) =>
        match imported {
          case ImportStar(_) =>
          case ImportAliases(aliases) => RecordAssignments(AliasBindings(aliases));
        }
    }

    method VisitSmalls(items: seq<SmallStatement>)
      requires Valid(Snapshot())
      modifies this
      ensures Snapshot() == WalkSmalls(o, old(Snapshot()), items)
    {
      ghost var st0 := Snapshot();
      var i := 0;
      while i < |items|
        invariant 0 <= i <= |items| && Valid(Snapshot())
        invariant WalkSmalls(o, Snapshot(), items[i..]) == WalkSmalls(o, st0, items)
      {
        assert items[i..][1..] == items[i + 1..];
        VisitSmall(items[i]);
        i := i + 1;
      }
    }

    // --- statements ------------------------------------------------------

    method VisitSuite(suite: Suite)
      requires Valid(Snapshot())
      modifies this
      ensures Snapshot() == WalkSuite(o, old(Snapshot()), suite)
      decreases SuiteSize(suite), 3
    {
      match suite
      case IndentedBlock(body) => VisitStmts(body);
      case SimpleStatementSuite(items, _) => VisitSmalls(items);
    }

    /** A suite inside a fresh block scope. */
    method VisitBlock(suite: Suite)
      requires Valid(Snapshot())
      modifies this
      ensures Snapshot() == WalkBlock(o, old(Snapshot()), suite)
      decreases SuiteSize(suite), 4
    {
      var saved := EnterScope(BlockScope, None);
      VisitSuite(suite);
      LeaveScope(saved);
    }

    method VisitStmts(ss: seq<Stmt>)
      requires Valid(Snapshot())
      modifies this
      ensures Snapshot() == WalkStmts(o, old(Snapshot()), ss)
      decreases StmtsSize(ss), 3
    {
      ghost var st0 := Snapshot();
      var i := 0;
      while i < |ss|
        invariant 0 <= i <= |ss| && Valid(Snapshot())
        invariant WalkStmts(o, Snapshot(), ss[i..]) == WalkStmts(o, st0, ss)
      {
        assert ss[i..][1..] == ss[i + 1..];
        StmtsSizeAt(ss, i);
        VisitStmt(ss[i]);
        i := i + 1;
      }
    }

    method VisitStmt(s: Stmt)
      requires Valid(Snapshot())
      modifies this
      ensures Snapshot() == WalkStmt(o, old(Snapshot()), s)
      decreases StmtSize(s), 2
    {
      match s
      case SimpleStatementLine(_, items, _) => VisitSmalls(items);
      case If(node) => VisitIf(node);
      case For(_, _, _, _, _) => VisitFor(s);
      case Try(_, _, _, _, _) => VisitTry(s);
      case FunctionDef(id, name, ps, ret, body) =>
        RecordAssignments([Assignment(name, FunctionDefNode(id, ret, body))]);
        VisitAnnotations(ps);
        var saved := EnterScope(FunctionScope, Some(name));
        RecordAssignments(ParamBindings(ps));
        VisitSuite(body);
        LeaveScope(saved);
        VisitOptExpr(ret);
      case ClassDef(id, name, body) =>
        RecordAssignments([Assignment(name, OtherNode(id))]);
        var saved := EnterScope(ClassScope, Some(name));
        VisitSuite(body);
        LeaveScope(saved);
    }

    /** `visit_For` */
    method VisitFor(s: Stmt)
      requires Valid(Snapshot()) && s.For?
      modifies this
      ensures Snapshot() == WalkFor(o, old(Snapshot()), s)
      decreases StmtSize(s), 1
    {
      RecordAssignments(TargetBindings(s.target));
      VisitExpr(s.iter);
      VisitBlock(s.body);
      if s.forElse.Some? {
        VisitBlock(s.forElse.value.body);
      }
    }

    /** `visit_If` */
    method VisitIf(node: IfNode)
      requires Valid(Snapshot())
      modifies this
      ensures Snapshot() == WalkIf(o, old(Snapshot()), node)
      decreases IfSize(node), 0
    {
      VisitExpr(node.test);
      if IsConditionalTypingImport(o, scope, node) {
        VisitSuite(node.body);
        return;
      }

      // Find the `else` that ends the chain, and whether it is terminal.
      var orelse := node.orelse;
      var terminalElse := false;
      while !orelse.NoElse?
        invariant FinalElseTerminal(o, scopes[scope], scope, orelse) == FinalElseTerminal(o, scopes[scope], scope, node.orelse)
        invariant !terminalElse
        decreases OrElseSize(orelse)
      {
        if orelse.Elif? {
          assert OrElseSize(orelse.elif.orelse) < IfSize(orelse.elif);
          orelse := orelse.elif.orelse;
        } else {
          if IsTerminal(o, scopes[scope], scope, orelse.elseNode.body, o.exitFuel) {
            terminalElse := true;
          }
          break;
        }
      }
      assert terminalElse == FinalElseTerminal(o, scopes[scope], scope, node.orelse);

      if terminalElse {
        VisitSuite(node.body);
        ghost var s2 := Snapshot();
        ghost var c := scope;
        orelse := node.orelse;
        while !orelse.NoElse?
          invariant Valid(Snapshot()) && scope == c
          invariant OrElseSize(orelse) <= OrElseSize(node.orelse)
          invariant WalkChainBodies(o, Snapshot(), orelse) == WalkChainBodies(o, s2, node.orelse)
          decreases OrElseSize(orelse)
        {
          match orelse {
            case Elif(n) =>
              VisitSuite(n.body);
              orelse := n.orelse;
            case Else(e) =>
              VisitSuite(e.body);
              orelse := NoElse;
          }
        }
      } else {
        VisitBlock(node.body);
        match node.orelse {
          case NoElse =>
          case Elif(n) => VisitIf(n);
          case Else(e) => VisitSuite(e.body);
        }
      }
    }

    /** An `except` clause, in the current scope. */
    method VisitHandler(h: ExceptHandler)
      requires Valid(Snapshot())
      modifies this
      ensures Snapshot() == WalkHandler(o, old(Snapshot()), h)
      decreases SuiteSize(h.body), 4
    {
      VisitOptExpr(h.exceptionType);
      if h.name.Some? {
        RecordAssignments(TargetBindings([h.name.value]));
      }
      VisitSuite(h.body);
    }

    /** `visit_Try`: the body, the handlers, then `else` and `finally`. */
    method VisitTry(t: Stmt)
      requires Valid(Snapshot()) && t.Try?
      modifies this
      ensures Snapshot() == WalkTry(o, old(Snapshot()), t)
      decreases StmtSize(t), 1
    {
      VisitTryBody(t);
      VisitTryHandlers(t);
      VisitTryFinish(t);
    }

    /** The body of a `try` stays in the current scope exactly when every handler is terminal. */
    method VisitTryBody(t: Stmt)
      requires Valid(Snapshot()) && t.Try?
      modifies this
      ensures Snapshot() == WalkTryBody(o, old(Snapshot()), t)
      decreases StmtSize(t), 0
    {
      var before := |scopes|;
      var allTerminalHandlers := true;
      var k := 0;
      while k < |t.handlers|
        invariant 0 <= k <= |t.handlers|
        invariant allTerminalHandlers == forall m | 0 <= m < k :: IsTerminal(o, scopes[scope], scope, t.handlers[m].body, o.exitFuel)
      {
        if !IsTerminal(o, scopes[scope], scope, t.handlers[k].body, o.exitFuel) {
          allTerminalHandlers := false;
        }
        k := k + 1;
      }
      if allTerminalHandlers {
        VisitSuite(t.body);
      } else {
        VisitBlock(t.body);
      }
      if t.tryElse.Some? {
        superseded := superseded + Range(before, |scopes|);
      }
    }

    /** A lone handler is visited in the current scope, several each in a block scope of its own. */
    method VisitTryHandlers(t: Stmt)
      requires Valid(Snapshot()) && t.Try?
      modifies this
      ensures Snapshot() == WalkTryHandlers(o, old(Snapshot()), t)
      decreases StmtSize(t), 0
    {
      if |t.handlers| == 1 {
        HandlersSizeAt(t.handlers, 0);
        VisitHandler(t.handlers[0]);
      } else {
        ghost var s1 := Snapshot();
        var i := 0;
        while i < |t.handlers|
          invariant 0 <= i <= |t.handlers| && Valid(Snapshot())
          invariant WalkHandlersInBlocks(o, Snapshot(), t.handlers[i..]) == WalkHandlersInBlocks(o, s1, t.handlers)
        {
          assert t.handlers[i..][1..] == t.handlers[i + 1..];
          HandlersSizeAt(t.handlers, i);
          var saved := EnterScope(BlockScope, None);
          VisitHandler(t.handlers[i]);
          LeaveScope(saved);
          i := i + 1;
        }
      }
    }

    /** `else` runs in one block scope together with a second visit of the body; `finally` stays in the current scope. */
    method VisitTryFinish(t: Stmt)
      requires Valid(Snapshot()) && t.Try?
      modifies this
      ensures Snapshot() == WalkTryFinish(o, old(Snapshot()), t)
      decreases StmtSize(t), 0
    {
      if t.tryElse.Some? {
        var saved := EnterScope(BlockScope, None);
        VisitSuite(t.body);
        VisitSuite(t.tryElse.value.body);
        LeaveScope(saved);
      }
      if t.finalbody.Some? {
        VisitSuite(t.finalbody.value.body);
      }
    }

    /** `visit_Module` followed by `infer_accesses`. */
    method VisitModule(m: Module)
      requires Valid(Snapshot())
      modifies this
      ensures scopes == InferAccesses(WalkStmts(o, old(Snapshot()), m.body).scopes)
      ensures superseded == WalkStmts(o, old(Snapshot()), m.body).superseded
      ensures scope == old(scope)
    {
      VisitStmts(m.body);
      scopes := InferAccesses(scopes);
    }
  }

  /** The provider's entry point: a fresh visitor over the module, then resolution. */
  method ProvideScopes(o: Oracle, builtins: seq<string>, m: Module) returns (values: seq<Option<Scope>>)
    ensures values == ModuleNodeScopes(o, builtins, m)
  {
    var visitor := new BlockScopeVisitor(o, builtins);
    visitor.VisitModule(m);
    values := NodeScopes(visitor.scopes, visitor.superseded);
  }
}
