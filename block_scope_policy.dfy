/**
  What the block-scope policy guarantees about the scope a statement is
  walked in: which bindings of a `for`, `if` or `try` land in it (and so are
  visible to the code after the statement), and which stay confined to the
  block scopes opened beneath it.
*/
module BlockScopePolicy {
  import opened Wrappers
  import opened Syntax
  import opened Scopes
  import opened AstUtils
  import opened BlockScopeWalk

  // ---------------------------------------------------------------------
  // Names bound by a statement, directly
  // ---------------------------------------------------------------------

  function BoundNames(bs: seq<BaseAssignment>): set<string>
  {
    set b | b in bs :: b.name
  }

  function TargetNames(ts: seq<Target>): set<string>
  {
    set t | t in ts :: t.value
  }

  function AliasNames(aliases: seq<ImportAlias>): set<string>
  {
    set a | a in aliases :: a.bound
  }

  /** The names a small statement binds: assignment targets and imported names. */
  function SmallBinds(item: SmallStatement): set<string>
  {
    match item
    case Assign(_, ts, _) => TargetNames(ts)
    case Import(_, names) => AliasNames(names)
    case ImportFrom(_, _, ImportAliases(aliases)) => AliasNames(aliases)
    case _ => {}
  }

  function SmallsBinds(items: seq<SmallStatement>): set<string>
  {
    if items == [] then {} else SmallBinds(items[0]) + SmallsBinds(items[1..])
  }

  /**
    The names a statement binds in the scope it is walked in, whatever the
    block-scope policy decides: those of its simple statements, a `for`
    target, a function or class name.  `if` and `try` bind nothing for sure.
  */
  function StmtBinds(s: Stmt): set<string>
  {
    match s
    case SimpleStatementLine(_, items, _) => SmallsBinds(items)
    case For(_, ts, _, _, _) => TargetNames(ts)
    case FunctionDef(_, name, _, _, _) => {name}
    case ClassDef(_, name, _) => {name}
    case _ => {}
  }

  function StmtsBinds(ss: seq<Stmt>): set<string>
  {
    if ss == [] then {} else StmtBinds(ss[0]) + StmtsBinds(ss[1..])
  }

  function SuiteBinds(suite: Suite): set<string>
  {
    match suite
    case IndentedBlock(body) => StmtsBinds(body)
    case SimpleStatementSuite(items, _) => SmallsBinds(items)
  }

  /** The direct bindings of every `elif` and `else` body of a chain. */
  function ChainBinds(orelse: OrElse): set<string>
  {
    match orelse
    case NoElse => {}
    case Elif(n) => SuiteBinds(n.body) + ChainBinds(n.orelse)
    case Else(e) => SuiteBinds(e.body)
  }

  // ---------------------------------------------------------------------
  // Bindings only accumulate
  // ---------------------------------------------------------------------

  lemma GrowsNames(a: Scope, b: Scope)
    requires Grows(a, b)
    ensures Names(a) <= Names(b)
  {
    forall x | x in Names(a)
      ensures x in Names(b)
    {
      var asg :| asg in a.assignments && asg.name == x;
      var k :| 0 <= k < |a.assignments| && a.assignments[k] == asg;
      assert b.assignments[k] == asg;
    }
  }

  lemma ExtendsNames(a: State, b: State)
    requires Extends(a, b)
    ensures Names(a.scopes[a.cur]) <= Names(b.scopes[b.cur])
  {
    GrowsNames(a.scopes[a.cur], b.scopes[a.cur]);
  }

  lemma NamesAppend(sc: Scope, bs: seq<BaseAssignment>)
    ensures Names(sc.(assignments := sc.assignments + bs)) == Names(sc) + BoundNames(bs)
  {
    var all := sc.assignments + bs;
    forall x | x in Names(sc.(assignments := all))
      ensures x in Names(sc) + BoundNames(bs)
    {
      var asg :| asg in all && asg.name == x;
      if asg !in sc.assignments {
        assert asg in bs;
      }
    }
  }

  lemma TargetBindingNames(ts: seq<Target>)
    ensures BoundNames(TargetBindings(ts)) == TargetNames(ts)
  {
    var bs := TargetBindings(ts);
    forall x | x in TargetNames(ts)
      ensures x in BoundNames(bs)
    {
      var k :| 0 <= k < |ts| && ts[k].value == x;
      assert bs[k] in bs;
    }
  }

  lemma AliasBindingNames(aliases: seq<ImportAlias>)
    ensures BoundNames(AliasBindings(aliases)) == AliasNames(aliases)
  {
    var bs := AliasBindings(aliases);
    forall x | x in AliasNames(aliases)
      ensures x in BoundNames(bs)
    {
      var k :| 0 <= k < |aliases| && aliases[k].bound == x;
      assert bs[k] in bs;
    }
  }

  lemma BindAllNames(st: State, bs: seq<BaseAssignment>)
    requires Valid(st)
    ensures Names(BindAll(st, bs).scopes[st.cur]) == Names(st.scopes[st.cur]) + BoundNames(bs)
  {
    NamesAppend(st.scopes[st.cur], bs);
  }

  // ---------------------------------------------------------------------
  // Direct bindings land in the scope the walk is in
  // ---------------------------------------------------------------------

  lemma SmallBindsLand(o: Oracle, st: State, item: SmallStatement)
    requires Valid(st)
    ensures Names(st.scopes[st.cur]) + SmallBinds(item) <= Names(WalkSmall(o, st, item).scopes[st.cur])
  {
    var r := WalkSmall(o, st, item);
    match item
    case Assign(_, ts, v) =>
      BindAllNames(st, TargetBindings(ts));
      TargetBindingNames(ts);
      ExtendsNames(BindAll(st, TargetBindings(ts)), r);
    case Import(_, names) =>
      BindAllNames(st, AliasBindings(names));
      AliasBindingNames(names);
    case ImportFrom(_, _, ImportAliases(aliases)) =>
      BindAllNames(st, AliasBindings(aliases));
      AliasBindingNames(aliases);
    case _ =>
      ExtendsNames(st, r);
  }

  lemma {:induction false} SmallsBindsLand(o: Oracle, st: State, items: seq<SmallStatement>)
    requires Valid(st)
    ensures Names(st.scopes[st.cur]) + SmallsBinds(items) <= Names(WalkSmalls(o, st, items).scopes[st.cur])
    decreases items
  {
    if items != [] {
      var s1 := WalkSmall(o, st, items[0]);
      SmallBindsLand(o, st, items[0]);
      SmallsBindsLand(o, s1, items[1..]);
    }
  }

  /** A `for` adds exactly its targets to the scope it is walked in; its body and `else` add nothing. */
  lemma ForScopeRecord(o: Oracle, st: State, s: Stmt)
    requires Valid(st) && s.For?
    ensures WalkStmt(o, st, s).scopes[st.cur].assignments == st.scopes[st.cur].assignments + TargetBindings(s.target)
    ensures Names(WalkStmt(o, st, s).scopes[st.cur]) == Names(st.scopes[st.cur]) + TargetNames(s.target)
  {
    var s1 := BindAll(st, TargetBindings(s.target));
    BindAllNames(st, TargetBindings(s.target));
    TargetBindingNames(s.target);
    var s2 := WalkExpr(o, s1, s.iter);
    var s3 := WalkBlock(o, s2, s.body);
    assert s3.scopes[st.cur] == s2.scopes[st.cur];
  }

  lemma StmtBindsLand(o: Oracle, st: State, s: Stmt)
    requires Valid(st)
    ensures Names(st.scopes[st.cur]) + StmtBinds(s) <= Names(WalkStmt(o, st, s).scopes[st.cur])
  {
    var r := WalkStmt(o, st, s);
    match s
    case SimpleStatementLine(_, items, _) =>
      SmallsBindsLand(o, st, items);
    case For(_, _, _, _, _) =>
      ForScopeRecord(o, st, s);
    case FunctionDef(id, name, ps, ret, body) =>
      var s1 := BindAll(st, [Assignment(name, FunctionDefNode(id, ret, body))]);
      BindAllNames(st, [Assignment(name, FunctionDefNode(id, ret, body))]);
      var s2 := WalkAnnotations(o, s1, ps);
      ExtendsNames(s1, s2);
      var entered := Push(s2, FunctionScope, Some(name));
      var bound := BindAll(entered, ParamBindings(ps));
      var inner := WalkSuite(o, bound, body);
      ExtendsTrans(entered, bound, inner);
      PushPop(s2, FunctionScope, Some(name), inner);
      ExtendsNames(Pop(s2, inner), r);
    case ClassDef(id, name, body) =>
      var s1 := BindAll(st, [Assignment(name, OtherNode(id))]);
      BindAllNames(st, [Assignment(name, OtherNode(id))]);
      var inner := WalkSuite(o, Push(s1, ClassScope, Some(name)), body);
      PushPop(s1, ClassScope, Some(name), inner);
    case _ =>
      ExtendsNames(st, r);
  }

  lemma {:induction false} StmtsBindsLand(o: Oracle, st: State, ss: seq<Stmt>)
    requires Valid(st)
    ensures Names(st.scopes[st.cur]) + StmtsBinds(ss) <= Names(WalkStmts(o, st, ss).scopes[st.cur])
    decreases ss
  {
    if ss != [] {
      var s1 := WalkStmt(o, st, ss[0]);
      StmtBindsLand(o, st, ss[0]);
      StmtsBindsLand(o, s1, ss[1..]);
    }
  }

  /** Everything a suite binds directly is bound in the scope it is walked in. */
  lemma SuiteBindsLand(o: Oracle, st: State, suite: Suite)
    requires Valid(st)
    ensures Names(st.scopes[st.cur]) + SuiteBinds(suite) <= Names(WalkSuite(o, st, suite).scopes[st.cur])
  {
    match suite
    case IndentedBlock(body) => StmtsBindsLand(o, st, body);
    case SimpleStatementSuite(items, _) => SmallsBindsLand(o, st, items);
  }

  lemma {:induction false} ChainBindsLand(o: Oracle, st: State, orelse: OrElse)
    requires Valid(st)
    ensures Names(st.scopes[st.cur]) + ChainBinds(orelse) <= Names(WalkChainBodies(o, st, orelse).scopes[st.cur])
    decreases orelse
  {
    match orelse
    case NoElse =>
    case Elif(n) =>
      SuiteBindsLand(o, st, n.body);
      ChainBindsLand(o, WalkSuite(o, st, n.body), n.orelse);
    case Else(e) =>
      SuiteBindsLand(o, st, e.body);
  }

  // ---------------------------------------------------------------------
  // What reaches the current scope depends only on the current scope
  // ---------------------------------------------------------------------

  /** Two states that agree on the cursor and on the current record. */
  predicate SameAt(a: State, b: State)
    requires Valid(a) && Valid(b)
  {
    a.cur == b.cur && a.scopes[a.cur] == b.scopes[b.cur]
  }

  lemma {:induction false} ExprLocal(o: Oracle, a: State, b: State, e: Expr)
    requires Valid(a) && Valid(b) && SameAt(a, b)
    ensures SameAt(WalkExpr(o, a, e), WalkExpr(o, b, e))
    decreases e, 0
  {
    match e
    case Name(_, _) =>
    case Attribute(_, base, _) =>
      ExprLocal(o, a, b, base);
    case Call(_, f, args) =>
      ExprLocal(o, a, b, f);
      ExprsLocal(o, WalkExpr(o, a, f), WalkExpr(o, b, f), args);
    case Comparison(_, left, cs) =>
      ExprLocal(o, a, b, left);
      ComparisonsLocal(o, WalkExpr(o, a, left), WalkExpr(o, b, left), cs);
    case Lambda(_, ps, body) =>
      LambdaLocal(o, a, ps, body);
      LambdaLocal(o, b, ps, body);
    case ListComp(_, elt, t, iter) =>
      ExprLocal(o, a, b, iter);
      ListCompLocal(o, a, elt, t, iter);
      ListCompLocal(o, b, elt, t, iter);
    case SimpleString(_, _) =>
    case Integer(_, _) =>
  }

  lemma LambdaLocal(o: Oracle, st: State, ps: seq<Target>, body: Expr)
    requires Valid(st)
    ensures WalkExpr(o, st, Lambda(0, ps, body)).scopes[st.cur] == st.scopes[st.cur]
  {
    var entered := Push(st, FunctionScope, None);
    var bound := BindAll(entered, TargetBindings(ps));
    var inner := WalkExpr(o, bound, body);
    ExtendsTrans(entered, bound, inner);
    PushPop(st, FunctionScope, None, inner);
  }

  lemma ListCompLocal(o: Oracle, st: State, elt: Expr, t: Target, iter: Expr)
    requires Valid(st)
    ensures WalkExpr(o, st, ListComp(0, elt, t, iter)).scopes[st.cur] == WalkExpr(o, st, iter).scopes[st.cur]
  {
    var s1 := WalkExpr(o, st, iter);
    var entered := Push(s1, ComprehensionScope, None);
    var bound := BindAll(entered, TargetBindings([t]));
    var inner := WalkExpr(o, bound, elt);
    ExtendsTrans(entered, bound, inner);
    PushPop(s1, ComprehensionScope, None, inner);
  }

  lemma {:induction false} ExprsLocal(o: Oracle, a: State, b: State, es: seq<Expr>)
    requires Valid(a) && Valid(b) && SameAt(a, b)
    ensures SameAt(WalkExprs(o, a, es), WalkExprs(o, b, es))
    decreases es, 0
  {
    if es != [] {
      ExprLocal(o, a, b, es[0]);
      ExprsLocal(o, WalkExpr(o, a, es[0]), WalkExpr(o, b, es[0]), es[1..]);
    }
  }

  lemma {:induction false} ComparisonsLocal(o: Oracle, a: State, b: State, cs: seq<ComparisonTarget>)
    requires Valid(a) && Valid(b) && SameAt(a, b)
    ensures SameAt(WalkComparisons(o, a, cs), WalkComparisons(o, b, cs))
    decreases cs, 0
  {
    if cs != [] {
      ComparisonLocal(o, a, b, cs[0]);
      ComparisonsLocal(o, WalkComparison(o, a, cs[0]), WalkComparison(o, b, cs[0]), cs[1..]);
    }
  }

  lemma {:induction false} ComparisonLocal(o: Oracle, a: State, b: State, c: ComparisonTarget)
    requires Valid(a) && Valid(b) && SameAt(a, b)
    ensures SameAt(WalkComparison(o, a, c), WalkComparison(o, b, c))
    decreases c, 0
  {
    ExprLocal(o, a, b, c.comparator);
  }

  lemma OptExprLocal(o: Oracle, a: State, b: State, oe: Option<Expr>)
    requires Valid(a) && Valid(b) && SameAt(a, b)
    ensures SameAt(WalkOptExpr(o, a, oe), WalkOptExpr(o, b, oe))
  {
    if oe.Some? {
      ExprLocal(o, a, b, oe.value);
    }
  }

  lemma SmallLocal(o: Oracle, a: State, b: State, item: SmallStatement)
    requires Valid(a) && Valid(b) && SameAt(a, b)
    ensures SameAt(WalkSmall(o, a, item), WalkSmall(o, b, item))
  {
    match item
    case ExprStatement(_, v) => ExprLocal(o, a, b, v);
    case Assign(_, ts, v) =>
      ExprLocal(o, BindAll(a, TargetBindings(ts)), BindAll(b, TargetBindings(ts)), v);
    case Raise(_, exc) => OptExprLocal(o, a, b, exc);
    case Return(_, result) => OptExprLocal(o, a, b, result);
    case Assert(_, test) => ExprLocal(o, a, b, test);
    case _ =>
  }

  lemma {:induction false} SmallsLocal(o: Oracle, a: State, b: State, items: seq<SmallStatement>)
    requires Valid(a) && Valid(b) && SameAt(a, b)
    ensures SameAt(WalkSmalls(o, a, items), WalkSmalls(o, b, items))
    decreases items
  {
    if items != [] {
      SmallLocal(o, a, b, items[0]);
      SmallsLocal(o, WalkSmall(o, a, items[0]), WalkSmall(o, b, items[0]), items[1..]);
    }
  }

  lemma {:induction false} SuiteLocal(o: Oracle, a: State, b: State, suite: Suite)
    requires Valid(a) && Valid(b) && SameAt(a, b)
    ensures SameAt(WalkSuite(o, a, suite), WalkSuite(o, b, suite))
    decreases suite, 0
  {
    match suite
    case IndentedBlock(body) => StmtsLocal(o, a, b, body);
    case SimpleStatementSuite(items, _) => SmallsLocal(o, a, b, items);
  }

  lemma {:induction false} StmtsLocal(o: Oracle, a: State, b: State, ss: seq<Stmt>)
    requires Valid(a) && Valid(b) && SameAt(a, b)
    ensures SameAt(WalkStmts(o, a, ss), WalkStmts(o, b, ss))
    decreases ss, 0
  {
    if ss != [] {
      StmtLocal(o, a, b, ss[0]);
      StmtsLocal(o, WalkStmt(o, a, ss[0]), WalkStmt(o, b, ss[0]), ss[1..]);
    }
  }

  lemma {:induction false} StmtLocal(o: Oracle, a: State, b: State, s: Stmt)
    requires Valid(a) && Valid(b) && SameAt(a, b)
    ensures SameAt(WalkStmt(o, a, s), WalkStmt(o, b, s))
    decreases s, 3
  {
    match s
    case SimpleStatementLine(_, items, _) => SmallsLocal(o, a, b, items);
    case If(node) => IfLocal(o, a, b, node);
    case For(_, ts, iter, body, forElse) =>
      ForLocal(o, a, b, s);
    case Try(_, _, _, _, _) =>
      TryLocal(o, a, b, s);
    case FunctionDef(id, name, ps, ret, body) =>
      FunctionDefLocal(o, a, b, s);
    case ClassDef(id, name, body) =>
      ClassDefLocal(o, a, s);
      ClassDefLocal(o, b, s);
  }

  /** The annotations are walked in the current scope, the body in a fresh function scope that changes nothing here. */
  lemma FunctionDefLocal(o: Oracle, a: State, b: State, s: Stmt)
    requires Valid(a) && Valid(b) && SameAt(a, b) && s.FunctionDef?
    ensures SameAt(WalkStmt(o, a, s), WalkStmt(o, b, s))
  {
    var bind := [Assignment(s.name, FunctionDefNode(s.id, s.returnAnnotation, s.body))];
    var a2 := WalkAnnotations(o, BindAll(a, bind), s.params);
    var b2 := WalkAnnotations(o, BindAll(b, bind), s.params);
    AnnotationsLocal(o, BindAll(a, bind), BindAll(b, bind), s.params);
    var a3 := FunctionBody(o, a2, s);
    var b3 := FunctionBody(o, b2, s);
    OptExprLocal(o, a3, b3, s.returnAnnotation);
  }

  /**
    A `def` leaves the enclosing record as if only its name were bound and
    then its parameter annotations and its return annotation were walked
    there: the annotations are visited in the enclosing scope, the return
    annotation after the body, and the body adds nothing to that record.
  */
  lemma AnnotationsInEnclosingScope(o: Oracle, st: State, s: Stmt)
    requires Valid(st) && s.FunctionDef?
    ensures var s1 := BindAll(st, [Assignment(s.name, FunctionDefNode(s.id, s.returnAnnotation, s.body))]);
            var s2 := WalkAnnotations(o, s1, s.params);
            WalkStmt(o, st, s).scopes[st.cur] == WalkOptExpr(o, s2, s.returnAnnotation).scopes[st.cur]
  {
    var s1 := BindAll(st, [Assignment(s.name, FunctionDefNode(s.id, s.returnAnnotation, s.body))]);
    var s2 := WalkAnnotations(o, s1, s.params);
    var s3 := FunctionBody(o, s2, s);
    OptExprLocal(o, s3, s2, s.returnAnnotation);
  }

  /** The function scope of a `def`, walked and left: the current record is untouched. */
  function FunctionBody(o: Oracle, st: State, s: Stmt): (r: State)
    requires Valid(st) && s.FunctionDef?
    ensures Extends(st, r) && r.scopes[st.cur] == st.scopes[st.cur]
    ensures r == Pop(st, WalkSuite(o, BindAll(Push(st, FunctionScope, Some(s.name)), ParamBindings(s.params)), s.body))
  {
    var entered := Push(st, FunctionScope, Some(s.name));
    var bound := BindAll(entered, ParamBindings(s.params));
    var inner := WalkSuite(o, bound, s.body);
    ExtendsTrans(entered, bound, inner);
    PushPop(st, FunctionScope, Some(s.name), inner);
    Pop(st, inner)
  }

  lemma {:induction false} AnnotationsLocal(o: Oracle, a: State, b: State, ps: seq<Param>)
    requires Valid(a) && Valid(b) && SameAt(a, b)
    ensures SameAt(WalkAnnotations(o, a, ps), WalkAnnotations(o, b, ps))
    decreases ps
  {
    if ps != [] {
      OptExprLocal(o, a, b, ps[0].annotation);
      AnnotationsLocal(o, WalkOptExpr(o, a, ps[0].annotation), WalkOptExpr(o, b, ps[0].annotation), ps[1..]);
    }
  }

  lemma ClassDefLocal(o: Oracle, st: State, s: Stmt)
    requires Valid(st) && s.ClassDef?
    ensures WalkStmt(o, st, s).scopes[st.cur] == BindAll(st, [Assignment(s.name, OtherNode(s.id))]).scopes[st.cur]
  {
    var s1 := BindAll(st, [Assignment(s.name, OtherNode(s.id))]);
    var inner := WalkSuite(o, Push(s1, ClassScope, Some(s.name)), s.body);
    PushPop(s1, ClassScope, Some(s.name), inner);
  }

  lemma {:induction false} ForLocal(o: Oracle, a: State, b: State, s: Stmt)
    requires Valid(a) && Valid(b) && SameAt(a, b) && s.For?
    ensures SameAt(WalkFor(o, a, s), WalkFor(o, b, s))
    decreases s, 1
  {
    var a1 := BindAll(a, TargetBindings(s.target));
    var b1 := BindAll(b, TargetBindings(s.target));
    ExprLocal(o, a1, b1, s.iter);
  }

  lemma {:induction false} IfLocal(o: Oracle, a: State, b: State, node: IfNode)
    requires Valid(a) && Valid(b) && SameAt(a, b)
    ensures SameAt(WalkIf(o, a, node), WalkIf(o, b, node))
    decreases node, 0
  {
    ExprLocal(o, a, b, node.test);
    var a1 := WalkExpr(o, a, node.test);
    var b1 := WalkExpr(o, b, node.test);
    if IsConditionalTypingImport(o, a1.cur, node) {
      SuiteLocal(o, a1, b1, node.body);
    } else if FinalElseTerminal(o, a1.scopes[a1.cur], a1.cur, node.orelse) {
      SuiteLocal(o, a1, b1, node.body);
      ChainLocal(o, WalkSuite(o, a1, node.body), WalkSuite(o, b1, node.body), node.orelse);
    } else {
      OrElseLocal(o, WalkBlock(o, a1, node.body), WalkBlock(o, b1, node.body), node.orelse);
    }
  }

  lemma {:induction false} ChainLocal(o: Oracle, a: State, b: State, orelse: OrElse)
    requires Valid(a) && Valid(b) && SameAt(a, b)
    ensures SameAt(WalkChainBodies(o, a, orelse), WalkChainBodies(o, b, orelse))
    decreases orelse, 0
  {
    match orelse
    case NoElse =>
    case Elif(n) =>
      SuiteLocal(o, a, b, n.body);
      ChainLocal(o, WalkSuite(o, a, n.body), WalkSuite(o, b, n.body), n.orelse);
    case Else(e) =>
      SuiteLocal(o, a, b, e.body);
  }

  lemma {:induction false} OrElseLocal(o: Oracle, a: State, b: State, orelse: OrElse)
    requires Valid(a) && Valid(b) && SameAt(a, b)
    ensures SameAt(WalkOrElse(o, a, orelse), WalkOrElse(o, b, orelse))
    decreases orelse, 0
  {
    match orelse
    case NoElse =>
    case Elif(n) => IfLocal(o, a, b, n);
    case Else(e) => SuiteLocal(o, a, b, e.body);
  }

  lemma {:induction false} HandlerLocal(o: Oracle, a: State, b: State, h: ExceptHandler)
    requires Valid(a) && Valid(b) && SameAt(a, b)
    ensures SameAt(WalkHandler(o, a, h), WalkHandler(o, b, h))
    decreases h, 1
  {
    OptExprLocal(o, a, b, h.exceptionType);
    SuiteLocal(o, HandlerEntry(o, a, h), HandlerEntry(o, b, h), h.body);
  }

  lemma {:induction false} TryLocal(o: Oracle, a: State, b: State, t: Stmt)
    requires Valid(a) && Valid(b) && SameAt(a, b) && t.Try?
    ensures SameAt(WalkTry(o, a, t), WalkTry(o, b, t))
    decreases t, 2
  {
    TryBodyLocal(o, a, b, t);
    var a1 := WalkTryBody(o, a, t);
    var b1 := WalkTryBody(o, b, t);
    TryHandlersLocal(o, a1, b1, t);
    TryFinishLocal(o, WalkTryHandlers(o, a1, t), WalkTryHandlers(o, b1, t), t, t);
  }

  lemma {:induction false} TryBodyLocal(o: Oracle, a: State, b: State, t: Stmt)
    requires Valid(a) && Valid(b) && SameAt(a, b) && t.Try?
    ensures SameAt(WalkTryBody(o, a, t), WalkTryBody(o, b, t))
    decreases t, 1
  {
    if AllTerminal(o, a.scopes[a.cur], a.cur, t.handlers) {
      SuiteLocal(o, a, b, t.body);
    }
  }

  lemma {:induction false} TryHandlersLocal(o: Oracle, a: State, b: State, t: Stmt)
    requires Valid(a) && Valid(b) && SameAt(a, b) && t.Try?
    ensures SameAt(WalkTryHandlers(o, a, t), WalkTryHandlers(o, b, t))
    decreases t, 1
  {
    if |t.handlers| == 1 {
      HandlerLocal(o, a, b, t.handlers[0]);
    }
  }

  /** The `else` block never reaches the current record, so only `finally` matters here; the two bodies may differ. */
  lemma {:induction false} TryFinishLocal(o: Oracle, a: State, b: State, t1: Stmt, t2: Stmt)
    requires Valid(a) && Valid(b) && SameAt(a, b) && t1.Try? && t2.Try?
    requires t1.tryElse.Some? == t2.tryElse.Some? && t1.finalbody == t2.finalbody
    ensures SameAt(WalkTryFinish(o, a, t1), WalkTryFinish(o, b, t2))
    decreases t1, 1
  {
    var a1 := match t1.tryElse case None => a case Some(_) => WalkTryElse(o, a, t1);
    var b1 := match t2.tryElse case None => b case Some(_) => WalkTryElse(o, b, t2);
    if t1.finalbody.Some? {
      SuiteLocal(o, a1, b1, t1.finalbody.value.body);
    }
  }

  // ---------------------------------------------------------------------
  // The policy, construct by construct
  // ---------------------------------------------------------------------

  /**
    `for`: only the targets reach the enclosing scope.  A name bound only in
    the body or the `else` stays unbound there.
  */
  lemma ForConfinesBody(o: Oracle, st: State, s: Stmt, x: string)
    requires Valid(st) && s.For?
    requires x !in Names(st.scopes[st.cur]) && x !in TargetNames(s.target)
    ensures x !in Names(WalkStmt(o, st, s).scopes[st.cur])
  {
    ForScopeRecord(o, st, s);
  }

  /** A `TYPE_CHECKING` guard's body binds in the enclosing scope. */
  lemma TypingGuardBindsInScope(o: Oracle, st: State, node: IfNode)
    requires Valid(st) && IsConditionalTypingImport(o, st.cur, node)
    ensures Names(st.scopes[st.cur]) + SuiteBinds(node.body) <= Names(WalkIf(o, st, node).scopes[st.cur])
  {
    var s1 := WalkExpr(o, st, node.test);
    ExtendsNames(st, s1);
    SuiteBindsLand(o, s1, node.body);
  }

  /**
    When the chain ends in a terminal `else`, the `if` body and every `elif`
    and `else` body bind in the enclosing scope.
  */
  lemma TerminalElseBindsInScope(o: Oracle, st: State, node: IfNode)
    requires Valid(st) && !IsConditionalTypingImport(o, st.cur, node)
    requires FinalElseTerminal(o, WalkExpr(o, st, node.test).scopes[st.cur], st.cur, node.orelse)
    ensures Names(st.scopes[st.cur]) + SuiteBinds(node.body) + ChainBinds(node.orelse)
         <= Names(WalkIf(o, st, node).scopes[st.cur])
  {
    var s1 := WalkExpr(o, st, node.test);
    ExtendsNames(st, s1);
    SuiteBindsLand(o, s1, node.body);
    ChainBindsLand(o, WalkSuite(o, s1, node.body), node.orelse);
  }

  /**
    Otherwise the `if` body is confined to its block scope: what reaches the
    enclosing scope does not depend on the body at all.
  */
  lemma IfBodyConfined(o: Oracle, st: State, id: NodeId, test: Expr, body1: Suite, body2: Suite, orelse: OrElse)
    requires Valid(st) && !IsConditionalTypingImport(o, st.cur, IfNode(id, test, body1, orelse))
    requires !FinalElseTerminal(o, WalkExpr(o, st, test).scopes[st.cur], st.cur, orelse)
    ensures WalkIf(o, st, IfNode(id, test, body1, orelse)).scopes[st.cur]
         == WalkIf(o, st, IfNode(id, test, body2, orelse)).scopes[st.cur]
  {
    var s1 := WalkExpr(o, st, test);
    OrElseLocal(o, WalkBlock(o, s1, body1), WalkBlock(o, s1, body2), orelse);
  }

  /** With every handler terminal (or none), the `try` body binds in the enclosing scope. */
  lemma TerminalHandlersBodyInScope(o: Oracle, st: State, t: Stmt)
    requires Valid(st) && t.Try? && AllTerminal(o, st.scopes[st.cur], st.cur, t.handlers)
    ensures Names(st.scopes[st.cur]) + SuiteBinds(t.body) <= Names(WalkStmt(o, st, t).scopes[st.cur])
  {
    var s1 := WalkTryBody(o, st, t);
    SuiteBindsLand(o, st, t.body);
    var s2 := WalkTryHandlers(o, s1, t);
    ExtendsTrans(s1, s2, WalkTryFinish(o, s2, t));
    ExtendsNames(s1, WalkTry(o, st, t));
    assert WalkStmt(o, st, t) == WalkTry(o, st, t);
  }

  /**
    With some handler that is not terminal, the `try` body is confined to a
    block scope: what reaches the enclosing scope does not depend on it.
  */
  lemma TryBodyConfined(o: Oracle, st: State, id: NodeId, body1: Suite, body2: Suite, handlers: seq<ExceptHandler>,
                         tryElse: Option<ElseNode>, finalbody: Option<Finally>)
    requires Valid(st) && !AllTerminal(o, st.scopes[st.cur], st.cur, handlers)
    ensures WalkStmt(o, st, Try(id, body1, handlers, tryElse, finalbody)).scopes[st.cur]
         == WalkStmt(o, st, Try(id, body2, handlers, tryElse, finalbody)).scopes[st.cur]
  {
    var t1 := Try(id, body1, handlers, tryElse, finalbody);
    var t2 := Try(id, body2, handlers, tryElse, finalbody);
    var a1 := WalkTryBody(o, st, t1);
    var b1 := WalkTryBody(o, st, t2);
    TryHandlersLocal(o, a1, b1, t1);
    assert WalkTryHandlers(o, b1, t1) == WalkTryHandlers(o, b1, t2);
    TryFinishLocal(o, WalkTryHandlers(o, a1, t1), WalkTryHandlers(o, b1, t2), t1, t2);
    assert WalkStmt(o, st, t1) == WalkTry(o, st, t1);
    assert WalkStmt(o, st, t2) == WalkTry(o, st, t2);
  }

  /** A single handler binds, with its `as` name, in the enclosing scope. */
  lemma SingleHandlerBindsInScope(o: Oracle, st: State, t: Stmt)
    requires Valid(st) && t.Try? && |t.handlers| == 1
    ensures Names(st.scopes[st.cur]) + SuiteBinds(t.handlers[0].body)
              + (if t.handlers[0].name.Some? then {t.handlers[0].name.value.value} else {})
         <= Names(WalkStmt(o, st, t).scopes[st.cur])
  {
    var h := t.handlers[0];
    var s1 := WalkTryBody(o, st, t);
    ExtendsNames(st, s1);
    var h1 := WalkOptExpr(o, s1, h.exceptionType);
    ExtendsNames(s1, h1);
    var h2 := HandlerEntry(o, s1, h);
    if h.name.Some? {
      BindAllNames(h1, TargetBindings([h.name.value]));
      TargetBindingNames([h.name.value]);
      assert TargetNames([h.name.value]) == {h.name.value.value};
    }
    SuiteBindsLand(o, h2, h.body);
    var s2 := WalkTryHandlers(o, s1, t);
    assert s2 == WalkHandler(o, s1, h) == WalkSuite(o, h2, h.body);
    ExtendsNames(s2, WalkTryFinish(o, s2, t));
    assert WalkStmt(o, st, t) == WalkTry(o, st, t) == WalkTryFinish(o, s2, t);
  }

  /**
    With no handler or several, each handler is walked in a block scope of
    its own: none of them changes the enclosing scope.
  */
  lemma HandlersConfined(o: Oracle, st: State, t: Stmt)
    requires Valid(st) && t.Try? && |t.handlers| != 1
    ensures WalkTryHandlers(o, st, t).scopes[st.cur] == st.scopes[st.cur]
  {
  }

  /** `finally` binds in the enclosing scope. */
  lemma FinallyBindsInScope(o: Oracle, st: State, t: Stmt)
    requires Valid(st) && t.Try? && t.finalbody.Some?
    ensures Names(st.scopes[st.cur]) + SuiteBinds(t.finalbody.value.body) <= Names(WalkStmt(o, st, t).scopes[st.cur])
  {
    var s1 := WalkTryBody(o, st, t);
    var s2 := WalkTryHandlers(o, s1, t);
    var s3 := match t.tryElse case None => s2 case Some(_) => WalkTryElse(o, s2, t);
    ExtendsTrans(st, s1, s2);
    ExtendsTrans(st, s2, s3);
    ExtendsNames(st, s3);
    SuiteBindsLand(o, s3, t.finalbody.value.body);
    assert WalkTryFinish(o, s2, t) == WalkSuite(o, s3, t.finalbody.value.body);
    assert WalkStmt(o, st, t) == WalkTry(o, st, t) == WalkTryFinish(o, s2, t);
  }

  /**
    A `try`-`else` opens a block scope below the enclosing one that holds the
    direct bindings of both the `try` body and the `else` body.
  */
  lemma TryElseSeesBody(o: Oracle, st: State, t: Stmt)
    requires Valid(st) && t.Try? && t.tryElse.Some?
    ensures exists j | |st.scopes| <= j < |WalkStmt(o, st, t).scopes| ::
              && WalkStmt(o, st, t).scopes[j].parent == Some(st.cur) && WalkStmt(o, st, t).scopes[j].kind == BlockScope
              && SuiteBinds(t.body) + SuiteBinds(t.tryElse.value.body) <= Names(WalkStmt(o, st, t).scopes[j])
  {
    var s1 := WalkTryBody(o, st, t);
    var s2 := WalkTryHandlers(o, s1, t);
    ExtendsTrans(st, s1, s2);
    var j := |s2.scopes|;
    var s3 := WalkTryElse(o, s2, t);
    TryElseScope(o, s2, t);
    var r := WalkStmt(o, st, t);
    assert r == WalkTry(o, st, t);
    assert r == WalkTryFinish(o, s2, t);
    assert Extends(s3, r);
    assert r.scopes[j] == s3.scopes[j] by {
      if t.finalbody.Some? {
        assert j != s3.cur;
      }
    }
    assert |st.scopes| <= j < |r.scopes|;
    assert r.scopes[j].parent == Some(st.cur);
    assert r.scopes[j].kind == BlockScope;
    assert SuiteBinds(t.body) + SuiteBinds(t.tryElse.value.body) <= Names(r.scopes[j]);
  }

  /** The block scope a `try`-`else` opens, at the first free index. */
  lemma TryElseScope(o: Oracle, st: State, t: Stmt)
    requires Valid(st) && t.Try? && t.tryElse.Some?
    ensures var r := WalkTryElse(o, st, t);
            && |st.scopes| < |r.scopes|
            && r.scopes[|st.scopes|].parent == Some(st.cur) && r.scopes[|st.scopes|].kind == BlockScope
            && SuiteBinds(t.body) + SuiteBinds(t.tryElse.value.body) <= Names(r.scopes[|st.scopes|])
  {
    var entered := Push(st, BlockScope, None);
    var e1 := WalkSuite(o, entered, t.body);
    var inner := WalkSuite(o, e1, t.tryElse.value.body);
    ExtendsTrans(entered, e1, inner);
    PushPop(st, BlockScope, None, inner);
    SuiteBindsLand(o, entered, t.body);
    SuiteBindsLand(o, e1, t.tryElse.value.body);
  }
}
