/**
  The block scopes a `for` or a `try` opens side by side are separate: the
  `for` body and its `else` each get a scope of their own, and so does every
  handler when there is not exactly one.  Each such scope holds the direct
  bindings of its block and nothing its block could not bind, so a name bound
  in one block only is unbound on the chain of the other.
*/
module BlockScopeSeparation {
  import opened Wrappers
  import opened Syntax
  import opened Scopes
  import opened AstUtils
  import opened BlockScopeWalk
  import opened BlockScopePolicy

  // ---------------------------------------------------------------------
  // Every name a walk may bind in the scope it is walked in
  // ---------------------------------------------------------------------

  /**
    The names a statement may bind in the scope it is walked in, whichever
    way the block-scope policy decides: its direct bindings, plus those of
    the `if` and `try` bodies the policy may visit in place.
  */
  function StmtMayBind(s: Stmt): set<string>
    decreases s, 1
  {
    match s
    case SimpleStatementLine(_, items, _) => SmallsBinds(items)
    case If(node) => IfMayBind(node)
    case For(_, ts, _, _, _) => TargetNames(ts)
    case Try(_, body, hs, _, fin) =>
      SuiteMayBind(body)
        + (if |hs| == 1 then HandlerMayBind(hs[0]) else {})
        + (if fin.Some? then SuiteMayBind(fin.value.body) else {})
    case FunctionDef(_, name, _, _, _) => {name}
    case ClassDef(_, name, _) => {name}
  }

  function StmtsMayBind(ss: seq<Stmt>): set<string>
    decreases ss, 0
  {
    if ss == [] then {} else StmtMayBind(ss[0]) + StmtsMayBind(ss[1..])
  }

  function SuiteMayBind(suite: Suite): set<string>
    decreases suite, 0
  {
    match suite
    case IndentedBlock(body) => StmtsMayBind(body)
    case SimpleStatementSuite(items, _) => SmallsBinds(items)
  }

  function IfMayBind(node: IfNode): set<string>
    decreases node, 0
  {
    SuiteMayBind(node.body) + OrElseMayBind(node.orelse)
  }

  function OrElseMayBind(orelse: OrElse): set<string>
    decreases orelse, 0
  {
    match orelse
    case NoElse => {}
    case Elif(n) => IfMayBind(n)
    case Else(e) => SuiteMayBind(e.body)
  }

  /** The `as` name of a handler, if any. */
  function HandlerName(h: ExceptHandler): set<string>
  {
    if h.name.Some? then {h.name.value.value} else {}
  }

  function HandlerMayBind(h: ExceptHandler): set<string>
    decreases h, 0
  {
    HandlerName(h) + SuiteMayBind(h.body)
  }

  // ---------------------------------------------------------------------
  // The walks bind nothing else
  // ---------------------------------------------------------------------

  /** Shorthand: the current record of `r` binds at most what that of `st` did, plus `xs`. */
  predicate BoundBy(st: State, r: State, xs: set<string>)
    requires Valid(st) && Valid(r) && st.cur < |r.scopes|
  {
    Names(r.scopes[st.cur]) <= Names(st.scopes[st.cur]) + xs
  }

  lemma SameAssignmentsNames(a: Scope, b: Scope)
    requires a.assignments == b.assignments
    ensures Names(a) == Names(b)
  {
  }

  lemma SmallBounded(o: Oracle, st: State, item: SmallStatement)
    requires Valid(st)
    ensures BoundBy(st, WalkSmall(o, st, item), SmallBinds(item))
  {
    match item
    case Assign(_, ts, v) =>
      var s1 := BindAll(st, TargetBindings(ts));
      BindAllNames(st, TargetBindings(ts));
      TargetBindingNames(ts);
      SameAssignmentsNames(s1.scopes[st.cur], WalkExpr(o, s1, v).scopes[st.cur]);
    case Import(_, names) =>
      BindAllNames(st, AliasBindings(names));
      AliasBindingNames(names);
    case ImportFrom(_, _, ImportAliases(aliases)) =>
      BindAllNames(st, AliasBindings(aliases));
      AliasBindingNames(aliases);
    case ImportFrom(_, _, ImportStar(_)) =>
    case ExprStatement(_, v) =>
      SameAssignmentsNames(st.scopes[st.cur], WalkExpr(o, st, v).scopes[st.cur]);
    case Raise(_, exc) =>
      SameAssignmentsNames(st.scopes[st.cur], WalkOptExpr(o, st, exc).scopes[st.cur]);
    case Return(_, result) =>
      SameAssignmentsNames(st.scopes[st.cur], WalkOptExpr(o, st, result).scopes[st.cur]);
    case Assert(_, test) =>
      SameAssignmentsNames(st.scopes[st.cur], WalkExpr(o, st, test).scopes[st.cur]);
    case _ =>
  }

  lemma {:induction false} SmallsBounded(o: Oracle, st: State, items: seq<SmallStatement>)
    requires Valid(st)
    ensures BoundBy(st, WalkSmalls(o, st, items), SmallsBinds(items))
    decreases items
  {
    if items != [] {
      var s1 := WalkSmall(o, st, items[0]);
      SmallBounded(o, st, items[0]);
      SmallsBounded(o, s1, items[1..]);
    }
  }

  lemma {:induction false} SuiteBounded(o: Oracle, st: State, suite: Suite)
    requires Valid(st)
    ensures BoundBy(st, WalkSuite(o, st, suite), SuiteMayBind(suite))
    decreases suite, 0
  {
    match suite
    case IndentedBlock(body) => StmtsBounded(o, st, body);
    case SimpleStatementSuite(items, _) => SmallsBounded(o, st, items);
  }

  lemma {:induction false} StmtsBounded(o: Oracle, st: State, ss: seq<Stmt>)
    requires Valid(st)
    ensures BoundBy(st, WalkStmts(o, st, ss), StmtsMayBind(ss))
    decreases ss, 0
  {
    if ss != [] {
      var s1 := WalkStmt(o, st, ss[0]);
      StmtBounded(o, st, ss[0]);
      StmtsBounded(o, s1, ss[1..]);
    }
  }

  lemma {:induction false} StmtBounded(o: Oracle, st: State, s: Stmt)
    requires Valid(st)
    ensures BoundBy(st, WalkStmt(o, st, s), StmtMayBind(s))
    decreases s, 3
  {
    match s
    case SimpleStatementLine(_, items, _) => SmallsBounded(o, st, items);
    case If(node) => IfBounded(o, st, node);
    case For(_, _, _, _, _) => ForScopeRecord(o, st, s);
    case Try(_, _, _, _, _) => TryBounded(o, st, s);
    case FunctionDef(id, name, ps, ret, body) =>
      var bind := [Assignment(name, FunctionDefNode(id, ret, body))];
      var s1 := BindAll(st, bind);
      BindAllNames(st, bind);
      var s2 := WalkAnnotations(o, s1, ps);
      var s3 := FunctionBody(o, s2, s);
      SameAssignmentsNames(s1.scopes[st.cur], s2.scopes[st.cur]);
      SameAssignmentsNames(s3.scopes[st.cur], WalkOptExpr(o, s3, ret).scopes[st.cur]);
    case ClassDef(id, name, body) =>
      BindAllNames(st, [Assignment(name, OtherNode(id))]);
      ClassDefLocal(o, st, s);
  }

  lemma {:induction false} IfBounded(o: Oracle, st: State, node: IfNode)
    requires Valid(st)
    ensures BoundBy(st, WalkIf(o, st, node), IfMayBind(node))
    decreases node, 1
  {
    var s1 := WalkExpr(o, st, node.test);
    SameAssignmentsNames(st.scopes[st.cur], s1.scopes[st.cur]);
    if IsConditionalTypingImport(o, s1.cur, node) {
      SuiteBounded(o, s1, node.body);
    } else if FinalElseTerminal(o, s1.scopes[s1.cur], s1.cur, node.orelse) {
      var s2 := WalkSuite(o, s1, node.body);
      SuiteBounded(o, s1, node.body);
      ChainBounded(o, s2, node.orelse);
    } else {
      var s2 := WalkBlock(o, s1, node.body);
      OrElseBounded(o, s2, node.orelse);
    }
  }

  lemma {:induction false} ChainBounded(o: Oracle, st: State, orelse: OrElse)
    requires Valid(st)
    ensures BoundBy(st, WalkChainBodies(o, st, orelse), OrElseMayBind(orelse))
    decreases orelse, 0
  {
    match orelse
    case NoElse =>
    case Elif(n) =>
      var s1 := WalkSuite(o, st, n.body);
      SuiteBounded(o, st, n.body);
      ChainBounded(o, s1, n.orelse);
    case Else(e) =>
      SuiteBounded(o, st, e.body);
  }

  lemma {:induction false} OrElseBounded(o: Oracle, st: State, orelse: OrElse)
    requires Valid(st)
    ensures BoundBy(st, WalkOrElse(o, st, orelse), OrElseMayBind(orelse))
    decreases orelse, 0
  {
    match orelse
    case NoElse =>
    case Elif(n) => IfBounded(o, st, n);
    case Else(e) => SuiteBounded(o, st, e.body);
  }

  lemma {:induction false} HandlerBounded(o: Oracle, st: State, h: ExceptHandler)
    requires Valid(st)
    ensures BoundBy(st, WalkHandler(o, st, h), HandlerMayBind(h))
    decreases h, 1
  {
    var s0 := WalkOptExpr(o, st, h.exceptionType);
    SameAssignmentsNames(st.scopes[st.cur], s0.scopes[st.cur]);
    var s1 := HandlerEntry(o, st, h);
    if h.name.Some? {
      BindAllNames(s0, TargetBindings([h.name.value]));
      TargetBindingNames([h.name.value]);
      assert TargetNames([h.name.value]) == HandlerName(h);
    }
    SuiteBounded(o, s1, h.body);
  }

  lemma {:induction false} TryBounded(o: Oracle, st: State, t: Stmt)
    requires Valid(st) && t.Try?
    ensures BoundBy(st, WalkStmt(o, st, t), StmtMayBind(t))
    decreases t, 2
  {
    var s1 := WalkTryBody(o, st, t);
    if AllTerminal(o, st.scopes[st.cur], st.cur, t.handlers) {
      SuiteBounded(o, st, t.body);
    }
    var s2 := WalkTryHandlers(o, s1, t);
    if |t.handlers| == 1 {
      HandlerBounded(o, s1, t.handlers[0]);
    }
    var s3 := match t.tryElse case None => s2 case Some(_) => WalkTryElse(o, s2, t);
    var r := WalkTryFinish(o, s2, t);
    if t.finalbody.Some? {
      SuiteBounded(o, s3, t.finalbody.value.body);
    }
    assert WalkStmt(o, st, t) == r;
  }

  // ---------------------------------------------------------------------
  // `try` handlers, when there is not exactly one
  // ---------------------------------------------------------------------

  /** The direct bindings of a handler: its `as` name and those of its body. */
  function HandlerBinds(h: ExceptHandler): set<string>
  {
    HandlerName(h) + SuiteBinds(h.body)
  }

  /** The index of the block scope each handler gets, in order. */
  function HandlerScopes(o: Oracle, st: State, hs: seq<ExceptHandler>): (js: seq<ScopeId>)
    requires Valid(st)
    ensures |js| == |hs|
    decreases hs
  {
    if hs == [] then []
    else
      var inner := WalkHandler(o, Push(st, BlockScope, None), hs[0]);
      PushPop(st, BlockScope, None, inner);
      [|st.scopes|] + HandlerScopes(o, Pop(st, inner), hs[1..])
  }

  /** A handler walked in a fresh block scope: that scope binds its direct bindings and nothing it could not bind. */
  lemma HandlerInBlock(o: Oracle, st: State, h: ExceptHandler)
    requires Valid(st)
    ensures var inner := WalkHandler(o, Push(st, BlockScope, None), h);
            && |st.scopes| < |inner.scopes|
            && HandlerBinds(h) <= Names(inner.scopes[|st.scopes|]) <= HandlerMayBind(h)
  {
    var entered := Push(st, BlockScope, None);
    assert Names(entered.scopes[|st.scopes|]) == {};
    var s0 := WalkOptExpr(o, entered, h.exceptionType);
    SameAssignmentsNames(entered.scopes[entered.cur], s0.scopes[entered.cur]);
    var s1 := HandlerEntry(o, entered, h);
    if h.name.Some? {
      BindAllNames(s0, TargetBindings([h.name.value]));
      TargetBindingNames([h.name.value]);
      assert TargetNames([h.name.value]) == HandlerName(h);
    }
    SuiteBindsLand(o, s1, h.body);
    HandlerBounded(o, entered, h);
  }

  /**
    With several handlers (or none), each is walked in a block scope of its
    own: the scopes are fresh, distinct and in order, hang directly below the
    current scope, and each binds its handler's direct bindings and nothing
    that handler could not bind.
  */
  lemma {:induction false} HandlersInOwnScopes(o: Oracle, st: State, hs: seq<ExceptHandler>)
    requires Valid(st)
    ensures var r := WalkHandlersInBlocks(o, st, hs);
            var js := HandlerScopes(o, st, hs);
            && (forall k | 0 <= k < |js| ::
                  && |st.scopes| <= js[k] < |r.scopes|
                  && r.scopes[js[k]].parent == Some(st.cur) && r.scopes[js[k]].kind == BlockScope
                  && HandlerBinds(hs[k]) <= Names(r.scopes[js[k]]) <= HandlerMayBind(hs[k]))
            && (forall k, m | 0 <= k < m < |js| :: js[k] < js[m])
    decreases hs
  {
    if hs != [] {
      var inner := WalkHandler(o, Push(st, BlockScope, None), hs[0]);
      PushPop(st, BlockScope, None, inner);
      HandlerInBlock(o, st, hs[0]);
      var s1 := Pop(st, inner);
      var r := WalkHandlersInBlocks(o, s1, hs[1..]);
      var js := HandlerScopes(o, st, hs);
      var rest := HandlerScopes(o, s1, hs[1..]);
      assert js == [|st.scopes|] + rest;
      HandlersInOwnScopes(o, s1, hs[1..]);
      assert r.scopes[|st.scopes|] == inner.scopes[|st.scopes|];
      forall k | 0 <= k < |js|
        ensures && |st.scopes| <= js[k] < |r.scopes|
                && r.scopes[js[k]].parent == Some(st.cur) && r.scopes[js[k]].kind == BlockScope
                && HandlerBinds(hs[k]) <= Names(r.scopes[js[k]]) <= HandlerMayBind(hs[k])
      {
        if k > 0 {
          assert js[k] == rest[k - 1] && hs[k] == hs[1..][k - 1];
        }
      }
      forall k, m | 0 <= k < m < |js|
        ensures js[k] < js[m]
      {
        assert js[m] == rest[m - 1];
        if k > 0 {
          assert js[k] == rest[k - 1];
        }
      }
    }
  }

  /**
    Handlers are separate: with not exactly one handler, a name that handler
    `m` could not bind, and that no scope on the chain of the enclosing scope
    binds, is unbound everywhere on the chain of `m`'s block scope, whichever
    other handler binds it.
  */
  lemma HandlersSeparate(o: Oracle, st: State, t: Stmt, m: nat, x: string)
    requires Valid(st) && t.Try? && |t.handlers| != 1 && m < |t.handlers|
    requires x !in HandlerMayBind(t.handlers[m])
    requires var r := WalkTryHandlers(o, st, t);
             forall i | 0 <= i < |r.scopes| && InChain(r.scopes, st.cur, i) :: x !in Names(r.scopes[i])
    ensures var r := WalkTryHandlers(o, st, t);
            var j := HandlerScopes(o, st, t.handlers)[m];
            && j < |r.scopes| && r.scopes[j].parent == Some(st.cur)
            && forall i | 0 <= i < |r.scopes| && InChain(r.scopes, j, i) :: x !in Names(r.scopes[i])
  {
    HandlersInOwnScopes(o, st, t.handlers);
  }

  // ---------------------------------------------------------------------
  // `for` body and `else`
  // ---------------------------------------------------------------------

  /** The state a `for` has before its body: the target bound, the iterable visited. */
  function ForHead(o: Oracle, st: State, s: Stmt): (r: State)
    requires Valid(st) && s.For?
    ensures Extends(st, r)
  {
    var s1 := BindAll(st, TargetBindings(s.target));
    var r := WalkExpr(o, s1, s.iter);
    ExtendsTrans(st, s1, r);
    r
  }

  /** A suite walked in a fresh block scope: that scope binds the suite's direct bindings and nothing it could not bind. */
  lemma SuiteInBlock(o: Oracle, st: State, suite: Suite)
    requires Valid(st)
    ensures var r := WalkBlock(o, st, suite);
            && |st.scopes| < |r.scopes|
            && r.scopes[|st.scopes|].parent == Some(st.cur) && r.scopes[|st.scopes|].kind == BlockScope
            && SuiteBinds(suite) <= Names(r.scopes[|st.scopes|]) <= SuiteMayBind(suite)
  {
    var entered := Push(st, BlockScope, None);
    assert Names(entered.scopes[|st.scopes|]) == {};
    var inner := WalkSuite(o, entered, suite);
    PushPop(st, BlockScope, None, inner);
    SuiteBindsLand(o, entered, suite);
    SuiteBounded(o, entered, suite);
  }

  /**
    The body of a `for` and its `else` get two distinct block scopes directly
    below the current scope, each binding the direct bindings of its block
    and nothing its block could not bind.
  */
  lemma ForScopes(o: Oracle, st: State, s: Stmt)
    requires Valid(st) && s.For?
    ensures var r := WalkStmt(o, st, s);
            var jb := |ForHead(o, st, s).scopes|;
            && jb < |r.scopes|
            && r.scopes[jb].parent == Some(st.cur) && r.scopes[jb].kind == BlockScope
            && SuiteBinds(s.body) <= Names(r.scopes[jb]) <= SuiteMayBind(s.body)
            && (s.forElse.Some? ==>
                  var je := |WalkBlock(o, ForHead(o, st, s), s.body).scopes|;
                  && jb < je < |r.scopes|
                  && r.scopes[je].parent == Some(st.cur) && r.scopes[je].kind == BlockScope
                  && SuiteBinds(s.forElse.value.body) <= Names(r.scopes[je]) <= SuiteMayBind(s.forElse.value.body))
  {
    var s2 := ForHead(o, st, s);
    var s3 := WalkBlock(o, s2, s.body);
    SuiteInBlock(o, s2, s.body);
    assert WalkStmt(o, st, s) == WalkFor(o, st, s);
    if s.forElse.Some? {
      SuiteInBlock(o, s3, s.forElse.value.body);
      assert WalkFor(o, st, s) == WalkBlock(o, s3, s.forElse.value.body);
    }
  }

  /**
    The `for` body and its `else` are separate: a name one of them could not
    bind, and that no scope on the chain of the enclosing scope binds after
    the loop, is unbound everywhere on that block's chain, whether or not the
    other block binds it.
  */
  lemma ForSeparate(o: Oracle, st: State, s: Stmt, x: string)
    requires Valid(st) && s.For? && s.forElse.Some?
    requires var r := WalkStmt(o, st, s);
             forall i | 0 <= i < |r.scopes| && InChain(r.scopes, st.cur, i) :: x !in Names(r.scopes[i])
    ensures var r := WalkStmt(o, st, s);
            var jb := |ForHead(o, st, s).scopes|;
            var je := |WalkBlock(o, ForHead(o, st, s), s.body).scopes|;
            && jb < je < |r.scopes|
            && (x !in SuiteMayBind(s.body) ==>
                  forall i | 0 <= i < |r.scopes| && InChain(r.scopes, jb, i) :: x !in Names(r.scopes[i]))
            && (x !in SuiteMayBind(s.forElse.value.body) ==>
                  forall i | 0 <= i < |r.scopes| && InChain(r.scopes, je, i) :: x !in Names(r.scopes[i]))
  {
    ForScopes(o, st, s);
  }
}
