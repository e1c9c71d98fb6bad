/**
  The scope-building walk as a function of the syntax tree: the reference
  the visitor class is proved against, and the subject of the scope-policy
  properties.

  The state is the scope table, the cursor naming the current scope, and the
  scopes no node maps to any longer.  A block is either visited in the
  current scope or inside a fresh `BlockScope` whose parent is the current
  scope; leaving the fresh scope restores the cursor.
*/
module BlockScopeWalk {
  import opened Wrappers
  import opened Syntax
  import opened Scopes
  import opened AstUtils

  /**
    libcst maps every node to the scope that is current when the visitor
    leaves it, and a node visited twice keeps the later scope.  `superseded`
    holds the scopes all of whose nodes were visited again elsewhere: they
    stay in the table but are not among the provider's values.
  */
  datatype State = State(scopes: seq<Scope>, cur: ScopeId, superseded: set<ScopeId>)

  predicate Valid(st: State)
  {
    WellFormed(st.scopes) && st.cur < |st.scopes|
  }

  /** A scope record that only had bindings and accesses appended. */
  predicate Grows(a: Scope, b: Scope)
  {
    && b.parent == a.parent && b.kind == a.kind && b.name == a.name
    && a.assignments <= b.assignments && a.accesses <= b.accesses
  }

  /** Scopes that the walk may open: neither the builtin nor the global scope. */
  predicate Nested(kind: ScopeKind)
  {
    kind != BuiltinScope && kind != GlobalScope
  }

  /**
    What every walk step does to the state: the cursor ends where it began,
    the current record only grows, every other existing record is untouched,
    every scope opened hangs below the current one, and only scopes opened by
    the step join the superseded ones.
  */
  predicate Extends(st: State, r: State)
  {
    && Valid(st) && Valid(r)
    && r.cur == st.cur && |st.scopes| <= |r.scopes|
    && Grows(st.scopes[st.cur], r.scopes[st.cur])
    && (forall i | 0 <= i < |st.scopes| && i != st.cur :: r.scopes[i] == st.scopes[i])
    && (forall i | |st.scopes| <= i < |r.scopes| ::
          && r.scopes[i].parent.Some? && st.cur <= r.scopes[i].parent.value
          && Nested(r.scopes[i].kind))
    && st.superseded <= r.superseded
    && (forall j | j in r.superseded && j !in st.superseded :: |st.scopes| <= j < |r.scopes|)
  }

  lemma ExtendsTrans(a: State, b: State, c: State)
    requires Extends(a, b) && Extends(b, c)
    ensures Extends(a, c)
  {
  }

  /** Recording an access in the current scope. */
  function RecordAccess(st: State, name: string, node: NodeId): (r: State)
    requires Valid(st)
    ensures Extends(st, r)
    ensures r.scopes[st.cur].assignments == st.scopes[st.cur].assignments
    ensures r.scopes[st.cur].accesses == st.scopes[st.cur].accesses + [Access(name, node, [])]
  {
    var sc := st.scopes[st.cur];
    st.(scopes := st.scopes[st.cur := sc.(accesses := sc.accesses + [Access(name, node, [])])])
  }

  /** Recording bindings in the current scope. */
  function BindAll(st: State, bs: seq<BaseAssignment>): (r: State)
    requires Valid(st)
    ensures Extends(st, r)
    ensures r.scopes[st.cur].assignments == st.scopes[st.cur].assignments + bs
    ensures r.scopes[st.cur].accesses == st.scopes[st.cur].accesses
  {
    var sc := st.scopes[st.cur];
    st.(scopes := st.scopes[st.cur := sc.(assignments := sc.assignments + bs)])
  }

  /** `_new_scope`, entering: a fresh, empty scope under the current one becomes current. */
  function Push(st: State, kind: ScopeKind, name: Option<string>): (r: State)
    requires Valid(st)
    ensures Valid(r) && r.cur == |st.scopes|
    ensures r.scopes == st.scopes + [Scope(Some(st.cur), kind, name, [], [])]
    ensures r.superseded == st.superseded
  {
    State(st.scopes + [Scope(Some(st.cur), kind, name, [], [])], |st.scopes|, st.superseded)
  }

  /** `_new_scope`, leaving: the table as the inner walk left it, the cursor as it was before. */
  function Pop(outer: State, inner: State): State
  {
    inner.(cur := outer.cur)
  }

  /** A walk inside a fresh scope leaves the enclosing record as it was. */
  lemma PushPop(st: State, kind: ScopeKind, name: Option<string>, inner: State)
    requires Valid(st) && Nested(kind) && Extends(Push(st, kind, name), inner)
    ensures Extends(st, Pop(st, inner))
    ensures Pop(st, inner).scopes[st.cur] == st.scopes[st.cur]
    ensures inner.scopes[|st.scopes|].parent == Some(st.cur) && inner.scopes[|st.scopes|].kind == kind
  {
    var p := Push(st, kind, name);
    assert p.scopes[st.cur] == st.scopes[st.cur];
    assert p.scopes[|st.scopes|].parent == Some(st.cur);
  }

  function TargetBindings(ts: seq<Target>): (r: seq<BaseAssignment>)
    ensures |r| == |ts|
    ensures forall k | 0 <= k < |ts| :: r[k] == Assignment(ts[k].value, OtherNode(ts[k].id))
  {
    if ts == [] then [] else [Assignment(ts[0].value, OtherNode(ts[0].id))] + TargetBindings(ts[1..])
  }

  function AliasBindings(aliases: seq<ImportAlias>): (r: seq<BaseAssignment>)
    ensures |r| == |aliases|
    ensures forall k | 0 <= k < |aliases| :: r[k] == Assignment(aliases[k].bound, OtherNode(aliases[k].id))
  {
    if aliases == [] then [] else [Assignment(aliases[0].bound, OtherNode(aliases[0].id))] + AliasBindings(aliases[1..])
  }

  function ParamBindings(ps: seq<Param>): (r: seq<BaseAssignment>)
    ensures |r| == |ps|
    ensures forall k | 0 <= k < |ps| :: r[k] == Assignment(ps[k].name.value, OtherNode(ps[k].name.id))
  {
    if ps == [] then [] else [Assignment(ps[0].name.value, OtherNode(ps[0].name.id))] + ParamBindings(ps[1..])
  }

  // ---------------------------------------------------------------------
  // Expressions: accesses only; lambdas and comprehensions open their own scopes
  // ---------------------------------------------------------------------

  function WalkExpr(o: Oracle, st: State, e: Expr): (r: State)
    requires Valid(st)
    ensures Extends(st, r) && r.scopes[st.cur].assignments == st.scopes[st.cur].assignments
    decreases e, 0
  {
    match e
    case Name(id, v) => RecordAccess(st, v, id)
    case Attribute(_, base, _) => WalkExpr(o, st, base)
    case Call(_, f, args) =>
      var s1 := WalkExpr(o, st, f);
      var r := WalkExprs(o, s1, args);
      ExtendsTrans(st, s1, r);
      r
    case Comparison(_, left, cs) =>
      var s1 := WalkExpr(o, st, left);
      var r := WalkComparisons(o, s1, cs);
      ExtendsTrans(st, s1, r);
      r
    case Lambda(_, ps, body) =>
      var entered := Push(st, FunctionScope, None);
      var bound := BindAll(entered, TargetBindings(ps));
      var inner := WalkExpr(o, bound, body);
      ExtendsTrans(entered, bound, inner);
      PushPop(st, FunctionScope, None, inner);
      Pop(st, inner)
    case ListComp(_, elt, t, iter) =>
      var s1 := WalkExpr(o, st, iter);
      var entered := Push(s1, ComprehensionScope, None);
      var bound := BindAll(entered, TargetBindings([t]));
      var inner := WalkExpr(o, bound, elt);
      ExtendsTrans(entered, bound, inner);
      PushPop(s1, ComprehensionScope, None, inner);
      ExtendsTrans(st, s1, Pop(s1, inner));
      Pop(s1, inner)
    case SimpleString(_, _) => st
    case Integer(_, _) => st
  }

  function WalkExprs(o: Oracle, st: State, es: seq<Expr>): (r: State)
    requires Valid(st)
    ensures Extends(st, r) && r.scopes[st.cur].assignments == st.scopes[st.cur].assignments
    decreases es, 0
  {
    if es == [] then st
    else
      var s1 := WalkExpr(o, st, es[0]);
      var r := WalkExprs(o, s1, es[1..]);
      ExtendsTrans(st, s1, r);
      r
  }

  function WalkComparisons(o: Oracle, st: State, cs: seq<ComparisonTarget>): (r: State)
    requires Valid(st)
    ensures Extends(st, r) && r.scopes[st.cur].assignments == st.scopes[st.cur].assignments
    decreases cs, 0
  {
    if cs == [] then st
    else
      var s1 := WalkComparison(o, st, cs[0]);
      var r := WalkComparisons(o, s1, cs[1..]);
      ExtendsTrans(st, s1, r);
      r
  }

  function WalkComparison(o: Oracle, st: State, c: ComparisonTarget): (r: State)
    requires Valid(st)
    ensures Extends(st, r) && r.scopes[st.cur].assignments == st.scopes[st.cur].assignments
    decreases c, 0
  {
    WalkExpr(o, st, c.comparator)
  }

  function WalkOptExpr(o: Oracle, st: State, oe: Option<Expr>): (r: State)
    requires Valid(st)
    ensures Extends(st, r) && r.scopes[st.cur].assignments == st.scopes[st.cur].assignments
    decreases oe, 0
  {
    match oe
    case None => st
    case Some(e) => WalkExpr(o, st, e)
  }

  // ---------------------------------------------------------------------
  // Statements
  // ---------------------------------------------------------------------

  function WalkSmall(o: Oracle, st: State, item: SmallStatement): (r: State)
    requires Valid(st)
    ensures Extends(st, r)
    decreases item, 0
  {
    match item
    case ExprStatement(_, v) => WalkExpr(o, st, v)
    case Assign(_, ts, v) =>
      var s1 := BindAll(st, TargetBindings(ts));
      var r := WalkExpr(o, s1, v);
      ExtendsTrans(st, s1, r);
      r
    case Raise(_, exc) => WalkOptExpr(o, st, exc)
    case Return(_, result) => WalkOptExpr(o, st, result)
    case Assert(_, test) => WalkExpr(o, st, test)
    case Break(_) => st
    case Continue(_) => st
    case Pass(_) => st
    case Import(_, names) => BindAll(st, AliasBindings(names))
    case ImportFrom(_, _, imported) =>
      (match imported
       case ImportStar(_) => st
       case ImportAliases(aliases) => BindAll(st, AliasBindings(aliases)))
  }

  function WalkSmalls(o: Oracle, st: State, items: seq<SmallStatement>): (r: State)
    requires Valid(st)
    ensures Extends(st, r)
    decreases items, 0
  {
    if items == [] then st
    else
      var s1 := WalkSmall(o, st, items[0]);
      var r := WalkSmalls(o, s1, items[1..]);
      ExtendsTrans(st, s1, r);
      r
  }

  /** A suite visited in the current scope. */
  function WalkSuite(o: Oracle, st: State, suite: Suite): (r: State)
    requires Valid(st)
    ensures Extends(st, r)
    decreases suite, 0
  {
    match suite
    case IndentedBlock(body) => WalkStmts(o, st, body)
    case SimpleStatementSuite(items, _) => WalkSmalls(o, st, items)
  }

  /** A suite visited inside a fresh block scope. */
  function WalkBlock(o: Oracle, st: State, suite: Suite): (r: State)
    requires Valid(st)
    ensures Extends(st, r) && r.scopes[st.cur] == st.scopes[st.cur]
    decreases suite, 1
  {
    var inner := WalkSuite(o, Push(st, BlockScope, None), suite);
    PushPop(st, BlockScope, None, inner);
    Pop(st, inner)
  }

  function WalkStmts(o: Oracle, st: State, ss: seq<Stmt>): (r: State)
    requires Valid(st)
    ensures Extends(st, r)
    decreases ss, 0
  {
    if ss == [] then st
    else
      var s1 := WalkStmt(o, st, ss[0]);
      var r := WalkStmts(o, s1, ss[1..]);
      ExtendsTrans(st, s1, r);
      r
  }

  function WalkStmt(o: Oracle, st: State, s: Stmt): (r: State)
    requires Valid(st)
    ensures Extends(st, r)
    decreases s, 3
  {
    match s
    case SimpleStatementLine(_, items, _) => WalkSmalls(o, st, items)
    case If(node) => WalkIf(o, st, node)
    case For(_, ts, iter, body, forElse) => WalkFor(o, st, s)
    case Try(_, _, _, _, _) => WalkTry(o, st, s)
    case FunctionDef(id, name, ps, ret, body) =>
      var s1 := BindAll(st, [Assignment(name, FunctionDefNode(id, ret, body))]);
      var s2 := WalkAnnotations(o, s1, ps);
      var entered := Push(s2, FunctionScope, Some(name));
      var bound := BindAll(entered, ParamBindings(ps));
      var inner := WalkSuite(o, bound, body);
      ExtendsTrans(entered, bound, inner);
      PushPop(s2, FunctionScope, Some(name), inner);
      var s3 := Pop(s2, inner);
      var r := WalkOptExpr(o, s3, ret);
      ExtendsTrans(st, s1, s2);
      ExtendsTrans(st, s2, s3);
      ExtendsTrans(st, s3, r);
      r
    case ClassDef(id, name, body) =>
      var s1 := BindAll(st, [Assignment(name, OtherNode(id))]);
      var inner := WalkSuite(o, Push(s1, ClassScope, Some(name)), body);
      PushPop(s1, ClassScope, Some(name), inner);
      ExtendsTrans(st, s1, Pop(s1, inner));
      Pop(s1, inner)
  }

  /**
    The parameter annotations of a `def`: libcst visits them, like the return
    annotation, in the scope enclosing the function.
  */
  function WalkAnnotations(o: Oracle, st: State, ps: seq<Param>): (r: State)
    requires Valid(st)
    ensures Extends(st, r) && r.scopes[st.cur].assignments == st.scopes[st.cur].assignments
    decreases ps, 0
  {
    if ps == [] then st
    else
      var s1 := WalkOptExpr(o, st, ps[0].annotation);
      var r := WalkAnnotations(o, s1, ps[1..]);
      ExtendsTrans(st, s1, r);
      r
  }

  /**
    `for`: the target is bound and the iterable visited in the current scope;
    the body gets a block scope and the `else`, if any, a second one.
  */
  function WalkFor(o: Oracle, st: State, s: Stmt): (r: State)
    requires Valid(st) && s.For?
    ensures Extends(st, r)
    decreases s, 1
  {
    var s1 := BindAll(st, TargetBindings(s.target));
    var s2 := WalkExpr(o, s1, s.iter);
    var s3 := WalkBlock(o, s2, s.body);
    ExtendsTrans(st, s1, s2);
    ExtendsTrans(st, s2, s3);
    match s.forElse
    case None => s3
    case Some(e) =>
      var r := WalkBlock(o, s3, e.body);
      ExtendsTrans(st, s3, r);
      r
  }

  /** The `else` that ends the `elif` chain is terminal; with no final `else`, false. */
  predicate FinalElseTerminal(o: Oracle, sc: Scope, s: ScopeId, orelse: OrElse)
    decreases orelse
  {
    match orelse
    case NoElse => false
    case Elif(n) => FinalElseTerminal(o, sc, s, n.orelse)
    case Else(e) => IsTerminal(o, sc, s, e.body, o.exitFuel)
  }

  /**
    `if`: the test is visited in the current scope.  A `TYPE_CHECKING` guard's
    body is visited in the current scope.  When the chain ends in a terminal
    `else`, the body and every `elif`/`else` body are visited in the current
    scope (the `elif` tests are not visited).  Otherwise the body gets a block
    scope and the `orelse` is walked as usual.
  */
  function WalkIf(o: Oracle, st: State, node: IfNode): (r: State)
    requires Valid(st)
    ensures Extends(st, r)
    decreases node, 0
  {
    var s1 := WalkExpr(o, st, node.test);
    if IsConditionalTypingImport(o, s1.cur, node) then
      var r := WalkSuite(o, s1, node.body);
      ExtendsTrans(st, s1, r);
      r
    else if FinalElseTerminal(o, s1.scopes[s1.cur], s1.cur, node.orelse) then
      var s2 := WalkSuite(o, s1, node.body);
      var r := WalkChainBodies(o, s2, node.orelse);
      ExtendsTrans(s1, s2, r);
      ExtendsTrans(st, s1, r);
      r
    else
      var s2 := WalkBlock(o, s1, node.body);
      var r := WalkOrElse(o, s2, node.orelse);
      ExtendsTrans(s1, s2, r);
      ExtendsTrans(st, s1, r);
      r
  }

  /** The bodies of the `elif`s and the `else` of a chain, in the current scope. */
  function WalkChainBodies(o: Oracle, st: State, orelse: OrElse): (r: State)
    requires Valid(st)
    ensures Extends(st, r)
    decreases orelse, 0
  {
    match orelse
    case NoElse => st
    case Elif(n) =>
      var s1 := WalkSuite(o, st, n.body);
      var r := WalkChainBodies(o, s1, n.orelse);
      ExtendsTrans(st, s1, r);
      r
    case Else(e) => WalkSuite(o, st, e.body)
  }

  /** The ordinary walk of an `orelse`: an `elif` is an `if`; an `else` body is visited in the current scope. */
  function WalkOrElse(o: Oracle, st: State, orelse: OrElse): (r: State)
    requires Valid(st)
    ensures Extends(st, r)
    decreases orelse, 0
  {
    match orelse
    case NoElse => st
    case Elif(n) => WalkIf(o, st, n)
    case Else(e) => WalkSuite(o, st, e.body)
  }

  predicate AllTerminal(o: Oracle, sc: Scope, s: ScopeId, handlers: seq<ExceptHandler>)
  {
    forall k | 0 <= k < |handlers| :: IsTerminal(o, sc, s, handlers[k].body, o.exitFuel)
  }

  /** An `except` clause: its type is visited, its `as` name bound and its body visited, all in the current scope. */
  function WalkHandler(o: Oracle, st: State, h: ExceptHandler): (r: State)
    requires Valid(st)
    ensures Extends(st, r)
    decreases h, 1
  {
    var s1 := HandlerEntry(o, st, h);
    var r := WalkSuite(o, s1, h.body);
    ExtendsTrans(st, s1, r);
    r
  }

  /** The handler's type visited and its `as` name bound, before its body. */
  function HandlerEntry(o: Oracle, st: State, h: ExceptHandler): (r: State)
    requires Valid(st)
    ensures Extends(st, r)
    decreases h, 0
  {
    var s1 := WalkOptExpr(o, st, h.exceptionType);
    match h.name
    case None => s1
    case Some(t) =>
      var r := BindAll(s1, TargetBindings([t]));
      ExtendsTrans(st, s1, r);
      r
  }

  /** Each handler inside its own block scope: none of them reaches the current record. */
  function WalkHandlersInBlocks(o: Oracle, st: State, hs: seq<ExceptHandler>): (r: State)
    requires Valid(st)
    ensures Extends(st, r) && r.scopes[st.cur] == st.scopes[st.cur]
    decreases hs, 0
  {
    if hs == [] then st
    else
      var inner := WalkHandler(o, Push(st, BlockScope, None), hs[0]);
      PushPop(st, BlockScope, None, inner);
      var r := WalkHandlersInBlocks(o, Pop(st, inner), hs[1..]);
      ExtendsTrans(st, Pop(st, inner), r);
      r
  }

  /**
    `try`: the body is visited in the current scope when every handler is
    terminal (vacuously so with none), in a block scope otherwise; a single
    handler is visited in the current scope, otherwise each gets a block
    scope; the `else` gets a block scope in which the body is walked again
    before the `else` body; `finally` is visited in the current scope.
  */
  function WalkTry(o: Oracle, st: State, t: Stmt): (r: State)
    requires Valid(st) && t.Try?
    ensures Extends(st, r)
    decreases t, 2
  {
    var s1 := WalkTryBody(o, st, t);
    var s2 := WalkTryHandlers(o, s1, t);
    var r := WalkTryFinish(o, s2, t);
    ExtendsTrans(st, s1, s2);
    ExtendsTrans(st, s2, r);
    r
  }

  /** The scopes opened between two states of a walk. */
  function Opened(a: State, b: State): set<ScopeId>
  {
    Range(|a.scopes|, |b.scopes|)
  }

  function Range(lo: nat, hi: nat): (r: set<nat>)
    ensures forall j :: j in r <==> lo <= j < hi
    decreases hi - lo
  {
    if hi <= lo then {} else {lo} + Range(lo + 1, hi)
  }



  /**
    The `try` body: in the current scope when every handler is terminal, else
    in a block scope.  With an `else` the body is visited a second time, so
    every node this first visit mapped to a scope it opened ends up mapped
    elsewhere: those scopes are superseded.
  */
  function WalkTryBody(o: Oracle, st: State, t: Stmt): (r: State)
    requires Valid(st) && t.Try?
    ensures Extends(st, r)
    ensures t.tryElse.Some? ==> Opened(st, r) <= r.superseded
    decreases t, 1
  {
    var walked := if AllTerminal(o, st.scopes[st.cur], st.cur, t.handlers) then WalkSuite(o, st, t.body) else WalkBlock(o, st, t.body);
    if t.tryElse.Some? then walked.(superseded := walked.superseded + Opened(st, walked)) else walked
  }

  /** The handlers: a single one in the current scope, otherwise each in a block scope of its own. */
  function WalkTryHandlers(o: Oracle, st: State, t: Stmt): (r: State)
    requires Valid(st) && t.Try?
    ensures Extends(st, r)
    decreases t, 1
  {
    if |t.handlers| == 1 then WalkHandler(o, st, t.handlers[0]) else WalkHandlersInBlocks(o, st, t.handlers)
  }

  /** The `else`, in a block scope of its own, then `finally`, in the current scope. */
  function WalkTryFinish(o: Oracle, st: State, t: Stmt): (r: State)
    requires Valid(st) && t.Try?
    ensures Extends(st, r)
    decreases t, 1
  {
    var s1 := match t.tryElse
      case None => st
      case Some(_) => WalkTryElse(o, st, t);
    match t.finalbody
    case None => s1
    case Some(f) =>
      var r := WalkSuite(o, s1, f.body);
      ExtendsTrans(st, s1, r);
      r
  }

  /** The `else` of a `try`: a block scope holding the body, walked again, then the `else` body. */
  function WalkTryElse(o: Oracle, st: State, t: Stmt): (r: State)
    requires Valid(st) && t.Try? && t.tryElse.Some?
    ensures Extends(st, r) && r.scopes[st.cur] == st.scopes[st.cur]
    decreases t, 0
  {
    var entered := Push(st, BlockScope, None);
    var s1 := WalkSuite(o, entered, t.body);
    var inner := WalkSuite(o, s1, t.tryElse.value.body);
    ExtendsTrans(entered, s1, inner);
    PushPop(st, BlockScope, None, inner);
    Pop(st, inner)
  }
}
