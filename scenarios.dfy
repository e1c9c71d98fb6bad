/**
  Concrete modules from the repository's test suite, with the warnings the
  model assigns them.  Positions are those of the test sources; no
  qualified-name facts are needed, so the oracle knows none.  Last, the
  qualified names of bindings in a small table of nested scopes.
*/
module Scenarios {
  import opened Wrappers
  import opened Syntax
  import opened Scopes
  import opened AstUtils
  import opened BlockScopeWalk
  import opened BlockScopeProvider
  import opened TreeLeaves
  import opened IgnoreComments
  import opened ImportStars
  import opened Check
  import opened AccessOrder

  const NO_FACTS: Oracle := Oracle(map[], 1)
  const BUILTINS: seq<string> := ["print", "True", "False", "range", "IndexError"]

  function At(line: nat, column: nat): CodeRange
  {
    CodeRange(Position(line, column), Position(line, column + 1))
  }

  function Line(id: NodeId, item: SmallStatement): Stmt
  {
    SimpleStatementLine(id, [item], None)
  }

  /** `print(x)`, the call at node `id`, the name of `x` at `arg`. */
  function PrintCall(id: NodeId, arg: NodeId, x: string): SmallStatement
  {
    ExprStatement(id, Call(id + 1, Name(id + 2, "print"), [Name(arg, x)]))
  }

  function AssignOne(id: NodeId, x: string): SmallStatement
  {
    Assign(id, [Target(id + 1, x)], Integer(id + 2, 1))
  }

  // if True:
  //     a = 1
  // print(a)  <trailing comment>
  function IfModule(trailing: Option<Comment>): Module
  {
    Module([
      If(IfNode(1, Name(2, "True"), IndentedBlock([Line(3, AssignOne(4, "a"))]), NoElse)),
      SimpleStatementLine(10, [PrintCall(11, 20, "a")], trailing)])
  }

  const IF_MODULE: Module := IfModule(None)

  const IF_RANGES: map<NodeId, CodeRange> := map[2 := At(2, 3), 13 := At(4, 0), 20 := At(4, 6)]

  const EMPTY_GLOBAL: Scope := Scope(Some(0), GlobalScope, None, [], [])
  const IF_BLOCK: Scope := Scope(Some(1), BlockScope, None, [Assignment("a", OtherNode(5))], [])

  function IfAfterIf(b: Scope): State
  {
    State([b, EMPTY_GLOBAL.(accesses := [Access("True", 2, [])]), IF_BLOCK], 1, {})
  }

  function IfWalked(b: Scope): State
  {
    State([b, EMPTY_GLOBAL.(accesses := [Access("True", 2, []), Access("print", 13, []), Access("a", 20, [])]), IF_BLOCK], 1, {})
  }

  lemma IfStatementWalk(b: Scope, tr: Option<Comment>)
    requires b.parent == None
    ensures Valid(State([b, EMPTY_GLOBAL], 1, {}))
    ensures WalkStmt(NO_FACTS, State([b, EMPTY_GLOBAL], 1, {}), IfModule(tr).body[0]) == IfAfterIf(b)
  {
    var o := NO_FACTS;
    var global := EMPTY_GLOBAL;
    var init := State([b, global], 1, {});
    var node := IfModule(tr).body[0].node;

    // The test is an access in the global scope; the body gets a block scope.
    var g1 := global.(accesses := [Access("True", 2, [])]);
    var s1 := State([b, g1], 1, {});
    assert [b, global][1 := g1] == [b, g1];
    assert global.accesses + [Access("True", 2, [])] == g1.accesses;
    assert RecordAccess(init, "True", 2) == s1;
    assert WalkExpr(o, init, node.test) == s1;
    assert !IsConditionalTypingImport(o, 1, node);
    assert !FinalElseTerminal(o, g1, 1, node.orelse);
    var block := IF_BLOCK;
    var inBlock := State([b, g1, Scope(Some(1), BlockScope, None, [], [])], 2, {});
    assert Push(s1, BlockScope, None) == inBlock;
    var bound := State([b, g1, block], 2, {});
    assert inBlock.scopes[2 := block] == bound.scopes;
    assert inBlock.scopes[2].assignments + [Assignment("a", OtherNode(5))] == block.assignments;
    assert BindAll(inBlock, [Assignment("a", OtherNode(5))]) == bound;
    assert TargetBindings([Target(5, "a")]) == [Assignment("a", OtherNode(5))];
    assert WalkSmall(o, inBlock, AssignOne(4, "a")) == bound;
    assert WalkSmalls(o, inBlock, [AssignOne(4, "a")]) == bound;
    assert WalkStmts(o, inBlock, [Line(3, AssignOne(4, "a"))]) == bound;
    assert WalkSuite(o, inBlock, node.body) == bound;
    assert WalkBlock(o, s1, node.body) == State([b, g1, block], 1, {});
  }

  lemma PrintLineWalk(b: Scope, tr: Option<Comment>)
    requires b.parent == None
    ensures Valid(IfAfterIf(b))
    ensures WalkStmt(NO_FACTS, IfAfterIf(b), IfModule(tr).body[1]) == IfWalked(b)
  {
    var o := NO_FACTS;
    var s2 := IfAfterIf(b);
    var g1 := s2.scopes[1];
    var g2 := IfWalked(b).scopes[1];
    var withPrint := State([b, g1.(accesses := g1.accesses + [Access("print", 13, [])]), IF_BLOCK], 1, {});
    assert s2.scopes[1 := withPrint.scopes[1]] == withPrint.scopes;
    assert WalkExpr(o, s2, Name(13, "print")) == withPrint;
    assert withPrint.scopes[1 := g2] == IfWalked(b).scopes;
    assert withPrint.scopes[1].accesses + [Access("a", 20, [])] == g2.accesses;
    assert WalkExpr(o, withPrint, Name(20, "a")) == IfWalked(b);
    assert WalkExprs(o, withPrint, [Name(20, "a")]) == IfWalked(b);
    assert WalkSmall(o, s2, PrintCall(11, 20, "a")) == IfWalked(b);
  }

  lemma IfModuleWalk(b: Scope, tr: Option<Comment>)
    requires b.parent == None
    ensures Valid(State([b, EMPTY_GLOBAL], 1, {}))
    ensures WalkStmts(NO_FACTS, State([b, EMPTY_GLOBAL], 1, {}), IfModule(tr).body) == IfWalked(b)
  {
    IfStatementWalk(b, tr);
    PrintLineWalk(b, tr);
    var o, init := NO_FACTS, State([b, EMPTY_GLOBAL], 1, {});
    var body := IfModule(tr).body;
    assert body[1..] == [body[1]] && body[1..][1..] == [];
    assert WalkStmts(o, IfAfterIf(b), body[1..]) == WalkStmts(o, IfWalked(b), []);
    assert WalkStmts(o, init, body) == WalkStmts(o, IfAfterIf(b), body[1..]);
  }

  /** The builtin scope binds the builtins and nothing else. */
  lemma BuiltinNames()
    ensures Names(InitialState(BUILTINS).scopes[0]) == {"print", "True", "False", "range", "IndexError"}
    ensures InitialState(BUILTINS).scopes[0].parent == None
    ensures InitialState(BUILTINS).scopes[0].accesses == []
  {
    assert (set x | x in BUILTINS) == {"print", "True", "False", "range", "IndexError"};
  }

  /** Resolution of the `if` module: the two builtins resolve, `a` does not. */
  lemma IfResolution(b: Scope)
    requires b.parent == None && "True" in Names(b) && "print" in Names(b) && "a" !in Names(b)
    ensures Valid(State([b, EMPTY_GLOBAL], 1, {}))
    ensures var t := InferAccesses(IfWalked(b).scopes);
            && |t| == 3 && t[2].accesses == [] && |t[1].accesses| == 3
            && t[1].accesses[0].referents != [] && t[1].accesses[1].referents != []
            && t[1].accesses[0].name == "True" && t[1].accesses[1].name == "print"
            && t[1].accesses[2] == Access("a", 20, [])
  {
    var s3 := IfWalked(b);
    var t := InferAccesses(s3.scopes);
    assert InChain(s3.scopes, 1, 0);
    assert forall j | 0 <= j < 3 && InChain(s3.scopes, 1, j) :: j == 0 || j == 1;
  }

  lemma IfTable(tr: Option<Comment>)
    ensures ModuleScopes(NO_FACTS, BUILTINS, IfModule(tr)) == InferAccesses(IfWalked(InitialState(BUILTINS).scopes[0]).scopes)
    ensures ModuleSuperseded(NO_FACTS, BUILTINS, IfModule(tr)) == {}
  {
    var b := InitialState(BUILTINS).scopes[0];
    BuiltinNames();
    IfModuleWalk(b, tr);
    assert InitialState(BUILTINS) == State([b, EMPTY_GLOBAL], 1, {});
  }

  /** The resolved table of the `if` module, whatever its trailing comment. */
  lemma IfModuleTable(tr: Option<Comment>)
    ensures var t := ModuleScopes(NO_FACTS, BUILTINS, IfModule(tr));
            && |t| == 3 && t[2].accesses == [] && |t[1].accesses| == 3
            && t[1].accesses[0].referents != [] && t[1].accesses[1].referents != []
            && t[1].accesses[0].name == "True" && t[1].accesses[1].name == "print"
            && t[1].accesses[2] == Access("a", 20, [])
            && ModuleNodeScopes(NO_FACTS, BUILTINS, IfModule(tr)) == NodeScopes(t, {})
  {
    var b := InitialState(BUILTINS).scopes[0];
    BuiltinNames();
    IfResolution(b);
    IfTable(tr);
  }

  lemma IfLeaves(tr: Option<Comment>)
    ensures ModuleLeaves(IfModule(tr)) == TrailingLeaves(tr)
  {
    var body := IfModule(tr).body;
    assert StmtLeaves(body[0]) == [];
    assert StmtLeaves(body[1]) == TrailingLeaves(tr);
    assert body[1..] == [body[1]] && body[1..][1..] == [];
    assert StmtsLeaves(body[1..]) == StmtLeaves(body[1]) + StmtsLeaves([]);
    assert StmtsLeaves(body) == StmtLeaves(body[0]) + StmtsLeaves(body[1..]);
  }

  /** The metadata of a module without comments or `import *`. */
  lemma PlainMetadata(o: Oracle, builtins: seq<string>, m: Module, ranges: map<NodeId, CodeRange>)
    requires ModuleLeaves(m) == []
    ensures CommentsPlaced(ranges, ModuleLeaves(m))
    ensures ModuleMetadata(o, builtins, m, ranges) == Metadata(ModuleNodeScopes(o, builtins, m), ranges, false, {})
  {
    assert IgnoredLineSet(ranges, []) == {};
  }

  lemma ThreeScopes(t: seq<Scope>)
    requires |t| == 3
    ensures NodeScopes(t, {}) == [Some(t[1]), Some(t[2])]
  {
  }

  /** A binding inside an `if` body does not reach the code after the `if`. */
  lemma IfBodyBindingStaysInside()
    ensures CommentsPlaced(IF_RANGES, ModuleLeaves(IF_MODULE))
    ensures Warnings(ModuleMetadata(NO_FACTS, BUILTINS, IF_MODULE, IF_RANGES)) == [RefWarning(4, 6, "a")]
  {
    IfModuleTable(None);
    var t := ModuleScopes(NO_FACTS, BUILTINS, IF_MODULE);
    IfLeaves(None);
    PlainMetadata(NO_FACTS, BUILTINS, IF_MODULE, IF_RANGES);
    ThreeScopes(t);
    OnlyAUnresolved(Metadata(NodeScopes(t, {}), IF_RANGES, false, {}), t[1], t[2], At(4, 6));
  }

  /** The warnings of a table whose only unresolved access is `a`, located at `at`. */
  lemma OnlyAUnresolved(md: Metadata, g: Scope, blk: Scope, at: CodeRange)
    requires md.scopes == [Some(g), Some(blk)] && !md.importStar
    requires blk.accesses == [] && |g.accesses| == 3
    requires g.accesses[0].referents != [] && g.accesses[1].referents != []
    requires g.accesses[0].name == "True" && g.accesses[1].name == "print"
    requires g.accesses[2] == Access("a", 20, []) && 20 in md.ranges && md.ranges[20] == at
    ensures Warnings(md) == if at.start.line in md.ignoredLines then [] else [RefWarning(at.start.line, at.start.column, "a")]
  {
    var expected := if at.start.line in md.ignoredLines then [] else [RefWarning(at.start.line, at.start.column, "a")];
    DistinctNamesByName(g.accesses);
    assert ByName(blk.accesses) == [];
    assert g.accesses[..2][..1] == g.accesses[..1];
    assert g.accesses[..3][..2] == g.accesses[..2];
    assert g.accesses[..3] == g.accesses;
    assert AccessWarnings(md, g.accesses[0]) == [];
    assert AccessWarnings(md, g.accesses[1]) == [];
    assert AccessWarnings(md, g.accesses[2]) == expected;
    assert AccessesWarnings(md, g.accesses[..1]) == [];
    assert AccessesWarnings(md, g.accesses[..2]) == [];
    assert AccessesWarnings(md, g.accesses) == expected;
    assert md.scopes[..1] == [Some(g)];
    assert md.scopes[..1][..0] == [];
    assert ScopesWarnings(md, md.scopes[..1]) == expected;
    assert AccessesWarnings(md, blk.accesses) == [];
    assert ScopesWarnings(md, md.scopes) == expected;
  }

  // print(a) # ref: ignore      (on line 5)
  const IGNORE_COMMENT: Comment := Comment(30, "# ref: ignore")
  const IGNORE_RANGES: map<NodeId, CodeRange> := map[2 := At(2, 3), 13 := At(5, 0), 20 := At(5, 6), 30 := At(5, 9)]

  /** The metadata of a module whose only leaf is one ignore comment. */
  lemma IgnoreCommentMetadata(o: Oracle, builtins: seq<string>, m: Module, ranges: map<NodeId, CodeRange>, c: Comment, line: nat)
    requires ModuleLeaves(m) == [CommentLeaf(c)] && c.id in ranges && Contains(c.value, IGNORE_MARKER)
    requires ranges[c.id].start.line == line
    ensures CommentsPlaced(ranges, ModuleLeaves(m))
    ensures ModuleMetadata(o, builtins, m, ranges) ==
              Metadata(ModuleNodeScopes(o, builtins, m), ranges, false, {line})
  {
    var leaves := [CommentLeaf(c)];
    assert IsIgnoreComment(leaves[0]);
    assert IgnoredLineSet(ranges, leaves) == {ranges[c.id].start.line};
  }

  lemma IgnoreCommentMatches()
    ensures Contains(IGNORE_COMMENT.value, IGNORE_MARKER)
  {
    MarkerAnywhere("# ", "");
    assert "# " + IGNORE_MARKER + "" == IGNORE_COMMENT.value;
  }

  /** The `if` module whose metadata ignores the line of the access to `a` reports nothing. */
  lemma IfModuleSilenced(tr: Option<Comment>, ranges: map<NodeId, CodeRange>, line: nat)
    requires CommentsPlaced(ranges, ModuleLeaves(IfModule(tr)))
    requires ModuleMetadata(NO_FACTS, BUILTINS, IfModule(tr), ranges) ==
               Metadata(ModuleNodeScopes(NO_FACTS, BUILTINS, IfModule(tr)), ranges, false, {line})
    requires 20 in ranges && ranges[20].start.line == line
    ensures Warnings(ModuleMetadata(NO_FACTS, BUILTINS, IfModule(tr), ranges)) == []
  {
    IfModuleTable(tr);
    var t := ModuleScopes(NO_FACTS, BUILTINS, IfModule(tr));
    ThreeScopes(t);
    OnlyAUnresolved(Metadata(NodeScopes(t, {}), ranges, false, {line}), t[1], t[2], ranges[20]);
  }

  /** An ignore comment on the line of the access silences its warning. */
  lemma IgnoreCommentSilencesLine()
    ensures CommentsPlaced(IGNORE_RANGES, ModuleLeaves(IfModule(Some(IGNORE_COMMENT))))
    ensures Warnings(ModuleMetadata(NO_FACTS, BUILTINS, IfModule(Some(IGNORE_COMMENT)), IGNORE_RANGES)) == []
  {
    var m := IfModule(Some(IGNORE_COMMENT));
    IfLeaves(Some(IGNORE_COMMENT));
    IgnoreCommentMatches();
    IgnoreCommentMetadata(NO_FACTS, BUILTINS, m, IGNORE_RANGES, IGNORE_COMMENT, 5);
    IfModuleSilenced(Some(IGNORE_COMMENT), IGNORE_RANGES, 5);
  }

  // try:
  //     print(x)
  // except: pass
  // else: pass
  const TRY_BODY: Suite := IndentedBlock([Line(2, PrintCall(3, 10, "x"))])
  const TRY_STMT: Stmt := Try(1, TRY_BODY, [ExceptHandler(20, None, None, SimpleStatementSuite([Pass(21)], None))],
                              Some(ElseNode(30, SimpleStatementSuite([Pass(31)], None))), None)
  const TRY_MODULE: Module := Module([TRY_STMT])
  const TRY_RANGES: map<NodeId, CodeRange> := map[5 := At(2, 4), 10 := At(2, 10)]

  const FRESH_BLOCK: Scope := Scope(Some(1), BlockScope, None, [], [])
  const TRY_BLOCK: Scope := FRESH_BLOCK.(accesses := [Access("print", 5, []), Access("x", 10, [])])

  /** The `try` body, walked in a fresh block scope at the end of the table. */
  lemma TryBodyInBlock(pre: seq<Scope>, sup: set<ScopeId>)
    requires Valid(State(pre + [FRESH_BLOCK], |pre|, sup))
    ensures WalkSuite(NO_FACTS, State(pre + [FRESH_BLOCK], |pre|, sup), TRY_BODY) == State(pre + [TRY_BLOCK], |pre|, sup)
  {
    var o := NO_FACTS;
    var st := State(pre + [FRESH_BLOCK], |pre|, sup);
    var withPrint := FRESH_BLOCK.(accesses := [Access("print", 5, [])]);
    var s1 := State(pre + [withPrint], |pre|, sup);
    var r := State(pre + [TRY_BLOCK], |pre|, sup);
    assert st.scopes[|pre|] == FRESH_BLOCK;
    assert FRESH_BLOCK.accesses + [Access("print", 5, [])] == withPrint.accesses;
    assert (pre + [FRESH_BLOCK])[|pre| := withPrint] == pre + [withPrint];
    assert WalkExpr(o, st, Name(5, "print")) == s1;
    assert (pre + [withPrint])[|pre| := TRY_BLOCK] == pre + [TRY_BLOCK];
    assert withPrint.accesses + [Access("x", 10, [])] == TRY_BLOCK.accesses;
    assert WalkExpr(o, s1, Name(10, "x")) == r;
    assert WalkExprs(o, s1, [Name(10, "x")]) == r;
    assert WalkSmall(o, st, PrintCall(3, 10, "x")) == r;
    assert WalkSmalls(o, st, [PrintCall(3, 10, "x")]) == r;
    assert WalkStmts(o, st, [Line(2, PrintCall(3, 10, "x"))]) == r;
  }

  /** The handler is not terminal, so the body gets a block scope, which the `else` supersedes. */
  lemma TryBodyWalk(b: Scope)
    requires b.parent == None
    ensures Valid(State([b, EMPTY_GLOBAL], 1, {}))
    ensures WalkTryBody(NO_FACTS, State([b, EMPTY_GLOBAL], 1, {}), TRY_STMT) == State([b, EMPTY_GLOBAL, TRY_BLOCK], 1, {2})
  {
    var o, init := NO_FACTS, State([b, EMPTY_GLOBAL], 1, {});
    assert !IsTerminal(o, EMPTY_GLOBAL, 1, TRY_STMT.handlers[0].body, o.exitFuel);
    assert !AllTerminal(o, EMPTY_GLOBAL, 1, TRY_STMT.handlers);
    assert Push(init, BlockScope, None) == State([b, EMPTY_GLOBAL] + [FRESH_BLOCK], 2, {});
    TryBodyInBlock([b, EMPTY_GLOBAL], {});
    assert WalkBlock(o, init, TRY_BODY) == State([b, EMPTY_GLOBAL, TRY_BLOCK], 1, {});
    assert Range(2, 3) == {2} by {
      assert Range(3, 3) == {};
    }
  }

  /** The lone handler stays in the global scope and binds nothing; the `else` walks the body again. */
  lemma TryRestWalk(b: Scope)
    requires b.parent == None
    ensures Valid(State([b, EMPTY_GLOBAL, TRY_BLOCK], 1, {2}))
    ensures WalkTryFinish(NO_FACTS, WalkTryHandlers(NO_FACTS, State([b, EMPTY_GLOBAL, TRY_BLOCK], 1, {2}), TRY_STMT), TRY_STMT)
         == State([b, EMPTY_GLOBAL, TRY_BLOCK, TRY_BLOCK], 1, {2})
  {
    var o, s1 := NO_FACTS, State([b, EMPTY_GLOBAL, TRY_BLOCK], 1, {2});
    assert WalkSmalls(o, s1, [Pass(21)]) == s1;
    assert WalkHandler(o, s1, TRY_STMT.handlers[0]) == s1;
    assert WalkTryHandlers(o, s1, TRY_STMT) == s1;
    var entered := Push(s1, BlockScope, None);
    assert entered == State([b, EMPTY_GLOBAL, TRY_BLOCK] + [FRESH_BLOCK], 3, {2});
    TryBodyInBlock([b, EMPTY_GLOBAL, TRY_BLOCK], {2});
    var again := State([b, EMPTY_GLOBAL, TRY_BLOCK, TRY_BLOCK], 3, {2});
    assert [b, EMPTY_GLOBAL, TRY_BLOCK] + [TRY_BLOCK] == again.scopes;
    assert WalkSuite(o, entered, TRY_BODY) == again;
    assert WalkSmalls(o, again, [Pass(31)]) == again;
    assert WalkTryElse(o, s1, TRY_STMT) == again.(cur := 1);
  }

  lemma TryStmtWalk(b: Scope)
    requires b.parent == None
    ensures Valid(State([b, EMPTY_GLOBAL], 1, {}))
    ensures WalkStmt(NO_FACTS, State([b, EMPTY_GLOBAL], 1, {}), TRY_STMT) == State([b, EMPTY_GLOBAL, TRY_BLOCK, TRY_BLOCK], 1, {2})
  {
    TryBodyWalk(b);
    TryRestWalk(b);
    TryStages(NO_FACTS, State([b, EMPTY_GLOBAL], 1, {}), TRY_STMT);
  }

  /** A `try` statement is walked body first, then handlers, then `else` and `finally`. */
  lemma TryStages(o: Oracle, st: State, t: Stmt)
    requires Valid(st) && t.Try?
    ensures WalkStmt(o, st, t) == WalkTryFinish(o, WalkTryHandlers(o, WalkTryBody(o, st, t), t), t)
  {
  }

  lemma TryModuleWalk(b: Scope)
    requires b.parent == None
    ensures Valid(State([b, EMPTY_GLOBAL], 1, {}))
    ensures WalkStmts(NO_FACTS, State([b, EMPTY_GLOBAL], 1, {}), TRY_MODULE.body) == State([b, EMPTY_GLOBAL, TRY_BLOCK, TRY_BLOCK], 1, {2})
  {
    var o, init := NO_FACTS, State([b, EMPTY_GLOBAL], 1, {});
    TryStmtWalk(b);
    var r := State([b, EMPTY_GLOBAL, TRY_BLOCK, TRY_BLOCK], 1, {2});
    assert TRY_MODULE.body[1..] == [];
    assert WalkStmts(o, init, TRY_MODULE.body) == WalkStmts(o, r, []);
  }

  /** Resolution of the `try` module: `print` resolves in the `else` copy of the block, `x` does not. */
  lemma TryResolution(b: Scope)
    requires b.parent == None && "print" in Names(b) && "x" !in Names(b)
    ensures WellFormed([b, EMPTY_GLOBAL, TRY_BLOCK, TRY_BLOCK])
    ensures var t := InferAccesses([b, EMPTY_GLOBAL, TRY_BLOCK, TRY_BLOCK]);
            && |t| == 4 && t[1].accesses == []
            && |t[3].accesses| == 2 && t[3].accesses[0].referents != [] && t[3].accesses[1] == Access("x", 10, [])
            && t[3].accesses[0].name == "print"
  {
    var w := [b, EMPTY_GLOBAL, TRY_BLOCK, TRY_BLOCK];
    assert InChain(w, 3, 0);
    assert forall j | 0 <= j < 4 && InChain(w, 3, j) :: j == 0 || j == 1 || j == 3;
  }

  lemma TryTable()
    ensures ModuleScopes(NO_FACTS, BUILTINS, TRY_MODULE)
         == InferAccesses([InitialState(BUILTINS).scopes[0], EMPTY_GLOBAL, TRY_BLOCK, TRY_BLOCK])
    ensures ModuleSuperseded(NO_FACTS, BUILTINS, TRY_MODULE) == {2}
  {
    var b := InitialState(BUILTINS).scopes[0];
    BuiltinNames();
    TryModuleWalk(b);
    assert InitialState(BUILTINS) == State([b, EMPTY_GLOBAL], 1, {});
  }

  /** The resolved table: `print` resolves in the `else` copy of the block, `x` does not. */
  lemma TryModuleTable()
    ensures var t := ModuleScopes(NO_FACTS, BUILTINS, TRY_MODULE);
            && |t| == 4 && t[1].accesses == [] && ModuleSuperseded(NO_FACTS, BUILTINS, TRY_MODULE) == {2}
            && |t[3].accesses| == 2 && t[3].accesses[0].referents != [] && t[3].accesses[1] == Access("x", 10, [])
            && t[3].accesses[0].name == "print"
  {
    var b := InitialState(BUILTINS).scopes[0];
    BuiltinNames();
    TryResolution(b);
    TryTable();
  }

  lemma TryLeaves()
    ensures ModuleLeaves(TRY_MODULE) == []
  {
    assert StmtLeaves(TRY_STMT) == [];
    assert TRY_MODULE.body[1..] == [];
  }

  lemma TryNodeScopes(t: seq<Scope>)
    requires |t| == 4
    ensures NodeScopes(t, {2}) == [Some(t[1]), None, Some(t[3])]
  {
  }

  /** The warnings of a value list whose only unresolved access is `x` in the last entry. */
  lemma OnlyXUnresolved(md: Metadata, g: Scope, blk: Scope)
    requires md.scopes == [Some(g), None, Some(blk)] && !md.importStar && md.ignoredLines == {}
    requires g.accesses == [] && |blk.accesses| == 2
    requires blk.accesses[0].referents != [] && blk.accesses[0].name == "print" && blk.accesses[1] == Access("x", 10, [])
    requires 10 in md.ranges && md.ranges[10] == At(2, 10)
    ensures Warnings(md) == [RefWarning(2, 10, "x")]
  {
    var expected := [RefWarning(2, 10, "x")];
    DistinctNamesByName(blk.accesses);
    assert ByName(g.accesses) == [];
    assert blk.accesses[..1][..0] == [];
    assert AccessWarnings(md, blk.accesses[0]) == [];
    assert AccessWarnings(md, blk.accesses[1]) == expected;
    assert AccessesWarnings(md, blk.accesses[..1]) == [];
    assert blk.accesses[..2] == blk.accesses;
    assert AccessesWarnings(md, blk.accesses) == expected;
    assert md.scopes[..2] == [Some(g), None];
    assert md.scopes[..2][..1] == [Some(g)];
    assert md.scopes[..2][..1][..0] == [];
    assert ScopesWarnings(md, md.scopes[..2][..1]) == [];
    assert ScopesWarnings(md, md.scopes[..2]) == [];
    assert ScopeWarnings(md, md.scopes[2]) == expected;
    assert ScopesWarnings(md, md.scopes) == ScopesWarnings(md, md.scopes[..2]) + ScopeWarnings(md, md.scopes[2]);
  }

  /**
    When an `else` follows, the first visit of the `try` body leaves no node in
    its block scope, so the unresolved `x` is reported once, from the `else`
    scope's second visit, and not once per visit.
  */
  lemma TryElseReportsOnce()
    ensures CommentsPlaced(TRY_RANGES, ModuleLeaves(TRY_MODULE))
    ensures Warnings(ModuleMetadata(NO_FACTS, BUILTINS, TRY_MODULE, TRY_RANGES)) == [RefWarning(2, 10, "x")]
  {
    TryModuleTable();
    var t := ModuleScopes(NO_FACTS, BUILTINS, TRY_MODULE);
    TryLeaves();
    PlainMetadata(NO_FACTS, BUILTINS, TRY_MODULE, TRY_RANGES);
    TryNodeScopes(t);
    OnlyXUnresolved(Metadata(NodeScopes(t, {2}), TRY_RANGES, false, {}), t[1], t[3]);
  }

  // try:
  //     assert False
  //     a = 1
  // except IndexError:
  //     a = 1
  // print(a)
  const HANDLER_TRY: Stmt :=
    Try(1, IndentedBlock([Line(2, Assert(3, Name(4, "False"))), Line(5, AssignOne(6, "a"))]),
        [ExceptHandler(10, Some(Name(11, "IndexError")), None, IndentedBlock([Line(12, AssignOne(13, "a"))]))], None, None)
  const HANDLER_MODULE: Module := Module([HANDLER_TRY, SimpleStatementLine(20, [PrintCall(21, 30, "a")], None)])

  const HANDLER_BLOCK: Scope := FRESH_BLOCK.(assignments := [Assignment("a", OtherNode(7))], accesses := [Access("False", 4, [])])
  const HANDLER_GLOBAL: Scope := EMPTY_GLOBAL.(assignments := [Assignment("a", OtherNode(14))], accesses := [Access("IndexError", 11, [])])
  const HANDLER_AFTER: Scope := HANDLER_GLOBAL.(accesses := HANDLER_GLOBAL.accesses + [Access("print", 23, []), Access("a", 30, [])])

  /** The handler is not terminal, so the body binds `a` in a block scope of its own. */
  lemma HandlerTryBodyWalk(b: Scope)
    requires b.parent == None
    ensures Valid(State([b, EMPTY_GLOBAL], 1, {}))
    ensures WalkTryBody(NO_FACTS, State([b, EMPTY_GLOBAL], 1, {}), HANDLER_TRY) == State([b, EMPTY_GLOBAL, HANDLER_BLOCK], 1, {})
  {
    var o, init := NO_FACTS, State([b, EMPTY_GLOBAL], 1, {});
    assert !IsTerminal(o, EMPTY_GLOBAL, 1, HANDLER_TRY.handlers[0].body, o.exitFuel);
    assert !AllTerminal(o, EMPTY_GLOBAL, 1, HANDLER_TRY.handlers);
    var entered := State([b, EMPTY_GLOBAL, FRESH_BLOCK], 2, {});
    assert Push(init, BlockScope, None) == entered;
    var tested := FRESH_BLOCK.(accesses := [Access("False", 4, [])]);
    var s1 := State([b, EMPTY_GLOBAL, tested], 2, {});
    assert [b, EMPTY_GLOBAL, FRESH_BLOCK][2 := tested] == s1.scopes;
    assert entered.scopes[2] == FRESH_BLOCK;
    assert FRESH_BLOCK.accesses + [Access("False", 4, [])] == tested.accesses;
    assert WalkExpr(o, entered, Name(4, "False")) == s1;
    assert WalkSmall(o, entered, Assert(3, Name(4, "False"))) == s1;
    assert WalkSmalls(o, entered, [Assert(3, Name(4, "False"))]) == s1;
    var s2 := State([b, EMPTY_GLOBAL, HANDLER_BLOCK], 2, {});
    assert [b, EMPTY_GLOBAL, tested][2 := HANDLER_BLOCK] == s2.scopes;
    assert tested.assignments + [Assignment("a", OtherNode(7))] == HANDLER_BLOCK.assignments;
    assert TargetBindings([Target(7, "a")]) == [Assignment("a", OtherNode(7))];
    assert BindAll(s1, [Assignment("a", OtherNode(7))]) == s2;
    assert WalkSmall(o, s1, AssignOne(6, "a")) == s2;
    assert WalkSmalls(o, s1, [AssignOne(6, "a")]) == s2;
    var body := HANDLER_TRY.body.body;
    assert body[1..] == [Line(5, AssignOne(6, "a"))] && body[1..][1..] == [];
    assert WalkStmts(o, s1, body[1..]) == s2;
    assert WalkStmts(o, entered, body) == s2;
  }

  /** The lone handler is walked in the global scope: its type is an access there, and it binds `a` there. */
  lemma HandlerPhaseWalk(b: Scope)
    requires b.parent == None
    ensures Valid(State([b, EMPTY_GLOBAL, HANDLER_BLOCK], 1, {}))
    ensures WalkTryHandlers(NO_FACTS, State([b, EMPTY_GLOBAL, HANDLER_BLOCK], 1, {}), HANDLER_TRY)
         == State([b, HANDLER_GLOBAL, HANDLER_BLOCK], 1, {})
  {
    var o, s1 := NO_FACTS, State([b, EMPTY_GLOBAL, HANDLER_BLOCK], 1, {});
    var h := HANDLER_TRY.handlers[0];
    var typed := EMPTY_GLOBAL.(accesses := [Access("IndexError", 11, [])]);
    var s2 := State([b, typed, HANDLER_BLOCK], 1, {});
    assert [b, EMPTY_GLOBAL, HANDLER_BLOCK][1 := typed] == s2.scopes;
    assert EMPTY_GLOBAL.accesses + [Access("IndexError", 11, [])] == typed.accesses;
    assert WalkExpr(o, s1, Name(11, "IndexError")) == s2;
    assert HandlerEntry(o, s1, h) == s2;
    var s3 := State([b, HANDLER_GLOBAL, HANDLER_BLOCK], 1, {});
    assert [b, typed, HANDLER_BLOCK][1 := HANDLER_GLOBAL] == s3.scopes;
    assert typed.assignments + [Assignment("a", OtherNode(14))] == HANDLER_GLOBAL.assignments;
    assert TargetBindings([Target(14, "a")]) == [Assignment("a", OtherNode(14))];
    assert BindAll(s2, [Assignment("a", OtherNode(14))]) == s3;
    assert WalkSmall(o, s2, AssignOne(13, "a")) == s3;
    assert WalkSmalls(o, s2, [AssignOne(13, "a")]) == s3;
    assert WalkStmts(o, s2, h.body.body) == s3;
    assert WalkHandler(o, s1, h) == s3;
  }

  lemma HandlerPrintWalk(b: Scope)
    requires b.parent == None
    ensures Valid(State([b, HANDLER_GLOBAL, HANDLER_BLOCK], 1, {}))
    ensures WalkStmt(NO_FACTS, State([b, HANDLER_GLOBAL, HANDLER_BLOCK], 1, {}), HANDLER_MODULE.body[1])
         == State([b, HANDLER_AFTER, HANDLER_BLOCK], 1, {})
  {
    var o, s := NO_FACTS, State([b, HANDLER_GLOBAL, HANDLER_BLOCK], 1, {});
    var withPrint := HANDLER_GLOBAL.(accesses := HANDLER_GLOBAL.accesses + [Access("print", 23, [])]);
    var s1 := State([b, withPrint, HANDLER_BLOCK], 1, {});
    assert s.scopes[1 := withPrint] == s1.scopes;
    assert WalkExpr(o, s, Name(23, "print")) == s1;
    var r := State([b, HANDLER_AFTER, HANDLER_BLOCK], 1, {});
    assert s1.scopes[1 := HANDLER_AFTER] == r.scopes;
    assert withPrint.accesses + [Access("a", 30, [])] == HANDLER_AFTER.accesses;
    assert WalkExpr(o, s1, Name(30, "a")) == r;
    assert WalkExprs(o, s1, [Name(30, "a")]) == r;
    assert WalkSmall(o, s, PrintCall(21, 30, "a")) == r;
  }

  lemma HandlerStmtWalk(b: Scope)
    requires b.parent == None
    ensures Valid(State([b, EMPTY_GLOBAL], 1, {}))
    ensures WalkStmt(NO_FACTS, State([b, EMPTY_GLOBAL], 1, {}), HANDLER_TRY) == State([b, HANDLER_GLOBAL, HANDLER_BLOCK], 1, {})
  {
    var o, init := NO_FACTS, State([b, EMPTY_GLOBAL], 1, {});
    HandlerTryBodyWalk(b);
    HandlerPhaseWalk(b);
    TryStages(o, init, HANDLER_TRY);
    var s2 := State([b, HANDLER_GLOBAL, HANDLER_BLOCK], 1, {});
    assert WalkTryFinish(o, s2, HANDLER_TRY) == s2;
  }

  lemma HandlerModuleWalk(b: Scope)
    requires b.parent == None
    ensures Valid(State([b, EMPTY_GLOBAL], 1, {}))
    ensures WalkStmts(NO_FACTS, State([b, EMPTY_GLOBAL], 1, {}), HANDLER_MODULE.body) == State([b, HANDLER_AFTER, HANDLER_BLOCK], 1, {})
  {
    var o, init := NO_FACTS, State([b, EMPTY_GLOBAL], 1, {});
    HandlerStmtWalk(b);
    HandlerPrintWalk(b);
    var s2 := State([b, HANDLER_GLOBAL, HANDLER_BLOCK], 1, {});
    var body := HANDLER_MODULE.body;
    assert body[1..] == [body[1]] && body[1..][1..] == [];
    assert WalkStmts(o, s2, body[1..]) == WalkStmts(o, State([b, HANDLER_AFTER, HANDLER_BLOCK], 1, {}), []);
    assert WalkStmts(o, init, body) == WalkStmts(o, s2, body[1..]);
  }

  lemma HandlerTable()
    ensures ModuleScopes(NO_FACTS, BUILTINS, HANDLER_MODULE)
         == InferAccesses([InitialState(BUILTINS).scopes[0], HANDLER_AFTER, HANDLER_BLOCK])
    ensures ModuleSuperseded(NO_FACTS, BUILTINS, HANDLER_MODULE) == {}
  {
    var b := InitialState(BUILTINS).scopes[0];
    BuiltinNames();
    HandlerModuleWalk(b);
    assert InitialState(BUILTINS) == State([b, EMPTY_GLOBAL], 1, {});
  }

  /** Every access of the handler module resolves: the builtins in the builtin scope, `a` in the global scope. */
  lemma HandlerResolution(b: Scope)
    requires b.parent == None && b.accesses == [] && "False" in Names(b) && "IndexError" in Names(b) && "print" in Names(b)
    ensures WellFormed([b, HANDLER_AFTER, HANDLER_BLOCK])
    ensures var t := InferAccesses([b, HANDLER_AFTER, HANDLER_BLOCK]);
            forall i, k | 0 <= i < |t| && 0 <= k < |t[i].accesses| :: t[i].accesses[k].referents != []
  {
    var w := [b, HANDLER_AFTER, HANDLER_BLOCK];
    var t := InferAccesses(w);
    assert InChain(w, 1, 0) && InChain(w, 1, 1) && InChain(w, 2, 0);
    assert "a" in Names(HANDLER_AFTER) by {
      assert HANDLER_AFTER.assignments[0].name == "a";
    }
    assert |HANDLER_AFTER.accesses| == 3 && |HANDLER_BLOCK.accesses| == 1;
    forall i, k | 0 <= i < |t| && 0 <= k < |t[i].accesses|
      ensures t[i].accesses[k].referents != []
    {
      if i == 1 {
        assert k == 0 || k == 1 || k == 2;
        if k == 2 {
          assert t[1].accesses[2].name == "a";
        } else {
          assert t[1].accesses[k].name in Names(w[0]);
        }
      } else {
        assert i == 2 && k == 0;
        assert t[2].accesses[0].name in Names(w[0]);
      }
    }
  }

  lemma HandlerLeaves()
    ensures ModuleLeaves(HANDLER_MODULE) == []
  {
    var body := HANDLER_MODULE.body;
    assert StmtLeaves(body[0]) == [];
    assert StmtLeaves(body[1]) == [];
    assert body[1..] == [body[1]] && body[1..][1..] == [];
    assert StmtsLeaves(body[1..]) == StmtLeaves(body[1]) + StmtsLeaves([]);
  }

  /** A name a lone handler binds stays bound after the `try`, so the module reports nothing. */
  lemma HandlerBindingReachesAfter()
    ensures CommentsPlaced(map[], ModuleLeaves(HANDLER_MODULE))
    ensures Warnings(ModuleMetadata(NO_FACTS, BUILTINS, HANDLER_MODULE, map[])) == []
  {
    var b := InitialState(BUILTINS).scopes[0];
    BuiltinNames();
    HandlerResolution(b);
    HandlerTable();
    HandlerLeaves();
    PlainMetadata(NO_FACTS, BUILTINS, HANDLER_MODULE, map[]);
    var t := ModuleScopes(NO_FACTS, BUILTINS, HANDLER_MODULE);
    ThreeScopes(t);
    ResolvedReportsNothing(Metadata(NodeScopes(t, {}), map[], false, {}));
  }

  // class C:
  //     def m(self):
  //         if ...:
  //             [x for x in ...]
  // plus a class with an empty name under the module, and the builtin scope.
  const NESTED: seq<Scope> := [
    Scope(None, BuiltinScope, None, [], []),
    Scope(Some(0), GlobalScope, None, [], []),
    Scope(Some(1), ClassScope, Some("C"), [], []),
    Scope(Some(2), FunctionScope, Some("m"), [], []),
    Scope(Some(3), BlockScope, None, [], []),
    Scope(Some(4), ComprehensionScope, None, [], []),
    Scope(Some(1), ClassScope, Some(""), [], [])]

  /** The segments from the method's scope outwards. */
  lemma MethodPrefixes()
    ensures NamePrefixes(NESTED, Some(3)) == Success(["m.<locals>", "C"])
  {
    assert NamePrefixes(NESTED, Some(1)) == Success([]);
    assert NESTED[2].name.value != "" by { assert |NESTED[2].name.value| == 1; }
    assert ["C"] + [] == ["C"];
    assert NamePrefixes(NESTED, Some(2)) == Prepend(["C"], Success([])) == Success(["C"]);
    assert NameText(NESTED[3].name) + ".<locals>" == "m.<locals>";
    assert ["m.<locals>"] + ["C"] == ["m.<locals>", "C"];
    assert NamePrefixes(NESTED, Some(3)) == Prepend(["m.<locals>"], Success(["C"]));
  }

  lemma ComprehensionPrefixes()
    ensures NamePrefixes(NESTED, Some(5)) == Success(["<comprehension>", "m.<locals>", "C"])
  {
    MethodPrefixes();
    assert NamePrefixes(NESTED, Some(4)) == Success(["m.<locals>", "C"]);
    assert ["<comprehension>"] + ["m.<locals>", "C"] == ["<comprehension>", "m.<locals>", "C"];
    assert NamePrefixes(NESTED, Some(5)) == Prepend(["<comprehension>"], NamePrefixes(NESTED, Some(4)));
  }

  lemma ReverseTwo(a: string, b: string)
    ensures Reverse([a, b]) == [b, a]
  {
    assert [a, b][1..] == [b];
    assert [b][1..] == [];
    assert Reverse([b]) == [] + [b];
  }

  lemma ReverseThree(a: string, b: string, c: string)
    ensures Reverse([a, b, c]) == [c, b, a]
  {
    assert [a, b, c][1..] == [b, c];
    ReverseTwo(b, c);
  }

  lemma JoinTwo(a: string, b: string)
    ensures JoinDotted([a, b]) == a + "." + b
  {
    assert [a, b][1..] == [b];
  }

  lemma JoinFour(a: string, b: string, c: string, d: string)
    ensures JoinDotted([a, b, c, d]) == a + "." + b + "." + c + "." + d
  {
    assert [a, b, c, d][1..] == [b, c, d];
    assert [b, c, d][1..] == [c, d];
    JoinTwo(c, d);
  }

  lemma FromPrefixes(table: seq<Scope>, s: ScopeId, remainingName: string, prefixes: seq<string>)
    requires WellFormed(table) && s < |table| && NamePrefixes(table, Some(s)) == Success(prefixes)
    ensures QualifiedNameForNonImport(table, s, remainingName)
         == Success({QualifiedName(JoinDotted(Reverse(prefixes) + (if remainingName != "" then [remainingName] else [])), LOCAL)})
  {
  }

  lemma NestedText()
    ensures "C" + "." + "m.<locals>" + "." + "<comprehension>" + "." + "x" == "C.m.<locals>.<comprehension>.x"
  {
    assert "C" + "." + "m.<locals>" == "C.m.<locals>";
    assert "C.m.<locals>" + "." + "<comprehension>" == "C.m.<locals>.<comprehension>";
    assert "C.m.<locals>.<comprehension>" + "." + "x" == "C.m.<locals>.<comprehension>.x";
  }

  /** Segments are joined outermost first; the block scope adds none. */
  lemma NestedQualifiedName()
    ensures QualifiedNameForNonImport(NESTED, 5, "x") == Success({QualifiedName("C.m.<locals>.<comprehension>.x", LOCAL)})
  {
    ComprehensionPrefixes();
    FromPrefixes(NESTED, 5, "x", ["<comprehension>", "m.<locals>", "C"]);
    ReverseThree("<comprehension>", "m.<locals>", "C");
    assert "x" != "" by { assert |"x"| == 1; }
    var parts := ["C", "m.<locals>", "<comprehension>"] + ["x"];
    assert parts == ["C", "m.<locals>", "<comprehension>", "x"];
    JoinFour("C", "m.<locals>", "<comprehension>", "x");
    NestedText();
  }

  /** A class with an empty name adds no segment, and an empty remaining name adds none either. */
  lemma EmptyNamesAddNothing()
    ensures QualifiedNameForNonImport(NESTED, 6, "y") == Success({QualifiedName("y", LOCAL)})
    ensures QualifiedNameForNonImport(NESTED, 3, "") == Success({QualifiedName("C.m.<locals>", LOCAL)})
  {
    var none: seq<string> := [];
    assert none + none == none;
    assert NamePrefixes(NESTED, Some(6)) == Prepend([], Success([])) == Success([]);
    assert Reverse(none) + ["y"] == ["y"];
    MethodPrefixes();
    ReverseTwo("m.<locals>", "C");
    assert ["C", "m.<locals>"] + none == ["C", "m.<locals>"];
    JoinTwo("C", "m.<locals>");
    assert "C" + "." + "m.<locals>" == "C.m.<locals>";
    assert "y" != "" by { assert |"y"| == 1; }
  }

  /** The builtin scope is none of the known kinds. */
  lemma BuiltinScopeUnexpected()
    ensures QualifiedNameForNonImport(NESTED, 0, "x") == Failure("Unexpected Scope")
  {
  }
}
