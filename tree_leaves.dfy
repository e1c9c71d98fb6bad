/**
  The nodes the two metadata providers react to, listed in the order a
  visitor meets them: comments and `import *` clauses.  Comments occur as
  the trailing comment of a simple statement line or of a one-line suite;
  an `import *` is the imported part of a `from ... import *`.  String
  literals contribute nothing, whatever their text.
*/
module TreeLeaves {
  import opened Wrappers
  import opened Syntax

  datatype Leaf = CommentLeaf(comment: Comment) | ImportStarLeaf(id: NodeId)

  function SmallLeaves(item: SmallStatement): seq<Leaf>
  {
    match item
    case ImportFrom(_, _, ImportStar(id)) => [ImportStarLeaf(id)]
    case _ => []
  }

  function SmallsLeaves(items: seq<SmallStatement>): seq<Leaf>
  {
    if items == [] then [] else SmallLeaves(items[0]) + SmallsLeaves(items[1..])
  }

  function TrailingLeaves(trailing: Option<Comment>): seq<Leaf>
  {
    if trailing.Some? then [CommentLeaf(trailing.value)] else []
  }

  function SuiteLeaves(suite: Suite): seq<Leaf>
    decreases suite, 0
  {
    match suite
    case IndentedBlock(body) => StmtsLeaves(body)
    case SimpleStatementSuite(items, trailing) => SmallsLeaves(items) + TrailingLeaves(trailing)
  }

  function StmtsLeaves(ss: seq<Stmt>): seq<Leaf>
    decreases ss, 0
  {
    if ss == [] then [] else StmtLeaves(ss[0]) + StmtsLeaves(ss[1..])
  }

  function StmtLeaves(s: Stmt): seq<Leaf>
    decreases s, 0
  {
    match s
    case SimpleStatementLine(_, items, trailing) => SmallsLeaves(items) + TrailingLeaves(trailing)
    case If(node) => IfLeaves(node)
    case For(_, _, _, body, forElse) =>
      SuiteLeaves(body) + (if forElse.Some? then SuiteLeaves(forElse.value.body) else [])
    case Try(_, body, handlers, tryElse, finalbody) =>
      SuiteLeaves(body) + HandlersLeaves(handlers)
        + (if tryElse.Some? then SuiteLeaves(tryElse.value.body) else [])
        + (if finalbody.Some? then SuiteLeaves(finalbody.value.body) else [])
    case FunctionDef(_, _, _, _, body) => SuiteLeaves(body)
    case ClassDef(_, _, body) => SuiteLeaves(body)
  }

  function IfLeaves(node: IfNode): seq<Leaf>
    decreases node, 0
  {
    SuiteLeaves(node.body) +
      (match node.orelse
       case NoElse => []
       case Elif(n) => IfLeaves(n)
       case Else(e) => SuiteLeaves(e.body))
  }

  function HandlersLeaves(hs: seq<ExceptHandler>): seq<Leaf>
    decreases hs, 0
  {
    if hs == [] then [] else HandlerLeaves(hs[0]) + HandlersLeaves(hs[1..])
  }

  function HandlerLeaves(h: ExceptHandler): seq<Leaf>
    decreases h, 0
  {
    SuiteLeaves(h.body)
  }

  function ModuleLeaves(m: Module): seq<Leaf>
  {
    StmtsLeaves(m.body)
  }

  /** The leaves of consecutive statements are those of each, in order. */
  lemma {:induction false} StmtsLeavesAppend(a: seq<Stmt>, b: seq<Stmt>)
    ensures StmtsLeaves(a + b) == StmtsLeaves(a) + StmtsLeaves(b)
  {
    if a == [] {
      assert a + b == b;
    } else {
      assert (a + b)[1..] == a[1..] + b;
      StmtsLeavesAppend(a[1..], b);
    }
  }

  /** A statement's leaves appear, contiguously, among those of any list of statements holding it. */
  lemma StmtLeavesInside(before: seq<Stmt>, s: Stmt, after: seq<Stmt>)
    ensures StmtsLeaves(before + [s] + after) == StmtsLeaves(before) + StmtLeaves(s) + StmtsLeaves(after)
  {
    StmtsLeavesAppend(before + [s], after);
    StmtsLeavesAppend(before, [s]);
    assert StmtsLeaves([s]) == StmtLeaves(s) + StmtsLeaves([]);
  }
}
