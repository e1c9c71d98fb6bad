/**
  The syntax tree the analysis walks: a small, identity-bearing model of the
  concrete syntax tree of a Python module.  Every node that the analysis can
  ask about (its position, its qualified names, whether it is an `import *`)
  carries a `NodeId`; node identity is id equality.

  Bodies are `Suite`s, as in the concrete tree: an indented block holds
  statements, while a one-line suite (`else: raise`) holds small statements
  directly.  The difference matters to the termination classifier.
*/
module Wrappers {

  datatype Option<+T> = None | Some(value: T)

  /** The outcome of an operation that may raise; `error` is the message. */
  datatype Result<+T> = Success(value: T) | Failure(error: string)
}

module Syntax {
  import opened Wrappers

  type NodeId = nat

  /** A source position: the line is 1-based, the column 0-based. */
  datatype Position = Position(line: nat, column: nat)

  datatype CodeRange = CodeRange(start: Position, end: Position)

  /** Where a qualified name comes from, as the qualified-name subsystem reports it. */
  datatype QualifiedNameSource = IMPORT | BUILTIN | LOCAL

  datatype QualifiedName = QualifiedName(name: string, source: QualifiedNameSource)

  /** Comparison operators; only `is` and `==` matter to the analysis. */
  datatype CompOp = Is | Equal | OtherOperator

  /** A name in a binding position (assignment target, loop variable, parameter, `as` name). */
  datatype Target = Target(id: NodeId, value: string)

  datatype Expr =
    | Name(id: NodeId, value: string)
    | Attribute(id: NodeId, base: Expr, attr: string)
    | Call(id: NodeId, func: Expr, args: seq<Expr>)
    | Comparison(id: NodeId, left: Expr, comparisons: seq<ComparisonTarget>)
    | Lambda(id: NodeId, params: seq<Target>, body: Expr)
    | ListComp(id: NodeId, elt: Expr, target: Target, iter: Expr)
    | SimpleString(id: NodeId, value: string)
    | Integer(id: NodeId, number: nat)

  datatype ComparisonTarget = ComparisonTarget(operator: CompOp, comparator: Expr)

  /** One imported name; `bound` is the name the import binds (its `as` name, or the first component). */
  datatype ImportAlias = ImportAlias(id: NodeId, bound: string)

  datatype ImportNames = ImportStar(id: NodeId) | ImportAliases(aliases: seq<ImportAlias>)

  /** The small statements that can stand on a simple statement line. */
  datatype SmallStatement =
    | ExprStatement(id: NodeId, value: Expr)
    | Assign(id: NodeId, targets: seq<Target>, value: Expr)
    | Raise(id: NodeId, exc: Option<Expr>)
    | Return(id: NodeId, result: Option<Expr>)
    | Assert(id: NodeId, test: Expr)
    | Break(id: NodeId)
    | Continue(id: NodeId)
    | Pass(id: NodeId)
    | Import(id: NodeId, names: seq<ImportAlias>)
    | ImportFrom(id: NodeId, moduleName: string, imported: ImportNames)

  datatype Comment = Comment(id: NodeId, value: string)

  datatype Suite =
    | IndentedBlock(body: seq<Stmt>)
    | SimpleStatementSuite(items: seq<SmallStatement>, trailing: Option<Comment>)

  /** An `if` or an `elif`: an `elif` is an `if` standing in the `orelse` of another. */
  datatype IfNode = IfNode(id: NodeId, test: Expr, body: Suite, orelse: OrElse)

  datatype OrElse = NoElse | Elif(elif: IfNode) | Else(elseNode: ElseNode)

  datatype ElseNode = ElseNode(id: NodeId, body: Suite)

  datatype ExceptHandler = ExceptHandler(id: NodeId, exceptionType: Option<Expr>, name: Option<Target>, body: Suite)

  datatype Finally = Finally(id: NodeId, body: Suite)

  datatype Param = Param(name: Target, annotation: Option<Expr>)

  datatype Stmt =
    | SimpleStatementLine(id: NodeId, items: seq<SmallStatement>, trailing: Option<Comment>)
    | If(node: IfNode)
    | For(id: NodeId, target: seq<Target>, iter: Expr, body: Suite, forElse: Option<ElseNode>)
    | Try(id: NodeId, body: Suite, handlers: seq<ExceptHandler>, tryElse: Option<ElseNode>, finalbody: Option<Finally>)
    | FunctionDef(id: NodeId, name: string, params: seq<Param>, returnAnnotation: Option<Expr>, body: Suite)
    | ClassDef(id: NodeId, name: string, body: Suite)

  datatype Module = Module(body: seq<Stmt>)

  /**
    The dotted name an expression spells, if any: `a` for a name, `a.b` for an
    attribute, the callee's name for a call; other expressions have none.
  */
  function FullName(e: Expr): Option<string>
  {
    match e
    case Name(_, v) => Some(v)
    case Attribute(_, base, attr) =>
      (match FullName(base)
       case Some(b) => Some(b + "." + attr)
       case None => None)
    case Call(_, f, _) => FullName(f)
    case _ => None
  }
}
