/**
  The scope table the walk builds, name resolution over it, and the
  qualified-name computation that keeps block scopes transparent.

  A table is a sequence of scope records; a record names its parent by index.
  The walk only ever appends a scope whose parent already exists, so in a
  well-formed table every parent index is smaller than its child's: parent
  chains are finite and acyclic.
*/
module Scopes {
  import opened Wrappers
  import opened Syntax

  type ScopeId = nat

  /** The scope variants; `BlockScope` is the one this analysis adds. */
  datatype ScopeKind = BuiltinScope | GlobalScope | ClassScope | FunctionScope | ComprehensionScope | BlockScope

  /** The node that introduced a binding; only function definitions are looked into. */
  datatype AssignmentNode =
    | FunctionDefNode(id: NodeId, returnAnnotation: Option<Expr>, body: Suite)
    | OtherNode(id: NodeId)

  /** A binding: an ordinary assignment in some scope, or one of the interpreter's builtins. */
  datatype BaseAssignment =
    | Assignment(name: string, node: AssignmentNode)
    | BuiltinAssignment(name: string)

  /** A name access; `referents` is filled in once the walk is over. */
  datatype Access = Access(name: string, node: NodeId, referents: seq<BaseAssignment>)

  datatype Scope = Scope(
    parent: Option<ScopeId>,
    kind: ScopeKind,
    name: Option<string>,
    assignments: seq<BaseAssignment>,
    accesses: seq<Access>)

  /**
    The qualified-name subsystem, which this model does not reimplement: what
    `scope.get_qualified_names_for(node)` answers, per scope and node.  Also the
    bound on how deeply the never-returns check may look into called functions.
  */
  datatype Oracle = Oracle(qnames: map<(ScopeId, NodeId), set<QualifiedName>>, exitFuel: nat)

  function QualifiedNamesFor(o: Oracle, s: ScopeId, e: Expr): set<QualifiedName>
  {
    if (s, e.id) in o.qnames then o.qnames[(s, e.id)] else {}
  }

  predicate WellFormed(table: seq<Scope>)
  {
    forall i | 0 <= i < |table| :: table[i].parent.Some? ==> table[i].parent.value < i
  }

  /**
    The shape of every table the walk produces: the builtin scope at the root,
    the module's global scope under it, and every other scope below the global
    scope, of a kind other than those two.
  */
  predicate Rooted(table: seq<Scope>)
  {
    && |table| >= 2
    && table[0].kind == BuiltinScope && table[0].parent == None
    && table[1].kind == GlobalScope && table[1].parent == Some(0)
    && forall i | 2 <= i < |table| ::
         && table[i].parent.Some? && 1 <= table[i].parent.value
         && table[i].kind != BuiltinScope && table[i].kind != GlobalScope
  }

  function Names(sc: Scope): set<string>
  {
    set a | a in sc.assignments :: a.name
  }

  function AssignmentsNamed(assignments: seq<BaseAssignment>, x: string): (r: seq<BaseAssignment>)
    ensures forall a :: a in r <==> a in assignments && a.name == x
  {
    if assignments == [] then []
    else (if assignments[0].name == x then [assignments[0]] else []) + AssignmentsNamed(assignments[1..], x)
  }

  /** `j` is `s` or one of its ancestors. */
  predicate InChain(table: seq<Scope>, s: ScopeId, j: ScopeId)
    requires WellFormed(table) && s < |table|
    decreases s
  {
    j == s || (table[s].parent.Some? && InChain(table, table[s].parent.value, j))
  }

  /**
    Resolution of a name accessed in scope `s`: the bindings of that name in
    the nearest scope, walking up from `s`, that has any.
  */
  function Referents(table: seq<Scope>, s: ScopeId, x: string): (r: seq<BaseAssignment>)
    requires WellFormed(table) && s < |table|
    ensures forall a | a in r :: a.name == x
    ensures r != [] ==> exists j: ScopeId | j < |table| && InChain(table, s, j) :: forall a | a in r :: a in table[j].assignments
    decreases s
  {
    var own := AssignmentsNamed(table[s].assignments, x);
    if own != [] then own
    else match table[s].parent
      case None => []
      case Some(p) => Referents(table, p, x)
  }

  /** A name has no referents exactly when no scope on the chain binds it. */
  lemma {:induction false} ReferentsEmptyIff(table: seq<Scope>, s: ScopeId, x: string)
    requires WellFormed(table) && s < |table|
    ensures Referents(table, s, x) == [] <==>
              forall j | 0 <= j < |table| && InChain(table, s, j) :: x !in Names(table[j])
    decreases s
  {
    var own := AssignmentsNamed(table[s].assignments, x);
    if own != [] {
      var a := own[0];
      assert a in table[s].assignments && a.name == x;
      assert x in Names(table[s]);
    } else {
      assert x !in Names(table[s]);
      match table[s].parent
      case None =>
      case Some(p) =>
        ReferentsEmptyIff(table, p, x);
    }
  }

  function ResolveAccesses(table: seq<Scope>, s: ScopeId, accesses: seq<Access>): seq<Access>
    requires WellFormed(table) && s < |table|
  {
    seq(|accesses|, k requires 0 <= k < |accesses| =>
      accesses[k].(referents := Referents(table, s, accesses[k].name)))
  }

  /** The deferred resolution run once the walk is over: every access gets its referents. */
  function InferAccesses(table: seq<Scope>): (r: seq<Scope>)
    requires WellFormed(table)
    ensures |r| == |table| && WellFormed(r)
    ensures forall i | 0 <= i < |r| ::
              && r[i].parent == table[i].parent && r[i].kind == table[i].kind
              && r[i].assignments == table[i].assignments
              && |r[i].accesses| == |table[i].accesses|
              && forall k | 0 <= k < |r[i].accesses| ::
                   && r[i].accesses[k].name == table[i].accesses[k].name
                   && r[i].accesses[k].node == table[i].accesses[k].node
                   && (r[i].accesses[k].referents == [] <==>
                         forall j | 0 <= j < |table| && InChain(table, i, j) :: r[i].accesses[k].name !in Names(table[j]))
  {
    var r := seq(|table|, i requires 0 <= i < |table| =>
      table[i].(accesses := ResolveAccesses(table, i, table[i].accesses)));
    forall i, k | 0 <= i < |r| && 0 <= k < |r[i].accesses|
      ensures r[i].accesses[k].referents == [] <==>
                forall j | 0 <= j < |table| && InChain(table, i, j) :: r[i].accesses[k].name !in Names(table[j])
    {
      ReferentsEmptyIff(table, i, table[i].accesses[k].name);
    }
    r
  }

  // ---------------------------------------------------------------------
  // Qualified names of non-import assignments
  // ---------------------------------------------------------------------

  /** How Python renders an optional name in an f-string. */
  function NameText(name: Option<string>): string
  {
    match name
    case Some(n) => n
    case None => "None"
  }

  /**
    The name segments contributed by the scopes from `s` outwards, innermost
    first, up to (not including) the global scope; a scope kind the walk does
    not know raises "Unexpected Scope".
  */
  function NamePrefixes(table: seq<Scope>, s: Option<ScopeId>): Result<seq<string>>
    requires WellFormed(table) && (s.Some? ==> s.value < |table|)
    decreases if s.Some? then s.value + 1 else 0
  {
    if s.None? then Success([])
    else
      var sc := table[s.value];
      match sc.kind
      case GlobalScope => Success([])
      // The source appends `: ` and the scope's printed form to this text;
      // scopes have no printed form in the model, so only the prefix is kept.
      case BuiltinScope => Failure("Unexpected Scope")
      case ClassScope =>
        var own := if sc.name.Some? && sc.name.value != "" then [sc.name.value] else [];
        Prepend(own, NamePrefixes(table, sc.parent))
      case FunctionScope => Prepend([NameText(sc.name) + ".<locals>"], NamePrefixes(table, sc.parent))
      case ComprehensionScope => Prepend(["<comprehension>"], NamePrefixes(table, sc.parent))
      case BlockScope => NamePrefixes(table, sc.parent)
  }

  function Prepend(own: seq<string>, rest: Result<seq<string>>): Result<seq<string>>
  {
    match rest
    case Success(r) => Success(own + r)
    case Failure(e) => Failure(e)
  }

  lemma PrependNothing(rest: Result<seq<string>>)
    ensures Prepend([], rest) == rest
  {
    match rest
    case Success(r) => assert [] + r == r;
    case Failure(_) =>
  }

  lemma PrependTwice(a: seq<string>, b: seq<string>, rest: Result<seq<string>>)
    ensures Prepend(a, Prepend(b, rest)) == Prepend(a + b, rest)
  {
    match rest
    case Success(r) => assert a + (b + r) == (a + b) + r;
    case Failure(_) =>
  }

  function Reverse(s: seq<string>): seq<string>
  {
    if s == [] then [] else Reverse(s[1..]) + [s[0]]
  }

  /** `".".join(parts)` */
  function JoinDotted(parts: seq<string>): string
  {
    if parts == [] then ""
    else if |parts| == 1 then parts[0]
    else parts[0] + "." + JoinDotted(parts[1..])
  }

  /**
    The qualified names of a non-import assignment made in scope `s`: the
    segments outermost first, then the remaining name if it is not empty,
    joined with dots; always a single, LOCAL name.
  */
  function QualifiedNameForNonImport(table: seq<Scope>, s: ScopeId, remainingName: string): (r: Result<set<QualifiedName>>)
    requires WellFormed(table) && s < |table|
    ensures r.Success? ==> |r.value| == 1 && forall q | q in r.value :: q.source == LOCAL
  {
    match NamePrefixes(table, Some(s))
    case Failure(e) => Failure(e)
    case Success(prefixes) =>
      var parts := Reverse(prefixes) + (if remainingName != "" then [remainingName] else []);
      Success({QualifiedName(JoinDotted(parts), LOCAL)})
  }

  /** The ancestor walk that collects the name segments, as a loop over the parent chain. */
  method FindQualifiedNameForNonImport(table: seq<Scope>, assignmentScope: ScopeId, remainingName: string)
    returns (r: Result<set<QualifiedName>>)
    requires WellFormed(table) && assignmentScope < |table|
    ensures r == QualifiedNameForNonImport(table, assignmentScope, remainingName)
  {
    var scope: Option<ScopeId> := Some(assignmentScope);
    var namePrefixes: seq<string> := [];
    PrependNothing(NamePrefixes(table, scope));
    while scope.Some?
      invariant scope.Some? ==> scope.value < |table|
      invariant NamePrefixes(table, Some(assignmentScope)) == Prepend(namePrefixes, NamePrefixes(table, scope))
      decreases if scope.Some? then scope.value + 1 else 0
    {
      var sc := table[scope.value];
      ghost var before := namePrefixes;
      match sc.kind {
        case ClassScope =>
          if sc.name.Some? && sc.name.value != "" {
            namePrefixes := namePrefixes + [sc.name.value];
          }
        case FunctionScope =>
          namePrefixes := namePrefixes + [NameText(sc.name) + ".<locals>"];
        case GlobalScope =>
          assert NamePrefixes(table, scope) == Success([]);
          assert namePrefixes + [] == namePrefixes;
          break;
        case ComprehensionScope =>
          namePrefixes := namePrefixes + ["<comprehension>"];
        case BlockScope =>
        case BuiltinScope =>
          assert NamePrefixes(table, scope) == Failure("Unexpected Scope");
          return Failure("Unexpected Scope");
      }
      PrependTwice(before, namePrefixes[|before|..], NamePrefixes(table, sc.parent));
      assert before + namePrefixes[|before|..] == namePrefixes;
      scope := sc.parent;
    }
    if scope.None? {
      assert namePrefixes + [] == namePrefixes;
    }
    assert NamePrefixes(table, Some(assignmentScope)) == Success(namePrefixes);
    var parts := Reverse(namePrefixes);
    if remainingName != "" {
      parts := parts + [remainingName];
    } else {
      assert parts + [] == parts;
    }
    r := Success({QualifiedName(JoinDotted(parts), LOCAL)});
  }

  /** On a table the walk built, no scope below the root raises "Unexpected Scope". */
  lemma {:induction false} RootedNeverUnexpected(table: seq<Scope>, s: ScopeId)
    requires WellFormed(table) && Rooted(table) && 1 <= s < |table|
    ensures NamePrefixes(table, Some(s)).Success?
    decreases s
  {
    if s >= 2 {
      var p := table[s].parent.value;
      RootedNeverUnexpected(table, p);
    }
  }

  /** A block scope contributes no segment: names bound in it qualify as in its parent. */
  lemma BlockScopeTransparent(table: seq<Scope>, s: ScopeId, remainingName: string)
    requires WellFormed(table) && s < |table|
    requires table[s].kind == BlockScope && table[s].parent.Some?
    ensures QualifiedNameForNonImport(table, s, remainingName)
         == QualifiedNameForNonImport(table, table[s].parent.value, remainingName)
  {
  }
}
