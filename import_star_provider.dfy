/**
  The import-star provider: it marks every `import *` node with `true`, and
  the checker's file-level flag is set exactly when it marked anything.
*/
module ImportStars {
  import opened Syntax
  import opened TreeLeaves

  predicate HasImportStar(leaves: seq<Leaf>)
  {
    exists k | 0 <= k < |leaves| :: leaves[k].ImportStarLeaf?
  }

  /** One `import *` anywhere in a stretch of the tree sets the flag for the whole. */
  lemma ImportStarAppend(a: seq<Leaf>, b: seq<Leaf>)
    ensures HasImportStar(a + b) <==> HasImportStar(a) || HasImportStar(b)
  {
    if HasImportStar(b) {
      var k :| 0 <= k < |b| && b[k].ImportStarLeaf?;
      assert (a + b)[|a| + k] == b[k];
    }
    if HasImportStar(a) {
      var k :| 0 <= k < |a| && a[k].ImportStarLeaf?;
      assert (a + b)[k] == a[k];
    }
    if HasImportStar(a + b) {
      var k :| 0 <= k < |a + b| && (a + b)[k].ImportStarLeaf?;
      if k >= |a| {
        assert (a + b)[k] == b[k - |a|];
      }
    }
  }

  /** A statement holding an `import *` flags every module that holds the statement. */
  lemma ImportStarStatementFlagsModule(before: seq<Stmt>, s: Stmt, after: seq<Stmt>)
    requires HasImportStar(StmtLeaves(s))
    ensures HasImportStar(ModuleLeaves(Module(before + [s] + after)))
  {
    StmtLeavesInside(before, s, after);
    ImportStarAppend(StmtsLeaves(before), StmtLeaves(s));
    ImportStarAppend(StmtsLeaves(before) + StmtLeaves(s), StmtsLeaves(after));
  }

  class ImportStarProvider {
    /** `import *` node to its mark. */
    var metadata: map<NodeId, bool>

    constructor ()
      ensures metadata == map[]
    {
      metadata := map[];
    }

    /** `visit_ImportStar` */
    method VisitImportStar(id: NodeId)
      modifies this
      ensures metadata == old(metadata)[id := true]
    {
      metadata := metadata[id := true];
    }
  }

  /**
    Runs the provider over a tree's leaves in visiting order; the flag is
    whether the provider's map is non-empty.
  */
  method ImportStarFlag(leaves: seq<Leaf>) returns (flag: bool)
    ensures flag <==> HasImportStar(leaves)
  {
    var provider := new ImportStarProvider();
    var i := 0;
    while i < |leaves|
      invariant 0 <= i <= |leaves|
      invariant provider.metadata.Keys == set k | 0 <= k < i && leaves[k].ImportStarLeaf? :: leaves[k].id
      invariant forall id | id in provider.metadata :: provider.metadata[id]
    {
      if leaves[i].ImportStarLeaf? {
        provider.VisitImportStar(leaves[i].id);
      }
      i := i + 1;
    }
    flag := |provider.metadata| > 0;
    if HasImportStar(leaves) {
      var k :| 0 <= k < |leaves| && leaves[k].ImportStarLeaf?;
      assert leaves[k].id in provider.metadata;
    }
  }
}
