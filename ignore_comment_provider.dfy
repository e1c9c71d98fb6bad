/**
  The ignore-comment provider: for every comment whose text contains
  `ref: ignore` it records the comment's own start line.  The checker then
  suppresses located warnings on exactly those lines.
*/
module IgnoreComments {
  import opened Syntax
  import opened TreeLeaves

  const IGNORE_MARKER: string := "ref: ignore"

  predicate OccursAt(text: string, pattern: string, i: nat)
  {
    i + |pattern| <= |text| && text[i..i + |pattern|] == pattern
  }

  /** Python's `pattern in text` on strings: a contiguous occurrence. */
  predicate Contains(text: string, pattern: string)
  {
    exists i: nat | i <= |text| :: OccursAt(text, pattern, i)
  }

  /** Extra text on either side of a match does not hide it. */
  lemma ContainsExtended(pre: string, text: string, post: string, pattern: string)
    requires Contains(text, pattern)
    ensures Contains(pre + text + post, pattern)
  {
    var i: nat :| i <= |text| && OccursAt(text, pattern, i);
    var whole := pre + text + post;
    assert whole[|pre| + i..|pre| + i + |pattern|] == text[i..i + |pattern|];
    assert OccursAt(whole, pattern, |pre| + i);
  }

  /** A comment holding the marker anywhere matches. */
  lemma MarkerAnywhere(pre: string, post: string)
    ensures Contains(pre + IGNORE_MARKER + post, IGNORE_MARKER)
  {
    assert OccursAt(IGNORE_MARKER, IGNORE_MARKER, 0);
    ContainsExtended(pre, IGNORE_MARKER, post, IGNORE_MARKER);
  }

  /** A comment shorter than the marker never matches. */
  lemma ShortTextNeverMatches(text: string)
    requires |text| < |IGNORE_MARKER|
    ensures !Contains(text, IGNORE_MARKER)
  {
  }

  /** Every comment leaf has a position, as the position provider guarantees for every node. */
  predicate CommentsPlaced(positions: map<NodeId, CodeRange>, leaves: seq<Leaf>)
  {
    forall k | 0 <= k < |leaves| && leaves[k].CommentLeaf? :: leaves[k].comment.id in positions
  }

  predicate IsIgnoreComment(leaf: Leaf)
  {
    leaf.CommentLeaf? && Contains(leaf.comment.value, IGNORE_MARKER)
  }

  /** The ignored lines: the start line of each comment that holds the marker. */
  function IgnoredLineSet(positions: map<NodeId, CodeRange>, leaves: seq<Leaf>): (r: set<nat>)
    requires CommentsPlaced(positions, leaves)
    ensures forall line :: line in r <==>
              exists k | 0 <= k < |leaves| :: IsIgnoreComment(leaves[k]) && positions[leaves[k].comment.id].start.line == line
  {
    set k | 0 <= k < |leaves| && IsIgnoreComment(leaves[k]) :: positions[leaves[k].comment.id].start.line
  }

  /** The lines ignored in consecutive stretches of the tree are those of each. */
  lemma IgnoredLinesAppend(positions: map<NodeId, CodeRange>, a: seq<Leaf>, b: seq<Leaf>)
    requires CommentsPlaced(positions, a) && CommentsPlaced(positions, b)
    ensures CommentsPlaced(positions, a + b)
    ensures IgnoredLineSet(positions, a + b) == IgnoredLineSet(positions, a) + IgnoredLineSet(positions, b)
  {
    var ab := a + b;
    forall line | line in IgnoredLineSet(positions, ab)
      ensures line in IgnoredLineSet(positions, a) + IgnoredLineSet(positions, b)
    {
      var k :| 0 <= k < |ab| && IsIgnoreComment(ab[k]) && positions[ab[k].comment.id].start.line == line;
      if k >= |a| {
        assert ab[k] == b[k - |a|];
      }
    }
    forall line | line in IgnoredLineSet(positions, b)
      ensures line in IgnoredLineSet(positions, ab)
    {
      var k :| 0 <= k < |b| && IsIgnoreComment(b[k]) && positions[b[k].comment.id].start.line == line;
      assert ab[|a| + k] == b[k];
    }
    forall line | line in IgnoredLineSet(positions, a)
      ensures line in IgnoredLineSet(positions, ab)
    {
      var k :| 0 <= k < |a| && IsIgnoreComment(a[k]) && positions[a[k].comment.id].start.line == line;
      assert ab[k] == a[k];
    }
  }

  class IgnoreCommentProvider {
    const positions: map<NodeId, CodeRange>
    /** Comment node to the line it was found on. */
    var metadata: map<NodeId, nat>

    constructor (positions: map<NodeId, CodeRange>)
      ensures this.positions == positions && metadata == map[]
    {
      this.positions := positions;
      metadata := map[];
    }

    /** `visit_Comment` */
    method VisitComment(c: Comment)
      requires c.id in positions
      modifies this
      ensures metadata == if Contains(c.value, IGNORE_MARKER) then old(metadata)[c.id := positions[c.id].start.line] else old(metadata)
    {
      if Contains(c.value, IGNORE_MARKER) {
        var line := positions[c.id].start.line;
        metadata := metadata[c.id := line];
      }
    }
  }

  /**
    Runs the provider over the comments of a tree, in visiting order, and
    gathers the recorded lines as the checker does (`set(... .values())`).
  */
  method IgnoredLines(positions: map<NodeId, CodeRange>, leaves: seq<Leaf>) returns (lines: set<nat>)
    requires CommentsPlaced(positions, leaves)
    ensures lines == IgnoredLineSet(positions, leaves)
  {
    var provider := new IgnoreCommentProvider(positions);
    var i := 0;
    while i < |leaves|
      invariant 0 <= i <= |leaves|
      invariant provider.positions == positions
      invariant provider.metadata.Keys == set k | 0 <= k < i && IsIgnoreComment(leaves[k]) :: leaves[k].comment.id
      invariant forall id | id in provider.metadata :: id in positions && provider.metadata[id] == positions[id].start.line
    {
      if leaves[i].CommentLeaf? {
        provider.VisitComment(leaves[i].comment);
      }
      i := i + 1;
    }
    lines := set id | id in provider.metadata :: provider.metadata[id];
    forall line | line in IgnoredLineSet(positions, leaves)
      ensures line in lines
    {
      var k :| 0 <= k < |leaves| && IsIgnoreComment(leaves[k]) && positions[leaves[k].comment.id].start.line == line;
      assert leaves[k].comment.id in provider.metadata;
    }
  }

  /** Only comments count: a stretch of the tree without comment leaves ignores no line, whatever its string literals say. */
  lemma NoCommentsNoIgnoredLines(positions: map<NodeId, CodeRange>, leaves: seq<Leaf>)
    requires forall k | 0 <= k < |leaves| :: !leaves[k].CommentLeaf?
    ensures CommentsPlaced(positions, leaves) && IgnoredLineSet(positions, leaves) == {}
  {
  }
}
