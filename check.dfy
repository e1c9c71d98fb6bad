/**
  Diagnostic collection: the warnings, their text, and `check`, which turns
  every access without referents into a warning unless the name is one of
  the always-defined module dunders or the line carries an ignore comment,
  and which gives up with a single warning when the file has an `import *`.
*/
module Check {
  import opened Wrappers
  import opened Syntax
  import opened Scopes
  import opened TreeLeaves
  import opened IgnoreComments
  import opened ImportStars
  import opened BlockScopeProvider
  import opened AccessOrder

  datatype Warning =
    | RefWarning(line: nat, column: nat, reference: string)
    | NoLocationRefWarning(reference: string)
    | ImportStarWarning

  /** Module attributes that are always defined at run time. */
  const EXCEPTIONS: set<string> := {"__file__", "__name__", "__doc__", "__package__"}

  // ---------------------------------------------------------------------
  // Text
  // ---------------------------------------------------------------------

  predicate IsDigit(c: char)
  {
    '0' <= c <= '9'
  }

  function DigitChar(d: nat): (c: char)
    requires d < 10
    ensures IsDigit(c) && c as int - '0' as int == d
  {
    ('0' as int + d) as char
  }

  /** The decimal digits of `n`, without leading zeros. */
  function Decimal(n: nat): (r: string)
    ensures |r| >= 1 && forall i | 0 <= i < |r| :: IsDigit(r[i])
  {
    if n < 10 then [DigitChar(n)] else Decimal(n / 10) + [DigitChar(n % 10)]
  }

  function DecimalValue(s: string): nat
    requires forall i | 0 <= i < |s| :: IsDigit(s[i])
  {
    if s == [] then 0
    else
      var last := s[|s| - 1];
      assert IsDigit(last);
      10 * DecimalValue(s[..|s| - 1]) + (last as int - '0' as int)
  }

  lemma {:induction false} DecimalRoundTrip(n: nat)
    ensures DecimalValue(Decimal(n)) == n
  {
    if n >= 10 {
      var r := Decimal(n);
      assert r[..|r| - 1] == Decimal(n / 10);
      DecimalRoundTrip(n / 10);
    }
  }

  /** Python's `{:2d}` on a non-negative integer: its decimal digits, right-aligned in a field of width two. */
  function Width2(n: nat): (r: string)
    ensures |r| >= 2
    ensures forall i | 0 <= i < |r| :: IsDigit(r[i]) || r[i] == ' '
  {
    var digits := Decimal(n);
    if |digits| < 2 then " " + digits else digits
  }

  /** Leading spaces removed. */
  function TrimLeft(s: string): (r: string)
    ensures |r| <= |s|
  {
    if s != [] && s[0] == ' ' then TrimLeft(s[1..]) else s
  }

  /** The field reads back as the number it shows. */
  lemma Width2RoundTrip(n: nat)
    ensures TrimLeft(Width2(n)) == Decimal(n)
    ensures DecimalValue(TrimLeft(Width2(n))) == n
  {
    var digits := Decimal(n);
    if |digits| < 2 {
      assert (" " + digits)[1..] == digits;
    }
    DecimalRoundTrip(n);
  }

  lemma Width2Injective(a: nat, b: nat)
    requires Width2(a) == Width2(b)
    ensures a == b
  {
    Width2RoundTrip(a);
    Width2RoundTrip(b);
  }

  const LOCATED_PREFIX: string := "Warning on line "
  const COLUMN_SEPARATOR: string := ", column "
  const UNDEFINED_TEXT: string := ": reference to potentially undefined `"
  const NO_LOCATION_PREFIX: string := "Warning: reference to potentially undefined `"
  const IMPORT_STAR_TEXT: string := "Unable to check file, import * detected"

  /** `__str__` of each warning. */
  function ToString(w: Warning): (r: string)
    ensures w.RefWarning? ==> LOCATED_PREFIX <= r
    ensures w.NoLocationRefWarning? ==> NO_LOCATION_PREFIX <= r
    ensures !w.ImportStarWarning? ==> |r| > |w.reference| && r[|r| - |w.reference| - 1..] == w.reference + "`"
    ensures w.ImportStarWarning? ==> r == IMPORT_STAR_TEXT
  {
    match w
    case RefWarning(line, column, reference) =>
      LOCATED_PREFIX + Width2(line) + COLUMN_SEPARATOR + Width2(column) + UNDEFINED_TEXT + reference + "`"
    case NoLocationRefWarning(reference) =>
      NO_LOCATION_PREFIX + reference + "`"
    case ImportStarWarning =>
      IMPORT_STAR_TEXT
  }

  /** A field free of `c` followed by text starting with `c`: the split point is the first `c`, so it is unique. */
  lemma SplitAtSeparator(a1: string, x1: string, a2: string, x2: string, c: char)
    requires a1 + x1 == a2 + x2
    requires c !in a1 && c !in a2
    requires |x1| > 0 && x1[0] == c && |x2| > 0 && x2[0] == c
    ensures a1 == a2 && x1 == x2
  {
    assert a1 == (a1 + x1)[..|a1|];
    assert a2 == (a2 + x2)[..|a2|];
    assert x1 == (a1 + x1)[|a1|..];
    assert x2 == (a2 + x2)[|a2|..];
  }

  lemma Width2Without(n: nat, c: char)
    requires c != ' ' && !IsDigit(c)
    ensures c !in Width2(n)
  {
  }

  /**
    The located text, with its fixed parts as parameters: the line field has
    no comma and the column field no colon, so both split points are found.
  */
  lemma LocatedTextInjective(p: string, sep: string, mid: string,
                             a1: string, b1: string, r1: string, a2: string, b2: string, r2: string)
    requires p + a1 + sep + b1 + mid + r1 + "`" == p + a2 + sep + b2 + mid + r2 + "`"
    requires |sep| > 0 && sep[0] == ',' && ',' !in a1 && ',' !in a2
    requires |mid| > 0 && mid[0] == ':' && ':' !in b1 && ':' !in b2
    ensures a1 == a2 && b1 == b2 && r1 == r2
  {
    var t1 := a1 + (sep + (b1 + (mid + (r1 + "`"))));
    var t2 := a2 + (sep + (b2 + (mid + (r2 + "`"))));
    assert p + a1 + sep + b1 + mid + r1 + "`" == p + t1;
    assert p + a2 + sep + b2 + mid + r2 + "`" == p + t2;
    assert t1 == (p + t1)[|p|..];
    assert t2 == (p + t2)[|p|..];
    SplitAtSeparator(a1, sep + (b1 + (mid + (r1 + "`"))), a2, sep + (b2 + (mid + (r2 + "`"))), ',');
    var u1 := b1 + (mid + (r1 + "`"));
    var u2 := b2 + (mid + (r2 + "`"));
    assert u1 == (sep + u1)[|sep|..];
    assert u2 == (sep + u2)[|sep|..];
    SplitAtSeparator(b1, mid + (r1 + "`"), b2, mid + (r2 + "`"), ':');
    assert r1 + "`" == (mid + (r1 + "`"))[|mid|..];
    assert r2 + "`" == (mid + (r2 + "`"))[|mid|..];
    assert r1 == (r1 + "`")[..|r1|];
    assert r2 == (r2 + "`")[..|r2|];
  }

  lemma SuffixInjective(p: string, r1: string, r2: string)
    requires p + r1 + "`" == p + r2 + "`"
    ensures r1 == r2
  {
    assert r1 == (p + r1 + "`")[|p|..|p| + |r1|];
    assert r2 == (p + r2 + "`")[|p|..|p| + |r2|];
  }

  /** The eighth character of a warning's text is fixed by its kind. */
  lemma EighthChar(w: Warning)
    ensures |ToString(w)| > 7
    ensures ToString(w)[7] == if w.RefWarning? then ' ' else if w.NoLocationRefWarning? then ':' else 't'
  {
    var r := ToString(w);
    if w.RefWarning? {
      assert r[7] == LOCATED_PREFIX[7];
    } else if w.NoLocationRefWarning? {
      assert r[7] == NO_LOCATION_PREFIX[7];
    } else {
      assert r[7] == IMPORT_STAR_TEXT[7];
    }
  }

  /** The eighth character tells the three kinds apart. */
  lemma KindsDiffer(w1: Warning, w2: Warning)
    requires w1.RefWarning? != w2.RefWarning? || w1.NoLocationRefWarning? != w2.NoLocationRefWarning?
    ensures ToString(w1) != ToString(w2)
  {
    EighthChar(w1);
    EighthChar(w2);
  }

  /** Two warnings with the same text are the same warning. */
  lemma ToStringInjective(w1: Warning, w2: Warning)
    requires ToString(w1) == ToString(w2)
    ensures w1 == w2
  {
    if w1.RefWarning? != w2.RefWarning? || w1.NoLocationRefWarning? != w2.NoLocationRefWarning? {
      KindsDiffer(w1, w2);
    } else if w1.NoLocationRefWarning? {
      SuffixInjective(NO_LOCATION_PREFIX, w1.reference, w2.reference);
    } else if w1.RefWarning? {
      Width2Without(w1.line, ',');
      Width2Without(w2.line, ',');
      Width2Without(w1.column, ':');
      Width2Without(w2.column, ':');
      assert COLUMN_SEPARATOR[0] == ',' && UNDEFINED_TEXT[0] == ':';
      LocatedTextInjective(LOCATED_PREFIX, COLUMN_SEPARATOR, UNDEFINED_TEXT,
        Width2(w1.line), Width2(w1.column), w1.reference, Width2(w2.line), Width2(w2.column), w2.reference);
      Width2Injective(w1.line, w2.line);
      Width2Injective(w1.column, w2.column);
    }
  }

  // ---------------------------------------------------------------------
  // Collection
  // ---------------------------------------------------------------------

  /**
    What `check` reads: the scopes the block-scope provider assigned to nodes
    (an entry can be missing), node positions, the import-star flag and the
    ignored lines.
  */
  datatype Metadata = Metadata(
    scopes: seq<Option<Scope>>,
    ranges: map<NodeId, CodeRange>,
    importStar: bool,
    ignoredLines: set<nat>)

  /** The warning an access yields: none unless it is unresolved and not always defined. */
  function AccessWarnings(md: Metadata, a: Access): (r: seq<Warning>)
    ensures |r| <= 1
    ensures r != [] ==> a.referents == [] && a.name !in EXCEPTIONS
    ensures r == [NoLocationRefWarning(a.name)] <==>
              a.referents == [] && a.name !in EXCEPTIONS && a.node !in md.ranges
    ensures forall l, c :: r == [RefWarning(l, c, a.name)] <==>
              && a.referents == [] && a.name !in EXCEPTIONS && a.node in md.ranges
              && md.ranges[a.node].start == Position(l, c) && l !in md.ignoredLines
    ensures forall w | w in r :: w == NoLocationRefWarning(a.name) || (w.RefWarning? && w.reference == a.name)
  {
    if |a.referents| == 0 && a.name !in EXCEPTIONS then
      if a.node !in md.ranges then
        [NoLocationRefWarning(a.name)]
      else
        var location := md.ranges[a.node].start;
        if location.line !in md.ignoredLines then [RefWarning(location.line, location.column, a.name)] else []
    else
      []
  }

  /** The warnings of a sequence of accesses, in sequence order. */
  function AccessesWarnings(md: Metadata, accesses: seq<Access>): seq<Warning>
  {
    if accesses == [] then []
    else AccessesWarnings(md, accesses[..|accesses| - 1]) + AccessWarnings(md, accesses[|accesses| - 1])
  }

  /** The warnings of one entry of the scope set, its accesses in the order libcst iterates them. */
  function ScopeWarnings(md: Metadata, entry: Option<Scope>): seq<Warning>
  {
    if entry.Some? then AccessesWarnings(md, ByName(entry.value.accesses)) else []
  }

  /** The warnings of all scopes, one scope after another; missing entries are skipped. */
  function ScopesWarnings(md: Metadata, scopes: seq<Option<Scope>>): seq<Warning>
  {
    if scopes == [] then []
    else ScopesWarnings(md, scopes[..|scopes| - 1]) + ScopeWarnings(md, scopes[|scopes| - 1])
  }

  /** The result of `check` on the collected metadata. */
  function Warnings(md: Metadata): (r: seq<Warning>)
    ensures md.importStar ==> r == [ImportStarWarning]
  {
    if md.importStar then [ImportStarWarning] else ScopesWarnings(md, md.scopes)
  }

  /** `check`, after the metadata is collected. */
  method CheckMetadata(md: Metadata) returns (warnings: seq<Warning>)
    ensures warnings == Warnings(md)
  {
    if md.importStar {
      return [ImportStarWarning];
    }
    warnings := [];
    var i := 0;
    while i < |md.scopes|
      invariant 0 <= i <= |md.scopes|
      invariant warnings == ScopesWarnings(md, md.scopes[..i])
    {
      assert md.scopes[..i + 1][..i] == md.scopes[..i];
      if md.scopes[i].Some? {
        var found := CheckAccesses(md, ByName(md.scopes[i].value.accesses));
        warnings := warnings + found;
      }
      i := i + 1;
    }
    assert md.scopes[..i] == md.scopes;
  }

  /** The inner loop of `check`: the accesses of one scope, in iteration order. */
  method CheckAccesses(md: Metadata, accesses: seq<Access>) returns (warnings: seq<Warning>)
    ensures warnings == AccessesWarnings(md, accesses)
  {
    warnings := [];
    var k := 0;
    while k < |accesses|
      invariant 0 <= k <= |accesses|
      invariant warnings == AccessesWarnings(md, accesses[..k])
    {
      assert accesses[..k + 1][..k] == accesses[..k];
      var access := accesses[k];
      if |access.referents| == 0 {
        var node := access.node;
        if access.name !in EXCEPTIONS {
          if node !in md.ranges {
            warnings := warnings + [NoLocationRefWarning(access.name)];
          } else {
            var location := md.ranges[node].start;
            if location.line !in md.ignoredLines {
              warnings := warnings + [RefWarning(location.line, location.column, access.name)];
            }
          }
        }
      }
      k := k + 1;
    }
    assert accesses[..k] == accesses;
  }

  // ---------------------------------------------------------------------
  // What the collected warnings mean
  // ---------------------------------------------------------------------

  /** Warnings follow the order of the accesses they come from. */
  lemma {:induction false} AccessesWarningsAppend(md: Metadata, a: seq<Access>, b: seq<Access>)
    ensures AccessesWarnings(md, a + b) == AccessesWarnings(md, a) + AccessesWarnings(md, b)
    decreases |b|
  {
    if b == [] {
      assert a + b == a;
    } else {
      var b' := b[..|b| - 1];
      assert (a + b)[..|a + b| - 1] == a + b';
      AccessesWarningsAppend(md, a, b');
    }
  }

  /** Each access yields at most one warning. */
  lemma {:induction false} AccessesWarningsBound(md: Metadata, accesses: seq<Access>)
    ensures |AccessesWarnings(md, accesses)| <= |accesses|
    decreases |accesses|
  {
    if accesses != [] {
      AccessesWarningsBound(md, accesses[..|accesses| - 1]);
    }
  }

  lemma {:induction false} AccessesWarningsMember(md: Metadata, accesses: seq<Access>, w: Warning)
    ensures w in AccessesWarnings(md, accesses) <==> exists k | 0 <= k < |accesses| :: w in AccessWarnings(md, accesses[k])
    decreases |accesses|
  {
    if accesses != [] {
      var init := accesses[..|accesses| - 1];
      AccessesWarningsMember(md, init, w);
      if w in AccessesWarnings(md, init) {
        var k :| 0 <= k < |init| && w in AccessWarnings(md, init[k]);
        assert accesses[k] == init[k];
      }
      if exists k | 0 <= k < |accesses| :: w in AccessWarnings(md, accesses[k]) {
        var k :| 0 <= k < |accesses| && w in AccessWarnings(md, accesses[k]);
        if k < |init| {
          assert init[k] == accesses[k];
        }
      }
    }
  }

  /** Whether a warning is reported does not depend on the order of the accesses. */
  lemma AccessesWarningsHas(md: Metadata, accesses: seq<Access>, w: Warning)
    ensures w in AccessesWarnings(md, accesses) <==> exists a | a in accesses :: w in AccessWarnings(md, a)
  {
    AccessesWarningsMember(md, accesses, w);
    if exists a | a in accesses :: w in AccessWarnings(md, a) {
      var a :| a in accesses && w in AccessWarnings(md, a);
      var k :| 0 <= k < |accesses| && accesses[k] == a;
    }
  }

  /** Iterating by name reports the same warnings as iterating in recording order would. */
  lemma ByNameWarningsMember(md: Metadata, accesses: seq<Access>, w: Warning)
    ensures w in AccessesWarnings(md, ByName(accesses)) <==> w in AccessesWarnings(md, accesses)
  {
    ByNamePermutation(accesses);
    AccessesWarningsHas(md, ByName(accesses), w);
    AccessesWarningsHas(md, accesses, w);
  }

  /** The name a warning is about; the import-star warning is about none. */
  function WarningName(w: Warning): string
  {
    if w.ImportStarWarning? then "" else w.reference
  }

  /** Between two warnings about a name there is no warning about another name. */
  predicate WarningsGrouped(ws: seq<Warning>)
  {
    forall i, j, k | 0 <= i < j < k < |ws| && WarningName(ws[i]) == WarningName(ws[k]) :: WarningName(ws[j]) == WarningName(ws[i])
  }

  lemma WarningsGroupedAppend(a: seq<Warning>, b: seq<Warning>, m: string)
    requires forall w | w in a :: WarningName(w) == m
    requires forall w | w in b :: WarningName(w) != m
    requires WarningsGrouped(b)
    ensures WarningsGrouped(a + b)
  {
    var r := a + b;
    forall i, j, k | 0 <= i < j < k < |r| && WarningName(r[i]) == WarningName(r[k])
      ensures WarningName(r[j]) == WarningName(r[i])
    {
      if k < |a| {
        assert r[i] == a[i] && r[j] == a[j];
      } else if i >= |a| {
        assert r[i] == b[i - |a|] && r[j] == b[j - |a|] && r[k] == b[k - |a|];
      } else {
        assert false;
      }
    }
  }

  /** A warning is about the name of the access it comes from. */
  lemma AccessesWarningsNames(md: Metadata, accesses: seq<Access>, w: Warning)
    requires w in AccessesWarnings(md, accesses)
    ensures exists a | a in accesses :: WarningName(w) == a.name
  {
    AccessesWarningsMember(md, accesses, w);
    var k :| 0 <= k < |accesses| && w in AccessWarnings(md, accesses[k]);
    assert accesses[k] in accesses;
  }

  lemma {:induction false} ByNameWarningsGrouped(md: Metadata, s: seq<Access>)
    ensures WarningsGrouped(AccessesWarnings(md, ByName(s)))
    decreases |s|
  {
    if s != [] {
      var m := s[0].name;
      var a := OfName(s, m);
      var t := OtherThan(s, m);
      ByNameWarningsGrouped(md, t);
      ByNamePermutation(t);
      SplitMembers(s, m);
      AccessesWarningsAppend(md, a, ByName(t));
      forall w | w in AccessesWarnings(md, a)
        ensures WarningName(w) == m
      {
        AccessesWarningsNames(md, a, w);
      }
      forall w | w in AccessesWarnings(md, ByName(t))
        ensures WarningName(w) != m
      {
        AccessesWarningsNames(md, ByName(t), w);
      }
      WarningsGroupedAppend(AccessesWarnings(md, a), AccessesWarnings(md, ByName(t)), m);
    }
  }

  /** The warnings of one scope come grouped by name, as libcst groups the scope's accesses. */
  lemma ScopeWarningsGrouped(md: Metadata, sc: Scope)
    ensures WarningsGrouped(ScopeWarnings(md, Some(sc)))
  {
    ByNameWarningsGrouped(md, sc.accesses);
  }


  /** The unresolved access a warning stands for, among those of present scopes. */
  predicate FromAccess(md: Metadata, scopes: seq<Option<Scope>>, w: Warning)
  {
    exists i, k | 0 <= i < |scopes| && scopes[i].Some? && 0 <= k < |scopes[i].value.accesses| ::
      w in AccessWarnings(md, scopes[i].value.accesses[k])
  }

  /** An entry's warnings are those of its accesses, whatever order they are iterated in. */
  lemma EntryMember(md: Metadata, entry: Option<Scope>, w: Warning)
    ensures w in ScopeWarnings(md, entry) <==> EntryFrom(md, entry, w)
  {
    if entry.Some? {
      ByNameWarningsMember(md, entry.value.accesses, w);
      AccessesWarningsMember(md, entry.value.accesses, w);
    }
  }

  /** `w` comes from one of the accesses of the entry. */
  predicate EntryFrom(md: Metadata, entry: Option<Scope>, w: Warning)
  {
    entry.Some? && exists k | 0 <= k < |entry.value.accesses| :: w in AccessWarnings(md, entry.value.accesses[k])
  }

  /** `FromAccess` over a set of entries splits into the entries before the last one and the last one. */
  lemma FromAccessStep(md: Metadata, scopes: seq<Option<Scope>>, w: Warning)
    requires scopes != []
    ensures var n := |scopes| - 1;
            FromAccess(md, scopes, w) <==> FromAccess(md, scopes[..n], w) || EntryFrom(md, scopes[n], w)
  {
    var n := |scopes| - 1;
    var init := scopes[..n];
    if FromAccess(md, scopes, w) {
      var i, k :| 0 <= i < |scopes| && scopes[i].Some? && 0 <= k < |scopes[i].value.accesses| &&
                  w in AccessWarnings(md, scopes[i].value.accesses[k]);
      if i < n {
        assert init[i] == scopes[i];
      }
    }
    if FromAccess(md, init, w) {
      var i, k :| 0 <= i < |init| && init[i].Some? && 0 <= k < |init[i].value.accesses| &&
                  w in AccessWarnings(md, init[i].value.accesses[k]);
      assert scopes[i] == init[i];
    }
  }

  lemma {:induction false} ScopesWarningsMember(md: Metadata, scopes: seq<Option<Scope>>, w: Warning)
    ensures w in ScopesWarnings(md, scopes) <==> FromAccess(md, scopes, w)
    decreases |scopes|
  {
    if scopes != [] {
      var n := |scopes| - 1;
      ScopesWarningsMember(md, scopes[..n], w);
      EntryMember(md, scopes[n], w);
      FromAccessStep(md, scopes, w);
      assert ScopesWarnings(md, scopes) == ScopesWarnings(md, scopes[..n]) + ScopeWarnings(md, scopes[n]);
    }
  }

  /** A located warning is reported exactly for an unresolved access starting there, on a line without an ignore comment. */
  lemma RefWarningIff(md: Metadata, line: nat, column: nat, name: string)
    requires !md.importStar
    ensures RefWarning(line, column, name) in Warnings(md) <==>
              exists i, k | 0 <= i < |md.scopes| && md.scopes[i].Some? && 0 <= k < |md.scopes[i].value.accesses| ::
                && md.scopes[i].value.accesses[k].referents == []
                && md.scopes[i].value.accesses[k].name == name
                && name !in EXCEPTIONS
                && md.scopes[i].value.accesses[k].node in md.ranges
                && md.ranges[md.scopes[i].value.accesses[k].node].start == Position(line, column)
                && line !in md.ignoredLines
  {
    ScopesWarningsMember(md, md.scopes, RefWarning(line, column, name));
  }

  /** An unlocated warning is reported exactly for an unresolved access whose node has no position; ignore comments do not apply. */
  lemma NoLocationRefWarningIff(md: Metadata, name: string)
    requires !md.importStar
    ensures NoLocationRefWarning(name) in Warnings(md) <==>
              exists i, k | 0 <= i < |md.scopes| && md.scopes[i].Some? && 0 <= k < |md.scopes[i].value.accesses| ::
                && md.scopes[i].value.accesses[k].referents == []
                && md.scopes[i].value.accesses[k].name == name
                && name !in EXCEPTIONS
                && md.scopes[i].value.accesses[k].node !in md.ranges
  {
    ScopesWarningsMember(md, md.scopes, NoLocationRefWarning(name));
  }

  /** Nothing reported names an always-defined dunder or sits on an ignored line, and the import-star warning only comes alone. */
  lemma WarningsExclude(md: Metadata, w: Warning)
    requires w in Warnings(md)
    ensures !w.ImportStarWarning? ==> !md.importStar && w.reference !in EXCEPTIONS
    ensures w.RefWarning? ==> w.line !in md.ignoredLines
    ensures w.ImportStarWarning? <==> md.importStar
  {
    if !md.importStar {
      ScopesWarningsMember(md, md.scopes, w);
    }
  }

  /** When every access of every present scope has referents, nothing is reported. */
  lemma ResolvedReportsNothing(md: Metadata)
    requires !md.importStar
    requires forall i, k | 0 <= i < |md.scopes| && md.scopes[i].Some? && 0 <= k < |md.scopes[i].value.accesses| ::
               md.scopes[i].value.accesses[k].referents != []
    ensures Warnings(md) == []
  {
    if Warnings(md) != [] {
      ScopesWarningsMember(md, md.scopes, Warnings(md)[0]);
      assert false;
    }
  }

  // ---------------------------------------------------------------------
  // The whole check
  // ---------------------------------------------------------------------

  /** `get_metadata` on a parsed module, positions supplied by the caller. */
  function ModuleMetadata(o: Oracle, builtins: seq<string>, m: Module, ranges: map<NodeId, CodeRange>): Metadata
    requires CommentsPlaced(ranges, ModuleLeaves(m))
  {
    Metadata(ModuleNodeScopes(o, builtins, m), ranges,
             HasImportStar(ModuleLeaves(m)), IgnoredLineSet(ranges, ModuleLeaves(m)))
  }

  /** `check`: collect the metadata with the three providers, then the warnings. */
  method CheckModule(o: Oracle, builtins: seq<string>, m: Module, ranges: map<NodeId, CodeRange>) returns (warnings: seq<Warning>)
    requires CommentsPlaced(ranges, ModuleLeaves(m))
    ensures warnings == Warnings(ModuleMetadata(o, builtins, m, ranges))
  {
    var scopes := ProvideScopes(o, builtins, m);
    var leaves := ModuleLeaves(m);
    var importStar := ImportStarFlag(leaves);
    var ignoredLines := IgnoredLines(ranges, leaves);
    var md := Metadata(scopes, ranges, importStar, ignoredLines);
    warnings := CheckMetadata(md);
  }

  /**
    An unresolved name at a located node, recorded in a scope some node still
    maps to, is reported when no scope on its chain binds it, it is not an
    always-defined dunder, no comment on its line holds the ignore marker and
    the module has no `import *`.
  */
  lemma ModuleReportsUnresolved(o: Oracle, builtins: seq<string>, m: Module, ranges: map<NodeId, CodeRange>, s: ScopeId, k: nat)
    requires CommentsPlaced(ranges, ModuleLeaves(m))
    requires 1 <= s < |ModuleScopes(o, builtins, m)| && s !in ModuleSuperseded(o, builtins, m)
    requires k < |ModuleScopes(o, builtins, m)[s].accesses|
    requires ModuleScopes(o, builtins, m)[s].accesses[k].node in ranges
    ensures var t := ModuleScopes(o, builtins, m);
            var a := t[s].accesses[k];
            var at := ranges[a.node].start;
            ((&& (forall j | 0 <= j < |t| && InChain(t, s, j) :: a.name !in Names(t[j]))
              && a.name !in EXCEPTIONS
              && !HasImportStar(ModuleLeaves(m))
              && at.line !in IgnoredLineSet(ranges, ModuleLeaves(m)))
             ==> RefWarning(at.line, at.column, a.name) in Warnings(ModuleMetadata(o, builtins, m, ranges)))
  {
    var t := ModuleScopes(o, builtins, m);
    var md := ModuleMetadata(o, builtins, m, ranges);
    var a := t[s].accesses[k];
    var at := ranges[a.node].start;
    if && (forall j | 0 <= j < |t| && InChain(t, s, j) :: a.name !in Names(t[j]))
       && a.name !in EXCEPTIONS && !md.importStar && at.line !in md.ignoredLines {
      assert md.scopes[s - 1] == Some(t[s]);
      RefWarningIff(md, at.line, at.column, a.name);
    }
  }

  /**
    A module holding an `import *` statement anywhere among its top-level
    statements reports the single import-star warning and nothing else.
  */
  lemma ImportStarModuleWarnings(o: Oracle, builtins: seq<string>, before: seq<Stmt>, s: Stmt, after: seq<Stmt>,
                                 ranges: map<NodeId, CodeRange>)
    requires HasImportStar(StmtLeaves(s))
    requires CommentsPlaced(ranges, ModuleLeaves(Module(before + [s] + after)))
    ensures Warnings(ModuleMetadata(o, builtins, Module(before + [s] + after), ranges)) == [ImportStarWarning]
  {
    ImportStarStatementFlagsModule(before, s, after);
  }
}
