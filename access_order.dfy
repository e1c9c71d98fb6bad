/**
  The order in which a scope's accesses are iterated.  libcst keeps them as a
  map from name to the set of accesses to that name, keyed in the order the
  names are first accessed, and iterates the map's values one after another.
  So the accesses come grouped by name, with the names in first-access order.
  Within one name they come in a set's order, which is not fixed; the model
  keeps the order they were recorded in there.
*/
module AccessOrder {
  import opened Scopes

  /** The accesses of `s` to the name `n`, in recording order. */
  function OfName(s: seq<Access>, n: string): (r: seq<Access>)
    ensures |r| <= |s|
  {
    if s == [] then []
    else (if s[0].name == n then [s[0]] else []) + OfName(s[1..], n)
  }

  /** The accesses of `s` to any other name, in recording order. */
  function OtherThan(s: seq<Access>, n: string): (r: seq<Access>)
    ensures |r| <= |s|
    ensures |s| > 0 && s[0].name == n ==> |r| < |s|
  {
    if s == [] then []
    else (if s[0].name == n then [] else [s[0]]) + OtherThan(s[1..], n)
  }

  /** `scope.accesses` as libcst iterates it. */
  function ByName(s: seq<Access>): seq<Access>
    decreases |s|
  {
    if s == [] then []
    else OfName(s, s[0].name) + ByName(OtherThan(s, s[0].name))
  }

  /** Where the first access to `n` sits; `|s|` when there is none. */
  function FirstIndex(s: seq<Access>, n: string): (r: nat)
    ensures r <= |s|
    ensures r < |s| ==> s[r].name == n
  {
    if s == [] then 0
    else if s[0].name == n then 0
    else 1 + FirstIndex(s[1..], n)
  }

  // ---------------------------------------------------------------------
  // Splitting by one name
  // ---------------------------------------------------------------------

  /** `OfName` keeps exactly the accesses to `n`, `OtherThan` exactly the others. */
  lemma {:induction false} SplitMembers(s: seq<Access>, n: string)
    ensures forall a :: a in OfName(s, n) <==> a in s && a.name == n
    ensures forall a :: a in OtherThan(s, n) <==> a in s && a.name != n
  {
    if s != [] {
      SplitMembers(s[1..], n);
      assert s == [s[0]] + s[1..];
    }
  }

  lemma {:induction false} SplitMultiset(s: seq<Access>, n: string)
    ensures multiset(OfName(s, n)) + multiset(OtherThan(s, n)) == multiset(s)
  {
    if s != [] {
      SplitMultiset(s[1..], n);
      assert s == [s[0]] + s[1..];
    }
  }

  lemma {:induction false} OfNameAppend(a: seq<Access>, b: seq<Access>, n: string)
    ensures OfName(a + b, n) == OfName(a, n) + OfName(b, n)
  {
    if a != [] {
      OfNameAppend(a[1..], b, n);
      var head := if a[0].name == n then [a[0]] else [];
      assert (a + b)[0] == a[0];
      assert (a + b)[1..] == a[1..] + b;
      assert OfName(a + b, n) == head + OfName(a[1..] + b, n);
      assert OfName(a, n) == head + OfName(a[1..], n);
    } else {
      assert a + b == b;
    }
  }

  /** Taking one name's accesses twice, or after removing another name, is the same as once or nothing. */
  lemma {:induction false} OfNameSplit(s: seq<Access>, m: string, n: string)
    ensures OfName(OfName(s, m), n) == if m == n then OfName(s, n) else []
    ensures OfName(OtherThan(s, m), n) == if m == n then [] else OfName(s, n)
  {
    if s != [] {
      OfNameSplit(s[1..], m, n);
      var head := if s[0].name == m then [s[0]] else [];
      OfNameAppend(head, OfName(s[1..], m), n);
      var rest := if s[0].name == m then [] else [s[0]];
      OfNameAppend(rest, OtherThan(s[1..], m), n);
    }
  }

  /** With no access to `n`, removing `n` changes nothing and keeping `n` keeps nothing. */
  lemma {:induction false} AbsentName(s: seq<Access>, n: string)
    requires forall i | 0 <= i < |s| :: s[i].name != n
    ensures OtherThan(s, n) == s && OfName(s, n) == []
  {
    if s != [] {
      AbsentName(s[1..], n);
      assert s == [s[0]] + s[1..];
    }
  }

  lemma {:induction false} FirstIndexAppend(a: seq<Access>, b: seq<Access>, n: string)
    requires forall i | 0 <= i < |a| :: a[i].name != n
    ensures FirstIndex(a + b, n) == |a| + FirstIndex(b, n)
  {
    if a == [] {
      assert a + b == b;
    } else {
      assert (a + b)[0] == a[0];
      assert (a + b)[1..] == a[1..] + b;
      assert forall i | 0 <= i < |a[1..]| :: a[1..][i] == a[i + 1];
      FirstIndexAppend(a[1..], b, n);
    }
  }

  /** Removing one name keeps the order in which the other names are first accessed. */
  lemma {:induction false} OtherThanFirstOrder(s: seq<Access>, m: string, n1: string, n2: string)
    requires n1 != m && n2 != m && n1 != n2
    ensures FirstIndex(OtherThan(s, m), n1) < FirstIndex(OtherThan(s, m), n2)
        <==> FirstIndex(s, n1) < FirstIndex(s, n2)
  {
    if s != [] {
      var u := OtherThan(s[1..], m);
      OtherThanFirstOrder(s[1..], m, n1, n2);
      var t := OtherThan(s, m);
      var k := s[0].name;
      if k == m {
        assert t == u;
        assert FirstIndex(s, n1) == 1 + FirstIndex(s[1..], n1);
        assert FirstIndex(s, n2) == 1 + FirstIndex(s[1..], n2);
      } else {
        assert t == [s[0]] + u;
        assert t[0] == s[0] && t[1..] == u;
        if k == n1 {
          assert FirstIndex(t, n1) == 0 && FirstIndex(s, n1) == 0;
          assert FirstIndex(t, n2) == 1 + FirstIndex(u, n2);
          assert FirstIndex(s, n2) == 1 + FirstIndex(s[1..], n2);
        } else if k == n2 {
          assert FirstIndex(t, n2) == 0 && FirstIndex(s, n2) == 0;
        } else {
          assert FirstIndex(t, n1) == 1 + FirstIndex(u, n1);
          assert FirstIndex(t, n2) == 1 + FirstIndex(u, n2);
          assert FirstIndex(s, n1) == 1 + FirstIndex(s[1..], n1);
          assert FirstIndex(s, n2) == 1 + FirstIndex(s[1..], n2);
        }
      }
    }
  }

  // ---------------------------------------------------------------------
  // What the iteration order is
  // ---------------------------------------------------------------------

  /** The iteration visits every access exactly once: it is a permutation of the recorded accesses. */
  lemma {:induction false} ByNamePermutation(s: seq<Access>)
    ensures multiset(ByName(s)) == multiset(s)
    ensures |ByName(s)| == |s|
    ensures forall a :: a in ByName(s) <==> a in s
    decreases |s|
  {
    if s != [] {
      var m := s[0].name;
      ByNamePermutation(OtherThan(s, m));
      SplitMultiset(s, m);
      assert multiset(ByName(s)) == multiset(s);
      assert |multiset(ByName(s))| == |multiset(s)|;
      forall a
        ensures a in ByName(s) <==> a in s
      {
        assert a in ByName(s) <==> a in multiset(ByName(s));
        assert a in s <==> a in multiset(s);
      }
    }
  }

  /** The accesses to one name come in the order they were recorded in. */
  lemma {:induction false} ByNameWithinName(s: seq<Access>, n: string)
    ensures OfName(ByName(s), n) == OfName(s, n)
    decreases |s|
  {
    if s != [] {
      var m := s[0].name;
      var t := OtherThan(s, m);
      ByNameWithinName(t, n);
      OfNameAppend(OfName(s, m), ByName(t), n);
      OfNameSplit(s, m, n);
    }
  }

  /** Between two accesses to a name there is no access to another name. */
  predicate Grouped(r: seq<Access>)
  {
    forall i, j, k | 0 <= i < j < k < |r| && r[i].name == r[k].name :: r[j].name == r[i].name
  }

  /** One name's accesses in front of a grouped run of other names stay grouped. */
  lemma GroupedAppend(a: seq<Access>, b: seq<Access>, m: string)
    requires forall x | x in a :: x.name == m
    requires forall x | x in b :: x.name != m
    requires Grouped(b)
    ensures Grouped(a + b)
  {
    var r := a + b;
    forall i, j, k | 0 <= i < j < k < |r| && r[i].name == r[k].name
      ensures r[j].name == r[i].name
    {
      if k < |a| {
        assert r[i] == a[i] && r[j] == a[j];
      } else if i >= |a| {
        assert r[i] == b[i - |a|] && r[j] == b[j - |a|] && r[k] == b[k - |a|];
      } else {
        assert false;
      }
    }
  }

  /** The accesses are grouped by name. */
  lemma {:induction false} ByNameGrouped(s: seq<Access>)
    ensures Grouped(ByName(s))
    decreases |s|
  {
    if s != [] {
      var m := s[0].name;
      var t := OtherThan(s, m);
      ByNameGrouped(t);
      ByNamePermutation(t);
      SplitMembers(s, m);
      GroupedAppend(OfName(s, m), ByName(t), m);
    }
  }

  /** The names come in the order of their first access. */
  lemma {:induction false} ByNameFirstOrder(s: seq<Access>, n1: string, n2: string)
    requires n1 != n2
    ensures FirstIndex(ByName(s), n1) < FirstIndex(ByName(s), n2) <==> FirstIndex(s, n1) < FirstIndex(s, n2)
    decreases |s|
  {
    if s != [] {
      var m := s[0].name;
      var a := OfName(s, m);
      var t := OtherThan(s, m);
      var r := ByName(s);
      assert r == a + ByName(t);
      SplitMembers(s, m);
      assert s[0] in a;
      assert a[0] == s[0] by {
        assert a == [s[0]] + OfName(s[1..], m);
      }
      ByNamePermutation(s);
      if n1 != m && n2 != m {
        assert forall i | 0 <= i < |a| :: a[i].name != n1 && a[i].name != n2 by {
          assert forall i | 0 <= i < |a| :: a[i] in a;
        }
        FirstIndexAppend(a, ByName(t), n1);
        FirstIndexAppend(a, ByName(t), n2);
        ByNameFirstOrder(t, n1, n2);
        OtherThanFirstOrder(s, m, n1, n2);
      } else {
        assert r[0] == s[0];
      }
    }
  }

  /** An access whose name does not come again is iterated first, alone. */
  lemma ByNameUniqueHead(s: seq<Access>)
    requires s != []
    requires forall i | 1 <= i < |s| :: s[i].name != s[0].name
    ensures ByName(s) == [s[0]] + ByName(s[1..])
  {
    var m := s[0].name;
    var rest := s[1..];
    forall i | 0 <= i < |rest|
      ensures rest[i].name != m
    {
      assert rest[i] == s[i + 1];
    }
    AbsentName(rest, m);
    var kept := OfName(s, m);
    assert kept == [s[0]] + OfName(rest, m);
    assert kept == [s[0]];
    assert OtherThan(s, m) == OtherThan(rest, m);
    assert OtherThan(s, m) == rest;
    assert ByName(s) == kept + ByName(OtherThan(s, m));
  }

  /** When every access is to a different name, the iteration is the recording order. */
  lemma {:induction false} DistinctNamesByName(s: seq<Access>)
    requires forall i, j | 0 <= i < j < |s| :: s[i].name != s[j].name
    ensures ByName(s) == s
    decreases |s|
  {
    if s != [] {
      var rest := s[1..];
      forall i, j | 0 <= i < j < |rest|
        ensures rest[i].name != rest[j].name
      {
        assert rest[i] == s[i + 1] && rest[j] == s[j + 1];
      }
      ByNameUniqueHead(s);
      DistinctNamesByName(rest);
      assert s == [s[0]] + rest;
    }
  }

  /** `print(a)`, `print(b)`, `print(a)`: both accesses to `a` come before the one to `b`. */
  lemma InterleavedNames(a1: Access, b: Access, a2: Access)
    requires a1.name == "a" && b.name == "b" && a2.name == "a"
    ensures ByName([a1, b, a2]) == [a1, a2, b]
  {
    var s := [a1, b, a2];
    assert s[1..] == [b, a2] && s[1..][1..] == [a2] && [a2][1..] == [];
    assert OfName([a2], "a") == [a2];
    assert OfName([b, a2], "a") == [a2];
    assert OfName(s, "a") == [a1, a2];
    assert OtherThan([a2], "a") == [];
    assert OtherThan([b, a2], "a") == [b];
    assert OtherThan(s, "a") == [b];
    ByNameUniqueHead([b]);
  }
}
