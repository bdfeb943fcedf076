/** The byte-wise order on strings and the sort that the manifest hash relies on. */
module TextOrder {
  import opened Basics

  /** Lexicographic order, as Go's `<=` on strings. */
  predicate Leq(a: string, b: string) {
    a == "" || (b != "" && (a[0] < b[0] || (a[0] == b[0] && Leq(a[1..], b[1..]))))
  }

  predicate Less(a: string, b: string) {
    Leq(a, b) && a != b
  }

  lemma {:induction false} LeqReflexive(a: string)
    ensures Leq(a, a)
  {
    if a != "" {
      LeqReflexive(a[1..]);
    }
  }

  lemma {:induction false} LeqTotal(a: string, b: string)
    ensures Leq(a, b) || Leq(b, a)
  {
    if a != "" && b != "" && a[0] == b[0] {
      LeqTotal(a[1..], b[1..]);
    }
  }

  lemma {:induction false} LeqAntisymmetric(a: string, b: string)
    requires Leq(a, b) && Leq(b, a)
    ensures a == b
  {
    if a != "" && b != "" {
      LeqAntisymmetric(a[1..], b[1..]);
      assert a == [a[0]] + a[1..] && b == [b[0]] + b[1..];
    }
  }

  lemma {:induction false} LeqTransitive(a: string, b: string, c: string)
    requires Leq(a, b) && Leq(b, c)
    ensures Leq(a, c)
  {
    if a != "" && b != "" && c != "" && a[0] == b[0] == c[0] {
      LeqTransitive(a[1..], b[1..], c[1..]);
    }
  }

  /** Strictly ascending, hence duplicate-free. */
  ghost predicate Ascending(s: seq<string>) {
    forall i, j :: 0 <= i < j < |s| ==> Less(s[i], s[j])
  }

  ghost predicate Sorted(s: seq<string>) {
    forall i, j :: 0 <= i < j < |s| ==> Leq(s[i], s[j])
  }

  /** sort.Strings: the same strings in ascending order. */
  method SortStrings(s: seq<string>) returns (t: seq<string>)
    ensures Sorted(t)
    ensures multiset(t) == multiset(s)
  {
    t := [];
    for n := 0 to |s|
      invariant Sorted(t)
      invariant multiset(t) == multiset(s[..n])
    {
      assert s[..n + 1] == s[..n] + [s[n]];
      t := InsertSorted(t, s[n]);
    }
    assert s[..|s|] == s;
  }

  method InsertSorted(t: seq<string>, x: string) returns (r: seq<string>)
    requires Sorted(t)
    ensures Sorted(r)
    ensures multiset(r) == multiset(t) + multiset{x}
  {
    var k := |t|;
    while k > 0 && !Leq(t[k - 1], x)
      invariant 0 <= k <= |t|
      invariant forall i :: k <= i < |t| ==> Leq(x, t[i])
    {
      LeqTotal(t[k - 1], x);
      k := k - 1;
    }
    forall i | 0 <= i < k ensures Leq(t[i], x) {
      if i < k - 1 {
        LeqTransitive(t[i], t[k - 1], x);
      }
    }
    InsertedSorted(t, k, x);
    r := Insert(t, k, x);
  }

  function Insert(t: seq<string>, k: nat, x: string): (r: seq<string>)
    requires k <= |t|
    ensures multiset(r) == multiset(t) + multiset{x}
  {
    assert t == t[..k] + t[k..];
    t[..k] + [x] + t[k..]
  }

  lemma InsertedSorted(t: seq<string>, k: nat, x: string)
    requires Sorted(t) && k <= |t|
    requires (forall i :: 0 <= i < k ==> Leq(t[i], x)) && (forall i :: k <= i < |t| ==> Leq(x, t[i]))
    ensures Sorted(Insert(t, k, x))
  {
    hide Leq;
    var r := Insert(t, k, x);
    assert forall i :: 0 <= i < |r| ==> r[i] == if i < k then t[i] else if i == k then x else t[i - 1];
  }

  /** Two ascending enumerations of one set are the same list. */
  lemma {:induction false} AscendingUnique(s: seq<string>, t: seq<string>)
    requires Ascending(s) && Ascending(t)
    requires forall x :: x in s <==> x in t
    ensures s == t
  {
    var first := if t == [] then "" else t[0];
    assert t != [] ==> first in t;
    if s != [] {
      assert s[0] in s;
      var j :| 0 <= j < |t| && t[j] == s[0];
      assert t[0] in t;
      var i :| 0 <= i < |s| && s[i] == t[0];
      if i > 0 || j > 0 {
        assert Leq(s[0], s[i]) by { LeqReflexive(s[0]); }
        assert Leq(t[0], t[j]) by { LeqReflexive(t[0]); }
        LeqAntisymmetric(s[0], t[0]);
      }
      forall x ensures x in s[1..] <==> x in t[1..] {
        assert x in s[1..] ==> x in s && x != s[0];
        assert x in t[1..] ==> x in t && x != t[0];
        assert s == [s[0]] + s[1..] && t == [t[0]] + t[1..];
      }
      AscendingUnique(s[1..], t[1..]);
      assert s == [s[0]] + s[1..] && t == [t[0]] + t[1..];
    }
  }

  /** Sorting a duplicate-free list gives the ascending enumeration. */
  lemma SortedWithoutDuplicates(s: seq<string>, t: seq<string>)
    requires NoDuplicates(s) && Sorted(t) && multiset(t) == multiset(s)
    ensures Ascending(t) && forall x :: x in t <==> x in s
  {
    forall x ensures x in t <==> x in s {
      assert x in t <==> x in multiset(t);
      assert x in s <==> x in multiset(s);
    }
    forall i, j | 0 <= i < j < |t| ensures Less(t[i], t[j]) {
      if t[i] == t[j] {
        RepeatedMultiplicity(t, i, j);
        MultiplicityWithoutDuplicates(s, t[i]);
      }
    }
  }

  /** Every finite set of strings has an ascending enumeration. */
  ghost function SortedPaths(s: set<string>): (r: seq<string>)
    ensures Ascending(r)
    ensures forall x :: x in r <==> x in s
  {
    if s == {} then []
    else
      LeastExists(s);
      var m :| m in s && forall x :: x in s ==> Leq(m, x);
      var rest := SortedPaths(s - {m});
      assert forall x :: x in rest ==> x in s && x != m;
      [m] + rest
  }

  lemma {:induction false} LeastExists(s: set<string>)
    requires s != {}
    ensures exists m :: m in s && forall x :: x in s ==> Leq(m, x)
    decreases |s|
  {
    var y :| y in s;
    if s == {y} {
      LeqReflexive(y);
      assert forall x :: x in s ==> x == y;
    } else {
      var rest := s - {y};
      assert |rest| < |s|;
      LeastExists(rest);
      var m :| m in rest && forall x :: x in rest ==> Leq(m, x);
      LeqTotal(m, y);
      LeqReflexive(y);
      if Leq(m, y) {
        assert forall x :: x in s ==> x == y || x in rest;
        assert m in s && forall x :: x in s ==> Leq(m, x);
      } else {
        forall x | x in s ensures Leq(y, x) {
          if x != y {
            LeqTransitive(y, m, x);
          }
        }
      }
    }
  }
}
