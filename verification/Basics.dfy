/** Small shared vocabulary: optional values, bytes and duplicate-free lists. */
module Basics {

  datatype Option<+T> = None | Some(value: T)

  datatype Result<+T> = Ok(value: T) | Error

  type byte = b: int | 0 <= b < 256 witness 0

  type bytes = seq<byte>

  predicate IsDigit(c: char) {
    '0' <= c <= '9'
  }

  /** Decimal notation without leading zeros. */
  function Decimal(n: nat): (s: string)
    ensures s != "" && forall c :: c in s ==> IsDigit(c)
  {
    var d := ['0' + (n % 10) as char];
    if n < 10 then d else Decimal(n / 10) + d
  }

  lemma {:induction false} DecimalInjective(m: nat, n: nat)
    requires Decimal(m) == Decimal(n)
    ensures m == n
  {
    var s, t := Decimal(m), Decimal(n);
    assert s[|s| - 1] == '0' + (m % 10) as char && t[|t| - 1] == '0' + (n % 10) as char;
    assert m % 10 == n % 10;
    if m >= 10 {
      assert Decimal(m / 10) == s[..|s| - 1];
      assert |t| >= 2;
      assert Decimal(n / 10) == t[..|t| - 1];
      DecimalInjective(m / 10, n / 10);
    }
  }

  /** No element of s occurs twice. */
  ghost predicate NoDuplicates<T>(s: seq<T>) {
    forall i, j :: 0 <= i < j < |s| ==> s[i] != s[j]
  }

  lemma NoDuplicatesAppend<T>(s: seq<T>, x: T)
    requires NoDuplicates(s) && x !in s
    ensures NoDuplicates(s + [x])
  {
  }

  /** In a duplicate-free list every member has multiplicity one. */
  lemma {:induction false} MultiplicityWithoutDuplicates<T>(s: seq<T>, x: T)
    requires NoDuplicates(s)
    ensures multiset(s)[x] == if x in s then 1 else 0
  {
    if s != [] {
      var last := |s| - 1;
      assert s == s[..last] + [s[last]];
      MultiplicityWithoutDuplicates(s[..last], x);
    }
  }

  lemma RepeatedMultiplicity<T>(s: seq<T>, i: nat, j: nat)
    requires i < j < |s| && s[i] == s[j]
    ensures multiset(s)[s[i]] >= 2
  {
    assert s == s[..j] + [s[j]] + s[j + 1..];
    assert s[..j][i] in multiset(s[..j]);
  }

  /** list holds exactly the members of s, each once, in some order. */
  ghost predicate Enumerates<T>(list: seq<T>, s: set<T>) {
    multiset(list) == multiset(s)
  }

  lemma EnumeratesMembers<T>(list: seq<T>, s: set<T>)
    requires Enumerates(list, s)
    ensures |list| == |s|
    ensures forall x :: x in list <==> x in s
    ensures list == [] <==> s == {}
  {
    assert |multiset(list)| == |list|;
    forall x ensures x in list <==> x in s {
      assert x in list <==> x in multiset(list);
      assert x in s <==> x in multiset(s);
    }
  }

  lemma NonEmptyHasMember<T>(list: seq<T>)
    requires list != []
    ensures exists x :: x in list
  {
    assert list[0] in list;
  }

  lemma EmptyWithoutMembers<T>(list: seq<T>)
    requires forall x :: x !in list
    ensures list == []
  {
    if list != [] {
      NonEmptyHasMember(list);
    }
  }
}
