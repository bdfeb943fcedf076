/**
 Version comparison (internal/version/version.go): Go's string cutting and number parsing spelled
 out, the two comparison loops, and what they are worth as an order.
 */
module Versions {
  import opened Basics
  import opened TextOrder

  const MaxInt := 0x7FFF_FFFF_FFFF_FFFF
  const MaxUint64 := 0xFFFF_FFFF_FFFF_FFFF

  // ----- strings.Cut, strings.Split, strings.TrimSpace, strconv.Atoi

  /** Up to the first separator, and what follows it. */
  function Cut(s: string, sep: char): (r: (string, string)) {
    if s == "" then ("", "")
    else if s[0] == sep then ("", s[1..])
    else ([s[0]] + Cut(s[1..], sep).0, Cut(s[1..], sep).1)
  }

  function Split(s: string, sep: char): (parts: seq<string>)
    ensures |parts| >= 1
  {
    if s == "" then [""]
    else if s[0] == sep then [""] + Split(s[1..], sep)
    else
      var rest := Split(s[1..], sep);
      [[s[0]] + rest[0]] + rest[1..]
  }

  predicate IsSpace(c: char) {
    || c in "\t\n\r " || c as int in {0x0B, 0x0C, 0x85, 0xA0, 0x1680, 0x2028, 0x2029, 0x202F, 0x205F, 0x3000}
    || 0x2000 <= c as int <= 0x200A
  }

  function TrimSpace(s: string): string {
    if s == "" then ""
    else if IsSpace(s[0]) then TrimSpace(s[1..])
    else if IsSpace(s[|s| - 1]) then TrimSpace(s[..|s| - 1])
    else s
  }

  datatype Digits = Value(n: nat) | Syntax | TooBig

  /** strconv.ParseUint in base 10: an overflow is reported before any later stray character is seen. */
  function ParseDigits(s: string, n: nat): Digits {
    if s == "" then Value(n)
    else if !IsDigit(s[0]) then Syntax
    else
      var next := n * 10 + (s[0] as int - '0' as int);
      if next > MaxUint64 then TooBig else ParseDigits(s[1..], next)
  }

  datatype Number = Number(value: int, ok: bool)

  /** strconv.Atoi: 0 on a syntax error, the nearest int on an overflow. */
  function Atoi(s: string): Number {
    var negative := s != "" && s[0] == '-';
    var digits := if s != "" && (s[0] == '-' || s[0] == '+') then s[1..] else s;
    if digits == "" then Number(0, false)
    else
      match ParseDigits(digits, 0)
      case Syntax => Number(0, false)
      case TooBig => Number(if negative then -MaxInt - 1 else MaxInt, false)
      case Value(n) =>
        if !negative && n > MaxInt then Number(MaxInt, false)
        else if negative && n > MaxInt + 1 then Number(-MaxInt - 1, false)
        else Number(if negative then 0 - n as int else n as int, true)
  }

  // ----- The comparisons, as functions of the parsed parts

  function Sign(a: int, b: int): int {
    if a < b then -1 else if a > b then 1 else 0
  }

  /** Missing parts count as 0. */
  function ComparePadded(a: seq<int>, b: seq<int>): int
    decreases |a| + |b|
  {
    if a == [] && b == [] then 0
    else
      var x, y := if a == [] then 0 else a[0], if b == [] then 0 else b[0];
      if x != y then Sign(x, y) else ComparePadded(if a == [] then a else a[1..], if b == [] then b else b[1..])
  }

  datatype Identifier = Num(n: int) | Text(s: string)

  function IdentifierOf(part: string): Identifier {
    if Atoi(part).ok then Num(Atoi(part).value) else Text(part)
  }

  function CompareText(a: string, b: string): int {
    if a == b then 0 else if Leq(a, b) then -1 else 1
  }

  function CompareIdentifier(a: Identifier, b: Identifier): int {
    match (a, b)
    case (Num(x), Num(y)) => Sign(x, y)
    case (Num(_), Text(_)) => -1
    case (Text(_), Num(_)) => 1
    case (Text(x), Text(y)) => CompareText(x, y)
  }

  function CompareIdentifiers(a: seq<Identifier>, b: seq<Identifier>): int {
    if a == [] && b == [] then 0
    else if a == [] then -1
    else if b == [] then 1
    else if CompareIdentifier(a[0], b[0]) != 0 then CompareIdentifier(a[0], b[0])
    else CompareIdentifiers(a[1..], b[1..])
  }

  function CoreOf(core: string): seq<int> {
    CoreValues(Split(core, '.'))
  }

  function CoreValues(parts: seq<string>): (r: seq<int>)
    ensures |r| == |parts|
    ensures forall i :: 0 <= i < |r| ==> r[i] == Atoi(TrimSpace(parts[i])).value
  {
    seq(|parts|, i requires 0 <= i < |parts| => Atoi(TrimSpace(parts[i])).value)
  }

  function IdentifiersOf(pre: string): seq<Identifier> {
    Identifiers(Split(pre, '.'))
  }

  function Identifiers(parts: seq<string>): (r: seq<Identifier>)
    ensures |r| == |parts|
    ensures forall i :: 0 <= i < |r| ==> r[i] == IdentifierOf(parts[i])
  {
    seq(|parts|, i requires 0 <= i < |parts| => IdentifierOf(parts[i]))
  }

  function ComparePre(a: string, b: string): int {
    if a == b then 0 else if a == "" then 1 else if b == "" then -1
    else CompareIdentifiers(IdentifiersOf(a), IdentifiersOf(b))
  }

  function Comparison(a: string, b: string): int {
    var (aCore, aPre) := Cut(a, '-');
    var (bCore, bPre) := Cut(b, '-');
    var c := ComparePadded(CoreOf(aCore), CoreOf(bCore));
    if c != 0 then c else ComparePre(aPre, bPre)
  }

  // ----- The code's loops

  /** A common stretch of equal parts does not decide. */
  lemma {:induction false} PaddedSkip(a: seq<int>, b: seq<int>, i: nat)
    requires forall k :: 0 <= k < i ==> (if k < |a| then a[k] else 0) == (if k < |b| then b[k] else 0)
    ensures ComparePadded(a, b) == ComparePadded(if i < |a| then a[i..] else [], if i < |b| then b[i..] else [])
    decreases i
  {
    if i > 0 && (a != [] || b != []) {
      var a', b' := if a == [] then a else a[1..], if b == [] then b else b[1..];
      assert (if 0 < |a| then a[0] else 0) == (if 0 < |b| then b[0] else 0);
      forall k | 0 <= k < i - 1
        ensures (if k < |a'| then a'[k] else 0) == (if k < |b'| then b'[k] else 0)
      {
        assert (if k + 1 < |a| then a[k + 1] else 0) == (if k + 1 < |b| then b[k + 1] else 0);
      }
      PaddedSkip(a', b', i - 1);
    }
  }

  method CompareCore(a: string, b: string) returns (r: int)
    ensures r == ComparePadded(CoreOf(a), CoreOf(b))
  {
    var xs, ys := Split(a, '.'), Split(b, '.');
    ghost var as', bs := CoreValues(xs), CoreValues(ys);
    var n := |xs|;
    if |ys| > n {
      n := |ys|;
    }
    for i := 0 to n
      invariant forall k :: 0 <= k < i ==> (if k < |as'| then as'[k] else 0) == (if k < |bs| then bs[k] else 0)
    {
      var x, y := 0, 0;
      if i < |xs| {
        x := Atoi(TrimSpace(xs[i])).value;
      }
      if i < |ys| {
        y := Atoi(TrimSpace(ys[i])).value;
      }
      if x != y {
        PaddedSkip(as', bs, i);
        return if x < y then -1 else 1;
      }
    }
    PaddedSkip(as', bs, n);
    r := 0;
  }

  lemma {:induction false} IdentifiersSkip(a: seq<Identifier>, b: seq<Identifier>, i: nat)
    requires i <= |a| && i <= |b|
    requires forall k :: 0 <= k < i ==> CompareIdentifier(a[k], b[k]) == 0
    ensures CompareIdentifiers(a, b) == CompareIdentifiers(a[i..], b[i..])
    decreases i
  {
    if i > 0 {
      assert CompareIdentifier(a[0], b[0]) == 0;
      forall k | 0 <= k < i - 1 ensures CompareIdentifier(a[1..][k], b[1..][k]) == 0 {
        assert CompareIdentifier(a[k + 1], b[k + 1]) == 0;
      }
      IdentifiersSkip(a[1..], b[1..], i - 1);
      assert a[1..][i - 1..] == a[i..] && b[1..][i - 1..] == b[i..];
    }
  }

  method ComparePreRelease(a: string, b: string) returns (r: int)
    ensures r == CompareIdentifiers(IdentifiersOf(a), IdentifiersOf(b))
  {
    var xs, ys := Split(a, '.'), Split(b, '.');
    ghost var as', bs := Identifiers(xs), Identifiers(ys);
    var n := |xs|;
    if |ys| > n {
      n := |ys|;
    }
    for i := 0 to n
      invariant i <= |xs| && i <= |ys|
      invariant forall k :: 0 <= k < i ==> CompareIdentifier(as'[k], bs[k]) == 0
    {
      IdentifiersSkip(as', bs, i);
      if i >= |xs| {
        return -1;
      } else if i >= |ys| {
        return 1;
      }
      var x, y := Atoi(xs[i]), Atoi(ys[i]);
      if x.ok && y.ok {
        if x.value != y.value {
          return if x.value < y.value then -1 else 1;
        }
      } else if x.ok {
        return -1;
      } else if y.ok {
        return 1;
      } else if xs[i] != ys[i] {
        return if Leq(xs[i], ys[i]) then -1 else 1;
      }
    }
    IdentifiersSkip(as', bs, n);
    r := 0;
  }

  method Compare(a: string, b: string) returns (r: int)
    ensures r == Comparison(a, b)
  {
    var (aCore, aPre) := Cut(a, '-');
    var (bCore, bPre) := Cut(b, '-');
    var c := CompareCore(aCore, bCore);
    if c != 0 {
      return c;
    }
    if aPre == bPre {
      return 0;
    } else if aPre == "" {
      return 1;
    } else if bPre == "" {
      return -1;
    } else {
      r := ComparePreRelease(aPre, bPre);
    }
  }

  // ----- A total preorder on all strings

  lemma {:induction false} PaddedAntisymmetric(a: seq<int>, b: seq<int>)
    ensures ComparePadded(a, b) == -ComparePadded(b, a) && -1 <= ComparePadded(a, b) <= 1
    decreases |a| + |b|
  {
    if a != [] || b != [] {
      PaddedAntisymmetric(if a == [] then a else a[1..], if b == [] then b else b[1..]);
    }
  }

  lemma {:induction false} PaddedTransitive(a: seq<int>, b: seq<int>, c: seq<int>)
    requires ComparePadded(a, b) <= 0 && ComparePadded(b, c) <= 0
    ensures ComparePadded(a, c) <= 0
    ensures ComparePadded(a, c) == 0 ==> ComparePadded(a, b) == ComparePadded(b, c) == 0
    decreases |a| + |b| + |c|
  {
    if a != [] || b != [] || c != [] {
      var x := if a == [] then 0 else a[0];
      var y := if b == [] then 0 else b[0];
      var z := if c == [] then 0 else c[0];
      if x == y == z {
        PaddedTransitive(if a == [] then a else a[1..], if b == [] then b else b[1..], if c == [] then c else c[1..]);
      }
    }
  }

  lemma IdentifierAntisymmetric(a: Identifier, b: Identifier)
    ensures CompareIdentifier(a, b) == -CompareIdentifier(b, a) && -1 <= CompareIdentifier(a, b) <= 1
    ensures CompareIdentifier(a, b) == 0 ==> a == b
  {
    if a.Text? && b.Text? && a.s != b.s {
      LeqTotal(a.s, b.s);
      if Leq(a.s, b.s) && Leq(b.s, a.s) {
        LeqAntisymmetric(a.s, b.s);
      }
    }
  }

  lemma IdentifierTransitive(a: Identifier, b: Identifier, c: Identifier)
    requires CompareIdentifier(a, b) <= 0 && CompareIdentifier(b, c) <= 0
    ensures CompareIdentifier(a, c) <= 0
  {
    if a.Text? && b.Text? && c.Text? && a.s != b.s && b.s != c.s {
      LeqTransitive(a.s, b.s, c.s);
    }
  }

  lemma {:induction false} IdentifiersAntisymmetric(a: seq<Identifier>, b: seq<Identifier>)
    ensures CompareIdentifiers(a, b) == -CompareIdentifiers(b, a) && -1 <= CompareIdentifiers(a, b) <= 1
  {
    if a != [] && b != [] {
      IdentifierAntisymmetric(a[0], b[0]);
      IdentifiersAntisymmetric(a[1..], b[1..]);
    }
  }

  lemma {:induction false} IdentifiersTransitive(a: seq<Identifier>, b: seq<Identifier>, c: seq<Identifier>)
    requires CompareIdentifiers(a, b) <= 0 && CompareIdentifiers(b, c) <= 0
    ensures CompareIdentifiers(a, c) <= 0
  {
    if a != [] && b != [] && c != [] {
      IdentifierAntisymmetric(a[0], b[0]);
      IdentifierAntisymmetric(b[0], c[0]);
      IdentifierAntisymmetric(a[0], c[0]);
      IdentifierTransitive(a[0], b[0], c[0]);
      if CompareIdentifier(a[0], c[0]) == 0 {
        if CompareIdentifier(a[0], b[0]) == 0 {
          IdentifiersTransitive(a[1..], b[1..], c[1..]);
        }
      }
    }
  }

  lemma PreAntisymmetric(a: string, b: string)
    ensures ComparePre(a, b) == -ComparePre(b, a) && -1 <= ComparePre(a, b) <= 1
  {
    IdentifiersAntisymmetric(IdentifiersOf(a), IdentifiersOf(b));
  }

  lemma PreTransitive(a: string, b: string, c: string)
    requires ComparePre(a, b) <= 0 && ComparePre(b, c) <= 0
    ensures ComparePre(a, c) <= 0
  {
    if a != b && b != c && a != "" && b != "" && c != "" {
      IdentifiersTransitive(IdentifiersOf(a), IdentifiersOf(b), IdentifiersOf(c));
    }
  }

  /** Reversing the arguments reverses the sign; in particular a string equals itself. */
  lemma ComparisonAntisymmetric(a: string, b: string)
    ensures Comparison(a, b) == -Comparison(b, a) && -1 <= Comparison(a, b) <= 1
  {
    PaddedAntisymmetric(CoreOf(Cut(a, '-').0), CoreOf(Cut(b, '-').0));
    PreAntisymmetric(Cut(a, '-').1, Cut(b, '-').1);
  }

  /** Together with ComparisonAntisymmetric: a total preorder over all strings, well formed or not. */
  lemma ComparisonTransitive(a: string, b: string, c: string)
    requires Comparison(a, b) <= 0 && Comparison(b, c) <= 0
    ensures Comparison(a, c) <= 0
  {
    var (aCore, aPre) := Cut(a, '-');
    var (bCore, bPre) := Cut(b, '-');
    var (cCore, cPre) := Cut(c, '-');
    PaddedTransitive(CoreOf(aCore), CoreOf(bCore), CoreOf(cCore));
    if ComparePadded(CoreOf(aCore), CoreOf(cCore)) == 0 {
      PreTransitive(aPre, bPre, cPre);
    }
  }

  // ----- Which of two builds is newer

  datatype Build = Build(version: string, ms: int)

  /** A build on the same version is newer only if both build times are known and a minute apart. */
  predicate Newer(peer: Build, own: Build) {
    match Comparison(peer.version, own.version)
    case 1 => true
    case -1 => false
    case _ => peer.ms != 0 && own.ms != 0 && peer.ms > own.ms + 60_000
  }

  lemma EqualComparesAlike(a: string, b: string, c: string)
    requires Comparison(a, b) == 0
    ensures Comparison(a, c) == Comparison(b, c)
  {
    ComparisonAntisymmetric(a, b);
    ComparisonAntisymmetric(a, c);
    ComparisonAntisymmetric(b, c);
    if Comparison(b, c) <= 0 {
      ComparisonTransitive(a, b, c);
    }
    if Comparison(c, b) <= 0 {
      ComparisonTransitive(c, b, a);
    }
    if Comparison(a, c) <= 0 {
      ComparisonTransitive(b, a, c);
    }
    if Comparison(c, a) <= 0 {
      ComparisonTransitive(c, a, b);
    }
  }

  /** No build is newer than itself, and devices updating from each other cannot go round in a circle. */
  lemma NewerIsStrictOrder(a: Build, b: Build, c: Build)
    ensures !Newer(a, a)
    ensures Newer(a, b) && Newer(b, c) ==> Newer(a, c)
  {
    ComparisonAntisymmetric(a.version, a.version);
    ComparisonAntisymmetric(a.version, b.version);
    ComparisonAntisymmetric(b.version, c.version);
    ComparisonAntisymmetric(a.version, c.version);
    if Newer(a, b) && Newer(b, c) {
      if Comparison(a.version, b.version) == 0 {
        EqualComparesAlike(a.version, b.version, c.version);
      } else if Comparison(b.version, c.version) == 0 {
        EqualComparesAlike(c.version, b.version, a.version);
      } else {
        ComparisonTransitive(c.version, b.version, a.version);
        if Comparison(a.version, c.version) == 0 {
          EqualComparesAlike(a.version, c.version, b.version);
        }
      }
    }
  }
}
