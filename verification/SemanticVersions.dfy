/**
 How far version comparison agrees with section 11 of Semantic Versioning 2.0.0. The reference order
 is defined on parsed versions, the code's order on their text.
 */
module SemanticVersions {
  import opened Basics
  import opened TextOrder
  import opened Versions

  // ----- Versions and their precedence, as the standard has them

  datatype PreId = Numeric(n: nat) | Alphanumeric(s: string)

  datatype SemVer = SemVer(major: nat, minor: nat, patch: nat, pre: seq<PreId>)

  predicate IsIdentifierChar(c: char) {
    IsDigit(c) || 'a' <= c <= 'z' || 'A' <= c <= 'Z' || c == '-'
  }

  ghost predicate ValidId(id: PreId) {
    id.Alphanumeric? ==>
      && (forall c :: c in id.s ==> IsIdentifierChar(c))
      && exists c :: c in id.s && !IsDigit(c)
  }

  ghost predicate Valid(v: SemVer) {
    forall id :: id in v.pre ==> ValidId(id)
  }

  function PrecedenceOfIds(a: PreId, b: PreId): int {
    match (a, b)
    case (Numeric(m), Numeric(n)) => Sign(m, n)
    case (Numeric(_), Alphanumeric(_)) => -1
    case (Alphanumeric(_), Numeric(_)) => 1
    case (Alphanumeric(s), Alphanumeric(t)) => if Less(s, t) then -1 else if Less(t, s) then 1 else 0
  }

  /** The first difference decides; when there is none, the longer list is higher. */
  function PrecedenceOfPre(a: seq<PreId>, b: seq<PreId>): int {
    if a == [] || b == [] then Sign(|a|, |b|)
    else if PrecedenceOfIds(a[0], b[0]) != 0 then PrecedenceOfIds(a[0], b[0])
    else PrecedenceOfPre(a[1..], b[1..])
  }

  function Precedence(v: SemVer, w: SemVer): int {
    if v.major != w.major then Sign(v.major, w.major)
    else if v.minor != w.minor then Sign(v.minor, w.minor)
    else if v.patch != w.patch then Sign(v.patch, w.patch)
    else if v.pre == [] || w.pre == [] then Sign(if v.pre == [] then 1 else 0, if w.pre == [] then 1 else 0)
    else PrecedenceOfPre(v.pre, w.pre)
  }

  // ----- Their text, without build metadata

  function Join(parts: seq<string>, sep: char): string
    requires parts != []
  {
    if |parts| == 1 then parts[0] else parts[0] + [sep] + Join(parts[1..], sep)
  }

  function IdText(id: PreId): string {
    if id.Numeric? then Decimal(id.n) else id.s
  }

  function IdTexts(pre: seq<PreId>): (r: seq<string>)
    ensures |r| == |pre|
    ensures forall i :: 0 <= i < |r| ==> r[i] == IdText(pre[i])
  {
    seq(|pre|, i requires 0 <= i < |pre| => IdText(pre[i]))
  }

  function CoreText(v: SemVer): string {
    Join([Decimal(v.major), Decimal(v.minor), Decimal(v.patch)], '.')
  }

  function PreText(v: SemVer): string {
    if v.pre == [] then "" else Join(IdTexts(v.pre), '.')
  }

  function Text(v: SemVer): string {
    CoreText(v) + if v.pre == [] then "" else "-" + PreText(v)
  }

  // ----- Reading the text back

  lemma {:induction false} ParseAppend(a: string, b: string, n: nat)
    ensures ParseDigits(a + b, n) == match ParseDigits(a, n)
                                     case Value(m) => ParseDigits(b, m)
                                     case Syntax => Syntax
                                     case TooBig => TooBig
  {
    if a == "" {
      assert a + b == b;
    } else {
      assert (a + b)[1..] == a[1..] + b;
      if IsDigit(a[0]) {
        var next := n * 10 + (a[0] as int - '0' as int);
        if next <= MaxUint64 {
          ParseAppend(a[1..], b, next);
        }
      }
    }
  }

  lemma {:induction false} ParseDecimal(n: nat)
    ensures ParseDigits(Decimal(n), 0) == if n <= MaxUint64 then Value(n) else TooBig
  {
    var d := ['0' + (n % 10) as char];
    assert d[1..] == "";
    assert d[0] as int - '0' as int == n % 10;
    if n >= 10 {
      ParseDecimal(n / 10);
      ParseAppend(Decimal(n / 10), d, 0);
    }
  }

  /** A number too big for an int is still read, as the largest int, and reported. */
  lemma AtoiDecimal(n: nat)
    ensures Atoi(Decimal(n)) == if n <= MaxInt then Number(n, true) else Number(MaxInt, false)
  {
    ParseDecimal(n);
    assert IsDigit(Decimal(n)[0]);
  }

  lemma TrimDecimal(n: nat)
    ensures TrimSpace(Decimal(n)) == Decimal(n)
  {
    var s := Decimal(n);
    assert IsDigit(s[0]) && IsDigit(s[|s| - 1]);
  }

  lemma {:induction false} SplitWithout(s: string, sep: char)
    requires sep !in s
    ensures Split(s, sep) == [s]
  {
    if s != "" {
      SplitWithout(s[1..], sep);
      assert [s[0]] + s[1..] == s;
    }
  }

  lemma {:induction false} SplitAtSeparator(s: string, rest: string, sep: char)
    requires sep !in s
    ensures Split(s + [sep] + rest, sep) == [s] + Split(rest, sep)
  {
    var whole := s + [sep] + rest;
    if s == "" {
      assert whole[1..] == rest;
    } else {
      SplitAtSeparator(s[1..], rest, sep);
      assert whole[1..] == s[1..] + [sep] + rest;
      assert [s[0]] + s[1..] == s;
    }
  }

  lemma {:induction false} SplitJoin(parts: seq<string>, sep: char)
    requires parts != [] && forall p :: p in parts ==> sep !in p
    ensures Split(Join(parts, sep), sep) == parts
  {
    if |parts| == 1 {
      SplitWithout(parts[0], sep);
    } else {
      SplitJoin(parts[1..], sep);
      SplitAtSeparator(parts[0], Join(parts[1..], sep), sep);
    }
  }

  lemma {:induction false} CutAtSeparator(s: string, rest: string, sep: char)
    requires sep !in s
    ensures Cut(s + [sep] + rest, sep) == (s, rest)
    ensures Cut(s, sep) == (s, "")
  {
    var whole := s + [sep] + rest;
    if s == "" {
      assert whole[1..] == rest;
    } else {
      CutAtSeparator(s[1..], rest, sep);
      assert whole[1..] == s[1..] + [sep] + rest;
      assert [s[0]] + s[1..] == s;
    }
  }

  lemma {:induction false} CharsOfJoin(parts: seq<string>, sep: char, c: char)
    requires parts != [] && c != sep && forall p :: p in parts ==> c !in p
    ensures c !in Join(parts, sep)
  {
    if |parts| > 1 {
      CharsOfJoin(parts[1..], sep, c);
    }
  }

  function Clamped(n: nat): int {
    if n <= MaxInt then n else MaxInt
  }

  /** What the code makes of a version: clamped numbers, and identifiers as its parser takes them. */
  lemma CutText(v: SemVer)
    ensures Cut(Text(v), '-') == (CoreText(v), PreText(v))
  {
    CharsOfJoin([Decimal(v.major), Decimal(v.minor), Decimal(v.patch)], '.', '-');
    CutAtSeparator(CoreText(v), PreText(v), '-');
    assert CoreText(v) + [ '-' ] + PreText(v) == CoreText(v) + ("-" + PreText(v));
    assert CoreText(v) + "" == CoreText(v);
  }

  lemma CoreOfText(v: SemVer)
    ensures CoreOf(CoreText(v)) == [Clamped(v.major), Clamped(v.minor), Clamped(v.patch)]
  {
    SplitJoin([Decimal(v.major), Decimal(v.minor), Decimal(v.patch)], '.');
    forall n: nat ensures Atoi(TrimSpace(Decimal(n))).value == Clamped(n) {
      TrimDecimal(n);
      AtoiDecimal(n);
    }
  }

  lemma PreOfText(v: SemVer)
    requires Valid(v) && v.pre != []
    ensures |IdentifiersOf(PreText(v))| == |v.pre|
    ensures forall i :: 0 <= i < |v.pre| ==> IdentifiersOf(PreText(v))[i] == IdentifierOf(IdText(v.pre[i]))
    ensures PreText(v) != ""
  {
    var texts := IdTexts(v.pre);
    forall p | p in texts ensures '.' !in p && p != "" {
      var i :| 0 <= i < |texts| && texts[i] == p;
      assert v.pre[i] in v.pre;
    }
    SplitJoin(texts, '.');
    assert texts[0] in texts;
  }

  // ----- Where the code reads a version as the standard does

  /** Numbers fit in an int, and no alphanumeric identifier is a hyphen and a number. */
  predicate ReadAsMeant(v: SemVer) {
    && v.major <= MaxInt && v.minor <= MaxInt && v.patch <= MaxInt
    && forall i :: 0 <= i < |v.pre| ==> IdReadAsMeant(v.pre[i])
  }

  predicate IdReadAsMeant(id: PreId) {
    if id.Numeric? then id.n <= MaxInt else !Atoi(id.s).ok
  }

  lemma IdsAgree(a: PreId, b: PreId)
    requires IdReadAsMeant(a) && IdReadAsMeant(b)
    ensures CompareIdentifier(IdentifierOf(IdText(a)), IdentifierOf(IdText(b))) == PrecedenceOfIds(a, b)
  {
    if a.Numeric? {
      AtoiDecimal(a.n);
    }
    if b.Numeric? {
      AtoiDecimal(b.n);
    }
    if a.Alphanumeric? && b.Alphanumeric? {
      LeqTotal(a.s, b.s);
      if Leq(a.s, b.s) && Leq(b.s, a.s) {
        LeqAntisymmetric(a.s, b.s);
      }
    }
  }

  lemma {:induction false} PreAgrees(a: seq<PreId>, b: seq<PreId>, x: seq<Identifier>, y: seq<Identifier>)
    requires |x| == |a| && |y| == |b|
    requires forall i :: 0 <= i < |a| ==> IdReadAsMeant(a[i]) && x[i] == IdentifierOf(IdText(a[i]))
    requires forall i :: 0 <= i < |b| ==> IdReadAsMeant(b[i]) && y[i] == IdentifierOf(IdText(b[i]))
    ensures CompareIdentifiers(x, y) == PrecedenceOfPre(a, b)
  {
    if a != [] && b != [] {
      IdsAgree(a[0], b[0]);
      PreAgrees(a[1..], b[1..], x[1..], y[1..]);
    }
  }

  lemma CompareThree(a: seq<int>, b: seq<int>)
    requires |a| == |b| == 3
    ensures ComparePadded(a, b) ==
            if a[0] != b[0] then Sign(a[0], b[0])
            else if a[1] != b[1] then Sign(a[1], b[1])
            else if a[2] != b[2] then Sign(a[2], b[2])
            else 0
  {
    assert a[1..][1..] == a[2..] && b[1..][1..] == b[2..];
    assert a[2..][1..] == [] && b[2..][1..] == [];
    assert ComparePadded(a[2..], b[2..]) == if a[2] != b[2] then Sign(a[2], b[2]) else 0;
    assert ComparePadded(a[1..], b[1..]) == if a[1] != b[1] then Sign(a[1], b[1]) else ComparePadded(a[2..], b[2..]);
  }

  /** Equal text is no special case: the identifier order already calls it equal. */
  lemma ComparePreByIdentifiers(a: string, b: string)
    requires a != "" && b != ""
    ensures ComparePre(a, b) == CompareIdentifiers(IdentifiersOf(a), IdentifiersOf(b))
  {
    IdentifiersAntisymmetric(IdentifiersOf(a), IdentifiersOf(b));
  }

  /** The comparison of two texts, in terms of the parsed versions. */
  lemma ComparisonOfTexts(v: SemVer, w: SemVer)
    ensures Comparison(Text(v), Text(w)) ==
            if Clamped(v.major) != Clamped(w.major) then Sign(Clamped(v.major), Clamped(w.major))
            else if Clamped(v.minor) != Clamped(w.minor) then Sign(Clamped(v.minor), Clamped(w.minor))
            else if Clamped(v.patch) != Clamped(w.patch) then Sign(Clamped(v.patch), Clamped(w.patch))
            else ComparePre(PreText(v), PreText(w))
  {
    hide CoreText, PreText, Text, Clamped, CoreOf, ComparePre;
    CutText(v);
    CutText(w);
    CoreOfText(v);
    CoreOfText(w);
    CompareThree(CoreOf(CoreText(v)), CoreOf(CoreText(w)));
  }

  lemma Agreement(v: SemVer, w: SemVer)
    requires Valid(v) && Valid(w) && ReadAsMeant(v) && ReadAsMeant(w)
    ensures Comparison(Text(v), Text(w)) == Precedence(v, w)
  {
    hide Text, PreText, Comparison, ComparePre, IdText, IdentifiersOf;
    ComparisonOfTexts(v, w);
    if v.pre != [] && w.pre != [] {
      PreOfText(v);
      PreOfText(w);
      ComparePreByIdentifiers(PreText(v), PreText(w));
      PreAgrees(v.pre, w.pre, IdentifiersOf(PreText(v)), IdentifiersOf(PreText(w)));
    } else {
      ReleaseAbovePre(v, w);
    }
  }

  lemma ReleaseAbovePre(v: SemVer, w: SemVer)
    requires Valid(v) && Valid(w) && (v.pre == [] || w.pre == [])
    ensures ComparePre(PreText(v), PreText(w)) == Sign(if v.pre == [] then 1 else 0, if w.pre == [] then 1 else 0)
  {
    if v.pre != [] {
      PreOfText(v);
    }
    if w.pre != [] {
      PreOfText(w);
    }
  }

  function DigitsValue(s: string): nat
    requires forall c :: c in s ==> IsDigit(c)
  {
    if s == "" then 0
    else
      var d := s[|s| - 1];
      assert d in s && IsDigit(d);
      10 * DigitsValue(s[..|s| - 1]) + (d as int - '0' as int)
  }

  lemma {:induction false} ParseDigitsValue(s: string)
    requires forall c :: c in s ==> IsDigit(c)
    ensures ParseDigits(s, 0) == if DigitsValue(s) <= MaxUint64 then Value(DigitsValue(s)) else TooBig
  {
    if s != "" {
      var front, d := s[..|s| - 1], [s[|s| - 1]];
      ParseDigitsValue(front);
      ParseAppend(front, d, 0);
      assert s == front + d;
      assert d[1..] == "";
    }
  }

  /** The identifiers read as numbers though they are none: a hyphen and a number of 63 bits, or 2^63. */
  lemma MisreadIff(s: string)
    requires ValidId(Alphanumeric(s))
    ensures Atoi(s).ok <==>
        && |s| > 1 && s[0] == '-' && (forall c :: c in s[1..] ==> IsDigit(c))
        && DigitsValue(s[1..]) <= 9_223_372_036_854_775_808
  {
    var c :| c in s && !IsDigit(c);
    assert s[0] in s;
    if s[0] == '-' {
      if forall d :: d in s[1..] ==> IsDigit(d) {
        ParseDigitsValue(s[1..]);
      } else if Atoi(s).ok {
        DigitsOnly(s[1..], 0);
      }
    } else if Atoi(s).ok {
      DigitsOnly(s, 0);
    }
  }

  // ----- What counts as a number, and as which

  /** Digits with or without a sign, the value clamped to 64 bits and an overflow reported. */
  lemma AtoiOfDigits(s: string)
    requires s != "" && forall c :: c in s ==> IsDigit(c)
    ensures
      var n := DigitsValue(s);
      && Atoi(s) == (if n <= 9_223_372_036_854_775_807 then Number(n, true)
                     else Number(9_223_372_036_854_775_807, false))
      && Atoi("+" + s) == Atoi(s)
      && Atoi("-" + s) == (if n <= 9_223_372_036_854_775_808 then Number(0 - n, true)
                           else Number(-9_223_372_036_854_775_808, false))
  {
    ParseDigitsValue(s);
    assert s[0] in s;
    assert ("+" + s)[1..] == s && ("-" + s)[1..] == s;
  }

  /** Anything else counts as 0, unless the digits before the first stray character overflow 64 bits. */
  lemma AtoiOfOther(digits: string, c: char, rest: string)
    requires forall d :: d in digits ==> IsDigit(d)
    requires !IsDigit(c) && (digits == "" ==> c != '-' && c != '+')
    ensures Atoi(digits + [c] + rest) ==
            if DigitsValue(digits) <= 18_446_744_073_709_551_615 then Number(0, false)
            else Number(9_223_372_036_854_775_807, false)
    ensures Atoi("") == Atoi("+") == Atoi("-") == Number(0, false)
  {
    ParseDigitsValue(digits);
    ParseAppend(digits, [c] + rest, 0);
    assert digits + [c] + rest == digits + ([c] + rest);
    assert digits != "" ==> digits[0] in digits;
    assert "+"[1..] == "" && "-"[1..] == "";
  }

  /** Unicode's white space, by code. */
  lemma IsSpaceIff(c: char)
    ensures
      var code := c as int;
      IsSpace(c) <==>
        9 <= code <= 13 || code == 32 || code == 133 || code == 160 || code == 5_760 || 8_192 <= code <= 8_202
        || code == 8_232 || code == 8_233 || code == 8_239 || code == 8_287 || code == 12_288
  {
  }

  /** It is stripped from both ends of a core part; a part of nothing else counts as 0. */
  lemma {:induction false} SpaceAroundIsIgnored(before: string, s: string, after: string)
    requires forall c :: c in before + after ==> IsSpace(c)
    requires s != "" ==> !IsSpace(s[0]) && !IsSpace(s[|s| - 1])
    ensures TrimSpace(before + s + after) == s
    decreases |before| + |after|
  {
    hide IsSpace;
    var text := before + s + after;
    if before != "" {
      assert text[0] == before[0] && text[1..] == before[1..] + s + after;
      SpaceAroundIsIgnored(before[1..], s, after);
    } else if after != "" {
      assert text[|text| - 1] == after[|after| - 1];
      assert text[..|text| - 1] == before + s + after[..|after| - 1];
      if s == "" {
        assert text[0] == after[0] && text[1..] == before + s + after[1..];
        SpaceAroundIsIgnored(before, s, after[1..]);
      } else {
        SpaceAroundIsIgnored(before, s, after[..|after| - 1]);
      }
    } else {
      assert text == s;
    }
  }

  // ----- Which of two builds is newer

  /**
   Of two versions read as meant, a higher one is newer whatever the build times; of one and the same,
   the build more than a minute younger is, if both times are known.
   */
  lemma NewerByPrecedence(v: SemVer, w: SemVer, s: int, t: int)
    requires Valid(v) && Valid(w) && ReadAsMeant(v) && ReadAsMeant(w)
    ensures Newer(Build(Text(v), s), Build(Text(w), t)) <==>
        Precedence(v, w) > 0 || (Precedence(v, w) == 0 && s != 0 && t != 0 && s - t > 60_000)
    ensures
      && (v.major > w.major ==> Newer(Build(Text(v), s), Build(Text(w), t)))
      && (v.major == w.major && v.minor > w.minor ==> Newer(Build(Text(v), s), Build(Text(w), t)))
      && (v == w.(pre := []) && w.pre != [] ==> Newer(Build(Text(v), s), Build(Text(w), t)))
  {
    hide Text, Comparison;
    Agreement(v, w);
    ComparisonAntisymmetric(Text(v), Text(w));
  }

  // ----- Every other version is misplaced against some version

  lemma BigCoreMisplaced(v: SemVer)
    requires Valid(v) && !(v.major <= MaxInt && v.minor <= MaxInt && v.patch <= MaxInt)
    ensures exists w :: Valid(w) && ReadAsMeant(w) && Comparison(Text(v), Text(w)) != Precedence(v, w)
  {
    var w :=
      if v.major > MaxInt then SemVer(MaxInt, MaxInt, MaxInt, [])
      else if v.minor > MaxInt then SemVer(v.major, MaxInt, MaxInt, [])
      else SemVer(v.major, v.minor, MaxInt, []);
    assert Precedence(v, w) == 1;
    ComparisonOfTexts(v, w);
    ReleaseAbovePre(v, w);
    assert Comparison(Text(v), Text(w)) <= 0;
    assert Valid(w) && ReadAsMeant(w);
  }

  /** A stand-in that is read as meant, but on the other side of an identifier that is not. */
  function Wedge(id: PreId): PreId {
    if id.Numeric? then Alphanumeric("-") else Numeric(1)
  }

  lemma WedgeMisplaced(id: PreId)
    requires ValidId(id) && !IdReadAsMeant(id)
    ensures ValidId(Wedge(id)) && IdReadAsMeant(Wedge(id))
    ensures CompareIdentifier(IdentifierOf(IdText(id)), IdentifierOf(IdText(Wedge(id)))) ==
        -PrecedenceOfIds(id, Wedge(id))
    ensures PrecedenceOfIds(id, Wedge(id)) != 0
  {
    assert Atoi("-") == Number(0, false);
    if id.Numeric? {
      AtoiDecimal(id.n);
      assert '-' in "-" && !IsDigit('-');
      var text := Decimal(id.n);
      assert IsDigit(text[0]) && !Leq(text, "-");
    } else {
      AtoiDecimal(1);
      NegativeAtMostZero(id.s);
    }
  }

  /** An identifier of the standard has no plus sign, so only a hyphen makes a number of it. */
  lemma NegativeAtMostZero(s: string)
    requires ValidId(Alphanumeric(s)) && Atoi(s).ok
    ensures Atoi(s).value <= 0
  {
    assert s[0] in s;
    if s[0] != '-' {
      assert IsIdentifierChar(s[0]);
      DigitsOnly(s, 0);
    }
  }

  lemma {:induction false} DigitsOnly(s: string, n: nat)
    requires ParseDigits(s, n).Value?
    ensures forall c :: c in s ==> IsDigit(c)
  {
    if s != "" {
      DigitsOnly(s[1..], n * 10 + (s[0] as int - '0' as int));
    }
  }

  lemma {:induction false} PrefixSkip(a: seq<PreId>, b: seq<PreId>, k: nat)
    requires k < |a| && k < |b| && a[..k] == b[..k]
    ensures PrecedenceOfPre(a, b) == PrecedenceOfPre(a[k..], b[k..])
    decreases k
  {
    if k > 0 {
      assert a[0] == a[..k][0] && b[0] == b[..k][0];
      assert a[1..][..k - 1] == a[..k][1..] && b[1..][..k - 1] == b[..k][1..];
      PrefixSkip(a[1..], b[1..], k - 1);
      assert a[1..][k - 1..] == a[k..] && b[1..][k - 1..] == b[k..];
    }
  }

  lemma BadIdMisplaced(v: SemVer, k: nat)
    requires Valid(v) && v.major <= MaxInt && v.minor <= MaxInt && v.patch <= MaxInt
    requires k < |v.pre| && !IdReadAsMeant(v.pre[k]) && forall i :: 0 <= i < k ==> IdReadAsMeant(v.pre[i])
    ensures exists w :: Valid(w) && ReadAsMeant(w) && Comparison(Text(v), Text(w)) != Precedence(v, w)
  {
    hide Text, PreText, Comparison, ComparePre, IdText, IdentifiersOf, IdentifierOf, Wedge, IdReadAsMeant;
    var wedge := Wedge(v.pre[k]);
    assert v.pre[k] in v.pre;
    WedgeMisplaced(v.pre[k]);
    var w := v.(pre := v.pre[..k] + [wedge]);
    assert Valid(w) by {
      forall id | id in w.pre ensures ValidId(id) {
        assert id in v.pre || id == wedge;
      }
    }
    assert ReadAsMeant(w);
    ComparisonOfTexts(v, w);
    PreOfText(v);
    PreOfText(w);
    ComparePreByIdentifiers(PreText(v), PreText(w));
    var x, y := IdentifiersOf(PreText(v)), IdentifiersOf(PreText(w));
    forall i | 0 <= i < k ensures CompareIdentifier(x[i], y[i]) == 0 {
      assert w.pre[i] == v.pre[i];
      IdentifierAntisymmetric(x[i], y[i]);
    }
    IdentifiersSkip(x, y, k);
    assert w.pre[..k] == v.pre[..k];
    PrefixSkip(v.pre, w.pre, k);
    assert Precedence(v, w) == PrecedenceOfIds(v.pre[k], wedge);
    FirstDecides(x[k..], y[k..], v.pre[k..], w.pre[k..]);
  }

  lemma FirstDecides(x: seq<Identifier>, y: seq<Identifier>, a: seq<PreId>, b: seq<PreId>)
    requires x != [] && y != [] && a != [] && |b| == |y| == 1
    requires CompareIdentifier(x[0], y[0]) == -PrecedenceOfIds(a[0], b[0]) && PrecedenceOfIds(a[0], b[0]) != 0
    ensures PrecedenceOfPre(a, b) == PrecedenceOfIds(a[0], b[0])
    ensures CompareIdentifiers(x, y) != PrecedenceOfPre(a, b)
  {
  }

  lemma {:induction false} FirstBadId(pre: seq<PreId>, n: nat) returns (k: nat)
    requires n <= |pre| && exists i :: 0 <= i < n && !IdReadAsMeant(pre[i])
    ensures k < |pre| && !IdReadAsMeant(pre[k]) && forall i :: 0 <= i < k ==> IdReadAsMeant(pre[i])
  {
    if forall i :: 0 <= i < n - 1 ==> IdReadAsMeant(pre[i]) {
      k := n - 1;
    } else {
      k := FirstBadId(pre, n - 1);
    }
  }

  /**
   Comparison of texts is the standard's precedence exactly for the versions the code reads as
   meant: each of those is placed correctly against every other, and each valid version outside is
   placed wrongly against one of them.
   */
  lemma PrecedenceExactly(v: SemVer)
    requires Valid(v)
    ensures ReadAsMeant(v) <==>
            forall w :: Valid(w) && ReadAsMeant(w) ==> Comparison(Text(v), Text(w)) == Precedence(v, w)
  {
    if ReadAsMeant(v) {
      forall w | Valid(w) && ReadAsMeant(w) ensures Comparison(Text(v), Text(w)) == Precedence(v, w) {
        Agreement(v, w);
      }
    } else if v.major <= MaxInt && v.minor <= MaxInt && v.patch <= MaxInt {
      var k := FirstBadId(v.pre, |v.pre|);
      BadIdMisplaced(v, k);
    } else {
      BigCoreMisplaced(v);
    }
  }
}
