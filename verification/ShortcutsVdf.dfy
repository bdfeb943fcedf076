/**
 Steam's binary shortcuts file (internal/presets/shortcuts.go): the parser as it walks the bytes,
 what it accepts, and what is left of a damaged file.
 */
module ShortcutsVdf {
  import opened Basics

  const TypeObject: byte := 0x00
  const TypeString: byte := 0x01
  const TypeInt32: byte := 0x02
  const TypeEnd: byte := 0x08

  datatype Value = Object(fields: map<bytes, Value>) | Text(s: bytes) | Int32(n: int)

  // ----- What the parser computes, on the bytes not read yet

  /** Up to the first NUL, and what follows it. */
  function CString(s: bytes): (r: Option<(bytes, bytes)>)
    ensures r.Some? ==> |r.value.1| < |s|
  {
    if s == [] then None
    else if s[0] == 0 then Some(([], s[1..]))
    else
      match CString(s[1..])
      case None => None
      case Some((text, rest)) => Some(([s[0]] + text, rest))
  }

  function SignedLittleEndian(s: bytes): int
    requires |s| >= 4
  {
    var u: int := s[0] as int + 0x100 * s[1] as int + 0x1_0000 * s[2] as int + 0x100_0000 * s[3] as int;
    if u >= 0x8000_0000 then u - 0x1_0000_0000 else u
  }

  lemma FirstFour(s: bytes)
    requires |s| >= 4
    ensures SignedLittleEndian(s[..4]) == SignedLittleEndian(s)
  {
  }

  datatype Parsed = Parsed(fields: map<bytes, Value>, rest: bytes, failed: bool)

  /** The fields of one object up to its end mark, added to obj. */
  function Parse(s: bytes, obj: map<bytes, Value>): (r: Parsed)
    ensures |r.rest| <= |s|
    decreases |s|
  {
    if s == [] then Parsed(obj, s, true)
    else if s[0] == TypeEnd then Parsed(obj, s[1..], false)
    else
      match CString(s[1..])
      case None => Parsed(obj, [], true)
      case Some((name, s1)) =>
        if s[0] == TypeObject then
          var inner := Parse(s1, map[]);
          var obj' := obj[name := Object(inner.fields)];
          if inner.failed then Parsed(obj', inner.rest, true) else Parse(inner.rest, obj')
        else if s[0] == TypeString then
          match CString(s1)
          case None => Parsed(obj, [], true)
          case Some((text, s2)) => Parse(s2, obj[name := Text(text)])
        else if s[0] == TypeInt32 then
          if |s1| < 4 then Parsed(obj, s1, true) else Parse(s1[4..], obj[name := Int32(SignedLittleEndian(s1))])
        else Parsed(obj, s1, true)
  }

  function Resume(s: bytes, failed: bool, obj: map<bytes, Value>): (r: Parsed)
    ensures |r.rest| <= |s|
  {
    if failed then Parsed(obj, s, true) else Parse(s, obj)
  }

  lemma {:induction false} CStringAt(s: bytes, k: nat)
    requires k < |s| && s[k] == 0 && forall i :: 0 <= i < k ==> s[i] != 0
    ensures CString(s) == Some((s[..k], s[k + 1..]))
  {
    if k > 0 {
      CStringAt(s[1..], k - 1);
      assert s[..k] == [s[0]] + s[1..][..k - 1];
    }
  }

  lemma {:induction false} NoCString(s: bytes)
    requires forall i :: 0 <= i < |s| ==> s[i] != 0
    ensures CString(s) == None
  {
    if s != [] {
      NoCString(s[1..]);
    }
  }

  class VdfParser {
    const data: bytes
    var pos: nat
    var failed: bool

    constructor (data: bytes)
      ensures this.data == data && pos == 0 && !failed
    {
      this.data := data;
      pos, failed := 0, false;
    }

    method ReadCString() returns (s: bytes, ok: bool)
      requires pos <= |data|
      modifies this`pos
      ensures old(pos) <= pos <= |data|
      ensures match CString(old(data[pos..]))
              case None => !ok && pos == |data|
              case Some((text, rest)) => ok && s == text && data[pos..] == rest
    {
      var start := pos;
      ghost var todo := data[pos..];
      while pos < |data|
        invariant start <= pos <= |data|
        invariant forall i :: start <= i < pos ==> data[i] != 0
        decreases |data| - pos
      {
        if data[pos] == 0 {
          CStringAt(todo, pos - start);
          s := data[start..pos];
          assert s == todo[..pos - start] && data[pos + 1..] == todo[pos - start + 1..];
          pos := pos + 1;
          return s, true;
        }
        pos := pos + 1;
      }
      NoCString(todo);
      return [], false;
    }

    /** Reads never leave the data, the position never moves back, and every input ends the walk. */
    method ReadObject() returns (obj: map<bytes, Value>)
      requires pos <= |data|
      modifies this`pos, this`failed
      ensures old(pos) <= pos <= |data|
      ensures Parsed(obj, data[pos..], failed) == Resume(old(data[pos..]), old(failed), map[])
      decreases |data| - pos
    {
      hide CString, SignedLittleEndian;
      obj := map[];
      while true
        invariant old(pos) <= pos <= |data|
        invariant Resume(data[pos..], failed, obj) == Resume(old(data[pos..]), old(failed), map[])
        decreases |data| - pos
      {
        ghost var s := data[pos..];
        if failed || pos >= |data| {
          failed := true;
          return obj;
        }
        var t := data[pos];
        pos := pos + 1;
        assert s[1..] == data[pos..];
        if t == TypeEnd {
          return obj;
        }
        var name, ok := ReadCString();
        if !ok {
          failed := true;
          return obj;
        }
        ghost var s1 := data[pos..];
        if t == TypeObject {
          var inner := ReadObject();
          obj := obj[name := Object(inner)];
        } else if t == TypeString {
          var text, ok := ReadCString();
          if !ok {
            failed := true;
            return obj;
          }
          obj := obj[name := Text(text)];
        } else if t == TypeInt32 {
          if pos + 4 > |data| {
            failed := true;
            return obj;
          }
          obj := obj[name := Int32(SignedLittleEndian(data[pos..pos + 4]))];
          assert s1[..4] == data[pos..pos + 4] && s1[4..] == data[pos + 4..];
          FirstFour(s1);
          pos := pos + 4;
        } else {
          failed := true;
          return obj;
        }
      }
    }
  }

  // ----- The format

  /** The fields of an object in file order. */
  datatype Fields =
    | End
    | ObjectField(name: bytes, fields: Fields, next: Fields)
    | TextField(name: bytes, s: bytes, next: Fields)
    | Int32Field(name: bytes, n: int, next: Fields)

  /** Names and strings end at a NUL, so they cannot hold one; numbers are 32 bits wide. */
  ghost predicate WellFormed(f: Fields) {
    match f
    case End => true
    case ObjectField(name, fields, next) => 0 !in name && WellFormed(fields) && WellFormed(next)
    case TextField(name, s, next) => 0 !in name && 0 !in s && WellFormed(next)
    case Int32Field(name, n, next) => 0 !in name && -0x8000_0000 <= n < 0x8000_0000 && WellFormed(next)
  }

  function LittleEndian(n: int): (s: bytes)
    requires -0x8000_0000 <= n < 0x8000_0000
    ensures |s| == 4
  {
    var u := if n < 0 then n + 0x1_0000_0000 else n;
    [u % 0x100, u / 0x100 % 0x100, u / 0x1_0000 % 0x100, u / 0x100_0000]
  }

  function Terminated(text: bytes, rest: bytes): (s: bytes)
    ensures |s| == |text| + 1 + |rest|
  {
    text + ([0] + rest)
  }

  function Field(t: byte, name: bytes, rest: bytes): (s: bytes)
    ensures |s| == |name| + 2 + |rest| && s[0] == t
  {
    [t] + Terminated(name, rest)
  }

  ghost function Encode(f: Fields): (s: bytes)
    requires WellFormed(f)
    ensures s != []
  {
    match f
    case End => [TypeEnd]
    case ObjectField(name, fields, next) => Field(TypeObject, name, Encode(fields) + Encode(next))
    case TextField(name, s, next) => Field(TypeString, name, Terminated(s, Encode(next)))
    case Int32Field(name, n, next) => Field(TypeInt32, name, LittleEndian(n) + Encode(next))
  }

  /** The map a list of fields stands for; of two fields with one name the later counts. */
  function Added(obj: map<bytes, Value>, f: Fields): map<bytes, Value>
    decreases f
  {
    match f
    case End => obj
    case ObjectField(name, fields, next) => Added(obj[name := Object(Added(map[], fields))], next)
    case TextField(name, s, next) => Added(obj[name := Text(s)], next)
    case Int32Field(name, n, next) => Added(obj[name := Int32(n)], next)
  }

  lemma TerminatedParts(text: bytes, rest: bytes, tail: bytes, k: nat)
    requires k <= |rest|
    ensures Terminated(text, rest) + tail == Terminated(text, rest + tail)
    ensures Terminated(text, rest)[..|text| + 1 + k] == Terminated(text, rest[..k])
  {
  }

  lemma FieldParts(t: byte, name: bytes, rest: bytes, tail: bytes, k: nat)
    requires k <= |rest|
    ensures Field(t, name, rest)[1..] == Terminated(name, rest)
    ensures Field(t, name, rest) + tail == Field(t, name, rest + tail)
    ensures Field(t, name, rest)[..|name| + 2 + k] == Field(t, name, rest[..k])
  {
    TerminatedParts(name, rest, tail, k);
  }

  lemma CStringOf(text: bytes, rest: bytes)
    requires 0 !in text
    ensures CString(Terminated(text, rest)) == Some((text, rest))
  {
    hide CString;
    var s := Terminated(text, rest);
    assert forall i :: 0 <= i < |text| ==> s[i] == text[i] && text[i] in text;
    CStringAt(s, |text|);
    assert s[..|text|] == text && s[|text| + 1..] == rest;
  }

  lemma DigitsOfSum(a: byte, b: byte, c: byte, d: byte)
    ensures
      var u: int := a as int + 0x100 * b as int + 0x1_0000 * c as int + 0x100_0000 * d as int;
      u % 0x100 == a && u / 0x100 % 0x100 == b && u / 0x1_0000 % 0x100 == c && u / 0x100_0000 == d
  {
    var u: int := a as int + 0x100 * b as int + 0x1_0000 * c as int + 0x100_0000 * d as int;
    var v: int := b as int + 0x100 * c as int + 0x1_0000 * d as int;
    assert u == a as int + 0x100 * v;
    assert u / 0x100 == v;
    assert v / 0x100 == c as int + 0x100 * d as int;
    assert u / 0x1_0000 == v / 0x100;
    assert u / 0x100_0000 == v / 0x1_0000;
  }

  lemma SumOfDigits(u: nat)
    ensures u == u % 0x100 + 0x100 * (u / 0x100 % 0x100) + 0x1_0000 * (u / 0x1_0000 % 0x100) +
        0x100_0000 * (u / 0x100_0000)
  {
    assert u / 0x1_0000 == u / 0x100 / 0x100;
    assert u / 0x100_0000 == u / 0x1_0000 / 0x100;
  }

  lemma LittleEndianSigned(n: int, rest: bytes)
    requires -0x8000_0000 <= n < 0x8000_0000
    ensures SignedLittleEndian(LittleEndian(n) + rest) == n && (LittleEndian(n) + rest)[4..] == rest
  {
    SumOfDigits(if n < 0 then n + 0x1_0000_0000 else n);
    var s := LittleEndian(n);
    assert (s + rest)[0] == s[0] && (s + rest)[1] == s[1] && (s + rest)[2] == s[2] && (s + rest)[3] == s[3];
  }

  lemma LittleEndianOf(s: bytes)
    requires |s| >= 4
    ensures -0x8000_0000 <= SignedLittleEndian(s) < 0x8000_0000
    ensures s == LittleEndian(SignedLittleEndian(s)) + s[4..]
  {
    DigitsOfSum(s[0], s[1], s[2], s[3]);
    assert LittleEndian(SignedLittleEndian(s)) == [s[0], s[1], s[2], s[3]];
  }

  /** How one field of each kind is read, given what stands behind it. */
  lemma ParseObjectField(name: bytes, rest: bytes, obj: map<bytes, Value>)
    requires 0 !in name
    ensures
      var inner := Parse(rest, map[]);
      Parse(Field(TypeObject, name, rest), obj) == Resume(inner.rest, inner.failed, obj[name := Object(inner.fields)])
  {
    hide CString;
    FieldParts(TypeObject, name, rest, [], 0);
    CStringOf(name, rest);
  }

  lemma ParseTextField(name: bytes, rest: bytes, obj: map<bytes, Value>)
    requires 0 !in name
    ensures
      Parse(Field(TypeString, name, rest), obj) ==
      match CString(rest)
      case None => Parsed(obj, [], true)
      case Some((text, s2)) => Parse(s2, obj[name := Text(text)])
  {
    hide CString;
    FieldParts(TypeString, name, rest, [], 0);
    CStringOf(name, rest);
  }

  lemma ParseInt32Field(name: bytes, rest: bytes, obj: map<bytes, Value>)
    requires 0 !in name
    ensures
      Parse(Field(TypeInt32, name, rest), obj) ==
      if |rest| < 4 then Parsed(obj, rest, true) else Parse(rest[4..], obj[name := Int32(SignedLittleEndian(rest))])
  {
    hide CString, SignedLittleEndian;
    FieldParts(TypeInt32, name, rest, [], 0);
    CStringOf(name, rest);
  }

  lemma Regroup(a: bytes, b: bytes, c: bytes)
    ensures (a + b) + c == a + (b + c)
  {
  }

  /** An encoding and what follows it, regrouped behind the name of its first field. */
  lemma EncodedField(f: Fields, tail: bytes)
    requires WellFormed(f)
    ensures
      Encode(f) + tail ==
      match f
      case End => [TypeEnd] + tail
      case ObjectField(name, fields, next) => Field(TypeObject, name, Encode(fields) + (Encode(next) + tail))
      case TextField(name, s, next) => Field(TypeString, name, Terminated(s, Encode(next) + tail))
      case Int32Field(name, n, next) => Field(TypeInt32, name, LittleEndian(n) + (Encode(next) + tail))
  {
    hide LittleEndian, Field, Terminated;
    match f
    case End =>
    case ObjectField(name, fields, next) =>
      FieldParts(TypeObject, name, Encode(fields) + Encode(next), tail, 0);
      Regroup(Encode(fields), Encode(next), tail);
    case TextField(name, text, next) =>
      FieldParts(TypeString, name, Terminated(text, Encode(next)), tail, 0);
      TerminatedParts(text, Encode(next), tail, 0);
    case Int32Field(name, n, next) =>
      FieldParts(TypeInt32, name, LittleEndian(n) + Encode(next), tail, 0);
      Regroup(LittleEndian(n), Encode(next), tail);
  }

  /** Any tree of fields is read back whole, and exactly its bytes are consumed. */
  lemma {:induction false} RoundTrip(f: Fields, tail: bytes, obj: map<bytes, Value>)
    requires WellFormed(f)
    ensures Parse(Encode(f) + tail, obj) == Parsed(Added(obj, f), tail, false)
    decreases f
  {
    hide CString, SignedLittleEndian, LittleEndian, Field, Terminated, Encode;
    EncodedField(f, tail);
    match f
    case End =>
      assert (Encode(f) + tail)[1..] == tail;
    case ObjectField(name, fields, next) =>
      hide Parse;
      ParseObjectField(name, Encode(fields) + (Encode(next) + tail), obj);
      RoundTrip(fields, Encode(next) + tail, map[]);
      RoundTrip(next, tail, obj[name := Object(Added(map[], fields))]);
    case TextField(name, text, next) =>
      hide Parse;
      ParseTextField(name, Terminated(text, Encode(next) + tail), obj);
      CStringOf(text, Encode(next) + tail);
      RoundTrip(next, tail, obj[name := Text(text)]);
    case Int32Field(name, n, next) =>
      hide Parse;
      ParseInt32Field(name, LittleEndian(n) + (Encode(next) + tail), obj);
      LittleEndianSigned(n, Encode(next) + tail);
      RoundTrip(next, tail, obj[name := Int32(n)]);
  }

  lemma {:induction false} CStringSplits(s: bytes)
    requires CString(s).Some?
    ensures var (text, rest) := CString(s).value; 0 !in text && s == Terminated(text, rest)
  {
    if s[0] != 0 {
      CStringSplits(s[1..]);
      var (text, rest) := CString(s[1..]).value;
      assert s == [s[0]] + s[1..];
      assert [s[0]] + (text + ([0] + rest)) == ([s[0]] + text) + ([0] + rest);
    }
  }

  lemma FieldSplits(s: bytes)
    requires s != [] && CString(s[1..]).Some?
    ensures var (name, rest) := CString(s[1..]).value; 0 !in name && s == Field(s[0], name, rest)
  {
    CStringSplits(s[1..]);
    assert s == [s[0]] + s[1..];
  }

  /** The converse: whatever is read without failure was the encoding of some tree of fields. */
  lemma {:induction false} AcceptsOnlyEncodings(s: bytes, obj: map<bytes, Value>) returns (f: Fields)
    requires !Parse(s, obj).failed
    ensures WellFormed(f) && s == Encode(f) + Parse(s, obj).rest && Parse(s, obj).fields == Added(obj, f)
    decreases |s|
  {
    hide CString, SignedLittleEndian, LittleEndian, Field, Terminated, Encode;
    if s[0] == TypeEnd {
      f := End;
    } else {
      var (name, s1) := CString(s[1..]).value;
      FieldSplits(s);
      if s[0] == TypeObject {
        var inner := Parse(s1, map[]);
        var fields := AcceptsOnlyEncodings(s1, map[]);
        var next := AcceptsOnlyEncodings(inner.rest, obj[name := Object(inner.fields)]);
        f := ObjectField(name, fields, next);
      } else if s[0] == TypeString {
        var (text, s2) := CString(s1).value;
        CStringSplits(s1);
        var next := AcceptsOnlyEncodings(s2, obj[name := Text(text)]);
        f := TextField(name, text, next);
      } else {
        LittleEndianOf(s1);
        var next := AcceptsOnlyEncodings(s1[4..], obj[name := Int32(SignedLittleEndian(s1))]);
        f := Int32Field(name, SignedLittleEndian(s1), next);
      }
    }
    EncodedField(f, Parse(s, obj).rest);
  }

  /** The parser succeeds on exactly the inputs that start with an encoded object. */
  lemma AcceptsExactlyEncodings(s: bytes)
    ensures !Parse(s, map[]).failed <==> exists f :: WellFormed(f) && Encode(f) <= s
  {
    if !Parse(s, map[]).failed {
      var f := AcceptsOnlyEncodings(s, map[]);
    }
    if f :| WellFormed(f) && Encode(f) <= s {
      RoundTrip(f, s[|Encode(f)|..], map[]);
      assert s == Encode(f) + s[|Encode(f)|..];
    }
  }

  // ----- Truncated files

  /** The fields that the first n bytes of an encoding still give. */
  function Kept(f: Fields, n: nat): Fields
    decreases f
  {
    match f
    case End => End
    case ObjectField(name, fields, next) =>
      var header := |name| + 2;
      var size := EncodedSize(fields);
      if n < header then End
      else if n < header + size then ObjectField(name, Kept(fields, n - header), End)
      else ObjectField(name, fields, Kept(next, n - header - size))
    case TextField(name, s, next) =>
      var size := |name| + 3 + |s|;
      if n < size then End else TextField(name, s, Kept(next, n - size))
    case Int32Field(name, m, next) =>
      var size := |name| + 6;
      if n < size then End else Int32Field(name, m, Kept(next, n - size))
  }

  function EncodedSize(f: Fields): nat {
    match f
    case End => 1
    case ObjectField(name, fields, next) => |name| + 2 + EncodedSize(fields) + EncodedSize(next)
    case TextField(name, s, next) => |name| + 3 + |s| + EncodedSize(next)
    case Int32Field(name, _, next) => |name| + 6 + EncodedSize(next)
  }

  lemma {:induction f} EncodedSizeIsLength(f: Fields)
    requires WellFormed(f)
    ensures |Encode(f)| == EncodedSize(f)
  {
  }

  /** A string cut before its NUL is not read. */
  lemma CStringCut(text: bytes, rest: bytes, n: nat)
    requires 0 !in text && n <= |text|
    ensures CString(Terminated(text, rest)[..n]) == None
  {
    hide CString;
    var s := Terminated(text, rest)[..n];
    assert forall i :: 0 <= i < |s| ==> s[i] == text[i] && text[i] in text;
    NoCString(s);
  }

  /** Cut inside the type byte and name. */
  lemma CutInName(t: byte, name: bytes, rest: bytes, n: nat, obj: map<bytes, Value>)
    requires 0 !in name && n < |name| + 2 && t != TypeEnd
    ensures Parse(Field(t, name, rest)[..n], obj) == Parsed(obj, [], true)
  {
    hide CString;
    if n > 0 {
      CStringCut(name, rest, n - 1);
      assert Field(t, name, rest)[..n][1..] == Terminated(name, rest)[..n - 1];
    }
  }

  /** A file cut short: the walk fails, but gives exactly the fields read before the cut. */
  lemma {:induction false} TruncatedKeepsPrefix(f: Fields, n: nat, obj: map<bytes, Value>)
    requires WellFormed(f) && n < |Encode(f)|
    ensures Parse(Encode(f)[..n], obj).failed
    ensures Parse(Encode(f)[..n], obj).fields == Added(obj, Kept(f, n))
    decreases f, 1
  {
    hide CString, SignedLittleEndian, LittleEndian, Field, Terminated;
    match f
    case End =>
    case ObjectField(name, fields, next) =>
      TruncatedObject(name, fields, next, n, obj);
    case TextField(name, text, next) =>
      TruncatedText(name, text, next, n, obj);
    case Int32Field(name, m, next) =>
      TruncatedInt32(name, m, next, n, obj);
  }

  lemma {:induction false} TruncatedInt32(name: bytes, m: int, next: Fields, n: nat, obj: map<bytes, Value>)
    requires
      var f := Int32Field(name, m, next);
      WellFormed(f) && n < |Encode(f)|
    ensures
      var f := Int32Field(name, m, next);
      Parse(Encode(f)[..n], obj).failed && Parse(Encode(f)[..n], obj).fields == Added(obj, Kept(f, n))
    decreases Int32Field(name, m, next), 0
  {
    hide Parse, Field, SignedLittleEndian, LittleEndian;
    var rest := LittleEndian(m) + Encode(next);
    if n < |name| + 2 {
      CutInName(TypeInt32, name, rest, n, obj);
    } else {
      var k := n - (|name| + 2);
      FieldParts(TypeInt32, name, rest, [], k);
      ParseInt32Field(name, rest[..k], obj);
      if k >= 4 {
        assert rest[..k] == LittleEndian(m) + Encode(next)[..k - 4];
        LittleEndianSigned(m, Encode(next)[..k - 4]);
        TruncatedKeepsPrefix(next, k - 4, obj[name := Int32(m)]);
      }
    }
  }

  lemma {:induction false} TruncatedObject(name: bytes, fields: Fields, next: Fields, n: nat, obj: map<bytes, Value>)
    requires
      var f := ObjectField(name, fields, next);
      WellFormed(f) && n < |Encode(f)|
    ensures
      var f := ObjectField(name, fields, next);
      Parse(Encode(f)[..n], obj).failed && Parse(Encode(f)[..n], obj).fields == Added(obj, Kept(f, n))
    decreases ObjectField(name, fields, next), 0
  {
    hide Parse, Field, EncodedSize, CString, Terminated, LittleEndian, SignedLittleEndian;
    var rest := Encode(fields) + Encode(next);
    if n < |name| + 2 {
      CutInName(TypeObject, name, rest, n, obj);
    } else {
      var k := n - (|name| + 2);
      FieldParts(TypeObject, name, rest, [], k);
      ParseObjectField(name, rest[..k], obj);
      EncodedSizeIsLength(fields);
      var size := |Encode(fields)|;
      if k < size {
        assert rest[..k] == Encode(fields)[..k];
        TruncatedKeepsPrefix(fields, k, map[]);
      } else {
        assert rest[..k] == Encode(fields) + Encode(next)[..k - size];
        RoundTrip(fields, Encode(next)[..k - size], map[]);
        TruncatedKeepsPrefix(next, k - size, obj[name := Object(Added(map[], fields))]);
      }
    }
  }

  lemma {:induction false} TruncatedText(name: bytes, text: bytes, next: Fields, n: nat, obj: map<bytes, Value>)
    requires
      var f := TextField(name, text, next);
      WellFormed(f) && n < |Encode(f)|
    ensures
      var f := TextField(name, text, next);
      Parse(Encode(f)[..n], obj).failed && Parse(Encode(f)[..n], obj).fields == Added(obj, Kept(f, n))
    decreases TextField(name, text, next), 0
  {
    hide Parse, Field, CString, Terminated;
    var rest := Terminated(text, Encode(next));
    if n < |name| + 2 {
      CutInName(TypeString, name, rest, n, obj);
    } else {
      var k := n - (|name| + 2);
      FieldParts(TypeString, name, rest, [], k);
      ParseTextField(name, rest[..k], obj);
      if k <= |text| {
        CStringCut(text, Encode(next), k);
      } else {
        var j := k - |text| - 1;
        TerminatedParts(text, Encode(next), [], j);
        CStringOf(text, Encode(next)[..j]);
        TruncatedKeepsPrefix(next, j, obj[name := Text(text)]);
      }
    }
  }

  // ----- The App ID to name listing

  function Ascii(s: string): bytes {
    seq(|s|, i requires 0 <= i < |s| => s[i] as int % 0x100)
  }

  /** The unsigned decimal form of an App ID and its name, from an entry that has both. */
  function Shortcut(v: Value): Option<(string, bytes)> {
    if !v.Object? || Ascii("appid") !in v.fields || Ascii("AppName") !in v.fields then None
    else
      match (v.fields[Ascii("appid")], v.fields[Ascii("AppName")])
      case (Int32(id), Text(name)) => if name == [] then None else Some((Decimal(id % 0x1_0000_0000), name))
      case _ => None
  }

  ghost function Listed(root: map<bytes, Value>): set<(string, bytes)> {
    if Ascii("shortcuts") in root && root[Ascii("shortcuts")].Object? then
      var entries := root[Ascii("shortcuts")].fields;
      set k | k in entries && Shortcut(entries[k]).Some? :: Shortcut(entries[k]).value
    else {}
  }

  /** Every listed App ID, each with a name it is listed under. */
  ghost predicate IsListing(names: map<string, bytes>, pairs: set<(string, bytes)>) {
    && (forall pair :: pair in pairs ==> pair.0 in names)
    && forall id :: id in names ==> (id, names[id]) in pairs
  }

  method ParseShortcutsVDF(raw: bytes) returns (names: map<string, bytes>)
    ensures IsListing(names, Listed(Parse(raw, map[]).fields))
  {
    hide Parse, Shortcut, Ascii;
    names := map[];
    var p := new VdfParser(raw);
    assert p.data[p.pos..] == raw;
    var root := p.ReadObject();
    if Ascii("shortcuts") !in root || !root[Ascii("shortcuts")].Object? {
      return;
    }
    var shortcuts := root[Ascii("shortcuts")].fields;
    var todo := shortcuts.Keys;
    while todo != {}
      invariant todo <= shortcuts.Keys
      invariant forall k :: k in shortcuts.Keys - todo && Shortcut(shortcuts[k]).Some? ==>
          Shortcut(shortcuts[k]).value.0 in names
      invariant forall id :: id in names ==> (id, names[id]) in Listed(root)
      decreases |todo|
    {
      var k :| k in todo;
      todo := todo - {k};
      var entry := Shortcut(shortcuts[k]);
      if entry.Some? {
        assert entry.value in Listed(root);
        names := names[entry.value.0 := entry.value.1];
      }
    }
  }

  /** Go walks maps in random order; the listing depends on that order exactly if an ID has two names. */
  lemma ListingUniqueIff(pairs: set<(string, bytes)>)
    ensures (forall p, q :: p in pairs && q in pairs && p.0 == q.0 ==> p == q) <==>
            (forall a, b :: IsListing(a, pairs) && IsListing(b, pairs) ==> a == b)
  {
    if forall p, q :: p in pairs && q in pairs && p.0 == q.0 ==> p == q {
      forall a, b | IsListing(a, pairs) && IsListing(b, pairs) ensures a == b {
        SameListing(a, b, pairs);
      }
    } else {
      var p, q :| p in pairs && q in pairs && p.0 == q.0 && p != q;
      var some := SomeListing(pairs);
      assert IsListing(some[p.0 := p.1], pairs) && IsListing(some[q.0 := q.1], pairs);
      assert some[p.0 := p.1][p.0] != some[q.0 := q.1][p.0];
    }
  }

  lemma SameListing(a: map<string, bytes>, b: map<string, bytes>, pairs: set<(string, bytes)>)
    requires forall p, q :: p in pairs && q in pairs && p.0 == q.0 ==> p == q
    requires IsListing(a, pairs) && IsListing(b, pairs)
    ensures a == b
  {
    forall id | id in a ensures id in b && a[id] == b[id] {
      assert (id, a[id]) in pairs;
      assert (id, b[id]) in pairs;
    }
    forall id | id in b ensures id in a {
      assert (id, b[id]) in pairs;
    }
  }

  lemma {:induction false} SomeListing(pairs: set<(string, bytes)>) returns (names: map<string, bytes>)
    ensures IsListing(names, pairs)
    decreases |pairs|
  {
    names := map[];
    if pairs != {} {
      var p :| p in pairs;
      var rest := SomeListing(pairs - {p});
      names := rest[p.0 := p.1];
    }
  }

  /** Different App IDs never share a key of the listing. */
  lemma AppIdsStayApart(m: int, n: int)
    requires -0x8000_0000 <= m < 0x8000_0000 && -0x8000_0000 <= n < 0x8000_0000
    requires Decimal(m % 0x1_0000_0000) == Decimal(n % 0x1_0000_0000)
    ensures m == n
  {
    DecimalInjective(m % 0x1_0000_0000, n % 0x1_0000_0000);
  }

  // ----- A whole file, byte by byte

  /** A file with one shortcut: the four bytes of its App ID and its name. */
  function OneShortcut(id: bytes, name: bytes): bytes {
    [0, 115, 104, 111, 114, 116, 99, 117, 116, 115, 0] +    // an object, "shortcuts"
    ([0, 48, 0] +                                           // an object in it, "0"
     ([2, 97, 112, 112, 105, 100, 0] + (id +                // a number in that, "appid"
      ([1, 65, 112, 112, 78, 97, 109, 101, 0] +             // and a text, "AppName"
       (name + [0, 8, 8, 8])))))
  }

  lemma KeyBytes()
    ensures Ascii("shortcuts") == [115, 104, 111, 114, 116, 99, 117, 116, 115]
    ensures Ascii("appid") == [97, 112, 112, 105, 100]
    ensures Ascii("AppName") == [65, 112, 112, 78, 97, 109, 101]
  {
    assert Ascii("shortcuts")[0] == 's' as int;
  }

  function Shortcut1(n: int, name: bytes): Fields {
    Int32Field(Ascii("appid"), n, TextField(Ascii("AppName"), name, End))
  }

  function File1(n: int, name: bytes): Fields {
    ObjectField(Ascii("shortcuts"), ObjectField([48], Shortcut1(n, name), End), End)
  }

  lemma FieldBytes(t: byte, name: bytes, rest: bytes)
    ensures Field(t, name, rest) == ([t] + name + [0]) + rest
  {
  }

  lemma NameEncoded(name: bytes)
    requires 0 !in name
    ensures
      var f := TextField(Ascii("AppName"), name, End);
      WellFormed(f) && Encode(f) == [1, 65, 112, 112, 78, 97, 109, 101, 0] + (name + [0, 8])
  {
    KeyBytes();
    hide Ascii, Field;
    FieldBytes(1, Ascii("AppName"), Terminated(name, [8]));
    assert [1] + Ascii("AppName") + [0] == [1, 65, 112, 112, 78, 97, 109, 101, 0];
    assert Terminated(name, [8]) == name + [0, 8];
  }

  lemma NumberEncoded(id: bytes, name: bytes)
    requires |id| == 4 && 0 !in name
    ensures
      var f := Shortcut1(SignedLittleEndian(id), name);
      && WellFormed(f)
      && Encode(f) == [2, 97, 112, 112, 105, 100, 0] +
           (id + ([1, 65, 112, 112, 78, 97, 109, 101, 0] + (name + [0, 8])))
  {
    KeyBytes();
    NameEncoded(name);
    LittleEndianOf(id);
    hide Ascii, Field, SignedLittleEndian, LittleEndian;
    var n := SignedLittleEndian(id);
    assert LittleEndian(n) == id by {
      assert id[4..] == [];
    }
    var text := TextField(Ascii("AppName"), name, End);
    FieldBytes(2, Ascii("appid"), id + Encode(text));
    assert [2] + Ascii("appid") + [0] == [2, 97, 112, 112, 105, 100, 0];
  }

  lemma ObjectEncoded(name: bytes, fields: Fields)
    requires 0 !in name && WellFormed(fields)
    ensures Encode(ObjectField(name, fields, End)) == ([0] + name + [0]) + (Encode(fields) + [8])
  {
    FieldBytes(0, name, Encode(fields) + [8]);
    hide Field;
    assert Encode(End) == [8];
  }

  lemma OneShortcutEncoded(id: bytes, name: bytes)
    requires |id| == 4 && 0 !in name
    ensures WellFormed(File1(SignedLittleEndian(id), name))
    ensures Encode(File1(SignedLittleEndian(id), name)) == OneShortcut(id, name)
  {
    KeyBytes();
    NumberEncoded(id, name);
    KeysApart();
    var inner := Shortcut1(SignedLittleEndian(id), name);
    hide Ascii, Encode, SignedLittleEndian, Shortcut1;
    ObjectEncoded([48], inner);
    ObjectEncoded(Ascii("shortcuts"), ObjectField([48], inner, End));
    assert [0] + [48] + [0] == [0, 48, 0];
    assert [0] + Ascii("shortcuts") + [0] == [0, 115, 104, 111, 114, 116, 99, 117, 116, 115, 0];
    var a: bytes := [0, 115, 104, 111, 114, 116, 99, 117, 116, 115, 0];
    var b: bytes, c: bytes := [0, 48, 0], [2, 97, 112, 112, 105, 100, 0];
    ThreeEnds(a, b, c, id, [1, 65, 112, 112, 78, 97, 109, 101, 0], name);
  }

  lemma ThreeEnds(a: bytes, b: bytes, c: bytes, id: bytes, d: bytes, name: bytes)
    ensures a + ((b + ((c + (id + (d + (name + [0, 8])))) + [8])) + [8])
         == a + (b + (c + (id + (d + (name + [0, 8, 8, 8])))))
  {
    assert (name + [0, 8]) + [8] + [8] == name + [0, 8, 8, 8];
  }

  lemma OneShortcutFields(n: int, name: bytes)
    ensures
      var obj := map[Ascii("appid") := Int32(n), Ascii("AppName") := Text(name)];
      Added(map[], File1(n, name)) == map[Ascii("shortcuts") := Object(map[[48] := Object(obj)])]
  {
    hide Ascii;
    var entry := ObjectField([48], Shortcut1(n, name), End);
    var text := TextField(Ascii("AppName"), name, End);
    assert Added(map[], Shortcut1(n, name)) == Added(map[Ascii("appid") := Int32(n)], text);
    assert Added(map[Ascii("appid") := Int32(n)], text) ==
        map[Ascii("appid") := Int32(n)][Ascii("AppName") := Text(name)];
    assert Added(map[], entry) == map[[48] := Object(Added(map[], Shortcut1(n, name)))];
    assert Added(map[], File1(n, name)) == map[Ascii("shortcuts") := Object(Added(map[], entry))];
  }

  /** The App ID is listed as the unsigned number of its four bytes, the lowest first, if there is a name. */
  lemma OneShortcutListed(id: bytes, name: bytes)
    requires |id| == 4 && 0 !in name
    ensures
      var number: int := id[0] as int + 256 * id[1] as int + 65_536 * id[2] as int + 16_777_216 * id[3] as int;
      Listed(Parse(OneShortcut(id, name), map[]).fields) == if name == [] then {} else {(Decimal(number), name)}
  {
    var n := SignedLittleEndian(id);
    var file := File1(n, name);
    OneShortcutEncoded(id, name);
    RoundTrip(file, [], map[]);
    assert Encode(file) + [] == Encode(file);
    OneShortcutFields(n, name);
    KeysApart();
    var number: int := id[0] as int + 256 * id[1] as int + 65_536 * id[2] as int + 16_777_216 * id[3] as int;
    assert number == n % 0x1_0000_0000;
    hide Ascii, Parse, Encode, Added, SignedLittleEndian, Decimal, WellFormed;
    ShortcutOnce(n, name, map[Ascii("appid") := Int32(n), Ascii("AppName") := Text(name)]);
  }

  // ----- A truncated file lists nothing that the whole file does not

  function Names(f: Fields): set<bytes> {
    if f.End? then {} else {f.name} + Names(f.next)
  }

  /** No object repeats a field name. */
  predicate DistinctNames(f: Fields) {
    && (!f.End? ==> f.name !in Names(f.next) && DistinctNames(f.next))
    && (f.ObjectField? ==> DistinctNames(f.fields))
  }

  /** a is b with some fields missing, here or in the objects inside. */
  ghost predicate PartOf(a: map<bytes, Value>, b: map<bytes, Value>, depth: nat)
    decreases depth, 1
  {
    forall k :: k in a ==> k in b && PartOfValue(a[k], b[k], depth)
  }

  ghost predicate PartOfValue(a: Value, b: Value, depth: nat)
    decreases depth, 0
  {
    a == b || (a.Object? && b.Object? && (depth > 0 ==> PartOf(a.fields, b.fields, depth - 1)))
  }

  lemma {:induction false} AddedKeepsOthers(f: Fields, obj: map<bytes, Value>)
    ensures forall k :: k in obj && k !in Names(f) ==> k in Added(obj, f) && Added(obj, f)[k] == obj[k]
    decreases f
  {
    match f
    case End =>
    case ObjectField(name, fields, next) =>
      AddedKeepsOthers(next, obj[name := Object(Added(map[], fields))]);
    case TextField(name, s, next) =>
      AddedKeepsOthers(next, obj[name := Text(s)]);
    case Int32Field(name, n, next) =>
      AddedKeepsOthers(next, obj[name := Int32(n)]);
  }

  lemma PartOfAdd(a: map<bytes, Value>, b: map<bytes, Value>, depth: nat, name: bytes, v: Value, w: Value)
    requires PartOf(a, b, depth) && name !in b && PartOfValue(v, w, depth)
    ensures PartOf(a[name := v], b[name := w], depth)
  {
  }

  /** Adding fields under new names only adds. */
  lemma PartOfMore(a: map<bytes, Value>, b: map<bytes, Value>, depth: nat, f: Fields)
    requires PartOf(a, b, depth) && Names(f) !! b.Keys
    ensures PartOf(a, Added(b, f), depth)
  {
    AddedKeepsOthers(f, b);
  }

  lemma PartOfItself(v: Value, depth: nat)
    ensures PartOfValue(v, v, depth)
  {
  }

  /** Cutting the encoding of b's fields only removes from what they stand for. */
  lemma {:induction false} KeptIsPart(f: Fields, n: nat, depth: nat, a: map<bytes, Value>, b: map<bytes, Value>)
    requires DistinctNames(f) && PartOf(a, b, depth) && Names(f) !! b.Keys
    ensures PartOf(Added(a, Kept(f, n)), Added(b, f), depth)
    decreases f, 0
  {
    hide EncodedSize, PartOf, PartOfValue;
    if Kept(f, n).End? {
      PartOfMore(a, b, depth, f);
    } else {
      match f
      case ObjectField(name, fields, next) =>
        var header, size := |name| + 2, EncodedSize(fields);
        var w := Object(Added(map[], fields));
        if n < header + size {
          var v := Object(Added(map[], Kept(fields, n - header)));
          KeptObjectIsPart(fields, n - header, depth);
          PartOfAdd(a, b, depth, name, v, w);
          PartOfMore(a[name := v], b[name := w], depth, next);
        } else {
          PartOfItself(w, depth);
          PartOfAdd(a, b, depth, name, w, w);
          KeptIsPart(next, n - header - size, depth, a[name := w], b[name := w]);
        }
      case TextField(name, s, next) =>
        PartOfItself(Text(s), depth);
        PartOfAdd(a, b, depth, name, Text(s), Text(s));
        KeptIsPart(next, n - (|name| + 3 + |s|), depth, a[name := Text(s)], b[name := Text(s)]);
      case Int32Field(name, m, next) =>
        PartOfItself(Int32(m), depth);
        PartOfAdd(a, b, depth, name, Int32(m), Int32(m));
        KeptIsPart(next, n - (|name| + 6), depth, a[name := Int32(m)], b[name := Int32(m)]);
    }
  }

  lemma {:induction false} KeptObjectIsPart(fields: Fields, n: nat, depth: nat)
    requires DistinctNames(fields)
    ensures PartOfValue(Object(Added(map[], Kept(fields, n))), Object(Added(map[], fields)), depth)
    decreases fields, 1
  {
    if depth > 0 {
      KeptIsPart(fields, n, depth - 1, map[], map[]);
    }
  }

  lemma ShortcutOfPart(v: Value, w: Value)
    requires PartOfValue(v, w, 1) && Shortcut(v).Some?
    ensures Shortcut(w) == Shortcut(v)
  {
    if v != w {
      assert PartOf(v.fields, w.fields, 0);
    }
  }

  lemma ListedOfPart(a: map<bytes, Value>, b: map<bytes, Value>)
    requires PartOf(a, b, 2)
    ensures Listed(a) <= Listed(b)
  {
    hide Shortcut, Ascii;
    forall pair | pair in Listed(a) ensures pair in Listed(b) {
      var x, y := a[Ascii("shortcuts")], b[Ascii("shortcuts")];
      assert PartOfValue(x, y, 2);
      if x != y {
        var k :| k in x.fields && Shortcut(x.fields[k]).Some? && Shortcut(x.fields[k]).value == pair;
        ShortcutOfPart(x.fields[k], y.fields[k]);
      }
    }
  }

  /** However a well-formed file is cut short, every App ID and name still listed is one of its own. */
  lemma TruncatedInventsNothing(f: Fields, n: nat)
    requires WellFormed(f) && DistinctNames(f) && n < |Encode(f)|
    ensures Listed(Parse(Encode(f)[..n], map[]).fields) <= Listed(Parse(Encode(f), map[]).fields)
  {
    TruncatedKeepsPrefix(f, n, map[]);
    RoundTrip(f, [], map[]);
    assert Encode(f) + [] == Encode(f);
    KeptIsPart(f, n, 2, map[], map[]);
    ListedOfPart(Added(map[], Kept(f, n)), Added(map[], f));
  }

  // ----- Why names must be distinct for that

  const NameTwice: Fields := TextField(Ascii("AppName"), [65], TextField(Ascii("AppName"), [66], End))

  /** One shortcut, App ID 1, that gives its name twice. */
  const TwoNames: Fields :=
    ObjectField(Ascii("shortcuts"), ObjectField([48], Int32Field(Ascii("appid"), 1, NameTwice), End), End)

  const BehindFirstName: nat := 36

  lemma ShortcutOnce(n: int, text: bytes, obj: map<bytes, Value>)
    requires obj.Keys == {Ascii("appid"), Ascii("AppName")} && Ascii("appid") != Ascii("AppName")
    requires obj[Ascii("appid")] == Int32(n) && obj[Ascii("AppName")] == Text(text)
    ensures Listed(map[Ascii("shortcuts") := Object(map[[48] := Object(obj)])])
         == if text == [] then {} else {(Decimal(n % 0x1_0000_0000), text)}
  {
    hide Ascii, Decimal;
    var entries: map<bytes, Value> := map[[48] := Object(obj)];
    assert Shortcut(entries[[48]]) == if text == [] then None else Some((Decimal(n % 0x1_0000_0000), text));
    assert forall k :: k in entries <==> k == [48];
  }

  lemma KeysApart()
    ensures Ascii("appid") != Ascii("AppName") && |Ascii("shortcuts")| == 9
    ensures |Ascii("appid")| == 5 && |Ascii("AppName")| == 7
    ensures 0 !in Ascii("appid") && 0 !in Ascii("AppName") && 0 !in Ascii("shortcuts")
  {
    assert Ascii("appid")[1] == 'p' as int && Ascii("AppName")[0] == 'A' as int;
    assert Ascii("appid")[0] == 'a' as int;
    forall i | 0 <= i < 9 ensures Ascii("shortcuts")[i] != 0 {
    }
  }

  /** What the whole file and the file cut behind the first name stand for. */
  lemma TwoNamesFields()
    ensures
      var appid, name := Ascii("appid"), Ascii("AppName");
      && Added(map[], TwoNames) ==
          map[Ascii("shortcuts") := Object(map[[48] := Object(map[appid := Int32(1), name := Text([66])])])]
      && Added(map[], Kept(TwoNames, BehindFirstName)) ==
           map[Ascii("shortcuts") := Object(map[[48] := Object(map[appid := Int32(1), name := Text([65])])])]
  {
    KeysApart();
    var appid, name := Ascii("appid"), Ascii("AppName");
    hide Ascii;
    var inner := Int32Field(appid, 1, NameTwice);
    assert Added(map[], inner) == Added(map[appid := Int32(1)], NameTwice);
    assert Added(map[appid := Int32(1)], NameTwice) == map[appid := Int32(1), name := Text([65])][name := Text([66])];
    assert Added(map[], inner) == map[appid := Int32(1), name := Text([66])];
    var shortcut := ObjectField([48], inner, End);
    assert Added(map[], shortcut) == map[[48] := Object(Added(map[], inner))];
    assert Added(map[], TwoNames) == map[Ascii("shortcuts") := Object(Added(map[], shortcut))];
    assert EncodedSize(NameTwice) == 23 && EncodedSize(inner) == 34;
    assert Kept(NameTwice, 11) == TextField(name, [65], End);
    assert Kept(inner, 22) == Int32Field(appid, 1, TextField(name, [65], End));
    assert EncodedSize(shortcut) == 38;
    assert Kept(shortcut, 25) == ObjectField([48], Kept(inner, 22), End);
    assert Kept(TwoNames, BehindFirstName) == ObjectField(Ascii("shortcuts"), Kept(shortcut, 25), End);
  }

  /** Cut between the two, the file lists the first name; whole, it lists the second. */
  lemma RepeatedNameListsOverwritten()
    ensures WellFormed(TwoNames) && !DistinctNames(TwoNames)
    ensures exists n: nat :: n < |Encode(TwoNames)| &&
              !(Listed(Parse(Encode(TwoNames)[..n], map[]).fields) <= Listed(Parse(Encode(TwoNames), map[]).fields))
  {
    KeysApart();
    var n := BehindFirstName;
    TwoNamesFields();
    TwoNamesWellFormed();
    EncodedSizeIsLength(TwoNames);
    var appid, name := Ascii("appid"), Ascii("AppName");
    hide Ascii, Encode, Parse, Listed, Decimal, WellFormed, Kept;
    TruncatedKeepsPrefix(TwoNames, n, map[]);
    RoundTrip(TwoNames, [], map[]);
    assert Encode(TwoNames) + [] == Encode(TwoNames);
    ShortcutOnce(1, [65], map[appid := Int32(1), name := Text([65])]);
    ShortcutOnce(1, [66], map[appid := Int32(1), name := Text([66])]);
    assert (Decimal(1), [65]) != (Decimal(1), [66]);
  }

  lemma TwoNamesWellFormed()
    ensures WellFormed(TwoNames) && !DistinctNames(TwoNames) && EncodedSize(TwoNames) == 50
  {
    KeysApart();
    hide Ascii;
    assert Names(TextField(Ascii("AppName"), [66], End)) == {Ascii("AppName")};
  }
}
