/**
 Which manifests their hashed text pins down (ManifestHash in internal/delta/manifest.go), exactly: first
 among manifests whose names hold no newline, then among manifests with any names. File hashes are what
 the program makes them, 64 lowercase hex digits.
 */
module ManifestAmbiguity {
  import opened Basics
  import opened TextOrder
  import opened Manifests

  const HashLength: nat := 64

  /** A SHA-256 in lowercase hex. */
  predicate IsHash(h: string) {
    |h| == HashLength && forall i :: 0 <= i < |h| ==> '0' <= h[i] <= '9' || 'a' <= h[i] <= 'f'
  }

  ghost predicate HexHashes(m: Manifest) {
    forall p :: p in m.files ==> IsHash(m.files[p].hash)
  }

  /** A manifest of the program's with newline-free names. */
  ghost predicate Genuine(m: Manifest) {
    Tidy(m) && HexHashes(m)
  }

  lemma HexIsClean(h: string)
    requires IsHash(h)
    ensures '\n' !in h && ':' !in h
  {
  }

  // ----- The last colon of a line

  /** Where the hash would begin if the line were a file's. */
  function LastColon(line: string): (i: nat)
    requires ':' in line
    ensures i < |line| && line[i] == ':' && ':' !in line[i + 1..]
  {
    var last := |line| - 1;
    if line[last] == ':' then last
    else
      var i := LastColon(line[..last]);
      assert line[i + 1..] == line[..last][i + 1..] + [line[last]];
      i
  }

  lemma DirLineHasColon(dir: string)
    ensures ':' in DirLine(dir)
  {
    assert DirLine(dir)[3] == ':';
  }

  /** The path of a directory line read as a file line. */
  function PathIn(dir: string): string {
    DirLineHasColon(dir);
    DirLine(dir)[..LastColon(DirLine(dir))]
  }

  function HashIn(dir: string): (h: string)
    ensures ':' !in h
  {
    DirLineHasColon(dir);
    DirLine(dir)[LastColon(DirLine(dir)) + 1..]
  }

  lemma DirLineAsFileLine(dir: string)
    ensures FileLine(PathIn(dir), HashIn(dir)) == DirLine(dir)
    ensures '\n' !in dir ==> '\n' !in PathIn(dir) && '\n' !in HashIn(dir)
  {
    DirLineHasColon(dir);
    var line := DirLine(dir);
    var i := LastColon(line);
    assert line == line[..i] + [line[i]] + line[i + 1..];
    assert '\n' !in dir ==> '\n' !in line;
  }

  lemma FileLineInDirLine(p: string, h: string, dir: string)
    requires ':' !in h && FileLine(p, h) == DirLine(dir)
    ensures p == PathIn(dir) && h == HashIn(dir) && ReadsAsDir(p)
  {
    DirLineAsFileLine(dir);
    FileLineInjective(p, h, PathIn(dir), HashIn(dir));
    if !ReadsAsDir(p) {
      FileLineIsNotDirLine(p, h, dir);
    }
  }

  /** The directory that a file line reading as a directory line names. */
  function DirIn(p: string, h: string): string
    requires ReadsAsDir(p)
  {
    FileLine(p, h)[4..]
  }

  lemma FileLineAsDirLine(p: string, h: string)
    requires ReadsAsDir(p)
    ensures DirLine(DirIn(p, h)) == FileLine(p, h)
    ensures '\n' !in p && '\n' !in h ==> '\n' !in DirIn(p, h)
  {
    var line := FileLine(p, h);
    assert line == (p + ":") + h;
    assert line[..4] == DirPrefix;
    assert line == line[..4] + line[4..];
    assert '\n' !in p && '\n' !in h ==> '\n' !in line;
  }

  // ----- Among names without a newline

  /** No other manifest with newline-free names has this text. */
  ghost predicate Determined(m: Manifest) {
    forall k :: Genuine(k) && ManifestText(k) == ManifestText(m) ==> SameContent(m.files, k.files) && m.dirs == k.dirs
  }

  /**
   What a caller can check: the last path does not read as a directory line, and the first directory's
   line, should it end like a file's, in a colon and a hash, would not come after the last path.
   */
  ghost predicate Unambiguous(m: Manifest) {
    var ps := SortedPaths(m.files.Keys);
    && (ps != [] ==> !ReadsAsDir(ps[|ps| - 1]))
    && (m.dirs != [] && IsHash(HashIn(m.dirs[0])) ==> ps != [] && !Less(ps[|ps| - 1], PathIn(m.dirs[0])))
  }

  lemma InOrder(s: seq<string>, n: nat)
    requires Ascending(s) && 0 < n < |s|
    ensures Less(s[n - 1], s[n])
  {
  }

  lemma CleanHash(m: Manifest, p: string)
    requires Tidy(m) && p in m.files
    ensures ':' !in m.files[p].hash
  {
  }

  /** With fewer file lines than m, k takes m's last file line for a directory's. */
  lemma LastFileGivenUp(m: Manifest, k: Manifest)
    requires Tidy(m) && Tidy(k) && ManifestLines(m) == ManifestLines(k)
    requires |SortedPaths(k.files.Keys)| < |SortedPaths(m.files.Keys)|
    ensures LastReadsAsDir(m)
  {
    hide ManifestLines, ReadsAsDir, Ascending, Less, PathIn, HashIn, SortedPaths, Tidy;
    var ps, qs := SortedPaths(m.files.Keys), SortedPaths(k.files.Keys);
    var i := |ps| - 1;
    LineCount(m);
    ManifestLine(m, i);
    ManifestLine(k, i);
    CleanHash(m, ps[i]);
    FileLineInDirLine(ps[i], m.files[ps[i]].hash, k.dirs[i - |qs|]);
  }

  lemma FileLinesNotFewer(m: Manifest, k: Manifest)
    requires Tidy(m) && Tidy(k) && Unambiguous(m) && ManifestLines(m) == ManifestLines(k)
    ensures |SortedPaths(m.files.Keys)| <= |SortedPaths(k.files.Keys)|
  {
    hide ManifestLines, ReadsAsDir, Less, PathIn, HashIn, IsHash, Tidy;
    if |SortedPaths(k.files.Keys)| < |SortedPaths(m.files.Keys)| {
      LastFileGivenUp(m, k);
    }
  }

  /** k's file in the place of m's first directory comes after m's last file. */
  lemma FirstDirTakenOver(m: Manifest, k: Manifest)
    requires Genuine(m) && Genuine(k) && ManifestLines(m) == ManifestLines(k)
    requires |SortedPaths(m.files.Keys)| < |SortedPaths(k.files.Keys)|
    ensures m.dirs != [] && IsHash(HashIn(m.dirs[0]))
    ensures var ps := SortedPaths(m.files.Keys); ps != [] ==> Less(ps[|ps| - 1], PathIn(m.dirs[0]))
  {
    hide ManifestLines, ReadsAsDir, Less, PathIn, HashIn, IsHash;
    var ps, qs := SortedPaths(m.files.Keys), SortedPaths(k.files.Keys);
    var n := |ps|;
    LineCount(m);
    LineCount(k);
    ManifestLine(m, n);
    ManifestLine(k, n);
    FileLineInDirLine(qs[n], k.files[qs[n]].hash, m.dirs[0]);
    if n > 0 {
      SameFileLine(m, k, n - 1);
      InOrder(qs, n);
    }
  }

  /** With more, it would take m's first directory line for a file's, in its place in the order. */
  lemma FileLinesNotMore(m: Manifest, k: Manifest)
    requires Genuine(m) && Genuine(k) && Unambiguous(m) && ManifestLines(m) == ManifestLines(k)
    ensures |SortedPaths(m.files.Keys)| >= |SortedPaths(k.files.Keys)|
  {
    hide ManifestLines, ReadsAsDir, Less, PathIn, HashIn, IsHash, Tidy;
    if |SortedPaths(m.files.Keys)| < |SortedPaths(k.files.Keys)| {
      FirstDirTakenOver(m, k);
    }
  }

  lemma UnambiguousIsDetermined(m: Manifest)
    requires Genuine(m) && Unambiguous(m)
    ensures Determined(m)
  {
    hide ManifestLines, Tidy, Unambiguous, ManifestText, HexHashes;
    forall k | Genuine(k) && ManifestText(k) == ManifestText(m) ensures SameContent(m.files, k.files) &&
        m.dirs == k.dirs {
      SameTextSameLines(m, k);
      FileLinesNotFewer(m, k);
      FileLinesNotMore(m, k);
      SameFilePart(m, k);
      SameDirPart(m, k);
    }
  }

  /** k is m with its last file line, p and h, taken for the directory d. */
  ghost predicate Moved(m: Manifest, k: Manifest, p: string, h: string, d: string) {
    && SortedPaths(m.files.Keys) == SortedPaths(k.files.Keys) + [p]
    && p in m.files && m.files[p].hash == h
    && (forall q :: q in k.files ==> q in m.files && m.files[q].hash == k.files[q].hash)
    && k.dirs == [d] + m.dirs && DirLine(d) == FileLine(p, h)
  }

  lemma FileLinesAppend(qs: seq<string>, fewer: Files, p: string, files: Files)
    requires (forall q :: q in qs ==> q in fewer && q in files && files[q].hash == fewer[q].hash) && p in files
    ensures FileLines(qs + [p], files) == FileLines(qs, fewer) + [FileLine(p, files[p].hash)]
  {
    hide FileLine, FileLines;
    forall i | 0 <= i < |qs| ensures FileLines(qs + [p], files)[i] == FileLines(qs, fewer)[i] {
      assert qs[i] in qs && (qs + [p])[i] == qs[i];
    }
  }

  lemma MovedLines(m: Manifest, k: Manifest, p: string, h: string, d: string)
    requires Moved(m, k, p, h, d)
    ensures ManifestLines(m) == ManifestLines(k)
  {
    hide FileLines, DirLines, DirLine, FileLine, Ascending;
    var qs := SortedPaths(k.files.Keys);
    assert forall q :: q in qs <==> q in k.files;
    FileLinesAppend(qs, k.files, p, m.files);
    assert DirLines(k.dirs) == [DirLine(d)] + DirLines(m.dirs);
    var before, after := FileLines(qs, k.files), DirLines(m.dirs);
    assert (before + [DirLine(d)]) + after == before + ([DirLine(d)] + after);
  }

  lemma MovedCollides(m: Manifest, k: Manifest, p: string, h: string, d: string)
    requires Moved(m, k, p, h, d)
    ensures ManifestText(m) == ManifestText(k) && m.dirs != k.dirs
  {
    hide ManifestLines, JoinLines;
    MovedLines(m, k, p, h, d);
    assert |k.dirs| == |m.dirs| + 1;
  }

  lemma DropLast(s: set<string>)
    requires SortedPaths(s) != []
    ensures var ps := SortedPaths(s); SortedPaths(s) == SortedPaths(s - {ps[|ps| - 1]}) + [ps[|ps| - 1]]
  {
    var ps := SortedPaths(s);
    var n := |ps| - 1;
    assert ps == ps[..n] + [ps[n]];
    assert Ascending(ps[..n]);
    hide SortedPaths, Less;
    forall x ensures x in ps[..n] <==> x in s - {ps[n]} {
      assert x in ps <==> x in s;
      assert ps[n] !in ps[..n] by { LastOnce(ps); }
    }
    AscendingUnique(SortedPaths(s - {ps[n]}), ps[..n]);
  }

  lemma LastOnce(ps: seq<string>)
    requires Ascending(ps) && ps != []
    ensures ps[|ps| - 1] !in ps[..|ps| - 1]
  {
  }

  lemma AscendingAppend(ps: seq<string>, x: string)
    requires Ascending(ps) && (ps == [] || Less(ps[|ps| - 1], x))
    ensures Ascending(ps + [x])
  {
    forall i | 0 <= i < |ps| ensures Less(ps[i], x) {
      if i < |ps| - 1 {
        LessTransitive(ps[i], ps[|ps| - 1], x);
      }
    }
  }

  lemma LessTransitive(a: string, b: string, c: string)
    requires Less(a, b) && Less(b, c)
    ensures Less(a, c)
  {
    LeqTransitive(a, b, c);
    if a == c {
      LeqAntisymmetric(a, b);
    }
  }

  lemma AddLast(s: set<string>, x: string)
    requires var ps := SortedPaths(s); ps == [] || Less(ps[|ps| - 1], x)
    ensures SortedPaths(s + {x}) == SortedPaths(s) + [x]
  {
    var ps := SortedPaths(s);
    AscendingAppend(ps, x);
    hide SortedPaths, Ascending, Less;
    forall y ensures y in ps + [x] <==> y in s + {x} {
    }
    AscendingUnique(SortedPaths(s + {x}), ps + [x]);
  }

  ghost predicate LastReadsAsDir(m: Manifest) {
    var ps := SortedPaths(m.files.Keys);
    ps != [] && ReadsAsDir(ps[|ps| - 1])
  }

  /** m with its last file line taken for a directory's. */
  ghost function LastFileAsDir(m: Manifest): Manifest
    requires LastReadsAsDir(m)
  {
    var ps := SortedPaths(m.files.Keys);
    var p := ps[|ps| - 1];
    assert p in ps && p in m.files;
    Manifest(m.latestMtime, m.files - {p}, [DirIn(p, m.files[p].hash)] + m.dirs)
  }

  ghost predicate FirstReadsAsFile(m: Manifest) {
    var ps := SortedPaths(m.files.Keys);
    && m.dirs != [] && IsHash(HashIn(m.dirs[0]))
    && (ps != [] ==> Less(ps[|ps| - 1], PathIn(m.dirs[0])))
  }

  /** m with its first directory line taken for a file's. */
  ghost function FirstDirAsFile(m: Manifest): Manifest
    requires FirstReadsAsFile(m)
  {
    var d := m.dirs[0];
    Manifest(m.latestMtime, m.files[PathIn(d) := FileEntry(0, HashIn(d), [], 1, 0)], m.dirs[1..])
  }

  lemma LastFileAsDirCollides(m: Manifest)
    requires Genuine(m) && LastReadsAsDir(m)
    ensures
      var k := LastFileAsDir(m);
      && Genuine(k) && ManifestText(m) == ManifestText(k) && m.dirs != k.dirs
      && |SortedPaths(k.files.Keys)| == |SortedPaths(m.files.Keys)| - 1
  {
    hide ReadsAsDir, DirIn, FileLine, DirLine, Ascending, ManifestText, SortedPaths, IsHash;
    var ps := SortedPaths(m.files.Keys);
    var p := ps[|ps| - 1];
    assert p in m.files;
    var h := m.files[p].hash;
    FileLineAsDirLine(p, h);
    DropLast(m.files.Keys);
    var k := LastFileAsDir(m);
    assert k.files.Keys == m.files.Keys - {p};
    MovedCollides(m, k, p, h, DirIn(p, h));
  }

  lemma FirstDirAsFileCollides(m: Manifest)
    requires Genuine(m) && FirstReadsAsFile(m)
    ensures
      var k := FirstDirAsFile(m);
      && Genuine(k) && ManifestText(m) == ManifestText(k) && m.dirs != k.dirs
      && |SortedPaths(k.files.Keys)| == |SortedPaths(m.files.Keys)| + 1
  {
    hide FileLine, DirLine, PathIn, HashIn, Ascending, ManifestText, SortedPaths, Less, IsHash;
    var d := m.dirs[0];
    var p, h := PathIn(d), HashIn(d);
    assert d in m.dirs;
    DirLineAsFileLine(d);
    AddLast(m.files.Keys, p);
    NotYetThere(m.files.Keys, p);
    var k := FirstDirAsFile(m);
    assert k.files.Keys == m.files.Keys + {p};
    assert m.dirs == [d] + k.dirs;
    MovedCollides(k, m, p, h, d);
  }

  lemma NotYetThere(s: set<string>, x: string)
    requires SortedPaths(s + {x}) == SortedPaths(s) + [x]
    ensures x !in s
  {
    hide SortedPaths, Less;
    LastOnce(SortedPaths(s + {x}));
    assert (SortedPaths(s) + [x])[..|SortedPaths(s)|] == SortedPaths(s);
  }

  /**
   Exactly when a manifest's text is no other's, as long as names hold no newline: the file part can
   neither give up its last line to the directories nor take over their first.
   */
  lemma TextDeterminesContentIff(m: Manifest)
    requires Genuine(m)
    ensures Determined(m) <==> Unambiguous(m)
  {
    hide ManifestLines, Tidy, ManifestText, ReadsAsDir, Less, PathIn, HashIn, IsHash, HexHashes;
    var ps := SortedPaths(m.files.Keys);
    if Unambiguous(m) {
      UnambiguousIsDetermined(m);
    } else if LastReadsAsDir(m) {
      LastFileAsDirCollides(m);
    } else {
      FirstDirAsFileCollides(m);
    }
  }

  // ----- All manifests with one text

  /** m with its last -j file lines taken for directories', or its first j directory lines for files'. */
  ghost function Shifted(m: Manifest, j: int): Option<Manifest>
    decreases if j < 0 then -j else j
  {
    if j == 0 then Some(m)
    else if j < 0 then if LastReadsAsDir(m) then Shifted(LastFileAsDir(m), j + 1) else None
    else if FirstReadsAsFile(m) then Shifted(FirstDirAsFile(m), j - 1)
    else None
  }

  lemma {:induction false} ShiftedHasText(m: Manifest, j: int)
    requires Genuine(m) && Shifted(m, j).Some?
    ensures Genuine(Shifted(m, j).value) && ManifestText(Shifted(m, j).value) == ManifestText(m)
    ensures |SortedPaths(Shifted(m, j).value.files.Keys)| == |SortedPaths(m.files.Keys)| + j
    decreases if j < 0 then -j else j
  {
    hide Genuine, ManifestText, LastFileAsDir, FirstDirAsFile, LastReadsAsDir, FirstReadsAsFile, SortedPaths;
    if j < 0 {
      LastFileAsDirCollides(m);
      ShiftedHasText(LastFileAsDir(m), j + 1);
    } else if j > 0 {
      FirstDirAsFileCollides(m);
      ShiftedHasText(FirstDirAsFile(m), j - 1);
    }
  }

  ghost predicate Alike(m: Manifest, k: Manifest) {
    SameContent(m.files, k.files) && m.dirs == k.dirs
  }

  lemma {:induction false} SameTextIsShifted(m: Manifest, k: Manifest)
    requires Genuine(m) && Genuine(k) && ManifestText(m) == ManifestText(k)
    ensures
      var s := Shifted(m, |SortedPaths(k.files.Keys)| - |SortedPaths(m.files.Keys)|);
      s.Some? && Alike(s.value, k)
    decreases if |SortedPaths(k.files.Keys)| < |SortedPaths(m.files.Keys)|
              then |SortedPaths(m.files.Keys)| - |SortedPaths(k.files.Keys)|
              else |SortedPaths(k.files.Keys)| - |SortedPaths(m.files.Keys)|
  {
    hide ManifestText, ManifestLines, LastFileAsDir, FirstDirAsFile, LastReadsAsDir, FirstReadsAsFile, SortedPaths,
        Tidy, HexHashes;
    SameTextSameLines(m, k);
    if |SortedPaths(k.files.Keys)| < |SortedPaths(m.files.Keys)| {
      LastFileGivenUp(m, k);
      LastFileAsDirCollides(m);
      SameTextIsShifted(LastFileAsDir(m), k);
    } else if |SortedPaths(k.files.Keys)| > |SortedPaths(m.files.Keys)| {
      FirstDirTakenOver(m, k);
      FirstIsTakenOver(m);
      FirstDirAsFileCollides(m);
      SameTextIsShifted(FirstDirAsFile(m), k);
    } else {
      SameFilePart(m, k);
      SameDirPart(m, k);
    }
  }

  lemma FirstIsTakenOver(m: Manifest)
    requires m.dirs != [] && IsHash(HashIn(m.dirs[0]))
    requires var ps := SortedPaths(m.files.Keys); ps != [] ==> Less(ps[|ps| - 1], PathIn(m.dirs[0]))
    ensures FirstReadsAsFile(m)
  {
  }

  /**
   Every collision among newline-free names: a manifest has the text of m exactly if it is m with some
   last file lines taken for directories', or some first directory lines for files', one after another.
   */
  lemma SameTextIff(m: Manifest, k: Manifest)
    requires Genuine(m) && Genuine(k)
    ensures ManifestText(m) == ManifestText(k) <==> exists j :: Shifted(m, j).Some? && Alike(Shifted(m, j).value, k)
  {
    hide ManifestText, ManifestLines, Shifted, SortedPaths, Genuine;
    if ManifestText(m) == ManifestText(k) {
      SameTextIsShifted(m, k);
    }
    if j :| Shifted(m, j).Some? && Alike(Shifted(m, j).value, k) {
      ShiftedHasText(m, j);
      ContentDeterminesText(Shifted(m, j).value, k);
    }
  }

  // ----- Among what a folder walk can give

  const TmpSuffix := ".sidesave.tmp"

  /** No name on the way is empty or starts with a dot. */
  predicate WalkedPath(p: string) {
    && p != "" && p[0] != '/' && p[0] != '.' && p[|p| - 1] != '/'
    && forall i :: 0 <= i < |p| - 1 && p[i] == '/' ==> p[i + 1] != '/' && p[i + 1] != '.'
  }

  predicate EndsInTmp(p: string) {
    |p| >= |TmpSuffix| && p[|p| - |TmpSuffix|..] == TmpSuffix
  }

  /** Folders in ascending order, none of them a file, every folder on the way to a path, no leftovers. */
  ghost predicate Walked(m: Manifest) {
    && Genuine(m) && Ascending(m.dirs)
    && (forall p :: p in m.files ==> WalkedPath(p) && !EndsInTmp(p))
    && (forall d :: d in m.dirs ==> WalkedPath(d) && d !in m.files)
    && (forall p, i :: (p in m.files || p in m.dirs) && 0 <= i < |p| && p[i] == '/' ==> p[..i] in m.dirs)
  }

  ghost predicate DeterminedAmongWalks(m: Manifest) {
    forall k :: Walked(k) && ManifestText(k) == ManifestText(m) ==> Alike(m, k)
  }

  lemma AlikeWalked(m: Manifest, k: Manifest)
    requires Walked(k) && Genuine(m) && Alike(m, k)
    ensures Walked(m)
  {
  }

  /** A save's text is no other save's exactly if no shift of it is one that a folder walk can give. */
  lemma DeterminedAmongWalksIff(m: Manifest)
    requires Walked(m)
    ensures DeterminedAmongWalks(m) <==> forall j :: j != 0 && Shifted(m, j).Some? ==> !Walked(Shifted(m, j).value)
  {
    hide ManifestText, SortedPaths, Walked, Shifted;
    if forall j :: j != 0 && Shifted(m, j).Some? ==> !Walked(Shifted(m, j).value) {
      forall k | Walked(k) && ManifestText(k) == ManifestText(m) ensures Alike(m, k) {
        var j := WalkIsShift(m, k);
      }
    } else {
      var j :| j != 0 && Shifted(m, j).Some? && Walked(Shifted(m, j).value);
      WalkedIsGenuine(m);
      ShiftedHasText(m, j);
      ShiftedDiffers(m, Shifted(m, j).value, j);
    }
  }

  lemma ShiftedDiffers(m: Manifest, k: Manifest, j: int)
    requires j != 0 && |SortedPaths(k.files.Keys)| == |SortedPaths(m.files.Keys)| + j
    ensures !Alike(m, k)
  {
    hide SortedPaths;
    assert SameContent(m.files, k.files) ==> m.files.Keys == k.files.Keys;
  }

  lemma WalkIsShift(m: Manifest, k: Manifest) returns (j: int)
    requires Walked(m) && Walked(k) && ManifestText(k) == ManifestText(m)
    ensures Shifted(m, j).Some? && Walked(Shifted(m, j).value) && (j == 0 ==> Alike(m, k))
  {
    hide ManifestText, SortedPaths, Walked;
    WalkedIsGenuine(m);
    WalkedIsGenuine(k);
    SameTextIsShifted(m, k);
    j := |SortedPaths(k.files.Keys)| - |SortedPaths(m.files.Keys)|;
    ShiftedHasText(m, j);
    AlikeWalked(Shifted(m, j).value, k);
  }

  lemma WalkedIsGenuine(m: Manifest)
    requires Walked(m)
    ensures Genuine(m)
  {
  }

  // ----- Among all names, newlines included

  ghost predicate DeterminedAmongAll(m: Manifest) {
    forall k :: HexHashes(k) && ManifestText(k) == ManifestText(m) ==> SameContent(m.files, k.files) && m.dirs == k.dirs
  }

  /** At most one file and one folder, neither of which reads as the other kind. */
  ghost predicate AtMostOneEach(m: Manifest) {
    && |SortedPaths(m.files.Keys)| <= 1 && |m.dirs| <= 1
    && (forall p :: p in m.files ==> !ReadsAsDir(p))
    && (m.dirs != [] ==> !IsHash(HashIn(m.dirs[0])))
  }

  lemma SingleLine(lines: seq<string>, line: string)
    requires '\n' !in line && JoinLines(lines) == line + "\n"
    ensures lines == [line]
  {
    var text := lines[0] + "\n" + JoinLines(lines[1..]);
    assert text[|lines[0]|] == '\n';
    assert forall i :: 0 <= i < |line| ==> (line + "\n")[i] == line[i] && line[i] in line;
    assert |lines[0]| == |line|;
    assert lines[0] == text[..|line|] == line;
    assert JoinLines(lines[1..]) == "";
    assert lines[1..] == [];
  }

  lemma OneLineText(lines: seq<string>)
    requires |lines| == 1
    ensures JoinLines(lines) == lines[0] + "\n"
  {
    assert JoinLines(lines[1..]) == "";
  }

  /** Two newline-free lines are two lines or, in one way only, one line with a newline in it. */
  lemma TwoLines(lines: seq<string>, a: string, b: string)
    requires '\n' !in a && '\n' !in b && JoinLines(lines) == a + "\n" + b + "\n"
    ensures lines == [a, b] || lines == [a + "\n" + b]
  {
    var text := a + "\n" + b + "\n";
    assert lines != [];
    var first, rest := lines[0], JoinLines(lines[1..]);
    assert text == first + "\n" + rest;
    assert text[|first|] == '\n';
    assert forall i :: 0 <= i < |a| ==> text[i] == a[i] && a[i] in a;
    assert forall i :: |a| < i < |text| - 1 ==> text[i] == b[i - |a| - 1] && b[i - |a| - 1] in b;
    if |first| == |a| {
      assert first == text[..|a|] == a;
      assert rest == text[|a| + 1..] == b + "\n";
      SingleLine(lines[1..], b);
      assert lines == [lines[0]] + lines[1..];
    } else {
      assert |first| == |text| - 1;
      assert first == text[..|text| - 1] == a + "\n" + b;
      assert |rest| == 0;
      assert lines[1..] == [];
    }
  }

  lemma OneEachIsUnambiguous(m: Manifest)
    requires AtMostOneEach(m)
    ensures Unambiguous(m)
  {
    hide ReadsAsDir, IsHash, HashIn, PathIn, Less;
    var ps := SortedPaths(m.files.Keys);
    assert forall i :: 0 <= i < |ps| ==> ps[i] in ps && ps[i] in m.files;
  }

  /** Names are newline-free if the lines they stand in are. */
  lemma LinesTidy(m: Manifest, k: Manifest)
    requires Tidy(m) && HexHashes(k) && ManifestLines(k) == ManifestLines(m)
    ensures Genuine(k)
  {
    hide ManifestLines, IsHash;
    LinesNewlineFree(m);
    LineCount(k);
    var qs := SortedPaths(k.files.Keys);
    forall q | q in k.files ensures '\n' !in q {
      assert q in qs;
      var i :| 0 <= i < |qs| && qs[i] == q;
      ManifestLine(k, i);
      assert FileLine(q, k.files[q].hash)[..|q|] == q;
    }
    forall d | d in k.dirs ensures '\n' !in d {
      var j :| 0 <= j < |k.dirs| && k.dirs[j] == d;
      ManifestLine(k, |qs| + j);
      assert DirLine(d)[4..] == d;
    }
    forall q | q in k.files ensures '\n' !in k.files[q].hash && ':' !in k.files[q].hash {
      HexIsClean(k.files[q].hash);
    }
  }

  /** A file's line and a folder's, taken for one line, would be neither. */
  lemma NotOneLine(m: Manifest, k: Manifest)
    requires Genuine(m) && AtMostOneEach(m) && HexHashes(k)
    requires |SortedPaths(m.files.Keys)| == 1 && |m.dirs| == 1
    ensures ManifestLines(k) != [ManifestLines(m)[0] + "\n" + ManifestLines(m)[1]]
  {
    hide ManifestLines, ReadsAsDir, IsHash, PathIn, HashIn;
    LineCount(m);
    ManifestLine(m, 0);
    ManifestLine(m, 1);
    var p, d := SortedPaths(m.files.Keys)[0], m.dirs[0];
    var h := m.files[p].hash;
    var both := FileLine(p, h) + "\n" + DirLine(d);
    assert p in m.files;
    if ManifestLines(k) == [both] {
      LineCount(k);
      ManifestLine(k, 0);
      if k.dirs == [] {
        var q := SortedPaths(k.files.Keys)[0];
        HexIsClean(k.files[q].hash);
        DirLineAsFileLine(d);
        LongerName(FileLine(p, h) + "\n", PathIn(d), HashIn(d));
        FileLineInjective(q, k.files[q].hash, FileLine(p, h) + "\n" + PathIn(d), HashIn(d));
      } else {
        assert both == FileLine(p, h + "\n" + DirLine(d));
        FileLineIsNotDirLine(p, h + "\n" + DirLine(d), k.dirs[0]);
      }
    }
  }

  lemma LongerName(before: string, p: string, h: string)
    ensures before + FileLine(p, h) == FileLine(before + p, h)
  {
  }

  /** The lines are then the only ones with their text. */
  lemma SameTextSameLinesAmongAll(m: Manifest, k: Manifest)
    requires Genuine(m) && AtMostOneEach(m) && HexHashes(k) && ManifestText(k) == ManifestText(m)
    ensures ManifestLines(k) == ManifestLines(m)
  {
    hide ManifestLines, AtMostOneEach;
    LineCount(m);
    LinesNewlineFree(m);
    AtMostTwoLines(m);
    var lines := ManifestLines(m);
    if |lines| == 1 {
      OneLineText(lines);
      SingleLine(ManifestLines(k), lines[0]);
    } else if |lines| == 2 {
      TwoLinesText(lines);
      TwoLines(ManifestLines(k), lines[0], lines[1]);
      NotOneLine(m, k);
    }
  }

  lemma AtMostTwoLines(m: Manifest)
    requires AtMostOneEach(m)
    ensures |ManifestLines(m)| <= 2
    ensures |ManifestLines(m)| == 2 ==> |SortedPaths(m.files.Keys)| == 1 && |m.dirs| == 1
  {
    LineCount(m);
  }

  lemma TwoLinesText(lines: seq<string>)
    requires |lines| == 2
    ensures JoinLines(lines) == lines[0] + "\n" + lines[1] + "\n"
  {
    OneLineText(lines[1..]);
  }

  lemma OneEachIsDetermined(m: Manifest)
    requires Genuine(m) && AtMostOneEach(m)
    ensures DeterminedAmongAll(m)
  {
    hide ManifestLines, AtMostOneEach, HexHashes, Tidy, Unambiguous;
    OneEachIsUnambiguous(m);
    UnambiguousIsDetermined(m);
    forall k | HexHashes(k) && ManifestText(k) == ManifestText(m) ensures SameContent(m.files, k.files) &&
        m.dirs == k.dirs {
      SameTextSameLinesAmongAll(m, k);
      LinesTidy(m, k);
    }
  }

  // ----- Two lines made one

  lemma {:induction false} JoinLinesConcat(a: seq<string>, b: seq<string>)
    ensures JoinLines(a + b) == JoinLines(a) + JoinLines(b)
  {
    if a == [] {
      assert a + b == b;
    } else {
      assert (a + b)[1..] == a[1..] + b;
      JoinLinesConcat(a[1..], b);
    }
  }

  lemma MergedLines(before: seq<string>, x: string, y: string, after: seq<string>)
    ensures JoinLines(before + ([x, y] + after)) == JoinLines(before + ([x + "\n" + y] + after))
  {
    hide JoinLines;
    JoinLinesConcat(before, [x, y] + after);
    JoinLinesConcat(before, [x + "\n" + y] + after);
    JoinLinesConcat([x, y], after);
    JoinLinesConcat([x + "\n" + y], after);
    TwoLinesText([x, y]);
    OneLineText([x + "\n" + y]);
  }

  lemma PrefixIsLess(a: string, more: string)
    requires more != ""
    ensures Less(a, a + more)
  {
    if a != "" {
      PrefixIsLess(a[1..], more);
      assert (a + more)[1..] == a[1..] + more;
    } else {
      assert a + more == more;
    }
  }

  /** The last two paths given a common one in their place. */
  lemma ReplaceLastTwo(s: set<string>, more: string)
    requires |SortedPaths(s)| >= 2 && more != ""
    ensures
      var ps := SortedPaths(s);
      var n := |ps| - 2;
      var rest, x := s - {ps[n + 1]} - {ps[n]}, ps[n] + more;
      && SortedPaths(s) == SortedPaths(rest) + [ps[n], ps[n + 1]]
      && SortedPaths(rest + {x}) == SortedPaths(rest) + [x] && x !in rest
  {
    hide SortedPaths, Less;
    var ps := SortedPaths(s);
    var n := |ps| - 2;
    var a, b := ps[n], ps[n + 1];
    DropLast(s);
    var fewer := s - {b};
    assert SortedPaths(fewer) == ps[..n + 1];
    DropLast(fewer);
    var rest := fewer - {a};
    assert SortedPaths(rest) == ps[..n];
    PrefixIsLess(a, more);
    if n > 0 {
      InOrder(ps, n);
      LessTransitive(ps[n - 1], a, a + more);
    }
    AddLast(rest, a + more);
    NotYetThere(rest, a + more);
  }

  lemma MergeLastFiles(m: Manifest) returns (k: Manifest)
    requires HexHashes(m) && |SortedPaths(m.files.Keys)| >= 2
    ensures HexHashes(k) && ManifestText(k) == ManifestText(m) && |k.files| < |m.files|
  {
    hide IsHash, SortedPaths, ManifestText, Ascending;
    var ps := SortedPaths(m.files.Keys);
    var n := |ps| - 2;
    var a, b := ps[n], ps[n + 1];
    assert a in ps && b in ps && a in m.files && b in m.files;
    var more := ":" + m.files[a].hash + "\n" + b;
    ReplaceLastTwo(m.files.Keys, more);
    var rest := m.files.Keys - {b} - {a};
    k := m.(files := (m.files - {b} - {a})[a + more := m.files[b]]);
    assert k.files.Keys == rest + {a + more};
    hide HexHashes;
    MergedFileLines(m, k, a, b, more);
    TwoGone(m.files.Keys, a, b, n);
    assert |k.files| == |k.files.Keys| && |m.files| == |m.files.Keys|;
    MergedHashes(m, k, rest, a + more, b);
  }

  lemma MergedHashes(m: Manifest, k: Manifest, rest: set<string>, x: string, b: string)
    requires HexHashes(m) && b in m.files && rest <= m.files.Keys && k.files.Keys == rest + {x}
    requires k.files[x].hash == m.files[b].hash && forall q :: q in rest && q != x ==>
        k.files[q].hash == m.files[q].hash
    ensures HexHashes(k)
  {
    hide IsHash;
  }

  lemma TwoGone(s: set<string>, a: string, b: string, n: nat)
    requires n + 1 < |SortedPaths(s)| && a == SortedPaths(s)[n] && b == SortedPaths(s)[n + 1]
    ensures |s| == |s - {b} - {a}| + 2
  {
    var ps := SortedPaths(s);
    assert a in s && b in s && Less(a, b);
    assert a in s - {b};
  }

  lemma MergedFileLines(m: Manifest, k: Manifest, a: string, b: string, more: string)
    requires a in m.files && b in m.files && more == ":" + m.files[a].hash + "\n" + b
    requires
      var rest := m.files.Keys - {b} - {a};
      && SortedPaths(m.files.Keys) == SortedPaths(rest) + [a, b]
      && SortedPaths(k.files.Keys) == SortedPaths(rest) + [a + more] && k.files.Keys == rest + {a + more}
      && (forall q :: q in rest ==> k.files[q].hash == m.files[q].hash) && k.files[a + more].hash == m.files[b].hash
    requires k.dirs == m.dirs
    ensures ManifestText(k) == ManifestText(m)
  {
    hide SortedPaths, JoinLines, DirLines, Ascending;
    var rest := SortedPaths(m.files.Keys - {b} - {a});
    var x, y := FileLine(a, m.files[a].hash), FileLine(b, m.files[b].hash);
    assert forall q :: q in rest <==> q in m.files.Keys - {b} - {a};
    var before, after := FileLines(rest, m.files), DirLines(m.dirs);
    TwoMoreLines(rest, m.files, a, b);
    MergedFileLine(a, m.files[a].hash, b, m.files[b].hash);
    hide FileLine, FileLines;
    FileLinesAppend(rest, m.files, a + more, k.files);
    assert (before + [x, y]) + after == before + ([x, y] + after);
    assert (before + [x + "\n" + y]) + after == before + ([x + "\n" + y] + after);
    MergedLines(before, x, y, after);
  }

  lemma TwoMoreLines(rest: seq<string>, files: Files, a: string, b: string)
    requires a in files && b in files && forall q :: q in rest ==> q in files
    ensures FileLines(rest + [a, b], files) ==
            FileLines(rest, files) + [FileLine(a, files[a].hash), FileLine(b, files[b].hash)]
  {
    hide FileLine, FileLines;
    FileLinesAppend(rest, files, a, files);
    FileLinesAppend(rest + [a], files, b, files);
    assert rest + [a] + [b] == rest + [a, b];
  }

  lemma MergedFileLine(a: string, h: string, b: string, g: string)
    ensures FileLine(a + (":" + h + "\n" + b), g) == FileLine(a, h) + "\n" + FileLine(b, g)
  {
  }

  lemma MergedDirLine(d: string, e: string)
    ensures DirLine(d + "\n" + DirLine(e)) == DirLine(d) + "\n" + DirLine(e)
  {
  }

  lemma DirLinesOf(d: string, dirs: seq<string>)
    ensures DirLines([d] + dirs) == [DirLine(d)] + DirLines(dirs)
  {
  }

  lemma MergeFirstDirs(m: Manifest) returns (k: Manifest)
    requires |m.dirs| >= 2
    ensures k.files == m.files && ManifestText(k) == ManifestText(m) && |k.dirs| < |m.dirs|
  {
    hide JoinLines, FileLines, SortedPaths, DirLines, DirLine;
    var d, e := m.dirs[0], m.dirs[1];
    var merged, others := d + "\n" + DirLine(e), m.dirs[2..];
    k := m.(dirs := [merged] + others);
    var before, after := FileLines(SortedPaths(m.files.Keys), m.files), DirLines(others);
    assert m.dirs == [d] + ([e] + others);
    DirLinesOf(d, [e] + others);
    DirLinesOf(e, others);
    DirLinesOf(merged, others);
    MergedDirLine(d, e);
    assert [DirLine(d)] + ([DirLine(e)] + after) == [DirLine(d), DirLine(e)] + after;
    MergedLines(before, DirLine(d), DirLine(e), after);
  }

  lemma OneFileText(name: string, k: Manifest)
    requires k.files.Keys == {name} && k.dirs == []
    ensures ManifestText(k) == FileLine(name, k.files[name].hash) + "\n"
  {
    LeqReflexive(name);
    AscendingUnique(SortedPaths(k.files.Keys), [name]);
    assert ManifestLines(k) == [FileLine(name, k.files[name].hash)];
    OneLineText(ManifestLines(k));
  }

  /** A folder whose line ends in a hash, behind at most one file: all of it one file's name. */
  lemma AllInOneName(m: Manifest) returns (k: Manifest)
    requires |SortedPaths(m.files.Keys)| <= 1 && |m.dirs| == 1 && IsHash(HashIn(m.dirs[0]))
    ensures HexHashes(k) && ManifestText(k) == ManifestText(m) && k.dirs == []
  {
    hide ManifestLines, SortedPaths, JoinLines, FileLine, DirLine, PathIn, HashIn, IsHash;
    var lines := ManifestLines(m);
    LineCount(m);
    var n := |lines| - 1;
    var d := m.dirs[0];
    ManifestLine(m, n);
    DirLineAsFileLine(d);
    var before := JoinLines(lines[..n]);
    JoinLinesAppend(lines[..n], lines[n]);
    assert lines == lines[..n] + [lines[n]];
    k := Manifest(0, map[before + PathIn(d) := FileEntry(0, HashIn(d), [], 1, 0)], []);
    OneFileText(before + PathIn(d), k);
    LongerName(before, PathIn(d), HashIn(d));
  }

  /**
   Once names may hold newlines, as file systems other than Windows' allow, two neighbouring files, or
   two neighbouring folders, are also one with a longer name. Only saves of at most one file and one
   folder are told from all others, and those exactly if neither line reads as the other kind's.
   */
  lemma TextDeterminesContentAmongAllIff(m: Manifest)
    requires Genuine(m)
    ensures DeterminedAmongAll(m) <==> AtMostOneEach(m)
  {
    hide ManifestText, ReadsAsDir, Ascending, IsHash, HashIn, SortedPaths, Tidy;
    var ps := SortedPaths(m.files.Keys);
    if AtMostOneEach(m) {
      OneEachIsDetermined(m);
    } else if |ps| > 1 {
      var k := MergeLastFiles(m);
      SameContentSameSize(m, k);
    } else if |m.dirs| > 1 {
      var k := MergeFirstDirs(m);
    } else if p :| p in m.files && ReadsAsDir(p) {
      assert p in ps;
      LastFileAsDirCollides(m);
    } else {
      var k := AllInOneName(m);
    }
  }

  lemma SameContentSameSize(m: Manifest, k: Manifest)
    ensures SameContent(m.files, k.files) ==> |m.files| == |k.files|
  {
    if SameContent(m.files, k.files) {
      assert |m.files| == |m.files.Keys| && |k.files| == |k.files.Keys|;
    }
  }

  // ----- The smallest cases

  /** One file named a, a colon, a hash, a newline and b, against two files a and b. */
  lemma NewlineInNameCollides(h1: string, h2: string, e1: FileEntry, e2: FileEntry, t: int)
    requires e1.hash == h1 && e2.hash == h2 && IsHash(h1) && IsHash(h2)
    ensures
      var one := Manifest(t, map["a:" + h1 + "\n" + "b" := e2], []);
      var two := Manifest(t, map["a" := e1, "b" := e2], []);
      ManifestText(one) == ManifestText(two) && !SameContent(one.files, two.files)
  {
    var name := "a:" + h1 + "\n" + "b";
    var one := Manifest(t, map[name := e2], []);
    var two := Manifest(t, map["a" := e1, "b" := e2], []);
    OneFileText(name, one);
    TwoFilesText(two);
    assert FileLine(name, h2) + "\n" == FileLine("a", h1) + "\n" + FileLine("b", h2) + "\n";
    assert "a" in two.files && "a" !in one.files by {
      assert |name| > 1;
    }
  }

  lemma TwoFilesText(m: Manifest)
    requires m.files.Keys == {"a", "b"} && m.dirs == []
    ensures ManifestText(m) == FileLine("a", m.files["a"].hash) + "\n" + FileLine("b", m.files["b"].hash) + "\n"
  {
    LeqReflexive("a");
    assert Less("a", "b");
    AscendingUnique(SortedPaths(m.files.Keys), ["a", "b"]);
    var first, second := FileLine("a", m.files["a"].hash), FileLine("b", m.files["b"].hash);
    assert ManifestLines(m) == [first] + [second];
    hide FileLine, ManifestLines;
    JoinLinesAppend([first], second);
    OneLineText([first]);
  }

  /** A file named "dir" with content hash h, and an empty directory named h: both can be on disk. */
  lemma FileNamedDirCollides(h: string, e: FileEntry, t: int)
    requires e.hash == h && IsHash(h)
    ensures
      var withFile := Manifest(t, map["dir" := e], []);
      var withDir := Manifest(t, map[], [h]);
      ManifestText(withFile) == ManifestText(withDir) && !SameContent(withFile.files, withDir.files)
  {
    var withFile := Manifest(t, map["dir" := e], []);
    var withDir := Manifest(t, map[], [h]);
    LeqReflexive("dir");
    AscendingUnique(SortedPaths(withFile.files.Keys), ["dir"]);
    AscendingUnique(SortedPaths(withDir.files.Keys), []);
    assert ManifestLines(withFile) == [FileLine("dir", h)];
    assert ManifestLines(withDir) == [DirLine(h)];
    assert FileLine("dir", h) == DirLine(h);
    assert "dir" in withFile.files;
  }
}
