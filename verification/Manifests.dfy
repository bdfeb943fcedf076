/**
 Save manifests (internal/delta/manifest.go): the records both devices exchange, and the single
 hash that summarises one. SHA-256 is a parameter `sha`; the only thing ever assumed of it is that
 it does not collide on the particular texts a statement is about.
 */
module Manifests {
  import opened Basics
  import opened TextOrder

  datatype Block = Block(index: int, hash: string, length: nat)

  datatype FileEntry = FileEntry(size: nat, hash: string, blocks: seq<Block>, blockSize: int, mtimeMs: int)

  type Files = map<string, FileEntry>

  datatype Manifest = Manifest(latestMtime: int, files: Files, dirs: seq<string>)

  /** Same paths with the same content hashes; modification times are irrelevant. */
  ghost predicate SameContent(a: Files, b: Files) {
    a.Keys == b.Keys && forall p :: p in a ==> a[p].hash == b[p].hash
  }

  // ----- The text that is hashed

  function FileLine(path: string, hash: string): string {
    path + ":" + hash
  }

  function DirLine(dir: string): string {
    "dir:" + dir
  }

  function FileLines(paths: seq<string>, files: Files): (r: seq<string>)
    requires forall p :: p in paths ==> p in files
    ensures |r| == |paths|
    ensures forall i :: 0 <= i < |r| ==> r[i] == FileLine(paths[i], files[paths[i]].hash)
  {
    seq(|paths|, i requires 0 <= i < |paths| => FileLine(paths[i], files[paths[i]].hash))
  }

  function DirLines(dirs: seq<string>): (r: seq<string>)
    ensures |r| == |dirs|
    ensures forall i :: 0 <= i < |r| ==> r[i] == DirLine(dirs[i])
  {
    seq(|dirs|, i requires 0 <= i < |dirs| => DirLine(dirs[i]))
  }

  /** The lines, each closed by a newline. */
  function JoinLines(lines: seq<string>): string {
    if lines == [] then "" else lines[0] + "\n" + JoinLines(lines[1..])
  }

  ghost function ManifestLines(m: Manifest): seq<string> {
    FileLines(SortedPaths(m.files.Keys), m.files) + DirLines(m.dirs)
  }

  ghost function ManifestText(m: Manifest): string {
    JoinLines(ManifestLines(m))
  }

  ghost function HashOf(sha: string -> string, m: Manifest): string {
    sha(ManifestText(m))
  }

  lemma {:induction false} JoinLinesAppend(lines: seq<string>, line: string)
    ensures JoinLines(lines + [line]) == JoinLines(lines) + line + "\n"
  {
    if lines == [] {
      assert [line][1..] == [];
    } else {
      JoinLinesAppend(lines[1..], line);
      assert (lines + [line])[1..] == lines[1..] + [line];
    }
  }

  /** One line written after the first i. */
  lemma LinesStep(lines: seq<string>, i: nat)
    requires i < |lines|
    ensures JoinLines(lines[..i + 1]) == JoinLines(lines[..i]) + (lines[i] + "\n")
  {
    JoinLinesAppend(lines[..i], lines[i]);
    assert lines[..i + 1] == lines[..i] + [lines[i]];
    assert JoinLines(lines[..i]) + lines[i] + "\n" == JoinLines(lines[..i]) + (lines[i] + "\n");
  }

  method PathList(files: Files) returns (paths: seq<string>)
    ensures NoDuplicates(paths) && forall p :: p in paths <==> p in files
  {
    paths := [];
    var todo := files.Keys;
    while todo != {}
      invariant todo <= files.Keys
      invariant NoDuplicates(paths)
      invariant forall p :: p in paths <==> p in files.Keys - todo
      decreases |todo|
    {
      var p :| p in todo;
      NoDuplicatesAppend(paths, p);
      paths := paths + [p];
      todo := todo - {p};
    }
  }

  /** The writes into the hash: one line per path, then one per directory. */
  method WriteLines(sorted: seq<string>, m: Manifest) returns (text: string)
    requires forall p :: p in sorted ==> p in m.files
    ensures text == JoinLines(FileLines(sorted, m.files) + DirLines(m.dirs))
  {
    hide JoinLines, FileLine, DirLine;
    ghost var files, dirs := FileLines(sorted, m.files), DirLines(m.dirs);
    ghost var lines := files + dirs;
    text := "";
    NoLines(lines);
    for i := 0 to |sorted|
      invariant text == JoinLines(lines[..i])
    {
      LinesStep(lines, i);
      assert lines[i] == files[i] == FileLine(sorted[i], m.files[sorted[i]].hash);
      text := text + (FileLine(sorted[i], m.files[sorted[i]].hash) + "\n");
    }
    for i := 0 to |m.dirs|
      invariant text == JoinLines(lines[..|sorted| + i])
    {
      LinesStep(lines, |sorted| + i);
      assert lines[|sorted| + i] == dirs[i] == DirLine(m.dirs[i]);
      text := text + (DirLine(m.dirs[i]) + "\n");
    }
    assert lines[..|sorted| + |m.dirs|] == lines;
  }

  lemma NoLines(lines: seq<string>)
    ensures JoinLines(lines[..0]) == ""
  {
  }

  /** Collect the paths, sort them, and hash what they and the directories are written as. */
  method ManifestHash(m: Manifest, sha: string -> string) returns (h: string)
    ensures h == HashOf(sha, m)
  {
    var paths := PathList(m.files);
    var sorted := SortStrings(paths);
    SortedWithoutDuplicates(paths, sorted);
    AscendingUnique(sorted, SortedPaths(m.files.Keys));
    var text := WriteLines(sorted, m);
    h := sha(text);
  }

  // ----- The text determines the content

  const DirPrefix: string := "dir:"

  /** A path whose line could be taken for a directory line. */
  ghost predicate ReadsAsDir(path: string) {
    DirPrefix <= path + ":"
  }

  /** Names without a newline, and hashes without newline or colon, as hex encoding gives. */
  ghost predicate Tidy(m: Manifest) {
    && (forall p :: p in m.files ==> '\n' !in p)
    && (forall p :: p in m.files ==> '\n' !in m.files[p].hash && ':' !in m.files[p].hash)
    && (forall d :: d in m.dirs ==> '\n' !in d)
  }

  /** What Go's file walk and hex encoding give on an ordinary save folder. */
  ghost predicate Plain(m: Manifest) {
    Tidy(m) && forall p :: p in m.files ==> !ReadsAsDir(p)
  }

  ghost predicate NewlineFree(lines: seq<string>) {
    forall i :: 0 <= i < |lines| ==> '\n' !in lines[i]
  }

  /** A newline-free head followed by a newline is read back in one way only. */
  lemma {:induction false} HeadUnique(a: string, x: string, b: string, y: string)
    requires '\n' !in a && '\n' !in b
    requires a + "\n" + x == b + "\n" + y
    ensures a == b && x == y
  {
    var s, t := a + "\n" + x, b + "\n" + y;
    assert s[|a|] == '\n' && t[|b|] == '\n';
    assert forall i :: 0 <= i < |a| ==> s[i] == a[i] && a[i] in a;
    assert forall i :: 0 <= i < |b| ==> t[i] == b[i] && b[i] in b;
    assert |a| == |b|;
    assert a == s[..|a|] && b == t[..|b|];
    assert x == s[|a| + 1..] && y == t[|b| + 1..];
  }

  lemma {:induction false} JoinLinesInjective(a: seq<string>, b: seq<string>)
    requires NewlineFree(a) && NewlineFree(b)
    requires JoinLines(a) == JoinLines(b)
    ensures a == b
  {
    if a != [] && b != [] {
      HeadUnique(a[0], JoinLines(a[1..]), b[0], JoinLines(b[1..]));
      JoinLinesInjective(a[1..], b[1..]);
      assert a == [a[0]] + a[1..] && b == [b[0]] + b[1..];
    }
  }

  lemma NoColonAfterPath(p: string, h: string, i: int)
    requires ':' !in h && |p| < i < |FileLine(p, h)|
    ensures FileLine(p, h)[i] != ':'
  {
    assert FileLine(p, h)[i] == h[i - |p| - 1];
  }

  /** The hash has no colon, so the last colon of a file line ends the path. */
  lemma FileLineInjective(p: string, h: string, q: string, k: string)
    requires ':' !in h && ':' !in k
    requires FileLine(p, h) == FileLine(q, k)
    ensures p == q && h == k
  {
    var s, t := FileLine(p, h), FileLine(q, k);
    assert s[|p|] == ':' && t[|q|] == ':';
    if |p| < |q| {
      NoColonAfterPath(p, h, |q|);
    } else if |q| < |p| {
      NoColonAfterPath(q, k, |p|);
    }
    assert p == s[..|p|] && q == t[..|q|];
    assert h == s[|p| + 1..] && k == t[|q| + 1..];
  }

  lemma LinesNewlineFree(m: Manifest)
    requires Tidy(m)
    ensures NewlineFree(ManifestLines(m))
  {
    var paths := SortedPaths(m.files.Keys);
    forall i | 0 <= i < |ManifestLines(m)| ensures '\n' !in ManifestLines(m)[i] {
      if i < |paths| {
        assert paths[i] in m.files;
      } else {
        assert m.dirs[i - |paths|] in m.dirs;
      }
    }
  }

  lemma FileLineIsNotDirLine(path: string, hash: string, dir: string)
    requires !ReadsAsDir(path)
    ensures FileLine(path, hash) != DirLine(dir)
  {
    var head := path + ":";
    assert FileLine(path, hash) == head + hash;
    assert DirLine(dir)[..4] == DirPrefix;
    if |path| >= 3 {
      assert head != DirPrefix ==> exists i :: 0 <= i < 4 && head[i] != DirPrefix[i];
      var i :| 0 <= i < 4 && head[i] != DirPrefix[i];
      assert FileLine(path, hash)[i] == head[i] && DirLine(dir)[i] == DirPrefix[i];
    } else {
      assert FileLine(path, hash)[|path|] == ':';
      assert DirLine(dir)[|path|] == DirPrefix[|path|];
    }
  }

  /** Line by line: the files in ascending order, then the directories. */
  lemma ManifestLine(m: Manifest, i: nat)
    requires i < |ManifestLines(m)|
    ensures |ManifestLines(m)| == |SortedPaths(m.files.Keys)| + |m.dirs|
    ensures
      var ps := SortedPaths(m.files.Keys);
      if i < |ps| then ps[i] in m.files && ManifestLines(m)[i] == FileLine(ps[i], m.files[ps[i]].hash)
      else m.dirs[i - |ps|] in m.dirs && ManifestLines(m)[i] == DirLine(m.dirs[i - |ps|])
  {
  }

  /** Equal texts are equal lines. */
  lemma SameTextSameLines(m: Manifest, k: Manifest)
    requires Tidy(m) && Tidy(k)
    ensures ManifestText(m) == ManifestText(k) <==> ManifestLines(m) == ManifestLines(k)
  {
    hide ManifestLines, Tidy;
    LinesNewlineFree(m);
    LinesNewlineFree(k);
    if ManifestText(m) == ManifestText(k) {
      JoinLinesInjective(ManifestLines(m), ManifestLines(k));
    }
  }

  /** Neither manifest's file part can reach into the other's directory part. */
  lemma FilePartNotLonger(m: Manifest, k: Manifest)
    requires Plain(m) && Plain(k)
    requires ManifestLines(m) == ManifestLines(k)
    ensures |SortedPaths(m.files.Keys)| <= |SortedPaths(k.files.Keys)|
  {
    hide ManifestLines, ReadsAsDir;
    var ps, qs := SortedPaths(m.files.Keys), SortedPaths(k.files.Keys);
    if |qs| < |ps| {
      var i := |qs|;
      LineCount(m);
      ManifestLine(m, i);
      ManifestLine(k, i);
      FileLineIsNotDirLine(ps[i], m.files[ps[i]].hash, k.dirs[0]);
    }
  }

  lemma LineCount(m: Manifest)
    ensures |ManifestLines(m)| == |SortedPaths(m.files.Keys)| + |m.dirs|
  {
  }

  /** A line that is a file line in both manifests names one file with one hash. */
  lemma SameFileLine(m: Manifest, k: Manifest, i: nat)
    requires Tidy(m) && Tidy(k) && ManifestLines(m) == ManifestLines(k)
    requires i < |SortedPaths(m.files.Keys)| && i < |SortedPaths(k.files.Keys)|
    ensures
      var ps, qs := SortedPaths(m.files.Keys), SortedPaths(k.files.Keys);
      ps[i] == qs[i] && ps[i] in m.files && ps[i] in k.files && m.files[ps[i]].hash == k.files[ps[i]].hash
  {
    hide ManifestLines;
    var ps, qs := SortedPaths(m.files.Keys), SortedPaths(k.files.Keys);
    LineCount(m);
    ManifestLine(m, i);
    ManifestLine(k, i);
    FileLineInjective(ps[i], m.files[ps[i]].hash, qs[i], k.files[qs[i]].hash);
  }

  lemma SamePaths(m: Manifest, k: Manifest)
    requires Tidy(m) && Tidy(k) && ManifestLines(m) == ManifestLines(k)
    requires |SortedPaths(m.files.Keys)| == |SortedPaths(k.files.Keys)|
    ensures SortedPaths(m.files.Keys) == SortedPaths(k.files.Keys)
  {
    hide ManifestLines, Tidy;
    var ps, qs := SortedPaths(m.files.Keys), SortedPaths(k.files.Keys);
    forall i | 0 <= i < |ps| ensures ps[i] == qs[i] {
      SameFileLine(m, k, i);
    }
  }

  lemma SameFilePart(m: Manifest, k: Manifest)
    requires Tidy(m) && Tidy(k) && ManifestLines(m) == ManifestLines(k)
    requires |SortedPaths(m.files.Keys)| == |SortedPaths(k.files.Keys)|
    ensures SameContent(m.files, k.files)
  {
    hide ManifestLines, Tidy, Ascending;
    SamePaths(m, k);
    var ps := SortedPaths(m.files.Keys);
    assert forall p :: p in m.files.Keys <==> p in ps;
    assert forall p :: p in k.files.Keys <==> p in ps;
    assert m.files.Keys == k.files.Keys;
    forall p | p in m.files ensures m.files[p].hash == k.files[p].hash {
      var i :| 0 <= i < |ps| && ps[i] == p;
      SameFileLine(m, k, i);
    }
  }

  lemma SameDirLine(m: Manifest, k: Manifest, j: nat)
    requires ManifestLines(m) == ManifestLines(k) && |SortedPaths(m.files.Keys)| == |SortedPaths(k.files.Keys)|
    requires j < |m.dirs| == |k.dirs|
    ensures m.dirs[j] == k.dirs[j]
  {
    hide ManifestLines;
    var n := |SortedPaths(m.files.Keys)|;
    LineCount(m);
    ManifestLine(m, n + j);
    ManifestLine(k, n + j);
    DirLineInjective(m.dirs[j], k.dirs[j]);
  }

  lemma DirLineInjective(a: string, b: string)
    requires DirLine(a) == DirLine(b)
    ensures a == b
  {
    assert a == DirLine(a)[4..] && b == DirLine(b)[4..];
  }

  lemma SameDirPart(m: Manifest, k: Manifest)
    requires ManifestLines(m) == ManifestLines(k) && |SortedPaths(m.files.Keys)| == |SortedPaths(k.files.Keys)|
    ensures m.dirs == k.dirs
  {
    hide ManifestLines, SortedPaths;
    LineCount(m);
    LineCount(k);
    forall j | 0 <= j < |m.dirs| ensures m.dirs[j] == k.dirs[j] {
      SameDirLine(m, k, j);
    }
  }

  /**
   On ordinary names the serialisation is injective: equal texts mean equal paths, equal content
   hashes and equal directory lists, whatever the modification times, sizes and block lists.
   */
  lemma TextDeterminesContent(m: Manifest, k: Manifest)
    requires Plain(m) && Plain(k)
    requires ManifestText(m) == ManifestText(k)
    ensures SameContent(m.files, k.files) && m.dirs == k.dirs
  {
    hide ManifestLines, Tidy, ReadsAsDir, ManifestText;
    SameTextSameLines(m, k);
    FilePartNotLonger(m, k);
    FilePartNotLonger(k, m);
    SameFilePart(m, k);
    SameDirPart(m, k);
  }

  /** Conversely, only paths, hashes and directories enter the text. */
  lemma ContentDeterminesText(m: Manifest, k: Manifest)
    requires SameContent(m.files, k.files) && m.dirs == k.dirs
    ensures ManifestText(m) == ManifestText(k)
  {
    var ps := SortedPaths(m.files.Keys);
    assert FileLines(ps, m.files) == FileLines(ps, k.files);
  }

  /** sha does not give m and k the same hash unless their texts are the same. */
  ghost predicate NoCollision(sha: string -> string, m: Manifest, k: Manifest) {
    sha(ManifestText(m)) == sha(ManifestText(k)) ==> ManifestText(m) == ManifestText(k)
  }

  /** Without directories, newline-free names are enough: nothing can read as a directory line. */
  lemma EqualHashWithoutDirsIff(sha: string -> string, m: Manifest, k: Manifest)
    requires Tidy(m) && Tidy(k) && m.dirs == k.dirs == [] && NoCollision(sha, m, k)
    ensures HashOf(sha, m) == HashOf(sha, k) <==> SameContent(m.files, k.files)
  {
    hide ManifestLines, Tidy, SortedPaths;
    if ManifestText(m) == ManifestText(k) {
      SameTextSameLines(m, k);
      LineCount(m);
      LineCount(k);
      SameFilePart(m, k);
    }
    if SameContent(m.files, k.files) {
      ContentDeterminesText(m, k);
    }
  }

  /** What the sync engine relies on when it compares two manifest hashes. */
  lemma EqualHashIffEqualContent(sha: string -> string, m: Manifest, k: Manifest)
    requires Plain(m) && Plain(k) && NoCollision(sha, m, k)
    ensures HashOf(sha, m) == HashOf(sha, k) <==> SameContent(m.files, k.files) && m.dirs == k.dirs
  {
    if ManifestText(m) == ManifestText(k) {
      TextDeterminesContent(m, k);
    }
    if SameContent(m.files, k.files) && m.dirs == k.dirs {
      ContentDeterminesText(m, k);
    }
  }
}
