/**
 Snapshot archives (internal/snapshot/zip.go): a save as a list of named entries, and back, with
 the choice between file and folder mode that extraction makes from the target and the archive.
 */
module Archives {
  import opened Basics
  import opened SaveTrees

  datatype Entry = DirEntry(path: Path) | FileEntry(path: Path, data: bytes)

  /** Exactly the files and folders of a tree, each once, in any order. */
  ghost predicate Lists(entries: seq<Entry>, tree: Tree) {
    && (forall i, j :: 0 <= i < j < |entries| ==> entries[i].path != entries[j].path)
    && (forall e :: e in entries ==> EntryOf(e, tree))
    && (forall p :: p in tree.dirs ==> DirEntry(p) in entries)
    && (forall p :: p in tree.files ==> FileEntry(p, tree.files[p]) in entries)
  }

  predicate EntryOf(e: Entry, tree: Tree) {
    match e
    case DirEntry(p) => p in tree.dirs
    case FileEntry(p, data) => p in tree.files && tree.files[p] == data
  }

  /** What is wrong with a file right now: it cannot be opened, or reading it fails after n bytes. */
  datatype Fault = CannotOpen | CutAt(n: nat)

  type Faults = map<Path, Fault>

  predicate Opens(faults: Faults, p: Path) {
    p in faults ==> faults[p].CutAt?
  }

  /** What of a file gets into the archive; a failed read leaves what was copied before it. */
  function ReadAs(faults: Faults, p: Path, data: bytes): bytes
    requires Opens(faults, p)
  {
    if p in faults && faults[p].n < |data| then data[..faults[p].n] else data
  }

  /** The tree without the files that cannot be opened, and with the others as far as they can be read. */
  function Readable(tree: Tree, base: string, faults: Faults): Tree {
    tree.(files := map p | p in tree.files && Opens(faults, [base] + p) :: ReadAs(faults, [base] + p, tree.files[p]))
  }

  /** What an archive of a save holds; a folder is archived as its contents, without its own name. */
  ghost predicate ArchiveOf(entries: seq<Entry>, s: Save, base: string, faults: Faults) {
    match s
    case Missing => false
    case File(data) => entries == [FileEntry([base], data)] && [base] !in faults
    case Folder(tree) =>
      && Lists(entries, Readable(tree, base, faults))
      && (tree.files != map[] ==> exists p :: p in tree.files && [base] + p !in faults)
  }

  function With(tree: Tree, e: Entry): Tree {
    match e
    case DirEntry(p) => tree.(dirs := tree.dirs + {p})
    case FileEntry(p, data) => tree.(files := tree.files[p := data])
  }

  lemma ListsAdd(entries: seq<Entry>, tree: Tree, e: Entry)
    requires Lists(entries, tree) && !Has(tree, e.path)
    ensures Lists(entries + [e], With(tree, e))
  {
    var more, bigger := entries + [e], With(tree, e);
    forall i | 0 <= i < |entries| ensures entries[i].path != e.path {
      assert entries[i] in entries;
      assert EntryOf(entries[i], tree);
    }
    assert forall d :: d in entries ==> EntryOf(d, tree);
  }

  function Only(tree: Tree, paths: set<Path>): Tree {
    Tree(tree.dirs * paths, map p | p in tree.files && p in paths :: tree.files[p])
  }

  /** The walk so far: done has been visited. */
  ghost predicate Walked(entries: seq<Entry>, archived: nat, skipped: seq<Path>,
                         tree: Tree, base: string, faults: Faults, done: set<Path>)
  {
    && Lists(entries, Only(Readable(tree, base, faults), done))
    && (archived == 0 <==> forall p :: p in tree.files && p in done ==> [base] + p in faults)
    && (skipped == [] <==> forall p :: p in tree.files && p in done ==> [base] + p !in faults)
  }

  lemma WalkDir(entries: seq<Entry>, archived: nat, skipped: seq<Path>,
                tree: Tree, base: string, faults: Faults, done: set<Path>, p: Path)
    requires Walked(entries, archived, skipped, tree, base, faults, done)
    requires p in tree.dirs && p !in tree.files && p !in done
    ensures Walked(entries + [DirEntry(p)], archived, skipped, tree, base, faults, done + {p})
  {
    hide Lists;
    var before := Only(Readable(tree, base, faults), done);
    ListsAdd(entries, before, DirEntry(p));
    assert Only(Readable(tree, base, faults), done + {p}) == With(before, DirEntry(p));
  }

  /** One more file that can be opened, with what could be read of it. */
  lemma WalkOpened(entries: seq<Entry>, tree: Tree, base: string, faults: Faults, done: set<Path>, p: Path)
    requires Lists(entries, Only(Readable(tree, base, faults), done))
    requires p in tree.files && p !in tree.dirs && p !in done && Opens(faults, [base] + p)
    ensures Lists(entries + [FileEntry(p, ReadAs(faults, [base] + p, tree.files[p]))],
                  Only(Readable(tree, base, faults), done + {p}))
  {
    hide Lists, ReadAs, Opens;
    var before := Only(Readable(tree, base, faults), done);
    var e := FileEntry(p, ReadAs(faults, [base] + p, tree.files[p]));
    ListsAdd(entries, before, e);
    assert Only(Readable(tree, base, faults), done + {p}) == With(before, e);
  }

  lemma WalkFile(entries: seq<Entry>, archived: nat, skipped: seq<Path>,
                 tree: Tree, base: string, faults: Faults, done: set<Path>, p: Path)
    requires Walked(entries, archived, skipped, tree, base, faults, done)
    requires p in tree.files && p !in tree.dirs && p !in done && [base] + p !in faults
    ensures Walked(entries + [FileEntry(p, tree.files[p])], archived + 1, skipped, tree, base, faults, done + {p})
  {
    hide Lists, Readable;
    WalkOpened(entries, tree, base, faults, done, p);
  }

  lemma WalkCut(entries: seq<Entry>, archived: nat, skipped: seq<Path>,
                tree: Tree, base: string, faults: Faults, done: set<Path>, p: Path)
    requires Walked(entries, archived, skipped, tree, base, faults, done)
    requires p in tree.files && p !in tree.dirs && p !in done && [base] + p in faults && Opens(faults, [base] + p)
    ensures Walked(entries + [FileEntry(p, ReadAs(faults, [base] + p, tree.files[p]))], archived, skipped + [p],
                   tree, base, faults, done + {p})
  {
    hide Lists, Readable, ReadAs;
    WalkOpened(entries, tree, base, faults, done, p);
  }

  lemma WalkUnopened(entries: seq<Entry>, archived: nat, skipped: seq<Path>,
                     tree: Tree, base: string, faults: Faults, done: set<Path>, p: Path)
    requires Walked(entries, archived, skipped, tree, base, faults, done)
    requires p in tree.files && p !in tree.dirs && p !in done && !Opens(faults, [base] + p)
    ensures Walked(entries, archived, skipped + [p], tree, base, faults, done + {p})
  {
    hide Lists;
    assert Only(Readable(tree, base, faults), done + {p}) == Only(Readable(tree, base, faults), done);
  }

  lemma WalkStarts(tree: Tree, base: string, faults: Faults)
    ensures Walked([], 0, [], tree, base, faults, {})
  {
    assert Only(Readable(tree, base, faults), {}) == EmptyTree;
  }

  lemma WalkEnds(entries: seq<Entry>, archived: nat, skipped: seq<Path>, tree: Tree, base: string, faults: Faults)
    requires Walked(entries, archived, skipped, tree, base, faults, tree.dirs + tree.files.Keys)
    ensures Lists(entries, Readable(tree, base, faults))
    ensures archived > 0 || skipped == [] <==>
        (tree.files != map[] ==> exists p :: p in tree.files && [base] + p !in faults)
  {
    hide Lists;
    var kept := Readable(tree, base, faults);
    assert Only(kept, tree.dirs + tree.files.Keys) == kept;
    if tree.files != map[] {
      var p :| p in tree.files;
    }
  }

  /**
   Archive what is at the save path, leaving out what cannot be opened and cutting short what cannot be
   read to the end; an error if nothing is there or no file at all could be read whole. The walk goes top
   down by name; its order is left open.
   */
  method ZipPath(t: Tree, base: string, faults: Faults) returns (entries: seq<Entry>, ok: bool)
    requires WellFormed(t)
    ensures ok ==> ArchiveOf(entries, SaveOf(t, base), base, faults)
    ensures !ok ==> forall e :: !ArchiveOf(e, SaveOf(t, base), base, faults)
  {
    if [base] in t.files {
      ok := [base] !in faults;
      entries := if ok then [FileEntry([base], t.files[[base]])] else [];
      return;
    }
    if [base] !in t.dirs {
      return [], false;
    }
    BelowWellFormed(t, base);
    entries, ok := ZipFolder(Below(t, base), base, faults);
  }

  method ZipFolder(tree: Tree, base: string, faults: Faults) returns (entries: seq<Entry>, ok: bool)
    requires WellFormed(tree)
    ensures ok ==> ArchiveOf(entries, Folder(tree), base, faults)
    ensures !ok ==> forall e :: !ArchiveOf(e, Folder(tree), base, faults)
  {
    hide Lists, Readable, Walked;
    var todo := tree.dirs + tree.files.Keys;
    var archived, skipped := 0, [];
    entries := [];
    ghost var done := {};
    WalkStarts(tree, base, faults);
    while todo != {}
      invariant done !! todo && done + todo == tree.dirs + tree.files.Keys
      invariant Walked(entries, archived, skipped, tree, base, faults, done)
      decreases |todo|
    {
      var p :| p in todo;
      if p in tree.dirs {
        WalkDir(entries, archived, skipped, tree, base, faults, done, p);
        entries := entries + [DirEntry(p)];
      } else if [base] + p in faults {
        if faults[[base] + p].CannotOpen? {
          WalkUnopened(entries, archived, skipped, tree, base, faults, done, p);
        } else {
          WalkCut(entries, archived, skipped, tree, base, faults, done, p);
          entries := entries + [FileEntry(p, ReadAs(faults, [base] + p, tree.files[p]))];
        }
        skipped := skipped + [p];
      } else {
        WalkFile(entries, archived, skipped, tree, base, faults, done, p);
        entries := entries + [FileEntry(p, tree.files[p])];
        archived := archived + 1;
      }
      done := done + {p};
      todo := todo - {p};
    }
    assert done == tree.dirs + tree.files.Keys;
    WalkEnds(entries, archived, skipped, tree, base, faults);
    ok := archived > 0 || |skipped| == 0;
  }

  // ----- Extraction

  predicate DotDot(name: string) {
    ".." <= name
  }

  /** os.MkdirAll: the folder and everything on the way, unless a file is in the way. */
  function MakeDirs(t: Tree, p: Path): Option<Tree> {
    if exists k | 1 <= k <= |p| :: p[..k] in t.files then None
    else Some(t.(dirs := t.dirs + set k | 1 <= k <= |p| :: p[..k]))
  }

  /** Names starting with two dots are refused, whether or not they leave the destination. */
  function ExtractEntry(t: Tree, prefix: Path, e: Entry): Option<Tree> {
    if e.path == [] || DotDot(e.path[0]) then None
    else
      var dest := prefix + e.path;
      match e
      case DirEntry(_) => MakeDirs(t, dest)
      case FileEntry(_, data) =>
        match MakeDirs(t, dest[..|dest| - 1])
        case None => None
        case Some(made) => if dest in made.dirs then None else Some(made.(files := made.files[dest := data]))
  }

  /** Entry by entry up to the first that fails. */
  function Extract(t: Tree, prefix: Path, entries: seq<Entry>): (Tree, bool)
    decreases |entries|
  {
    if entries == [] then (t, true)
    else
      match ExtractEntry(t, prefix, entries[0])
      case None => (t, false)
      case Some(next) => Extract(next, prefix, entries[1..])
  }

  predicate FileMode(t: Tree, base: string, entries: seq<Entry>) {
    if [base] in t.files || [base] in t.dirs then [base] in t.files
    else |entries| == 1 && entries[0].FileEntry?
  }

  /** The target removed or emptied, ready for the entries. */
  function Prepared(t: Tree, base: string, entries: seq<Entry>): Tree {
    if FileMode(t, base, entries) then t.(files := t.files - {[base]})
    else Cleared(t.(dirs := t.dirs + {[base]}), base)
  }

  function Unzipped(t: Tree, base: string, entries: seq<Entry>): (Tree, bool) {
    Extract(Prepared(t, base, entries), if FileMode(t, base, entries) then [] else [base], entries)
  }

  /** Extract an archive over the save; an archive that cannot be opened changes nothing. */
  method UnzipTo(archive: Option<seq<Entry>>, t: Tree, base: string) returns (r: Tree, ok: bool)
    ensures (r, ok) == if archive.Some? then Unzipped(t, base, archive.value) else (t, false)
  {
    if archive.None? {
      return t, false;
    }
    var entries := archive.value;
    var isFile := false;
    if [base] in t.files {
      isFile := true;
    } else if [base] !in t.dirs && |entries| == 1 && !entries[0].DirEntry? {
      isFile := true;
    }
    var prefix: Path := [];
    r := t;
    if isFile {
      if [base] in r.files {
        r := r.(files := r.files - {[base]});
      }
    } else {
      prefix := [base];
      r := Cleared(r.(dirs := r.dirs + {[base]}), base);
    }
    assert isFile == FileMode(t, base, entries);
    assert r == Prepared(t, base, entries);
    hide Prepared, FileMode;
    for i := 0 to |entries|
      invariant Extract(r, prefix, entries[i..]) == Unzipped(t, base, entries)
    {
      assert entries[i..][0] == entries[i] && entries[i..][1..] == entries[i + 1..];
      var next := ExtractEntry(r, prefix, entries[i]);
      if next.None? {
        return r, false;
      }
      r := next.value;
    }
    assert entries[|entries|..] == [];
    ok := true;
  }

  // ----- Extraction keeps the disk a tree

  lemma MakeDirsWellFormed(t: Tree, p: Path)
    requires WellFormed(t) && MakeDirs(t, p).Some?
    ensures WellFormed(MakeDirs(t, p).value)
    ensures p != [] ==> p in MakeDirs(t, p).value.dirs
  {
    var made := MakeDirs(t, p).value;
    forall q: Path, k: nat | Has(made, q) && 0 < k < |q| ensures q[..k] in made.dirs {
      if !Has(t, q) {
        var j :| 1 <= j <= |p| && q == p[..j];
        assert q[..k] == p[..k];
      }
    }
    assert p == p[..|p|];
  }

  lemma AddFileWellFormed(t: Tree, dest: Path, data: bytes)
    requires WellFormed(t) && dest != [] && dest !in t.dirs
    requires |dest| > 1 ==> dest[..|dest| - 1] in t.dirs
    ensures WellFormed(t.(files := t.files[dest := data]))
  {
    var after := t.(files := t.files[dest := data]);
    forall q: Path, k: nat | Has(after, q) && 0 < k < |q| ensures q[..k] in after.dirs {
      if q == dest && k < |dest| - 1 {
        var up := dest[..|dest| - 1];
        assert Has(t, up);
        assert up[..k] in t.dirs;
        assert up[..k] == q[..k];
      }
    }
  }

  lemma ExtractEntryWellFormed(t: Tree, prefix: Path, e: Entry)
    requires WellFormed(t) && ExtractEntry(t, prefix, e).Some?
    ensures WellFormed(ExtractEntry(t, prefix, e).value)
  {
    hide MakeDirs, WellFormed;
    var dest := prefix + e.path;
    if e.DirEntry? {
      MakeDirsWellFormed(t, dest);
    } else {
      var up := dest[..|dest| - 1];
      MakeDirsWellFormed(t, up);
      AddFileWellFormed(MakeDirs(t, up).value, dest, e.data);
    }
  }

  lemma {:induction false} ExtractWellFormed(t: Tree, prefix: Path, entries: seq<Entry>)
    requires WellFormed(t)
    ensures WellFormed(Extract(t, prefix, entries).0)
    decreases |entries|
  {
    hide ExtractEntry;
    if entries != [] && ExtractEntry(t, prefix, entries[0]).Some? {
      ExtractEntryWellFormed(t, prefix, entries[0]);
      ExtractWellFormed(ExtractEntry(t, prefix, entries[0]).value, prefix, entries[1..]);
    }
  }

  lemma UnzippedWellFormed(t: Tree, base: string, entries: seq<Entry>)
    requires WellFormed(t)
    ensures WellFormed(Unzipped(t, base, entries).0)
  {
    var ready := Prepared(t, base, entries);
    assert WellFormed(ready) by {
      if !FileMode(t, base, entries) {
        var made := t.(dirs := t.dirs + {[base]});
        assert WellFormed(made);
        ClearedKeepsShape(made, base);
      }
    }
    ExtractWellFormed(ready, if FileMode(t, base, entries) then [] else [base], entries);
  }
}
