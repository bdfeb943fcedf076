/** When extracting an archive brings back the save it was made of: exactly when, and what is left alone. */
module ArchiveRoundTrip {
  import opened Basics
  import opened SaveTrees
  import opened Archives

  /** The save that an archive made with some files faulty stands for. */
  function Archived(s: Save, base: string, faults: Faults): Save {
    if s.Folder? then Folder(Readable(s.tree, base, faults)) else s
  }

  ghost predicate WellFormedSave(s: Save) {
    s.Folder? ==> WellFormed(s.tree)
  }

  lemma ArchivedWellFormed(s: Save, base: string, faults: Faults)
    requires WellFormedSave(s)
    ensures WellFormedSave(Archived(s, base, faults))
  {
  }

  lemma ArchiveOfArchived(entries: seq<Entry>, s: Save, base: string, faults: Faults)
    requires ArchiveOf(entries, s, base, faults)
    ensures ArchiveOf(entries, Archived(s, base, faults), base, map[])
  {
    if s.Folder? {
      var kept := Readable(s.tree, base, faults);
      assert Readable(kept, base, map[]) == kept;
    }
  }

  /** An archive is the whole save exactly if every file could be opened and read to its end. */
  lemma ArchivedWholeIff(tree: Tree, base: string, faults: Faults)
    ensures Archived(Folder(tree), base, faults) == Folder(tree) <==>
            forall p :: p in tree.files && [base] + p in faults ==>
              faults[[base] + p].CutAt? && faults[[base] + p].n >= |tree.files[p]|
  {
    var kept := Readable(tree, base, faults);
    if forall p :: p in tree.files && [base] + p in faults ==>
        faults[[base] + p].CutAt? && faults[[base] + p].n >= |tree.files[p]| {
      assert kept.files == tree.files;
    } else {
      var p :| p in tree.files && [base] + p in faults &&
          !(faults[[base] + p].CutAt? && faults[[base] + p].n >= |tree.files[p]|);
      assert p in kept.files ==> |kept.files[p]| < |tree.files[p]|;
    }
  }

  /** No top-level name starts with two dots. */
  ghost predicate PlainTop(tree: Tree) {
    forall p :: Has(tree, p) && p != [] ==> !DotDot(p[0])
  }

  predicate OneFile(tree: Tree) {
    tree.dirs == {} && |tree.files| == 1
  }

  /** The save s comes back when it is extracted where target is now. */
  ghost predicate Restorable(s: Save, base: string, target: Save) {
    match s
    case Missing => false
    case File(_) => !target.Folder? && !DotDot(base)
    case Folder(tree) => (target.Folder? || (target.Missing? && !OneFile(tree))) && PlainTop(tree)
  }

  ghost predicate SameBeside(a: Tree, b: Tree, base: string) {
    forall p: Path :: p == [] || p[0] != base ==>
      && (p in a.dirs <==> p in b.dirs) && (p in a.files <==> p in b.files)
      && (p in a.files && p in b.files ==> a.files[p] == b.files[p])
  }

  // ----- Folder mode

  /** Inside base there is only what belongs to tree, and nothing else has changed since start. */
  ghost predicate Filling(cur: Tree, start: Tree, base: string, tree: Tree) {
    && WellFormed(cur) && [base] in cur.dirs && SameBeside(cur, start, base)
    && (forall q :: q in Below(cur, base).dirs ==> q in tree.dirs)
    && (forall q :: q in Below(cur, base).files ==> q in tree.files && Below(cur, base).files[q] == tree.files[q])
  }

  ghost predicate Grown(a: Tree, b: Tree) {
    && a.dirs <= b.dirs
    && forall p :: p in a.files ==> p in b.files
  }

  ghost predicate Placed(e: Entry, t: Tree, base: string) {
    if e.DirEntry? then [base] + e.path in t.dirs else [base] + e.path in t.files
  }

  lemma FillingDirs(cur: Tree, start: Tree, base: string, tree: Tree, q: Path)
    requires WellFormed(tree) && Filling(cur, start, base, tree) && (q == [] || q in tree.dirs)
    ensures MakeDirs(cur, [base] + q).Some?
    ensures Filling(MakeDirs(cur, [base] + q).value, start, base, tree)
    ensures Grown(cur, MakeDirs(cur, [base] + q).value) && [base] + q in MakeDirs(cur, [base] + q).value.dirs
    ensures MakeDirs(cur, [base] + q).value.files == cur.files
  {
    hide Below;
    var p := [base] + q;
    forall k | 1 <= k <= |p| ensures p[..k] !in cur.files && (p[..k] == [base] || p[..k][1..] in tree.dirs) {
      assert p[..k] == [base] + q[..k - 1];
      BelowHas(cur, base, q[..k - 1]);
      assert 0 < k - 1 < |q| ==> q[..k - 1] in tree.dirs;
      assert k == |p| ==> q[..k - 1] == q;
    }
    var made := MakeDirs(cur, p).value;
    MakeDirsWellFormed(cur, p);
    forall r | r in Below(made, base).dirs ensures r in tree.dirs {
      BelowHas(made, base, r);
      BelowHas(cur, base, r);
      var full := [base] + r;
      if full !in cur.dirs {
        var k :| 1 <= k <= |p| && full == p[..k];
        assert full[1..] == r;
      }
    }
    forall r | r in Below(made, base).files ensures r in tree.files && Below(made, base).files[r] == tree.files[r] {
      BelowHas(made, base, r);
      BelowHas(cur, base, r);
    }
    assert p == p[..|p|];
  }

  lemma FillingFile(cur: Tree, start: Tree, base: string, tree: Tree, q: Path)
    requires WellFormed(tree) && Filling(cur, start, base, tree) && q in tree.files
    requires |q| > 1 ==> [base] + q[..|q| - 1] in cur.dirs
    ensures
      var after := cur.(files := cur.files[[base] + q := tree.files[q]]);
      [base] + q !in cur.dirs && Filling(after, start, base, tree) && Grown(cur, after)
  {
    hide Below;
    var dest := [base] + q;
    var after := cur.(files := cur.files[dest := tree.files[q]]);
    BelowHas(cur, base, q);
    assert dest[..|dest| - 1] == [base] + q[..|q| - 1];
    AddFileWellFormed(cur, dest, tree.files[q]);
    forall r | r in Below(after, base).dirs ensures r in tree.dirs {
      BelowHas(after, base, r);
      BelowHas(cur, base, r);
    }
    forall r | r in Below(after, base).files ensures r in tree.files && Below(after, base).files[r] == tree.files[r] {
      BelowHas(after, base, r);
      BelowHas(cur, base, r);
      if [base] + r == dest {
        assert r == dest[1..] == q;
      }
    }
  }

  lemma FillingEntry(cur: Tree, start: Tree, base: string, tree: Tree, e: Entry)
    requires WellFormed(tree) && PlainTop(tree) && Filling(cur, start, base, tree) && EntryOf(e, tree)
    ensures ExtractEntry(cur, [base], e).Some?
    ensures
      var next := ExtractEntry(cur, [base], e).value;
      Filling(next, start, base, tree) && Grown(cur, next) && Placed(e, next, base)
  {
    hide MakeDirs, Filling;
    assert Has(tree, e.path);
    if e.DirEntry? {
      FillingDirs(cur, start, base, tree, e.path);
    } else {
      var q := e.path;
      var up := q[..|q| - 1];
      assert up != [] ==> up in tree.dirs;
      FillingDirs(cur, start, base, tree, up);
      assert ([base] + q)[..|[base] + q| - 1] == [base] + up;
      FillingFile(MakeDirs(cur, [base] + up).value, start, base, tree, q);
    }
  }

  lemma {:induction false} FillingAll(cur: Tree, start: Tree, base: string, tree: Tree, entries: seq<Entry>)
    requires WellFormed(tree) && PlainTop(tree) && Filling(cur, start, base, tree)
    requires forall e :: e in entries ==> EntryOf(e, tree)
    ensures
      var (r, ok) := Extract(cur, [base], entries);
      ok && Filling(r, start, base, tree) && Grown(cur, r) && forall e :: e in entries ==> Placed(e, r, base)
    decreases |entries|
  {
    hide ExtractEntry, Filling;
    if entries != [] {
      FillingEntry(cur, start, base, tree, entries[0]);
      var next := ExtractEntry(cur, [base], entries[0]).value;
      FillingAll(next, start, base, tree, entries[1..]);
    }
  }

  /** Everything listed is in place: the folder is the tree. */
  lemma FilledExactly(r: Tree, start: Tree, base: string, tree: Tree, entries: seq<Entry>)
    requires WellFormed(tree) && Filling(r, start, base, tree) && Lists(entries, tree)
    requires forall e :: e in entries ==> Placed(e, r, base)
    ensures SaveOf(r, base) == Folder(tree)
  {
    hide Below;
    forall q ensures (q in tree.dirs <==> q != [] && [base] + q in r.dirs) &&
        (q in tree.files <==> q != [] && [base] + q in r.files)
    {
      BelowHas(r, base, q);
      if q in tree.dirs {
        assert Placed(DirEntry(q), r, base);
      }
      if q in tree.files {
        assert Placed(FileEntry(q, tree.files[q]), r, base);
      }
    }
    forall q | q in tree.files ensures tree.files[q] == r.files[[base] + q] {
      BelowHas(r, base, q);
    }
    BelowIs(r, base, tree);
  }

  lemma FolderMode(t: Tree, base: string, tree: Tree, entries: seq<Entry>)
    requires WellFormed(t) && WellFormed(tree) && Lists(entries, tree)
    requires PlainTop(tree) && !FileMode(t, base, entries)
    ensures
      var (r, ok) := Unzipped(t, base, entries);
      ok && SaveOf(r, base) == Folder(tree) && SameBeside(r, t, base)
  {
    hide Lists;
    var made := t.(dirs := t.dirs + {[base]});
    var ready := Cleared(made, base);
    ClearedKeepsShape(made, base);
    assert Filling(ready, t, base, tree);
    ListsOnly(entries, tree);
    FillingAll(ready, t, base, tree, entries);
    FilledExactly(Extract(ready, [base], entries).0, t, base, tree, entries);
  }

  lemma ListsOnly(entries: seq<Entry>, tree: Tree)
    requires Lists(entries, tree)
    ensures forall e :: e in entries ==> EntryOf(e, tree)
  {
  }

  // ----- What goes wrong otherwise

  lemma {:induction false} FoldersStay(t: Tree, prefix: Path, entries: seq<Entry>)
    ensures t.dirs <= Extract(t, prefix, entries).0.dirs
    decreases |entries|
  {
    if entries != [] && ExtractEntry(t, prefix, entries[0]).Some? {
      FoldersStay(ExtractEntry(t, prefix, entries[0]).value, prefix, entries[1..]);
    }
  }

  /** An existing folder is still a folder afterwards. */
  lemma FolderStaysFolder(t: Tree, base: string, entries: seq<Entry>)
    requires WellFormed(t) && [base] in t.dirs
    ensures SaveOf(Unzipped(t, base, entries).0, base).Folder?
  {
    hide Extract;
    UnzippedWellFormed(t, base, entries);
    FoldersStay(Prepared(t, base, entries), [base], entries);
  }

  /** Nothing is there but what was there before and what the tree has. */
  ghost predicate OnlyFrom(cur: Tree, start: Tree, tree: Tree) {
    && cur.dirs <= start.dirs + tree.dirs
    && cur.files.Keys <= start.files.Keys + tree.files.Keys
  }

  lemma OnlyFromDirs(cur: Tree, start: Tree, tree: Tree, p: Path)
    requires OnlyFrom(cur, start, tree) && MakeDirs(cur, p).Some?
    requires forall k :: 1 <= k <= |p| ==> p[..k] in tree.dirs
    ensures OnlyFrom(MakeDirs(cur, p).value, start, tree)
  {
  }

  lemma OnlyFromEntry(cur: Tree, start: Tree, tree: Tree, e: Entry)
    requires WellFormed(tree) && OnlyFrom(cur, start, tree) && EntryOf(e, tree) && ExtractEntry(cur, [], e).Some?
    ensures OnlyFrom(ExtractEntry(cur, [], e).value, start, tree)
  {
    var dest := [] + e.path;
    assert dest == e.path;
    assert Has(tree, dest);
    if e.DirEntry? {
      assert dest[..|dest|] == dest;
      assert forall k :: 1 <= k < |dest| ==> dest[..k] in tree.dirs;
      OnlyFromDirs(cur, start, tree, dest);
    } else {
      var up := dest[..|dest| - 1];
      assert forall k :: 1 <= k <= |up| ==> up[..k] == dest[..k] && dest[..k] in tree.dirs;
      OnlyFromDirs(cur, start, tree, up);
    }
  }

  lemma {:induction false} OnlyFromAll(cur: Tree, start: Tree, tree: Tree, entries: seq<Entry>)
    requires WellFormed(tree) && OnlyFrom(cur, start, tree) && forall e :: e in entries ==> EntryOf(e, tree)
    ensures OnlyFrom(Extract(cur, [], entries).0, start, tree)
    decreases |entries|
  {
    hide ExtractEntry, OnlyFrom;
    if entries != [] && ExtractEntry(cur, [], entries[0]).Some? {
      OnlyFromEntry(cur, start, tree, entries[0]);
      OnlyFromAll(ExtractEntry(cur, [], entries[0]).value, start, tree, entries[1..]);
    }
  }

  /** A finite set of paths cannot contain each of its members once more inside base. */
  lemma {:induction false} NoSelfNesting(s: set<Path>, base: string, q: Path, bound: set<Path>)
    requires q in s && (forall p :: p in s ==> [base] + p in s) && bound <= s
    requires forall p :: p in s && |p| >= |q| ==> p in bound
    ensures false
    decreases |bound|
  {
    var longer := [base] + q;
    assert forall p :: p in s && |p| >= |longer| ==> p in bound - {q};
    NoSelfNesting(s, base, longer, bound - {q});
  }

  /** A folder spilled beside the save path is not a folder like it at the save path. */
  lemma FileModeMissesFolder(t: Tree, base: string, tree: Tree, entries: seq<Entry>, other: Tree)
    requires WellFormed(t) && WellFormed(tree) && Lists(entries, tree) && FileMode(t, base, entries)
    requires other.dirs == tree.dirs
    ensures SaveOf(Unzipped(t, base, entries).0, base) != Folder(other)
  {
    hide Lists, Extract, Below;
    var ready := t.(files := t.files - {[base]});
    var r := Extract(ready, [], entries).0;
    ListsOnly(entries, tree);
    OnlyFromAll(ready, ready, tree, entries);
    NothingInside(t, base);
    if SaveOf(r, base) == Folder(other) {
      assert [base] in tree.dirs;
      forall q | q in tree.dirs ensures [base] + q in tree.dirs {
        BelowHas(r, base, q);
        assert Inside([base] + q, base);
      }
      NoSelfNesting(tree.dirs, base, [base], tree.dirs);
    }
  }

  lemma NothingInside(t: Tree, base: string)
    requires WellFormed(t) && [base] !in t.dirs
    ensures forall p: Path :: Has(t, p) && p != [] && p[0] == base ==> p == [base]
  {
    forall p: Path | Has(t, p) && p != [] && p[0] == base ensures p == [base] {
      if |p| > 1 {
        FirstIsFolder(t, p);
      }
    }
  }

  lemma FirstIsFolder(t: Tree, p: Path)
    requires WellFormed(t) && Has(t, p) && |p| > 1
    ensures [p[0]] in t.dirs
  {
    assert p[..1] in t.dirs && p[..1] == [p[0]];
  }

  lemma NoFoldersNeeded(t: Tree)
    ensures MakeDirs(t, []) == Some(t)
  {
    assert MakeDirs(t, []).value.dirs == t.dirs;
  }

  /** A single file goes back to its own name. */
  lemma SingleFile(t: Tree, base: string, data: bytes)
    requires WellFormed(t) && !SaveOf(t, base).Folder? && !DotDot(base)
    ensures
      var (r, ok) := Unzipped(t, base, [FileEntry([base], data)]);
      ok && SaveOf(r, base) == File(data) && SameBeside(r, t, base)
  {
    var e := FileEntry([base], data);
    var ready := t.(files := t.files - {[base]});
    assert Prepared(t, base, [e]) == ready;
    NoFoldersNeeded(ready);
    var dest: Path := [] + e.path;
    assert dest == [base] && dest[..|dest| - 1] == [];
    assert ExtractEntry(ready, [], e) == Some(ready.(files := ready.files[[base] := data]));
    assert [e][1..] == [];
    assert Extract(ready, [], [e]) == (ready.(files := ready.files[[base] := data]), true);
  }

  lemma OneFileListed(entries: seq<Entry>, tree: Tree)
    requires Lists(entries, tree)
    ensures |entries| == 1 && entries[0].FileEntry? <==> OneFile(tree)
  {
    if |entries| == 1 && entries[0].FileEntry? {
      var p := entries[0].path;
      assert EntryOf(entries[0], tree);
      assert tree.files.Keys == {p};
      assert |tree.files| == |tree.files.Keys|;
      assert tree.dirs == {};
    } else if OneFile(tree) {
      assert |tree.files.Keys| == 1;
      OneMember(entries, tree);
    }
  }

  lemma OneMember(entries: seq<Entry>, tree: Tree)
    requires Lists(entries, tree) && tree.dirs == {} && |tree.files.Keys| == 1
    ensures |entries| == 1 && entries[0].FileEntry?
  {
    var p :| p in tree.files.Keys;
    assert tree.files.Keys == {p} by {
      assert |tree.files.Keys - {p}| == 0;
    }
    assert FileEntry(p, tree.files[p]) in entries;
    forall i | 0 <= i < |entries| ensures entries[i].path == p && entries[i].FileEntry? {
      assert entries[i] in entries;
      assert EntryOf(entries[i], tree);
    }
    if |entries| > 1 {
      TwoPaths(entries, tree, p);
    }
  }

  lemma TwoPaths(entries: seq<Entry>, tree: Tree, p: Path)
    requires Lists(entries, tree) && |entries| > 1
    ensures exists i :: 0 <= i < |entries| && entries[i].path != p
  {
    assert entries[0].path != entries[1].path;
  }

  // ----- Exactly when a save comes back

  /** No name starting with two dots is ever created inside base. */
  ghost predicate NoDotDotInside(t: Tree, base: string) {
    forall p: Path :: Has(t, p) && Inside(p, base) ==> !DotDot(p[1])
  }

  lemma MadeDirsAgree(t: Tree, p: Path)
    requires MakeDirs(t, p).Some?
    ensures forall q :: q in MakeDirs(t, p).value.dirs && q !in t.dirs && |q| > 1 ==> |p| > 1 && q[1] == p[1]
  {
  }

  lemma NoDotDotEntry(t: Tree, base: string, e: Entry)
    requires NoDotDotInside(t, base) && ExtractEntry(t, [base], e).Some?
    ensures NoDotDotInside(ExtractEntry(t, [base], e).value, base)
  {
    var after := ExtractEntry(t, [base], e).value;
    var dest := [base] + e.path;
    MadeDirsAgree(t, if e.DirEntry? then dest else dest[..|dest| - 1]);
    hide MakeDirs;
    forall p: Path | Has(after, p) && Inside(p, base) && !Has(t, p) ensures p[1] == dest[1] {
    }
  }

  lemma {:induction false} NoDotDotExtracted(t: Tree, base: string, entries: seq<Entry>)
    requires NoDotDotInside(t, base)
    ensures NoDotDotInside(Extract(t, [base], entries).0, base)
    decreases |entries|
  {
    hide ExtractEntry, NoDotDotInside;
    if entries != [] && ExtractEntry(t, [base], entries[0]).Some? {
      NoDotDotEntry(t, base, entries[0]);
      NoDotDotExtracted(ExtractEntry(t, [base], entries[0]).value, base, entries[1..]);
    }
  }

  lemma DotDotFolderMisses(t: Tree, base: string, tree: Tree, entries: seq<Entry>)
    requires !FileMode(t, base, entries) && !PlainTop(tree)
    ensures SaveOf(Unzipped(t, base, entries).0, base) != Folder(tree)
  {
    hide Extract, Below;
    var r := Unzipped(t, base, entries).0;
    NoDotDotExtracted(Prepared(t, base, entries), base, entries);
    var p :| Has(tree, p) && p != [] && DotDot(p[0]);
    if Below(r, base) == tree {
      BelowHas(r, base, p);
      assert Inside([base] + p, base);
    }
  }

  lemma FolderComesBackIff(t: Tree, base: string, tree: Tree, entries: seq<Entry>)
    requires WellFormed(t) && WellFormed(tree) && Lists(entries, tree)
    ensures
      var (r, ok) := Unzipped(t, base, entries);
      && (SaveOf(r, base) == Folder(tree) <==> Restorable(Folder(tree), base, SaveOf(t, base)))
      && (Restorable(Folder(tree), base, SaveOf(t, base)) ==> ok && SameBeside(r, t, base))
  {
    hide Lists, Extract, Below, Prepared, SameBeside, PlainTop;
    OneFileListed(entries, tree);
    if FileMode(t, base, entries) {
      FileModeMissesFolder(t, base, tree, entries, tree);
    } else if PlainTop(tree) {
      FolderMode(t, base, tree, entries);
    } else {
      DotDotFolderMisses(t, base, tree, entries);
    }
  }

  lemma FileComesBackIff(t: Tree, base: string, data: bytes)
    requires WellFormed(t)
    ensures
      var (r, ok) := Unzipped(t, base, [FileEntry([base], data)]);
      && (SaveOf(r, base) == File(data) <==> Restorable(File(data), base, SaveOf(t, base)))
      && (Restorable(File(data), base, SaveOf(t, base)) ==> ok && SameBeside(r, t, base))
  {
    hide Below, SameBeside;
    var entries := [FileEntry([base], data)];
    if SaveOf(t, base).Folder? {
      FolderStaysFolder(t, base, entries);
    } else if DotDot(base) {
      assert Unzipped(t, base, entries) == (Prepared(t, base, entries), false);
    } else {
      SingleFile(t, base, data);
    }
  }

  lemma ReadableComesBackIff(t: Tree, base: string, s: Save, entries: seq<Entry>)
    requires WellFormed(t) && WellFormedSave(s) && ArchiveOf(entries, s, base, map[])
    ensures
      var (r, ok) := Unzipped(t, base, entries);
      && (SaveOf(r, base) == s <==> Restorable(s, base, SaveOf(t, base)))
      && (Restorable(s, base, SaveOf(t, base)) ==> ok && SameBeside(r, t, base))
  {
    hide Lists, Unzipped, SaveOf, SameBeside, PlainTop;
    match s
    case File(data) =>
      FileComesBackIff(t, base, data);
    case Folder(tree) =>
      assert Readable(tree, base, map[]) == tree;
      FolderComesBackIff(t, base, tree, entries);
  }

  // ----- What could not be read does not come back

  /** Inside base there are only files of the tree, as the tree has them. */
  ghost predicate FilesFrom(t: Tree, base: string, tree: Tree) {
    forall p :: p in t.files && Inside(p, base) ==> p[1..] in tree.files && t.files[p] == tree.files[p[1..]]
  }

  lemma FilesFromEntry(t: Tree, base: string, tree: Tree, e: Entry)
    requires FilesFrom(t, base, tree) && EntryOf(e, tree) && ExtractEntry(t, [base], e).Some?
    ensures FilesFrom(ExtractEntry(t, [base], e).value, base, tree)
  {
    var dest := [base] + e.path;
    assert dest[1..] == e.path;
  }

  lemma {:induction false} FilesFromAll(t: Tree, base: string, tree: Tree, entries: seq<Entry>)
    requires FilesFrom(t, base, tree) && forall e :: e in entries ==> EntryOf(e, tree)
    ensures FilesFrom(Extract(t, [base], entries).0, base, tree)
    decreases |entries|
  {
    hide ExtractEntry, FilesFrom;
    if entries != [] && ExtractEntry(t, [base], entries[0]).Some? {
      FilesFromEntry(t, base, tree, entries[0]);
      FilesFromAll(ExtractEntry(t, [base], entries[0]).value, base, tree, entries[1..]);
    }
  }

  lemma FolderModeAddsNothing(t: Tree, base: string, tree: Tree, entries: seq<Entry>, other: Tree)
    requires Lists(entries, tree) && !FileMode(t, base, entries)
    requires SaveOf(Unzipped(t, base, entries).0, base) == Folder(other)
    ensures forall q :: q in other.files ==> q in tree.files && other.files[q] == tree.files[q]
  {
    hide Lists, Extract, Below;
    ListsOnly(entries, tree);
    var ready := Prepared(t, base, entries);
    assert FilesFrom(ready, base, tree);
    FilesFromAll(ready, base, tree, entries);
    var r := Unzipped(t, base, entries).0;
    forall q | q in other.files ensures q in tree.files && other.files[q] == tree.files[q] {
      BelowHas(r, base, q);
      assert Inside([base] + q, base) && ([base] + q)[1..] == q;
    }
  }

  lemma PartialIsNotWhole(t: Tree, base: string, s: Save, entries: seq<Entry>, faults: Faults)
    requires WellFormed(t) && WellFormedSave(s) && ArchiveOf(entries, s, base, faults)
    requires SaveOf(Unzipped(t, base, entries).0, base) == s
    ensures Archived(s, base, faults) == s
  {
    hide Lists, Unzipped, SaveOf;
    if s.Folder? {
      var kept := Readable(s.tree, base, faults);
      if FileMode(t, base, entries) {
        FileModeMissesFolder(t, base, kept, entries, s.tree);
      } else {
        FolderModeAddsNothing(t, base, kept, entries, s.tree);
        assert kept.files == s.tree.files;
      }
    }
  }

  /**
   The round trip of a save through an archive. What comes back is the archived part, exactly when
   the target is of the save's kind (a missing target counts as a folder, unless the archive is one
   top-level file, and then as a file) and no top-level name starts with two dots; extraction then
   succeeds, and nothing beside the save changes. It is the whole save exactly if, besides, every file
   could be opened and read to its end when the archive was made.
   */
  lemma ComesBackIff(t: Tree, base: string, s: Save, entries: seq<Entry>, faults: Faults)
    requires WellFormed(t) && WellFormedSave(s) && ArchiveOf(entries, s, base, faults)
    ensures
      var (r, ok) := Unzipped(t, base, entries);
      var kept := Archived(s, base, faults);
      && (SaveOf(r, base) == kept <==> Restorable(kept, base, SaveOf(t, base)))
      && (SaveOf(r, base) == s <==> Restorable(kept, base, SaveOf(t, base)) && kept == s)
      && (Restorable(kept, base, SaveOf(t, base)) ==> ok && SameBeside(r, t, base))
  {
    hide *;
    var kept := Archived(s, base, faults);
    ArchivedWellFormed(s, base, faults);
    ArchiveOfArchived(entries, s, base, faults);
    ReadableComesBackIff(t, base, kept, entries);
    if SaveOf(Unzipped(t, base, entries).0, base) == s {
      PartialIsNotWhole(t, base, s, entries, faults);
    }
  }

  /** With nothing faulty the archived part is the save. */
  lemma ArchivedAll(s: Save, base: string)
    ensures Archived(s, base, map[]) == s
  {
    if s.Folder? {
      assert Readable(s.tree, base, map[]).files == s.tree.files;
    }
  }

  // ----- The conditions written out

  /** Exactly the names with two leading dots are refused; a dotfile is not. */
  lemma PlainTopIff(tree: Tree)
    ensures PlainTop(tree) <==>
            forall p :: (p in tree.dirs || p in tree.files) && p != [] ==>
              !(|p[0]| >= 2 && p[0][0] == '.' && p[0][1] == '.')
  {
    forall name ensures DotDot(name) <==> |name| >= 2 && name[0] == '.' && name[1] == '.' {
      assert DotDot(name) <==> |name| >= 2 && name[..2] == "..";
    }
    if forall p :: (p in tree.dirs || p in tree.files) && p != [] ==>
        !(|p[0]| >= 2 && p[0][0] == '.' && p[0][1] == '.') {
      assert forall p :: Has(tree, p) ==> p in tree.dirs || p in tree.files;
    } else {
      var p :| (p in tree.dirs || p in tree.files) && p != [] && |p[0]| >= 2 && p[0][0] == '.' && p[0][1] == '.';
      assert Has(tree, p) && DotDot(p[0]);
    }
  }

  /** What was extracted without an error had no refused name in it. */
  lemma {:induction false} ExtractedArePlain(t: Tree, prefix: Path, entries: seq<Entry>)
    requires Extract(t, prefix, entries).1
    ensures forall e :: e in entries ==> e.path != [] && !DotDot(e.path[0])
    decreases |entries|
  {
    hide MakeDirs;
    if entries != [] {
      assert ExtractEntry(t, prefix, entries[0]).Some?;
      ExtractedArePlain(ExtractEntry(t, prefix, entries[0]).value, prefix, entries[1..]);
    }
  }

  lemma ListedArePlain(entries: seq<Entry>, tree: Tree)
    requires Lists(entries, tree) && forall e :: e in entries ==> e.path != [] && !DotDot(e.path[0])
    ensures PlainTop(tree)
  {
    hide DotDot;
    forall p | Has(tree, p) && p != [] ensures !DotDot(p[0]) {
      if p in tree.dirs {
        assert DirEntry(p) in entries;
      } else {
        assert FileEntry(p, tree.files[p]) in entries;
      }
    }
  }

  /**
   A save folder archived whole and extracted over a present folder is back, and the extraction reports
   success, exactly unless some name in it has two leading dots.
   */
  lemma FolderReturnsIff(t: Tree, base: string, tree: Tree, entries: seq<Entry>)
    requires WellFormed(t) && SaveOf(t, base).Folder?
    requires WellFormed(tree) && ArchiveOf(entries, Folder(tree), base, map[])
    ensures
      var (r, ok) := Unzipped(t, base, entries);
      var plain := forall p :: (p in tree.dirs || p in tree.files) && p != [] ==>
                     !(|p[0]| >= 2 && p[0][0] == '.' && p[0][1] == '.');
      (SaveOf(r, base) == Folder(tree) <==> plain) && (ok <==> plain)
  {
    ComesBackIff(t, base, Folder(tree), entries, map[]);
    ArchivedAll(Folder(tree), base);
    PlainTopIff(tree);
    assert Readable(tree, base, map[]) == tree;
    if Unzipped(t, base, entries).1 {
      ExtractedArePlain(Prepared(t, base, entries), if FileMode(t, base, entries) then [] else [base], entries);
      ListedArePlain(entries, tree);
    }
    hide PlainTop, Unzipped, SaveOf, WellFormed, Lists;
  }

  /**
   A single save file comes back exactly unless a folder is in its place or its own name has two leading
   dots; only the name makes the extraction report an error.
   */
  lemma FileReturnsIff(t: Tree, base: string, data: bytes, entries: seq<Entry>)
    requires WellFormed(t) && ArchiveOf(entries, File(data), base, map[])
    ensures
      var (r, ok) := Unzipped(t, base, entries);
      var plain := !(|base| >= 2 && base[0] == '.' && base[1] == '.');
      (SaveOf(r, base) == File(data) <==> [base] !in t.dirs && plain) && (ok <==> plain)
  {
    ComesBackIff(t, base, File(data), entries, map[]);
    ArchivedAll(File(data), base);
    assert DotDot(base) <==> |base| >= 2 && base[..2] == "..";
    assert SaveOf(t, base).Folder? <==> [base] in t.dirs && [base] !in t.files;
    assert [base] in t.files ==> [base] !in t.dirs;
    if [base] in t.dirs {
      FileIntoFolder(t, base, data);
    } else if DotDot(base) {
      assert Extract(Prepared(t, base, entries), [], entries) == (Prepared(t, base, entries), false);
    }
    hide Unzipped, ArchiveOf, Below;
  }

  lemma FileIntoFolder(t: Tree, base: string, data: bytes)
    requires WellFormed(t) && [base] in t.dirs
    ensures Unzipped(t, base, [FileEntry([base], data)]).1 <==> !DotDot(base)
  {
    var entries := [FileEntry([base], data)];
    var ready := Prepared(t, base, entries);
    assert !FileMode(t, base, entries);
    assert [base] in ready.dirs && [base] !in ready.files;
    var dest := [base] + entries[0].path;
    assert dest == [base, base] && dest[..1] == [base];
    assert dest[..1][..1] == [base];
    assert MakeDirs(ready, [base]).Some?;
    assert entries[1..] == [];
    var next := ExtractEntry(ready, [base], entries[0]);
    assert next.Some? <==> !DotDot(base);
    assert Extract(ready, [base], entries) == if next.Some? then Extract(next.value, [base], []) else (ready, false);
  }

  lemma {:induction false} SomeListing(tree: Tree) returns (entries: seq<Entry>)
    requires tree.dirs !! tree.files.Keys
    ensures Lists(entries, tree)
    decreases |tree.dirs| + |tree.files|
  {
    if tree == EmptyTree {
      return [];
    }
    hide Lists;
    var rest, e := OneLess(tree);
    var before := SomeListing(rest);
    ListsAdd(before, rest, e);
    entries := before + [e];
  }

  lemma OneLess(tree: Tree) returns (rest: Tree, e: Entry)
    requires tree.dirs !! tree.files.Keys && tree != EmptyTree
    ensures !Has(rest, e.path) && With(rest, e) == tree && rest.dirs !! rest.files.Keys
    ensures |rest.dirs| + |rest.files| < |tree.dirs| + |tree.files|
  {
    if p :| p in tree.dirs {
      rest, e := tree.(dirs := tree.dirs - {p}), DirEntry(p);
    } else {
      var p :| p in tree.files;
      rest, e := tree.(files := tree.files - {p}), FileEntry(p, tree.files[p]);
      assert rest.files.Keys == tree.files.Keys - {p};
    }
  }

  /**
   There is an archive of a save file exactly if it can be read whole, and of a save folder exactly if it
   holds no file or some file in it can be; of nothing there is none.
   */
  lemma ArchiveExistsIff(s: Save, base: string, faults: Faults)
    requires WellFormedSave(s)
    ensures (exists entries :: ArchiveOf(entries, s, base, faults)) <==>
      match s
      case Missing => false
      case File(_) => [base] !in faults
      case Folder(tree) => tree.files == map[] || exists p :: p in tree.files && [base] + p !in faults
  {
    match s
    case Missing =>
    case File(data) =>
      if [base] !in faults {
        assert ArchiveOf([FileEntry([base], data)], s, base, faults);
      }
    case Folder(tree) =>
      var entries := SomeListing(Readable(tree, base, faults));
      hide Lists, Readable;
      if tree.files == map[] || exists p :: p in tree.files && [base] + p !in faults {
        assert ArchiveOf(entries, s, base, faults);
      }
  }
}
