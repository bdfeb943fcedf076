/**
 A save on disk. Paths are lists of names relative to the folder that holds the save, so that the
 save itself is the file or folder at the path [base] and its neighbours are visible too.
 */
module SaveTrees {
  import opened Basics

  type Path = seq<string>

  datatype Tree = Tree(dirs: set<Path>, files: map<Path, bytes>)

  const EmptyTree := Tree({}, map[])

  ghost predicate Has(t: Tree, p: Path) {
    p in t.dirs || p in t.files
  }

  /** No path is file and folder at once, and every folder on the way to a path exists. */
  ghost predicate WellFormed(t: Tree) {
    && !Has(t, [])
    && t.dirs !! t.files.Keys
    && forall p: Path, k: nat :: Has(t, p) && 0 < k < |p| ==> p[..k] in t.dirs
  }

  datatype Save = Missing | File(data: bytes) | Folder(tree: Tree)

  predicate Inside(p: Path, base: string) {
    |p| > 1 && p[0] == base
  }

  /** What is inside the folder base, relative to it. */
  function Below(t: Tree, base: string): Tree {
    Tree(set p | p in t.dirs && Inside(p, base) :: p[1..],
         map q | q in (set p | p in t.files && Inside(p, base) :: p[1..]) &&
             [base] + q in t.files :: t.files[[base] + q])
  }

  function SaveOf(t: Tree, base: string): Save {
    if [base] in t.files then File(t.files[[base]])
    else if [base] in t.dirs then Folder(Below(t, base))
    else Missing
  }

  lemma BelowHas(t: Tree, base: string, q: Path)
    ensures q in Below(t, base).dirs <==> q != [] && [base] + q in t.dirs
    ensures q in Below(t, base).files <==> q != [] && [base] + q in t.files
    ensures q in Below(t, base).files ==> Below(t, base).files[q] == t.files[[base] + q]
  {
    var p := [base] + q;
    assert p[1..] == q;
    forall r: Path | Inside(r, base) ensures r == [base] + r[1..] {
    }
  }

  lemma BelowWellFormed(t: Tree, base: string)
    requires WellFormed(t)
    ensures WellFormed(Below(t, base))
  {
    hide Below;
    var b := Below(t, base);
    forall q: Path ensures Has(b, q) <==> q != [] && Has(t, [base] + q) {
      BelowHas(t, base, q);
    }
    forall q: Path, k: nat | Has(b, q) && 0 < k < |q| ensures q[..k] in b.dirs {
      var p := [base] + q;
      assert p[..k + 1] == [base] + q[..k];
      BelowHas(t, base, q[..k]);
    }
    forall q | q in b.dirs ensures q !in b.files {
      BelowHas(t, base, q);
    }
  }

  /** Two descriptions of one folder. */
  lemma BelowIs(t: Tree, base: string, tree: Tree)
    requires forall q :: q in tree.dirs <==> q != [] && [base] + q in t.dirs
    requires forall q :: q in tree.files <==> q != [] && [base] + q in t.files
    requires forall q :: q in tree.files ==> tree.files[q] == t.files[[base] + q]
    ensures Below(t, base) == tree
  {
    hide Below;
    forall q ensures (q in Below(t, base).dirs <==> q in tree.dirs) &&
        (q in Below(t, base).files <==> q in tree.files) {
      BelowHas(t, base, q);
    }
    forall q | q in tree.files ensures Below(t, base).files[q] == tree.files[q] {
      BelowHas(t, base, q);
    }
    assert Below(t, base).dirs == tree.dirs && Below(t, base).files == tree.files;
  }

  /** A single save file removed, or a save folder emptied. */
  function Cleared(t: Tree, base: string): Tree {
    Tree(set p | p in t.dirs && !Inside(p, base), map p | p in t.files && (p == [] || p[0] != base) :: t.files[p])
  }

  lemma ClearedKeepsShape(t: Tree, base: string)
    requires WellFormed(t)
    ensures WellFormed(Cleared(t, base))
    ensures SaveOf(Cleared(t, base), base) == if SaveOf(t, base).Folder? then Folder(EmptyTree) else Missing
    ensures forall p :: Has(t, p) && p[0] != base ==> Has(Cleared(t, base), p)
  {
    var c := Cleared(t, base);
    forall p: Path, k: nat | Has(c, p) && 0 < k < |p| ensures p[..k] in c.dirs {
      assert p[..k] in t.dirs && p[..k][0] == p[0];
    }
    if SaveOf(t, base).Folder? {
      BelowIs(c, base, EmptyTree);
    }
  }

  /** There is something worth backing up. */
  predicate HasContent(s: Save) {
    s.File? || (s.Folder? && s.tree != EmptyTree)
  }
}
