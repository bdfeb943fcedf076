/**
 Snapshots and branches of one game (internal/snapshot/snapshot.go): the manager's operations on the
 save, the snapshot rows, their archives and the active branch. Each method is proved equal to a
 function of the state, the clock and the archive that was written.
 */
module Snapshots {
  import opened Basics
  import opened SaveTrees
  import opened Archives
  import opened ArchiveRoundTrip
  import opened Retention

  type Entries = seq<Entry>

  datatype State = State(
    rows: Rows,
    archives: map<nat, Entries>,
    foreign: set<nat>,           // ids held by other games
    branches: set<string>,
    active: string,
    disk: Tree,
    base: string,
    limits: Limits)

  // ----- Choosing an id

  const Attempts: nat := 1000

  /** The first free id from ms on, within n attempts. */
  function FirstFree(taken: set<nat>, ms: nat, n: nat): (r: Option<nat>)
    ensures r.None? <==> forall k :: ms <= k < ms + n ==> k in taken
    ensures r.Some? ==> ms <= r.value < ms + n && r.value !in taken && forall k :: ms <= k < r.value ==> k in taken
    decreases n
  {
    if n == 0 then None
    else if ms !in taken then Some(ms)
    else FirstFree(taken, ms + 1, n - 1)
  }

  lemma FirstFreeStep(taken: set<nat>, ms: nat, n: nat)
    requires n > 0
    ensures FirstFree(taken, ms, n) == if ms in taken then FirstFree(taken, ms + 1, n - 1) else Some(ms)
  {
  }

  function Taken(st: State): set<nat> {
    st.rows.Keys + st.foreign
  }

  // ----- The operations as functions

  /** filepath.Ext of the last name is more than a dot. */
  predicate HasExtension(base: string) {
    '.' in base && base[|base| - 1] != '.'
  }

  /** A missing save path is created as a folder unless it looks like a file. */
  function Ensured(st: State): State {
    if SaveOf(st.disk, st.base).Missing? && !HasExtension(st.base) then
      st.(disk := st.disk.(dirs := st.disk.dirs + {[st.base]}))
    else st
  }

  /** What archiving the save can give: None when it fails. */
  ghost predicate ZipGives(t: Tree, base: string, faults: Faults, z: Option<Entries>) {
    if z.Some? then ArchiveOf(z.value, SaveOf(t, base), base, faults)
    else forall e :: !ArchiveOf(e, SaveOf(t, base), base, faults)
  }

  ghost function AfterPruning(st: State): State {
    var rows := Pruned(st.rows, st.limits, st.branches);
    st.(rows := rows, archives := Surviving(st.archives, st.rows, rows))
  }

  /** The archives left when rows have gone from before to after. */
  function Surviving(archives: map<nat, Entries>, before: Rows, after: Rows): map<nat, Entries> {
    map id | id in archives && (id in before ==> id in after) :: archives[id]
  }

  ghost function WithSnapshot(st: State, id: nat, row: Row, entries: Entries): State {
    AfterPruning(st.(rows := st.rows[id := row], archives := st.archives[id := entries]))
  }

  ghost function Created(st: State, branch: string, auto: bool, now: nat, z: Option<Entries>): (State, Option<nat>) {
    var st1 := Ensured(st);
    if z.None? then (st1, None)
    else
      match FirstFree(Taken(st1), now, Attempts)
      case None => (st1, None)
      case Some(id) => (WithSnapshot(st1, id, Row(branch, auto), z.value), Some(id))
  }

  function ArchiveAt(st: State, id: nat): Option<Entries> {
    if id in st.archives then Some(st.archives[id]) else None
  }

  function Unpacked(st: State, archive: Option<Entries>): (State, bool) {
    match archive
    case None => (st, false)
    case Some(entries) =>
      var (disk, ok) := Unzipped(st.disk, st.base, entries);
      (st.(disk := disk), ok)
  }

  function Content(st: State): bool {
    HasContent(SaveOf(st.disk, st.base))
  }

  ghost function Restored(st: State, id: nat, copyOk: bool, now: nat, z: Option<Entries>): (State, bool) {
    if id !in st.rows then (st, false)
    else
      var st1 := if Content(st) then Created(st, st.active, true, now, z).0 else st;
      Unpacked(st1, if Content(st) && copyOk && id in st.archives then Some(st.archives[id]) else ArchiveAt(st1, id))
  }

  ghost function OnBranch(rows: Rows, branch: string): set<nat> {
    set id | id in rows && rows[id].branch == branch
  }

  ghost predicate IsLatest(rows: Rows, branch: string, id: nat) {
    id in OnBranch(rows, branch) && forall j :: j in OnBranch(rows, branch) ==> j <= id
  }

  ghost function Latest(rows: Rows, branch: string): (r: Option<nat>)
    ensures r.None? <==> OnBranch(rows, branch) == {}
    ensures r.Some? ==> IsLatest(rows, branch, r.value)
  {
    if OnBranch(rows, branch) == {} then None
    else
      LatestExists(OnBranch(rows, branch));
      assert exists id :: IsLatest(rows, branch, id) by {
        var m :| m in OnBranch(rows, branch) && forall j :: j in OnBranch(rows, branch) ==> j <= m;
        assert IsLatest(rows, branch, m);
      }
      var id :| IsLatest(rows, branch, id);
      Some(id)
  }

  lemma {:induction false} LatestExists(ids: set<nat>)
    requires ids != {}
    ensures exists id :: id in ids && forall j :: j in ids ==> j <= id
    decreases |ids|
  {
    var id :| id in ids;
    var higher := set j | j in ids && j > id;
    assert forall j :: j in ids && j > id ==> j in higher;
    if higher != {} {
      SubsetSize(higher, ids - {id});
      LatestExists(higher);
    }
  }

  ghost function Arrived(st: State, target: string): State {
    var st1 := st.(disk := Cleared(st.disk, st.base), active := target);
    match Latest(st.rows, target)
    case None => st1
    case Some(id) => Unpacked(st1, ArchiveAt(st1, id)).0
  }

  ghost function Switched(st: State, target: string, now: nat, z: Option<Entries>): (State, bool) {
    if target == st.active then (st, true)
    else if target !in st.branches then (st, false)
    else if Content(st) then
      var (st1, id) := Created(st, st.active, true, now, z);
      if id.None? then (st1, false) else (Arrived(st1, target), true)
    else (Arrived(st, target), true)
  }

  // ----- A switch that breaks off half way

  datatype Trouble =
    | NoTrouble
    | LookupFailed                // the game or its branches could not be read from the store
    | ClearFailed(left: Tree)     // what the unfinished clearing left on disk
    | UpdateFailed                // cleared, but the branch could not be recorded
    | ListingFailed               // recorded, but the snapshots of the branch could not be listed

  /** Part of what is inside the save folder is gone, and nothing else has changed. */
  ghost predicate PartlyCleared(t: Tree, base: string, left: Tree) {
    && WellFormed(left) && SameBeside(t, left, base)
    && left.dirs <= t.dirs && ([base] in t.dirs ==> [base] in left.dirs)
    && (forall p :: p in left.files ==> p in t.files && left.files[p] == t.files[p])
    && ([base] in t.files ==> left == t)
  }

  /** The backup that a switch takes first, and whether it may go on. */
  ghost function BackedUp(st: State, now: nat, z: Option<Entries>): (State, bool) {
    if Content(st) then (Created(st, st.active, true, now, z).0,
        Created(st, st.active, true, now, z).1.Some?) else (st, true)
  }

  /** Unknown branch or failed backup. */
  ghost predicate Refused(st: State, target: string, now: nat, z: Option<Entries>) {
    target != st.active && (target !in st.branches || !BackedUp(st, now, z).1)
  }

  /** A switch, with the step that goes wrong if one does. */
  ghost function Attempted(st: State, target: string, now: nat, z: Option<Entries>, trouble: Trouble): (State, bool) {
    if trouble.LookupFailed? then (st, false)
    else if trouble.NoTrouble? || target == st.active || Refused(st, target, now, z) then Switched(st, target, now, z)
    else
      var backed := BackedUp(st, now, z).0;
      var cleared := backed.(disk := if trouble.ClearFailed? then trouble.left else Cleared(backed.disk, backed.base));
      (if trouble.ListingFailed? then cleared.(active := target) else cleared, false)
  }

  function Lower(c: char): char {
    if 'A' <= c <= 'Z' then c + ' ' else c
  }

  predicate BranchChar(c: char) {
    'a' <= c <= 'z' || '0' <= c <= '9' || c == '_' || c == '-'
  }

  /** Lower case, and only letters, digits, underscore and hyphen. */
  function CleanBranchName(name: string): (r: string)
    ensures forall c :: c in r ==> BranchChar(c)
  {
    if name == "" then ""
    else
      var c := Lower(name[0]);
      (if BranchChar(c) then [c] else "") + CleanBranchName(name[1..])
  }

  lemma {:induction false} CleanAppend(a: string, b: string)
    ensures CleanBranchName(a + b) == CleanBranchName(a) + CleanBranchName(b)
  {
    hide BranchChar, Lower;
    if a == "" {
      assert a + b == b;
    } else {
      assert (a + b)[1..] == a[1..] + b;
      CleanAppend(a[1..], b);
    }
  }

  /**
   Each character is judged by itself and keeps its place: it becomes its lower case or goes. Exactly
   the names made of branch characters stay as they are, and cleaning twice is cleaning once.
   */
  lemma CleanBranchNameIs(a: string, b: string, c: char)
    ensures CleanBranchName(a + [c] + b) ==
            CleanBranchName(a) + (if BranchChar(Lower(c)) then [Lower(c)] else "") + CleanBranchName(b)
    ensures CleanBranchName(a) == a <==> forall d :: d in a ==> BranchChar(d)
    ensures CleanBranchName(CleanBranchName(a)) == CleanBranchName(a)
  {
    CleanKeeps(a);
    CleanKeeps(CleanBranchName(a));
    CleanOne(c);
    hide CleanBranchName;
    CleanAppend(a + [c], b);
    CleanAppend(a, [c]);
  }

  lemma CleanOne(c: char)
    ensures CleanBranchName([c]) == if BranchChar(Lower(c)) then [Lower(c)] else ""
  {
    assert [c][1..] == "";
    assert CleanBranchName("") == "";
  }

  lemma {:induction false} CleanKeeps(a: string)
    ensures CleanBranchName(a) == a <==> forall c :: c in a ==> BranchChar(c)
    ensures |CleanBranchName(a)| <= |a|
  {
    if a != "" {
      CleanKeeps(a[1..]);
      assert a == [a[0]] + a[1..];
      if CleanBranchName(a) == a {
        assert forall c :: c in a ==> c in CleanBranchName(a);
      } else {
        assert BranchChar(a[0]) ==> Lower(a[0]) == a[0];
      }
    }
  }

  function WithoutBranch(st: State, branch: string): State {
    if branch == st.active then st
    else
      st.(branches := st.branches - {branch},
          rows := map id | id in st.rows && st.rows[id].branch != branch :: st.rows[id],
          archives := map id | id in st.archives && (id in st.rows ==> st.rows[id].branch != branch) :: st.archives[id])
  }

  ghost function Branched(st: State, name: string, copy: bool, now: nat, z: Option<Entries>): (State, bool) {
    var clean := CleanBranchName(name);
    if clean == "" || clean in st.branches then (st, false)
    else
      var st1 := st.(branches := st.branches + {clean});
      if copy && Content(st1) then
        var (st2, id) := Created(st1, clean, true, now, z);
        if id.None? then (WithoutBranch(st2, clean), false) else (st2, true)
      else (st1, true)
  }

  function WithoutSnapshot(st: State, id: nat): State {
    if id in st.rows then st.(rows := st.rows - {id}, archives := st.archives - {id}) else st
  }

  // ----- The manager

  class Manager {
    var rows: Rows
    var archives: map<nat, Entries>
    var foreign: set<nat>
    var branches: set<string>
    var active: string
    var disk: Tree
    const base: string
    var limits: Limits

    constructor (base: string, disk: Tree, limits: Limits)
      ensures View() == State(map[], map[], {}, {"main"}, "main", disk, base, limits)
    {
      this.base, this.disk, this.limits := base, disk, limits;
      rows, archives, foreign := map[], map[], {};
      branches, active := {"main"}, "main";
    }

    function View(): State
      reads this
    {
      State(rows, archives, foreign, branches, active, disk, base, limits)
    }

    method EnsureSavePathExists()
      modifies this`disk
      ensures View() == Ensured(old(View()))
    {
      if [base] in disk.files || [base] in disk.dirs {
        return;
      }
      if !HasExtension(base) {
        disk := disk.(dirs := disk.dirs + {[base]});
      }
    }

    /** Walk forward from the clock to a free id, name the archive after it, and record it. */
    method ClaimAndInsert(row: Row, entries: Entries, now: nat) returns (id: Option<nat>)
      modifies this`rows, this`archives
      ensures id == FirstFree(Taken(old(View())), now, Attempts)
      ensures rows == if id.Some? then old(rows)[id.value := row] else old(rows)
      ensures archives == if id.Some? then old(archives)[id.value := entries] else old(archives)
    {
      hide FirstFree;
      ghost var taken := rows.Keys + foreign;
      var ms := now;
      for attempt := 0 to Attempts
        invariant ms == now + attempt
        invariant rows == old(rows) && archives == old(archives)
        invariant FirstFree(taken, ms, Attempts - attempt) == FirstFree(taken, now, Attempts)
      {
        FirstFreeStep(taken, ms, Attempts - attempt);
        if ms in rows || ms in foreign {
          ms := ms + 1;
          continue;
        }
        archives := archives[ms := entries];
        rows := rows[ms := row];
        return Some(ms);
      }
      id := None;
    }

    /** Drop the row, then its archive. */
    method Drop(id: nat)
      modifies this`rows, this`archives
      ensures rows == old(rows) - {id}
      ensures archives == if id in old(rows) then old(archives) - {id} else old(archives)
    {
      if id in rows {
        rows := rows - {id};
        archives := archives - {id};
      }
    }

    method DropAll(ids: seq<nat>)
      modifies this`rows, this`archives
      ensures rows == map id | id in old(rows) && id !in ids :: old(rows)[id]
      ensures archives == map id | id in old(archives) && !(id in old(rows) && id in ids) :: old(archives)[id]
    {
      for i := 0 to |ids|
        invariant rows == map id | id in old(rows) && id !in ids[..i] :: old(rows)[id]
        invariant archives == map id | id in old(archives) && !(id in old(rows) && id in ids[..i]) :: old(archives)[id]
      {
        assert ids[..i + 1] == ids[..i] + [ids[i]];
        Drop(ids[i]);
      }
      assert ids[..|ids|] == ids;
    }

    /** Branch by branch, delete what is beyond the limits. */
    method PruneGameAllBranches()
      modifies this`rows, this`archives
      ensures rows == Pruned(old(rows), limits, branches)
      ensures archives == Surviving(old(archives), old(rows), rows)
    {
      if limits.auto <= 0 && limits.manual <= 0 {
        assert Pruned(rows, limits, branches) == rows;
        return;
      }
      hide Pruned, Beyond, Surviving;
      var todo := branches;
      ghost var done := {};
      NothingPruned(rows, archives, limits);
      while todo != {}
        invariant done !! todo && done + todo == branches
        invariant rows == Pruned(old(rows), limits, done)
        invariant archives == Surviving(old(archives), old(rows), rows)
        decreases |todo|
      {
        var branch :| branch in todo;
        var beyond := SnapshotsBeyondRetentionByKind(rows, branch, limits);
        DropAll(beyond);
        PruneOneMore(old(rows), old(archives), limits, done, branch, beyond);
        todo := todo - {branch};
        done := done + {branch};
      }
      assert done == branches;
    }

    /** Snapshot the save onto a branch and prune; an error leaves rows and archives alone. */
    method CreateOnBranch(branch: string, auto: bool, faults: Faults, now: nat)
      returns (id: Option<nat>, ghost z: Option<Entries>)
      requires WellFormed(disk)
      modifies this`rows, this`archives, this`disk
      ensures ZipGives(Ensured(old(View())).disk, base, faults, z)
      ensures (View(), id) == Created(old(View()), branch, auto, now, z)
    {
      hide Pruned, ArchiveOf, FirstFree, Surviving, SaveOf, WellFormed, HasExtension;
      EnsuredWellFormed(View());
      EnsureSavePathExists();
      var entries, ok := ZipPath(disk, base, faults);
      z := if ok then Some(entries) else None;
      if !ok {
        return None, z;
      }
      id := ClaimAndInsert(Row(branch, auto), entries, now);
      if id.Some? {
        PruneGameAllBranches();
      }
    }

    method Create(auto: bool, faults: Faults, now: nat) returns (id: Option<nat>, ghost z: Option<Entries>)
      requires WellFormed(disk)
      modifies this`rows, this`archives, this`disk
      ensures ZipGives(Ensured(old(View())).disk, base, faults, z)
      ensures (View(), id) == Created(old(View()), active, auto, now, z)
    {
      id, z := CreateOnBranch(active, auto, faults, now);
    }

    /**
     A single save file is removed; a folder is emptied, one top-level name after another, up to the
     first that holds a file that cannot be deleted.
     */
    method ClearSavePath(stuck: set<Path>) returns (ok: bool)
      requires WellFormed(disk)
      modifies this`disk
      ensures ok <==> !IsStuck(old(disk), base, stuck)
      ensures if ok then disk == Cleared(old(disk), base) else PartlyCleared(old(disk), base, disk)
    {
      if [base] in disk.files {
        SaveFileStuck(disk, base, stuck);
        ok := [base] !in stuck;
        if ok {
          SaveFileCleared(disk, base);
          disk := disk.(files := disk.files - {[base]});
        }
        return;
      }
      if [base] !in disk.dirs {
        MissingCleared(disk, base);
        return true;
      }
      ok := EmptyFolder(stuck);
    }

    method EmptyFolder(stuck: set<Path>) returns (ok: bool)
      requires WellFormed(disk) && [base] !in disk.files
      modifies this`disk
      ensures ok <==> !IsStuck(old(disk), base, stuck)
      ensures if ok then disk == Cleared(old(disk), base) else PartlyCleared(old(disk), base, disk)
    {
      var names := set p | p in disk.dirs + disk.files.Keys && Inside(p, base) :: p[1];
      ghost var gone := {};
      AllNamesCleared(disk, base, names);
      StuckUnderName(disk, base, names, stuck);
      ghost var all := names;
      hide WithoutNames, Cleared, PartlyCleared, NameStuck, IsStuck;
      NoNames(disk, base);
      while names != {}
        invariant gone !! names && gone + names == all
        invariant disk == WithoutNames(old(disk), base, gone)
        invariant forall name :: name in gone ==> !NameStuck(old(disk), base, name, stuck)
        decreases |names|
      {
        var name :| name in names;
        OneNameMore(old(disk), base, gone, name, stuck);
        ok := !HoldsStuck(disk, base, name, stuck);
        disk := RemoveAll(disk, base, name, stuck);
        if !ok {
          return;
        }
        names := names - {name};
        gone := gone + {name};
      }
      assert gone == all;
      ok := true;
    }

    /** Extract a snapshot over the save, after a safety snapshot if there is anything to save. */
    method Restore(id: nat, copyOk: bool, faults: Faults, now: nat) returns (ok: bool, ghost z: Option<Entries>)
      requires WellFormed(disk)
      modifies this`rows, this`archives, this`disk
      ensures id in old(rows) && Content(old(View())) ==> ZipGives(old(disk), base, faults, z)
      ensures (View(), ok) == Restored(old(View()), id, copyOk, now, z)
    {
      hide Created, Unzipped, ArchiveOf;
      z := None;
      if id !in rows {
        return false, z;
      }
      var source: Option<Entries> := None;
      var copied := false;
      if HasContent(SaveOf(disk, base)) {
        if copyOk && id in archives {
          source := Some(archives[id]);
          copied := true;
        }
        var safety;
        safety, z := Create(true, faults, now);
      }
      if !copied && id in archives {
        source := Some(archives[id]);
      }
      disk, ok := UnzipTo(source, disk, base);
    }

    /**
     Back up the outgoing state, clear the save, change the active branch, restore the target's latest.
     Some files may be impossible to read or to delete, and each use of the store may fail.
     */
    method SwitchBranch(target: string, faults: Faults, stuck: set<Path>,
                        lookupOk: bool, updateOk: bool, listingOk: bool, now: nat)
      returns (ok: bool, ghost z: Option<Entries>, ghost trouble: Trouble)
      requires WellFormed(disk)
      modifies this`rows, this`archives, this`disk, this`active
      ensures ok && target != old(active) && Content(old(View())) ==> ZipGives(old(disk), base, faults, z)
      ensures (View(), ok) == Attempted(old(View()), target, now, z, trouble)
      ensures trouble.ClearFailed? ==> PartlyCleared(old(disk), base, trouble.left)
      ensures trouble.LookupFailed? <==> !lookupOk
      ensures lookupOk ==> (ok || Refused(old(View()), target, now, z) <==> trouble.NoTrouble?)
      ensures ok && target != old(active) ==> !IsStuck(old(disk), base, stuck) && updateOk && listingOk
    {
      hide Unzipped, ArchiveOf, Cleared, AfterPruning, PartlyCleared, IsStuck, FirstFree, Below, WithSnapshot;
      z, trouble := None, NoTrouble;
      if !lookupOk {
        trouble := LookupFailed;
        return false, z, trouble;
      }
      if active == target {
        return true, z, trouble;
      }
      if target !in branches {
        return false, z, trouble;
      }
      if HasContent(SaveOf(disk, base)) {
        var backup;
        backup, z := Create(true, faults, now);
        CreatedDisk(old(View()), active, true, now, z);
        if backup.None? {
          return false, z, trouble;
        }
      }
      assert disk == old(disk) && View() == BackedUp(old(View()), now, z).0;
      var cleared := ClearSavePath(stuck);
      if !cleared {
        trouble := ClearFailed(disk);
        return false, z, trouble;
      }
      if !updateOk {
        trouble := UpdateFailed;
        return false, z, trouble;
      }
      active := target;
      if !listingOk {
        trouble := ListingFailed;
        return false, z, trouble;
      }
      var snaps := ListSnapshots(rows, target);
      if |snaps| > 0 {
        FirstIsLatest(rows, target, snaps);
        var archive := if snaps[0] in archives then Some(archives[snaps[0]]) else None;
        var restored;
        disk, restored := UnzipTo(archive, disk, base);
      } else {
        EmptyListing(rows, target, snaps);
      }
      ok := true;
    }

    /** Remove a branch other than the active one with everything on it. */
    method DeleteBranch(branch: string)
      modifies this`rows, this`archives, this`branches
      ensures View() == WithoutBranch(old(View()), branch)
    {
      if branch == active {
        return;
      }
      var snaps := ListSnapshots(rows, branch);
      DropAll(snaps);
      branches := branches - {branch};
    }

    /** Add a branch; with copy it starts from the save as it is, or not at all. */
    method CreateBranch(name: string, copy: bool, faults: Faults, now: nat) returns (ok: bool, ghost z: Option<Entries>)
      requires WellFormed(disk)
      modifies this`rows, this`archives, this`disk, this`branches
      ensures ok && copy && Content(old(View())) ==> ZipGives(old(disk), base, faults, z)
      ensures (View(), ok) == Branched(old(View()), name, copy, now, z)
    {
      hide ArchiveOf, AfterPruning, CleanBranchName;
      z := None;
      var clean := CleanBranchName(name);
      if clean == "" || clean in branches {
        return false, z;
      }
      branches := branches + {clean};
      if copy && HasContent(SaveOf(disk, base)) {
        var seed;
        seed, z := CreateOnBranch(clean, true, faults, now);
        if seed.None? {
          DeleteBranch(clean);
          return false, z;
        }
      }
      ok := true;
    }

    method DeleteSnapshot(id: nat) returns (ok: bool)
      modifies this`rows, this`archives
      ensures ok <==> id in old(rows)
      ensures View() == WithoutSnapshot(old(View()), id)
    {
      ok := id in rows;
      Drop(id);
    }
  }

  // ----- What the methods' proofs use

  lemma EnsuredWellFormed(st: State)
    requires WellFormed(st.disk)
    ensures WellFormed(Ensured(st).disk)
  {
  }

  /** A name, a dot, and an extension that is not empty. */
  ghost predicate Extended(base: string, stem: string, ext: string) {
    base == stem + "." + ext && ext != "" && '.' !in ext
  }

  lemma {:induction false} ExtensionExists(base: string)
    requires HasExtension(base)
    ensures exists stem, ext :: Extended(base, stem, ext)
  {
    var last := base[|base| - 1];
    var front := base[..|base| - 1];
    assert base == front + [last];
    if front[|front| - 1] == '.' {
      var stem := front[..|front| - 1];
      assert base == stem + "." + [last];
      assert Extended(base, stem, [last]);
    } else {
      ExtensionExists(front);
      var stem, ext :| Extended(front, stem, ext);
      assert base == stem + "." + (ext + [last]);
      assert Extended(base, stem, ext + [last]);
    }
  }

  lemma ExtensionIff(base: string)
    ensures HasExtension(base) <==> exists stem, ext :: Extended(base, stem, ext)
  {
    if HasExtension(base) {
      ExtensionExists(base);
    }
    forall stem, ext | Extended(base, stem, ext) ensures HasExtension(base) {
      assert base[|base| - 1] == ext[|ext| - 1];
      assert base[|stem|] == '.';
    }
  }

  /** A missing save path becomes an empty folder exactly unless it ends in a dot and an extension. */
  lemma MissingSaveBecomesFolderIff(st: State)
    requires WellFormed(st.disk) && SaveOf(st.disk, st.base).Missing?
    ensures Ensured(st) == st.(disk := Ensured(st).disk) && Ensured(st).disk.files == st.disk.files
    ensures SaveOf(Ensured(st).disk, st.base) ==
            if exists stem, ext :: Extended(st.base, stem, ext) then Missing else Folder(EmptyTree)
  {
    ExtensionIff(st.base);
    if !HasExtension(st.base) {
      NothingInside(st.disk, st.base);
      hide WellFormed, HasExtension;
      assert forall q :: q != [] ==> Inside([st.base] + q, st.base);
      BelowIs(Ensured(st).disk, st.base, EmptyTree);
    }
  }

  lemma SaveFileCleared(t: Tree, base: string)
    requires WellFormed(t) && [base] in t.files
    ensures Cleared(t, base) == t.(files := t.files - {[base]})
  {
    NothingInside(t, base);
    assert forall p :: p in t.files ==> Has(t, p);
    assert forall p :: p in t.dirs ==> Has(t, p);
  }

  lemma MissingCleared(t: Tree, base: string)
    requires WellFormed(t) && [base] !in t.files && [base] !in t.dirs
    ensures Cleared(t, base) == t
    ensures forall stuck :: !IsStuck(t, base, stuck)
  {
    NothingInside(t, base);
    assert forall p :: p in t.files ==> Has(t, p);
    assert forall p :: p in t.dirs ==> Has(t, p);
  }

  ghost function WithoutNames(t: Tree, base: string, names: set<string>): Tree {
    Tree(set p | p in t.dirs && !(Inside(p, base) && p[1] in names),
         map p | p in t.files && !(Inside(p, base) && p[1] in names) :: t.files[p])
  }

  /** The file cannot be deleted. */
  predicate StuckAt(t: Tree, stuck: set<Path>, p: Path) {
    p in t.files && p in stuck
  }

  /** os.RemoveAll would fail on this name. */
  predicate HoldsStuck(t: Tree, base: string, name: string, stuck: set<Path>) {
    exists p :: p in stuck && StuckAt(t, stuck, p) && Inside(p, base) && p[1] == name
  }

  ghost predicate NameStuck(t: Tree, base: string, name: string, stuck: set<Path>) {
    HoldsStuck(t, base, name, stuck)
  }

  /** Something in the way of clearing the save. */
  ghost predicate IsStuck(t: Tree, base: string, stuck: set<Path>) {
    exists p :: p in stuck && StuckAt(t, stuck, p) && p != [] && p[0] == base
  }

  /** os.RemoveAll of one name in the save folder: what cannot be deleted stays, with the folders above it. */
  function RemoveAll(t: Tree, base: string, name: string, stuck: set<Path>): Tree {
    Tree(set p | p in t.dirs &&
        (!(Inside(p, base) && p[1] == name) || exists q :: q in stuck && StuckAt(t, stuck, q) && p <= q),
         map p | p in t.files && (!(Inside(p, base) && p[1] == name) || p in stuck) :: t.files[p])
  }

  lemma NoNames(t: Tree, base: string)
    ensures WithoutNames(t, base, {}) == t
  {
  }

  /** A name with nothing stuck in it goes whole; otherwise the folder is left partly cleared. */
  lemma OneNameMore(t: Tree, base: string, names: set<string>, name: string, stuck: set<Path>)
    requires WellFormed(t) && name !in names && [base] !in t.files
    ensures
      var cur := WithoutNames(t, base, names);
      && (HoldsStuck(cur, base, name, stuck) <==> NameStuck(t, base, name, stuck))
      && (!NameStuck(t, base, name, stuck) ==>
          WithoutNames(t, base, names + {name}) == RemoveAll(cur, base, name, stuck))
      && (NameStuck(t, base, name, stuck) ==>
          PartlyCleared(t, base, RemoveAll(cur, base, name, stuck)) && IsStuck(t, base, stuck))
  {
    var cur := WithoutNames(t, base, names);
    SameStuck(t, base, names, name, stuck);
    if NameStuck(t, base, name, stuck) {
      LeftByRemoveAll(t, base, names, name, stuck);
    } else {
      RemovedWhole(t, base, names, name, stuck);
    }
  }

  lemma SameStuck(t: Tree, base: string, names: set<string>, name: string, stuck: set<Path>)
    requires name !in names
    ensures HoldsStuck(WithoutNames(t, base, names), base, name, stuck) <==> NameStuck(t, base, name, stuck)
  {
    var cur := WithoutNames(t, base, names);
    forall p | Inside(p, base) && p[1] == name ensures StuckAt(cur, stuck, p) <==> StuckAt(t, stuck, p) {
    }
  }

  lemma LongerPathInside(p: Path, q: Path, base: string, name: string)
    requires Inside(p, base) && p[1] == name && p <= q
    ensures Inside(q, base) && q[1] == name
  {
  }

  lemma RemovedWhole(t: Tree, base: string, names: set<string>, name: string, stuck: set<Path>)
    requires name !in names && !HoldsStuck(WithoutNames(t, base, names), base, name, stuck)
    ensures WithoutNames(t, base, names + {name}) == RemoveAll(WithoutNames(t, base, names), base, name, stuck)
  {
    var cur := WithoutNames(t, base, names);
    forall p, q: Path | p in cur.dirs && Inside(p, base) && p[1] == name && q in stuck &&
        StuckAt(cur, stuck, q) ensures !(p <= q) {
      if p <= q {
        LongerPathInside(p, q, base, name);
      }
    }
    forall p | p in cur.files && Inside(p, base) && p[1] == name ensures p !in stuck {
      assert p in stuck ==> StuckAt(cur, stuck, p);
    }
    var whole, removed := WithoutNames(t, base, names + {name}), RemoveAll(cur, base, name, stuck);
    assert whole.dirs == removed.dirs;
    assert whole.files == removed.files;
  }

  lemma LeftByRemoveAll(t: Tree, base: string, names: set<string>, name: string, stuck: set<Path>)
    requires WellFormed(t) && [base] !in t.files
    ensures PartlyCleared(t, base, RemoveAll(WithoutNames(t, base, names), base, name, stuck))
  {
    var cur := WithoutNames(t, base, names);
    var left := RemoveAll(cur, base, name, stuck);
    forall p: Path, k: nat | Has(left, p) && 0 < k < |p| ensures p[..k] in left.dirs {
      assert Has(t, p) && p[..k] in t.dirs;
      assert k > 1 ==> p[..k][1] == p[1];
      if k > 1 && Inside(p, base) && p[1] == name {
        var q :| q in stuck && StuckAt(cur, stuck, q) && p <= q;
        assert p[..k] <= q;
      }
    }
  }

  lemma SaveFileStuck(t: Tree, base: string, stuck: set<Path>)
    requires WellFormed(t) && [base] in t.files
    ensures IsStuck(t, base, stuck) <==> [base] in stuck
    ensures PartlyCleared(t, base, t)
  {
    NothingInside(t, base);
    assert forall p :: StuckAt(t, stuck, p) ==> Has(t, p);
    assert [base] in stuck ==> StuckAt(t, stuck, [base]);
  }

  /** A save that is stuck is so under one of its names. */
  lemma StuckUnderName(t: Tree, base: string, names: set<string>, stuck: set<Path>)
    requires [base] !in t.files && names == set p | p in t.dirs + t.files.Keys && Inside(p, base) :: p[1]
    ensures IsStuck(t, base, stuck) <==> exists name :: name in names && NameStuck(t, base, name, stuck)
  {
    if IsStuck(t, base, stuck) {
      var p :| p in stuck && StuckAt(t, stuck, p) && p != [] && p[0] == base;
      assert |p| == 1 ==> p == [base];
      assert p in t.dirs + t.files.Keys && Inside(p, base);
      assert NameStuck(t, base, p[1], stuck);
    }
  }

  lemma AllNamesCleared(t: Tree, base: string, names: set<string>)
    requires [base] !in t.files && names == set p | p in t.dirs + t.files.Keys && Inside(p, base) :: p[1]
    ensures WithoutNames(t, base, names) == Cleared(t, base)
  {
    assert forall p: Path :: |p| == 1 && p[0] == base ==> p == [base];
    assert forall p :: p in t.files && p != [] && p[0] == base ==> Inside(p, base);
  }

  lemma FirstIsLatest(rows: Rows, branch: string, ids: seq<nat>)
    requires NewestFirst(ids) && |ids| > 0
    requires forall id :: id in ids <==> id in rows && rows[id].branch == branch
    ensures Latest(rows, branch) == Some(ids[0])
  {
    assert ids[0] in ids;
    assert IsLatest(rows, branch, ids[0]);
  }

  lemma EmptyListing(rows: Rows, branch: string, ids: seq<nat>)
    requires ids == [] && forall id :: id in ids <==> id in rows && rows[id].branch == branch
    ensures Latest(rows, branch) == None
  {
  }

  lemma PruneOneMore(rows: Rows, archives: map<nat, Entries>, limits: Limits, done: set<string>, branch: string,
                     beyond: seq<nat>)
    requires branch !in done
    requires
      var cur := Pruned(rows, limits, done);
      forall id :: id in beyond <==> id in cur && cur[id].branch == branch && Beyond(cur, limits, id)
    ensures
      var cur, next := Pruned(rows, limits, done), Pruned(rows, limits, done + {branch});
      var kept := Surviving(archives, rows, cur);
      && next == (map id | id in cur && id !in beyond :: cur[id])
      && Surviving(archives, rows, next) == (map id | id in kept && !(id in cur && id in beyond) :: kept[id])
  {
    hide Pruned, Beyond;
    OneBranchMore(rows, limits, done, branch, beyond);
    PrunedIsPart(rows, limits, done);
  }

  lemma PrunedIsPart(rows: Rows, limits: Limits, branches: set<string>)
    ensures Pruned(rows, limits, branches).Keys <= rows.Keys
  {
  }

  lemma NothingPruned(rows: Rows, archives: map<nat, Entries>, limits: Limits)
    ensures Pruned(rows, limits, {}) == rows
    ensures Surviving(archives, rows, rows) == archives
  {
  }

  /** Creating a snapshot touches the disk only by creating a missing save folder. */
  lemma CreatedDisk(st: State, branch: string, auto: bool, now: nat, z: Option<Entries>)
    ensures Created(st, branch, auto, now, z).0.disk == Ensured(st).disk
    ensures Content(st) ==> Ensured(st) == st
  {
  }
}
