/** Leaving a branch and coming back (internal/snapshot/snapshot.go, SwitchBranch and CreateBranch). */
module BranchRoundTrip {
  import opened Basics
  import opened SaveTrees
  import opened Archives
  import opened ArchiveRoundTrip
  import opened Retention
  import opened Snapshots
  import opened BranchHistory

  /** The latest snapshot of a branch and what its archive holds. */
  ghost predicate Holds(st: State, branch: string, id: nat, entries: Entries) {
    && branch in st.branches && Latest(st.rows, branch) == Some(id)
    && id in st.archives && st.archives[id] == entries
  }

  lemma LatestIs(rows: Rows, branch: string, id: nat)
    requires IsLatest(rows, branch, id)
    ensures Latest(rows, branch) == Some(id)
  {
  }

  /** The newest of a branch is the newest of its kind, so it is within any limit. */
  lemma LatestNotBeyond(rows: Rows, limits: Limits, branch: string, id: nat)
    requires Latest(rows, branch) == Some(id)
    ensures !Beyond(rows, limits, id)
  {
    assert Newer(rows, rows[id], id) <= Above(OnBranch(rows, branch), id);
    assert Above(OnBranch(rows, branch), id) == {};
  }

  /** No rows are added to a branch, and its latest stays: still its latest. */
  lemma StaysLatest(st: State, after: State, branch: string, id: nat, entries: Entries)
    requires Holds(st, branch, id, entries) && KeptAsIs(st, after, id) && branch in after.branches
    requires forall j :: j in after.rows && after.rows[j].branch == branch ==>
        j in st.rows && st.rows[j].branch == branch
    ensures Holds(after, branch, id, entries)
  {
    assert forall j :: j in OnBranch(after.rows, branch) ==> j in OnBranch(st.rows, branch);
    LatestIs(after.rows, branch, id);
  }

  lemma CreatedElsewhere(st: State, other: string, auto: bool, now: nat, z: Option<Entries>, branch: string, id: nat,
                         entries: Entries)
    requires Sound(st) && Holds(st, branch, id, entries) && other != branch
    ensures Holds(Created(st, other, auto, now, z).0, branch, id, entries)
  {
    hide Sound, KeptAsIs, FirstFree, Beyond;
    LatestNotBeyond(st.rows, st.limits, branch, id);
    assert st.rows[id] != Row(other, auto);
    assert id in st.rows;
    CreatedKeepsOthers(st, other, auto, now, z, id);
    StaysLatest(st, Created(st, other, auto, now, z).0, branch, id, entries);
  }

  lemma ArrivedHolds(st: State, target: string, branch: string, id: nat, entries: Entries)
    requires Holds(st, branch, id, entries)
    ensures Holds(Arrived(st, target), branch, id, entries) && Arrived(st, target).active == target
  {
    hide Unzipped, Latest, Cleared;
  }

  /** Anything but going to the branch, deleting it, or deleting the one snapshot. */
  ghost predicate Leaves(a: Action, branch: string, id: nat) {
    match a
    case Switch(target, _, _, _) => target != branch
    case DropBranch(b) => b != branch
    case DropSnapshot(other) => other != id
    case _ => true
  }

  lemma HoldsStep(st: State, a: Action, branch: string, id: nat, entries: Entries)
    requires Sound(st) && Holds(st, branch, id, entries) && st.active != branch && Leaves(a, branch, id)
    ensures Holds(Next(st, a), branch, id, entries) && Next(st, a).active != branch
  {
    hide Sound, Holds, Created, Unpacked, Arrived, Content, CleanBranchName;
    match a
    case Snapshot(auto, now, z) =>
      CreatedElsewhere(st, st.active, auto, now, z, branch, id, entries);
      CreatedFrame(st, st.active, auto, now, z);
    case Rollback(target, copyOk, now, z) =>
      CreatedElsewhere(st, st.active, true, now, z, branch, id, entries);
      CreatedFrame(st, st.active, true, now, z);
      RestoredHolds(st, target, copyOk, now, z, branch, id, entries);
    case NewBranch(name, copy, now, z) =>
      BranchedHolds(st, name, copy, now, z, branch, id, entries);
    case Switch(target, now, z, trouble) =>
      CreatedElsewhere(st, st.active, true, now, z, branch, id, entries);
      CreatedFrame(st, st.active, true, now, z);
      ArrivedHolds(Created(st, st.active, true, now, z).0, target, branch, id, entries);
      ArrivedHolds(st, target, branch, id, entries);
      AttemptedHolds(st, target, now, z, trouble, branch, id, entries);
    case DropBranch(other) =>
      DroppedHolds(st, other, branch, id, entries);
    case DropSnapshot(other) =>
      SnapshotDroppedHolds(st, other, branch, id, entries);
    case Play(disk) =>
      SameRowsHold(st, st.(disk := disk), branch, id, entries);
  }

  lemma SnapshotDroppedHolds(st: State, other: nat, branch: string, id: nat, entries: Entries)
    requires Holds(st, branch, id, entries) && other != id
    ensures Holds(WithoutSnapshot(st, other), branch, id, entries)
  {
    var after := WithoutSnapshot(st, other);
    assert OnBranch(after.rows, branch) <= OnBranch(st.rows, branch);
    LatestIs(after.rows, branch, id);
  }

  lemma SameRowsHold(st: State, after: State, branch: string, id: nat, entries: Entries)
    requires Holds(st, branch, id, entries) && after.rows == st.rows && after.archives == st.archives &&
        st.branches <= after.branches
    ensures Holds(after, branch, id, entries)
  {
  }

  lemma AttemptedHolds(st: State, target: string, now: nat, z: Option<Entries>, trouble: Trouble, branch: string,
                       id: nat, entries: Entries)
    requires target != branch && st.active != branch && BackedUp(st, now, z).0.active != branch
    requires Holds(st, branch, id, entries)
    requires Holds(BackedUp(st, now, z).0, branch, id, entries)
    requires Holds(Switched(st, target, now, z).0, branch, id, entries) &&
        Switched(st, target, now, z).0.active != branch
    ensures Holds(Attempted(st, target, now, z, trouble).0, branch, id, entries)
    ensures Attempted(st, target, now, z, trouble).0.active != branch
  {
    hide BackedUp, Switched, Refused, Latest, Cleared;
  }

  lemma RestoredHolds(st: State, target: nat, copyOk: bool, now: nat, z: Option<Entries>, branch: string, id: nat,
                      entries: Entries)
    requires Holds(st, branch, id, entries) && st.active != branch
    requires Holds(Created(st, st.active, true, now, z).0, branch, id, entries)
    ensures Holds(Restored(st, target, copyOk, now, z).0, branch, id, entries)
    ensures Restored(st, target, copyOk, now, z).0.active != branch
  {
    hide Created, Unzipped, Latest, Content;
    CreatedFrame(st, st.active, true, now, z);
  }

  lemma BranchedHolds(st: State, name: string, copy: bool, now: nat, z: Option<Entries>, branch: string, id: nat,
                      entries: Entries)
    requires Sound(st) && Holds(st, branch, id, entries) && st.active != branch
    ensures Holds(Branched(st, name, copy, now, z).0, branch, id, entries)
    ensures Branched(st, name, copy, now, z).0.active != branch
  {
    hide WellFormed, GoodArchive, Created, Latest, Content, CleanBranchName;
    var clean := CleanBranchName(name);
    var st1 := st.(branches := st.branches + {clean});
    if clean !in st.branches {
      assert Sound(st1);
      SameRowsHold(st, st1, branch, id, entries);
      CreatedElsewhere(st1, clean, true, now, z, branch, id, entries);
      CreatedFrame(st1, clean, true, now, z);
      DroppedHolds(Created(st1, clean, true, now, z).0, clean, branch, id, entries);
    }
  }

  lemma DroppedHolds(st: State, other: string, branch: string, id: nat, entries: Entries)
    requires Holds(st, branch, id, entries) && other != branch
    ensures Holds(WithoutBranch(st, other), branch, id, entries) && WithoutBranch(st, other).active == st.active
  {
    var after := WithoutBranch(st, other);
    assert OnBranch(after.rows, branch) == OnBranch(st.rows, branch);
    assert IsLatest(st.rows, branch, id);
    LatestIs(after.rows, branch, id);
  }

  /** Whatever happens on other branches, a branch's latest snapshot and its archive stay. */
  lemma {:induction false} HoldsThroughRun(st: State, actions: seq<Action>, branch: string, id: nat, entries: Entries)
    requires Sound(st) && PossibleRun(st, actions) && Holds(st, branch, id, entries) && st.active != branch
    requires forall a :: a in actions ==> Leaves(a, branch, id)
    ensures Holds(Run(st, actions), branch, id, entries) && Run(st, actions).active != branch
  {
    hide Next, Possible, Holds, Sound, Leaves;
    if actions != [] {
      var last := |actions| - 1;
      PossiblePrefix(st, actions, last);
      RunSound(st, actions[..last]);
      HoldsThroughRun(st, actions[..last], branch, id, entries);
      HoldsStep(Run(st, actions[..last]), actions[last], branch, id, entries);
    }
  }

  // ----- Leaving

  ghost predicate Stored(st: State, id: nat, row: Row, entries: Entries) {
    id in st.rows && st.rows[id] == row && id in st.archives && st.archives[id] == entries
  }

  /**
   The backup a switch takes is still stored after the pruning that follows it exactly if fewer later
   automatic snapshots are on the branch than may be kept; otherwise row and archive are both gone.
   */
  lemma BackupStoredIff(st: State, id: nat, entries: Entries)
    requires Sound(st) && id !in Taken(st)
    ensures
      var row, after := Row(st.active, true), WithSnapshot(st, id, Row(st.active, true), entries);
      && (Stored(after, id, row, entries) <==> st.limits.auto <= 0 || |Newer(st.rows, row, id)| < st.limits.auto)
      && (!Stored(after, id, row, entries) ==> id !in after.rows && id !in after.archives)
  {
    hide WellFormed, GoodArchive;
    NewSnapshotSurvivesIff(st.rows, st.limits, st.branches, id, Row(st.active, true));
  }

  /**
   A switch that succeeds has made a snapshot of the save it found on the branch it leaves. It is
   stored unless the branch's limit is used up by later ones, and it is the branch's latest exactly if
   none there carries a later time.
   */
  lemma SwitchBacksUpIff(st: State, target: string, now: nat, z: Option<Entries>)
    requires Sound(st) && SaveOf(st.disk, st.base) !in {Missing, Folder(EmptyTree)}
    requires target != st.active && Switched(st, target, now, z).1
    ensures z.Some? && FirstFree(Taken(st), now, Attempts).Some?
    ensures
      var id := FirstFree(Taken(st), now, Attempts).value;
      var row, after := Row(st.active, true), Switched(st, target, now, z).0;
      && after.active == target
      && (Stored(after, id, row, z.value) <==> st.limits.auto <= 0 || |Newer(st.rows, row, id)| < st.limits.auto)
      && (Holds(after, st.active, id, z.value) <==> forall j :: j in OnBranch(st.rows, st.active) ==> j < id)
  {
    assert Content(st);
    hide Unzipped, Latest, Cleared, WellFormed, GoodArchive, AfterPruning, FirstFree, Content, Newer;
    assert Ensured(st) == st by {
      CreatedDisk(st, st.active, true, now, z);
    }
    var id := FirstFree(Taken(st), now, Attempts).value;
    var st1 := Created(st, st.active, true, now, z).0;
    assert st1 == WithSnapshot(st, id, Row(st.active, true), z.value);
    BackedUpIff(st, st.active, id, z.value);
    BackupStoredIff(st, id, z.value);
    ArrivedKeepsRows(st1, target);
    CreatedFrame(st, st.active, true, now, z);
  }

  /**
   What a switch that reports failure leaves. If the store could not be read, the branch is unknown or
   the backup failed, nothing has changed at all. Otherwise part or all of the save is gone, and a
   snapshot of it has been made on the branch it was on, stored unless later ones use up the limit. The
   active branch is still that one, unless all that failed is listing the snapshots of the new one.
   */
  lemma FailedSwitch(st: State, target: string, now: nat, z: Option<Entries>, trouble: Trouble)
    requires Sound(st) && !Attempted(st, target, now, z, trouble).1
    ensures
      var after := Attempted(st, target, now, z, trouble).0;
      var early := trouble.LookupFailed? || Refused(st, target, now, z);
      && after.branches == st.branches
      && (early ==> after == st)
      && (!early ==>
            && after.active == (if trouble.ListingFailed? then target else st.active)
            && after.disk == (if trouble.ClearFailed? then trouble.left else Cleared(st.disk, st.base))
            && (!Content(st) ==> after.rows == st.rows && after.archives == st.archives)
            && (Content(st) ==>
                  && z.Some? && FirstFree(Taken(st), now, Attempts).Some?
                  && var id, row := FirstFree(Taken(st), now, Attempts).value, Row(st.active, true);
                     Stored(after, id, row, z.value) <==>
                         st.limits.auto <= 0 || |Newer(st.rows, row, id)| < st.limits.auto))
  {
    hide Cleared, WellFormed, GoodArchive, AfterPruning, FirstFree, Content, Newer, Arrived;
    CreatedDisk(st, st.active, true, now, z);
    CreatedFrame(st, st.active, true, now, z);
    CreatedFails(st, st.active, true, now, z);
    if Content(st) && !trouble.LookupFailed? && !Refused(st, target, now, z) {
      var id := FirstFree(Taken(st), now, Attempts).value;
      assert Created(st, st.active, true, now, z).0 == WithSnapshot(st, id, Row(st.active, true), z.value);
      BackupStoredIff(st, id, z.value);
    }
  }

  lemma ArrivedKeepsRows(st: State, target: string)
    ensures
      var after := Arrived(st, target);
      && after.rows == st.rows && after.archives == st.archives && after.branches == st.branches &&
          after.base == st.base
      && after.active == target
  {
    hide Unzipped, Latest, Cleared;
  }

  lemma BackedUpIff(st: State, branch: string, id: nat, entries: Entries)
    requires Sound(st) && branch in st.branches && id !in Taken(st)
    ensures Holds(WithSnapshot(st, id, Row(branch, true), entries), branch, id, entries) <==>
            forall j :: j in OnBranch(st.rows, branch) ==> j < id
  {
    hide WellFormed, GoodArchive, Beyond;
    var after := WithSnapshot(st, id, Row(branch, true), entries);
    var rows := st.rows[id := Row(branch, true)];
    PrunedOnBranch(rows, st.limits, st.branches, branch);
    assert OnBranch(rows, branch) == OnBranch(st.rows, branch) + {id};
    if forall j :: j in OnBranch(st.rows, branch) ==> j < id {
      assert IsLatest(rows, branch, id);
      LatestIs(rows, branch, id);
      LatestNotBeyond(rows, st.limits, branch, id);
      LatestIs(after.rows, branch, id);
    } else if Holds(after, branch, id, entries) {
      LatestOutlivesPruning(rows, st.limits, st.branches, branch);
    }
  }

  lemma PrunedOnBranch(rows: Rows, limits: Limits, branches: set<string>, branch: string)
    ensures OnBranch(Pruned(rows, limits, branches), branch) <= OnBranch(rows, branch)
  {
  }

  lemma LatestOutlivesPruning(rows: Rows, limits: Limits, branches: set<string>, branch: string)
    ensures Latest(Pruned(rows, limits, branches), branch) == Latest(rows, branch)
  {
    var after := Pruned(rows, limits, branches);
    PrunedOnBranch(rows, limits, branches, branch);
    if Latest(rows, branch).Some? {
      var id := Latest(rows, branch).value;
      LatestNotBeyond(rows, limits, branch, id);
      LatestIs(after, branch, id);
    }
  }

  // ----- Coming back

  /** The save path just before the incoming snapshot is extracted. */
  function Shell(s: Save): Save {
    if s.Folder? then Folder(EmptyTree) else Missing
  }

  /** Coming back to a branch: what its latest archive was made of, less what could not be read then. */
  lemma ReturnIff(st: State, branch: string, id: nat, s: Save, entries: Entries, faults: Faults, now: nat,
                  z: Option<Entries>)
    requires Sound(st) && st.active != branch && Holds(st, branch, id, entries)
    requires WellFormedSave(s) && ArchiveOf(entries, s, st.base, faults)
    requires Switched(st, branch, now, z).1
    ensures
      var back, kept := SaveOf(Switched(st, branch, now, z).0.disk, st.base), Archived(s, st.base, faults);
      var fits := Restorable(kept, st.base, Shell(SaveOf(st.disk, st.base)));
      (back == kept <==> fits) && (back == s <==> fits && kept == s)
  {
    hide Created, Unzipped, Latest, Cleared, WellFormed, GoodArchive, Restorable, ArchiveOf, Below, Archived;
    CreatedDisk(st, st.active, true, now, z);
    CreatedElsewhere(st, st.active, true, now, z, branch, id, entries);
    CreatedFrame(st, st.active, true, now, z);
    ClearedKeepsShape(st.disk, st.base);
    ComesBackIff(Cleared(st.disk, st.base), st.base, s, entries, faults);
  }

  /**
   The branch round trip: leave a branch, the clock past its snapshots; let anything happen on other
   branches, the player rewriting the save folder at will; come back. What is found is the part of the
   save that could be read on leaving, exactly if it fits what is then at the save path: the same
   kind, and no top-level name with two leading dots. It is the whole save exactly if nothing was left
   out.
   */
  lemma BranchRoundTripIff(st: State, target: string, now: nat, id: nat, z: Option<Entries>, faults: Faults,
                           actions: seq<Action>, later: nat, y: Option<Entries>)
    requires FirstFree(Taken(st), now, Attempts) == Some(id)
    requires Sound(st) && Content(st) && target != st.active
    requires forall j :: j in OnBranch(st.rows, st.active) ==> j < now
    requires z.Some? && ArchiveOf(z.value, SaveOf(st.disk, st.base), st.base, faults)
    requires Switched(st, target, now, z).1
    requires PossibleRun(Switched(st, target, now, z).0, actions) && forall a :: a in actions ==>
        Leaves(a, st.active, id)
    requires Switched(Run(Switched(st, target, now, z).0, actions), st.active, later, y).1
    ensures
      var away := Run(Switched(st, target, now, z).0, actions);
      var back := SaveOf(Switched(away, st.active, later, y).0.disk, st.base);
      var s := SaveOf(st.disk, st.base);
      var kept := Archived(s, st.base, faults);
      var fits := Restorable(kept, st.base, Shell(SaveOf(away.disk, st.base)));
      (back == kept <==> fits) && (back == s <==> fits && kept == s)
  {
    assert SaveOf(st.disk, st.base) !in {Missing, Folder(EmptyTree)};
    hide Sound, Content, Switched, Latest, Restorable, ArchiveOf, Holds, Below, Possible, Leaves, Archived;
    SwitchBacksUpIff(st, target, now, z);
    var st1 := Switched(st, target, now, z).0;
    LeftSound(st, target, now, z, faults);
    HoldsThroughRun(st1, actions, st.active, id, z.value);
    RunSound(st1, actions);
    RunBase(st1, actions);
    SaveWellFormed(st);
    ReturnIff(Run(st1, actions), st.active, id, SaveOf(st.disk, st.base), z.value, faults, later, y);
  }

  lemma SaveWellFormed(st: State)
    requires Sound(st)
    ensures WellFormedSave(SaveOf(st.disk, st.base))
  {
    hide Below, WellFormed;
    BelowWellFormed(st.disk, st.base);
  }

  lemma LeftSound(st: State, target: string, now: nat, z: Option<Entries>, faults: Faults)
    requires Sound(st) && Content(st) && z.Some? && ArchiveOf(z.value, SaveOf(st.disk, st.base), st.base, faults)
    ensures Sound(Switched(st, target, now, z).0) && Switched(st, target, now, z).0.base == st.base
  {
    hide Sound, Switched, ArchiveOf, Possible, Next;
    var a := Switch(target, now, z, NoTrouble);
    LeavingIsPossible(st, target, now, z, faults);
    NextSound(st, a);
    NextBase(st, a);
    NextIsSwitched(st, target, now, z);
  }

  lemma LeavingIsPossible(st: State, target: string, now: nat, z: Option<Entries>, faults: Faults)
    requires Content(st) && z.Some? && ArchiveOf(z.value, SaveOf(st.disk, st.base), st.base, faults)
    ensures Possible(st, Switch(target, now, z, NoTrouble))
  {
    hide ArchiveOf, Below;
    CreatedDisk(st, st.active, true, now, z);
  }

  lemma NextIsSwitched(st: State, target: string, now: nat, z: Option<Entries>)
    ensures Next(st, Switch(target, now, z, NoTrouble)) == Switched(st, target, now, z).0
  {
    hide Switched, Refused;
  }

  lemma NextBase(st: State, a: Action)
    ensures Next(st, a).base == st.base
  {
    hide Unzipped, Pruned, FirstFree, Latest, Cleared, CleanBranchName, SaveOf, Below;
  }

  lemma {:induction false} RunBase(st: State, actions: seq<Action>)
    ensures Run(st, actions).base == st.base
  {
    hide Next;
    if actions != [] {
      RunBase(st, actions[..|actions| - 1]);
      NextBase(Run(st, actions[..|actions| - 1]), actions[|actions| - 1]);
    }
  }

  // ----- Straight there and back

  predicate SingleFileArchive(entries: Entries) {
    |entries| == 1 && entries[0].FileEntry?
  }

  /** A lone file is archived at top level. */
  lemma SingleEntryAtTop(entries: Entries, base: string)
    requires GoodArchive(entries, base) && SingleFileArchive(entries)
    ensures |entries[0].path| == 1
  {
    var s :| WellFormedSave(s) && ArchiveOf(entries, s, base, map[]);
    if s.Folder? {
      LonePath(entries, Readable(s.tree, base, map[]));
    }
  }

  lemma LonePath(entries: Entries, tree: Tree)
    requires WellFormed(tree) && Lists(entries, tree) && SingleFileArchive(entries)
    ensures |entries[0].path| == 1
  {
    var p := entries[0].path;
    assert EntryOf(entries[0], tree);
    assert Has(tree, p);
    if |p| > 1 {
      FirstIsFolder(tree, p);
    }
  }

  /** Extracting a lone top-level file creates no folder. */
  lemma LoneFileMakesNoFolder(t: Tree, base: string, entries: Entries)
    requires SingleFileArchive(entries) && |entries[0].path| == 1 && SaveOf(t, base).Missing?
    ensures !SaveOf(Unzipped(t, base, entries).0, base).Folder?
  {
    var e := entries[0];
    var ready := t.(files := t.files - {[base]});
    assert entries[1..] == [];
    NoFoldersNeeded(ready);
    var dest: Path := [] + e.path;
    assert dest[..|dest| - 1] == [];
    assert ExtractEntry(ready, [], e).Some? ==> ExtractEntry(ready, [], e).value.dirs == t.dirs;
    assert FileMode(t, base, entries) && Prepared(t, base, entries) == ready;
    assert Extract(ready, [], entries).0.dirs == t.dirs;
  }

  lemma FolderModeLeavesFolder(t: Tree, base: string, entries: Entries)
    requires WellFormed(t) && !FileMode(t, base, entries)
    ensures SaveOf(Unzipped(t, base, entries).0, base).Folder?
  {
    hide Extract, Below;
    UnzippedWellFormed(t, base, entries);
    FoldersStay(Prepared(t, base, entries), [base], entries);
  }

  lemma ArrivedKind(st: State, target: string)
    requires Sound(st)
    ensures
      SaveOf(Arrived(st, target).disk, st.base).Folder? <==>
      SaveOf(st.disk, st.base).Folder? ||
      (Latest(st.rows, target).Some? && !SingleFileArchive(st.archives[Latest(st.rows, target).value]))
  {
    hide Unzipped, Latest, Cleared, WellFormed, GoodArchive, Below;
    ClearedKeepsShape(st.disk, st.base);
    var cleared := Cleared(st.disk, st.base);
    if Latest(st.rows, target).Some? {
      var entries := st.archives[Latest(st.rows, target).value];
      if SaveOf(cleared, st.base).Folder? {
        FolderStaysFolder(cleared, st.base, entries);
      } else if SingleFileArchive(entries) {
        SingleEntryAtTop(entries, st.base);
        LoneFileMakesNoFolder(cleared, st.base, entries);
      } else {
        FolderModeLeavesFolder(cleared, st.base, entries);
      }
    }
  }

  lemma CreatedElsewhereLatest(st: State, now: nat, z: Option<Entries>, target: string)
    requires Sound(st) && target != st.active && target in st.branches
    ensures
      var after := Created(st, st.active, true, now, z).0;
      && Latest(after.rows, target) == Latest(st.rows, target)
      && (Latest(st.rows, target).Some? ==>
            var id := Latest(st.rows, target).value;
            id in after.archives && after.archives[id] == st.archives[id])
  {
    hide Sound, FirstFree, Beyond;
    var after := Created(st, st.active, true, now, z).0;
    if Latest(st.rows, target).Some? {
      var id := Latest(st.rows, target).value;
      assert id in st.archives by { RowHasArchive(st, id); }
      CreatedElsewhere(st, st.active, true, now, z, target, id, st.archives[id]);
    } else {
      forall id ensures id !in OnBranch(after.rows, target) {
        assert id in st.rows && st.rows[id].branch == target ==> id in OnBranch(st.rows, target);
      }
      assert OnBranch(after.rows, target) == {};
    }
  }

  lemma RowHasArchive(st: State, id: nat)
    requires Sound(st) && id in st.rows
    ensures id in st.archives
  {
  }

  /** Whether a save made like s would be found again after a visit to target; checkable before leaving. */
  ghost predicate ReturnsDirectly(st: State, target: string, s: Save)
    requires Sound(st)
  {
    match s
    case Missing => false
    case Folder(tree) => PlainTop(tree)
    case File(_) =>
      !DotDot(st.base) &&
      (Latest(st.rows, target).Some? ==> SingleFileArchive(st.archives[Latest(st.rows, target).value]))
  }

  /**
   There and straight back: of a folder save, what could be read always returns (names with two
   leading dots apart); a file save returns exactly if the other branch is empty or its latest snapshot
   is a single file.
   */
  lemma DirectRoundTripIff(st: State, target: string, now: nat, z: Option<Entries>, faults: Faults, later: nat,
                           y: Option<Entries>)
    requires Sound(st) && Content(st) && target != st.active
    requires forall j :: j in OnBranch(st.rows, st.active) ==> j < now
    requires z.Some? && ArchiveOf(z.value, SaveOf(st.disk, st.base), st.base, faults)
    requires Switched(st, target, now, z).1 && Switched(Switched(st, target, now, z).0, st.active, later, y).1
    ensures
      var back := SaveOf(Switched(Switched(st, target, now, z).0, st.active, later, y).0.disk, st.base);
      var s := SaveOf(st.disk, st.base);
      var kept := Archived(s, st.base, faults);
      && (back == kept <==> ReturnsDirectly(st, target, kept))
      && (back == s <==> ReturnsDirectly(st, target, kept) && kept == s)
  {
    hide Created, Latest, Arrived, ArchiveOf, Holds, Below, FirstFree, PlainTop, WellFormed, GoodArchive;
    SwitchBacksUpIff(st, target, now, z);
    var away := Switched(st, target, now, z).0;
    assert away == Run(away, []);
    BranchRoundTripIff(st, target, now, FirstFree(Taken(st), now, Attempts).value, z, faults, [], later, y);
    var created := Created(st, st.active, true, now, z).0;
    CreatedFrame(st, st.active, true, now, z);
    CreatedDisk(st, st.active, true, now, z);
    CreatedSound(st, st.active, true, now, z);
    CreatedElsewhereLatest(st, now, z, target);
    ArrivedKind(created, target);
    assert away == Arrived(created, target);
  }

  /**
   A single-file save without an extension, an empty branch, one snapshot taken there: the missing
   save path was made a folder, so the file does not come back to it.
   */
  lemma SnapshotOnEmptyBranchLosesFile(st: State, target: string, now: nat, id: nat, z: Option<Entries>, auto: bool,
                                       meanwhile: nat, x: Option<Entries>,
                                       later: nat, y: Option<Entries>)
    requires FirstFree(Taken(st), now, Attempts) == Some(id)
    requires Sound(st) && SaveOf(st.disk, st.base).File? && !HasExtension(st.base)
    requires target != st.active && target in st.branches && OnBranch(st.rows, target) == {}
    requires forall j :: j in OnBranch(st.rows, st.active) ==> j < now
    requires z.Some? && ArchiveOf(z.value, SaveOf(st.disk, st.base), st.base, map[])
    requires
      var away := Switched(st, target, now, z).0;
      && Possible(away, Snapshot(auto, meanwhile, x))
      && Switched(Next(away, Snapshot(auto, meanwhile, x)), st.active, later, y).1
    ensures
      var away := Next(Switched(st, target, now, z).0, Snapshot(auto, meanwhile, x));
      var back := Switched(away, st.active, later, y).0;
      && SaveOf(away.disk, st.base).Folder?
      && SaveOf(back.disk, st.base) != SaveOf(st.disk, st.base)
  {
    hide Created, Latest, Arrived, ArchiveOf, Holds, FirstFree, WellFormed, GoodArchive, Possible, PossibleRun;
    var away := Switched(st, target, now, z).0;
    var a := Snapshot(auto, meanwhile, x);
    var created := Created(st, st.active, true, now, z).0;
    CreatedSome(st, now, z, id);
    CreatedFrame(st, st.active, true, now, z);
    CreatedDisk(st, st.active, true, now, z);
    CreatedElsewhereLatest(st, now, z, target);
    ArrivedEmpty(created, target);
    CreatedDisk(away, away.active, auto, meanwhile, x);
    OneStepRun(away, a);
    BranchRoundTripIff(st, target, now, id, z, map[], [a], later, y);
    ArchivedAll(SaveOf(st.disk, st.base), st.base);
  }

  lemma CreatedSome(st: State, now: nat, z: Option<Entries>, id: nat)
    requires FirstFree(Taken(st), now, Attempts) == Some(id) && z.Some? && Content(st)
    ensures Created(st, st.active, true, now, z).1 == Some(id)
  {
    hide FirstFree, Below, AfterPruning;
  }

  lemma ArrivedEmpty(st: State, target: string)
    requires WellFormed(st.disk) && Latest(st.rows, target).None?
    ensures SaveOf(Arrived(st, target).disk, st.base) == Shell(SaveOf(st.disk, st.base))
    ensures Arrived(st, target).base == st.base
  {
    hide Cleared, WellFormed, Below;
    ClearedKeepsShape(st.disk, st.base);
  }

  lemma OneStepRun(st: State, a: Action)
    ensures Run(st, [a]) == Next(st, a)
    ensures Possible(st, a) ==> PossibleRun(st, [a])
  {
    hide Next, Possible;
    assert [a][..0] == [];
    assert Run(st, []) == st;
  }

  /** A save folder with one file, on the first of two branches; nothing snapshotted yet. */
  const Sample := State(map[], map[], {}, {"main", "alt"}, "main",
                        Tree({["save"]}, map[["save", "slot"] := []]), "save", Limits(1, 1))

  const SampleArchive: Entries := [FileEntry(["slot"], [])]

  const SampleTree := Tree({}, map[["slot"] := []])

  lemma SampleFolder()
    ensures SaveOf(Sample.disk, "save") == Folder(SampleTree)
  {
    hide Below;
    forall q ensures ["save"] + q == ["save", "slot"] <==> q == ["slot"] {
      assert (["save"] + q)[1..] == q && ["save", "slot"][1..] == ["slot"];
    }
    forall q ensures ["save"] + q == ["save"] <==> q == [] {
      assert (["save"] + q)[1..] == q && ["save"][1..] == [];
    }
    BelowIs(Sample.disk, "save", SampleTree);
  }

  lemma SampleArchived()
    ensures ArchiveOf(SampleArchive, Folder(SampleTree), "save", map[])
  {
    assert Readable(SampleTree, "save", map[]) == SampleTree;
    assert SampleArchive[0] in SampleArchive;
  }

  lemma SampleSound()
    ensures Sound(Sample)
  {
    forall p: Path, k: nat | Has(Sample.disk, p) && 0 < k < |p| ensures p[..k] in Sample.disk.dirs {
      assert p[..k] == ["save"];
    }
  }

  lemma SampleSave()
    ensures SaveOf(Sample.disk, "save") == Folder(SampleTree)
    ensures ArchiveOf(SampleArchive, SaveOf(Sample.disk, "save"), "save", map[])
    ensures Sound(Sample) && Content(Sample) && ReturnsDirectly(Sample, "alt", SaveOf(Sample.disk, "save"))
  {
    hide SaveOf, ArchiveOf, Sound;
    SampleFolder();
    SampleArchived();
    SampleSound();
    assert Sample.base == "save" && ["slot"] in SampleTree.files && ["slot"] !in EmptyTree.files;
    assert PlainTop(SampleTree) by {
      assert "slot"[0] != ".."[0];
    }
  }

  /** The round trip's hypotheses are met by that save: it goes and it comes back. */
  lemma SampleReturns()
    ensures
      var away := Switched(Sample, "alt", 1, Some(SampleArchive));
      var back := Switched(away.0, "main", 2, None);
      away.1 && back.1 && SaveOf(back.0.disk, "save") == SaveOf(Sample.disk, "save")
  {
    SampleSave();
    CreatedDisk(Sample, "main", true, 1, Some(SampleArchive));
    FirstFreeStep(Taken(Sample), 1, Attempts);
    hide Created, Latest, Arrived, ArchiveOf, Holds, Below, FirstFree, PlainTop, WellFormed, GoodArchive;
    var away := Switched(Sample, "alt", 1, Some(SampleArchive)).0;
    CreatedSome(Sample, 1, Some(SampleArchive), 1);
    var created := Created(Sample, "main", true, 1, Some(SampleArchive)).0;
    CreatedFrame(Sample, "main", true, 1, Some(SampleArchive));
    CreatedElsewhereLatest(Sample, 1, Some(SampleArchive), "alt");
    assert OnBranch(Sample.rows, "alt") == {};
    ArrivedEmpty(created, "alt");
    ArrivedKeepsRows(created, "alt");
    DirectRoundTripIff(Sample, "alt", 1, Some(SampleArchive), map[], 2, None);
    ArchivedAll(SaveOf(Sample.disk, "save"), "save");
  }

  // ----- A branch created as a copy

  /**
   Create a branch from the present save, then switch to it: what is there is the part of the save that
   could be read, whatever the clock says, unless a top-level name starts with two dots; and the save
   as it was exactly if nothing was left out.
   */
  lemma CopiedBranchKeepsSaveIff(st: State, name: string, now: nat, z: Option<Entries>, faults: Faults, later: nat,
                                 y: Option<Entries>)
    requires Sound(st) && Content(st)
    requires z.Some? && ArchiveOf(z.value, SaveOf(st.disk, st.base), st.base, faults)
    requires Branched(st, name, true, now, z).1
    requires Switched(Branched(st, name, true, now, z).0, CleanBranchName(name), later, y).1
    ensures
      var there := SaveOf(Switched(Branched(st, name, true, now, z).0, CleanBranchName(name), later, y).0.disk,
          st.base);
      var s := SaveOf(st.disk, st.base);
      var kept := Archived(s, st.base, faults);
      var plain := if kept.Folder? then PlainTop(kept.tree) else !DotDot(st.base);
      (there == kept <==> plain) && (there == s <==> plain && kept == s)
  {
    hide CleanBranchName, Created, Switched, ArchiveOf, Holds, Below, FirstFree, PlainTop, WellFormed, GoodArchive,
        WithSnapshot, SaveOf;
    var clean := CleanBranchName(name);
    var st1 := st.(branches := st.branches + {clean});
    assert Sound(st1);
    assert OnBranch(st1.rows, clean) == {};
    CreatedIs(st1, clean, now, z);
    CreatedFrame(st1, clean, true, now, z);
    CreatedDisk(st1, clean, true, now, z);
    CreatedSound(st1, clean, true, now, z);
    var id := FirstFree(Taken(st1), now, Attempts).value;
    BackedUpIff(st1, clean, id, z.value);
    SaveWellFormed(st);
    ReturnIff(Branched(st, name, true, now, z).0, clean, id, SaveOf(st.disk, st.base), z.value, faults, later, y);
  }

  lemma CreatedIs(st: State, branch: string, now: nat, z: Option<Entries>)
    requires Content(st) && Created(st, branch, true, now, z).1.Some?
    ensures z.Some? && FirstFree(Taken(st), now, Attempts).Some?
    ensures
      var id := FirstFree(Taken(st), now, Attempts).value;
      Created(st, branch, true, now, z).0 == WithSnapshot(st, id, Row(branch, true), z.value)
  {
    hide FirstFree, WithSnapshot, Below;
  }
}
