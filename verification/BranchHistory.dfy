/**
 What the snapshot manager promises over whole histories: rows keep their archives, rolling back
 survives its own pruning, automatic snapshots do not evict manual ones, and a branch left is found
 again as it was.
 */
module BranchHistory {
  import opened Basics
  import opened SaveTrees
  import opened Archives
  import opened ArchiveRoundTrip
  import opened Retention
  import opened Snapshots

  // ----- Every history keeps the store in order

  ghost predicate GoodArchive(entries: Entries, base: string) {
    exists s :: WellFormedSave(s) && ArchiveOf(entries, s, base, map[])
  }

  /** Every row is on an existing branch and has its archive, and every archive is one of a save. */
  ghost predicate Sound(st: State) {
    && WellFormed(st.disk)
    && st.active in st.branches
    && st.rows.Keys !! st.foreign
    && (forall id :: id in st.rows ==> st.rows[id].branch in st.branches && id in st.archives)
    && (forall id :: id in st.archives ==> GoodArchive(st.archives[id], st.base))
  }

  datatype Action =
    | Snapshot(auto: bool, now: nat, z: Option<Entries>)
    | Rollback(id: nat, copyOk: bool, now: nat, z: Option<Entries>)
    | NewBranch(name: string, copy: bool, now: nat, z: Option<Entries>)
    | Switch(target: string, now: nat, z: Option<Entries>, trouble: Trouble)
    | DropBranch(branch: string)
    | DropSnapshot(id: nat)
    | Play(disk: Tree)             // the game, or the player, rewrites the folder around the save

  ghost function Next(st: State, a: Action): State {
    match a
    case Snapshot(auto, now, z) => Created(st, st.active, auto, now, z).0
    case Rollback(id, copyOk, now, z) => Restored(st, id, copyOk, now, z).0
    case NewBranch(name, copy, now, z) => Branched(st, name, copy, now, z).0
    case Switch(target, now, z, trouble) => Attempted(st, target, now, z, trouble).0
    case DropBranch(branch) => WithoutBranch(st, branch)
    case DropSnapshot(id) => WithoutSnapshot(st, id)
    case Play(disk) => st.(disk := disk)
  }

  /** The archive an action writes is one of the save as it is then; some files may be faulty. */
  ghost predicate Possible(st: State, a: Action) {
    match a
    case Play(disk) => WellFormed(disk)
    case DropBranch(_) => true
    case DropSnapshot(_) => true
    case _ =>
      && (a.z.Some? ==> exists faults :: ArchiveOf(a.z.value, SaveOf(Ensured(st).disk, st.base), st.base, faults))
      && (a.Switch? && a.trouble.ClearFailed? ==> PartlyCleared(st.disk, st.base, a.trouble.left))
  }

  ghost function Run(st: State, actions: seq<Action>): State {
    if actions == [] then st else Next(Run(st, actions[..|actions| - 1]), actions[|actions| - 1])
  }

  ghost predicate PossibleRun(st: State, actions: seq<Action>) {
    forall i :: 0 <= i < |actions| ==> Possible(Run(st, actions[..i]), actions[i])
  }

  lemma WrittenArchiveIsGood(st: State, entries: Entries, faults: Faults)
    requires WellFormed(st.disk) && ArchiveOf(entries, SaveOf(st.disk, st.base), st.base, faults)
    ensures GoodArchive(entries, st.base)
  {
    hide ArchiveOf, Below;
    var s := SaveOf(st.disk, st.base);
    BelowWellFormed(st.disk, st.base);
    ArchivedWellFormed(s, st.base, faults);
    ArchiveOfArchived(entries, s, st.base, faults);
  }

  lemma PrunedSound(st: State)
    requires Sound(st)
    ensures Sound(AfterPruning(st))
  {
    hide Beyond, GoodArchive, WellFormed;
  }

  lemma CreatedSound(st: State, branch: string, auto: bool, now: nat, z: Option<Entries>)
    requires Sound(st) && branch in st.branches
    requires z.Some? ==> exists faults :: ArchiveOf(z.value, SaveOf(Ensured(st).disk, st.base), st.base, faults)
    ensures Sound(Created(st, branch, auto, now, z).0)
  {
    hide GoodArchive, AfterPruning, ArchiveOf, SaveOf;
    var st1 := Ensured(st);
    EnsuredWellFormed(st);
    assert Sound(st1);
    var id := FirstFree(Taken(st1), now, Attempts);
    if z.Some? && id.Some? {
      var faults :| ArchiveOf(z.value, SaveOf(st1.disk, st.base), st.base, faults);
      WrittenArchiveIsGood(st1, z.value, faults);
      AddedSound(st1, id.value, Row(branch, auto), z.value);
    }
  }

  lemma AddedSound(st: State, id: nat, row: Row, entries: Entries)
    requires Sound(st) && row.branch in st.branches && id !in st.foreign && GoodArchive(entries, st.base)
    ensures Sound(WithSnapshot(st, id, row, entries))
  {
    hide GoodArchive, AfterPruning, WellFormed;
    var added := st.(rows := st.rows[id := row], archives := st.archives[id := entries]);
    assert Sound(added);
    PrunedSound(added);
  }

  lemma UnpackedSound(st: State, archive: Option<Entries>)
    requires Sound(st)
    ensures Sound(Unpacked(st, archive).0)
  {
    hide GoodArchive, WellFormed, Unzipped;
    if archive.Some? {
      UnzippedWellFormed(st.disk, st.base, archive.value);
    }
  }

  lemma ArrivedSound(st: State, target: string)
    requires Sound(st) && target in st.branches
    ensures Sound(Arrived(st, target))
  {
    hide GoodArchive, WellFormed, Unpacked;
    ClearedKeepsShape(st.disk, st.base);
    var st1 := st.(disk := Cleared(st.disk, st.base), active := target);
    if Latest(st.rows, target).Some? {
      UnpackedSound(st1, ArchiveAt(st1, Latest(st.rows, target).value));
    }
  }

  lemma NextSound(st: State, a: Action)
    requires Sound(st) && Possible(st, a)
    ensures Sound(Next(st, a))
  {
    hide GoodArchive, WellFormed, Created, Unpacked, Arrived, ArchiveOf, Ensured, Content, CleanBranchName, SaveOf;
    CreatedDisk(st, st.active, true, 0, None);
    match a
    case Snapshot(auto, now, z) =>
      CreatedSound(st, st.active, auto, now, z);
    case Rollback(id, copyOk, now, z) =>
      CreatedSound(st, st.active, true, now, z);
      RestoredSound(st, id, copyOk, now, z);
    case NewBranch(name, copy, now, z) =>
      BranchedSound(st, name, copy, now, z);
    case Switch(target, now, z, trouble) =>
      CreatedSound(st, st.active, true, now, z);
      CreatedFrame(st, st.active, true, now, z);
      if target in st.branches {
        ArrivedSound(Created(st, st.active, true, now, z).0, target);
        ArrivedSound(st, target);
      }
      AttemptedSound(st, target, now, z, trouble);
    case DropBranch(branch) =>
    case DropSnapshot(id) =>
    case Play(disk) =>
  }

  lemma CreatedFrame(st: State, branch: string, auto: bool, now: nat, z: Option<Entries>)
    ensures
      var st1 := Created(st, branch, auto, now, z).0;
      && st1.branches == st.branches && st1.active == st.active && st1.base == st.base
      && st1.foreign == st.foreign && st1.limits == st.limits
  {
  }

  lemma AttemptedSound(st: State, target: string, now: nat, z: Option<Entries>, trouble: Trouble)
    requires Sound(st) && Sound(BackedUp(st, now, z).0) && Sound(Switched(st, target, now, z).0)
    requires BackedUp(st, now, z).0.branches == st.branches
    requires trouble.ClearFailed? ==> WellFormed(trouble.left)
    ensures Sound(Attempted(st, target, now, z, trouble).0)
  {
    hide GoodArchive, WellFormed, BackedUp, Switched;
    var backed := BackedUp(st, now, z).0;
    ClearedKeepsShape(backed.disk, backed.base);
  }

  lemma RestoredSound(st: State, id: nat, copyOk: bool, now: nat, z: Option<Entries>)
    requires Sound(st) && Sound(Created(st, st.active, true, now, z).0)
    ensures Sound(Restored(st, id, copyOk, now, z).0)
  {
    hide Sound, Created, Unpacked, Content;
    var st1 := if Content(st) then Created(st, st.active, true, now, z).0 else st;
    UnpackedSound(
      st1, if Content(st) && copyOk && id in st.archives then Some(st.archives[id]) else ArchiveAt(st1, id));
  }

  lemma BranchedSound(st: State, name: string, copy: bool, now: nat, z: Option<Entries>)
    requires Sound(st) && Possible(st, NewBranch(name, copy, now, z))
    ensures Sound(Branched(st, name, copy, now, z).0)
  {
    hide GoodArchive, WellFormed, Created, ArchiveOf, CleanBranchName, SaveOf;
    var clean := CleanBranchName(name);
    var st1 := st.(branches := st.branches + {clean});
    assert Sound(st1);
    assert Ensured(st1).disk == Ensured(st).disk;
    CreatedSound(st1, clean, true, now, z);
    CreatedFrame(st1, clean, true, now, z);
    WithoutBranchSound(Created(st1, clean, true, now, z).0, clean);
  }

  lemma WithoutBranchSound(st: State, branch: string)
    requires Sound(st)
    ensures Sound(WithoutBranch(st, branch))
  {
    hide GoodArchive, WellFormed;
  }

  /** Over any history, with any files faulty at any time and any clock. */
  lemma {:induction false} RunSound(st: State, actions: seq<Action>)
    requires Sound(st) && PossibleRun(st, actions)
    ensures Sound(Run(st, actions))
  {
    hide Sound, Possible, Next;
    if actions != [] {
      var last := |actions| - 1;
      forall i | 0 <= i < last ensures Possible(Run(st, actions[..last][..i]), actions[..last][i]) {
        assert actions[..last][..i] == actions[..i];
        assert Possible(Run(st, actions[..i]), actions[i]);
      }
      RunSound(st, actions[..last]);
      assert Possible(Run(st, actions[..last]), actions[last]);
      NextSound(Run(st, actions[..last]), actions[last]);
    }
  }

  // ----- Rolling back

  /**
   With the temporary copy, a rollback extracts what the chosen snapshot held when it began, over the
   save as it was, whatever the safety snapshot's pruning deletes.
   */
  lemma RestoreSurvivesPruning(st: State, id: nat, now: nat, z: Option<Entries>)
    requires Sound(st) && id in st.rows
    ensures
      var (after, ok) := Restored(st, id, true, now, z);
      (after.disk, ok) == Unzipped(st.disk, st.base, st.archives[id])
  {
    hide Created, Unzipped, WellFormed, GoodArchive;
    CreatedDisk(st, st.active, true, now, z);
    CreatedFrame(st, st.active, true, now, z);
  }

  /** So the chosen snapshot's save is back exactly if that save can be extracted over the present one. */
  lemma RollbackRestoresIff(st: State, id: nat, s: Save, now: nat, z: Option<Entries>)
    requires Sound(st) && id in st.rows
    requires WellFormedSave(s) && ArchiveOf(st.archives[id], s, st.base, map[])
    ensures SaveOf(Restored(st, id, true, now, z).0.disk, st.base) == s <==>
        Restorable(s, st.base, SaveOf(st.disk, st.base))
  {
    hide Restored, Unzipped, Restorable, ArchiveOf, GoodArchive;
    RestoreSurvivesPruning(st, id, now, z);
    ComesBackIff(st.disk, st.base, s, st.archives[id], map[]);
    ArchivedAll(s, st.base);
  }

  /** Without the copy, it fails and leaves the save alone exactly if the pruning took the snapshot. */
  lemma WithoutCopyPruningCounts(st: State, id: nat, now: nat, z: Option<Entries>)
    requires Sound(st) && id in st.rows && Content(st)
    ensures
      var pruned := id !in Created(st, st.active, true, now, z).0.rows;
      var (after, ok) := Restored(st, id, false, now, z);
      (after.disk, ok) == if pruned then (st.disk, false) else Unzipped(st.disk, st.base, st.archives[id])
  {
    hide Unzipped, WellFormed, GoodArchive, Pruned, FirstFree;
    CreatedDisk(st, st.active, true, now, z);
    CreatedFrame(st, st.active, true, now, z);
    if z.Some? && FirstFree(Taken(st), now, Attempts).Some? {
      PrunedIsPart(st.rows[FirstFree(Taken(st), now, Attempts).value := Row(st.active, true)], st.limits, st.branches);
    }
  }

  // ----- What taking a snapshot leaves alone

  ghost predicate KeptAsIs(st: State, after: State, id: nat) {
    && id in st.rows && id in st.archives
    && id in after.rows && after.rows[id] == st.rows[id]
    && id in after.archives && after.archives[id] == st.archives[id]
    && !Beyond(after.rows, after.limits, id)
  }

  /** A snapshot of another kind or branch, within its own limit, is not evicted. */
  lemma CreatedKeepsOthers(st: State, branch: string, auto: bool, now: nat, z: Option<Entries>, id: nat)
    requires Sound(st) && id in st.rows && st.rows[id] != Row(branch, auto) && !Beyond(st.rows, st.limits, id)
    ensures KeptAsIs(st, Created(st, branch, auto, now, z).0, id)
  {
    hide WellFormed, GoodArchive, FirstFree, SaveOf, Beyond;
    var claimed := FirstFree(Taken(st), now, Attempts);
    if z.Some? && claimed.Some? {
      var rows := st.rows[claimed.value := Row(branch, auto)];
      NotBeyond(st.rows, rows, st.limits, id);
      NotBeyond(rows, Pruned(rows, st.limits, st.branches), st.limits, id);
    }
  }

  lemma NotBeyond(rows: Rows, after: Rows, limits: Limits, id: nat)
    requires id in rows && !Beyond(rows, limits, id) && id in after && after[id] == rows[id]
    requires forall j :: j in after && after[j] == rows[id] ==> j in rows && rows[j] == rows[id]
    ensures !Beyond(after, limits, id)
  {
    SubsetSize(Newer(after, after[id], id), Newer(rows, rows[id], id));
  }

  /** Actions that take automatic snapshots only and delete nothing on request. */
  predicate Automatic(a: Action) {
    match a
    case Snapshot(auto, _, _) => auto
    case DropBranch(_) => false
    case DropSnapshot(_) => false
    case _ => true
  }

  lemma ManualSurvivesStep(st: State, id: nat, a: Action)
    requires Sound(st) && id in st.rows && !st.rows[id].auto && !Beyond(st.rows, st.limits, id)
    requires Automatic(a)
    ensures KeptAsIs(st, Next(st, a), id)
  {
    hide WellFormed, GoodArchive, Created, Unzipped, Content, Beyond, CleanBranchName, Latest, Cleared;
    match a
    case Snapshot(auto, now, z) =>
      CreatedKeepsOthers(st, st.active, true, now, z, id);
    case Rollback(_, _, now, z) =>
      CreatedKeepsOthers(st, st.active, true, now, z, id);
    case Switch(_, now, z, _) =>
      CreatedKeepsOthers(st, st.active, true, now, z, id);
    case NewBranch(name, copy, now, z) =>
      BranchedKeeps(st, name, copy, now, z, id);
    case _ =>
  }

  lemma BranchedKeeps(st: State, name: string, copy: bool, now: nat, z: Option<Entries>, id: nat)
    requires Sound(st) && id in st.rows && !Beyond(st.rows, st.limits, id)
    ensures KeptAsIs(st, Branched(st, name, copy, now, z).0, id)
  {
    hide WellFormed, GoodArchive, Content, Beyond, CleanBranchName, Created;
    var clean := CleanBranchName(name);
    var st1 := st.(branches := st.branches + {clean});
    assert Sound(st1);
    if clean !in st.branches {
      CreatedKeepsOthers(st1, clean, true, now, z, id);
      CreatedFrame(st1, clean, true, now, z);
      CreatedFails(st1, clean, true, now, z);
      assert WithoutBranch(st1, clean).rows == st.rows;
    }
  }

  lemma CreatedFails(st: State, branch: string, auto: bool, now: nat, z: Option<Entries>)
    ensures Created(st, branch, auto, now, z).1.None? ==> Created(st, branch, auto, now, z).0 == Ensured(st)
  {
  }

  /** However often automatic snapshots are taken, a manual one within its limit is never evicted. */
  lemma {:induction false} ManualSurvivesRun(st: State, id: nat, actions: seq<Action>)
    requires Sound(st) && PossibleRun(st, actions) && id in st.rows && !st.rows[id].auto &&
        !Beyond(st.rows, st.limits, id)
    requires forall a :: a in actions ==> Automatic(a)
    ensures KeptAsIs(st, Run(st, actions), id)
  {
    hide Next, Possible, Beyond;
    if actions != [] {
      var last := |actions| - 1;
      PossiblePrefix(st, actions, last);
      RunSound(st, actions[..last]);
      ManualSurvivesRun(st, id, actions[..last]);
      ManualSurvivesStep(Run(st, actions[..last]), id, actions[last]);
    }
  }

  lemma PossiblePrefix(st: State, actions: seq<Action>, n: nat)
    requires PossibleRun(st, actions) && n <= |actions|
    ensures PossibleRun(st, actions[..n])
  {
    hide Possible, Run;
    forall i | 0 <= i < n ensures Possible(Run(st, actions[..n][..i]), actions[..n][i]) {
      assert actions[..n][..i] == actions[..i];
      assert Possible(Run(st, actions[..i]), actions[i]);
    }
  }
}
