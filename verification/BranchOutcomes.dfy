/**
 When an operation on snapshots and branches succeeds, and what it leaves behind, said by the rows, the
 limits and the files alone (internal/snapshot/snapshot.go).
 */
module BranchOutcomes {
  import opened Basics
  import opened SaveTrees
  import opened Archives
  import opened Retention
  import opened Snapshots
  import opened BranchHistory
  import opened BranchRoundTrip

  // ----- Taking a snapshot

  /** An archive was written and there is an id for it: the first free millisecond within a second. */
  ghost predicate Claims(st: State, now: nat, z: Option<Entries>, id: nat) {
    && z.Some? && now <= id < now + 1000 && id !in st.rows && id !in st.foreign
    && forall k: nat :: now <= k < id ==> k in st.rows || k in st.foreign
  }

  lemma CreatedClaims(st: State, branch: string, auto: bool, now: nat, z: Option<Entries>)
    ensures
      var (after, id) := Created(st, branch, auto, now, z);
      && (id.None? <==> z.None? || forall k: nat :: now <= k < now + 1000 ==> k in st.rows || k in st.foreign)
      && (id.None? ==> after.rows == st.rows && after.archives == st.archives)
      && (id.Some? ==> Claims(st, now, z, id.value))
      && (id.Some? ==> after == WithSnapshot(Ensured(st), id.value, Row(branch, auto), z.value))
  {
    hide SaveOf, HasExtension, WithSnapshot, FirstFree;
    assert Taken(Ensured(st)) == Taken(st);
    FreeIdIs(st, now);
  }

  lemma FreeIdIs(st: State, now: nat)
    ensures
      var id := FirstFree(Taken(st), now, Attempts);
      && (id.None? <==> forall k: nat :: now <= k < now + 1000 ==> k in st.rows || k in st.foreign)
      && (id.Some? ==> now <= id.value < now + 1000 && id.value !in st.rows && id.value !in st.foreign &&
                       forall k: nat :: now <= k < id.value ==> k in st.rows || k in st.foreign)
  {
    hide FirstFree;
    FirstFreeIs(Taken(st), now);
    assert forall k: nat :: k in Taken(st) <==> k in st.rows || k in st.foreign;
  }

  lemma FirstFreeIs(taken: set<nat>, now: nat)
    ensures
      var id := FirstFree(taken, now, Attempts);
      && (id.None? <==> forall k :: now <= k < now + 1000 ==> k in taken)
      && (id.Some? ==> now <= id.value < now + 1000 && id.value !in taken &&
                       forall k :: now <= k < id.value ==> k in taken)
  {
  }

  /** What is on file for the other snapshots stays or goes, and is not changed. */
  ghost predicate OthersUnchanged(st: State, after: State, id: nat) {
    forall j :: j in after.rows && j != id ==>
        && j in st.rows && after.rows[j] == st.rows[j]
        && j in after.archives && j in st.archives && after.archives[j] == st.archives[j]
  }

  /**
   A snapshot that could be archived and named is stored, row and archive, exactly if its kind has no
   limit or fewer later ones of it are on the branch; otherwise nothing of it is.
   */
  lemma SnapshotStoredIff(st: State, branch: string, auto: bool, now: nat, z: Option<Entries>)
    requires Sound(st) && branch in st.branches && Created(st, branch, auto, now, z).1.Some?
    ensures
      var (after, id) := Created(st, branch, auto, now, z);
      var later := set j | j in st.rows && j > id.value && st.rows[j].branch == branch && st.rows[j].auto == auto;
      var limit := if auto then st.limits.auto else st.limits.manual;
      && Claims(st, now, z, id.value) && OthersUnchanged(st, after, id.value)
      && (Stored(after, id.value, Row(branch, auto), z.value) <==> limit <= 0 || |later| < limit)
      && (!Stored(after, id.value, Row(branch, auto), z.value) ==>
          id.value !in after.rows && id.value !in after.archives)
  {
    hide Created, Claims, SaveOf, HasExtension, WellFormed, GoodArchive;
    CreatedClaims(st, branch, auto, now, z);
    ClaimedStoredIff(st, branch, auto, now, z, Created(st, branch, auto, now, z).1.value);
  }

  lemma ClaimedStoredIff(st: State, branch: string, auto: bool, now: nat, z: Option<Entries>, id: nat)
    requires Sound(st) && branch in st.branches && Claims(st, now, z, id)
    ensures
      var row, after := Row(branch, auto), WithSnapshot(Ensured(st), id, Row(branch, auto), z.value);
      var later := set j | j in st.rows && j > id && st.rows[j].branch == branch && st.rows[j].auto == auto;
      var limit := if auto then st.limits.auto else st.limits.manual;
      && OthersUnchanged(st, after, id)
      && (Stored(after, id, row, z.value) <==> limit <= 0 || |later| < limit)
      && (!Stored(after, id, row, z.value) ==> id !in after.rows && id !in after.archives)
  {
    hide WellFormed, GoodArchive, SaveOf, HasExtension, Beyond;
    NewRowKeptIff(st.rows, st.limits, st.branches, id, Row(branch, auto));
  }

  lemma NewRowKeptIff(rows: Rows, limits: Limits, branches: set<string>, id: nat, row: Row)
    requires id !in rows && row.branch in branches
    ensures
      var later := set j | j in rows && j > id && rows[j].branch == row.branch && rows[j].auto == row.auto;
      var limit := if row.auto then limits.auto else limits.manual;
      id in Pruned(rows[id := row], limits, branches) <==> limit <= 0 || |later| < limit
  {
    hide Pruned;
    var after := rows[id := row];
    var later := set j | j in rows && j > id && rows[j].branch == row.branch && rows[j].auto == row.auto;
    if row.auto {
      assert later == set j | j in after && j > id && after[j].branch == row.branch && after[j].auto;
    } else {
      assert later == set j | j in after && j > id && after[j].branch == row.branch && !after[j].auto;
    }
    KeptIff(after, limits, branches, id);
  }

  // ----- Rolling back

  /**
   A rollback first makes a snapshot of the save it is about to replace, with or without the temporary
   copy: stored on the active branch unless later automatic ones there use up the limit.
   */
  lemma RollbackBacksUpIff(st: State, id: nat, copyOk: bool, now: nat, z: Option<Entries>, own: nat)
    requires Sound(st) && id in st.rows && Claims(st, now, z, own)
    requires SaveOf(st.disk, st.base) !in {Missing, Folder(EmptyTree)}
    ensures
      var after := Restored(st, id, copyOk, now, z).0;
      var later := set j | j in st.rows && j > own && st.rows[j].branch == st.active && st.rows[j].auto;
      && after.active == st.active && OthersUnchanged(st, after, own)
      && (Stored(after, own, Row(st.active, true), z.value) <==> st.limits.auto <= 0 || |later| < st.limits.auto)
  {
    assert Content(st);
    hide Created, Claims, SaveOf, Unzipped, WellFormed, GoodArchive, Content, OthersUnchanged;
    CreatedFrame(st, st.active, true, now, z);
    CreatedAs(st, st.active, true, now, z, own);
    SnapshotStoredIff(st, st.active, true, now, z);
    RestoredRows(st, id, copyOk, now, z);
    SameOthers(st, Created(st, st.active, true, now, z).0, Restored(st, id, copyOk, now, z).0, own);
    assert (set j | j in st.rows && j > own && st.rows[j].branch == st.active && st.rows[j].auto)
        == (set j | j in st.rows && j > own && st.rows[j].branch == st.active && st.rows[j].auto == true);
  }

  lemma SameOthers(st: State, after: State, after': State, id: nat)
    requires OthersUnchanged(st, after, id) && after'.rows == after.rows && after'.archives == after.archives
    ensures OthersUnchanged(st, after', id)
  {
  }

  /** With nothing to save, or no archive or id to be had, a rollback adds nothing and still goes on. */
  lemma RollbackWithoutBackup(st: State, id: nat, copyOk: bool, now: nat, z: Option<Entries>)
    requires Sound(st) && id in st.rows
    requires
      || SaveOf(st.disk, st.base) in {Missing, Folder(EmptyTree)} || z.None?
      || forall k: nat :: now <= k < now + 1000 ==> k in st.rows || k in st.foreign
    ensures
      var (after, ok) := Restored(st, id, copyOk, now, z);
      && after.rows == st.rows && after.archives == st.archives
      && (after.disk, ok) == Unzipped(st.disk, st.base, st.archives[id])
  {
    assert SaveOf(st.disk, st.base) in {Missing, Folder(EmptyTree)} ==> !Content(st);
    hide Created, SaveOf, Unzipped, WellFormed, GoodArchive, Content;
    CreatedDisk(st, st.active, true, now, z);
    CreatedClaims(st, st.active, true, now, z);
    CreatedFrame(st, st.active, true, now, z);
  }

  /** A rollback writes rows and archives only by its backup. */
  lemma RestoredRows(st: State, id: nat, copyOk: bool, now: nat, z: Option<Entries>)
    requires id in st.rows && Content(st)
    ensures
      var after, created := Restored(st, id, copyOk, now, z).0, Created(st, st.active, true, now, z).0;
      after.rows == created.rows && after.archives == created.archives && after.active == created.active
  {
    hide Created, SaveOf, Unzipped, Content;
  }

  lemma CreatedAs(st: State, branch: string, auto: bool, now: nat, z: Option<Entries>, id: nat)
    requires Claims(st, now, z, id)
    ensures Created(st, branch, auto, now, z).1 == Some(id)
  {
    hide Created;
    CreatedClaims(st, branch, auto, now, z);
  }

  // ----- Switching

  ghost predicate NothingToSave(st: State) {
    SaveOf(st.disk, st.base) in {Missing, Folder(EmptyTree)}
  }

  /**
   A switch reports success exactly if the store could be read and the branch is the active one already,
   or it exists, nothing went wrong, and there was nothing to save or an archive and an id for it.
   */
  lemma SwitchSucceedsIff(st: State, target: string, now: nat, z: Option<Entries>, trouble: Trouble)
    ensures
      var (after, ok) := Attempted(st, target, now, z, trouble);
      && (ok <==>
            && !trouble.LookupFailed?
            && (target == st.active
                || (&& trouble.NoTrouble? && target in st.branches
                    && (NothingToSave(st) || exists own: nat :: Claims(st, now, z, own)))))
      && (target == st.active ==> after == st)
      && (ok ==> after.active == target)
  {
    assert NothingToSave(st) <==> !Content(st);
    hide Created, SaveOf, Content, Arrived, Claims, NothingToSave;
    ArrivedKeepsRows(st, target);
    ArrivedKeepsRows(Created(st, st.active, true, now, z).0, target);
    ClaimsIff(st, st.active, true, now, z);
  }

  lemma ClaimsIff(st: State, branch: string, auto: bool, now: nat, z: Option<Entries>)
    ensures Created(st, branch, auto, now, z).1.Some? <==> exists own: nat :: Claims(st, now, z, own)
  {
    hide Created, Claims;
    CreatedClaims(st, branch, auto, now, z);
    if own: nat :| Claims(st, now, z, own) {
      CreatedAs(st, branch, auto, now, z, own);
    }
  }

  /** What a clearing that was cut short leaves: some files of the save as they were, and all beside it. */
  lemma PartlyClearedIs(t: Tree, base: string, left: Tree)
    requires PartlyCleared(t, base, left)
    ensures forall p :: p in left.files ==> p in t.files && left.files[p] == t.files[p]
    ensures forall p :: p in left.dirs ==> p in t.dirs
    ensures forall p: Path :: p != [] && p[0] != base ==>
              (p in t.files ==> p in left.files) && (p in t.dirs ==> p in left.dirs)
    ensures WellFormed(left) && ([base] in t.dirs ==> [base] in left.dirs) && ([base] in t.files ==> left == t)
  {
    hide WellFormed;
  }

  // ----- Branches made and deleted

  /**
   A branch is made exactly if its cleaned name is new and not empty and, for a copy of a save, an archive
   and an id can be had; else nothing changes. A copy holds exactly one snapshot, of the save as it is, and
   any other new branch none; the save and the active branch stay.
   */
  lemma NewBranchIff(st: State, name: string, copy: bool, now: nat, z: Option<Entries>)
    requires Sound(st)
    ensures
      var clean := CleanBranchName(name);
      var copies := copy && !NothingToSave(st);
      var (after, ok) := Branched(st, name, copy, now, z);
      && (ok <==> clean != "" && clean !in st.branches && (copies ==> exists own: nat :: Claims(st, now, z, own)))
      && (!ok ==> after == st)
      && (ok ==> after.branches == st.branches + {clean} && after.active == st.active && after.disk == st.disk)
      && (ok && !copies ==> after.rows == st.rows && after.archives == st.archives)
      && (ok && copies ==> forall own: nat :: Claims(st, now, z, own) ==>
            Stored(after, own, Row(clean, true), z.value) && OnBranch(after.rows, clean) == {own})
  {
    assert NothingToSave(st) <==> !Content(st);
    var clean := CleanBranchName(name);
    if clean != "" && clean !in st.branches {
      BranchedCases(st, clean, copy, now, z);
      hide Created, SaveOf, Content, CleanBranchName, Sound, NothingToSave, Claims, Stored, OnBranch;
    } else {
      hide Created, SaveOf, Content, CleanBranchName, Sound, NothingToSave, Claims, Stored, OnBranch;
    }
  }

  lemma BranchedCases(st: State, clean: string, copy: bool, now: nat, z: Option<Entries>)
    requires Sound(st) && clean !in st.branches
    ensures
      var st1 := st.(branches := st.branches + {clean});
      var (st2, id) := Created(st1, clean, true, now, z);
      && (Content(st) <==> Content(st1))
      && (id.Some? <==> exists own: nat :: Claims(st, now, z, own))
      && (Content(st) && id.None? ==> WithoutBranch(st2, clean) == st)
      && (Content(st) && id.Some? ==>
            st2.branches == st1.branches && st2.active == st.active && st2.disk == st.disk)
      && (Content(st) && id.Some? ==> forall own: nat :: Claims(st, now, z, own) ==>
            Stored(st2, own, Row(clean, true), z.value) && OnBranch(st2.rows, clean) == {own})
  {
    var st1 := st.(branches := st.branches + {clean});
    assert Sound(st1) by {
      hide WellFormed, GoodArchive;
    }
    hide Created, WellFormed, GoodArchive, SaveOf, HasExtension, Claims;
    CreatedDisk(st1, clean, true, now, z);
    CreatedFrame(st1, clean, true, now, z);
    CreatedFails(st1, clean, true, now, z);
    ClaimsIff(st1, clean, true, now, z);
    SameClaims(st, st1, now, z);
    if Created(st1, clean, true, now, z).1.None? {
      WithoutNewBranch(st, clean);
    } else {
      SnapshotStoredIff(st1, clean, true, now, z);
      forall own: nat | Claims(st, now, z, own)
        ensures Stored(Created(st1, clean, true, now, z).0, own, Row(clean, true), z.value)
        ensures OnBranch(Created(st1, clean, true, now, z).0.rows, clean) == {own}
      {
        CreatedAs(st1, clean, true, now, z, own);
        FreshBranchRows(st1, Created(st1, clean, true, now, z).0, clean, own, z.value);
      }
    }
  }

  lemma SameClaims(st: State, st1: State, now: nat, z: Option<Entries>)
    requires st1.rows == st.rows && st1.foreign == st.foreign
    ensures forall own: nat :: Claims(st1, now, z, own) <==> Claims(st, now, z, own)
  {
  }

  lemma WithoutNewBranch(st: State, clean: string)
    requires Sound(st) && clean !in st.branches
    ensures WithoutBranch(st.(branches := st.branches + {clean}), clean) == st
  {
    hide WellFormed, GoodArchive;
    var gone := WithoutBranch(st.(branches := st.branches + {clean}), clean);
    assert gone.rows == st.rows && gone.archives == st.archives && gone.branches == st.branches;
  }

  lemma FreshBranchRows(st: State, after: State, clean: string, own: nat, entries: Entries)
    requires OnBranch(st.rows, clean) == {} && OthersUnchanged(st, after, own)
    requires
      var later := set j | j in st.rows && j > own && st.rows[j].branch == clean && st.rows[j].auto == true;
      Stored(after, own, Row(clean, true), entries) <==> st.limits.auto <= 0 || |later| < st.limits.auto
    ensures Stored(after, own, Row(clean, true), entries) && OnBranch(after.rows, clean) == {own}
  {
    var later := set j | j in st.rows && j > own && st.rows[j].branch == clean && st.rows[j].auto == true;
    assert later <= OnBranch(st.rows, clean);
    assert later == {};
    forall j | j in OnBranch(after.rows, clean) && j != own ensures j in OnBranch(st.rows, clean) {
    }
  }

  /** The active branch stays; any other goes with all its snapshots, row and archive, and no others. */
  lemma DeletedBranchIsGone(st: State, branch: string)
    requires Sound(st)
    ensures
      var after := WithoutBranch(st, branch);
      && (branch == st.active ==> after == st)
      && (branch != st.active ==>
            && after == st.(branches := st.branches - {branch}, rows := after.rows, archives := after.archives)
            && (forall id :: id in st.rows && st.rows[id].branch == branch ==>
                  id !in after.rows && id !in after.archives)
            && (forall id :: id in st.rows && st.rows[id].branch != branch ==>
                  Stored(after, id, st.rows[id], st.archives[id]))
            && after.rows.Keys <= st.rows.Keys)
  {
    hide WellFormed, GoodArchive;
  }

  /** Row and archive of a deleted snapshot are gone, and nothing else is. */
  lemma DeletedSnapshotIsGone(st: State, id: nat)
    requires Sound(st)
    ensures
      var after := WithoutSnapshot(st, id);
      && (id !in st.rows ==> after == st)
      && (id in st.rows ==> id !in after.rows && id !in after.archives)
      && after == st.(rows := after.rows, archives := after.archives)
      && (forall j :: j in st.rows && j != id ==> Stored(after, j, st.rows[j], st.archives[j]))
      && after.rows.Keys <= st.rows.Keys
  {
    hide WellFormed, GoodArchive;
  }

  /** A rollback to a snapshot that is not there is refused and changes nothing. */
  lemma UnknownRollbackRefused(st: State, id: nat, copyOk: bool, now: nat, z: Option<Entries>)
    requires id !in st.rows
    ensures Restored(st, id, copyOk, now, z) == (st, false)
  {
  }

  // ----- Names

  /** By code: small letters, digits, hyphen and underscore stay, capitals become small, all else goes. */
  lemma CleanCharIs(c: char)
    ensures
      var code := c as int;
      CleanBranchName([c]) ==
        if 97 <= code <= 122 || 48 <= code <= 57 || code == 45 || code == 95 then [c]
        else if 65 <= code <= 90 then [(code + 32) as char]
        else ""
  {
    CleanOne(c);
  }
}
