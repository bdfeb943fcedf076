/**
 When a pass acts and when it asks the player (internal/p2p/syncengine/engine.go, decision.go), told
 from what a caller can look at beforehand: the computed plan, the hashes on file, the files and their
 times. SyncSession defines a pass; here its every guard is stated once more in numbers and lists.
 */
module SyncGuards {
  import opened Basics
  import opened Manifests
  import opened SyncDecision
  import opened Convergence
  import opened PeerStore
  import opened SyncSession

  /** d is the plan the pass of me against peer computes. */
  ghost predicate PlanOf(me: Side, peer: Side, d: Decision) {
    IsPlan(Flat(me.files), Flat(peer.files), me.row.files, {}, d)
  }

  lemma PlanActions(me: Side, peer: Side, d: Decision)
    requires PlanOf(me, peer, d)
    ensures forall p :: p in d.filesToPull <==> FileAction(me.files, peer.files, me.row.files, p) == Pull
    ensures forall p :: p in d.filesToPush <==> FileAction(me.files, peer.files, me.row.files, p) == Push
    ensures forall p :: p in d.filesToDeleteOnPeer <==>
        FileAction(me.files, peer.files, me.row.files, p) == DeleteOnPeer
    ensures forall p :: p in d.filesToDeleteLocally <==>
        FileAction(me.files, peer.files, me.row.files, p) == DeleteLocally
  {
    PlanMembers(me.files, peer.files, me.row.files, d);
  }

  /** The guards of a pass, read off the plan. */
  lemma GuardsOfPlan(me: Side, peer: Side, d: Decision)
    requires PlanOf(me, peer, d)
    ensures d.HasChanges() <==> !SameContent(me.files, peer.files)
    ensures
      var deletions := |d.filesToDeleteLocally|;
      && (d.IsMassDeletion(|me.row.files|) <==> deletions >= 3 && 2 * deletions >= |me.row.files|)
      && (MassDeletion(me.files, peer.files, me.row.files) <==> d.IsMassDeletion(|me.row.files|))
    ensures d.filesToPull != [] <==> Pulls(me.files, peer.files, me.row.files)
    ensures d.filesToPush + d.filesToDeleteOnPeer != [] <==> HandsOver(me.files, peer.files, me.row.files)
  {
    var lineage := me.row.files;
    NoChangesIffEqual(Flat(me.files), Flat(peer.files), lineage, {}, d);
    MassDeletionExactly(Flat(me.files), Flat(peer.files), lineage, {}, d);
    DeletionsCounted(me, peer, d);
    PlanActions(me, peer, d);
    hide FileAction, PlanOf;
    if d.filesToPull != [] {
      NonEmptyHasMember(d.filesToPull);
    }
    var handed := d.filesToPush + d.filesToDeleteOnPeer;
    if handed != [] {
      NonEmptyHasMember(handed);
    }
    assert forall p :: p in handed <==> p in d.filesToPush || p in d.filesToDeleteOnPeer;
  }

  lemma DeletionsCounted(me: Side, peer: Side, d: Decision)
    requires PlanOf(me, peer, d)
    ensures |d.filesToDeleteLocally| == |GoneOnPeer(me.files, peer.files, me.row.files)|
  {
    var scheduled := FilesFor(me.files, peer.files, me.row.files, me.files.Keys + peer.files.Keys, DeleteLocally);
    EnumeratesMembers(d.filesToDeleteLocally, scheduled);
    assert GoneOnPeer(me.files, peer.files, me.row.files) == scheduled;
  }

  /** A plan that would delete half of what was synced before, and three files at least, is never applied. */
  lemma MassDeletionStopsPass(sha: string -> string, me: Side, peer: Side, lastSyncMs: int, now: int, d: Decision)
    requires PlanOf(me, peer, d) && d.IsMassDeletion(|me.row.files|)
    ensures
      var out := SyncPass(sha, me, peer, lastSyncMs, now);
      out.status == ConflictRaised && out.me.conflict && out.me.files == me.files && out.peer == peer
  {
    GuardsOfPlan(me, peer, d);
    hide PlanOf, FlatHash, SameContent, OwnAfter, PeerAfter, MassDeletion, Conflicts, Pulls, HandsOver;
  }

  /** A pass that does not apply its plan leaves both saves and the peer's bookkeeping alone. */
  lemma UnappliedPassChangesNoSave(sha: string -> string, me: Side, peer: Side, lastSyncMs: int, now: int)
    ensures
      var out := SyncPass(sha, me, peer, lastSyncMs, now);
      && (out.status == ConflictRaised <==> out.me.conflict)
      && (out.status != Applied ==> out.me.files == me.files && out.peer == peer)
  {
    hide FlatHash, SameContent, OwnAfter, PeerAfter, MassDeletion, Conflicts, Pulls, HandsOver;
  }

  /**
   With a merge-base on file, a pass applies its plan exactly if there is one, no conflict is pending,
   one side is still at the base or the peer holds what was last handed to it, the plan is no mass
   deletion, and what it pulls overwrites nothing that no snapshot holds.
   */
  lemma AppliesIffPlanAllows(sha: string -> string, me: Side, peer: Side, lastSyncMs: int, now: int, d: Decision)
    requires me.row.agreed != "" && Separates(sha, me.files, peer.files) && PlanOf(me, peer, d)
    ensures
      var mine, theirs := HashOf(sha, Flat(me.files)), HashOf(sha, Flat(peer.files));
      var deletions := |d.filesToDeleteLocally|;
      var status := SyncPass(sha, me, peer, lastSyncMs, now).status;
      && (status == InSync <==> !me.conflict && !d.HasChanges())
      && (status == Applied <==>
          && !me.conflict && d.HasChanges()
          && (mine == me.row.agreed || theirs == me.row.agreed || theirs == me.row.pushed != "")
          && (deletions < 3 || 2 * deletions < |me.row.files|)
          && (d.filesToPull == [] || me.lastManifestHash in {"", mine}))
  {
    GuardsOfPlan(me, peer, d);
    if SameContent(me.files, peer.files) && !me.conflict {
      PassInSync(sha, me, peer, lastSyncMs, now);
    }
    AppliesAtBase(sha, me, peer, lastSyncMs, now);
    assert FlatHash(sha, me.files) == HashOf(sha, Flat(me.files));
    assert FlatHash(sha, peer.files) == HashOf(sha, Flat(peer.files));
    hide FlatHash, SyncPass, Separates, PlanOf, SameContent, MassDeletion, Pulls, HandsOver;
  }

  lemma AppliesAtBase(sha: string -> string, me: Side, peer: Side, lastSyncMs: int, now: int)
    requires me.row.agreed != "" && Separates(sha, me.files, peer.files)
    ensures
      var mine, theirs := FlatHash(sha, me.files), FlatHash(sha, peer.files);
      var status := SyncPass(sha, me, peer, lastSyncMs, now).status;
      && (status == InSync ==> !me.conflict && SameContent(me.files, peer.files))
      && (status == Applied <==>
          && !me.conflict && !SameContent(me.files, peer.files)
          && (mine == me.row.agreed || theirs == me.row.agreed || theirs == me.row.pushed != "")
          && !MassDeletion(me.files, peer.files, me.row.files)
          && !(Pulls(me.files, peer.files, me.row.files) && me.lastManifestHash !in {"", mine}))
  {
    hide FlatHash, Separates, SameContent, OwnAfter, PeerAfter, MassDeletion, Conflicts, Pulls, HandsOver;
    HashComparesContent(sha, me.files, peer.files);
    if SameContent(me.files, peer.files) {
      if !me.conflict {
        PassInSync(sha, me, peer, lastSyncMs, now);
      }
    } else {
      var row := Repaired(sha, me, peer.files);
      NoConflictAtBase(sha, me.files, peer.files, lastSyncMs, row.agreed);
    }
  }

  // ----- Without a merge-base

  /** The newest time is past a moment exactly if some file's is. */
  lemma SomeFilePast(files: Files, moment: int)
    requires moment >= 0
    ensures Flat(files).latestMtime > moment <==> exists p :: p in files && files[p].mtimeMs > moment
  {
    var times := set p | p in files :: files[p].mtimeMs;
    if LatestOf(times) > moment {
      var p :| p in files && files[p].mtimeMs == LatestOf(times);
    }
    if p :| p in files && files[p].mtimeMs > moment {
      assert files[p].mtimeMs in times;
    }
  }

  /** Both sides hold something, or, after an earlier sync, something changed clearly later than it. */
  ghost predicate BothMayHaveChanged(mine: Files, theirs: Files, lastSyncMs: int) {
    if lastSyncMs == 0 then
      mine != map[] && theirs != map[]
    else
      && (exists p :: p in mine && mine[p].mtimeMs > lastSyncMs + 2000)
      && (exists p :: p in theirs && theirs[p].mtimeMs > lastSyncMs + 2000)
  }

  lemma ConflictWithoutBaseIff(sha: string -> string, mine: Files, theirs: Files, lastSyncMs: int)
    requires lastSyncMs >= 0 && Separates(sha, mine, theirs)
    ensures Conflicts(sha, Flat(mine), Flat(theirs), lastSyncMs, "") <==>
        !SameContent(mine, theirs) && BothMayHaveChanged(mine, theirs, lastSyncMs)
  {
    hide HashOf, Separates, SameContent, LatestOf;
    HashComparesContent(sha, mine, theirs);
    SomeFilePast(mine, lastSyncMs + 2000);
    SomeFilePast(theirs, lastSyncMs + 2000);
    assert mine != map[] <==> |mine| > 0;
    assert theirs != map[] <==> |theirs| > 0;
  }

  /**
   Without a merge-base, a pass over two different saves asks the player exactly if both may have
   changed, or one of the two safety nets catches it: on a first sync both hold a file, later on both
   hold a file changed more than two seconds after the last sync. The other passes apply their plan.
   */
  lemma WithoutBaseConflictsIff(sha: string -> string, me: Side, peer: Side, lastSyncMs: int, now: int, d: Decision)
    requires me.row.agreed == "" && NoLandedPush(sha, me, peer) && lastSyncMs >= 0
    requires Separates(sha, me.files, peer.files) && PlanOf(me, peer, d) && !me.conflict && d.HasChanges()
    ensures
      var deletions := |d.filesToDeleteLocally|;
      var status := SyncPass(sha, me, peer, lastSyncMs, now).status;
      && status != InSync
      && (status == ConflictRaised <==>
          || BothMayHaveChanged(me.files, peer.files, lastSyncMs)
          || (deletions >= 3 && 2 * deletions >= |me.row.files|)
          || (d.filesToPull != [] && me.lastManifestHash !in {"", HashOf(sha, Flat(me.files))}))
  {
    assert FlatHash(sha, me.files) == HashOf(sha, Flat(me.files));
    hide *;
    GuardsOfPlan(me, peer, d);
    ConflictWithoutBaseIff(sha, me.files, peer.files, lastSyncMs);
    StatusWithoutBase(sha, me, peer, lastSyncMs, now);
  }

  lemma StatusWithoutBase(sha: string -> string, me: Side, peer: Side, lastSyncMs: int, now: int)
    requires me.row.agreed == "" && NoLandedPush(sha, me, peer) && !me.conflict
    requires !SameContent(me.files, peer.files)
    ensures
      var status := SyncPass(sha, me, peer, lastSyncMs, now).status;
      && status != InSync
      && (status == ConflictRaised <==>
          || Conflicts(sha, Flat(me.files), Flat(peer.files), lastSyncMs, "")
          || MassDeletion(me.files, peer.files, me.row.files)
          || (Pulls(me.files, peer.files, me.row.files) && me.lastManifestHash !in {"", FlatHash(sha, me.files)}))
  {
    hide FlatHash, SameContent, OwnAfter, PeerAfter, MassDeletion, Conflicts, Pulls, HandsOver;
    assert Repaired(sha, me, peer.files) == me.row;
  }

  /** A side that never synced with this peer, and whose save no snapshot is behind. */
  ghost predicate Unrecorded(sha: string -> string, me: Side) {
    me.row == NoRow && !me.conflict && me.lastManifestHash in {"", HashOf(sha, Flat(me.files))}
  }

  /**
   The first pass ever conflicts exactly if both hold files; a device without a save gets the peer's
   whole save, and a peer without one costs this device nothing.
   */
  lemma FirstPassConflictsIff(sha: string -> string, me: Side, peer: Side, now: int)
    requires Unrecorded(sha, me) && Separates(sha, me.files, peer.files)
    requires !SameContent(me.files, peer.files)
    ensures
      var out := SyncPass(sha, me, peer, 0, now);
      && (out.status == ConflictRaised <==> me.files != map[] && peer.files != map[])
      && (me.files == map[] ==> out.status == Applied && SameContent(out.me.files, peer.files) && out.peer == peer)
      && (peer.files == map[] ==> out.status == Applied && out.me.files == me.files && out.peer == peer)
  {
    var out := SyncPass(sha, me, peer, 0, now);
    ConflictWithoutBaseIff(sha, me.files, peer.files, 0);
    assert Repaired(sha, me, peer.files) == me.row == NoRow;
    assert GoneOnPeer(me.files, peer.files, {}) == {};
    FirstPlan(me.files, peer.files, now);
    hide Separates, SameContent, Conflicts, Pulls, HandsOver, FileAction, Repaired, GoneOnPeer;
    hide OwnAfter, PeerAfter;
  }

  /** What the plan of a first sync does if one side holds nothing. */
  lemma FirstPlan(mine: Files, theirs: Files, now: int)
    ensures PeerAfter(mine, theirs, {}) == theirs
    ensures mine == map[] ==> SameContent(OwnAfter(mine, theirs, {}, now), theirs)
    ensures theirs == map[] ==> OwnAfter(mine, theirs, {}, now) == mine
  {
    if mine == map[] {
      assert OwnAfter(mine, theirs, {}, now).Keys == theirs.Keys;
    }
  }

  // ----- What an applied plan leaves and records

  /** The two saves afterwards, path by path from the lists of the plan. */
  lemma AppliedPassSaves(sha: string -> string, me: Side, peer: Side, lastSyncMs: int, now: int, d: Decision, p: string)
    requires PlanOf(me, peer, d) && SyncPass(sha, me, peer, lastSyncMs, now).status == Applied
    ensures
      var out := SyncPass(sha, me, peer, lastSyncMs, now);
      && (p in out.me.files <==> p in d.filesToPull || (p in me.files && p !in d.filesToDeleteLocally))
      && (p in d.filesToPull ==>
          p in peer.files && out.me.files[p].hash == peer.files[p].hash && out.me.files[p].size == peer.files[p].size)
      && (p in d.filesToPull ==>
          out.me.files[p].mtimeMs == if peer.files[p].mtimeMs > 0 then peer.files[p].mtimeMs else now)
      && (p in me.files && p in out.me.files && p !in d.filesToPull ==> out.me.files[p] == me.files[p])
      && (p in out.peer.files <==> p in peer.files && p !in d.filesToDeleteOnPeer)
      && (p in out.peer.files ==> out.peer.files[p] == peer.files[p])
  {
    PlanActions(me, peer, d);
    AppliedFiles(sha, me, peer, lastSyncMs, now);
    hide SyncPass, PlanOf;
  }

  lemma AppliedFiles(sha: string -> string, me: Side, peer: Side, lastSyncMs: int, now: int)
    requires SyncPass(sha, me, peer, lastSyncMs, now).status == Applied
    ensures
      var out := SyncPass(sha, me, peer, lastSyncMs, now);
      && out.me.files == OwnAfter(me.files, peer.files, me.row.files, now)
      && out.peer == peer.(files := PeerAfter(me.files, peer.files, me.row.files))
  {
    hide FlatHash, SameContent, OwnAfter, PeerAfter, MassDeletion, Conflicts, Pulls, HandsOver;
  }

  /**
   The lineage becomes what the peer is left with. A pass that pushes nothing and asks for no deletion
   records the peer's save as the merge-base; any other leaves the base as it was, save for a push seen
   to have landed, and files the own save as handed over.
   */
  lemma AppliedPassRecords(sha: string -> string, me: Side, peer: Side, lastSyncMs: int, now: int, d: Decision)
    requires PlanOf(me, peer, d) && SyncPass(sha, me, peer, lastSyncMs, now).status == Applied
    requires HashOf(sha, Flat(peer.files)) != ""
    ensures
      var out := SyncPass(sha, me, peer, lastSyncMs, now);
      var theirs := HashOf(sha, Flat(peer.files));
      var handedOver := d.filesToPush + d.filesToDeleteOnPeer != [];
      && out.me.row.files == out.peer.files.Keys
      && (!handedOver ==> out.me.row.agreed == theirs && out.me.row.pushed == "")
      && (handedOver ==> out.me.row.pushed == HashOf(sha, Flat(out.me.files)))
      && (handedOver ==> out.me.row.agreed == if me.row.pushed == theirs then theirs else me.row.agreed)
  {
    GuardsOfPlan(me, peer, d);
    SharedPaths(me.files, peer.files, me.row.files, now);
    assert PeerAfter(me.files, peer.files, me.row.files).Keys
        == (OwnAfter(me.files, peer.files, me.row.files, now).Keys + me.files.Keys) * peer.files.Keys;
    RecordsOf(sha, me, peer, lastSyncMs, now);
    hide SyncPass, OwnAfter, PeerAfter, MassDeletion, Pulls, HandsOver, PlanOf;
  }

  lemma RecordsOf(sha: string -> string, me: Side, peer: Side, lastSyncMs: int, now: int)
    requires SyncPass(sha, me, peer, lastSyncMs, now).status == Applied && FlatHash(sha, peer.files) != ""
    ensures
      var out := SyncPass(sha, me, peer, lastSyncMs, now);
      var theirs := FlatHash(sha, peer.files);
      && out.me.row.files == (OwnAfter(me.files, peer.files, me.row.files, now).Keys + me.files.Keys) * peer.files.Keys
      && out.peer.files == PeerAfter(me.files, peer.files, me.row.files)
      && (if HandsOver(me.files, peer.files, me.row.files) then
            && out.me.row.pushed == FlatHash(sha, out.me.files)
            && out.me.row.agreed == if me.row.pushed == theirs then theirs else me.row.agreed
          else
            out.me.row.agreed == theirs && out.me.row.pushed == "")
  {
    hide FlatHash, SameContent, OwnAfter, PeerAfter, MassDeletion, Conflicts, Pulls, HandsOver;
  }

  // ----- The plan as a three-way merge

  /**
   Carried out on both sides, the plan leaves the same paths and the same folders on both: what both
   hold, and what one holds that was not synced before. The files pushed count as arrived.
   */
  lemma PlanMergesThreeWay(local: Manifest, remote: Manifest, lf: set<string>, ld: set<string>, d: Decision, p: string)
    requires IsPlan(local, remote, lf, ld, d)
    ensures
      var stays := if p in lf then p in local.files && p in remote.files else p in local.files || p in remote.files;
      && (p in d.filesToPull || (p in local.files && p !in d.filesToDeleteLocally) <==> stays)
      && (p in d.filesToPush || (p in remote.files && p !in d.filesToDeleteOnPeer) <==> stays)
    ensures
      var stays := if p in ld then p in local.dirs && p in remote.dirs else p in local.dirs || p in remote.dirs;
      && (p in d.dirsToPull || (p in local.dirs && p !in d.dirsToDeleteLocally) <==> stays)
      && (p in d.dirsToPush || (p in remote.dirs && p !in d.dirsToDeleteOnPeer) <==> stays)
  {
    PlanMembers(local.files, remote.files, lf, d);
    DirPlanMembers(DirSet(local), DirSet(remote), ld, d);
    hide FilePlan, DirPlan;
  }
}
