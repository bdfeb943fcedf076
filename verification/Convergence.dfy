/**
 What carrying out a decision does to the two saves, and where that leads over many passes.
 A pull copies the peer's file with its modification time, a deletion removes the file on the named
 side, and a push is the peer's own pull on its next pass. Files only.
 */
module Convergence {
  import opened Manifests
  import opened SyncDecision

  /** A pulled file carries the peer's time, unless that time is unknown. */
  function Landed(e: FileEntry, now: int): FileEntry {
    if e.mtimeMs > 0 then e else e.(mtimeMs := now)
  }

  ghost function OwnAfter(own: Files, peer: Files, lineage: set<string>, now: int): Files {
    map p | p in own.Keys + peer.Keys
        && (FileAction(own, peer, lineage, p) == Pull ||
            (p in own && FileAction(own, peer, lineage, p) != DeleteLocally))
      :: if FileAction(own, peer, lineage, p) == Pull then Landed(peer[p], now) else own[p]
  }

  ghost function PeerAfter(own: Files, peer: Files, lineage: set<string>): Files {
    map p | p in peer && FileAction(own, peer, lineage, p) != DeleteOnPeer :: peer[p]
  }

  class SaveFolder {
    var files: Files

    constructor (files: Files)
      ensures this.files == files
    {
      this.files := files;
    }

    /** Local deletions, deletions asked of the peer, then the pulls, as the sync engine applies them. */
    method Apply(d: Decision, peer: SaveFolder, remote: Files, ghost lineage: set<string>, now: int)
      requires peer != this && remote == peer.files
      requires FilePlan(files, remote, lineage, d)
      modifies this, peer
      ensures files == OwnAfter(old(files), remote, lineage, now)
      ensures peer.files == PeerAfter(old(files), remote, lineage)
    {
      PlanMembers(files, remote, lineage, d);
      hide FilePlan;
      ghost var own := files;
      RemoveAll(d.filesToDeleteLocally);
      peer.RemoveAll(d.filesToDeleteOnPeer);
      PullAll(d.filesToPull, remote, now);
      assert files == OwnAfter(own, remote, lineage, now) by {
        assert files.Keys == OwnAfter(own, remote, lineage, now).Keys;
      }
      assert peer.files == PeerAfter(own, remote, lineage);
    }

    method RemoveAll(paths: seq<string>)
      modifies this
      ensures files == map p | p in old(files) && p !in paths :: old(files)[p]
    {
      for i := 0 to |paths|
        invariant files == map p | p in old(files) && p !in paths[..i] :: old(files)[p]
      {
        files := files - {paths[i]};
      }
    }

    method PullAll(paths: seq<string>, remote: Files, now: int)
      requires forall p :: p in paths ==> p in remote
      modifies this
      ensures files == map p | p in old(files).Keys + remote.Keys && (p in old(files) || p in paths)
                         :: if p in paths then Landed(remote[p], now) else old(files)[p]
    {
      for i := 0 to |paths|
        invariant files == map p | p in old(files).Keys + remote.Keys && (p in old(files) || p in paths[..i])
                             :: if p in paths[..i] then Landed(remote[p], now) else old(files)[p]
      {
        files := files[paths[i] := Landed(remote[paths[i]], now)];
      }
    }
  }

  // ----- Convergence under every schedule

  /** One pass by one of two devices, with whatever lineage that device holds at the time. */
  datatype Pass = Pass(byFirst: bool, lineage: set<string>, now: int)

  ghost function RunPass(saves: (Files, Files), pass: Pass): (Files, Files) {
    var (a, b) := saves;
    if pass.byFirst then
      (OwnAfter(a, b, pass.lineage, pass.now), PeerAfter(a, b, pass.lineage))
    else
      (PeerAfter(b, a, pass.lineage), OwnAfter(b, a, pass.lineage, pass.now))
  }

  ghost function RunPasses(saves: (Files, Files), passes: seq<Pass>): (Files, Files) {
    if passes == [] then saves
    else RunPass(RunPasses(saves, passes[..|passes| - 1]), passes[|passes| - 1])
  }

  /** Wherever x and y differ, x is the side to copy from: y lacks the file or holds an older one. */
  ghost predicate Ahead(x: Files, y: Files) {
    forall p :: Differs(x, y, p) ==> p in x && (p in y ==> x[p].mtimeMs > y[p].mtimeMs)
  }

  lemma OwnPassLeavesAhead(own: Files, peer: Files, lineage: set<string>, now: int)
    ensures Ahead(OwnAfter(own, peer, lineage, now), PeerAfter(own, peer, lineage))
  {
    var x, y := OwnAfter(own, peer, lineage, now), PeerAfter(own, peer, lineage);
    forall p | Differs(x, y, p) ensures p in x && (p in y ==> x[p].mtimeMs > y[p].mtimeMs) {
      assert FileAction(own, peer, lineage, p) == Push;
    }
  }

  lemma PeerPassCatchesUp(ahead: Files, own: Files, lineage: set<string>, now: int)
    requires Ahead(ahead, own)
    ensures SameContent(OwnAfter(own, ahead, lineage, now), PeerAfter(own, ahead, lineage))
  {
    var x, y := OwnAfter(own, ahead, lineage, now), PeerAfter(own, ahead, lineage);
    forall p ensures !Differs(x, y, p) {
      assert Differs(ahead, own, p) <==> Differs(own, ahead, p);
      if Differs(ahead, own, p) {
        assert FileAction(own, ahead, lineage, p) in {Pull, DeleteOnPeer};
      } else {
        assert FileAction(own, ahead, lineage, p) == Keep;
      }
    }
    if !SameContent(x, y) {
      DifferenceExists(x, y);
    }
  }

  lemma SameContentIsStable(a: Files, b: Files, pass: Pass)
    requires SameContent(a, b)
    ensures RunPass((a, b), pass) == (a, b)
  {
    forall p ensures FileAction(a, b, pass.lineage, p) == Keep && FileAction(b, a, pass.lineage, p) == Keep {
    }
    if pass.byFirst {
      assert OwnAfter(a, b, pass.lineage, pass.now) == a;
      assert PeerAfter(a, b, pass.lineage) == b;
    } else {
      assert OwnAfter(b, a, pass.lineage, pass.now) == b;
      assert PeerAfter(b, a, pass.lineage) == a;
    }
  }

  ghost predicate AheadOn(first: bool, saves: (Files, Files)) {
    if first then Ahead(saves.0, saves.1) else Ahead(saves.1, saves.0)
  }

  /** After any run the last device to pass is ahead, and if both have passed the saves agree. */
  lemma {:induction false} RunInvariant(saves: (Files, Files), passes: seq<Pass>)
    requires passes != []
    ensures
      var after, last := RunPasses(saves, passes), passes[|passes| - 1];
      && AheadOn(last.byFirst, after)
      && ((exists i :: 0 <= i < |passes| && passes[i].byFirst != last.byFirst) ==> SameContent(after.0, after.1))
  {
    hide OwnAfter, PeerAfter, SameContent, Ahead;
    var n := |passes| - 1;
    var last := passes[n];
    var before := RunPasses(saves, passes[..n]);
    var after := RunPass(before, last);
    if last.byFirst {
      OwnPassLeavesAhead(before.0, before.1, last.lineage, last.now);
    } else {
      OwnPassLeavesAhead(before.1, before.0, last.lineage, last.now);
    }
    if exists i :: 0 <= i < |passes| && passes[i].byFirst != last.byFirst {
      var i :| 0 <= i < |passes| && passes[i].byFirst != last.byFirst;
      RunInvariant(saves, passes[..n]);
      if passes[n - 1].byFirst != last.byFirst {
        if last.byFirst {
          PeerPassCatchesUp(before.1, before.0, last.lineage, last.now);
        } else {
          PeerPassCatchesUp(before.0, before.1, last.lineage, last.now);
        }
        SameContentSymmetric(after.0, after.1);
      } else {
        assert passes[..n][i].byFirst != passes[..n][n - 1].byFirst;
        SameContentIsStable(before.0, before.1, last);
      }
    }
  }

  lemma SameContentSymmetric(a: Files, b: Files)
    ensures SameContent(a, b) <==> SameContent(b, a)
  {
  }

  /**
   From any two saves, once each device has made a pass, in any order, any number of times and with
   any lineages, the saves agree, and they are left alone by every pass after that.
   */
  lemma EveryScheduleConverges(saves: (Files, Files), passes: seq<Pass>, more: Pass)
    requires exists i, j :: 0 <= i < |passes| && 0 <= j < |passes| && passes[i].byFirst && !passes[j].byFirst
    ensures
      var after := RunPasses(saves, passes);
      SameContent(after.0, after.1) && RunPass(after, more) == after
  {
    RunInvariant(saves, passes);
    var after := RunPasses(saves, passes);
    SameContentIsStable(after.0, after.1, more);
  }

  /** Two passes are enough, and then neither device's plan lists any file. */
  lemma TwoRoundConvergence(a: Files, b: Files, la: set<string>, lb: set<string>, t: int, u: int, lineage: set<string>,
                            d: Decision)
    requires
      var after := RunPasses((a, b), [Pass(true, la, t), Pass(false, lb, u)]);
      FilePlan(after.0, after.1, lineage, d)
    ensures
      var after := RunPasses((a, b), [Pass(true, la, t), Pass(false, lb, u)]);
      && SameContent(after.0, after.1)
      && d.filesToPull == d.filesToPush == d.filesToDeleteOnPeer == d.filesToDeleteLocally == []
  {
    hide FilePlan;
    var passes := [Pass(true, la, t), Pass(false, lb, u)];
    assert passes[0].byFirst && !passes[1].byFirst;
    RunInvariant((a, b), passes);
    var after := RunPasses((a, b), passes);
    FileListsEmptyIffSame(after.0, after.1, lineage, d);
  }

  // ----- What the merge-base guarantees

  /** One side is still, content for content, at the base. */
  ghost predicate OneSideAtBase(base: Files, local: Files, remote: Files) {
    SameContent(local, base) || SameContent(remote, base)
  }

  /** With a merge-base on file, "no conflict" means that at most one side has left it. */
  lemma NoConflictMeansOneSideAtBase(sha: string -> string, base: Manifest, local: Manifest, remote: Manifest,
                                     lastSyncMs: int)
    requires Plain(base) && Plain(local) && Plain(remote)
    requires NoCollision(sha, local, remote) && NoCollision(sha, local, base) && NoCollision(sha, remote, base)
    requires HashOf(sha, base) != ""
    ensures !Conflicts(sha, local, remote, lastSyncMs, HashOf(sha, base)) <==>
      || SameContent(local.files, remote.files)
      || (SameContent(local.files, base.files) && local.dirs == base.dirs)
      || (SameContent(remote.files, base.files) && remote.dirs == base.dirs)
  {
    EqualHashIffEqualContent(sha, local, remote);
    EqualHashIffEqualContent(sha, local, base);
    EqualHashIffEqualContent(sha, remote, base);
  }

  ghost predicate DeletesOnlyBaseContent(base: Files, local: Files, remote: Files, d: Decision) {
    && (forall p :: p in d.filesToDeleteLocally ==> p in local && p in base && local[p].hash == base[p].hash)
    && (forall p :: p in d.filesToDeleteOnPeer ==> p in remote && p in base && remote[p].hash == base[p].hash)
  }

  /** Files both sides of which are accounted for by the base and one changed side. */
  lemma DeletionsOfOneSidedChange(base: Files, local: Files, remote: Files, lineage: set<string>, d: Decision)
    requires SameContent(local, remote) || OneSideAtBase(base, local, remote)
    requires FilePlan(local, remote, lineage, d)
    ensures DeletesOnlyBaseContent(base, local, remote, d) <==>
      forall p :: p in lineage && (p in local) != (p in remote) ==> p in base
  {
    PlanMembers(local, remote, lineage, d);
    hide FilePlan;
    if forall p :: p in lineage && (p in local) != (p in remote) ==> p in base {
      forall p | p in d.filesToDeleteLocally ensures p in local && p in base && local[p].hash == base[p].hash {
        assert FileAction(local, remote, lineage, p) == DeleteLocally;
      }
      forall p | p in d.filesToDeleteOnPeer ensures p in remote && p in base && remote[p].hash == base[p].hash {
        assert FileAction(local, remote, lineage, p) == DeleteOnPeer;
      }
    } else {
      var p :| p in lineage && (p in local) != (p in remote) && p !in base;
      assert FileAction(local, remote, lineage, p) in {DeleteLocally, DeleteOnPeer};
    }
  }

  /**
   Deletions never lose unsynced work: with no conflict, whatever the clocks say, everything
   scheduled for deletion still has the base's content exactly when the lineage holds no path that
   one side lacks and the base never had. A lineage that is the base's own path set always qualifies.
   */
  lemma DeletionsLoseNothingIff(sha: string -> string, base: Manifest, local: Manifest, remote: Manifest,
                                lastSyncMs: int, lineage: set<string>, d: Decision)
    requires Plain(base) && Plain(local) && Plain(remote)
    requires NoCollision(sha, local, remote) && NoCollision(sha, local, base) && NoCollision(sha, remote, base)
    requires HashOf(sha, base) != "" && !Conflicts(sha, local, remote, lastSyncMs, HashOf(sha, base))
    requires FilePlan(local.files, remote.files, lineage, d)
    ensures DeletesOnlyBaseContent(base.files, local.files, remote.files, d) <==>
      forall p :: p in lineage && (p in local.files) != (p in remote.files) ==> p in base.files
    ensures lineage <= base.files.Keys ==> DeletesOnlyBaseContent(base.files, local.files, remote.files, d)
  {
    hide FilePlan, Conflicts, NoCollision, HashOf, Plain, SameContent, DeletesOnlyBaseContent;
    NoConflictMeansOneSideAtBase(sha, base, local, remote, lastSyncMs);
    DeletionsOfOneSidedChange(base.files, local.files, remote.files, lineage, d);
  }

  /**
   Only the remote side moved: one pass brings the local side to exactly the remote's files if and
   only if no file both sides hold is newer, by its time, on the side that did not change.
   */
  lemma FastForwardPull(base: Files, local: Files, remote: Files, lineage: set<string>, now: int)
    requires SameContent(local, base) && lineage == base.Keys
    ensures
      var own, peer := OwnAfter(local, remote, lineage, now), PeerAfter(local, remote, lineage);
      && peer == remote
      && (SameContent(own, remote) <==>
            forall p :: p in local && p in remote && local[p].hash != remote[p].hash ==>
                local[p].mtimeMs <= remote[p].mtimeMs)
  {
    var own, peer := OwnAfter(local, remote, lineage, now), PeerAfter(local, remote, lineage);
    forall p | p in remote ensures FileAction(local, remote, lineage, p) != DeleteOnPeer {
    }
    assert peer == remote;
    if SameContent(own, remote) {
      forall p | p in local && p in remote && local[p].hash != remote[p].hash
        ensures local[p].mtimeMs <= remote[p].mtimeMs
      {
        assert own[p].hash == remote[p].hash;
        assert FileAction(local, remote, lineage, p) == Pull;
      }
    }
  }

  /**
   Only the local side moved: its pass and then the peer's own leave both devices with exactly the
   local files if and only if every file both sides hold differently is newer on the local side.
   */
  lemma FastForwardPush(base: Files, local: Files, remote: Files, lineage: set<string>, peerLineage: set<string>,
                        t: int, u: int)
    requires SameContent(remote, base) && lineage == base.Keys && peerLineage <= base.Keys
    ensures
      var after := RunPasses((local, remote), [Pass(true, lineage, t), Pass(false, peerLineage, u)]);
      (SameContent(after.0, local) && SameContent(after.1, local)) <==>
        forall p :: p in local && p in remote && local[p].hash != remote[p].hash ==>
            local[p].mtimeMs > remote[p].mtimeMs
  {
    TwoPasses((local, remote), Pass(true, lineage, t), Pass(false, peerLineage, u));
    if forall p :: p in local && p in remote && local[p].hash != remote[p].hash ==>
        local[p].mtimeMs > remote[p].mtimeMs {
      PushArrives(base, local, remote, lineage, peerLineage, t, u);
    } else {
      var p :| p in local && p in remote && local[p].hash != remote[p].hash && local[p].mtimeMs <= remote[p].mtimeMs;
      PushLost(local, remote, lineage, peerLineage, t, u, p);
    }
  }

  /** Seen from its own side, a newer local change is pushed and nothing comes in. */
  lemma PushKeepsOwn(base: Files, local: Files, remote: Files, lineage: set<string>, t: int)
    requires SameContent(remote, base) && lineage == base.Keys
    requires forall p :: p in local && p in remote && local[p].hash != remote[p].hash ==>
        local[p].mtimeMs > remote[p].mtimeMs
    ensures OwnAfter(local, remote, lineage, t) == local
    ensures forall p :: p in PeerAfter(local, remote, lineage) <==> p in local && p in remote
    ensures forall p :: p in PeerAfter(local, remote, lineage) ==> PeerAfter(local, remote, lineage)[p] == remote[p]
  {
    forall p ensures FileAction(local, remote, lineage, p) in {Keep, Push, DeleteOnPeer} {
    }
  }

  /** And the peer, left with a part of what the other holds, takes the rest in and asks for nothing. */
  lemma PeerTakesIn(peer: Files, local: Files, peerLineage: set<string>, u: int)
    requires peer.Keys <= local.Keys && forall p :: p in local && p !in peer ==> p !in peerLineage
    requires forall p :: p in peer && peer[p].hash != local[p].hash ==> local[p].mtimeMs > peer[p].mtimeMs
    ensures PeerAfter(peer, local, peerLineage) == local
    ensures SameContent(OwnAfter(peer, local, peerLineage, u), local)
  {
    forall p ensures FileAction(peer, local, peerLineage, p) in {Keep, Pull} {
    }
    assert PeerAfter(peer, local, peerLineage) == local;
  }

  lemma PushArrives(base: Files, local: Files, remote: Files, lineage: set<string>, peerLineage: set<string>, t: int,
                    u: int)
    requires SameContent(remote, base) && lineage == base.Keys && peerLineage <= base.Keys
    requires forall p :: p in local && p in remote && local[p].hash != remote[p].hash ==>
        local[p].mtimeMs > remote[p].mtimeMs
    ensures
      var own, peer := OwnAfter(local, remote, lineage, t), PeerAfter(local, remote, lineage);
      && own == local
      && PeerAfter(peer, own, peerLineage) == local
      && SameContent(OwnAfter(peer, own, peerLineage, u), local)
  {
    PushKeepsOwn(base, local, remote, lineage, t);
    var peer := PeerAfter(local, remote, lineage);
    hide OwnAfter, PeerAfter;
    assert forall p :: p in local && p !in peer ==> p !in remote;
    PeerTakesIn(peer, local, peerLineage, u);
  }

  lemma PushLost(local: Files, remote: Files, lineage: set<string>, peerLineage: set<string>, t: int, u: int, p: string)
    requires p in local && p in remote && local[p].hash != remote[p].hash && local[p].mtimeMs <= remote[p].mtimeMs
    ensures
      var own, peer := OwnAfter(local, remote, lineage, t), PeerAfter(local, remote, lineage);
      var own2 := PeerAfter(peer, own, peerLineage);
      p in own2 && own2[p].hash == remote[p].hash
  {
    assert FileAction(local, remote, lineage, p) == Pull;
    var own, peer := OwnAfter(local, remote, lineage, t), PeerAfter(local, remote, lineage);
    assert FileAction(peer, own, peerLineage, p) == Keep;
  }

  lemma TwoPasses(saves: (Files, Files), first: Pass, second: Pass)
    ensures RunPasses(saves, [first, second]) == RunPass(RunPass(saves, first), second)
  {
    assert [first, second][..1] == [first];
    assert [first][..0] == [];
    assert RunPasses(saves, [first]) == RunPass(saves, first);
  }
}
