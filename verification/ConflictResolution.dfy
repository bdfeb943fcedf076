/**
 Resolving a conflict (internal/p2p/syncengine/conflict.go): the local save and this device's
 bookkeeping change step by step, and the question is whether the user's choice survives the next
 pass.
 */
module ConflictResolution {
  import opened Basics
  import opened Manifests
  import opened SyncDecision
  import opened Convergence
  import opened PeerStore
  import opened SyncSession

  function Touched(files: Files, now: int): Files {
    map p | p in files :: files[p].(mtimeMs := now)
  }

  /** Exactly the remote's paths; a copy that already has the remote's content is left alone. */
  ghost function Overwritten(files: Files, remote: Files, now: int): Files {
    map p | p in remote :: if p in files && files[p].hash == remote[p].hash then files[p] else Landed(remote[p], now)
  }

  /** Every file is one this side had or one the remote had. */
  ghost predicate Mixed(files: Files, before: Files, remote: Files) {
    forall p :: p in files ==>
        (p in before && files[p] == before[p]) || (p in remote && files[p].hash == remote[p].hash)
  }

  class Resolver {
    const sha: string -> string
    var files: Files
    var row: Row
    var conflict: bool
    var lastManifestHash: string

    constructor (sha: string -> string, files: Files, row: Row)
      ensures this.sha == sha && View() == Side(files, row, true, "")
    {
      this.sha, this.files, this.row := sha, files, row;
      conflict, lastManifestHash := true, "";
    }

    ghost function View(): Side
      reads this
    {
      Side(files, row, conflict, lastManifestHash)
    }

    /** The hash of the save as it stands; modification times do not enter it. */
    method CurrentHash() returns (hash: string)
      ensures hash == FlatHash(sha, files)
    {
      hash := ManifestHash(Manifest(0, files, []), sha);
      ContentDeterminesText(Manifest(0, files, []), Flat(files));
    }

    method TouchSaveMtimes(now: int)
      modifies this`files
      ensures files == Touched(old(files), now)
    {
      var todo := files.Keys;
      while todo != {}
        invariant todo <= old(files).Keys && files.Keys == old(files).Keys
        invariant forall p :: p in files ==>
            files[p] == if p in todo then old(files)[p] else old(files)[p].(mtimeMs := now)
        decreases |todo|
      {
        var p :| p in todo;
        files := files[p := files[p].(mtimeMs := now)];
        todo := todo - {p};
      }
    }

    method MarkResolvedLocal(now: int)
      modifies this
      ensures View() == Side(Touched(old(files), now),
                             old(row).WithLineage(old(files).Keys, {}).WithAgreed(FlatHash(sha, old(files))),
                             old(conflict), FlatHash(sha, old(files)))
    {
      ghost var before := files;
      TouchSaveMtimes(now);
      ContentDeterminesText(Flat(before), Flat(files));
      var hash := CurrentHash();
      row := row.WithLineage(files.Keys, {}).WithAgreed(hash);
      lastManifestHash := hash;
    }

    method MarkResolvedConverged()
      modifies this
      ensures View() == Side(old(files),
          old(row).WithLineage(old(files).Keys, {}).WithAgreed(FlatHash(sha, old(files))),
                             old(conflict), FlatHash(sha, old(files)))
    {
      var hash := CurrentHash();
      row := row.WithLineage(files.Keys, {}).WithAgreed(hash);
      lastManifestHash := hash;
    }

    method DeleteLocalOnly(remote: Files)
      modifies this`files
      ensures files == map p | p in old(files) && p in remote :: old(files)[p]
    {
      var todo := files.Keys;
      while todo != {}
        invariant todo <= old(files).Keys
        invariant files == map p | p in old(files) && (p in todo || p in remote) :: old(files)[p]
        decreases |todo|
      {
        var p :| p in todo;
        if p !in remote {
          files := files - {p};
        }
        todo := todo - {p};
      }
    }

    method ListDifferent(local: Files, remote: Files) returns (toPull: seq<string>)
      ensures forall p :: p in toPull <==> p in remote && !(p in local && local[p].hash == remote[p].hash)
    {
      toPull := [];
      var todo := remote.Keys;
      while todo != {}
        invariant todo <= remote.Keys
        invariant forall p :: p in toPull <==>
            p in remote && p !in todo && !(p in local && local[p].hash == remote[p].hash)
        decreases |todo|
      {
        var p :| p in todo;
        if !(p in local && local[p].hash == remote[p].hash) {
          toPull := toPull + [p];
        }
        todo := todo - {p};
      }
    }

    /** Pull file by file; the link carries only `budget` files before it breaks. */
    method PullFiles(toPull: seq<string>, remote: Files, now: int, budget: nat) returns (ok: bool)
      requires forall p :: p in toPull ==> p in remote
      modifies this`files
      ensures ok <==> |toPull| <= budget
      ensures ok ==> files == map p | p in old(files).Keys + remote.Keys && (p in old(files) || p in toPull)
                               :: if p in toPull then Landed(remote[p], now) else old(files)[p]
      ensures Mixed(files, old(files), remote)
    {
      for i := 0 to |toPull|
        invariant i <= budget
        invariant files == map p | p in old(files).Keys + remote.Keys && (p in old(files) || p in toPull[..i])
                             :: if p in toPull[..i] then Landed(remote[p], now) else old(files)[p]
      {
        if i == budget {
          return false;
        }
        files := files[toPull[i] := Landed(remote[toPull[i]], now)];
      }
      ok := true;
    }

    /** Delete what the remote lacks, then pull what is new or different. */
    method OverwriteLocalWithRemote(fetched: Option<Files>, now: int, budget: nat) returns (ok: bool)
      modifies this`files
      ensures fetched.None? ==> !ok && files == old(files)
      ensures fetched.Some? && ok ==> files == Overwritten(old(files), fetched.value, now)
      ensures fetched.Some? && !ok ==> Mixed(files, old(files), fetched.value)
    {
      if fetched.None? {
        return false;
      }
      var remote := fetched.value;
      var local := files;
      DeleteLocalOnly(remote);
      var toPull := ListDifferent(local, remote);
      ok := PullFiles(toPull, remote, now, budget);
    }

    /** Only an active conflict can be resolved, and a resolution that fails leaves it active. */
    method ResolveConflict(resolution: string, fetched: Option<Files>, now: int, budget: nat) returns (ok: bool)
      modifies this
      ensures !old(conflict) ==> !ok
      ensures old(conflict) && resolution == "keep-local" ==>
        ok && View() == Side(Touched(old(files), now),
                             old(row).WithLineage(old(files).Keys, {}).WithAgreed(FlatHash(sha, old(files))),
                             false, FlatHash(sha, old(files)))
      ensures ok && resolution != "keep-local" ==>
        && resolution == "keep-remote" && fetched.Some?
        && View() == Side(Overwritten(old(files), fetched.value, now),
                          old(row).WithLineage(fetched.value.Keys, {}).WithAgreed(FlatHash(sha, files)),
                          false, FlatHash(sha, files))
      ensures !ok ==>
        && row == old(row) && conflict == old(conflict) && lastManifestHash == old(lastManifestHash)
        && (files != old(files) ==>
            resolution == "keep-remote" && fetched.Some? && Mixed(files, old(files), fetched.value))
    {
      if !conflict {
        return false;
      }
      if resolution == "keep-local" {
        MarkResolvedLocal(now);
        conflict := false;
        return true;
      } else if resolution == "keep-remote" {
        ok := OverwriteLocalWithRemote(fetched, now, budget);
        if ok {
          MarkResolvedConverged();
          conflict := false;
        }
      } else {
        return false;
      }
    }
  }

  // ----- Does the choice survive?

  /** What MarkResolvedLocal and clearing the conflict leave behind. */
  ghost function KeptLocal(sha: string -> string, files: Files, row: Row, touch: int): Side {
    Side(Touched(files, touch), row.WithLineage(files.Keys, {}).WithAgreed(FlatHash(sha, files)), false,
        FlatHash(sha, files))
  }

  ghost function KeptRemote(sha: string -> string, files: Files, remote: Files, row: Row, now: int): Side {
    var after := Overwritten(files, remote, now);
    Side(after, row.WithLineage(remote.Keys, {}).WithAgreed(FlatHash(sha, after)), false, FlatHash(sha, after))
  }

  /** Keep-remote is final: against what was fetched there is no conflict and nothing left to do. */
  lemma KeepRemoteSticks(sha: string -> string, files: Files, remote: Files, row: Row, now: int, peer: Side, s: int,
                         t: int)
    requires SameContent(peer.files, remote)
    ensures
      var side := KeptRemote(sha, files, remote, row, now);
      var out := SyncPass(sha, side, peer, s, t);
      SameContent(side.files, remote) && out.status == InSync && out.me.files == side.files && out.peer == peer
  {
    hide SyncPass, FlatHash;
    var side := KeptRemote(sha, files, remote, row, now);
    assert SameContent(side.files, remote);
    assert SameContent(side.files, peer.files);
    PassInSync(sha, side, peer, s, t);
  }

  lemma TouchedContent(files: Files, touch: int, other: Files)
    ensures SameContent(Touched(files, touch), other) <==> SameContent(files, other)
  {
  }

  lemma TouchedHash(sha: string -> string, files: Files, touch: int)
    ensures FlatHash(sha, Touched(files, touch)) == FlatHash(sha, files)
  {
    ContentDeterminesText(Flat(files), Flat(Touched(files, touch)));
  }

  /** The kept version is its own merge-base, so no remote state whatever brings the conflict back. */
  lemma KeepLocalNeverReconflicts(sha: string -> string, files: Files, row: Row, touch: int, remote: Files, s: int)
    requires FlatHash(sha, files) != ""
    ensures
      var side := KeptLocal(sha, files, row, touch);
      !Conflicts(sha, Flat(side.files), Flat(remote), s, side.row.agreed)
  {
    hide FlatHash, Conflicts;
    TouchedHash(sha, files, touch);
    NoConflictAtBase(sha, Touched(files, touch), remote, s, FlatHash(sha, files));
  }

  /** Both sides hold the same paths, and each differing remote copy is older than the touch. */
  ghost predicate TouchSettles(files: Files, remote: Files, touch: int) {
    && files.Keys == remote.Keys
    && forall p :: p in files && files[p].hash != remote[p].hash ==> touch > remote[p].mtimeMs
  }

  lemma KeptLocalPlan(files: Files, remote: Files, touch: int, now: int)
    ensures
      var own := OwnAfter(Touched(files, touch), remote, files.Keys, now);
      && (SameContent(own, files) <==> TouchSettles(files, remote, touch))
      && (forall p :: p in files && p !in remote ==> p !in own)
      && (forall p :: p in files && p in remote && files[p].hash != remote[p].hash && touch > remote[p].mtimeMs
            ==> FileAction(Touched(files, touch), remote, files.Keys, p) == Push)
  {
    var kept := Touched(files, touch);
    var own := OwnAfter(kept, remote, files.Keys, now);
    if files.Keys != remote.Keys {
      var p :| (p in files) != (p in remote);
      assert FileAction(kept, remote, files.Keys, p) in {DeleteLocally, Pull};
      assert (p in own) != (p in files);
    } else if !TouchSettles(files, remote, touch) {
      var p :| p in files && files[p].hash != remote[p].hash && touch <= remote[p].mtimeMs;
      assert FileAction(kept, remote, files.Keys, p) == Pull;
      assert own[p].hash == remote[p].hash;
    }
  }

  /**
   Keep-local is final exactly when TouchSettles holds. Recording the local paths as already shared
   makes the next pass read every file only this device has as deleted by the peer: the pass deletes
   it here, unless there are enough of them to set off the mass-deletion alarm and raise a conflict.
   */
  lemma KeepLocalSurvivesNextPassIff(sha: string -> string, files: Files, row: Row, touch: int, peer: Side, s: int,
                                     t: int)
    requires FlatHash(sha, files) != "" && !SameContent(files, peer.files)
    ensures
      var side := KeptLocal(sha, files, row, touch);
      var out := SyncPass(sha, side, peer, s, t);
      if MassDeletion(side.files, peer.files, files.Keys) then
        out.status == ConflictRaised && out.me.files == side.files
      else
        && out.status == Applied
        && (SameContent(out.me.files, files) <==> TouchSettles(files, peer.files, touch))
        && (forall p :: p in files && p !in peer.files ==> p !in out.me.files)
  {
    var side := KeptLocal(sha, files, row, touch);
    TouchedContent(files, touch, peer.files);
    hide FlatHash, SameContent, OwnAfter, PeerAfter, MassDeletion, Conflicts, Pulls, HandsOver, TouchSettles;
    TouchedHash(sha, files, touch);
    NoConflictAtBase(sha, side.files, peer.files, s, side.row.agreed);
    KeptLocalPlan(files, peer.files, touch, t);
    assert Repaired(sha, side, peer.files) == side.row;
  }

  /** The smallest instance: the one slot the user chose to keep is gone after the next pass. */
  lemma KeepLocalLosesLocalOnlyFile(sha: string -> string, slot: string, e: FileEntry, row: Row, touch: int,
                                    peerRow: Row, s: int, t: int)
    requires FlatHash(sha, map[slot := e]) != ""
    ensures
      var side := KeptLocal(sha, map[slot := e], row, touch);
      SyncPass(sha, side, Side(map[], peerRow, false, ""), s, t).me.files == map[]
  {
    hide FlatHash, SyncPass, OwnAfter;
    var files: Files := map[slot := e];
    var peer := Side(map[], peerRow, false, "");
    var side := KeptLocal(sha, files, row, touch);
    assert slot in files && !SameContent(files, peer.files);
    KeepLocalSurvivesNextPassIff(sha, files, row, touch, peer, s, t);
    assert GoneOnPeer(side.files, peer.files, files.Keys) == {slot};
    assert |{slot}| == 1;
    PassNeverInvents(sha, side, peer, s, t);
  }

  /** Files after a pass come from one of the two sides. */
  lemma PassNeverInvents(sha: string -> string, me: Side, peer: Side, s: int, t: int)
    ensures SyncPass(sha, me, peer, s, t).me.files.Keys <= me.files.Keys + peer.files.Keys
  {
    hide FlatHash, SameContent, PeerAfter, MassDeletion, Conflicts, Pulls, HandsOver;
  }
}
