/**
 The pure sync decision (internal/p2p/syncengine/decision.go): is this a conflict, and if not, what
 has to happen to every path. Methods have the loops of the code; the ghost definitions beside them
 say what those loops decide, and the lemmas say what that decision is worth.
 */
module SyncDecision {
  import opened Basics
  import opened Manifests

  const ClockSkewToleranceMs := 2000

  // ----- Conflict detection

  method SameFiles(local: Files, remote: Files) returns (same: bool)
    ensures same <==> SameContent(local, remote)
  {
    if |local| != |remote| {
      assert local.Keys == remote.Keys ==> |local.Keys| == |remote.Keys|;
      return false;
    }
    var todo := local.Keys;
    while todo != {}
      invariant todo <= local.Keys
      invariant forall p :: p in local.Keys - todo ==> p in remote && local[p].hash == remote[p].hash
      decreases |todo|
    {
      var p :| p in todo;
      if p !in remote || local[p].hash != remote[p].hash {
        return false;
      }
      todo := todo - {p};
    }
    SubsetOfEqualSize(local.Keys, remote.Keys);
    same := true;
  }

  lemma SubsetOfEqualSize<T>(a: set<T>, b: set<T>)
    requires a <= b && |a| == |b|
    ensures a == b
  {
    assert |b - a| == |b| - |a|;
    assert b == a + (b - a);
  }

  /** Both sides changed and nothing says otherwise. */
  ghost predicate Conflicts(sha: string -> string, local: Manifest, remote: Manifest, lastSyncMs: int, agreed: string) {
    && HashOf(sha, local) != HashOf(sha, remote)
    && !SameContent(local.files, remote.files)
    && (if agreed != "" then
          HashOf(sha, local) != agreed && HashOf(sha, remote) != agreed
        else if lastSyncMs == 0 then
          |local.files| > 0 && |remote.files| > 0
        else
          && local.latestMtime > lastSyncMs + ClockSkewToleranceMs
          && remote.latestMtime > lastSyncMs + ClockSkewToleranceMs)
  }

  method DetectConflict(sha: string -> string, local: Manifest, remote: Manifest, lastSyncMs: int, agreed: string)
    returns (conflict: bool)
    ensures conflict <==> Conflicts(sha, local, remote, lastSyncMs, agreed)
  {
    var localHash := ManifestHash(local, sha);
    var remoteHash := ManifestHash(remote, sha);
    if localHash == remoteHash {
      return false;
    }
    var same := SameFiles(local.files, remote.files);
    if same {
      return false;
    }
    if agreed != "" {
      return localHash != agreed && remoteHash != agreed;
    }
    if lastSyncMs == 0 {
      return |local.files| > 0 && |remote.files| > 0;
    }
    return local.latestMtime > lastSyncMs + ClockSkewToleranceMs
        && remote.latestMtime > lastSyncMs + ClockSkewToleranceMs;
  }

  // ----- Classification

  datatype Decision = Decision(
    filesToPull: seq<string>,
    filesToPush: seq<string>,
    filesToDeleteOnPeer: seq<string>,
    filesToDeleteLocally: seq<string>,
    dirsToPull: seq<string>,
    dirsToPush: seq<string>,
    dirsToDeleteOnPeer: seq<string>,
    dirsToDeleteLocally: seq<string>)
  {
    predicate HasPull() {
      |filesToPull| > 0 || |dirsToPull| > 0
    }

    predicate HasPush() {
      |filesToPush| > 0 || |dirsToPush| > 0
    }

    predicate HasDeletions() {
      || |filesToDeleteOnPeer| > 0 || |filesToDeleteLocally| > 0
      || |dirsToDeleteOnPeer| > 0 || |dirsToDeleteLocally| > 0
    }

    predicate HasChanges() {
      HasPull() || HasPush() || HasDeletions()
    }

    /** A float comparison in the code; exact here, as it is there for any count below 2^53. */
    predicate IsMassDeletion(lineageFileCount: nat) {
      var deleted := |filesToDeleteLocally|;
      !(deleted < 3 || lineageFileCount == 0) && deleted as real >= lineageFileCount as real * 0.5
    }
  }

  datatype Action = Keep | Pull | Push | DeleteOnPeer | DeleteLocally

  /** What the lineage and, for two differing copies, the modification times say about one path. */
  ghost function FileAction(local: Files, remote: Files, lineage: set<string>, p: string): Action {
    if p in remote && p !in local then
      if p in lineage then DeleteOnPeer else Pull
    else if p in local && p !in remote then
      if p in lineage then DeleteLocally else Push
    else if p in local && p in remote && local[p].hash != remote[p].hash then
      if local[p].mtimeMs > remote[p].mtimeMs then Push else Pull
    else
      Keep
  }

  ghost function DirAction(local: set<string>, remote: set<string>, lineage: set<string>, p: string): Action {
    if p in remote && p !in local then
      if p in lineage then DeleteOnPeer else Pull
    else if p in local && p !in remote then
      if p in lineage then DeleteLocally else Push
    else
      Keep
  }

  /** The paths of `among` with the wanted action. */
  ghost function FilesFor(local: Files, remote: Files, lineage: set<string>, among: set<string>,
                          wanted: Action): set<string> {
    set p | p in among && FileAction(local, remote, lineage, p) == wanted
  }

  ghost function DirsFor(local: set<string>, remote: set<string>, lineage: set<string>, among: set<string>,
                         wanted: Action): set<string> {
    set p | p in among && DirAction(local, remote, lineage, p) == wanted
  }

  ghost predicate FilePlan(local: Files, remote: Files, lineage: set<string>, d: Decision) {
    var all := local.Keys + remote.Keys;
    && Enumerates(d.filesToPull, FilesFor(local, remote, lineage, all, Pull))
    && Enumerates(d.filesToPush, FilesFor(local, remote, lineage, all, Push))
    && Enumerates(d.filesToDeleteOnPeer, FilesFor(local, remote, lineage, all, DeleteOnPeer))
    && Enumerates(d.filesToDeleteLocally, FilesFor(local, remote, lineage, all, DeleteLocally))
  }

  ghost predicate DirPlan(local: set<string>, remote: set<string>, lineage: set<string>, d: Decision) {
    var all := local + remote;
    && Enumerates(d.dirsToPull, DirsFor(local, remote, lineage, all, Pull))
    && Enumerates(d.dirsToPush, DirsFor(local, remote, lineage, all, Push))
    && Enumerates(d.dirsToDeleteOnPeer, DirsFor(local, remote, lineage, all, DeleteOnPeer))
    && Enumerates(d.dirsToDeleteLocally, DirsFor(local, remote, lineage, all, DeleteLocally))
  }

  /** d is a plan for these manifests and lineages; only the order inside a list is left open. */
  ghost predicate IsPlan(local: Manifest, remote: Manifest, lineageFiles: set<string>, lineageDirs: set<string>,
                         d: Decision) {
    && FilePlan(local.files, remote.files, lineageFiles, d)
    && DirPlan(DirSet(local), DirSet(remote), lineageDirs, d)
  }

  ghost function DirSet(m: Manifest): set<string> {
    set p | p in m.dirs
  }

  method ToSet(items: seq<string>) returns (s: set<string>)
    ensures s == set p | p in items
  {
    s := {};
    for i := 0 to |items|
      invariant s == set p | p in items[..i]
    {
      assert items[..i + 1] == items[..i] + [items[i]];
      s := s + {items[i]};
    }
    assert items[..|items|] == items;
  }

  method Compute(local: Manifest, remote: Manifest, lastSyncedFiles: set<string>, lastSyncedDirs: set<string>)
    returns (d: Decision)
    ensures IsPlan(local, remote, lastSyncedFiles, lastSyncedDirs, d)
  {
    var filesToPull, filesToPush, filesToDeleteOnPeer, filesToDeleteLocally :=
      ClassifyFiles(local.files, remote.files, lastSyncedFiles);
    var localDirs := ToSet(local.dirs);
    var remoteDirs := ToSet(remote.dirs);
    var dirsToPull, dirsToPush, dirsToDeleteOnPeer, dirsToDeleteLocally :=
      ClassifyDirs(localDirs, remoteDirs, lastSyncedDirs);
    d := Decision(filesToPull, filesToPush, filesToDeleteOnPeer, filesToDeleteLocally,
                  dirsToPull, dirsToPush, dirsToDeleteOnPeer, dirsToDeleteLocally);
  }

  lemma FilesForStep(local: Files, remote: Files, lineage: set<string>, done: set<string>, wanted: Action,
                     list: seq<string>, p: string)
    requires p !in done && Enumerates(list, FilesFor(local, remote, lineage, done, wanted))
    ensures
      var after := FilesFor(local, remote, lineage, done + {p}, wanted);
      if FileAction(local, remote, lineage, p) == wanted then Enumerates(list + [p], after) else Enumerates(list, after)
  {
    var before := FilesFor(local, remote, lineage, done, wanted);
    var after := FilesFor(local, remote, lineage, done + {p}, wanted);
    if FileAction(local, remote, lineage, p) == wanted {
      assert after == before + {p};
    } else {
      assert after == before;
    }
  }

  /** The four lists over the paths done so far. */
  ghost predicate FilesListed(local: Files, remote: Files, lineage: set<string>, done: set<string>,
                              pull: seq<string>, push: seq<string>, onPeer: seq<string>, locally: seq<string>)
  {
    && Enumerates(pull, FilesFor(local, remote, lineage, done, Pull))
    && Enumerates(push, FilesFor(local, remote, lineage, done, Push))
    && Enumerates(onPeer, FilesFor(local, remote, lineage, done, DeleteOnPeer))
    && Enumerates(locally, FilesFor(local, remote, lineage, done, DeleteLocally))
  }

  lemma NothingListed(local: Files, remote: Files, lineage: set<string>)
    ensures FilesListed(local, remote, lineage, {}, [], [], [], [])
  {
  }

  lemma OneMoreListed(local: Files, remote: Files, lineage: set<string>, done: set<string>,
                      pull: seq<string>, push: seq<string>, onPeer: seq<string>, locally: seq<string>, p: string)
    requires p !in done && FilesListed(local, remote, lineage, done, pull, push, onPeer, locally)
    ensures
      var action := FileAction(local, remote, lineage, p);
      FilesListed(local, remote, lineage, done + {p},
        if action == Pull then pull + [p] else pull, if action == Push then push + [p] else push,
        if action == DeleteOnPeer then onPeer + [p] else onPeer,
            if action == DeleteLocally then locally + [p] else locally)
  {
    hide Enumerates, FilesFor, FileAction;
    FilesForStep(local, remote, lineage, done, Pull, pull, p);
    FilesForStep(local, remote, lineage, done, Push, push, p);
    FilesForStep(local, remote, lineage, done, DeleteOnPeer, onPeer, p);
    FilesForStep(local, remote, lineage, done, DeleteLocally, locally, p);
  }

  /** The loop over the paths of either side, in the order the map happens to yield them. */
  method ClassifyFiles(local: Files, remote: Files, lineage: set<string>)
    returns (pull: seq<string>, push: seq<string>, onPeer: seq<string>, locally: seq<string>)
    ensures Enumerates(pull, FilesFor(local, remote, lineage, local.Keys + remote.Keys, Pull))
    ensures Enumerates(push, FilesFor(local, remote, lineage, local.Keys + remote.Keys, Push))
    ensures Enumerates(onPeer, FilesFor(local, remote, lineage, local.Keys + remote.Keys, DeleteOnPeer))
    ensures Enumerates(locally, FilesFor(local, remote, lineage, local.Keys + remote.Keys, DeleteLocally))
  {
    hide FilesListed;
    ghost var all := local.Keys + remote.Keys;
    var todo := local.Keys + remote.Keys;
    pull, push, onPeer, locally := [], [], [], [];
    NothingListed(local, remote, lineage);
    assert all - todo == {};
    while todo != {}
      invariant todo <= all
      invariant FilesListed(local, remote, lineage, all - todo, pull, push, onPeer, locally)
      decreases |todo|
    {
      var p :| p in todo;
      OneMoreListed(local, remote, lineage, all - todo, pull, push, onPeer, locally, p);
      assert all - todo + {p} == all - (todo - {p});
      todo := todo - {p};
      if p in remote && p !in local {
        if p in lineage {
          onPeer := onPeer + [p];
        } else {
          pull := pull + [p];
        }
      } else if p in local && p !in remote {
        if p in lineage {
          locally := locally + [p];
        } else {
          push := push + [p];
        }
      } else if p in local && p in remote && local[p].hash != remote[p].hash {
        if remote[p].mtimeMs > local[p].mtimeMs {
          pull := pull + [p];
        } else if local[p].mtimeMs > remote[p].mtimeMs {
          push := push + [p];
        } else {
          pull := pull + [p];
        }
      }
    }
    assert all - todo == local.Keys + remote.Keys;
    ListedAll(local, remote, lineage, all - todo, pull, push, onPeer, locally);
  }

  lemma ListedAll(local: Files, remote: Files, lineage: set<string>, done: set<string>,
                  pull: seq<string>, push: seq<string>, onPeer: seq<string>, locally: seq<string>)
    requires FilesListed(local, remote, lineage, done, pull, push, onPeer, locally)
    ensures Enumerates(pull, FilesFor(local, remote, lineage, done, Pull))
    ensures Enumerates(push, FilesFor(local, remote, lineage, done, Push))
    ensures Enumerates(onPeer, FilesFor(local, remote, lineage, done, DeleteOnPeer))
    ensures Enumerates(locally, FilesFor(local, remote, lineage, done, DeleteLocally))
  {
  }

  lemma DirsForStep(local: set<string>, remote: set<string>, lineage: set<string>, done: set<string>, wanted: Action,
                    list: seq<string>, p: string)
    requires p !in done && Enumerates(list, DirsFor(local, remote, lineage, done, wanted))
    ensures
      var after := DirsFor(local, remote, lineage, done + {p}, wanted);
      if DirAction(local, remote, lineage, p) == wanted then Enumerates(list + [p], after) else Enumerates(list, after)
  {
    var before := DirsFor(local, remote, lineage, done, wanted);
    var after := DirsFor(local, remote, lineage, done + {p}, wanted);
    if DirAction(local, remote, lineage, p) == wanted {
      assert after == before + {p};
    } else {
      assert after == before;
    }
  }

  method ClassifyDirs(local: set<string>, remote: set<string>, lineage: set<string>)
    returns (pull: seq<string>, push: seq<string>, onPeer: seq<string>, locally: seq<string>)
    ensures Enumerates(pull, DirsFor(local, remote, lineage, local + remote, Pull))
    ensures Enumerates(push, DirsFor(local, remote, lineage, local + remote, Push))
    ensures Enumerates(onPeer, DirsFor(local, remote, lineage, local + remote, DeleteOnPeer))
    ensures Enumerates(locally, DirsFor(local, remote, lineage, local + remote, DeleteLocally))
  {
    var todo := local + remote;
    ghost var done: set<string> := {};
    pull, push, onPeer, locally := [], [], [], [];
    while todo != {}
      invariant done !! todo && done + todo == local + remote
      invariant Enumerates(pull, DirsFor(local, remote, lineage, done, Pull))
      invariant Enumerates(push, DirsFor(local, remote, lineage, done, Push))
      invariant Enumerates(onPeer, DirsFor(local, remote, lineage, done, DeleteOnPeer))
      invariant Enumerates(locally, DirsFor(local, remote, lineage, done, DeleteLocally))
      decreases |todo|
    {
      var p :| p in todo;
      DirsForStep(local, remote, lineage, done, Pull, pull, p);
      DirsForStep(local, remote, lineage, done, Push, push, p);
      DirsForStep(local, remote, lineage, done, DeleteOnPeer, onPeer, p);
      DirsForStep(local, remote, lineage, done, DeleteLocally, locally, p);
      if p in remote && p !in local {
        if p in lineage {
          onPeer := onPeer + [p];
        } else {
          pull := pull + [p];
        }
      } else if p in local && p !in remote {
        if p in lineage {
          locally := locally + [p];
        } else {
          push := push + [p];
        }
      }
      todo, done := todo - {p}, done + {p};
    }
    assert done == local + remote;
  }

  /** What membership in the file lists means. */
  lemma PlanMembers(local: Files, remote: Files, lineage: set<string>, d: Decision)
    requires FilePlan(local, remote, lineage, d)
    ensures forall p :: p in d.filesToPull <==> FileAction(local, remote, lineage, p) == Pull
    ensures forall p :: p in d.filesToPush <==> FileAction(local, remote, lineage, p) == Push
    ensures forall p :: p in d.filesToDeleteOnPeer <==> FileAction(local, remote, lineage, p) == DeleteOnPeer
    ensures forall p :: p in d.filesToDeleteLocally <==> FileAction(local, remote, lineage, p) == DeleteLocally
  {
    var all := local.Keys + remote.Keys;
    EnumeratesMembers(d.filesToPull, FilesFor(local, remote, lineage, all, Pull));
    EnumeratesMembers(d.filesToPush, FilesFor(local, remote, lineage, all, Push));
    EnumeratesMembers(d.filesToDeleteOnPeer, FilesFor(local, remote, lineage, all, DeleteOnPeer));
    EnumeratesMembers(d.filesToDeleteLocally, FilesFor(local, remote, lineage, all, DeleteLocally));
  }

  lemma DirPlanMembers(local: set<string>, remote: set<string>, lineage: set<string>, d: Decision)
    requires DirPlan(local, remote, lineage, d)
    ensures forall p :: p in d.dirsToPull <==> DirAction(local, remote, lineage, p) == Pull
    ensures forall p :: p in d.dirsToPush <==> DirAction(local, remote, lineage, p) == Push
    ensures forall p :: p in d.dirsToDeleteOnPeer <==> DirAction(local, remote, lineage, p) == DeleteOnPeer
    ensures forall p :: p in d.dirsToDeleteLocally <==> DirAction(local, remote, lineage, p) == DeleteLocally
  {
    var all := local + remote;
    EnumeratesMembers(d.dirsToPull, DirsFor(local, remote, lineage, all, Pull));
    EnumeratesMembers(d.dirsToPush, DirsFor(local, remote, lineage, all, Push));
    EnumeratesMembers(d.dirsToDeleteOnPeer, DirsFor(local, remote, lineage, all, DeleteOnPeer));
    EnumeratesMembers(d.dirsToDeleteLocally, DirsFor(local, remote, lineage, all, DeleteLocally));
  }

  // ----- What a plan is

  ghost predicate Differs(local: Files, remote: Files, p: string) {
    || (p in local) != (p in remote)
    || (p in local && p in remote && local[p].hash != remote[p].hash)
  }

  lemma FileListsOnce(local: Files, remote: Files, lineage: set<string>, d: Decision, p: string)
    requires FilePlan(local, remote, lineage, d)
    ensures
      var action := FileAction(local, remote, lineage, p);
      && multiset(d.filesToPull)[p] == (if action == Pull then 1 else 0)
      && multiset(d.filesToPush)[p] == (if action == Push then 1 else 0)
      && multiset(d.filesToDeleteOnPeer)[p] == (if action == DeleteOnPeer then 1 else 0)
      && multiset(d.filesToDeleteLocally)[p] == (if action == DeleteLocally then 1 else 0)
  {
  }

  lemma DirListsOnce(local: set<string>, remote: set<string>, lineage: set<string>, d: Decision, p: string)
    requires DirPlan(local, remote, lineage, d)
    ensures
      var action := DirAction(local, remote, lineage, p);
      && multiset(d.dirsToPull)[p] == (if action == Pull then 1 else 0)
      && multiset(d.dirsToPush)[p] == (if action == Push then 1 else 0)
      && multiset(d.dirsToDeleteOnPeer)[p] == (if action == DeleteOnPeer then 1 else 0)
      && multiset(d.dirsToDeleteLocally)[p] == (if action == DeleteLocally then 1 else 0)
  {
  }

  /** Every differing path is in one list, once; every other path is in none. */
  lemma PlanIsPartition(local: Manifest, remote: Manifest, lf: set<string>, ld: set<string>, d: Decision, p: string)
    requires IsPlan(local, remote, lf, ld, d)
    ensures multiset(d.filesToPull + d.filesToPush + d.filesToDeleteOnPeer + d.filesToDeleteLocally)[p]
         == if Differs(local.files, remote.files, p) then 1 else 0
    ensures multiset(d.dirsToPull + d.dirsToPush + d.dirsToDeleteOnPeer + d.dirsToDeleteLocally)[p]
         == if (p in local.dirs) != (p in remote.dirs) then 1 else 0
  {
    hide FilePlan, DirPlan;
    FileListsOnce(local.files, remote.files, lf, d, p);
    DirListsOnce(DirSet(local), DirSet(remote), ld, d, p);
    assert Differs(local.files, remote.files, p) <==> FileAction(local.files, remote.files, lf, p) != Keep;
  }

  lemma FileListsEmptyIffSame(local: Files, remote: Files, lineage: set<string>, d: Decision)
    requires FilePlan(local, remote, lineage, d)
    ensures d.filesToPull == d.filesToPush == d.filesToDeleteOnPeer == d.filesToDeleteLocally == []
       <==> SameContent(local, remote)
  {
    PlanMembers(local, remote, lineage, d);
    hide FilePlan;
    if SameContent(local, remote) {
      forall p ensures FileAction(local, remote, lineage, p) == Keep {
      }
      EmptyWithoutMembers(d.filesToPull);
      EmptyWithoutMembers(d.filesToPush);
      EmptyWithoutMembers(d.filesToDeleteOnPeer);
      EmptyWithoutMembers(d.filesToDeleteLocally);
    } else {
      DifferenceExists(local, remote);
      var p :| Differs(local, remote, p);
      assert FileAction(local, remote, lineage, p) != Keep;
    }
  }

  lemma DifferenceExists(local: Files, remote: Files)
    requires !SameContent(local, remote)
    ensures exists p :: Differs(local, remote, p)
  {
    if local.Keys != remote.Keys {
      var p :| (p in local) != (p in remote);
      assert Differs(local, remote, p);
    } else {
      var p :| p in local && local[p].hash != remote[p].hash;
      assert Differs(local, remote, p);
    }
  }

  lemma DirListsEmptyIffSame(local: set<string>, remote: set<string>, lineage: set<string>, d: Decision)
    requires DirPlan(local, remote, lineage, d)
    ensures d.dirsToPull == d.dirsToPush == d.dirsToDeleteOnPeer == d.dirsToDeleteLocally == [] <==> local == remote
  {
    DirPlanMembers(local, remote, lineage, d);
    hide DirPlan;
    if local == remote {
      forall p ensures DirAction(local, remote, lineage, p) == Keep {
      }
      EmptyWithoutMembers(d.dirsToPull);
      EmptyWithoutMembers(d.dirsToPush);
      EmptyWithoutMembers(d.dirsToDeleteOnPeer);
      EmptyWithoutMembers(d.dirsToDeleteLocally);
    } else {
      var p :| (p in local) != (p in remote);
      assert DirAction(local, remote, lineage, p) != Keep;
    }
  }

  /** Nothing to do means, and is meant by, equal content and equal directory sets. */
  lemma NoChangesIffEqual(local: Manifest, remote: Manifest, lf: set<string>, ld: set<string>, d: Decision)
    requires IsPlan(local, remote, lf, ld, d)
    ensures !d.HasChanges() <==> SameContent(local.files, remote.files) && DirSet(local) == DirSet(remote)
  {
    hide FilePlan, DirPlan;
    FileListsEmptyIffSame(local.files, remote.files, lf, d);
    DirListsEmptyIffSame(DirSet(local), DirSet(remote), ld, d);
  }

  ghost predicate Tie(local: Files, remote: Files, p: string) {
    p in local && p in remote && local[p].hash != remote[p].hash && local[p].mtimeMs == remote[p].mtimeMs
  }

  /** The two devices' plans mirror each other, except that on a tie both want to pull. */
  lemma PlansAreDual(local: Manifest, remote: Manifest, lf: set<string>, ld: set<string>, d: Decision, e: Decision,
                     p: string)
    requires IsPlan(local, remote, lf, ld, d) && IsPlan(remote, local, lf, ld, e)
    ensures p in e.filesToPush <==> p in d.filesToPull && !Tie(local.files, remote.files, p)
    ensures p in e.filesToPull <==> p in d.filesToPush || Tie(local.files, remote.files, p)
    ensures p in e.filesToDeleteLocally <==> p in d.filesToDeleteOnPeer
    ensures p in e.filesToDeleteOnPeer <==> p in d.filesToDeleteLocally
    ensures p in e.dirsToPull <==> p in d.dirsToPush
    ensures p in e.dirsToPush <==> p in d.dirsToPull
    ensures p in e.dirsToDeleteLocally <==> p in d.dirsToDeleteOnPeer
    ensures p in e.dirsToDeleteOnPeer <==> p in d.dirsToDeleteLocally
  {
    hide FilePlan, DirPlan;
    PlanMembers(local.files, remote.files, lf, d);
    PlanMembers(remote.files, local.files, lf, e);
    DirPlanMembers(DirSet(local), DirSet(remote), ld, d);
    DirPlanMembers(DirSet(remote), DirSet(local), ld, e);
  }

  /** The alarm is about the paths synced before, still held here, and gone on the peer. */
  lemma MassDeletionExactly(local: Manifest, remote: Manifest, lf: set<string>, ld: set<string>, d: Decision)
    requires IsPlan(local, remote, lf, ld, d)
    ensures
      var gone := set p | p in lf && p in local.files && p !in remote.files;
      d.IsMassDeletion(|lf|) <==> |gone| >= 3 && 2 * |gone| >= |lf|
  {
    var gone := set p | p in lf && p in local.files && p !in remote.files;
    var scheduled := FilesFor(local.files, remote.files, lf, local.files.Keys + remote.files.Keys, DeleteLocally);
    EnumeratesMembers(d.filesToDeleteLocally, scheduled);
    assert gone == scheduled;
    if lf == {} {
      assert gone == {};
    }
  }
}
