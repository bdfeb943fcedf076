/**
 A whole pass of one device against its peer (internal/p2p/syncengine/engine.go around the decision
 logic): repairing the merge-base, detecting a conflict, the two safety nets, applying the plan and
 recording what was learnt. Saves without sub-folders; a pass is one atomic step whose transfers
 succeed, and reports between the devices are separate steps that may never happen.
 */
module SyncSession {
  import opened Manifests
  import opened SyncDecision
  import opened Convergence
  import opened PeerStore

  /** One device's view of one game and one peer. */
  datatype Side = Side(files: Files, row: Row, conflict: bool, lastManifestHash: string)

  datatype Status = ConflictRaised | InSync | Applied

  datatype Outcome = Outcome(me: Side, peer: Side, status: Status)

  /** The newest of these times, no less than zero. */
  ghost function LatestOf(times: set<int>): (latest: int)
    ensures latest >= 0 && (latest in times || latest == 0)
    ensures forall t :: t in times ==> t <= latest
  {
    if t :| t in times then
      var rest := LatestOf(times - {t});
      assert forall u :: u in times ==> u == t || u in times - {t};
      if t > rest then t else rest
    else 0
  }

  ghost function Flat(files: Files): Manifest {
    Manifest(LatestOf(set p | p in files :: files[p].mtimeMs), files, [])
  }

  ghost function FlatHash(sha: string -> string, files: Files): string {
    HashOf(sha, Flat(files))
  }

  /** Newline-free file names, and no SHA-256 collision between these two saves. */
  ghost predicate Separates(sha: string -> string, a: Files, b: Files) {
    Tidy(Flat(a)) && Tidy(Flat(b)) && NoCollision(sha, Flat(a), Flat(b))
  }

  lemma HashComparesContent(sha: string -> string, a: Files, b: Files)
    requires Separates(sha, a, b)
    ensures FlatHash(sha, a) == FlatHash(sha, b) <==> SameContent(a, b)
  {
    EqualHashWithoutDirsIff(sha, Flat(a), Flat(b));
  }

  /** The plan holds a push or a deletion for the peer: something this side cannot see applied. */
  ghost predicate HandsOver(local: Files, remote: Files, lineage: set<string>) {
    exists p :: FileAction(local, remote, lineage, p) in {Push, DeleteOnPeer}
  }

  ghost predicate Pulls(local: Files, remote: Files, lineage: set<string>) {
    exists p :: FileAction(local, remote, lineage, p) == Pull
  }

  ghost function GoneOnPeer(local: Files, remote: Files, lineage: set<string>): set<string> {
    set p | p in lineage && p in local && p !in remote
  }

  /** When the plan's mass-deletion alarm goes off, as MassDeletionExactly shows. */
  ghost predicate MassDeletion(local: Files, remote: Files, lineage: set<string>) {
    var gone := GoneOnPeer(local, remote, lineage);
    |gone| >= 3 && 2 * |gone| >= |lineage|
  }

  /** A base behind both sides is repaired when equality, or a landed push, can be seen right here. */
  ghost function Repaired(sha: string -> string, me: Side, peer: Files): Row {
    var mine, theirs := FlatHash(sha, me.files), FlatHash(sha, peer);
    var row := if me.row.agreed != "" && me.row.agreed != mine && SameContent(me.files, peer)
               then me.row.WithAgreed(mine) else me.row;
    if row.pushed != "" && row.agreed != theirs && theirs == row.pushed then row.WithAgreed(theirs) else row
  }

  ghost function SyncPass(sha: string -> string, me: Side, peer: Side, lastSyncMs: int, now: int): Outcome {
    if me.conflict then
      Outcome(me, peer, ConflictRaised)
    else
      var row := Repaired(sha, me, peer.files);
      var mine, theirs := FlatHash(sha, me.files), FlatHash(sha, peer.files);
      if || Conflicts(sha, Flat(me.files), Flat(peer.files), lastSyncMs, row.agreed)
         || MassDeletion(me.files, peer.files, row.files) then
        Outcome(me.(row := row, conflict := true), peer, ConflictRaised)
      else if SameContent(me.files, peer.files) then
        Outcome(me.(row := row.WithLineage(me.files.Keys * peer.files.Keys, {}).WithAgreed(mine)), peer, InSync)
      else if Pulls(me.files, peer.files, row.files) && me.lastManifestHash != "" && mine != me.lastManifestHash then
        Outcome(me.(row := row, conflict := true), peer, ConflictRaised)
      else
        var own := OwnAfter(me.files, peer.files, row.files, now);
        var after := row.WithLineage((own.Keys + me.files.Keys) * peer.files.Keys, {});
        var recorded := if HandsOver(me.files, peer.files, row.files) then after.WithPushed(FlatHash(sha, own))
                        else after.WithAgreed(theirs);
        Outcome(me.(files := own, row := recorded),
                peer.(files := PeerAfter(me.files, peer.files, row.files)), Applied)
  }

  /** The peer reported that its pull finished, or asked for a deletion: re-derive the lineage. */
  ghost function RefreshLineage(sha: string -> string, me: Side, peer: Side): Side {
    var row := me.row.WithLineage(me.files.Keys * peer.files.Keys, {});
    if FlatHash(sha, me.files) == FlatHash(sha, peer.files)
    then me.(row := row.WithAgreed(FlatHash(sha, me.files)))
    else me.(row := row)
  }

  // ----- The lineage and the merge-base

  /**
   When a pass applies a plan, the base on file afterwards is known, and the new lineage stays within
   that base's paths in every case but one: the pass handed something over, so that the base had to
   stay behind, while the peer holds a path the base does not have.
   */
  lemma PassKeepsLineageWithinBaseIff(sha: string -> string, base: Files, me: Side, peer: Side, lastSyncMs: int,
                                      now: int)
    requires Separates(sha, me.files, peer.files)
    requires me.row.agreed == FlatHash(sha, base) != "" && FlatHash(sha, peer.files) != ""
    requires me.row.files <= base.Keys
    requires SyncPass(sha, me, peer, lastSyncMs, now).status == Applied
    ensures
      var row := SyncPass(sha, me, peer, lastSyncMs, now).me.row;
      var handsOver := HandsOver(me.files, peer.files, me.row.files);
      var landed := me.row.pushed == FlatHash(sha, peer.files);
      var newBase := if handsOver && !landed then base else peer.files;
      && row.agreed == FlatHash(sha, newBase)
      && (row.files <= newBase.Keys <==> !(handsOver && !landed && !(peer.files.Keys <= base.Keys)))
  {
    hide FlatHash, Separates, SyncPass, SameContent, OwnAfter, HandsOver;
    HashComparesContent(sha, me.files, peer.files);
    PassFacts(sha, me, peer, lastSyncMs, now);
    SharedPaths(me.files, peer.files, me.row.files, now);
    var lineage := me.row.files;
    if p :| p in peer.files && p !in base {
      assert FileAction(me.files, peer.files, lineage, p) != DeleteOnPeer;
    }
  }

  /** The paths a pass records are the peer's, less those it asked the peer to delete. */
  lemma SharedPaths(own: Files, peer: Files, lineage: set<string>, now: int)
    ensures (OwnAfter(own, peer, lineage, now).Keys + own.Keys) * peer.Keys
         == set p | p in peer && FileAction(own, peer, lineage, p) != DeleteOnPeer
  {
  }

  /** What an applied pass tells about its start and its bookkeeping. */
  lemma PassFacts(sha: string -> string, me: Side, peer: Side, lastSyncMs: int, now: int)
    requires SyncPass(sha, me, peer, lastSyncMs, now).status == Applied
    requires FlatHash(sha, me.files) == FlatHash(sha, peer.files) <==> SameContent(me.files, peer.files)
    requires me.row.agreed != "" && FlatHash(sha, peer.files) != ""
    ensures
      var own := OwnAfter(me.files, peer.files, me.row.files, now);
      var row := SyncPass(sha, me, peer, lastSyncMs, now).me.row;
      var theirs := FlatHash(sha, peer.files);
      && row.files == (own.Keys + me.files.Keys) * peer.files.Keys
      && row.agreed == (if HandsOver(me.files, peer.files, me.row.files) &&
          me.row.pushed != theirs then me.row.agreed else theirs)
  {
    hide Conflicts, MassDeletion, OwnAfter, PeerAfter, HandsOver, Pulls, FlatHash, SameContent;
  }

  // ----- One side edits, the other does not

  /** A side whose hash is the agreed one never conflicts; two sides that both left it differ or do. */
  lemma NoConflictAtBase(sha: string -> string, local: Files, remote: Files, lastSyncMs: int, agreed: string)
    requires agreed != ""
    ensures Conflicts(sha, Flat(local), Flat(remote), lastSyncMs, agreed) <==>
      && FlatHash(sha, local) != FlatHash(sha, remote) && !SameContent(local, remote)
      && FlatHash(sha, local) != agreed && FlatHash(sha, remote) != agreed
  {
  }

  /** The peer still holds the agreed base, and every file changed here is the newer copy. */
  ghost predicate OneSidedEdit(sha: string -> string, base: Files, me: Side, peer: Side) {
    && !me.conflict && me.row.agreed == FlatHash(sha, base) && me.row.files == base.Keys
    && SameContent(peer.files, base) && !SameContent(me.files, peer.files)
    && (forall p :: p in me.files && p in peer.files && me.files[p].hash != peer.files[p].hash
          ==> me.files[p].mtimeMs > peer.files[p].mtimeMs)
  }

  /** The editing side's own pass goes through: deletions reach the peer, nothing here changes. */
  lemma OneSidedEditApplies(sha: string -> string, base: Files, me: Side, peer: Side, lastSyncMs: int, now: int)
    requires OneSidedEdit(sha, base, me, peer)
    requires FlatHash(sha, base) != "" && Separates(sha, peer.files, base)
    ensures
      var out := SyncPass(sha, me, peer, lastSyncMs, now);
      && out.status == Applied && out.me.files == me.files && !out.me.conflict
      && out.peer == peer.(files := PeerAfter(me.files, peer.files, base.Keys))
  {
    hide FlatHash, PeerAfter, OwnAfter, MassDeletion, Pulls, HandsOver, SameContent, Separates, Conflicts;
    HashComparesContent(sha, peer.files, base);
    NoConflictAtBase(sha, me.files, peer.files, lastSyncMs, me.row.agreed);
    EditPlan(base, me.files, peer.files, now);
    assert Repaired(sha, me, peer.files) == me.row;
  }

  /** The plan of a one-sided edit, seen from the side that made it. */
  lemma EditPlan(base: Files, local: Files, remote: Files, now: int)
    requires SameContent(remote, base)
    requires forall p :: p in local && p in remote && local[p].hash != remote[p].hash ==>
        local[p].mtimeMs > remote[p].mtimeMs
    ensures OwnAfter(local, remote, base.Keys, now) == local
    ensures !Pulls(local, remote, base.Keys) && !MassDeletion(local, remote, base.Keys)
  {
    forall p ensures FileAction(local, remote, base.Keys, p) in {Keep, Push, DeleteOnPeer} {
    }
    assert GoneOnPeer(local, remote, base.Keys) == {};
  }

  // ----- The ways through a pass

  /** The push record, if any, is not what the peer holds. */
  ghost predicate NoLandedPush(sha: string -> string, me: Side, peer: Side) {
    me.row.pushed == "" || me.row.pushed != FlatHash(sha, peer.files)
  }

  lemma PassWhenBothLeftBase(sha: string -> string, me: Side, peer: Side, lastSyncMs: int, now: int)
    requires !me.conflict && me.row.agreed != "" && NoLandedPush(sha, me, peer)
    requires FlatHash(sha, me.files) != me.row.agreed && FlatHash(sha, peer.files) != me.row.agreed
    requires FlatHash(sha, me.files) != FlatHash(sha, peer.files) && !SameContent(me.files, peer.files)
    ensures SyncPass(sha, me, peer, lastSyncMs, now).status == ConflictRaised
  {
    hide FlatHash, SameContent, OwnAfter, PeerAfter, MassDeletion, Conflicts, Pulls, HandsOver;
    NoConflictAtBase(sha, me.files, peer.files, lastSyncMs, me.row.agreed);
  }

  lemma PassAtBase(sha: string -> string, me: Side, peer: Side, lastSyncMs: int, now: int)
    requires !me.conflict && me.row.agreed != "" && NoLandedPush(sha, me, peer)
    requires FlatHash(sha, me.files) == me.row.agreed || FlatHash(sha, peer.files) == me.row.agreed
    requires !SameContent(me.files, peer.files) && !MassDeletion(me.files, peer.files, me.row.files)
    requires me.lastManifestHash in {"", FlatHash(sha, me.files)} || !Pulls(me.files, peer.files, me.row.files)
    ensures
      var out := SyncPass(sha, me, peer, lastSyncMs, now);
      var own := OwnAfter(me.files, peer.files, me.row.files, now);
      var row := me.row.WithLineage((own.Keys + me.files.Keys) * peer.files.Keys, {});
      && out.status == Applied
      && out.me == me.(files := own, row := if HandsOver(me.files, peer.files, me.row.files)
                         then row.WithPushed(FlatHash(sha, own)) else row.WithAgreed(FlatHash(sha, peer.files)))
      && out.peer == peer.(files := PeerAfter(me.files, peer.files, me.row.files))
  {
    hide FlatHash, SameContent, OwnAfter, PeerAfter, MassDeletion, Conflicts, Pulls, HandsOver;
    NoConflictAtBase(sha, me.files, peer.files, lastSyncMs, me.row.agreed);
    assert Repaired(sha, me, peer.files) == me.row;
  }

  lemma PassInSync(sha: string -> string, me: Side, peer: Side, lastSyncMs: int, now: int)
    requires !me.conflict && SameContent(me.files, peer.files)
    ensures
      var out := SyncPass(sha, me, peer, lastSyncMs, now);
      out.status == InSync && out.me.files == me.files && out.peer == peer
  {
    hide FlatHash, OwnAfter, PeerAfter, Pulls, HandsOver;
    assert forall row: Row :: !Conflicts(sha, Flat(me.files), Flat(peer.files), lastSyncMs, row.agreed);
    assert forall row: Row :: !MassDeletion(me.files, peer.files, row.files) by {
      assert forall row: Row :: GoneOnPeer(me.files, peer.files, row.files) == {};
    }
  }

  ghost predicate DropsFile(base: Files, files: Files) {
    exists p :: p in base && p !in files
  }

  ghost predicate AddsOrChanges(base: Files, files: Files) {
    exists p :: p in files && (p !in base || files[p].hash != base[p].hash)
  }

  /** What the peer is left with after the deletions, compared with both ends of the edit. */
  lemma LeftAfterDeletions(base: Files, local: Files, remote: Files)
    requires SameContent(remote, base) && !SameContent(local, remote)
    ensures
      var left := PeerAfter(local, remote, base.Keys);
      && left.Keys == remote.Keys * local.Keys && left.Keys <= base.Keys
      && (SameContent(left, base) <==> !DropsFile(base, local))
      && (SameContent(left, local) <==> !AddsOrChanges(base, local))
      && (!DropsFile(base, local) ==> left == remote)
      && !SameContent(local, base) && SameContent(local, local)
  {
    var left := PeerAfter(local, remote, base.Keys);
    forall p ensures p in left <==> p in remote && p in local {
    }
  }

  lemma NothingDropped(base: Files, local: Files, left: Files, lineage: set<string>)
    requires !DropsFile(base, local) && lineage <= base.Keys
    ensures !MassDeletion(left, local, lineage)
  {
    assert GoneOnPeer(left, local, lineage) == {};
  }

  /** The peer as it stands when its own pass starts. */
  ghost function Waiting(sha: string -> string, first: Outcome, refreshed: bool): Side {
    if refreshed then RefreshLineage(sha, first.peer, first.me) else first.peer
  }

  /**
   The edit reaches the peer by the peer's own pass. If the edit both dropped a file and added or
   changed one, renaming a save being the simplest case, that pass raises a conflict although the
   peer's user touched nothing: the propagated deletions have moved the peer off the base too. In
   every other case it succeeds and both devices hold the edited save.
   */
  lemma OneSidedEditConflictsOnPeerIff(sha: string -> string, base: Files, me: Side, peer: Side, refreshed: bool,
                                       s0: int, s1: int, t0: int, t1: int)
    requires OneSidedEdit(sha, base, me, peer) && FlatHash(sha, base) != ""
    requires !peer.conflict && peer.row.agreed == FlatHash(sha, base) && peer.row.pushed == "" &&
        peer.row.files <= base.Keys
    requires peer.lastManifestHash in {"", FlatHash(sha, peer.files)}
    requires Separates(sha, peer.files, base) && Separates(sha, me.files, base)
    requires
      var left := PeerAfter(me.files, peer.files, base.Keys);
      Separates(sha, left, base) && Separates(sha, left, me.files)
    ensures
      var first := SyncPass(sha, me, peer, s0, t0);
      var second := SyncPass(sha, Waiting(sha, first, refreshed), first.me, s1, t1);
      if DropsFile(base, me.files) && AddsOrChanges(base, me.files) then
        second.status == ConflictRaised
      else
        second.status != ConflictRaised && SameContent(second.me.files, me.files) &&
            SameContent(second.peer.files, me.files)
  {
    hide SyncPass, FlatHash, PeerAfter, OwnAfter, SameContent, Separates, DropsFile, AddsOrChanges, MassDeletion;
    OneSidedEditApplies(sha, base, me, peer, s0, t0);
    LeftAfterDeletions(base, me.files, peer.files);
    var first := SyncPass(sha, me, peer, s0, t0);
    var left := PeerAfter(me.files, peer.files, base.Keys);
    HashComparesContent(sha, left, base);
    HashComparesContent(sha, me.files, base);
    HashComparesContent(sha, left, me.files);
    var waiting := Waiting(sha, first, refreshed);
    assert waiting.files == left && waiting.row.files <= base.Keys;
    if DropsFile(base, me.files) && AddsOrChanges(base, me.files) {
      PassWhenBothLeftBase(sha, waiting, first.me, s1, t1);
    } else if AddsOrChanges(base, me.files) {
      PushArrives(base, me.files, peer.files, base.Keys, waiting.row.files, t0, t1);
      NothingDropped(base, me.files, left, waiting.row.files);
      PassAtBase(sha, waiting, first.me, s1, t1);
    } else {
      PassInSync(sha, waiting, first.me, s1, t1);
    }
  }

  /** The simplest case: a save renamed on one device is reported as a conflict by the other. */
  lemma RenamedSaveConflicts(sha: string -> string, was: string, now': string, e: FileEntry, refreshed: bool,
                             s0: int, s1: int, t0: int, t1: int)
    requires was != now'
    requires AllSeparate(sha, [map[was := e], map[now' := e], map[]]) && FlatHash(sha, map[was := e]) != ""
    ensures
      var agreed := map[was := e];
      var first := SyncPass(sha, Settled(sha, map[now' := e], agreed), Settled(sha, agreed, agreed), s0, t0);
      SyncPass(sha, Waiting(sha, first, refreshed), first.me, s1, t1).status == ConflictRaised
  {
    hide FlatHash, Separates, SyncPass, RefreshLineage;
    var base: Files, renamed: Files := map[was := e], map[now' := e];
    var states := [base, renamed, map[]];
    assert states[0] == base && states[1] == renamed && states[2] == map[];
    var me, peer := Settled(sha, renamed, base), Settled(sha, base, base);
    assert was in base && was !in renamed && now' in renamed && now' !in base;
    assert PeerAfter(renamed, base, base.Keys) == map[];
    OneSidedEditConflictsOnPeerIff(sha, base, me, peer, refreshed, s0, s1, t0, t1);
  }

  // ----- A run on which an edit nobody else has seen is deleted

  ghost predicate AllSeparate(sha: string -> string, states: seq<Files>) {
    forall i, j :: 0 <= i < |states| && 0 <= j < |states| ==> Separates(sha, states[i], states[j])
  }

  /** SHA-256 in hex is never the empty text. */
  ghost predicate HashesNonEmpty(sha: string -> string, states: seq<Files>) {
    forall i :: 0 <= i < |states| ==> FlatHash(sha, states[i]) != ""
  }

  /** Two devices agreed on a save: nothing pushed, nothing in dispute. */
  ghost function Settled(sha: string -> string, files: Files, base: Files): Side {
    Side(files, Row(base.Keys, {}, FlatHash(sha, base), ""), false, "")
  }

  /**
   A refresh that takes the lineage out of the base, as SyncHistory says exactly when, can cost work.
   Both devices agree on {x}. A adds y and pushes; B pulls it and edits x; A's refresh now records y
   as shared while its base stays at {x}. B rolls back to the agreed save, A edits y, and A's next
   pass deletes the edited y: the peer is at A's base, so this is no conflict, and y is in the lineage.
   */
  lemma RollbackDeletesUnsyncedEdit(sha: string -> string, x: string, e: FileEntry, e': FileEntry, y: string,
                                    f: FileEntry, f': FileEntry, s: int, t: int)
    requires x != y && e.hash != e'.hash && f.hash != f'.hash && f.mtimeMs > 0
    requires AllSeparate(sha, [map[x := e], map[x := e, y := f], map[x := e', y := f], map[x := e, y := f']])
    requires HashesNonEmpty(sha, [map[x := e], map[x := e, y := f]])
    ensures
      var agreed, added := map[x := e], map[x := e, y := f];
      var pushed := SyncPass(sha, Settled(sha, added, agreed), Settled(sha, agreed, agreed), s, t);
      var pulled := SyncPass(sha, pushed.peer, pushed.me, s, t);
      var refreshed := RefreshLineage(sha, pulled.peer, pulled.me.(files := map[x := e', y := f]));
      var last := SyncPass(sha, refreshed.(files := map[x := e, y := f']), pulled.me.(files := agreed), s, t);
      && pushed.status == pulled.status == last.status == Applied
      && pulled.me.files == pulled.peer.files == added
      && last.me.files == agreed && last.peer.files == agreed
  {
    hide SyncPass, FlatHash, Separates, OwnAfter, PeerAfter, MassDeletion;
    var s0, s1, s2, s3 := map[x := e], map[x := e, y := f], map[x := e', y := f], map[x := e, y := f'];
    var states := [s0, s1, s2, s3];
    assert forall i :: 0 <= i < 4 ==> Separates(sha, states[i], states[0]) && Separates(sha, states[i], states[1]);
    assert states[0] == s0 && states[1] == s1 && states[2] == s2 && states[3] == s3;
    HashComparesContent(sha, s1, s0);
    HashComparesContent(sha, s2, s1);
    HashComparesContent(sha, s3, s0);
    DifferentSaves(x, e, e', y, f, f');

    var a, b := Settled(sha, s1, s0), Settled(sha, s0, s0);
    PushedFilePlans(x, e, y, f, t);
    PulledFilePlans(x, e, y, f, t);
    assert s0.Keys == {x};
    PassAtBase(sha, a, b, s, t);
    var pushed := SyncPass(sha, a, b, s, t);
    assert (s1.Keys + s1.Keys) * s0.Keys == {x};
    assert pushed.peer == b && pushed.me == a.(row := Row({x}, {}, FlatHash(sha, s0), FlatHash(sha, s1)));

    PassAtBase(sha, b, pushed.me, s, t);
    var pulled := SyncPass(sha, b, pushed.me, s, t);
    assert pulled.me.files == s1 && pulled.peer == pushed.me;

    var refreshed := RefreshLineage(sha, pulled.peer, pulled.me.(files := s2));
    assert refreshed == pulled.peer.(row := Row({x, y}, {}, FlatHash(sha, s0), FlatHash(sha, s1))) by {
      assert s1.Keys * s2.Keys == {x, y};
    }
    DroppedFilePlans(x, e, y, f', t);
    PassAtBase(sha, refreshed.(files := s3), pulled.me.(files := s0), s, t);
  }

  lemma DifferentSaves(x: string, e: FileEntry, e': FileEntry, y: string, f: FileEntry, f': FileEntry)
    requires x != y && e.hash != e'.hash && f.hash != f'.hash
    ensures !SameContent(map[x := e, y := f], map[x := e]) && !SameContent(map[x := e], map[x := e, y := f])
    ensures !SameContent(map[x := e', y := f], map[x := e, y := f])
    ensures !SameContent(map[x := e, y := f'], map[x := e])
  {
    assert y in map[x := e, y := f] && y !in map[x := e] && y in map[x := e, y := f'];
    assert x in map[x := e', y := f];
  }

  /** A file one side added: that side pushes it. */
  lemma PushedFilePlans(x: string, e: FileEntry, y: string, f: FileEntry, t: int)
    requires x != y
    ensures
      var with, without := map[x := e, y := f], map[x := e];
      && OwnAfter(with, without, {x}, t) == with && PeerAfter(with, without, {x}) == without
      && HandsOver(with, without, {x}) && !MassDeletion(with, without, {x})
  {
    var with, without := map[x := e, y := f], map[x := e];
    assert FileAction(with, without, {x}, y) == Push;
    assert forall p :: p != y ==> FileAction(with, without, {x}, p) == Keep;
    assert GoneOnPeer(with, without, {x}) == {};
  }

  /** And the other pulls it. */
  lemma PulledFilePlans(x: string, e: FileEntry, y: string, f: FileEntry, t: int)
    requires x != y && f.mtimeMs > 0
    ensures
      var with, without := map[x := e, y := f], map[x := e];
      && OwnAfter(without, with, {x}, t) == with && PeerAfter(without, with, {x}) == with
      && !HandsOver(without, with, {x}) && !MassDeletion(without, with, {x})
  {
    var with, without := map[x := e, y := f], map[x := e];
    assert FileAction(without, with, {x}, y) == Pull;
    assert forall p :: p != y ==> FileAction(without, with, {x}, p) == Keep;
    assert GoneOnPeer(without, with, {x}) == {};
  }

  /** A file in the lineage that only one side still has: it goes. */
  lemma DroppedFilePlans(x: string, e: FileEntry, y: string, f: FileEntry, t: int)
    requires x != y
    ensures
      var with, without := map[x := e, y := f], map[x := e];
      && OwnAfter(with, without, {x, y}, t) == without && PeerAfter(with, without, {x, y}) == without
      && !Pulls(with, without, {x, y}) && !MassDeletion(with, without, {x, y})
  {
    var with, without := map[x := e, y := f], map[x := e];
    assert FileAction(with, without, {x, y}, y) == DeleteLocally;
    assert forall p :: p != y ==> FileAction(with, without, {x, y}, p) == Keep;
    var gone := GoneOnPeer(with, without, {x, y});
    assert gone == {y} && |gone| == 1;
  }
}
