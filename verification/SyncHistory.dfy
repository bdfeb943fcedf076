/**
 Whole histories of two devices: the players' edits and rollbacks, passes of either device,
 passes cut off half way and lineage refreshes, in any order (internal/p2p/syncengine/engine.go). The
 question is whether the
 recorded lineage stays within the merge-base on file, since that is what keeps a pass from deleting
 work the other device never saw.
 */
module SyncHistory {
  import TextOrder
  import opened Manifests
  import opened SyncDecision
  import opened Convergence
  import opened PeerStore
  import opened SyncSession

  // ----- One refresh, one pass

  /**
   A refresh leaves the lineage within the base on file exactly if the saves agree, or the paths both
   sides hold are all paths of the base.
   */
  lemma RefreshKeepsLineageWithinBaseIff(sha: string -> string, base: Files, me: Side, peer: Side)
    requires Separates(sha, me.files, peer.files) && me.row.agreed == FlatHash(sha, base)
    ensures
      var row := RefreshLineage(sha, me, peer).row;
      var newBase := BaseAfterRefresh(base, me, peer);
      && row.agreed == FlatHash(sha, newBase)
      && (row.files <= newBase.Keys <==>
          SameContent(me.files, peer.files) || me.files.Keys * peer.files.Keys <= base.Keys)
  {
    hide FlatHash, Separates;
    HashComparesContent(sha, me.files, peer.files);
  }

  ghost function BaseAfterRefresh(base: Files, me: Side, peer: Side): Files {
    if SameContent(me.files, peer.files) then me.files else base
  }

  /** The push on file is seen to have landed, so that the peer's save becomes the base. */
  ghost predicate Landed(sha: string -> string, me: Side, peer: Side) {
    me.row.pushed != "" && me.row.agreed != FlatHash(sha, peer.files) && me.row.pushed == FlatHash(sha, peer.files)
  }

  /** The base that a pass judges two different saves by. */
  ghost function JudgedBase(sha: string -> string, base: Files, me: Side, peer: Side): Files {
    if Landed(sha, me, peer) then peer.files else base
  }

  /** Everything the plan deletes, here or on the peer, still has the base's content. */
  ghost predicate LosesNothing(base: Files, local: Files, remote: Files, lineage: set<string>) {
    forall p ::
      && (FileAction(local, remote, lineage, p) == DeleteLocally ==> p in base && local[p].hash == base[p].hash)
      && (FileAction(local, remote, lineage, p) == DeleteOnPeer ==> p in base && remote[p].hash == base[p].hash)
  }

  /** The merge-base on file is the hash of base, and the lineage holds no path that base lacks. */
  ghost predicate Tracked(sha: string -> string, base: Files, me: Side) {
    me.row.agreed == FlatHash(sha, base) && FlatHash(sha, base) != "" && me.row.files <= base.Keys
  }

  ghost predicate AllSeparated(sha: string -> string, base: Files, me: Side, peer: Side) {
    && Separates(sha, me.files, peer.files) && Separates(sha, me.files, base) && Separates(sha, peer.files, base)
    && FlatHash(sha, me.files) != "" && FlatHash(sha, peer.files) != ""
  }

  /**
   The guards on the way to applying a plan: no conflict pending, two different saves, one of them at the
   base they are judged by, fewer than three files to delete here or less than half of those synced
   before, and nothing pulled over changes no snapshot holds.
   */
  ghost predicate Proceeds(sha: string -> string, base: Files, me: Side, peer: Side) {
    && !me.conflict && !SameContent(me.files, peer.files)
    && OneSideAtBase(JudgedBase(sha, base, me, peer), me.files, peer.files)
    && (var gone := GoneOnPeer(me.files, peer.files, me.row.files); |gone| < 3 || 2 * |gone| < |me.row.files|)
    && !(Pulls(me.files, peer.files, me.row.files) && me.lastManifestHash != "" &&
        FlatHash(sha, me.files) != me.lastManifestHash)
  }

  /** They decide whether a pass applies its plan, whatever the clocks say. */
  lemma AppliesIffProceeds(sha: string -> string, base: Files, me: Side, peer: Side, lastSyncMs: int, now: int)
    requires Tracked(sha, base, me) && AllSeparated(sha, base, me, peer)
    ensures SyncPass(sha, me, peer, lastSyncMs, now).status == Applied <==> Proceeds(sha, base, me, peer)
  {
    hide FlatHash, Separates, SameContent, OwnAfter, PeerAfter, HandsOver, Pulls, GoneOnPeer, Conflicts;
    HashComparesContent(sha, me.files, peer.files);
    HashComparesContent(sha, me.files, base);
    HashComparesContent(sha, peer.files, base);
    NoConflictAtBase(sha, me.files, peer.files, lastSyncMs, Repaired(sha, me, peer.files).agreed);
    SameAsItself(peer.files);
  }

  lemma SameAsItself(files: Files)
    ensures SameContent(files, files)
  {
  }

  lemma DeletionsFromBase(base: Files, local: Files, remote: Files, lineage: set<string>)
    requires !SameContent(local, remote) && OneSideAtBase(base, local, remote)
    ensures LosesNothing(base, local, remote, lineage) <==>
        forall p :: p in lineage && (p in local) != (p in remote) ==> p in base
  {
    if p :| p in lineage && (p in local) != (p in remote) && p !in base {
      assert FileAction(local, remote, lineage, p) in {DeleteLocally, DeleteOnPeer};
    }
  }

  /**
   A pass that proceeds with its lineage within the base on file deletes nothing but the content of the
   base it is judged by, exactly unless a push has just been seen to land and a path of the lineage held
   here is not part of it.
   */
  lemma PassDeletesOnlyBaseIff(sha: string -> string, base: Files, me: Side, peer: Side)
    requires Tracked(sha, base, me) && Proceeds(sha, base, me, peer)
    ensures LosesNothing(JudgedBase(sha, base, me, peer), me.files, peer.files, me.row.files) <==>
            !Landed(sha, me, peer) || GoneOnPeer(me.files, peer.files, me.row.files) == {}
  {
    hide *;
    ProceedsFromBase(sha, base, me, peer);
    DeletionsFromBase(JudgedBase(sha, base, me, peer), me.files, peer.files, me.row.files);
    LineageWithin(sha, base, me);
    if Landed(sha, me, peer) {
      JudgedBaseIs(sha, base, me, peer);
      OneSidedPaths(me.files, peer.files, me.row.files);
    } else {
      JudgedBaseIs(sha, base, me, peer);
    }
  }

  lemma ProceedsFromBase(sha: string -> string, base: Files, me: Side, peer: Side)
    requires Proceeds(sha, base, me, peer)
    ensures !SameContent(me.files, peer.files) && OneSideAtBase(JudgedBase(sha, base, me, peer), me.files, peer.files)
  {
  }

  lemma LineageWithin(sha: string -> string, base: Files, me: Side)
    requires Tracked(sha, base, me)
    ensures me.row.files <= base.Keys && forall p :: p in me.row.files ==> p in base
  {
  }

  lemma JudgedBaseIs(sha: string -> string, base: Files, me: Side, peer: Side)
    ensures JudgedBase(sha, base, me, peer) == if Landed(sha, me, peer) then peer.files else base
  {
  }

  lemma OneSidedPaths(local: Files, remote: Files, lineage: set<string>)
    ensures (forall p :: p in lineage && (p in local) != (p in remote) ==> p in remote) <==>
        GoneOnPeer(local, remote, lineage) == {}
  {
    if p :| p in GoneOnPeer(local, remote, lineage) {
      assert p in lineage && (p in local) != (p in remote);
    } else {
      assert forall p :: p in lineage && p in local && p !in remote ==> p in GoneOnPeer(local, remote, lineage);
    }
  }

  // ----- The base after a pass

  ghost function BaseAfterPass(sha: string -> string, base: Files, me: Side, peer: Side): Files {
    if me.conflict then base
    else if SameContent(me.files, peer.files) then me.files
    else if !Proceeds(sha, base, me, peer) then JudgedBase(sha, base, me, peer)
    else if HandsOver(me.files, peer.files, me.row.files) && !Landed(sha, me, peer) then base
    else peer.files
  }

  /** The ways in which a pass lets the lineage out of the base on file. */
  ghost predicate LetsLineageOut(sha: string -> string, base: Files, me: Side, peer: Side) {
    !me.conflict && !SameContent(me.files, peer.files) &&
    if Proceeds(sha, base, me, peer) then
      HandsOver(me.files, peer.files, me.row.files) && !Landed(sha, me, peer) && !(peer.files.Keys <= base.Keys)
    else
      Landed(sha, me, peer) && !(me.row.files <= peer.files.Keys)
  }

  lemma RepairedIs(sha: string -> string, me: Side, peer: Side)
    requires !SameContent(me.files, peer.files)
    ensures Repaired(sha, me, peer.files) ==
            if Landed(sha, me, peer) then me.row.WithAgreed(FlatHash(sha, peer.files)) else me.row
  {
    hide FlatHash, SameContent;
  }

  lemma PassRowRefused(sha: string -> string, me: Side, peer: Side, lastSyncMs: int, now: int)
    requires !me.conflict && !SameContent(me.files, peer.files) &&
        SyncPass(sha, me, peer, lastSyncMs, now).status != Applied
    ensures SyncPass(sha, me, peer, lastSyncMs, now).me.row == Repaired(sha, me, peer.files)
  {
    hide FlatHash, SameContent, OwnAfter, PeerAfter, HandsOver, Pulls, Conflicts, MassDeletion, Repaired;
  }

  /** The base on file after a pass over two different saves. */
  lemma PassRowApart(sha: string -> string, base: Files, me: Side, peer: Side, lastSyncMs: int, now: int)
    requires Tracked(sha, base, me) && AllSeparated(sha, base, me, peer) && !me.conflict
    requires !SameContent(me.files, peer.files)
    ensures
      var row := SyncPass(sha, me, peer, lastSyncMs, now).me.row;
      && row.agreed == FlatHash(sha, BaseAfterPass(sha, base, me, peer))
      && (!Proceeds(sha, base, me, peer) ==> row.files == me.row.files)
  {
    AppliesIffProceeds(sha, base, me, peer, lastSyncMs, now);
    hide FlatHash, SyncPass, Separates, SameContent, HandsOver, Proceeds, Repaired;
    HashComparesContent(sha, me.files, peer.files);
    if Proceeds(sha, base, me, peer) {
      PassFacts(sha, me, peer, lastSyncMs, now);
    } else {
      PassRowRefused(sha, me, peer, lastSyncMs, now);
      RepairedIs(sha, me, peer);
    }
  }

  lemma PassRowTogether(sha: string -> string, base: Files, me: Side, peer: Side, lastSyncMs: int, now: int)
    requires AllSeparated(sha, base, me, peer) && !me.conflict && SameContent(me.files, peer.files)
    ensures
      var row := SyncPass(sha, me, peer, lastSyncMs, now).me.row;
      row.agreed == FlatHash(sha, me.files) && row.files == me.files.Keys * peer.files.Keys
  {
    PassInSync(sha, me, peer, lastSyncMs, now);
    hide FlatHash, AllSeparated, OwnAfter, PeerAfter, HandsOver, Pulls, Conflicts, MassDeletion, Repaired;
  }

  lemma PassRow(sha: string -> string, base: Files, me: Side, peer: Side, lastSyncMs: int, now: int)
    requires Tracked(sha, base, me) && AllSeparated(sha, base, me, peer) && !me.conflict
    ensures
      var row := SyncPass(sha, me, peer, lastSyncMs, now).me.row;
      && row.agreed == FlatHash(sha, BaseAfterPass(sha, base, me, peer))
      && (SameContent(me.files, peer.files) ==> row.files == me.files.Keys * peer.files.Keys)
      && (!SameContent(me.files, peer.files) && !Proceeds(sha, base, me, peer) ==> row.files == me.row.files)
  {
    hide SyncPass, FlatHash, AllSeparated, Tracked, SameContent, Proceeds;
    if SameContent(me.files, peer.files) {
      PassRowTogether(sha, base, me, peer, lastSyncMs, now);
    } else {
      PassRowApart(sha, base, me, peer, lastSyncMs, now);
    }
  }

  lemma AppliedKeepsTrackedIff(sha: string -> string, base: Files, me: Side, peer: Side, lastSyncMs: int, now: int)
    requires Tracked(sha, base, me) && AllSeparated(sha, base, me, peer) && Proceeds(sha, base, me, peer)
    ensures
      var row, after := SyncPass(sha, me, peer, lastSyncMs, now).me.row, BaseAfterPass(sha, base, me, peer);
      row.files <= after.Keys <==> !LetsLineageOut(sha, base, me, peer)
  {
    AppliesIffProceeds(sha, base, me, peer, lastSyncMs, now);
    PassKeepsLineageWithinBaseIff(sha, base, me, peer, lastSyncMs, now);
    HashComparesContent(sha, peer.files, base);
    hide SyncPass, FlatHash, Separates, HandsOver, OneSideAtBase;
  }

  lemma OtherwiseKeepsTrackedIff(sha: string -> string, base: Files, me: Side, peer: Side, lastSyncMs: int, now: int)
    requires Tracked(sha, base, me) && AllSeparated(sha, base, me, peer) && !me.conflict &&
        !Proceeds(sha, base, me, peer)
    ensures
      var row, after := SyncPass(sha, me, peer, lastSyncMs, now).me.row, BaseAfterPass(sha, base, me, peer);
      row.files <= after.Keys <==> !LetsLineageOut(sha, base, me, peer)
  {
    AppliesIffProceeds(sha, base, me, peer, lastSyncMs, now);
    PassRow(sha, base, me, peer, lastSyncMs, now);
    hide SyncPass, FlatHash, Separates, HandsOver, SameContent, AllSeparated, Proceeds;
  }

  lemma BaseAfterPassHash(sha: string -> string, base: Files, me: Side, peer: Side)
    requires Tracked(sha, base, me) && AllSeparated(sha, base, me, peer)
    ensures FlatHash(sha, BaseAfterPass(sha, base, me, peer)) != ""
  {
    hide FlatHash, Separates, HandsOver, SameContent, Landed, Proceeds;
  }

  /** Exactly these let it out. */
  lemma PassKeepsTrackedIff(sha: string -> string, base: Files, me: Side, peer: Side, lastSyncMs: int, now: int)
    requires Tracked(sha, base, me) && AllSeparated(sha, base, me, peer)
    ensures Tracked(sha, BaseAfterPass(sha, base, me, peer), SyncPass(sha, me, peer, lastSyncMs, now).me)
       <==> !LetsLineageOut(sha, base, me, peer)
  {
    if me.conflict {
      BlockedPass(sha, me, peer, lastSyncMs, now);
    } else {
      hide SyncPass, FlatHash, AllSeparated, BaseAfterPass, LetsLineageOut, Proceeds;
      PassRow(sha, base, me, peer, lastSyncMs, now);
      BaseAfterPassHash(sha, base, me, peer);
      if Proceeds(sha, base, me, peer) {
        AppliedKeepsTrackedIff(sha, base, me, peer, lastSyncMs, now);
      } else {
        OtherwiseKeepsTrackedIff(sha, base, me, peer, lastSyncMs, now);
      }
    }
  }

  lemma BlockedPass(sha: string -> string, me: Side, peer: Side, lastSyncMs: int, now: int)
    requires me.conflict
    ensures SyncPass(sha, me, peer, lastSyncMs, now) == Outcome(me, peer, ConflictRaised)
  {
  }

  // ----- A pass whose link breaks

  /**
   The repairs and the deletions are done, some files may have been pulled, and nothing is recorded;
   left is what the save is then.
   */
  ghost function BrokenPass(sha: string -> string, me: Side, peer: Side, lastSyncMs: int, now: int,
                            left: Files): Outcome {
    var out := SyncPass(sha, me, peer, lastSyncMs, now);
    if out.status == Applied then Outcome(me.(files := left, row := Repaired(sha, me, peer.files)), out.peer,
        Applied) else out
  }

  ghost function BaseAfterBreak(sha: string -> string, base: Files, me: Side, peer: Side): Files {
    if Proceeds(sha, base, me, peer) then JudgedBase(sha, base, me, peer) else BaseAfterPass(sha, base, me, peer)
  }

  ghost predicate BreakLetsLineageOut(sha: string -> string, base: Files, me: Side, peer: Side) {
    !me.conflict && !SameContent(me.files, peer.files) && Landed(sha, me, peer) && !(me.row.files <= peer.files.Keys)
  }

  lemma BreakKeepsTrackedIff(sha: string -> string, base: Files, me: Side, peer: Side, lastSyncMs: int, now: int,
                             left: Files)
    requires Tracked(sha, base, me) && AllSeparated(sha, base, me, peer)
    ensures Tracked(sha, BaseAfterBreak(sha, base, me, peer), BrokenPass(sha, me, peer, lastSyncMs, now, left).me)
       <==> !BreakLetsLineageOut(sha, base, me, peer)
  {
    PassKeepsTrackedIff(sha, base, me, peer, lastSyncMs, now);
    AppliesIffProceeds(sha, base, me, peer, lastSyncMs, now);
    hide SyncPass, FlatHash, Separates, SameContent, OneSideAtBase, BaseAfterPass, MassDeletion, Pulls, HandsOver;
  }

  // ----- A peer's report that both sides are the same

  /**
   The report carries the hash the peer found on both sides. If the own save still has it, that is
   recorded as the base, however late the report; otherwise it is a refresh.
   */
  ghost function ConfirmInSync(sha: string -> string, me: Side, peer: Side, claimed: string): Side {
    if claimed != "" && FlatHash(sha, me.files) == claimed
    then me.(row := me.row.WithLineage(me.files.Keys, {}).WithAgreed(claimed))
    else RefreshLineage(sha, me, peer)
  }

  ghost function BaseAfterConfirm(sha: string -> string, base: Files, me: Side, peer: Side, claimed: string): Files {
    if claimed != "" && FlatHash(sha, me.files) == claimed then me.files else BaseAfterRefresh(base, me, peer)
  }

  ghost predicate RefreshLetsLineageOut(base: Files, me: Side, peer: Side) {
    !SameContent(me.files, peer.files) && !(me.files.Keys * peer.files.Keys <= base.Keys)
  }

  lemma RefreshKeepsTrackedIff(sha: string -> string, base: Files, me: Side, peer: Side)
    requires Tracked(sha, base, me) && AllSeparated(sha, base, me, peer)
    ensures Tracked(sha, BaseAfterRefresh(base, me, peer), RefreshLineage(sha, me, peer)) <==>
        !RefreshLetsLineageOut(base, me, peer)
  {
    hide FlatHash, Separates, SameContent, RefreshLineage;
    RefreshKeepsLineageWithinBaseIff(sha, base, me, peer);
  }

  lemma ConfirmKeepsTrackedIff(sha: string -> string, base: Files, me: Side, peer: Side, claimed: string)
    requires Tracked(sha, base, me) && AllSeparated(sha, base, me, peer)
    ensures Tracked(sha, BaseAfterConfirm(sha, base, me, peer, claimed), ConfirmInSync(sha, me, peer, claimed))
       <==> !((claimed == "" || FlatHash(sha, me.files) != claimed) && RefreshLetsLineageOut(base, me, peer))
  {
    hide FlatHash, Separates, SameContent, RefreshLineage, BaseAfterRefresh, RefreshLetsLineageOut;
    RefreshKeepsTrackedIff(sha, base, me, peer);
  }

  /** A report the own save still matches records all its paths and its hash, and settles any push. */
  lemma ConfirmRecords(sha: string -> string, me: Side, peer: Side, claimed: string)
    ensures
      var after := ConfirmInSync(sha, me, peer, claimed);
      && after.files == me.files && after.conflict == me.conflict
      && (claimed != "" && HashOf(sha, Flat(me.files)) == claimed ==> after.row == Row(me.files.Keys, {}, claimed, ""))
      && (claimed == "" || HashOf(sha, Flat(me.files)) != claimed ==>
            after.row.files == me.files.Keys * peer.files.Keys &&
            (HashOf(sha, Flat(me.files)) != HashOf(sha, Flat(peer.files)) ==>
              after.row.agreed == me.row.agreed && after.row.pushed == me.row.pushed))
  {
    hide HashOf, Flat;
  }

  // ----- Histories

  /** Two devices and, for each, the save its merge-base on file is the hash of. */
  datatype World = World(a: Side, b: Side, baseA: Files, baseB: Files)

  /** Passes may lose deletion requests on the way; lost holds the paths the peer never hears of. */
  datatype Event =
    | Edit(byA: bool, files: Files, captured: string)  // play, or a rollback; captured by the last snapshot
    | Pass(byA: bool, lastSyncMs: int, now: int, lost: set<string>)
    | Broken(byA: bool, lastSyncMs: int, now: int, lost: set<string>, left: Files)  // cut off by a failing transfer
    | Refresh(byA: bool)
    | Confirm(byA: bool, claimed: string)

  function Swapped(w: World): World {
    World(w.b, w.a, w.baseB, w.baseA)
  }

  /** The peer keeps the files it was not told to delete. */
  function Undelivered(after: Side, before: Side, lost: set<string>): Side {
    after.(files := map p | p in before.files && (p in after.files || p in lost) :: before.files[p])
  }

  /** Of the files a pass wanted deleted, exactly those whose requests were lost are still there. */
  lemma LostRequestsKeepFiles(sha: string -> string, me: Side, peer: Side, lastSyncMs: int, now: int,
                              lost: set<string>, p: string)
    ensures
      var after := SyncPass(sha, me, peer, lastSyncMs, now).peer;
      && (p in Undelivered(after, peer, lost).files <==> p in peer.files && (p in after.files || p in lost))
      && (p in Undelivered(after, peer, lost).files ==> Undelivered(after, peer, lost).files[p] == peer.files[p])
      && Undelivered(after, peer, {}) == after
  {
    hide FlatHash, SameContent, OwnAfter, HandsOver, Pulls, Conflicts, MassDeletion;
    var after := SyncPass(sha, me, peer, lastSyncMs, now).peer;
    assert Undelivered(after, peer, {}).files == after.files;
  }

  /** An event of device a. */
  ghost function StepOfA(sha: string -> string, w: World, e: Event): World {
    match e
    case Edit(_, files, captured) => w.(a := w.a.(files := files, lastManifestHash := captured))
    case Pass(_, s, t, lost) =>
      var out := SyncPass(sha, w.a, w.b, s, t);
      World(out.me, Undelivered(out.peer, w.b, lost), BaseAfterPass(sha, w.baseA, w.a, w.b), w.baseB)
    case Broken(_, s, t, lost, left) =>
      var out := BrokenPass(sha, w.a, w.b, s, t, left);
      World(out.me, Undelivered(out.peer, w.b, lost), BaseAfterBreak(sha, w.baseA, w.a, w.b), w.baseB)
    case Refresh(_) => w.(a := RefreshLineage(sha, w.a, w.b), baseA := BaseAfterRefresh(w.baseA, w.a, w.b))
    case Confirm(_, claimed) =>
      w.(a := ConfirmInSync(sha, w.a, w.b, claimed), baseA := BaseAfterConfirm(sha, w.baseA, w.a, w.b, claimed))
  }

  ghost function Step(sha: string -> string, w: World, e: Event): World {
    if e.byA then StepOfA(sha, w, e) else Swapped(StepOfA(sha, Swapped(w), e))
  }

  ghost function Run(sha: string -> string, w: World, events: seq<Event>): World {
    if events == [] then w else Step(sha, Run(sha, w, events[..|events| - 1]), events[|events| - 1])
  }

  ghost predicate ExceptionalOfA(sha: string -> string, w: World, e: Event) {
    match e
    case Edit(_, _, _) => false
    case Pass(_, _, _, _) => LetsLineageOut(sha, w.baseA, w.a, w.b)
    case Broken(_, _, _, _, _) => BreakLetsLineageOut(sha, w.baseA, w.a, w.b)
    case Refresh(_) => RefreshLetsLineageOut(w.baseA, w.a, w.b)
    case Confirm(_, claimed) =>
      (claimed == "" || FlatHash(sha, w.a.files) != claimed) && RefreshLetsLineageOut(w.baseA, w.a, w.b)
  }

  /** The event takes the acting device's lineage out of its base. */
  ghost predicate Exceptional(sha: string -> string, w: World, e: Event) {
    if e.byA then ExceptionalOfA(sha, w, e) else ExceptionalOfA(sha, Swapped(w), e)
  }

  ghost predicate InOrder(sha: string -> string, w: World) {
    Tracked(sha, w.baseA, w.a) && Tracked(sha, w.baseB, w.b)
  }

  ghost predicate Separated(sha: string -> string, w: World) {
    AllSeparated(sha, w.baseA, w.a, w.b) && AllSeparated(sha, w.baseB, w.b, w.a)
  }

  /** What the other device's pass does to this one. */
  lemma PeerOfPass(sha: string -> string, me: Side, peer: Side, lastSyncMs: int, now: int)
    ensures SyncPass(sha, me, peer, lastSyncMs, now).peer.row == peer.row
  {
    hide FlatHash, SameContent, OwnAfter, PeerAfter, HandsOver, Pulls, Conflicts, MassDeletion;
  }

  lemma StepOfAKeepsOrderIff(sha: string -> string, w: World, e: Event)
    requires InOrder(sha, w) && Separated(sha, w)
    ensures InOrder(sha, StepOfA(sha, w, e)) <==> !ExceptionalOfA(sha, w, e)
  {
    hide FlatHash, Separates, SyncPass, RefreshLineage, BaseAfterPass, LetsLineageOut, BaseAfterRefresh;
    hide BaseAfterBreak, BreakLetsLineageOut, RefreshLetsLineageOut, ConfirmInSync, BaseAfterConfirm;
    match e
    case Edit(_, _, _) =>
    case Pass(_, s, t, _) =>
      PassKeepsTrackedIff(sha, w.baseA, w.a, w.b, s, t);
      PeerOfPass(sha, w.a, w.b, s, t);
    case Broken(_, s, t, _, left) =>
      BreakKeepsTrackedIff(sha, w.baseA, w.a, w.b, s, t, left);
      PeerOfPass(sha, w.a, w.b, s, t);
    case Refresh(_) =>
      RefreshKeepsTrackedIff(sha, w.baseA, w.a, w.b);
    case Confirm(_, claimed) =>
      ConfirmKeepsTrackedIff(sha, w.baseA, w.a, w.b, claimed);
  }

  /** An event leaves both lineages within their bases exactly unless it is one of the exceptions. */
  lemma StepKeepsOrderIff(sha: string -> string, w: World, e: Event)
    requires InOrder(sha, w) && Separated(sha, w)
    ensures InOrder(sha, Step(sha, w, e)) <==> !Exceptional(sha, w, e)
  {
    hide Tracked, AllSeparated, StepOfA, ExceptionalOfA;
    StepOfAKeepsOrderIff(sha, if e.byA then w else Swapped(w), e);
  }

  /** No event of the history is an exception, and no two saves of it collide. */
  ghost predicate Uneventful(sha: string -> string, w: World, events: seq<Event>) {
    forall i :: 0 <= i < |events| ==>
      Separated(sha, Run(sha, w, events[..i])) && !Exceptional(sha, Run(sha, w, events[..i]), events[i])
  }

  lemma {:induction false} RunKeepsOrder(sha: string -> string, w: World, events: seq<Event>)
    requires InOrder(sha, w) && Uneventful(sha, w, events)
    ensures InOrder(sha, Run(sha, w, events))
  {
    hide InOrder, Separated, Exceptional, Step;
    if events != [] {
      var last := |events| - 1;
      UneventfulPrefix(sha, w, events, last);
      RunKeepsOrder(sha, w, events[..last]);
      assert Separated(sha, Run(sha, w, events[..last])) &&
          !Exceptional(sha, Run(sha, w, events[..last]), events[last]);
      StepKeepsOrderIff(sha, Run(sha, w, events[..last]), events[last]);
    }
  }

  lemma UneventfulPrefix(sha: string -> string, w: World, events: seq<Event>, n: nat)
    requires Uneventful(sha, w, events) && n <= |events|
    ensures Uneventful(sha, w, events[..n])
  {
    hide Separated, Exceptional, Run;
    forall i | 0 <= i < n
      ensures Separated(sha, Run(sha, w, events[..n][..i]))
      ensures !Exceptional(sha, Run(sha, w, events[..n][..i]), events[..n][i])
    {
      assert events[..n][..i] == events[..i];
    }
  }

  /** The pass applies a plan that deletes something no longer, or never, of the base it is judged by. */
  ghost predicate DeletesUnsyncedWork(sha: string -> string, base: Files, me: Side, peer: Side, lastSyncMs: int,
                                      now: int) {
    && SyncPass(sha, me, peer, lastSyncMs, now).status == Applied
    && !LosesNothing(JudgedBase(sha, base, me, peer), me.files, peer.files, me.row.files)
  }

  /**
   Over any history of edits, rollbacks, passes, broken passes, lost deletion requests, refreshes and
   reports on both devices that begins in order and meets none of the exceptions, a next pass by either
   device, broken off or not, deletes files that have left the content both devices last agreed on
   exactly if its guards let it proceed just as it sees a push land that lacks a path of the lineage
   held here.
   */
  lemma NoUnsyncedWorkDeletedIff(sha: string -> string, w: World, events: seq<Event>, byA: bool, lastSyncMs: int,
                                 now: int)
    requires InOrder(sha, w) && Uneventful(sha, w, events) && Separated(sha, Run(sha, w, events))
    ensures
      var at := if byA then Run(sha, w, events) else Swapped(Run(sha, w, events));
      DeletesUnsyncedWork(sha, at.baseA, at.a, at.b, lastSyncMs, now) <==>
      && Proceeds(sha, at.baseA, at.a, at.b) && Landed(sha, at.a, at.b)
      && GoneOnPeer(at.a.files, at.b.files, at.a.row.files) != {}
  {
    hide SyncPass, LosesNothing, Landed, GoneOnPeer, Tracked, AllSeparated, Uneventful, Proceeds;
    RunKeepsOrder(sha, w, events);
    var at := if byA then Run(sha, w, events) else Swapped(Run(sha, w, events));
    AppliesIffProceeds(sha, at.baseA, at.a, at.b, lastSyncMs, now);
    if Proceeds(sha, at.baseA, at.a, at.b) {
      PassDeletesOnlyBaseIff(sha, at.baseA, at.a, at.b);
    }
  }

  // ----- A run on which a late sight of a push deletes an edit nobody else has seen

  /** A file one side dropped: that side asks the other to drop it. */
  lemma DeletedFilePlans(x: string, e: FileEntry, z: string, f: FileEntry, t: int)
    requires x != z
    ensures
      var with, without := map[x := e, z := f], map[x := e];
      && OwnAfter(without, with, {x, z}, t) == without && PeerAfter(without, with, {x, z}) == without
      && HandsOver(without, with, {x, z}) && !Pulls(without, with, {x, z}) && !MassDeletion(without, with, {x, z})
  {
    var with, without := map[x := e, z := f], map[x := e];
    assert FileAction(without, with, {x, z}, z) == DeleteOnPeer;
    assert forall p :: p != z ==> FileAction(without, with, {x, z}, p) == Keep;
    assert GoneOnPeer(without, with, {x, z}) == {};
  }

  /** A pass that sees its push landed and has nothing to pull. */
  lemma PassSeesPushLand(sha: string -> string, me: Side, peer: Side, lastSyncMs: int, now: int)
    requires !me.conflict && me.row.agreed != "" && Landed(sha, me, peer)
    requires !SameContent(me.files, peer.files) && !Pulls(me.files, peer.files, me.row.files)
    requires !MassDeletion(me.files, peer.files, me.row.files)
    ensures
      var out := SyncPass(sha, me, peer, lastSyncMs, now);
      && out.status == Applied
      && out.me.files == OwnAfter(me.files, peer.files, me.row.files, now)
      && out.peer.files == PeerAfter(me.files, peer.files, me.row.files)
  {
    hide FlatHash, SameContent, OwnAfter, PeerAfter, MassDeletion, Conflicts, Pulls, HandsOver;
    NoConflictAtBase(sha, me.files, peer.files, lastSyncMs, FlatHash(sha, peer.files));
    assert Repaired(sha, me, peer.files).agreed == FlatHash(sha, peer.files);
  }

  /**
   Both devices agree on {x, z}. A drops z, and its pass drops it on B: the push on file is {x}. Both
   get z back, in different versions, and A's refresh records z as shared again, rightly so by the base
   {x, z}. B drops z once more and so holds what A had pushed; A edits z. A's next pass takes the push
   for landed, moves the base to {x}, and deletes the edited z.
   */
  lemma LandedPushDeletesUnsyncedEdit(sha: string -> string, x: string, e: FileEntry, z: string, f: FileEntry,
                                      f': FileEntry, f'': FileEntry, s: int, t: int)
    requires x != z && f.hash != f'.hash
    requires AllSeparate(sha, [map[x := e], map[x := e, z := f], map[x := e, z := f'], map[x := e, z := f'']])
    requires HashesNonEmpty(sha, [map[x := e], map[x := e, z := f]])
    ensures
      var agreed, dropped := map[x := e, z := f], map[x := e];
      var pushed := SyncPass(sha, Settled(sha, dropped, agreed), Settled(sha, agreed, agreed), s, t);
      var refreshed := RefreshLineage(sha, pushed.me.(files := agreed), pushed.peer.(files := map[x := e, z := f']));
      var last := SyncPass(sha, refreshed.(files := map[x := e, z := f'']), pushed.peer.(files := dropped), s, t);
      && pushed.status == last.status == Applied && pushed.peer.files == dropped
      && last.me.files == dropped && last.peer.files == dropped
  {
    hide SyncPass, FlatHash, Separates, OwnAfter, PeerAfter, MassDeletion, HandsOver, Pulls;
    var s0, s1, s2, s3 := map[x := e], map[x := e, z := f], map[x := e, z := f'], map[x := e, z := f''];
    var states := [s0, s1, s2, s3];
    assert states[0] == s0 && states[1] == s1 && states[2] == s2 && states[3] == s3;
    assert forall i :: 0 <= i < 4 ==> Separates(sha, states[i], states[0]) && Separates(sha, states[i], states[1]);
    HashComparesContent(sha, s1, s0);
    HashComparesContent(sha, s2, s1);
    HashComparesContent(sha, s3, s0);
    assert z in s1 && z in s2 && z in s3 && z !in s0;
    assert s1.Keys == {x, z} && s2.Keys == {x, z} && s0.Keys == {x};

    var a, b := Settled(sha, s0, s1), Settled(sha, s1, s1);
    DeletedFilePlans(x, e, z, f, t);
    PassAtBase(sha, a, b, s, t);
    var pushed := SyncPass(sha, a, b, s, t);
    assert (s0.Keys + s0.Keys) * s1.Keys == {x};
    assert pushed.me == a.(row := Row({x}, {}, FlatHash(sha, s1), FlatHash(sha, s0)));
    assert pushed.peer == b.(files := s0);

    var refreshed := RefreshLineage(sha, pushed.me.(files := s1), pushed.peer.(files := s2));
    assert s1.Keys * s2.Keys == {x, z};
    assert refreshed == pushed.me.(files := s1, row := Row({x, z}, {}, FlatHash(sha, s1), FlatHash(sha, s0)));
    DroppedFilePlans(x, e, z, f'', t);
    PassSeesPushLand(sha, refreshed.(files := s3), pushed.peer.(files := s0), s, t);
  }

  // ----- The hypotheses can be met

  /** A stand-in for the hash that certainly does not collide. */
  function Itself(text: string): string {
    text
  }

  function Slot(hash: string): FileEntry {
    FileEntry(1, hash, [], 1, 1)
  }

  ghost predicate TidyFiles(files: Files) {
    && files != map[]
    && forall p :: p in files ==> '\n' !in p && '\n' !in files[p].hash && ':' !in files[p].hash
  }

  lemma TidySeparates(a: Files, b: Files)
    requires TidyFiles(a) && TidyFiles(b)
    ensures Separates(Itself, a, b) && FlatHash(Itself, a) != ""
  {
    SomeLine(a);
    assert ManifestText(Flat(a)) != "";
  }

  lemma SomeLine(files: Files)
    requires files != map[]
    ensures ManifestLines(Flat(files)) != []
  {
    hide ManifestLines, LatestOf;
    var p :| p in files;
    LineCount(Flat(files));
    assert p in files.Keys && p in TextOrder.SortedPaths(files.Keys);
  }

  lemma SamplesAreTidy(states: seq<Files>)
    requires forall i :: 0 <= i < |states| ==> TidyFiles(states[i])
    ensures AllSeparate(Itself, states) && HashesNonEmpty(Itself, states)
  {
    hide Separates, FlatHash, TidyFiles;
    forall i, j | 0 <= i < |states| && 0 <= j < |states| ensures Separates(Itself, states[i], states[j]) {
      TidySeparates(states[i], states[j]);
    }
    forall i | 0 <= i < |states| ensures FlatHash(Itself, states[i]) != "" {
      TidySeparates(states[i], states[i]);
    }
  }

  predicate PlainText(t: string) {
    '\n' !in t && ':' !in t
  }

  lemma OneSlot(x: string, h: string)
    requires PlainText(x) && PlainText(h)
    ensures TidyFiles(map[x := Slot(h)])
  {
    assert x in map[x := Slot(h)];
  }

  lemma TwoSlots(x: string, h: string, z: string, g: string)
    requires PlainText(x) && PlainText(h) && PlainText(z) && PlainText(g)
    ensures TidyFiles(map[x := Slot(h), z := Slot(g)])
  {
    assert x in map[x := Slot(h), z := Slot(g)];
  }

  /** Two devices in order that hold different saves, one of them changed since both agreed. */
  lemma SampleWorld()
    ensures
      var agreed, changed := map["x" := Slot("0")], map["x" := Slot("0"), "z" := Slot("1")];
      var w := World(Settled(Itself, changed, agreed), Settled(Itself, agreed, agreed), agreed, agreed);
      InOrder(Itself, w) && Separated(Itself, w) && !SameContent(w.a.files, w.b.files)
  {
    var agreed, changed := map["x" := Slot("0")], map["x" := Slot("0"), "z" := Slot("1")];
    OneSlot("x", "0");
    TwoSlots("x", "0", "z", "1");
    hide Separates, FlatHash, TidyFiles;
    TidySeparates(agreed, agreed);
    TidySeparates(agreed, changed);
    TidySeparates(changed, agreed);
    assert "z" in changed && "z" !in agreed;
  }

  /** The two runs above do happen, for instance to these saves. */
  lemma SampleRuns()
    ensures
      var x, z, e := "x", "z", Slot("0");
      && AllSeparate(Itself,
          [map[x := e], map[x := e, z := Slot("1")], map[x := e, z := Slot("2")], map[x := e, z := Slot("3")]])
      && AllSeparate(Itself,
          [map[x := e], map[x := e, z := Slot("1")], map[x := Slot("4"), z := Slot("1")], map[x := e, z := Slot("2")]])
      && HashesNonEmpty(Itself, [map[x := e], map[x := e, z := Slot("1")]])
  {
    var x, z, e := "x", "z", Slot("0");
    OneSlot(x, "0");
    TwoSlots(x, "0", z, "1");
    TwoSlots(x, "0", z, "2");
    TwoSlots(x, "0", z, "3");
    TwoSlots(x, "4", z, "1");
    hide TidyFiles, AllSeparate, HashesNonEmpty;
    SamplesAreTidy([map[x := e], map[x := e, z := Slot("1")], map[x := e, z := Slot("2")],
        map[x := e, z := Slot("3")]]);
    SamplesAreTidy([map[x := e], map[x := e, z := Slot("1")], map[x := Slot("4"), z := Slot("1")],
        map[x := e, z := Slot("2")]]);
    SamplesAreTidy([map[x := e], map[x := e, z := Slot("1")]]);
  }
}
