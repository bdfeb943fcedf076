/**
 Claiming a snapshot id from several processes at once (claimAndInsert in
 internal/snapshot/snapshot.go). The lock covers one process; the app and the command-line daemon
 are two. The steps of one claim are checking that the id is free, naming the archive in the folder of
 its game and branch, and inserting the row, which fails when the row exists; a failed insert takes the
 archive's name back. Ids are shared by all games and branches, folders are not.
 */
module SnapshotClaims {
  import opened Basics
  import Snapshots

  datatype Claim = Claim(number: nat, folder: string)

  datatype Phase =
    | Looking(ms: nat, left: nat)
    | FoundFree(ms: nat, left: nat)
    | Named(ms: nat, left: nat)
    | Claimed(ms: nat)
    | GaveUp

  /** Rows by id and archives by folder and id; each carries the claim whose snapshot it is. */
  datatype World = World(rows: map<nat, Claim>, archives: map<(string, nat), Claim>, phases: map<Claim, Phase>)

  function Step(w: World, c: Claim): World
    requires c in w.phases
  {
    match w.phases[c]
    case Looking(ms, left) =>
      if left == 0 then w.(phases := w.phases[c := GaveUp])
      else if ms in w.rows then w.(phases := w.phases[c := Looking(ms + 1, left - 1)])
      else w.(phases := w.phases[c := FoundFree(ms, left - 1)])
    case FoundFree(ms, left) =>
      w.(archives := w.archives[(c.folder, ms) := c], phases := w.phases[c := Named(ms, left)])
    case Named(ms, left) =>
      if ms !in w.rows then w.(rows := w.rows[ms := c], phases := w.phases[c := Claimed(ms)])
      else w.(archives := w.archives - {(c.folder, ms)},
              phases := w.phases[c := if (c.folder, ms) in w.archives then Looking(ms + 1, left) else GaveUp])
    case Claimed(_) => w
    case GaveUp => w
  }

  function Run(w: World, steps: seq<Claim>): World
    requires forall c :: c in steps ==> c in w.phases
    ensures Run(w, steps).phases.Keys == w.phases.Keys
    decreases |steps|
  {
    if steps == [] then w else Run(Step(w, steps[0]), steps[1..])
  }

  ghost predicate HasOwnArchive(w: World, c: Claim, ms: nat) {
    (c.folder, ms) in w.archives && w.archives[(c.folder, ms)] == c
  }

  /** A row with this id whose archive has the very name this claim's has. */
  ghost predicate RowInTheWay(w: World, c: Claim, ms: nat) {
    ms in w.rows && w.rows[ms].folder == c.folder
  }

  /** Every row has its own archive, and so has every claim about to insert. */
  ghost predicate Orderly(w: World) {
    && (forall ms :: ms in w.rows ==> HasOwnArchive(w, w.rows[ms], ms))
    && (forall c :: c in w.phases && w.phases[c].Named? ==>
          HasOwnArchive(w, c, w.phases[c].ms) && !RowInTheWay(w, c, w.phases[c].ms))
  }

  /** The step gives an archive the name of another claim's, inserted or named since the id was found free. */
  ghost predicate Overtaken(w: World, c: Claim)
    requires c in w.phases
  {
    w.phases[c].FoundFree? &&
    (RowInTheWay(w, c, w.phases[c].ms) ||
     exists d :: d in w.phases && d != c && d.folder == c.folder && w.phases[d].Named? &&
         w.phases[d].ms == w.phases[c].ms)
  }

  /** Order is lost exactly by naming an archive over another one's. */
  lemma OrderKeptIff(w: World, c: Claim)
    requires Orderly(w) && c in w.phases
    ensures Orderly(Step(w, c)) <==> !Overtaken(w, c)
  {
    if Overtaken(w, c) {
      OvertakingLosesOrder(w, c);
    } else {
      NotOvertakenKeepsOrder(w, c);
    }
  }

  lemma OvertakingLosesOrder(w: World, c: Claim)
    requires c in w.phases && Overtaken(w, c)
    ensures !Orderly(Step(w, c))
  {
    var after := Step(w, c);
    var ms := w.phases[c].ms;
    if RowInTheWay(w, c, ms) {
      assert after.phases[c].Named? && RowInTheWay(after, c, ms);
    } else {
      var d :| d in w.phases && d != c && d.folder == c.folder && w.phases[d].Named? && w.phases[d].ms == ms;
      assert after.phases[d].Named? && after.archives[(d.folder, ms)] == c;
    }
  }

  lemma NotOvertakenKeepsOrder(w: World, c: Claim)
    requires Orderly(w) && c in w.phases && !Overtaken(w, c)
    ensures Orderly(Step(w, c))
  {
    var after := Step(w, c);
    forall ms | ms in after.rows ensures HasOwnArchive(after, after.rows[ms], ms) {
      assert ms in w.rows ==> HasOwnArchive(w, w.rows[ms], ms);
      assert w.phases[c].Named? ==> HasOwnArchive(w, c, w.phases[c].ms);
    }
    forall d | d in after.phases && after.phases[d].Named?
      ensures HasOwnArchive(after, d, after.phases[d].ms) && !RowInTheWay(after, d, after.phases[d].ms)
    {
      if d != c {
        assert HasOwnArchive(w, d, w.phases[d].ms) && !RowInTheWay(w, d, w.phases[d].ms);
        assert w.phases[c].Named? ==> HasOwnArchive(w, c, w.phases[c].ms);
      }
    }
  }

  // ----- Claims that cannot overtake each other

  /** Claims into different folders, none of which holds another claim's row. */
  ghost predicate Apart(w: World) {
    && (forall c, d :: c in w.phases && d in w.phases && c.folder == d.folder ==> c == d)
    && (forall c, ms :: c in w.phases && RowInTheWay(w, c, ms) ==> w.rows[ms] == c && w.phases[c] == Claimed(ms))
  }

  /** Processes at work on different games or branches may interleave freely. */
  lemma {:induction false} DifferentFoldersKeepOrder(w: World, steps: seq<Claim>)
    requires Orderly(w) && Apart(w) && forall c :: c in steps ==> c in w.phases
    ensures Orderly(Run(w, steps))
    decreases |steps|
  {
    if steps != [] {
      var c := steps[0];
      OrderKeptIff(w, c);
      ApartStep(w, c);
      DifferentFoldersKeepOrder(Step(w, c), steps[1..]);
    }
  }

  lemma ApartStep(w: World, c: Claim)
    requires Orderly(w) && Apart(w) && c in w.phases
    ensures Apart(Step(w, c))
  {
    var after := Step(w, c);
    forall d, ms | d in after.phases && RowInTheWay(after, d, ms) ensures after.rows[ms] == d &&
        after.phases[d] == Claimed(ms) {
      if ms in w.rows {
        assert RowInTheWay(w, d, ms);
      }
    }
  }

  /** One claim at a time, as under the lock: none is ever overtaken. */
  ghost predicate Alone(w: World, c: Claim) {
    && c in w.phases
    && (forall d :: d in w.phases && d != c ==> w.phases[d].Claimed? || w.phases[d].GaveUp? || w.phases[d].Looking?)
    && (w.phases[c].FoundFree? ==> w.phases[c].ms !in w.rows)
  }

  lemma AloneStep(w: World, c: Claim)
    requires Orderly(w) && Alone(w, c)
    ensures Orderly(Step(w, c)) && Alone(Step(w, c), c)
  {
    OrderKeptIff(w, c);
  }

  /** A claim that runs from start to end under the lock keeps every row its archive. */
  lemma {:induction false} LockKeepsOrder(w: World, c: Claim, n: nat)
    requires Orderly(w) && Alone(w, c)
    ensures Orderly(Run(w, seq(n, _ => c)))
    decreases n
  {
    hide Orderly, Alone;
    AloneIsListed(w, c);
    if n > 0 {
      AloneStep(w, c);
      LockKeepsOrder(Step(w, c), c, n - 1);
      OneStepMore(w, c, n - 1);
    } else {
      assert seq(n, _ => c) == [];
    }
  }

  /** And it claims the id, and files the archive, that ClaimAndInsert claims: the first free one. */
  lemma {:induction false} LockClaimsFirstFree(w: World, c: Claim, ms: nat, left: nat) returns (n: nat)
    requires Orderly(w) && Alone(w, c) && w.phases[c] == Looking(ms, left)
    ensures
      var after := Run(w, seq(n, _ => c));
      match Snapshots.FirstFree(w.rows.Keys, ms, left)
      case None => after == w.(phases := w.phases[c := GaveUp])
      case Some(id) => after == World(w.rows[id := c], w.archives[(c.folder, id) := c], w.phases[c := Claimed(id)])
    decreases left
  {
    hide Run, Orderly, Alone, Snapshots.FirstFree;
    AloneIsListed(w, c);
    AloneStep(w, c);
    if left == 0 {
      n := 1;
      OneStep(w, c);
      NoneLeft(w.rows.Keys, ms);
    } else {
      Snapshots.FirstFreeStep(w.rows.Keys, ms, left);
      if ms in w.rows {
        n := LockClaimsFirstFree(Step(w, c), c, ms + 1, left - 1);
        OneStepMore(w, c, n);
        n := n + 1;
      } else {
        n := 3;
        ThreeSteps(w, c);
      }
    }
  }

  /**
   A claim overtaken between looking and inserting, whose archive still has its name, takes the name back
   and ends with the first free id behind the lost one, or gives up if there is none.
   */
  lemma CollidedClaimWalksOn(w: World, c: Claim, ms: nat, left: nat) returns (n: nat)
    requires Orderly(w) && Alone(w, c) && w.phases[c] == Named(ms, left) && ms in w.rows
    ensures
      var after, archives := Run(w, seq(n, _ => c)), w.archives - {(c.folder, ms)};
      match Snapshots.FirstFree(w.rows.Keys, ms + 1, left)
      case None => after == World(w.rows, archives, w.phases[c := GaveUp])
      case Some(id) => after == World(w.rows[id := c], archives[(c.folder, id) := c], w.phases[c := Claimed(id)])
  {
    AloneStep(w, c);
    var next := Step(w, c);
    assert next == World(w.rows, w.archives - {(c.folder, ms)}, w.phases[c := Looking(ms + 1, left)]);
    n := LockClaimsFirstFree(next, c, ms + 1, left);
    OneStepMore(w, c, n);
    n := n + 1;
    hide Run, Orderly, Alone, Snapshots.FirstFree;
  }

  lemma AloneIsListed(w: World, c: Claim)
    requires Alone(w, c)
    ensures c in w.phases
  {
  }

  lemma NoneLeft(taken: set<nat>, ms: nat)
    ensures Snapshots.FirstFree(taken, ms, 0) == None
  {
  }

  lemma OneStepMore(w: World, c: Claim, n: nat)
    requires c in w.phases
    ensures Run(w, seq(n + 1, _ => c)) == Run(Step(w, c), seq(n, _ => c))
  {
    assert seq(n + 1, _ => c)[1..] == seq(n, _ => c);
    RunFrom(w, seq(n + 1, _ => c));
  }

  lemma OneStep(w: World, c: Claim)
    requires c in w.phases
    ensures Run(w, seq(1, _ => c)) == Step(w, c)
  {
    assert seq(1, _ => c) == [c];
    assert [c][1..] == [];
    assert Run(Step(w, c), []) == Step(w, c);
  }

  lemma ThreeSteps(w: World, c: Claim)
    requires c in w.phases
    ensures Run(w, seq(3, _ => c)) == Step(Step(Step(w, c), c), c)
  {
    hide Step;
    assert seq(3, _ => c) == [c, c, c];
    assert [c, c, c][1..] == [c, c] && [c, c][1..] == [c] && [c][1..] == [];
    RunFrom(w, [c, c, c]);
    RunFrom(Step(w, c), [c, c]);
    RunFrom(Step(Step(w, c), c), [c]);
  }

  lemma RunFrom(w: World, steps: seq<Claim>)
    requires steps != [] && forall c :: c in steps ==> c in w.phases
    ensures Run(w, steps) == Run(Step(w, steps[0]), steps[1..])
  {
  }

  /**
   Two processes snapshot one branch in the same millisecond: both find the id free, the first names
   and inserts, the second names over it, fails to insert and takes the name away. The first one's row
   has no archive.
   */
  lemma TwoProcessesLoseAnArchive(ms: nat, folder: string)
    ensures
      var a, b := Claim(0, folder), Claim(1, folder);
      var start := World(map[], map[], map[a := Looking(ms, 1000), b := Looking(ms, 1000)]);
      var end := Run(start, [a, b, a, a, b, b]);
      && Orderly(start)
      && end.rows == map[ms := a] && end.phases[a] == Claimed(ms)
      && (folder, ms) !in end.archives
  {
    var a, b := Claim(0, folder), Claim(1, folder);
    var w0 := World(map[], map[], map[a := Looking(ms, 1000), b := Looking(ms, 1000)]);
    var w1 := Step(w0, a);
    var w2 := Step(w1, b);
    var w3 := Step(w2, a);
    var w4 := Step(w3, a);
    var w5 := Step(w4, b);
    var w6 := Step(w5, b);
    assert w4.rows == map[ms := a] && w5.phases[b] == Named(ms, 999);
    assert w6.archives == map[];
    RunFrom(w0, [a, b, a, a, b, b]);
    RunFrom(w1, [b, a, a, b, b]);
    RunFrom(w2, [a, a, b, b]);
    RunFrom(w3, [a, b, b]);
    RunFrom(w4, [b, b]);
    RunFrom(w5, [b]);
  }
}
