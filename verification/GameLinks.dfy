/**
 Linking two games against auto-tracking a peer's (internal/store/aliases.go,
 internal/daemon/daemon.go, internal/p2p/routes.go). Each store call is one transaction; linking is
 several of them, and creations of the linked id may fall between any two.
 */
module GameLinks {
  import opened Basics

  datatype Game = Game(name: string, savePath: string, appId: string, activeBranch: string, maxSnapshots: int)

  /** A link, with what is needed to bring the merged game back. */
  datatype Alias = Alias(gameId: string, name: string, savePath: string, appId: string)

  datatype Db = Db(games: map<string, Game>, aliases: map<string, Alias>)

  // ----- What each transaction does

  /** Refused for an empty or reflexive link, and by the foreign key for an unknown game. */
  predicate LinkAllowed(db: Db, aliasId: string, gameId: string) {
    aliasId != "" && gameId != "" && aliasId != gameId && gameId in db.games
  }

  function WithAlias(db: Db, aliasId: string, gameId: string): Db {
    if LinkAllowed(db, aliasId, gameId) then
      db.(aliases := db.aliases[aliasId :=
        if aliasId in db.aliases then db.aliases[aliasId].(gameId := gameId) else Alias(gameId, "", "", "")])
    else db
  }

  function WithSnapshot(db: Db, aliasId: string, g: Game): Db {
    if aliasId in db.aliases then
      db.(aliases := db.aliases[aliasId := db.aliases[aliasId].(name := g.name, savePath := g.savePath,
          appId := g.appId)])
    else db
  }

  /** Deleting a game takes the links that point to it along. */
  function WithoutGame(db: Db, id: string): Db {
    if id in db.games then
      Db(db.games - {id}, map a | a in db.aliases && db.aliases[a].gameId != id :: db.aliases[a])
    else db
  }

  function Defaulted(g: Game): Game {
    g.(activeBranch := if g.activeBranch == "" then "main" else g.activeBranch,
       maxSnapshots := if g.maxSnapshots == 0 then 20 else g.maxSnapshots)
  }

  function CanonicalId(db: Db, id: string): string {
    if id in db.aliases && db.aliases[id].gameId != "" then db.aliases[id].gameId else id
  }

  function WithCreated(db: Db, id: string, g: Game): Db {
    if (id in db.aliases && db.aliases[id].gameId != "") || id in db.games then db
    else db.(games := db.games[id := Defaulted(g)])
  }

  // ----- The store and the daemon

  class GameStore {
    var games: map<string, Game>
    var aliases: map<string, Alias>

    constructor ()
      ensures View() == Db(map[], map[])
    {
      games, aliases := map[], map[];
    }

    function View(): Db
      reads this
    {
      Db(games, aliases)
    }

    method AddGameAlias(aliasId: string, gameId: string) returns (ok: bool)
      modifies this
      ensures ok <==> LinkAllowed(old(View()), aliasId, gameId)
      ensures View() == WithAlias(old(View()), aliasId, gameId)
    {
      if aliasId == "" || gameId == "" || aliasId == gameId {
        return false;
      }
      if gameId !in games {
        return false;
      }
      if aliasId in aliases {
        aliases := aliases[aliasId := aliases[aliasId].(gameId := gameId)];
      } else {
        aliases := aliases[aliasId := Alias(gameId, "", "", "")];
      }
      ok := true;
    }

    method ResolveGameAlias(aliasId: string) returns (gameId: Option<string>)
      ensures gameId == if aliasId in aliases then Some(aliases[aliasId].gameId) else None
    {
      if aliasId !in aliases {
        return None;
      }
      gameId := Some(aliases[aliasId].gameId);
    }

    method SetAliasSnapshot(aliasId: string, name: string, savePath: string, appId: string)
      modifies this`aliases
      ensures View() == WithSnapshot(old(View()), aliasId, Game(name, savePath, appId, "", 0))
    {
      if aliasId in aliases {
        aliases := aliases[aliasId := aliases[aliasId].(name := name, savePath := savePath, appId := appId)];
      }
    }

    method DeleteGame(id: string) returns (ok: bool)
      modifies this
      ensures ok <==> id in old(games)
      ensures View() == WithoutGame(old(View()), id)
    {
      ok := id in games;
      if ok {
        games := games - {id};
        aliases := map a | a in aliases && aliases[a].gameId != id :: aliases[a];
      }
    }

    /** Check the links, check the games, insert: one transaction. */
    method CreateGameUnlessAliased(id: string, g: Game) returns (canonicalId: string)
      modifies this`games
      ensures canonicalId == CanonicalId(old(View()), id)
      ensures View() == WithCreated(old(View()), id, g)
    {
      if id in aliases && aliases[id].gameId != "" {
        return aliases[id].gameId;
      }
      if id in games {
        return id;
      }
      var game := g;
      if game.activeBranch == "" {
        game := game.(activeBranch := "main");
      }
      if game.maxSnapshots == 0 {
        game := game.(maxSnapshots := 20);
      }
      games := games[id := game];
      canonicalId := id;
    }

    /** Link alias to canonical; a game tracked under the alias is remembered on the link and removed. */
    method LinkGames(canonicalId: string, aliasId: string) returns (ok: bool)
      modifies this
      ensures ok <==> LinkAllowed(old(View()), aliasId, canonicalId)
      ensures View() == if ok then Linked(old(View()), canonicalId, aliasId) else old(View())
    {
      if canonicalId == "" || aliasId == "" || canonicalId == aliasId {
        return false;
      }
      if canonicalId !in games {
        return false;
      }
      ok := AddGameAlias(aliasId, canonicalId);
      if !ok {
        return;
      }
      if aliasId in games {
        var merged := games[aliasId];
        SetAliasSnapshot(aliasId, merged.name, merged.savePath, merged.appId);
        ok := DeleteGame(aliasId);
      }
    }

    /** Remove the link and bring back the game it had absorbed, if there is one to bring back. */
    method UnlinkGame(aliasId: string)
      modifies this
      ensures View() == Unlinked(old(View()), aliasId)
    {
      var known := aliasId in aliases;
      var a := if known then aliases[aliasId] else Alias("", "", "", "");
      aliases := aliases - {aliasId};
      if !known || a.savePath == "" {
        return;
      }
      if aliasId in games {
        return;
      }
      var name := a.name;
      if name == "" {
        name := aliasId;
      }
      games := games[aliasId := Game(name, a.savePath, a.appId, "main", 20)];
    }
  }

  function Linked(db: Db, canonicalId: string, aliasId: string): Db {
    var linked := WithAlias(db, aliasId, canonicalId);
    if aliasId in db.games then WithoutGame(WithSnapshot(linked, aliasId, db.games[aliasId]), aliasId) else linked
  }

  function Unlinked(db: Db, aliasId: string): Db {
    var without := db.(aliases := db.aliases - {aliasId});
    if aliasId !in db.aliases || db.aliases[aliasId].savePath == "" || aliasId in db.games then without
    else
      var a := db.aliases[aliasId];
      without.(games := without.games[aliasId := Game(if a.name == "" then aliasId else a.name, a.savePath, a.appId,
          "main", 20)])
  }

  /**
   What unlinking undoes: the absorbed game comes back under its own id exactly if it had a save
   path, every other game is untouched, and the links are what they were exactly if none pointed
   from or to the alias before.
   */
  lemma UnlinkUndoesLink(db: Db, canonicalId: string, aliasId: string)
    requires LinkAllowed(db, aliasId, canonicalId) && aliasId in db.games
    ensures
      var after, g := Unlinked(Linked(db, canonicalId, aliasId), aliasId), db.games[aliasId];
      && after.games == (if g.savePath == "" then db.games - {aliasId}
           else db.games[aliasId := Game(if g.name == "" then aliasId else g.name, g.savePath, g.appId, "main", 20)])
      && (after.aliases == db.aliases <==>
            aliasId !in db.aliases && forall a :: a in db.aliases ==> db.aliases[a].gameId != aliasId)
  {
    UnlinkedGames(db, canonicalId, aliasId);
    UnlinkedAliases(db, canonicalId, aliasId);
    hide Linked, Unlinked, LinkAllowed;
    var kept := map a | a in db.aliases && a != aliasId && db.aliases[a].gameId != aliasId :: db.aliases[a];
    assert kept == db.aliases <==> kept.Keys == db.aliases.Keys;
  }

  lemma LinkedEntry(db: Db, canonicalId: string, aliasId: string)
    requires LinkAllowed(db, aliasId, canonicalId) && aliasId in db.games
    ensures
      var linked, g := Linked(db, canonicalId, aliasId), db.games[aliasId];
      && linked.games == db.games - {aliasId}
      && aliasId in linked.aliases && linked.aliases[aliasId] == Alias(canonicalId, g.name, g.savePath, g.appId)
      && linked.aliases - {aliasId} ==
           map a | a in db.aliases && a != aliasId && db.aliases[a].gameId != aliasId :: db.aliases[a]
  {
  }

  lemma UnlinkedGames(db: Db, canonicalId: string, aliasId: string)
    requires LinkAllowed(db, aliasId, canonicalId) && aliasId in db.games
    ensures
      var after, g := Unlinked(Linked(db, canonicalId, aliasId), aliasId), db.games[aliasId];
      after.games == (if g.savePath == "" then db.games - {aliasId}
        else db.games[aliasId := Game(if g.name == "" then aliasId else g.name, g.savePath, g.appId, "main", 20)])
  {
    LinkedEntry(db, canonicalId, aliasId);
    hide Linked, LinkAllowed;
  }

  lemma UnlinkedAliases(db: Db, canonicalId: string, aliasId: string)
    requires LinkAllowed(db, aliasId, canonicalId) && aliasId in db.games
    ensures
      Unlinked(Linked(db, canonicalId, aliasId), aliasId).aliases ==
      map a | a in db.aliases && a != aliasId && db.aliases[a].gameId != aliasId :: db.aliases[a]
  {
    LinkedEntry(db, canonicalId, aliasId);
    hide Linked, LinkAllowed;
  }

  /**
   Linking a remembered alias anew moves the link and keeps what it remembers: unlinking afterwards
   still brings the absorbed game back, now from the second link.
   */
  lemma RelinkedGameComesBack(db: Db, first: string, second: string, aliasId: string)
    requires LinkAllowed(db, aliasId, first) && aliasId in db.games && db.games[aliasId].savePath != ""
    requires second in db.games && second != "" && second != aliasId
    ensures
      var relinked := Linked(Linked(db, first, aliasId), second, aliasId);
      var g := db.games[aliasId];
      && aliasId in relinked.aliases
      && relinked.aliases[aliasId] == Alias(second, g.name, g.savePath, g.appId)
      && relinked.games == db.games - {aliasId}
      && Unlinked(relinked, aliasId).games ==
           db.games[aliasId := Game(if g.name == "" then aliasId else g.name, g.savePath, g.appId, "main", 20)]
  {
    LinkedEntry(db, first, aliasId);
    hide WithoutGame;
    var linked := Linked(db, first, aliasId);
    assert linked.games == db.games - {aliasId};
    assert aliasId !in linked.games && LinkAllowed(linked, aliasId, second);
  }

  /** Linking an id that is not tracked and unlinking it again leaves everything as it was. */
  lemma UnlinkUndoesBareLink(db: Db, canonicalId: string, aliasId: string)
    requires LinkAllowed(db, aliasId, canonicalId) && aliasId !in db.games && aliasId !in db.aliases
    ensures Unlinked(Linked(db, canonicalId, aliasId), aliasId) == db
  {
    assert db.aliases[aliasId := Alias(canonicalId, "", "", "")] - {aliasId} == db.aliases;
  }

  /**
   A link or an unlink touches no other game, none but the alias's link is added, and a tracked game is never
   replaced.
   */
  lemma LinksTouchOnlyTheAlias(db: Db, canonicalId: string, aliasId: string)
    requires LinkAllowed(db, aliasId, canonicalId)
    ensures
      var linked, unlinked := Linked(db, canonicalId, aliasId), Unlinked(db, aliasId);
      && linked.games == db.games - {aliasId}
      && linked.aliases.Keys <= db.aliases.Keys + {aliasId}
      && (forall a :: a in linked.aliases && a != aliasId ==> linked.aliases[a] == db.aliases[a])
      && aliasId in linked.aliases && linked.aliases[aliasId].gameId == canonicalId
      && (aliasId !in db.aliases && aliasId !in db.games ==>
            linked.aliases[aliasId] == Alias(canonicalId, "", "", ""))
      && unlinked.aliases == db.aliases - {aliasId}
      && unlinked.games - {aliasId} == db.games - {aliasId}
      && (aliasId in db.games ==> unlinked.games == db.games)
  {
  }

  /** A new game is added exactly if its id is neither linked nor tracked; only two fields are filled in. */
  lemma CreatedIff(db: Db, id: string, g: Game)
    ensures
      var after := WithCreated(db, id, g);
      var isNew := id !in db.games && (id in db.aliases ==> db.aliases[id].gameId == "");
      && (id in after.games && id !in db.games <==> isNew)
      && (!isNew ==> after == db)
      && (isNew ==> after.aliases == db.aliases && after.games - {id} == db.games)
      && (isNew ==> after.games[id] == Game(g.name, g.savePath, g.appId,
            if g.activeBranch == "" then "main" else g.activeBranch,
            if g.maxSnapshots == 0 then 20 else g.maxSnapshots))
  {
  }

  // ----- All interleavings of one link with any creations

  datatype LinkPlace =
    | NotStarted
    | CanonicalSeen      // the canonical game was found
    | AliasWritten
    | MergedSeen(merged: Game)
    | SnapshotWritten
    | Succeeded
    | Failed

  datatype World = World(db: Db, place: LinkPlace)

  datatype Action = LinkStep | Create(id: string, g: Game)

  function Step(w: World, canonicalId: string, aliasId: string, a: Action): World {
    if a.Create? then w.(db := WithCreated(w.db, a.id, a.g))
    else
      match w.place
      case NotStarted =>
        if canonicalId == "" || aliasId == "" || canonicalId == aliasId ||
            canonicalId !in w.db.games then w.(place := Failed)
        else w.(place := CanonicalSeen)
      case CanonicalSeen =>
        World(WithAlias(w.db, aliasId, canonicalId),
            if LinkAllowed(w.db, aliasId, canonicalId) then AliasWritten else Failed)
      case AliasWritten =>
        w.(place := if aliasId in w.db.games then MergedSeen(w.db.games[aliasId]) else Succeeded)
      case MergedSeen(merged) => World(WithSnapshot(w.db, aliasId, merged), SnapshotWritten)
      case SnapshotWritten =>
        World(WithoutGame(w.db, aliasId), if aliasId in w.db.games then Succeeded else Failed)
      case Succeeded => w
      case Failed => w
  }

  function Run(db: Db, canonicalId: string, aliasId: string, actions: seq<Action>): World {
    if actions == [] then World(db, NotStarted)
    else Step(Run(db, canonicalId, aliasId, actions[..|actions| - 1]), canonicalId, aliasId, actions[|actions| - 1])
  }

  /** The link on file points from the alias to the canonical game, which is tracked. */
  ghost predicate LinkOnFile(db: Db, canonicalId: string, aliasId: string) {
    && aliasId in db.aliases && db.aliases[aliasId].gameId == canonicalId
    && canonicalId in db.games && canonicalId != "" && aliasId != "" && canonicalId != aliasId
  }

  ghost predicate Inv(w: World, start: Db, canonicalId: string, aliasId: string) {
    && start.games.Keys - {aliasId} <= w.db.games.Keys
    && match w.place
       case NotStarted => true
       case CanonicalSeen => canonicalId in w.db.games && LinkAllowed(w.db, aliasId, canonicalId)
       case AliasWritten => LinkOnFile(w.db, canonicalId, aliasId)
       case MergedSeen(merged) =>
         LinkOnFile(w.db, canonicalId, aliasId) && aliasId in w.db.games && w.db.games[aliasId] == merged
       case SnapshotWritten => LinkOnFile(w.db, canonicalId, aliasId) && aliasId in w.db.games
       case Succeeded => LinkOnFile(w.db, canonicalId, aliasId) && aliasId !in w.db.games
       case Failed => !LinkAllowed(start, aliasId, canonicalId)
  }

  lemma StepInv(w: World, start: Db, canonicalId: string, aliasId: string, a: Action)
    requires Inv(w, start, canonicalId, aliasId)
    ensures Inv(Step(w, canonicalId, aliasId, a), start, canonicalId, aliasId)
  {
  }

  lemma {:induction false} RunInv(db: Db, canonicalId: string, aliasId: string, actions: seq<Action>)
    ensures Inv(Run(db, canonicalId, aliasId, actions), db, canonicalId, aliasId)
  {
    if actions != [] {
      var last := |actions| - 1;
      RunInv(db, canonicalId, aliasId, actions[..last]);
      StepInv(Run(db, canonicalId, aliasId, actions[..last]), db, canonicalId, aliasId, actions[last]);
    }
  }

  /**
   However creations fall between its steps, a link that succeeded leaves the alias untracked and
   pointing at the canonical game, and every later creation of the alias id is answered with the
   canonical id and adds nothing. A link that was allowed at the start never fails.
   */
  lemma LinkWinsEveryRace(db: Db, canonicalId: string, aliasId: string, actions: seq<Action>, g: Game)
    ensures
      var w := Run(db, canonicalId, aliasId, actions);
      && (w.place.Succeeded? ==>
            && aliasId !in w.db.games && canonicalId in w.db.games
            && aliasId in w.db.aliases && w.db.aliases[aliasId].gameId == canonicalId
            && CanonicalId(w.db, aliasId) == canonicalId && WithCreated(w.db, aliasId, g) == w.db)
      && (LinkAllowed(db, aliasId, canonicalId) ==> !w.place.Failed?)
  {
    RunInv(db, canonicalId, aliasId, actions);
  }

  const FiveSteps := [LinkStep, LinkStep, LinkStep, LinkStep, LinkStep]

  /** Without interference, the steps of a link end where LinkGames says. */
  lemma UninterruptedLink(db: Db, canonicalId: string, aliasId: string)
    ensures
      var w := Run(db, canonicalId, aliasId, FiveSteps);
      if LinkAllowed(db, aliasId, canonicalId) then w == World(Linked(db, canonicalId, aliasId), Succeeded)
      else w == World(db, Failed)
  {
    hide LinkAllowed, WithSnapshot, WithoutGame;
    LinkNeeds(db, aliasId, canonicalId);
    var w0 := World(db, NotStarted);
    var w1 := Step(w0, canonicalId, aliasId, LinkStep);
    var w2 := Step(w1, canonicalId, aliasId, LinkStep);
    var w3 := Step(w2, canonicalId, aliasId, LinkStep);
    var w4 := Step(w3, canonicalId, aliasId, LinkStep);
    var w5 := Step(w4, canonicalId, aliasId, LinkStep);
    LinkSteps(db, canonicalId, aliasId);
    SnapshotKeepsGames(WithAlias(db, aliasId, canonicalId), aliasId);
  }

  lemma LinkNeeds(db: Db, aliasId: string, gameId: string)
    ensures LinkAllowed(db, aliasId, gameId) <==>
        aliasId != "" && gameId != "" && aliasId != gameId && gameId in db.games
  {
  }

  lemma SnapshotKeepsGames(db: Db, aliasId: string)
    ensures forall g: Game :: WithSnapshot(db, aliasId, g).games == db.games
  {
  }

  lemma LinkSteps(db: Db, canonicalId: string, aliasId: string)
    ensures
      var w := World(db, NotStarted);
      Run(db, canonicalId, aliasId, FiveSteps) ==
      Step(Step(Step(Step(Step(w, canonicalId, aliasId, LinkStep), canonicalId, aliasId, LinkStep),
                     canonicalId, aliasId, LinkStep), canonicalId, aliasId, LinkStep), canonicalId, aliasId, LinkStep)
  {
    hide Step;
    var one := [LinkStep];
    assert FiveSteps == one + one + one + one + one;
    assert Run(db, canonicalId, aliasId, []) == World(db, NotStarted);
    RunOneMore(db, canonicalId, aliasId, [], LinkStep);
    assert [] + one == one;
    RunOneMore(db, canonicalId, aliasId, one, LinkStep);
    RunOneMore(db, canonicalId, aliasId, one + one, LinkStep);
    RunOneMore(db, canonicalId, aliasId, one + one + one, LinkStep);
    RunOneMore(db, canonicalId, aliasId, one + one + one + one, LinkStep);
  }

  lemma RunOneMore(db: Db, canonicalId: string, aliasId: string, actions: seq<Action>, a: Action)
    ensures Run(db, canonicalId, aliasId, actions + [a]) ==
        Step(Run(db, canonicalId, aliasId, actions), canonicalId, aliasId, a)
  {
    assert (actions + [a])[..|actions|] == actions;
  }

  // ----- Serving a peer's manifest request

  /** The steps of ensureManifestGame that pick a game id, App-ID matching switched off. */
  datatype Request =
    | Asked
    | NotTracked
    | AliasFound(canonicalId: string)
    | ToCreate
    | Answered(id: string)

  function RequestStep(db: Db, r: Request, id: string): Request {
    match r
    case Asked => if id in db.games then Answered(id) else NotTracked
    case NotTracked => if id in db.aliases then AliasFound(db.aliases[id].gameId) else ToCreate
    case AliasFound(canonicalId) => if canonicalId in db.games then Answered(canonicalId) else ToCreate
    case ToCreate => Answered(CanonicalId(db, id))
    case Answered(_) => r
  }

  /** One request for the alias id running beside the link and beside any other creations. */
  datatype Race = Race(world: World, request: Request)

  datatype RaceAction = LinkSide(a: Action) | RequestSide(g: Game)

  function RaceStep(r: Race, canonicalId: string, aliasId: string, a: RaceAction): Race {
    match a
    case LinkSide(b) => r.(world := Step(r.world, canonicalId, aliasId, b))
    case RequestSide(g) =>
      Race(if r.request.ToCreate? then r.world.(db := WithCreated(r.world.db, aliasId, g)) else r.world,
           RequestStep(r.world.db, r.request, aliasId))
  }

  function RaceRun(db: Db, canonicalId: string, aliasId: string, actions: seq<RaceAction>): Race {
    if actions == [] then Race(World(db, NotStarted), Asked)
    else RaceStep(RaceRun(db, canonicalId, aliasId, actions[..|actions| - 1]), canonicalId, aliasId,
        actions[|actions| - 1])
  }

  /**
   Undisturbed, a request is answered with the tracked game; otherwise with the one its id is linked to,
   tracked or not; only an id that is neither is added, and answered with itself.
   */
  lemma UninterruptedRequest(db: Db, canonicalId: string, id: string, g: Game)
    ensures
      var linkedTo := if id in db.aliases then db.aliases[id].gameId else "";
      var r1 := RaceStep(Race(World(db, NotStarted), Asked), canonicalId, id, RequestSide(g));
      var r2 := RaceStep(r1, canonicalId, id, RequestSide(g));
      var r3 := RaceStep(r2, canonicalId, id, RequestSide(g));
      var r := RaceStep(r3, canonicalId, id, RequestSide(g));
      && r2.world.db == db
      && (id in db.games ==> r.request == Answered(id) && r.world.db == db)
      && (id !in db.games && linkedTo != "" ==> r.request == Answered(linkedTo) && r.world.db == db)
      && (id !in db.games && linkedTo == "" && "" !in db.games ==>
            r.request == Answered(id) && r.world.db == WithCreated(db, id, g) && id in r.world.db.games)
  {
  }

  /** What the alias was linked to before, if anything. */
  function Before(db: Db, aliasId: string): set<string> {
    if aliasId in db.aliases then {db.aliases[aliasId].gameId} else {}
  }

  ghost predicate RaceInv(r: Race, start: Db, canonicalId: string, aliasId: string) {
    && Inv(r.world, start, canonicalId, aliasId)
    && (aliasId in r.world.db.aliases ==> r.world.db.aliases[aliasId].gameId in {canonicalId} + Before(start, aliasId))
    && (r.request.AliasFound? ==> r.request.canonicalId in {canonicalId} + Before(start, aliasId))
    && (r.request.Answered? ==> r.request.id in {canonicalId, aliasId} + Before(start, aliasId))
  }

  lemma {:induction false} RaceKeepsInv(db: Db, canonicalId: string, aliasId: string, actions: seq<RaceAction>)
    ensures RaceInv(RaceRun(db, canonicalId, aliasId, actions), db, canonicalId, aliasId)
  {
    if actions != [] {
      var last := |actions| - 1;
      RaceKeepsInv(db, canonicalId, aliasId, actions[..last]);
      var r := RaceRun(db, canonicalId, aliasId, actions[..last]);
      if actions[last].LinkSide? {
        StepInv(r.world, db, canonicalId, aliasId, actions[last].a);
      } else if r.request.ToCreate? {
        StepInv(r.world, db, canonicalId, aliasId, Create(aliasId, actions[last].g));
      }
    }
  }

  /**
   A request for the alias id answers with the canonical game, the alias itself or the game the alias
   was linked to before, and by the time the link has succeeded the peer's game is not tracked a second
   time, whatever the order of steps and whatever was linked when they began.
   */
  lemma NoSecondCopy(db: Db, canonicalId: string, aliasId: string, actions: seq<RaceAction>)
    ensures
      var r := RaceRun(db, canonicalId, aliasId, actions);
      && (r.request.Answered? ==> r.request.id in {canonicalId, aliasId} + Before(db, aliasId))
      && (r.world.place.Succeeded? ==> aliasId !in r.world.db.games && CanonicalId(r.world.db, aliasId) == canonicalId)
  {
    RaceKeepsInv(db, canonicalId, aliasId, actions);
  }
}
