/**
 The coalescing refresh after peer-requested deletions (internal/p2p/routes.go). The two locked
 regions are methods of a class; the runs below interleave them, and the refreshes themselves, in
 every possible way over any number of games, peers and deletions.
 */
module LineageRefresh {
  import opened Basics
  import opened PeerStore

  /** Key present: a worker runs. Value: it has been asked to go round again. */
  type Flags = map<Key, bool>

  function CallFlags(flags: Flags, key: Key): Flags {
    flags[key := key in flags]
  }

  /** The worker goes round again exactly when it was asked to. */
  predicate GoesAgain(flags: Flags, key: Key) {
    key in flags && flags[key]
  }

  function TurnFlags(flags: Flags, key: Key): Flags {
    if GoesAgain(flags, key) then flags[key := false] else flags - {key}
  }

  datatype Reply = BadRequest | NotFound | Success

  predicate NonEmptyDir(files: set<string>, dirs: set<string>, dir: string) {
    || (exists p :: p in files && dir + "/" <= p)
    || (exists d :: d in dirs && dir + "/" <= d)
  }

  /** What is left of the save when one path has been removed: a file, or a directory with nothing in it. */
  function Removed(files: set<string>, dirs: set<string>, path: string): (set<string>, set<string>) {
    (files - {path}, if path !in files && !NonEmptyDir(files, dirs, path) then dirs - {path} else dirs)
  }

  function Child(dir: string, name: string): string {
    dir + ("/" + name)
  }

  /** Everything lies in a directory that exists, up to the save itself. */
  ghost predicate Rooted(files: set<string>, dirs: set<string>) {
    forall dir, name :: Child(dir, name) in files + dirs ==> dir in dirs
  }

  lemma NonEmptyDirIff(files: set<string>, dirs: set<string>, dir: string)
    ensures NonEmptyDir(files, dirs, dir) <==> exists name :: Child(dir, name) in files + dirs
  {
    if NonEmptyDir(files, dirs, dir) {
      var p :| p in files + dirs && dir + "/" <= p;
      assert p == Child(dir, p[|dir| + 1..]);
    }
    if name :| Child(dir, name) in files + dirs {
      assert dir + "/" <= Child(dir, name);
    }
  }

  /**
   A removed file is gone, and a directory is gone exactly if nothing lies in it; no other path is
   touched, and what is left still lies in directories that exist.
   */
  lemma RemovalKeepsTree(files: set<string>, dirs: set<string>, path: string)
    ensures
      var (files', dirs') := Removed(files, dirs, path);
      && path !in files' && files' + {path} == files + {path} && dirs' + {path} == dirs + {path}
      && (path in dirs ==> (path in dirs' <==> path in files || exists name :: Child(path, name) in files + dirs))
      && (files !! dirs && Rooted(files, dirs) ==> Rooted(files', dirs'))
  {
    NonEmptyDirIff(files, dirs, path);
    hide NonEmptyDir;
  }

  class DeletionHandler {
    var deleteRefresh: Flags
    var files: map<string, string>
    var dirs: set<string>

    constructor (files: map<string, string>, dirs: set<string>)
      ensures this.files == files && this.dirs == dirs && deleteRefresh == map[]
    {
      this.files, this.dirs, deleteRefresh := files, dirs, map[];
    }

    /** The caller's locked region: either start a worker or leave word with the one that runs. */
    method RequestRefresh(key: Key) returns (spawn: bool)
      modifies this`deleteRefresh
      ensures deleteRefresh == CallFlags(old(deleteRefresh), key)
      ensures spawn <==> key !in old(deleteRefresh)
    {
      if key in deleteRefresh {
        deleteRefresh := deleteRefresh[key := true];
        return false;
      }
      deleteRefresh := deleteRefresh[key := false];
      spawn := true;
    }

    /** The worker's locked region after a refresh. */
    method WorkerTurn(key: Key) returns (again: bool)
      modifies this`deleteRefresh
      ensures again <==> GoesAgain(old(deleteRefresh), key)
      ensures deleteRefresh == TurnFlags(old(deleteRefresh), key)
    {
      again := if key in deleteRefresh then deleteRefresh[key] else false;
      if !again {
        deleteRefresh := deleteRefresh - {key};
        return;
      }
      deleteRefresh := deleteRefresh[key := false];
    }

    /** Remove the file, or the directory if nothing is in it, and ask for a refresh if it was there. */
    method HandleDeleteFile(relPath: string, tracked: bool, safe: bool, key: Key, peerKnown: bool)
      returns (reply: Reply, spawn: bool)
      modifies this
      ensures reply == if relPath ==
          "" then BadRequest else if !tracked then NotFound else if !safe then BadRequest else Success
      ensures files == if reply.Success? then old(files) - {relPath} else old(files)
      ensures (files.Keys, dirs) == if reply.Success? then Removed(old(files).Keys, old(dirs), relPath)
                                    else (old(files).Keys, old(dirs))
      ensures var asks := reply.Success? && peerKnown && (relPath in old(files) || relPath in old(dirs));
        && deleteRefresh == (if asks then CallFlags(old(deleteRefresh), key) else old(deleteRefresh))
        && (spawn <==> asks && key !in old(deleteRefresh))
    {
      spawn := false;
      if relPath == "" {
        return BadRequest, false;
      }
      if !tracked {
        return NotFound, false;
      }
      if !safe {
        return BadRequest, false;
      }
      if relPath in files || relPath in dirs {
        if relPath !in files {
          if !NonEmptyDir(files.Keys, dirs, relPath) {
            dirs := dirs - {relPath};
          }
        } else {
          files := files - {relPath};
        }
        if peerKnown {
          spawn := RequestRefresh(key);
        }
      }
      reply := Success;
      assert files.Keys == old(files).Keys - {relPath};
      assert relPath !in old(dirs) ==> old(dirs) - {relPath} == old(dirs);
    }
  }

  // ----- All interleavings

  datatype Place = AboutToRefresh | Refreshing | Exited

  datatype Worker = Worker(key: Key, place: Place)

  /** The flags and the workers, and for each key: calls, refreshes begun, and calls since the last began. */
  datatype State = State(flags: Flags, workers: seq<Worker>, calls: map<Key, nat>, starts: map<Key, nat>,
      waiting: map<Key, nat>)

  datatype Action = Call(key: Key) | Begin(w: nat) | Turn(w: nat)

  function Count(tally: map<Key, nat>, key: Key): nat {
    if key in tally then tally[key] else 0
  }

  function Step(s: State, a: Action): State {
    match a
    case Call(key) =>
      s.(flags := CallFlags(s.flags, key),
         workers := if key in s.flags then s.workers else s.workers + [Worker(key, AboutToRefresh)],
         calls := s.calls[key := Count(s.calls, key) + 1],
         waiting := s.waiting[key := Count(s.waiting, key) + 1])
    case Begin(w) =>
      if w < |s.workers| && s.workers[w].place == AboutToRefresh then
        var key := s.workers[w].key;
        s.(workers := s.workers[w := Worker(key, Refreshing)],
           starts := s.starts[key := Count(s.starts, key) + 1],
           waiting := s.waiting[key := 0])
      else s
    case Turn(w) =>
      if w < |s.workers| && s.workers[w].place == Refreshing then
        var key := s.workers[w].key;
        s.(flags := TurnFlags(s.flags, key),
           workers := s.workers[w := Worker(key, if GoesAgain(s.flags, key) then AboutToRefresh else Exited)])
      else s
  }

  const Initial := State(map[], [], map[], map[], map[])

  ghost predicate Live(s: State, w: nat) {
    w < |s.workers| && s.workers[w].place != Exited
  }

  ghost predicate LiveFor(s: State, key: Key, w: nat) {
    Live(s, w) && s.workers[w].key == key
  }

  /** Exactly one live worker for every key present, none for any other. */
  ghost predicate OneWorkerPerKey(s: State) {
    && (forall w: nat :: Live(s, w) ==> s.workers[w].key in s.flags)
    && (forall key :: key in s.flags ==> exists w: nat :: LiveFor(s, key, w))
    && (forall key, v: nat, w: nat :: LiveFor(s, key, v) && LiveFor(s, key, w) ==> v == w)
  }

  /** A deletion still waiting will be seen: the worker is about to look, or has been told to look again. */
  ghost predicate NoneForgotten(s: State) {
    forall key :: Count(s.waiting, key) > 0 ==>
      key in s.flags && (s.flags[key] || exists w: nat :: LiveFor(s, key, w) && s.workers[w].place == AboutToRefresh)
  }

  /** Every refresh begun, about to begin or asked for is paid for by a call of its own. */
  ghost predicate StartsPaidFor(s: State) {
    && (forall w: nat :: Live(s, w) ==>
          Count(s.starts, s.workers[w].key) + (if s.workers[w].place == AboutToRefresh then 1 else 0)
          + (if GoesAgain(s.flags, s.workers[w].key) then 1 else 0) <= Count(s.calls, s.workers[w].key))
    && (forall key :: Count(s.starts, key) <= Count(s.calls, key))
  }

  ghost predicate Inv(s: State) {
    OneWorkerPerKey(s) && NoneForgotten(s) && StartsPaidFor(s)
  }

  lemma CallLive(s: State, key: Key)
    ensures forall k, w: nat :: LiveFor(Step(s, Call(key)), k, w) <==>
      LiveFor(s, k, w) || (key !in s.flags && w == |s.workers| && k == key)
    ensures forall w: nat :: Live(Step(s, Call(key)), w) <==> Live(s, w) || (key !in s.flags && w == |s.workers|)
  {
  }

  lemma CallOneWorker(s: State, key: Key)
    requires OneWorkerPerKey(s)
    ensures OneWorkerPerKey(Step(s, Call(key)))
  {
    var t := Step(s, Call(key));
    CallLive(s, key);
    forall k | k in t.flags ensures exists w: nat :: LiveFor(t, k, w) {
      if k in s.flags {
        var w: nat :| LiveFor(s, k, w);
        assert LiveFor(t, k, w);
      } else {
        assert LiveFor(t, k, |s.workers|);
      }
    }
    forall k, v: nat, w: nat | LiveFor(t, k, v) && LiveFor(t, k, w) ensures v == w {
      assert LiveFor(s, k, v) ==> s.workers[v].key in s.flags;
      assert LiveFor(s, k, w) ==> s.workers[w].key in s.flags;
    }
  }

  lemma CallNoneForgotten(s: State, key: Key)
    requires NoneForgotten(s)
    ensures NoneForgotten(Step(s, Call(key)))
  {
    var t := Step(s, Call(key));
    CallLive(s, key);
    forall k | Count(t.waiting, k) > 0
      ensures k in t.flags && (t.flags[k] || exists w: nat :: LiveFor(t, k, w) && t.workers[w].place == AboutToRefresh)
    {
      if k == key {
        assert key !in s.flags ==> LiveFor(t, k, |s.workers|) && t.workers[|s.workers|].place == AboutToRefresh;
      } else {
        assert Count(s.waiting, k) > 0;
        if !s.flags[k] {
          var w: nat :| LiveFor(s, k, w) && s.workers[w].place == AboutToRefresh;
          assert LiveFor(t, k, w) && t.workers[w].place == AboutToRefresh;
        }
      }
    }
  }

  /** What one live worker's key has begun, will begin and has been asked for. */
  ghost function Owed(s: State, w: nat): nat
    requires Live(s, w)
  {
    Count(s.starts, s.workers[w].key) + (if s.workers[w].place == AboutToRefresh then 1 else 0)
    + (if GoesAgain(s.flags, s.workers[w].key) then 1 else 0)
  }

  lemma CallStartsPaidFor(s: State, key: Key)
    requires StartsPaidFor(s)
    ensures StartsPaidFor(Step(s, Call(key)))
  {
    var t := Step(s, Call(key));
    CallLive(s, key);
    forall w: nat | Live(t, w) ensures Owed(t, w) <= Count(t.calls, t.workers[w].key) {
      if Live(s, w) {
        assert s.workers[w] == t.workers[w] && Owed(s, w) <= Count(s.calls, s.workers[w].key);
      } else {
        assert Count(s.starts, key) <= Count(s.calls, key);
      }
    }
  }

  lemma CallInv(s: State, key: Key)
    requires Inv(s)
    ensures Inv(Step(s, Call(key)))
  {
    hide OneWorkerPerKey, NoneForgotten, StartsPaidFor, Step;
    CallOneWorker(s, key);
    CallNoneForgotten(s, key);
    CallStartsPaidFor(s, key);
  }

  /** A worker's own step moves that worker and touches that worker's key, nothing else. */
  lemma WorkerStepLive(s: State, a: Action)
    requires !a.Call? && Step(s, a) != s
    ensures Live(s, a.w) && |Step(s, a).workers| == |s.workers| && Step(s, a).workers[a.w].key == s.workers[a.w].key
    ensures forall k, w: nat :: LiveFor(Step(s, a), k, w) <==>
      LiveFor(s, k, w) && (w != a.w || Step(s, a).workers[a.w].place != Exited)
    ensures forall w: nat :: w != a.w && w < |s.workers| ==> Step(s, a).workers[w] == s.workers[w]
  {
  }

  lemma WorkerOneWorker(s: State, a: Action)
    requires OneWorkerPerKey(s) && !a.Call? && Step(s, a) != s
    ensures OneWorkerPerKey(Step(s, a))
  {
    var t := Step(s, a);
    WorkerStepLive(s, a);
    var key := s.workers[a.w].key;
    assert LiveFor(s, key, a.w);
    forall k | k in t.flags ensures exists w: nat :: LiveFor(t, k, w) {
      var w: nat :| LiveFor(s, k, w);
      assert LiveFor(t, k, w);
    }
    forall w: nat | Live(t, w) ensures t.workers[w].key in t.flags {
      assert LiveFor(t, t.workers[w].key, w) && LiveFor(s, t.workers[w].key, w);
    }
  }

  lemma WorkerNoneForgotten(s: State, a: Action)
    requires OneWorkerPerKey(s) && NoneForgotten(s) && !a.Call? && Step(s, a) != s
    ensures NoneForgotten(Step(s, a))
  {
    var t := Step(s, a);
    WorkerStepLive(s, a);
    var key := s.workers[a.w].key;
    assert LiveFor(s, key, a.w);
    forall k | Count(t.waiting, k) > 0
      ensures k in t.flags && (t.flags[k] || exists w: nat :: LiveFor(t, k, w) && t.workers[w].place == AboutToRefresh)
    {
      assert Count(s.waiting, k) > 0;
      if k == key {
        assert s.flags[key];
        assert LiveFor(t, k, a.w) && t.workers[a.w].place == AboutToRefresh;
      } else if !s.flags[k] {
        var w: nat :| LiveFor(s, k, w) && s.workers[w].place == AboutToRefresh;
        assert LiveFor(t, k, w) && t.workers[w].place == AboutToRefresh;
      }
    }
  }

  lemma WorkerStartsPaidFor(s: State, a: Action)
    requires OneWorkerPerKey(s) && StartsPaidFor(s) && !a.Call? && Step(s, a) != s
    ensures StartsPaidFor(Step(s, a))
  {
    var t := Step(s, a);
    WorkerStepLive(s, a);
    var key := s.workers[a.w].key;
    assert LiveFor(s, key, a.w) && Owed(s, a.w) <= Count(s.calls, key);
    forall w: nat | Live(t, w) && w != a.w ensures Live(s, w) && t.workers[w] == s.workers[w] &&
        t.workers[w].key != key {
      assert LiveFor(t, t.workers[w].key, w) && LiveFor(s, t.workers[w].key, w);
    }
    hide OneWorkerPerKey;
    forall w: nat | Live(t, w) ensures Owed(t, w) <= Count(t.calls, t.workers[w].key) {
      if w != a.w {
        assert Owed(s, w) <= Count(s.calls, s.workers[w].key);
      }
    }
  }

  lemma WorkerStepInv(s: State, a: Action)
    requires Inv(s) && !a.Call?
    ensures Inv(Step(s, a))
  {
    hide OneWorkerPerKey, NoneForgotten, StartsPaidFor, Step;
    if Step(s, a) != s {
      WorkerOneWorker(s, a);
      WorkerNoneForgotten(s, a);
      WorkerStartsPaidFor(s, a);
    }
  }

  function Run(actions: seq<Action>): State {
    if actions == [] then Initial else Step(Run(actions[..|actions| - 1]), actions[|actions| - 1])
  }

  lemma {:induction false} RunInv(actions: seq<Action>)
    ensures Inv(Run(actions))
  {
    hide Inv, Step;
    if actions == [] {
      InitialInv();
    } else {
      var last := |actions| - 1;
      var before := Run(actions[..last]);
      RunInv(actions[..last]);
      if actions[last].Call? {
        CallInv(before, actions[last].key);
      } else {
        WorkerStepInv(before, actions[last]);
      }
    }
  }

  lemma InitialInv()
    ensures Inv(Initial)
  {
  }

  /** A key's worker has just begun a refresh. */
  ghost predicate Began(s: State, t: State, key: Key) {
    exists w: nat :: w < |s.workers| && w < |t.workers| && s.workers[w] == Worker(key, AboutToRefresh) &&
      t.workers[w] == Worker(key, Refreshing)
  }

  /** What the tallies count: calls, refreshes begun, and calls since the last one began. */
  lemma TalliesCount(s: State, a: Action, key: Key)
    ensures
      var t := Step(s, a);
      && Count(t.calls, key) == Count(s.calls, key) + (if a == Call(key) then 1 else 0)
      && Count(t.starts, key) == Count(s.starts, key) + (if Began(s, t, key) then 1 else 0)
      && Count(t.waiting, key) ==
           if a == Call(key) then Count(s.waiting, key) + 1
           else if Began(s, t, key) then 0 else Count(s.waiting, key)
  {
    if a.Begin? && a.w < |s.workers| && s.workers[a.w] == Worker(key, AboutToRefresh) {
      assert Began(s, Step(s, a), key);
    }
  }

  /**
   In every run: never two workers for one game and peer, no deletion forgotten, and never more
   refreshes than calls.
   */
  lemma NoLostRefresh(actions: seq<Action>, key: Key)
    ensures
      var s := Run(actions);
      && (forall v: nat, w: nat :: LiveFor(s, key, v) && LiveFor(s, key, w) ==> v == w)
      && (Count(s.waiting, key) > 0 ==>
            key in s.flags &&
            (s.flags[key] || exists w: nat :: LiveFor(s, key, w) && s.workers[w].place == AboutToRefresh))
      && Count(s.starts, key) <= Count(s.calls, key)
  {
    RunInv(actions);
  }

  /** A worker stops only when nothing is waiting, and forgets its key as it stops. */
  lemma ExitsOnlyWhenDone(actions: seq<Action>, w: nat)
    requires Live(Run(actions), w) && !Live(Run(actions + [Turn(w)]), w)
    ensures
      var s, key := Run(actions + [Turn(w)]), Run(actions).workers[w].key;
      Count(s.waiting, key) == 0 && key !in s.flags
  {
    assert (actions + [Turn(w)])[..|actions|] == actions;
    RunInv(actions);
    RunInv(actions + [Turn(w)]);
    var s := Run(actions);
    var key := s.workers[w].key;
    assert LiveFor(s, key, w);
    forall v: nat ensures !(LiveFor(s, key, v) && s.workers[v].place == AboutToRefresh) {
      assert LiveFor(s, key, v) ==> v == w;
    }
  }

  /** Worker steps left before key is at rest, when no further deletion comes. */
  ghost function StepsLeft(s: State, key: Key): nat {
    if w: nat :| LiveFor(s, key, w) then
      (if s.workers[w].place == AboutToRefresh then 2 else 1) + (if GoesAgain(s.flags, key) then 2 else 0)
    else 0
  }

  /** No worker steps left means no deletion is waiting; otherwise the key's worker can take one. */
  lemma RestOrProgress(s: State, key: Key) returns (a: Option<Action>)
    requires Inv(s)
    ensures StepsLeft(s, key) <= 4
    ensures a.None? <==> StepsLeft(s, key) == 0
    ensures a.None? ==> Count(s.waiting, key) == 0 && key !in s.flags
    ensures a.Some? ==> !a.value.Call? && Step(s, a.value) != s && s.workers[a.value.w].key == key
  {
    hide StartsPaidFor;
    if w: nat :| LiveFor(s, key, w) {
      a := Some(if s.workers[w].place == AboutToRefresh then Begin(w) else Turn(w));
      assert Step(s, a.value).workers[w] != s.workers[w];
    } else {
      a := None;
    }
  }

  /** Every step of a key's worker is one of the at most four it has left, and loses nothing. */
  lemma WorkerStepCounts(s: State, a: Action, key: Key)
    requires Inv(s) && !a.Call? && Step(s, a) != s && s.workers[a.w].key == key
    ensures Inv(Step(s, a)) && StepsLeft(Step(s, a), key) == StepsLeft(s, key) - 1
  {
    WorkerStepInv(s, a);
    WorkerStepLive(s, a);
    hide NoneForgotten, StartsPaidFor;
    var t := Step(s, a);
    assert LiveFor(s, key, a.w);
    forall v: nat ensures LiveFor(t, key, v) <==> v == a.w && t.workers[a.w].place != Exited {
    }
  }
}
