/**
 Whom the relay's messages reach (relay/server.go): from the moment a message has been read to the
 release of the server lock, whatever the writers do meanwhile. What a client's channel gained is read
 off the channel itself, state by state.
 */
module RelayDelivery {
  import opened Basics
  import opened Relay

  ghost predicate Follows(s: State, t: State) {
    LockInRange(s) && exists a :: t == Step(s, a)
  }

  /** The states the relay goes through, from any that a run can lead to. */
  ghost predicate IsRun(run: seq<State>) {
    && run != [] && Inv(run[0])
    && forall i {:trigger run[i + 1]} :: 0 <= i < |run| - 1 ==> Follows(run[i], run[i + 1])
  }

  function Last(run: seq<State>): State
    requires run != []
  {
    run[|run| - 1]
  }

  lemma {:induction false} RunInv(run: seq<State>)
    requires IsRun(run)
    ensures Inv(Last(run))
  {
    hide Inv, Step;
    if |run| > 1 {
      RunPrefix(run);
      var rest := run[..|run| - 1];
      RunInv(rest);
      var a :| Last(run) == Step(Last(rest), a);
      StepInv(Last(rest), a);
    }
  }

  lemma RunPrefix(run: seq<State>)
    requires IsRun(run) && |run| > 1
    ensures IsRun(run[..|run| - 1]) && Follows(run[|run| - 2], Last(run))
  {
    hide Inv, Follows;
    var rest := run[..|run| - 1];
    var i := |run| - 2;
    assert Follows(run[i], run[i + 1]);
    forall i | 0 <= i < |rest| - 1 ensures Follows(rest[i], rest[i + 1]) {
      assert rest[i] == run[i] && rest[i + 1] == run[i + 1];
    }
  }

  function ChannelOf(s: State, c: nat): seq<Message> {
    if c < |s.clients| then s.clients[c].send else []
  }

  /** What stands in the channel afterwards beyond what stood there before. */
  function PutIn(before: seq<Message>, after: seq<Message>): seq<Message> {
    if |after| > |before| then after[|before|..] else []
  }

  /** What stood at its front before and is gone. */
  function TakenOut(before: seq<Message>, after: seq<Message>): seq<Message> {
    if |after| < |before| then before[..|before| - |after|] else []
  }

  function StepGain(s: State, t: State, c: nat): seq<Message> {
    PutIn(ChannelOf(s, c), ChannelOf(t, c))
  }

  /** Everything put into c's channel during a run, in order. */
  function Gained(run: seq<State>, c: nat): seq<Message> {
    if |run| < 2 then []
    else Gained(run[..|run| - 1], c) + StepGain(run[|run| - 2], run[|run| - 1], c)
  }

  /** Everything taken out of it. */
  function Lost(run: seq<State>, c: nat): seq<Message> {
    if |run| < 2 then []
    else Lost(run[..|run| - 1], c) + TakenOut(ChannelOf(run[|run| - 2], c), ChannelOf(run[|run| - 1], c))
  }

  // ----- One step and one channel

  /** A step puts one message at the end of a channel, takes one from its front, or leaves it alone. */
  ghost predicate OneEnd(before: seq<Message>, after: seq<Message>) {
    || after == before
    || (before != [] && after == before[1..])
    || (|after| == |before| + 1 && after[..|before|] == before)
  }

  lemma StepOneEnd(s: State, t: State, c: nat)
    requires Follows(s, t)
    ensures OneEnd(ChannelOf(s, c), ChannelOf(t, c))
  {
    var a :| t == Step(s, a);
    hide *;
    ActionOneEnd(s, a, c);
  }

  lemma ActionOneEnd(s: State, a: Action, c: nat)
    requires LockInRange(s)
    ensures OneEnd(ChannelOf(s, c), ChannelOf(Step(s, a), c))
  {
  }

  lemma OneEndBalances(before: seq<Message>, after: seq<Message>)
    requires OneEnd(before, after)
    ensures before + PutIn(before, after) == TakenOut(before, after) + after
  {
  }

  /** First in, first out: what left a channel, and what is still in it, is what was there and what came, in order. */
  lemma {:induction false} ChannelIsFifo(run: seq<State>, c: nat)
    requires IsRun(run)
    ensures ChannelOf(run[0], c) + Gained(run, c) == Lost(run, c) + ChannelOf(Last(run), c)
  {
    if |run| > 1 {
      RunPrefix(run);
      var rest := run[..|run| - 1];
      ChannelIsFifo(rest, c);
      StepOneEnd(Last(rest), Last(run), c);
      var before, after := ChannelOf(Last(rest), c), ChannelOf(Last(run), c);
      OneEndBalances(before, after);
      hide IsRun, PutIn, TakenOut, ChannelOf;
      Reassociate(ChannelOf(run[0], c), Gained(rest, c), PutIn(before, after), Lost(rest, c), before,
        TakenOut(before, after), after);
    }
  }

  lemma Reassociate(start: seq<Message>, gained: seq<Message>, put: seq<Message>, lost: seq<Message>,
                    before: seq<Message>, taken: seq<Message>, after: seq<Message>)
    requires start + gained == lost + before && before + put == taken + after
    ensures start + (gained + put) == (lost + taken) + after
  {
    assert start + (gained + put) == (start + gained) + put;
    assert (lost + before) + put == lost + (before + put);
    assert lost + (taken + after) == (lost + taken) + after;
  }

  // ----- One message relayed

  /** The lock holder is relaying raw. */
  predicate RelayingStill(lock: Lock, raw: Message) {
    (lock.Relaying? || lock.ChargedClient? || lock.ChargedBoth? || lock.RefundBoth? || lock.RefundClient?) &&
    lock.raw == raw
  }

  /** The members it has still to serve. */
  function TodoOf(lock: Lock): set<nat> {
    match lock
    case Relaying(_, todo) => todo
    case ChargedClient(_, todo, _) => todo
    case ChargedBoth(_, todo, _) => todo
    case RefundBoth(_, todo, _) => todo
    case RefundClient(_, todo, _) => todo
    case _ => {}
  }

  /** Nobody's channel gains anything. */
  ghost predicate NoGain(s: State, t: State) {
    forall c: nat :: StepGain(s, t, c) == []
  }

  /** Only c's channel does, and it gains raw. */
  ghost predicate OnlyGain(s: State, t: State, c: nat, raw: Message) {
    && StepGain(s, t, c) == [raw]
    && forall d: nat :: d != c ==> StepGain(s, t, d) == []
  }

  /** How one step brings the relaying of raw on. */
  ghost predicate Served(s: State, t: State, raw: Message, todo: set<nat>, left: set<nat>) {
    || (left == todo && NoGain(s, t) && t.dropped == s.dropped)
    || (exists c :: c in todo && left == todo - {c} && OnlyGain(s, t, c, raw) && t.dropped == s.dropped)
    || (exists c :: c in todo && left == todo - {c} && NoGain(s, t) && t.dropped == s.dropped + 1)
  }

  lemma RelayingStep(s: State, t: State, raw: Message)
    requires Inv(s) && Follows(s, t) && RelayingStill(s.lock, raw)
    ensures Served(s, t, raw, TodoOf(s.lock), TodoOf(t.lock))
    ensures RelayingStill(t.lock, raw) || (t.lock.Free? && TodoOf(s.lock) == {})
  {
    var a :| t == Step(s, a);
    hide *;
    RelayingAction(s, a, raw);
  }

  lemma RelayingAction(s: State, a: Action, raw: Message)
    requires Inv(s) && RelayingStill(s.lock, raw)
    ensures Served(s, Step(s, a), raw, TodoOf(s.lock), TodoOf(Step(s, a).lock))
    ensures RelayingStill(Step(s, a).lock, raw) || (Step(s, a).lock.Free? && TodoOf(s.lock) == {})
  {
    hide CountersExact, WithinBudgets, RoomsExact, GoneIsEmpty, TalliesExact;
    if a.Advance? {
      RelayingAdvance(s, raw);
    } else {
      assert NoGain(s, Step(s, a));
    }
  }

  lemma RelayingAdvance(s: State, raw: Message)
    requires Inv(s) && RelayingStill(s.lock, raw)
    ensures Served(s, AdvanceStep(s), raw, TodoOf(s.lock), TodoOf(AdvanceStep(s).lock))
    ensures RelayingStill(AdvanceStep(s).lock, raw) || (AdvanceStep(s).lock.Free? && TodoOf(s.lock) == {})
  {
    hide CountersExact, WithinBudgets, RoomsExact, GoneIsEmpty, TalliesExact;
    var t := AdvanceStep(s);
    if s.lock.ChargedBoth? && |s.clients[s.lock.c].send| < SendQueueSlots {
      assert OnlyGain(s, t, s.lock.c, raw);
    } else {
      assert NoGain(s, t);
    }
  }

  /** The clients in the sender's room, the sender apart. */
  ghost function OthersInRoom(s: State, sender: nat): set<nat>
    requires sender < |s.clients|
  {
    set c | 0 <= c < |s.clients| && c != sender && !s.clients[c].gone && s.clients[c].room == s.clients[sender].room
  }

  /** Those whose channel has had exactly this message. */
  ghost function Reached(run: seq<State>, among: set<nat>, raw: Message): set<nat> {
    set c | c in among && Gained(run, c) == [raw]
  }

  /** Of the room, some are still to be served; the others got the message once or were counted as dropped. */
  ghost predicate HalfWay(run: seq<State>, others: set<nat>, raw: Message, todo: set<nat>)
    requires run != []
  {
    && todo <= others
    && (forall c: nat :: Gained(run, c) == [] || (Gained(run, c) == [raw] && c in others - todo))
    && Last(run).dropped == run[0].dropped + |others - todo| - |Reached(run, others, raw)|
  }

  /** Nobody's channel gained anything by the last step. */
  lemma SameReached(run: seq<State>, others: set<nat>, raw: Message)
    requires |run| > 1 && NoGain(run[|run| - 2], run[|run| - 1])
    ensures forall c: nat :: Gained(run, c) == Gained(run[..|run| - 1], c)
    ensures Reached(run, others, raw) == Reached(run[..|run| - 1], others, raw)
  {
    hide StepGain;
  }

  lemma OneMoreReached(run: seq<State>, others: set<nat>, raw: Message, c: nat)
    requires |run| > 1 && OnlyGain(run[|run| - 2], run[|run| - 1], c, raw)
    requires c in others && Gained(run[..|run| - 1], c) == []
    ensures Gained(run, c) == [raw]
    ensures forall d: nat :: d != c ==> Gained(run, d) == Gained(run[..|run| - 1], d)
    ensures Reached(run, others, raw) == Reached(run[..|run| - 1], others, raw) + {c}
    ensures c !in Reached(run[..|run| - 1], others, raw)
  {
    hide StepGain;
  }

  lemma OneLess(others: set<nat>, todo: set<nat>, c: nat)
    requires c in todo && todo <= others
    ensures others - (todo - {c}) == (others - todo) + {c}
    ensures |others - (todo - {c})| == |others - todo| + 1
  {
    assert others - (todo - {c}) == (others - todo) + {c};
  }

  lemma HalfWayGain(run: seq<State>, others: set<nat>, raw: Message, todo: set<nat>, c: nat)
    requires |run| > 1 && HalfWay(run[..|run| - 1], others, raw, todo) && c in todo
    requires OnlyGain(run[|run| - 2], run[|run| - 1], c, raw) && Last(run).dropped == run[|run| - 2].dropped
    ensures HalfWay(run, others, raw, todo - {c})
  {
    hide Reached, Gained, OnlyGain;
    OneLess(others, todo, c);
    OneMoreReached(run, others, raw, c);
  }

  lemma HalfWayNoGain(run: seq<State>, others: set<nat>, raw: Message, todo: set<nat>, c: Option<nat>)
    requires |run| > 1 && HalfWay(run[..|run| - 1], others, raw, todo) && (c.Some? ==> c.value in todo)
    requires NoGain(run[|run| - 2], run[|run| - 1])
    requires Last(run).dropped == run[|run| - 2].dropped + if c.Some? then 1 else 0
    ensures HalfWay(run, others, raw, if c.Some? then todo - {c.value} else todo)
  {
    hide Reached, Gained, NoGain;
    SameReached(run, others, raw);
    if c.Some? {
      OneLess(others, todo, c.value);
    }
  }

  lemma HalfWayStep(run: seq<State>, others: set<nat>, raw: Message, todo: set<nat>, left: set<nat>)
    requires |run| > 1 && HalfWay(run[..|run| - 1], others, raw, todo)
    requires Served(run[|run| - 2], run[|run| - 1], raw, todo, left)
    ensures HalfWay(run, others, raw, left)
  {
    var u, v := run[|run| - 2], run[|run| - 1];
    hide HalfWay, NoGain, OnlyGain;
    if left == todo && NoGain(u, v) && v.dropped == u.dropped {
      HalfWayNoGain(run, others, raw, todo, None);
    } else if c :| c in todo && left == todo - {c} && OnlyGain(u, v, c, raw) && v.dropped == u.dropped {
      HalfWayGain(run, others, raw, todo, c);
    } else {
      var c :| c in todo && left == todo - {c} && NoGain(u, v) && v.dropped == u.dropped + 1;
      HalfWayNoGain(run, others, raw, todo, Some(c));
    }
  }

  lemma ReceiveTurnsToOthers(s: State, sender: nat, raw: Message)
    requires Inv(s) && s.lock.Free? && sender < |s.clients| && !s.clients[sender].gone
    ensures Step(s, Receive(sender, raw)) == s.(lock := Relaying(raw, OthersInRoom(s, sender)))
  {
    hide CountersExact, WithinBudgets, GoneIsEmpty, TalliesExact, LockSound;
    var room := s.clients[sender].room;
    assert Member(s, room, sender);
    forall c: nat ensures c in s.rooms[room] - {sender} <==> c in OthersInRoom(s, sender) {
      if c in s.rooms[room] {
        assert Member(s, room, c);
      }
      if c in OthersInRoom(s, sender) {
        assert Member(s, s.clients[c].room, c);
      }
    }
    assert s.rooms[room] - {sender} == OthersInRoom(s, sender);
  }

  /** The run reads a message from this sender, and the lock stays taken until its last step. */
  ghost predicate RelaysOne(run: seq<State>, sender: nat, raw: Message) {
    && IsRun(run) && |run| > 1 && run[0].lock.Free?
    && sender < |run[0].clients| && !run[0].clients[sender].gone
    && run[1] == Step(run[0], Receive(sender, raw))
    && forall k :: 1 <= k < |run| - 1 ==> !run[k].lock.Free?
  }

  lemma RelaysOnePrefix(run: seq<State>, sender: nat, raw: Message)
    requires RelaysOne(run, sender, raw) && |run| > 2
    ensures RelaysOne(run[..|run| - 1], sender, raw) && !run[|run| - 2].lock.Free?
  {
    hide IsRun, Step;
    RunPrefix(run);
  }

  lemma JustRead(run: seq<State>, sender: nat, raw: Message)
    requires RelaysOne(run, sender, raw) && |run| == 2
    ensures
      var others := OthersInRoom(run[0], sender);
      Last(run).lock == Relaying(raw, others) && HalfWay(run, others, raw, others)
  {
    hide Inv, Step;
    ReceiveTurnsToOthers(run[0], sender, raw);
    hide *;
    NothingYet(run, OthersInRoom(run[0], sender), raw);
  }

  lemma NothingYet(run: seq<State>, others: set<nat>, raw: Message)
    requires |run| == 2 && run[1].clients == run[0].clients && run[1].dropped == run[0].dropped
    ensures HalfWay(run, others, raw, others)
  {
    assert run[..1] == [run[0]];
    assert forall c: nat :: Gained(run, c) == [];
    assert Reached(run, others, raw) == {};
    assert others - others == {};
  }

  lemma {:induction false} RelayingRun(run: seq<State>, sender: nat, raw: Message)
    requires RelaysOne(run, sender, raw)
    ensures HalfWay(run, OthersInRoom(run[0], sender), raw, TodoOf(Last(run).lock))
    ensures RelayingStill(Last(run).lock, raw) || Last(run).lock.Free?
  {
    hide Inv, Step, HalfWay, Served, OthersInRoom, IsRun;
    if |run| == 2 {
      JustRead(run, sender, raw);
    } else {
      hide RelayingStill;
      var rest := run[..|run| - 1];
      RelaysOnePrefix(run, sender, raw);
      RelayingRun(rest, sender, raw);
      RunInv(rest);
      RunPrefix(run);
      RelayingStep(Last(rest), Last(run), raw);
      HalfWayStep(run, OthersInRoom(run[0], sender), raw, TodoOf(Last(rest).lock), TodoOf(Last(run).lock));
    }
  }

  /**
   From the reading of a message to the release of the lock, under all interleavings with the writers
   and with whatever else asks for the lock: every other client of the sender's room has had the message
   put into its channel once, or has been counted as one drop; nothing else has been put into any
   channel, the sender's own and those of the other rooms included.
   */
  lemma EveryOtherMemberServed(run: seq<State>, sender: nat, raw: Message)
    returns (others: set<nat>, reached: set<nat>)
    requires RelaysOne(run, sender, raw) && Last(run).lock.Free?
    ensures forall c: nat :: c in others <==>
              c < |run[0].clients| && c != sender && !run[0].clients[c].gone
              && run[0].clients[c].room == run[0].clients[sender].room
    ensures reached <= others
    ensures forall c: nat :: Gained(run, c) == if c in reached then [raw] else []
    ensures Last(run).dropped == run[0].dropped + |others| - |reached|
  {
    RelayingRun(run, sender, raw);
    others := OthersInRoom(run[0], sender);
    reached := Reached(run, others, raw);
    OthersAre(run[0], sender);
    hide *;
    ServedAll(run, others, raw);
  }

  lemma OthersAre(s: State, sender: nat)
    requires sender < |s.clients|
    ensures forall c: nat :: c in OthersInRoom(s, sender) <==>
              c < |s.clients| && c != sender && !s.clients[c].gone && s.clients[c].room == s.clients[sender].room
  {
  }

  lemma ServedAll(run: seq<State>, others: set<nat>, raw: Message)
    requires run != [] && HalfWay(run, others, raw, {})
    ensures Reached(run, others, raw) <= others
    ensures forall c: nat :: Gained(run, c) == if c in Reached(run, others, raw) then [raw] else []
    ensures Last(run).dropped == run[0].dropped + |others| - |Reached(run, others, raw)|
  {
    hide Gained;
    assert others - {} == others;
  }

  /**
   One turn of a client's writer, alone: the message at the front of the channel leaves it, its bytes go
   back to both counters, and the writer waits for the next one, or has stopped if the write failed.
   */
  lemma WriterTurn(s: State, c: nat, failed: bool)
    requires Inv(s) && c < |s.clients| && s.clients[c].writer == Waiting && s.clients[c].send != []
    ensures
      var raw := s.clients[c].send[0];
      var taken := Step(s, Take(c));
      var t := Step(Step(taken, ReleaseClient(c)), ReleaseTotal(c, failed));
      && taken.clients[c].writer == Holding(raw)
      && t.clients[c].send == s.clients[c].send[1..] && t.clients[c].writer == (if failed then Stopped else Waiting)
      && t.clients[c].queued == s.clients[c].queued - |raw| && t.total == s.total - |raw|
      && t == s.(total := t.total, clients := s.clients[c := t.clients[c]])
  {
  }

  // ----- Who is in a room

  /** A newcomer is admitted exactly if fewer clients than a room holds are in it; the others notice nothing. */
  lemma JoinAdmitsIff(s: State, room: string)
    requires Inv(s) && s.lock.Free?
    ensures
      var t := Step(s, Join(room));
      var present := set c | 0 <= c < |s.clients| && !s.clients[c].gone && s.clients[c].room == room;
      && t.clients == (if |present| < s.maxPerRoom then s.clients + [Client(room, 0, [], Waiting, false)]
                       else s.clients)
      && t.total == s.total && t.dropped == s.dropped && t.lock == s.lock
  {
    hide CountersExact, WithinBudgets, GoneIsEmpty, TalliesExact, LockSound;
    var members := if room in s.rooms then s.rooms[room] else {};
    var present := set c | 0 <= c < |s.clients| && !s.clients[c].gone && s.clients[c].room == room;
    forall c: nat ensures c in members <==> c in present {
      if c in members {
        assert Member(s, room, c);
      }
      if c in present {
        assert Member(s, s.clients[c].room, c);
      }
    }
    assert members == present;
  }
}
