/**
 The relay's byte-budgeted queues (relay/server.go). The reader that holds the server lock relays a
 message with several separate atomic additions; every client's writer takes messages and gives
 bytes back concurrently, without the lock. A state is what the relay's memory holds between two
 such atomic steps, so the runs below are all interleavings.
 */
module Relay {
  import opened Basics

  const MaxQueuedBytesPerClient := 32 * 1024 * 1024
  const MaxQueuedBytesTotal := 256 * 1024 * 1024
  const SendQueueSlots := 64

  type Message = bytes

  /** Where a client's writer goroutine stands. */
  datatype Writer =
    | Waiting
    | Holding(raw: Message)        // taken off the channel, being written
    | HalfReleased(raw: Message)   // the client's counter is settled, the global one is not
    | Stopped

  datatype Client = Client(room: string, queued: int, send: seq<Message>, writer: Writer, gone: bool)

  /** What the holder of the server lock is doing. */
  datatype Lock =
    | Free
    | Relaying(raw: Message, todo: set<nat>)
    | ChargedClient(raw: Message, todo: set<nat>, c: nat)
    | ChargedBoth(raw: Message, todo: set<nat>, c: nat)
    | RefundBoth(raw: Message, todo: set<nat>, c: nat)
    | RefundClient(raw: Message, todo: set<nat>, c: nat)
    | Draining(c: nat)
    | DrainHolding(c: nat, raw: Message)
    | DrainHalfReleased(c: nat, raw: Message)

  datatype State = State(
    clients: seq<Client>,
    rooms: map<string, set<nat>>,
    total: int,
    lock: Lock,
    dropped: nat,
    maxPerRoom: int,
    offered: nat,     // tallies of the model only: reservations begun,
    accepted: nat)    // and messages that went into a channel

  datatype Action =
    | Join(room: string)
    | Receive(sender: nat, raw: Message)
    | Enqueue(c: nat)     // the lock holder turns to the next room member
    | Advance             // the lock holder's next atomic operation
    | Leave(c: nat)
    | Take(c: nat)
    | ReleaseClient(c: nat)
    | ReleaseTotal(c: nat, writeFailed: bool)
    | StopWriter(c: nat)

  function Initial(maxPerRoom: int): State {
    State([], map[], 0, Free, 0, maxPerRoom, 0, 0)
  }

  // ----- The steps

  function Charge(s: State, c: nat, amount: int): State
    requires c < |s.clients|
  {
    s.(clients := s.clients[c := s.clients[c].(queued := s.clients[c].queued + amount)])
  }

  /** A full room turns the newcomer away. */
  function JoinStep(s: State, room: string): State {
    var members := if room in s.rooms then s.rooms[room] else {};
    if |members| >= s.maxPerRoom then
      s.(rooms := s.rooms[room := members])
    else
      s.(clients := s.clients + [Client(room, 0, [], Waiting, false)],
         rooms := s.rooms[room := members + {|s.clients|}])
  }

  function LeaveStep(s: State, c: nat): State
    requires c < |s.clients|
  {
    var room := s.clients[c].room;
    var rooms :=
      if room !in s.rooms then s.rooms
      else if s.rooms[room] - {c} == {} then s.rooms - {room}
      else s.rooms[room := s.rooms[room] - {c}];
    s.(clients := s.clients[c := s.clients[c].(gone := true)], rooms := rooms, lock := Draining(c))
  }

  /** Add first, compare the sum that came back. */
  function EnqueueStep(s: State, c: nat): State
    requires s.lock.Relaying? && c < |s.clients|
  {
    var size := |s.lock.raw|;
    var charged := Charge(s, c, size).(offered := s.offered + 1);
    if charged.clients[c].queued > MaxQueuedBytesPerClient
    then charged.(lock := RefundClient(s.lock.raw, s.lock.todo, c))
    else charged.(lock := ChargedClient(s.lock.raw, s.lock.todo, c))
  }

  predicate LockInRange(s: State) {
    LockedClient(s.lock).Some? ==> LockedClient(s.lock).value < |s.clients|
  }

  function AdvanceStep(s: State): State
    requires LockInRange(s)
  {
    match s.lock
    case Free => s
    case Relaying(raw, todo) => if todo == {} then s.(lock := Free) else s
    case ChargedClient(raw, todo, c) =>
      var total := s.total + |raw|;
      s.(total := total, lock := if total > MaxQueuedBytesTotal then RefundBoth(raw, todo, c) else ChargedBoth(raw,
          todo, c))
    case ChargedBoth(raw, todo, c) =>
      if |s.clients[c].send| < SendQueueSlots then
        s.(clients := s.clients[c := s.clients[c].(send := s.clients[c].send + [raw])],
           lock := Relaying(raw, todo - {c}), accepted := s.accepted + 1)
      else
        s.(lock := RefundBoth(raw, todo, c))
    case RefundBoth(raw, todo, c) =>
      s.(total := s.total - |raw|, lock := RefundClient(raw, todo, c))
    case RefundClient(raw, todo, c) =>
      Charge(s, c, -|raw|).(lock := Relaying(raw, todo - {c}), dropped := s.dropped + 1)
    case Draining(c) =>
      if s.clients[c].send == [] then s.(lock := Free)
      else s.(clients := s.clients[c := s.clients[c].(send := s.clients[c].send[1..])],
              lock := DrainHolding(c, s.clients[c].send[0]))
    case DrainHolding(c, raw) =>
      Charge(s, c, -|raw|).(lock := DrainHalfReleased(c, raw))
    case DrainHalfReleased(c, raw) =>
      s.(total := s.total - |raw|, lock := Draining(c))
  }

  /** A reservation is being made or taken back. */
  predicate Reserving(lock: Lock) {
    lock.ChargedClient? || lock.ChargedBoth? || lock.RefundBoth? || lock.RefundClient?
  }

  function LockedClient(lock: Lock): Option<nat> {
    match lock
    case Free => None
    case Relaying(_, _) => None
    case ChargedClient(_, _, c) => Some(c)
    case ChargedBoth(_, _, c) => Some(c)
    case RefundBoth(_, _, c) => Some(c)
    case RefundClient(_, _, c) => Some(c)
    case Draining(c) => Some(c)
    case DrainHolding(c, _) => Some(c)
    case DrainHalfReleased(c, _) => Some(c)
  }

  function WriterStep(s: State, c: nat, a: Action): State
    requires c < |s.clients|
  {
    var me := s.clients[c];
    match (a, me.writer)
    case (Take(_), Waiting) =>
      if me.send == [] then s
      else s.(clients := s.clients[c := me.(send := me.send[1..], writer := Holding(me.send[0]))])
    case (ReleaseClient(_), Holding(raw)) =>
      s.(clients := s.clients[c := me.(queued := me.queued - |raw|, writer := HalfReleased(raw))])
    case (ReleaseTotal(_, writeFailed), HalfReleased(raw)) =>
      s.(total := s.total - |raw|, clients := s.clients[c := me.(writer := if writeFailed then Stopped else Waiting)])
    case (StopWriter(_), Waiting) =>
      s.(clients := s.clients[c := me.(writer := Stopped)])
    case _ => s
  }

  /** One atomic step; an action that is not possible leaves the state as it is. */
  function Step(s: State, a: Action): State
    requires LockInRange(s)
  {
    match a
    case Join(room) => if s.lock.Free? then JoinStep(s, room) else s
    case Receive(sender, raw) =>
      if s.lock.Free? && sender < |s.clients| && !s.clients[sender].gone then
        var room := s.clients[sender].room;
        s.(lock := Relaying(raw, (if room in s.rooms then s.rooms[room] else {}) - {sender}))
      else s
    case Enqueue(c) =>
      if s.lock.Relaying? && c in s.lock.todo && c < |s.clients| then EnqueueStep(s, c) else s
    case Advance => AdvanceStep(s)
    case Leave(c) =>
      if s.lock.Free? && c < |s.clients| && !s.clients[c].gone then LeaveStep(s, c) else s
    case Take(c) => if c < |s.clients| then WriterStep(s, c, a) else s
    case ReleaseClient(c) => if c < |s.clients| then WriterStep(s, c, a) else s
    case ReleaseTotal(c, _) => if c < |s.clients| then WriterStep(s, c, a) else s
    case StopWriter(c) => if c < |s.clients| then WriterStep(s, c, a) else s
  }

  // ----- Accounting

  function Bytes(send: seq<Message>): nat {
    if send == [] then 0 else |send[0]| + Bytes(send[1..])
  }

  lemma {:induction false} BytesAppend(send: seq<Message>, raw: Message)
    ensures Bytes(send + [raw]) == Bytes(send) + |raw|
  {
    if send == [] {
      assert ([raw] + [])[1..] == [];
      assert send + [raw] == [raw];
    } else {
      BytesAppend(send[1..], raw);
      assert (send + [raw])[1..] == send[1..] + [raw];
    }
  }

  /** Bytes the writer has taken and not yet given back to its client's counter. */
  function HeldForClient(w: Writer): nat {
    if w.Holding? then |w.raw| else 0
  }

  function HeldForTotal(w: Writer): nat {
    if w.Holding? || w.HalfReleased? then |w.raw| else 0
  }

  /** What a client accounts for in the global counter. */
  function Accounted(c: Client): nat {
    Bytes(c.send) + HeldForTotal(c.writer)
  }

  function Sum(clients: seq<Client>): nat {
    if clients == [] then 0 else Sum(clients[..|clients| - 1]) + Accounted(clients[|clients| - 1])
  }

  lemma {:induction false} SumUpdate(clients: seq<Client>, c: nat, me: Client)
    requires c < |clients|
    ensures Sum(clients[c := me]) == Sum(clients) - Accounted(clients[c]) + Accounted(me)
  {
    var last := |clients| - 1;
    if c == last {
      assert clients[c := me][..last] == clients[..last];
    } else {
      SumUpdate(clients[..last], c, me);
      assert clients[c := me][..last] == clients[..last][c := me];
    }
  }

  lemma SumAppend(clients: seq<Client>, me: Client)
    ensures Sum(clients + [me]) == Sum(clients) + Accounted(me)
  {
    assert (clients + [me])[..|clients|] == clients;
  }

  /** The lock holder's pending reservation against client c's counter. */
  function PendingForClient(lock: Lock, c: nat): nat {
    match lock
    case ChargedClient(raw, _, d) => if c == d then |raw| else 0
    case ChargedBoth(raw, _, d) => if c == d then |raw| else 0
    case RefundBoth(raw, _, d) => if c == d then |raw| else 0
    case RefundClient(raw, _, d) => if c == d then |raw| else 0
    case DrainHolding(d, raw) => if c == d then |raw| else 0
    case _ => 0
  }

  function PendingForTotal(lock: Lock): nat {
    match lock
    case ChargedBoth(raw, _, _) => |raw|
    case RefundBoth(raw, _, _) => |raw|
    case DrainHolding(_, raw) => |raw|
    case DrainHalfReleased(_, raw) => |raw|
    case _ => 0
  }

  /** A client's counter: its queue, what its writer holds, what the lock holder has reserved. */
  ghost predicate ClientExact(s: State, c: nat)
    requires c < |s.clients|
  {
    s.clients[c].queued == Bytes(s.clients[c].send) + HeldForClient(s.clients[c].writer) + PendingForClient(s.lock, c)
  }

  ghost predicate CountersExact(s: State) {
    && (forall c :: 0 <= c < |s.clients| ==> ClientExact(s, c))
    && s.total == Sum(s.clients) + PendingForTotal(s.lock)
  }

  /** A reservation that passed the client's test. */
  function PassedForClient(lock: Lock, c: nat): nat {
    match lock
    case ChargedClient(raw, _, d) => if c == d then |raw| else 0
    case ChargedBoth(raw, _, d) => if c == d then |raw| else 0
    case _ => 0
  }

  function PassedForTotal(lock: Lock): nat {
    match lock
    case ChargedBoth(raw, _, _) => |raw|
    case _ => 0
  }

  /** A reservation that passed its test still fits, since others can only give bytes back. */
  ghost predicate ClientWithin(s: State, c: nat)
    requires c < |s.clients|
  {
    && |s.clients[c].send| <= SendQueueSlots
    && Bytes(s.clients[c].send) + HeldForClient(s.clients[c].writer) + PassedForClient(s.lock, c) <=
        MaxQueuedBytesPerClient
  }

  ghost predicate WithinBudgets(s: State) {
    && (forall c :: 0 <= c < |s.clients| ==> ClientWithin(s, c))
    && Sum(s.clients) + PassedForTotal(s.lock) <= MaxQueuedBytesTotal
  }

  ghost predicate Member(s: State, r: string, c: nat) {
    r in s.rooms && c in s.rooms[r]
  }

  ghost predicate RoomsExact(s: State) {
    && (forall r, c: nat :: Member(s, r, c) ==> c < |s.clients| && !s.clients[c].gone && s.clients[c].room == r)
    && (forall c :: 0 <= c < |s.clients| && !s.clients[c].gone ==> Member(s, s.clients[c].room, c))
    && (forall r :: r in s.rooms ==> s.rooms[r] != {} && |s.rooms[r]| <= s.maxPerRoom)
  }

  /** The lock holder only touches present members, or drains a client that has left. */
  ghost predicate LockSound(s: State) {
    match s.lock
    case Free => true
    case Relaying(_, todo) => TodoSound(s, todo)
    case ChargedClient(_, todo, c) => TodoSound(s, todo) && c in todo
    case ChargedBoth(_, todo, c) => TodoSound(s, todo) && c in todo
    case RefundBoth(_, todo, c) => TodoSound(s, todo) && c in todo
    case RefundClient(_, todo, c) => TodoSound(s, todo) && c in todo
    case Draining(c) => c < |s.clients| && s.clients[c].gone
    case DrainHolding(c, _) => c < |s.clients| && s.clients[c].gone
    case DrainHalfReleased(c, _) => c < |s.clients| && s.clients[c].gone
  }

  ghost predicate TodoSound(s: State, todo: set<nat>) {
    forall c :: c in todo ==> c < |s.clients| && !s.clients[c].gone
  }

  /** A client that left has an empty channel, unless it is being drained right now. */
  ghost predicate GoneIsEmpty(s: State) {
    forall c :: 0 <= c < |s.clients| && s.clients[c].gone && s.clients[c].send != [] ==>
      LockedClient(s.lock) == Some(c)
  }

  /** Nothing is lost uncounted: what was offered went into a channel, was counted as dropped, or is in hand. */
  ghost predicate TalliesExact(s: State) {
    s.offered == s.accepted + s.dropped + InHand(s.lock)
  }

  function InHand(lock: Lock): nat {
    if Reserving(lock) then 1 else 0
  }

  ghost predicate Inv(s: State) {
    && s.maxPerRoom >= 1 && TalliesExact(s)
    && CountersExact(s) && WithinBudgets(s) && RoomsExact(s) && LockSound(s) && GoneIsEmpty(s)
  }

  // ----- Every step keeps the invariant

  lemma InitialInv(maxPerRoom: int)
    requires maxPerRoom >= 1
    ensures Inv(Initial(maxPerRoom))
  {
  }

  lemma JoinRooms(s: State, room: string)
    requires RoomsExact(s) && s.maxPerRoom >= 1
    ensures RoomsExact(JoinStep(s, room))
  {
    var t := JoinStep(s, room);
    var members := if room in s.rooms then s.rooms[room] else {};
    var newcomer := |s.clients|;
    forall r, c: nat | Member(t, r, c) ensures c < |t.clients| && !t.clients[c].gone && t.clients[c].room == r {
      assert Member(s, r, c) || (r == room && c == newcomer);
    }
    forall c | 0 <= c < |t.clients| && !t.clients[c].gone ensures Member(t, t.clients[c].room, c) {
      if c < newcomer {
        assert Member(s, s.clients[c].room, c);
      }
    }
    assert |members| < s.maxPerRoom ==> |members + {newcomer}| <= s.maxPerRoom;
  }

  lemma JoinInv(s: State, room: string)
    requires Inv(s) && s.lock.Free?
    ensures Inv(JoinStep(s, room))
  {
    JoinRooms(s, room);
    var newcomer := Client(room, 0, [], Waiting, false);
    assert Accounted(newcomer) == 0 && Bytes(newcomer.send) == 0;
    SumAppend(s.clients, newcomer);
    hide RoomsExact, Bytes, Sum;
    var t := JoinStep(s, room);
    forall c | 0 <= c < |t.clients| ensures ClientExact(t, c) && ClientWithin(t, c) {
      if c < |s.clients| {
        assert ClientExact(s, c) && ClientWithin(s, c);
      }
    }
  }

  lemma LeaveRooms(s: State, c: nat)
    requires RoomsExact(s) && c < |s.clients| && !s.clients[c].gone
    ensures RoomsExact(LeaveStep(s, c))
  {
    var t := LeaveStep(s, c);
    var room := s.clients[c].room;
    assert Member(s, room, c);
    forall r, d: nat | Member(t, r, d) ensures d < |t.clients| && !t.clients[d].gone && t.clients[d].room == r {
      assert Member(s, r, d) && d != c;
    }
    forall d | 0 <= d < |t.clients| && !t.clients[d].gone ensures Member(t, t.clients[d].room, d) {
      assert Member(s, s.clients[d].room, d);
      assert d in s.rooms[s.clients[d].room] - {c};
    }
    assert |s.rooms[room] - {c}| <= |s.rooms[room]|;
  }

  lemma LeaveInv(s: State, c: nat)
    requires Inv(s) && s.lock.Free? && c < |s.clients| && !s.clients[c].gone
    ensures Inv(LeaveStep(s, c))
  {
    var t := LeaveStep(s, c);
    LeaveRooms(s, c);
    SumUpdate(s.clients, c, t.clients[c]);
    hide RoomsExact, Bytes, Sum;
    forall d | 0 <= d < |t.clients| ensures ClientExact(t, d) && ClientWithin(t, d) {
      assert ClientExact(s, d) && ClientWithin(s, d);
    }
  }

  lemma ReceiveInv(s: State, sender: nat, raw: Message)
    requires Inv(s) && s.lock.Free? && sender < |s.clients| && !s.clients[sender].gone
    ensures Inv(Step(s, Receive(sender, raw)))
  {
    hide Bytes, Sum;
    var t := Step(s, Receive(sender, raw));
    var room := s.clients[sender].room;
    forall c | c in t.lock.todo ensures c < |s.clients| && !s.clients[c].gone {
      assert Member(s, room, c);
    }
    SameClientsInv(s, t);
  }

  /** Only the lock moved, between states that reserve nothing. */
  lemma SameClientsInv(s: State, t: State)
    requires Inv(s) && TalliesExact(t) && t.clients == s.clients && t.rooms == s.rooms &&
        t.maxPerRoom == s.maxPerRoom && t.total == s.total
    requires LockedClient(s.lock).None? && LockedClient(t.lock).None? && LockSound(t)
    ensures Inv(t)
  {
    hide Bytes, Sum;
    forall c | 0 <= c < |t.clients| ensures ClientExact(t, c) && ClientWithin(t, c) {
      assert ClientExact(s, c) && ClientWithin(s, c);
    }
    SameRooms(s, t);
  }

  /** Rooms only look at where clients are and whether they have left. */
  lemma SameRooms(s: State, t: State)
    requires RoomsExact(s) && t.rooms == s.rooms && t.maxPerRoom == s.maxPerRoom && |t.clients| == |s.clients|
    requires forall c :: 0 <= c < |s.clients| ==>
        t.clients[c].room == s.clients[c].room && t.clients[c].gone == s.clients[c].gone
    ensures RoomsExact(t)
  {
    forall r, c: nat | Member(t, r, c) ensures c < |t.clients| && !t.clients[c].gone && t.clients[c].room == r {
      assert Member(s, r, c);
    }
    forall c | 0 <= c < |t.clients| && !t.clients[c].gone ensures Member(t, t.clients[c].room, c) {
      assert Member(s, s.clients[c].room, c);
    }
  }

  /**
   The whole accounting of a step that touches at most one client: its own figures, the global ones,
   and that nobody else's reservation changed.
   */
  lemma OneClientInv(s: State, t: State, c: nat)
    requires Inv(s) && c < |s.clients| && |t.clients| == |s.clients|
    requires t.rooms == s.rooms && t.maxPerRoom == s.maxPerRoom
    requires t.clients == s.clients[c := t.clients[c]]
    requires t.clients[c].room == s.clients[c].room && t.clients[c].gone == s.clients[c].gone
    requires forall d: nat :: d != c ==>
      PendingForClient(t.lock, d) == PendingForClient(s.lock, d) &&
          PassedForClient(t.lock, d) <= PassedForClient(s.lock, d)
    requires TalliesExact(t) && ClientExact(t, c) && ClientWithin(t, c) && LockSound(t) && GoneIsEmpty(t)
    requires
      var change := Accounted(t.clients[c]) - Accounted(s.clients[c]);
      && t.total - s.total == change + PendingForTotal(t.lock) - PendingForTotal(s.lock)
      && (change + PassedForTotal(t.lock) <= PassedForTotal(s.lock) || t.total <= MaxQueuedBytesTotal)
    ensures Inv(t)
  {
    SumUpdate(s.clients, c, t.clients[c]);
    SameRooms(s, t);
    hide Bytes, Sum, RoomsExact, LockSound, GoneIsEmpty, Accounted;
    forall d | 0 <= d < |t.clients| ensures ClientExact(t, d) && ClientWithin(t, d) {
      if d != c {
        assert ClientExact(s, d) && ClientWithin(s, d);
      }
    }
    assert PassedForTotal(t.lock) <= PendingForTotal(t.lock);
  }

  lemma EnqueueInv(s: State, c: nat)
    requires Inv(s) && s.lock.Relaying? && c in s.lock.todo
    ensures Inv(EnqueueStep(s, c))
  {
    hide Bytes, Sum, RoomsExact;
    assert ClientExact(s, c) && ClientWithin(s, c);
    OneClientInv(s, EnqueueStep(s, c), c);
  }

  lemma BytesHead(send: seq<Message>)
    requires send != []
    ensures Bytes(send) == |send[0]| + Bytes(send[1..])
  {
  }

  lemma AdvanceInv(s: State)
    requires Inv(s)
    ensures Inv(AdvanceStep(s))
  {
    hide Bytes, Sum, RoomsExact;
    var t := AdvanceStep(s);
    if s.lock.Free? || s.lock.Relaying? {
      if t != s {
        SameClientsInv(s, t);
      }
    } else {
      var c := LockedClient(s.lock).value;
      assert ClientExact(s, c) && ClientWithin(s, c);
      if s.lock.ChargedBoth? {
        BytesAppend(s.clients[c].send, s.lock.raw);
      } else if s.lock.Draining? && s.clients[c].send != [] {
        BytesHead(s.clients[c].send);
      }
      assert t.clients == s.clients[c := t.clients[c]];
      OneClientInv(s, t, c);
    }
  }

  lemma WriterInv(s: State, c: nat, a: Action)
    requires Inv(s) && c < |s.clients|
    ensures Inv(WriterStep(s, c, a))
  {
    hide Bytes, Sum, RoomsExact;
    var t := WriterStep(s, c, a);
    if t != s {
      assert ClientExact(s, c) && ClientWithin(s, c);
      if s.clients[c].send != [] {
        BytesHead(s.clients[c].send);
      }
      OneClientInv(s, t, c);
    }
  }

  lemma StepInv(s: State, a: Action)
    requires Inv(s)
    ensures Inv(Step(s, a))
  {
    hide Bytes, Sum, CountersExact, WithinBudgets, RoomsExact, GoneIsEmpty, JoinStep, LeaveStep, EnqueueStep,
        AdvanceStep, WriterStep;
    match a {
      case Join(room) =>
        if s.lock.Free? {
          JoinInv(s, room);
        }
      case Receive(sender, raw) =>
        if s.lock.Free? && sender < |s.clients| && !s.clients[sender].gone {
          ReceiveInv(s, sender, raw);
        }
      case Enqueue(c) =>
        if s.lock.Relaying? && c in s.lock.todo {
          EnqueueInv(s, c);
        }
      case Advance => AdvanceInv(s);
      case Leave(c) =>
        if s.lock.Free? && c < |s.clients| && !s.clients[c].gone {
          LeaveInv(s, c);
        }
      case Take(c) =>
        if c < |s.clients| {
          WriterInv(s, c, a);
        }
      case ReleaseClient(c) =>
        if c < |s.clients| {
          WriterInv(s, c, a);
        }
      case ReleaseTotal(c, _) =>
        if c < |s.clients| {
          WriterInv(s, c, a);
        }
      case StopWriter(c) =>
        if c < |s.clients| {
          WriterInv(s, c, a);
        }
    }
  }

  // ----- What holds in every run

  ghost function Run(maxPerRoom: int, actions: seq<Action>): (s: State)
    requires maxPerRoom >= 1
    ensures Inv(s)
  {
    if actions == [] then
      InitialInv(maxPerRoom);
      Initial(maxPerRoom)
    else
      var before := Run(maxPerRoom, actions[..|actions| - 1]);
      StepInv(before, actions[|actions| - 1]);
      Step(before, actions[|actions| - 1])
  }

  /** What a client has in its channel and in its writer's hands. */
  function Buffered(c: Client): nat {
    Bytes(c.send) + HeldForClient(c.writer)
  }

  /**
   Under all interleavings: no client ever has more than its budget buffered nor more messages than
   its channel has slots, all of them together stay within the global budget, and no room exceeds
   its size. The counters themselves run above the truth by exactly the reservation in progress.
   */
  lemma BudgetsHold(maxPerRoom: int, actions: seq<Action>, c: nat)
    requires maxPerRoom >= 1 && c < |Run(maxPerRoom, actions).clients|
    ensures
      var s := Run(maxPerRoom, actions);
      && Buffered(s.clients[c]) <= 33_554_432 && |s.clients[c].send| <= 64
      && Sum(s.clients) <= 268_435_456
      && s.clients[c].queued == Buffered(s.clients[c]) + PendingForClient(s.lock, c)
      && s.total == Sum(s.clients) + PendingForTotal(s.lock)
    ensures forall r :: r in Run(maxPerRoom, actions).rooms ==> |Run(maxPerRoom, actions).rooms[r]| <= maxPerRoom
  {
    hide Bytes, Sum;
    var s := Run(maxPerRoom, actions);
    assert ClientExact(s, c) && ClientWithin(s, c);
    RunKeepsRoomSize(maxPerRoom, actions);
  }

  lemma {:induction false} RunKeepsRoomSize(maxPerRoom: int, actions: seq<Action>)
    requires maxPerRoom >= 1
    ensures Run(maxPerRoom, actions).maxPerRoom == maxPerRoom
  {
    if actions != [] {
      hide Inv;
      RunKeepsRoomSize(maxPerRoom, actions[..|actions| - 1]);
      StepKeepsRoomSize(Run(maxPerRoom, actions[..|actions| - 1]), actions[|actions| - 1]);
      hide Step;
    }
  }

  lemma StepKeepsRoomSize(s: State, a: Action)
    requires LockInRange(s)
    ensures Step(s, a).maxPerRoom == s.maxPerRoom
  {
  }

  lemma {:induction false} SumOfIdle(clients: seq<Client>)
    requires forall c :: 0 <= c < |clients| ==> Accounted(clients[c]) == 0
    ensures Sum(clients) == 0
  {
    if clients != [] {
      SumOfIdle(clients[..|clients| - 1]);
    }
  }

  /** Once everyone has left and the writers have given back what they held, nothing is still charged. */
  lemma NothingLeaks(maxPerRoom: int, actions: seq<Action>)
    requires maxPerRoom >= 1
    requires
      var s := Run(maxPerRoom, actions);
      s.lock.Free? && forall c :: 0 <= c < |s.clients| ==>
        s.clients[c].gone && (s.clients[c].writer.Waiting? || s.clients[c].writer.Stopped?)
    ensures
      var s := Run(maxPerRoom, actions);
      && s.total == 0 && s.rooms == map[] && s.offered == s.accepted + s.dropped
      && forall c :: 0 <= c < |s.clients| ==> s.clients[c].queued == 0
  {
    hide Run;
    var s := Run(maxPerRoom, actions);
    forall c | 0 <= c < |s.clients| ensures s.clients[c].queued == 0 && Accounted(s.clients[c]) == 0 {
      assert ClientExact(s, c);
    }
    SumOfIdle(s.clients);
    if s.rooms != map[] {
      var r :| r in s.rooms;
      var c: nat :| c in s.rooms[r];
      MemberIsPresent(s, r, c);
    }
  }

  lemma MemberIsPresent(s: State, r: string, c: nat)
    requires RoomsExact(s) && r in s.rooms && c in s.rooms[r]
    ensures c < |s.clients| && !s.clients[c].gone
  {
    assert Member(s, r, c);
  }

  // ----- The critical section is short

  /** Atomic operations the lock holder has left, whatever the writers do meanwhile. */
  function LockWork(s: State): nat
    requires LockInRange(s)
    requires Reserving(s.lock) ==> s.lock.c in s.lock.todo
  {
    match s.lock
    case Free => 0
    case Relaying(_, todo) => 5 * |todo| + 1
    case ChargedClient(_, todo, _) => 5 * |todo|
    case ChargedBoth(_, todo, c) => assert |todo - {c}| + 1 == |todo|; 5 * |todo| - 1
    case RefundBoth(_, todo, c) => assert |todo - {c}| + 1 == |todo|; 5 * |todo| - 2
    case RefundClient(_, todo, c) => assert |todo - {c}| + 1 == |todo|; 5 * |todo| - 3
    case Draining(c) => 3 * |s.clients[c].send| + 1
    case DrainHolding(c, _) => 3 * |s.clients[c].send| + 3
    case DrainHalfReleased(c, _) => 3 * |s.clients[c].send| + 2
  }

  /** The holder of the lock can always go on, every operation of its brings the release nearer. */
  lemma LockHolderNeverBlocks(s: State) returns (a: Action)
    requires Inv(s) && !s.lock.Free?
    ensures a.Enqueue? || a.Advance?
    ensures Inv(Step(s, a)) && LockWork(Step(s, a)) < LockWork(s)
  {
    if s.lock.Relaying? && s.lock.todo != {} {
      var c :| c in s.lock.todo;
      a := Enqueue(c);
    } else {
      a := Advance;
    }
    hide CountersExact, WithinBudgets, RoomsExact, GoneIsEmpty, TalliesExact, TodoSound;
    StepInv(s, a);
    if s.lock.Relaying? && s.lock.todo != {} {
      EnqueueProgress(s, a.c);
    } else {
      AdvanceProgress(s);
    }
  }

  lemma EnqueueProgress(s: State, c: nat)
    requires s.lock.Relaying? && c in s.lock.todo && c < |s.clients|
    ensures LockWork(EnqueueStep(s, c)) < LockWork(s)
  {
    assert |s.lock.todo - {c}| + 1 == |s.lock.todo|;
  }

  lemma AdvanceProgress(s: State)
    requires !s.lock.Free? && (s.lock.Relaying? ==> s.lock.todo == {})
    requires LockInRange(s)
    requires Reserving(s.lock) ==> s.lock.c in s.lock.todo
    ensures
      var t := AdvanceStep(s);
      && |t.clients| == |s.clients|
      && (LockedClient(t.lock) == LockedClient(s.lock) || LockedClient(t.lock).None?)
      && (Reserving(t.lock) ==> t.lock.c in t.lock.todo)
      && LockWork(t) < LockWork(s)
  {
    match s.lock {
      case ChargedBoth(_, todo, c) => assert |todo - {c}| + 1 == |todo|;
      case RefundClient(_, todo, c) => assert |todo - {c}| + 1 == |todo|;
      case _ =>
    }
  }

  /** And no writer can push the release further away. */
  lemma WritersDoNotDelay(s: State, a: Action)
    requires Inv(s) && (a.Take? || a.ReleaseClient? || a.ReleaseTotal? || a.StopWriter?)
    ensures Inv(Step(s, a)) && LockWork(Step(s, a)) <= LockWork(s)
  {
    StepInv(s, a);
    hide CountersExact, WithinBudgets, RoomsExact, GoneIsEmpty, Bytes, Sum;
  }

  // ----- The client's own methods

  /** Room for `size` more bytes in both budgets, 32 and 256 MiB, and one of the 64 slots free. */
  predicate Fits(queued: int, total: int, slotsUsed: nat, size: nat) {
    queued + size <= 33_554_432 && total + size <= 268_435_456 && slotsUsed < 64
  }

  class RelayServer {
    var totalQueued: int

    constructor ()
      ensures totalQueued == 0
    {
      totalQueued := 0;
    }
  }

  class RelayClient {
    const srv: RelayServer
    var queued: int
    var send: seq<Message>

    constructor (srv: RelayServer)
      ensures this.srv == srv && queued == 0 && send == []
    {
      this.srv, queued, send := srv, 0, [];
    }

    /** Undisturbed: the message is appended and charged to both counters, or nothing changes. */
    method Enqueue(raw: Message) returns (ok: bool)
      modifies this, srv
      ensures ok <==> Fits(old(queued), old(srv.totalQueued), |old(send)|, |raw|)
      ensures send == if ok then old(send) + [raw] else old(send)
      ensures queued == old(queued) + if ok then |raw| else 0
      ensures srv.totalQueued == old(srv.totalQueued) + if ok then |raw| else 0
    {
      var size := |raw|;
      queued := queued + size;
      if queued > MaxQueuedBytesPerClient {
        queued := queued - size;
        return false;
      }
      srv.totalQueued := srv.totalQueued + size;
      if srv.totalQueued > MaxQueuedBytesTotal {
        srv.totalQueued := srv.totalQueued - size;
        queued := queued - size;
        return false;
      }
      if |send| < SendQueueSlots {
        send := send + [raw];
        return true;
      }
      srv.totalQueued := srv.totalQueued - size;
      queued := queued - size;
      ok := false;
    }

    method Release(raw: Message)
      modifies this`queued, srv
      ensures queued == old(queued) - |raw| && srv.totalQueued == old(srv.totalQueued) - |raw|
    {
      queued := queued - |raw|;
      srv.totalQueued := srv.totalQueued - |raw|;
    }

    /** Everything still queued goes back to both counters. */
    method Drain()
      modifies this, srv
      ensures send == []
      ensures queued == old(queued) - Bytes(old(send))
      ensures srv.totalQueued == old(srv.totalQueued) - Bytes(old(send))
    {
      while send != []
        invariant queued - Bytes(send) == old(queued) - Bytes(old(send))
        invariant srv.totalQueued - Bytes(send) == old(srv.totalQueued) - Bytes(old(send))
        decreases |send|
      {
        var raw := send[0];
        send := send[1..];
        Release(raw);
      }
    }
  }

  /** The lock holder going on by itself until it is done with the client in hand. */
  function Finish(s: State): State
    requires LockInRange(s)
    requires Reserving(s.lock) ==> s.lock.c in s.lock.todo
    decreases LockWork(s)
  {
    if Reserving(s.lock) then
      AdvanceProgress(s);
      Finish(AdvanceStep(s))
    else s
  }

  /** Run without interference, the atomic operations of one reservation do what Enqueue says. */
  lemma UninterruptedEnqueue(s: State, c: nat)
    requires s.lock.Relaying? && c in s.lock.todo && c < |s.clients|
    ensures
      var me, size := s.clients[c], |s.lock.raw|;
      var ok := Fits(me.queued, s.total, |me.send|, size);
      Finish(EnqueueStep(s, c)) == s.(
        clients := s.clients[c := if ok then me.(queued := me.queued + size, send := me.send + [s.lock.raw]) else me],
        total := s.total + (if ok then size else 0),
        lock := Relaying(s.lock.raw, s.lock.todo - {c}),
        dropped := s.dropped + (if ok then 0 else 1),
        offered := s.offered + 1,
        accepted := s.accepted + (if ok then 1 else 0))
  {
    var s1 := EnqueueStep(s, c);
    FinishOnce(s1);
    var s2 := AdvanceStep(s1);
    if Reserving(s2.lock) {
      FinishOnce(s2);
      var s3 := AdvanceStep(s2);
      if Reserving(s3.lock) {
        FinishOnce(s3);
        var s4 := AdvanceStep(s3);
        if Reserving(s4.lock) {
          FinishOnce(s4);
        }
      }
    }
    assert s.clients[c := s.clients[c]] == s.clients;
  }

  lemma FinishOnce(s: State)
    requires LockInRange(s) && Reserving(s.lock) && s.lock.c in s.lock.todo
    ensures
      var t := AdvanceStep(s);
      && LockInRange(t) && (Reserving(t.lock) ==> t.lock.c in t.lock.todo)
      && Finish(s) == Finish(t)
      && (!Reserving(t.lock) ==> Finish(t) == t)
  {
    AdvanceProgress(s);
  }
}
