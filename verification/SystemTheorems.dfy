/** What holds at every moment of every run of the coordinator. */
module SystemTheorems {
  import opened Basics
  import opened RoomModel
  import opened RoomInvariants
  import opened StoreModel
  import opened StoreInvariants
  import opened TicketModel
  import opened SystemModel
  import opened SystemInvariants
  import opened SystemRuns
  import Ipam
  import RelayRoute

  /** One event, seen from one room: its one operation, within that operation's footprint. */
  lemma RoomStep(y: SystemState, e: Event, room: Id)
    requires SysInv(y) && Fair(y, e) && room in y.store.rooms && room in Step(y, e).store.rooms
    ensures var r, r', op := y.store.rooms[room], Step(y, e).store.rooms[room], OpOn(y, e, room);
            && r' == Apply(r, op) && Named(op) && Timed(op, e.now) && Within(r, r', FootprintOf(r, op))
  {
    StepKeeps(y, e);
    OpOnFits(y, e, room);
    ApplyKeeps(y.store.rooms[room], OpOn(y, e, room));
  }

  lemma {:induction false} RunKeeps(y: SystemState, events: seq<Event>)
    requires SysInv(y) && FairRun(y, events)
    ensures SysInv(Run(y, events))
    decreases |events|
  {
    if events != [] {
      StepKeeps(y, events[0]);
      RunKeeps(Step(y, events[0]), events[1..]);
    }
  }

  /** The coordinator's state after a run from its start. */
  ghost function After(clock: int, events: seq<Event>): SystemState
  {
    Run(Start(clock), events)
  }

  lemma Reached(clock: int, events: seq<Event>)
    requires FairRun(Start(clock), events)
    ensures SysInv(After(clock, events))
  {
    StartInv(clock);
    RunKeeps(Start(clock), events);
  }

  /** A run and one event more. */
  lemma {:induction false} RunGrows(y: SystemState, events: seq<Event>, e: Event)
    requires FairRun(y, events) && Fair(Run(y, events), e)
    ensures FairRun(y, events + [e]) && Run(y, events + [e]) == Step(Run(y, events), e)
    decreases |events|
  {
    var longer := events + [e];
    if events == [] {
      assert longer[1..] == [];
    } else {
      assert longer[1..] == events[1..] + [e];
      RunGrows(Step(y, events[0]), events[1..], e);
    }
  }

  /** A ticket the relay accepts, for a room that is still held, names somebody seated there and exactly the address
      they hold, inside that room's own block. */
  lemma TicketsAgreeWithSeats(clock: int, events: seq<Event>, tok: Id, now: int)
    requires FairRun(Start(clock), events)
    ensures var y := After(clock, events);
            var answer := Validate(y.tickets, tok, now);
            answer.Ok? && answer.value.room in y.store.rooms ==>
              var r := y.store.rooms[answer.value.room];
              && Seated(r, answer.value.player)
              && AddressIn(r, answer.value.player) == Some(answer.value.virtualIP)
              && Ipam.BlockOf(answer.value.virtualIP) == r.index
  {
    Reached(clock, events);
    var y := After(clock, events);
    if tok in y.tickets && y.tickets[tok].claims.room in y.store.rooms {
      var c := y.tickets[tok].claims;
      assert TicketOk(y.store, c);
      SeatedHaveBerths(y.store.rooms[c.room], c.player);
      AddressesAreDistinct(y.store, c.room, c.player, c.room, c.player);
    }
  }

  /** All seventeen seats of a room, players first. */
  function AllSeats(r: RoomState): seq<Id> {
    r.slots + r.observers + r.admins
  }

  predicate SitsAt(r: RoomState, i: nat, p: Id) {
    i < |AllSeats(r)| && AllSeats(r)[i] == p
  }

  /** Nobody is ever in two open rooms, nor in two seats of one room, nor without an address of their own. */
  lemma OnePersonOnePlace(clock: int, events: seq<Event>, p: Id, a: Id, b: Id, i: nat, j: nat)
    requires FairRun(Start(clock), events) && p != NOBODY
    ensures var s := After(clock, events).store;
            && (Holds(s, a, p) && Holds(s, b, p) ==> a == b)
            && (a in s.rooms && SitsAt(s.rooms[a], i, p) && SitsAt(s.rooms[a], j, p) ==> i == j)
            && (a in s.rooms ==> (Seated(s.rooms[a], p) <==> AddressIn(s.rooms[a], p).Some?))
  {
    Reached(clock, events);
    var s := After(clock, events).store;
    if a in s.rooms {
      SeatOnce(s.rooms[a], p, i, j);
      SeatedHaveBerths(s.rooms[a], p);
      if Seated(s.rooms[a], p) { AddressesAreDistinct(s, a, p, a, p); }
    }
  }

  lemma SeatOnce(r: RoomState, p: Id, i: nat, j: nat)
    requires RoomInv(r) && p != NOBODY
    ensures SitsAt(r, i, p) && SitsAt(r, j, p) ==> i == j
  {
    if SitsAt(r, i, p) {
      assert if i < 10 then p in r.slots else if i < 14 then p in r.observers else p in r.admins;
    }
    if SitsAt(r, j, p) {
      assert if j < 10 then p in r.slots else if j < 14 then p in r.observers else p in r.admins;
    }
  }

  /** The address pool never runs dry: whoever finds a free playing or watching seat, at any moment of any run,
      finds a free address too. */
  lemma PoolNeverRunsDry(clock: int, events: seq<Event>, room: Id)
    requires FairRun(Start(clock), events)
    ensures var s := After(clock, events).store;
            room in s.rooms && (NOBODY in s.rooms[room].slots || NOBODY in s.rooms[room].observers) ==>
              NOBODY in s.rooms[room].addr
  {
    Reached(clock, events);
    if room in After(clock, events).store.rooms {
      var r := After(clock, events).store.rooms[room];
      if NOBODY in r.slots || NOBODY in r.observers { AddressNeverRunsDry(r); }
    }
  }

  /** Every open room's host sits where the room says they do, and holds an address there. */
  lemma HostWhereTheRoomSays(clock: int, events: seq<Event>, room: Id)
    requires FairRun(Start(clock), events)
    ensures var s := After(clock, events).store;
            room in s.rooms && s.rooms[room].status != Closed ==>
              var r := s.rooms[room];
              var area := if r.hostWatching then r.observers else r.slots;
              0 <= r.hostSlot < |area| && area[r.hostSlot] == r.hostId && AddressIn(r, r.hostId).Some?
  {
    Reached(clock, events);
    var s := After(clock, events).store;
    if room in s.rooms && s.rooms[room].status != Closed {
      var r := s.rooms[room];
      assert r.hostId in if r.hostWatching then r.observers else r.slots;
      AddressesAreDistinct(s, room, r.hostId, room, r.hostId);
    }
  }

  /** Through every opening, closing and sweep the index map is the room map turned round. */
  lemma IndexesAreTheRoomsTurnedRound(clock: int, events: seq<Event>, room: Id, index: int)
    requires FairRun(Start(clock), events)
    ensures var s := After(clock, events).store;
            index in s.indexes && s.indexes[index] == room <==> room in s.rooms && s.rooms[room].index == index
    ensures var s := After(clock, events).store;
            index in s.indexes ==> 0 <= index < Ipam.MAX_ROOMS
  {
    Reached(clock, events);
  }

  /** Any two people in held rooms have different addresses, each in its own room's /27. */
  lemma AddressesNeverCollide(clock: int, events: seq<Event>, a: Id, p: Id, b: Id, q: Id)
    requires FairRun(Start(clock), events) && p != NOBODY && q != NOBODY
    ensures var s := After(clock, events).store;
            a in s.rooms && b in s.rooms && Seated(s.rooms[a], p) && Seated(s.rooms[b], q) ==>
              && (AddressIn(s.rooms[a], p) == AddressIn(s.rooms[b], q) <==> a == b && p == q)
              && AddressIn(s.rooms[a], p).Some? && Ipam.BlockOf(AddressIn(s.rooms[a], p).value) == s.rooms[a].index
  {
    Reached(clock, events);
    var s := After(clock, events).store;
    if a in s.rooms && b in s.rooms && Seated(s.rooms[a], p) && Seated(s.rooms[b], q) {
      AddressesAreDistinct(s, a, p, b, q);
    }
  }

  /** A packet from one person of a held room to another reaches exactly that other, and the relay refuses it, or
      fans it out, exactly when the destination holds the last place of the member pool. */
  lemma PacketsReachTheirPerson(clock: int, events: seq<Event>, room: Id, p: Id, q: Id, packet: seq<Byte>, fanout: bool)
    requires FairRun(Start(clock), events) && room in After(clock, events).store.rooms
    requires p != NOBODY && q != NOBODY
    requires Seated(After(clock, events).store.rooms[room], p) && Seated(After(clock, events).store.rooms[room], q)
    requires |packet| >= RelayRoute.IPV4_HEADER_LEN && packet[0] / 16 == 4
    requires AddressIn(After(clock, events).store.rooms[room], p) == Some(RelayRoute.AddressAt(packet, 12))
    requires AddressIn(After(clock, events).store.rooms[room], q) == Some(RelayRoute.AddressAt(packet, 16))
    ensures var r := After(clock, events).store.rooms[room];
            var verdict := RelayRoute.Decide(RelayRoute.Sender(AddressIn(r, p).value, room), packet, fanout);
            && (verdict == RelayRoute.Decision(RelayRoute.Forward, AddressIn(r, q)) <==>
                  BerthOf(r, q) != Some(Ipam.Member(13)))
            && (verdict.verdict == RelayRoute.Forward ==> verdict.dst == AddressIn(r, q))
  {
    Reached(clock, events);
    var r := After(clock, events).store.rooms[room];
    SeatedHaveBerths(r, q);
    RelayRoute.MemberToMember(RelayRoute.Sender(AddressIn(r, p).value, room), packet, fanout, r.index,
        BerthOf(r, q).value);
  }

  /** `p` is in the room before every event of the run and after the last. */
  ghost predicate StaysIn(y: SystemState, events: seq<Event>, room: Id, p: Id)
    decreases |events|
  {
    && room in y.store.rooms && Seated(y.store.rooms[room], p)
    && (events == [] || StaysIn(Step(y, events[0]), events[1..], room, p))
  }

  /** An address is for the whole stay: no move, no change of host, no turn of the timer changes it. */
  lemma {:induction false} AddressForTheWholeStay(y: SystemState, events: seq<Event>, room: Id, p: Id)
    requires SysInv(y) && FairRun(y, events) && p != NOBODY && StaysIn(y, events, room, p)
    ensures room in Run(y, events).store.rooms
    ensures AddressIn(Run(y, events).store.rooms[room], p) == AddressIn(y.store.rooms[room], p)
    decreases |events|
  {
    if events != [] {
      var e, after := events[0], Step(y, events[0]);
      StepKeeps(y, e);
      RoomStep(y, e, room);
      BerthStays(y.store.rooms[room], after.store.rooms[room], FootprintOf(y.store.rooms[room], OpOn(y, e, room)), p);
      AddressForTheWholeStay(after, events[1..], room, p);
    }
  }

  predicate KeepsRooms(s: StoreState, s': StoreState) {
    s'.issued == s.issued && s'.rooms.Keys == s.rooms.Keys
  }

  lemma OthersKeepRooms(y: SystemState, e: Event)
    requires !e.act.Create? && !e.act.ShutDown? && !e.act.Timer?
    ensures KeepsRooms(y.store, Step(y, e).store)
  {
    match e.act {
      case JoinAs(_, _, _) => AdmissionsKeepRooms(y, e);
      case Spectate(_, _, _) => AdmissionsKeepRooms(y, e);
      case Moderate(_, _, _) => AdmissionsKeepRooms(y, e);
      case Evict(_) =>
      case Depart(_, _) =>
      case KickOut(_, _, _) =>
      case _ => ControlsKeepRooms(y, e);
    }
  }

  lemma ControlsKeepRooms(y: SystemState, e: Event)
    requires e.act.Connect? || e.act.RenewLease? || e.act.Reseating? || e.act.Announce? || e.act.HandOver?
             || e.act.SetDoor? || e.act.Ask? || e.act.Withdraw?
    ensures KeepsRooms(y.store, Step(y, e).store)
  {
  }

  lemma AdmissionsKeepRooms(y: SystemState, e: Event)
    requires e.act.JoinAs? || e.act.Spectate? || e.act.Moderate?
    ensures KeepsRooms(y.store, Step(y, e).store)
  {
  }

  lemma DooredAddsNothing(made: SystemState, player: Id, id: Id, d: Door)
    requires id in made.store.rooms
    ensures var s' := Doored(made, player, id, d).store;
            s'.issued == made.store.issued && made.store.rooms.Keys - {id} <= s'.rooms.Keys <= made.store.rooms.Keys
  {
  }

  lemma CreateAddsAtMostOne(y: SystemState, player: Id, id: Id, tok: Id, door: Option<Door>)
    requires id !in y.store.rooms
    ensures var s' := CreateAct(y, player, id, tok, door).store;
            && y.store.issued <= s'.issued <= y.store.issued + {id}
            && y.store.rooms.Keys <= s'.rooms.Keys <= y.store.rooms.Keys + {id}
  {
    var (store, m) := CreateRoom(y.store, player, id);
    if m.Ok? && door.Some? {
      DooredAddsNothing(Issued(y.(store := store), tok, player, m), player, id, door.value);
    }
  }

  lemma TimerRemoves(y: SystemState, hosts: Option<map<Id, HostFacts>>)
    ensures var s' := TimerAct(y, hosts).store;
            && s'.issued == y.store.issued && s'.rooms.Keys <= y.store.rooms.Keys
            && forall id :: id in y.store.rooms && id !in s'.rooms ==>
                 StoreModel.Expired(Looked(y.store.rooms[id], hosts, y.clock), y.clock)
  {
  }

  lemma ShutDownRemoves(y: SystemState, room: Id)
    ensures var s' := ShutDownAct(y, room).store;
            && s'.issued == y.store.issued && s'.rooms.Keys <= y.store.rooms.Keys
            && y.store.rooms.Keys <= s'.rooms.Keys + {room}
  {
  }

  /** What each event does to the set of rooms. */
  ghost predicate RoomsAfter(y: SystemState, e: Event, s': StoreState) {
    match e.act
    case Create(_, id, _, _) =>
      && y.store.issued <= s'.issued <= y.store.issued + {id}
      && y.store.rooms.Keys <= s'.rooms.Keys <= y.store.rooms.Keys + {id}
    case ShutDown(room) =>
      && s'.issued == y.store.issued && s'.rooms.Keys <= y.store.rooms.Keys
      && y.store.rooms.Keys <= s'.rooms.Keys + {room}
    case Timer(hosts) =>
      && s'.issued == y.store.issued && s'.rooms.Keys <= y.store.rooms.Keys
      && forall id :: id in y.store.rooms && id !in s'.rooms ==>
           StoreModel.Expired(Looked(y.store.rooms[id], hosts, e.now), e.now)
    case _ => KeepsRooms(y.store, s')
  }

  lemma RoomsAfterStep(y: SystemState, e: Event)
    requires e.act.Create? ==> e.act.id !in y.store.rooms
    ensures RoomsAfter(y, e, Step(y, e).store)
  {
    var now := y.(clock := e.now);
    match e.act {
      case Create(player, id, tok, door) => CreateAddsAtMostOne(now, player, id, tok, door);
      case ShutDown(room) => ShutDownRemoves(now, room);
      case Timer(hosts) => TimerRemoves(now, hosts);
      case _ => OthersKeepRooms(y, e);
    }
  }

  lemma NoneReturns(y: SystemState, e: Event, s': StoreState)
    requires RoomsAfter(y, e, s') && (e.act.Create? ==> e.act.id !in y.store.issued)
    ensures y.store.issued <= s'.issued
    ensures forall id :: id in s'.rooms && id in y.store.issued ==> id in y.store.rooms
  {
  }

  /** A room id that has been used and is not held now is never held again. */
  lemma NoRoomReturns(y: SystemState, e: Event)
    requires SysInv(y) && Fair(y, e)
    ensures y.store.issued <= Step(y, e).store.issued
    ensures forall id :: id in Step(y, e).store.rooms && id in y.store.issued ==> id in y.store.rooms
  {
    RoomsAfterStep(y, e);
    NoneReturns(y, e, Step(y, e).store);
  }

  ghost predicate AllBefore(events: seq<Event>, until: int) {
    forall e :: e in events ==> e.now < until
  }

  /** Whoever is barred from a room stays out of it until the block ends, whatever anybody does meanwhile. */
  lemma {:induction false} BarredThroughout(y: SystemState, events: seq<Event>, room: Id, p: Id, until: int)
    requires SysInv(y) && FairRun(y, events) && AllBefore(events, until) && p != NOBODY
    requires room in y.store.issued && (room in y.store.rooms ==> Barred(y.store.rooms[room], p, until))
    ensures room in Run(y, events).store.rooms ==> !Seated(Run(y, events).store.rooms[room], p)
    decreases |events|
  {
    if events != [] {
      var e, after := events[0], Step(y, events[0]);
      StepKeeps(y, e);
      NoRoomReturns(y, e);
      if room in after.store.rooms {
        RoomStep(y, e, room);
        BarredStays(y.store.rooms[room], OpOn(y, e, room), p, until, y.clock, e.now);
      }
      BarredThroughout(after, events[1..], room, p, until);
    }
  }

  /** After somebody's n-th kick from a room, nothing anybody does seats them there for 2n - 1 minutes: no kind of
      seat, no password, no invitation, no change of host. */
  lemma KickedStaysOut(y: SystemState, kick: Event, rest: seq<Event>, n: int, until: int)
    requires SysInv(y) && Fair(y, kick) && FairRun(Step(y, kick), rest)
    requires kick.act.KickOut? && kick.act.target != NOBODY && kick.act.target != kick.act.actor
    requires kick.act.room in y.store.rooms && kick.act.actor == y.store.rooms[kick.act.room].hostId
    requires n == KicksOf(y.store.rooms[kick.act.room], kick.act.target) + 1
    requires until == kick.now + (2 * n - 1) * MINUTE && AllBefore(rest, until)
    ensures var end := Run(Step(y, kick), rest).store;
            kick.act.room in end.rooms ==> !Seated(end.rooms[kick.act.room], kick.act.target)
  {
    JustKicked(y, kick, n, until);
    StepKeeps(y, kick);
    BarredThroughout(Step(y, kick), rest, kick.act.room, kick.act.target, until);
  }

  lemma JustKicked(y: SystemState, kick: Event, n: int, until: int)
    requires SysInv(y) && Fair(y, kick) && kick.act.KickOut? && kick.act.target != NOBODY
    requires kick.act.room in y.store.rooms && kick.act.actor == y.store.rooms[kick.act.room].hostId
    requires kick.act.target != kick.act.actor
    requires n == KicksOf(y.store.rooms[kick.act.room], kick.act.target) + 1
    requires until == kick.now + (2 * n - 1) * MINUTE
    ensures var room, after := kick.act.room, Step(y, kick).store;
            && room in after.rooms && room in after.issued && Barred(after.rooms[room], kick.act.target, until)
  {
    KickBars(y.store.rooms[kick.act.room], kick.act.actor, kick.act.target, y.clock, kick.now, n, until);
  }

  /** Closed is for good: a closed room keeps its status, its closing time and its last host for as long as it is
      held, and once gone it does not come back. */
  lemma {:induction false} ClosedIsForGood(y: SystemState, events: seq<Event>, room: Id)
    requires SysInv(y) && FairRun(y, events) && room in y.store.issued
    requires room in y.store.rooms ==> y.store.rooms[room].status == Closed
    ensures room in Run(y, events).store.rooms ==>
              var r := Run(y, events).store.rooms[room];
              && room in y.store.rooms && r.status == Closed
              && r.closedAt == y.store.rooms[room].closedAt && r.hostId == y.store.rooms[room].hostId
              && r.index == y.store.rooms[room].index
    decreases |events|
  {
    if events != [] {
      var e, after := events[0], Step(y, events[0]);
      StepKeeps(y, e);
      NoRoomReturns(y, e);
      if room in after.store.rooms {
        RoomStep(y, e, room);
      }
      ClosedIsForGood(after, events[1..], room);
    }
  }

  lemma GoneWhenDue(y: SystemState, e: Event, s': StoreState, room: Id)
    requires RoomsAfter(y, e, s') && room in y.store.rooms && room !in s'.rooms
    ensures e.act == ShutDown(room)
            || (e.act.Timer? && StoreModel.Expired(Looked(y.store.rooms[room], e.act.hosts, e.now), e.now))
  {
  }

  /** A step that sweeps nothing before its time: only an administrator or the end of the linger removes a room. */
  lemma RemovedOnlyWhenDue(y: SystemState, e: Event, room: Id)
    requires SysInv(y) && Fair(y, e) && room in y.store.rooms && room !in Step(y, e).store.rooms
    ensures e.act == ShutDown(room)
            || (e.act.Timer? && StoreModel.Expired(Looked(y.store.rooms[room], e.act.hosts, e.now), e.now))
  {
    RoomsAfterStep(y, e);
    GoneWhenDue(y, e, Step(y, e).store, room);
  }

  /** A room that was closed at a time of record keeps its place in the table, and its index, for the full linger,
      unless an administrator shuts it down. */
  lemma {:induction false} LingersInFull(y: SystemState, events: seq<Event>, room: Id)
    requires SysInv(y) && FairRun(y, events)
    requires room in y.store.rooms && y.store.rooms[room].status == Closed && y.store.rooms[room].closedAt.Some?
    requires forall e :: e in events ==>
               e.now <= y.store.rooms[room].closedAt.value + CLOSED_ROOM_LINGER && e.act != ShutDown(room)
    ensures var s := Run(y, events).store;
            && room in s.rooms && s.rooms[room].index == y.store.rooms[room].index
            && y.store.rooms[room].index in s.indexes && s.indexes[y.store.rooms[room].index] == room
    decreases |events|
  {
    if events != [] {
      var e, after := events[0], Step(y, events[0]);
      StepKeeps(y, e);
      if room !in after.store.rooms {
        RemovedOnlyWhenDue(y, e, room);
        LookedKeeps(y.store.rooms[room], e.act.hosts, e.now);
      }
      RoomStep(y, e, room);
      LingersInFull(after, events[1..], room);
    }
  }

  /** Every way of ending a room other than the host's status control dates the ending, so the room lingers;
      that control leaves no date, and the next turn of the timer sweeps the room without reporting it. */
  lemma EndingsAreDated(y: SystemState, e: Event, room: Id)
    requires SysInv(y) && Fair(y, e) && room in y.store.rooms && room in Step(y, e).store.rooms
    requires y.store.rooms[room].status != Closed && Step(y, e).store.rooms[room].status == Closed
    ensures Step(y, e).store.rooms[room].closedAt == if e.act.Announce? then None else Some(e.now)
  {
    RoomStep(y, e, room);
    ClosersAreTimed(y, e, room);
  }

  lemma ClosersAreTimed(y: SystemState, e: Event, room: Id)
    requires room in y.store.rooms && FootprintOf(y.store.rooms[room], OpOn(y, e, room)).closes
    ensures FootprintOf(y.store.rooms[room], OpOn(y, e, room)).at == if e.act.Announce? then None else Some(e.now)
  {
  }

  /** A room its host set to closed is gone at the next turn of the timer, is not among the rooms that turn reports,
      and every ticket for it that has not run out is still in the table. */
  lemma UndatedEndingGoesUnreported(y: SystemState, hosts: Option<map<Id, HostFacts>>, now: int, room: Id, tok: Id)
    requires SysInv(y) && y.clock <= now
    requires room in y.store.rooms && y.store.rooms[room].status == Closed && y.store.rooms[room].closedAt.None?
    requires tok in y.tickets && y.tickets[tok].claims.room == room && now <= y.tickets[tok].expires
    ensures var after := Step(y, At(now, Timer(hosts)));
            && room !in after.store.rooms && room !in ClosedByTick(y.store, hosts, now)
            && Validate(after.tickets, tok, now) == Ok(y.tickets[tok].claims)
  {
    LookedKeeps(y.store.rooms[room], hosts, now);
  }
}
