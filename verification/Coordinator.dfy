/** The request handlers and the timer, as they drive the two tables in place. */
module Coordinators {
  import opened Basics
  import opened RoomModel
  import opened StoreModel
  import opened StoreInvariants
  import opened TicketModel
  import opened SystemModel
  import opened SystemInvariants
  import opened SystemRuns
  import opened SystemTheorems
  import opened RoomStores
  import opened TicketStores
  import Moderation

  /** What a handler answers: a credential for a seat, plain success, or a refusal. */
  datatype Reply = Granted(membership: Membership, tok: Id) | Done | Refused(why: RoomError) | BadRequest | Forbidden

  function Answered(refused: Option<RoomError>): Reply {
    match refused case None => Done case Some(e) => Refused(e)
  }

  function Told(answer: Result<Membership, RoomError>, tok: Id): Reply {
    match answer case Ok(m) => Granted(m, tok) case Err(e) => Refused(e)
  }

  function Departed(ended: Result<bool, RoomError>): Reply {
    match ended case Ok(_) => Done case Err(e) => Refused(e)
  }

  function DoorSet(s: StoreState, room: Id, actor: Id, d: Door): (StoreState, Option<RoomError>) {
    SetRoomPrivacy(s, room, actor, d.privacy, d.password, d.minMMR)
  }

  /** The room is looked up before anything else is asked. */
  function ToldIfThere(s: StoreState, room: Id, answer: Result<Membership, RoomError>, tok: Id): Reply {
    if room !in s.rooms then Refused(NotFound) else Told(answer, tok)
  }

  /** A ban or a timeout in force keeps somebody from opening, joining and watching. */
  predicate KeptOff(rest: Moderation.Restriction) {
    rest.banned || rest.timeout
  }

  /** Told from the sanctions themselves: a mute keeps nobody off. */
  lemma KeptOffExactly(sanctions: seq<Moderation.Sanction>, player: Id, now: int)
    ensures KeptOff(Moderation.RestrictionOf(sanctions, player, now)) <==>
              || Moderation.Under(sanctions, player, now, Moderation.Ban)
              || Moderation.Under(sanctions, player, now, Moderation.Timeout)
  {
    Moderation.RestrictionsExactly(sanctions, player, now);
  }

  /** The answer once the door is on: what was granted, unless the door is refused. */
  function Fitted(s: StoreState, player: Id, id: Id, d: Door, granted: Reply): Reply {
    match SetRoomPrivacy(s, id, player, d.privacy, d.password, d.minMMR).1
    case None => granted
    case Some(e) => Refused(e)
  }

  ghost function Opened(s: StoreState, player: Id, id: Id, tok: Id, door: Option<Door>): Reply {
    var (made, answer) := CreateRoom(s, player, id);
    if answer.Err? || door.None? then Told(answer, tok) else Fitted(made, player, id, door.value, Told(answer, tok))
  }

  /** A credential handed out names whoever asked and the address they were told. */
  predicate Honoured(t: Tickets, reply: Reply, player: Id, now: int) {
    reply.Granted? ==>
      && reply.tok in t
      && t[reply.tok] == Entry(Claims(player, reply.membership.roomId, reply.membership.virtualIP), now + LIFETIME)
  }

  /** Eviction as departures: one for every open room the player is found in. */
  function EvictedSome(y: SystemState, done: set<Id>, player: Id): SystemState {
    var found := EvictedFrom(y.store, player);
    SystemState(
      y.store.(rooms := map id | id in y.store.rooms ::
                 if id in done && id in found then Leave(y.store.rooms[id], player, y.clock) else y.store.rooms[id]),
      map tok | tok in y.tickets && !(y.tickets[tok].claims.room in done && TakenBack(y, tok, player)) ::
            y.tickets[tok],
      y.clock)
  }

  predicate TakenBack(y: SystemState, tok: Id, player: Id)
    requires tok in y.tickets
  {
    var c := y.tickets[tok].claims;
    c.room in EvictedFrom(y.store, player) && (y.store.rooms[c.room].hostId == player || c.player == player)
  }

  lemma EvictedNone(y: SystemState, player: Id)
    ensures EvictedSome(y, {}, player) == y
  {
    assert EvictedSome(y, {}, player).store.rooms == y.store.rooms;
    assert EvictedSome(y, {}, player).tickets == y.tickets;
  }

  lemma EvictedAll(y: SystemState, player: Id)
    ensures EvictedSome(y, y.store.rooms.Keys, player) == EvictAct(y, player)
  {
    assert EvictedSome(y, y.store.rooms.Keys, player).store.rooms == EvictAct(y, player).store.rooms;
    assert EvictedSome(y, y.store.rooms.Keys, player).tickets == EvictAct(y, player).tickets;
  }

  lemma EvictedOneMoreTickets(y: SystemState, done: set<Id>, id: Id, player: Id)
    requires id in EvictedFrom(y.store, player)
    ensures EvictedSome(y, done + {id}, player).tickets ==
            if y.store.rooms[id].hostId == player then RevokeRooms(EvictedSome(y, done, player).tickets, {id})
            else RevokePlayerRoom(EvictedSome(y, done, player).tickets, player, id)
  {
  }

  /** Each room found is one departure, exactly as if the player had left it. */
  lemma EvictedOneMore(y: SystemState, done: set<Id>, id: Id, player: Id)
    requires id in y.store.rooms && id !in done
    ensures var some := EvictedSome(y, done, player);
            && id in some.store.rooms && some.store.rooms[id] == y.store.rooms[id]
            && EvictedSome(y, done + {id}, player) ==
                 if id in EvictedFrom(y.store, player) then DepartAct(some, id, player) else some
  {
    var some, more := EvictedSome(y, done, player), EvictedSome(y, done + {id}, player);
    if id in EvictedFrom(y.store, player) {
      EvictedOneMoreTickets(y, done, id, player);
      assert more.store.rooms == some.store.rooms[id := Leave(y.store.rooms[id], player, y.clock)];
    } else {
      assert more.store.rooms == some.store.rooms;
      assert more.tickets == some.tickets;
    }
  }

  function DepartIfHeld(y: SystemState, id: Id, player: Id): SystemState {
    if Holds(y.store, id, player) then DepartAct(y, id, player) else y
  }

  /** The departures made room by room, in the order given. */
  function Departures(y: SystemState, order: seq<Id>, player: Id): SystemState {
    if order == [] then y
    else DepartIfHeld(Departures(y, order[..|order| - 1], player), order[|order| - 1], player)
  }

  lemma {:induction false} DeparturesKeep(y: SystemState, order: seq<Id>, player: Id)
    requires SysInv(y)
    ensures SysInv(Departures(y, order, player))
  {
    if order != [] {
      DeparturesKeep(y, order[..|order| - 1], player);
      DepartActKeeps(Departures(y, order[..|order| - 1], player), order[|order| - 1], player);
    }
  }

  predicate EachOnce(order: seq<Id>) {
    forall i, j :: 0 <= i < j < |order| ==> order[i] != order[j]
  }

  lemma FoundIsHeld(s: StoreState, id: Id, player: Id)
    requires StoreInv(s)
    ensures id in EvictedFrom(s, player) <==> Holds(s, id, player)
  {
  }

  /** In whatever order the rooms come, the departures come to the one eviction. */
  lemma {:induction false} DeparturesAre(y: SystemState, order: seq<Id>, player: Id)
    requires SysInv(y) && EachOnce(order) && forall id :: id in order ==> id in y.store.rooms
    ensures Departures(y, order, player) == EvictedSome(y, (set id | id in order), player)
  {
    if order == [] {
      EvictedNone(y, player);
      assert (set id | id in order) == {};
    } else {
      var front, id := order[..|order| - 1], order[|order| - 1];
      DeparturesAre(y, front, player);
      assert order == front + [id];
      assert (set b | b in order) == (set b | b in front) + {id};
      EvictedOneMore(y, (set b | b in front), id, player);
      FoundIsHeld(y.store, id, player);
    }
  }

  /** The rooms come one by one, each once, and those in `todo` are still to come. */
  ghost predicate Covers(order: seq<Id>, all: set<Id>, todo: set<Id>) {
    EachOnce(order) && forall id :: id in order <==> id in all && id !in todo
  }

  lemma CoversOneMore(order: seq<Id>, all: set<Id>, todo: set<Id>, id: Id)
    requires Covers(order, all, todo) && id in todo && id in all
    ensures Covers(order + [id], all, todo - {id})
  {
  }

  lemma DeparturesAreTheEviction(y: SystemState, order: seq<Id>, player: Id)
    requires SysInv(y) && Covers(order, y.store.rooms.Keys, {})
    ensures Departures(y, order, player) == EvictAct(y, player)
  {
    DeparturesAre(y, order, player);
    assert (set id | id in order) == y.store.rooms.Keys;
    EvictedAll(y, player);
  }

  /** A call that is refused has changed nothing. */
  lemma KickRefused(s: StoreState, room: Id, actor: Id, target: Id, now: int)
    requires KickFrom(s, room, actor, target, now).1.Some?
    ensures KickFrom(s, room, actor, target, now).0 == s
  {
  }

  lemma PrivacyRefused(s: StoreState, room: Id, actor: Id, door: Door)
    requires SetRoomPrivacy(s, room, actor, door.privacy, door.password, door.minMMR).1.Some?
    ensures SetRoomPrivacy(s, room, actor, door.privacy, door.password, door.minMMR).0 == s
  {
  }

  class Coordinator {
    const rooms: RoomStore
    const tickets: TicketStore
    ghost const began: int
    ghost var events: seq<Event>

    /** Both tables, as a clock reading `now` finds them. */
    ghost function View(now: int): SystemState
      reads rooms, rooms.rooms.Values, tickets
    {
      SystemState(rooms.View(), tickets.tickets, now)
    }

    /** The state that the events so far lead to. */
    ghost function Reached(): SystemState
      reads this`events
    {
      After(began, events)
    }

    /** The two tables are exactly where a run of the events so far leads. */
    ghost predicate Valid()
      reads this`events, rooms, rooms.rooms.Values, tickets
    {
      rooms.Unshared() && FairRun(Start(began), events) && View(Reached().clock) == Reached()
    }

    constructor (ghost now: int)
      ensures Valid() && began == now && events == [] && fresh(rooms) && fresh(tickets)
    {
      rooms := new RoomStore();
      tickets := new TicketStore();
      began := now;
      events := [];
    }

    lemma Grounded()
      requires Valid()
      ensures rooms.Valid()
    {
      SystemTheorems.Reached(began, events);
    }

    /** One more event of a run: the state it leads to is one step on. */
    lemma OneMore(before: seq<Event>, e: Event)
      requires FairRun(Start(began), before) && Fair(After(began, before), e)
      ensures FairRun(Start(began), before + [e]) && After(began, before + [e]) == Step(After(began, before), e)
      ensures Step(After(began, before), e).clock == e.now
    {
      RunGrows(Start(began), before, e);
      SystemTheorems.Reached(began, before);
      StepKeeps(After(began, before), e);
    }

    /** Puts one more event on record, once the tables are where it leads. */
    ghost method Note(e: Event)
      requires FairRun(Start(began), events) && Fair(Reached(), e)
      requires rooms.Unshared() && View(e.now) == Step(Reached(), e)
      modifies this`events
      ensures Valid() && events == old(events) + [e]
    {
      OneMore(events, e);
      events := events + [e];
    }

    /** Whatever the handlers have been through, a credential for a room still held is for somebody seated in it and
        for the address they hold there. */
    lemma CredentialsHold(tok: Id)
      requires Valid() && tok in tickets.tickets && tickets.tickets[tok].claims.room in rooms.rooms
      ensures var c := tickets.tickets[tok].claims;
              Seated(rooms.rooms[c.room].State(), c.player)
              && AddressIn(rooms.rooms[c.room].State(), c.player) == Some(c.virtualIP)
    {
      TicketsAgreeWithSeats(began, events, tok, tickets.tickets[tok].expires);
    }

    /** Mints a ticket for a membership, when there is one. */
    method Issue(tok: Id, player: Id, answer: Result<Membership, RoomError>, now: int) returns (reply: Reply)
      modifies tickets
      ensures View(now) == Issued(old(View(now)), tok, player, answer)
      ensures reply == Told(answer, tok) && Honoured(tickets.tickets, reply, player, now)
    {
      match answer {
        case Err(e) =>
          reply := Refused(e);
        case Ok(m) =>
          tickets.Issue(tok, Claims(player, m.roomId, m.virtualIP), now);
          reply := Granted(m, tok);
      }
    }

    /** The new room and its ticket. */
    method Making(player: Id, id: Id, tok: Id, now: int) returns (answer: Result<Membership, RoomError>, reply: Reply)
      requires rooms.Valid() && player != NOBODY && id != NOBODY && id !in rooms.issued
      modifies rooms, tickets
      ensures rooms.Valid()
      ensures var (store, m) := StoreModel.CreateRoom(old(rooms.View()), player, id);
              && answer == m && reply == Told(m, tok)
              && View(now) == Issued(old(View(now)).(store := store), tok, player, m)
      ensures Honoured(tickets.tickets, reply, player, now)
      ensures rooms.rooms == old(rooms.rooms)
              || (id in rooms.rooms && fresh(rooms.rooms[id]) && rooms.rooms == old(rooms.rooms)[id := rooms.rooms[id]])
    {
      answer := rooms.Create(player, id);
      ghost var s := rooms.View();
      reply := Issue(tok, player, answer, now);
      assert rooms.View() == s;
    }

    /** The new room's ticket, and then its door. */
    method Creating(player: Id, id: Id, tok: Id, door: Option<Door>, now: int) returns (reply: Reply)
      requires rooms.Valid() && player != NOBODY && id != NOBODY && id !in rooms.issued
      modifies rooms, rooms.rooms.Values, tickets
      ensures rooms.Unshared() && View(now) == CreateAct(old(View(now)), player, id, tok, door)
      ensures Honoured(tickets.tickets, reply, player, now)
      ensures reply == Opened(old(rooms.View()), player, id, tok, door)
    {
      var answer;
      answer, reply := Making(player, id, tok, now);
      if door.Some? && answer.Ok? {
        reply := PutDoorOn(id, player, door.value, reply, now);
      }
    }

    /** A room asked for with a door gets it at once, or goes away again with the tickets naming it. */
    method PutDoorOn(id: Id, player: Id, door: Door, granted: Reply, now: int) returns (reply: Reply)
      requires rooms.Valid()
      modifies rooms, rooms.rooms.Values, tickets
      ensures rooms.Unshared() && View(now) == Doored(old(View(now)), player, id, door)
      ensures reply == Fitted(old(rooms.View()), player, id, door, granted)
      ensures !reply.Refused? ==> tickets.tickets == old(tickets.tickets)
    {
      ghost var made := View(now);
      var refused := rooms.SetPrivacy(id, player, door.privacy, door.password, door.minMMR);
      if refused.None? {
        return granted;
      }
      PrivacyRefused(made.store, id, player, door);
      TakeAway(id, player, now);
      reply := Refused(refused.value);
    }

    method TakeAway(id: Id, player: Id, now: int)
      requires rooms.Valid()
      modifies rooms, tickets
      ensures rooms.Unshared()
      ensures View(now) ==
              SystemState(StoreModel.CloseRoom(old(View(now)).store, id, player).0,
                          RevokeRooms(old(View(now)).tickets, {id}), now)
    {
      var _ := rooms.Close(id, player);
      ghost var s := rooms.View();
      tickets.RevokeRoom(id);
      assert rooms.View() == s;
    }

    method Opening(player: Id, id: Id, tok: Id, door: Option<Door>, now: int) returns (reply: Reply)
      requires Valid() && player != NOBODY && Fair(Reached(), At(now, Create(player, id, tok, door)))
      modifies rooms, rooms.rooms.Values, tickets
      ensures rooms.Unshared() && View(now) == Step(Reached(), At(now, Create(player, id, tok, door)))
      ensures Honoured(tickets.tickets, reply, player, now)
      ensures reply == Opened(old(rooms.View()), player, id, tok, door)
    {
      Grounded();
      reply := Creating(player, id, tok, door, now);
    }

    method CreateRoom(player: Id, id: Id, tok: Id, door: Option<Door>, rest: Moderation.Restriction, now: int)
      returns (reply: Reply)
      requires Valid() && Fair(Reached(), At(now, Create(player, id, tok, door)))
      modifies this`events, rooms, rooms.rooms.Values, tickets
      ensures Valid() && Honoured(tickets.tickets, reply, player, now)
      ensures player == NOBODY ==> reply == BadRequest && events == old(events)
      ensures player != NOBODY && KeptOff(rest) ==> reply == Forbidden && events == old(events)
      ensures player != NOBODY && !KeptOff(rest) ==>
                && events == old(events) + [At(now, Create(player, id, tok, door))]
                && reply == Opened(old(rooms.View()), player, id, tok, door)
    {
      if player == NOBODY {
        return BadRequest;
      }
      if KeptOff(rest) {
        return Forbidden;
      }
      reply := Opening(player, id, tok, door, now);
      Note(At(now, Create(player, id, tok, door)));
    }

    /** Joining, and the ticket if there is one to give. */
    method Joining(room: Id, who: Applicant, tok: Id, now: int) returns (reply: Reply)
      requires rooms.Valid() && who.id != NOBODY
      modifies rooms.rooms.Values, tickets
      ensures rooms.Unshared() && View(now) == JoinAct(old(View(now)), room, who, tok)
      ensures Honoured(tickets.tickets, reply, who.id, now)
      ensures reply == ToldIfThere(old(rooms.View()), room, StoreModel.JoinRoom(old(rooms.View()), room, who, now).1,
              tok)
    {
      if room !in rooms.rooms {
        return Refused(NotFound);
      }
      var answer := rooms.Join(room, who, now);
      reply := Issue(tok, who.id, answer, now);
    }

    method Admitting(room: Id, who: Applicant, tok: Id, now: int) returns (reply: Reply)
      requires Valid() && who.id != NOBODY
      modifies rooms.rooms.Values, tickets
      ensures rooms.Unshared() && View(now) == Step(Reached(), At(now, JoinAs(room, who, tok)))
      ensures Honoured(tickets.tickets, reply, who.id, now)
      ensures reply == ToldIfThere(old(rooms.View()), room, StoreModel.JoinRoom(old(rooms.View()), room, who, now).1,
              tok)
    {
      Grounded();
      reply := Joining(room, who, tok, now);
    }

    method JoinRoom(room: Id, who: Applicant, tok: Id, rest: Moderation.Restriction, now: int)
      returns (reply: Reply)
      requires Valid() && Reached().clock <= now
      modifies this`events, rooms.rooms.Values, tickets
      ensures Valid() && Honoured(tickets.tickets, reply, who.id, now)
      ensures who.id == NOBODY ==> reply == BadRequest && events == old(events)
      ensures who.id != NOBODY && KeptOff(rest) ==> reply == Forbidden && events == old(events)
      ensures who.id != NOBODY && !KeptOff(rest) ==>
                && events == old(events) + [At(now, JoinAs(room, who, tok))]
                && reply == ToldIfThere(old(rooms.View()), room,
                    StoreModel.JoinRoom(old(rooms.View()), room, who, now).1, tok)
    {
      if who.id == NOBODY {
        return BadRequest;
      }
      if KeptOff(rest) {
        return Forbidden;
      }
      reply := Admitting(room, who, tok, now);
      Note(At(now, JoinAs(room, who, tok)));
    }

    /** A place in the gallery, and the ticket if there is one to give. */
    method Spectating(room: Id, who: Applicant, tok: Id, now: int) returns (reply: Reply)
      requires rooms.Valid() && who.id != NOBODY
      modifies rooms.rooms.Values, tickets
      ensures rooms.Unshared() && View(now) == SpectateAct(old(View(now)), room, who, tok)
      ensures Honoured(tickets.tickets, reply, who.id, now)
      ensures reply == ToldIfThere(old(rooms.View()), room, JoinRoomObserver(old(rooms.View()), room, who, now).1, tok)
    {
      if room !in rooms.rooms {
        return Refused(NotFound);
      }
      var answer := rooms.JoinObserver(room, who, now);
      reply := Issue(tok, who.id, answer, now);
    }

    method AdmittingToWatch(room: Id, who: Applicant, tok: Id, now: int) returns (reply: Reply)
      requires Valid() && who.id != NOBODY
      modifies rooms.rooms.Values, tickets
      ensures rooms.Unshared() && View(now) == Step(Reached(), At(now, Spectate(room, who, tok)))
      ensures Honoured(tickets.tickets, reply, who.id, now)
      ensures reply == ToldIfThere(old(rooms.View()), room, JoinRoomObserver(old(rooms.View()), room, who, now).1, tok)
    {
      Grounded();
      reply := Spectating(room, who, tok, now);
    }

    method SpectateRoom(room: Id, who: Applicant, tok: Id, rest: Moderation.Restriction, now: int)
      returns (reply: Reply)
      requires Valid() && Reached().clock <= now
      modifies this`events, rooms.rooms.Values, tickets
      ensures Valid() && Honoured(tickets.tickets, reply, who.id, now)
      ensures who.id == NOBODY ==> reply == BadRequest && events == old(events)
      ensures who.id != NOBODY && KeptOff(rest) ==> reply == Forbidden && events == old(events)
      ensures who.id != NOBODY && !KeptOff(rest) ==>
                && events == old(events) + [At(now, Spectate(room, who, tok))]
                && reply == ToldIfThere(old(rooms.View()), room,
                    JoinRoomObserver(old(rooms.View()), room, who, now).1, tok)
    {
      if who.id == NOBODY {
        return BadRequest;
      }
      if KeptOff(rest) {
        return Forbidden;
      }
      reply := AdmittingToWatch(room, who, tok, now);
      Note(At(now, Spectate(room, who, tok)));
    }

    /** A moderator's seat, and the ticket its membership is for. */
    method Moderating(room: Id, player: Id, tok: Id, now: int) returns (reply: Reply)
      requires rooms.Valid() && player != NOBODY
      modifies rooms.rooms.Values, tickets
      ensures rooms.Unshared() && View(now) == ModerateAct(old(View(now)), room, player, tok)
      ensures reply == Told(JoinRoomAdmin(old(rooms.View()), room, player, now).1, tok)
              && Honoured(tickets.tickets, reply, player, now)
    {
      var answer := rooms.JoinAdmin(room, player, now);
      reply := Issue(tok, player, answer, now);
    }

    method SeatingModerator(room: Id, player: Id, tok: Id, now: int) returns (reply: Reply)
      requires Valid()
      modifies rooms.rooms.Values, tickets
      ensures rooms.Unshared() && View(now) == Step(Reached(), At(now, Moderate(room, player, tok)))
      ensures reply == if player == NOBODY then BadRequest
              else Told(JoinRoomAdmin(old(rooms.View()), room, player, now).1, tok)
      ensures Honoured(tickets.tickets, reply, player, now)
    {
      if player == NOBODY {
        return BadRequest;
      }
      Grounded();
      reply := Moderating(room, player, tok, now);
    }

    method ModerateRoom(room: Id, player: Id, tok: Id, now: int) returns (reply: Reply)
      requires Valid() && Reached().clock <= now
      modifies this`events, rooms.rooms.Values, tickets
      ensures Valid() && events == old(events) + [At(now, Moderate(room, player, tok))]
      ensures reply == if player == NOBODY then BadRequest
              else Told(JoinRoomAdmin(old(rooms.View()), room, player, now).1, tok)
      ensures Honoured(tickets.tickets, reply, player, now)
    {
      reply := SeatingModerator(room, player, tok, now);
      Note(At(now, Moderate(room, player, tok)));
    }

    /** A fresh ticket for somebody already seated. */
    method Connecting(room: Id, player: Id, tok: Id, now: int) returns (reply: Reply)
      requires rooms.Valid() && player != NOBODY
      modifies tickets
      ensures rooms.Unshared() && View(now) == ConnectAct(old(View(now)), room, player, tok)
      ensures reply == Told(MembershipOf(old(rooms.View()), room, player), tok)
              && Honoured(tickets.tickets, reply, player, now)
    {
      var answer := rooms.Membership(room, player);
      reply := Issue(tok, player, answer, now);
    }

    method Reconnecting(room: Id, player: Id, tok: Id, now: int) returns (reply: Reply)
      requires Valid()
      modifies tickets
      ensures rooms.Unshared() && View(now) == Step(Reached(), At(now, Connect(room, player, tok)))
      ensures reply == if player == NOBODY then BadRequest else Told(MembershipOf(old(rooms.View()), room, player), tok)
      ensures Honoured(tickets.tickets, reply, player, now)
    {
      if player == NOBODY {
        return BadRequest;
      }
      Grounded();
      reply := Connecting(room, player, tok, now);
    }

    method ConnectRoom(room: Id, player: Id, tok: Id, now: int) returns (reply: Reply)
      requires Valid() && Reached().clock <= now
      modifies this`events, tickets
      ensures Valid() && events == old(events) + [At(now, Connect(room, player, tok))]
      ensures reply == if player == NOBODY then BadRequest else Told(MembershipOf(old(rooms.View()), room, player), tok)
      ensures Honoured(tickets.tickets, reply, player, now)
    {
      reply := Reconnecting(room, player, tok, now);
      Note(At(now, Connect(room, player, tok)));
    }

    /** Gets somebody up, and takes back what they, or everybody if the room is over, could connect with. */
    method Departing(room: Id, player: Id, now: int) returns (reply: Reply)
      requires rooms.Valid()
      modifies rooms.rooms.Values, tickets
      ensures rooms.Unshared() && View(now) == DepartAct(old(View(now)), room, player)
      ensures reply == Departed(StoreModel.LeaveRoom(old(rooms.View()), room, player, now).1)
    {
      ghost var y := View(now);
      var ended := rooms.Leave(room, player, now);
      reply := Departed(ended);
      ghost var s := rooms.View();
      if ended.Ok? {
        TakeBackAfter(ended.value, player, room);
      }
      assert rooms.View() == s;
    }

    /** The room's tickets when it has ended, the player's own otherwise. */
    method TakeBackAfter(ended: bool, player: Id, room: Id)
      requires rooms.Unshared()
      modifies tickets
      ensures rooms.Unshared() && rooms.View() == old(rooms.View())
      ensures tickets.tickets == if ended then RevokeRooms(old(tickets.tickets), {room})
                                 else RevokePlayerRoom(old(tickets.tickets), player, room)
    {
      if ended {
        tickets.RevokeRoom(room);
      } else {
        tickets.RevokePlayerRoom(player, room);
      }
    }

    method GettingUp(room: Id, player: Id, now: int) returns (reply: Reply)
      requires Valid()
      modifies rooms.rooms.Values, tickets
      ensures rooms.Unshared() && View(now) == Step(Reached(), At(now, Depart(room, player)))
      ensures reply == Departed(StoreModel.LeaveRoom(old(rooms.View()), room, player, now).1)
    {
      Grounded();
      reply := Departing(room, player, now);
    }

    method LeaveRoom(room: Id, player: Id, now: int) returns (reply: Reply)
      requires Valid() && Reached().clock <= now
      modifies this`events, rooms.rooms.Values, tickets
      ensures Valid() && events == old(events) + [At(now, Depart(room, player))]
      ensures reply == Departed(StoreModel.LeaveRoom(old(rooms.View()), room, player, now).1)
    {
      reply := GettingUp(room, player, now);
      Note(At(now, Depart(room, player)));
    }

    method Kicking(room: Id, actor: Id, target: Id, now: int) returns (reply: Reply)
      requires rooms.Valid()
      modifies rooms.rooms.Values, tickets
      ensures rooms.Unshared() && View(now) == KickAct(old(View(now)), room, actor, target)
      ensures reply == Answered(KickFrom(old(rooms.View()), room, actor, target, now).1)
    {
      ghost var y := View(now);
      var refused := rooms.Kick(room, actor, target, now);
      reply := Answered(refused);
      if refused.Some? {
        KickRefused(y.store, room, actor, target, now);
      } else {
        TakeBackAfter(false, target, room);
      }
    }

    method ThrowingOut(room: Id, actor: Id, target: Id, now: int) returns (reply: Reply)
      requires Valid()
      modifies rooms.rooms.Values, tickets
      ensures rooms.Unshared() && View(now) == Step(Reached(), At(now, KickOut(room, actor, target)))
      ensures reply == Answered(KickFrom(old(rooms.View()), room, actor, target, now).1)
    {
      Grounded();
      reply := Kicking(room, actor, target, now);
    }

    method KickPlayer(room: Id, actor: Id, target: Id, now: int) returns (reply: Reply)
      requires Valid() && Reached().clock <= now
      modifies this`events, rooms.rooms.Values, tickets
      ensures Valid() && events == old(events) + [At(now, KickOut(room, actor, target))]
      ensures reply == Answered(KickFrom(old(rooms.View()), room, actor, target, now).1)
    {
      reply := ThrowingOut(room, actor, target, now);
      Note(At(now, KickOut(room, actor, target)));
    }

    method Moving(room: Id, player: Id, seat: int, watching: bool, now: int) returns (reply: Reply)
      requires Valid()
      modifies rooms.rooms.Values
      ensures rooms.Unshared() && View(now) == Step(Reached(), At(now, Reseating(room, player, seat, watching)))
      ensures reply == Answered(MoveIn(old(rooms.View()), room, player, seat, watching).1)
    {
      Grounded();
      var refused := rooms.Move(room, player, seat, watching);
      reply := Answered(refused);
    }

    /** Picking a seat costs nobody their credential. */
    method MoveSlot(room: Id, player: Id, seat: int, watching: bool, now: int) returns (reply: Reply)
      requires Valid() && Reached().clock <= now
      modifies this`events, rooms.rooms.Values
      ensures Valid() && events == old(events) + [At(now, Reseating(room, player, seat, watching))]
      ensures reply == Answered(MoveIn(old(rooms.View()), room, player, seat, watching).1)
    {
      reply := Moving(room, player, seat, watching, now);
      Note(At(now, Reseating(room, player, seat, watching)));
    }

    method Announcing(room: Id, actor: Id, status: Status, now: int) returns (reply: Reply)
      requires Valid()
      modifies rooms.rooms.Values
      ensures rooms.Unshared() && View(now) == Step(Reached(), At(now, Announce(room, actor, status)))
      ensures reply == Answered(SetRoomStatus(old(rooms.View()), room, actor, status).1)
    {
      Grounded();
      var refused := rooms.SetStatus(room, actor, status);
      reply := Answered(refused);
    }

    method SetStatus(room: Id, actor: Id, status: Status, now: int) returns (reply: Reply)
      requires Valid() && Reached().clock <= now
      modifies this`events, rooms.rooms.Values
      ensures Valid() && events == old(events) + [At(now, Announce(room, actor, status))]
      ensures reply == Answered(SetRoomStatus(old(rooms.View()), room, actor, status).1)
    {
      reply := Announcing(room, actor, status, now);
      Note(At(now, Announce(room, actor, status)));
    }

    method HandingOver(room: Id, newHost: Id, now: int) returns (reply: Reply)
      requires Valid()
      modifies rooms.rooms.Values
      ensures rooms.Unshared() && View(now) == Step(Reached(), At(now, HandOver(room, newHost)))
      ensures reply == if newHost == NOBODY then BadRequest
              else Answered(SetRoomHost(old(rooms.View()), room, newHost).1)
    {
      if newHost == NOBODY {
        return BadRequest;
      }
      Grounded();
      var refused := rooms.SetHost(room, newHost);
      reply := Answered(refused);
    }

    method ChangeHost(room: Id, newHost: Id, now: int) returns (reply: Reply)
      requires Valid() && Reached().clock <= now
      modifies this`events, rooms.rooms.Values
      ensures Valid() && events == old(events) + [At(now, HandOver(room, newHost))]
      ensures reply == if newHost == NOBODY then BadRequest
              else Answered(SetRoomHost(old(rooms.View()), room, newHost).1)
    {
      reply := HandingOver(room, newHost, now);
      Note(At(now, HandOver(room, newHost)));
    }

    method ShuttingDown(room: Id, now: int) returns (reply: Reply)
      requires rooms.Valid()
      modifies rooms, tickets
      ensures rooms.Unshared() && View(now) == ShutDownAct(old(View(now)), room)
      ensures reply == Answered(StoreModel.CloseRoom(old(rooms.View()), room, NOBODY).1)
    {
      var refused := rooms.Close(room, NOBODY);
      reply := Answered(refused);
      if refused.None? {
        TakeBackAfter(true, NOBODY, room);
      }
    }

    method Ending(room: Id, now: int) returns (reply: Reply)
      requires Valid()
      modifies rooms, tickets
      ensures rooms.Unshared() && View(now) == Step(Reached(), At(now, ShutDown(room)))
      ensures reply == Answered(StoreModel.CloseRoom(old(rooms.View()), room, NOBODY).1)
    {
      Grounded();
      reply := ShuttingDown(room, now);
    }

    /** The platform closes a room: it goes at once, with every ticket naming it. */
    method CloseRoom(room: Id, now: int) returns (reply: Reply)
      requires Valid() && Reached().clock <= now
      modifies this`events, rooms, tickets
      ensures Valid() && events == old(events) + [At(now, ShutDown(room))]
      ensures reply == Answered(StoreModel.CloseRoom(old(rooms.View()), room, NOBODY).1)
    {
      reply := Ending(room, now);
      Note(At(now, ShutDown(room)));
    }

    method Renewing(tok: Id, now: int) returns (valid: bool)
      requires Valid()
      modifies tickets
      ensures rooms.Unshared() && View(now) == Step(Reached(), At(now, SystemModel.RenewLease(tok)))
      ensures valid <==> TicketModel.Validate(old(tickets.tickets), tok, now).Ok?
    {
      var refused := tickets.Renew(tok, now);
      valid := refused.None?;
    }

    method RenewLease(tok: Id, now: int) returns (valid: bool)
      requires Valid() && Reached().clock <= now
      modifies this`events, tickets
      ensures Valid() && events == old(events) + [At(now, SystemModel.RenewLease(tok))]
      ensures valid <==> TicketModel.Validate(old(tickets.tickets), tok, now).Ok?
    {
      valid := Renewing(tok, now);
      Note(At(now, SystemModel.RenewLease(tok)));
    }

    method SettingDoor(room: Id, actor: Id, door: Door, now: int) returns (reply: Reply)
      requires Valid()
      modifies rooms.rooms.Values
      ensures rooms.Unshared() && View(now) == Step(Reached(), At(now, SetDoor(room, actor, door)))
      ensures reply == if actor == NOBODY then BadRequest else Answered(DoorSet(old(rooms.View()), room, actor, door).1)
    {
      if actor == NOBODY {
        return BadRequest;
      }
      Grounded();
      var refused := rooms.SetPrivacy(room, actor, door.privacy, door.password, door.minMMR);
      reply := Answered(refused);
    }

    method SetPrivacy(room: Id, actor: Id, door: Door, now: int) returns (reply: Reply)
      requires Valid() && Reached().clock <= now
      modifies this`events, rooms.rooms.Values
      ensures Valid() && events == old(events) + [At(now, SetDoor(room, actor, door))]
      ensures reply == if actor == NOBODY then BadRequest else Answered(DoorSet(old(rooms.View()), room, actor, door).1)
    {
      reply := SettingDoor(room, actor, door, now);
      Note(At(now, SetDoor(room, actor, door)));
    }

    method Inviting(room: Id, actor: Id, target: Id, now: int) returns (reply: Reply)
      requires Valid()
      modifies rooms.rooms.Values
      ensures rooms.Unshared() && View(now) == Step(Reached(), At(now, Ask(room, actor, target)))
      ensures reply == if actor == NOBODY || target == NOBODY then BadRequest
              else Answered(InviteTo(old(rooms.View()), room, actor, target, now).1)
    {
      if actor == NOBODY || target == NOBODY {
        return BadRequest;
      }
      Grounded();
      var refused := rooms.Invite(room, actor, target, now);
      reply := Answered(refused);
    }

    method Invite(room: Id, actor: Id, target: Id, now: int) returns (reply: Reply)
      requires Valid() && Reached().clock <= now
      modifies this`events, rooms.rooms.Values
      ensures Valid() && events == old(events) + [At(now, Ask(room, actor, target))]
      ensures reply == if actor == NOBODY || target == NOBODY then BadRequest
              else Answered(InviteTo(old(rooms.View()), room, actor, target, now).1)
    {
      reply := Inviting(room, actor, target, now);
      Note(At(now, Ask(room, actor, target)));
    }

    method Uninviting(room: Id, actor: Id, target: Id, now: int) returns (reply: Reply)
      requires Valid()
      modifies rooms.rooms.Values
      ensures rooms.Unshared() && View(now) == Step(Reached(), At(now, Withdraw(room, actor, target)))
      ensures reply == if actor == NOBODY || target == NOBODY then BadRequest
              else Answered(UninviteFrom(old(rooms.View()), room, actor, target).1)
    {
      if actor == NOBODY || target == NOBODY {
        return BadRequest;
      }
      Grounded();
      var refused := rooms.Uninvite(room, actor, target);
      reply := Answered(refused);
    }

    method Uninvite(room: Id, actor: Id, target: Id, now: int) returns (reply: Reply)
      requires Valid() && Reached().clock <= now
      modifies this`events, rooms.rooms.Values
      ensures Valid() && events == old(events) + [At(now, Withdraw(room, actor, target))]
      ensures reply == if actor == NOBODY || target == NOBODY then BadRequest
              else Answered(UninviteFrom(old(rooms.View()), room, actor, target).1)
    {
      reply := Uninviting(room, actor, target, now);
      Note(At(now, Withdraw(room, actor, target)));
    }

    /** A sanctioned player leaves every room they are found in, in whatever order the rooms come. */
    method Evicting(player: Id, now: int)
      requires Valid() && Reached().clock <= now
      modifies rooms.rooms.Values, tickets
      ensures rooms.Unshared() && View(now) == Step(Reached(), At(now, Evict(player)))
    {
      ghost var y := Reached().(clock := now);
      ghost var order := EvictEach(player, now);
      EvictionIs(y, order, player, now);
    }

    method EvictEach(player: Id, now: int) returns (ghost order: seq<Id>)
      requires Valid() && Reached().clock <= now
      modifies rooms.rooms.Values, tickets
      ensures rooms.Unshared() && View(now) == Departures(Reached().(clock := now), order, player)
      ensures Covers(order, rooms.rooms.Keys, {})
    {
      var todo := rooms.rooms.Keys;
      order := [];
      while todo != {}
        invariant rooms.Unshared() && todo <= rooms.rooms.Keys && Covers(order, rooms.rooms.Keys, todo)
        invariant View(now) == Departures(Reached().(clock := now), order, player)
        decreases |todo|
      {
        var id :| id in todo;
        EvictFrom(Reached().(clock := now), order, id, player, now);
        CoversOneMore(order, rooms.rooms.Keys, todo, id);
        todo, order := todo - {id}, order + [id];
      }
    }

    /** Every room looked at once is the whole eviction. */
    lemma EvictionIs(y: SystemState, order: seq<Id>, player: Id, now: int)
      requires FairRun(Start(began), events) && Reached().clock <= now && y == Reached().(clock := now)
      requires Covers(order, y.store.rooms.Keys, {})
      ensures Departures(y, order, player) == Step(Reached(), At(now, Evict(player)))
    {
      SystemTheorems.Reached(began, events);
      ClockAdvances(Reached(), now);
      DeparturesAreTheEviction(y, order, player);
    }

    method EvictFrom(ghost y: SystemState, ghost before: seq<Id>, id: Id, player: Id, now: int)
      requires FairRun(Start(began), events) && Reached().clock <= now && y == Reached().(clock := now)
      requires rooms.Unshared() && id in rooms.rooms && View(now) == Departures(y, before, player)
      modifies rooms.rooms.Values, tickets
      ensures rooms.Unshared() && View(now) == Departures(y, before + [id], player)
    {
      SystemTheorems.Reached(began, events);
      ClockAdvances(Reached(), now);
      DeparturesKeep(y, before, player);
      assert (before + [id])[..|before|] == before;
      EvictHere(id, player, now);
    }

    method EvictHere(id: Id, player: Id, now: int)
      requires rooms.Valid() && id in rooms.rooms
      modifies rooms.rooms.Values, tickets
      ensures rooms.Unshared() && View(now) == DepartIfHeld(old(View(now)), id, player)
    {
      var seated := rooms.SeatsOpenly(id, player);
      if seated {
        var _ := Departing(id, player, now);
      }
    }

    method EvictPlayer(player: Id, now: int)
      requires Valid() && Reached().clock <= now
      modifies this`events, rooms.rooms.Values, tickets
      ensures Valid() && events == old(events) + [At(now, Evict(player))]
    {
      Evicting(player, now);
      Note(At(now, Evict(player)));
    }

    method RevokeAll(closed: seq<Id>)
      modifies tickets
      ensures tickets.tickets == RevokeRooms(old(tickets.tickets), set id | id in closed)
    {
      for i := 0 to |closed|
        invariant tickets.tickets == RevokeRooms(old(tickets.tickets), set id | id in closed[..i])
      {
        tickets.RevokeRoom(closed[i]);
        assert closed[..i + 1] == closed[..i] + [closed[i]];
      }
      assert closed[..|closed|] == closed;
    }

    /** The tickets of the rooms a turn ended go, and so do the expired. */
    method Sweeping(closed: seq<Id>, now: int)
      requires rooms.Unshared()
      modifies tickets
      ensures rooms.Unshared() && rooms.View() == old(rooms.View())
      ensures tickets.tickets == Purge(RevokeRooms(old(tickets.tickets), set id | id in closed), now)
    {
      RevokeAll(closed);
      tickets.Purge(now);
    }

    method Ticking(hosts: Option<map<Id, HostFacts>>, now: int)
      requires rooms.Valid()
      modifies rooms, rooms.rooms.Values, tickets
      ensures rooms.Unshared() && View(now) == TimerAct(old(View(now)), hosts)
    {
      var closed := rooms.Tick(hosts, now);
      Sweeping(closed, now);
    }

    method TakingTurn(hosts: Option<map<Id, HostFacts>>, now: int)
      requires Valid()
      modifies rooms, rooms.rooms.Values, tickets
      ensures rooms.Unshared() && View(now) == Step(Reached(), At(now, Timer(hosts)))
    {
      Grounded();
      Ticking(hosts, now);
    }

    /** One turn of the timer: the rooms advance, the tickets of those that ended go, and so do the expired. */
    method RunTimers(hosts: Option<map<Id, HostFacts>>, now: int)
      requires Valid() && Reached().clock <= now
      modifies this`events, rooms, rooms.rooms.Values, tickets
      ensures Valid() && events == old(events) + [At(now, Timer(hosts))]
    {
      TakingTurn(hosts, now);
      Note(At(now, Timer(hosts)));
    }
  }
}
