/** Exactly when a live ticket can outlast its room, and what the code guarantees when none does. */
module SystemLeaks {
  import opened Basics
  import opened RoomModel
  import opened RoomInvariants
  import opened StoreModel
  import opened StoreInvariants
  import opened TicketModel
  import opened SystemModel
  import opened SystemInvariants
  import opened SystemRuns
  import opened SystemTheorems

  /** Every ticket in the table is for a room that is held and open. */
  ghost predicate OpenTickets(y: SystemState) {
    forall tok :: tok in y.tickets ==>
      y.tickets[tok].claims.room in y.store.rooms && y.store.rooms[y.tickets[tok].claims.room].status != Closed
  }

  /** A fresh ticket for a room that has ended: asked for by somebody still seated there, while the host's address
      can still be given out. */
  predicate ConnectsToClosed(y: SystemState, e: Event) {
    && e.act.Connect? && e.act.player != NOBODY && e.act.room in y.store.rooms
    && y.store.rooms[e.act.room].status == Closed
    && Seated(y.store.rooms[e.act.room], e.act.player)
    && HostAddr(y.store.rooms[e.act.room]).Ok?
  }

  /** The host sets the room to closed while somebody has a ticket for it. */
  predicate ClosesByStatus(y: SystemState, e: Event) {
    && e.act.Announce? && e.act.status == Closed && e.act.room in y.store.rooms
    && y.store.rooms[e.act.room].status != Closed && e.act.actor == y.store.rooms[e.act.room].hostId
    && exists tok :: tok in y.tickets && y.tickets[tok].claims.room == e.act.room
  }

  /** Tickets kept from before, with every room they name still there and open. */
  lemma StillOpen(y: SystemState, after: SystemState)
    requires OpenTickets(y)
    requires forall tok :: tok in after.tickets ==>
               && tok in y.tickets && after.tickets[tok].claims == y.tickets[tok].claims
               && var room := y.tickets[tok].claims.room;
                  room in after.store.rooms
                      && (y.store.rooms[room].status != Closed ==> after.store.rooms[room].status != Closed)
    ensures OpenTickets(after)
  {
  }

  lemma IssueStaysOpen(y: SystemState, tok: Id, player: Id, m: Result<Membership, RoomError>)
    requires OpenTickets(y)
    requires m.Ok? ==> m.value.roomId in y.store.rooms && y.store.rooms[m.value.roomId].status != Closed
    ensures OpenTickets(Issued(y, tok, player, m))
  {
  }

  /** Letting somebody in closes no room, and the ticket it mints is for a room that is open. */
  lemma AdmissionStaysOpen(y: SystemState, room: Id, r: RoomState, tok: Id, player: Id,
                           m: Result<Membership, RoomError>)
    requires OpenTickets(y) && room in y.store.rooms && y.store.rooms[room].id == room
    requires Within(y.store.rooms[room], r, QUIET) || exists id: Id ::
               Within(y.store.rooms[room], r, QUIET.(down := Some(id)))
    requires m.Ok? ==> r.status != Closed && m.value.roomId == r.id
    ensures OpenTickets(Issued(y.(store := With(y.store, room, r)), tok, player, m))
  {
    IssueStaysOpen(y.(store := With(y.store, room, r)), tok, player, m);
  }

  lemma JoinStaysOpen(y: SystemState, room: Id, who: Applicant, tok: Id)
    requires SysInv(y) && OpenTickets(y) && who.id != NOBODY
    ensures OpenTickets(JoinAct(y, room, who, tok))
  {
    if room in y.store.rooms && Elsewhere(y.store, who.id, room).None? {
      var r := Join(y.store.rooms[room], who, y.clock).0;
      JoinKeeps(y.store.rooms[room], who, y.clock);
      MembershipTellsAddress(r, who.id);
      AdmissionStaysOpen(y, room, r, tok, who.id, JoinRoom(y.store, room, who, y.clock).1);
    }
  }

  lemma SpectateStaysOpen(y: SystemState, room: Id, who: Applicant, tok: Id)
    requires SysInv(y) && OpenTickets(y) && who.id != NOBODY
    ensures OpenTickets(SpectateAct(y, room, who, tok))
  {
    if room in y.store.rooms && Elsewhere(y.store, who.id, room).None? {
      var r := JoinObserver(y.store.rooms[room], who, y.clock).0;
      JoinObserverKeeps(y.store.rooms[room], who, y.clock);
      MembershipTellsAddress(r, who.id);
      AdmissionStaysOpen(y, room, r, tok, who.id, JoinRoomObserver(y.store, room, who, y.clock).1);
    }
  }

  lemma ModerateStaysOpen(y: SystemState, room: Id, player: Id, tok: Id)
    requires SysInv(y) && OpenTickets(y) && player != NOBODY
    ensures OpenTickets(ModerateAct(y, room, player, tok))
  {
    if room in y.store.rooms && Elsewhere(y.store, player, room).None? {
      var (r, answer) := JoinAdmin(y.store.rooms[room], player, y.clock);
      JoinAdminKeeps(y.store.rooms[room], player, y.clock);
      if answer.Ok? { AdminMembershipTellsAddress(r, player, answer.value); }
      AdmissionStaysOpen(y, room, r, tok, player, JoinRoomAdmin(y.store, room, player, y.clock).1);
    }
  }

  /** One ticket more keeps every ticket for an open room exactly when its own room is open. */
  lemma IssueOpenExactly(y: SystemState, tok: Id, player: Id, m: Membership)
    requires OpenTickets(y)
    ensures OpenTickets(Issued(y, tok, player, Ok(m))) <==>
              m.roomId in y.store.rooms && y.store.rooms[m.roomId].status != Closed
  {
    var after := Issued(y, tok, player, Ok(m));
    assert tok in after.tickets && after.tickets[tok].claims.room == m.roomId;
  }

  lemma ConnectOpenExactly(y: SystemState, room: Id, player: Id, tok: Id)
    requires SysInv(y) && OpenTickets(y) && player != NOBODY
    ensures OpenTickets(ConnectAct(y, room, player, tok)) <==>
              !ConnectsToClosed(y, At(y.clock, Connect(room, player, tok)))
  {
    var m := MembershipOf(y.store, room, player);
    if room in y.store.rooms {
      ClosedConnects(y.store, room, player);
    }
    if m.Ok? {
      IssueOpenExactly(y, tok, player, m.value);
    }
  }

  /** Whatever the room's state, a connect succeeds exactly for somebody seated there, while the host's address is
      known. A room whose host has walked out gives nobody a ticket. */
  lemma ClosedConnects(s: StoreState, id: Id, p: Id)
    requires StoreInv(s) && id in s.rooms && p != NOBODY
    ensures MembershipOf(s, id, p).Ok? <==> Seated(s.rooms[id], p) && HostAddr(s.rooms[id]).Ok?
    ensures MembershipOf(s, id, p).Ok? ==> MembershipOf(s, id, p).value.roomId == id
  {
    var r := s.rooms[id];
    MembershipTellsAddress(r, p);
    MembershipExactly(s, id, p);
  }

  lemma CreatedStaysOpen(y: SystemState, player: Id, id: Id, tok: Id)
    requires SysInv(y) && OpenTickets(y) && player != NOBODY && id != NOBODY && id !in y.store.issued
    ensures var (store, m) := CreateRoom(y.store, player, id);
            && OpenTickets(Issued(y.(store := store), tok, player, m))
            && (m.Ok? ==> id in store.rooms && store.rooms[id].status == Open)
  {
    CreateKeeps(y.store, player, id);
    var (store, m) := CreateRoom(y.store, player, id);
    if m.Ok? {
      MembershipTellsAddress(store.rooms[id], player);
      IssueStaysOpen(y.(store := store), tok, player, m);
    }
  }

  lemma DooredStaysOpen(made: SystemState, player: Id, id: Id, d: Door)
    requires OpenTickets(made) && id in made.store.rooms
    ensures OpenTickets(Doored(made, player, id, d))
  {
  }

  lemma CreateStaysOpen(y: SystemState, player: Id, id: Id, tok: Id, door: Option<Door>)
    requires SysInv(y) && OpenTickets(y) && player != NOBODY && id != NOBODY && id !in y.store.issued
    ensures OpenTickets(CreateAct(y, player, id, tok, door))
  {
    CreatedStaysOpen(y, player, id, tok);
    var (store, m) := CreateRoom(y.store, player, id);
    if m.Ok? && door.Some? {
      DooredStaysOpen(Issued(y.(store := store), tok, player, m), player, id, door.value);
    }
  }

  lemma DepartStaysOpen(y: SystemState, room: Id, player: Id)
    requires SysInv(y) && OpenTickets(y)
    ensures OpenTickets(DepartAct(y, room, player))
  {
    if room in y.store.rooms {
      LeaveKeeps(y.store.rooms[room], player, y.clock);
      StillOpen(y, DepartAct(y, room, player));
    }
  }

  lemma KickStaysOpen(y: SystemState, room: Id, actor: Id, target: Id)
    requires SysInv(y) && OpenTickets(y)
    ensures OpenTickets(KickAct(y, room, actor, target))
  {
    if room in y.store.rooms {
      KickNeverCloses(y.store.rooms[room], actor, target, y.clock);
      StillOpen(y, KickAct(y, room, actor, target));
    }
  }

  lemma KickNeverCloses(r: RoomState, actor: Id, target: Id, now: int)
    ensures Kick(r, actor, target, now).0.status == r.status
  {
  }

  lemma EvictStaysOpen(y: SystemState, player: Id)
    requires SysInv(y) && OpenTickets(y)
    ensures OpenTickets(EvictAct(y, player))
  {
    var y' := EvictAct(y, player);
    forall tok | tok in y'.tickets
      ensures var room := y.tickets[tok].claims.room; room in y'.store.rooms && y'.store.rooms[room].status != Closed
    {
      var room := y.tickets[tok].claims.room;
      LeaveKeeps(y.store.rooms[room], player, y.clock);
    }
  }

  lemma TimerStaysOpen(y: SystemState, hosts: Option<map<Id, HostFacts>>)
    requires SysInv(y) && OpenTickets(y)
    ensures OpenTickets(TimerAct(y, hosts))
  {
    var y' := TimerAct(y, hosts);
    forall tok | tok in y'.tickets
      ensures var room := y.tickets[tok].claims.room; room in y'.store.rooms && y'.store.rooms[room].status != Closed
    {
      var room := y.tickets[tok].claims.room;
      assert room !in ClosedByTick(y.store, hosts, y.clock);
    }
  }

  lemma AnnounceOpenExactly(y: SystemState, e: Event)
    requires SysInv(y) && OpenTickets(y) && e.act.Announce?
    ensures OpenTickets(Step(y, e)) <==> !ClosesByStatus(y, e)
  {
    var (room, actor, status) := (e.act.room, e.act.actor, e.act.status);
    var after := Step(y, e);
    assert after.tickets == y.tickets;
    if room in y.store.rooms {
      assert after.store.rooms[room] == SetStatus(y.store.rooms[room], actor, status).0;
    }
  }

  lemma ControlsKeepTickets(y: SystemState, e: Event)
    requires e.act.Reseating? || e.act.HandOver? || e.act.SetDoor? || e.act.Ask? || e.act.Withdraw?
    ensures Step(y, e).tickets == y.tickets
  {
  }

  lemma ControlKeepsOpen(y: SystemState, e: Event, room: Id)
    requires SysInv(y) && Fair(y, e) && room in y.store.rooms && y.store.rooms[room].status != Closed
    requires e.act.Reseating? || e.act.HandOver? || e.act.SetDoor? || e.act.Ask? || e.act.Withdraw?
    ensures room in Step(y, e).store.rooms && Step(y, e).store.rooms[room].status != Closed
  {
    OthersKeepRooms(y, e);
    RoomStep(y, e, room);
    ControlsNeverClose(y, e, room);
  }

  lemma ControlsNeverClose(y: SystemState, e: Event, room: Id)
    requires room in y.store.rooms
    requires e.act.Reseating? || e.act.HandOver? || e.act.SetDoor? || e.act.Ask? || e.act.Withdraw?
    ensures !FootprintOf(y.store.rooms[room], OpOn(y, e, room)).closes
  {
  }

  /** The controls that leave every status as it was. */
  lemma ControlsStayOpen(y: SystemState, e: Event)
    requires SysInv(y) && Fair(y, e) && OpenTickets(y)
    requires e.act.Reseating? || e.act.HandOver? || e.act.SetDoor? || e.act.Ask? || e.act.Withdraw?
    ensures OpenTickets(Step(y, e))
  {
    forall tok | tok in y.tickets
      ensures var room := y.tickets[tok].claims.room;
              room in Step(y, e).store.rooms && Step(y, e).store.rooms[room].status != Closed
    {
      ControlKeepsOpen(y, e, y.tickets[tok].claims.room);
    }
    ControlsKeepTickets(y, e);
  }

  lemma AdmissionsStayOpen(y: SystemState, e: Event)
    requires SysInv(y) && Fair(y, e) && OpenTickets(y)
    requires e.act.Create? || e.act.JoinAs? || e.act.Spectate? || e.act.Moderate?
    ensures OpenTickets(Step(y, e))
  {
    ClockAdvances(y, e.now);
    var now := y.(clock := e.now);
    match e.act {
      case Create(player, id, tok, door) => if player != NOBODY { CreateStaysOpen(now, player, id, tok, door); }
      case JoinAs(room, who, tok) => if who.id != NOBODY { JoinStaysOpen(now, room, who, tok); }
      case Spectate(room, who, tok) => if who.id != NOBODY { SpectateStaysOpen(now, room, who, tok); }
      case Moderate(room, player, tok) => if player != NOBODY { ModerateStaysOpen(now, room, player, tok); }
    }
  }

  lemma RemovalsStayOpen(y: SystemState, e: Event)
    requires SysInv(y) && Fair(y, e) && OpenTickets(y)
    requires e.act.Depart? || e.act.KickOut? || e.act.Evict? || e.act.Timer?
    ensures OpenTickets(Step(y, e))
  {
    ClockAdvances(y, e.now);
    var now := y.(clock := e.now);
    match e.act {
      case Depart(room, player) => DepartStaysOpen(now, room, player);
      case KickOut(room, actor, target) => KickStaysOpen(now, room, actor, target);
      case Evict(player) => EvictStaysOpen(now, player);
      case Timer(hosts) => TimerStaysOpen(now, hosts);
    }
  }

  lemma ShutDownStaysOpen(y: SystemState, room: Id)
    requires SysInv(y) && OpenTickets(y)
    ensures OpenTickets(ShutDownAct(y, room))
  {
    StillOpen(y, ShutDownAct(y, room));
  }

  lemma RenewStaysOpen(y: SystemState, tok: Id)
    requires OpenTickets(y)
    ensures OpenTickets(y.(tickets := Renew(y.tickets, tok, y.clock).0))
  {
    StillOpen(y, y.(tickets := Renew(y.tickets, tok, y.clock).0));
  }

  /** The exact condition: as long as every ticket is for an open room, an event breaks that if and only if it
      connects somebody to a room that has ended, or is the host setting a room with tickets out to closed. */
  lemma LeaksExactly(y: SystemState, e: Event)
    requires SysInv(y) && Fair(y, e) && OpenTickets(y)
    ensures OpenTickets(Step(y, e)) <==> !ConnectsToClosed(y, e) && !ClosesByStatus(y, e)
  {
    ClockAdvances(y, e.now);
    match e.act {
      case Create(_, _, _, _) => AdmissionsStayOpen(y, e);
      case JoinAs(_, _, _) => AdmissionsStayOpen(y, e);
      case Spectate(_, _, _) => AdmissionsStayOpen(y, e);
      case Moderate(_, _, _) => AdmissionsStayOpen(y, e);
      case Connect(room, player, tok) =>
        if player != NOBODY { ConnectOpenExactly(y.(clock := e.now), room, player, tok); }
      case Announce(_, _, _) => AnnounceOpenExactly(y, e);
      case Reseating(_, _, _, _) => ControlsStayOpen(y, e);
      case HandOver(_, _) => ControlsStayOpen(y, e);
      case SetDoor(_, _, _) => ControlsStayOpen(y, e);
      case Ask(_, _, _) => ControlsStayOpen(y, e);
      case Withdraw(_, _, _) => ControlsStayOpen(y, e);
      case ShutDown(room) => ShutDownStaysOpen(y.(clock := e.now), room);
      case RenewLease(tok) => RenewStaysOpen(y.(clock := e.now), tok);
      case _ => RemovalsStayOpen(y, e);
    }
  }

  /** A run in which nobody connects to a room that has ended and no host closes a room through its status. */
  ghost predicate LeakFree(y: SystemState, events: seq<Event>)
    decreases |events|
  {
    events == [] ||
    (!ConnectsToClosed(y, events[0]) && !ClosesByStatus(y, events[0]) && LeakFree(Step(y, events[0]), events[1..]))
  }

  lemma {:induction false} LeakFreeKeeps(y: SystemState, events: seq<Event>)
    requires SysInv(y) && OpenTickets(y) && FairRun(y, events) && LeakFree(y, events)
    ensures SysInv(Run(y, events)) && OpenTickets(Run(y, events))
    decreases |events|
  {
    if events != [] {
      StepKeeps(y, events[0]);
      LeaksExactly(y, events[0]);
      LeakFreeKeeps(Step(y, events[0]), events[1..]);
    }
  }

  /** In such a run every ticket is for an open room that seats its player, and no two players ever hold tickets
      for one address. */
  lemma OneAddressOnePlayer(clock: int, events: seq<Event>, tok1: Id, tok2: Id)
    requires FairRun(Start(clock), events) && LeakFree(Start(clock), events)
    ensures var y := After(clock, events);
            tok1 in y.tickets && tok2 in y.tickets ==>
              var c1, c2 := y.tickets[tok1].claims, y.tickets[tok2].claims;
              && Holds(y.store, c1.room, c1.player)
              && (c1.virtualIP == c2.virtualIP <==> c1.player == c2.player)
  {
    StartInv(clock);
    LeakFreeKeeps(Start(clock), events);
    var y := After(clock, events);
    if tok1 in y.tickets && tok2 in y.tickets {
      var c1, c2 := y.tickets[tok1].claims, y.tickets[tok2].claims;
      assert TicketOk(y.store, c1) && TicketOk(y.store, c2);
      SeatedHaveBerths(y.store.rooms[c1.room], c1.player);
      SeatedHaveBerths(y.store.rooms[c2.room], c2.player);
      AddressesAreDistinct(y.store, c1.room, c1.player, c2.room, c2.player);
      assert Holds(y.store, c1.room, c1.player) && Holds(y.store, c2.room, c2.player);
    }
  }
}
