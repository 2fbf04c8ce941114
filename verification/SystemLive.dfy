/** The same exact conditions for the tickets a relay still accepts: expired ones, purged or not, change nothing. */
module SystemLive {
  import opened Basics
  import opened RoomModel
  import opened StoreModel
  import opened TicketModel
  import opened SystemModel
  import opened SystemInvariants
  import opened SystemRuns
  import opened SystemLeaks
  import opened SystemTables
  import opened SystemCollisions

  /** The coordinator with the tickets that have run out by `now` forgotten. */
  function Forget(y: SystemState, now: int): SystemState {
    y.(tickets := Purge(y.tickets, now))
  }

  lemma IssueForgets(t: Tickets, tok: Id, c: Claims, now: int)
    ensures Purge(TicketModel.Issue(t, tok, c, now), now) == TicketModel.Issue(Purge(t, now), tok, c, now)
  {
  }

  lemma RevokeForgets(t: Tickets, player: Id, room: Id, rooms: set<Id>, now: int)
    ensures Purge(RevokePlayerRoom(t, player, room), now) == RevokePlayerRoom(Purge(t, now), player, room)
    ensures Purge(RevokeRooms(t, rooms), now) == RevokeRooms(Purge(t, now), rooms)
  {
    var a, b := Purge(RevokePlayerRoom(t, player, room), now), RevokePlayerRoom(Purge(t, now), player, room);
    assert a.Keys == b.Keys;
    var c, d := Purge(RevokeRooms(t, rooms), now), RevokeRooms(Purge(t, now), rooms);
    assert c.Keys == d.Keys;
  }

  lemma RenewForgets(t: Tickets, tok: Id, now: int)
    ensures Purge(Renew(t, tok, now).0, now) == Renew(Purge(t, now), tok, now).0
  {
  }

  lemma PurgeTwice(t: Tickets, now: int)
    ensures Purge(Purge(t, now), now) == Purge(t, now)
  {
  }

  lemma IssuedForgets(y: SystemState, tok: Id, player: Id, m: Result<Membership, RoomError>)
    ensures Forget(Issued(y, tok, player, m), y.clock) == Issued(Forget(y, y.clock), tok, player, m)
  {
    if m.Ok? { IssueForgets(y.tickets, tok, Claims(player, m.value.roomId, m.value.virtualIP), y.clock); }
  }

  lemma DooredForgets(y: SystemState, player: Id, id: Id, d: Door)
    ensures Forget(Doored(y, player, id, d), y.clock) == Doored(Forget(y, y.clock), player, id, d)
  {
    RevokeForgets(y.tickets, player, id, {id}, y.clock);
  }

  lemma CreateForgets(y: SystemState, player: Id, id: Id, tok: Id, door: Option<Door>)
    ensures Forget(CreateAct(y, player, id, tok, door), y.clock) == CreateAct(Forget(y, y.clock), player, id, tok, door)
  {
    var (store, m) := CreateRoom(y.store, player, id);
    IssuedForgets(y.(store := store), tok, player, m);
    if door.Some? { DooredForgets(Issued(y.(store := store), tok, player, m), player, id, door.value); }
  }

  lemma AdmissionsForget(y: SystemState, room: Id, who: Applicant, tok: Id)
    ensures Forget(JoinAct(y, room, who, tok), y.clock) == JoinAct(Forget(y, y.clock), room, who, tok)
    ensures Forget(SpectateAct(y, room, who, tok), y.clock) == SpectateAct(Forget(y, y.clock), room, who, tok)
  {
    var (store, m) := JoinRoom(y.store, room, who, y.clock);
    IssuedForgets(y.(store := store), tok, who.id, m);
    var (watched, n) := JoinRoomObserver(y.store, room, who, y.clock);
    IssuedForgets(y.(store := watched), tok, who.id, n);
  }

  lemma StaffAndConnectForget(y: SystemState, room: Id, player: Id, tok: Id)
    ensures Forget(ModerateAct(y, room, player, tok), y.clock) == ModerateAct(Forget(y, y.clock), room, player, tok)
    ensures Forget(ConnectAct(y, room, player, tok), y.clock) == ConnectAct(Forget(y, y.clock), room, player, tok)
  {
    var (store, m) := JoinRoomAdmin(y.store, room, player, y.clock);
    IssuedForgets(y.(store := store), tok, player, m);
    IssuedForgets(y, tok, player, MembershipOf(y.store, room, player));
  }

  lemma DeparturesForget(y: SystemState, room: Id, player: Id, actor: Id)
    ensures Forget(DepartAct(y, room, player), y.clock) == DepartAct(Forget(y, y.clock), room, player)
    ensures Forget(KickAct(y, room, actor, player), y.clock) == KickAct(Forget(y, y.clock), room, actor, player)
    ensures Forget(ShutDownAct(y, room), y.clock) == ShutDownAct(Forget(y, y.clock), room)
  {
    RevokeForgets(y.tickets, player, room, {room}, y.clock);
  }

  lemma EvictForgets(y: SystemState, player: Id)
    ensures Forget(EvictAct(y, player), y.clock) == EvictAct(Forget(y, y.clock), player)
  {
    var a, b := Forget(EvictAct(y, player), y.clock), EvictAct(Forget(y, y.clock), player);
    assert a.tickets.Keys == b.tickets.Keys;
  }

  lemma TimerForgets(y: SystemState, hosts: Option<map<Id, HostFacts>>)
    ensures Forget(TimerAct(y, hosts), y.clock) == TimerAct(Forget(y, y.clock), hosts)
  {
    RevokeForgets(y.tickets, NOBODY, NOBODY, ClosedByTick(y.store, hosts, y.clock), y.clock);
    PurgeTwice(RevokeRooms(y.tickets, ClosedByTick(y.store, hosts, y.clock)), y.clock);
  }

  lemma MintingForgets(y: SystemState, e: Event)
    requires TokenOf(e.act).Some?
    ensures Forget(Step(y, e), e.now) == Step(Forget(y, e.now), e)
  {
    var now := y.(clock := e.now);
    assert Forget(now, e.now) == Forget(y, e.now).(clock := e.now);
    match e.act {
      case Create(player, id, tok, door) => CreateForgets(now, player, id, tok, door);
      case JoinAs(room, who, tok) => AdmissionsForget(now, room, who, tok);
      case Spectate(room, who, tok) => AdmissionsForget(now, room, who, tok);
      case Moderate(room, player, tok) => StaffAndConnectForget(now, room, player, tok);
      case Connect(room, player, tok) => StaffAndConnectForget(now, room, player, tok);
    }
  }

  lemma RevokingForgets(y: SystemState, e: Event)
    requires e.act.Depart? || e.act.KickOut? || e.act.ShutDown? || e.act.Evict? || e.act.Timer? || e.act.RenewLease?
    ensures Forget(Step(y, e), e.now) == Step(Forget(y, e.now), e)
  {
    var now := y.(clock := e.now);
    assert Forget(now, e.now) == Forget(y, e.now).(clock := e.now);
    match e.act {
      case Depart(room, player) => DeparturesForget(now, room, player, NOBODY);
      case KickOut(room, actor, target) => DeparturesForget(now, room, target, actor);
      case ShutDown(room) => DeparturesForget(now, room, NOBODY, NOBODY);
      case Evict(player) => EvictForgets(now, player);
      case Timer(hosts) => TimerForgets(now, hosts);
      case RenewLease(tok) => RenewForgets(now.tickets, tok, e.now);
    }
  }

  lemma ControlsForget(y: SystemState, e: Event)
    requires e.act.Reseating? || e.act.Announce? || e.act.HandOver? || e.act.SetDoor? || e.act.Ask? || e.act.Withdraw?
    ensures Forget(Step(y, e), e.now) == Step(Forget(y, e.now), e)
  {
  }

  /** Forgetting what has run out before an event comes to the same as forgetting it afterwards. */
  lemma StepForgets(y: SystemState, e: Event)
    ensures Forget(Step(y, e), e.now) == Step(Forget(y, e.now), e)
  {
    if TokenOf(e.act).Some? {
      MintingForgets(y, e);
    } else if e.act.Depart? || e.act.KickOut? || e.act.ShutDown? || e.act.Evict? || e.act.Timer? || e.act.RenewLease? {
      RevokingForgets(y, e);
    } else {
      ControlsForget(y, e);
    }
  }

  /** The tickets that still validate at the coordinator's own time. */
  ghost predicate LiveOpen(y: SystemState) {
    OpenTickets(Forget(y, y.clock))
  }

  ghost predicate LiveClear(y: SystemState) {
    Clear(Purge(y.tickets, y.clock))
  }

  lemma ForgetKeeps(y: SystemState, now: int)
    requires SysInv(y) && y.clock <= now
    ensures SysInv(Forget(y, now))
    ensures LiveOpen(y) ==> OpenTickets(Forget(y, now))
    ensures LiveClear(y) ==> Clear(Forget(y, now).tickets)
  {
    assert forall k :: k in Purge(y.tickets, now) ==> k in Purge(y.tickets, y.clock);
  }

  /** A live ticket outlasts its room's being open exactly by a connect to a room that has ended, or by its host setting
      a room to closed that somebody has a live ticket for. */
  lemma LiveLeaksExactly(y: SystemState, e: Event)
    requires SysInv(y) && Fair(y, e) && LiveOpen(y)
    ensures LiveOpen(Step(y, e)) <==> !ConnectsToClosed(y, e) && !ClosesByStatus(Forget(y, e.now), e)
  {
    ForgetKeeps(y, e.now);
    LeaksExactly(Forget(y, e.now), e);
    StepForgets(y, e);
    StepKeeps(y, e);
  }

  /** Two players come to hold live tickets for one address exactly when an event gives somebody an address that a live
      ticket of another player still names for a room no longer held. */
  lemma LiveClearExactly(y: SystemState, e: Event)
    requires SysInv(y) && Fair(y, e) && LiveClear(y) && FreshToken(Purge(y.tickets, e.now), e)
    ensures LiveClear(Step(y, e)) <==> !Collides(Forget(y, e.now), e)
  {
    ForgetKeeps(y, e.now);
    ClearExactly(Forget(y, e.now), e);
    StepForgets(y, e);
    StepKeeps(y, e);
  }

  /** Tokens are drawn afresh: no request's token is that of a live ticket. */
  ghost predicate FreshTokens(y: SystemState, events: seq<Event>)
    decreases |events|
  {
    events == [] || (FreshToken(Purge(y.tickets, events[0].now), events[0])
        && FreshTokens(Step(y, events[0]), events[1..]))
  }

  ghost predicate ClearThroughout(y: SystemState, events: seq<Event>)
    decreases |events|
  {
    LiveClear(y) && (events == [] || ClearThroughout(Step(y, events[0]), events[1..]))
  }

  ghost predicate NeverCollides(y: SystemState, events: seq<Event>)
    decreases |events|
  {
    events == [] || (!Collides(Forget(y, events[0].now), events[0]) && NeverCollides(Step(y, events[0]), events[1..]))
  }

  lemma {:induction false} RunClearExactly(y: SystemState, events: seq<Event>)
    requires SysInv(y) && FairRun(y, events) && FreshTokens(y, events) && LiveClear(y)
    ensures ClearThroughout(y, events) <==> NeverCollides(y, events)
    decreases |events|
  {
    if events != [] {
      StepKeeps(y, events[0]);
      LiveClearExactly(y, events[0]);
      if LiveClear(Step(y, events[0])) {
        RunClearExactly(Step(y, events[0]), events[1..]);
      }
    }
  }

  /** Two live tickets with one address belong to one player at every moment of a run if and only if none of its events
      gives an address away that a live ticket of somebody else still names for a room that is gone. */
  lemma OnePlayerPerAddressExactly(clock: int, events: seq<Event>)
    requires FairRun(Start(clock), events) && FreshTokens(Start(clock), events)
    ensures ClearThroughout(Start(clock), events) <==> NeverCollides(Start(clock), events)
  {
    StartInv(clock);
    RunClearExactly(Start(clock), events);
  }
}
