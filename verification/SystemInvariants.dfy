/** What every request and every turn of the timer keeps of the two tables together. */
module SystemInvariants {
  import opened Basics
  import opened RoomModel
  import opened RoomInvariants
  import opened StoreModel
  import opened StoreInvariants
  import opened TicketModel
  import opened SystemModel

  /** If the room a ticket names is still held, the ticket names the address its player has there. */
  ghost predicate TicketOk(s: StoreState, c: Claims) {
    && c.player != NOBODY && c.room in s.issued
    && (c.room in s.rooms ==> AddressIn(s.rooms[c.room], c.player) == Some(c.virtualIP))
  }

  ghost predicate TicketsOk(s: StoreState, t: Tickets) {
    forall tok :: tok in t ==> TicketOk(s, t[tok].claims)
  }

  ghost predicate KicksOk(s: StoreState, clock: int) {
    forall id :: id in s.rooms ==> KicksInv(s.rooms[id], clock) && KickedKnown(s.rooms[id])
  }

  ghost predicate SysInv(y: SystemState) {
    StoreInv(y.store) && TicketsOk(y.store, y.tickets) && KicksOk(y.store, y.clock)
  }

  /** Every room still there afterwards went through `op`, if it is `room`, and through nothing otherwise. */
  ghost predicate Touches(s: StoreState, s': StoreState, room: Id, op: RoomOp) {
    forall id :: id in s.rooms && id in s'.rooms ==>
      s'.rooms[id] == if id == room then Apply(s.rooms[id], op) else s.rooms[id]
  }

  /** A ticket survives a step that leaves its player where they sat. */
  lemma TicketStays(s: StoreState, s': StoreState, c: Claims, f: Footprint)
    requires StoreInv(s) && StoreInv(s') && TicketOk(s, c) && s.issued <= s'.issued
    requires c.room in s'.rooms ==>
               c.room in s.rooms && Within(s.rooms[c.room], s'.rooms[c.room], f) && f.up != Some(c.player)
    ensures TicketOk(s', c)
  {
    if c.room in s'.rooms {
      var r := s.rooms[c.room];
      SeatedHaveBerths(r, c.player);
      BerthStays(r, s'.rooms[c.room], f, c.player);
    }
  }

  lemma OnRoomKeepsTickets(y: SystemState, room: Id, op: RoomOp, tickets: Tickets)
    requires SysInv(y) && room in y.store.rooms && Named(op) && StoreInv(OnRoom(y.store, room, op))
    requires forall tok :: tok in tickets ==> tok in y.tickets && tickets[tok].claims == y.tickets[tok].claims
    requires forall tok :: tok in tickets && tickets[tok].claims.room == room ==>
                             FootprintOf(y.store.rooms[room], op).up != Some(tickets[tok].claims.player)
    ensures TicketsOk(OnRoom(y.store, room, op), tickets)
  {
    var s, s' := y.store, OnRoom(y.store, room, op);
    ApplyKeeps(s.rooms[room], op);
    forall tok | tok in tickets
      ensures TicketOk(s', tickets[tok].claims)
    {
      var c := tickets[tok].claims;
      assert TicketOk(s, c);
      if c.room == room {
        TicketStays(s, s', c, FootprintOf(s.rooms[room], op));
      }
    }
  }

  lemma OnRoomKeepsKicks(s: StoreState, room: Id, op: RoomOp, clock: int)
    requires room in s.rooms && RoomInv(s.rooms[room]) && KicksOk(s, clock) && Named(op) && Timed(op, clock)
    ensures KicksOk(OnRoom(s, room, op), clock)
  {
    ApplyKeepsKicks(s.rooms[room], op, clock, clock);
  }

  /** One operation on one room, with the tickets of whoever got up taken back. */
  lemma OnRoomKeepsSystem(y: SystemState, room: Id, op: RoomOp, tickets: Tickets)
    requires SysInv(y) && room in y.store.rooms && Named(op) && Timed(op, y.clock)
    requires SeatsFreely(y.store, room, op)
    requires forall tok :: tok in tickets ==> tok in y.tickets && tickets[tok].claims == y.tickets[tok].claims
    requires forall tok :: tok in tickets && tickets[tok].claims.room == room ==>
                             FootprintOf(y.store.rooms[room], op).up != Some(tickets[tok].claims.player)
    ensures SysInv(SystemState(OnRoom(y.store, room, op), tickets, y.clock))
    ensures Touches(y.store, OnRoom(y.store, room, op), room, op)
  {
    OnRoomKeeps(y.store, room, op);
    OnRoomKeepsKicks(y.store, room, op, y.clock);
    OnRoomKeepsTickets(y, room, op, tickets);
  }

  lemma ClockAdvances(y: SystemState, now: int)
    requires SysInv(y) && y.clock <= now
    ensures SysInv(y.(clock := now))
  {
  }

  lemma StartInv(clock: int)
    ensures SysInv(Start(clock))
  {
    EmptyStoreInv();
  }

  /** A ticket minted from a membership of somebody seated there is in order. */
  lemma IssuedOk(y: SystemState, tok: Id, player: Id, m: Result<Membership, RoomError>)
    requires SysInv(y) && player != NOBODY
    requires m.Ok? ==> m.value.roomId in y.store.rooms
                       && AddressIn(y.store.rooms[m.value.roomId], player) == Some(m.value.virtualIP)
    ensures SysInv(Issued(y, tok, player, m)) && Issued(y, tok, player, m).store == y.store
  {
  }

  lemma JoinActKeeps(y: SystemState, room: Id, who: Applicant, tok: Id)
    requires SysInv(y) && who.id != NOBODY
    ensures var y' := JoinAct(y, room, who, tok);
            && SysInv(y') && y'.clock == y.clock
            && Touches(y.store, y'.store, room, if Elsewhere(y.store, who.id, room).None? then OpJoin(who, y.clock)
                else OpNothing)
  {
    var (store, m) := JoinRoom(y.store, room, who, y.clock);
    NotElsewhere(y.store, who.id, room);
    if room in y.store.rooms && Elsewhere(y.store, who.id, room).None? {
      var op := OpJoin(who, y.clock);
      OnRoomKeepsSystem(y, room, op, y.tickets);
      MembershipTellsAddress(store.rooms[room], who.id);
      IssuedOk(y.(store := store), tok, who.id, m);
    } else {
      assert store == y.store;
    }
  }

  lemma SpectateActKeeps(y: SystemState, room: Id, who: Applicant, tok: Id)
    requires SysInv(y) && who.id != NOBODY
    ensures var y' := SpectateAct(y, room, who, tok);
            && SysInv(y') && y'.clock == y.clock
            && Touches(y.store, y'.store, room, if Elsewhere(y.store, who.id, room).None? then OpObserve(who, y.clock)
                else OpNothing)
  {
    var (store, m) := JoinRoomObserver(y.store, room, who, y.clock);
    NotElsewhere(y.store, who.id, room);
    if room in y.store.rooms && Elsewhere(y.store, who.id, room).None? {
      OnRoomKeepsSystem(y, room, OpObserve(who, y.clock), y.tickets);
      MembershipTellsAddress(store.rooms[room], who.id);
      IssuedOk(y.(store := store), tok, who.id, m);
    } else {
      assert store == y.store;
    }
  }

  lemma ModeratorTold(r: RoomState, player: Id, now: int)
    requires RoomInv(r) && player != NOBODY
    ensures var (r', answer) := JoinAdmin(r, player, now);
            answer.Ok? && AdminMembershipFor(r', answer.value).Ok? ==>
              var m := AdminMembershipFor(r', answer.value).value;
              m.roomId == r.id && AddressIn(r', player) == Some(m.virtualIP)
  {
    var (r', answer) := JoinAdmin(r, player, now);
    JoinAdminKeeps(r, player, now);
    if answer.Ok? { AdminMembershipTellsAddress(r', player, answer.value); }
  }

  lemma ModerateActKeeps(y: SystemState, room: Id, player: Id, tok: Id)
    requires SysInv(y) && player != NOBODY
    ensures var y' := ModerateAct(y, room, player, tok);
            && SysInv(y') && y'.clock == y.clock
            && Touches(y.store, y'.store, room,
                if Elsewhere(y.store, player, room).None? then OpAdmin(player, y.clock) else OpNothing)
  {
    var (store, m) := JoinRoomAdmin(y.store, room, player, y.clock);
    NotElsewhere(y.store, player, room);
    if room in y.store.rooms && Elsewhere(y.store, player, room).None? {
      OnRoomKeepsSystem(y, room, OpAdmin(player, y.clock), y.tickets);
      ModeratorTold(y.store.rooms[room], player, y.clock);
      IssuedOk(y.(store := store), tok, player, m);
    } else {
      assert store == y.store;
    }
  }

  lemma ConnectActKeeps(y: SystemState, room: Id, player: Id, tok: Id)
    requires SysInv(y) && player != NOBODY
    ensures var y' := ConnectAct(y, room, player, tok);
            SysInv(y') && y'.clock == y.clock && y'.store == y.store
  {
    var m := MembershipOf(y.store, room, player);
    if m.Ok? {
      var r := y.store.rooms[room];
      MembershipTellsAddress(r, player);
      var (seat, kind) := SlotOf(r, player).value;
      if kind == Admin {
        AdminMembershipTellsAddress(r, player, seat);
      }
    }
    IssuedOk(y, tok, player, m);
  }

  lemma DepartActKeeps(y: SystemState, room: Id, player: Id)
    requires SysInv(y)
    ensures var y' := DepartAct(y, room, player);
            && SysInv(y') && y'.clock == y.clock
            && Touches(y.store, y'.store, room, OpLeave(player, y.clock))
  {
    if room in y.store.rooms {
      OnRoomKeepsSystem(y, room, OpLeave(player, y.clock), DepartAct(y, room, player).tickets);
    }
  }

  lemma KickActKeeps(y: SystemState, room: Id, actor: Id, target: Id)
    requires SysInv(y)
    ensures var y' := KickAct(y, room, actor, target);
            && SysInv(y') && y'.clock == y.clock
            && Touches(y.store, y'.store, room, OpKick(actor, target, y.clock))
  {
    if room in y.store.rooms {
      var op := OpKick(actor, target, y.clock);
      var y' := KickAct(y, room, actor, target);
      if KickFrom(y.store, room, actor, target, y.clock).1.None? {
        OnRoomKeepsSystem(y, room, op, y'.tickets);
      } else {
        assert OnRoom(y.store, room, op) == y.store;
      }
    }
  }

  /** The requests that change one room's record and nobody's seat or ticket. */
  lemma QuietActKeeps(y: SystemState, room: Id, op: RoomOp, store: StoreState)
    requires SysInv(y) && Named(op) && Timed(op, y.clock)
    requires op.OpMove? || op.OpStatus? || op.OpSetHost? || op.OpPrivacy? || op.OpInvite? || op.OpUninvite?
    requires store == if room in y.store.rooms then OnRoom(y.store, room, op) else y.store
    ensures SysInv(y.(store := store)) && Touches(y.store, store, room, op)
  {
    if room in y.store.rooms {
      assert FootprintOf(y.store.rooms[room], op).up.None? && FootprintOf(y.store.rooms[room], op).down.None?;
      OnRoomKeepsSystem(y, room, op, y.tickets);
    }
  }

  /** Tickets outlive a room's removal only by naming a room that is no longer held. */
  lemma FewerRoomsKeepTickets(s: StoreState, s': StoreState, t: Tickets, t': Tickets)
    requires StoreInv(s) && StoreInv(s') && TicketsOk(s, t) && s'.issued == s.issued
    requires forall id :: id in s'.rooms ==> id in s.rooms
    requires forall tok :: tok in t' ==> tok in t && t'[tok] == t[tok]
    requires forall tok :: tok in t' && t'[tok].claims.room in s'.rooms ==>
               var c := t'[tok].claims; AddressIn(s'.rooms[c.room], c.player) == AddressIn(s.rooms[c.room], c.player)
    ensures TicketsOk(s', t')
  {
    forall tok | tok in t' ensures TicketOk(s', t'[tok].claims) {
      assert TicketOk(s, t[tok].claims);
    }
  }

  lemma ShutDownActKeeps(y: SystemState, room: Id)
    requires SysInv(y)
    ensures var y' := ShutDownAct(y, room);
            SysInv(y') && y'.clock == y.clock && Touches(y.store, y'.store, room, OpNothing)
  {
    var y' := ShutDownAct(y, room);
    CloseKeeps(y.store, room, NOBODY);
    FewerRoomsKeepTickets(y.store, y'.store, y.tickets, y'.tickets);
  }

  lemma TimerActKeeps(y: SystemState, hosts: Option<map<Id, HostFacts>>)
    requires SysInv(y)
    ensures var y' := TimerAct(y, hosts);
            && SysInv(y') && y'.clock == y.clock
            && forall id :: id in y'.store.rooms ==>
                  id in y.store.rooms && y'.store.rooms[id] == Looked(y.store.rooms[id], hosts, y.clock)
  {
    var y' := TimerAct(y, hosts);
    TickKeeps(y.store, hosts, y.clock);
    TickRoomsOk(y.store, hosts, y.clock);
    forall tok | tok in y'.tickets && y'.tickets[tok].claims.room in y'.store.rooms
      ensures var c := y'.tickets[tok].claims;
              AddressIn(y'.store.rooms[c.room], c.player) == AddressIn(y.store.rooms[c.room], c.player)
    {
      var c := y'.tickets[tok].claims;
      assert TicketOk(y.store, c);
      SeatedHaveBerths(y.store.rooms[c.room], c.player);
      BerthStays(y.store.rooms[c.room], y'.store.rooms[c.room],
                 LookFootprint(y.store.rooms[c.room], hosts, y.clock), c.player);
    }
    FewerRoomsKeepTickets(y.store, y'.store, y.tickets, y'.tickets);
    forall id | id in y'.store.rooms ensures KicksInv(y'.store.rooms[id], y.clock) && KickedKnown(y'.store.rooms[id]) {
      assert Within(y.store.rooms[id], y'.store.rooms[id], LookFootprint(y.store.rooms[id], hosts, y.clock));
    }
  }

  lemma EvictRoomsOk(y: SystemState, player: Id)
    requires SysInv(y)
    ensures var s, s' := y.store, EvictAct(y, player).store;
            && StoreInv(s')
            && (forall id :: id in s.rooms && id in EvictedFrom(s, player) ==>
                  Within(s.rooms[id], s'.rooms[id], LeaveFootprint(s.rooms[id], player, y.clock)))
  {
    var s, s' := y.store, EvictAct(y, player).store;
    forall id | id in s.rooms && id in EvictedFrom(s, player)
      ensures RoomInv(s'.rooms[id])
      ensures Within(s.rooms[id], s'.rooms[id], LeaveFootprint(s.rooms[id], player, y.clock))
    {
      LeaveKeeps(s.rooms[id], player, y.clock);
    }
    assert RoomsOk(s');
    assert IndexesAgree(s');
    forall a, p: Id | p != NOBODY && Holds(s', a, p) ensures Holds(s, a, p) {
    }
  }

  lemma EvictKeepsTickets(y: SystemState, player: Id)
    requires SysInv(y)
    ensures TicketsOk(EvictAct(y, player).store, EvictAct(y, player).tickets)
  {
    var s, y' := y.store, EvictAct(y, player);
    EvictRoomsOk(y, player);
    forall tok | tok in y'.tickets ensures TicketOk(y'.store, y'.tickets[tok].claims) {
      var c := y.tickets[tok].claims;
      assert TicketOk(s, c);
      if c.room in EvictedFrom(s, player) {
        TicketStays(s, y'.store, c, LeaveFootprint(s.rooms[c.room], player, y.clock));
      }
    }
  }

  lemma EvictActKeeps(y: SystemState, player: Id)
    requires SysInv(y)
    ensures var y' := EvictAct(y, player);
            && SysInv(y') && y'.clock == y.clock
            && forall id :: id in y'.store.rooms ==>
                 id in y.store.rooms && y'.store.rooms[id] ==
                   if id in EvictedFrom(y.store, player) then Leave(y.store.rooms[id], player, y.clock)
                       else y.store.rooms[id]
  {
    EvictRoomsOk(y, player);
    EvictKeepsTickets(y, player);
    assert KicksOk(EvictAct(y, player).store, y.clock);
  }

  lemma CreatedHost(s: StoreState, player: Id, id: Id)
    requires StoreInv(s) && player != NOBODY && id != NOBODY && id !in s.issued
    ensures var store := CreateRoom(s, player, id).0;
            id in store.rooms ==> HostFirst(store.rooms[id]) && store.rooms[id].hostId == player
  {
    CreateKeeps(s, player, id);
  }

  /** A room more, nobody's record or ticket touched. */
  lemma MoreRoomsKeep(y: SystemState, store: StoreState, id: Id, r: RoomState)
    requires SysInv(y) && id !in y.store.issued && StoreInv(store) && y.store.issued <= store.issued
    requires store.rooms == y.store.rooms[id := r] && KicksInv(r, y.clock) && KickedKnown(r)
    ensures SysInv(y.(store := store)) && Touches(y.store, store, id, OpNothing)
  {
    assert forall k :: k in y.tickets ==> TicketOk(y.store, y.tickets[k].claims);
  }

  lemma CreatedKeeps(y: SystemState, player: Id, id: Id, tok: Id)
    requires SysInv(y) && player != NOBODY && id != NOBODY && id !in y.store.issued
    ensures var (store, m) := CreateRoom(y.store, player, id);
            var made := Issued(y.(store := store), tok, player, m);
            && SysInv(made) && made.clock == y.clock && made.store == store
            && Touches(y.store, store, id, OpNothing)
            && (m.Err? ==> made == y) && (m.Ok? ==> id in store.rooms) && id !in y.store.rooms
  {
    CreateKeeps(y.store, player, id);
    var (store, m) := CreateRoom(y.store, player, id);
    if m.Ok? {
      MembershipTellsAddress(store.rooms[id], player);
      MoreRoomsKeep(y, store, id, store.rooms[id]);
      IssuedOk(y.(store := store), tok, player, m);
    }
  }

  lemma DooredKeeps(made: SystemState, player: Id, id: Id, d: Door)
    requires SysInv(made) && id in made.store.rooms
    ensures SysInv(Doored(made, player, id, d)) && Doored(made, player, id, d).clock == made.clock
  {
    var (locked, refused) := SetRoomPrivacy(made.store, id, player, d.privacy, d.password, d.minMMR);
    QuietActKeeps(made, id, OpPrivacy(player, d.privacy, d.password, d.minMMR), locked);
    CloseKeeps(made.store, id, player);
    FewerRoomsKeepTickets(made.store, CloseRoom(made.store, id, player).0, made.tickets,
        RevokeRooms(made.tickets, {id}));
  }

  lemma DooredTouches(made: SystemState, player: Id, id: Id, d: Door)
    requires id in made.store.rooms
    ensures var y' := Doored(made, player, id, d);
            && (forall b :: b in y'.store.rooms && b != id ==>
                  b in made.store.rooms && y'.store.rooms[b] == made.store.rooms[b])
            && (id in y'.store.rooms ==> y'.store.rooms[id].hostId == made.store.rooms[id].hostId
                                         && y'.store.rooms[id].addr == made.store.rooms[id].addr)
  {
  }

  lemma CreateActKeeps(y: SystemState, player: Id, id: Id, tok: Id, door: Option<Door>)
    requires SysInv(y) && player != NOBODY && id != NOBODY && id !in y.store.issued
    ensures var y' := CreateAct(y, player, id, tok, door);
            && SysInv(y') && y'.clock == y.clock
            && Touches(y.store, y'.store, id, OpNothing)
            && (id in y'.store.rooms ==> y'.store.rooms[id].hostId == player && HostFirst(y'.store.rooms[id]))
  {
    CreatedKeeps(y, player, id, tok);
    CreatedHost(y.store, player, id);
    var (store, m) := CreateRoom(y.store, player, id);
    if m.Ok? && door.Some? {
      DooredKeeps(Issued(y.(store := store), tok, player, m), player, id, door.value);
      DooredTouches(Issued(y.(store := store), tok, player, m), player, id, door.value);
    }
  }

  lemma RenewKeeps(y: SystemState, tok: Id)
    requires SysInv(y)
    ensures SysInv(y.(tickets := Renew(y.tickets, tok, y.clock).0))
  {
  }
}
