/** Exactly when two players come to hold tickets for one address. */
module SystemCollisions {
  import opened Basics
  import opened Seating
  import opened RoomModel
  import opened RoomInvariants
  import opened RoomSeats
  import opened StoreModel
  import opened StoreInvariants
  import opened TicketModel
  import opened SystemModel
  import opened SystemInvariants
  import opened SystemRuns
  import opened SystemTables
  import Ipam

  /** No two players have tickets for one address. */
  ghost predicate Clear(t: Tickets) {
    forall a, b :: a in t && b in t && t[a].claims.virtualIP == t[b].claims.virtualIP ==>
      t[a].claims.player == t[b].claims.player
  }

  /** Whoever asks is in no open room but the one they ask for. */
  ghost predicate FreeFor(s: StoreState, p: Id, room: Id) {
    forall id :: Holds(s, id, p) ==> id == room
  }

  /** A door a host may put on: a kind of room that exists, a floor within bounds, a password where one is asked for. */
  predicate GoodDoor(d: Door) {
    d.privacy.Some? && 0 <= d.minMMR <= MAX_MIN_MMR && (d.privacy.value == Password ==> d.password != "")
  }

  ghost function MintedByCreate(s: StoreState, player: Id, id: Id, door: Option<Door>): Option<Claims> {
    var index := FreeIndex(s.indexes, 0);
    if FreeFor(s, player, NOBODY) && index < Ipam.MAX_ROOMS && (door.Some? ==> GoodDoor(door.value))
    then ClaimsAt(player, id, Ipam.MemberIP(index, 0)) else None
  }

  ghost function MintedByJoin(s: StoreState, room: Id, who: Applicant, now: int): Option<Claims> {
    if room in s.rooms && FreeFor(s, who.id, room) && MayJoin(s.rooms[room], who, now) && HostAddr(s.rooms[room]).Ok?
    then ClaimsAt(who.id, room, NextMemberIP(s.rooms[room])) else None
  }

  ghost function MintedByWatch(s: StoreState, room: Id, who: Applicant, now: int): Option<Claims> {
    if room in s.rooms && FreeFor(s, who.id, room) && MayWatch(s.rooms[room], who, now) && HostAddr(s.rooms[room]).Ok?
    then ClaimsAt(who.id, room, NextMemberIP(s.rooms[room])) else None
  }

  ghost function MintedByModerate(s: StoreState, room: Id, p: Id, now: int): Option<Claims> {
    if room in s.rooms && FreeFor(s, p, room) && MayModerate(s.rooms[room], p, now) && HostAddr(s.rooms[room]).Ok?
    then ClaimsAt(p, room, NextAdminIP(s.rooms[room])) else None
  }

  function MintedByConnect(s: StoreState, room: Id, p: Id): Option<Claims> {
    if room in s.rooms && Seated(s.rooms[room], p) && HostAddr(s.rooms[room]).Ok?
    then ClaimsAt(p, room, AddressIn(s.rooms[room], p)) else None
  }

  /** The ticket an event puts in the table, told from the state before it. */
  ghost function Minted(s: StoreState, e: Event): Option<Claims> {
    match e.act
    case Create(player, id, _, door) => if player == NOBODY then None else MintedByCreate(s, player, id, door)
    case JoinAs(room, who, _) => if who.id == NOBODY then None else MintedByJoin(s, room, who, e.now)
    case Spectate(room, who, _) => if who.id == NOBODY then None else MintedByWatch(s, room, who, e.now)
    case Moderate(room, player, _) => if player == NOBODY then None else MintedByModerate(s, room, player, e.now)
    case Connect(room, player, _) => if player == NOBODY then None else MintedByConnect(s, room, player)
    case _ => None
  }

  function ClaimsAt(player: Id, room: Id, a: Option<Ipam.Address>): Option<Claims> {
    match a case None => None case Some(ip) => Some(Claims(player, room, ip))
  }

  /** The lowest free address of the pool, and the address of the lowest free moderator's seat. */
  function NextMemberIP(r: RoomState): Option<Ipam.Address> {
    Ipam.MemberIP(r.index, FirstIndex(r.addr, NOBODY))
  }

  function NextAdminIP(r: RoomState): Option<Ipam.Address> {
    Ipam.AdminIP(r.index, FirstIndex(r.admins, NOBODY))
  }

  predicate FreshToken(t: Tickets, e: Event) {
    TokenOf(e.act).Some? ==> TokenOf(e.act).value !in t
  }

  /** What a minted ticket, or none, does to the table: it goes in, or the table is as it was. */
  ghost predicate Puts(y: SystemState, tok: Id, minted: Option<Claims>, after: SystemState, now: int) {
    match minted
    case Some(c) =>
      && c.room in after.store.rooms
      && after.tickets == y.tickets[tok := Entry(c, now + LIFETIME)]
      && forall k :: k in y.tickets ==>
           (y.tickets[k].claims.room in after.store.rooms <==> y.tickets[k].claims.room in y.store.rooms)
    case None => after.tickets == y.tickets
  }

  ghost predicate Fewer(t: Tickets, later: Tickets) {
    forall k :: k in later ==> k in t && later[k].claims == t[k].claims
  }

  ghost predicate Leaves(y: SystemState, e: Event, after: Tickets) {
    forall k :: LeavesOf(y, e, after, k)
  }

  lemma FreeExactly(s: StoreState, p: Id, room: Id)
    requires StoreInv(s) && p != NOBODY
    ensures Elsewhere(s, p, room).None? <==> FreeFor(s, p, room)
  {
    NotElsewhere(s, p, room);
  }

  /** A newcomer's address, and the host's, which a newcomer does not change. */
  lemma JoinAddresses(r: RoomState, who: Applicant, now: int)
    requires RoomInv(r) && 0 <= r.index < Ipam.MAX_ROOMS && who.id != NOBODY && Join(r, who, now).1.Ok?
    ensures var r' := Join(r, who, now).0;
            && (HostAddr(r').Ok? <==> HostAddr(r).Ok?)
            && AddressIn(r', who.id) == NextMemberIP(r) && NextMemberIP(r).Some?
            && MembershipFor(r', who.id).Ok? == HostAddr(r).Ok?
            && (HostAddr(r).Ok? ==> Some(MembershipFor(r', who.id).value.virtualIP) == NextMemberIP(r))
  {
    var r' := Join(r, who, now).0;
    JoinTakesLowest(r, who, now);
    JoinKeeps(r, who, now);
    NewcomerAddresses(r, r', who.id);
  }

  lemma WatchAddresses(r: RoomState, who: Applicant, now: int)
    requires RoomInv(r) && 0 <= r.index < Ipam.MAX_ROOMS && who.id != NOBODY && JoinObserver(r, who, now).1.Ok?
    ensures var r' := JoinObserver(r, who, now).0;
            && MembershipFor(r', who.id).Ok? == HostAddr(r).Ok? && NextMemberIP(r).Some?
            && (HostAddr(r).Ok? ==> Some(MembershipFor(r', who.id).value.virtualIP) == NextMemberIP(r))
  {
    var r' := JoinObserver(r, who, now).0;
    WatchExactly(r, who, now);
    JoinObserverKeeps(r, who, now);
    NewcomerAddresses(r, r', who.id);
  }

  lemma NewcomerAddresses(r: RoomState, r': RoomState, p: Id)
    requires RoomInv(r) && RoomInv(r') && 0 <= r.index < Ipam.MAX_ROOMS && r'.index == r.index && p != NOBODY
    requires r.status != Closed && r'.hostId == r.hostId && !Seated(r, p)
    requires var k := FirstIndex(r.addr, NOBODY); k < |r.addr| && r'.addr == r.addr[k := p]
    ensures HostAddr(r') == HostAddr(r)
    ensures NextMemberIP(r).Some? && AddressIn(r', p) == NextMemberIP(r)
    ensures MembershipFor(r', p).Ok? == HostAddr(r).Ok?
    ensures HostAddr(r).Ok? ==> Some(MembershipFor(r', p).value.virtualIP) == NextMemberIP(r)
  {
    var k := FirstIndex(r.addr, NOBODY);
    FirstIndexIs(r'.addr, p, k);
    HostHeld(r);
    var h := FirstIndex(r.addr, r.hostId);
    FirstIndexIs(r'.addr, r.hostId, h);
    Ipam.OffsetFromDecodes(r.index, Ipam.PLAYER_BASE_OFFSET + k);
    HostAddrExactly(r);
    MembershipByHost(r', p);
  }

  lemma HostHeld(r: RoomState)
    requires RoomInv(r) && r.status != Closed
    ensures FirstIndex(r.addr, r.hostId) < |r.addr|
  {
    assert r.hostId in if r.hostWatching then r.observers else r.slots;
    assert r.hostId in r.addr;
  }

  lemma MembershipByHost(r: RoomState, p: Id)
    requires 0 <= r.index < Ipam.MAX_ROOMS && FirstIndex(r.addr, p) < |r.addr| == Ipam.MEMBER_SLOTS
    ensures MembershipFor(r, p).Ok? <==> HostAddr(r).Ok?
    ensures MembershipFor(r, p).Ok? ==>
              && MembershipFor(r, p).value.roomId == r.id
              && Some(MembershipFor(r, p).value.virtualIP) == Ipam.MemberIP(r.index, FirstIndex(r.addr, p))
  {
    Ipam.OffsetFromDecodes(r.index, Ipam.PLAYER_BASE_OFFSET + FirstIndex(r.addr, p));
  }

  lemma ModeratorAddresses(r: RoomState, p: Id, now: int)
    requires RoomInv(r) && 0 <= r.index < Ipam.MAX_ROOMS && p != NOBODY && JoinAdmin(r, p, now).1.Ok?
    ensures var (r', answer) := JoinAdmin(r, p, now);
            && NextAdminIP(r).Some? && AdminMembershipFor(r', answer.value).Ok? == HostAddr(r).Ok?
            && (HostAddr(r).Ok? ==>
                  && AdminMembershipFor(r', answer.value).value.roomId == r.id
                  && Some(AdminMembershipFor(r', answer.value).value.virtualIP) == NextAdminIP(r))
  {
    var k := FirstIndex(r.admins, NOBODY);
    Ipam.OffsetFromDecodes(r.index, Ipam.ADMIN_BASE_OFFSET + k);
  }

  lemma JoinedTable(y: SystemState, room: Id, who: Applicant)
    requires SysInv(y) && who.id != NOBODY && room in y.store.rooms && Join(y.store.rooms[room], who, y.clock).1.Ok?
    ensures var r' := Join(y.store.rooms[room], who, y.clock).0;
            var m := MembershipFor(r', who.id);
            && (m.Ok? <==> HostAddr(y.store.rooms[room]).Ok?)
            && (m.Ok? ==>
                  && m.value.roomId == room
                  && ClaimsAt(who.id, room, NextMemberIP(y.store.rooms[room])) ==
                     Some(Claims(who.id, room, m.value.virtualIP)))
  {
    JoinAddresses(y.store.rooms[room], who, y.clock);
    MembershipTellsAddress(Join(y.store.rooms[room], who, y.clock).0, who.id);
  }

  lemma JoinTable(y: SystemState, room: Id, who: Applicant, tok: Id)
    requires SysInv(y) && who.id != NOBODY
    ensures Puts(y, tok, MintedByJoin(y.store, room, who, y.clock), JoinAct(y, room, who, tok), y.clock)
  {
    if room in y.store.rooms {
      FreeExactly(y.store, who.id, room);
      var r := y.store.rooms[room];
      JoinableIsHonest(r, who, y.clock);
      if Join(r, who, y.clock).1.Ok? { JoinedTable(y, room, who); }
    }
  }

  lemma SpectateTable(y: SystemState, room: Id, who: Applicant, tok: Id)
    requires SysInv(y) && who.id != NOBODY
    ensures Puts(y, tok, MintedByWatch(y.store, room, who, y.clock), SpectateAct(y, room, who, tok), y.clock)
  {
    if room in y.store.rooms {
      FreeExactly(y.store, who.id, room);
      var r := y.store.rooms[room];
      WatchExactly(r, who, y.clock);
      if JoinObserver(r, who, y.clock).1.Ok? {
        WatchAddresses(r, who, y.clock);
        MembershipTellsAddress(JoinObserver(r, who, y.clock).0, who.id);
      }
    }
  }

  lemma ModerateTable(y: SystemState, room: Id, player: Id, tok: Id)
    requires SysInv(y) && player != NOBODY
    ensures Puts(y, tok, MintedByModerate(y.store, room, player, y.clock), ModerateAct(y, room, player, tok), y.clock)
  {
    if room in y.store.rooms {
      FreeExactly(y.store, player, room);
      var r := y.store.rooms[room];
      ModerateExactly(r, player, y.clock);
      if JoinAdmin(r, player, y.clock).1.Ok? {
        ModeratorAddresses(r, player, y.clock);
      }
    }
  }

  lemma ConnectTable(y: SystemState, room: Id, player: Id, tok: Id)
    requires SysInv(y) && player != NOBODY
    ensures Puts(y, tok, MintedByConnect(y.store, room, player), ConnectAct(y, room, player, tok), y.clock)
  {
    if room in y.store.rooms {
      MembershipExactly(y.store, room, player);
    }
  }

  /** A new room's host is told the first address of its block. */
  lemma HostsFirstAddress(id: Id, index: int, player: Id)
    requires 0 <= index < Ipam.MAX_ROOMS && player != NOBODY
    ensures var m := MembershipFor(NewRoom(id, index, player), player);
            m.Ok? && m.value.roomId == id && Ipam.MemberIP(index, 0) == Some(m.value.virtualIP)
  {
    var r := NewRoom(id, index, player);
    NewRoomInv(id, index, player);
    HostAddrExactly(r);
    MembershipByHost(r, player);
  }

  lemma DoorAccepted(s: StoreState, id: Id, index: int, player: Id, d: Door)
    requires id in s.rooms && s.rooms[id] == NewRoom(id, index, player)
    ensures SetRoomPrivacy(s, id, player, d.privacy, d.password, d.minMMR).1.None? <==> GoodDoor(d)
    ensures id in SetRoomPrivacy(s, id, player, d.privacy, d.password, d.minMMR).0.rooms
    ensures SetRoomPrivacy(s, id, player, d.privacy, d.password, d.minMMR).0.rooms.Keys == s.rooms.Keys
  {
  }

  /** A room made, its ticket issued, and nothing else in the table touched. */
  lemma MadeTable(y: SystemState, player: Id, id: Id, tok: Id, index: int)
    requires SysInv(y) && player != NOBODY && id !in y.store.issued && 0 <= index < Ipam.MAX_ROOMS
    ensures var r := NewRoom(id, index, player);
            var store := StoreState(y.store.rooms[id := r], y.store.indexes[index := id], y.store.issued + {id});
            var made := Issued(y.(store := store), tok, player, MembershipFor(r, player));
            && made.store == store && MembershipFor(r, player).Ok?
            && Puts(y, tok, ClaimsAt(player, id, Ipam.MemberIP(index, 0)), made, y.clock)
  {
    HostsFirstAddress(id, index, player);
    assert forall k :: k in y.tickets ==> TicketOk(y.store, y.tickets[k].claims);
  }

  lemma TakenBackTable(y: SystemState, made: SystemState, id: Id, tok: Id, c: Claims, after: SystemState)
    requires SysInv(y) && id !in y.store.issued && c.room == id && tok !in y.tickets
    requires made.tickets == y.tickets[tok := Entry(c, y.clock + LIFETIME)]
    requires after.tickets == RevokeRooms(made.tickets, {id})
    ensures after.tickets == y.tickets
  {
    assert forall k :: k in y.tickets ==> TicketOk(y.store, y.tickets[k].claims);
  }

  lemma CreateTable(y: SystemState, player: Id, id: Id, tok: Id, door: Option<Door>)
    requires SysInv(y) && player != NOBODY && id != NOBODY && id !in y.store.issued && tok !in y.tickets
    ensures Puts(y, tok, MintedByCreate(y.store, player, id, door), CreateAct(y, player, id, tok, door), y.clock)
  {
    FreeExactly(y.store, player, NOBODY);
    var index := FreeIndex(y.store.indexes, 0);
    if FreeFor(y.store, player, NOBODY) && index < Ipam.MAX_ROOMS {
      CreatedTable(y, player, id, tok, door, index);
    } else {
      assert CreateAct(y, player, id, tok, door) == y;
    }
  }

  lemma CreatedTable(y: SystemState, player: Id, id: Id, tok: Id, door: Option<Door>, index: int)
    requires SysInv(y) && player != NOBODY && id !in y.store.issued && tok !in y.tickets
    requires index == FreeIndex(y.store.indexes, 0) < Ipam.MAX_ROOMS && Elsewhere(y.store, player, NOBODY).None?
    ensures Puts(y, tok, if door.Some? && !GoodDoor(door.value) then None
                         else ClaimsAt(player, id, Ipam.MemberIP(index, 0)),
                 CreateAct(y, player, id, tok, door), y.clock)
  {
    MadeTable(y, player, id, tok, index);
    if door.Some? { DoorOnNewRoom(y, player, id, tok, index, door.value); }
  }

  lemma DoorOnNewRoom(y: SystemState, player: Id, id: Id, tok: Id, index: int, d: Door)
    requires SysInv(y) && player != NOBODY && id !in y.store.issued && tok !in y.tickets && 0 <= index < Ipam.MAX_ROOMS
    ensures var r := NewRoom(id, index, player);
            var store := StoreState(y.store.rooms[id := r], y.store.indexes[index := id], y.store.issued + {id});
            var made := Issued(y.(store := store), tok, player, MembershipFor(r, player));
            Puts(y, tok, if GoodDoor(d) then ClaimsAt(player, id, Ipam.MemberIP(index, 0)) else None,
                 Doored(made, player, id, d), y.clock)
  {
    var r := NewRoom(id, index, player);
    var store := StoreState(y.store.rooms[id := r], y.store.indexes[index := id], y.store.issued + {id});
    var made := Issued(y.(store := store), tok, player, MembershipFor(r, player));
    MadeTable(y, player, id, tok, index);
    DoorAccepted(store, id, index, player, d);
    DooredTable(made, player, id, d);
    if !GoodDoor(d) {
      HostsFirstAddress(id, index, player);
      TakenBackTable(y, made, id, tok, made.tickets[tok].claims, Doored(made, player, id, d));
    }
  }

  lemma DooredTable(made: SystemState, player: Id, id: Id, d: Door)
    ensures var refused := SetRoomPrivacy(made.store, id, player, d.privacy, d.password, d.minMMR).1;
            Doored(made, player, id, d).tickets == if refused.None? then made.tickets
                else RevokeRooms(made.tickets, {id})
  {
  }

  /** Every other event mints nothing, and leaves what it does not take back. */
  lemma OthersMintNothing(y: SystemState, e: Event)
    requires TokenOf(e.act).None?
    ensures Leaves(y, e, Step(y, e).tickets) && Fewer(y.tickets, Step(y, e).tickets) && Minted(y.store, e).None?
  {
    forall k ensures LeavesOf(y, e, Step(y, e).tickets, k) {
      TicketsLeftExactly(y, e, k);
    }
  }

  lemma AdmissionsTable(y: SystemState, e: Event)
    requires SysInv(y) && Fair(y, e) && (e.act.JoinAs? || e.act.Spectate?)
    ensures Puts(y, e.act.tok, Minted(y.store, e), Step(y, e), e.now)
  {
    ClockAdvances(y, e.now);
    var now := y.(clock := e.now);
    if e.act.who.id != NOBODY {
      if e.act.JoinAs? { JoinTable(now, e.act.room, e.act.who, e.act.tok); }
      else { SpectateTable(now, e.act.room, e.act.who, e.act.tok); }
    }
  }

  lemma StaffAndConnectTable(y: SystemState, e: Event)
    requires SysInv(y) && Fair(y, e) && (e.act.Moderate? || e.act.Connect?)
    ensures Puts(y, e.act.tok, Minted(y.store, e), Step(y, e), e.now)
  {
    ClockAdvances(y, e.now);
    var now := y.(clock := e.now);
    if e.act.player != NOBODY {
      if e.act.Moderate? { ModerateTable(now, e.act.room, e.act.player, e.act.tok); }
      else { ConnectTable(now, e.act.room, e.act.player, e.act.tok); }
    }
  }

  lemma CreationTable(y: SystemState, e: Event)
    requires SysInv(y) && Fair(y, e) && e.act.Create? && e.act.tok !in y.tickets
    ensures Puts(y, e.act.tok, Minted(y.store, e), Step(y, e), e.now)
  {
    ClockAdvances(y, e.now);
    var a := e.act;
    if a.player != NOBODY { CreateTable(y.(clock := e.now), a.player, a.id, a.tok, a.door); }
  }

  /** What each event does to the ticket table, exactly: the ticket told goes in and nothing else changes, or the
      tickets told go and nothing else changes but the time of a ticket that is renewed. */
  lemma TableAfter(y: SystemState, e: Event)
    requires SysInv(y) && Fair(y, e) && FreshToken(y.tickets, e)
    ensures TokenOf(e.act).Some? ==> Puts(y, TokenOf(e.act).value, Minted(y.store, e), Step(y, e), e.now)
    ensures TokenOf(e.act).None? ==> Leaves(y, e, Step(y, e).tickets) && Minted(y.store, e).None?
    ensures Minted(y.store, e).None? ==> Fewer(y.tickets, Step(y, e).tickets)
  {
    match e.act {
      case Create(_, _, _, _) => CreationTable(y, e);
      case JoinAs(_, _, _) => AdmissionsTable(y, e);
      case Spectate(_, _, _) => AdmissionsTable(y, e);
      case Moderate(_, _, _) => StaffAndConnectTable(y, e);
      case Connect(_, _, _) => StaffAndConnectTable(y, e);
      case _ => OthersMintNothing(y, e);
    }
  }

  /** A ticket out for a room that is no longer held, with the address an event is about to give somebody else. */
  predicate Stray(y: SystemState, k: Id, c: Claims) {
    k in y.tickets && y.tickets[k].claims.room !in y.store.rooms
    && y.tickets[k].claims.virtualIP == c.virtualIP && y.tickets[k].claims.player != c.player
  }

  ghost predicate Collides(y: SystemState, e: Event) {
    Minted(y.store, e).Some? && exists k :: Stray(y, k, Minted(y.store, e).value)
  }

  /** Two tickets for rooms that are held have one address only if they have one player. */
  lemma HeldNeverCollide(s: StoreState, c: Claims, d: Claims)
    requires StoreInv(s) && TicketOk(s, c) && TicketOk(s, d) && c.room in s.rooms && d.room in s.rooms
    ensures c.virtualIP == d.virtualIP ==> c.player == d.player
  {
    SeatedHaveBerths(s.rooms[c.room], c.player);
    SeatedHaveBerths(s.rooms[d.room], d.player);
    AddressesAreDistinct(s, c.room, c.player, d.room, d.player);
  }

  lemma MintedBesideOthers(y: SystemState, tok: Id, c: Claims, after: SystemState, now: int, k: Id)
    requires SysInv(y) && SysInv(after) && tok !in y.tickets && Puts(y, tok, Some(c), after, now) && k in y.tickets
    ensures y.tickets[k].claims.virtualIP == c.virtualIP ==> y.tickets[k].claims.player == c.player || Stray(y, k, c)
  {
    assert after.tickets[k] == y.tickets[k] && after.tickets[tok].claims == c;
    assert TicketOk(after.store, after.tickets[k].claims) && TicketOk(after.store, after.tickets[tok].claims);
    if y.tickets[k].claims.room in after.store.rooms {
      HeldNeverCollide(after.store, y.tickets[k].claims, c);
    }
  }

  lemma PutsClearExactly(y: SystemState, tok: Id, c: Claims, after: SystemState, now: int)
    requires SysInv(y) && SysInv(after) && tok !in y.tickets && Puts(y, tok, Some(c), after, now) && Clear(y.tickets)
    ensures Clear(after.tickets) <==> !exists k :: Stray(y, k, c)
  {
    if k :| Stray(y, k, c) {
      assert after.tickets[k] == y.tickets[k] && after.tickets[tok].claims == c;
    } else {
      forall a, b | a in after.tickets && b in after.tickets && a != b
                    && after.tickets[a].claims.virtualIP == after.tickets[b].claims.virtualIP
        ensures after.tickets[a].claims.player == after.tickets[b].claims.player
      {
        if a == tok { MintedBesideOthers(y, tok, c, after, now, b); }
        if b == tok { MintedBesideOthers(y, tok, c, after, now, a); }
      }
    }
  }

  /** The exact condition: while no two players have tickets for one address, an event breaks that if and only if it
      gives somebody an address that a ticket of another player still names for a room no longer held. */
  lemma ClearExactly(y: SystemState, e: Event)
    requires SysInv(y) && Fair(y, e) && Clear(y.tickets) && FreshToken(y.tickets, e)
    ensures Clear(Step(y, e).tickets) <==> !Collides(y, e)
  {
    TableAfter(y, e);
    StepKeeps(y, e);
    if Minted(y.store, e).Some? {
      PutsClearExactly(y, TokenOf(e.act).value, Minted(y.store, e).value, Step(y, e), e.now);
    }
  }
}
