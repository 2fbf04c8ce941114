/** What every event does to every room and every ticket, told from the tables before it alone. */
module SystemTables {
  import opened Basics
  import opened RoomModel
  import opened RoomInvariants
  import opened StoreModel
  import opened StoreInvariants
  import opened TicketModel
  import opened SystemModel
  import opened SystemInvariants
  import opened SystemRuns

  /** The token a request would draw. */
  function TokenOf(a: Act): Option<Id> {
    match a
    case Create(_, _, tok, _) => Some(tok)
    case JoinAs(_, _, tok) => Some(tok)
    case Spectate(_, _, tok) => Some(tok)
    case Moderate(_, _, tok) => Some(tok)
    case Connect(_, _, tok) => Some(tok)
    case _ => None
  }

  /** The registry knows the host and has them online. */
  predicate SeenOnline(known: map<Id, HostFacts>, host: Id) {
    host in known && known[host].online
  }

  /** The room is open, and a turn of the timer will find its host gone. */
  predicate LosesItsHost(s: StoreState, id: Id, hosts: Option<map<Id, HostFacts>>) {
    id in s.rooms && s.rooms[id].status != Closed && hosts.Some? && !SeenOnline(hosts.value, s.rooms[id].hostId)
  }

  /** The ticket goes with this event: its player leaves, is kicked or evicted; its room is shut down, or is ended by
      its host's leaving, by the host's eviction, or by the timer not finding the host; or the timer finds it run out.
      */
  predicate TakenBack(s: StoreState, e: Event, t: Entry) {
    var held := t.claims.room in s.rooms;
    match e.act
    case Depart(room, player) =>
      && held && t.claims.room == room
      && (t.claims.player == player || (s.rooms[room].status != Closed && s.rooms[room].hostId == player))
    case KickOut(room, actor, target) =>
      && held && t.claims.room == room && t.claims.player == target
      && s.rooms[room].hostId == actor && s.rooms[room].hostId != target
    case ShutDown(room) => held && t.claims.room == room
    case Evict(player) =>
      && held && s.rooms[t.claims.room].status != Closed && Seated(s.rooms[t.claims.room], player)
      && (t.claims.player == player || s.rooms[t.claims.room].hostId == player)
    case Timer(hosts) => t.expires < e.now || LosesItsHost(s, t.claims.room, hosts)
    case _ => false
  }

  lemma DepartTakes(y: SystemState, now: int, room: Id, player: Id, k: Id)
    ensures var e := At(now, Depart(room, player));
            k in Step(y, e).tickets <==> k in y.tickets && !TakenBack(y.store, e, y.tickets[k])
  {
  }

  lemma KickTakes(y: SystemState, now: int, room: Id, actor: Id, target: Id, k: Id)
    ensures var e := At(now, KickOut(room, actor, target));
            k in Step(y, e).tickets <==> k in y.tickets && !TakenBack(y.store, e, y.tickets[k])
  {
  }

  lemma EvictTakes(y: SystemState, now: int, player: Id, k: Id)
    ensures var e := At(now, Evict(player));
            k in Step(y, e).tickets <==> k in y.tickets && !TakenBack(y.store, e, y.tickets[k])
  {
    if k in y.tickets && y.tickets[k].claims.room in y.store.rooms {
      var r := y.store.rooms[y.tickets[k].claims.room];
      assert SlotOf(r, player).Some? <==> Seated(r, player);
    }
  }

  lemma TimerTakes(y: SystemState, now: int, hosts: Option<map<Id, HostFacts>>, k: Id)
    ensures var e := At(now, Timer(hosts));
            k in Step(y, e).tickets <==> k in y.tickets && !TakenBack(y.store, e, y.tickets[k])
  {
  }

  /** The ticket is there afterwards exactly when it was there and is not taken back, and it is as it was, but for its
      time when it is the one renewed, and renewed in time. */
  predicate LeavesOf(y: SystemState, e: Event, after: Tickets, k: Id) {
    && (k in after <==> k in y.tickets && !TakenBack(y.store, e, y.tickets[k]))
    && (k in after ==>
          var t := y.tickets[k];
          after[k] == if e.act == RenewLease(k) && e.now <= t.expires then t.(expires := e.now + LIFETIME) else t)
  }

  /** What an event that mints no ticket does to any ticket, exactly. */
  lemma TicketsLeftExactly(y: SystemState, e: Event, k: Id)
    requires TokenOf(e.act).None?
    ensures LeavesOf(y, e, Step(y, e).tickets, k)
  {
    match e.act {
      case Depart(room, player) => DepartTakes(y, e.now, room, player, k);
      case KickOut(room, actor, target) => KickTakes(y, e.now, room, actor, target, k);
      case Evict(player) => EvictTakes(y, e.now, player, k);
      case Timer(hosts) => TimerTakes(y, e.now, hosts, k);
      case _ =>
    }
  }

  lemma TimerStep(y: SystemState, now: int, hosts: Option<map<Id, HostFacts>>)
    ensures Step(y, At(now, Timer(hosts))).store == Tick(y.store, hosts, now)
  {
  }

  /** A room after a turn that asks the registry: ended at that moment exactly when the registry does not know its
      host or has them offline, with the host in a game exactly as the registry says, and otherwise as it was. */
  predicate SeenAs(r: RoomState, r': RoomState, known: map<Id, HostFacts>, now: int) {
    && r'.status == (if SeenOnline(known, r.hostId) then r.status else Closed)
    && r'.closedAt == (if SeenOnline(known, r.hostId) then r.closedAt else Some(now))
    && r'.hostInGame == (r.hostId in known && known[r.hostId].inGame)
    && r' == r.(status := r'.status, closedAt := r'.closedAt, hostInGame := r'.hostInGame)
  }

  lemma LookedOpen(r: RoomState, known: map<Id, HostFacts>, now: int)
    requires r.status != Closed
    ensures SeenAs(r, Looked(r, Some(known), now), known, now) && !StoreModel.Expired(Looked(r, Some(known), now), now)
  {
  }

  lemma IndexFollows(s: StoreState, s': StoreState, id: Id)
    requires StoreInv(s') && id in s'.rooms && id in s.rooms && s'.rooms[id].index == s.rooms[id].index
    ensures s.rooms[id].index in s'.indexes && s'.indexes[s.rooms[id].index] == id
  {
  }

  /** A timer turn on an open room: the room stays, under its index, and is seen as the registry has its host. */
  lemma TimerOnOpenRoom(y: SystemState, now: int, known: map<Id, HostFacts>, id: Id)
    requires SysInv(y) && y.clock <= now && id in y.store.rooms && y.store.rooms[id].status != Closed
    ensures var r, after := y.store.rooms[id], Step(y, At(now, Timer(Some(known)))).store;
            && id in after.rooms && SeenAs(r, after.rooms[id], known, now)
            && r.index in after.indexes && after.indexes[r.index] == id
  {
    TimerStep(y, now, Some(known));
    TickKeeps(y.store, Some(known), now);
    LookedOpen(y.store.rooms[id], known, now);
    IndexFollows(y.store, Tick(y.store, Some(known), now), id);
  }

  /** A timer turn on a room that has ended, and one with no registry to ask on any room: the room is left exactly as
      it is, until a room that has ended is past its five minutes or never had its ending dated; then it goes. */
  lemma TimerOnEndedRoom(y: SystemState, now: int, hosts: Option<map<Id, HostFacts>>, id: Id)
    requires SysInv(y) && y.clock <= now && id in y.store.rooms && (y.store.rooms[id].status == Closed || hosts.None?)
    ensures var r, after := y.store.rooms[id], Step(y, At(now, Timer(hosts))).store;
            && (id in after.rooms <==>
                  r.status != Closed || (r.closedAt.Some? && now <= r.closedAt.value + 5 * MINUTE))
            && (id in after.rooms ==> after.rooms[id] == r)
            && (id !in after.rooms ==> r.index !in after.indexes)
  {
    TimerStep(y, now, hosts);
    TickKeeps(y.store, hosts, now);
    SweptAreExpired(y.store, hosts, now, id);
    LookedEnded(y.store.rooms[id], hosts, now);
  }

  lemma LookedEnded(r: RoomState, hosts: Option<map<Id, HostFacts>>, now: int)
    requires r.status == Closed || hosts.None?
    ensures Looked(r, hosts, now) == r
    ensures StoreModel.Expired(r, now) <==>
              r.status == Closed && (r.closedAt.Some? ==> now > r.closedAt.value + 5 * MINUTE)
  {
  }
}
